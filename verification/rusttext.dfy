/**
 * Rust `String` editing as the text widgets use it: the text is a sequence
 * of Unicode scalar values, but every position (`len`, the cursor,
 * `insert_str`, `remove`) is a byte offset into its UTF-8 encoding. An
 * offset that falls inside a character's encoding is not a char boundary,
 * and `insert_str` and `remove` panic there; a panic is `Err`.
 */
module RustText {
  import opened Wrappers

  /** The number of bytes UTF-8 uses for c (`char::len_utf8`). */
  function Width(c: char): (n: nat)
    ensures 1 <= n <= 4
    ensures n == 1 <==> (c as int) < 0x80
  {
    var u := c as int;
    if u < 0x80 then 1 else if u < 0x800 then 2 else if u < 0x10000 then 3 else 4
  }

  /** `str::len`: the length of the UTF-8 encoding. */
  function ByteLen(s: string): (n: nat)
    ensures n >= |s|
    decreases |s|
  {
    if |s| == 0 then 0 else Width(s[0]) + ByteLen(s[1..])
  }

  lemma {:induction false} ByteLenAppend(a: string, b: string)
    ensures ByteLen(a + b) == ByteLen(a) + ByteLen(b)
    decreases |a|
  {
    if |a| > 0 {
      assert (a + b)[1..] == a[1..] + b;
      ByteLenAppend(a[1..], b);
    } else {
      assert a + b == b;
    }
  }

  /** The byte offset where character k starts. */
  function Offset(t: string, k: nat): nat
    requires k <= |t|
  {
    ByteLen(t[..k])
  }

  /** Character k starts right after the offset of k-1 and its width. */
  lemma OffsetStep(t: string, k: nat)
    requires k < |t|
    ensures Offset(t, k + 1) == Offset(t, k) + Width(t[k])
  {
    assert t[..k + 1] == t[..k] + [t[k]];
    ByteLenAppend(t[..k], [t[k]]);
    assert [t[k]][1..] == [];
  }

  /**
   * The character index at byte offset i, if i is a char boundary: the
   * start of some character, or the end of the text.
   */
  function CharAt(t: string, i: nat): (r: Option<nat>)
    decreases |t|
  {
    if i == 0 then Some(0)
    else if |t| == 0 || i < Width(t[0]) then None
    else match CharAt(t[1..], i - Width(t[0]))
      case None => None
      case Some(k) => Some(k + 1)
  }

  /** The offset of character k of t is the offset of k-1 in the tail, shifted by the head's width. */
  lemma OffsetTail(t: string, k: nat)
    requires 0 < k <= |t|
    ensures Offset(t, k) == Width(t[0]) + Offset(t[1..], k - 1)
  {
    assert t[..k][1..] == t[1..][..k - 1];
  }

  /** `CharAt` finds exactly the character whose offset is i. */
  lemma {:induction false} CharAtSpec(t: string, i: nat)
    ensures CharAt(t, i).Some? ==> CharAt(t, i).value <= |t| && Offset(t, CharAt(t, i).value) == i
    ensures forall k :: 0 <= k <= |t| && Offset(t, k) == i ==> CharAt(t, i) == Some(k)
    decreases |t|
  {
    if i != 0 && |t| > 0 && i >= Width(t[0]) {
      CharAtSpec(t[1..], i - Width(t[0]));
      var r := CharAt(t[1..], i - Width(t[0]));
      if r.Some? {
        OffsetTail(t, r.value + 1);
      }
      forall k | 0 <= k <= |t| && Offset(t, k) == i
        ensures CharAt(t, i) == Some(k)
      {
        assert k > 0;
        OffsetTail(t, k);
      }
    } else if i != 0 && |t| > 0 {
      assert forall k :: 0 <= k <= |t| ==> Offset(t, k) != i;
    }
  }

  /** Offsets of characters are their own boundaries. */
  lemma CharAtOffset(t: string, k: nat)
    requires k <= |t|
    ensures CharAt(t, Offset(t, k)) == Some(k)
  {
    CharAtSpec(t, Offset(t, k));
  }

  /** `str::is_char_boundary`. */
  predicate IsCharBoundary(t: string, i: nat) {
    CharAt(t, i).Some?
  }

  /**
   * `String::insert_str(i, s)`: panics unless i is a char boundary; the
   * inserted characters start at character index `CharAt(t, i)`.
   */
  function InsertStr(t: string, i: nat, s: string): (r: Result<string, string>)
    ensures r.Ok? <==> IsCharBoundary(t, i)
  {
    match CharAt(t, i)
    case None => Err("assertion failed: self.is_char_boundary(idx)")
    case Some(k) =>
      CharAtSpec(t, i);
      Ok(t[..k] + s + t[k..])
  }

  /**
   * `String::remove(i)`: removes the character starting at byte i; panics
   * when i is the end of the text or not a char boundary.
   */
  function Remove(t: string, i: nat): (r: Result<string, string>)
    ensures r.Ok? <==> IsCharBoundary(t, i) && CharAt(t, i).value < |t|
  {
    match CharAt(t, i)
    case None => Err("byte index is not a char boundary")
    case Some(k) =>
      CharAtSpec(t, i);
      if k == |t| then Err("cannot remove a char from the end of a string") else Ok(t[..k] + t[k + 1..])
  }

  /** Every character of s is one byte long. */
  predicate Ascii(s: string) {
    forall j :: 0 <= j < |s| ==> (s[j] as int) < 0x80
  }

  /** In single-byte text offsets are character indices. */
  lemma {:induction false} AsciiOffsets(t: string)
    requires Ascii(t)
    ensures ByteLen(t) == |t|
    ensures forall k :: 0 <= k <= |t| ==> Offset(t, k) == k
    decreases |t|
  {
    if |t| > 0 {
      AsciiOffsets(t[1..]);
      forall k | 0 < k <= |t| ensures Offset(t, k) == k {
        OffsetTail(t, k);
      }
    }
    assert t[..|t|] == t;
  }

  /** In single-byte text every offset up to the length is a boundary, naming the same index. */
  lemma AsciiBoundary(t: string, i: nat)
    requires Ascii(t) && i <= |t|
    ensures ByteLen(t) == |t| && CharAt(t, i) == Some(i)
  {
    AsciiOffsets(t);
    CharAtOffset(t, i);
  }

  /**
   * Single-byte text edits by index: `insert_str` splices at i and `remove`
   * drops character i; nothing panics.
   */
  lemma AsciiEdits(t: string, i: nat, s: string)
    requires Ascii(t) && i <= |t|
    ensures InsertStr(t, i, s) == Ok(t[..i] + s + t[i..])
    ensures i < |t| ==> Remove(t, i) == Ok(t[..i] + t[i + 1..])
  {
    AsciiBoundary(t, i);
  }

  lemma AsciiConcat(a: string, b: string)
    requires Ascii(a) && Ascii(b)
    ensures Ascii(a + b)
  {
  }

  /** The end of a prefix is a boundary of the whole text. */
  lemma PrefixBoundary(pre: string, rest: string)
    ensures CharAt(pre + rest, ByteLen(pre)) == Some(|pre|)
  {
    var u := pre + rest;
    assert u[..|pre|] == pre;
    CharAtOffset(u, |pre|);
  }

  /** Inserting s grows the byte length by that of s. */
  lemma InsertLength(t: string, k: nat, s: string)
    requires k <= |t|
    ensures ByteLen(t[..k] + s + t[k..]) == ByteLen(t) + ByteLen(s)
  {
    ByteLenAppend(t[..k] + s, t[k..]);
    ByteLenAppend(t[..k], s);
    ByteLenAppend(t[..k], t[k..]);
    assert t[..k] + t[k..] == t;
  }

  /** After removing character k, character k - 1 ends where it did. */
  lemma RemoveBoundary(t: string, k: nat)
    requires k < |t|
    ensures var u := t[..k] + t[k + 1..];
      CharAt(u, Offset(t, k)) == Some(k) && ByteLen(u) + Width(t[k]) == ByteLen(t)
  {
    var u := t[..k] + t[k + 1..];
    assert u[..k] == t[..k];
    CharAtOffset(u, k);
    ByteLenAppend(t[..k], t[k + 1..]);
    assert t == t[..k] + [t[k]] + t[k + 1..];
    ByteLenAppend(t[..k] + [t[k]], t[k + 1..]);
    ByteLenAppend(t[..k], [t[k]]);
    assert [t[k]][1..] == [];
  }

  /** Offsets grow with the character index, up to the byte length. */
  lemma {:induction false} OffsetMono(t: string, j: nat, k: nat)
    requires j <= k <= |t|
    ensures Offset(t, j) <= Offset(t, k) <= ByteLen(t)
    ensures j < k ==> Offset(t, j) < Offset(t, k)
    decreases (|t| - j) + (|t| - k)
  {
    if j < k {
      OffsetMono(t, j + 1, k);
      OffsetStep(t, j);
    } else {
      if k < |t| {
        OffsetMono(t, k, |t|);
      } else {
        assert t[..|t|] == t;
      }
    }
  }
}
