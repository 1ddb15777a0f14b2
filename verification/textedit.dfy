/**
 * The cursor editing both text widgets perform on a `String` and a byte
 * cursor (src/abs/ui.rs `TextField::update`,
 * mp3d-client/src/render/ui/widgets/inputfield.rs `InputField::update`).
 *
 * As written, Backspace, Left and Right step the cursor by one byte. In
 * text with multi-byte characters that lands inside a character, and the
 * next `remove` or `insert_str` panics. The `Fixed` operations step by
 * whole characters instead; they agree with the written ones on
 * single-byte text.
 */
module TextEdit {
  import opened Wrappers
  import opened RustText

  /** The text and the byte offset of the cursor. */
  datatype Edit = Edit(text: string, cursor: nat)

  /** The cursor sits on a char boundary, where editing cannot panic. */
  predicate AtBoundary(e: Edit) {
    IsCharBoundary(e.text, e.cursor)
  }

  /** Typed text: `insert_str` at the cursor, then advance by its byte length. */
  function Insert(e: Edit, s: string): (r: Result<Edit, string>)
    ensures r.Ok? <==> AtBoundary(e)
  {
    match InsertStr(e.text, e.cursor, s)
    case Err(m) => Err(m)
    case Ok(t) => Ok(Edit(t, e.cursor + ByteLen(s)))
  }

  /** Backspace as written: remove at cursor - 1 and step back one byte. */
  function BackspaceAsWritten(e: Edit): (r: Result<Edit, string>)
    ensures e.cursor == 0 ==> r == Ok(e)
    ensures e.cursor > 0 ==> (r.Ok? <==> IsCharBoundary(e.text, e.cursor - 1) && CharAt(e.text, e.cursor - 1).value < |e.text|)
  {
    if e.cursor == 0 then Ok(e)
    else match Remove(e.text, e.cursor - 1)
      case Err(m) => Err(m)
      case Ok(t) => Ok(Edit(t, e.cursor - 1))
  }

  /** Delete: remove the character at the cursor when the cursor is before the end. */
  function Delete(e: Edit): (r: Result<Edit, string>)
    ensures e.cursor >= ByteLen(e.text) ==> r == Ok(e)
    ensures r.Ok? ==> r.value.cursor == e.cursor
  {
    if e.cursor < ByteLen(e.text) then
      match Remove(e.text, e.cursor)
      case Err(m) => Err(m)
      case Ok(t) => Ok(Edit(t, e.cursor))
    else Ok(e)
  }

  /** Left as written: one byte back, stopping at 0. */
  function LeftAsWritten(e: Edit): (r: Edit)
    ensures r.text == e.text && r.cursor == if e.cursor > 0 then e.cursor - 1 else 0
  {
    if e.cursor > 0 then e.(cursor := e.cursor - 1) else e
  }

  /** Right as written: one byte on, stopping at the byte length. */
  function RightAsWritten(e: Edit): (r: Edit)
    ensures r.text == e.text
    ensures e.cursor < ByteLen(e.text) ==> r.cursor == e.cursor + 1
    ensures e.cursor >= ByteLen(e.text) ==> r.cursor == e.cursor
  {
    if e.cursor < ByteLen(e.text) then e.(cursor := e.cursor + 1) else e
  }

  function Home(e: Edit): (r: Edit)
    ensures AtBoundary(r) && r.cursor == 0 && r.text == e.text
  {
    e.(cursor := 0)
  }

  function End(e: Edit): (r: Edit)
    ensures AtBoundary(r) && r.cursor == ByteLen(e.text) && r.text == e.text
  {
    assert e.text[..|e.text|] == e.text;
    CharAtOffset(e.text, |e.text|);
    e.(cursor := ByteLen(e.text))
  }

  // ---------------------------------------------------------------------------
  // The character-wise corrections
  // ---------------------------------------------------------------------------

  /** Backspace by whole characters: drop the character before the cursor and move to its start. */
  function BackspaceFixed(e: Edit): (r: Result<Edit, string>)
    ensures AtBoundary(e) ==> r.Ok? && AtBoundary(r.value)
  {
    if e.cursor == 0 then Ok(e)
    else match CharAt(e.text, e.cursor)
      case None => Err("byte index is not a char boundary")
      case Some(k) =>
        CharAtSpec(e.text, e.cursor);
        if k == 0 then Ok(e)
        else
          RemoveBoundary(e.text, k - 1);
          Ok(Edit(e.text[..k - 1] + e.text[k..], Offset(e.text, k - 1)))
  }

  /** Left by whole characters. */
  function LeftFixed(e: Edit): (r: Edit)
    ensures r.text == e.text
    ensures AtBoundary(e) ==> AtBoundary(r)
  {
    if e.cursor == 0 then e
    else match CharAt(e.text, e.cursor)
      case None => e.(cursor := e.cursor - 1)
      case Some(k) =>
        CharAtSpec(e.text, e.cursor);
        if k == 0 then e
        else
          CharAtOffset(e.text, k - 1);
          e.(cursor := Offset(e.text, k - 1))
  }

  /** Right by whole characters. */
  function RightFixed(e: Edit): (r: Edit)
    ensures r.text == e.text
    ensures AtBoundary(e) ==> AtBoundary(r)
  {
    if e.cursor >= ByteLen(e.text) then e
    else match CharAt(e.text, e.cursor)
      case None => e.(cursor := e.cursor + 1)
      case Some(k) =>
        CharAtSpec(e.text, e.cursor);
        if k >= |e.text| then e
        else
          CharAtOffset(e.text, k + 1);
          e.(cursor := Offset(e.text, k + 1))
  }

  // ---------------------------------------------------------------------------
  // Properties
  // ---------------------------------------------------------------------------

  /**
   * Typing at a boundary splices the text in at the cursor's character,
   * grows the byte length by the text's, and leaves the cursor on the
   * boundary just after it.
   */
  lemma InsertSpec(e: Edit, s: string)
    requires AtBoundary(e)
    ensures var k := CharAt(e.text, e.cursor).value;
      && k <= |e.text|
      && Insert(e, s) == Ok(Edit(e.text[..k] + s + e.text[k..], e.cursor + ByteLen(s)))
      && AtBoundary(Insert(e, s).value)
      && ByteLen(Insert(e, s).value.text) == ByteLen(e.text) + ByteLen(s)
  {
    var k := CharAt(e.text, e.cursor).value;
    CharAtSpec(e.text, e.cursor);
    ByteLenAppend(e.text[..k], s);
    PrefixBoundary(e.text[..k] + s, e.text[k..]);
    InsertLength(e.text, k, s);
  }

  /** Delete at a boundary never panics and keeps the cursor on a boundary. */
  lemma DeleteKeepsBoundary(e: Edit)
    requires AtBoundary(e)
    ensures Delete(e).Ok? && AtBoundary(Delete(e).value)
  {
    if e.cursor < ByteLen(e.text) {
      var k := CharAt(e.text, e.cursor).value;
      CharAtSpec(e.text, e.cursor);
      assert e.text[..|e.text|] == e.text;
      if k == |e.text| {
        assert false;
      }
      RemoveBoundary(e.text, k);
    }
  }

  /** Backspace undoes typing one character, whatever its width. */
  lemma BackspaceUndoesInsert(e: Edit, c: char)
    requires AtBoundary(e)
    ensures BackspaceFixed(Insert(e, [c]).value) == Ok(e)
  {
    var t := e.text;
    var k := CharAt(t, e.cursor).value;
    CharAtSpec(t, e.cursor);
    InsertSpec(e, [c]);
    var pre := t[..k] + [c];
    var u := pre + t[k..];
    assert ByteLen([c]) == Width(c) by {
      assert [c][1..] == [];
    }
    ByteLenAppend(t[..k], [c]);
    assert ByteLen(pre) == e.cursor + Width(c);
    PrefixBoundary(pre, t[k..]);
    var e1 := Edit(u, e.cursor + Width(c));
    assert Insert(e, [c]).value == e1;
    assert CharAt(u, e1.cursor) == Some(k + 1);
    assert u[..k] == t[..k];
    assert u[..k] + u[k + 1..] == t;
    assert Offset(u, k) == e.cursor;
    assert BackspaceFixed(e1) == Ok(Edit(u[..k] + u[k + 1..], Offset(u, k)));
  }

  /** Right then Left returns to the same place. */
  lemma LeftUndoesRight(e: Edit)
    requires AtBoundary(e) && e.cursor < ByteLen(e.text)
    ensures LeftFixed(RightFixed(e)) == e
  {
    var t := e.text;
    var k := CharAt(t, e.cursor).value;
    CharAtSpec(t, e.cursor);
    assert t[..|t|] == t;
    if k == |t| {
      assert false;
    }
    CharAtOffset(t, k + 1);
  }

  /**
   * The written Backspace panics right after a multi-byte character is
   * typed: stepping back one byte lands inside that character.
   */
  lemma WideBackspacePanics(e: Edit, c: char)
    requires AtBoundary(e) && Width(c) >= 2
    ensures Insert(e, [c]).Ok? && BackspaceAsWritten(Insert(e, [c]).value).Err?
  {
    InsideWide(e, c);
  }

  /** One byte before the end of a just-typed multi-byte character is not a char boundary. */
  lemma InsideWide(e: Edit, c: char)
    requires AtBoundary(e) && Width(c) >= 2
    ensures Insert(e, [c]).Ok? && Insert(e, [c]).value.cursor > 0
    ensures !IsCharBoundary(Insert(e, [c]).value.text, Insert(e, [c]).value.cursor - 1)
  {
    var t := e.text;
    var k := CharAt(t, e.cursor).value;
    CharAtSpec(t, e.cursor);
    var u := t[..k] + [c] + t[k..];
    InsertSpec(e, [c]);
    assert ByteLen([c]) == Width(c) by {
      assert [c][1..] == [];
    }
    var x := e.cursor + Width(c) - 1;
    assert u[..k] == t[..k];
    assert Offset(u, k) == e.cursor;
    OffsetStep(u, k);
    CharAtSpec(u, x);
    if CharAt(u, x).Some? {
      var j := CharAt(u, x).value;
      if j <= k {
        OffsetMono(u, j, k);
      } else {
        OffsetMono(u, k + 1, j);
      }
    }
  }

  /** The written Left can land inside a multi-byte character, where the next typed text panics. */
  lemma WideLeftThenTypePanics(e: Edit, c: char, s: string)
    requires AtBoundary(e) && Width(c) >= 2
    ensures Insert(e, [c]).Ok? && Insert(LeftAsWritten(Insert(e, [c]).value), s).Err?
  {
    InsideWide(e, c);
  }

  /** Single-byte text: the cursor is a character index and every operation keeps it in range. */
  predicate AsciiEdit(e: Edit) {
    Ascii(e.text) && e.cursor <= |e.text|
  }

  /**
   * On single-byte text the written operations behave as index edits: typed
   * text is spliced in at the cursor, Backspace and Delete drop one
   * character, Left and Right step within [0, len], nothing panics, and the
   * text stays single-byte for single-byte input.
   */
  lemma AsciiSpec(e: Edit, s: string)
    requires AsciiEdit(e)
    ensures Insert(e, s) == Ok(Edit(e.text[..e.cursor] + s + e.text[e.cursor..], e.cursor + ByteLen(s)))
    ensures Ascii(s) ==> AsciiEdit(Insert(e, s).value)
    ensures e.cursor > 0 ==>
      BackspaceAsWritten(e) == Ok(Edit(e.text[..e.cursor - 1] + e.text[e.cursor..], e.cursor - 1))
    ensures e.cursor < |e.text| ==> Delete(e) == Ok(Edit(e.text[..e.cursor] + e.text[e.cursor + 1..], e.cursor))
    ensures AsciiEdit(LeftAsWritten(e)) && AsciiEdit(RightAsWritten(e))
  {
    var t := e.text;
    AsciiEdits(t, e.cursor, s);
    AsciiOffsets(t);
    if Ascii(s) {
      AsciiOffsets(s);
      var u := t[..e.cursor] + s + t[e.cursor..];
      assert Ascii(u) by {
        AsciiConcat(t[..e.cursor], s);
        AsciiConcat(t[..e.cursor] + s, t[e.cursor..]);
      }
    }
    if e.cursor > 0 {
      AsciiEdits(t, e.cursor - 1, s);
      assert t[..e.cursor - 1] + t[e.cursor - 1 + 1..] == t[..e.cursor - 1] + t[e.cursor..];
    }
  }

  /** On single-byte text the corrections do exactly what the written code does. */
  lemma FixedAgreesOnAscii(e: Edit)
    requires AsciiEdit(e)
    ensures BackspaceFixed(e) == BackspaceAsWritten(e)
    ensures LeftFixed(e) == LeftAsWritten(e)
    ensures RightFixed(e) == RightAsWritten(e)
  {
    var t := e.text;
    AsciiOffsets(t);
    AsciiBoundary(t, e.cursor);
    if e.cursor > 0 {
      AsciiEdits(t, e.cursor - 1, "");
      AsciiBoundary(t, e.cursor - 1);
      assert t[..e.cursor - 1] + t[e.cursor - 1 + 1..] == t[..e.cursor - 1] + t[e.cursor..];
    }
  }
}
