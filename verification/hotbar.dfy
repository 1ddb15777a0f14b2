/**
 * The hotbar of the early engine (src/main.rs): the placeable blocks are
 * rotated so that the selected one sits at the middle index, and the seven
 * around it are shown. Indices are `usize`: a subtraction below zero and a
 * remainder by zero panic, which is `Err` here.
 */
module Hotbar {
  import opened Wrappers

  /** The number of placeable blocks in the hotbar list. */
  const Placeable: nat := 22

  /**
   * `mid`: len/2 for an even length, len/2 - 1 for an odd one; the
   * subtraction underflows for length 1.
   */
  function Mid(n: nat): (r: Result<nat, string>)
    ensures r.Err? <==> n == 1
    ensures r.Ok? && n % 2 == 0 ==> 2 * r.value == n
    ensures r.Ok? && n % 2 == 1 ==> 2 * r.value + 3 == n
  {
    if n % 2 == 0 then Ok(n / 2)
    else if n / 2 == 0 then Err("attempt to subtract with overflow")
    else Ok(n / 2 - 1)
  }

  /** The middle index lies inside any list of length at least 2. */
  lemma MidInside(n: nat)
    requires n >= 2
    ensures Mid(n).Ok? && Mid(n).value < n
  {
  }

  /**
   * `shift_vec`: cycle through v from `(len + index - mid) % len` and take
   * `len` elements. An empty list divides by zero, a single one underflows
   * in `mid`.
   */
  function ShiftVec<T>(v: seq<T>, index: nat): (r: Result<seq<T>, string>)
    ensures r.Ok? <==> |v| >= 2
    ensures r.Ok? ==> |r.value| == |v|
  {
    if |v| == 0 then Err("attempt to calculate the remainder with a divisor of zero")
    else match Mid(|v|)
      case Err(m) => Err(m)
      case Ok(mid) =>
        var shift := (|v| + index - mid) % |v|;
        Ok(seq(|v|, j requires 0 <= j < |v| => v[(shift + j) % |v|]))
  }

  /** Where the rotation starts. */
  function Shift(n: nat, index: nat): (s: nat)
    requires n >= 2
    ensures s < n
  {
    (n + index - Mid(n).value) % n
  }

  lemma MulMono(q: int, n: int)
    requires n > 0
    ensures q >= 1 ==> q * n >= n
    ensures q <= -1 ==> q * n <= -n
    decreases if q >= 0 then q else -q
  {
    if q >= 1 {
      assert q * n == (q - 1) * n + n;
      MulMono(q - 1, n);
    }
    if q <= -1 {
      assert q * n == (q + 1) * n - n;
      MulMono(q + 1, n);
    }
  }

  /** Below twice the modulus, the remainder subtracts the modulus at most once. */
  lemma ModOnce(a: int, n: int)
    requires n > 0 && 0 <= a < 2 * n
    ensures a % n == if a < n then a else a - n
  {
    var q := a / n;
    assert a == q * n + a % n;
    MulMono(q, n);
    MulMono(q - 1, n);
    if a < n {
      assert q == 0;
    } else {
      assert q == 1;
    }
  }

  /** `shift_vec` is the rotation of v by its shift: the tail from the shift, then the head. */
  lemma ShiftIsRotation<T>(v: seq<T>, index: nat)
    requires |v| >= 2
    ensures ShiftVec(v, index).value == v[Shift(|v|, index)..] + v[..Shift(|v|, index)]
    ensures multiset(ShiftVec(v, index).value) == multiset(v)
  {
    var s := Shift(|v|, index);
    var r := ShiftVec(v, index).value;
    var u := v[s..] + v[..s];
    forall j | 0 <= j < |v|
      ensures r[j] == u[j]
    {
      ModOnce(s + j, |v|);
    }
    assert r == u;
    assert v == v[..s] + v[s..];
  }

  /** The selected entry lands on the middle index. */
  lemma SelectedIsCentred<T>(v: seq<T>, index: nat)
    requires |v| >= 2 && index < |v|
    ensures ShiftVec(v, index).value[Mid(|v|).value] == v[index]
  {
    var mid := Mid(|v|).value;
    var s := Shift(|v|, index);
    MidInside(|v|);
    ModOnce(|v| + index - mid, |v|);
    ModOnce(s + mid, |v|);
  }

  /**
   * The shown slots: `shift_vec(v, i)[mid - 3 ..= mid + 3]`, which panics
   * when the window leaves the list.
   */
  function Slots<T>(v: seq<T>, index: nat): (r: Result<seq<T>, string>)
    ensures r.Ok? ==> |r.value| == 7
    ensures r.Ok? <==> |v| >= 2 && 3 <= Mid(|v|).value && Mid(|v|).value + 3 < |v|
  {
    match ShiftVec(v, index)
    case Err(m) => Err(m)
    case Ok(w) =>
      var mid := Mid(|v|).value;
      if mid < 3 then Err("attempt to subtract with overflow")
      else if mid + 3 >= |w| then Err("range end index out of range")
      else Ok(w[mid - 3..mid + 4])
  }

  /**
   * With the 22 placeable blocks the window is always in bounds: slot 3 is
   * the selected block, and slot k shows the block k - 3 places after it,
   * wrapping around.
   */
  lemma PlaceableSlots<T>(v: seq<T>, index: nat)
    requires |v| == Placeable && index < |v|
    ensures Slots(v, index).Ok? && Slots(v, index).value[3] == v[index]
    ensures forall k :: 0 <= k < 7 ==> Slots(v, index).value[k] == v[(index + Placeable + k - 3) % Placeable]
  {
    var r := Slots(v, index).value;
    var w := ShiftVec(v, index).value;
    assert Mid(22).value == 11;
    SelectedIsCentred(v, index);
    var s := Shift(22, index);
    forall k | 0 <= k < 7
      ensures r[k] == v[(index + Placeable + k - 3) % Placeable]
    {
      assert r[k] == w[8 + k];
      assert w[8 + k] == v[(s + 8 + k) % 22];
      assert (s + 8 + k) % 22 == (index + 22 + k - 3) % 22 by {
        assert s == (index + 11) % 22;
      }
    }
  }
}
