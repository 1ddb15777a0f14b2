/**
 * Decimal text for unsigned 32-bit integers, as Rust's `Display` prints a
 * `u32` and `str::parse::<u32>` reads one back, including the error kind
 * the parser reports and the message that kind displays as.
 */
module Decimal {
  import opened Wrappers

  /** `u32::MAX`. */
  const U32Max: nat := 0xFFFF_FFFF

  function DigitOf(c: char): Option<nat> {
    if '0' <= c <= '9' then Some(c as nat - '0' as nat) else None
  }

  predicate AllDigits(s: string) {
    forall i :: 0 <= i < |s| ==> DigitOf(s[i]).Some?
  }

  /** The value of a string of decimal digits, most significant first. */
  function DecValue(s: string): nat
    requires AllDigits(s)
  {
    if |s| == 0 then 0 else DecValue(s[..|s| - 1]) * 10 + DigitOf(s[|s| - 1]).value
  }

  /** `Display for u32`: decimal digits without leading zeros, "0" for zero. */
  function NatToDec(n: nat): (s: string)
    ensures |s| > 0 && AllDigits(s)
    ensures n >= 10 ==> s[0] != '0'
    decreases n
  {
    var c := ('0' as int + n % 10) as char;
    if n < 10 then [c] else NatToDec(n / 10) + [c]
  }

  /** `IntErrorKind` as far as an unsigned parse can report it. */
  datatype IntErrorKind = Empty | InvalidDigit | PosOverflow

  /** The text `ParseIntError` displays for each kind. */
  function ErrorText(k: IntErrorKind): string {
    match k
    case Empty => "cannot parse integer from empty string"
    case InvalidDigit => "invalid digit found in string"
    case PosOverflow => "number too large to fit in target type"
  }

  /** The digits after an optional leading '+'; a '-' is not stripped for an unsigned type. */
  function Body(s: string): string {
    if |s| > 0 && s[0] == '+' then s[1..] else s
  }

  /**
   * The digit loop of `from_str_radix`: left to right, a non-digit is
   * reported before the overflow it would have caused, and the value
   * overflows as soon as a prefix exceeds `u32::MAX`.
   */
  function Scan(s: string, i: nat, acc: nat): (r: Result<nat, IntErrorKind>)
    requires i <= |s|
    ensures r.Err? ==> r.error != Empty
    decreases |s| - i
  {
    if i == |s| then Ok(acc)
    else match DigitOf(s[i])
      case None => Err(InvalidDigit)
      case Some(d) =>
        // checked_mul and then checked_add: either overflow is PosOverflow
        if acc * 10 + d > U32Max then Err(PosOverflow) else Scan(s, i + 1, acc * 10 + d)
  }

  /** `str::parse::<u32>`: an empty string, and a sign with nothing after it, are rejected up front. */
  function ParseU32(s: string): Result<nat, IntErrorKind> {
    if |s| == 0 then Err(Empty)
    else if |s| == 1 && (s[0] == '+' || s[0] == '-') then Err(InvalidDigit)
    else Scan(Body(s), 0, 0)
  }

  lemma {:induction false} DecValueNatToDec(n: nat)
    ensures DecValue(NatToDec(n)) == n
    decreases n
  {
    var s := NatToDec(n);
    assert s[..|s| - 1] == if n < 10 then [] else NatToDec(n / 10);
    if n >= 10 {
      DecValueNatToDec(n / 10);
    }
  }

  /** A prefix of a digit string never has a larger value than the whole. */
  lemma {:induction false} DecPrefixLe(s: string, j: nat)
    requires AllDigits(s) && j <= |s|
    ensures AllDigits(s[..j]) && DecValue(s[..j]) <= DecValue(s)
    decreases |s|
  {
    if j == |s| {
      assert s[..j] == s;
    } else {
      var t := s[..|s| - 1];
      assert AllDigits(t) by {
        forall k | 0 <= k < |t|
          ensures DigitOf(t[k]).Some?
        {
          assert t[k] == s[k];
        }
      }
      assert t[..j] == s[..j];
      DecPrefixLe(t, j);
      assert DecValue(t) <= DecValue(s);
    }
  }

  /** One more digit on a prefix: the value the loop accumulates. */
  lemma DecValueStep(s: string, i: nat)
    requires i < |s| && AllDigits(s[..i + 1])
    ensures AllDigits(s[..i]) && DecValue(s[..i + 1]) == DecValue(s[..i]) * 10 + DigitOf(s[i]).value
  {
    assert s[..i + 1][..i] == s[..i];
  }

  /**
   * From a position whose prefix is all digits and accumulated exactly, the
   * loop succeeds iff the rest is all digits and the whole value fits, and
   * then returns that value.
   */
  lemma {:induction false} ScanValue(s: string, i: nat, acc: nat)
    requires i <= |s| && AllDigits(s[..i]) && acc == DecValue(s[..i]) && acc <= U32Max
    ensures Scan(s, i, acc).Ok? <==> AllDigits(s) && DecValue(s) <= U32Max
    ensures Scan(s, i, acc).Ok? ==> Scan(s, i, acc).value == DecValue(s)
    ensures AllDigits(s) && DecValue(s) > U32Max ==> Scan(s, i, acc) == Err(PosOverflow)
    decreases |s| - i
  {
    if i == |s| {
      assert s[..i] == s;
    } else {
      match DigitOf(s[i])
      case None =>
        assert !AllDigits(s) by {
          assert DigitOf(s[i]).None?;
        }
      case Some(d) =>
        forall k | 0 <= k <= i
          ensures DigitOf(s[k]).Some?
        {
          if k < i {
            assert s[..i][k] == s[k];
          }
        }
        assert AllDigits(s[..i + 1]);
        DecValueStep(s, i);
        if acc * 10 + d > U32Max {
          if AllDigits(s) {
            DecPrefixLe(s, i + 1);
          }
        } else {
          ScanValue(s, i + 1, acc * 10 + d);
        }
    }
  }

  /**
   * `parse::<u32>` succeeds exactly on an optional '+' followed by at least
   * one digit and only digits, with a value of at most `u32::MAX`, and
   * returns that value.
   */
  lemma ParseU32Spec(s: string)
    ensures ParseU32(s).Ok? <==> |Body(s)| > 0 && AllDigits(Body(s)) && DecValue(Body(s)) <= U32Max
    ensures ParseU32(s).Ok? ==> ParseU32(s).value == DecValue(Body(s))
    ensures ParseU32(s) == Err(Empty) <==> |s| == 0
  {
    var b := Body(s);
    if |s| > 0 && !(|s| == 1 && (s[0] == '+' || s[0] == '-')) {
      assert b[..0] == [];
      ScanValue(b, 0, 0);
    }
  }

  /** Too many digits is an overflow, not a digit error. */
  lemma ParseU32Overflow(s: string)
    requires |Body(s)| > 0 && AllDigits(Body(s)) && DecValue(Body(s)) > U32Max
    ensures ParseU32(s) == Err(PosOverflow)
  {
    assert Body(s)[..0] == [];
    ScanValue(Body(s), 0, 0);
  }

  /** Printing a `u32` and parsing it back gives the number. */
  lemma ParseNatToDec(n: nat)
    requires n <= U32Max
    ensures ParseU32(NatToDec(n)) == Ok(n)
  {
    var s := NatToDec(n);
    assert DigitOf(s[0]).Some?;
    assert Body(s) == s;
    DecValueNatToDec(n);
    ParseU32Spec(s);
  }
}
