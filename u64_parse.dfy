/** Rust's `<u64 as FromStr>::from_str` (`str::parse::<u64>`), the parser behind both
    `integer_part` and the allow-list. Values are `nat`s bounded by `U64_MAX`. */
module U64Parse {
  import opened Wrappers

  const U64_MAX: nat := 0xFFFF_FFFF_FFFF_FFFF

  /** The kinds of `ParseIntError` an unsigned parse can report. */
  datatype IntErrorKind = Empty | InvalidDigit | PosOverflow

  predicate IsDigit(c: char) {
    '0' <= c <= '9'
  }

  function DigitValue(c: char): (d: nat)
    requires IsDigit(c)
    ensures d < 10
  {
    (c as int) - ('0' as int)
  }

  predicate AllDigits(s: string) {
    forall i :: 0 <= i < |s| ==> IsDigit(s[i])
  }

  function Pow10(n: nat): (p: nat)
    ensures p >= 1
  {
    if n == 0 then 1 else 10 * Pow10(n - 1)
  }

  /** Positional meaning of a decimal digit string, most significant digit first;
      the reference against which the parser is proved. */
  function DecimalValue(s: string): nat
    requires AllDigits(s)
    decreases |s|
  {
    if s == [] then 0 else DigitValue(s[0]) * Pow10(|s| - 1) + DecimalValue(s[1..])
  }

  /** What is left once the one optional leading `+` is taken off. */
  function Magnitude(s: string): string {
    if |s| > 0 && s[0] == '+' then s[1..] else s
  }

  /** The syntax `from_str` accepts for an unsigned type: an optional `+`, then one or
      more ASCII digits, and nothing else (no whitespace, no `-`). */
  predicate IsU64Text(s: string) {
    Magnitude(s) != [] && AllDigits(Magnitude(s))
  }

  /** The digit loop of `from_str`: for each character, left to right, a non-digit is
      `InvalidDigit`; otherwise `acc * 10 + digit` is computed with checked arithmetic
      and an overflow of either step is `PosOverflow`. */
  function Accumulate(digits: string, acc: nat): (r: Result<nat, IntErrorKind>)
    requires acc <= U64_MAX
    ensures r.Ok? ==> r.value <= U64_MAX
    ensures r.Err? ==> r.error == InvalidDigit || r.error == PosOverflow
    decreases |digits|
  {
    if digits == [] then Ok(acc)
    else if !IsDigit(digits[0]) then Err(InvalidDigit)
    else if acc * 10 + DigitValue(digits[0]) > U64_MAX then Err(PosOverflow)
    else Accumulate(digits[1..], acc * 10 + DigitValue(digits[0]))
  }

  /** `<u64 as FromStr>::from_str`. A lone sign is an invalid digit; a leading `-` is
      not a sign for an unsigned type, so it is an invalid digit too. */
  function ParseU64(s: string): (r: Result<nat, IntErrorKind>)
    ensures r.Ok? ==> r.value <= U64_MAX
  {
    if s == [] then Err(Empty)
    else if s == "+" || s == "-" then Err(InvalidDigit)
    else if s[0] == '+' then Accumulate(s[1..], 0)
    else Accumulate(s, 0)
  }

  /** The loop succeeds only on digit strings. */
  lemma {:induction false} AccumulateOnlyDigits(digits: string, acc: nat)
    requires acc <= U64_MAX
    ensures Accumulate(digits, acc).Ok? ==> AllDigits(digits)
    decreases |digits|
  {
    if digits != [] && IsDigit(digits[0]) && acc * 10 + DigitValue(digits[0]) <= U64_MAX {
      AccumulateOnlyDigits(digits[1..], acc * 10 + DigitValue(digits[0]));
    }
  }

  lemma Regroup(acc: nat, d: nat, p: nat, v: nat)
    ensures acc * (10 * p) + (d * p + v) == (acc * 10 + d) * p + v
  {
    calc {
      acc * (10 * p) + (d * p + v);
      (acc * 10) * p + d * p + v;
      (acc * 10 + d) * p + v;
    }
  }

  lemma MulAtLeast(x: nat, p: nat)
    requires p >= 1
    ensures x * p >= x
  {
  }

  /** On a digit string the loop computes the positional value, failing with
      `PosOverflow` exactly when that value exceeds `U64_MAX`. */
  lemma {:induction false} AccumulateDigits(digits: string, acc: nat)
    requires acc <= U64_MAX && AllDigits(digits)
    ensures var total := acc * Pow10(|digits|) + DecimalValue(digits);
      Accumulate(digits, acc) == if total <= U64_MAX then Ok(total) else Err(PosOverflow)
    decreases |digits|
  {
    if digits == [] {
      assert acc * Pow10(0) == acc;
    } else {
      var n := |digits|;
      var d := DigitValue(digits[0]);
      var rest := digits[1..];
      var p := Pow10(n - 1);
      assert AllDigits(rest);
      assert |rest| == n - 1;
      var v := DecimalValue(rest);
      assert DecimalValue(digits) == d * p + v;
      assert Pow10(n) == 10 * p;
      Regroup(acc, d, p, v);
      var total := acc * Pow10(n) + DecimalValue(digits);
      assert total == (acc * 10 + d) * p + v;
      if acc * 10 + d > U64_MAX {
        MulAtLeast(acc * 10 + d, p);
        assert Accumulate(digits, acc) == Err(PosOverflow);
      } else {
        assert Accumulate(digits, acc) == Accumulate(rest, acc * 10 + d);
        AccumulateDigits(rest, acc * 10 + d);
      }
    }
  }

  /** The parse succeeds exactly on well-formed text whose value fits in 64 bits, and then
      gives that value; it reports `Empty` exactly for the empty string, `PosOverflow` for
      well-formed text that is too large, and otherwise `InvalidDigit` or `PosOverflow`. */
  lemma ParseU64Meaning(s: string)
    ensures ParseU64(s).Ok? <==> IsU64Text(s) && DecimalValue(Magnitude(s)) <= U64_MAX
    ensures ParseU64(s).Ok? ==> ParseU64(s).value == DecimalValue(Magnitude(s))
    ensures ParseU64(s) == Err(Empty) <==> s == []
    ensures IsU64Text(s) && DecimalValue(Magnitude(s)) > U64_MAX ==> ParseU64(s) == Err(PosOverflow)
    ensures s != [] && ParseU64(s).Err? ==> ParseU64(s).error in {InvalidDigit, PosOverflow}
  {
    var m := Magnitude(s);
    if s != [] && s != "+" && s != "-" {
      assert ParseU64(s) == Accumulate(m, 0);
      if AllDigits(m) {
        AccumulateDigits(m, 0);
      } else {
        AccumulateOnlyDigits(m, 0);
      }
    }
  }

  /** Concrete cases of `from_str` at the edges of the accepted language. */
  lemma ParseU64Small()
    ensures ParseU64("42") == Ok(42)
    ensures ParseU64("+7") == Ok(7)
    ensures ParseU64("007") == Ok(7)
    ensures ParseU64("") == Err(Empty)
    ensures ParseU64("+") == Err(InvalidDigit)
    ensures ParseU64("-1") == Err(InvalidDigit)
    ensures ParseU64(" 1") == Err(InvalidDigit)
    ensures ParseU64("++1") == Err(InvalidDigit)
  {
  }
}
