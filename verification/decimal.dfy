/**
 * Decimal text of a port number: Rust's `Display for u16` (used by
 * `format!("{}", port)`) and `<u16 as FromStr>::from_str` (used by
 * `parts[1].parse()`).
 */
module Decimal {
  import opened Wrappers
  import opened Utf8

  const U16_LIMIT: nat := 0x1_0000

  /** Rust's `u16`. */
  type u16 = x: int | 0 <= x < 0x1_0000

  predicate IsDigit(b: byte) {
    DIGIT_ZERO <= b <= DIGIT_ZERO + 9
  }

  predicate AllDigits(s: Bytes) {
    forall i :: 0 <= i < |s| ==> IsDigit(s[i])
  }

  function Pow10(k: nat): (p: nat)
    ensures p >= 1
  {
    if k == 0 then 1 else 10 * Pow10(k - 1)
  }

  /** The number a digit string denotes, read most significant digit first. */
  function DigitsValue(ds: Bytes): nat
    requires AllDigits(ds)
    decreases |ds|
  {
    if |ds| == 0 then 0
    else DigitsValue(ds[..|ds| - 1]) * 10 + (ds[|ds| - 1] - DIGIT_ZERO)
  }

  /** `n.to_string()`: the shortest decimal text of `n`, "0" for zero. */
  function Format(n: nat): (s: Bytes)
    ensures |s| >= 1 && AllDigits(s)
    ensures DigitsValue(s) == n
    ensures |s| > 1 ==> s[0] != DIGIT_ZERO
    decreases n
  {
    if n < 10 then [DIGIT_ZERO + n]
    else
      var s := Format(n / 10) + [DIGIT_ZERO + n % 10];
      assert s[..|s| - 1] == Format(n / 10);
      s
  }

  /** The digits that follow the optional leading `+` that Rust accepts. */
  function Unsigned(s: Bytes): Bytes {
    if |s| > 0 && s[0] == PLUS then s[1..] else s
  }

  /** What `from_str` accepts for `u16`: an optional `+`, then one or more digits worth less than 2^16. */
  predicate IsU16Text(s: Bytes) {
    var ds := Unsigned(s);
    |ds| > 0 && AllDigits(ds) && DigitsValue(ds) < U16_LIMIT
  }

  /**
   * `<u16 as FromStr>::from_str`: a lone sign is rejected, a leading `+` is
   * skipped, `-` is an invalid digit for an unsigned type, and the digits are
   * accumulated with checked multiply-and-add so that overflow is rejected.
   */
  function ParseU16(s: Bytes): Option<u16> {
    if |s| == 0 then None
    else if s == [PLUS] || s == [MINUS] then None
    else Accumulate(Unsigned(s), 0)
  }

  function Accumulate(ds: Bytes, acc: u16): Option<u16>
    decreases |ds|
  {
    if |ds| == 0 then Some(acc)
    else if !IsDigit(ds[0]) then None
    else if acc * 10 + (ds[0] - DIGIT_ZERO) >= U16_LIMIT then None
    else Accumulate(ds[1..], acc * 10 + (ds[0] - DIGIT_ZERO))
  }

  /** The value of a digit string, read least significant digit last, split after its first digit. */
  lemma {:induction false} DigitsValueFront(ds: Bytes)
    requires |ds| > 0 && AllDigits(ds)
    ensures DigitsValue(ds) == (ds[0] - DIGIT_ZERO) * Pow10(|ds| - 1) + DigitsValue(ds[1..])
    decreases |ds|
  {
    if |ds| > 1 {
      var n := |ds|;
      var init := ds[..n - 1];
      var tail := ds[1..];
      var a := ds[0] - DIGIT_ZERO;
      var last := ds[n - 1] - DIGIT_ZERO;
      DigitsValueFront(init);
      assert init[1..] == tail[..|tail| - 1];
      assert DigitsValue(tail) == DigitsValue(init[1..]) * 10 + last;
      assert DigitsValue(init) == a * Pow10(n - 2) + DigitsValue(init[1..]);
      Distribute(a, Pow10(n - 2), DigitsValue(init[1..]), last);
    }
  }

  lemma Distribute(a: int, p: int, v: int, last: int)
    ensures (a * p + v) * 10 + last == a * (10 * p) + (v * 10 + last)
  {
  }

  lemma Regroup(acc: nat, d: nat, p: nat, v: nat)
    requires p >= 1
    ensures acc * (10 * p) + (d * p + v) == (acc * 10 + d) * p + v
    ensures (acc * 10 + d) * p + v >= acc * 10 + d
  {
  }

  /** Checked accumulation succeeds exactly when the unbounded value fits in a `u16`. */
  lemma {:induction false} AccumulateMeaning(ds: Bytes, acc: u16)
    ensures Accumulate(ds, acc).Some? <==>
      AllDigits(ds) && acc * Pow10(|ds|) + DigitsValue(ds) < U16_LIMIT
    ensures Accumulate(ds, acc).Some? ==>
      Accumulate(ds, acc).value == acc * Pow10(|ds|) + DigitsValue(ds)
    decreases |ds|
  {
    if |ds| > 0 && IsDigit(ds[0]) {
      var d := ds[0] - DIGIT_ZERO;
      var next := acc * 10 + d;
      var rest := ds[1..];
      assert AllDigits(ds) <==> AllDigits(rest);
      if AllDigits(ds) {
        var p := Pow10(|ds| - 1);
        DigitsValueFront(ds);
        Regroup(acc, d, p, DigitsValue(rest));
        assert acc * Pow10(|ds|) + DigitsValue(ds) == next * p + DigitsValue(rest);
      }
      if next < U16_LIMIT {
        AccumulateMeaning(rest, next);
      }
    }
  }

  /** `parse::<u16>()` succeeds exactly on `u16` text and yields the value it denotes. */
  lemma ParseU16Meaning(s: Bytes)
    ensures ParseU16(s).Some? <==> IsU16Text(s)
    ensures ParseU16(s).Some? ==> ParseU16(s).value == DigitsValue(Unsigned(s))
  {
    AccumulateMeaning(Unsigned(s), 0);
  }

  /** Parsing the displayed text of a `u16` gives the number back. */
  lemma ParseFormat(n: u16)
    ensures ParseU16(Format(n)) == Some(n)
  {
    var s := Format(n);
    assert s[0] != PLUS && s != [MINUS];
    ParseU16Meaning(s);
  }

  /** Displayed numbers are ASCII digits only: no separator, no NUL, valid UTF-8. */
  lemma FormatIsPlainText(n: nat)
    ensures NEWLINE !in Format(n) && NUL !in Format(n)
    ensures IsUtf8(Format(n))
  {
    var s := Format(n);
    assert IsAscii(s);
    AsciiIsUtf8(s);
  }
}
