/**
 * Byte strings and UTF-8 well-formedness.
 *
 * A Rust `&str` or `String` is a byte sequence that is well-formed UTF-8.
 * The plugin receives player names and configuration text as C strings and
 * converts them with `CStr::to_str`, which succeeds exactly when the bytes are
 * well-formed UTF-8 in the sense of Table 3-7 of the Unicode Standard
 * (section 3.9); `IsUtf8` states that table.
 */
module Utf8 {

  type byte = x: int | 0 <= x < 256

  type Bytes = seq<byte>

  const NUL: byte := 0
  const NEWLINE: byte := 10
  const PLUS: byte := 43
  const MINUS: byte := 45
  const SLASH: byte := 47
  const DIGIT_ZERO: byte := 48

  predicate IsAsciiText(s: string) {
    forall i :: 0 <= i < |s| ==> s[i] as int < 128
  }

  /** The bytes of a string literal that consists of ASCII characters only. */
  function Ascii(s: string): (r: Bytes)
    requires IsAsciiText(s)
    ensures |r| == |s|
    ensures forall i :: 0 <= i < |r| ==> r[i] == s[i] as int && r[i] < 128
  {
    seq(|s|, i requires 0 <= i < |s| => s[i] as int)
  }

  predicate IsAscii(s: Bytes) {
    forall i :: 0 <= i < |s| ==> s[i] < 128
  }

  predicate InRange(b: byte, lo: int, hi: int) {
    lo <= b <= hi
  }

  predicate IsContinuation(b: byte) {
    InRange(b, 0x80, 0xBF)
  }

  /**
   * Length of the well-formed scalar encoding at the start of `s`, or 0 when
   * `s` does not start with one (Table 3-7).
   */
  function LeadingScalarLength(s: Bytes): (n: nat)
    ensures n <= 4 && n <= |s|
    ensures n == 1 <==> |s| > 0 && s[0] < 0x80
    ensures n > 1 ==> forall i :: 1 <= i < n ==> IsContinuation(s[i])
  {
    if |s| == 0 then 0
    else if s[0] < 0x80 then 1
    else if InRange(s[0], 0xC2, 0xDF) then
      if |s| >= 2 && IsContinuation(s[1]) then 2 else 0
    else if InRange(s[0], 0xE0, 0xEF) then
      var lo := if s[0] == 0xE0 then 0xA0 else 0x80;
      var hi := if s[0] == 0xED then 0x9F else 0xBF;
      if |s| >= 3 && InRange(s[1], lo, hi) && IsContinuation(s[2]) then 3 else 0
    else if InRange(s[0], 0xF0, 0xF4) then
      var lo := if s[0] == 0xF0 then 0x90 else 0x80;
      var hi := if s[0] == 0xF4 then 0x8F else 0xBF;
      if |s| >= 4 && InRange(s[1], lo, hi) && IsContinuation(s[2]) && IsContinuation(s[3]) then 4 else 0
    else 0
  }

  /** What `str::from_utf8` (and so `CStr::to_str`) accepts. */
  predicate IsUtf8(s: Bytes)
    decreases |s|
  {
    |s| == 0 || (LeadingScalarLength(s) > 0 && IsUtf8(s[LeadingScalarLength(s)..]))
  }

  /** The leading scalar is decided by its own bytes: appending does not change it. */
  lemma LeadingScalarExtends(s: Bytes, t: Bytes)
    requires LeadingScalarLength(s) > 0
    ensures LeadingScalarLength(s + t) == LeadingScalarLength(s)
  {
    var n := LeadingScalarLength(s);
    assert forall i :: 0 <= i < n ==> (s + t)[i] == s[i];
  }

  /** Cutting after the leading scalar keeps it. */
  lemma LeadingScalarTruncates(s: Bytes, k: nat)
    requires 0 < LeadingScalarLength(s) <= k <= |s|
    ensures LeadingScalarLength(s[..k]) == LeadingScalarLength(s)
  {
    assert forall i :: 0 <= i < k ==> s[..k][i] == s[i];
  }

  /** ASCII text is well-formed UTF-8. */
  lemma {:induction false} AsciiIsUtf8(s: Bytes)
    requires IsAscii(s)
    ensures IsUtf8(s)
    decreases |s|
  {
    if |s| > 0 {
      assert LeadingScalarLength(s) == 1;
      AsciiIsUtf8(s[1..]);
    }
  }

  /** Concatenating two Rust strings yields a Rust string (what `format!` relies on). */
  lemma {:induction false} ConcatIsUtf8(a: Bytes, b: Bytes)
    requires IsUtf8(a) && IsUtf8(b)
    ensures IsUtf8(a + b)
    decreases |a|
  {
    if |a| == 0 {
      assert a + b == b;
    } else {
      var n := LeadingScalarLength(a);
      LeadingScalarExtends(a, b);
      assert (a + b)[n..] == a[n..] + b;
      ConcatIsUtf8(a[n..], b);
    }
  }

  /**
   * An ASCII byte inside a well-formed string is always a scalar boundary,
   * so cutting there leaves two well-formed strings (what `str::split` on an
   * ASCII separator relies on).
   */
  lemma {:induction false} CutAtAsciiIsUtf8(a: Bytes, x: byte, b: Bytes)
    requires IsUtf8(a + [x] + b) && x < 0x80
    ensures IsUtf8(a) && IsUtf8(b)
    decreases |a|
  {
    var s := a + [x] + b;
    var n := LeadingScalarLength(s);
    if |a| == 0 {
      assert n == 1;
      assert s[1..] == b;
    } else {
      assert n <= |a| by {
        assert s[|a|] == x;
      }
      assert s[..|a|] == a;
      LeadingScalarTruncates(s, |a|);
      assert s[n..] == a[n..] + [x] + b;
      CutAtAsciiIsUtf8(a[n..], x, b);
    }
  }
}
