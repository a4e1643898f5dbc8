/**
 * Rust's `str::split(c)` on a single separator byte, and its inverse `join`.
 *
 * Empty segments are kept: a text with k separators always yields k + 1
 * segments, and the empty text yields the single segment "".
 */
module StrSplit {
  import opened Utf8

  /** The segments of `s` between occurrences of `sep`, in order. */
  function Split(s: Bytes, sep: byte): (parts: seq<Bytes>)
    ensures |parts| == multiset(s)[sep] + 1
    ensures forall i :: 0 <= i < |parts| ==> sep !in parts[i]
    decreases |s|
  {
    if |s| == 0 then [[]]
    else
      assert s == [s[0]] + s[1..];
      var rest := Split(s[1..], sep);
      if s[0] == sep then [[]] + rest
      else [[s[0]] + rest[0]] + rest[1..]
  }

  /** The segments put back together with `sep` between neighbours. */
  function Join(parts: seq<Bytes>, sep: byte): (s: Bytes)
    requires |parts| >= 1
    ensures |parts| == 1 ==> s == parts[0]
    decreases |parts|
  {
    if |parts| == 1 then parts[0]
    else parts[0] + [sep] + Join(parts[1..], sep)
  }

  /** Four segments joined, spelled out. */
  lemma JoinFour(levels: seq<Bytes>, sep: byte)
    requires |levels| == 4
    ensures Join(levels, sep) ==
      levels[0] + [sep] + levels[1] + [sep] + levels[2] + [sep] + levels[3]
  {
    var tail2 := levels[1..][1..];
    assert tail2[1..] == [levels[3]];
    assert Join(tail2, sep) == levels[2] + [sep] + levels[3];
    assert Join(levels[1..], sep) == levels[1] + [sep] + (levels[2] + [sep] + levels[3]);
  }

  /** Joining the segments gives back the text. */
  lemma {:induction false} JoinSplit(s: Bytes, sep: byte)
    ensures Join(Split(s, sep), sep) == s
    decreases |s|
  {
    if |s| > 0 {
      var rest := Split(s[1..], sep);
      JoinSplit(s[1..], sep);
      if s[0] == sep {
        assert Split(s, sep) == [[]] + rest;
        JoinAfterEmpty(rest, sep);
      } else {
        assert Split(s, sep) == [[s[0]] + rest[0]] + rest[1..];
        JoinExtendFirst(s[0], rest, sep);
      }
      assert [s[0]] + s[1..] == s;
    }
  }

  /** An empty first segment contributes just the separator. */
  lemma JoinAfterEmpty(rest: seq<Bytes>, sep: byte)
    requires |rest| >= 1
    ensures Join([[]] + rest, sep) == [sep] + Join(rest, sep)
  {
    assert ([[]] + rest)[1..] == rest;
  }

  /** A byte put in front of the first segment is put in front of the joined text. */
  lemma JoinExtendFirst(x: byte, rest: seq<Bytes>, sep: byte)
    requires |rest| >= 1
    ensures Join([[x] + rest[0]] + rest[1..], sep) == [x] + Join(rest, sep)
  {
    var parts := [[x] + rest[0]] + rest[1..];
    if |rest| > 1 {
      assert parts[1..] == rest[1..];
    }
  }

  /** A text without the separator is one segment. */
  lemma {:induction false} SplitWithoutSeparator(s: Bytes, sep: byte)
    requires sep !in s
    ensures Split(s, sep) == [s]
    decreases |s|
  {
    if |s| > 0 {
      assert sep !in s[1..];
      SplitWithoutSeparator(s[1..], sep);
      assert [s[0]] + s[1..] == s;
    }
  }

  /** Splitting distributes over a separator placed between two texts. */
  lemma {:induction false} SplitAround(a: Bytes, sep: byte, b: Bytes)
    ensures Split(a + [sep] + b, sep) == Split(a, sep) + Split(b, sep)
    decreases |a|
  {
    var s := a + [sep] + b;
    if |a| == 0 {
      assert s[1..] == b;
    } else {
      assert s[1..] == a[1..] + [sep] + b;
      SplitAround(a[1..], sep, b);
    }
  }

  /** Splitting undoes joining when no segment holds the separator. */
  lemma {:induction false} SplitJoin(parts: seq<Bytes>, sep: byte)
    requires |parts| >= 1
    requires forall i :: 0 <= i < |parts| ==> sep !in parts[i]
    ensures Split(Join(parts, sep), sep) == parts
    decreases |parts|
  {
    SplitWithoutSeparator(parts[0], sep);
    if |parts| > 1 {
      SplitJoin(parts[1..], sep);
      SplitAround(parts[0], sep, Join(parts[1..], sep));
      assert [parts[0]] + parts[1..] == parts;
    }
  }

  /**
   * The first segment is a prefix of the text, and it is a strictly shorter
   * one whenever the text holds the separator.
   */
  lemma {:induction false} FirstSegmentIsPrefix(s: Bytes, sep: byte)
    ensures Split(s, sep)[0] <= s
    ensures sep in s ==> |Split(s, sep)[0]| < |s|
    decreases |s|
  {
    if |s| > 0 {
      FirstSegmentIsPrefix(s[1..], sep);
      assert s == [s[0]] + s[1..];
    }
  }

  /** Every segment is a Rust string. */
  predicate AllUtf8(parts: seq<Bytes>) {
    forall i :: 0 <= i < |parts| ==> IsUtf8(parts[i])
  }

  lemma AllUtf8Concat(left: seq<Bytes>, right: seq<Bytes>)
    requires AllUtf8(left) && AllUtf8(right)
    ensures AllUtf8(left + right)
  {
    forall i | 0 <= i < |left + right|
      ensures IsUtf8((left + right)[i])
    {
      if i < |left| {
        assert (left + right)[i] == left[i];
      } else {
        assert (left + right)[i] == right[i - |left|];
      }
    }
  }

  /** Every segment of a Rust string split on an ASCII byte is a Rust string. */
  lemma {:induction false} SplitKeepsUtf8(s: Bytes, sep: byte)
    requires IsUtf8(s) && sep < 0x80
    ensures AllUtf8(Split(s, sep))
    decreases |s|
  {
    if sep !in s {
      SplitWithoutSeparator(s, sep);
    } else {
      var k :| 0 <= k < |s| && s[k] == sep;
      var front, back := s[..k], s[k + 1..];
      assert s == front + [sep] + back;
      CutAtAsciiIsUtf8(front, sep, back);
      SplitAround(front, sep, back);
      SplitKeepsUtf8(front, sep);
      SplitKeepsUtf8(back, sep);
      AllUtf8Concat(Split(front, sep), Split(back, sep));
    }
  }
}
