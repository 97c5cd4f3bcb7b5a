// The few JavaScript string operations the build script relies on:
// `Array.prototype.join`, `String.prototype.split` and `String.prototype.replace`
// with a string pattern, and the conversion of a non-negative integer Number
// to its decimal text when it is concatenated to a string.

module Strings {

  /** `xs.join(sep)`: the elements of `xs` separated by `sep`; `[].join(sep)` is "". */
  function Join(xs: seq<string>, sep: char): string
  {
    if |xs| == 0 then ""
    else if |xs| == 1 then xs[0]
    else xs[0] + [sep] + Join(xs[1..], sep)
  }

  /** `s.split(sep)` for a one-character separator: the maximal pieces of `s`
      between separators, never an empty list ("".split('/') is [""]). */
  function Split(s: string, sep: char): (r: seq<string>)
    ensures |r| >= 1
    ensures forall k :: 0 <= k < |r| ==> sep !in r[k]
  {
    if s == [] then [""]
    else
      var rest := Split(s[1..], sep);
      if s[0] == sep then [""] + rest
      else [[s[0]] + rest[0]] + rest[1..]
  }

  /** Splitting and joining again gives back the original string. */
  lemma {:induction false} JoinSplit(s: string, sep: char)
    ensures Join(Split(s, sep), sep) == s
  {
    if s != [] {
      var rest := Split(s[1..], sep);
      JoinSplit(s[1..], sep);
      if s[0] == sep {
        calc {
          Join(Split(s, sep), sep);
          Join([""] + rest, sep);
          { assert ([""] + rest)[1..] == rest; }
          "" + [sep] + Join(rest, sep);
          [s[0]] + s[1..];
          s;
        }
      } else if |rest| == 1 {
        assert Split(s, sep) == [[s[0]] + rest[0]];
        assert Join(rest, sep) == rest[0];
        assert [s[0]] + s[1..] == s;
      } else {
        var r := [[s[0]] + rest[0]] + rest[1..];
        assert r[1..] == rest[1..];
        calc {
          Join(r, sep);
          [s[0]] + rest[0] + [sep] + Join(rest[1..], sep);
          [s[0]] + (rest[0] + [sep] + Join(rest[1..], sep));
          [s[0]] + Join(rest, sep);
          s;
        }
      }
    }
  }

  /** A string without the separator is a single piece. */
  lemma {:induction false} SplitWithoutSeparator(a: string, sep: char)
    requires sep !in a
    ensures Split(a, sep) == [a]
  {
    if a != [] {
      SplitWithoutSeparator(a[1..], sep);
      assert [a[0]] + a[1..] == a;
    }
  }

  /** A leading piece without the separator, then the separator, starts a new piece. */
  lemma {:induction false} SplitAfterPiece(a: string, sep: char, b: string)
    requires sep !in a
    ensures Split(a + [sep] + b, sep) == [a] + Split(b, sep)
  {
    var s := a + [sep] + b;
    if a == [] {
      assert s[0] == sep && s[1..] == b;
    } else {
      assert s[0] == a[0];
      assert s[1..] == a[1..] + [sep] + b;
      SplitAfterPiece(a[1..], sep, b);
      assert [a[0]] + a[1..] == a;
    }
  }

  /** Joining pieces that do not contain the separator and splitting again
      gives back the pieces (a non-empty list: `[].join` and `[""].join` agree). */
  lemma {:induction false} SplitJoin(xs: seq<string>, sep: char)
    requires |xs| >= 1
    requires forall k :: 0 <= k < |xs| ==> sep !in xs[k]
    ensures Split(Join(xs, sep), sep) == xs
  {
    if |xs| == 1 {
      SplitWithoutSeparator(xs[0], sep);
    } else {
      SplitJoin(xs[1..], sep);
      SplitAfterPiece(xs[0], sep, Join(xs[1..], sep));
      assert [xs[0]] + xs[1..] == xs;
    }
  }

  /** `parts[parts.length - 1]` of `s.split(sep)`. */
  function LastSegment(s: string, sep: char): string
  {
    var parts := Split(s, sep);
    parts[|parts| - 1]
  }

  /** The last segment is a suffix of `s`; it is all of `s` exactly when `s` splits into one piece. */
  lemma {:induction false} LastSegmentIsSuffix(s: string, sep: char)
    ensures var t := LastSegment(s, sep);
      |t| <= |s| && s[|s| - |t|..] == t && (|Split(s, sep)| == 1 <==> |t| == |s|)
  {
    if s != [] {
      var tail := s[1..];
      var rest := Split(tail, sep);
      LastSegmentIsSuffix(tail, sep);
      if s[0] == sep || |rest| > 1 {
        var t := LastSegment(tail, sep);
        assert LastSegment(s, sep) == t;
        assert s[|s| - |t|..] == tail[|tail| - |t|..];
      } else {
        JoinSplit(tail, sep);
        assert rest == [tail];
        assert LastSegment(s, sep) == [s[0]] + tail;
      }
    }
  }

  /** A last segment shorter than `s` is preceded by the separator. */
  lemma {:induction false} LastSegmentAfterSeparator(s: string, sep: char)
    ensures var t := LastSegment(s, sep);
      |t| < |s| ==> s[|s| - |t| - 1] == sep
  {
    if s != [] {
      var tail := s[1..];
      var rest := Split(tail, sep);
      LastSegmentIsSuffix(s, sep);
      LastSegmentIsSuffix(tail, sep);
      LastSegmentAfterSeparator(tail, sep);
      if s[0] == sep || |rest| > 1 {
        var t := LastSegment(tail, sep);
        assert LastSegment(s, sep) == t;
        assert |t| < |tail| ==> s[|s| - |t| - 1] == tail[|tail| - |t| - 1];
      }
    }
  }

  /** The last segment is the tail of `s` after its last separator (all of `s` when there is none). */
  lemma LastSegmentIsTail(s: string, sep: char)
    ensures var t := LastSegment(s, sep);
      |t| <= |s| && s[|s| - |t|..] == t && sep !in t &&
      (|t| < |s| ==> s[|s| - |t| - 1] == sep) &&
      (|Split(s, sep)| == 1 <==> |t| == |s|)
  {
    LastSegmentIsSuffix(s, sep);
    LastSegmentAfterSeparator(s, sep);
  }

  /** `pat` occurs in `s` starting at index `i`. */
  predicate OccursAt(s: string, pat: string, i: nat)
  {
    i + |pat| <= |s| && s[i..i + |pat|] == pat
  }

  /** `s.replace(pat, rep)` with a string pattern: only the FIRST occurrence is replaced.
      The `$` patterns JavaScript expands in a replacement string are not modelled. */
  function ReplaceFirst(s: string, pat: string, rep: string): string
  {
    if pat <= s then rep + s[|pat|..]
    else if s == [] then s
    else [s[0]] + ReplaceFirst(s[1..], pat, rep)
  }

  lemma OccursAtTail(s: string, pat: string, k: nat)
    requires s != []
    ensures OccursAt(s, pat, k + 1) <==> OccursAt(s[1..], pat, k)
  {
    if k + 1 + |pat| <= |s| {
      assert s[k + 1..k + 1 + |pat|] == s[1..][k..k + |pat|];
    }
  }

  /** No occurrence before i + 1 in `s` means none before i in its tail. */
  lemma NoOccurrenceInTail(s: string, pat: string, i: nat)
    requires s != []
    requires forall k :: 0 <= k < i + 1 ==> !OccursAt(s, pat, k)
    ensures forall k :: 0 <= k < i ==> !OccursAt(s[1..], pat, k)
  {
    forall k | 0 <= k < i
      ensures !OccursAt(s[1..], pat, k)
    {
      OccursAtTail(s, pat, k);
    }
  }

  /** Putting back the first character of `s` in front of a replacement made in its tail. */
  lemma ConsReplaced(s: string, rep: string, i: nat, m: nat)
    requires 1 <= i && i + m <= |s|
    ensures [s[0]] + (s[1..][..i - 1] + rep + s[1..][i - 1 + m..]) == s[..i] + rep + s[i + m..]
  {
    assert [s[0]] + s[1..][..i - 1] == s[..i];
    assert s[1..][i - 1 + m..] == s[i + m..];
  }

  /** With a first occurrence at `i`, exactly that occurrence is replaced. */
  lemma {:induction false} ReplaceFirstAt(s: string, pat: string, rep: string, i: nat)
    requires OccursAt(s, pat, i)
    requires forall k :: 0 <= k < i ==> !OccursAt(s, pat, k)
    ensures ReplaceFirst(s, pat, rep) == s[..i] + rep + s[i + |pat|..]
  {
    if i == 0 {
      assert pat <= s;
    } else {
      var tail := s[1..];
      assert ReplaceFirst(s, pat, rep) == [s[0]] + ReplaceFirst(tail, pat, rep) by {
        assert !OccursAt(s, pat, 0);
      }
      NoOccurrenceInTail(s, pat, i - 1);
      OccursAtTail(s, pat, i - 1);
      ReplaceFirstAt(tail, pat, rep, i - 1);
      ConsReplaced(s, rep, i, |pat|);
    }
  }

  /** Without any occurrence the string is unchanged. */
  lemma {:induction false} ReplaceFirstAbsent(s: string, pat: string, rep: string)
    requires forall k :: 0 <= k <= |s| ==> !OccursAt(s, pat, k)
    ensures ReplaceFirst(s, pat, rep) == s
  {
    assert !OccursAt(s, pat, 0);
    if s != [] {
      forall k | 0 <= k <= |s| - 1
        ensures !OccursAt(s[1..], pat, k)
      {
        OccursAtTail(s, pat, k);
      }
      ReplaceFirstAbsent(s[1..], pat, rep);
      assert [s[0]] + s[1..] == s;
    }
  }

  /** A character in neither the string nor the replacement is not in the result. */
  lemma {:induction false} ReplaceFirstAvoids(s: string, pat: string, rep: string, c: char)
    requires c !in s && c !in rep
    ensures c !in ReplaceFirst(s, pat, rep)
  {
    if !(pat <= s) && s != [] {
      ReplaceFirstAvoids(s[1..], pat, rep, c);
    }
  }

  predicate IsDigit(c: char)
  {
    '0' <= c <= '9'
  }

  function DigitChar(d: nat): (c: char)
    requires d < 10
  {
    ('0' as int + d) as char
  }

  /** The text JavaScript produces for a non-negative integer Number below 1e21:
      decimal digits, no sign, no leading zero. */
  function Decimal(n: nat): (r: string)
    ensures |r| >= 1
    ensures forall k :: 0 <= k < |r| ==> IsDigit(r[k])
    ensures r[0] == '0' ==> n == 0
  {
    if n < 10 then [DigitChar(n)]
    else Decimal(n / 10) + [DigitChar(n % 10)]
  }

  /** The number a string of decimal digits denotes. */
  function DecimalValue(s: string): nat
    requires forall k :: 0 <= k < |s| ==> IsDigit(s[k])
  {
    if s == [] then 0
    else
      assert IsDigit(s[|s| - 1]);
      DecimalValue(s[..|s| - 1]) * 10 + (s[|s| - 1] as int - '0' as int)
  }

  /** Reading the decimal text back gives the number. */
  lemma {:induction false} DecimalRoundTrip(n: nat)
    ensures DecimalValue(Decimal(n)) == n
  {
    var r := Decimal(n);
    if n >= 10 {
      DecimalRoundTrip(n / 10);
      assert r[..|r| - 1] == Decimal(n / 10);
    }
  }
}
