/** The Python `str` operations the application uses: `in`, `lower`, `strip`, `split` and
    `replace`, each defined on `seq<char>` the way CPython performs it. */
module Strings {
  import opened Chars

  predicate AllDigits(s: string) {
    forall i :: 0 <= i < |s| ==> IsDigit(s[i])
  }

  /** `s.startswith(pat)`, character by character. */
  predicate StartsWith(s: string, pat: string)
    decreases |pat|
  {
    |pat| <= |s| && (|pat| == 0 || (s[0] == pat[0] && StartsWith(s[1..], pat[1..])))
  }

  lemma {:induction false} StartsWithIsPrefix(s: string, pat: string)
    ensures StartsWith(s, pat) <==> |pat| <= |s| && s[..|pat|] == pat
    decreases |pat|
  {
    if |pat| > 0 && |pat| <= |s| {
      StartsWithIsPrefix(s[1..], pat[1..]);
      assert s[..|pat|] == [s[0]] + s[1..][..|pat| - 1];
      assert pat == [pat[0]] + pat[1..];
    }
  }

  /** Python's `pat in s`. */
  predicate Contains(s: string, pat: string)
    decreases |s|
  {
    StartsWith(s, pat) || (|s| > 0 && Contains(s[1..], pat))
  }

  /** `pat` occurs in `s` starting at index `i`. */
  predicate OccursAt(s: string, pat: string, i: int) {
    0 <= i <= |s| - |pat| && s[i..i + |pat|] == pat
  }

  /** An occurrence of `pat` contains its first character. */
  lemma {:induction false} ContainsFirstChar(s: string, pat: string)
    requires |pat| > 0 && Contains(s, pat)
    ensures pat[0] in s
    decreases |s|
  {
    if !StartsWith(s, pat) {
      ContainsFirstChar(s[1..], pat);
    }
  }

  /** `pat in s` holds exactly when `pat` occurs at some position of `s`. */
  lemma {:induction false} ContainsAt(s: string, pat: string)
    ensures Contains(s, pat) <==> exists i :: OccursAt(s, pat, i)
    decreases |s|
  {
    StartsWithIsPrefix(s, pat);
    if |s| > 0 {
      ContainsAt(s[1..], pat);
      if exists i :: OccursAt(s, pat, i) {
        var i :| OccursAt(s, pat, i);
        if i > 0 {
          assert s[1..][i - 1..i - 1 + |pat|] == s[i..i + |pat|];
          assert OccursAt(s[1..], pat, i - 1);
        }
      }
      if Contains(s[1..], pat) {
        var i :| OccursAt(s[1..], pat, i);
        assert s[1..][i..i + |pat|] == s[i + 1..i + 1 + |pat|];
        assert OccursAt(s, pat, i + 1);
      }
      if StartsWith(s, pat) {
        assert OccursAt(s, pat, 0);
      }
    } else {
      if exists i :: OccursAt(s, pat, i) {
        var i :| OccursAt(s, pat, i);
        assert StartsWith(s, pat);
      }
      if Contains(s, pat) {
        assert OccursAt(s, pat, 0);
      }
    }
  }

  /** `int(d)` for a string of ASCII digits. */
  function DigitsValue(d: string): nat
    requires AllDigits(d)
  {
    if |d| == 0 then 0 else DigitsValue(d[..|d| - 1]) * 10 + (d[|d| - 1] as int - '0' as int)
  }

  function Pow10(n: nat): (p: nat)
    ensures p > 0
  {
    if n == 0 then 1 else 10 * Pow10(n - 1)
  }

  /** `n` decimal digits stand for less than `10^n`. */
  lemma {:induction false} DigitsBelowPow10(d: string)
    requires AllDigits(d)
    ensures DigitsValue(d) < Pow10(|d|)
  {
    if |d| > 0 {
      var e := d[..|d| - 1];
      DigitsBelowPow10(e);
      assert DigitsValue(d) == DigitsValue(e) * 10 + (d[|d| - 1] as int - '0' as int);
      assert DigitsValue(e) + 1 <= Pow10(|e|);
      assert DigitsValue(e) * 10 + 10 <= Pow10(|e|) * 10;
    }
  }

  /** `s.lower()`, with the character mapping of `Chars.Lower`. */
  function LowerStr(s: string): (r: string)
    ensures |r| == |s|
    ensures forall i :: 0 <= i < |s| ==> r[i] == Lower(s[i])
  {
    if |s| == 0 then [] else [Lower(s[0])] + LowerStr(s[1..])
  }

  /** The case-folded view a case-insensitive `re` search compares against its pattern. */
  function FoldStr(s: string): (r: string)
    ensures |r| == |s|
    ensures forall i :: 0 <= i < |s| ==> r[i] == Fold(s[i])
  {
    if |s| == 0 then [] else [Fold(s[0])] + FoldStr(s[1..])
  }

  /** Leading characters of class `ws` removed (`s.lstrip()` when `ws` is `IsSpace`). */
  function TrimStart(s: string, ws: char -> bool): (r: string)
    ensures |r| <= |s| && r == s[|s| - |r|..]
    ensures forall i :: 0 <= i < |s| - |r| ==> ws(s[i])
    ensures |r| > 0 ==> !ws(r[0])
  {
    if |s| > 0 && ws(s[0]) then
      var r := TrimStart(s[1..], ws);
      assert forall i :: 0 < i < |s| ==> s[i] == s[1..][i - 1];
      r
    else s
  }

  /** Trailing characters of class `ws` removed (`s.rstrip()` when `ws` is `IsSpace`). */
  function TrimEnd(s: string, ws: char -> bool): (r: string)
    ensures |r| <= |s| && r == s[..|r|]
    ensures forall i :: |r| <= i < |s| ==> ws(s[i])
    ensures |r| > 0 ==> !ws(r[|r| - 1])
  {
    if |s| > 0 && ws(s[|s| - 1]) then TrimEnd(s[..|s| - 1], ws) else s
  }

  /** Both ends trimmed of class `ws`. */
  function StripWith(s: string, ws: char -> bool): string {
    TrimEnd(TrimStart(s, ws), ws)
  }

  /** `s.strip()`. */
  function Strip(s: string): string {
    StripWith(s, IsSpace)
  }

  /** Trimming both ends of class `ws` removes only characters of the class: the input is a
      run of them, the result, and another run, and the result neither starts nor ends with
      one. */
  lemma StripWithParts(s: string, ws: char -> bool) returns (lead: string, trail: string)
    ensures s == lead + StripWith(s, ws) + trail
    ensures forall i :: 0 <= i < |lead| ==> ws(lead[i])
    ensures forall i :: 0 <= i < |trail| ==> ws(trail[i])
    ensures |StripWith(s, ws)| > 0 ==> !ws(StripWith(s, ws)[0]) && !ws(StripWith(s, ws)[|StripWith(s, ws)| - 1])
  {
    var a := TrimStart(s, ws);
    lead := LeadingRun(s, ws);
    trail := TrailingRun(a, ws);
    Regroup(s, lead, a, StripWith(s, ws), trail);
  }

  lemma Regroup(s: string, lead: string, a: string, r: string, trail: string)
    requires s == lead + a && a == r + trail
    ensures s == lead + r + trail
  {
    assert lead + (r + trail) == lead + r + trail;
  }

  /** What `TrimStart` removes is a run of the class. */
  lemma LeadingRun(s: string, ws: char -> bool) returns (lead: string)
    ensures s == lead + TrimStart(s, ws)
    ensures forall i :: 0 <= i < |lead| ==> ws(lead[i])
  {
    var r := TrimStart(s, ws);
    lead := s[..|s| - |r|];
    assert s == lead + s[|s| - |r|..];
  }

  /** What `TrimEnd` removes is a run of the class. */
  lemma TrailingRun(s: string, ws: char -> bool) returns (trail: string)
    ensures s == TrimEnd(s, ws) + trail
    ensures forall i :: 0 <= i < |trail| ==> ws(trail[i])
  {
    var r := TrimEnd(s, ws);
    trail := s[|r|..];
    assert s == s[..|r|] + trail;
    forall i | 0 <= i < |trail|
      ensures ws(trail[i])
    {
      assert trail[i] == s[|r| + i];
    }
  }

  /** `strip()` removes whitespace only: the input is some whitespace, then the result, then
      some whitespace, and the result neither starts nor ends with whitespace. */
  lemma StripParts(s: string) returns (lead: string, trail: string)
    ensures s == lead + Strip(s) + trail
    ensures forall i :: 0 <= i < |lead| ==> IsSpace(lead[i])
    ensures forall i :: 0 <= i < |trail| ==> IsSpace(trail[i])
    ensures |Strip(s)| > 0 ==> !IsSpace(Strip(s)[0]) && !IsSpace(Strip(s)[|Strip(s)| - 1])
  {
    lead, trail := StripWithParts(s, IsSpace);
  }

  /** Leading whitespace makes no difference to `strip()`. */
  lemma StripLeadingSpace(c: char, s: string)
    requires IsSpace(c)
    ensures Strip([c] + s) == Strip(s)
  {
    assert ([c] + s)[1..] == s;
  }

  /** A string that has no whitespace at either end is its own `strip()`. */
  lemma StripTrimmed(s: string)
    requires |s| > 0 ==> !IsSpace(s[0]) && !IsSpace(s[|s| - 1])
    ensures Strip(s) == s
  {
  }

  /** The first index of `c` in `s`, or `|s|` when `c` does not occur. */
  function IndexOf(s: string, c: char): (k: nat)
    ensures k <= |s|
    ensures c !in s[..k]
    ensures k < |s| ==> s[k] == c
  {
    if |s| == 0 then 0 else if s[0] == c then 0 else 1 + IndexOf(s[1..], c)
  }

  /** A character that occurs is counted. */
  lemma {:induction false} CountPresent(s: string, c: char)
    requires c in s
    ensures Count(s, c) > 0
  {
    if s[0] != c {
      CountPresent(s[1..], c);
    }
  }

  /** `s.split(c)` for a one-character separator. */
  function Split(s: string, c: char): (parts: seq<string>)
    ensures |parts| >= 1
    ensures forall i :: 0 <= i < |parts| ==> c !in parts[i]
    decreases |s|
  {
    var k := IndexOf(s, c);
    if k == |s| then [s] else [s[..k]] + Split(s[k + 1..], c)
  }

  /** `c.join(parts)`. */
  function Join(parts: seq<string>, c: char): string
    requires |parts| >= 1
  {
    if |parts| == 1 then parts[0] else parts[0] + [c] + Join(parts[1..], c)
  }

  /** The number of occurrences of `c` in `s`. */
  function Count(s: string, c: char): nat {
    if |s| == 0 then 0 else (if s[0] == c then 1 else 0) + Count(s[1..], c)
  }

  lemma {:induction false} CountAppend(a: string, b: string, c: char)
    ensures Count(a + b, c) == Count(a, c) + Count(b, c)
  {
    if |a| > 0 {
      assert (a + b)[1..] == a[1..] + b;
      assert (a + b)[0] == a[0];
      CountAppend(a[1..], b, c);
    } else {
      assert a + b == b;
    }
  }

  lemma {:induction false} CountAbsent(s: string, c: char)
    requires c !in s
    ensures Count(s, c) == 0
  {
    if |s| > 0 {
      CountAbsent(s[1..], c);
    }
  }

  /** Joining the parts of a split with the same separator gives back the string. */
  lemma {:induction false} JoinSplit(s: string, c: char)
    ensures Join(Split(s, c), c) == s
    decreases |s|
  {
    var k := IndexOf(s, c);
    if k < |s| {
      var rest := Split(s[k + 1..], c);
      JoinSplit(s[k + 1..], c);
      var parts := Split(s, c);
      assert parts == [s[..k]] + rest;
      assert parts[1..] == rest;
      assert Join(parts, c) == s[..k] + [c] + Join(rest, c);
      assert s == s[..k] + [c] + s[k + 1..];
    }
  }

  /** A split has one part more than the string has separators. */
  lemma {:induction false} SplitCount(s: string, c: char)
    ensures |Split(s, c)| == Count(s, c) + 1
    decreases |s|
  {
    var k := IndexOf(s, c);
    if k == |s| {
      CountAbsent(s, c);
    } else {
      SplitCount(s[k + 1..], c);
      assert s == s[..k] + ([c] + s[k + 1..]);
      CountAppend(s[..k], [c] + s[k + 1..], c);
      assert ([c] + s[k + 1..])[1..] == s[k + 1..];
      CountAbsent(s[..k], c);
    }
  }

  /** `IndexOf` finds the first occurrence. */
  lemma {:induction false} IndexOfFirst(s: string, c: char, j: nat)
    requires j < |s| && s[j] == c && c !in s[..j]
    ensures IndexOf(s, c) == j
  {
    if j > 0 {
      assert s[0] == s[..j][0];
      assert s[1..][..j - 1] == s[..j][1..];
      IndexOfFirst(s[1..], c, j - 1);
    }
  }

  /** The first part of a split is the text before the first separator; the rest is the
      split of the text after it. */
  lemma SplitAtFirst(a: string, b: string, c: char)
    requires c !in a
    ensures Split(a + [c] + b, c) == [a] + Split(b, c)
  {
    var s := a + [c] + b;
    assert s[..|a|] == a && s[|a| + 1..] == b;
    IndexOfFirst(s, c, |a|);
  }

  /** A string without the separator splits into itself alone. */
  lemma SplitAbsent(s: string, c: char)
    requires c !in s
    ensures Split(s, c) == [s]
  {
    assert IndexOf(s, c) == |s|;
  }

  lemma StartsWithChar(s: string, c: char)
    ensures StartsWith(s, [c]) <==> |s| > 0 && s[0] == c
  {
    if |s| > 0 {
      assert StartsWith(s[1..], [c][1..]);
    }
  }

  /** `s.replace(pat, rep)`: every non-overlapping occurrence of `pat`, scanning left to right,
      is replaced by `rep`. */
  function ReplaceAll(s: string, pat: string, rep: string): string
    requires |pat| > 0
    decreases |s|
  {
    if |s| == 0 then s
    else if StartsWith(s, pat) then rep + ReplaceAll(s[|pat|..], pat, rep)
    else [s[0]] + ReplaceAll(s[1..], pat, rep)
  }

  /** Replacing a pattern that does not occur changes nothing. */
  lemma {:induction false} ReplaceAbsent(s: string, pat: string, rep: string)
    requires |pat| > 0 && !Contains(s, pat)
    ensures ReplaceAll(s, pat, rep) == s
    decreases |s|
  {
    if |s| > 0 {
      ReplaceAbsent(s[1..], pat, rep);
    }
  }

  /** Replacing a character that does not occur changes nothing. */
  lemma ReplaceCharAbsent(s: string, c: char, rep: string)
    requires c !in s
    ensures ReplaceAll(s, [c], rep) == s
  {
    if Contains(s, [c]) {
      ContainsFirstChar(s, [c]);
    }
    ReplaceAbsent(s, [c], rep);
  }

  /** Replacing a one-character pattern acts on each character separately. */
  lemma {:induction false} ReplaceCharAppend(a: string, b: string, c: char, rep: string)
    ensures ReplaceAll(a + b, [c], rep) == ReplaceAll(a, [c], rep) + ReplaceAll(b, [c], rep)
    decreases |a|
  {
    if |a| > 0 {
      assert (a + b)[1..] == a[1..] + b;
      assert (a + b)[0] == a[0];
      StartsWithChar(a + b, c);
      StartsWithChar(a, c);
      ReplaceCharAppend(a[1..], b, c, rep);
    } else {
      assert a + b == b;
    }
  }

  /** Deleting every `c` leaves no `c` and keeps every other character count. */
  lemma {:induction false} DeleteChar(s: string, c: char)
    ensures c !in ReplaceAll(s, [c], "")
    ensures forall d :: d != c ==> Count(ReplaceAll(s, [c], ""), d) == Count(s, d)
    ensures forall d :: d in ReplaceAll(s, [c], "") ==> d in s
    decreases |s|
  {
    if |s| > 0 {
      DeleteChar(s[1..], c);
      StartsWithChar(s, c);
      if s[0] != c {
        var r := ReplaceAll(s[1..], [c], "");
        assert ReplaceAll(s, [c], "") == [s[0]] + r;
        forall d | d != c
          ensures Count([s[0]] + r, d) == Count(s, d)
        {
          assert ([s[0]] + r)[1..] == r;
          assert ([s[0]] + r)[0] == s[0];
        }
      } else {
        assert ReplaceAll(s, [c], "") == ReplaceAll(s[1..], [c], "");
      }
    }
  }

  /** Replacing `c` by `d` moves every count of `c` to `d`. */
  lemma {:induction false} ReplaceCharCount(s: string, c: char, d: char)
    requires c != d
    ensures Count(ReplaceAll(s, [c], [d]), d) == Count(s, c) + Count(s, d)
    ensures c !in ReplaceAll(s, [c], [d])
    decreases |s|
  {
    if |s| > 0 {
      ReplaceCharCount(s[1..], c, d);
      StartsWithChar(s, c);
      var r := ReplaceAll(s[1..], [c], [d]);
      var x := if s[0] == c then d else s[0];
      assert ReplaceAll(s, [c], [d]) == [x] + r;
      assert ([x] + r)[0] == x && ([x] + r)[1..] == r;
    }
  }

  /** Replacing one character by another keeps the length and maps position by position. */
  lemma {:induction false} ReplaceCharByChar(s: string, c: char, d: char)
    ensures |ReplaceAll(s, [c], [d])| == |s|
    ensures forall i :: 0 <= i < |s| ==> ReplaceAll(s, [c], [d])[i] == if s[i] == c then d else s[i]
    decreases |s|
  {
    if |s| > 0 {
      ReplaceCharByChar(s[1..], c, d);
      StartsWithChar(s, c);
    }
  }
}
