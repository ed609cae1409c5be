/** Reading a fit score out of the completion service's free-text reply
    (`extrair_nota_segura` and the parse step of `pontuar_lead`). */
module ScoreParser {
  import opened Chars
  import opened Strings
  import opened Options

  /** One lead's outcome: a score and the reason given for it. */
  datatype ScoreResult = ScoreResult(score: int, reason: string)

  /** The reason recorded when the completion call fails. */
  const FailureReason: string := "Erro"

  /** The end of the longest run of digits that starts at `i`. */
  function RunEnd(s: string, i: nat): (j: nat)
    requires i <= |s|
    ensures i <= j <= |s| && AllDigits(s[i..j])
    ensures forall k :: i <= k < j ==> IsDigit(s[k])
    ensures j == |s| || !IsDigit(s[j])
    decreases |s| - i
  {
    if i < |s| && IsDigit(s[i]) then
      var j := RunEnd(s, i + 1);
      assert s[i..j] == [s[i]] + s[i + 1..j];
      j
    else i
  }

  /** The pattern `\b\d+\b` matches `s[i..j]`: a non-empty digit run with a word boundary on
      each side, that is with a non-word character or the end of the text on each side. */
  predicate IsBoundedRun(s: string, i: int, j: int) {
    0 <= i < j <= |s| && AllDigits(s[i..j])
    && (i == 0 || !IsWordChar(s[i - 1]))
    && (j == |s| || !IsWordChar(s[j]))
  }

  /** A match attempt of `\b\d+\b` starts at `i`: a digit with a word boundary before it. */
  predicate StartsMatch(s: string, i: nat)
    requires i < |s|
  {
    IsDigit(s[i]) && (i == 0 || !IsWordChar(s[i - 1]))
  }

  /** Where the scan of `findall` goes on from `i`: past the digit run that starts a match
      attempt there, or to the next character. */
  function NextScan(s: string, i: nat): (j: nat)
    requires i < |s|
    ensures i < j <= |s|
    ensures j == i + 1 || (IsDigit(s[i]) && j == RunEnd(s, i))
  {
    if StartsMatch(s, i) then RunEnd(s, i) else i + 1
  }

  /** `re.findall(r'\b\d+\b', s)` once the scan has reached index `i`. Because digits are word
      characters, a match is always a whole run of digits: a run glued to a word character on
      either side is never matched, not even in part. */
  function FindNumbers(s: string, i: nat): (ms: seq<string>)
    requires i <= |s|
    ensures forall k :: 0 <= k < |ms| ==> |ms[k]| > 0 && AllDigits(ms[k])
    decreases |s| - i
  {
    if i == |s| then []
    else if StartsMatch(s, i) then
      var j := RunEnd(s, i);
      if j == |s| || !IsWordChar(s[j]) then [s[i..j]] + FindNumbers(s, j) else FindNumbers(s, j)
    else FindNumbers(s, i + 1)
  }

  /** `re.findall(r'\b\d+\b', s)`, in the order the matches occur. */
  function FindAllNumbers(s: string): seq<string> {
    FindNumbers(s, 0)
  }

  /** The loop of `extrair_nota_segura`: the value of the first number in [0, 100], else 0. */
  function FirstInRange(ms: seq<string>): (n: int)
    requires forall k :: 0 <= k < |ms| ==> AllDigits(ms[k])
    ensures 0 <= n <= 100
    ensures n != 0 ==> exists k :: 0 <= k < |ms| && DigitsValue(ms[k]) == n
  {
    if |ms| == 0 then 0
    else if DigitsValue(ms[0]) <= 100 then DigitsValue(ms[0])
    else FirstInRange(ms[1..])
  }

  /** What `extrair_nota_segura(text)` returns. */
  function SafeScore(text: string): (n: int)
    ensures 0 <= n <= 100
  {
    FirstInRange(FindAllNumbers(text))
  }

  /** `extrair_nota_segura`: find every bounded number, then return the first one in [0, 100],
      or 0 when there is none. */
  method ExtractScore(text: string) returns (n: int)
    ensures n == SafeScore(text)
    ensures 0 <= n <= 100
  {
    var numbers := FindAllNumbers(text);
    if |numbers| == 0 {
      return 0;
    }
    var k := 0;
    while k < |numbers|
      invariant 0 <= k <= |numbers|
      invariant FirstInRange(numbers[k..]) == FirstInRange(numbers)
    {
      var value := DigitsValue(numbers[k]);
      if 0 <= value <= 100 {
        return value;
      }
      assert numbers[k..][1..] == numbers[k + 1..];
      k := k + 1;
    }
    return 0;
  }

  /** A bounded run is a whole run of digits, so the scan's run end finds its end. */
  lemma {:induction false} RunEndOfDigits(s: string, i: nat, j: nat)
    requires i <= j <= |s| && AllDigits(s[i..j]) && (j == |s| || !IsDigit(s[j]))
    ensures RunEnd(s, i) == j
    decreases j - i
  {
    if i < j {
      assert IsDigit(s[i..j][0]);
      assert s[i + 1..j] == s[i..j][1..];
      RunEndOfDigits(s, i + 1, j);
    }
  }

  /** A bounded run cannot start strictly inside another run of digits. */
  lemma BoundedRunNotInside(s: string, i: nat, j: nat, a: int, b: int)
    requires i < a && i <= j <= |s| && IsBoundedRun(s, a, b)
    requires forall k :: i <= k < j ==> IsDigit(s[k])
    ensures j <= a - 1
  {
  }

  /** Every number `findall` returns is the text of a bounded run at or after the scan point. */
  lemma {:induction false} FindNumbersSound(s: string, i: nat)
    requires i <= |s|
    ensures forall k :: 0 <= k < |FindNumbers(s, i)| ==>
      exists a, b :: i <= a && IsBoundedRun(s, a, b) && FindNumbers(s, i)[k] == s[a..b]
    decreases |s| - i
  {
    var ms := FindNumbers(s, i);
    if i < |s| {
      var next := NextScan(s, i);
      var rest := FindNumbers(s, next);
      FindNumbersSound(s, next);
      var found := |ms| > |rest|;
      assert found ==> IsBoundedRun(s, i, next) && ms == [s[i..next]] + rest;
      assert !found ==> ms == rest;
      forall k | 0 <= k < |ms|
        ensures exists a, b :: i <= a && IsBoundedRun(s, a, b) && ms[k] == s[a..b]
      {
        if found && k == 0 {
          assert ms[0] == s[i..next];
        } else {
          var k' := if found then k - 1 else k;
          assert ms[k] == rest[k'];
          var a, b :| next <= a && IsBoundedRun(s, a, b) && rest[k'] == s[a..b];
        }
      }
    }
  }

  /** Every bounded run at or after the scan point is among the numbers `findall` returns. */
  lemma {:induction false} FindNumbersComplete(s: string, i: nat, a: int, b: int)
    requires i <= a && IsBoundedRun(s, a, b)
    ensures s[a..b] in FindNumbers(s, i)
    decreases |s| - i
  {
    assert IsDigit(s[a..b][0]);
    if StartsMatch(s, i) {
      var j := RunEnd(s, i);
      if i == a {
        RunEndOfDigits(s, a, b);
      } else {
        BoundedRunNotInside(s, i, j, a, b);
        FindNumbersComplete(s, j, a, b);
      }
    } else {
      FindNumbersComplete(s, i + 1, a, b);
    }
  }

  /** A stretch without digits holds no match: the scan passes over it. */
  lemma {:induction false} SkipNonDigits(s: string, i: nat, j: nat)
    requires i <= j <= |s|
    requires forall k :: i <= k < j ==> !IsDigit(s[k])
    ensures FindNumbers(s, i) == FindNumbers(s, j)
    decreases j - i
  {
    if i < j {
      SkipNonDigits(s, i + 1, j);
    }
  }

  /** `int(num)` succeeds on every match: each is a non-empty string of digits. */
  lemma MatchesAreNumerals(text: string)
    ensures forall k :: 0 <= k < |FindAllNumbers(text)| ==>
      |FindAllNumbers(text)[k]| > 0 && AllDigits(FindAllNumbers(text)[k])
  {
  }

  /** A bounded run whose value is in [0, 100]: the candidates the loop may return. */
  predicate IsCandidate(s: string, a: int, b: int) {
    IsBoundedRun(s, a, b) && DigitsValue(s[a..b]) <= 100
  }

  lemma {:induction false} FirstCandidateFrom(s: string, i: nat, a: int, b: int)
    requires i <= a && IsCandidate(s, a, b)
    requires forall a', b' :: i <= a' && IsCandidate(s, a', b') ==> a <= a'
    ensures FirstInRange(FindNumbers(s, i)) == DigitsValue(s[a..b])
    decreases |s| - i
  {
    if i == a {
      CandidateAtScan(s, a, b);
    } else {
      ScanStep(s, i, a, b);
      FirstCandidateFrom(s, NextScan(s, i), a, b);
    }
  }

  /** A candidate at the scan point is the first number in range. */
  lemma CandidateAtScan(s: string, a: int, b: int)
    requires IsCandidate(s, a, b)
    ensures FirstInRange(FindNumbers(s, a)) == DigitsValue(s[a..b])
  {
    assert IsDigit(s[a..b][0]);
    RunEndOfDigits(s, a, b);
  }

  /** Before the first candidate, one step of the scan does not change the score. */
  lemma ScanStep(s: string, i: nat, a: int, b: int)
    requires i < a && IsCandidate(s, a, b)
    requires forall a', b' :: i <= a' && IsCandidate(s, a', b') ==> a <= a'
    ensures NextScan(s, i) <= a
    ensures FirstInRange(FindNumbers(s, i)) == FirstInRange(FindNumbers(s, NextScan(s, i)))
  {
    if StartsMatch(s, i) {
      var j := RunEnd(s, i);
      BoundedRunNotInside(s, i, j, a, b);
      assert !IsCandidate(s, i, j);
      PassOverRun(s, i);
    }
  }

  /** A run of digits at the scan point that is no candidate does not decide the score. */
  lemma PassOverRun(s: string, i: nat)
    requires i < |s| && StartsMatch(s, i)
    requires !IsCandidate(s, i, RunEnd(s, i))
    ensures FirstInRange(FindNumbers(s, i)) == FirstInRange(FindNumbers(s, RunEnd(s, i)))
  {
    var j := RunEnd(s, i);
    if j == |s| || !IsWordChar(s[j]) {
      assert IsBoundedRun(s, i, j);
      assert ([s[i..j]] + FindNumbers(s, j))[1..] == FindNumbers(s, j);
    }
  }

  /** The score is the value of the leftmost bounded number in [0, 100]: any bounded number
      before it is out of range, and nothing after it matters. */
  lemma ScoreIsFirstCandidate(s: string, a: int, b: int)
    requires IsCandidate(s, a, b)
    requires forall a', b' :: IsCandidate(s, a', b') ==> a <= a'
    ensures SafeScore(s) == DigitsValue(s[a..b])
  {
    FirstCandidateFrom(s, 0, a, b);
  }

  lemma {:induction false} FirstInRangeNone(ms: seq<string>)
    requires forall k :: 0 <= k < |ms| ==> AllDigits(ms[k]) && DigitsValue(ms[k]) > 100
    ensures FirstInRange(ms) == 0
  {
    if |ms| > 0 {
      FirstInRangeNone(ms[1..]);
    }
  }

  /** Text with no bounded number in [0, 100] scores 0. */
  lemma ScoreWithoutCandidate(s: string)
    requires forall a, b :: !IsCandidate(s, a, b)
    ensures SafeScore(s) == 0
  {
    var ms := FindNumbers(s, 0);
    FindNumbersSound(s, 0);
    forall k | 0 <= k < |ms|
      ensures DigitsValue(ms[k]) > 100
    {
      assert exists a, b :: 0 <= a && IsBoundedRun(s, a, b) && FindNumbers(s, 0)[k] == s[a..b];
      var a, b :| 0 <= a && IsBoundedRun(s, a, b) && ms[k] == s[a..b];
      assert !IsCandidate(s, a, b);
    }
    FirstInRangeNone(ms);
  }

  /** What `pontuar_lead` returns for a reply: the score is read from the text before the first
      `|`, and the reason is the next `|`-separated segment stripped, or the whole reply when
      it has no `|`. */
  function ParseReply(res: string): (r: ScoreResult)
    ensures 0 <= r.score <= 100
  {
    var parts := Split(res, '|');
    ScoreResult(SafeScore(parts[0]), if |parts| > 1 then Strip(parts[1]) else res)
  }

  /** What `pontuar_lead` returns when the completion call produced `reply`; `None` is a call
      that raised. */
  function LeadScore(reply: Option<string>): (r: ScoreResult)
    ensures 0 <= r.score <= 100
    ensures reply.None? ==> r == ScoreResult(0, "Erro")
  {
    match reply
    case None => ScoreResult(0, FailureReason)
    case Some(res) => ParseReply(res)
  }

  /** `pontuar_lead` after its completion call. */
  method ScoreLead(reply: Option<string>) returns (r: ScoreResult)
    ensures r == LeadScore(reply)
    ensures 0 <= r.score <= 100
    ensures reply.None? ==> r == ScoreResult(0, "Erro")
  {
    match reply {
      case None =>
        return ScoreResult(0, FailureReason);
      case Some(res) =>
        var parts := Split(res, '|');
        var score := ExtractScore(parts[0]);
        var reason := if |parts| > 1 then Strip(parts[1]) else res;
        return ScoreResult(score, reason);
    }
  }

  /** With a `|` present, the score comes from the text before the first `|` only, and the
      reason is the text between the first and second `|` (or the end), stripped. */
  lemma ReplyWithPipe(head: string, tail: string)
    requires '|' !in head
    ensures ParseReply(head + "|" + tail) == ScoreResult(SafeScore(head), Strip(tail[..IndexOf(tail, '|')]))
  {
    SplitAtFirst(head, tail, '|');
    var parts := Split(head + "|" + tail, '|');
    assert parts[0] == head;
    assert parts[1] == Split(tail, '|')[0] == tail[..IndexOf(tail, '|')];
  }

  /** The reply format the prompt asks for, "NOTA | MOTIVO": the reason comes back without
      the blank after the `|`. */
  lemma ReplyWithReason(head: string, reason: string)
    requires '|' !in head && '|' !in reason
    requires |reason| > 0 ==> !IsSpace(reason[0]) && !IsSpace(reason[|reason| - 1])
    ensures ParseReply(head + "| " + reason) == ScoreResult(SafeScore(head), reason)
  {
    var tail := [' '] + reason;
    assert head + "| " + reason == head + "|" + tail;
    ReplyWithPipe(head, tail);
    assert '|' !in tail;
    assert tail[..IndexOf(tail, '|')] == tail;
    StripLeadingSpace(' ', reason);
    StripTrimmed(reason);
  }

  /** Whatever follows the first `|` never changes the score. */
  lemma ScoreIgnoresTail(head: string, tail1: string, tail2: string)
    requires '|' !in head
    ensures ParseReply(head + "|" + tail1).score == ParseReply(head + "|" + tail2).score
  {
    ReplyWithPipe(head, tail1);
    ReplyWithPipe(head, tail2);
  }

  /** Without a `|`, the whole reply is both the reason and the text the score is read from. */
  lemma ReplyWithoutPipe(res: string)
    requires '|' !in res
    ensures ParseReply(res) == ScoreResult(SafeScore(res), res)
  {
    SplitAbsent(res, '|');
  }
}
