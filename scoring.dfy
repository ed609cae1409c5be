/** Scoring a batch of leads (`executor.map` over the rows) and the safety clip of the
    scores to [0, 100]. */
module Scoring {
  import opened Options
  import opened ScoreParser
  import opened Tables

  /** What `executor.map` yields: one outcome per row, in row order. The completion service
      is the function `ask`, giving the reply text for a row or `None` when the call raised. */
  function Outcomes(rows: seq<Row>, ask: Row -> Option<string>): (rs: seq<ScoreResult>)
    ensures |rs| == |rows|
    ensures forall i :: 0 <= i < |rows| ==> rs[i] == LeadScore(ask(rows[i]))
  {
    seq(|rows|, i requires 0 <= i < |rows| => LeadScore(ask(rows[i])))
  }

  /** Scores every row, in order, into a new array of the batch's size. */
  method ScoreBatch(rows: seq<Row>, ask: Row -> Option<string>) returns (results: array<ScoreResult>)
    ensures fresh(results)
    ensures results[..] == Outcomes(rows, ask)
  {
    ghost var expected := Outcomes(rows, ask);
    results := new ScoreResult[|rows|](_ => ScoreResult(0, FailureReason));
    var i := 0;
    while i < |rows|
      invariant 0 <= i <= |rows| && results.Length == |rows|
      invariant results[..i] == expected[..i]
    {
      var r := ScoreLead(ask(rows[i]));
      results[i] := r;
      assert results[..i + 1] == results[..i] + [r];
      assert expected[..i + 1] == expected[..i] + [expected[i]];
      i := i + 1;
    }
    assert results[..] == results[..i];
  }

  /** `[r['score'] for r in res]`. */
  function Scores(rs: seq<ScoreResult>): (ns: seq<int>)
    ensures |ns| == |rs| && forall i :: 0 <= i < |rs| ==> ns[i] == rs[i].score
  {
    seq(|rs|, i requires 0 <= i < |rs| => rs[i].score)
  }

  /** `[r['motivo'] for r in res]`, as text cells. */
  function Reasons(rs: seq<ScoreResult>): (cells: seq<Cell>)
    ensures |cells| == |rs| && forall i :: 0 <= i < |rs| ==> cells[i] == Text(rs[i].reason)
  {
    seq(|rs|, i requires 0 <= i < |rs| => Text(rs[i].reason))
  }

  /** Integer scores as cells. */
  function Wholes(ns: seq<int>): (cells: seq<Cell>)
    ensures |cells| == |ns| && forall i :: 0 <= i < |ns| ==> cells[i] == Whole(ns[i])
  {
    seq(|ns|, i requires 0 <= i < |ns| => Whole(ns[i]))
  }

  /** `Series.clip(0, 100)` on one value. */
  function Clip(n: int): (c: int)
    ensures 0 <= c <= 100
    ensures 0 <= n <= 100 ==> c == n
    ensures n < 0 ==> c == 0
    ensures n > 100 ==> c == 100
  {
    if n < 0 then 0 else if n > 100 then 100 else n
  }

  /** A clipped column of scores. */
  function Clipped(ns: seq<int>): (cs: seq<int>)
    ensures |cs| == |ns| && forall i :: 0 <= i < |ns| ==> cs[i] == Clip(ns[i])
  {
    seq(|ns|, i requires 0 <= i < |ns| => Clip(ns[i]))
  }

  /** `df['Score_Pct'] = pd.to_numeric(df['Score_Pct'], errors='coerce').fillna(0).clip(0, 100)`
      on a column that already holds integers: every entry is clipped where it stands. */
  method ClipScores(a: array<int>)
    modifies a
    ensures a[..] == Clipped(old(a[..]))
  {
    var i := 0;
    while i < a.Length
      invariant 0 <= i <= a.Length
      invariant forall k :: 0 <= k < i ==> a[k] == Clip(old(a[k]))
      invariant forall k :: i <= k < a.Length ==> a[k] == old(a[k])
    {
      a[i] := Clip(a[i]);
      i := i + 1;
    }
  }

  /** Every clipped score lies in [0, 100]. */
  lemma ClippedInRange(ns: seq<int>)
    ensures forall i :: 0 <= i < |ns| ==> 0 <= Clipped(ns)[i] <= 100
  {
  }

  /** The scores `pontuar_lead` returns are already in range, so the clip changes none of
      them. */
  lemma {:induction false} ClipKeepsOutcomes(rs: seq<ScoreResult>, rows: seq<Row>, ask: Row -> Option<string>)
    requires rs == Outcomes(rows, ask)
    ensures Clipped(Scores(rs)) == Scores(rs)
  {
    forall i | 0 <= i < |rs|
      ensures 0 <= rs[i].score <= 100
    {
      LeadScoreInRange(ask(rows[i]));
    }
  }

  /** Every outcome's score is in [0, 100], the failure outcome included. */
  lemma LeadScoreInRange(reply: Option<string>)
    ensures 0 <= LeadScore(reply).score <= 100
  {
  }
}
