/** Verdicts, scores and the batch rules of app/modules/judge/scoring.py and
    app/modules/judge/result_mapper.py, on values.  The loops that compute them are in
    BatchAggregation. */
module Scoring {
  import opened Graphs
  import opened Sequences
  import opened Wrappers

  datatype Verdict = AC | WA | CE | RE | TLE | MLE | OLE | SE | IE | SKIPPED

  datatype Case = Case(caseNo: int, verdict: Verdict, points: real)

  datatype Meta = Meta(caseNo: int, points: real, batchNo: Option<int>,
                       batchDepends: seq<int>, batchDependencies: seq<int>)
  {
    /** The first of the two spellings that is non-empty. */
    function Depends(): seq<int> {
      if batchDepends != [] then batchDepends else batchDependencies
    }
  }

  /** A case result together with the test case it belongs to. */
  datatype Row = Row(res: Case, meta: Meta)

  // ---- The whole result list ----

  function AcPoints(c: Case): real {
    if c.verdict == AC then c.points else 0.0
  }

  function ScoreOf(cases: seq<Case>): real {
    if cases == [] then 0.0 else ScoreOf(cases[..|cases| - 1]) + AcPoints(cases[|cases| - 1])
  }

  predicate Failing(v: Verdict) {
    v != AC && v != SKIPPED
  }

  /** The first failing verdict, AC when there is none. */
  function OverallOf(cases: seq<Case>): Verdict {
    if cases == [] then AC
    else if Failing(cases[0].verdict) then cases[0].verdict
    else OverallOf(cases[1..])
  }

  method ComputeScore(hasCompileError: bool, cases: seq<Case>) returns (total: real)
    ensures total == if hasCompileError then 0.0 else ScoreOf(cases)
  {
    if hasCompileError {
      return 0.0;
    }
    total := 0.0;
    for k := 0 to |cases|
      invariant total == ScoreOf(cases[..k])
    {
      assert cases[..k + 1][..k] == cases[..k];
      if cases[k].verdict == AC {
        total := total + cases[k].points;
      }
    }
    assert cases[..|cases|] == cases;
  }

  method ComputeOverallResult(hasCompileError: bool, cases: seq<Case>) returns (v: Verdict)
    ensures v == if hasCompileError then CE else OverallOf(cases)
  {
    if hasCompileError {
      return CE;
    }
    for k := 0 to |cases|
      invariant OverallOf(cases) == OverallOf(cases[k..])
    {
      if Failing(cases[k].verdict) {
        return cases[k].verdict;
      }
    }
    return AC;
  }

  /** The overall verdict is AC exactly when nothing fails, and never SKIPPED. */
  lemma {:induction false} OverallIsAc(cases: seq<Case>)
    ensures OverallOf(cases) == AC <==> forall k :: 0 <= k < |cases| ==> !Failing(cases[k].verdict)
    ensures OverallOf(cases) != SKIPPED
  {
    if cases != [] {
      OverallIsAc(cases[1..]);
      assert forall k :: 1 <= k < |cases| ==> cases[k] == cases[1..][k - 1];
    }
  }

  // ---- Batches ----

  ghost predicate BatchFailed(rows: seq<Row>, batch: int) {
    exists i :: 0 <= i < |rows| && rows[i].meta.batchNo == Some(batch) && rows[i].res.verdict != AC
  }

  /** The case is in a batch and lists a batch with a failed case of its own. */
  ghost predicate Blocked(rows: seq<Row>, meta: Meta) {
    meta.batchNo.Some? && exists d :: d in meta.Depends() && BatchFailed(rows, d)
  }

  ghost function SkipBlocked(rows: seq<Row>, row: Row): Row {
    if Blocked(rows, row.meta) then row.(res := row.res.(verdict := SKIPPED, points := 0.0)) else row
  }

  /** All rows after the dependency phase, judged by the statuses of the raw rows. */
  ghost function AfterSkips(rows: seq<Row>): seq<Row> {
    seq(|rows|, i requires 0 <= i < |rows| => SkipBlocked(rows, rows[i]))
  }

  ghost function Forfeit(rows: seq<Row>, row: Row): Row {
    if row.meta.batchNo.Some? && BatchFailed(rows, row.meta.batchNo.value)
    then row.(res := row.res.(points := 0.0)) else row
  }

  /** The rows with their final verdicts and points, still in input order. */
  ghost function Final(rows: seq<Row>): seq<Row> {
    var skipped := AfterSkips(rows);
    seq(|rows|, i requires 0 <= i < |rows| => Forfeit(skipped, skipped[i]))
  }

  /** Position of the first test case of a batch (of the unbatched cases, for None), from i on. */
  function FirstFrom(rows: seq<Row>, batch: Option<int>, i: nat): nat
    decreases |rows| - i
  {
    if i >= |rows| || rows[i].meta.batchNo == batch then i else FirstFrom(rows, batch, i + 1)
  }

  function First(rows: seq<Row>, batch: Option<int>): nat {
    FirstFrom(rows, batch, 0)
  }

  lemma {:induction false} FirstFromIs(rows: seq<Row>, i: nat, from: nat)
    requires from <= i < |rows|
    ensures var f := FirstFrom(rows, rows[i].meta.batchNo, from);
            && from <= f <= i && rows[f].meta.batchNo == rows[i].meta.batchNo
            && forall j :: from <= j < f ==> rows[j].meta.batchNo != rows[i].meta.batchNo
    decreases i - from
  {
    if rows[from].meta.batchNo != rows[i].meta.batchNo {
      FirstFromIs(rows, i, from + 1);
    }
  }

  lemma {:induction false} FirstIsFirst(rows: seq<Row>, i: nat)
    requires i < |rows|
    ensures var f := First(rows, rows[i].meta.batchNo);
            f <= i && rows[f].meta.batchNo == rows[i].meta.batchNo
    ensures forall j :: 0 <= j < First(rows, rows[i].meta.batchNo) ==> rows[j].meta.batchNo != rows[i].meta.batchNo
  {
    FirstFromIs(rows, i, 0);
  }

  /** Output order: batches by first appearance, the cases of one batch in input order. */
  ghost predicate Before(rows: seq<Row>, i: nat, j: nat)
    requires i < |rows| && j < |rows|
  {
    var a, b := rows[i].meta.batchNo, rows[j].meta.batchNo;
    if a == b then i < j else First(rows, a) < First(rows, b)
  }

  /** `order` lists every position once, in output order. */
  ghost predicate Regrouping(rows: seq<Row>, order: seq<nat>) {
    && |order| == |rows|
    && (forall k :: 0 <= k < |order| ==> order[k] < |rows|)
    && (forall k, l :: 0 <= k < l < |order| ==> Before(rows, order[k], order[l]))
  }

  /** `out` is what the aggregation of `rows` lists. */
  ghost predicate Aggregated(rows: seq<Row>, order: seq<nat>, out: seq<Case>) {
    && Regrouping(rows, order) && |out| == |rows|
    && forall k :: 0 <= k < |out| ==> out[k] == Final(rows)[order[k]].res
  }

  // ---- What a batch earns ----

  /** All cases of the batch were AC and none of them lists a failed batch. */
  ghost predicate BatchEarns(rows: seq<Row>, batch: int) {
    forall i :: 0 <= i < |rows| && rows[i].meta.batchNo == Some(batch) ==>
      rows[i].res.verdict == AC && !Blocked(rows, rows[i].meta)
  }

  /** What a row adds to the score, by the rules as documented: an unbatched case its own
      points, a batched one its points if the whole batch earns. */
  ghost function Contribution(rows: seq<Row>, row: Row): real {
    if row.meta.batchNo.None? then AcPoints(row.res)
    else if BatchEarns(rows, row.meta.batchNo.value) then row.res.points
    else 0.0
  }

  lemma {:induction false} FinalContribution(rows: seq<Row>, i: nat)
    requires i < |rows|
    ensures AcPoints(Final(rows)[i].res) == Contribution(rows, rows[i])
  {
    var skipped := AfterSkips(rows);
    var batch := rows[i].meta.batchNo;
    if batch.Some? {
      if BatchEarns(rows, batch.value) {
        assert !BatchFailed(skipped, batch.value);
      } else {
        var j :| 0 <= j < |rows| && rows[j].meta.batchNo == batch
          && (rows[j].res.verdict != AC || Blocked(rows, rows[j].meta));
        assert skipped[j].meta.batchNo == batch && skipped[j].res.verdict != AC;
      }
    }
  }

  // ---- The score ----

  function Positions(n: nat): seq<nat> {
    seq(n, i requires 0 <= i < n => i)
  }

  lemma {:induction false} RegroupingPermutes(rows: seq<Row>, order: seq<nat>)
    requires Regrouping(rows, order)
    ensures multiset(order) == multiset(Positions(|rows|))
  {
    var all := Positions(|rows|);
    forall i: nat
      ensures i in order <==> i in all
    {
      if i < |rows| {
        DistinctCovers(order, Below(|rows|), i);
        assert all[i] == i;
      }
    }
    SameElements(order, all);
  }

  ghost function ContributionAt(rows: seq<Row>): nat -> real {
    (i: nat) => if i < |rows| then Contribution(rows, rows[i]) else 0.0
  }

  ghost function TotalContribution(rows: seq<Row>): real {
    SumBy(rows, row => Contribution(rows, row))
  }

  lemma {:induction false} SumByPosition(s: seq<Row>, rows: seq<Row>)
    requires |s| <= |rows| && s == rows[..|s|]
    ensures SumBy(s, row => Contribution(rows, row)) == SumBy(Positions(|s|), ContributionAt(rows))
  {
    if s != [] {
      SumByPosition(s[..|s| - 1], rows);
      assert Positions(|s|)[..|s| - 1] == Positions(|s| - 1);
    }
  }

  lemma {:induction false} ScoreInOrder(rows: seq<Row>, order: seq<nat>, out: seq<Case>)
    requires |out| == |order|
    requires forall k :: 0 <= k < |out| ==> order[k] < |rows| && out[k] == Final(rows)[order[k]].res
    ensures ScoreOf(out) == SumBy(order, ContributionAt(rows))
  {
    if out != [] {
      var n := |out| - 1;
      ScoreInOrder(rows, order[..n], out[..n]);
      FinalContribution(rows, order[n]);
    }
  }

  /** The score of the aggregated list is the sum of what the documented rules give each case. */
  lemma {:induction false} ScoreIsContributions(rows: seq<Row>, order: seq<nat>, out: seq<Case>)
    requires Aggregated(rows, order, out)
    ensures ScoreOf(out) == TotalContribution(rows)
  {
    ScoreInOrder(rows, order, out);
    RegroupingPermutes(rows, order);
    SumByPermutation(order, Positions(|rows|), ContributionAt(rows));
    assert rows[..|rows|] == rows;
    SumByPosition(rows, rows);
  }

  /** Reordering the (result, test case) pairs does not change the score. */
  lemma {:induction false} ScoreIgnoresInputOrder(rows: seq<Row>, order: seq<nat>, out: seq<Case>,
                               rows': seq<Row>, order': seq<nat>, out': seq<Case>)
    requires multiset(rows) == multiset(rows')
    requires Aggregated(rows, order, out) && Aggregated(rows', order', out')
    ensures ScoreOf(out) == ScoreOf(out')
  {
    ScoreIsContributions(rows, order, out);
    ScoreIsContributions(rows', order', out');
    PermutedContributions(rows, rows');
  }

  lemma {:induction false} PermutedContributions(rows: seq<Row>, rows': seq<Row>)
    requires multiset(rows) == multiset(rows')
    ensures TotalContribution(rows) == TotalContribution(rows')
  {
    forall row: Row
      ensures row in rows <==> row in rows'
    {
      assert row in rows <==> row in multiset(rows);
      assert row in rows' <==> row in multiset(rows');
    }
    SameRowsSameFailures(rows, rows');
    forall m: Meta | m.batchNo.Some?
      ensures BatchEarns(rows, m.batchNo.value) <==> BatchEarns(rows', m.batchNo.value)
    {
      SameRowsSameEarning(rows, rows', m);
    }
    SumByPermutation(rows, rows', row => Contribution(rows, row));
    SumByAgrees(rows', row => Contribution(rows, row), row => Contribution(rows', row));
  }

  lemma {:induction false} SameRowsSameFailures(rows: seq<Row>, rows': seq<Row>)
    requires forall row :: row in rows <==> row in rows'
    ensures forall b :: BatchFailed(rows, b) <==> BatchFailed(rows', b)
  {
    forall b
      ensures BatchFailed(rows, b) <==> BatchFailed(rows', b)
    {
      if BatchFailed(rows, b) {
        var i :| 0 <= i < |rows| && rows[i].meta.batchNo == Some(b) && rows[i].res.verdict != AC;
        assert rows[i] in rows';
      }
      if BatchFailed(rows', b) {
        var i :| 0 <= i < |rows'| && rows'[i].meta.batchNo == Some(b) && rows'[i].res.verdict != AC;
        assert rows'[i] in rows;
      }
    }
  }

  lemma {:induction false} SameRowsSameEarning(rows: seq<Row>, rows': seq<Row>, meta: Meta)
    requires forall row :: row in rows <==> row in rows'
    requires forall b :: BatchFailed(rows, b) <==> BatchFailed(rows', b)
    requires meta.batchNo.Some?
    ensures BatchEarns(rows, meta.batchNo.value) <==> BatchEarns(rows', meta.batchNo.value)
  {
    var b := meta.batchNo.value;
    assert forall m: Meta :: Blocked(rows, m) <==> Blocked(rows', m);
    if BatchEarns(rows, b) {
      forall i | 0 <= i < |rows'| && rows'[i].meta.batchNo == Some(b)
        ensures rows'[i].res.verdict == AC && !Blocked(rows', rows'[i].meta)
      {
        assert rows'[i] in rows;
      }
    }
    if BatchEarns(rows', b) {
      forall i | 0 <= i < |rows| && rows[i].meta.batchNo == Some(b)
        ensures rows[i].res.verdict == AC && !Blocked(rows, rows[i].meta)
      {
        assert rows[i] in rows';
      }
    }
  }

  /** The second run differs from the first only in cases that turned AC. */
  ghost predicate Improves(rows: seq<Row>, rows': seq<Row>) {
    && |rows| == |rows'|
    && forall i :: 0 <= i < |rows| ==>
         rows'[i] == rows[i] || rows'[i] == rows[i].(res := rows[i].res.(verdict := AC))
  }

  /** With non-negative points, turning cases into AC never lowers the score. */
  lemma {:induction false} ScoreIsMonotone(rows: seq<Row>, order: seq<nat>, out: seq<Case>,
                        rows': seq<Row>, order': seq<nat>, out': seq<Case>)
    requires Improves(rows, rows')
    requires forall i :: 0 <= i < |rows| ==> rows[i].res.points >= 0.0
    requires Aggregated(rows, order, out) && Aggregated(rows', order', out')
    ensures ScoreOf(out) <= ScoreOf(out')
  {
    ScoreIsContributions(rows, order, out);
    ScoreIsContributions(rows', order', out');
    var all := Positions(|rows|);
    var f, g := ContributionAt(rows), ContributionAt(rows');
    forall k | 0 <= k < |all|
      ensures f(all[k]) <= g(all[k])
    {
      ImprovedContribution(rows, rows', k);
    }
    SumByMonotone(all, f, g);
    assert rows[..|rows|] == rows && rows'[..|rows'|] == rows';
    SumByPosition(rows, rows);
    SumByPosition(rows', rows');
  }

  lemma {:induction false} ImprovedContribution(rows: seq<Row>, rows': seq<Row>, i: nat)
    requires Improves(rows, rows') && i < |rows|
    requires rows[i].res.points >= 0.0
    ensures Contribution(rows, rows[i]) <= Contribution(rows', rows'[i])
  {
  }

  // ---- The overall verdict ----

  /** The dependency graph of the batches that occur. */
  ghost function BatchGraph(rows: seq<Row>): Graph<int> {
    map b | b in (set r | r in rows && r.meta.batchNo.Some? :: r.meta.batchNo.value) ::
      set r, d | r in rows && r.meta.batchNo == Some(b) && d in r.meta.Depends() :: d
  }

  /** The aggregated verdict is not AC exactly when some failing case survives the dependency
      phase, that is, does not list a failed batch. */
  lemma {:induction false} OverallAfterAggregation(rows: seq<Row>, order: seq<nat>, out: seq<Case>)
    requires Aggregated(rows, order, out)
    ensures OverallOf(out) != AC <==>
            exists i :: 0 <= i < |rows| && Failing(rows[i].res.verdict) && !Blocked(rows, rows[i].meta)
  {
    OverallIsAc(out);
    forall i | 0 <= i < |rows|
      ensures Failing(Final(rows)[i].res.verdict) <==> Failing(rows[i].res.verdict) && !Blocked(rows, rows[i].meta)
    {
    }
    if i :| 0 <= i < |rows| && Failing(rows[i].res.verdict) && !Blocked(rows, rows[i].meta) {
      DistinctCovers(order, Below(|rows|), i);
      var k :| 0 <= k < |order| && order[k] == i;
      assert Failing(out[k].verdict);
    }
  }

  /** With acyclic dependencies a failure among the raw results is never hidden by SKIPPED:
      some failed batch lists no failed batch. */
  lemma {:induction false} FailureSurvives(rows: seq<Row>, order: seq<nat>, out: seq<Case>, i: nat)
    requires Aggregated(rows, order, out) && Acyclic(BatchGraph(rows))
    requires forall j :: 0 <= j < |rows| ==> rows[j].res.verdict != SKIPPED
    requires i < |rows| && rows[i].res.verdict != AC
    ensures OverallOf(out) != AC && OverallOf(out) != SKIPPED
  {
    OverallIsAc(out);
    OverallAfterAggregation(rows, order, out);
    var j := UnblockedFailure(rows, i);
    assert Failing(rows[j].res.verdict) && !Blocked(rows, rows[j].meta);
  }

  lemma {:induction false} UnblockedFailure(rows: seq<Row>, i: nat) returns (j: nat)
    requires Acyclic(BatchGraph(rows))
    requires i < |rows| && rows[i].res.verdict != AC
    ensures j < |rows| && rows[j].res.verdict != AC && !Blocked(rows, rows[j].meta)
  {
    j := i;
    if Blocked(rows, rows[i].meta) {
      var g := BatchGraph(rows);
      var failed := set b | b in g.Keys && BatchFailed(rows, b);
      var b0 :| b0 in rows[i].meta.Depends() && BatchFailed(rows, b0);
      FailedBatchOccurs(rows, b0);
      assert b0 in failed;
      var sink := AcyclicHasSink(g, failed);
      j :| 0 <= j < |rows| && rows[j].meta.batchNo == Some(sink) && rows[j].res.verdict != AC;
      if Blocked(rows, rows[j].meta) {
        var d :| d in rows[j].meta.Depends() && BatchFailed(rows, d);
        FailedBatchOccurs(rows, d);
        assert rows[j] in rows && d in g[sink] && d in failed;
        assert Edge(g, sink, d);
        assert false;
      }
    }
  }

  lemma {:induction false} FailedBatchOccurs(rows: seq<Row>, b: int)
    requires BatchFailed(rows, b)
    ensures b in BatchGraph(rows)
  {
  }

  /** Acyclicity is needed: whenever all failing cases lie in two failed batches and each of them
      lists the other batch, or its own if the two are one, the aggregated verdict is AC. */
  lemma {:induction false} CyclicFailureIsHidden(rows: seq<Row>, order: seq<nat>, out: seq<Case>, a: int, b: int)
    requires Aggregated(rows, order, out) && BatchFailed(rows, a) && BatchFailed(rows, b)
    requires forall i :: 0 <= i < |rows| && Failing(rows[i].res.verdict) ==>
               || (rows[i].meta.batchNo == Some(a) && b in rows[i].meta.Depends())
               || (rows[i].meta.batchNo == Some(b) && a in rows[i].meta.Depends())
    ensures OverallOf(out) == AC
  {
    OverallAfterAggregation(rows, order, out);
  }

  /** For instance, two wrong answers. */
  lemma {:induction false} CyclicInput(rows: seq<Row>, order: seq<nat>, out: seq<Case>)
    requires rows == [Row(Case(1, WA, 25.0), Meta(1, 25.0, Some(1), [2], [])),
                      Row(Case(2, WA, 25.0), Meta(2, 25.0, Some(2), [1], []))]
    requires Aggregated(rows, order, out)
    ensures OverallOf(out) == AC
  {
    assert rows[0].meta.batchNo == Some(1) && rows[0].res.verdict != AC;
    assert rows[1].meta.batchNo == Some(2) && rows[1].res.verdict != AC;
    assert BatchFailed(rows, 1) && BatchFailed(rows, 2);
    CyclicFailureIsHidden(rows, order, out, 1, 2);
  }

  // ---- How far skips reach ----

  /** Case i lists the batch of case j. */
  ghost predicate Lists(rows: seq<Row>, i: int, j: int)
    requires 0 <= i < |rows| && 0 <= j < |rows|
  {
    rows[i].meta.batchNo.Some? && rows[j].meta.batchNo.Some? && rows[j].meta.batchNo.value in rows[i].meta.Depends()
  }

  ghost predicate BatchSkipped(rows: seq<Row>, b: int) {
    exists j :: 0 <= j < |rows| && rows[j].meta.batchNo == Some(b) && Blocked(rows, rows[j].meta)
  }

  ghost predicate ListsSkipped(rows: seq<Row>, i: int)
    requires 0 <= i < |rows|
  {
    exists j :: 0 <= j < |rows| && Lists(rows, i, j) && Blocked(rows, rows[j].meta)
  }

  lemma {:induction false} FailedAfterSkips(rows: seq<Row>, b: int)
    ensures BatchFailed(AfterSkips(rows), b) <==>
            BatchFailed(rows, b) || BatchSkipped(rows, b)
  {
    var after := AfterSkips(rows);
    if BatchFailed(rows, b) {
      var j :| 0 <= j < |rows| && rows[j].meta.batchNo == Some(b) && rows[j].res.verdict != AC;
      assert after[j].meta.batchNo == Some(b) && after[j].res.verdict != AC;
    }
    if j :| 0 <= j < |rows| && rows[j].meta.batchNo == Some(b) && Blocked(rows, rows[j].meta) {
      assert after[j].meta.batchNo == Some(b) && after[j].res.verdict != AC;
    }
  }

  /** A skipped batch does not skip the batches that depend on it: letting skips spread one step
      further would change nothing exactly when every case that lists a batch with a skipped case
      is skipped already, by a failed batch it lists. */
  lemma {:induction false} SkipsDoNotSpread(rows: seq<Row>)
    requires forall i :: 0 <= i < |rows| ==> rows[i].res.verdict != SKIPPED
    ensures AfterSkips(AfterSkips(rows)) == AfterSkips(rows) <==>
            forall i, j :: 0 <= i < |rows| && 0 <= j < |rows| && Lists(rows, i, j) && Blocked(rows, rows[j].meta) ==>
              Blocked(rows, rows[i].meta)
  {
    var after := AfterSkips(rows);
    forall i | 0 <= i < |rows|
      ensures AfterSkips(after)[i] == after[i] <==> (Blocked(after, rows[i].meta) ==> Blocked(rows, rows[i].meta))
    {
      assert after[i] == SkipBlocked(rows, rows[i]) && after[i].meta == rows[i].meta;
    }
    forall i | 0 <= i < |rows|
      ensures Blocked(after, rows[i].meta) <==>
              Blocked(rows, rows[i].meta) || ListsSkipped(rows, i)
    {
      BlockedAfterSkips(rows, i);
    }
  }

  lemma {:induction false} BlockedAfterSkips(rows: seq<Row>, i: nat)
    requires i < |rows|
    ensures Blocked(AfterSkips(rows), rows[i].meta) <==>
            Blocked(rows, rows[i].meta) || ListsSkipped(rows, i)
  {
    forall b
      ensures BatchFailed(AfterSkips(rows), b) <==>
              BatchFailed(rows, b) || BatchSkipped(rows, b)
    {
      FailedAfterSkips(rows, b);
    }
    var m := rows[i].meta;
    if Blocked(AfterSkips(rows), m) && !Blocked(rows, m) {
      var d :| d in m.Depends() && BatchFailed(AfterSkips(rows), d);
      assert !BatchFailed(rows, d);
      var j :| 0 <= j < |rows| && rows[j].meta.batchNo == Some(d) && Blocked(rows, rows[j].meta);
      assert Lists(rows, i, j);
    }
    if j :| 0 <= j < |rows| && Lists(rows, i, j) && Blocked(rows, rows[j].meta) {
      assert BatchFailed(AfterSkips(rows), rows[j].meta.batchNo.value);
    }
  }

  /** For instance, batch 3 is paid although it depends on batch 2, which batch 1 made skip. */
  lemma {:induction false} SkipChainInput(rows: seq<Row>)
    requires rows == [Row(Case(1, WA, 20.0), Meta(1, 20.0, Some(1), [], [])),
                      Row(Case(2, AC, 20.0), Meta(2, 20.0, Some(2), [1], [])),
                      Row(Case(3, AC, 20.0), Meta(3, 20.0, Some(3), [2], []))]
    ensures AfterSkips(rows)[1].res == Case(2, SKIPPED, 0.0) && AfterSkips(rows)[2] == rows[2]
  {
    assert rows[0].meta.batchNo == Some(1) && rows[0].res.verdict != AC && BatchFailed(rows, 1);
    assert 1 in rows[1].meta.Depends();
  }
}
