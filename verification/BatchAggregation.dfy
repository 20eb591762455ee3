/** The four phases of `aggregate_batches` (app/modules/judge/scoring.py), on mutable case
    results: the dependency phase rewrites the caller's objects in place, the last phase
    copies the batched ones. */
module BatchAggregation {
  import opened Scoring
  import opened Sequences
  import opened Wrappers

  class CaseResult {
    var caseNo: int
    var verdict: Verdict
    var points: real

    constructor (c: Case)
      ensures Value() == c
    {
      caseNo, verdict, points := c.caseNo, c.verdict, c.points;
    }

    function Value(): Case
      reads this
    {
      Case(caseNo, verdict, points)
    }
  }

  function Values(cases: seq<CaseResult>): seq<Case>
    reads cases
  {
    seq(|cases|, i requires 0 <= i < |cases| reads cases => cases[i].Value())
  }

  function Min(a: nat, b: nat): nat {
    if a < b then a else b
  }

  /** The pairs a zip of results and test cases runs over. */
  function Zip(cases: seq<Case>, metas: seq<Meta>): seq<Row> {
    seq(Min(|cases|, |metas|), i requires 0 <= i < Min(|cases|, |metas|) => Row(cases[i], metas[i]))
  }

  lemma {:induction false} BatchFailedNext(rows: seq<Row>, k: nat, b: int)
    requires k < |rows|
    ensures BatchFailed(rows[..k + 1], b) <==>
            BatchFailed(rows[..k], b) || (rows[k].meta.batchNo == Some(b) && rows[k].res.verdict != AC)
  {
  }

  /** The batches that occur among the rows, each with whether all its cases are AC. */
  ghost predicate Statuses(rows: seq<Row>, status: map<int, bool>) {
    && (forall b :: b in status ==> (status[b] <==> !BatchFailed(rows, b)))
    && (forall b :: b in status <==> exists i :: 0 <= i < |rows| && rows[i].meta.batchNo == Some(b))
  }

  /** Phases 1 and 3. */
  method ComputeBatchAcStatus(raw: seq<CaseResult>, metas: seq<Meta>) returns (status: map<int, bool>)
    ensures Statuses(Zip(Values(raw), metas), status)
  {
    ghost var rows := Zip(Values(raw), metas);
    status := map[];
    var k := 0;
    while k < |raw| && k < |metas|
      invariant k <= |rows| && Statuses(rows[..k], status)
    {
      ghost var before := status;
      forall b
        ensures BatchFailed(rows[..k + 1], b) <==>
                BatchFailed(rows[..k], b) || (rows[k].meta.batchNo == Some(b) && rows[k].res.verdict != AC)
      {
        BatchFailedNext(rows, k, b);
      }
      if metas[k].batchNo.Some? {
        var bn := metas[k].batchNo.value;
        var prev := if bn in status then status[bn] else true;
        status := status[bn := prev && raw[k].verdict == AC];
      }
      StatusesNext(rows, k, before, status);
      k := k + 1;
    }
    assert rows[..k] == rows;
  }

  lemma {:induction false} StatusesNext(rows: seq<Row>, k: nat, before: map<int, bool>, after: map<int, bool>)
    requires k < |rows| && Statuses(rows[..k], before)
    requires forall b :: BatchFailed(rows[..k + 1], b) <==>
                         BatchFailed(rows[..k], b) || (rows[k].meta.batchNo == Some(b) && rows[k].res.verdict != AC)
    requires match rows[k].meta.batchNo
             case None => after == before
             case Some(b) => after == before[b := (b in before ==> before[b]) && rows[k].res.verdict == AC]
    ensures Statuses(rows[..k + 1], after)
  {
    var shorter, longer := rows[..k], rows[..k + 1];
    assert longer == shorter + [rows[k]];
    forall b
      ensures b in after <==> exists i :: 0 <= i < |longer| && longer[i].meta.batchNo == Some(b)
    {
      if b in before {
        var i :| 0 <= i < |shorter| && shorter[i].meta.batchNo == Some(b);
        assert longer[i].meta.batchNo == Some(b);
      }
      if rows[k].meta.batchNo == Some(b) {
        assert longer[k].meta.batchNo == Some(b);
      }
      if i :| 0 <= i < |longer| && longer[i].meta.batchNo == Some(b) {
        if i < k {
          assert shorter[i].meta.batchNo == Some(b);
        }
      }
    }
    forall b | b in after
      ensures after[b] <==> !BatchFailed(longer, b)
    {
      FailedStatus(shorter, before, b);
    }
  }

  /** The inner loop of phase 2: one case against the dependencies of its test case. */
  method SkipIfBlocked(cr: CaseResult, meta: Meta, status: map<int, bool>, ghost rows: seq<Row>)
    requires Statuses(rows, status) && meta.batchNo.Some?
    modifies cr
    ensures cr.Value() == SkipBlocked(rows, Row(old(cr.Value()), meta)).res
  {
    var deps := meta.Depends();
    var d := 0;
    while d < |deps|
      invariant d <= |deps|
      invariant cr.Value() ==
                if exists e :: 0 <= e < d && BatchFailed(rows, deps[e])
                then old(cr.Value()).(verdict := SKIPPED, points := 0.0) else old(cr.Value())
    {
      FailedStatus(rows, status, deps[d]);
      if deps[d] in status && !status[deps[d]] {
        cr.verdict := SKIPPED;
        cr.points := 0.0;
      }
      d := d + 1;
    }
    assert Blocked(rows, meta) <==> exists e :: 0 <= e < |deps| && BatchFailed(rows, deps[e]);
  }

  /** Phase 2: overwrites the blocked results in place; the others, and those beyond the last
      test case, keep their values. */
  method ApplyBatchDependencies(raw: seq<CaseResult>, metas: seq<Meta>, status: map<int, bool>)
    requires Distinct(raw)
    requires Statuses(Zip(Values(raw), metas), status)
    modifies raw
    ensures Zip(Values(raw), metas) == AfterSkips(Zip(old(Values(raw)), metas))
    ensures forall i :: |metas| <= i < |raw| ==> raw[i].Value() == old(raw[i].Value())
  {
    ghost var rows := Zip(Values(raw), metas);
    var k := 0;
    while k < |raw| && k < |metas|
      invariant k <= |rows|
      invariant forall i :: 0 <= i < k ==> raw[i].Value() == SkipBlocked(rows, rows[i]).res
      invariant forall i :: k <= i < |raw| ==> raw[i].Value() == old(raw[i].Value())
    {
      if metas[k].batchNo.Some? {
        SkipIfBlocked(raw[k], metas[k], status, rows);
      }
      k := k + 1;
    }
  }

  lemma {:induction false} FailedStatus(rows: seq<Row>, status: map<int, bool>, b: int)
    requires Statuses(rows, status)
    ensures b in status && !status[b] <==> BatchFailed(rows, b)
  {
  }

  // ---- Phase 4 ----

  /** Positions of the rows of one batch among the first `k`, in input order. */
  ghost function MembersAt(rows: seq<Row>, k: nat, batch: Option<int>): (r: seq<nat>)
    requires k <= |rows|
    ensures forall m :: 0 <= m < |r| ==> r[m] < k
  {
    if k == 0 then []
    else
      var before := MembersAt(rows, k - 1, batch);
      if rows[k - 1].meta.batchNo == batch then before + [k - 1] else before
  }

  ghost function Members(rows: seq<Row>, batch: Option<int>): (r: seq<nat>)
    ensures forall m :: 0 <= m < |r| ==> r[m] < |rows|
  {
    MembersAt(rows, |rows|, batch)
  }

  ghost predicate Ascending(s: seq<nat>) {
    forall m, n :: 0 <= m < n < |s| ==> s[m] < s[n]
  }

  ghost predicate InBatch(rows: seq<Row>, batch: Option<int>, members: seq<nat>) {
    forall m :: 0 <= m < |members| ==> members[m] < |rows| && rows[members[m]].meta.batchNo == batch
  }

  lemma {:induction false} MembersAreOf(rows: seq<Row>, k: nat, batch: Option<int>)
    requires k <= |rows|
    ensures Ascending(MembersAt(rows, k, batch)) && InBatch(rows, batch, MembersAt(rows, k, batch))
  {
    if k > 0 {
      MembersAreOf(rows, k - 1, batch);
    }
  }

  lemma {:induction false} MembersAreAll(rows: seq<Row>, k: nat, i: nat)
    requires i < k <= |rows|
    ensures i in MembersAt(rows, k, rows[i].meta.batchNo)
  {
    if i < k - 1 {
      MembersAreAll(rows, k - 1, i);
    } else {
      var members := MembersAt(rows, k, rows[i].meta.batchNo);
      assert members[|members| - 1] == i;
    }
  }

  /** The batches met in the first `k` rows, by first appearance. */
  ghost function OrderUpTo(rows: seq<Row>, k: nat): seq<Option<int>>
    requires k <= |rows|
  {
    if k == 0 then []
    else
      var order, bn := OrderUpTo(rows, k - 1), rows[k - 1].meta.batchNo;
      if bn in order then order else order + [bn]
  }

  ghost function BatchOrder(rows: seq<Row>): seq<Option<int>> {
    OrderUpTo(rows, |rows|)
  }

  lemma {:induction false} OrderHasAll(rows: seq<Row>, k: nat, i: nat)
    requires i < k <= |rows|
    ensures rows[i].meta.batchNo in OrderUpTo(rows, k)
  {
    if i < k - 1 {
      OrderHasAll(rows, k - 1, i);
    }
  }

  /** The batches in `order` first appear in this order, and before position `k`. */
  ghost predicate ByFirst(rows: seq<Row>, k: nat, order: seq<Option<int>>) {
    && (forall m :: 0 <= m < |order| ==> First(rows, order[m]) < k)
    && (forall m, n :: 0 <= m < n < |order| ==> First(rows, order[m]) < First(rows, order[n]))
  }

  lemma {:induction false} OrderIsFirsts(rows: seq<Row>, k: nat)
    requires k <= |rows|
    ensures ByFirst(rows, k, OrderUpTo(rows, k))
  {
    if k > 0 {
      OrderIsFirsts(rows, k - 1);
      var bn := rows[k - 1].meta.batchNo;
      if bn !in OrderUpTo(rows, k - 1) {
        NewBatchIsFirst(rows, k - 1);
      }
    }
  }

  lemma {:induction false} NewBatchIsFirst(rows: seq<Row>, k: nat)
    requires k < |rows| && rows[k].meta.batchNo !in OrderUpTo(rows, k)
    ensures First(rows, rows[k].meta.batchNo) == k
  {
    var f := First(rows, rows[k].meta.batchNo);
    FirstIsFirst(rows, k);
    if f < k {
      OrderHasAll(rows, k, f);
    }
  }

  /** The groups laid out one after the other. */
  ghost function Concat(rows: seq<Row>, order: seq<Option<int>>): (r: seq<nat>)
    ensures forall m :: 0 <= m < |r| ==> r[m] < |rows|
  {
    if order == [] then [] else Concat(rows, order[..|order| - 1]) + Members(rows, order[|order| - 1])
  }

  /** What laying out the groups in `order` yields: their positions in output order. */
  ghost predicate LaidOut(rows: seq<Row>, order: seq<Option<int>>, c: seq<nat>) {
    && (forall m :: 0 <= m < |c| ==> c[m] < |rows| && rows[c[m]].meta.batchNo in order)
    && (forall m, n :: 0 <= m < n < |c| ==> Before(rows, c[m], c[n]))
  }

  lemma {:induction false} LayOutNext(rows: seq<Row>, order: seq<Option<int>>, c: seq<nat>, b: Option<int>)
    requires LaidOut(rows, order, c)
    requires forall l :: 0 <= l < |order| ==> First(rows, order[l]) < First(rows, b)
    ensures LaidOut(rows, order + [b], c + Members(rows, b))
  {
    var members := Members(rows, b);
    MembersAreOf(rows, |rows|, b);
    forall m, n | 0 <= m < |c| && 0 <= n < |members|
      ensures Before(rows, c[m], members[n])
    {
      var l :| 0 <= l < |order| && order[l] == rows[c[m]].meta.batchNo;
      assert First(rows, order[l]) < First(rows, b);
    }
  }

  lemma {:induction false} ConcatSorted(rows: seq<Row>, order: seq<Option<int>>)
    requires ByFirst(rows, |rows|, order)
    ensures LaidOut(rows, order, Concat(rows, order))
  {
    if order != [] {
      var init, b := order[..|order| - 1], order[|order| - 1];
      ConcatSorted(rows, init);
      LayOutNext(rows, init, Concat(rows, init), b);
      assert order == init + [b];
    }
  }

  lemma {:induction false} ConcatHas(rows: seq<Row>, order: seq<Option<int>>, i: nat)
    requires i < |rows| && rows[i].meta.batchNo in order
    ensures i in Concat(rows, order)
  {
    var init, b := order[..|order| - 1], order[|order| - 1];
    assert order == init + [b];
    if rows[i].meta.batchNo == b {
      MembersAreAll(rows, |rows|, i);
    } else {
      ConcatHas(rows, init, i);
    }
  }

  /** Laying out the groups by first appearance is a stable regrouping of all positions. */
  lemma {:induction false} GroupsRegroup(rows: seq<Row>)
    ensures Regrouping(rows, Concat(rows, BatchOrder(rows)))
  {
    OrderIsFirsts(rows, |rows|);
    ConcatSorted(rows, BatchOrder(rows));
    var c := Concat(rows, BatchOrder(rows));
    assert Distinct(c);
    DistinctFits(c, Below(|rows|));
    forall i: nat | i < |rows|
      ensures i in c
    {
      OrderHasAll(rows, |rows|, i);
      ConcatHas(rows, BatchOrder(rows), i);
    }
    CoverFits(c, Below(|rows|));
  }

  /** The objects collected per batch in the first `k` rows. */
  ghost function BatchesUpTo(raw: seq<CaseResult>, rows: seq<Row>, k: nat): map<Option<int>, seq<CaseResult>>
    requires k <= |rows| <= |raw|
  {
    if k == 0 then map[]
    else
      var batches, bn := BatchesUpTo(raw, rows, k - 1), rows[k - 1].meta.batchNo;
      batches[bn := (if bn in batches then batches[bn] else []) + [raw[k - 1]]]
  }

  /** `cases` are the objects at the positions `members`. */
  ghost predicate ObjectsAt(raw: seq<CaseResult>, members: seq<nat>, cases: seq<CaseResult>) {
    && |cases| == |members|
    && forall m :: 0 <= m < |members| ==> members[m] < |raw| && cases[m] == raw[members[m]]
  }

  lemma {:induction false} BatchHolds(raw: seq<CaseResult>, rows: seq<Row>, k: nat, b: Option<int>)
    requires k <= |rows| <= |raw|
    ensures b in BatchesUpTo(raw, rows, k) <==> b in OrderUpTo(rows, k)
    ensures var batches := BatchesUpTo(raw, rows, k);
            ObjectsAt(raw, MembersAt(rows, k, b), if b in batches then batches[b] else [])
  {
    if k > 0 {
      BatchHolds(raw, rows, k - 1, b);
    }
  }

  /** Collects the results of each batch, and the batches by first appearance. */
  method GroupCases(raw: seq<CaseResult>, metas: seq<Meta>)
    returns (order: seq<Option<int>>, batches: map<Option<int>, seq<CaseResult>>)
    ensures var rows := Zip(Values(raw), metas);
            order == BatchOrder(rows) && batches == BatchesUpTo(raw, rows, |rows|)
  {
    ghost var rows := Zip(Values(raw), metas);
    var seen: set<Option<int>> := {};
    order, batches := [], map[];
    var k := 0;
    while k < |raw| && k < |metas|
      invariant k <= |rows| && order == OrderUpTo(rows, k) && batches == BatchesUpTo(raw, rows, k)
      invariant forall b :: b in seen <==> b in order
    {
      var bn := metas[k].batchNo;
      assert rows[k].meta == metas[k];
      if bn !in seen {
        seen := seen + {bn};
        order := order + [bn];
      }
      batches := batches[bn := (if bn in batches then batches[bn] else []) + [raw[k]]];
      k := k + 1;
    }
  }

  lemma {:induction false} ScoreOfConcat(a: seq<Case>, b: seq<Case>)
    ensures ScoreOf(a + b) == ScoreOf(a) + ScoreOf(b)
  {
    if b == [] {
      assert a + b == a;
    } else {
      ScoreOfConcat(a, b[..|b| - 1]);
      assert (a + b)[..|a + b| - 1] == a + b[..|b| - 1];
    }
  }

  /** The values a batch is listed with: all points withdrawn when it failed. */
  function Listed(cases: seq<Case>, failed: bool): seq<Case> {
    seq(|cases|, i requires 0 <= i < |cases| => if failed then cases[i].(points := 0.0) else cases[i])
  }

  lemma {:induction false} ForfeitedScore(cases: seq<Case>)
    ensures ScoreOf(Listed(cases, true)) == 0.0
  {
    if cases != [] {
      ForfeitedScore(cases[..|cases| - 1]);
      assert Listed(cases, true)[..|cases| - 1] == Listed(cases[..|cases| - 1], true);
    }
  }

  /** A fresh copy of every case, as `dict(c)` makes, with the points withdrawn on request. */
  method CopyCases(cases: seq<CaseResult>, withdraw: bool) returns (copies: seq<CaseResult>)
    ensures Values(copies) == Listed(Values(cases), withdraw)
    ensures forall i :: 0 <= i < |copies| ==> fresh(copies[i])
  {
    copies := [];
    for k := 0 to |cases|
      invariant |copies| == k
      invariant forall i :: 0 <= i < k ==> copies[i].Value() == Listed(Values(cases), withdraw)[i]
      invariant forall i :: 0 <= i < k ==> fresh(copies[i])
    {
      var copy := new CaseResult(cases[k].Value());
      if withdraw {
        copy.points := 0.0;
      }
      copies := copies + [copy];
    }
  }

  method SumPoints(cases: seq<CaseResult>, onlyAc: bool) returns (total: real)
    requires onlyAc || forall i :: 0 <= i < |cases| ==> cases[i].verdict == AC
    ensures total == ScoreOf(Values(cases))
  {
    total := 0.0;
    ghost var values := Values(cases);
    for k := 0 to |cases|
      invariant total == ScoreOf(values[..k])
    {
      assert values[..k + 1][..k] == values[..k];
      if !onlyAc || cases[k].verdict == AC {
        total := total + cases[k].points;
      }
    }
    assert values[..|cases|] == values;
  }

  /** Phase 4 for one batch: unbatched cases are listed as they are and score one by one; a
      batch that is AC is copied and scores the sum of its points; any other batch is copied
      with its points withdrawn. */
  method ListBatch(bn: Option<int>, cases: seq<CaseResult>, status: map<int, bool>)
    returns (listed: seq<CaseResult>, gained: real)
    requires bn.Some? && !Withdrawn(status, bn) ==>
               forall i :: 0 <= i < |cases| ==> cases[i].verdict == AC
    ensures Values(listed) == Listed(Values(cases), Withdrawn(status, bn))
    ensures gained == ScoreOf(Values(listed))
    ensures if bn.None? then listed == cases else forall i :: 0 <= i < |listed| ==> fresh(listed[i])
  {
    if bn.None? {
      listed := cases;
      gained := SumPoints(cases, true);
    } else if bn.value in status && !status[bn.value] {
      listed := CopyCases(cases, true);
      gained := 0.0;
      ForfeitedScore(Values(cases));
    } else {
      gained := SumPoints(cases, false);
      listed := CopyCases(cases, false);
      assert Values(listed) == Values(cases);
    }
  }

  /** A batch whose status is true holds AC cases only. */
  lemma {:induction false} GroupStatus(rows: seq<Row>, status: map<int, bool>, b: int, i: nat)
    requires Statuses(rows, status) && (b in status ==> status[b])
    requires i < |rows| && rows[i].meta.batchNo == Some(b)
    ensures rows[i].res.verdict == AC
  {
    FailedStatus(rows, status, b);
    assert !BatchFailed(rows, b);
  }

  /** The final values of the rows at the positions `c`. */
  ghost function FinalAt(rows: seq<Row>, c: seq<nat>): seq<Case>
    requires forall m :: 0 <= m < |c| ==> c[m] < |rows|
  {
    seq(|c|, m requires 0 <= m < |c| => Final(rows)[c[m]].res)
  }

  lemma {:induction false} ListedIsFinal(rows: seq<Row>, status: map<int, bool>, bn: Option<int>, i: nat)
    requires var skipped := AfterSkips(rows);
             Statuses(skipped, status) && i < |skipped| && skipped[i].meta.batchNo == bn
    ensures var c := AfterSkips(rows)[i].res;
            Final(rows)[i].res == if Withdrawn(status, bn) then c.(points := 0.0) else c
  {
    if bn.Some? {
      FailedStatus(AfterSkips(rows), status, bn.value);
    }
  }

  /** The aggregation.  `order` is the regrouping it performs; `results` holds the caller's own
      objects for unbatched cases and copies for the others, so what a failed batch forfeits is
      withdrawn from the copies only. */
  method AggregateBatches(raw: seq<CaseResult>, metas: seq<Meta>)
    returns (results: seq<CaseResult>, total: real, ghost order: seq<nat>)
    requires Distinct(raw)
    modifies raw
    ensures Aggregated(Zip(old(Values(raw)), metas), order, Values(results))
    ensures total == ScoreOf(Values(results))
    ensures forall i :: 0 <= i < |results| ==> fresh(results[i]) || results[i] in raw
    ensures Zip(Values(raw), metas) == AfterSkips(Zip(old(Values(raw)), metas))
    ensures forall i :: |metas| <= i < |raw| ==> raw[i].Value() == old(raw[i].Value())
  {
    ghost var rows := Zip(Values(raw), metas);
    var status := ComputeBatchAcStatus(raw, metas);
    ApplyBatchDependencies(raw, metas, status);
    status := ComputeBatchAcStatus(raw, metas);
    results, total, order := GroupAndEmit(raw, metas, status, rows);
    SameRegrouping(rows, order);
  }

  /** Phase 4 as a whole, on the rows that phase 2 left behind. */
  method GroupAndEmit(raw: seq<CaseResult>, metas: seq<Meta>, status: map<int, bool>, ghost rows: seq<Row>)
    returns (results: seq<CaseResult>, total: real, ghost order: seq<nat>)
    requires Zip(Values(raw), metas) == AfterSkips(rows) && Statuses(AfterSkips(rows), status)
    ensures Regrouping(AfterSkips(rows), order) && Values(results) == FinalAt(rows, order)
    ensures total == ScoreOf(Values(results))
    ensures forall i :: 0 <= i < |results| ==> fresh(results[i]) || results[i] in raw
  {
    var batchOrder, batches := GroupCases(raw, metas);
    order := Concat(AfterSkips(rows), batchOrder);
    GroupsRegroup(AfterSkips(rows));
    AllListed(raw, metas, rows, status, batchOrder);
    results, total := EmitAll(batchOrder, batches, status, rows, raw);
  }

  ghost predicate Withdrawn(status: map<int, bool>, bn: Option<int>) {
    bn.Some? && bn.value in status && !status[bn.value]
  }

  /** The objects of a batch, what they are listed as, and that a batch which is to be paid for is
      all AC. */
  ghost predicate Ready(raw: seq<CaseResult>, status: map<int, bool>, bn: Option<int>,
                        cases: seq<CaseResult>, list: seq<Case>)
    reads cases
  {
    && list == Listed(Values(cases), Withdrawn(status, bn))
    && (bn.Some? && !Withdrawn(status, bn) ==> forall i :: 0 <= i < |cases| ==> cases[i].verdict == AC)
    && forall i :: 0 <= i < |cases| ==> cases[i] in raw
  }

  /** The objects of one batch are ready to be listed as its rows show. */
  lemma {:induction false} GroupListed(raw: seq<CaseResult>, metas: seq<Meta>, rows: seq<Row>, status: map<int, bool>,
                                       bn: Option<int>, cases: seq<CaseResult>)
    requires var skipped := Zip(Values(raw), metas); skipped == AfterSkips(rows) && Statuses(skipped, status)
    requires ObjectsAt(raw, Members(AfterSkips(rows), bn), cases)
    ensures Ready(raw, status, bn, cases, FinalAt(rows, Members(AfterSkips(rows), bn)))
  {
    var skipped := Zip(Values(raw), metas);
    var members := Members(skipped, bn);
    var list := FinalAt(rows, members);
    MembersAreOf(skipped, |skipped|, bn);
    forall m | 0 <= m < |members|
      ensures bn.Some? && !Withdrawn(status, bn) ==> cases[m].verdict == AC
      ensures list[m] == Listed(Values(cases), Withdrawn(status, bn))[m]
    {
      assert cases[m].Value() == skipped[members[m]].res;
      if bn.Some? && !Withdrawn(status, bn) {
        GroupStatus(skipped, status, bn.value, members[m]);
      }
      ListedIsFinal(rows, status, bn, members[m]);
    }
  }

  lemma {:induction false} AllListed(raw: seq<CaseResult>, metas: seq<Meta>, rows: seq<Row>, status: map<int, bool>,
                                     order: seq<Option<int>>)
    requires var skipped := Zip(Values(raw), metas); skipped == AfterSkips(rows) && Statuses(skipped, status)
    requires order == BatchOrder(AfterSkips(rows))
    ensures var skipped := AfterSkips(rows);
            var batches := BatchesUpTo(raw, skipped, |skipped|);
            forall m :: 0 <= m < |order| ==>
              var b := order[m]; b in batches && Ready(raw, status, b, batches[b], FinalAt(rows, Members(skipped, b)))
  {
    var skipped := AfterSkips(rows);
    forall m | 0 <= m < |order|
      ensures var batches, b := BatchesUpTo(raw, skipped, |skipped|), order[m];
              b in batches && Ready(raw, status, b, batches[b], FinalAt(rows, Members(skipped, b)))
    {
      BatchHolds(raw, skipped, |skipped|, order[m]);
      GroupListed(raw, metas, rows, status, order[m], BatchesUpTo(raw, skipped, |skipped|)[order[m]]);
    }
  }

  /** One turn of the phase 4 loop: appends a batch to the list and its gain to the total. */
  method AppendBatch(bn: Option<int>, cases: seq<CaseResult>, status: map<int, bool>, ghost list: seq<Case>,
          ghost raw: seq<CaseResult>,
                     listedSoFar: seq<CaseResult>, totalSoFar: real)
    returns (results: seq<CaseResult>, total: real)
    requires Ready(raw, status, bn, cases, list) && totalSoFar == ScoreOf(Values(listedSoFar))
    ensures Values(results) == Values(listedSoFar) + list && total == ScoreOf(Values(results))
    ensures listedSoFar <= results
    ensures forall i :: |listedSoFar| <= i < |results| ==> fresh(results[i]) || results[i] in raw
  {
    var listed, gained := ListBatch(bn, cases, status);
    results := listedSoFar + listed;
    total := totalSoFar + gained;
    assert Values(results) == Values(listedSoFar) + Values(listed);
    ScoreOfConcat(Values(listedSoFar), Values(listed));
  }

  /** Phase 4: the batches in order of first appearance. */
  method EmitAll(order: seq<Option<int>>, batches: map<Option<int>, seq<CaseResult>>, status: map<int, bool>,
                 ghost rows: seq<Row>, ghost raw: seq<CaseResult>)
    returns (results: seq<CaseResult>, total: real)
    requires forall m :: 0 <= m < |order| ==>
               var b := order[m];
               b in batches && Ready(raw, status, b, batches[b], FinalAt(rows, Members(AfterSkips(rows), b)))
    ensures Values(results) == FinalAt(rows, Concat(AfterSkips(rows), order)) && total == ScoreOf(Values(results))
    ensures forall i :: 0 <= i < |results| ==> fresh(results[i]) || results[i] in raw
  {
    ghost var skipped := AfterSkips(rows);
    results, total := [], 0.0;
    for k := 0 to |order|
      invariant Values(results) == FinalAt(rows, Concat(skipped, order[..k])) && total == ScoreOf(Values(results))
      invariant forall i :: 0 <= i < |results| ==> fresh(results[i]) || results[i] in raw
    {
      ghost var list := FinalAt(rows, Members(skipped, order[k]));
      ConcatNext(rows, order, k);
      results, total := AppendBatch(order[k], batches[order[k]], status, list, raw, results, total);
    }
    assert order[..|order|] == order;
  }

  lemma {:induction false} ConcatNext(rows: seq<Row>, order: seq<Option<int>>, k: nat)
    requires k < |order|
    ensures var skipped := AfterSkips(rows);
            FinalAt(rows, Concat(skipped, order[..k + 1]))
            == FinalAt(rows, Concat(skipped, order[..k])) + FinalAt(rows, Members(skipped, order[k]))
  {
    assert order[..k + 1][..k] == order[..k];
  }

  /** The dependency phase moves no case to another batch. */
  lemma {:induction false} SameRegrouping(rows: seq<Row>, order: seq<nat>)
    requires Regrouping(AfterSkips(rows), order)
    ensures Regrouping(rows, order)
  {
    var skipped := AfterSkips(rows);
    forall b
      ensures First(rows, b) == First(skipped, b)
    {
      SameFirst(rows, skipped, b, 0);
    }
    forall k, l | 0 <= k < l < |order|
      ensures Before(rows, order[k], order[l])
    {
      assert Before(skipped, order[k], order[l]);
    }
  }

  lemma {:induction false} SameFirst(rows: seq<Row>, rows': seq<Row>, b: Option<int>, i: nat)
    requires |rows| == |rows'| && forall j :: 0 <= j < |rows| ==> rows[j].meta == rows'[j].meta
    ensures FirstFrom(rows, b, i) == FirstFrom(rows', b, i)
    decreases |rows| - i
  {
    if i < |rows| && rows[i].meta.batchNo != b {
      SameFirst(rows, rows', b, i + 1);
    }
  }
}
