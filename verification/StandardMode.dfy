/** The STANDARD judge mode (app/modules/judge/modes/standard.py): from the sandbox's case
    results to the reported cases, score and verdict, under ACM, OI and IOI rules. */
module StandardMode {
  import opened BatchAggregation
  import opened Graphs
  import opened Scoring
  import opened Sequences
  import opened Wrappers

  /** The sandbox's execution statuses; `Unknown` is any value outside its mapping table. */
  datatype Status = Accepted | CompileError | RuntimeError | TimeLimit | MemoryLimit
                  | OutputLimit | SystemError | InternalError | Unknown

  datatype SandboxCase = SandboxCase(status: Status, outputsMatch: bool)

  function ToOjResult(status: Status): Verdict {
    match status
    case Accepted => AC
    case CompileError => CE
    case RuntimeError => RE
    case TimeLimit => TLE
    case MemoryLimit => MLE
    case OutputLimit => OLE
    case SystemError => SE
    case InternalError => IE
    case Unknown => IE
  }

  function OjResult(c: SandboxCase): Verdict {
    if c.status == Accepted && c.outputsMatch then AC
    else if c.status != Accepted then ToOjResult(c.status)
    else WA
  }

  /** A case number of 0 counts as missing. */
  function CaseNo(metas: seq<Meta>, i: nat): int {
    if i < |metas| && metas[i].caseNo != 0 then metas[i].caseNo else i + 1
  }

  function PointsOf(metas: seq<Meta>, i: nat): real {
    if i < |metas| then metas[i].points else 0.0
  }

  function SkippedResult(caseNo: int): Case {
    Case(caseNo, SKIPPED, 0.0)
  }

  /** Position of the first case that is not AC, or the number of cases. */
  function FirstFailure(sandbox: seq<SandboxCase>): nat {
    if sandbox == [] || OjResult(sandbox[0]) != AC then 0 else 1 + FirstFailure(sandbox[1..])
  }

  lemma {:induction false} FirstFailureIsFirst(sandbox: seq<SandboxCase>)
    ensures FirstFailure(sandbox) <= |sandbox|
    ensures forall i :: 0 <= i < FirstFailure(sandbox) ==> OjResult(sandbox[i]) == AC
    ensures FirstFailure(sandbox) < |sandbox| ==> OjResult(sandbox[FirstFailure(sandbox)]) != AC
  {
    if sandbox != [] && OjResult(sandbox[0]) == AC {
      FirstFailureIsFirst(sandbox[1..]);
      assert forall i :: 1 <= i < |sandbox| ==> sandbox[i] == sandbox[1..][i - 1];
    }
  }

  /** What the raw list holds at position `i`. */
  function RawAt(sandbox: seq<SandboxCase>, metas: seq<Meta>, stopOnFirst: bool, i: nat): Case {
    if (stopOnFirst && i > FirstFailure(sandbox)) || i >= |sandbox|
    then SkippedResult(CaseNo(metas, i))
    else Case(CaseNo(metas, i), OjResult(sandbox[i]), PointsOf(metas, i))
  }

  function RawLength(sandbox: seq<SandboxCase>, metas: seq<Meta>, stopOnFirst: bool): nat {
    if stopOnFirst && FirstFailure(sandbox) < |sandbox| && |sandbox| < |metas| then |metas| else |sandbox|
  }

  function RawResults(sandbox: seq<SandboxCase>, metas: seq<Meta>, stopOnFirst: bool): seq<Case> {
    seq(RawLength(sandbox, metas, stopOnFirst), i requires 0 <= i => RawAt(sandbox, metas, stopOnFirst, i))
  }

  /** The loop over the sandbox results and the padding after it. */
  method CollectResults(sandbox: seq<SandboxCase>, metas: seq<Meta>, stopOnFirst: bool) returns (raw: seq<Case>)
    ensures raw == RawResults(sandbox, metas, stopOnFirst)
  {
    FirstFailureIsFirst(sandbox);
    raw := [];
    var hadFailure := false;
    for i := 0 to |sandbox|
      invariant |raw| == i
      invariant hadFailure <==> i > FirstFailure(sandbox)
      invariant forall j :: 0 <= j < i ==> raw[j] == RawAt(sandbox, metas, stopOnFirst, j)
    {
      var caseNo := CaseNo(metas, i);
      if stopOnFirst && hadFailure {
        raw := raw + [SkippedResult(caseNo)];
        continue;
      }
      var result := OjResult(sandbox[i]);
      if result != AC {
        hadFailure := true;
      }
      raw := raw + [Case(caseNo, result, PointsOf(metas, i))];
    }
    if stopOnFirst && hadFailure && |raw| < |metas| {
      for j := |raw| to |metas|
        invariant |raw| == j
        invariant forall i :: 0 <= i < j ==> raw[i] == RawAt(sandbox, metas, stopOnFirst, i)
      {
        raw := raw + [SkippedResult(CaseNo(metas, j))];
      }
    }
  }

  /** Batch number 0 is falsy and does not switch batch scoring on. */
  predicate HasBatch(metas: seq<Meta>) {
    exists i :: 0 <= i < |metas| && metas[i].batchNo.Some? && metas[i].batchNo.value != 0
  }

  function StopOnFirst(metas: seq<Meta>, partial: bool): bool {
    !partial && !HasBatch(metas)
  }

  /** The reported verdict: a compile error first, then full points, then the case list. */
  function Reported(compileError: bool, score: real, problemPoints: real, cases: seq<Case>): Verdict {
    if compileError then CE else if score >= problemPoints then AC else OverallOf(cases)
  }

  // ---- What is reported, case by case ----

  /** What a test case is reported as if nothing skips it: a status for each verdict. */
  ghost predicate OwnVerdict(c: SandboxCase, v: Verdict) {
    && (v == AC <==> c.status == Accepted && c.outputsMatch) && (v == WA <==> c.status == Accepted && !c.outputsMatch)
    && (v == CE <==> c.status == CompileError) && (v == RE <==> c.status == RuntimeError)
    && (v == TLE <==> c.status == TimeLimit) && (v == MLE <==> c.status == MemoryLimit)
    && (v == OLE <==> c.status == OutputLimit) && (v == SE <==> c.status == SystemError)
    && (v == IE <==> c.status == InternalError || c.status == Unknown) && v != SKIPPED
  }

  ghost predicate Numbered(metas: seq<Meta>, i: nat, c: Case) {
    if i < |metas| && metas[i].caseNo != 0 then c.caseNo == metas[i].caseNo else c.caseNo == i + 1
  }

  ghost predicate ShownAsRun(sandbox: seq<SandboxCase>, metas: seq<Meta>, i: nat, c: Case)
    requires i < |sandbox|
  {
    && Numbered(metas, i, c) && OwnVerdict(sandbox[i], c.verdict)
    && c.points == if i < |metas| then metas[i].points else 0.0
  }

  ghost predicate ShownAsSkipped(metas: seq<Meta>, i: nat, c: Case) {
    Numbered(metas, i, c) && c.verdict == SKIPPED && c.points == 0.0
  }

  /** No batch but number 0. */
  ghost predicate Unbatched(metas: seq<Meta>) {
    forall i :: 0 <= i < |metas| ==> metas[i].batchNo == None || metas[i].batchNo == Some(0)
  }

  ghost predicate AllPass(sandbox: seq<SandboxCase>, n: nat)
    requires n <= |sandbox|
  {
    forall i :: 0 <= i < n ==> sandbox[i].status == Accepted && sandbox[i].outputsMatch
  }

  ghost predicate FailsFirst(sandbox: seq<SandboxCase>, f: int) {
    0 <= f < |sandbox| && AllPass(sandbox, f) && !AllPass(sandbox, f + 1)
  }

  ghost predicate CaseByCase(sandbox: seq<SandboxCase>, metas: seq<Meta>, cases: seq<Case>) {
    |cases| == |sandbox| && forall i :: 0 <= i < |cases| ==> ShownAsRun(sandbox, metas, i, cases[i])
  }

  /** Case `f` is the first that fails.  Everything up to it is reported as it ran; everything behind
      it, whether it ran or not, is skipped; and no test case is missing. */
  ghost predicate StoppedAt(sandbox: seq<SandboxCase>, metas: seq<Meta>, f: nat, cases: seq<Case>)
    requires f < |sandbox|
  {
    && |cases| == (if |sandbox| < |metas| then |metas| else |sandbox|)
    && (forall i :: 0 <= i <= f ==> ShownAsRun(sandbox, metas, i, cases[i]))
    && (forall i :: f < i < |cases| ==> ShownAsSkipped(metas, i, cases[i]))
  }

  /** Case `i` lists the batch of a case `j` that fails. */
  ghost predicate StoppedBy(sandbox: seq<SandboxCase>, metas: seq<Meta>, i: nat, j: nat)
    requires i < |metas| && j < |metas| && j < |sandbox|
  {
    && !(sandbox[j].status == Accepted && sandbox[j].outputsMatch)
    && metas[i].batchNo.Some? && metas[j].batchNo.Some?
    && metas[j].batchNo.value
       in (if metas[i].batchDepends != [] then metas[i].batchDepends else metas[i].batchDependencies)
  }

  ghost predicate Skips(sandbox: seq<SandboxCase>, metas: seq<Meta>, i: nat)
    requires i < |metas|
  {
    exists j :: 0 <= j < |metas| && j < |sandbox| && StoppedBy(sandbox, metas, i, j)
  }

  /** Every case of the batch passes, and none is skipped. */
  ghost predicate Pays(sandbox: seq<SandboxCase>, metas: seq<Meta>, batch: int) {
    forall j :: 0 <= j < |metas| && j < |sandbox| && metas[j].batchNo == Some(batch) ==>
      sandbox[j].status == Accepted && sandbox[j].outputsMatch && !Skips(sandbox, metas, j)
  }

  ghost predicate ShownInBatch(sandbox: seq<SandboxCase>, metas: seq<Meta>, i: nat, c: Case)
    requires i < |sandbox| && i < |metas|
  {
    if Skips(sandbox, metas, i) then ShownAsSkipped(metas, i, c)
    else
      && Numbered(metas, i, c) && OwnVerdict(sandbox[i], c.verdict)
      && c.points == if metas[i].batchNo.None? || Pays(sandbox, metas, metas[i].batchNo.value) then metas[i].points
                     else 0.0
  }

  /** Every case that ran is listed once, and only dependencies between batches skip one. */
  ghost predicate ByBatches(sandbox: seq<SandboxCase>, metas: seq<Meta>, order: seq<nat>, cases: seq<Case>) {
    && |cases| == |order| == (if |sandbox| < |metas| then |sandbox| else |metas|)
    && Distinct(order)
    && forall k :: 0 <= k < |cases| ==>
         order[k] < |metas| && order[k] < |sandbox| && ShownInBatch(sandbox, metas, order[k], cases[k])
  }

  /** The verdict of the first case that fails, AC if none does. */
  ghost predicate FirstToFail(cases: seq<Case>, v: Verdict) {
    || (v == AC && forall k :: 0 <= k < |cases| ==> cases[k].verdict == AC || cases[k].verdict == SKIPPED)
    || exists k :: 0 <= k < |cases| && v == cases[k].verdict != AC && v != SKIPPED
         && forall j :: 0 <= j < k ==> cases[j].verdict == AC || cases[j].verdict == SKIPPED
  }

  method Judge(sandbox: seq<SandboxCase>, metas: seq<Meta>, partial: bool, compileError: bool, problemPoints: real)
    returns (cases: seq<Case>, score: real, overall: Verdict, ghost order: seq<nat>)
    ensures var raw := RawResults(sandbox, metas, StopOnFirst(metas, partial));
            if HasBatch(metas) then Aggregated(Zip(raw, metas), order, cases) else cases == raw
    ensures overall == Reported(compileError, score, problemPoints, cases)
    // An ACM run stops at its first failure; an OI run does not stop; batches skip batches only.
    ensures forall f :: !partial && Unbatched(metas) && FailsFirst(sandbox, f) ==> StoppedAt(sandbox, metas, f, cases)
    ensures Unbatched(metas) && (partial || AllPass(sandbox, |sandbox|)) ==> CaseByCase(sandbox, metas, cases)
    ensures !Unbatched(metas) ==> ByBatches(sandbox, metas, order, cases)
    ensures score == if compileError && Unbatched(metas) then 0.0 else ScoreOf(cases)
    ensures if compileError then overall == CE
            else if score >= problemPoints then overall == AC else FirstToFail(cases, overall)
  {
    var hasBatch := exists i :: 0 <= i < |metas| && metas[i].batchNo.Some? && metas[i].batchNo.value != 0;
    var stopOnFirst := !partial && !hasBatch;
    var raw := CollectResults(sandbox, metas, stopOnFirst);
    order := [];
    if hasBatch {
      var objects := AsObjects(raw);
      var listed;
      listed, score, order := AggregateBatches(objects, metas);
      cases := Values(listed);
    } else {
      cases := raw;
      score := ComputeScore(compileError, cases);
    }
    Explained(sandbox, metas, partial, order, cases);
    OverallFirst(cases);
    if compileError {
      overall := CE;
    } else if score >= problemPoints {
      overall := AC;
    } else {
      overall := ComputeOverallResult(false, cases);
    }
  }

  /** Every raw result is a dictionary of its own. */
  method AsObjects(raw: seq<Case>) returns (objects: seq<CaseResult>)
    ensures Values(objects) == raw && Distinct(objects)
    ensures forall i :: 0 <= i < |objects| ==> fresh(objects[i])
  {
    objects := [];
    for k := 0 to |raw|
      invariant |objects| == k && Distinct(objects)
      invariant forall i :: 0 <= i < k ==> objects[i].Value() == raw[i] && fresh(objects[i])
    {
      var o := new CaseResult(raw[k]);
      objects := objects + [o];
    }
  }

  lemma {:induction false} OverallFirst(cases: seq<Case>)
    ensures FirstToFail(cases, OverallOf(cases))
  {
    OverallIsAc(cases);
    if k :| 0 <= k < |cases| && Failing(cases[k].verdict) {
      var f := FirstFailingCase(cases, k);
      assert OverallOf(cases) == cases[f].verdict;
    }
  }

  lemma {:induction false} FirstFailingCase(cases: seq<Case>, k: nat) returns (f: nat)
    requires k < |cases| && Failing(cases[k].verdict)
    ensures f < |cases| && Failing(cases[f].verdict) && OverallOf(cases) == cases[f].verdict
    ensures forall j :: 0 <= j < f ==> !Failing(cases[j].verdict)
  {
    f := 0;
    if !Failing(cases[0].verdict) {
      f := FirstFailingCase(cases[1..], k - 1);
      f := f + 1;
      assert forall j :: 1 <= j < |cases| ==> cases[j] == cases[1..][j - 1];
    }
  }

  /** The specified lists, case by case. */
  lemma {:induction false} Explained(sandbox: seq<SandboxCase>, metas: seq<Meta>, partial: bool, order: seq<nat>,
          cases: seq<Case>)
    requires var raw := RawResults(sandbox, metas, StopOnFirst(metas, partial));
             if HasBatch(metas) then Aggregated(Zip(raw, metas), order, cases) else cases == raw
    ensures Unbatched(metas) <==> !HasBatch(metas)
    ensures forall f :: !partial && Unbatched(metas) && FailsFirst(sandbox, f) ==> StoppedAt(sandbox, metas, f, cases)
    ensures Unbatched(metas) && (partial || AllPass(sandbox, |sandbox|)) ==> CaseByCase(sandbox, metas, cases)
    ensures !Unbatched(metas) ==> ByBatches(sandbox, metas, order, cases)
  {
    if HasBatch(metas) {
      BatchesExplained(sandbox, metas, order, cases);
    } else {
      if !partial {
        StopExplained(sandbox, metas);
      }
      if partial || AllPass(sandbox, |sandbox|) {
        NoStopExplained(sandbox, metas, !partial);
      }
    }
  }

  lemma {:induction false} StopExplained(sandbox: seq<SandboxCase>, metas: seq<Meta>)
    ensures forall f :: FailsFirst(sandbox, f) ==> StoppedAt(sandbox, metas, f, RawResults(sandbox, metas, true))
  {
    FirstFailureIsFirst(sandbox);
    forall f | FailsFirst(sandbox, f)
      ensures StoppedAt(sandbox, metas, f, RawResults(sandbox, metas, true))
    {
      assert f == FirstFailure(sandbox);
    }
  }

  lemma {:induction false} NoStopExplained(sandbox: seq<SandboxCase>, metas: seq<Meta>, stopOnFirst: bool)
    requires stopOnFirst ==> AllPass(sandbox, |sandbox|)
    ensures CaseByCase(sandbox, metas, RawResults(sandbox, metas, stopOnFirst))
  {
    FirstFailureIsFirst(sandbox);
  }

  lemma {:induction false} BatchesExplained(sandbox: seq<SandboxCase>, metas: seq<Meta>, order: seq<nat>,
          cases: seq<Case>)
    requires Aggregated(Zip(RawResults(sandbox, metas, false), metas), order, cases)
    ensures ByBatches(sandbox, metas, order, cases)
  {
    var rows := Zip(RawResults(sandbox, metas, false), metas);
    forall k, l | 0 <= k < l < |order|
      ensures order[k] != order[l]
    {
      assert Before(rows, order[k], order[l]);
    }
    forall k | 0 <= k < |cases|
      ensures order[k] < |metas| && order[k] < |sandbox| && ShownInBatch(sandbox, metas, order[k], cases[k])
    {
      RowExplained(sandbox, metas, rows, order[k]);
    }
  }

  lemma {:induction false} RowExplained(sandbox: seq<SandboxCase>, metas: seq<Meta>, rows: seq<Row>, i: nat)
    requires rows == Zip(RawResults(sandbox, metas, false), metas) && i < |rows|
    ensures ShownInBatch(sandbox, metas, i, Final(rows)[i].res)
  {
    SkipsIsBlocked(sandbox, metas, rows, i);
    var batch := metas[i].batchNo;
    if batch.Some? {
      forall j | 0 <= j < |rows|
        ensures Skips(sandbox, metas, j) <==> Blocked(rows, metas[j])
      {
        SkipsIsBlocked(sandbox, metas, rows, j);
      }
      PaysIsUnfailed(sandbox, metas, rows, batch.value);
    }
  }

  lemma {:induction false} SkipsIsBlocked(sandbox: seq<SandboxCase>, metas: seq<Meta>, rows: seq<Row>, i: nat)
    requires rows == Zip(RawResults(sandbox, metas, false), metas) && i < |rows|
    ensures Skips(sandbox, metas, i) <==> Blocked(rows, metas[i])
  {
    if j :| 0 <= j < |metas| && j < |sandbox| && StoppedBy(sandbox, metas, i, j) {
      assert rows[j].meta.batchNo == Some(metas[j].batchNo.value) && rows[j].res.verdict != AC;
      assert BatchFailed(rows, metas[j].batchNo.value);
    }
    if Blocked(rows, metas[i]) {
      var d :| d in metas[i].Depends() && BatchFailed(rows, d);
      var j :| 0 <= j < |rows| && rows[j].meta.batchNo == Some(d) && rows[j].res.verdict != AC;
      assert StoppedBy(sandbox, metas, i, j);
    }
  }

  lemma {:induction false} PaysIsUnfailed(sandbox: seq<SandboxCase>, metas: seq<Meta>, rows: seq<Row>, batch: int)
    requires rows == Zip(RawResults(sandbox, metas, false), metas)
    requires forall j :: 0 <= j < |rows| ==> (Skips(sandbox, metas, j) <==> Blocked(rows, metas[j]))
    ensures Pays(sandbox, metas, batch) <==> !BatchFailed(AfterSkips(rows), batch)
  {
    var skipped := AfterSkips(rows);
    forall j | 0 <= j < |rows|
      ensures skipped[j].meta == metas[j]
      ensures skipped[j].res.verdict == AC <==>
              sandbox[j].status == Accepted && sandbox[j].outputsMatch && !Skips(sandbox, metas, j)
    {
    }
    if !Pays(sandbox, metas, batch) {
      var j :| 0 <= j < |metas| && j < |sandbox| && metas[j].batchNo == Some(batch)
               && !(sandbox[j].status == Accepted && sandbox[j].outputsMatch && !Skips(sandbox, metas, j));
      assert skipped[j].meta.batchNo == Some(batch) && skipped[j].res.verdict != AC;
    }
  }

  // ---- ACM runs ----

  /** AC…AC, the first failure, SKIPPED…SKIPPED: one entry per test case. */
  lemma {:induction false} AcmShape(sandbox: seq<SandboxCase>, metas: seq<Meta>)
    requires |sandbox| <= |metas| && FirstFailure(sandbox) < |sandbox|
    ensures var raw, f := RawResults(sandbox, metas, true), FirstFailure(sandbox);
            && |raw| == |metas|
            && (forall i :: 0 <= i < f ==> raw[i] == Case(CaseNo(metas, i), AC, metas[i].points))
            && raw[f] == Case(CaseNo(metas, f), OjResult(sandbox[f]), metas[f].points)
            && raw[f].verdict != AC && raw[f].verdict != SKIPPED
            && (forall i :: f < i < |metas| ==> raw[i] == SkippedResult(CaseNo(metas, i)))
  {
    FirstFailureIsFirst(sandbox);
  }

  /** Two sandbox runs that agree up to the first failure are reported alike, however far
      either of them ran past it. */
  lemma {:induction false} AcmIgnoresLaterCases(sandbox: seq<SandboxCase>, sandbox': seq<SandboxCase>,
          metas: seq<Meta>)
    requires |sandbox| <= |metas| && |sandbox'| <= |metas|
    requires var f := FirstFailure(sandbox);
             f < |sandbox| && f < |sandbox'| && sandbox[..f + 1] == sandbox'[..f + 1]
    ensures RawResults(sandbox, metas, true) == RawResults(sandbox', metas, true)
  {
    SameFirstFailure(sandbox, sandbox');
    AcmShape(sandbox, metas);
    AcmShape(sandbox', metas);
    var raw, raw' := RawResults(sandbox, metas, true), RawResults(sandbox', metas, true);
    forall i | 0 <= i < |metas|
      ensures raw[i] == raw'[i]
    {
    }
  }

  lemma {:induction false} SameFirstFailure(sandbox: seq<SandboxCase>, sandbox': seq<SandboxCase>)
    requires var f := FirstFailure(sandbox);
             f < |sandbox| && f < |sandbox'| && sandbox[..f + 1] == sandbox'[..f + 1]
    ensures FirstFailure(sandbox') == FirstFailure(sandbox)
    ensures sandbox'[FirstFailure(sandbox)] == sandbox[FirstFailure(sandbox)]
  {
    var f := FirstFailure(sandbox);
    assert sandbox[..f + 1][0] == sandbox'[..f + 1][0];
    if f > 0 {
      assert sandbox[1..][..f] == sandbox[..f + 1][1..] == sandbox'[..f + 1][1..] == sandbox'[1..][..f];
      SameFirstFailure(sandbox[1..], sandbox'[1..]);
    }
  }

  lemma {:induction false} OverallSkipsAc(cases: seq<Case>, f: nat)
    requires f < |cases| && Failing(cases[f].verdict)
    requires forall i :: 0 <= i < f ==> cases[i].verdict == AC
    ensures OverallOf(cases) == cases[f].verdict
  {
    if f > 0 {
      OverallSkipsAc(cases[1..], f - 1);
    }
  }

  /** What an ACM run with a failure is worth: the points before its first failure.  It is still
      reported as AC exactly when those reach the problem's points, and otherwise as that failure. */
  lemma {:induction false} AcmVerdict(sandbox: seq<SandboxCase>, metas: seq<Meta>, problemPoints: real,
          raw: seq<Case>, f: nat)
    requires |sandbox| <= |metas| && raw == RawResults(sandbox, metas, true)
    requires f == FirstFailure(sandbox) < |sandbox|
    ensures f < |raw| && ScoreOf(raw) == ScoreOf(raw[..f])
    ensures Reported(false, ScoreOf(raw), problemPoints, raw) ==
            if ScoreOf(raw[..f]) >= problemPoints then AC else OjResult(sandbox[f])
  {
    AcmShape(sandbox, metas);
    OverallSkipsAc(raw, f);
    NoPointsAfter(raw, f);
  }

  lemma {:induction false} NoPointsAfter(cases: seq<Case>, f: nat)
    requires f <= |cases| && forall i :: f <= i < |cases| ==> cases[i].verdict != AC
    ensures ScoreOf(cases) == ScoreOf(cases[..f])
  {
    if f == |cases| {
      assert cases[..f] == cases;
    } else {
      NoPointsAfter(cases[..|cases| - 1], f);
      assert cases[..|cases| - 1][..f] == cases[..f];
    }
  }

  /** For instance, a wrong answer to a case without points. */
  lemma {:induction false} FullPointsInput(sandbox: seq<SandboxCase>, metas: seq<Meta>)
    requires sandbox == [SandboxCase(Accepted, true), SandboxCase(Accepted, false)]
    requires metas == [Meta(1, 100.0, None, [], []), Meta(2, 0.0, None, [], [])]
    ensures var raw := RawResults(sandbox, metas, StopOnFirst(metas, false));
            |raw| == 2 && raw[1].verdict == WA && Reported(false, ScoreOf(raw), 100.0, raw) == AC
  {
    var raw := RawResults(sandbox, metas, true);
    assert FirstFailure(sandbox) == 1;
    AcmVerdict(sandbox, metas, 100.0, raw, 1);
    assert raw[..1] == [Case(1, AC, 100.0)];
  }

  // ---- OI runs ----

  /** Every case is reported by itself.  Such a run is AC exactly when its score reaches the problem's
      points or nothing failed, and otherwise is reported as its first failure. */
  lemma {:induction false} OiVerdict(sandbox: seq<SandboxCase>, metas: seq<Meta>, problemPoints: real, raw: seq<Case>)
    requires raw == RawResults(sandbox, metas, StopOnFirst(metas, true))
    ensures |raw| == |sandbox|
    ensures forall i :: 0 <= i < |raw| ==> raw[i] == Case(CaseNo(metas, i), OjResult(sandbox[i]), PointsOf(metas, i))
    ensures var f := FirstFailure(sandbox);
            Reported(false, ScoreOf(raw), problemPoints, raw) ==
            if ScoreOf(raw) >= problemPoints || f >= |sandbox| then AC else OjResult(sandbox[f])
  {
    var f := FirstFailure(sandbox);
    FirstFailureIsFirst(sandbox);
    if f < |sandbox| {
      OverallSkipsAc(raw, f);
    } else {
      OverallIsAc(raw);
    }
  }

  // ---- Batch number 0 ----

  /** The score under batch rules, had batch scoring been on. */
  ghost function BatchScore(sandbox: seq<SandboxCase>, metas: seq<Meta>): real {
    TotalContribution(Zip(RawResults(sandbox, metas, false), metas))
  }

  ghost predicate InBatchZero(metas: seq<Meta>, i: int)
    requires 0 <= i < |metas|
  {
    metas[i].batchNo == Some(0)
  }

  /** Batch 0 has no two cases, or its cases are worth nothing. */
  ghost predicate WorthlessTogether(metas: seq<Meta>) {
    forall i, j :: 0 <= i < |metas| && 0 <= j < |metas| && i != j && InBatchZero(metas, i) && InBatchZero(metas, j) ==>
      metas[i].points == 0.0
  }

  /** Test cases whose only batch is number 0 are scored case by case.  That gives what batch scoring
      would for all sandbox results exactly when batch 0 has no two cases, one of them worth points. */
  lemma {:induction false} BatchZeroAgreesIff(metas: seq<Meta>)
    requires !HasBatch(metas)
    ensures (forall sandbox: seq<SandboxCase> :: |sandbox| == |metas| ==>
               ScoreOf(RawResults(sandbox, metas, false)) == BatchScore(sandbox, metas))
            <==>
            WorthlessTogether(metas)
  {
    if i, j :| 0 <= i < |metas| && 0 <= j < |metas| && i != j && InBatchZero(metas, i) && InBatchZero(metas, j)
               && metas[i].points != 0.0 {
      var sandbox := OnlyAccepted(i, |metas|);
      BatchZeroDiffers(metas, i, j, sandbox);
      assert |sandbox| == |metas| && ScoreOf(RawResults(sandbox, metas, false)) != BatchScore(sandbox, metas);
    } else {
      forall sandbox: seq<SandboxCase> | |sandbox| == |metas|
        ensures ScoreOf(RawResults(sandbox, metas, false)) == BatchScore(sandbox, metas)
      {
        var raw := RawResults(sandbox, metas, false);
        var rows := Zip(raw, metas);
        forall k | 0 <= k < |rows|
          ensures AcPoints(raw[k]) == Contribution(rows, rows[k])
        {
          BatchZeroCase(metas, sandbox, k);
        }
        assert raw[..|raw|] == raw && rows[..|rows|] == rows;
        SameSums(raw, rows, |rows|);
      }
    }
  }

  function OnlyAccepted(i: int, n: nat): seq<SandboxCase> {
    seq(n, k => if k == i then SandboxCase(Accepted, true) else SandboxCase(RuntimeError, false))
  }

  lemma {:induction false} SameSums(raw: seq<Case>, rows: seq<Row>, n: nat)
    requires n <= |raw| == |rows| && forall k :: 0 <= k < n ==> AcPoints(raw[k]) == Contribution(rows, rows[k])
    ensures ScoreOf(raw[..n]) == SumBy(rows[..n], row => Contribution(rows, row))
  {
    if n > 0 {
      SameSums(raw, rows, n - 1);
      assert raw[..n][..n - 1] == raw[..n - 1] && rows[..n][..n - 1] == rows[..n - 1];
    }
  }

  /** A case alone in batch 0, or worth nothing, counts alike under both rules. */
  lemma {:induction false} BatchZeroCase(metas: seq<Meta>, sandbox: seq<SandboxCase>, k: nat)
    requires !HasBatch(metas) && |sandbox| == |metas| && k < |metas|
    requires WorthlessTogether(metas)
    ensures var raw := RawResults(sandbox, metas, false);
            var rows := Zip(raw, metas);
            AcPoints(raw[k]) == Contribution(rows, rows[k])
  {
    var raw := RawResults(sandbox, metas, false);
    var rows := Zip(raw, metas);
    if rows[k].meta.batchNo.Some? {
      assert metas[k].batchNo == Some(0) && InBatchZero(metas, k);
      if raw[k].points != 0.0 {
        forall i | 0 <= i < |rows| && rows[i].meta.batchNo == Some(0)
          ensures i == k
        {
          assert InBatchZero(metas, i);
        }
        assert BatchFailed(rows, 0) <==> raw[k].verdict != AC;
        forall b | BatchFailed(rows, b)
          ensures b == 0
        {
          OnlyBatchZero(metas, raw, b);
        }
      }
    }
  }

  lemma {:induction false} OnlyBatchZero(metas: seq<Meta>, raw: seq<Case>, b: int)
    requires !HasBatch(metas) && BatchFailed(Zip(raw, metas), b)
    ensures b == 0
  {
    var rows := Zip(raw, metas);
    var i :| 0 <= i < |rows| && rows[i].meta.batchNo == Some(b) && rows[i].res.verdict != AC;
    assert metas[i].batchNo == Some(b);
  }

  /** Two cases, the first worth points and the only one right: paid singly, not as a batch. */
  lemma {:induction false} BatchZeroDiffers(metas: seq<Meta>, i: nat, j: nat, sandbox: seq<SandboxCase>)
    requires !HasBatch(metas) && i < |metas| && j < |metas| && i != j && sandbox == OnlyAccepted(i, |metas|)
    requires InBatchZero(metas, i) && InBatchZero(metas, j)
    ensures ScoreOf(RawResults(sandbox, metas, false)) == metas[i].points && BatchScore(sandbox, metas) == 0.0
  {
    var raw := RawResults(sandbox, metas, false);
    var rows := Zip(raw, metas);
    assert rows[j].meta.batchNo == Some(0) && rows[j].res.verdict != AC && !BatchEarns(rows, 0);
    assert raw[..|raw|] == raw && rows[..|rows|] == rows;
    SingleScore(raw, i, |raw|);
    forall k | 0 <= k < |rows|
      ensures Contribution(rows, rows[k]) == 0.0
    {
      assert rows[k].meta == metas[k] && (metas[k].batchNo.Some? ==> metas[k].batchNo.value == 0);
    }
    NothingEarned(rows, rows);
  }

  lemma {:induction false} SingleScore(raw: seq<Case>, i: nat, n: nat)
    requires i < |raw| && n <= |raw| && forall k :: 0 <= k < |raw| ==> (raw[k].verdict == AC <==> k == i)
    ensures ScoreOf(raw[..n]) == if i < n then raw[i].points else 0.0
  {
    if n > 0 {
      SingleScore(raw, i, n - 1);
      assert raw[..n][..n - 1] == raw[..n - 1];
    }
  }

  lemma {:induction false} NothingEarned(s: seq<Row>, rows: seq<Row>)
    requires forall k :: 0 <= k < |s| ==> Contribution(rows, s[k]) == 0.0
    ensures SumBy(s, row => Contribution(rows, row)) == 0.0
  {
    if s != [] {
      NothingEarned(s[..|s| - 1], rows);
    }
  }

  /** For instance, two cases worth 25 points each. */
  lemma {:induction false} BatchZeroInput(metas: seq<Meta>, sandbox: seq<SandboxCase>)
    requires metas == [Meta(1, 25.0, Some(0), [], []), Meta(2, 25.0, Some(0), [], [])]
    requires sandbox == [SandboxCase(Accepted, true), SandboxCase(RuntimeError, false)]
    ensures !HasBatch(metas) && ScoreOf(RawResults(sandbox, metas, false)) == 25.0 && BatchScore(sandbox, metas) == 0.0
  {
    assert sandbox == OnlyAccepted(0, 2);
    assert InBatchZero(metas, 0) && InBatchZero(metas, 1);
    BatchZeroDiffers(metas, 0, 1, sandbox);
  }

  // ---- IOI runs ----

  /** With batches nothing is skipped before aggregation, so with acyclic batch dependencies a
      submission with a failed case is reported as AC exactly when its score reaches the problem's
      points, and otherwise as a failure, never as SKIPPED. */
  lemma {:induction false} IoiFailureIsReported(sandbox: seq<SandboxCase>, metas: seq<Meta>, partial: bool, i: nat,
                             order: seq<nat>, cases: seq<Case>, problemPoints: real)
    requires HasBatch(metas) && i < |sandbox| && i < |metas| && OjResult(sandbox[i]) != AC
    requires var rows := Zip(RawResults(sandbox, metas, StopOnFirst(metas, partial)), metas);
             Acyclic(BatchGraph(rows)) && Aggregated(rows, order, cases)
    ensures var v := Reported(false, ScoreOf(cases), problemPoints, cases);
            (v == AC <==> ScoreOf(cases) >= problemPoints) && (v == AC || Failing(v))
  {
    var rows := Zip(RawResults(sandbox, metas, false), metas);
    forall j | 0 <= j < |rows|
      ensures rows[j].res.verdict == OjResult(sandbox[j]) != SKIPPED
    {
    }
    FailureSurvives(rows, order, cases, i);
  }
}
