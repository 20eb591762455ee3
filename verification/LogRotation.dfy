/** The daily rotating log of app/core/logger/file_handler.py.

    The files of a day are the current one (index 0) and the rotated ones .1, .2 and so on.  Any
    rename, open or write may fail; `Outcomes` says which do. */
module LogRotation {
  import opened Wrappers

  datatype Path = Path(day: string, index: nat)

  /** A formatted line and its length in bytes. */
  datatype Record = Record(line: string, size: nat)

  type Files = map<Path, seq<Record>>

  datatype Outcomes = Outcomes(openOk: bool, renameOk: bool, reopenOk: bool, writeOk: bool)

  function SizeOf(records: seq<Record>): nat {
    if records == [] then 0 else SizeOf(records[..|records| - 1]) + records[|records| - 1].size
  }

  lemma {:induction false} SizeOfConcat(a: seq<Record>, b: seq<Record>)
    ensures SizeOf(a + b) == SizeOf(a) + SizeOf(b) && forall r :: SizeOf([r]) == r.size
  {
    if b == [] {
      assert a + b == a;
    } else {
      SizeOfConcat(a, b[..|b| - 1]);
      assert (a + b)[..|a + b| - 1] == a + b[..|b| - 1];
    }
  }

  function ContentOf(files: Files, p: Path): seq<Record> {
    if p in files then files[p] else []
  }

  /** The rotated files of a day are .1 to .k, without a gap. */
  ghost predicate Contiguous(files: Files, day: string, k: nat) {
    forall i :: i > 0 ==> (Path(day, i) in files <==> i <= k)
  }

  ghost function RotatedLog(files: Files, day: string, k: nat): seq<Record> {
    if k == 0 then [] else RotatedLog(files, day, k - 1) + ContentOf(files, Path(day, k))
  }

  /** The rotated files in order, followed by the current one. */
  ghost function FullLog(files: Files, day: string, k: nat): seq<Record> {
    RotatedLog(files, day, k) + ContentOf(files, Path(day, 0))
  }

  lemma {:induction false} RotatedLogSame(files: Files, files': Files, day: string, k: nat)
    requires forall i :: 0 < i <= k ==> ContentOf(files, Path(day, i)) == ContentOf(files', Path(day, i))
    ensures RotatedLog(files, day, k) == RotatedLog(files', day, k)
  {
    if k > 0 {
      RotatedLogSame(files, files', day, k - 1);
    }
  }

  function Renamed(files: Files, from: Path, to: Path): Files
    requires from in files
  {
    (files - {from})[to := files[from]]
  }

  /** Moving the current file to the next index keeps the log of its day, and of every other. */
  lemma {:induction false} RotationConserves(files: Files, day: string, k: nat)
    requires Contiguous(files, day, k) && Path(day, 0) in files
    ensures var files' := Renamed(files, Path(day, 0), Path(day, k + 1));
            Contiguous(files', day, k + 1) && FullLog(files', day, k + 1) == FullLog(files, day, k)
  {
    var files' := Renamed(files, Path(day, 0), Path(day, k + 1));
    RotatedLogSame(files, files', day, k);
  }

  lemma {:induction false} OtherDaysSame(files: Files, files': Files, day: string, k: nat)
    requires forall i: nat :: (Path(day, i) in files <==> Path(day, i) in files')
                              && (Path(day, i) in files ==> files[Path(day, i)] == files'[Path(day, i)])
    ensures Contiguous(files, day, k) ==> Contiguous(files', day, k)
    ensures FullLog(files', day, k) == FullLog(files, day, k)
  {
    RotatedLogSame(files, files', day, k);
  }

  lemma {:induction false} AppendExtends(files: Files, day: string, k: nat, r: Record)
    requires Contiguous(files, day, k)
    ensures var files' := files[Path(day, 0) := ContentOf(files, Path(day, 0)) + [r]];
            Contiguous(files', day, k) && FullLog(files', day, k) == FullLog(files, day, k) + [r]
  {
    RotatedLogSame(files, files[Path(day, 0) := ContentOf(files, Path(day, 0)) + [r]], day, k);
  }

  lemma {:induction false} CreateKeeps(files: Files, day: string, k: nat)
    requires Contiguous(files, day, k)
    ensures var files' := files[Path(day, 0) := ContentOf(files, Path(day, 0))];
            Contiguous(files', day, k) && FullLog(files', day, k) == FullLog(files, day, k)
  {
    RotatedLogSame(files, files[Path(day, 0) := ContentOf(files, Path(day, 0))], day, k);
  }

  // ---- Gaps ----

  /** The rotated files above index `lo`, up to `hi`. */
  ghost function LogAbove(files: Files, day: string, lo: nat, hi: nat): seq<Record> {
    if hi <= lo then [] else LogAbove(files, day, lo, hi - 1) + ContentOf(files, Path(day, hi))
  }

  lemma {:induction false} LogSplits(files: Files, day: string, m: nat, k: nat)
    requires m <= k
    ensures RotatedLog(files, day, k) == RotatedLog(files, day, m) + LogAbove(files, day, m, k)
  {
    if m < k {
      LogSplits(files, day, m, k - 1);
    }
  }

  lemma {:induction false} LogAboveSame(files: Files, files': Files, day: string, lo: nat, hi: nat)
    requires forall i :: lo < i <= hi ==> ContentOf(files, Path(day, i)) == ContentOf(files', Path(day, i))
    ensures LogAbove(files, day, lo, hi) == LogAbove(files', day, lo, hi)
  {
    if lo < hi {
      LogAboveSame(files, files', day, lo, hi - 1);
    }
  }

  /** The handler never leaves a gap, but rotated files may be removed from outside.  Whatever files
      are left, moving the current file to the free index `c` puts its records in front of those of
      the files above: the log of the day keeps its order exactly when the two commute. */
  lemma {:induction false} RotationIntoGap(files: Files, day: string, c: nat, k: nat)
    requires Path(day, 0) in files && 0 < c <= k && Path(day, c) !in files
    ensures var current, above := files[Path(day, 0)], LogAbove(files, day, c, k);
            var files' := Renamed(files, Path(day, 0), Path(day, c));
            && FullLog(files, day, k) == RotatedLog(files, day, c - 1) + above + current
            && FullLog(files', day, k) == RotatedLog(files, day, c - 1) + current + above
            && (FullLog(files', day, k) == FullLog(files, day, k) <==> above + current == current + above)
  {
    LogBeforeGap(files, day, c, k);
    LogAfterGap(files, day, c, k);
    CommuteBehind(RotatedLog(files, day, c - 1), LogAbove(files, day, c, k), files[Path(day, 0)]);
  }

  lemma {:induction false} LogBeforeGap(files: Files, day: string, c: nat, k: nat)
    requires Path(day, 0) in files && 0 < c <= k && Path(day, c) !in files
    ensures FullLog(files, day, k) == RotatedLog(files, day, c - 1) + LogAbove(files, day, c, k) + files[Path(day, 0)]
  {
    LogSplits(files, day, c, k);
    assert RotatedLog(files, day, c) == RotatedLog(files, day, c - 1);
  }

  lemma {:induction false} LogAfterGap(files: Files, day: string, c: nat, k: nat)
    requires Path(day, 0) in files && 0 < c <= k && Path(day, c) !in files
    ensures FullLog(Renamed(files, Path(day, 0), Path(day, c)), day, k)
            == RotatedLog(files, day, c - 1) + files[Path(day, 0)] + LogAbove(files, day, c, k)
  {
    var files' := Renamed(files, Path(day, 0), Path(day, c));
    LogSplits(files', day, c, k);
    LogAboveSame(files, files', day, c, k);
    RotatedLogSame(files, files', day, c - 1);
    assert RotatedLog(files', day, c) == RotatedLog(files, day, c - 1) + files[Path(day, 0)];
  }

  lemma {:induction false} CommuteBehind<T>(front: seq<T>, x: seq<T>, y: seq<T>)
    ensures front + y + x == front + x + y <==> x + y == y + x
  {
    assert front + y + x == front + (y + x) && front + x + y == front + (x + y);
    assert (front + (y + x))[|front|..] == y + x && (front + (x + y))[|front|..] == x + y;
  }

  /** Records differ by their time and text, so this comes to: there is nothing above the gap, or
      nothing to move. */
  lemma {:induction false} GapReorders(files: Files, day: string, c: nat, k: nat)
    requires Path(day, 0) in files && 0 < c <= k && Path(day, c) !in files
    requires forall r :: r in files[Path(day, 0)] ==> r !in LogAbove(files, day, c, k)
    ensures FullLog(Renamed(files, Path(day, 0), Path(day, c)), day, k) == FullLog(files, day, k) <==>
            LogAbove(files, day, c, k) == [] || files[Path(day, 0)] == []
  {
    var current, above := files[Path(day, 0)], LogAbove(files, day, c, k);
    RotationIntoGap(files, day, c, k);
    if above != [] && current != [] {
      assert (above + current)[0] == above[0] && (current + above)[0] == current[0];
      assert current[0] in current && above[0] in above;
    }
  }

  /** For instance, with .2 left and .1 gone. */
  lemma {:induction false} GapInput(a: Record, b: Record)
    requires a != b
    ensures var files := map[Path("d", 2) := [a], Path("d", 0) := [b]];
            FullLog(Renamed(files, Path("d", 0), Path("d", 1)), "d", 2) != FullLog(files, "d", 2)
  {
    var files := map[Path("d", 2) := [a], Path("d", 0) := [b]];
    assert LogAbove(files, "d", 1, 1) == [] && LogAbove(files, "d", 1, 2) == [a];
    GapReorders(files, "d", 1, 2);
  }

  function EmittedAfter(before: map<string, seq<Record>>, day: string, records: seq<Record>): map<string,
          seq<Record>> {
    if records == [] then before
    else before[day := (if day in before then before[day] else []) + records]
  }

  lemma {:induction false} EmittedNext(before: map<string, seq<Record>>, day: string, records: seq<Record>, k: nat)
    requires k < |records|
    ensures EmittedAfter(EmittedAfter(before, day, records[..k]), day, [records[k]])
            == EmittedAfter(before, day, records[..k + 1])
  {
    var first := if day in before then before[day] else [];
    if k == 0 {
      assert records[..1] == [records[0]];
    } else {
      var mid, last := first + records[..k], first + records[..k + 1];
      assert mid + [records[k]] == last;
      assert before[day := mid][day := last] == before[day := last];
    }
  }

  class DailyFileHandler {
    const maxBytes: nat
    var files: Files
    var isOpen: bool
    var currentDay: Option<string>
    /** What the log of a day holds by rights, and how often it was rotated. */
    ghost var emitted: map<string, seq<Record>>
    ghost var rotations: map<string, nat>

    ghost function Rotations(day: string): nat
      reads this`rotations
    {
      if day in rotations then rotations[day] else 0
    }

    ghost function EmittedOn(day: string): seq<Record>
      reads this`emitted
    {
      if day in emitted then emitted[day] else []
    }

    /** The day's rotated files in order, followed by the current one. */
    ghost function LogOf(day: string): seq<Record>
      reads this`files, this`rotations
    {
      FullLog(files, day, Rotations(day))
    }

    ghost predicate DayOk(day: string)
      reads this`files, this`rotations, this`emitted
    {
      Contiguous(files, day, Rotations(day)) && LogOf(day) == EmittedOn(day)
    }

    ghost predicate Valid()
      reads this
    {
      && (forall day :: DayOk(day))
      && (isOpen ==> currentDay.Some? && Path(currentDay.value, 0) in files)
    }

    constructor (maxBytes: nat)
      ensures Valid() && files == map[] && emitted == map[] && !isOpen && currentDay == None
      ensures this.maxBytes == maxBytes
    {
      this.maxBytes := maxBytes;
      files, isOpen, currentDay := map[], false, None;
      emitted, rotations := map[], map[];
    }

    /** No rotated file is lost, changed or overwritten. */
    twostate predicate RotatedKept()
      reads this
    {
      forall p :: p in old(files) && p.index > 0 ==> p in files && files[p] == old(files)[p]
    }

    /** The counter search of `_rotate`: terminates, at the first free index. */
    method FreeIndex(day: string) returns (counter: nat)
      ensures counter > 0 && Path(day, counter) !in files
      ensures forall i :: 0 < i < counter ==> Path(day, i) in files
    {
      counter := 1;
      while Path(day, counter) in files
        invariant counter > 0 && forall i :: 0 < i < counter ==> Path(day, i) in files
        decreases |set p | p in files && p.day == day && p.index >= counter|
      {
        assert (set p | p in files && p.day == day && p.index >= counter)
            == (set p | p in files && p.day == day && p.index >= counter + 1) + {Path(day, counter)};
        counter := counter + 1;
      }
    }

    /** `_rotate`; a rename that fails is swallowed. */
    method Rotate(day: string, renameOk: bool)
      requires Valid() && !isOpen && Path(day, 0) in files
      modifies this`files, this`rotations
      ensures Valid() && RotatedKept()
      ensures if renameOk then Path(day, 0) !in files else files == old(files)
    {
      var counter := FreeIndex(day);
      assert DayOk(day);
      ghost var k := Rotations(day);
      assert counter == k + 1 by {
        assert Path(day, k + 1) !in files;
      }
      if renameOk {
        RotationConserves(files, day, k);
        files := Renamed(files, Path(day, 0), Path(day, counter));
        rotations := rotations[day := k + 1];
        OthersKept(day);
      }
    }

    /** A change to the files of one day leaves the other days valid. */
    twostate lemma OthersKept(day: string)
      requires old(Valid()) && DayOk(day)
      requires forall p: Path :: p.day != day ==>
                 (p in old(files) <==> p in files) && (p in files ==> files[p] == old(files)[p])
      requires forall d :: d != day ==>
                 (d in old(rotations) <==> d in rotations) && (d in rotations ==> rotations[d] == old(rotations)[d])
                 && (d in old(emitted) <==> d in emitted) && (d in emitted ==> emitted[d] == old(emitted)[d])
      ensures forall d :: DayOk(d)
    {
      forall d
        ensures DayOk(d)
      {
        if d != day {
          assert old(DayOk(d));
          OtherDaysSame(old(files), files, d, Rotations(d));
        }
      }
    }

    /** Opens the current file of the day for appending. */
    method Open(day: string, openOk: bool)
      requires Valid() && !isOpen && currentDay == Some(day)
      modifies this`files, this`isOpen
      ensures Valid() && RotatedKept() && isOpen == openOk
      ensures files == if openOk then old(files)[Path(day, 0) := ContentOf(old(files), Path(day, 0))] else old(files)
    {
      if openOk {
        assert DayOk(day);
        CreateKeeps(files, day, Rotations(day));
        files := files[Path(day, 0) := ContentOf(files, Path(day, 0))];
        OthersKept(day);
        isOpen := true;
      }
    }

    /** Appends a record to the open file. */
    method Write(day: string, r: Record)
      requires Valid() && isOpen && currentDay == Some(day)
      modifies this`files, this`emitted
      ensures Valid() && RotatedKept()
      ensures files[Path(day, 0)] == old(files)[Path(day, 0)] + [r]
      ensures emitted == old(emitted)[day := old(EmittedOn(day)) + [r]]
    {
      assert DayOk(day);
      AppendExtends(files, day, Rotations(day), r);
      files := files[Path(day, 0) := files[Path(day, 0)] + [r]];
      emitted := emitted[day := EmittedOn(day) + [r]];
      OthersKept(day);
    }

    /** `emit`: `raised` when opening a file raises, `wrote` when the record reached the file.
        Whatever fails, the log of every day is exactly what was written to it, in order.  A record
        is lost without an exception exactly when it could not be written or when an earlier open of
        the same day failed: the handler does not try again. */
    method Emit(day: string, r: Record, io: Outcomes) returns (raised: bool, wrote: bool)
      requires Valid()
      modifies this
      ensures Valid() && RotatedKept() && currentDay == Some(day)
      ensures emitted == if wrote then old(emitted)[day := old(EmittedOn(day)) + [r]] else old(emitted)
      ensures isOpen <==> !raised && (old(isOpen) || old(currentDay) != Some(day))
      ensures wrote <==> isOpen && io.writeOk
      ensures wrote ==>
                var before := ContentOf(old(files), Path(day, 0));
                var rotated := SizeOf(before) >= maxBytes && io.renameOk;
                ContentOf(files, Path(day, 0)) == (if rotated then [] else before) + [r]
      ensures raised <==> (old(currentDay) != Some(day) && !io.openOk)
                          || ((old(currentDay) != Some(day) || old(isOpen))
                              && SizeOf(ContentOf(old(files), Path(day, 0))) >= maxBytes && !io.reopenOk)
      ensures !raised && !wrote <==>
                (old(currentDay) == Some(day) && !old(isOpen)) || (!raised && !io.writeOk)
      ensures (if old(currentDay) == Some(day) then !old(isOpen) else !io.openOk) ==> files == old(files)
    {
      raised, wrote := false, false;
      if currentDay != Some(day) {
        isOpen := false;
        currentDay := Some(day);
        Open(day, io.openOk);
        if !io.openOk {
          return true, false;
        }
      }
      raised := RollOver(day, io);
      if !raised && isOpen && io.writeOk {
        Write(day, r);
        wrote := true;
      }
    }

    /** Log conservation over a run: when every open and write succeeds, the rotated files followed by
        the current one grow by exactly the emitted records in order, whichever renames fail. */
    method EmitRun(day: string, records: seq<Record>, ios: seq<Outcomes>)
      requires Valid() && (isOpen || currentDay != Some(day)) && |ios| == |records|
      requires forall k :: 0 <= k < |ios| ==> ios[k].openOk && ios[k].reopenOk && ios[k].writeOk
      modifies this
      ensures Valid() && RotatedKept()
      ensures LogOf(day) == old(LogOf(day)) + records
      ensures forall d :: d != day ==> LogOf(d) == old(LogOf(d))
    {
      LogsAreEmitted();
      for k := 0 to |records|
        invariant Valid() && RotatedKept() && (isOpen || currentDay != Some(day))
        invariant emitted == EmittedAfter(old(emitted), day, records[..k])
      {
        EmitHealthy(day, records[k], ios[k]);
        EmittedNext(old(emitted), day, records, k);
      }
      LogsAreEmitted();
      assert records[..|records|] == records;
    }

    method EmitHealthy(day: string, r: Record, io: Outcomes)
      requires Valid() && (isOpen || currentDay != Some(day)) && io.openOk && io.reopenOk && io.writeOk
      modifies this
      ensures Valid() && RotatedKept() && isOpen
      ensures emitted == EmittedAfter(old(emitted), day, [r])
    {
      var raised, wrote := Emit(day, r, io);
    }

    lemma {:induction false} LogsAreEmitted()
      requires Valid()
      ensures forall d :: LogOf(d) == EmittedOn(d)
    {
      forall d
        ensures LogOf(d) == EmittedOn(d)
      {
        assert DayOk(d);
      }
    }

    /** A day whose first open fails: that emit raises, and all later ones of the day are lost without
        an exception, however healthy the file system is by then. */
    method LoseDay(day: string, first: Record, records: seq<Record>, io: Outcomes, ios: seq<Outcomes>)
      returns (raisedFirst: bool, raisedLater: bool, wroteAny: bool)
      requires Valid() && currentDay != Some(day) && !io.openOk && |ios| == |records|
      modifies this
      ensures Valid() && raisedFirst && !raisedLater && !wroteAny
      ensures files == old(files) && emitted == old(emitted)
    {
      raisedFirst, wroteAny := Emit(day, first, io);
      raisedLater := false;
      for k := 0 to |records|
        invariant Valid() && currentDay == Some(day) && !isOpen && !raisedLater && !wroteAny
        invariant files == old(files) && emitted == old(emitted)
      {
        var raised, wrote := Emit(day, records[k], ios[k]);
        raisedLater, wroteAny := raisedLater || raised, wroteAny || wrote;
      }
    }

    /** Rotates a file that has reached the limit and opens a new one. */
    method RollOver(day: string, io: Outcomes) returns (raised: bool)
      requires Valid() && currentDay == Some(day)
      modifies this`files, this`rotations, this`isOpen
      ensures Valid() && RotatedKept()
      ensures !old(isOpen) ==> !raised && !isOpen && files == old(files)
      ensures old(isOpen) ==>
                var before := old(files)[Path(day, 0)];
                && (raised <==> SizeOf(before) >= maxBytes && !io.reopenOk) && isOpen == !raised
                && (isOpen ==> files[Path(day, 0)] == if SizeOf(before) >= maxBytes && io.renameOk then [] else before)
    {
      raised := false;
      if isOpen && SizeOf(files[Path(day, 0)]) >= maxBytes {
        isOpen := false;
        Rotate(day, io.renameOk);
        Open(day, io.reopenOk);
        raised := !io.reopenOk;
      }
    }
  }
}
