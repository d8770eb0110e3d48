/** Whole runs of the store: promotes, deletes and any number of cleanup passes, whose scans and
    single deletes interleave with everything else. A callback is registered from the start. */
module Runs {
  import opened Types
  import opened Sequences
  import opened Rules
  import opened Codec
  import opened Table
  import opened Cleanup
  import opened Store

  datatype Event =
    | Promote(trace: Trace, at: Time)
    | Delete(id: string)
    | Begin(pass: Pass)         // the scan of a new pass, or its single DELETE when it has no rules
    | DeleteNext(sweep: nat)    // the next per-row DELETE of that pass

  /** A pass in flight: what its scan listed, how far it got, what it has removed and counted. For the
      record also the table at its scan, the number of promotes before it, and the rows promoted since
      under an ID the pass had still to delete. */
  datatype Sweep = Sweep(pass: Pass, listed: seq<Row>, next: nat, removed: seq<Row>, count: nat,
                         scanned: seq<Row>, start: nat, reinserted: seq<Row>)
  {
    /** Has the pass still to delete this ID? */
    predicate Pending(id: string)
      requires next <= |listed|
    {
      id in IdsOf(listed[next..])
    }

    predicate Passed(id: string)
      requires next <= |listed|
    {
      id in IdsOf(listed[..next])
    }

    /** The pass after its next DELETE, which took these rows. */
    function Taking(gone: seq<Row>): Sweep {
      this.(next := next + 1, removed := removed + gone, count := count + |gone|)
    }

    function Noting(row: Row): Sweep {
      if next <= |listed| && Pending(row.requestId) then this.(reinserted := reinserted + [row]) else this
    }
  }

  /** A pass that has just scanned, and one that is over with its single DELETE. */
  function Scanned(p: Pass, s: State, listed: seq<Row>): Sweep {
    Sweep(p, listed, 0, [], 0, s.rows, |s.promoted|, [])
  }

  function AtOnce(p: Pass, s: State, gone: seq<Row>): Sweep {
    Sweep(p, gone, |gone|, gone, |gone|, s.rows, |s.promoted|, [])
  }

  /** The table, with the history of what was put in and taken out. */
  datatype State = State(rows: seq<Row>, promoted: seq<Row>, fired: seq<TraceSummary>, deleted: seq<Row>, sweeps: seq<Sweep>)

  const INIT := State([], [], [], [], [])

  function Noting(sweeps: seq<Sweep>, row: Row): seq<Sweep> {
    seq(|sweeps|, k requires 0 <= k < |sweeps| => sweeps[k].Noting(row))
  }

  function Step(glob: Glob, s: State, e: Event): State {
    match e
    case Promote(t, at) =>
      if HasId(s.rows, t.requestId) then s
      else
        var row := EncodeRow(t, at);
        State(InsertOrIgnore(s.rows, row), s.promoted + [row], s.fired + [CallbackSummary(t, at)], s.deleted,
              Noting(s.sweeps, row))
    case Delete(id) =>
      s.(rows := RemoveId(s.rows, id), deleted := s.deleted + RemovedBy(s.rows, id))
    case Begin(p) =>
      if p.rules == [] then
        var gone := Filter(Removed(glob, p), s.rows);
        s.(rows := Filter(Survives(glob, p), s.rows), sweeps := s.sweeps + [AtOnce(p, s, gone)])
      else
        (match ScanResult(glob, p, s.rows)
         case Err(_) => s
         case Ok(listed) => s.(sweeps := s.sweeps + [Scanned(p, s, listed)]))
    case DeleteNext(k) =>
      if k < |s.sweeps| && s.sweeps[k].next < |s.sweeps[k].listed| then
        var w := s.sweeps[k];
        var id := w.listed[w.next].requestId;
        s.(rows := RemoveId(s.rows, id), sweeps := s.sweeps[k := w.Taking(RemovedBy(s.rows, id))])
      else s
  }

  function Run(glob: Glob, s: State, events: seq<Event>): State
    decreases |events|
  {
    if events == [] then s else Run(glob, Step(glob, s, events[0]), events[1..])
  }

  /** All rows removed by cleanup passes. */
  function Swept(sweeps: seq<Sweep>): seq<Row> {
    if sweeps == [] then [] else sweeps[0].removed + Swept(sweeps[1..])
  }

  /** The sum of the counts the passes return. */
  function TotalCount(sweeps: seq<Sweep>): nat {
    if sweeps == [] then 0 else sweeps[0].count + TotalCount(sweeps[1..])
  }

  /** The rows promoted after the scan of w. */
  function Arrivals(s: State, w: Sweep): seq<Row>
    requires w.start <= |s.promoted|
  {
    s.promoted[w.start..]
  }

  ghost predicate WellFormed(glob: Glob, s: State, w: Sweep) {
    && w.next <= |w.listed| && w.start <= |s.promoted| && w.count == |w.removed|
    && UniqueIds(w.scanned) && w.listed == Filter(Removed(glob, w.pass), w.scanned)
  }

  /** What a pass removes, or may still remove, it listed or it was re-inserted under a pending ID. */
  ghost predicate TakesOnly(s: State, w: Sweep)
    requires w.next <= |w.listed|
  {
    && (forall row :: row in w.removed ==> row in w.listed || row in w.reinserted)
    && (forall row :: row in s.rows && w.Pending(row.requestId) ==> row in w.listed || row in w.reinserted)
  }

  /** Of the IDs a pass has deleted, only newer rows are present. */
  ghost predicate HasTaken(s: State, w: Sweep)
    requires w.next <= |w.listed| && w.start <= |s.promoted|
  {
    forall row :: row in s.rows && w.Passed(row.requestId) ==> row in Arrivals(s, w)
  }

  /** The re-inserted rows are arrivals under a listed ID, among them all whose ID is pending. */
  ghost predicate KnowsReinserted(s: State, w: Sweep)
    requires w.next <= |w.listed| && w.start <= |s.promoted|
  {
    && (forall row :: row in w.reinserted ==> row in Arrivals(s, w) && row.requestId in IdsOf(w.listed))
    && (forall row :: row in Arrivals(s, w) && w.Pending(row.requestId) ==> row in w.reinserted)
  }

  /** What is known of a pass at every moment. */
  ghost predicate GoodSweep(glob: Glob, s: State, w: Sweep) {
    WellFormed(glob, s, w) && TakesOnly(s, w) && HasTaken(s, w) && KnowsReinserted(s, w)
  }

  ghost predicate GoodSweeps(glob: Glob, s: State, sweeps: seq<Sweep>) {
    forall k :: 0 <= k < |sweeps| ==> GoodSweep(glob, s, sweeps[k])
  }

  /** IDs are unique, one callback per promoted row, and each promoted row is present, or was removed
      once: by a delete or by a pass. */
  ghost predicate Balanced(s: State) {
    && UniqueIds(s.rows)
    && |s.fired| == |s.promoted|
    && (forall i :: 0 <= i < |s.fired| ==> s.fired[i].requestId == s.promoted[i].requestId)
    && multiset(s.promoted) == multiset(s.rows) + multiset(s.deleted) + multiset(Swept(s.sweeps))
  }

  /** The invariant of all runs. */
  ghost predicate Good(glob: Glob, s: State) {
    Balanced(s) && GoodSweeps(glob, s, s.sweeps)
  }

  // ----- one step -----

  lemma {:induction false} SweptSnoc(sweeps: seq<Sweep>, w: Sweep)
    ensures Swept(sweeps + [w]) == Swept(sweeps) + w.removed
    ensures TotalCount(sweeps + [w]) == TotalCount(sweeps) + w.count
  {
    if sweeps == [] {
      assert (sweeps + [w])[1..] == [];
    } else {
      assert (sweeps + [w])[1..] == sweeps[1..] + [w];
      SweptSnoc(sweeps[1..], w);
    }
  }

  lemma {:induction false} SweptUpdate(sweeps: seq<Sweep>, k: nat, w: Sweep, gone: seq<Row>)
    requires k < |sweeps| && w.removed == sweeps[k].removed + gone
    ensures multiset(Swept(sweeps[k := w])) == multiset(Swept(sweeps)) + multiset(gone)
  {
    if k == 0 {
      assert sweeps[k := w][1..] == sweeps[1..];
    } else {
      assert sweeps[k := w][1..] == sweeps[1..][k - 1 := w];
      SweptUpdate(sweeps[1..], k - 1, w, gone);
    }
  }

  lemma {:induction false} SweptSame(a: seq<Sweep>, b: seq<Sweep>)
    requires |a| == |b| && forall k :: 0 <= k < |a| ==> a[k].removed == b[k].removed
    ensures Swept(a) == Swept(b)
  {
    if a != [] {
      SweptSame(a[1..], b[1..]);
    }
  }

  /** A pass is not disturbed by rows disappearing. */
  lemma SweepsSurviveLoss(glob: Glob, s: State, s': State)
    requires GoodSweeps(glob, s, s.sweeps)
    requires s.promoted == s'.promoted && forall row :: row in s'.rows ==> row in s.rows
    ensures GoodSweeps(glob, s', s.sweeps)
  {
    forall k | 0 <= k < |s.sweeps|
      ensures GoodSweep(glob, s', s.sweeps[k])
    {
      assert GoodSweep(glob, s, s.sweeps[k]);
    }
  }

  /** Nor by a new row, once it is noted. */
  lemma SweepNotesArrival(glob: Glob, s: State, s': State, w: Sweep, row: Row)
    requires GoodSweep(glob, s, w)
    requires s'.rows == s.rows + [row] && s'.promoted == s.promoted + [row]
    ensures GoodSweep(glob, s', w.Noting(row))
  {
    var w' := w.Noting(row);
    assert Arrivals(s', w') == Arrivals(s, w) + [row];
    assert KnowsReinserted(s', w') by {
      SliceIds(w.listed, w.next);
    }
    assert TakesOnly(s', w') && HasTaken(s', w');
  }

  lemma SliceIds(listed: seq<Row>, n: nat)
    requires n <= |listed|
    ensures IdsOf(listed) == IdsOf(listed[..n]) + IdsOf(listed[n..])
  {
  }

  lemma SweepsNoteArrival(glob: Glob, s: State, s': State, row: Row)
    requires GoodSweeps(glob, s, s.sweeps)
    requires s'.rows == s.rows + [row] && s'.promoted == s.promoted + [row]
    ensures GoodSweeps(glob, s', Noting(s.sweeps, row))
  {
    forall k | 0 <= k < |s.sweeps|
      ensures GoodSweep(glob, s', s.sweeps[k].Noting(row))
    {
      assert GoodSweep(glob, s, s.sweeps[k]);
      SweepNotesArrival(glob, s, s', s.sweeps[k], row);
    }
  }

  lemma PromoteKeepsBalanced(glob: Glob, s: State, t: Trace, at: Time)
    requires Balanced(s)
    ensures Balanced(Step(glob, s, Promote(t, at)))
  {
    if !HasId(s.rows, t.requestId) {
      var row := EncodeRow(t, at);
      InsertKeepsUnique(s.rows, row);
      SweptSame(s.sweeps, Noting(s.sweeps, row));
    }
  }

  lemma PromoteKeepsGood(glob: Glob, s: State, t: Trace, at: Time)
    requires Good(glob, s)
    ensures Good(glob, Step(glob, s, Promote(t, at)))
  {
    PromoteKeepsBalanced(glob, s, t, at);
    if !HasId(s.rows, t.requestId) {
      SweepsNoteArrival(glob, s, Step(glob, s, Promote(t, at)), EncodeRow(t, at));
    }
  }

  lemma DeleteKeepsGood(glob: Glob, s: State, id: string)
    requires Good(glob, s)
    ensures Good(glob, Step(glob, s, Delete(id)))
  {
    var s' := Step(glob, s, Delete(id));
    RemoveIdEffect(s.rows, id);
    FilterMembers(WithoutId(id), s.rows);
    SweepsSurviveLoss(glob, s, s');
  }

  lemma BeginKeepsGood(glob: Glob, s: State, p: Pass)
    requires Good(glob, s)
    ensures Good(glob, Step(glob, s, Begin(p)))
  {
    if p.rules == [] {
      SweepAtOnceKeepsGood(glob, s, p);
    } else if ScanResult(glob, p, s.rows).Ok? {
      ScanListsTheRemoved(glob, p, s.rows);
      ScanKeepsGood(glob, s, p);
    }
  }

  lemma ScanKeepsGood(glob: Glob, s: State, p: Pass)
    requires Good(glob, s)
    ensures Good(glob, s.(sweeps := s.sweeps + [Scanned(p, s, Filter(Removed(glob, p), s.rows))]))
  {
    var w := Scanned(p, s, Filter(Removed(glob, p), s.rows));
    NewSweepBalances(s, s.rows, w);
    ScanIsGood(glob, s, p);
    SweepAdded(glob, s, s.(sweeps := s.sweeps + [w]), w);
  }

  lemma SweepAtOnceKeepsGood(glob: Glob, s: State, p: Pass)
    requires Good(glob, s)
    ensures var gone := Filter(Removed(glob, p), s.rows);
            Good(glob, s.(rows := Filter(Survives(glob, p), s.rows), sweeps := s.sweeps + [AtOnce(p, s, gone)]))
  {
    var w := AtOnce(p, s, Filter(Removed(glob, p), s.rows));
    var rows := Filter(Survives(glob, p), s.rows);
    FilterKeepsUnique(Survives(glob, p), s.rows);
    FilterSplits(Removed(glob, p), Survives(glob, p), s.rows);
    FilterMembers(Survives(glob, p), s.rows);
    NewSweepBalances(s, rows, w);
    SweepAtOnceIsGood(glob, s, p);
    SweepAdded(glob, s, s.(rows := rows, sweeps := s.sweeps + [w]), w);
  }

  lemma NewSweepBalances(s: State, rows: seq<Row>, w: Sweep)
    requires Balanced(s) && UniqueIds(rows)
    requires multiset(s.rows) == multiset(rows) + multiset(w.removed)
    ensures Balanced(s.(rows := rows, sweeps := s.sweeps + [w]))
  {
    SweptSnoc(s.sweeps, w);
  }

  lemma SweepAdded(glob: Glob, s: State, s': State, w: Sweep)
    requires GoodSweeps(glob, s, s.sweeps) && GoodSweep(glob, s', w)
    requires s.promoted == s'.promoted && forall row :: row in s'.rows ==> row in s.rows
    ensures GoodSweeps(glob, s', s.sweeps + [w])
  {
    SweepsSurviveLoss(glob, s, s');
  }

  lemma ScanIsGood(glob: Glob, s: State, p: Pass)
    requires UniqueIds(s.rows)
    ensures var w := Scanned(p, s, Filter(Removed(glob, p), s.rows));
            GoodSweep(glob, s.(sweeps := s.sweeps + [w]), w)
  {
    var w := Scanned(p, s, Filter(Removed(glob, p), s.rows));
    var s' := s.(sweeps := s.sweeps + [w]);
    assert TakesOnly(s', w) by {
      assert w.listed[0..] == w.listed;
      forall row | row in s.rows && w.Pending(row.requestId)
        ensures row in w.listed
      {
        ListedIdIsListed(glob, s, p, row);
      }
    }
    assert w.listed[..0] == [] && Arrivals(s', w) == [];
  }

  lemma SweepAtOnceIsGood(glob: Glob, s: State, p: Pass)
    requires UniqueIds(s.rows)
    ensures var w := AtOnce(p, s, Filter(Removed(glob, p), s.rows));
            GoodSweep(glob, s.(rows := Filter(Survives(glob, p), s.rows), sweeps := s.sweeps + [w]), w)
  {
    var w := AtOnce(p, s, Filter(Removed(glob, p), s.rows));
    assert w.listed[..w.next] == w.listed;
    forall row | row in Filter(Survives(glob, p), s.rows)
      ensures !w.Passed(row.requestId)
    {
      FilterMember(Survives(glob, p), s.rows, row);
      FilterMember(Removed(glob, p), s.rows, row);
      if w.Passed(row.requestId) {
        ListedIdIsListed(glob, s, p, row);
      }
    }
  }

  lemma ListedIdIsListed(glob: Glob, s: State, p: Pass, row: Row)
    requires UniqueIds(s.rows) && row in s.rows
    requires row.requestId in IdsOf(Filter(Removed(glob, p), s.rows))
    ensures row in Filter(Removed(glob, p), s.rows)
  {
    var listed := Filter(Removed(glob, p), s.rows);
    var i :| 0 <= i < |listed| && listed[i].requestId == row.requestId;
    assert listed[i] in listed;
    FilterMember(Removed(glob, p), s.rows, listed[i]);
    SameIdSameRow(s.rows, row, listed[i]);
  }

  lemma ListedIds(listed: seq<Row>)
    ensures forall row :: row in listed ==> row.requestId in IdsOf(listed)
  {
    forall row | row in listed
      ensures row.requestId in IdsOf(listed)
    {
      var i :| 0 <= i < |listed| && listed[i] == row;
      assert IdsOf(listed)[i] == row.requestId;
    }
  }

  lemma DeleteNextKeepsGood(glob: Glob, s: State, k: nat)
    requires Good(glob, s)
    ensures Good(glob, Step(glob, s, DeleteNext(k)))
  {
    if k < |s.sweeps| && s.sweeps[k].next < |s.sweeps[k].listed| {
      var s' := Step(glob, s, DeleteNext(k));
      assert Balanced(s') by {
        DeleteNextBalances(glob, s, k);
      }
      assert GoodSweeps(glob, s', s'.sweeps) by {
        DeleteNextKeepsSweeps(glob, s, s', k);
      }
    }
  }

  lemma DeleteNextBalances(glob: Glob, s: State, k: nat)
    requires Balanced(s) && k < |s.sweeps| && s.sweeps[k].next < |s.sweeps[k].listed|
    ensures Balanced(Step(glob, s, DeleteNext(k)))
  {
    var w := s.sweeps[k];
    var id := w.listed[w.next].requestId;
    RemoveIdEffect(s.rows, id);
    SweptUpdate(s.sweeps, k, w.Taking(RemovedBy(s.rows, id)), RemovedBy(s.rows, id));
  }

  lemma DeleteNextKeepsSweeps(glob: Glob, s: State, s': State, k: nat)
    requires GoodSweeps(glob, s, s.sweeps) && k < |s.sweeps| && s.sweeps[k].next < |s.sweeps[k].listed|
    requires s' == Step(glob, s, DeleteNext(k))
    ensures GoodSweeps(glob, s', s'.sweeps)
  {
    var w := s.sweeps[k];
    FilterMembers(WithoutId(w.listed[w.next].requestId), s.rows);
    SweepsSurviveLoss(glob, s, s');
    assert GoodSweep(glob, s, w);
    SweepAdvances(glob, s, s', w);
  }

  lemma SweepAdvances(glob: Glob, s: State, s': State, w: Sweep)
    requires GoodSweep(glob, s, w) && w.next < |w.listed|
    requires s'.rows == RemoveId(s.rows, w.listed[w.next].requestId) && s'.promoted == s.promoted
    ensures GoodSweep(glob, s', w.Taking(RemovedBy(s.rows, w.listed[w.next].requestId)))
  {
    FilterMembers(WithoutId(w.listed[w.next].requestId), s.rows);
    AdvancingTakesOnly(s, s', w);
    AdvancingHasTaken(s, s', w);
    assert KnowsReinserted(s', w.Taking(RemovedBy(s.rows, w.listed[w.next].requestId))) by {
      IdsAdvance(w.listed, w.next);
    }
  }

  lemma AdvancingHasTaken(s: State, s': State, w: Sweep)
    requires w.next < |w.listed| && w.start <= |s.promoted| && HasTaken(s, w) && s'.promoted == s.promoted
    requires forall row :: row in s'.rows ==> row in s.rows && row.requestId != w.listed[w.next].requestId
    ensures HasTaken(s', w.Taking(RemovedBy(s.rows, w.listed[w.next].requestId)))
  {
    IdsAdvance(w.listed, w.next);
  }

  lemma AdvancingTakesOnly(s: State, s': State, w: Sweep)
    requires w.next < |w.listed| && TakesOnly(s, w)
    requires forall row :: row in s'.rows ==> row in s.rows
    ensures TakesOnly(s', w.Taking(RemovedBy(s.rows, w.listed[w.next].requestId)))
  {
    IdsAdvance(w.listed, w.next);
    FilterMembers(WithId(w.listed[w.next].requestId), s.rows);
  }

  lemma IdsAdvance(listed: seq<Row>, n: nat)
    requires n < |listed|
    ensures listed[n].requestId in IdsOf(listed[n..])
    ensures forall id :: id in IdsOf(listed[n + 1..]) ==> id in IdsOf(listed[n..])
    ensures forall id :: id in IdsOf(listed[..n + 1]) ==> id in IdsOf(listed[..n]) || id == listed[n].requestId
  {
    assert IdsOf(listed[n..]) == [listed[n].requestId] + IdsOf(listed[n + 1..]);
    assert IdsOf(listed[..n + 1]) == IdsOf(listed[..n]) + [listed[n].requestId];
  }

  lemma StepKeepsGood(glob: Glob, s: State, e: Event)
    requires Good(glob, s)
    ensures Good(glob, Step(glob, s, e))
  {
    match e
    case Promote(t, at) => PromoteKeepsGood(glob, s, t, at);
    case Delete(id) => DeleteKeepsGood(glob, s, id);
    case Begin(p) => BeginKeepsGood(glob, s, p);
    case DeleteNext(k) => DeleteNextKeepsGood(glob, s, k);
  }

  lemma {:induction false} RunKeepsGood(glob: Glob, s: State, events: seq<Event>)
    requires Good(glob, s)
    ensures Good(glob, Run(glob, s, events))
    decreases |events|
  {
    if events != [] {
      StepKeepsGood(glob, s, events[0]);
      RunKeepsGood(glob, Step(glob, s, events[0]), events[1..]);
    }
  }

  // ----- what holds of every run -----

  lemma {:induction false} CountsAddUp(sweeps: seq<Sweep>)
    requires forall k :: 0 <= k < |sweeps| ==> sweeps[k].count == |sweeps[k].removed|
    ensures TotalCount(sweeps) == |Swept(sweeps)|
  {
    if sweeps != [] {
      CountsAddUp(sweeps[1..]);
    }
  }

  /** Conservation over every run, however the passes interleave: callbacks fired = rows present +
      rows removed by deletes + the sum of the counts returned by cleanup; and no row is lost or
      doubled on the way. */
  lemma Conservation(glob: Glob, events: seq<Event>)
    ensures var s := Run(glob, INIT, events);
            && UniqueIds(s.rows)
            && multiset(s.promoted) == multiset(s.rows) + multiset(s.deleted) + multiset(Swept(s.sweeps))
            && |s.fired| == |s.rows| + |s.deleted| + TotalCount(s.sweeps)
  {
    var s := Run(glob, INIT, events);
    RunKeepsGood(glob, INIT, events);
    CountsAddUp(s.sweeps);
    assert |multiset(s.promoted)| == |multiset(s.rows)| + |multiset(s.deleted)| + |multiset(Swept(s.sweeps))|;
  }

  /** A duplicate promote changes nothing and fires nothing. */
  lemma DuplicatePromoteIsIgnored(glob: Glob, s: State, t: Trace, at: Time)
    ensures HasId(s.rows, t.requestId) <==> Step(glob, s, Promote(t, at)) == s
    ensures !HasId(s.rows, t.requestId) ==> Step(glob, s, Promote(t, at)).rows == s.rows + [EncodeRow(t, at)]
  {
  }

  /** Interleaved cleanup is safe. In every run, each row a pass removes was listed by its scan, or was
      promoted after it under an ID the pass had yet to delete. Without such a re-insertion every
      removed row was expired at the pass's second clock read, and no row promoted after the scan has
      an ID that the pass will still delete. The returned count is always the number of rows removed. */
  lemma InterleavedCleanupIsSafe(glob: Glob, events: seq<Event>, k: nat)
    requires k < |Run(glob, INIT, events).sweeps|
    ensures var s := Run(glob, INIT, events);
            var w := s.sweeps[k];
            && w.next <= |w.listed| && w.start <= |s.promoted| && w.count == |w.removed|
            && (forall row :: row in w.removed ==> row in w.listed || row in w.reinserted)
            && (forall row :: row in w.reinserted ==> row in Arrivals(s, w) && row.requestId in IdsOf(w.listed))
            && (w.reinserted == [] ==>
                  && (forall row :: row in w.removed ==> row in w.scanned && Removes(glob, w.pass, row))
                  && (forall row :: row in Arrivals(s, w) ==> !w.Pending(row.requestId))
                  && (InRange(w.pass.rules) && w.pass.t1 <= w.pass.t2 ==>
                        forall row :: row in w.removed && RowFields(row).Ok? ==> Expired(glob, w.pass, row, w.pass.t2)))
  {
    RunKeepsGood(glob, INIT, events);
    var w := Run(glob, INIT, events).sweeps[k];
    assert GoodSweep(glob, Run(glob, INIT, events), w);
    FilterMembers(Removed(glob, w.pass), w.scanned);
    if InRange(w.pass.rules) && w.pass.t1 <= w.pass.t2 {
      forall row | RowFields(row).Ok? && Removes(glob, w.pass, row)
        ensures Expired(glob, w.pass, row, w.pass.t2)
      {
        RemovesOnlyExpired(glob, w.pass, row);
      }
    }
  }

  /** So the deletes of a pass spare the arrivals, in every run without re-insertion. */
  lemma DeletesSpareArrivals(glob: Glob, events: seq<Event>, k: nat, row: Row)
    requires var s := Run(glob, INIT, events);
             k < |s.sweeps| && s.sweeps[k].reinserted == [] && s.sweeps[k].start <= |s.promoted|
             && row in s.rows && row in Arrivals(s, s.sweeps[k])
    ensures row in Step(glob, Run(glob, INIT, events), DeleteNext(k)).rows
  {
    InterleavedCleanupIsSafe(glob, events, k);
    var s := Run(glob, INIT, events);
    var w := s.sweeps[k];
    if w.next < |w.listed| {
      assert IdsOf(w.listed[w.next..])[0] == w.listed[w.next].requestId;
      FilterMember(WithoutId(w.listed[w.next].requestId), s.rows, row);
    }
  }

  /** Interleaved cleanup is complete. In every run, a finished pass has left none of the rows that its
      scan saw and that met its test, unless the row was promoted again; so with int64-safe settings
      none that was expired at its first clock read, when every rule keeps traces for at least an hour
      or the row does not expire before the default TTL. */
  lemma InterleavedCleanupIsComplete(glob: Glob, events: seq<Event>, k: nat, row: Row)
    requires k < |Run(glob, INIT, events).sweeps|
    requires var w := Run(glob, INIT, events).sweeps[k];
             w.next == |w.listed| && row in w.scanned && RowFields(row).Ok? && w.pass.t1 <= w.pass.t2
    ensures var s := Run(glob, INIT, events);
            var w := s.sweeps[k];
            && w.start <= |s.promoted|
            && (Removes(glob, w.pass, row) ==> row !in s.rows || row in Arrivals(s, w))
            && (MeetsDeadlines(glob, w.pass, row) && Expired(glob, w.pass, row, w.pass.t1) ==>
                  row !in s.rows || row in Arrivals(s, w))
  {
    RunKeepsGood(glob, INIT, events);
    var s := Run(glob, INIT, events);
    var w := s.sweeps[k];
    assert GoodSweep(glob, s, w);
    FilterMember(Removed(glob, w.pass), w.scanned, row);
    ListedIds(w.listed);
    assert w.listed[..w.next] == w.listed;
    if MeetsDeadlines(glob, w.pass, row) && Expired(glob, w.pass, row, w.pass.t1) {
      ExpiredIsRemoved(glob, w.pass, row);
    }
  }

  /** Settings under which a pass without interference takes the row as soon as it has expired. */
  predicate MeetsDeadlines(glob: Glob, p: Pass, row: Row)
    requires RowFields(row).Ok?
  {
    && InRange(p.rules) && MIN_INT64 < p.defaultTtl < MAX_INT64
    && (p.rules == [] || MinHours(p.rules) >= 1 || p.defaultTtl <= PromisedTtl(glob, p, RowFields(row).value))
  }

  lemma ExpiredIsRemoved(glob: Glob, p: Pass, row: Row)
    requires RowFields(row).Ok? && MeetsDeadlines(glob, p, row) && p.t1 <= p.t2 && Expired(glob, p, row, p.t1)
    ensures Removes(glob, p, row)
  {
    if p.rules == [] {
      NoRulesIsExactIff(glob, p, row);
    } else {
      InTimeIffTtlsPositive(glob, p, row);
      assert p.(t1 := p.t1, t2 := p.t2) == p;
    }
  }

  // ----- exactly which rows the rest of a pass removes -----

  function Rest(k: nat, n: nat): seq<Event> {
    seq(n, _ => DeleteNext(k))
  }

  /** Letting a pass finish removes exactly the rows whose ID is still on its list. So a row promoted
      after the scan is removed if and only if it took one of those IDs. */
  lemma {:induction false} FinishingRemovesTheListed(glob: Glob, s: State, k: nat, row: Row)
    requires k < |s.sweeps| && s.sweeps[k].next <= |s.sweeps[k].listed|
    ensures var w := s.sweeps[k];
            var s' := Run(glob, s, Rest(k, |w.listed| - w.next));
            row in s'.rows <==> row in s.rows && row.requestId !in IdsOf(w.listed[w.next..])
    decreases |s.sweeps[k].listed| - s.sweeps[k].next
  {
    var w := s.sweeps[k];
    var n := |w.listed| - w.next;
    if n > 0 {
      var events := Rest(k, n);
      assert events[1..] == Rest(k, n - 1);
      var s1 := Step(glob, s, events[0]);
      var id := w.listed[w.next].requestId;
      FinishingRemovesTheListed(glob, s1, k, row);
      FilterMember(WithoutId(id), s.rows, row);
      assert IdsOf(w.listed[w.next..]) == [id] + IdsOf(w.listed[w.next + 1..]);
    }
  }

  /** A pass that begins and finishes undisturbed leaves the rows that do not meet its test. */
  lemma UndisturbedPassLeavesSurvivors(glob: Glob, s: State, p: Pass, row: Row)
    requires UniqueIds(s.rows) && p.rules != [] && ScanResult(glob, p, s.rows).Ok?
    ensures var s1 := Step(glob, s, Begin(p));
            var s2 := Run(glob, s1, Rest(|s.sweeps|, |ScanResult(glob, p, s.rows).value|));
            row in s2.rows <==> row in s.rows && !Removes(glob, p, row)
  {
    var s1 := Step(glob, s, Begin(p));
    var listed := ScanResult(glob, p, s.rows).value;
    var w := Scanned(p, s, listed);
    assert s1 == s.(sweeps := s.sweeps + [w]) && listed[0..] == listed;
    FinishingRemovesTheListed(glob, s1, |s.sweeps|, row);
    ScanListsTheRemoved(glob, p, s.rows);
    RemovingListedLeavesSurvivors(glob, p, s.rows);
    FilterMember(Survives(glob, p), s.rows, row);
    FilterMember(NotAmong(IdsOf(listed)), s.rows, row);
  }

  /** Re-insertion is a real hazard: whenever a pass lists a trace, deleting and promoting it again
      before the pass reaches it costs the fresh copy. */
  lemma ReinsertedTraceIsLost(glob: Glob, t: Trace, before: Time, later: Time, p: Pass)
    requires p.rules != [] && Removes(glob, p, EncodeRow(t, before))
    ensures Run(glob, INIT, [Promote(t, before), Begin(p), Delete(t.requestId), Promote(t, later), DeleteNext(0)]).rows == []
  {
    var row, again := EncodeRow(t, before), EncodeRow(t, later);
    var s1 := State([row], [row], [CallbackSummary(t, before)], [], []);
    assert Step(glob, INIT, Promote(t, before)) == s1;
    ScanListsLoneRow(glob, p, row);
    var w := Scanned(p, s1, [row]);
    var s2 := s1.(sweeps := [w]);
    assert Step(glob, s1, Begin(p)) == s2;
    FilterNone(WithoutId(t.requestId), [row]);
    var s3 := Step(glob, s2, Delete(t.requestId));
    assert s3.rows == [] && s3.sweeps == [w];
    var s4 := Step(glob, s3, Promote(t, later));
    assert s4.rows == [again] && s4.sweeps[0].listed == [row] && s4.sweeps[0].next == 0;
    FilterNone(WithoutId(t.requestId), [again]);
    assert Step(glob, s4, DeleteNext(0)).rows == [];
    var tail3 := [DeleteNext(0)] + [];
    var tail2 := [Promote(t, later)] + tail3;
    var tail1 := [Delete(t.requestId)] + tail2;
    assert [Promote(t, before), Begin(p), Delete(t.requestId), Promote(t, later), DeleteNext(0)]
        == [Promote(t, before)] + ([Begin(p)] + tail1);
    RunOne(glob, INIT, Promote(t, before), [Begin(p)] + tail1);
    RunOne(glob, s1, Begin(p), tail1);
    RunOne(glob, s2, Delete(t.requestId), tail2);
    RunOne(glob, s3, Promote(t, later), tail3);
    RunOne(glob, s4, DeleteNext(0), []);
  }

  lemma RunOne(glob: Glob, s: State, e: Event, rest: seq<Event>)
    ensures Run(glob, s, [e] + rest) == Run(glob, Step(glob, s, e), rest)
  {
  }

  lemma ScanListsLoneRow(glob: Glob, p: Pass, row: Row)
    requires p.rules != [] && Removes(glob, p, row)
    ensures ScanResult(glob, p, [row]) == Ok([row])
  {
    assert FirstFault([row]) == None by {
      assert FirstFault([row][1..]) == None;
    }
    FilterAll(OlderThan(p.t1 + Negated(PrefilterTtl(p.rules, p.defaultTtl))), [row]);
    FilterAll(Doomed(glob, p), [row]);
  }
}
