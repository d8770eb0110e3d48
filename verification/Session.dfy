/** The store's own methods, called in any interleaving, perform exactly the steps of a run. */
module Session {
  import opened Types
  import opened Sequences
  import opened Rules
  import opened Codec
  import opened Table
  import opened Cleanup
  import S = Store
  import opened Runs

  /** A store with a registered callback, and the local variables of the passes in flight. */
  class Session {
    const store: S.Store
    const glob: Glob
    /** For each pass, the IDs it has still to delete and the rows it has deleted so far. */
    var pending: seq<seq<string>>
    var deleted: seq<nat>
    ghost var state: State

    ghost predicate Valid()
      reads this, store
    {
      && store.Valid() && store.hasCallback
      && store.rows == state.rows && store.fired == state.fired
      && |pending| == |deleted| == |state.sweeps|
      && forall k :: 0 <= k < |pending| ==> Mirrors(pending[k], deleted[k], state.sweeps[k])
    }

    static ghost predicate Mirrors(ids: seq<string>, n: nat, w: Sweep) {
      w.next <= |w.listed| && ids == S.IdsOf(w.listed[w.next..]) && n == w.count
    }

    constructor (glob: Glob)
      ensures Valid() && fresh(store) && state == INIT && this.glob == glob
    {
      var s := new S.Store();
      s.SetOnPromote();
      store, this.glob, pending, deleted, state := s, glob, [], [], INIT;
    }

    method Promote(t: Trace, at: Time) returns (r: Result<(), StoreError>)
      requires Valid()
      modifies store`rows, store`fired, this`state
      ensures Valid() && state == Step(glob, old(state), Event.Promote(t, at))
    {
      r := store.PromoteAt(t, at);
      state := Step(glob, state, Event.Promote(t, at));
    }

    method Delete(id: string)
      requires Valid()
      modifies store`rows, this`state
      ensures Valid() && state == Step(glob, old(state), Event.Delete(id))
    {
      store.DeleteTrace(id);
      state := Step(glob, state, Event.Delete(id));
    }

    /** The scan of a pass, or the whole pass when there are no rules. */
    method Begin(engine: RetentionEngine?, defaultTtl: Duration, t1: Time, t2: Time)
      requires Valid()
      modifies store`rows, this`pending, this`deleted, this`state
      ensures Valid()
      ensures state == Step(glob, old(state), Event.Begin(Pass(if engine == null then [] else engine.rules, defaultTtl, t1, t2)))
    {
      if engine == null || !RetentionEngine.HasRules(engine) {
        SweepByDefault(Pass([], defaultTtl, t1, t2));
      } else {
        BeginScan(engine, defaultTtl, t1, t2);
      }
    }

    method SweepByDefault(p: Pass)
      requires Valid() && p.rules == []
      modifies store`rows, this`pending, this`deleted, this`state
      ensures Valid() && state == Step(glob, old(state), Event.Begin(p))
    {
      var cutoff := p.t1 + Negated(p.defaultTtl);
      ghost var gone := Filter(S.Removed(glob, p), store.rows);
      FilterSplits(S.Removed(glob, p), S.Survives(glob, p), store.rows);
      FilterSame(S.NotOlderThan(cutoff), S.Survives(glob, p), store.rows);
      var n := store.DeleteOlderThan(cutoff);
      assert n == |gone|;
      pending, deleted := pending + [[]], deleted + [n];
      state := Step(glob, state, Event.Begin(p));
      assert state.sweeps[|old(state.sweeps)|] == AtOnce(p, old(state), gone);
      assert gone[|gone|..] == [] && S.IdsOf([]) == [];
    }

    method BeginScan(engine: RetentionEngine, defaultTtl: Duration, t1: Time, t2: Time)
      requires Valid() && RetentionEngine.HasRules(engine)
      modifies this`pending, this`deleted, this`state
      ensures Valid() && state == Step(glob, old(state), Event.Begin(Pass(engine.rules, defaultTtl, t1, t2)))
    {
      ghost var p := Pass(engine.rules, defaultTtl, t1, t2);
      var scan := store.ScanCandidates(glob, engine, defaultTtl, t1, t2);
      ghost var listed := S.ScanResult(glob, p, store.rows);
      state := Step(glob, state, Event.Begin(p));
      if scan.Ok? {
        pending, deleted := pending + [scan.value], deleted + [0];
        assert state.sweeps == old(state.sweeps) + [Scanned(p, old(state), listed.value)];
        assert listed.value[0..] == listed.value;
      }
    }

    /** The next DELETE of pass k. */
    method DeleteNext(k: nat)
      requires Valid()
      modifies store`rows, this`pending, this`deleted, this`state
      ensures Valid() && state == Step(glob, old(state), Event.DeleteNext(k))
    {
      if k < |pending| && pending[k] != [] {
        ghost var w := state.sweeps[k];
        assert w.listed[w.next..][1..] == w.listed[w.next + 1..];
        RemoveIdEffect(store.rows, pending[k][0]);
        var n := store.DeleteById(pending[k][0]);
        pending := pending[k := pending[k][1..]];
        deleted := deleted[k := deleted[k] + n];
      }
      state := Step(glob, state, Event.DeleteNext(k));
    }
  }
}
