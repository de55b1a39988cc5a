/**
 The journal of a staged validation run: start and result records that are linked into place once and never replaced.
 */
module StageJournal {
  import opened Bytes

  const STAGES: nat := 13
  /** The number under which the cleanup record is filed. */
  const CLEANUP: nat := 99

  datatype Status = Pass | Unverified | Contradiction
  datatype Record = Record(status: Status, content: string)

  /**
   The files of a run: stages with a start record, results, the failure marker, the boot token, and whether some
   record no longer reads as it was written, so that its digest or its stage does not match.
   */
  datatype Files = Files(started: set<nat>, results: map<nat, Record>, failure: bool, booted: bool, damaged: bool)

  /** Linking a file into place: done, not done, or done without the caller seeing it. */
  datatype Save = Saved | Lost | Unseen

  predicate Stage(i: nat) {
    i < STAGES
  }

  predicate Failed(f: Files, i: nat) {
    Stage(i) && i in f.results && !f.results[i].status.Pass?
  }

  predicate Interrupted(f: Files, i: nat) {
    Stage(i) && i in f.started && i !in f.results
  }

  predicate Closed(f: Files) {
    CLEANUP in f.results || f.failure
  }

  predicate StartAllowed(f: Files, i: nat) {
    && !Closed(f) && !f.damaged && (forall k: nat :: k < STAGES ==> !Failed(f, k) && !Interrupted(f, k))
    && (i > 0 ==> i - 1 in f.results) && i !in f.started
  }

  function Started(f: Files, i: nat, save: Save): Files {
    if Stage(i) && StartAllowed(f, i) && !save.Lost? then f.(started := f.started + {i}) else f
  }

  predicate FinishAllowed(f: Files, i: nat) {
    (Stage(i) || i == CLEANUP) && (i != CLEANUP ==> i in f.started) && i !in f.results
  }

  function Finished(f: Files, i: nat, r: Record, save: Save): Files {
    if FinishAllowed(f, i) && !save.Lost? then f.(results := f.results[i := r]) else f
  }

  class Journal {
    var files: Files

    constructor ()
      ensures files == Files({}, map[], false, false, false)
    {
      files := Files({}, map[], false, false, false);
    }

    /**
     The last stage that passed, the first that failed and the first left without a result; nothing when a record is
     damaged.
     */
    method State() returns (ok: bool, last: Option<nat>, failed: Option<nat>, interrupted: Option<nat>)
      ensures ok <==> !files.damaged
      ensures last.Some? ==> Stage(last.value) && last.value in files.results && files.results[last.value].status.Pass?
      ensures forall k: nat :: ok && Stage(k) && k in files.results && files.results[k].status.Pass? ==>
                last.Some? && k <= last.value
      ensures failed.Some? ==> Failed(files, failed.value)
      ensures forall k: nat :: ok && Failed(files, k) ==> failed.Some? && failed.value <= k
      ensures interrupted.Some? ==> Interrupted(files, interrupted.value)
      ensures forall k: nat :: ok && Interrupted(files, k) ==> interrupted.Some? && interrupted.value <= k
    {
      ok, last, failed, interrupted := !files.damaged, None, None, None;
      if !ok {
        return;
      }
      var i: nat := 0;
      while i < STAGES
        invariant i <= STAGES
        invariant last.Some? ==> last.value < i && last.value in files.results && files.results[last.value].status.Pass?
        invariant forall k: nat :: k < i && k in files.results && files.results[k].status.Pass? ==>
                    last.Some? && k <= last.value
        invariant failed.Some? ==> failed.value < i && Failed(files, failed.value)
        invariant forall k: nat :: k < i && Failed(files, k) ==> failed.Some? && failed.value <= k
        invariant interrupted.Some? ==> interrupted.value < i && Interrupted(files, interrupted.value)
        invariant forall k: nat :: k < i && Interrupted(files, k) ==> interrupted.Some? && interrupted.value <= k
      {
        if i in files.results {
          if files.results[i].status == Pass {
            last := Some(i);
          } else if failed.None? {
            failed := Some(i);
          }
        } else if i in files.started && interrupted.None? {
          interrupted := Some(i);
        }
        i := i + 1;
      }
    }

    /** Starting the cleanup does nothing, and an unknown stage is refused. */
    method Start(i: nat, save: Save) returns (ok: bool)
      modifies this
      ensures files == Started(old(files), i, save)
      ensures ok <==> i == CLEANUP || (Stage(i) && StartAllowed(old(files), i) && save.Saved?)
    {
      if i == CLEANUP {
        return true;
      }
      if i >= STAGES {
        return false;
      }
      if CLEANUP in files.results || files.failure {
        return false;
      }
      var readable, last, failed, interrupted := State();
      if !readable || failed.Some? || interrupted.Some? {
        return false;
      }
      if i != 0 && i - 1 !in files.results {
        return false;
      }
      if i in files.started {
        return false;
      }
      if !save.Lost? {
        files := files.(started := files.started + {i});
      }
      return save.Saved?;
    }

    method Finish(i: nat, r: Record, save: Save) returns (ok: bool)
      modifies this
      ensures files == Finished(old(files), i, r, save)
      ensures ok <==> FinishAllowed(old(files), i) && save.Saved?
    {
      if i >= STAGES && i != CLEANUP {
        return false;
      }
      if i != CLEANUP && i !in files.started {
        return false;
      }
      if i in files.results {
        return false;
      }
      if !save.Lost? {
        files := files.(results := files.results[i := r]);
      }
      return save.Saved?;
    }

    /** Takes the only boot. */
    method ReserveBoot(save: Save) returns (ok: bool)
      modifies this
      ensures files == Reserved(old(files), save)
      ensures ok <==> !old(files).booted && save.Saved?
    {
      if files.booted {
        return false;
      }
      if !save.Lost? {
        files := files.(booted := true);
      }
      return save.Saved?;
    }
  }

  function Reserved(f: Files, save: Save): Files {
    if save.Lost? then f else f.(booted := true)
  }

  // ----- runs

  datatype Event =
    | Start(i: nat, save: Save)
    | Finish(i: nat, r: Record, save: Save)
    | Fail(save: Save)
    | Boot(save: Save)
    | Damage

  function Step(f: Files, e: Event): Files {
    match e
    case Start(i, save) => Started(f, i, save)
    case Finish(i, r, save) => Finished(f, i, r, save)
    case Fail(save) => if save.Lost? then f else f.(failure := true)
    case Boot(save) => Reserved(f, save)
    case Damage => f.(damaged := true)
  }

  function Run(f: Files, events: seq<Event>): Files
    decreases |events|
  {
    if events == [] then f else Run(Step(f, events[0]), events[1..])
  }

  const EMPTY: Files := Files({}, map[], false, false, false)

  /** The first n stages have started, and all of them but the last have passed. */
  ghost predicate Upto(f: Files, n: nat) {
    && n <= STAGES && (forall i: nat :: i in f.started <==> i < n)
    && (forall i :: i in f.results ==> i in f.started || i == CLEANUP)
    && forall i: nat :: i + 1 < n ==> i in f.results && f.results[i].status.Pass?
  }

  ghost predicate InOrder(f: Files) {
    exists n: nat :: Upto(f, n)
  }

  /** Start records and results stay, and markers stay. */
  predicate Extends(f: Files, g: Files) {
    && f.started <= g.started && (forall i :: i in f.results ==> i in g.results && g.results[i] == f.results[i])
    && (f.failure ==> g.failure) && (f.booted ==> g.booted) && (f.damaged ==> g.damaged)
  }

  lemma NextOnly(f: Files, n: nat, i: nat)
    requires Upto(f, n) && Stage(i) && StartAllowed(f, i)
    ensures i == n
  {
    assert i < n ==> i in f.started;
    assert i > n ==> i - 1 !in f.started;
  }

  lemma StepKeeps(f: Files, e: Event, n: nat)
    requires Upto(f, n)
    ensures InOrder(Step(f, e)) && Extends(f, Step(f, e))
    ensures Step(f, e).started != f.started ==> Step(f, e).started == f.started + {n}
  {
    var g := Step(f, e);
    if g.started != f.started {
      var i := e.i;
      NextOnly(f, n, i);
      if n > 0 {
        assert !Failed(f, n - 1) && !Interrupted(f, n - 1);
      }
      assert Upto(g, n + 1);
    } else {
      assert Upto(g, n);
    }
  }

  /** A stage starts exactly when it is the next one, every earlier one passed, and the run is not closed. */
  lemma StartsOnlyNext(f: Files, n: nat, i: nat)
    requires Upto(f, n) && Stage(i)
    ensures StartAllowed(f, i) <==>
            i == n && !Closed(f) && !f.damaged && forall k: nat :: k < n ==> k in f.results && f.results[k].status.Pass?
  {
    if StartAllowed(f, i) {
      NextOnly(f, n, i);
      forall k: nat | k < n
        ensures k in f.results && f.results[k].status.Pass?
      {
        assert !Failed(f, k) && !Interrupted(f, k);
      }
    }
  }

  /** Every run keeps the stages in order and every committed record unchanged. */
  lemma {:induction false} RunKeeps(f: Files, events: seq<Event>)
    requires InOrder(f)
    ensures InOrder(Run(f, events)) && Extends(f, Run(f, events))
    decreases |events|
  {
    if events != [] {
      var n: nat :| Upto(f, n);
      StepKeeps(f, events[0], n);
      RunKeeps(Step(f, events[0]), events[1..]);
    }
  }

  /** In every run the started stages are a prefix, and each but the last has passed. */
  lemma StartedArePrefix(events: seq<Event>)
    ensures exists n: nat :: Upto(Run(EMPTY, events), n)
  {
    assert Upto(EMPTY, 0);
    RunKeeps(EMPTY, events);
  }

  /** Once a stage has failed, the run is closed, or a record is damaged, no further stage ever starts. */
  lemma {:induction false} NothingStartsAfter(f: Files, events: seq<Event>)
    requires Closed(f) || f.damaged || exists k: nat :: Failed(f, k)
    ensures Run(f, events).started == f.started
    decreases |events|
  {
    if events != [] {
      var g := Step(f, events[0]);
      assert g.started == f.started;
      if !Closed(f) && !f.damaged {
        var k: nat :| Failed(f, k);
        assert Failed(g, k);
      }
      NothingStartsAfter(g, events[1..]);
    }
  }

  /** While a started stage has no result nothing starts, and if no event finishes it nothing ever does. */
  lemma {:induction false} NothingStartsWhileInterrupted(f: Files, k: nat, events: seq<Event>)
    requires Interrupted(f, k) && forall j :: 0 <= j < |events| && events[j].Finish? ==> events[j].i != k
    ensures Run(f, events).started == f.started
    decreases |events|
  {
    if events != [] {
      var g := Step(f, events[0]);
      assert Interrupted(g, k) && g.started == f.started;
      NothingStartsWhileInterrupted(g, k, events[1..]);
    }
  }

  /** How many boots a run grants. */
  function Boots(f: Files, events: seq<Event>): nat
    decreases |events|
  {
    if events == [] then 0
    else
      (if events[0].Boot? && !f.booted && events[0].save.Saved? then 1 else 0)
      + Boots(Step(f, events[0]), events[1..])
  }

  lemma {:induction false} OneBoot(f: Files, events: seq<Event>)
    ensures Boots(f, events) <= if f.booted then 0 else 1
    decreases |events|
  {
    if events != [] {
      OneBoot(Step(f, events[0]), events[1..]);
    }
  }

  // ----- what single calls achieve

  /** One result is there, and everything else stays. */
  predicate OnlyResult(f: Files, g: Files, i: nat) {
    && g == f.(results := g.results) && g.results.Keys == f.results.Keys + {i}
    && forall k :: k in f.results && k != i ==> g.results[k] == f.results[k]
  }

  /**
   A call that is allowed and written leaves its record: the stage has started, the result is the one given, or the boot
   is taken. A result is refused for a stage that has not started, for a number that is no stage, and the second time.
   */
  lemma WrittenIsRecorded(f: Files, i: nat, r: Record, save: Save)
    requires !save.Lost?
    ensures Stage(i) && StartAllowed(f, i) ==> Step(f, Start(i, save)) == f.(started := f.started + {i})
    ensures (i == CLEANUP || (Stage(i) && i in f.started)) && i !in f.results ==>
              OnlyResult(f, Step(f, Finish(i, r, save)), i) && Step(f, Finish(i, r, save)).results[i] == r
    ensures i in f.results || (i != CLEANUP && (!Stage(i) || i !in f.started)) ==> Step(f, Finish(i, r, save)) == f
    ensures Step(f, Boot(save)) == f.(booted := true) && Step(f, Fail(save)) == f.(failure := true)
  {
  }

  /** After a cleanup that was written nothing starts any more. */
  lemma CleanupCloses(f: Files, r: Record, save: Save, events: seq<Event>)
    requires !save.Lost? && CLEANUP !in f.results
    ensures Run(Step(f, Finish(CLEANUP, r, save)), events).started == f.started
  {
    NothingStartsAfter(Step(f, Finish(CLEANUP, r, save)), events);
  }

  lemma {:induction false} RunTwo(f: Files, a: seq<Event>, b: seq<Event>)
    ensures Run(f, a + b) == Run(Run(f, a), b)
    decreases |a|
  {
    if a == [] {
      assert a + b == b;
    } else {
      assert (a + b)[1..] == a[1..] + b;
      RunTwo(Step(f, a[0]), a[1..], b);
    }
  }

  /** The first n stages, each started and then finished. */
  function PassingRun(n: nat, r: Record): seq<Event> {
    if n == 0 then [] else PassingRun(n - 1, r) + [Start(n - 1, Saved), Finish(n - 1, r, Saved)]
  }

  /** A run in which every stage passes in turn gets through all of them. */
  lemma {:induction false} PassingRunCompletes(n: nat, r: Record)
    requires n <= STAGES && r.status.Pass?
    ensures var f := Run(EMPTY, PassingRun(n, r));
            && (forall i: nat :: i in f.started <==> i < n) && (forall i: nat :: i in f.results <==> i < n)
            && (forall i: nat :: i < n ==> f.results[i] == r) && !f.failure && !f.damaged
  {
    if n > 0 {
      var f, i := Run(EMPTY, PassingRun(n - 1, r)), n - 1;
      PassingRunCompletes(n - 1, r);
      RunTwo(EMPTY, PassingRun(n - 1, r), [Start(i, Saved), Finish(i, r, Saved)]);
      assert StartAllowed(f, i);
      var g := Step(f, Start(i, Saved));
      assert [Start(i, Saved), Finish(i, r, Saved)][1..] == [Finish(i, r, Saved)];
      assert Run(f, [Start(i, Saved), Finish(i, r, Saved)]) == Run(g, [Finish(i, r, Saved)])
          == Run(Step(g, Finish(i, r, Saved)), []);
    }
  }

  /** A boot that was not taken before is granted. */
  lemma FirstBootGranted(f: Files, events: seq<Event>)
    requires !f.booted
    ensures Boots(f, [Boot(Saved)] + events) == 1
  {
    var all := [Boot(Saved)] + events;
    assert all[1..] == events;
    OneBoot(Step(f, Boot(Saved)), events);
  }
}
