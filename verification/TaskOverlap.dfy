/**
 When two instances of one background task run at the same time (app/background.go).
 An update starts an instance that waits for the one it replaces, and for no other.
 So two instances can run together exactly when some update starts a task of which an
 instance is still running that it does not itself replace.
 */
module TaskOverlap {
  import opened Wrappers
  import opened BackgroundTasks

  predicate Runs(s: State, i: nat, k: Key) {
    i < |s.instances| && s.instances[i].key == k && s.instances[i].phase.Running?
  }

  predicate Overlap(s: State, i: nat, j: nat) {
    i < j < |s.instances| && Runs(s, i, s.instances[j].key) && s.instances[j].phase.Running?
  }

  ghost predicate NoOverlap(s: State) {
    forall i: nat, j: nat :: !Overlap(s, i, j)
  }

  /** Whatever could still begin waits for the one instance of its key that runs. */
  ghost predicate Quiet(s: State) {
    && NoOverlap(s)
    && forall i: nat, j: nat | j < |s.instances| && Runs(s, i, s.instances[j].key) && CouldBegin(s, j) ::
         WaitsFor(s, j, i)
  }

  predicate WaitsFor(s: State, j: nat, i: nat) {
    j < |s.instances| && s.instances[j].previous == Some(i)
  }

  predicate CouldBegin(s: State, j: nat)
    requires j < |s.instances|
  {
    s.instances[j].phase.Waiting? && !s.Cancelled(j)
  }

  /** What an update may be given: of each task it starts, only the instance it replaces is still running. */
  ghost predicate Clear(s: State, desired: map<Key, Owner>) {
    s.stopped || forall k, i: nat | Missing(s, desired, k) && Runs(s, i, k) :: Prior(s, k) == Some(i)
  }

  /** The same for a single launch. */
  ghost predicate LaunchOk(s: State, k: Key, previous: Option<nat>) {
    s.stopped || forall i: nat | Runs(s, i, k) :: previous == Some(i)
  }

  /** An instance begins only when no other of its key runs. */
  lemma BeginsAlone(s: State, b: nat)
    requires Quiet(s) && CanDo(s, Begin(b))
    ensures forall i: nat :: !Runs(s, i, s.instances[b].key)
  {
    forall i: nat ensures !Runs(s, i, s.instances[b].key) {
      assert CouldBegin(s, b);
      assert Runs(s, i, s.instances[b].key) ==> WaitsFor(s, b, i);
    }
  }

  /** What runs after a step ran before it, or has just begun. */
  lemma RanBefore(s: State, step: Step, i: nat, k: Key)
    requires CanDo(s, step) && Runs(Do(s, step), i, k)
    ensures Runs(s, i, k) || (step == Begin(i) && s.instances[i].key == k)
  {
  }

  lemma OverlappedBefore(s: State, step: Step, i: nat, j: nat)
    requires Quiet(s) && CanDo(s, step) && Overlap(Do(s, step), i, j)
    ensures Overlap(s, i, j)
  {
    var k := Do(s, step).instances[j].key;
    RanBefore(s, step, i, k);
    RanBefore(s, step, j, k);
    if step.Begin? {
      BeginsAlone(s, step.i);
    }
  }

  lemma StepKeepsQuiet(s: State, step: Step)
    requires Inv(s) && Quiet(s) && CanDo(s, step)
    requires step.Launch? ==> LaunchOk(s, step.key, step.previous)
    ensures Quiet(Do(s, step))
  {
    var t := Do(s, step);
    forall i: nat, j: nat ensures !Overlap(t, i, j) {
      if Overlap(t, i, j) {
        OverlappedBefore(s, step, i, j);
      }
    }
    forall i: nat, j: nat | j < |t.instances| && Runs(t, i, t.instances[j].key) && CouldBegin(t, j)
      ensures WaitsFor(t, j, i)
    {
      RanBefore(s, step, i, t.instances[j].key);
      if j < |s.instances| {
        assert CouldBegin(s, j);
      }
    }
  }

  // ---------------------------------------------------------------- clear updates

  ghost predicate Launched(steps: seq<Step>, k: Key) {
    exists step | step in steps :: step.Launch? && step.key == k
  }

  /** During an update: keys not launched yet have no running instance but the one to wait for. */
  ghost predicate Calm(before: State, desired: map<Key, Owner>, steps: seq<Step>, s: State) {
    && (before.stopped ==> s.stopped)
    && (forall k | k in s.active && !Launched(steps, k) :: k in before.active && s.active[k] == before.active[k])
    && forall k | Missing(before, desired, k) && !Launched(steps, k) :: LaunchOk(s, k, Prior(before, k))
  }

  /** The steps of an update so far. */
  ghost predicate Partial(before: State, desired: map<Key, Owner>, steps: seq<Step>) {
    (forall step | step in steps :: Fits(before, desired, step)) && InOrder(steps)
  }

  lemma LaunchedMore(steps: seq<Step>, step: Step, k: Key)
    ensures Launched(steps, k) || (step.Launch? && step.key == k) ==> Launched(steps + [step], k)
  {
    if Launched(steps, k) {
      var x :| x in steps && x.Launch? && x.key == k;
      assert x in steps + [step];
    } else if step.Launch? && step.key == k {
      assert step in steps + [step];
    }
  }

  lemma StepKeepsCalm(before: State, desired: map<Key, Owner>, steps: seq<Step>, s: State, step: Step)
    requires Inv(s) && Calm(before, desired, steps, s) && CanDo(s, step) && Fits(before, desired, step)
    ensures Calm(before, desired, steps + [step], Do(s, step))
  {
    var more, t := steps + [step], Do(s, step);
    forall k ensures Launched(steps, k) || (step.Launch? && step.key == k) ==> Launched(more, k) {
      LaunchedMore(steps, step, k);
    }
    forall k | Missing(before, desired, k) && !Launched(more, k) ensures LaunchOk(t, k, Prior(before, k)) {
      assert LaunchOk(s, k, Prior(before, k));
      forall i: nat | !t.stopped && Runs(t, i, k) ensures Prior(before, k) == Some(i) {
        assert !s.stopped;
        if !Runs(s, i, k) {
          // It has just begun, so it is the active instance.
          assert s.active[k] == i;
        }
      }
    }
  }

  lemma SplitLast(steps: seq<Step>)
    requires steps != []
    ensures steps == steps[..|steps| - 1] + [steps[|steps| - 1]]
  {
  }

  lemma PartialPrefix(before: State, desired: map<Key, Owner>, steps: seq<Step>, m: nat)
    requires Partial(before, desired, steps) && m <= |steps|
    ensures Partial(before, desired, steps[..m])
  {
  }

  /** A key is launched only once in an update. */
  lemma NotLaunchedYet(before: State, desired: map<Key, Owner>, steps: seq<Step>)
    requires steps != [] && Partial(before, desired, steps) && steps[|steps| - 1].Launch?
    ensures !Launched(steps[..|steps| - 1], steps[|steps| - 1].key)
  {
    var n := |steps| - 1;
    assert steps[n] in steps;
    forall a | 0 <= a < n && steps[a].Launch? ensures steps[a].key != steps[n].key {
      assert steps[a] in steps && Reconciles(steps[a]);
    }
  }

  lemma {:induction false} ClearUpdateStaysQuiet(run: seq<Step>, before: State, desired: map<Key, Owner>, steps: seq<Step>)
    requires After(run) == Some(before) && Inv(before) && Quiet(before) && Clear(before, desired)
    requires Partial(before, desired, steps) && After(run + steps).Some?
    ensures var s := After(run + steps).value; Inv(s) && Quiet(s) && Calm(before, desired, steps, s)
    decreases |steps|
  {
    if steps == [] {
      assert run + steps == run;
    } else {
      var n := |steps| - 1;
      assert (run + steps)[..|run + steps| - 1] == run + steps[..n] && (run + steps)[|run + steps| - 1] == steps[n];
      PartialPrefix(before, desired, steps, n);
      ClearUpdateStaysQuiet(run, before, desired, steps[..n]);
      var s := After(run + steps[..n]).value;
      if steps[n].Launch? {
        NotLaunchedYet(before, desired, steps);
        assert Fits(before, desired, steps[n]);
      }
      StepKeeps(s, steps[n]);
      StepKeepsQuiet(s, steps[n]);
      StepKeepsCalm(before, desired, steps[..n], s, steps[n]);
      SplitLast(steps);
    }
  }

  // ---------------------------------------------------------------- updates that are not clear

  /** Goroutines did nothing, and new instances have not begun. */
  ghost predicate Undisturbed(before: State, s: State) {
    && s.stopped == before.stopped && |before.instances| <= |s.instances|
    && (forall i | 0 <= i < |before.instances| ::
          s.instances[i].phase == before.instances[i].phase && s.instances[i].key == before.instances[i].key)
    && forall i | |before.instances| <= i < |s.instances| :: s.instances[i].phase.Waiting?
  }

  lemma AppendStep(run: seq<Step>, steps: seq<Step>, s: State, step: Step)
    requires After(run + steps) == Some(s) && CanDo(s, step)
    ensures After(run + (steps + [step])) == Some(Do(s, step))
  {
    assert run + (steps + [step]) == run + steps + [step];
    Extends(run + steps, step, s);
  }

  lemma RetireKey(run: seq<Step>, before: State, desired: map<Key, Owner>, rest: set<Key>, steps: seq<Step>, s: State,
                  predecessors: map<Key, nat>, key: Key)
    returns (steps': seq<Step>, s': State, predecessors': map<Key, nat>)
    requires After(run + steps) == Some(s) && Inv(before) && Undisturbed(before, s) && key in rest
    requires Partly(before, desired, steps, rest, desired.Keys) && Retiring(before, desired, rest, s, predecessors)
    ensures After(run + steps') == Some(s') && Undisturbed(before, s')
    ensures Partly(before, desired, steps', rest - {key}, desired.Keys) && Retiring(before, desired, rest - {key}, s', predecessors')
  {
    if Keeps(before, desired, key) {
      steps', s', predecessors' := steps, s, predecessors;
      RetireNone(before, desired, rest, s, predecessors, key);
      PartlyKept(before, desired, steps, rest, key);
    } else {
      RetireOne(before, desired, rest, s, predecessors, key);
      PartlyMore(before, desired, steps, Retire(key), rest, desired.Keys);
      steps', s' := UndisturbedStep(run, before, steps, s, Retire(key));
      predecessors' := predecessors[key := s.active[key]];
    }
  }

  lemma UndisturbedStep(run: seq<Step>, before: State, steps: seq<Step>, s: State, step: Step)
    returns (steps': seq<Step>, s': State)
    requires After(run + steps) == Some(s) && Undisturbed(before, s) && CanDo(s, step) && Reconciles(step)
    ensures steps' == steps + [step] && s' == Do(s, step) && After(run + steps') == Some(s') && Undisturbed(before, s')
  {
    AppendStep(run, steps, s, step);
    steps', s' := steps + [step], Do(s, step);
  }

  lemma LaunchKey(run: seq<Step>, before: State, desired: map<Key, Owner>, rest: set<Key>, steps: seq<Step>, s: State,
                  predecessors: map<Key, nat>, key: Key)
    returns (steps': seq<Step>, s': State)
    requires After(run + steps) == Some(s) && Inv(before) && Undisturbed(before, s) && key in rest
    requires Partly(before, desired, steps, {}, rest) && Launching(before, desired, rest, s, predecessors)
    ensures After(run + steps') == Some(s') && Undisturbed(before, s')
    ensures Partly(before, desired, steps', {}, rest - {key}) && Launching(before, desired, rest - {key}, s', predecessors)
  {
    if key in s.active {
      steps', s' := steps, s;
      LaunchNone(before, desired, rest, s, predecessors, key);
    } else {
      var step := Launch(key, desired[key], if key in predecessors then Some(predecessors[key]) else None);
      LaunchOne(before, desired, rest, s, predecessors, key);
      PartlyMore(before, desired, steps, step, {}, rest);
      steps', s' := UndisturbedStep(run, before, steps, s, step);
    }
  }

  lemma RetireKeys(run: seq<Step>, before: State, desired: map<Key, Owner>)
    returns (steps: seq<Step>, s: State, predecessors: map<Key, nat>)
    requires After(run) == Some(before) && Inv(before)
    ensures After(run + steps) == Some(s) && Undisturbed(before, s)
    ensures Partly(before, desired, steps, {}, desired.Keys) && Retiring(before, desired, {}, s, predecessors)
  {
    steps, s, predecessors := [], before, map[];
    assert run + steps == run;
    var rest := before.active.Keys;
    while rest != {}
      invariant After(run + steps) == Some(s) && Undisturbed(before, s) && rest <= before.active.Keys
      invariant Partly(before, desired, steps, rest, desired.Keys) && Retiring(before, desired, rest, s, predecessors)
      decreases |rest|
    {
      var key :| key in rest;
      steps, s, predecessors := RetireKey(run, before, desired, rest, steps, s, predecessors, key);
      rest := rest - {key};
    }
  }

  lemma LaunchKeys(run: seq<Step>, before: State, desired: map<Key, Owner>, steps: seq<Step>, s: State, predecessors: map<Key, nat>)
    returns (steps': seq<Step>, s': State)
    requires After(run + steps) == Some(s) && Inv(before) && Undisturbed(before, s)
    requires Partly(before, desired, steps, {}, desired.Keys) && Launching(before, desired, desired.Keys, s, predecessors)
    ensures After(run + steps') == Some(s') && Undisturbed(before, s')
    ensures Partly(before, desired, steps', {}, {}) && Launching(before, desired, {}, s', predecessors)
  {
    steps', s' := steps, s;
    var rest := desired.Keys;
    while rest != {}
      invariant After(run + steps') == Some(s') && Undisturbed(before, s')
      invariant Partly(before, desired, steps', {}, rest) && Launching(before, desired, rest, s', predecessors)
      decreases |rest|
    {
      var key :| key in rest;
      steps', s' := LaunchKey(run, before, desired, rest, steps', s', predecessors, key);
      rest := rest - {key};
    }
  }

  /** An update that no goroutine interrupts. */
  lemma PerformUpdate(run: seq<Step>, before: State, desired: map<Key, Owner>) returns (steps: seq<Step>, s: State)
    requires After(run) == Some(before) && Inv(before)
    ensures After(run + steps) == Some(s) && Update(before, desired, steps) && Undisturbed(before, s)
    ensures Inv(s) && Applied(before, desired, s)
  {
    var predecessors;
    steps, s, predecessors := RetireKeys(run, before, desired);
    RetiredAll(before, desired, s, predecessors);
    steps, s := LaunchKeys(run, before, desired, steps, s, predecessors);
    LaunchedAll(before, desired, s, predecessors);
  }

  lemma OneMoreAlone(before: State, desired: map<Key, Owner>, run: seq<Step>, steps: seq<Step>, s: State, step: Step)
    returns (more: seq<Step>, t: State)
    requires After(run + steps) == Some(s) && Update(before, desired, steps) && CanDo(s, step) && !Reconciles(step)
    ensures After(run + more) == Some(t) && Update(before, desired, more) && t == Do(s, step)
  {
    AppendStep(run, steps, s, step);
    more, t := steps + [step], Do(s, step);
    PartlyAlone(before, desired, steps, more, {}, {});
  }

  /** An instance still runs that the update would start a task beside, without waiting for it. */
  lemma UnclearUpdateOverlaps(run: seq<Step>, before: State, desired: map<Key, Owner>, k: Key, i: nat)
    returns (steps: seq<Step>)
    requires After(run) == Some(before) && Inv(before) && !before.stopped
    requires Missing(before, desired, k) && Runs(before, i, k) && Prior(before, k) != Some(i)
    ensures Update(before, desired, steps) && After(run + steps).Some? && !NoOverlap(After(run + steps).value)
  {
    var s;
    steps, s := PerformUpdate(run, before, desired);
    var j := s.active[k];
    var previous := Prior(before, k);
    assert s.instances[j].previous == previous && Runs(s, i, k) && i < |before.instances| <= j;
    if previous.Some? {
      var p := previous.value;
      assert Replaced(before, desired, k) && s.instances[p].cancelled;
      if s.instances[p].phase.Running? {
        assert Overlap(s, if p < i then p else i, if p < i then i else p);
        return;
      }
      if s.instances[p].phase.Waiting? {
        steps, s := OneMoreAlone(before, desired, run, steps, s, Skip(p));
      }
    }
    steps, s := OneMoreAlone(before, desired, run, steps, s, Begin(j));
    assert Overlap(s, i, j);
  }

  /**
   Exactly the clear updates are safe: whatever the goroutines do during such an update
   and after it, no two instances of a task run at the same time; and when an update
   is not clear, some behaviour of the goroutines makes two instances run.
   */
  lemma UpdateIsSafeExactly(run: seq<Step>, desired: map<Key, Owner>)
    requires After(run).Some? && Quiet(After(run).value)
    ensures var before := After(run).value;
            Clear(before, desired) <==>
            forall steps | Update(before, desired, steps) && After(run + steps).Some? :: NoOverlap(After(run + steps).value)
  {
    RunKeeps(run);
    var before := After(run).value;
    if Clear(before, desired) {
      forall steps | Update(before, desired, steps) && After(run + steps).Some?
        ensures NoOverlap(After(run + steps).value)
      {
        ClearUpdateStaysQuiet(run, before, desired, steps);
      }
    } else {
      var k, i: nat :| Missing(before, desired, k) && Runs(before, i, k) && Prior(before, k) != Some(i);
      var steps := UnclearUpdateOverlaps(run, before, desired, k, i);
    }
  }

  // ---------------------------------------------------------------- whole histories

  /** Between moments `a` and `b` the run is one update, with whatever the goroutines do meanwhile. */
  ghost predicate UpdateIn(desired: map<Key, Owner>, run: seq<Step>, a: nat, b: nat) {
    a <= b <= |run| && After(run[..a]).Some? && Update(After(run[..a]).value, desired, run[a..b])
  }

  /** A run in which the given updates are applied one after the other; the update `u` begins at `cuts[u]`. */
  ghost predicate History(updates: seq<map<Key, Owner>>, cuts: seq<nat>, run: seq<Step>) {
    && |cuts| == |updates| + 1 && cuts[|updates|] == |run| && cuts[0] <= |run|
    && (forall m | 0 <= m < cuts[0] :: !Reconciles(run[m]))
    && forall u | 0 <= u < |updates| :: UpdateIn(updates[u], run, cuts[u], cuts[u + 1])
  }

  ghost predicate AllClear(updates: seq<map<Key, Owner>>, cuts: seq<nat>, run: seq<Step>)
    requires History(updates, cuts, run)
  {
    forall u | 0 <= u < |updates| :: ClearAt(updates[u], run, cuts[u])
  }

  ghost predicate ClearAt(desired: map<Key, Owner>, run: seq<Step>, a: nat) {
    a <= |run| && After(run[..a]).Some? && Clear(After(run[..a]).value, desired)
  }

  lemma {:induction false} AloneStaysEmpty(run: seq<Step>)
    requires After(run).Some? && forall step | step in run :: !Reconciles(step)
    ensures After(run).value.instances == []
  {
    if run != [] {
      AloneStaysEmpty(run[..|run| - 1]);
      assert !Reconciles(run[|run| - 1]);
    }
  }

  lemma {:induction false} AfterPrefix(run: seq<Step>, n: nat)
    requires After(run).Some? && n <= |run|
    ensures After(run[..n]).Some?
    decreases |run|
  {
    if n < |run| {
      assert run[..|run| - 1][..n] == run[..n];
      AfterPrefix(run[..|run| - 1], n);
    } else {
      assert run[..n] == run;
    }
  }

  lemma ClearUpdateIsQuiet(run: seq<Step>, a: nat, n: nat, b: nat, desired: map<Key, Owner>)
    requires a <= n <= b <= |run| && After(run[..n]).Some? && UpdateIn(desired, run, a, b) && ClearAt(desired, run, a)
    requires Quiet(After(run[..a]).value)
    ensures Quiet(After(run[..n]).value)
  {
    RunKeeps(run[..a]);
    var before, steps := After(run[..a]).value, run[a..b][..n - a];
    PartialPrefix(before, desired, run[a..b], n - a);
    assert run[..a] + steps == run[..n];
    ClearUpdateStaysQuiet(run[..a], before, desired, steps);
  }

  lemma {:induction false} QuietUpTo(updates: seq<map<Key, Owner>>, cuts: seq<nat>, run: seq<Step>, u: nat, n: nat)
    requires History(updates, cuts, run) && AllClear(updates, cuts, run) && After(run).Some?
    requires u <= |updates| && n <= cuts[u] <= |run|
    ensures After(run[..n]).Some? && Quiet(After(run[..n]).value)
    decreases u
  {
    AfterPrefix(run, n);
    if u == 0 {
      AloneStaysEmpty(run[..n]);
    } else {
      assert UpdateIn(updates[u - 1], run, cuts[u - 1], cuts[u]) && ClearAt(updates[u - 1], run, cuts[u - 1]);
      if n <= cuts[u - 1] {
        QuietUpTo(updates, cuts, run, u - 1, n);
      } else {
        QuietUpTo(updates, cuts, run, u - 1, cuts[u - 1]);
        ClearUpdateIsQuiet(run, cuts[u - 1], n, cuts[u], updates[u - 1]);
      }
    }
  }

  /** While all updates are clear, no two instances of a task ever run at the same time. */
  lemma ClearUpdatesNeverOverlap(updates: seq<map<Key, Owner>>, cuts: seq<nat>, run: seq<Step>, n: nat, i: nat, j: nat)
    requires History(updates, cuts, run) && AllClear(updates, cuts, run) && After(run).Some? && n <= |run|
    ensures After(run[..n]).Some? && !Overlap(After(run[..n]).value, i, j)
  {
    QuietUpTo(updates, cuts, run, |updates|, n);
  }

  // ---------------------------------------------------------------- two histories with overlapping instances

  lemma StartOne(before: State, k: Key, owner: Owner, alone: seq<Step>)
    requires before.active == map[] && forall step | step in alone :: !Reconciles(step)
    ensures Update(before, map[k := owner], [Launch(k, owner, None)] + alone)
  {
    var launch := [Launch(k, owner, None)];
    assert launch[0] in launch;
    PartlyAlone(before, map[k := owner], launch, launch + alone, {}, {});
  }

  lemma ReplaceOne(before: State, k: Key, owner: Owner, alone: seq<Step>)
    requires k in before.active && before.active.Keys == {k} && before.active[k] < |before.instances|
    requires before.instances[before.active[k]].owner != owner && forall step | step in alone :: !Reconciles(step)
    ensures Update(before, map[k := owner], [Retire(k), Launch(k, owner, Some(before.active[k]))] + alone)
  {
    var both := [Retire(k), Launch(k, owner, Some(before.active[k]))];
    assert both[0] in both && both[1] in both;
    PartlyAlone(before, map[k := owner], both, both + alone, {}, {});
  }

  lemma DropOne(before: State, k: Key)
    requires k in before.active && before.active.Keys == {k}
    ensures Update(before, map[], [Retire(k)])
  {
    var retire := [Retire(k)];
    assert retire[0] in retire;
  }

  lemma ThreeUpdates(a: map<Key, Owner>, b: map<Key, Owner>, c: map<Key, Owner>, run: seq<Step>, x: nat, y: nat)
    requires UpdateIn(a, run, 0, x) && UpdateIn(b, run, x, y) && UpdateIn(c, run, y, |run|)
    ensures History([a, b, c], [0, x, y, |run|], run)
  {
  }

  lemma StepAt(run: seq<Step>, n: nat, s: State) returns (t: State)
    requires n < |run| && After(run[..n]) == Some(s) && CanDo(s, run[n])
    ensures t == Do(s, run[n]) && After(run[..n + 1]) == Some(t)
  {
    assert run[..n + 1] == run[..n] + [run[n]];
    Extends(run[..n], run[n], s);
    t := Do(s, run[n]);
  }

  function Only(owner: Owner, previous: Option<nat>, cancelled: bool, phase: Phase): Instance {
    Instance("k", owner, previous, cancelled, phase)
  }

  const RUNNING: State := State([Only(1, None, false, Running)], map["k" := 0], false)

  /** The task starts and runs. */
  lemma TaskStarts(run: seq<Step>)
    requires |run| >= 2 && run[0] == Launch("k", 1, None) && run[1] == Begin(0)
    ensures After(run[..2]) == Some(RUNNING) && UpdateIn(map["k" := 1], run, 0, 2)
  {
    assert run[..0] == [];
    var s := StepAt(run, 0, START);
    s := StepAt(run, 1, s);
    assert s.instances == RUNNING.instances && s.active == RUNNING.active;
    StartOne(START, "k", 1, [Begin(0)]);
    assert run[0..2] == [Launch("k", 1, None)] + [Begin(0)];
  }

  const REPLACED: State :=
    State([Only(1, None, true, Running), Only(2, Some(0), false, Waiting)], map["k" := 1], false)

  lemma TaskReplaced(run: seq<Step>)
    requires |run| >= 4 && After(run[..2]) == Some(RUNNING)
    requires run[2] == Retire("k") && run[3] == Launch("k", 2, Some(0))
    ensures After(run[..4]) == Some(REPLACED) && UpdateIn(map["k" := 2], run, 2, 4)
  {
    var s := StepAt(run, 2, RUNNING);
    s := StepAt(run, 3, s);
    assert s.instances == REPLACED.instances && s.active == REPLACED.active;
    ReplaceOne(RUNNING, "k", 2, []);
    assert run[2..4] == [Retire("k"), Launch("k", 2, Some(0))] + [];
  }

  const REPLACED_AGAIN: State :=
    State([Only(1, None, true, Running), Only(2, Some(0), true, Waiting), Only(3, Some(1), false, Waiting)], map["k" := 2], false)

  lemma SuccessorReplaced(run: seq<Step>)
    requires |run| == 8 && After(run[..4]) == Some(REPLACED)
    requires run[4] == Retire("k") && run[5] == Launch("k", 3, Some(1))
    ensures After(run[..6]) == Some(REPLACED_AGAIN)
  {
    var s := StepAt(run, 4, REPLACED);
    s := StepAt(run, 5, s);
    assert s.instances == REPLACED_AGAIN.instances && s.active == REPLACED_AGAIN.active;
  }

  lemma LastUpdate(run: seq<Step>)
    requires |run| == 8 && After(run[..4]) == Some(REPLACED)
    requires run[4] == Retire("k") && run[5] == Launch("k", 3, Some(1)) && run[6] == Skip(1) && run[7] == Begin(2)
    ensures UpdateIn(map["k" := 3], run, 4, 8)
  {
    ReplaceOne(REPLACED, "k", 3, [Skip(1), Begin(2)]);
    assert run[4..8] == [Retire("k"), Launch("k", 3, Some(1))] + [Skip(1), Begin(2)];
  }

  lemma ThirdBegins(run: seq<Step>)
    requires |run| == 8 && After(run[..6]) == Some(REPLACED_AGAIN) && run[6] == Skip(1) && run[7] == Begin(2)
    ensures After(run).Some? && After(run).value.instances
            == [Only(1, None, true, Running), Only(2, Some(0), true, Finished), Only(3, Some(1), false, Running)]
  {
    var s := StepAt(run, 6, REPLACED_AGAIN);
    s := StepAt(run, 7, s);
    assert run[..8] == run;
  }

  /** A successor that is replaced while it waits is done at once: the third instance starts beside the first. */
  lemma ThirdOverlapsFirst() returns (run: seq<Step>)
    ensures History([map["k" := 1], map["k" := 2], map["k" := 3]], [0, 2, 4, 8], run)
    ensures After(run).Some? && Overlap(After(run).value, 0, 2) && After(run).value.instances[0].cancelled
  {
    run := [Launch("k", 1, None), Begin(0), Retire("k"), Launch("k", 2, Some(0)),
            Retire("k"), Launch("k", 3, Some(1)), Skip(1), Begin(2)];
    TaskStarts(run);
    TaskReplaced(run);
    SuccessorReplaced(run);
    LastUpdate(run);
    ThreeUpdates(map["k" := 1], map["k" := 2], map["k" := 3], run, 2, 4);
    ThirdBegins(run);
  }

  const DROPPED: State := State([Only(1, None, true, Running)], map[], false)

  lemma TaskDropped(run: seq<Step>)
    requires |run| >= 3 && After(run[..2]) == Some(RUNNING) && run[2] == Retire("k")
    ensures After(run[..3]) == Some(DROPPED) && UpdateIn(map[], run, 2, 3)
  {
    var s := StepAt(run, 2, RUNNING);
    DropOne(RUNNING, "k");
    assert s.instances == DROPPED.instances && s.active == DROPPED.active && run[2..3] == [Retire("k")];
  }

  lemma TaskReturns(run: seq<Step>)
    requires |run| == 5 && After(run[..3]) == Some(DROPPED)
    requires run[3] == Launch("k", 2, None) && run[4] == Begin(1)
    ensures After(run).Some? && UpdateIn(map["k" := 2], run, 3, 5)
    ensures After(run).value.instances == [Only(1, None, true, Running), Only(2, None, false, Running)]
  {
    var s := StepAt(run, 3, DROPPED);
    s := StepAt(run, 4, s);
    StartOne(DROPPED, "k", 2, [Begin(1)]);
    assert run[..5] == run && run[3..5] == [Launch("k", 2, None)] + [Begin(1)];
  }

  /** A task that is dropped by one update and wanted again by a later one does not wait for its old instance. */
  lemma ReturnOverlapsDropped() returns (run: seq<Step>)
    ensures History([map["k" := 1], map[], map["k" := 2]], [0, 2, 3, 5], run)
    ensures After(run).Some? && Overlap(After(run).value, 0, 1) && After(run).value.instances[0].cancelled
  {
    run := [Launch("k", 1, None), Begin(0), Retire("k"), Launch("k", 2, None), Begin(1)];
    TaskStarts(run);
    TaskDropped(run);
    TaskReturns(run);
    ThreeUpdates(map["k" := 1], map[], map["k" := 2], run, 2, 3);
  }
}
