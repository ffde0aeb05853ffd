/** The reconciler of background tasks (app/background.go). */
module BackgroundTasks {
  import opened Wrappers

  type Key = string
  type Owner = nat // the identity of a site runtime

  /** `Waiting` for the predecessor, `Running` the task's function, `Finished` with its done channel closed. */
  datatype Phase = Waiting | Running | Finished

  /** One goroutine. `cancelled` is its own cancel function; shutting down cancels all of them. */
  datatype Instance = Instance(key: Key, owner: Owner, previous: Option<nat>, cancelled: bool, phase: Phase)

  datatype State = State(instances: seq<Instance>, active: map<Key, nat>, stopped: bool) {
    predicate Cancelled(i: nat)
      requires i < |instances|
    {
      stopped || instances[i].cancelled
    }
  }

  const START := State([], map[], false)

  // ---------------------------------------------------------------- the steps of the reconciler and of the goroutines

  datatype Step = Retire(key: Key) | Launch(key: Key, owner: Owner, previous: Option<nat>)
                | Begin(i: nat) | Skip(i: nat) | End(i: nat) | Stop

  predicate CanDo(s: State, step: Step) {
    match step
    case Retire(key) => key in s.active && s.active[key] < |s.instances|
    case Launch(key, _, previous) =>
      key !in s.active && (previous.Some? ==> previous.value < |s.instances| && s.instances[previous.value].key == key)
    case Begin(i) =>
      && i < |s.instances| && s.instances[i].phase.Waiting? && !s.Cancelled(i)
      && var p := s.instances[i].previous;
         p.Some? ==> p.value < |s.instances| && s.instances[p.value].phase.Finished?
    case Skip(i) => i < |s.instances| && s.instances[i].phase.Waiting? && s.Cancelled(i)
    case End(i) => i < |s.instances| && s.instances[i].phase.Running? && s.Cancelled(i)
    case Stop => true
  }

  function Do(s: State, step: Step): State
    requires CanDo(s, step)
  {
    match step
    case Retire(key) =>
      var i := s.active[key];
      s.(instances := s.instances[i := s.instances[i].(cancelled := true)], active := s.active - {key})
    case Launch(key, owner, previous) =>
      s.(instances := s.instances + [Instance(key, owner, previous, false, Waiting)], active := s.active[key := |s.instances|])
    case Begin(i) => s.(instances := s.instances[i := s.instances[i].(phase := Running)])
    case Skip(i) => s.(instances := s.instances[i := s.instances[i].(phase := Finished)])
    case End(i) => s.(instances := s.instances[i := s.instances[i].(phase := Finished)])
    case Stop => s.(stopped := true)
  }

  function After(run: seq<Step>): Option<State> {
    if run == [] then Some(START)
    else
      var before := After(run[..|run| - 1]);
      if before.Some? && CanDo(before.value, run[|run| - 1]) then Some(Do(before.value, run[|run| - 1])) else None
  }

  /** The active instance of a key is the only one of that key that was not told to stop. */
  ghost predicate Inv(s: State) {
    && (forall k | k in s.active :: s.active[k] < |s.instances| && s.instances[s.active[k]].key == k)
    && (forall i | 0 <= i < |s.instances| ::
          s.instances[i].cancelled <==> !(s.instances[i].key in s.active && s.active[s.instances[i].key] == i))
    && forall i | 0 <= i < |s.instances| :: InstanceOk(s, i)
  }

  /** It runs only after its predecessor is done, and is done only when cancelled. */
  ghost predicate InstanceOk(s: State, i: nat)
    requires i < |s.instances|
  {
    var x := s.instances[i];
    && (x.previous.Some? ==> x.previous.value < i)
    && (x.previous.Some? && x.phase.Running? ==> s.instances[x.previous.value].phase.Finished?)
    && (x.phase.Finished? ==> s.Cancelled(i))
  }

  lemma StepKeeps(s: State, step: Step)
    requires Inv(s) && CanDo(s, step)
    ensures Inv(Do(s, step))
  {
    var t := Do(s, step);
    forall i | 0 <= i < |t.instances| ensures InstanceOk(t, i) {
      assert i < |s.instances| ==> InstanceOk(s, i);
    }
  }

  lemma {:induction false} RunKeeps(run: seq<Step>)
    requires After(run).Some?
    ensures Inv(After(run).value)
  {
    if run != [] {
      RunKeeps(run[..|run| - 1]);
      StepKeeps(After(run[..|run| - 1]).value, run[|run| - 1]);
    }
  }

  /**
   In every run, at every moment: of two instances of one key at least one is
   cancelled, and an instance runs only after its immediate predecessor is done.
   */
  lemma RunsAreExclusive(run: seq<Step>)
    requires After(run).Some?
    ensures var s := After(run).value;
            forall i, j | 0 <= i < j < |s.instances| && s.instances[i].key == s.instances[j].key ::
              s.Cancelled(i) || s.Cancelled(j)
    ensures var s := After(run).value;
            forall i | 0 <= i < |s.instances| && s.instances[i].phase.Running? && s.instances[i].previous.Some? ::
              s.instances[i].previous.value < i && s.instances[s.instances[i].previous.value].phase.Finished?
  {
    RunKeeps(run);
    var s := After(run).value;
    forall i | 0 <= i < |s.instances| && s.instances[i].phase.Running? && s.instances[i].previous.Some?
      ensures s.instances[i].previous.value < i && s.instances[s.instances[i].previous.value].phase.Finished?
    {
      assert InstanceOk(s, i);
    }
  }

  lemma Extends(run: seq<Step>, step: Step, s: State)
    requires After(run) == Some(s) && CanDo(s, step)
    ensures After(run + [step]) == Some(Do(s, step))
  {
    assert (run + [step])[..|run|] == run;
  }

  // ---------------------------------------------------------------- one update

  /** What other goroutines cannot change. */
  ghost predicate Same(a: State, b: State) {
    && a.active == b.active && |a.instances| == |b.instances|
    && forall i | 0 <= i < |a.instances| :: a.instances[i].(phase := Waiting) == b.instances[i].(phase := Waiting)
  }

  predicate Keeps(s: State, desired: map<Key, Owner>, k: Key) {
    && k in s.active && s.active[k] < |s.instances|
    && k in desired && desired[k] == s.instances[s.active[k]].owner
  }

  /** The instance that a new one of the key waits for. */
  function Prior(before: State, k: Key): Option<nat> {
    if k in before.active then Some(before.active[k]) else None
  }

  predicate Replaced(before: State, desired: map<Key, Owner>, k: Key) {
    k in before.active && !Keeps(before, desired, k)
  }

  predicate Missing(before: State, desired: map<Key, Owner>, k: Key) {
    k in desired && !Keeps(before, desired, k)
  }

  function LaunchOf(before: State, desired: map<Key, Owner>, k: Key): Step
    requires k in desired
  {
    Launch(k, desired[k], Prior(before, k))
  }

  predicate Reconciles(step: Step) {
    step.Retire? || step.Launch?
  }

  /** The step belongs to the update, or is one of the goroutines' or of shutdown. */
  predicate Fits(before: State, desired: map<Key, Owner>, step: Step) {
    match step
    case Retire(k) => Replaced(before, desired, k)
    case Launch(k, _, _) => Missing(before, desired, k) && step == LaunchOf(before, desired, k)
    case _ => true
  }

  /** No reconciling step is repeated, and instances are retired before any is launched. */
  ghost predicate InOrder(steps: seq<Step>) {
    forall a, b | 0 <= a < b < |steps| && Reconciles(steps[a]) ::
      steps[a] != steps[b] && (steps[a].Launch? ==> !steps[b].Retire?)
  }

  /** An update under way, with some keys still to retire and to launch. */
  ghost predicate Partly(before: State, desired: map<Key, Owner>, steps: seq<Step>, retire: set<Key>, launch: set<Key>) {
    && (forall step | step in steps :: Fits(before, desired, step)) && InOrder(steps)
    && (forall k | Replaced(before, desired, k) :: k in retire <==> Retire(k) !in steps)
    && (forall k | Missing(before, desired, k) :: k in launch <==> LaunchOf(before, desired, k) !in steps)
  }

  /** The steps of one whole update, mixed with steps of the goroutines. */
  ghost predicate Update(before: State, desired: map<Key, Owner>, steps: seq<Step>) {
    Partly(before, desired, steps, {}, {})
  }

  /** Only goroutines and shutdown acted since. */
  ghost predicate Alone(steps: seq<Step>, more: seq<Step>) {
    steps <= more && forall m | |steps| <= m < |more| :: !Reconciles(more[m])
  }

  lemma PartlyAlone(before: State, desired: map<Key, Owner>, steps: seq<Step>, more: seq<Step>, retire: set<Key>, launch: set<Key>)
    requires Partly(before, desired, steps, retire, launch) && Alone(steps, more)
    ensures Partly(before, desired, more, retire, launch)
  {
    forall step | step in more ensures step in steps || !Reconciles(step) {
      var m :| 0 <= m < |more| && more[m] == step;
      assert m < |steps| ==> steps[m] == step;
    }
    forall step | step in steps ensures step in more {
      var m :| 0 <= m < |steps| && steps[m] == step;
      assert more[m] == step;
    }
    forall a, b | 0 <= a < b < |more| && Reconciles(more[a])
      ensures more[a] != more[b] && (more[a].Launch? ==> !more[b].Retire?)
    {
      assert more[a] == steps[a];
      if b < |steps| { assert more[b] == steps[b]; }
    }
  }

  /** One more step of the update. */
  lemma PartlyMore(before: State, desired: map<Key, Owner>, steps: seq<Step>, step: Step, retire: set<Key>, launch: set<Key>)
    requires Partly(before, desired, steps, retire, launch) && Reconciles(step) && Fits(before, desired, step)
    requires if step.Retire? then step.key in retire && launch == desired.Keys else step.key in launch
    ensures Partly(before, desired, steps + [step], if step.Retire? then retire - {step.key} else retire,
                   if step.Launch? then launch - {step.key} else launch)
  {
    var more := steps + [step];
    assert step !in steps;
    forall a, b | 0 <= a < b < |more| && Reconciles(more[a])
      ensures more[a] != more[b] && (more[a].Launch? ==> !more[b].Retire?)
    {
      assert more[a] == steps[a] && steps[a] in steps;
    }
  }

  /** Instances of unchanged owners go on; the others are told to stop, and exactly the missing ones are launched. */
  ghost predicate Applied(before: State, desired: map<Key, Owner>, after: State)
    requires Inv(before) && Inv(after)
  {
    && after.active.Keys == desired.Keys && |before.instances| <= |after.instances|
    && (forall k | k in desired :: after.instances[after.active[k]].owner == desired[k])
    && (forall k | k in desired && Keeps(before, desired, k) :: after.active[k] == before.active[k])
    && (forall k | k in desired && !Keeps(before, desired, k) ::
          && after.active[k] >= |before.instances|
          && after.instances[after.active[k]].previous == Prior(before, k))
    && (forall k | k in before.active && !Keeps(before, desired, k) :: after.instances[before.active[k]].cancelled)
  }

  /** While the old instances are looked at. */
  ghost predicate Retiring(before: State, desired: map<Key, Owner>, rest: set<Key>, now: State, predecessors: map<Key, nat>)
    requires Inv(before)
  {
    && |now.instances| == |before.instances| && Inv(now) && SameTasks(before, now)
    && StillActive(before, desired, rest, now) && RetiredNoted(before, now, predecessors)
  }

  ghost predicate StillActive(before: State, desired: map<Key, Owner>, rest: set<Key>, now: State) {
    && (forall k | k in rest :: k in now.active)
    && (forall k :: k in now.active <==> k in before.active && (k in rest || Keeps(before, desired, k)))
    && (forall k | k in now.active :: now.active[k] == before.active[k])
  }

  ghost predicate RetiredNoted(before: State, now: State, predecessors: map<Key, nat>)
    requires Inv(before) && |now.instances| == |before.instances|
  {
    && (forall k :: k in predecessors <==> k in before.active && k !in now.active)
    && (forall k | k in predecessors :: predecessors[k] == before.active[k])
    && (forall k | k in before.active && k !in now.active :: now.instances[before.active[k]].cancelled)
  }

  /** While the missing instances are launched. */
  ghost predicate Launching(before: State, desired: map<Key, Owner>, rest: set<Key>, now: State, predecessors: map<Key, nat>)
    requires Inv(before)
  {
    && rest <= desired.Keys && Inv(now) && Untouched(before, desired, now) && Launched(before, desired, rest, now)
    && Noted(before, desired, predecessors)
  }

  /** The old instances are as the first pass left them. */
  ghost predicate Untouched(before: State, desired: map<Key, Owner>, now: State)
    requires Inv(before)
  {
    && |before.instances| <= |now.instances|
    && SameTasks(before, now)
    && (forall k | k in before.active && !Keeps(before, desired, k) :: now.instances[before.active[k]].cancelled)
  }

  ghost predicate SameTasks(before: State, now: State)
    requires |before.instances| <= |now.instances|
  {
    forall i | 0 <= i < |before.instances| ::
      now.instances[i].owner == before.instances[i].owner && now.instances[i].key == before.instances[i].key
  }

  ghost predicate Launched(before: State, desired: map<Key, Owner>, rest: set<Key>, now: State)
    requires Inv(now)
  {
    && (forall k :: k in now.active <==> k in desired && (k !in rest || Keeps(before, desired, k)))
    && (forall k | k in now.active && k in desired :: ActiveOk(before, desired, now, k))
  }

  /** The instance goes on, or is new and waits for the one it replaces. */
  ghost predicate ActiveOk(before: State, desired: map<Key, Owner>, now: State, k: Key)
    requires k in now.active && now.active[k] < |now.instances| && k in desired
  {
    if Keeps(before, desired, k) then now.active[k] == before.active[k]
    else
      && now.active[k] >= |before.instances| && now.instances[now.active[k]].owner == desired[k]
      && now.instances[now.active[k]].previous == Prior(before, k)
  }

  /** What the first pass wrote down: the instances it retired. */
  ghost predicate Noted(before: State, desired: map<Key, Owner>, predecessors: map<Key, nat>) {
    && (forall k :: k in predecessors <==> k in before.active && !Keeps(before, desired, k))
    && (forall k | k in predecessors :: predecessors[k] == before.active[k])
  }

  class Reconciler {
    var s: State
    ghost var run: seq<Step>
    ghost var steps: seq<Step> // those since the current update began

    constructor ()
      ensures Valid() && s == START && run == []
    {
      s, run, steps := START, [], [];
    }

    ghost predicate Valid()
      reads this
    {
      After(run) == Some(s) && Inv(s)
    }

    method Perform(step: Step)
      requires Valid() && CanDo(s, step)
      modifies this
      ensures Valid() && s == Do(old(s), step) && run == old(run) + [step] && steps == old(steps) + [step]
    {
      Extends(run, step, s);
      StepKeeps(s, step);
      run, steps := run + [step], steps + [step];
      s := Do(s, step);
    }

    /** The goroutines, and shutdown, at any time. */
    method Others(ghost start: seq<Step>)
      requires Valid() && run == start + steps
      modifies this
      ensures Valid() && Same(old(s), s) && run == start + steps && Alone(old(steps), steps)
    {
      var n: nat := *;
      while n > 0
        invariant Valid() && Same(old(s), s) && run == start + steps && Alone(old(steps), steps)
      {
        n := n - 1;
        var i: nat := *;
        var step := *;
        if step in {Begin(i), Skip(i), End(i), Stop} && CanDo(s, step) {
          Perform(step);
        }
      }
    }

    /**
     Brings the running tasks in line with the desired ones while the goroutines go on.
     What it adds to the run is one update.
     */
    method Apply(desired: map<Key, Owner>)
      requires Valid()
      modifies this
      ensures Valid() && run == old(run) + steps && Update(old(s), desired, steps)
      ensures Applied(old(s), desired, s)
    {
      ghost var before, start := s, run;
      steps := [];
      var predecessors := RetireAll(start, desired);
      RetiredAll(before, desired, s, predecessors);
      var rest := desired.Keys;
      while rest != {}
        invariant Valid() && run == start + steps && Partly(before, desired, steps, {}, rest)
        invariant Launching(before, desired, rest, s, predecessors)
        decreases |rest|
      {
        var key :| key in rest;
        LaunchIfMissing(start, before, desired, rest, predecessors, key);
        rest := rest - {key};
      }
    }

    method OthersWhileLaunching(ghost start: seq<Step>, ghost before: State, ghost desired: map<Key, Owner>,
                                ghost rest: set<Key>, ghost predecessors: map<Key, nat>)
      requires Valid() && Inv(before) && Launching(before, desired, rest, s, predecessors)
      requires run == start + steps && Partly(before, desired, steps, {}, rest)
      modifies this
      ensures Valid() && run == start + steps && Partly(before, desired, steps, {}, rest)
      ensures Launching(before, desired, rest, s, predecessors)
    {
      Others(start);
      LaunchingSame(before, desired, rest, old(s), s, predecessors);
      PartlyAlone(before, desired, old(steps), steps, {}, rest);
    }

    method LaunchIfMissing(ghost start: seq<Step>, ghost before: State, desired: map<Key, Owner>, ghost rest: set<Key>,
                           predecessors: map<Key, nat>, key: Key)
      requires Valid() && Inv(before) && Launching(before, desired, rest, s, predecessors) && key in rest
      requires run == start + steps && Partly(before, desired, steps, {}, rest)
      modifies this
      ensures Valid() && run == start + steps && Partly(before, desired, steps, {}, rest - {key})
      ensures Launching(before, desired, rest - {key}, s, predecessors)
    {
      OthersWhileLaunching(start, before, desired, rest, predecessors);
      if key !in s.active {
        LaunchMissing(start, before, desired, rest, predecessors, key);
      } else {
        LaunchNone(before, desired, rest, s, predecessors, key);
        PartlyActive(before, desired, rest, s, predecessors, steps, key);
      }
    }

    method LaunchMissing(ghost start: seq<Step>, ghost before: State, desired: map<Key, Owner>, ghost rest: set<Key>,
                         predecessors: map<Key, nat>, key: Key)
      requires Valid() && Inv(before) && Launching(before, desired, rest, s, predecessors) && key in rest && key !in s.active
      requires run == start + steps && Partly(before, desired, steps, {}, rest)
      modifies this
      ensures Valid() && run == start + steps && Partly(before, desired, steps, {}, rest - {key})
      ensures Launching(before, desired, rest - {key}, s, predecessors)
    {
      var step := Launch(key, desired[key], if key in predecessors then Some(predecessors[key]) else None);
      LaunchOne(before, desired, rest, s, predecessors, key);
      PartlyMore(before, desired, steps, step, {}, rest);
      Perform(step);
    }

    method RetireAll(ghost start: seq<Step>, desired: map<Key, Owner>) returns (predecessors: map<Key, nat>)
      requires Valid() && run == start && steps == []
      modifies this
      ensures Valid() && run == start + steps && Partly(old(s), desired, steps, {}, desired.Keys)
      ensures Retiring(old(s), desired, {}, s, predecessors)
    {
      predecessors := map[];
      var rest := s.active.Keys;
      while rest != {}
        invariant Valid() && run == start + steps && Partly(old(s), desired, steps, rest, desired.Keys)
        invariant rest <= old(s).active.Keys && Retiring(old(s), desired, rest, s, predecessors)
        decreases |rest|
      {
        var key :| key in rest;
        predecessors := RetireUnlessKept(start, old(s), desired, rest, predecessors, key);
        rest := rest - {key};
      }
    }

    method OthersWhileRetiring(ghost start: seq<Step>, ghost before: State, ghost desired: map<Key, Owner>,
                               ghost rest: set<Key>, ghost predecessors: map<Key, nat>)
      requires Valid() && Inv(before) && Retiring(before, desired, rest, s, predecessors)
      requires run == start + steps && Partly(before, desired, steps, rest, desired.Keys)
      modifies this
      ensures Valid() && run == start + steps && Partly(before, desired, steps, rest, desired.Keys)
      ensures Retiring(before, desired, rest, s, predecessors)
    {
      Others(start);
      RetiringSame(before, desired, rest, old(s), s, predecessors);
      PartlyAlone(before, desired, old(steps), steps, rest, desired.Keys);
    }

    method RetireUnlessKept(ghost start: seq<Step>, ghost before: State, desired: map<Key, Owner>, ghost rest: set<Key>,
                            predecessors: map<Key, nat>, key: Key)
      returns (predecessors': map<Key, nat>)
      requires Valid() && Inv(before) && Retiring(before, desired, rest, s, predecessors) && key in rest
      requires run == start + steps && Partly(before, desired, steps, rest, desired.Keys)
      modifies this
      ensures Valid() && run == start + steps && Partly(before, desired, steps, rest - {key}, desired.Keys)
      ensures Retiring(before, desired, rest - {key}, s, predecessors')
    {
      OthersWhileRetiring(start, before, desired, rest, predecessors);
      SameOwner(before, desired, rest, s, predecessors, key);
      if key in desired && desired[key] == s.instances[s.active[key]].owner {
        RetireNone(before, desired, rest, s, predecessors, key);
        PartlyKept(before, desired, steps, rest, key);
        predecessors' := predecessors;
      } else {
        predecessors' := RetireActive(start, before, desired, rest, predecessors, key);
      }
    }

    method RetireActive(ghost start: seq<Step>, ghost before: State, ghost desired: map<Key, Owner>, ghost rest: set<Key>,
                        predecessors: map<Key, nat>, key: Key)
      returns (predecessors': map<Key, nat>)
      requires Valid() && Inv(before) && Retiring(before, desired, rest, s, predecessors) && key in rest
      requires run == start + steps && Partly(before, desired, steps, rest, desired.Keys) && !Keeps(before, desired, key)
      modifies this
      ensures Valid() && run == start + steps && Partly(before, desired, steps, rest - {key}, desired.Keys)
      ensures Retiring(before, desired, rest - {key}, s, predecessors')
    {
      RetireOne(before, desired, rest, s, predecessors, key);
      PartlyMore(before, desired, steps, Retire(key), rest, desired.Keys);
      predecessors' := predecessors[key := s.active[key]];
      Perform(Retire(key));
    }
  }

  lemma PartlyKept(before: State, desired: map<Key, Owner>, steps: seq<Step>, retire: set<Key>, key: Key)
    requires Partly(before, desired, steps, retire, desired.Keys) && Keeps(before, desired, key)
    ensures Partly(before, desired, steps, retire - {key}, desired.Keys)
  {
  }

  /** Until a key is looked at, its active instance is the one from before. */
  lemma SameOwner(before: State, desired: map<Key, Owner>, rest: set<Key>, s: State, predecessors: map<Key, nat>, key: Key)
    requires Inv(before) && Retiring(before, desired, rest, s, predecessors) && key in rest
    ensures key in s.active && s.active[key] == before.active[key] < |s.instances|
    ensures Keeps(before, desired, key) <==> key in desired && desired[key] == s.instances[s.active[key]].owner
  {
  }

  lemma RetiringSame(before: State, desired: map<Key, Owner>, rest: set<Key>, a: State, b: State, predecessors: map<Key, nat>)
    requires Inv(before) && Retiring(before, desired, rest, a, predecessors) && Same(a, b) && Inv(b)
    ensures Retiring(before, desired, rest, b, predecessors)
  {
    forall i | 0 <= i < |a.instances|
      ensures a.instances[i].owner == b.instances[i].owner && a.instances[i].cancelled == b.instances[i].cancelled
      ensures a.instances[i].key == b.instances[i].key
    {
      assert a.instances[i].(phase := Waiting) == b.instances[i].(phase := Waiting);
    }
  }

  lemma LaunchingSame(before: State, desired: map<Key, Owner>, rest: set<Key>, a: State, b: State, predecessors: map<Key, nat>)
    requires Inv(before) && Launching(before, desired, rest, a, predecessors) && Same(a, b) && Inv(b)
    ensures Launching(before, desired, rest, b, predecessors)
  {
    forall i | 0 <= i < |a.instances|
      ensures a.instances[i].owner == b.instances[i].owner && a.instances[i].cancelled == b.instances[i].cancelled
      ensures a.instances[i].key == b.instances[i].key
      ensures a.instances[i].previous == b.instances[i].previous
    {
      assert a.instances[i].(phase := Waiting) == b.instances[i].(phase := Waiting);
    }
  }

  lemma RetireOne(before: State, desired: map<Key, Owner>, rest: set<Key>, s: State, predecessors: map<Key, nat>, key: Key)
    requires Inv(before) && Retiring(before, desired, rest, s, predecessors) && key in rest && !Keeps(before, desired, key)
    ensures CanDo(s, Retire(key)) && Fits(before, desired, Retire(key))
    ensures Retiring(before, desired, rest - {key}, Do(s, Retire(key)), predecessors[key := s.active[key]])
  {
    StepKeeps(s, Retire(key));
    RetireActivates(before, desired, rest, s, key);
    RetireNotes(before, s, predecessors, key);
  }

  lemma RetireActivates(before: State, desired: map<Key, Owner>, rest: set<Key>, s: State, key: Key)
    requires StillActive(before, desired, rest, s) && key in rest && !Keeps(before, desired, key) && CanDo(s, Retire(key))
    ensures StillActive(before, desired, rest - {key}, Do(s, Retire(key)))
  {
  }

  lemma RetireNotes(before: State, s: State, predecessors: map<Key, nat>, key: Key)
    requires Inv(before) && |s.instances| == |before.instances| && RetiredNoted(before, s, predecessors)
    requires key in before.active && CanDo(s, Retire(key)) && s.active[key] == before.active[key]
    ensures RetiredNoted(before, Do(s, Retire(key)), predecessors[key := s.active[key]])
  {
  }

  lemma RetireNone(before: State, desired: map<Key, Owner>, rest: set<Key>, s: State, predecessors: map<Key, nat>, key: Key)
    requires Inv(before) && Retiring(before, desired, rest, s, predecessors) && key in rest && Keeps(before, desired, key)
    ensures Retiring(before, desired, rest - {key}, s, predecessors)
  {
  }

  lemma RetiredAll(before: State, desired: map<Key, Owner>, s: State, predecessors: map<Key, nat>)
    requires Inv(before) && Retiring(before, desired, {}, s, predecessors)
    ensures Launching(before, desired, desired.Keys, s, predecessors)
  {
  }

  lemma LaunchedAll(before: State, desired: map<Key, Owner>, s: State, predecessors: map<Key, nat>)
    requires Inv(before) && Launching(before, desired, {}, s, predecessors)
    ensures Inv(s) && Applied(before, desired, s)
  {
  }

  lemma LaunchOne(before: State, desired: map<Key, Owner>, rest: set<Key>, s: State, predecessors: map<Key, nat>, key: Key)
    requires Inv(before) && Launching(before, desired, rest, s, predecessors) && key in rest && key !in s.active
    ensures var step := Launch(key, desired[key], if key in predecessors then Some(predecessors[key]) else None);
            CanDo(s, step) && Fits(before, desired, step) && Launching(before, desired, rest - {key}, Do(s, step), predecessors)
  {
    var step := Launch(key, desired[key], if key in predecessors then Some(predecessors[key]) else None);
    PriorIsNoted(before, desired, s, predecessors, key);
    StepKeeps(s, step);
    LaunchAdds(before, desired, rest, s, key, step.previous);
    LaunchUntouched(before, desired, s, step);
  }

  lemma PriorIsNoted(before: State, desired: map<Key, Owner>, s: State, predecessors: map<Key, nat>, key: Key)
    requires Inv(before) && Untouched(before, desired, s) && Noted(before, desired, predecessors)
    requires !Keeps(before, desired, key)
    ensures var previous := if key in predecessors then Some(predecessors[key]) else None;
            && previous == Prior(before, key)
            && (previous.Some? ==> previous.value < |s.instances| && s.instances[previous.value].key == key)
  {
  }

  lemma LaunchUntouched(before: State, desired: map<Key, Owner>, s: State, step: Step)
    requires Inv(before) && Untouched(before, desired, s) && step.Launch? && CanDo(s, step)
    ensures Untouched(before, desired, Do(s, step))
  {
  }

  /** A key that is active although it was not launched yet is kept. */
  lemma PartlyActive(before: State, desired: map<Key, Owner>, rest: set<Key>, s: State, predecessors: map<Key, nat>,
                     steps: seq<Step>, key: Key)
    requires Inv(before) && Launching(before, desired, rest, s, predecessors) && key in rest && key in s.active
    requires Partly(before, desired, steps, {}, rest)
    ensures Partly(before, desired, steps, {}, rest - {key})
  {
    assert Keeps(before, desired, key);
  }

  lemma LaunchAdds(before: State, desired: map<Key, Owner>, rest: set<Key>, s: State, key: Key, previous: Option<nat>)
    requires Inv(s) && |before.instances| <= |s.instances| && Launched(before, desired, rest, s)
    requires key in rest && key in desired && key !in s.active && CanDo(s, Launch(key, desired[key], previous))
    requires Inv(Do(s, Launch(key, desired[key], previous)))
    requires previous == Prior(before, key)
    ensures Launched(before, desired, rest - {key}, Do(s, Launch(key, desired[key], previous)))
  {
    var t := Do(s, Launch(key, desired[key], previous));
    forall k | k in t.active && k in desired ensures ActiveOk(before, desired, t, k) {
      if k != key {
        assert ActiveOk(before, desired, s, k);
      }
    }
  }

  lemma LaunchNone(before: State, desired: map<Key, Owner>, rest: set<Key>, s: State, predecessors: map<Key, nat>, key: Key)
    requires Inv(before) && Launching(before, desired, rest, s, predecessors) && key in rest && key in s.active
    ensures Launching(before, desired, rest - {key}, s, predecessors)
  {
  }
}
