/**
 The runtime preparer of the application, statement by statement, with the other
 threads acting in between. Every effect it has is a step of `HookTransitions`,
 so what holds in every run of those steps holds throughout.
 */
module RuntimePreparer {
  import opened Wrappers
  import opened HookRegistry
  import opened HookTransitions

  datatype Refusal = UndeclaredName | Blocked | SourceFailed | LaterPreparerFailed

  /**
   Why a preparer refuses: a registry could not be drained or a recipient would have lost its
   handler; a source could not be read; a later preparer failed. Steps are only performed
   when they are enabled.
   */
  ghost predicate Explains(step: Step, why: Refusal) {
    match why
    case Blocked => step == DrainFails || step == CheckBlocks
    case SourceFailed => step == CheckFails
    case LaterPreparerFailed => step == Fail
    case UndeclaredName => false
  }

  /** The step was possible and took the program from one world to the next. */
  ghost predicate StepAt(worlds: seq<World>, steps: seq<Step>, i: nat)
    requires i < |steps| && |worlds| == |steps| + 1
  {
    Enabled(worlds[i], steps[i]) && worlds[i + 1] == Do(worlds[i], steps[i])
  }

  /** The worlds a run passes through. */
  ghost predicate Passes(worlds: seq<World>, steps: seq<Step>) {
    |worlds| == |steps| + 1 && forall i {:trigger StepAt(worlds, steps, i)} | 0 <= i < |steps| :: StepAt(worlds, steps, i)
  }

  lemma PassesOneMore(worlds: seq<World>, steps: seq<Step>, step: Step)
    requires Passes(worlds, steps) && Enabled(worlds[|steps|], step)
    ensures Passes(worlds + [Do(worlds[|steps|], step)], steps + [step])
  {
    var more, longer := worlds + [Do(worlds[|steps|], step)], steps + [step];
    forall i | 0 <= i < |longer| ensures StepAt(more, longer, i) {
      assert i < |steps| ==> StepAt(worlds, steps, i);
    }
  }

  lemma {:induction false} PassesIsRun(worlds: seq<World>, steps: seq<Step>)
    requires Passes(worlds, steps)
    ensures After(worlds[0], steps) == Some(worlds[|steps|])
  {
    if steps != [] {
      var n := |steps| - 1;
      var before, run := worlds[..n + 1], steps[..n];
      forall i | 0 <= i < n ensures StepAt(before, run, i) {
        assert StepAt(worlds, steps, i);
      }
      PassesIsRun(before, run);
      assert StepAt(worlds, steps, n);
    }
  }

  lemma PassesKeeps(worlds: seq<World>, steps: seq<Step>)
    requires Passes(worlds, steps) && Started(worlds[0])
    ensures Inv(worlds[|steps|])
  {
    PassesIsRun(worlds, steps);
    RunKeeps(worlds[0], steps);
  }

  lemma CurrentIsKnown(worlds: seq<World>, steps: seq<Step>)
    requires Passes(worlds, steps) && Started(worlds[0])
    requires var tr := worlds[|steps|].transition; tr.Preparing? && tr.i < |tr.current|
    ensures var w := worlds[|steps|]; w.transition.current[w.transition.i].registry in w.registries
  {
    PassesKeeps(worlds, steps);
    var w := worlds[|steps|];
    var rt := w.transition.current[w.transition.i];
    assert RuntimeOk(w.registries, rt.site, w.published[rt.site]);
  }

  /** When the preparer drained nothing, it replaces nothing. */
  lemma KeptWhenNothingDrained(worlds: seq<World>, steps: seq<Step>)
    requires Passes(worlds, steps) && Started(worlds[0])
    requires worlds[|steps|].transition.Prepared? && worlds[|steps|].transition.drained == []
    ensures var tr := worlds[|steps|].transition; forall rt | rt in tr.current :: Candidate(tr.next, rt)
  {
    PassesKeeps(worlds, steps);
    var tr := worlds[|steps|].transition;
    forall rt | rt in tr.current ensures Candidate(tr.next, rt) {
      var j :| 0 <= j < |tr.current| && tr.current[j] == rt;
      if !Candidate(tr.next, rt) {
        ReplacedHas(tr.current, tr.next, |tr.current|, j);
      }
    }
  }

  lemma DrainedIsKnown(worlds: seq<World>, steps: seq<Step>)
    requires Passes(worlds, steps) && Started(worlds[0]) && worlds[|steps|].transition.Aborting?
    ensures Enabled(worlds[|steps|], Undo)
  {
    PassesKeeps(worlds, steps);
  }

  lemma WorldIsSafe(worlds: seq<World>, steps: seq<Step>)
    requires Passes(worlds, steps) && Started(worlds[0]) && worlds[|steps|].transition.Idle?
    ensures var w := worlds[|steps|]; PendingServed(w) && NoneDrains(w)
  {
    PassesIsRun(worlds, steps);
    TransitionsAreSafe(worlds[0], steps);
  }

  /** No published registry drains. */
  ghost predicate NoneDrains(w: World) {
    forall s | s in w.published :: w.published[s].registry in w.registries && !w.registries[w.published[s].registry].draining
  }

  class Catalog {
    ghost const start: World
    ghost var steps: seq<Step>
    ghost var worlds: seq<World>
    var world: World

    ghost predicate Valid()
      reads this
    {
      Started(start) && Passes(worlds, steps) && worlds[0] == start && worlds[|steps|] == world
    }

    constructor (world: World)
      requires Started(world)
      ensures Valid() && this.world == world
    {
      start, this.world, steps, worlds := world, world, [], [world];
    }

    method Perform(step: Step)
      requires Valid() && Enabled(world, step)
      modifies this
      ensures Valid() && world == Do(old(world), step) && steps == old(steps) + [step]
    {
      PassesOneMore(worlds, steps, step);
      world, steps, worlds := Do(world, step), steps + [step], worlds + [Do(world, step)];
    }

    /** Mutations, deliveries and runtime construction, for as long as they like. */
    method Others()
      requires Valid()
      modifies this
      ensures Valid() && old(steps) <= steps
      ensures world.transition == old(world.transition) && world.published == old(world.published)
      ensures |world.pending| == |old(world.pending)|
    {
      var n: nat := *;
      while n > 0
        invariant Valid() && old(steps) <= steps
        invariant world.transition == old(world.transition) && world.published == old(world.published)
        invariant |world.pending| == |old(world.pending)|
      {
        var step: Step := *;
        if (step.Build? || step.Pin? || step.Commit? || step.Unpin? || step.Complete?) && Enabled(world, step) {
          PendingLength(world, step);
          Perform(step);
        }
        n := n - 1;
      }
    }

    /** Undoes the drains, last first. */
    method AbortAll()
      requires Valid() && world.transition.Aborting?
      modifies this
      ensures Valid() && old(steps) <= steps && world.transition.Idle? && world.published == old(world.published)
      ensures world.pending == old(world.pending)
    {
      while world.transition != Aborting([])
        invariant Valid() && old(steps) <= steps && world.transition.Aborting? && world.published == old(world.published)
        invariant world.pending == old(world.pending)
        decreases |world.transition.drained|
      {
        DrainedIsKnown(worlds, steps);
        var n := |world.transition.drained|;
        Perform(Undo);
        assert |world.transition.drained| == n - 1;
      }
      Perform(Undo);
    }

    /** One pass over what a source has pending: stops at the first recipient that would lose its handler. */
    method SourceIsClear(items: set<Item>, next: map<SiteId, Runtime>, current: Runtime) returns (clear: bool)
      ensures clear <==> Clear(world.registries, items, next, current)
    {
      var rest := items;
      while rest != {}
        invariant rest <= items && Clear(world.registries, items - rest, next, current)
        decreases |rest|
      {
        var item :| item in rest;
        if item.target.scope.Site? && item.target.scopeId == current.site {
          if current.site !in next || next[current.site].profile != current.profile {
            return false;
          }
          var candidate := next[current.site].registry;
          if candidate !in world.registries || !Has(world.registries[candidate], item.name, item.target) {
            return false;
          }
        }
        rest := rest - {item};
      }
      clear := true;
    }

    /** Drains one registry that is about to be replaced and checks every source. */
    method PrepareOne(readable: nat) returns (refused: Option<Refusal>, ghost stop: nat)
      requires Valid() && world.transition.Preparing? && world.transition.checked.None?
      requires world.transition.i < |world.transition.current|
      modifies this
      ensures Valid() && old(steps) <= steps && world.published == old(world.published)
      ensures |world.pending| == |old(world.pending)|
      ensures refused.None? ==>
        world.transition.Preparing? && world.transition.checked.None? && world.transition.i == old(world.transition.i) + 1 &&
        world.transition.current == old(world.transition.current) && world.transition.next == old(world.transition.next) &&
        (world.transition.drained == old(world.transition.drained) || |world.pending| <= readable)
      ensures refused.Some? ==> world.transition.Aborting? && StoppedAt(stop, |old(steps)|, refused.value)
      ensures refused == Some(SourceFailed) ==> readable < |world.pending|
    {
      var tr := world.transition;
      var current := tr.current[tr.i];
      if Candidate(tr.next, current) {
        Perform(Skip);
        return None, 0;
      }
      Others();
      CurrentIsKnown(worlds, steps);
      if DrainError(world.registries[current.registry]).Some? {
        Perform(DrainFails);
        return Some(Blocked), |steps| - 1;
      }
      Perform(Drain);
      refused, stop := CheckSources(current, readable);
    }

    ghost predicate Checking(current: Runtime)
      reads this
    {
      var tr := world.transition;
      tr.Preparing? && tr.i < |tr.current| && tr.current[tr.i] == current
    }

    /** Asks every source, one after the other, for recipients that the replacement would lose. */
    method CheckSources(current: Runtime, readable: nat) returns (refused: Option<Refusal>, ghost stop: nat)
      requires Valid() && Checking(current) && world.transition.checked == Some(0)
      modifies this
      ensures Valid() && old(steps) <= steps && world.published == old(world.published)
      ensures |world.pending| == |old(world.pending)|
      ensures refused.None? ==>
        world.transition == old(world.transition).(checked := None, i := old(world.transition).i + 1) &&
        |world.pending| <= readable
      ensures refused.Some? ==> world.transition.Aborting? && StoppedAt(stop, |old(steps)|, refused.value)
      ensures refused == Some(SourceFailed) ==> readable < |world.pending|
    {
      for k := 0 to |world.pending|
        invariant Valid() && old(steps) <= steps && world.published == old(world.published)
        invariant world.transition == old(world.transition).(checked := Some(k))
        invariant |world.pending| == |old(world.pending)| && k <= readable
      {
        refused, stop := CheckOne(current, k, readable);
        if refused.Some? {
          return;
        }
      }
      Pass();
      refused, stop := None, 0;
    }

    /** All sources are clear of the runtime being replaced. */
    method Pass()
      requires Valid() && world.transition.Preparing? && world.transition.i < |world.transition.current|
      requires world.transition.checked == Some(|world.pending|)
      modifies this
      ensures Valid() && old(steps) <= steps && world.published == old(world.published) && world.pending == old(world.pending)
      ensures world.transition == old(world.transition).(checked := None, i := old(world.transition).i + 1)
    {
      Perform(CheckSource);
    }

    method CheckOne(current: Runtime, k: nat, readable: nat) returns (refused: Option<Refusal>, ghost stop: nat)
      requires Valid() && k < |world.pending|
      requires Checking(current) && world.transition.checked == Some(k)
      modifies this
      ensures Valid() && old(steps) <= steps && world.published == old(world.published)
      ensures |world.pending| == |old(world.pending)|
      ensures world.transition == if refused.None? then old(world.transition).(checked := Some(k + 1))
                                  else Aborting(old(world.transition.drained))
      ensures refused.Some? ==> StoppedAt(stop, |old(steps)|, refused.value)
      ensures refused == Some(SourceFailed) ==> readable < |world.pending|
      ensures refused.None? ==> k != readable
    {
      Others();
      var step;
      if k == readable {
        step, refused := CheckFails, Some(SourceFailed);
      } else {
        var clear := SourceIsClear(world.pending[k], world.transition.next, current);
        step, refused := if clear then CheckSource else CheckBlocks, if clear then None else Some(Blocked);
      }
      stop := |steps|;
      Perform(step);
    }

    ghost predicate StoppedAt(stop: nat, since: nat, why: Refusal)
      reads this
    {
      since <= stop < |steps| && Explains(steps[stop], why)
    }

    /** Some step since `since` explains the refusal. */
    ghost predicate Stopped(since: nat, why: Refusal)
      reads this
    {
      exists stop: nat :: StoppedAt(stop, since, why)
    }

    /** A next runtime hooks an event name that no module declared. */
    ghost predicate HooksUndeclared(names: set<string>, next: map<SiteId, Runtime>)
      reads this
    {
      exists s, e | s in next && next[s].registry in world.registries && e in world.registries[next[s].registry].entries ::
        e.kind.AfterHook? && e.name !in names
    }

    /**
     The closure passed to `AddRuntimePreparer`; the first `readable` sources can be read. It
     refuses undeclared names at once, and otherwise only for what happened at a drain or a
     check; a refusal leaves nothing of it behind.
     */
    method Prepare(names: set<string>, current: seq<Runtime>, next: map<SiteId, Runtime>, readable: nat)
      returns (refused: Option<Refusal>)
      requires Valid() && world.transition.Idle? && PlanOk(world, current, next)
      modifies this
      ensures Valid() && old(steps) <= steps && world.published == old(world.published)
      ensures refused.None? ==>
        world.transition.Prepared? && world.transition.current == current && world.transition.next == next &&
        (world.transition.drained == [] || |world.pending| <= readable)
      ensures refused.Some? ==> world.transition.Idle?
      ensures refused == Some(UndeclaredName) <==> old(HooksUndeclared(names, next))
      ensures refused.Some? && refused != Some(UndeclaredName) ==> Stopped(|old(steps)|, refused.value)
      ensures refused == Some(SourceFailed) ==> readable < |world.pending|
    {
      var undeclared := UndeclaredNames(names, next);
      if undeclared { return Some(UndeclaredName); }
      Perform(Begin(current, next));
      ghost var stop;
      refused, stop := PrepareAll(current, next, readable);
      if refused.Some? {
        AbortAll();
        assert StoppedAt(stop, |old(steps)|, refused.value);
        return;
      }
      Perform(Finish);
    }

    method PrepareAll(current: seq<Runtime>, next: map<SiteId, Runtime>, readable: nat) returns (refused: Option<Refusal>, ghost stop: nat)
      requires Valid() && world.transition == Preparing(current, next, 0, None, [])
      modifies this
      ensures Valid() && old(steps) <= steps && world.published == old(world.published)
      ensures refused.None? ==>
        Reached(current, next, |current|) && (world.transition.drained == [] || |world.pending| <= readable)
      ensures refused.Some? ==> world.transition.Aborting? && StoppedAt(stop, |old(steps)|, refused.value)
      ensures refused == Some(SourceFailed) ==> readable < |world.pending|
    {
      for i := 0 to |current|
        invariant Valid() && old(steps) <= steps && world.published == old(world.published) && Reached(current, next, i)
        invariant world.transition.drained == [] || |world.pending| <= readable
      {
        refused, stop := PrepareOne(readable);
        if refused.Some? { return; }
      }
      refused, stop := None, 0;
    }

    /** The first `i` runtimes have been prepared. */
    ghost predicate Reached(current: seq<Runtime>, next: map<SiteId, Runtime>, i: nat)
      reads this
    {
      var tr := world.transition;
      tr.Preparing? && tr.checked.None? && tr.i == i && tr.current == current && tr.next == next
    }

    method UndeclaredNames(names: set<string>, next: map<SiteId, Runtime>) returns (found: bool)
      requires forall s | s in next :: next[s].registry in world.registries
      ensures found <==> HooksUndeclared(names, next)
    {
      var rest := next.Keys;
      while rest != {}
        invariant rest <= next.Keys
        invariant forall s, e | s in next.Keys - rest && e in world.registries[next[s].registry].entries ::
          !(e.kind.AfterHook? && e.name !in names)
        decreases |rest|
      {
        var s :| s in rest;
        var entries := world.registries[next[s].registry].entries;
        for k := 0 to |entries|
          invariant forall e | e in entries[..k] :: !(e.kind.AfterHook? && e.name !in names)
        {
          if entries[k].kind.AfterHook? && entries[k].name !in names {
            assert entries[k] in entries;
            return true;
          }
          assert entries[..k + 1] == entries[..k] + [entries[k]];
        }
        assert entries[..|entries|] == entries;
        rest := rest - {s};
      }
      found := false;
    }

    /** Publishes what was prepared, or undoes it because a later preparer failed. */
    method Conclude(laterFails: bool) returns (refused: Option<Refusal>)
      requires Valid() && world.transition.Prepared?
      modifies this
      ensures Valid() && old(steps) <= steps && world.transition.Idle? && world.pending == old(world.pending)
      ensures laterFails ==> refused == Some(LaterPreparerFailed) && world.published == old(world.published)
      ensures laterFails ==> StoppedAt(|old(steps)|, |old(steps)|, LaterPreparerFailed)
      ensures !laterFails ==> refused.None? && world.published == old(world.transition.next)
    {
      if laterFails {
        Perform(Fail);
        AbortAll();
        refused := Some(LaterPreparerFailed);
      } else {
        Perform(Publish);
        refused := None;
      }
    }

    /**
     A whole site-runtime transition, in which a later preparer may fail. Afterwards either the next runtimes are
     published or the old ones still are, and none of the published ones drains.
     */
    method Transition(names: set<string>, current: seq<Runtime>, next: map<SiteId, Runtime>, readable: nat, laterFails: bool)
      returns (refused: Option<Refusal>)
      requires Valid() && world.transition.Idle? && PlanOk(world, current, next)
      modifies this
      ensures Valid() && old(steps) <= steps && world.transition.Idle?
      ensures world.published == if refused.None? then next else old(world.published)
      ensures PendingServed(world) && NoneDrains(world)
      ensures refused == Some(UndeclaredName) <==> old(HooksUndeclared(names, next))
      ensures refused.Some? && refused != Some(UndeclaredName) ==> Stopped(|old(steps)|, refused.value)
      ensures refused == Some(SourceFailed) ==> readable < |world.pending|
      ensures refused.None? ==> !laterFails && ((forall rt | rt in current :: Candidate(next, rt)) || |world.pending| <= readable)
    {
      refused := Prepare(names, current, next, readable);
      if refused.None? {
        if world.transition.drained == [] { KeptWhenNothingDrained(worlds, steps); }
        Others();
        ghost var stop := |steps|;
        refused := Conclude(laterFails);
        if laterFails { assert StoppedAt(stop, |old(steps)|, LaterPreparerFailed); }
      }
      WorldIsSafe(worlds, steps);
    }
  }

  /** The registry that answers for a target. */
  function Resolve(w: World, application: Option<Reg>, target: Target): Option<Reg> {
    if target.scope.Application? then application
    else if target.scopeId in w.published && w.published[target.scopeId].registry in w.registries
      then Some(w.registries[w.published[target.scopeId].registry])
    else None
  }

  /** Startup: succeeds exactly when every saved recipient has its handler, which starts the invariant. */
  method ValidatePending(w: World, application: Option<Reg>) returns (ok: bool)
    ensures ok <==> forall k, item | 0 <= k < |w.pending| && item in w.pending[k] ::
      var r := Resolve(w, application, item.target); r.Some? && Has(r.value, item.name, item.target)
    ensures ok ==> PendingServed(w)
  {
    for k := 0 to |w.pending|
      invariant forall j, item | 0 <= j < k && item in w.pending[j] ::
        var r := Resolve(w, application, item.target); r.Some? && Has(r.value, item.name, item.target)
    {
      var rest := w.pending[k];
      while rest != {}
        invariant rest <= w.pending[k]
        invariant forall item | item in w.pending[k] - rest ::
          var r := Resolve(w, application, item.target); r.Some? && Has(r.value, item.name, item.target)
        decreases |rest|
      {
        var item :| item in rest;
        var registry := Resolve(w, application, item.target);
        if registry.None? || !Has(registry.value, item.name, item.target) {
          return false;
        }
        rest := rest - {item};
      }
    }
    ok := true;
  }
}
