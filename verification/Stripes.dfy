/**
 Striped read-write locks taken in index order, with at most one load lock taken
 inside a read section. One thread runs `withRepositoryCacheRead` or
 `withRepositoryCacheWrite` once; a step is one lock operation of one thread.

 A stripe is a Go `sync.RWMutex`: a writer first shuts out other writers and new
 readers (`announced`), then waits for the readers inside to leave.
 */
module Stripes {
  import opened Wrappers

  type Tid = nat
  type LoadKey = string

  const STRIPES: nat := 64

  datatype Mode = Read | Write

  datatype LoadLock = NoLoad | Waiting(key: LoadKey) | Holding(key: LoadKey)

  datatype Phase =
    | Acquiring(next: nat, announced: bool) // holds plan[..next]
    | Inside(load: LoadLock)                // holds the whole plan
    | Releasing(left: nat)                  // holds plan[..left]

  datatype Thread = Thread(mode: Mode, plan: seq<nat>, phase: Phase) {

    function Held(): nat {
      match phase
      case Acquiring(next, _) => next
      case Inside(_) => |plan|
      case Releasing(left) => left
    }

    predicate Holds(s: nat) {
      Held() <= |plan| && s in plan[..Held()]
    }

    /** A writer that holds the stripe, or has shut it and waits for its readers. */
    predicate Claims(s: nat) {
      mode.Write? &&
      (Holds(s) || (phase.Acquiring? && phase.announced && phase.next < |plan| && plan[phase.next] == s))
    }

    predicate Ok() {
      && Increasing(plan)
      && Held() <= |plan|
      && (phase.Acquiring? && phase.announced ==> mode.Write? && phase.next < |plan|)
      && (phase.Inside? && mode.Write? ==> phase.load.NoLoad?)
    }
  }

  /** What `lockIndexes` returns: stripe numbers in strictly increasing order. */
  predicate Increasing(plan: seq<nat>) {
    && (forall i | 0 <= i < |plan| :: plan[i] < STRIPES)
    && (forall i, j | 0 <= i < j < |plan| :: plan[i] < plan[j])
  }

  type State = map<Tid, Thread>

  datatype Step =
    | Start(mode: Mode, plan: seq<nat>)
    | Announce            // Lock: exclude other writers and new readers
    | Take                // RLock, or the end of Lock
    | Enter               // every stripe of the plan is held
    | AskLoad(key: LoadKey)
    | TakeLoad
    | CancelLoad
    | FreeLoad
    | Leave
    | Release             // the last stripe still held
    | Finish

  predicate NoClaim(st: State, t: Tid, s: nat) {
    forall u | u in st && u != t :: !st[u].Claims(s)
  }

  predicate NoReader(st: State, t: Tid, s: nat) {
    forall u | u in st && u != t :: !(st[u].mode.Read? && st[u].Holds(s))
  }

  predicate LoadFree(st: State, t: Tid, key: LoadKey) {
    forall u | u in st && u != t :: st[u].phase != Inside(Holding(key))
  }

  predicate Enabled(st: State, t: Tid, step: Step) {
    if step.Start? then
      t !in st && Increasing(step.plan)
    else
      t in st &&
      var th := st[t];
      match step
      case Announce =>
        th.mode.Write? && th.phase.Acquiring? && !th.phase.announced && th.phase.next < |th.plan| &&
        NoClaim(st, t, th.plan[th.phase.next])
      case Take =>
        th.phase.Acquiring? && th.phase.next < |th.plan| &&
        (if th.mode.Read? then NoClaim(st, t, th.plan[th.phase.next])
         else th.phase.announced && NoReader(st, t, th.plan[th.phase.next]))
      case Enter => th.phase.Acquiring? && th.phase.next == |th.plan|
      case AskLoad(_) => th.mode.Read? && th.phase == Inside(NoLoad)
      case TakeLoad => th.phase.Inside? && th.phase.load.Waiting? && LoadFree(st, t, th.phase.load.key)
      case CancelLoad => th.phase.Inside? && th.phase.load.Waiting?
      case FreeLoad => th.phase.Inside? && th.phase.load.Holding?
      case Leave => th.phase == Inside(NoLoad)
      case Release => th.phase.Releasing? && th.phase.left > 0
      case Finish => th.phase.Releasing? && th.phase.left == 0
  }

  function Do(st: State, t: Tid, step: Step): State
    requires Enabled(st, t, step)
  {
    match step
    case Start(mode, plan) => st[t := Thread(mode, plan, Acquiring(0, false))]
    case Announce => st[t := st[t].(phase := st[t].phase.(announced := true))]
    case Take => st[t := st[t].(phase := Acquiring(st[t].phase.next + 1, false))]
    case Enter => st[t := st[t].(phase := Inside(NoLoad))]
    case AskLoad(key) => st[t := st[t].(phase := Inside(Waiting(key)))]
    case TakeLoad => st[t := st[t].(phase := Inside(Holding(st[t].phase.load.key)))]
    case CancelLoad => st[t := st[t].(phase := Inside(NoLoad))]
    case FreeLoad => st[t := st[t].(phase := Inside(NoLoad))]
    case Leave => st[t := st[t].(phase := Releasing(|st[t].plan|))]
    case Release => st[t := st[t].(phase := Releasing(st[t].phase.left - 1))]
    case Finish => st - {t}
  }

  /** The state after a run, or None when some step of it was not possible. */
  function After(run: seq<(Tid, Step)>): Option<State> {
    if run == [] then Some(map[])
    else
      var before := After(run[..|run| - 1]);
      var (t, step) := run[|run| - 1];
      if before.Some? && Enabled(before.value, t, step) then Some(Do(before.value, t, step)) else None
  }

  // ---------------------------------------------------------------- exclusion

  ghost predicate Exclusive(a: Thread, b: Thread) {
    && (forall s :: !(a.Claims(s) && b.Claims(s)))
    && (forall s :: !(a.mode.Write? && a.Holds(s) && b.mode.Read? && b.Holds(s)))
    && (forall s :: !(b.mode.Write? && b.Holds(s) && a.mode.Read? && a.Holds(s)))
    && (a.phase.Inside? && a.phase.load.Holding? ==> b.phase != a.phase)
  }

  ghost predicate Inv(st: State) {
    && (forall t | t in st :: st[t].Ok())
    && (forall t, u | t in st && u in st && t != u :: Exclusive(st[t], st[u]))
  }

  lemma TakeExtends(th: Thread)
    requires th.Ok() && th.phase.Acquiring? && th.phase.next < |th.plan|
    ensures forall s :: th.(phase := Acquiring(th.phase.next + 1, false)).Holds(s)
                        <==> th.Holds(s) || s == th.plan[th.phase.next]
  {
    var longer := th.(phase := Acquiring(th.phase.next + 1, false));
    assert th.plan[..th.phase.next + 1] == th.plan[..th.phase.next] + [th.plan[th.phase.next]];
    forall s ensures longer.Holds(s) <==> th.Holds(s) || s == th.plan[th.phase.next] {
      assert longer.Held() == th.phase.next + 1 && th.Held() == th.phase.next;
    }
  }

  lemma ReleaseShrinks(th: Thread)
    requires th.Ok() && th.phase.Releasing? && th.phase.left > 0
    ensures forall s :: th.(phase := Releasing(th.phase.left - 1)).Holds(s) ==> th.Holds(s)
  {
    assert th.plan[..th.phase.left] == th.plan[..th.phase.left - 1] + [th.plan[th.phase.left - 1]];
  }

  /** The moving thread stays exclusive with every other. */
  lemma StepExclusive(st: State, t: Tid, step: Step, u: Tid)
    requires Inv(st) && Enabled(st, t, step) && u in st && u != t
    ensures t in Do(st, t, step) ==> Exclusive(Do(st, t, step)[t], st[u]) && Exclusive(st[u], Do(st, t, step)[t])
  {
    match step
    case Take => TakeExtends(st[t]);
    case Release => ReleaseShrinks(st[t]);
    case _ =>
  }

  lemma StepOk(st: State, t: Tid, step: Step)
    requires Inv(st) && Enabled(st, t, step)
    ensures var r := Do(st, t, step); forall u | u in r :: r[u].Ok()
  {
  }

  lemma StepKeepsInv(st: State, t: Tid, step: Step)
    requires Inv(st) && Enabled(st, t, step)
    ensures Inv(Do(st, t, step))
  {
    StepOk(st, t, step);
    forall u | u in st && u != t
      ensures t in Do(st, t, step) ==> Exclusive(Do(st, t, step)[t], st[u]) && Exclusive(st[u], Do(st, t, step)[t])
    {
      StepExclusive(st, t, step, u);
    }
  }

  lemma {:induction false} RunKeepsInv(run: seq<(Tid, Step)>)
    requires After(run).Some?
    ensures Inv(After(run).value)
  {
    if run != [] {
      RunKeepsInv(run[..|run| - 1]);
      var (t, step) := run[|run| - 1];
      StepKeepsInv(After(run[..|run| - 1]).value, t, step);
    }
  }

  /** In no run is a writer inside its section together with anyone who shares a stripe with it. */
  lemma WriterIsAlone(run: seq<(Tid, Step)>, w: Tid, u: Tid)
    requires After(run).Some?
    requires var st := After(run).value;
      && w in st && u in st && w != u && st[w].mode.Write? && st[w].phase.Inside? && st[u].phase.Inside?
    ensures forall s | s in After(run).value[w].plan :: s !in After(run).value[u].plan
  {
    RunKeepsInv(run);
    InsideExcludes(After(run).value, w, u);
  }

  lemma InsideExcludes(st: State, w: Tid, u: Tid)
    requires Inv(st) && w in st && u in st && w != u
    requires st[w].mode.Write? && st[w].phase.Inside? && st[u].phase.Inside?
    ensures forall s | s in st[w].plan :: s !in st[u].plan
  {
    assert st[w].plan[..|st[w].plan|] == st[w].plan && st[u].plan[..|st[u].plan|] == st[u].plan;
    assert Exclusive(st[w], st[u]);
    forall s | s in st[w].plan ensures s !in st[u].plan {
      assert st[w].Holds(s);
      assert st[w].Claims(s);
      assert s in st[u].plan ==> st[u].Holds(s);
    }
  }

  // ---------------------------------------------------------------- progress

  /** The thread can take a step of its own that brings it closer to its end. */
  predicate CanStep(st: State, t: Tid) {
    || Enabled(st, t, Announce) || Enabled(st, t, Take) || Enabled(st, t, Enter) || Enabled(st, t, TakeLoad)
    || Enabled(st, t, FreeLoad) || Enabled(st, t, Leave) || Enabled(st, t, Release) || Enabled(st, t, Finish)
  }

  /** What a thread waits for: stripes by number, load locks above all stripes. */
  function Rank(th: Thread): nat {
    if th.phase.Acquiring? && th.phase.next < |th.plan| then th.plan[th.phase.next] else STRIPES
  }

  /** A thread that holds a stripe and cannot move waits for something of higher rank. */
  lemma HolderWaitsHigher(st: State, t: Tid, s: nat)
    requires Inv(st) && t in st && st[t].Holds(s) && !CanStep(st, t)
    ensures s < Rank(st[t])
  {
    var th := st[t];
    var i :| 0 <= i < th.Held() && th.plan[i] == s;
    assert th.Ok();
  }

  lemma Chase(st: State, t: Tid) returns (u: Tid)
    requires Inv(st) && t in st
    ensures u in st && CanStep(st, u)
    decreases STRIPES - Rank(st[t])
  {
    var th := st[t];
    assert th.Ok();
    if CanStep(st, t) {
      return t;
    }
    if th.phase.Inside? {
      u :| u in st && u != t && st[u].phase == Inside(Holding(th.phase.load.key));
      return;
    }
    var blocker := Blocker(st, t);
    if CanStep(st, blocker) {
      return blocker;
    }
    HolderWaitsHigher(st, blocker, th.plan[th.phase.next]);
    u := Chase(st, blocker);
  }

  /** Whom a thread that cannot take its next stripe waits for: one who can move, or holds that stripe. */
  lemma Blocker(st: State, t: Tid) returns (blocker: Tid)
    requires Inv(st) && t in st && !CanStep(st, t) && st[t].phase.Acquiring? && st[t].phase.next < |st[t].plan|
    ensures blocker in st && (CanStep(st, blocker) || st[blocker].Holds(st[t].plan[st[t].phase.next]))
  {
    var th := st[t];
    assert th.Ok();
    var s := th.plan[th.phase.next];
    if th.mode.Write? && th.phase.announced {
      blocker :| blocker in st && blocker != t && st[blocker].mode.Read? && st[blocker].Holds(s);
    } else {
      blocker :| blocker in st && blocker != t && st[blocker].Claims(s);
      if !CanStep(st, blocker) && !st[blocker].Holds(s) {
        // It shut the stripe and waits for a reader.
        blocker :| blocker in st && st[blocker].mode.Read? && st[blocker].Holds(s);
      }
    }
  }

  /** No run deadlocks: while any thread is left, one of them can move on. */
  lemma NoDeadlock(run: seq<(Tid, Step)>)
    requires After(run).Some? && After(run).value != map[]
    ensures exists t :: t in After(run).value && CanStep(After(run).value, t)
  {
    RunKeepsInv(run);
    var st := After(run).value;
    assert st.Keys != {};
    var t :| t in st;
    var u := Chase(st, t);
  }

  // ---------------------------------------------------------------- without the order

  /** The same machine, except that threads may take their stripes in any order. */
  function AfterAnyOrder(run: seq<(Tid, Step)>): Option<State> {
    if run == [] then Some(map[])
    else
      var before := AfterAnyOrder(run[..|run| - 1]);
      var (t, step) := run[|run| - 1];
      if before.None? then None else NextAnyOrder(before.value, t, step)
  }

  function NextAnyOrder(st: State, t: Tid, step: Step): Option<State> {
    match step
    case Start(mode, plan) => if t in st then None else Some(st[t := Thread(mode, plan, Acquiring(0, false))])
    case _ => if Enabled(st, t, step) then Some(Do(st, t, step)) else None
  }

  lemma StepAnyOrder(run: seq<(Tid, Step)>, st: State, t: Tid, step: Step) returns (run': seq<(Tid, Step)>, st': State)
    requires AfterAnyOrder(run) == Some(st) && NextAnyOrder(st, t, step).Some?
    ensures run' == run + [(t, step)] && NextAnyOrder(st, t, step) == Some(st') && AfterAnyOrder(run') == Some(st')
  {
    run', st' := run + [(t, step)], NextAnyOrder(st, t, step).value;
    assert run'[..|run|] == run;
  }

  /** A writer takes the first stripe of its plan, which nobody has. */
  lemma TakeFirst(run: seq<(Tid, Step)>, st: State, t: Tid) returns (run': seq<(Tid, Step)>, st': State)
    requires AfterAnyOrder(run) == Some(st) && t in st && |st[t].plan| > 0
    requires st[t].mode.Write? && st[t].phase == Acquiring(0, false)
    requires NoClaim(st, t, st[t].plan[0]) && NoReader(st, t, st[t].plan[0])
    ensures AfterAnyOrder(run') == Some(st') && st' == st[t := st[t].(phase := Acquiring(1, false))]
  {
    var shut;
    run', shut := StepAnyOrder(run, st, t, Announce);
    assert shut == st[t := st[t].(phase := Acquiring(0, true))];
    assert NoReader(shut, t, st[t].plan[0]);
    run', st' := StepAnyOrder(run', shut, t, Take);
  }

  /** Each of the two holds the stripe the other wants. */
  lemma Stuck(st: State, a: nat, b: nat)
    requires a != b && st.Keys == {0, 1}
    requires st[0] == Thread(Write, [a, b], Acquiring(1, false)) && st[1] == Thread(Write, [b, a], Acquiring(1, false))
    ensures forall t | t in st :: !CanStep(st, t)
  {
    assert st[0].plan[..1] == [a] && st[1].plan[..1] == [b];
    assert st[0].Claims(a) && st[1].Claims(b);
  }

  /** The order matters: two writers that take the same two stripes in opposite order can block each other for good. */
  lemma OppositeOrderDeadlocks(a: nat, b: nat) returns (run: seq<(Tid, Step)>)
    requires a != b
    ensures AfterAnyOrder(run).Some? && AfterAnyOrder(run).value.Keys == {0, 1}
    ensures forall t | t in AfterAnyOrder(run).value :: !CanStep(AfterAnyOrder(run).value, t)
  {
    var st: State;
    run, st := StepAnyOrder([], map[], 0, Start(Write, [a, b]));
    run, st := StepAnyOrder(run, st, 1, Start(Write, [b, a]));
    run, st := TakeFirst(run, st, 0);
    assert st[0].plan[..1] == [a];
    run, st := TakeFirst(run, st, 1);
    Stuck(st, a, b);
  }
}
