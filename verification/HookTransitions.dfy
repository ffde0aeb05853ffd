/**
 Pins, drains and site-runtime transitions. Mutations pin the registry of a
 published runtime until their recipients are committed; deliveries complete
 pending recipients; one transition at a time drains the registries it replaces,
 checks what is pending, and then publishes or undoes its drains. All of them
 interleave step by step.
 */
module HookTransitions {
  import opened Wrappers
  import opened HookRegistry

  type RegId = nat
  type PinId = nat
  type SiteId = string

  datatype Runtime = Runtime(site: SiteId, profile: string, registry: RegId)

  /** A recipient of an event that has been committed and not completed. */
  datatype Item = Item(event: nat, name: string, target: Target)

  datatype Transition =
    | Idle
    /** Handling current[i]; `checked` is None before its drain, then the number of sources found clear. */
    | Preparing(current: seq<Runtime>, next: map<SiteId, Runtime>, i: nat, checked: Option<nat>, drained: seq<RegId>)
    | Prepared(current: seq<Runtime>, next: map<SiteId, Runtime>, drained: seq<RegId>)
    | Aborting(drained: seq<RegId>)

  datatype World = World(
    registries: map<RegId, Reg>,
    published: map<SiteId, Runtime>,
    exposed: set<RegId>,              // registries of runtimes that are or were published
    pins: map<PinId, RegId>,
    pending: seq<set<Item>>,          // by source
    transition: Transition)

  datatype Step =
    | Build(id: RegId, registry: Reg)
    | Pin(pin: PinId, id: RegId)
    | Commit(pin: PinId, source: nat, name: string, event: nat)
    | Unpin(pin: PinId)
    | Complete(source: nat, item: Item)
    | Begin(current: seq<Runtime>, next: map<SiteId, Runtime>)
    | Skip
    | Drain
    | DrainFails
    | CheckSource
    | CheckBlocks                     // a recipient would lose its handler
    | CheckFails                      // the source cannot be read
    | Finish
    | Fail
    | Undo
    | Publish

  predicate Candidate(next: map<SiteId, Runtime>, current: Runtime) {
    current.site in next && next[current.site] == current
  }

  predicate ForSite(item: Item, site: SiteId) {
    item.target.scope.Site? && item.target.scopeId == site
  }

  /** A pending recipient does not block replacing `current`. */
  predicate Acceptable(registries: map<RegId, Reg>, next: map<SiteId, Runtime>, current: Runtime, item: Item) {
    ForSite(item, current.site) ==>
      && current.site in next && next[current.site].profile == current.profile
      && next[current.site].registry in registries
      && Has(registries[next[current.site].registry], item.name, item.target)
  }

  predicate Clear(registries: map<RegId, Reg>, items: set<Item>, next: map<SiteId, Runtime>, current: Runtime) {
    forall item | item in items :: Acceptable(registries, next, current, item)
  }

  predicate RuntimeOk(registries: map<RegId, Reg>, site: SiteId, rt: Runtime) {
    && rt.site == site && rt.registry in registries
    && var r := registries[rt.registry]; r.scope.Site? && r.id == site && r.isSealed
  }

  /** What the catalog hands to a preparer: all published runtimes, and for each next site the same or a fresh one. */
  predicate PlanOk(w: World, current: seq<Runtime>, next: map<SiteId, Runtime>) {
    && (forall i, j | 0 <= i < j < |current| :: current[i].site != current[j].site)
    && (forall i | 0 <= i < |current| :: current[i].site in w.published && w.published[current[i].site] == current[i])
    && (forall s | s in w.published :: w.published[s] in current)
    && (forall s | s in next :: RuntimeOk(w.registries, s, next[s]) &&
          ((s in w.published && w.published[s] == next[s]) ||
           (next[s].registry !in w.exposed && !w.registries[next[s].registry].draining)))
  }

  function Recipients(r: Reg, name: string, event: nat): (items: set<Item>)
    ensures forall item | item in items :: item.event == event && item.name == name && Has(r, name, item.target)
    ensures forall e | e in r.entries && e.name == name && e.kind.AfterHook? :: Item(event, name, e.target) in items
  {
    set i | 0 <= i < |r.entries| && r.entries[i].name == name && r.entries[i].kind.AfterHook? ::
      Item(event, name, r.entries[i].target)
  }

  predicate Enabled(w: World, step: Step) {
    var tr := w.transition;
    match step
    case Build(id, r) =>
      id !in w.registries && r.isSealed && !r.draining && r.active == 0 &&
      (forall i | 0 <= i < |r.entries| :: TargetHome(r, r.entries[i].target))
    case Pin(pin, id) =>
      pin !in w.pins && id in w.exposed && id in w.registries && AcquireError(w.registries[id]).None?
    case Commit(pin, source, _, _) => pin in w.pins && w.pins[pin] in w.registries && source < |w.pending|
    case Unpin(pin) => pin in w.pins && w.pins[pin] in w.registries
    case Complete(source, item) => source < |w.pending| && item in w.pending[source]
    case Begin(current, next) => tr.Idle? && PlanOk(w, current, next)
    case Skip =>
      tr.Preparing? && tr.i < |tr.current| && tr.checked.None? && Candidate(tr.next, tr.current[tr.i])
    case Drain =>
      tr.Preparing? && tr.i < |tr.current| && tr.checked.None? && !Candidate(tr.next, tr.current[tr.i]) &&
      tr.current[tr.i].registry in w.registries && DrainError(w.registries[tr.current[tr.i].registry]).None?
    case DrainFails =>
      tr.Preparing? && tr.i < |tr.current| && tr.checked.None? && !Candidate(tr.next, tr.current[tr.i]) &&
      tr.current[tr.i].registry in w.registries && DrainError(w.registries[tr.current[tr.i].registry]).Some?
    case CheckSource =>
      tr.Preparing? && tr.i < |tr.current| && tr.checked.Some? &&
      (tr.checked.value < |w.pending| ==> Clear(w.registries, w.pending[tr.checked.value], tr.next, tr.current[tr.i]))
    case CheckBlocks =>
      tr.Preparing? && tr.i < |tr.current| && tr.checked.Some? && tr.checked.value < |w.pending| &&
      !Clear(w.registries, w.pending[tr.checked.value], tr.next, tr.current[tr.i])
    case CheckFails => tr.Preparing? && tr.i < |tr.current| && tr.checked.Some? && tr.checked.value < |w.pending|
    case Finish => tr.Preparing? && tr.i == |tr.current|
    case Fail => tr.Prepared?
    case Undo => tr.Aborting? && (tr.drained != [] ==> tr.drained[|tr.drained| - 1] in w.registries)
    case Publish => tr.Prepared?
  }

  function Do(w: World, step: Step): World
    requires Enabled(w, step)
  {
    var tr := w.transition;
    match step
    case Build(id, r) => w.(registries := w.registries[id := r])
    case Pin(pin, id) =>
      w.(pins := w.pins[pin := id],
         registries := w.registries[id := w.registries[id].(active := w.registries[id].active + 1)])
    case Commit(pin, source, name, event) =>
      w.(pending := w.pending[source := w.pending[source] + Recipients(w.registries[w.pins[pin]], name, event)])
    case Unpin(pin) =>
      var id := w.pins[pin];
      w.(pins := w.pins - {pin},
         registries := w.registries[id := w.registries[id].(active := w.registries[id].active - 1)])
    case Complete(source, item) => w.(pending := w.pending[source := w.pending[source] - {item}])
    case Begin(current, next) => w.(transition := Preparing(current, next, 0, None, []))
    case Skip => w.(transition := tr.(i := tr.i + 1))
    case Drain =>
      var id := tr.current[tr.i].registry;
      w.(registries := w.registries[id := w.registries[id].(draining := true)],
         transition := tr.(checked := Some(0), drained := tr.drained + [id]))
    case DrainFails => w.(transition := Aborting(tr.drained))
    case CheckSource =>
      if tr.checked.value < |w.pending| then w.(transition := tr.(checked := Some(tr.checked.value + 1)))
      else w.(transition := tr.(checked := None, i := tr.i + 1))
    case CheckBlocks => w.(transition := Aborting(tr.drained))
    case CheckFails => w.(transition := Aborting(tr.drained))
    case Finish => w.(transition := Prepared(tr.current, tr.next, tr.drained))
    case Fail => w.(transition := Aborting(tr.drained))
    case Undo =>
      if tr.drained == [] then w.(transition := Idle)
      else
        var id := tr.drained[|tr.drained| - 1];
        w.(registries := w.registries[id := w.registries[id].(draining := false)],
           transition := Aborting(tr.drained[..|tr.drained| - 1]))
    case Publish =>
      w.(published := tr.next, exposed := w.exposed + (set s | s in tr.next :: tr.next[s].registry), transition := Idle)
  }

  // ---------------------------------------------------------------- invariants

  function PinsOf(pins: map<PinId, RegId>, id: RegId): set<PinId> {
    set p | p in pins && pins[p] == id
  }

  /** Every pending site recipient has its handler in the published registry of its site. */
  ghost predicate PendingServed(w: World) {
    forall k, item | 0 <= k < |w.pending| && item in w.pending[k] && item.target.scope.Site? ::
      Served(w, item)
  }

  predicate Served(w: World, item: Item) {
    && item.target.scopeId in w.published
    && w.published[item.target.scopeId].registry in w.registries
    && Has(w.registries[w.published[item.target.scopeId].registry], item.name, item.target)
  }

  /** The registry of a pin is not draining. */
  ghost predicate PinsPlaced(w: World) {
    forall p | p in w.pins :: w.pins[p] in w.registries && w.pins[p] in w.exposed && !w.registries[w.pins[p]].draining
  }

  /** A registry's counter is the number of its pins. */
  ghost predicate PinsCounted(w: World) {
    forall id | id in w.registries :: w.registries[id].active == |PinsOf(w.pins, id)|
  }

  /** A registry that callers can reach is its site's current one, or drained for good. */
  ghost predicate ExposedOk(w: World) {
    && (forall s | s in w.published :: RuntimeOk(w.registries, s, w.published[s]) && w.published[s].registry in w.exposed)
    && (forall id | id in w.exposed :: id in w.registries)
    && (forall id | id in w.registries ::
          forall i | 0 <= i < |w.registries[id].entries| :: TargetHome(w.registries[id], w.registries[id].entries[i].target))
    && (forall id | id in w.exposed && w.registries[id].scope.Site? && !w.registries[id].draining ::
          w.registries[id].id in w.published && w.published[w.registries[id].id].registry == id)
  }

  predicate TargetHome(r: Reg, t: Target) {
    t.scope == r.scope && t.scopeId == r.id
  }

  /** The registries replaced by the first `n` current runtimes, in order. */
  function Replaced(current: seq<Runtime>, next: map<SiteId, Runtime>, n: nat): seq<RegId>
    requires n <= |current|
  {
    if n == 0 then []
    else Replaced(current, next, n - 1) + (if Candidate(next, current[n - 1]) then [] else [current[n - 1].registry])
  }

  /** Among published registries exactly the listed ones are draining. */
  ghost predicate InUse(published: map<SiteId, Runtime>, id: RegId) {
    exists s :: s in published && published[s].registry == id
  }

  ghost predicate DrainedExactly(w: World, drained: seq<RegId>) {
    && (forall i, j | 0 <= i < j < |drained| :: drained[i] != drained[j])
    && (forall i | 0 <= i < |drained| :: drained[i] in w.registries && InUse(w.published, drained[i]))
    && (forall s | s in w.published && w.published[s].registry in w.registries ::
          w.registries[w.published[s].registry].draining <==> w.published[s].registry in drained)
  }

  ghost predicate ClearUpTo(w: World, current: seq<Runtime>, next: map<SiteId, Runtime>, n: nat) {
    n <= |current| && forall j, k | 0 <= j < n && !Candidate(next, current[j]) && 0 <= k < |w.pending| ::
      Clear(w.registries, w.pending[k], next, current[j])
  }

  ghost predicate ClearSources(w: World, next: map<SiteId, Runtime>, current: Runtime, n: nat) {
    n <= |w.pending| && forall k | 0 <= k < n :: Clear(w.registries, w.pending[k], next, current)
  }

  ghost predicate TransitionOk(w: World) {
    match w.transition
    case Idle => DrainedExactly(w, [])
    case Aborting(drained) => DrainedExactly(w, drained)
    case Preparing(current, next, i, checked, drained) =>
      && PlanOk(w, current, next) && ClearUpTo(w, current, next, i) && DrainedExactly(w, drained)
      && (if checked.None? then drained == Replaced(current, next, i)
          else
            && i < |current| && !Candidate(next, current[i])
            && drained == Replaced(current, next, i) + [current[i].registry]
            && ClearSources(w, next, current[i], checked.value))
    case Prepared(current, next, drained) =>
      && PlanOk(w, current, next) && ClearUpTo(w, current, next, |current|) && DrainedExactly(w, drained)
      && drained == Replaced(current, next, |current|)
  }

  /** The part of the invariant that does not look at the transition. */
  ghost predicate Settled(w: World) {
    ExposedOk(w) && PinsPlaced(w) && PinsCounted(w) && PendingServed(w)
  }

  ghost predicate Inv(w: World) {
    Settled(w) && TransitionOk(w)
  }

  // ---------------------------------------------------------------- steps of mutations and deliveries

  lemma {:induction false} ReplacedHas(current: seq<Runtime>, next: map<SiteId, Runtime>, n: nat, j: nat)
    requires j < n <= |current| && !Candidate(next, current[j])
    ensures current[j].registry in Replaced(current, next, n)
  {
    if j < n - 1 {
      ReplacedHas(current, next, n - 1, j);
    }
  }

  lemma {:induction false} ReplacedOnly(current: seq<Runtime>, next: map<SiteId, Runtime>, n: nat, id: RegId)
    requires n <= |current|
    ensures id in Replaced(current, next, n) ==>
      exists j | 0 <= j < n :: !Candidate(next, current[j]) && current[j].registry == id
  {
    if n > 0 {
      ReplacedOnly(current, next, n - 1, id);
    }
  }

  /** Registries only differ in how often they are pinned, and new ones may appear. */
  ghost predicate SameButPins(w: World, r: World) {
    && r.published == w.published && r.exposed == w.exposed && r.transition == w.transition && |r.pending| == |w.pending|
    && (forall id | id in w.registries ::
          id in r.registries && r.registries[id] == w.registries[id].(active := r.registries[id].active))
    && (forall id | id in r.registries && id !in w.registries ::
          id !in w.exposed &&
          forall i | 0 <= i < |r.registries[id].entries| :: TargetHome(r.registries[id], r.registries[id].entries[i].target))
  }

  /** New recipients are served by a registry that is not draining. */
  ghost predicate PendingGrowsSafely(w: World, r: World) {
    |r.pending| == |w.pending| &&
    forall k, item | 0 <= k < |w.pending| && item in r.pending[k] && item !in w.pending[k] && item.target.scope.Site? ::
      Served(w, item) && !w.registries[w.published[item.target.scopeId].registry].draining
  }

  lemma SourceStaysClear(w: World, r: World, next: map<SiteId, Runtime>, current: Runtime, k: nat)
    requires SameButPins(w, r) && PendingGrowsSafely(w, r) && k < |w.pending| && Clear(w.registries, w.pending[k], next, current)
    requires current.site in w.published && w.published[current.site] == current
    requires current.registry in w.registries && w.registries[current.registry].draining
    ensures Clear(r.registries, r.pending[k], next, current)
  {
    forall item | item in r.pending[k] ensures Acceptable(r.registries, next, current, item) {
      if item in w.pending[k] {
        assert Acceptable(w.registries, next, current, item);
      }
    }
  }

  lemma PlanStays(w: World, r: World, current: seq<Runtime>, next: map<SiteId, Runtime>)
    requires SameButPins(w, r) && PlanOk(w, current, next)
    ensures PlanOk(r, current, next)
  {
  }

  lemma DrainedStays(w: World, r: World, drained: seq<RegId>)
    requires SameButPins(w, r) && ExposedOk(w) && DrainedExactly(w, drained)
    ensures DrainedExactly(r, drained)
  {
    forall s | s in r.published ensures RuntimeOk(w.registries, s, w.published[s]) {
    }
  }

  /** A current runtime whose registry is listed as drained really is draining. */
  lemma ListedIsDraining(w: World, current: seq<Runtime>, next: map<SiteId, Runtime>, drained: seq<RegId>, j: nat)
    requires ExposedOk(w) && PlanOk(w, current, next) && DrainedExactly(w, drained)
    requires j < |current| && current[j].registry in drained
    ensures current[j].registry in w.registries && w.registries[current[j].registry].draining
    ensures current[j].site in w.published && w.published[current[j].site] == current[j]
  {
    assert RuntimeOk(w.registries, current[j].site, w.published[current[j].site]);
  }

  lemma ClearStays(w: World, r: World, current: seq<Runtime>, next: map<SiteId, Runtime>, drained: seq<RegId>, n: nat)
    requires SameButPins(w, r) && PendingGrowsSafely(w, r) && ExposedOk(w)
    requires PlanOk(w, current, next) && DrainedExactly(w, drained) && ClearUpTo(w, current, next, n)
    requires Replaced(current, next, n) <= drained
    ensures ClearUpTo(r, current, next, n)
  {
    forall j, k | 0 <= j < n && !Candidate(next, current[j]) && 0 <= k < |r.pending|
      ensures Clear(r.registries, r.pending[k], next, current[j])
    {
      ReplacedHas(current, next, n, j);
      ListedIsDraining(w, current, next, drained, j);
      SourceStaysClear(w, r, next, current[j], k);
    }
  }

  lemma TransitionStays(w: World, r: World)
    requires SameButPins(w, r) && PendingGrowsSafely(w, r) && ExposedOk(w) && TransitionOk(w)
    ensures TransitionOk(r)
  {
    match w.transition
    case Idle => DrainedStays(w, r, []);
    case Aborting(drained) => DrainedStays(w, r, drained);
    case Preparing(current, next, i, checked, drained) =>
      PlanStays(w, r, current, next);
      DrainedStays(w, r, drained);
      ClearStays(w, r, current, next, drained, i);
      if checked.Some? {
        forall k | 0 <= k < checked.value ensures Clear(r.registries, r.pending[k], next, current[i]) {
          assert current[i].registry == drained[|drained| - 1];
          ListedIsDraining(w, current, next, drained, i);
          SourceStaysClear(w, r, next, current[i], k);
        }
      }
    case Prepared(current, next, drained) =>
      PlanStays(w, r, current, next);
      DrainedStays(w, r, drained);
      ClearStays(w, r, current, next, drained, |current|);
  }

  lemma PendingStaysServed(w: World, r: World)
    requires SameButPins(w, r) && PendingGrowsSafely(w, r) && PendingServed(w)
    ensures PendingServed(r)
  {
    forall k, item | 0 <= k < |r.pending| && item in r.pending[k] && item.target.scope.Site? ensures Served(r, item) {
      assert Served(w, item);
    }
  }

  lemma ExposedStays(w: World, r: World)
    requires SameButPins(w, r) && ExposedOk(w)
    ensures ExposedOk(r)
  {
    forall id | id in r.registries
      ensures forall i | 0 <= i < |r.registries[id].entries| :: TargetHome(r.registries[id], r.registries[id].entries[i].target)
    {
      if id in w.registries {
        assert r.registries[id].entries == w.registries[id].entries;
      }
    }
  }

  /** What a pinned registry registers for is served right now. */
  lemma CommitIsSafe(w: World, pin: PinId, source: nat, name: string, event: nat)
    requires ExposedOk(w) && PinsPlaced(w) && Enabled(w, Commit(pin, source, name, event))
    ensures PendingGrowsSafely(w, Do(w, Commit(pin, source, name, event)))
  {
    var r := Do(w, Commit(pin, source, name, event));
    var reg := w.registries[w.pins[pin]];
    forall k, item | 0 <= k < |w.pending| && item in r.pending[k] && item !in w.pending[k] && item.target.scope.Site?
      ensures Served(w, item) && !w.registries[w.published[item.target.scopeId].registry].draining
    {
      assert item in Recipients(reg, name, event);
      assert Has(reg, name, item.target);
    }
  }

  lemma PinCounts(w: World, pin: PinId, id: RegId)
    requires PinsCounted(w) && Enabled(w, Pin(pin, id))
    ensures PinsCounted(Do(w, Pin(pin, id)))
  {
    var pins := w.pins[pin := id];
    assert PinsOf(pins, id) == PinsOf(w.pins, id) + {pin};
    forall other | other != id ensures PinsOf(pins, other) == PinsOf(w.pins, other) {
    }
  }

  lemma UnpinCounts(w: World, pin: PinId)
    requires PinsCounted(w) && Enabled(w, Unpin(pin))
    ensures PinsCounted(Do(w, Unpin(pin)))
  {
    var id, pins := w.pins[pin], w.pins - {pin};
    assert PinsOf(pins, id) == PinsOf(w.pins, id) - {pin};
    forall other | other != id ensures PinsOf(pins, other) == PinsOf(w.pins, other) {
    }
  }

  lemma BuildCounts(w: World, id: RegId, reg: Reg)
    requires PinsPlaced(w) && PinsCounted(w) && Enabled(w, Build(id, reg))
    ensures PinsCounted(Do(w, Build(id, reg)))
  {
    assert PinsOf(w.pins, id) == {};
  }

  lemma PinKeeps(w: World, step: Step)
    requires Inv(w) && Enabled(w, step) && (step.Pin? || step.Unpin? || step.Build?)
    ensures PinsPlaced(Do(w, step)) && PinsCounted(Do(w, step))
    ensures SameButPins(w, Do(w, step)) && PendingGrowsSafely(w, Do(w, step))
  {
    match step
    case Pin(pin, id) => PinCounts(w, pin, id);
    case Unpin(pin) => UnpinCounts(w, pin);
    case Build(id, reg) => BuildCounts(w, id, reg);
  }

  lemma OutsideKeeps(w: World, step: Step)
    requires Inv(w) && Enabled(w, step)
    requires step.Build? || step.Pin? || step.Commit? || step.Unpin? || step.Complete?
    ensures Inv(Do(w, step))
  {
    var r := Do(w, step);
    if step.Commit? {
      CommitIsSafe(w, step.pin, step.source, step.name, step.event);
    } else if !step.Complete? {
      PinKeeps(w, step);
    }
    ExposedStays(w, r);
    PendingStaysServed(w, r);
    TransitionStays(w, r);
  }

  // ---------------------------------------------------------------- steps of the transition

  /** The site of a current runtime has been handled: extend the cleared part by one. */
  lemma ClearOneMore(w: World, current: seq<Runtime>, next: map<SiteId, Runtime>, n: nat)
    requires ClearUpTo(w, current, next, n) && n < |current|
    requires Candidate(next, current[n]) || ClearSources(w, next, current[n], |w.pending|)
    ensures ClearUpTo(w, current, next, n + 1)
  {
  }

  lemma BeginKeeps(w: World, current: seq<Runtime>, next: map<SiteId, Runtime>)
    requires Inv(w) && Enabled(w, Begin(current, next))
    ensures TransitionOk(Do(w, Begin(current, next)))
  {
    assert PlanOk(Do(w, Begin(current, next)), current, next);
  }

  /** A step that moves only the transition. */
  lemma SameWorld(w: World, r: World, current: seq<Runtime>, next: map<SiteId, Runtime>, n: nat, drained: seq<RegId>)
    requires r == w.(transition := r.transition) && n <= |current|
    requires PlanOk(w, current, next) && ClearUpTo(w, current, next, n) && DrainedExactly(w, drained)
    ensures PlanOk(r, current, next) && ClearUpTo(r, current, next, n) && DrainedExactly(r, drained)
  {
  }

  lemma SkipKeeps(w: World)
    requires TransitionOk(w) && Enabled(w, Skip)
    ensures TransitionOk(Do(w, Skip))
  {
    var tr := w.transition;
    ClearOneMore(w, tr.current, tr.next, tr.i);
    SameWorld(w, Do(w, Skip), tr.current, tr.next, tr.i + 1, tr.drained);
  }

  lemma EndKeeps(w: World, step: Step)
    requires TransitionOk(w) && Enabled(w, step) && (step.Finish? || step.Fail? || step.DrainFails? || step.CheckBlocks? || step.CheckFails?)
    ensures TransitionOk(Do(w, step))
  {
    if step.Finish? {
      assert ClearUpTo(Do(w, step), w.transition.current, w.transition.next, |w.transition.current|);
    }
  }

  /** One more source is clear for the site being checked. */
  lemma CheckNext(w: World)
    requires TransitionOk(w) && Enabled(w, CheckSource) && w.transition.checked.value < |w.pending|
    ensures TransitionOk(Do(w, CheckSource))
  {
    var tr := w.transition;
    SameWorld(w, Do(w, CheckSource), tr.current, tr.next, tr.i, tr.drained);
    ClearSourcesMore(w, Do(w, CheckSource), tr.next, tr.current[tr.i], tr.checked.value);
  }

  lemma ClearSourcesMore(w: World, r: World, next: map<SiteId, Runtime>, current: Runtime, n: nat)
    requires r == w.(transition := r.transition) && ClearSources(w, next, current, n)
    requires n < |w.pending| && Clear(w.registries, w.pending[n], next, current)
    ensures ClearSources(r, next, current, n + 1)
  {
  }

  /** All sources are clear for the site being checked. */
  lemma CheckLast(w: World)
    requires TransitionOk(w) && Enabled(w, CheckSource) && w.transition.checked.value == |w.pending|
    ensures TransitionOk(Do(w, CheckSource))
  {
    var tr := w.transition;
    ClearOneMore(w, tr.current, tr.next, tr.i);
    SameWorld(w, Do(w, CheckSource), tr.current, tr.next, tr.i + 1, tr.drained);
  }

  lemma CheckKeeps(w: World)
    requires TransitionOk(w) && Enabled(w, CheckSource)
    ensures TransitionOk(Do(w, CheckSource))
  {
    if w.transition.checked.value < |w.pending| {
      CheckNext(w);
    } else {
      CheckLast(w);
    }
  }

  /** Setting one registry's drain flag. */
  ghost predicate Flips(w: World, r: World, id: RegId, flag: bool) {
    && id in w.registries && r.registries == w.registries[id := w.registries[id].(draining := flag)]
    && r.published == w.published && r.exposed == w.exposed && r.pins == w.pins && r.pending == w.pending
  }

  lemma FlipKeepsPlan(w: World, r: World, id: RegId, flag: bool, current: seq<Runtime>, next: map<SiteId, Runtime>)
    requires Flips(w, r, id, flag) && id in w.exposed && PlanOk(w, current, next)
    ensures PlanOk(r, current, next)
  {
    forall s | s in next ensures RuntimeOk(r.registries, s, next[s]) {
      assert RuntimeOk(w.registries, s, next[s]);
    }
  }

  lemma FlipKeepsClear(w: World, r: World, id: RegId, flag: bool, next: map<SiteId, Runtime>, current: Runtime, k: nat)
    requires Flips(w, r, id, flag) && k < |w.pending| && Clear(w.registries, w.pending[k], next, current)
    ensures Clear(r.registries, r.pending[k], next, current)
  {
    forall item | item in r.pending[k] ensures Acceptable(r.registries, next, current, item) {
      assert Acceptable(w.registries, next, current, item);
    }
  }

  lemma FlipKeepsServed(w: World, r: World, id: RegId, flag: bool)
    requires Flips(w, r, id, flag) && PendingServed(w)
    ensures PendingServed(r)
  {
    forall k, item | 0 <= k < |r.pending| && item in r.pending[k] && item.target.scope.Site? ensures Served(r, item) {
      assert Served(w, item);
    }
  }

  lemma FlipKeepsExposed(w: World, r: World, id: RegId, flag: bool)
    requires Flips(w, r, id, flag) && ExposedOk(w)
    requires flag || exists s :: s in w.published && w.published[s].registry == id
    ensures ExposedOk(r)
  {
    forall s | s in r.published ensures RuntimeOk(r.registries, s, r.published[s]) {
      assert RuntimeOk(w.registries, s, w.published[s]);
    }
    forall other | other in r.registries
      ensures forall i | 0 <= i < |r.registries[other].entries| :: TargetHome(r.registries[other], r.registries[other].entries[i].target)
    {
      assert r.registries[other].entries == w.registries[other].entries;
    }
    if !flag {
      var s :| s in w.published && w.published[s].registry == id;
      assert RuntimeOk(w.registries, s, w.published[s]);
    }
  }

  lemma DrainAdds(w: World, r: World, site: SiteId, drained: seq<RegId>)
    requires ExposedOk(w) && DrainedExactly(w, drained) && site in w.published
    requires Flips(w, r, w.published[site].registry, true) && !w.registries[w.published[site].registry].draining
    ensures DrainedExactly(r, drained + [w.published[site].registry])
  {
    var id := w.published[site].registry;
    assert RuntimeOk(w.registries, site, w.published[site]);
    forall i | 0 <= i < |drained| ensures drained[i] != id && exists s :: s in r.published && r.published[s].registry == drained[i] {
      assert drained[i] in drained;
    }
    forall s | s in r.published
      ensures r.registries[r.published[s].registry].draining <==> r.published[s].registry in drained + [id]
    {
      assert RuntimeOk(w.registries, s, w.published[s]);
    }
  }

  lemma UndoRemoves(w: World, r: World, drained: seq<RegId>)
    requires ExposedOk(w) && DrainedExactly(w, drained) && drained != []
    requires Flips(w, r, drained[|drained| - 1], false)
    ensures DrainedExactly(r, drained[..|drained| - 1])
  {
    var n := |drained| - 1;
    forall s | s in r.published
      ensures r.registries[r.published[s].registry].draining <==> r.published[s].registry in drained[..n]
    {
      assert RuntimeOk(w.registries, s, w.published[s]);
      assert drained == drained[..n] + [drained[n]];
    }
  }

  lemma FlipKeepsClearUpTo(w: World, r: World, id: RegId, flag: bool, current: seq<Runtime>, next: map<SiteId, Runtime>, n: nat)
    requires Flips(w, r, id, flag) && ClearUpTo(w, current, next, n)
    ensures ClearUpTo(r, current, next, n)
  {
    forall j, k | 0 <= j < n && !Candidate(next, current[j]) && 0 <= k < |r.pending|
      ensures Clear(r.registries, r.pending[k], next, current[j])
    {
      FlipKeepsClear(w, r, id, flag, next, current[j], k);
    }
  }

  lemma DrainTarget(w: World)
    requires Inv(w) && Enabled(w, Drain)
    ensures var tr := w.transition; var rt := tr.current[tr.i];
      && rt.site in w.published && w.published[rt.site] == rt && rt.registry in w.exposed && rt.registry in w.registries
      && Flips(w, Do(w, Drain), rt.registry, true) && !w.registries[rt.registry].draining
  {
    var rt := w.transition.current[w.transition.i];
    assert w.published[rt.site] == rt;
    assert RuntimeOk(w.registries, rt.site, rt);
  }

  lemma DrainKeepsTransition(w: World)
    requires Inv(w) && Enabled(w, Drain)
    ensures TransitionOk(Do(w, Drain))
  {
    var tr := w.transition;
    var r := Do(w, Drain);
    var rt := tr.current[tr.i];
    DrainTarget(w);
    FlipKeepsPlan(w, r, rt.registry, true, tr.current, tr.next);
    DrainAdds(w, r, rt.site, tr.drained);
    FlipKeepsClearUpTo(w, r, rt.registry, true, tr.current, tr.next, tr.i);
  }

  lemma DrainKeeps(w: World)
    requires Inv(w) && Enabled(w, Drain)
    ensures Inv(Do(w, Drain))
  {
    var r := Do(w, Drain);
    var id := w.transition.current[w.transition.i].registry;
    DrainTarget(w);
    FlipKeepsExposed(w, r, id, true);
    FlipKeepsServed(w, r, id, true);
    DrainUnpinned(w, r, id);
    DrainKeepsTransition(w);
  }

  lemma DrainUnpinned(w: World, r: World, id: RegId)
    requires PinsPlaced(w) && PinsCounted(w) && Flips(w, r, id, true) && DrainError(w.registries[id]).None?
    ensures PinsPlaced(r) && PinsCounted(r)
  {
    assert PinsOf(w.pins, id) == {};
    forall p | p in r.pins ensures r.pins[p] != id {
      assert p in PinsOf(w.pins, w.pins[p]);
    }
  }

  lemma UndoKeeps(w: World)
    requires Inv(w) && Enabled(w, Undo)
    ensures Inv(Do(w, Undo))
  {
    var drained := w.transition.drained;
    var r := Do(w, Undo);
    if drained != [] {
      var id := drained[|drained| - 1];
      FlipKeepsExposed(w, r, id, false);
      FlipKeepsServed(w, r, id, false);
      UndoRemoves(w, r, drained);
    }
  }

  /** After publication every pending recipient is served by the new runtime of its site. */
  lemma PublishServes(w: World)
    requires Inv(w) && Enabled(w, Publish)
    ensures PendingServed(Do(w, Publish))
  {
    var tr := w.transition;
    var r := Do(w, Publish);
    forall k, item | 0 <= k < |r.pending| && item in r.pending[k] && item.target.scope.Site? ensures Served(r, item) {
      assert Served(w, item);
      var rt := w.published[item.target.scopeId];
      assert RuntimeOk(w.registries, item.target.scopeId, rt);
      var j :| 0 <= j < |tr.current| && tr.current[j] == rt;
      if !Candidate(tr.next, rt) {
        assert Clear(w.registries, w.pending[k], tr.next, tr.current[j]);
        assert Acceptable(w.registries, tr.next, rt, item);
      }
    }
  }

  /** A runtime that the transition replaces has been drained. */
  lemma ReplacedIsDraining(w: World, site: SiteId)
    requires Inv(w) && w.transition.Prepared? && site in w.published && w.published[site].registry in w.registries
    ensures Candidate(w.transition.next, w.published[site]) || w.registries[w.published[site].registry].draining
  {
    var tr := w.transition;
    var j :| 0 <= j < |tr.current| && tr.current[j] == w.published[site];
    if !Candidate(tr.next, tr.current[j]) {
      ReplacedHas(tr.current, tr.next, |tr.current|, j);
    }
  }

  /** A runtime that stays is not draining. */
  lemma KeptIsNotDraining(w: World, site: SiteId)
    requires Inv(w) && w.transition.Prepared? && site in w.published
    requires Candidate(w.transition.next, w.published[site])
    ensures w.published[site].registry in w.registries && !w.registries[w.published[site].registry].draining
  {
    var tr := w.transition;
    var rt := w.published[site];
    assert RuntimeOk(w.registries, site, rt);
    ReplacedOnly(tr.current, tr.next, |tr.current|, rt.registry);
    forall j | 0 <= j < |tr.current| && !Candidate(tr.next, tr.current[j]) ensures tr.current[j].registry != rt.registry {
      assert RuntimeOk(w.registries, tr.current[j].site, w.published[tr.current[j].site]);
    }
  }

  lemma PublishExposes(w: World)
    requires Inv(w) && Enabled(w, Publish)
    ensures ExposedOk(Do(w, Publish))
  {
    var tr := w.transition;
    var r := Do(w, Publish);
    forall id | id in r.exposed && r.registries[id].scope.Site? && !r.registries[id].draining
      ensures r.registries[id].id in r.published && r.published[r.registries[id].id].registry == id
    {
      if id in w.exposed {
        ReplacedIsDraining(w, w.registries[id].id);
      } else {
        var s :| s in tr.next && tr.next[s].registry == id;
        assert RuntimeOk(w.registries, s, tr.next[s]);
      }
    }
  }

  lemma PublishSettles(w: World)
    requires Inv(w) && Enabled(w, Publish)
    ensures TransitionOk(Do(w, Publish))
  {
    var tr := w.transition;
    forall s | s in tr.next ensures tr.next[s].registry in w.registries && !w.registries[tr.next[s].registry].draining {
      assert RuntimeOk(w.registries, s, tr.next[s]);
      if s in w.published && w.published[s] == tr.next[s] {
        KeptIsNotDraining(w, s);
      }
    }
  }

  lemma PublishKeeps(w: World)
    requires Inv(w) && Enabled(w, Publish)
    ensures Inv(Do(w, Publish))
  {
    PublishServes(w);
    PublishExposes(w);
    PublishSettles(w);
  }

  lemma OnlyTransition(w: World, r: World)
    requires Settled(w) && r == w.(transition := r.transition)
    ensures Settled(r)
  {
  }

  /** A step of the preparer that moves nothing but the transition. */
  predicate OwnStep(step: Step) {
    || step.Begin? || step.Skip? || step.DrainFails? || step.CheckSource? || step.CheckBlocks? || step.CheckFails?
    || step.Finish? || step.Fail?
  }

  lemma OwnStepMoves(w: World, step: Step)
    requires Settled(w) && Enabled(w, step) && OwnStep(step)
    ensures Settled(Do(w, step))
  {
    OnlyTransition(w, Do(w, step));
  }

  lemma OwnStepKeeps(w: World, step: Step)
    requires Inv(w) && Enabled(w, step) && OwnStep(step)
    ensures TransitionOk(Do(w, step))
  {
    if step.Begin? {
      BeginKeeps(w, step.current, step.next);
    } else if step.Skip? {
      SkipKeeps(w);
    } else if step.CheckSource? {
      CheckKeeps(w);
    } else {
      EndKeeps(w, step);
    }
  }

  lemma StepKeeps(w: World, step: Step)
    requires Inv(w) && Enabled(w, step)
    ensures Inv(Do(w, step))
  {
    if step.Drain? {
      DrainKeeps(w);
    } else if step.Undo? {
      UndoKeeps(w);
    } else if step.Publish? {
      PublishKeeps(w);
    } else if step.Build? || step.Pin? || step.Commit? || step.Unpin? || step.Complete? {
      OutsideKeeps(w, step);
    } else {
      OwnStepMoves(w, step);
      OwnStepKeeps(w, step);
    }
  }

  // ---------------------------------------------------------------- runs

  function After(start: World, run: seq<Step>): Option<World> {
    if run == [] then Some(start)
    else
      var before := After(start, run[..|run| - 1]);
      if before.Some? && Enabled(before.value, run[|run| - 1]) then Some(Do(before.value, run[|run| - 1])) else None
  }

  /** The step commits the event of that recipient, one of the after-handlers in the pinned registry. */
  ghost predicate Adds(w: World, step: Step, source: nat, item: Item)
    requires Enabled(w, step)
  {
    && step.Commit? && step.source == source && step.event == item.event && step.name == item.name
    && exists e | e in w.registries[w.pins[step.pin]].entries :: e.kind.AfterHook? && e.name == item.name && e.target == item.target
  }

  lemma PendingLength(w: World, step: Step)
    requires Enabled(w, step)
    ensures |Do(w, step).pending| == |w.pending|
  {
  }

  /** Recipients are pending exactly from the commit of their event to their completion, whatever transitions do. */
  lemma PendingExactly(w: World, step: Step, source: nat, item: Item)
    requires Enabled(w, step) && source < |w.pending|
    ensures |Do(w, step).pending| == |w.pending|
    ensures item in Do(w, step).pending[source] <==>
            Adds(w, step, source, item) || (item in w.pending[source] && step != Complete(source, item))
  {
    if step.Commit? && step.source == source {
      var r := w.registries[w.pins[step.pin]];
      if item in Recipients(r, step.name, step.event) {
        var i :| 0 <= i < |r.entries| && r.entries[i].name == step.name && r.entries[i].kind.AfterHook?
                 && item == Item(step.event, step.name, r.entries[i].target);
        assert r.entries[i] in r.entries;
      }
    }
  }

  /** A program that has just started: nothing pinned or draining, and its saved recipients validated. */
  ghost predicate Started(w: World) {
    && w.transition.Idle? && w.pins == map[] && ExposedOk(w) && PendingServed(w)
    && (forall id | id in w.registries :: w.registries[id].active == 0)
    && (forall s | s in w.published :: !w.registries[w.published[s].registry].draining)
  }

  lemma {:induction false} RunKeeps(start: World, run: seq<Step>)
    requires Started(start) && After(start, run).Some?
    ensures Inv(After(start, run).value)
  {
    if run == [] {
      forall id | id in start.registries ensures PinsOf(start.pins, id) == {} {
      }
    } else {
      RunKeeps(start, run[..|run| - 1]);
      StepKeeps(After(start, run[..|run| - 1]).value, run[|run| - 1]);
    }
  }

  /**
   In every run: pending site recipients always have their handler in the
   published registry of their site; a draining registry has no pin; and when no
   transition is under way, failed ones included, no published registry drains.
   */
  lemma TransitionsAreSafe(start: World, run: seq<Step>)
    requires Started(start) && After(start, run).Some?
    ensures var w := After(start, run).value;
      && PendingServed(w)
      && (forall p | p in w.pins :: w.pins[p] in w.registries && !w.registries[w.pins[p]].draining)
      && (w.transition.Idle? ==> forall s | s in w.published ::
            w.published[s].registry in w.registries && !w.registries[w.published[s].registry].draining)
  {
    RunKeeps(start, run);
    var w := After(start, run).value;
    forall s | s in w.published ensures RuntimeOk(w.registries, s, w.published[s]) {
    }
  }
}
