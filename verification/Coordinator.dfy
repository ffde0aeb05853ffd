/** Invalidation targets and their staged replacement (cache/coordinator.go, cache/module.go, cache/manager.go). */
module Coordinator {
  import opened Wrappers
  import Text

  type StoreId = nat
  datatype Target = Target(scope: string, code: string)
  type Targets = map<Target, StoreId>
  type Scopes = map<string, Targets>

  // ---------------------------------------------------------------- physical names

  /** Prefixes a key or tag with its namespace and the length of the namespace. */
  function ScopedValue(namespace: string, value: string): string {
    Text.Decimal(|namespace|) + ":" + namespace + value
  }

  /** Different namespaces never share a physical name. */
  lemma ScopedValueIsInjective(a: string, x: string, b: string, y: string)
    requires ScopedValue(a, x) == ScopedValue(b, y)
    ensures a == b && x == y
  {
    var m, n := Text.Decimal(|a|), Text.Decimal(|b|);
    var s := ScopedValue(a, x);
    assert s == m + ":" + a + x == n + ":" + b + y;
    assert s[|m|] == ':' && s[|n|] == ':';
    forall i | 0 <= i < |m| ensures s[i] != ':' { assert s[i] == m[i] && m[i] in m; }
    forall i | 0 <= i < |n| ensures s[i] != ':' { assert s[i] == n[i] && n[i] in n; }
    assert s[..|m|] == m == n;
    Text.DecimalIsInjective(|a|, |b|);
    var rest := s[|m| + 1..];
    assert rest == a + x == b + y;
    assert rest[..|a|] == a && rest[..|a|] == b && rest[|a|..] == x && rest[|a|..] == y;
  }

  datatype RuntimeScope = RuntimeScope(site: string, profile: string)

  function SiteScope(site: string): string {
    "sites/" + site + "/dependencies"
  }

  function DependencyScope(scope: RuntimeScope): string {
    if scope.site != "" then SiteScope(scope.site) else "profiles/" + scope.profile + "/dependencies"
  }

  lemma Inner(prefix: string, a: string, b: string, suffix: string)
    requires prefix + a + suffix == prefix + b + suffix
    ensures a == b
  {
    var s := prefix + a + suffix;
    assert |a| == |b|;
    assert s[|prefix|..|prefix| + |a|] == a && s[|prefix|..|prefix| + |a|] == b;
  }

  /** Two runtimes share dependencies only as one site, or as one profile outside any site. */
  lemma DependencyScopesAreSeparate(a: RuntimeScope, b: RuntimeScope)
    requires DependencyScope(a) == DependencyScope(b)
    ensures a.site == b.site && (a.site == "" ==> a.profile == b.profile)
  {
    assert DependencyScope(a)[0] == (if a.site != "" then 's' else 'p');
    assert DependencyScope(b)[0] == (if b.site != "" then 's' else 'p');
    if a.site != "" {
      Inner("sites/", a.site, b.site, "/dependencies");
    } else {
      Inner("profiles/", a.profile, b.profile, "/dependencies");
    }
  }

  // ---------------------------------------------------------------- staged targets as a machine

  /** `cloneRuntimeScopes(previous)` with the desired targets added. */
  function Combined(previous: Scopes, desired: Scopes): Scopes {
    map site | site in previous.Keys + desired.Keys ::
      (if site in previous then previous[site] else map[]) + (if site in desired then desired[site] else map[])
  }

  /** Every target lies in the scope of its site, as the manager checks. */
  ghost predicate Placed(scopes: Scopes) {
    forall site, t | site in scopes && t in scopes[site] :: t.scope == SiteScope(site)
  }

  ghost predicate Registered(scopes: Scopes, t: Target, store: StoreId) {
    exists site | site in scopes :: t in scopes[site] && scopes[site][t] == store
  }

  ghost predicate Known(scopes: Scopes, t: Target) {
    exists site | site in scopes :: t in scopes[site]
  }

  datatype Update = Update(previous: Scopes, desired: Scopes, completed: bool)
  datatype State = State(scopes: Scopes, updates: seq<Update>)
  datatype Step = Prepare(desired: Scopes) | Publish(i: nat) | Abort(i: nat)

  const START := State(map[], [])

  predicate CanDo(s: State, step: Step) {
    match step
    case Prepare(_) => true
    case Publish(i) => i < |s.updates|
    case Abort(i) => i < |s.updates|
  }

  /** Completing an update a second time does nothing. */
  function Do(s: State, step: Step): State
    requires CanDo(s, step)
  {
    match step
    case Prepare(desired) => State(Combined(s.scopes, desired), s.updates + [Update(s.scopes, desired, false)])
    case Publish(i) => if s.updates[i].completed then s else State(s.updates[i].desired, Complete(s.updates, i))
    case Abort(i) => if s.updates[i].completed then s else State(s.updates[i].previous, Complete(s.updates, i))
  }

  function Complete(updates: seq<Update>, i: nat): seq<Update>
    requires i < |updates|
  {
    updates[i := updates[i].(completed := true)]
  }

  function After(run: seq<Step>): Option<State> {
    if run == [] then Some(START)
    else
      var before := After(run[..|run| - 1]);
      if before.Some? && CanDo(before.value, run[|run| - 1]) then Some(Do(before.value, run[|run| - 1])) else None
  }

  /** An update is prepared only when the earlier ones are complete. */
  predicate OneAtATime(run: seq<Step>) {
    forall n | 0 <= n < |run| && run[n].Prepare? && After(run[..n]).Some? :: AllComplete(After(run[..n]).value.updates)
  }

  predicate AllComplete(updates: seq<Update>) {
    forall u | u in updates :: u.completed
  }

  /** The targets that were published last: the effect of aborted updates is gone. */
  function Published(run: seq<Step>): Scopes {
    if run == [] then map[]
    else
      var n := |run| - 1;
      var s := After(run[..n]);
      if run[n].Publish? && s.Some? && CanDo(s.value, run[n]) && !s.value.updates[run[n].i].completed
      then s.value.updates[run[n].i].desired
      else Published(run[..n])
  }

  /** Only the newest update can be open; while it is, both old and new targets are registered. */
  ghost predicate Right(run: seq<Step>, s: State) {
    if AllComplete(s.updates) then s.scopes == Published(run)
    else
      var n := |s.updates| - 1;
      && n >= 0 && !s.updates[n].completed && AllComplete(s.updates[..n])
      && s.updates[n].previous == Published(run) && s.scopes == Combined(Published(run), s.updates[n].desired)
  }

  lemma {:induction false} UpdatesAreRight(run: seq<Step>)
    requires After(run).Some? && OneAtATime(run)
    ensures Right(run, After(run).value)
  {
    if run != [] {
      var n := |run| - 1;
      var before := run[..n];
      forall m | 0 <= m < |before| && before[m].Prepare? && After(before[..m]).Some?
        ensures AllComplete(After(before[..m]).value.updates)
      {
        assert before[..m] == run[..m];
      }
      UpdatesAreRight(before);
      RightStep(run, After(before).value);
    }
  }

  lemma RightPrepared(run: seq<Step>, s: State, desired: Scopes)
    requires AllComplete(s.updates) && s.scopes == Published(run)
    ensures Right(run, Do(s, Prepare(desired)))
  {
    var t := Do(s, Prepare(desired));
    assert t.updates[..|s.updates|] == s.updates;
    assert t.updates[|s.updates|] in t.updates;
  }

  lemma RightStep(run: seq<Step>, s: State)
    requires run != [] && After(run[..|run| - 1]) == Some(s) && CanDo(s, run[|run| - 1])
    requires Right(run[..|run| - 1], s) && (run[|run| - 1].Prepare? ==> AllComplete(s.updates))
    ensures Right(run, Do(s, run[|run| - 1]))
  {
    var n := |run| - 1;
    match run[n]
    case Prepare(desired) => RightPrepared(run, s, desired);
    case Publish(i) => RightCompleted(run, s, i);
    case Abort(i) => RightCompleted(run, s, i);
  }

  lemma RightCompleted(run: seq<Step>, s: State, i: nat)
    requires run != [] && After(run[..|run| - 1]) == Some(s) && i < |s.updates|
    requires run[|run| - 1] == Publish(i) || run[|run| - 1] == Abort(i)
    requires Right(run[..|run| - 1], s)
    ensures Right(run, Do(s, run[|run| - 1]))
  {
    if !s.updates[i].completed {
      assert s.updates[i] in s.updates;
      OnlyTheLast(s.updates, i);
    }
  }

  lemma OnlyTheLast(updates: seq<Update>, i: nat)
    requires i < |updates| && !updates[i].completed && AllComplete(updates[..|updates| - 1])
    ensures i == |updates| - 1 && AllComplete(Complete(updates, i)) && !AllComplete(updates)
  {
    forall j | 0 <= j < |updates| - 1 ensures updates[j].completed {
      assert updates[..|updates| - 1][j] in updates[..|updates| - 1];
    }
    assert updates[i] in updates;
    forall u | u in Complete(updates, i) ensures u.completed {
      var j :| 0 <= j < |updates| && Complete(updates, i)[j] == u;
    }
  }

  /** While an update is open every target of either side stays registered, the desired store taking precedence. */
  lemma CombinedReachesBoth(previous: Scopes, desired: Scopes, t: Target)
    requires Placed(previous) && Placed(desired)
    ensures Placed(Combined(previous, desired))
    ensures Known(Combined(previous, desired), t) <==> Known(previous, t) || Known(desired, t)
    ensures forall store :: Registered(Combined(previous, desired), t, store) <==>
              Registered(desired, t, store) || (!Known(desired, t) && Registered(previous, t, store))
  {
    OneSitePerTarget();
    CombinedKnows(previous, desired, t);
    forall store
      ensures Registered(Combined(previous, desired), t, store) <==>
                Registered(desired, t, store) || (!Known(desired, t) && Registered(previous, t, store))
    {
      CombinedRegisters(previous, desired, t, store);
    }
  }

  lemma OneSitePerTarget()
    ensures forall a, b | SiteScope(a) == SiteScope(b) :: a == b
  {
    forall a, b | SiteScope(a) == SiteScope(b) ensures a == b {
      Inner("sites/", a, b, "/dependencies");
    }
  }

  lemma CombinedKnows(previous: Scopes, desired: Scopes, t: Target)
    ensures Known(Combined(previous, desired), t) <==> Known(previous, t) || Known(desired, t)
  {
    var both := Combined(previous, desired);
    forall site | site in previous && t in previous[site] ensures site in both && t in both[site] {
    }
    forall site | site in desired && t in desired[site] ensures site in both && t in both[site] {
    }
  }

  lemma CombinedRegisters(previous: Scopes, desired: Scopes, t: Target, store: StoreId)
    requires Placed(previous) && Placed(desired)
    ensures Registered(Combined(previous, desired), t, store) <==>
              Registered(desired, t, store) || (!Known(desired, t) && Registered(previous, t, store))
  {
    var both := Combined(previous, desired);
    OneSitePerTarget();
    if site :| site in desired && t in desired[site] && desired[site][t] == store {
      assert site in both && both[site][t] == store;
    } else if site :| !Known(desired, t) && site in previous && t in previous[site] && previous[site][t] == store {
      assert site in both && both[site][t] == store;
    }
  }

  /** A store that is replaced under the same target is no longer reached from the moment of preparation. */
  lemma ReplacedStoreIsDroppedEarly()
    ensures var t := Target(SiteScope("1"), "redis");
            var both := Combined(map["1" := map[t := 7]], map["1" := map[t := 8]]);
            Registered(both, t, 8) && !Registered(both, t, 7)
  {
    var t := Target(SiteScope("1"), "redis");
    var both := Combined(map["1" := map[t := 7]], map["1" := map[t := 8]]);
    assert "1" in both && both["1"][t] == 8;
  }

  /** Overlapping updates: aborting the older one undoes a younger one that was published. */
  lemma OverlappingAbortLosesTargets()
    ensures var t := Target(SiteScope("1"), "redis");
            var run := [Prepare(map[]), Prepare(map["1" := map[t := 7]]), Publish(1), Abort(0)];
            && After(run).Some? && !OneAtATime(run)
            && Known(Published(run), t) && !Known(After(run).value.scopes, t)
  {
    var t := Target(SiteScope("1"), "redis");
    var d: Scopes := map["1" := map[t := 7]];
    var run := [Prepare(map[]), Prepare(d), Publish(1), Abort(0)];
    var r1, s1 := Further([], START, Prepare(map[]));
    var r2, s2 := Further(r1, s1, Prepare(d));
    var r3, s3 := Further(r2, s2, Publish(1));
    var r4, s4 := Further(r3, s3, Abort(0));
    assert r4 == run && run[..1] == r1 && run[..3] == r3 && r3[..2] == r2;
    assert s1.updates[0] in s1.updates && "1" in d && t in d["1"];
  }

  /** Finds the moment at which update `i` was prepared: it remembers what was registered then. */
  lemma {:induction false} PreparedAt(run: seq<Step>, i: nat) returns (n: nat)
    requires After(run).Some? && i < |After(run).value.updates|
    ensures n < |run| && run[n].Prepare? && After(run[..n]).Some? && |After(run[..n]).value.updates| == i
    ensures After(run).value.updates[i].previous == After(run[..n]).value.scopes
  {
    n := |run| - 1;
    if i < |After(run[..n]).value.updates| {
      var last := n;
      n := PreparedAt(run[..last], i);
      assert run[..last][..n] == run[..n];
    }
  }

  /** Whatever happened since, an abort brings back exactly what was registered when its update was prepared. */
  lemma AbortRestoresSnapshot(run: seq<Step>, i: nat) returns (n: nat)
    requires After(run).Some? && i < |After(run).value.updates| && !After(run).value.updates[i].completed
    ensures n < |run| && run[n].Prepare? && After(run[..n]).Some? && |After(run[..n]).value.updates| == i
    ensures After(run + [Abort(i)]).Some? && After(run + [Abort(i)]).value.scopes == After(run[..n]).value.scopes
  {
    n := PreparedAt(run, i);
    assert (run + [Abort(i)])[..|run|] == run;
  }

  /** Every target that was published last is registered. */
  ghost predicate Covers(run: seq<Step>) {
    After(run).Some? && forall t | Known(Published(run), t) :: Known(After(run).value.scopes, t)
  }

  /** The step at moment `n` is no abort, or one of an update at whose preparation the targets published by now were registered. */
  ghost predicate SafeAbort(run: seq<Step>, n: nat)
    requires n < |run|
  {
    var s := After(run[..n]);
    s.Some? && run[n].Abort? && CanDo(s.value, run[n]) && !s.value.updates[run[n].i].completed ==>
      forall t | Known(Published(run[..n]), t) :: Known(s.value.updates[run[n].i].previous, t)
  }

  lemma CoversStep(run: seq<Step>, n: nat)
    requires n < |run| && After(run[..n + 1]).Some? && Covers(run[..n])
    ensures Covers(run[..n + 1]) <==> SafeAbort(run, n)
  {
    assert run[..n + 1][..n] == run[..n];
    var s := After(run[..n]).value;
    if run[n].Prepare? {
      forall t | Known(s.scopes, t) ensures Known(Combined(s.scopes, run[n].desired), t) {
        var site :| site in s.scopes && t in s.scopes[site];
        assert site in Combined(s.scopes, run[n].desired);
      }
    }
  }

  lemma {:induction false} RunPrefix(run: seq<Step>, n: nat)
    requires After(run).Some? && n <= |run|
    ensures After(run[..n]).Some?
    decreases |run|
  {
    if n < |run| {
      assert run[..|run| - 1][..n] == run[..n];
      RunPrefix(run[..|run| - 1], n);
    } else {
      assert run[..n] == run;
    }
  }

  lemma {:induction false} CoversWhileSafe(run: seq<Step>, n: nat)
    requires After(run).Some? && n <= |run| && forall m: nat | m < n :: SafeAbort(run, m)
    ensures Covers(run[..n])
  {
    if n > 0 {
      CoversWhileSafe(run, n - 1);
      RunPrefix(run, n);
      CoversStep(run, n - 1);
    }
  }

  /** Published targets stay registered throughout a run, overlapping updates included, exactly when all its aborts are safe. */
  lemma PublishedSurviveExactly(run: seq<Step>)
    requires After(run).Some?
    ensures (forall n: nat | n <= |run| :: Covers(run[..n])) <==> forall n: nat | n < |run| :: SafeAbort(run, n)
  {
    if forall n: nat | n < |run| :: SafeAbort(run, n) {
      forall n: nat | n <= |run| ensures Covers(run[..n]) {
        CoversWhileSafe(run, n);
      }
    } else if forall n: nat | n <= |run| :: Covers(run[..n]) {
      forall n: nat | n < |run| ensures SafeAbort(run, n) {
        RunPrefix(run, n + 1);
        assert Covers(run[..n]) && Covers(run[..n + 1]);
        CoversStep(run, n);
      }
    }
  }

  lemma Further(run: seq<Step>, s: State, step: Step) returns (run': seq<Step>, s': State)
    requires After(run) == Some(s) && CanDo(s, step)
    ensures run' == run + [step] && s' == Do(s, step) && After(run') == Some(s')
  {
    run', s' := run + [step], Do(s, step);
    assert run'[..|run|] == run;
  }

  // ---------------------------------------------------------------- tags

  /** Non-empty tags, the first occurrence of each. */
  function Unique(tags: seq<string>): seq<string> {
    if tags == [] then []
    else
      var before := Unique(tags[..|tags| - 1]);
      var last := tags[|tags| - 1];
      if last == "" || last in before then before else before + [last]
  }

  lemma {:induction false} UniqueIsRight(tags: seq<string>)
    ensures forall tag :: tag in Unique(tags) <==> tag in tags && tag != ""
    ensures forall i, j | 0 <= i < j < |Unique(tags)| :: Unique(tags)[i] != Unique(tags)[j]
  {
    if tags != [] {
      UniqueIsRight(tags[..|tags| - 1]);
      assert tags == tags[..|tags| - 1] + [tags[|tags| - 1]];
    }
  }

  method UniqueTags(tags: seq<string>) returns (result: seq<string>)
    ensures result == Unique(tags)
  {
    var seen: set<string> := {};
    result := [];
    for i := 0 to |tags|
      invariant result == Unique(tags[..i]) && seen == set tag | tag in result
    {
      assert tags[..i + 1][..i] == tags[..i];
      if tags[i] == "" || tags[i] in seen {
        continue;
      }
      seen := seen + {tags[i]};
      result := result + [tags[i]];
    }
    assert tags[..|tags|] == tags;
  }

  // ---------------------------------------------------------------- the coordinator

  /** One `InvalidateTag` of a physical store. */
  datatype Call = Call(store: StoreId, tag: string)

  /** The store that a target stands for: runtime targets hide static ones. */
  ghost predicate Reached(static_: Targets, scopes: Scopes, t: Target, store: StoreId) {
    Registered(scopes, t, store) || (!Known(scopes, t) && t in static_ && static_[t] == store)
  }

  /** Exactly the reached stores of the chosen targets, with exactly the non-empty tags, in the target's scope. */
  ghost predicate Wanted(static_: Targets, scopes: Scopes, scope: Option<string>, tags: seq<string>, call: Call) {
    exists t, tag :: WantedFor(static_, scopes, scope, tags, call, t, tag)
  }

  ghost predicate WantedFor(static_: Targets, scopes: Scopes, scope: Option<string>, tags: seq<string>, call: Call,
                            t: Target, tag: string) {
    && Reached(static_, scopes, t, call.store) && (scope.Some? ==> t.scope == scope.value)
    && tag in tags && tag != "" && call.tag == ScopedValue(t.scope, tag)
  }

  ghost predicate Merged(previous: Scopes, desired: Scopes, rest: set<string>, combined: Scopes) {
    && combined.Keys == previous.Keys + (desired.Keys - rest)
    && forall site | site in combined ::
         combined[site] == (if site in previous then previous[site] else map[]) +
                           (if site in desired && site !in rest then desired[site] else map[])
  }

  /** Adds the desired targets site by site, in any order, to a copy. */
  method Combine(previous: Scopes, desired: Scopes) returns (combined: Scopes)
    ensures combined == Combined(previous, desired)
  {
    combined := previous;
    NothingMerged(previous, desired);
    var rest := desired.Keys;
    while rest != {}
      invariant rest <= desired.Keys && Merged(previous, desired, rest, combined)
      decreases |rest|
    {
      var site :| site in rest;
      var current := if site in combined then combined[site] else map[];
      MergeOne(previous, desired, rest, combined, site);
      rest := rest - {site};
      combined := combined[site := current + desired[site]];
    }
    AllMerged(previous, desired, combined);
  }

  lemma AllMerged(previous: Scopes, desired: Scopes, combined: Scopes)
    requires Merged(previous, desired, {}, combined)
    ensures combined == Combined(previous, desired)
  {
    assert desired.Keys - {} == desired.Keys;
    forall site | site in combined ensures combined[site] == Combined(previous, desired)[site] {
    }
  }

  lemma NothingMerged(previous: Scopes, desired: Scopes)
    ensures Merged(previous, desired, desired.Keys, previous)
  {
    forall site | site in previous ensures previous[site] == previous[site] + map[] {
    }
  }

  lemma MergeOne(previous: Scopes, desired: Scopes, rest: set<string>, combined: Scopes, site: string)
    requires Merged(previous, desired, rest, combined) && site in rest && rest <= desired.Keys
    ensures var current := if site in combined then combined[site] else map[];
            Merged(previous, desired, rest - {site}, combined[site := current + desired[site]])
  {
    var none: Targets := map[];
    var current := if site in combined then combined[site] else map[];
    assert site in previous ==> current == previous[site] + none == previous[site];
    assert site !in previous ==> current == none;
  }

  class Coordinator {
    var targets: Targets
    var scopes: Scopes
    var updates: seq<Update>
    ghost var run: seq<Step>

    constructor ()
      ensures Valid() && run == [] && targets == map[]
    {
      targets, scopes, updates, run := map[], map[], [], [];
    }

    ghost predicate Valid()
      reads this
    {
      After(run) == Some(State(scopes, updates)) && Placed(scopes) &&
      forall u | u in updates :: Placed(u.previous) && Placed(u.desired)
    }

    method Register(scope: string, code: string, store: StoreId)
      requires Valid()
      modifies this`targets
      ensures Valid()
      ensures targets == if scope == "" then old(targets) else old(targets)[Target(scope, code) := store]
    {
      if scope != "" {
        targets := targets[Target(scope, code) := store];
      }
    }

    /** Old and new targets are registered from here on; the result names the update. */
    method PrepareTargets(desired: Scopes) returns (update: nat)
      requires Valid() && Placed(desired)
      modifies this`scopes, this`updates, this`run
      ensures Valid() && run == old(run) + [Prepare(desired)] && update == |old(updates)|
      ensures scopes == Combined(old(scopes), desired)
    {
      var combined := Combine(scopes, desired);
      CombinedIsPlaced(scopes, desired);
      assert (run + [Prepare(desired)])[..|run|] == run;
      update, run := |updates|, run + [Prepare(desired)];
      updates := updates + [Update(scopes, desired, false)];
      scopes := combined;
    }

    method PublishTargets(i: nat)
      requires Valid() && i < |updates|
      modifies this`scopes, this`updates, this`run
      ensures Valid() && run == old(run) + [Publish(i)]
      ensures scopes == if old(updates)[i].completed then old(scopes) else old(updates)[i].desired
      ensures updates == Complete(old(updates), i)
    {
      assert (run + [Publish(i)])[..|run|] == run;
      run := run + [Publish(i)];
      assert updates[i] in updates;
      if !updates[i].completed {
        scopes, updates := updates[i].desired, Complete(updates, i);
      } else {
        assert updates == Complete(updates, i);
      }
    }

    method AbortTargets(i: nat)
      requires Valid() && i < |updates|
      modifies this`scopes, this`updates, this`run
      ensures Valid() && run == old(run) + [Abort(i)]
      ensures scopes == if old(updates)[i].completed then old(scopes) else old(updates)[i].previous
      ensures updates == Complete(old(updates), i)
    {
      assert (run + [Abort(i)])[..|run|] == run;
      run := run + [Abort(i)];
      assert updates[i] in updates;
      if !updates[i].completed {
        scopes, updates := updates[i].previous, Complete(updates, i);
      } else {
        assert updates == Complete(updates, i);
      }
    }

    /** The effective targets, of one scope or of all. */
    method Gather(scope: Option<string>) returns (r: Targets)
      requires Placed(scopes)
      ensures Gathered(targets, scopes, scope, r)
    {
      r := map t | t in targets && (scope.Some? ==> t.scope == scope.value) :: targets[t];
      var rest := scopes.Keys;
      while rest != {}
        invariant rest <= scopes.Keys
        invariant Gathered(targets, Without(scopes, rest), scope, r)
        decreases |rest|
      {
        var site :| site in rest;
        var own := map t | t in scopes[site] && (scope.Some? ==> t.scope == scope.value) :: scopes[site][t];
        GatherOne(targets, scopes, rest, site, scope, r, own);
        rest := rest - {site};
        r := r + own;
      }
      assert Without(scopes, rest) == scopes;
    }

    /** Sends the tags to one target. */
    method SendAll(store: StoreId, t: Target, tags: seq<string>, fails: Call -> bool, failures: seq<Call>, calls: seq<Call>)
      returns (failures': seq<Call>, calls': seq<Call>)
      requires forall call :: call in failures <==> call in calls && fails(call)
      ensures forall call :: call in calls' <==> call in calls || SentFor(store, t, tags, call)
      ensures forall call :: call in failures' <==> call in calls' && fails(call)
    {
      failures', calls' := failures, calls;
      for i := 0 to |tags|
        invariant forall call :: call in calls' <==>
                    call in calls || exists j | 0 <= j < i :: call == Call(store, ScopedValue(t.scope, tags[j]))
        invariant forall call :: call in failures' <==> call in calls' && fails(call)
      {
        var call := Call(store, ScopedValue(t.scope, tags[i]));
        calls' := calls' + [call];
        if fails(call) {
          failures' := failures' + [call];
        }
      }
    }

    /**
     Sends every tag to every effective target, of one scope or of all, whatever fails on
     the way; `fails` tells which calls do. Nothing else is called, and all failures are reported.
     */
    method InvalidateIn(scope: Option<string>, tags: seq<string>, fails: Call -> bool) returns (failures: seq<Call>, calls: seq<Call>)
      requires Valid()
      ensures forall call :: call in calls <==> Wanted(targets, scopes, scope, tags, call)
      ensures forall call :: call in failures <==> call in calls && fails(call)
    {
      var reached := Gather(scope);
      var unique := UniqueTags(tags);
      UniqueIsRight(tags);
      failures, calls := [], [];
      var rest := reached.Keys;
      while rest != {}
        invariant rest <= reached.Keys
        invariant forall call :: call in calls <==> Sent(reached, reached.Keys - rest, unique, call)
        invariant forall call :: call in failures <==> call in calls && fails(call)
        decreases |rest|
      {
        var t :| t in rest;
        failures, calls := SendAll(reached[t], t, unique, fails, failures, calls);
        SentMore(reached, reached.Keys - rest, unique, t);
        rest := rest - {t};
        assert reached.Keys - rest == (reached.Keys - (rest + {t})) + {t};
      }
      assert reached.Keys - rest == reached.Keys;
      forall call ensures call in calls <==> Wanted(targets, scopes, scope, tags, call) {
        SentMeans(targets, scopes, scope, tags, reached, unique, call);
      }
    }
  }

  ghost predicate Sent(reached: Targets, done: set<Target>, tags: seq<string>, call: Call) {
    exists t | t in done && t in reached :: SentFor(reached[t], t, tags, call)
  }

  ghost predicate SentFor(store: StoreId, t: Target, tags: seq<string>, call: Call) {
    exists j | 0 <= j < |tags| :: call == Call(store, ScopedValue(t.scope, tags[j]))
  }

  lemma SentMore(reached: Targets, done: set<Target>, tags: seq<string>, t: Target)
    requires t in reached
    ensures forall call :: Sent(reached, done + {t}, tags, call) <==>
              Sent(reached, done, tags, call) || SentFor(reached[t], t, tags, call)
  {
    forall call ensures Sent(reached, done + {t}, tags, call) <==>
                        Sent(reached, done, tags, call) || SentFor(reached[t], t, tags, call)
    {
      if Sent(reached, done, tags, call) {
        var u :| u in done && u in reached && SentFor(reached[u], u, tags, call);
        assert u in done + {t};
      } else if SentFor(reached[t], t, tags, call) {
        assert t in done + {t};
      }
    }
  }

  function Without(scopes: Scopes, rest: set<string>): Scopes {
    map site | site in scopes && site !in rest :: scopes[site]
  }

  ghost predicate Has(r: Targets, t: Target, store: StoreId) {
    t in r && r[t] == store
  }

  ghost predicate Gathered(static_: Targets, scopes: Scopes, scope: Option<string>, r: Targets) {
    forall t, store :: Has(r, t, store) <==> Reached(static_, scopes, t, store) && (scope.Some? ==> t.scope == scope.value)
  }

  lemma SentMeans(static_: Targets, scopes: Scopes, scope: Option<string>, tags: seq<string>,
                  reached: Targets, unique: seq<string>, call: Call)
    requires Gathered(static_, scopes, scope, reached)
    requires forall tag :: tag in unique <==> tag in tags && tag != ""
    ensures Sent(reached, reached.Keys, unique, call) <==> Wanted(static_, scopes, scope, tags, call)
  {
    if Sent(reached, reached.Keys, unique, call) {
      var t :| t in reached && SentFor(reached[t], t, unique, call);
      var j :| 0 <= j < |unique| && call == Call(reached[t], ScopedValue(t.scope, unique[j]));
      assert unique[j] in unique && Has(reached, t, reached[t]);
      assert WantedFor(static_, scopes, scope, tags, call, t, unique[j]);
    }
    if Wanted(static_, scopes, scope, tags, call) {
      var t, tag :| WantedFor(static_, scopes, scope, tags, call, t, tag);
      assert tag in unique;
      var j :| 0 <= j < |unique| && unique[j] == tag;
      assert Has(reached, t, call.store);
      assert SentFor(reached[t], t, unique, call);
    }
  }

  lemma CombinedIsPlaced(previous: Scopes, desired: Scopes)
    requires Placed(previous) && Placed(desired)
    ensures Placed(Combined(previous, desired))
  {
  }

  lemma OneSite(scopes: Scopes, a: string, b: string, t: Target)
    requires Placed(scopes) && a in scopes && b in scopes && t in scopes[a] && t in scopes[b]
    ensures a == b
  {
    Inner("sites/", a, b, "/dependencies");
  }

  /** The targets of one more site hide static ones and no others. */
  lemma ReachedOne(static_: Targets, scopes: Scopes, rest: set<string>, site: string, t: Target, store: StoreId)
    requires Placed(scopes) && site in rest && rest <= scopes.Keys
    ensures Reached(static_, Without(scopes, rest - {site}), t, store) <==>
            if t in scopes[site] then scopes[site][t] == store else Reached(static_, Without(scopes, rest), t, store)
  {
    var before, after := Without(scopes, rest), Without(scopes, rest - {site});
    assert after == before[site := scopes[site]];
    if t in scopes[site] {
      forall s | s in after && t in after[s] ensures s == site {
        OneSite(scopes, s, site, t);
      }
      assert site in after && after[site] == scopes[site];
      assert Known(after, t) && Registered(after, t, scopes[site][t]);
    } else {
      assert forall s | s in before :: s in after && before[s] == after[s];
      assert forall s | s in after && t in after[s] :: s in before && before[s] == after[s];
      assert Known(after, t) <==> Known(before, t);
      assert Registered(after, t, store) <==> Registered(before, t, store);
    }
  }

  lemma GatherOne(static_: Targets, scopes: Scopes, rest: set<string>, site: string, scope: Option<string>,
                  r: Targets, own: Targets)
    requires Placed(scopes) && site in rest && rest <= scopes.Keys && Gathered(static_, Without(scopes, rest), scope, r)
    requires own == map t | t in scopes[site] && (scope.Some? ==> t.scope == scope.value) :: scopes[site][t]
    ensures Gathered(static_, Without(scopes, rest - {site}), scope, r + own)
  {
    forall t, store
      ensures Has(r + own, t, store) <==>
              Reached(static_, Without(scopes, rest - {site}), t, store) && (scope.Some? ==> t.scope == scope.value)
    {
      ReachedOne(static_, scopes, rest, site, t, store);
      assert Has(r, t, store) <==>
             Reached(static_, Without(scopes, rest), t, store) && (scope.Some? ==> t.scope == scope.value);
    }
  }

  /** An invalidation within one scope touches no name of another scope, in any store. */
  lemma ScopedInvalidationStaysInScope(static_: Targets, scopes: Scopes, scope: string, tags: seq<string>, call: Call,
                                       other: string, tag: string)
    requires Wanted(static_, scopes, Some(scope), tags, call) && call.tag == ScopedValue(other, tag)
    ensures other == scope && tag in tags
  {
    var t, own :| WantedFor(static_, scopes, Some(scope), tags, call, t, own);
    ScopedValueIsInjective(scope, own, other, tag);
  }

  /** While an update is open, invalidation of all scopes reaches every static, previous and desired target. */
  lemma OpenUpdateReachesEverything(static_: Targets, previous: Scopes, desired: Scopes, t: Target)
    requires Placed(previous) && Placed(desired)
    ensures (exists store :: Reached(static_, Combined(previous, desired), t, store)) <==>
            t in static_ || Known(previous, t) || Known(desired, t)
  {
    CombinedReachesBoth(previous, desired, t);
    var both := Combined(previous, desired);
    if Known(both, t) {
      var site :| site in both && t in both[site];
      assert Registered(both, t, both[site][t]);
      assert Reached(static_, both, t, both[site][t]);
    } else if t in static_ {
      assert Reached(static_, both, t, static_[t]);
    }
  }
}
