/** Building the application hook registry (entity_hooks.go). */
module HookBuild {
  import opened Wrappers
  import opened Lists
  import opened Sorting
  import Graphs
  import Text

  /** `dependencies` is empty for an application that declares none; `hasHooks` says that it registers hooks. */
  datatype Application = Application(code: string, dependencies: seq<string>, hasHooks: bool)

  datatype BuildError = InvalidApplication | DuplicateApplication(code: string)
                      | InvalidDependency(dependency: string, code: string)
                      | CyclicDependency(code: string) | RegistrationFailed(code: string)

  /** Whether the registrations of a module succeed in a registry that holds those of the modules listed. */
  type Accepts = (seq<string>, string) -> bool

  datatype Plan = Plan(items: map<string, Application>, known: set<string>, accepts: Accepts) {
    function Dependencies(code: string): seq<string>
      requires code in items
    {
      items[code].dependencies
    }

    /** The dependencies that are applications themselves. */
    function Edges(code: string): seq<string>
      requires code in items
    {
      Applications(Dependencies(code))
    }

    function Applications(codes: seq<string>): (r: seq<string>)
      ensures forall c :: c in r <==> c in codes && c in items
    {
      if codes == [] then []
      else if codes[0] in items then [codes[0]] + Applications(codes[1..])
      else Applications(codes[1..])
    }

    function Graph(): Graphs.Graph<string> {
      map code | code in items :: Edges(code)
    }

    /** Known, not the module itself, and not named before. */
    predicate DependencyOk(code: string, i: nat)
      requires code in items && i < |Dependencies(code)|
    {
      var dependency := Dependencies(code)[i];
      dependency != code && dependency in known && dependency !in Dependencies(code)[..i]
    }

    predicate DependenciesOk(code: string)
      requires code in items
    {
      forall i | 0 <= i < |Dependencies(code)| :: DependencyOk(code, i)
    }

    /** The modules of the order that register hooks. */
    function Registered(order: seq<string>): seq<string> {
      if order == [] then []
      else
        var n := |order| - 1;
        if order[n] in items && items[order[n]].hasHooks then Registered(order[..n]) + [order[n]] else Registered(order[..n])
    }

    predicate AcceptedAt(order: seq<string>, i: nat)
      requires i < |order|
    {
      order[i] in items && (items[order[i]].hasHooks ==> accepts(Registered(order[..i]), order[i]))
    }

    predicate AllAccepted(order: seq<string>) {
      forall i | 0 <= i < |order| :: AcceptedAt(order, i)
    }
  }

  // ---------------------------------------------------------------- the search as a function

  function Visit(plan: Plan, stack: seq<string>, order: seq<string>, code: string): Result<seq<string>, BuildError>
    requires code in plan.items
    decreases |plan.items.Keys - Members(stack)|, 0
  {
    if code in order then Success(order)
    else if code in stack then Failure(CyclicDependency(code))
    else
      OneLess(plan, stack, code);
      match VisitFrom(plan, stack + [code], order, code, 0)
      case Failure(e) => Failure(e)
      case Success(before) =>
        if plan.items[code].hasHooks && !plan.accepts(plan.Registered(before), code) then Failure(RegistrationFailed(code))
        else Success(before + [code])
  }

  function VisitFrom(plan: Plan, stack: seq<string>, order: seq<string>, code: string, i: nat)
    : Result<seq<string>, BuildError>
    requires code in plan.items && i <= |plan.Dependencies(code)|
    decreases |plan.items.Keys - Members(stack)|, 1, |plan.Dependencies(code)| - i
  {
    if i == |plan.Dependencies(code)| then Success(order)
    else
      var dependency := plan.Dependencies(code)[i];
      if !plan.DependencyOk(code, i) then Failure(InvalidDependency(dependency, code))
      else if dependency !in plan.items then VisitFrom(plan, stack, order, code, i + 1)
      else
        match Visit(plan, stack, order, dependency)
        case Failure(e) => Failure(e)
        case Success(longer) => VisitFrom(plan, stack, longer, code, i + 1)
  }

  lemma OneLess(plan: Plan, stack: seq<string>, code: string)
    requires code in plan.items && code !in stack
    ensures |plan.items.Keys - Members(stack + [code])| < |plan.items.Keys - Members(stack)|
  {
    assert Members(stack + [code]) == Members(stack) + {code};
    Graphs.SmallerRest(plan.items.Keys, Members(stack), Members(stack + [code]), code);
  }

  function BuildAll(plan: Plan, codes: seq<string>): Result<seq<string>, BuildError>
    requires forall c | c in codes :: c in plan.items
  {
    if codes == [] then Success([])
    else
      var before := BuildAll(plan, codes[..|codes| - 1]);
      if before.Failure? then before else Visit(plan, [], before.value, codes[|codes| - 1])
  }

  // ---------------------------------------------------------------- what the search achieves

  /** Built after their dependencies, with valid dependencies and accepted hooks; none is still being built. */
  ghost predicate Built(plan: Plan, stack: seq<string>, order: seq<string>) {
    && Graphs.Topological(plan.Graph(), order)
    && (forall c | c in order :: c in plan.items && plan.DependenciesOk(c))
    && plan.AllAccepted(order)
    && (forall c | c in stack :: c !in order)
  }

  ghost predicate Chain(plan: Plan, stack: seq<string>) {
    Graphs.Path(plan.Graph(), stack) && forall c | c in stack :: c in plan.items
  }

  /** The reason of a failure is really there. */
  ghost predicate Explained(plan: Plan, e: BuildError) {
    match e
    case InvalidDependency(dependency, code) =>
      && code in plan.items
      && exists i | 0 <= i < |plan.Dependencies(code)| :: plan.Dependencies(code)[i] == dependency && !plan.DependencyOk(code, i)
    case CyclicDependency(_) => exists cycle :: Graphs.Cycle(plan.Graph(), cycle)
    case RegistrationFailed(code) =>
      code in plan.items && plan.items[code].hasHooks && exists before :: !plan.accepts(before, code)
    case InvalidApplication => false
    case DuplicateApplication(_) => false
  }

  lemma {:induction false} VisitBuilds(plan: Plan, stack: seq<string>, order: seq<string>, code: string)
    requires code in plan.items && Built(plan, stack, order) && Chain(plan, stack)
    requires stack != [] ==> code in plan.Edges(stack[|stack| - 1])
    ensures Reached(plan, stack, order, code, Visit(plan, stack, order, code))
    decreases |plan.items.Keys - Members(stack)|, 0
  {
    if code in order {
    } else if code in stack {
      var cycle := Graphs.CloseCycle(plan.Graph(), stack, code);
    } else {
      OneLess(plan, stack, code);
      Graphs.AppendPath(plan.Graph(), stack, code);
      assert (stack + [code])[|stack|] == code;
      VisitFromBuilds(plan, stack + [code], order, code, 0);
      FinishBuilds(plan, stack, order, code);
    }
  }

  ghost predicate Reached(plan: Plan, stack: seq<string>, order: seq<string>, code: string,
                          r: Result<seq<string>, BuildError>) {
    match r
    case Success(longer) => Built(plan, stack, longer) && order <= longer && code in longer
    case Failure(e) => Explained(plan, e)
  }

  ghost predicate ReachedAll(plan: Plan, stack: seq<string>, order: seq<string>, code: string,
                             r: Result<seq<string>, BuildError>)
    requires code in plan.items
  {
    match r
    case Success(longer) =>
      && Built(plan, stack, longer) && order <= longer && plan.DependenciesOk(code)
      && forall c | c in plan.Edges(code) :: c in longer
    case Failure(e) => Explained(plan, e)
  }

  lemma FinishBuilds(plan: Plan, stack: seq<string>, order: seq<string>, code: string)
    requires code in plan.items && code !in stack && code !in order
    requires ReachedAll(plan, stack + [code], order, code, VisitFrom(plan, stack + [code], order, code, 0))
    ensures Reached(plan, stack, order, code, Visit(plan, stack, order, code))
  {
    var deeper := VisitFrom(plan, stack + [code], order, code, 0);
    assert code in stack + [code] && forall c | c in stack :: c in stack + [code];
    if Visit(plan, stack, order, code).Success? {
      AppendBuilt(plan, stack, deeper.value, code);
    }
  }

  lemma AppendBuilt(plan: Plan, stack: seq<string>, order: seq<string>, code: string)
    requires code in plan.items && code !in stack && code !in order && Built(plan, stack, order)
    requires plan.DependenciesOk(code) && forall c | c in plan.Edges(code) :: c in order
    requires plan.items[code].hasHooks ==> plan.accepts(plan.Registered(order), code)
    ensures Built(plan, stack, order + [code])
  {
    Graphs.AppendTopological(plan.Graph(), order, code);
    var longer := order + [code];
    forall i | 0 <= i < |longer| ensures plan.AcceptedAt(longer, i) {
      if i < |order| {
        assert longer[..i] == order[..i] && plan.AcceptedAt(order, i);
      } else {
        assert longer[..i] == order;
      }
    }
  }

  lemma {:induction false} VisitFromBuilds(plan: Plan, stack: seq<string>, order: seq<string>, code: string, i: nat)
    requires code in plan.items && i <= |plan.Dependencies(code)| && Built(plan, stack, order) && Chain(plan, stack)
    requires stack != [] && stack[|stack| - 1] == code
    requires forall j | 0 <= j < i :: DependencyDone(plan, order, code, j)
    ensures ReachedAll(plan, stack, order, code, VisitFrom(plan, stack, order, code, i))
    decreases |plan.items.Keys - Members(stack)|, 1, |plan.Dependencies(code)| - i
  {
    if i == |plan.Dependencies(code)| {
      forall c | c in plan.Edges(code) ensures c in order {
        var j :| 0 <= j < i && plan.Dependencies(code)[j] == c;
        assert DependencyDone(plan, order, code, j);
      }
      assert forall j | 0 <= j < i :: DependencyDone(plan, order, code, j) ==> plan.DependencyOk(code, j);
    } else if plan.DependencyOk(code, i) {
      var dependency := plan.Dependencies(code)[i];
      if dependency !in plan.items {
        VisitFromBuilds(plan, stack, order, code, i + 1);
      } else {
        VisitBuilds(plan, stack, order, dependency);
        var deeper := Visit(plan, stack, order, dependency);
        if deeper.Success? {
          forall j | 0 <= j < i ensures DependencyDone(plan, deeper.value, code, j) {
            assert DependencyDone(plan, order, code, j);
          }
          VisitFromBuilds(plan, stack, deeper.value, code, i + 1);
        }
      }
    }
  }

  ghost predicate DependencyDone(plan: Plan, order: seq<string>, code: string, j: nat)
    requires code in plan.items && j < |plan.Dependencies(code)|
  {
    && plan.DependencyOk(code, j)
    && (plan.Dependencies(code)[j] in plan.items ==> plan.Dependencies(code)[j] in order)
  }

  lemma {:induction false} BuildAllBuilds(plan: Plan, codes: seq<string>)
    requires forall c | c in codes :: c in plan.items
    ensures var r := BuildAll(plan, codes);
            if r.Success? then Built(plan, [], r.value) && forall c | c in codes :: c in r.value
            else Explained(plan, r.error)
  {
    if codes != [] {
      var n := |codes| - 1;
      BuildAllBuilds(plan, codes[..n]);
      if BuildAll(plan, codes[..n]).Success? {
        VisitBuilds(plan, [], BuildAll(plan, codes[..n]).value, codes[n]);
        assert codes == codes[..n] + [codes[n]];
      }
    }
  }

  /** Every application once, after the applications it depends on, with its hooks accepted. */
  ghost predicate Complete(plan: Plan, order: seq<string>) {
    Graphs.Topological(plan.Graph(), order) && Members(order) == plan.items.Keys && plan.AllAccepted(order)
  }

  /** All declared dependencies are valid, and they form no cycle. */
  ghost predicate Sound(plan: Plan) {
    && (forall c | c in plan.items :: plan.DependenciesOk(c))
    && forall cycle :: !Graphs.Cycle(plan.Graph(), cycle)
  }

  /**
   Success means that every application is built exactly once, after the applications
   it depends on, that all declared dependencies are valid and that there is no cycle;
   a failure names something that is wrong.
   */
  lemma BuildIsRight(plan: Plan, codes: seq<string>)
    requires Members(codes) == plan.items.Keys
    ensures var r := BuildAll(plan, codes);
            if r.Success? then Complete(plan, r.value) && Sound(plan) else Explained(plan, r.error)
  {
    assert forall c | c in codes :: c in plan.items;
    BuildAllBuilds(plan, codes);
    if BuildAll(plan, codes).Success? {
      var order := BuildAll(plan, codes).value;
      assert forall c | c in plan.items :: c in codes;
      forall cycle ensures !Graphs.Cycle(plan.Graph(), cycle) {
        if |cycle| >= 2 && Graphs.Path(plan.Graph(), cycle) {
          Graphs.NoCycle(plan.Graph(), order, cycle);
        }
      }
    }
  }

  /** Without failing registrations the build succeeds exactly on acyclic graphs of valid dependencies. */
  lemma BuildsExactly(plan: Plan, codes: seq<string>)
    requires Members(codes) == plan.items.Keys && forall before, c :: plan.accepts(before, c)
    ensures BuildAll(plan, codes).Success? <==> Sound(plan)
  {
    BuildIsRight(plan, codes);
  }

  // ---------------------------------------------------------------- the program

  datatype Mark = Building | Done

  class Builder {
    const plan: Plan
    var state: map<string, Mark>
    var registered: seq<string> // the modules whose hooks the registry holds
    var order: seq<string>      // in which they were finished

    constructor (plan: Plan)
      ensures this.plan == plan && Right([]) && order == []
    {
      this.plan, state, registered, order := plan, map[], [], [];
    }

    ghost predicate Right(stack: seq<string>)
      reads this
    {
      && (forall c :: c in state && state[c].Building? <==> c in stack)
      && (forall c :: c in state && state[c].Done? <==> c in order)
      && registered == plan.Registered(order)
    }

    method Build(code: string, ghost stack: seq<string>) returns (e: Option<BuildError>)
      requires code in plan.items && Right(stack)
      modifies this
      ensures match Visit(plan, stack, old(order), code)
              case Success(longer) => e.None? && Right(stack) && order == longer
              case Failure(x) => e == Some(x)
      decreases |plan.items.Keys - Members(stack)|, 0
    {
      if code in state {
        return if state[code].Done? then None else Some(CyclicDependency(code));
      }
      state := state[code := Building];
      OneLess(plan, stack, code);
      e := BuildDependencies(code, stack + [code]);
      if e.Some? { return; }
      e := Finish(code, stack);
    }

    /** Registers the hooks of a module whose dependencies are built. */
    method Finish(code: string, ghost stack: seq<string>) returns (e: Option<BuildError>)
      requires code in plan.items && code !in stack && Right(stack + [code])
      modifies this
      ensures var refused := plan.items[code].hasHooks && !plan.accepts(plan.Registered(old(order)), code);
              if refused then e == Some(RegistrationFailed(code))
              else e.None? && Right(stack) && order == old(order) + [code]
    {
      if plan.items[code].hasHooks {
        if !plan.accepts(registered, code) {
          return Some(RegistrationFailed(code));
        }
        registered := registered + [code];
      }
      assert code in stack + [code];
      state, order := state[code := Done], order + [code];
      assert order[..|order| - 1] == old(order);
      e := None;
    }

    method BuildDependencies(code: string, ghost stack: seq<string>) returns (e: Option<BuildError>)
      requires code in plan.items && Right(stack)
      modifies this
      ensures match VisitFrom(plan, stack, old(order), code, 0)
              case Success(longer) => e.None? && Right(stack) && order == longer
              case Failure(x) => e == Some(x)
      decreases |plan.items.Keys - Members(stack)|, 1
    {
      var dependencies := plan.Dependencies(code);
      var seen: set<string> := {};
      for i := 0 to |dependencies|
        invariant Right(stack) && seen == Members(dependencies[..i])
        invariant VisitFrom(plan, stack, old(order), code, 0) == VisitFrom(plan, stack, order, code, i)
      {
        var dependency := dependencies[i];
        assert dependencies[..i + 1] == dependencies[..i] + [dependency];
        if dependency == code || dependency !in plan.known || dependency in seen {
          return Some(InvalidDependency(dependency, code));
        }
        seen := seen + {dependency};
        if dependency in plan.items {
          e := Build(dependency, stack);
          if e.Some? { return; }
        }
      }
      e := None;
    }
  }

  /** The applications by code, unless one is missing, unnamed or repeated. */
  function Collected(applications: seq<Option<Application>>): Result<map<string, Application>, BuildError> {
    if applications == [] then Success(map[])
    else
      match Collected(applications[..|applications| - 1])
      case Failure(e) => Failure(e)
      case Success(items) =>
        var last := applications[|applications| - 1];
        if last.None? || last.value.code == "" then Failure(InvalidApplication)
        else if last.value.code in items then Failure(DuplicateApplication(last.value.code))
        else Success(items[last.value.code := last.value])
  }

  /** The codes in ascending order. */
  ghost predicate SortedCodes(codes: seq<string>, keys: set<string>) {
    Sorted(Text.Less, codes) && multiset(codes) == multiset(keys)
  }

  /** The hooks of the modules in the order in which the search finishes them, or its error. */
  ghost predicate Answers(plan: Plan, codes: seq<string>, order: seq<string>, r: Result<seq<string>, BuildError>)
    requires Members(codes) <= plan.items.Keys
  {
    assert forall c | c in codes :: c in Members(codes);
    var built := BuildAll(plan, codes);
    if built.Failure? then r == Failure(built.error)
    else order == built.value && r == Success(plan.Registered(order))
  }

  method BuildApplicationHooks(applications: seq<Option<Application>>, modules: seq<string>, accepts: Accepts)
    returns (r: Result<seq<string>, BuildError>, codes: seq<string>, order: seq<string>)
    ensures Outcome(applications, Members(modules), accepts, r, codes, order)
  {
    codes, order := [], [];
    var items: map<string, Application> := map[];
    for i := 0 to |applications|
      invariant Collected(applications[..i]) == Success(items)
      invariant forall j | i <= j <= |applications| && Collected(applications[..j]).Success? :: Collected(applications[..i]).Success?
    {
      assert applications[..i + 1][..i] == applications[..i];
      var application := applications[i];
      if application.None? || application.value.code == "" {
        FailureStays(applications, i + 1);
        return Failure(InvalidApplication), codes, order;
      }
      if application.value.code in items {
        FailureStays(applications, i + 1);
        return Failure(DuplicateApplication(application.value.code)), codes, order;
      }
      items := items[application.value.code := application.value];
    }
    assert applications[..|applications|] == applications;
    var collected: seq<string> := [];
    var rest := items.Keys;
    while rest != {}
      invariant rest <= items.Keys && multiset(collected) + multiset(rest) == multiset(items.Keys)
      decreases |rest|
    {
      var code :| code in rest;
      collected, rest := collected + [code], rest - {code};
    }
    var sorted := Sort(Text.Less, collected);
    Text.LessIsAnOrder();
    SortSorts(Text.Less, collected);
    SortContents(Text.Less, collected);
    codes := sorted;
    SameMembers(sorted, items.Keys);
    var plan := Plan(items, Members(modules) + items.Keys, accepts);
    r, order := BuildSorted(plan, sorted);
  }

  method BuildSorted(plan: Plan, codes: seq<string>) returns (r: Result<seq<string>, BuildError>, order: seq<string>)
    requires Members(codes) <= plan.items.Keys
    ensures Answers(plan, codes, order, r)
  {
    assert forall c | c in codes :: c in Members(codes);
    var builder := new Builder(plan);
    order := [];
    for i := 0 to |codes|
      invariant builder.plan == plan && builder.Right([]) && BuildAll(plan, codes[..i]) == Success(builder.order)
    {
      assert codes[..i + 1][..i] == codes[..i];
      var e := builder.Build(codes[i], []);
      if e.Some? {
        BuildFailureStays(plan, codes, i + 1);
        return Failure(e.value), order;
      }
    }
    assert codes[..|codes|] == codes;
    r, order := Success(builder.registered), builder.order;
  }

  lemma {:induction false} FailureStays(applications: seq<Option<Application>>, i: nat)
    requires i <= |applications| && Collected(applications[..i]).Failure?
    ensures Collected(applications) == Collected(applications[..i])
  {
    if i == |applications| {
      assert applications[..i] == applications;
    } else {
      var n := |applications| - 1;
      assert applications[..n][..i] == applications[..i];
      FailureStays(applications[..n], i);
    }
  }

  lemma {:induction false} BuildFailureStays(plan: Plan, codes: seq<string>, i: nat)
    requires i <= |codes| && (forall c | c in codes :: c in plan.items) && BuildAll(plan, codes[..i]).Failure?
    ensures BuildAll(plan, codes) == BuildAll(plan, codes[..i])
  {
    if i == |codes| {
      assert codes[..i] == codes;
    } else {
      var n := |codes| - 1;
      assert codes[..n][..i] == codes[..i];
      BuildFailureStays(plan, codes[..n], i);
    }
  }

  lemma SameMembers(codes: seq<string>, keys: set<string>)
    requires multiset(codes) == multiset(keys)
    ensures Members(codes) == keys
  {
    forall c ensures c in codes <==> c in keys {
      assert c in multiset(codes) <==> c in multiset(keys);
    }
  }

  // ---------------------------------------------------------------- the order of the input does not matter

  lemma SortedCodesAreUnique(codes: seq<string>, others: seq<string>, keys: set<string>)
    requires SortedCodes(codes, keys) && SortedCodes(others, keys)
    ensures codes == others
  {
    Text.LessIsAnOrder();
    SortedIsUnique(Text.Less, codes, others);
  }

  predicate Named(a: Option<Application>) {
    a.Some? && a.value.code != ""
  }

  function CodeBag(a: Option<Application>): multiset<string> {
    if a.Some? then multiset{a.value.code} else multiset{}
  }

  /** All present and named, no code twice. */
  ghost predicate Distinct(applications: seq<Option<Application>>) {
    && (forall a | a in applications :: Named(a))
    && forall c :: Collect(CodeBag, applications)[c] <= 1
  }

  ghost predicate Holds(items: map<string, Application>, applications: seq<Option<Application>>) {
    && (forall a | a in applications :: a.Some? && a.value.code in items && items[a.value.code] == a.value)
    && forall c | c in items :: Some(items[c]) in applications && items[c].code == c
  }

  lemma {:induction false} CollectedMeans(applications: seq<Option<Application>>)
    ensures Collected(applications).Success? <==> Distinct(applications)
    ensures Collected(applications).Success? ==> Holds(Collected(applications).value, applications)
    ensures Collected(applications).Success? ==> CountsOnce(Collected(applications).value, applications)
  {
    if applications != [] {
      var n := |applications| - 1;
      var before, last := applications[..n], applications[n];
      CollectedMeans(before);
      assert applications == before + [last];
      if Distinct(applications) {
        DistinctBefore(applications);
      }
      if Collected(applications).Success? {
        CollectedMore(before, last, Collected(before).value);
      }
    }
  }

  ghost predicate CountsOnce(items: map<string, Application>, applications: seq<Option<Application>>) {
    forall c :: c in items <==> Collect(CodeBag, applications)[c] == 1
  }

  /** One more application with a new code. */
  lemma CollectedMore(before: seq<Option<Application>>, last: Option<Application>, items: map<string, Application>)
    requires Distinct(before) && Holds(items, before) && CountsOnce(items, before)
    requires Named(last) && last.value.code !in items
    ensures var more := items[last.value.code := last.value];
            Distinct(before + [last]) && Holds(more, before + [last]) && CountsOnce(more, before + [last])
  {
    HoldsMore(items, before, last);
    assert (before + [last])[..|before|] == before;
    forall c ensures Collect(CodeBag, before + [last])[c] == Collect(CodeBag, before)[c] + if c == last.value.code then 1 else 0 {
    }
    assert Collect(CodeBag, before)[last.value.code] <= 1;
  }

  lemma DistinctBefore(applications: seq<Option<Application>>)
    requires applications != [] && Distinct(applications)
    ensures var before, last := applications[..|applications| - 1], applications[|applications| - 1];
            Distinct(before) && Named(last) && Collect(CodeBag, before)[last.value.code] == 0
  {
    var before, last := applications[..|applications| - 1], applications[|applications| - 1];
    assert applications == before + [last];
    forall c ensures Collect(CodeBag, before)[c] <= 1 {
      assert Collect(CodeBag, applications)[c] <= 1;
    }
    assert Collect(CodeBag, applications)[last.value.code] <= 1;
  }

  lemma HoldsMore(items: map<string, Application>, applications: seq<Option<Application>>, last: Option<Application>)
    requires Holds(items, applications) && Named(last) && last.value.code !in items
    ensures Holds(items[last.value.code := last.value], applications + [last])
  {
  }

  lemma CollectedAlike(applications: seq<Option<Application>>, others: seq<Option<Application>>)
    requires multiset(applications) == multiset(others)
    ensures Collected(applications).Success? <==> Collected(others).Success?
    ensures Collected(applications).Success? ==> Collected(applications) == Collected(others)
  {
    CollectedMeans(applications);
    CollectedMeans(others);
    CollectPermutation(CodeBag, applications, others);
    forall a ensures a in applications <==> a in others {
      assert a in multiset(applications) <==> a in multiset(others);
    }
    if Collected(applications).Success? {
      SameItems(applications, others, Collected(applications).value, Collected(others).value);
    }
  }

  /** What `BuildApplicationHooks` returns for the applications. */
  ghost predicate Outcome(applications: seq<Option<Application>>, modules: set<string>, accepts: Accepts,
                          r: Result<seq<string>, BuildError>, codes: seq<string>, order: seq<string>) {
    var items := Collected(applications);
    if items.Failure? then r == Failure(items.error)
    else
      && SortedCodes(codes, items.value.Keys) && Members(codes) == items.value.Keys
      && Answers(Plan(items.value, modules + items.value.Keys, accepts), codes, order, r)
  }

  /**
   Two arrangements of the same applications have the same outcome: the same hooks in
   the same order, or the same failure; only which of several unusable applications
   is named first may differ.
   */
  lemma OrderIsIrrelevant(applications: seq<Option<Application>>, others: seq<Option<Application>>, modules: set<string>,
                          accepts: Accepts, r: Result<seq<string>, BuildError>, codes: seq<string>, order: seq<string>,
                          r': Result<seq<string>, BuildError>, codes': seq<string>, order': seq<string>)
    requires multiset(applications) == multiset(others)
    requires Outcome(applications, modules, accepts, r, codes, order)
    requires Outcome(others, modules, accepts, r', codes', order')
    ensures Collected(applications).Success? <==> Collected(others).Success?
    ensures Collected(applications).Success? ==> r == r' && codes == codes' && (r.Success? ==> order == order')
    ensures Collected(applications).Failure? ==> r.Failure? && r'.Failure?
  {
    CollectedAlike(applications, others);
    if Collected(applications).Success? {
      SortedCodesAreUnique(codes, codes', Collected(applications).value.Keys);
    }
  }

  lemma SameItems(applications: seq<Option<Application>>, others: seq<Option<Application>>,
                  items: map<string, Application>, items': map<string, Application>)
    requires Holds(items, applications) && Holds(items', others)
    requires forall a :: a in applications <==> a in others
    ensures items == items'
  {
    forall c | c in items ensures c in items' && items'[c] == items[c] {
      assert Some(items[c]) in others;
    }
    forall c | c in items' ensures c in items {
      assert Some(items'[c]) in applications;
    }
  }
}
