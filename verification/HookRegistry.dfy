/** Registries of typed entity hooks: built once, sealed, then pinned and drained. */
module HookRegistry {
  import opened Wrappers
  import opened Text

  datatype Scope = Application | Site

  datatype Target = Target(moduleCode: string, handler: string, scope: Scope, scopeId: string)

  /** The payload type of a key. */
  type TypeToken = nat

  datatype HookKey = HookKey(owner: string, name: string, scope: Scope, token: TypeToken)

  datatype Kind = BeforeHook | AfterHook

  datatype Entry = Entry(owner: string, name: string, token: TypeToken, target: Target, kind: Kind)

  datatype RegError = Invalid | NotDependency | Sealed | NotSealed | WrongScope | Duplicate | Conflict | Busy | Unavailable

  datatype Reg = Reg(scope: Scope, id: string, isSealed: bool, draining: bool, active: int, entries: seq<Entry>)

  predicate Has(r: Reg, name: string, target: Target) {
    exists i | 0 <= i < |r.entries| ::
      r.entries[i].name == name && r.entries[i].target == target && r.entries[i].kind.AfterHook?
  }

  function AcquireError(r: Reg): Option<RegError> {
    if !r.isSealed then Some(NotSealed) else if r.draining then Some(Busy) else None
  }

  function DrainError(r: Reg): Option<RegError> {
    if r.draining || r.active != 0 then Some(Busy) else None
  }

  /** A module-bound build capability. */
  datatype Registrar = Registrar(moduleCode: string, allowed: set<string>)

  predicate Clashes(e: Entry, moduleCode: string, key: HookKey, code: string, kind: Kind) {
    || (e.target.moduleCode == moduleCode && e.target.handler == code)
    || (e.name == key.name && (e.owner != key.owner || e.token != key.token || e.kind != kind))
  }

  predicate WellPlaced(r: Reg) {
    (r.scope.Application? && r.id == "") || (r.scope.Site? && r.id != "")
  }

  /** A registration the registry takes. */
  predicate Admissible(r: Reg, registrar: Registrar, key: HookKey, code: string, kind: Kind) {
    && TrimSpace(registrar.moduleCode) != "" && TrimSpace(code) != "" && code == TrimSpace(code)
    && key.owner != "" && key.name != "" && key.owner in registrar.allowed
    && !r.isSealed && key.scope == r.scope && WellPlaced(r)
    && forall e | e in r.entries :: !Clashes(e, registrar.moduleCode, key, code, kind)
  }

  /** What registration keeps: handlers are identified by module and code, keys mean one thing, targets stay home. */
  ghost predicate Consistent(r: Reg) {
    && (forall i, j | 0 <= i < j < |r.entries| ::
          (r.entries[i].target.moduleCode, r.entries[i].target.handler) != (r.entries[j].target.moduleCode, r.entries[j].target.handler))
    && (forall i, j | 0 <= i < |r.entries| && 0 <= j < |r.entries| && r.entries[i].name == r.entries[j].name ::
          r.entries[i].owner == r.entries[j].owner && r.entries[i].token == r.entries[j].token && r.entries[i].kind == r.entries[j].kind)
    && (forall i | 0 <= i < |r.entries| :: r.entries[i].target.scope == r.scope && r.entries[i].target.scopeId == r.id)
  }

  lemma AddedIsConsistent(r: Reg, registrar: Registrar, key: HookKey, code: string, kind: Kind)
    requires Consistent(r) && Admissible(r, registrar, key, code, kind)
    ensures Consistent(r.(entries := r.entries +
              [Entry(key.owner, key.name, key.token, Target(registrar.moduleCode, code, r.scope, r.id), kind)]))
  {
    forall i | 0 <= i < |r.entries| ensures !Clashes(r.entries[i], registrar.moduleCode, key, code, kind) {
      assert r.entries[i] in r.entries;
    }
  }

  class Registry {
    const scope: Scope
    const id: string
    var isSealed: bool
    var draining: bool
    var active: int
    var entries: seq<Entry>

    function View(): Reg
      reads this
    {
      Reg(scope, id, isSealed, draining, active, entries)
    }

    constructor (scope: Scope, id: string)
      ensures View() == Reg(scope, id, false, false, 0, [])
    {
      this.scope, this.id := scope, id;
      isSealed, draining, active, entries := false, false, 0, [];
    }

    /** Registers a handler: exactly when the registration is admissible, at the end, and keeping consistency. */
    method Add(registrar: Registrar, key: HookKey, code: string, kind: Kind) returns (error: Option<RegError>)
      modifies this`entries
      ensures error.None? <==> Admissible(old(View()), registrar, key, code, kind)
      ensures error.None? ==>
        entries == old(entries) + [Entry(key.owner, key.name, key.token, Target(registrar.moduleCode, code, scope, id), kind)]
      ensures error.Some? ==> entries == old(entries)
      ensures old(Consistent(View())) ==> Consistent(View())
    {
      if TrimSpace(registrar.moduleCode) == "" || TrimSpace(code) == "" || code != TrimSpace(code) { return Some(Invalid); }
      if key.owner == "" || key.name == "" || key.owner !in registrar.allowed { return Some(NotDependency); }
      if isSealed { return Some(Sealed); }
      if key.scope != scope { return Some(WrongScope); }
      if (scope.Application? && id != "") || (scope.Site? && id == "") { return Some(Invalid); }
      for i := 0 to |entries|
        invariant entries == old(entries)
        invariant forall k | 0 <= k < i :: !Clashes(entries[k], registrar.moduleCode, key, code, kind)
      {
        var item := entries[i];
        assert item in View().entries;
        if item.target.moduleCode == registrar.moduleCode && item.target.handler == code {
          return Some(Duplicate);
        }
        if item.name == key.name && (item.owner != key.owner || item.token != key.token || item.kind != kind) {
          return Some(Conflict);
        }
      }
      assert Admissible(View(), registrar, key, code, kind);
      if Consistent(View()) {
        AddedIsConsistent(View(), registrar, key, code, kind);
      }
      entries := entries + [Entry(key.owner, key.name, key.token, Target(registrar.moduleCode, code, scope, id), kind)];
      error := None;
    }

    method Seal() returns (error: Option<RegError>)
      modifies this`isSealed
      ensures isSealed && error == if old(isSealed) then Some(Sealed) else None
    {
      if isSealed { return Some(Sealed); }
      isSealed := true;
      error := None;
    }

    method Acquire() returns (release: Result<Release, RegError>)
      modifies this`active
      ensures release.Failure? <==> AcquireError(old(View())).Some?
      ensures release.Failure? ==> Some(release.error) == AcquireError(old(View())) && active == old(active)
      ensures release.Success? ==> active == old(active) + 1 && fresh(release.value)
      ensures release.Success? ==> release.value.registry == this && release.value.pins && !release.value.called
    {
      if !isSealed { return Failure(NotSealed); }
      if draining { return Failure(Busy); }
      active := active + 1;
      var once := new Release(this, true);
      release := Success(once);
    }

    method Drain() returns (abort: Result<Release, RegError>)
      modifies this`draining
      ensures abort.Failure? <==> DrainError(old(View())).Some?
      ensures abort.Failure? ==> Some(abort.error) == DrainError(old(View())) && draining == old(draining)
      ensures abort.Success? ==> draining && fresh(abort.value)
      ensures abort.Success? ==> abort.value.registry == this && !abort.value.pins && !abort.value.called
    {
      if draining || active != 0 { return Failure(Busy); }
      draining := true;
      var once := new Release(this, false);
      abort := Success(once);
    }

    method Targets(name: string) returns (result: seq<Target>)
      ensures forall t :: t in result <==> Has(View(), name, t)
    {
      result := [];
      for i := 0 to |entries|
        invariant forall t :: t in result <==>
          exists k | 0 <= k < i :: entries[k].name == name && entries[k].target == t && entries[k].kind.AfterHook?
      {
        if entries[i].name == name && entries[i].kind.AfterHook? {
          result := result + [entries[i].target];
        }
      }
    }

    /** The handler that a delivery reaches: the one with its target, if the registry has it. */
    method Handle(name: string, target: Target) returns (handler: Result<Entry, RegError>)
      ensures handler.Success? <==> Has(View(), name, target)
      ensures handler.Success? ==> handler.value in entries && handler.value.name == name && handler.value.target == target
      ensures handler.Success? && Consistent(View()) ==> forall e | e in entries && e.target == target :: e == handler.value
    {
      for i := 0 to |entries|
        invariant forall k | 0 <= k < i ::
          !(entries[k].name == name && entries[k].target == target && entries[k].kind.AfterHook?)
      {
        if entries[i].name == name && entries[i].target == target && entries[i].kind.AfterHook? {
          return Success(entries[i]);
        }
      }
      handler := Failure(Unavailable);
    }
  }

  /** The function returned by `Acquire` or `Drain`; only its first call has an effect. */
  class Release {
    const registry: Registry
    const pins: bool
    var called: bool

    constructor (registry: Registry, pins: bool)
      ensures this.registry == registry && this.pins == pins && !called
    {
      this.registry, this.pins, called := registry, pins, false;
    }

    method Call()
      modifies this, registry`active, registry`draining
      ensures called
      ensures registry.active == if pins && !old(called) then old(registry.active) - 1 else old(registry.active)
      ensures registry.draining == (if !pins && !old(called) then false else old(registry.draining))
    {
      if !called {
        called := true;
        if pins {
          registry.active := registry.active - 1;
        } else {
          registry.draining := false;
        }
      }
    }
  }
}
