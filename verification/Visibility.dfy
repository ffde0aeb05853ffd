/** Conditional visibility of form fields (modules/forms/validation.go). */
module Visibility {
  import opened Wrappers
  import Graphs

  type Value = string
  datatype FieldType = Captcha | Upload | Persistent
  datatype Condition = Condition(field: string, value: Value)
  datatype Field = Field(code: string, kind: FieldType, when: Option<Condition>)

  /** The type of a field puts a value into canonical form, or refuses it. */
  type Normalizer = (Field, Value) -> Option<Value>

  /** The fields by code; a later field hides an earlier one. */
  function ByCode(items: seq<Field>): map<string, Field> {
    if items == [] then map[] else ByCode(items[..|items| - 1])[items[|items| - 1].code := items[|items| - 1]]
  }

  lemma {:induction false} ByCodeHolds(items: seq<Field>)
    ensures forall item | item in items :: item.code in ByCode(items)
    ensures forall code | code in ByCode(items) :: ByCode(items)[code] in items && ByCode(items)[code].code == code
  {
    if items != [] {
      var n := |items| - 1;
      ByCodeHolds(items[..n]);
      assert items == items[..n] + [items[n]];
    }
  }

  // ---------------------------------------------------------------- acceptable conditions

  function Links(fields: map<string, Field>): Graphs.Links<string> {
    map code | code in fields :: if fields[code].when.Some? then Some(fields[code].when.value.field) else None
  }

  predicate ControllerOk(fields: map<string, Field>, normal: Normalizer, item: Field) {
    item.when.Some? ==>
      var c := item.when.value;
      && c.field in fields && c.field != item.code
      && fields[c.field].kind.Persistent?
      && normal(fields[c.field], c.value).Some?
  }

  /** Every condition has a usable controller, and no chain of controllers comes back to itself. */
  ghost predicate ConditionsOk(items: seq<Field>, normal: Normalizer) {
    && (forall item | item in items :: ControllerOk(ByCode(items), normal, item))
    && forall code | code in ByCode(items) :: Graphs.Grounded(Links(ByCode(items)), code)
  }

  method Index(items: seq<Field>) returns (fields: map<string, Field>)
    ensures fields == ByCode(items)
  {
    fields := map[];
    for i := 0 to |items|
      invariant fields == ByCode(items[..i])
    {
      assert items[..i + 1][..i] == items[..i];
      fields := fields[items[i].code := items[i]];
    }
    assert items[..|items|] == items;
  }

  function SuccessorGraph(fields: map<string, Field>): Graphs.Graph<string> {
    map code | code in fields :: if fields[code].when.Some? then [fields[code].when.value.field] else []
  }

  /** Accepts exactly the usable conditions, in whatever order the map is walked. */
  method ValidateConditions(items: seq<Field>, normal: Normalizer) returns (ok: bool)
    ensures ok <==> ConditionsOk(items, normal)
  {
    var fields := Index(items);
    ByCodeHolds(items);
    ok := ValidateControllers(items, fields, normal);
    if !ok { return; }
    assert forall code | code in fields :: ControllerOk(fields, normal, fields[code]);
    ok := ValidateChains(fields, normal);
  }

  method ValidateControllers(items: seq<Field>, fields: map<string, Field>, normal: Normalizer) returns (ok: bool)
    ensures ok <==> forall item | item in items :: ControllerOk(fields, normal, item)
  {
    for i := 0 to |items|
      invariant forall j | 0 <= j < i :: ControllerOk(fields, normal, items[j])
    {
      var item := items[i];
      assert item in items;
      if item.when.Some? {
        var c := item.when.value;
        if c.field !in fields || c.field == item.code || fields[c.field].kind.Captcha? || fields[c.field].kind.Upload? {
          return false;
        }
        if normal(fields[c.field], c.value).None? {
          return false;
        }
      }
    }
    ok := true;
  }

  /** The search for a chain of controllers that comes back to itself. */
  method ValidateChains(fields: map<string, Field>, ghost normal: Normalizer) returns (ok: bool)
    requires forall code | code in fields :: ControllerOk(fields, normal, fields[code])
    ensures ok <==> forall code | code in fields :: Graphs.Grounded(Links(fields), code)
  {
    var g := SuccessorGraph(fields);
    assert Graphs.Follows(g, Links(fields)) && Graphs.Closed(g);
    var search := new Graphs.Search(g);
    ghost var cycle;
    ok, cycle := search.Run();
    Graphs.SearchDecidesEnding(g, Links(fields), ok, search.order, cycle);
  }

  // ---------------------------------------------------------------- which fields are active

  datatype Form = Form(fields: map<string, Field>, values: map<string, Value>, normal: Normalizer) {
    /** The controller has a value. */
    predicate Filled(code: string) {
      && code in fields && fields[code].when.Some?
      && fields[code].when.value.field in fields && fields[code].when.value.field in values
    }

    /** The controller has a value that its type refuses. */
    predicate Unreadable(code: string) {
      Filled(code) && var c := fields[code].when.value.field; normal(fields[c], values[c]).None?
    }

    /** The controller has the value the condition asks for. */
    predicate Holds(code: string) {
      && Filled(code)
      && var c := fields[code].when.value.field;
      normal(fields[c], values[c]).Some? && normal(fields[c], values[c]) == normal(fields[c], fields[code].when.value.value)
    }

    /** The code `n` controllers away. */
    ghost function Above(code: string, n: nat): Option<string> {
      Graphs.Up(Links(fields), code, n)
    }

    /** Every condition on the chain of controllers holds. */
    ghost predicate Active(code: string) {
      forall n: nat | Linked(code, n) :: HoldsAt(code, n)
    }

    /** The chain goes on after `n` controllers. */
    ghost predicate Linked(code: string, n: nat) {
      Above(code, n + 1).Some?
    }

    ghost predicate HoldsAt(code: string, n: nat) {
      Above(code, n).Some? && Holds(Above(code, n).value)
    }

    /** Somewhere on the chain an active controller has a value that cannot be read. */
    ghost predicate BrokenAt(code: string, n: nat) {
      && Above(code, n).Some? && Above(code, n + 1).Some?
      && Active(Above(code, n + 1).value) && Unreadable(Above(code, n).value)
    }

    ghost predicate Broken(code: string) {
      exists n: nat :: BrokenAt(code, n)
    }

    ghost predicate Usable() {
      && (forall code | code in fields :: fields[code].code == code && ControllerOk(fields, normal, fields[code]))
      && forall code | code in fields :: Graphs.Grounded(Links(fields), code)
    }
  }

  lemma First(form: Form, code: string)
    requires code in form.fields
    ensures form.Above(code, 0) == Some(code) && form.Above(code, 1) == Links(form.fields)[code]
  {
    assert form.Above(code, 0) == Some(code);
    assert Graphs.Up(Links(form.fields), code, 1) == Links(form.fields)[code];
  }

  lemma AboveController(form: Form, code: string, n: nat)
    requires code in form.fields && form.fields[code].when.Some?
    ensures form.Above(code, n + 1) == form.Above(form.fields[code].when.value.field, n)
  {
    First(form, code);
    Graphs.UpAdds(Links(form.fields), code, 1, n);
  }

  /**
   A field with a condition is active exactly when its controller is active, has a value,
   and that value in canonical form is the one the condition asks for.
   */
  lemma ActiveWithController(form: Form, code: string)
    requires code in form.fields && form.fields[code].when.Some?
    ensures var Condition(c, wanted) := form.fields[code].when.value;
            form.Active(code) <==>
              && form.Active(c) && c in form.fields && c in form.values
              && form.normal(form.fields[c], form.values[c]).Some?
              && form.normal(form.fields[c], form.values[c]) == form.normal(form.fields[c], wanted)
  {
    var c := form.fields[code].when.value.field;
    First(form, code);
    if form.Active(code) {
      assert form.Linked(code, 0) && form.HoldsAt(code, 0);
      forall n: nat | form.Linked(c, n) ensures form.HoldsAt(c, n) {
        AboveController(form, code, n);
        AboveController(form, code, n + 1);
        assert form.Linked(code, n + 1) && form.HoldsAt(code, n + 1);
      }
    }
    if form.Active(c) && form.Holds(code) {
      forall n: nat | form.Linked(code, n) ensures form.HoldsAt(code, n) {
        AboveController(form, code, n);
        if n > 0 {
          AboveController(form, code, n - 1);
          assert form.Linked(c, n - 1) && form.HoldsAt(c, n - 1);
        }
      }
    }
  }

  /** A chain fails exactly when it does so further up or its first controller is active with a refused value. */
  lemma BrokenWithController(form: Form, code: string)
    requires code in form.fields && form.fields[code].when.Some?
    ensures var c := form.fields[code].when.value.field;
            form.Broken(code) <==>
              || form.Broken(c)
              || (form.Active(c) && c in form.fields && c in form.values && form.normal(form.fields[c], form.values[c]).None?)
  {
    var c := form.fields[code].when.value.field;
    First(form, code);
    if form.Broken(code) {
      var n: nat :| form.BrokenAt(code, n);
      AboveController(form, code, n);
      if n > 0 {
        AboveController(form, code, n - 1);
        assert form.BrokenAt(c, n - 1);
      }
    }
    if form.Broken(c) {
      var n: nat :| form.BrokenAt(c, n);
      AboveController(form, code, n);
      AboveController(form, code, n + 1);
      assert form.BrokenAt(code, n + 1);
    } else if form.Active(c) && form.Unreadable(code) {
      AboveController(form, code, 0);
      assert form.BrokenAt(code, 0);
    }
  }

  lemma WithoutController(form: Form, code: string)
    requires code in form.fields && form.fields[code].when.None?
    ensures form.Active(code) && !form.Broken(code)
  {
    First(form, code);
    forall n: nat ensures !form.Linked(code, n) {
      Graphs.UpStops(Links(form.fields), code, 1, n + 1);
    }
    assert forall n: nat | form.BrokenAt(code, n) :: form.Linked(code, n);
  }

  /** A chain with an unreadable value on it is not active: failing and being shown exclude each other. */
  lemma BrokenIsNotActive(form: Form, code: string)
    requires form.Broken(code)
    ensures !form.Active(code)
  {
    var n: nat :| form.BrokenAt(code, n);
    assert form.Linked(code, n) && !form.HoldsAt(code, n);
  }

  // ---------------------------------------------------------------- the memoised evaluation

  class Evaluation {
    const form: Form
    var active: map<string, bool> // also records what is resolved

    constructor (form: Form)
      ensures this.form == form && active == map[]
    {
      this.form, active := form, map[];
    }

    ghost predicate Right()
      reads this
    {
      forall code | code in active :: Settled(form, code, active[code])
    }

    /** `n` bounds the length of the chain of controllers. */
    method Evaluate(code: string, ghost n: nat) returns (r: Result<bool, string>)
      requires form.Usable() && Right() && code in form.fields && form.Above(code, n).None?
      modifies this
      ensures r.Success? ==> Right() && Settled(form, code, r.value)
      ensures r.Failure? ==> Culprit(form, code, r.error)
      decreases n
    {
      if code in active {
        return Success(active[code]);
      }
      var item := form.fields[code];
      if item.when.None? {
        WithoutController(form, code);
        active := active[code := true];
        return Success(true);
      }
      var controller := item.when.value.field;
      ChainShortens(form, code, n);
      r := Evaluate(controller, n - 1);
      if r.Failure? || !r.value {
        active := active[code := false];
        BelowAnInactive(form, code, r);
        return;
      }
      r := Compare(form, code);
      if r.Success? {
        active := active[code := r.value];
      }
    }
  }

  /** The recursion starts at an item, whose chain of controllers ends somewhere. */
  method EvaluateItem(evaluation: Evaluation, code: string) returns (r: Result<bool, string>)
    requires evaluation.form.Usable() && evaluation.Right() && code in evaluation.form.fields
    modifies evaluation
    ensures r.Success? ==> evaluation.Right() && Settled(evaluation.form, code, r.value)
    ensures r.Failure? ==> Culprit(evaluation.form, code, r.error)
  {
    assert Graphs.Grounded(Links(evaluation.form.fields), code);
    ghost var n: nat :| Graphs.Up(Links(evaluation.form.fields), code, n).None?;
    r := evaluation.Evaluate(code, n);
  }

  /** `value` is the answer for the field, and nothing on its chain is refused. */
  ghost predicate Settled(form: Form, code: string, value: bool) {
    code in form.fields && (value <==> form.Active(code)) && !form.Broken(code)
  }

  lemma ChainShortens(form: Form, code: string, n: nat)
    requires form.Usable() && code in form.fields && form.fields[code].when.Some? && form.Above(code, n).None?
    ensures n > 0 && form.fields[code].when.value.field in form.fields
    ensures form.Above(form.fields[code].when.value.field, n - 1).None?
  {
    assert ControllerOk(form.fields, form.normal, form.fields[code]);
    First(form, code);
    AboveController(form, code, n - 1);
  }

  lemma BelowAnInactive(form: Form, code: string, r: Result<bool, string>)
    requires code in form.fields && form.fields[code].when.Some?
    requires match r
             case Success(value) => !value && Settled(form, form.fields[code].when.value.field, false)
             case Failure(c) => Culprit(form, form.fields[code].when.value.field, c)
    ensures match r
            case Success(_) => Settled(form, code, false)
            case Failure(c) => Culprit(form, code, c)
  {
    ActiveWithController(form, code);
    BrokenWithController(form, code);
    if r.Failure? { CulpritAbove(form, code, r.error); }
  }

  /** Compares the value of an active controller with the value asked for. */
  method Compare(form: Form, code: string) returns (r: Result<bool, string>)
    requires form.Usable() && code in form.fields && form.fields[code].when.Some?
    requires Settled(form, form.fields[code].when.value.field, true)
    ensures r.Success? ==> Settled(form, code, r.value)
    ensures r.Failure? ==> Culprit(form, code, r.error)
  {
    ActiveWithController(form, code);
    BrokenWithController(form, code);
    var item := form.fields[code];
    assert ControllerOk(form.fields, form.normal, item);
    var controller := item.when.value.field;
    if controller !in form.values {
      return Success(false);
    }
    var actual := form.normal(form.fields[controller], form.values[controller]);
    if actual.None? {
      First(form, code);
      assert form.BrokenAt(code, 0);
      return Failure(controller);
    }
    var expected := form.normal(form.fields[controller], item.when.value.value);
    return Success(actual == expected);
  }

  /** The error names an active controller on the chain whose value is present and refused. */
  ghost predicate Culprit(form: Form, code: string, controller: string) {
    && controller in form.fields && controller in form.values
    && form.normal(form.fields[controller], form.values[controller]).None?
    && form.Active(controller)
    && exists n: nat :: form.BrokenAt(code, n) && form.Above(code, n + 1) == Some(controller)
  }

  lemma CulpritAbove(form: Form, code: string, controller: string)
    requires code in form.fields && form.fields[code].when.Some?
    requires Culprit(form, form.fields[code].when.value.field, controller)
    ensures Culprit(form, code, controller)
  {
    var c := form.fields[code].when.value.field;
    var n: nat :| form.BrokenAt(c, n) && form.Above(c, n + 1) == Some(controller);
    AboveController(form, code, n);
    AboveController(form, code, n + 1);
    assert form.BrokenAt(code, n + 1);
  }

  /** The active items, in the order given. */
  ghost function Visible(form: Form, items: seq<Field>): seq<Field> {
    if items == [] then []
    else
      var last := items[|items| - 1];
      Visible(form, items[..|items| - 1]) + if form.Active(last.code) then [last] else []
  }

  datatype Refusal = InvalidConditions | RefusedValue(controller: string)

  /** All items are free of refused values, or the first that is not is reported. */
  ghost predicate Resolved(form: Form, items: seq<Field>, r: Result<seq<Field>, Refusal>) {
    match r
    case Success(visible) => visible == Visible(form, items) && NoneBroken(form, items)
    case Failure(RefusedValue(controller)) =>
      exists i | 0 <= i < |items| :: NoneBroken(form, items[..i]) && Culprit(form, items[i].code, controller)
    case Failure(InvalidConditions) => false
  }

  ghost predicate NoneBroken(form: Form, items: seq<Field>) {
    forall item | item in items :: !form.Broken(item.code)
  }

  /** The fields whose whole chain of conditions holds, unless some active controller has an unreadable value. */
  method ResolveActive(items: seq<Field>, values: map<string, Value>, normal: Normalizer)
    returns (r: Result<seq<Field>, Refusal>)
    ensures if ConditionsOk(items, normal) then Resolved(Form(ByCode(items), values, normal), items, r)
            else r == Failure(InvalidConditions)
  {
    var ok := ValidateConditions(items, normal);
    if !ok {
      return Failure(InvalidConditions);
    }
    var fields := Index(items);
    ByCodeHolds(items);
    r := Select(Form(fields, values, normal), items);
  }

  lemma VisibleGrows(form: Form, items: seq<Field>, i: nat)
    requires i < |items|
    ensures Visible(form, items[..i + 1]) == Visible(form, items[..i]) + if form.Active(items[i].code) then [items[i]] else []
    ensures NoneBroken(form, items[..i]) && !form.Broken(items[i].code) ==> NoneBroken(form, items[..i + 1])
  {
    assert items[..i + 1] == items[..i] + [items[i]] && items[..i + 1][..i] == items[..i];
  }

  method Select(form: Form, items: seq<Field>) returns (r: Result<seq<Field>, Refusal>)
    requires form.Usable() && forall item | item in items :: item.code in form.fields
    ensures Resolved(form, items, r)
  {
    var evaluation := new Evaluation(form);
    var result := [];
    for i := 0 to |items|
      invariant evaluation.form == form && evaluation.Right()
      invariant result == Visible(form, items[..i]) && NoneBroken(form, items[..i])
    {
      var item := items[i];
      assert item in items;
      var visible := EvaluateItem(evaluation, item.code);
      if visible.Failure? {
        return Failure(RefusedValue(visible.error));
      }
      VisibleGrows(form, items, i);
      if visible.value {
        result := result + [item];
      }
    }
    assert items[..|items|] == items;
    r := Success(result);
  }
}
