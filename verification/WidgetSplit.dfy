/** Cached resources split into a layout and content-addressed widget configurations (modules/core/resource_cache_split.go). */
module WidgetSplit {
  import opened Wrappers

  type SiteId = int
  type ResourceId = int
  type WidgetId = int

  datatype Binding = Binding(id: WidgetId, area: string, position: int, config: string)
  datatype Ref = Ref(id: WidgetId, area: string, position: int, digest: string)
  datatype Resource = Resource(id: ResourceId, site: SiteId, content: string, widgets: seq<Binding>)
  datatype Record = Record(resource: Resource, refs: seq<Ref>)
  datatype ConfigKey = ConfigKey(site: SiteId, owner: ResourceId, id: WidgetId, digest: string)
  datatype ReadError = Unavailable | NotFound | EncodingFailed | LockFailed

  /** The hexadecimal SHA-256 of the JSON text; nothing when the binding cannot be encoded. */
  type Digest = Binding -> Option<string>

  /** No collisions, and nothing lost in the JSON text. */
  ghost predicate Injective(digest: Digest) {
    forall a, b | digest(a).Some? && digest(a) == digest(b) :: a == b
  }

  /** The part of a binding that is stored by content. */
  function Bare(b: Binding): Binding {
    b.(area := "", position := 0)
  }

  /** `widgetConfig`. */
  function RefOf(digest: Digest, b: Binding): Option<Ref> {
    match digest(Bare(b))
    case None => None
    case Some(d) => Some(Ref(b.id, b.area, b.position, d))
  }

  /** A binding that is only moved keeps its configuration and the key of it. */
  lemma MovedKeepsItsKey(digest: Digest, b: Binding, area: string, position: int)
    ensures var (here, there) := (RefOf(digest, b), RefOf(digest, b.(area := area, position := position)));
            && (here.Some? <==> there.Some?)
            && (here.Some? ==> there.value == here.value.(area := area, position := position))
  {
  }

  predicate Encodable(digest: Digest, bindings: seq<Binding>) {
    forall b | b in bindings :: digest(Bare(b)).Some?
  }

  function Refs(digest: Digest, bindings: seq<Binding>): (r: seq<Ref>)
    requires Encodable(digest, bindings)
    ensures |r| == |bindings|
  {
    seq(|bindings|, i requires 0 <= i < |bindings| => RefOf(digest, bindings[i]).value)
  }

  /** The configuration is the one the reference was made from. */
  predicate Matches(digest: Digest, ref: Ref, b: Binding) {
    digest(Bare(b)) == Some(ref.digest)
  }

  function Rebuilt(refs: seq<Ref>, found: map<WidgetId, Binding>): (r: seq<Binding>)
    requires forall ref | ref in refs :: ref.id in found
    ensures |r| == |refs|
  {
    seq(|refs|, i requires 0 <= i < |refs| => found[refs[i].id].(area := refs[i].area, position := refs[i].position))
  }

  /** Configurations that match the references rebuild the list the references were made from, whatever their origin. */
  lemma MatchingConfigsRebuildTheList(digest: Digest, bindings: seq<Binding>, found: map<WidgetId, Binding>)
    requires Injective(digest) && Encodable(digest, bindings)
    requires forall ref | ref in Refs(digest, bindings) :: ref.id in found && Matches(digest, ref, found[ref.id])
    ensures Rebuilt(Refs(digest, bindings), found) == bindings
  {
    var refs := Refs(digest, bindings);
    forall i | 0 <= i < |bindings| ensures Rebuilt(refs, found)[i] == bindings[i] {
      assert refs[i] in refs && bindings[i] in bindings;
      assert digest(Bare(found[refs[i].id])) == digest(Bare(bindings[i]));
      assert Bare(found[refs[i].id]) == Bare(bindings[i]);
    }
  }

  ghost predicate DistinctIds(refs: seq<Ref>) {
    forall i, j | 0 <= i < j < |refs| :: refs[i].id != refs[j].id
  }

  /** Each configuration found matches a reference with its identifier. */
  ghost predicate Sourced(digest: Digest, refs: seq<Ref>, found: map<WidgetId, Binding>) {
    forall id | id in found :: exists ref | ref in refs :: ref.id == id && Matches(digest, ref, found[id])
  }

  /** With distinct identifiers that is the only such reference. */
  lemma FoundFits(digest: Digest, refs: seq<Ref>, found: map<WidgetId, Binding>)
    requires DistinctIds(refs)
    requires Sourced(digest, refs, found)
    ensures forall ref | ref in refs && ref.id in found :: Matches(digest, ref, found[ref.id])
  {
    forall ref | ref in refs && ref.id in found ensures Matches(digest, ref, found[ref.id]) {
      var other :| other in refs && other.id == ref.id && Matches(digest, other, found[ref.id]);
      var i :| 0 <= i < |refs| && refs[i] == ref;
      var j :| 0 <= j < |refs| && refs[j] == other;
      assert i == j || i < j || j < i;
    }
  }

  /** The last of these bindings with that identifier. */
  function LastWith(loaded: seq<Binding>, id: WidgetId): Option<Binding> {
    if loaded == [] then None
    else if loaded[|loaded| - 1].id == id then Some(loaded[|loaded| - 1])
    else LastWith(loaded[..|loaded| - 1], id)
  }

  /** Configurations with those of freshly read bindings put over them. */
  function Overlaid(found: map<WidgetId, Binding>, loaded: seq<Binding>): map<WidgetId, Binding> {
    if loaded == [] then found
    else Overlaid(found, loaded[..|loaded| - 1])[loaded[|loaded| - 1].id := Bare(loaded[|loaded| - 1])]
  }

  lemma {:induction false} OverlaidAt(found: map<WidgetId, Binding>, loaded: seq<Binding>, id: WidgetId)
    ensures match LastWith(loaded, id)
            case Some(b) => id in Overlaid(found, loaded) && Overlaid(found, loaded)[id] == Bare(b)
            case None => (id in Overlaid(found, loaded) <==> id in found) && (id in found ==> Overlaid(found, loaded)[id] == found[id])
  {
    if loaded != [] && loaded[|loaded| - 1].id != id {
      OverlaidAt(found, loaded[..|loaded| - 1], id);
    }
  }

  /** The cached configuration is that of the reference. */
  predicate Fits(digest: Digest, ref: Ref, value: Option<Binding>) {
    value.Some? && value.value.id == ref.id && Matches(digest, ref, value.value)
  }

  ghost predicate AllFit(digest: Digest, refs: seq<Ref>, values: seq<Option<Binding>>)
    requires |refs| == |values|
  {
    forall i | 0 <= i < |refs| :: Fits(digest, refs[i], values[i])
  }

  /** What was read last for the reference fits it, or the cached configuration does and nothing was read. */
  ghost predicate CoveredAt(digest: Digest, ref: Ref, value: Option<Binding>, loaded: seq<Binding>) {
    match LastWith(loaded, ref.id)
    case Some(b) => Matches(digest, ref, b)
    case None => Fits(digest, ref, value)
  }

  ghost predicate Covered(digest: Digest, refs: seq<Ref>, values: seq<Option<Binding>>, loaded: seq<Binding>)
    requires |refs| == |values|
  {
    forall i | 0 <= i < |refs| :: CoveredAt(digest, refs[i], values[i], loaded)
  }

  /** `found` has exactly the cached configurations that fit. */
  ghost predicate Decodes(digest: Digest, refs: seq<Ref>, values: seq<Option<Binding>>, found: map<WidgetId, Binding>)
    requires |refs| == |values|
  {
    forall i | 0 <= i < |refs| :: (refs[i].id in found <==> Fits(digest, refs[i], values[i]))
  }

  lemma SourcedMore(digest: Digest, refs: seq<Ref>, found: map<WidgetId, Binding>, i: nat, value: Option<Binding>)
    requires i < |refs| && Sourced(digest, refs[..i], found)
    ensures Sourced(digest, refs[..i + 1], if Fits(digest, refs[i], value) then found[refs[i].id := value.value] else found)
  {
    assert refs[..i + 1] == refs[..i] + [refs[i]];
    assert forall ref | ref in refs[..i] :: ref in refs[..i + 1];
    assert refs[i] in refs[..i + 1];
  }

  lemma DecodesMore(digest: Digest, refs: seq<Ref>, values: seq<Option<Binding>>, found: map<WidgetId, Binding>, i: nat)
    requires |refs| == |values| && i < |refs| && DistinctIds(refs) && Decodes(digest, refs[..i], values[..i], found)
    requires Sourced(digest, refs[..i], found)
    ensures Decodes(digest, refs[..i + 1], values[..i + 1],
                    if Fits(digest, refs[i], values[i]) then found[refs[i].id := values[i].value] else found)
  {
    forall j | 0 <= j < i ensures refs[..i][j] == refs[..i + 1][j] && values[..i][j] == values[..i + 1][j] {
    }
  }

  lemma CoveredExactly(digest: Digest, refs: seq<Ref>, values: seq<Option<Binding>>, found: map<WidgetId, Binding>, loaded: seq<Binding>)
    requires |refs| == |values| && Decodes(digest, refs, values, found)
    requires forall ref | ref in refs && ref.id in found :: Matches(digest, ref, found[ref.id])
    ensures Covered(digest, refs, values, loaded) <==>
            forall ref | ref in refs :: ref.id in Overlaid(found, loaded) && Matches(digest, ref, Overlaid(found, loaded)[ref.id])
  {
    forall i | 0 <= i < |refs|
      ensures CoveredAt(digest, refs[i], values[i], loaded) <==>
              refs[i].id in Overlaid(found, loaded) && Matches(digest, refs[i], Overlaid(found, loaded)[refs[i].id])
    {
      OverlaidAt(found, loaded, refs[i].id);
      assert refs[i] in refs;
    }
    if Covered(digest, refs, values, loaded) {
      forall ref | ref in refs ensures ref.id in Overlaid(found, loaded) && Matches(digest, ref, Overlaid(found, loaded)[ref.id]) {
        var i :| 0 <= i < |refs| && refs[i] == ref;
        assert CoveredAt(digest, refs[i], values[i], loaded);
      }
    }
  }

  function Split(digest: Digest, item: Resource): Record
    requires Encodable(digest, item.widgets)
  {
    Record(item.(widgets := []), Refs(digest, item.widgets))
  }

  /** One write per binding: its configuration, under a key made from its own content. */
  function Writes(digest: Digest, siteId: SiteId, owner: ResourceId, bindings: seq<Binding>): (r: seq<(ConfigKey, Binding)>)
    requires Encodable(digest, bindings)
    ensures |r| == |bindings|
  {
    seq(|bindings|, i requires 0 <= i < |bindings| =>
      (ConfigKey(siteId, owner, bindings[i].id, digest(Bare(bindings[i])).value), Bare(bindings[i])))
  }

  // ---------------------------------------------------------------- the cached repository

  class Repository {
    const digest: Digest
    const site: SiteId
    /** Layout records, with the resources they were split from. */
    var layouts: map<ResourceId, Record>
    ghost var origins: map<ResourceId, Resource>
    /** Whatever is stored under the configuration keys; `None` does not decode. */
    var configs: map<ConfigKey, Option<Binding>>
    /** The configurations and layouts that this reader has written, whatever became of them. */
    ghost var written: seq<(ConfigKey, Binding)>
    ghost var saved: seq<(ResourceId, Record)>

    constructor (digest: Digest, site: SiteId)
      requires Injective(digest)
      ensures Valid()
    {
      this.digest, this.site, layouts, origins, configs := digest, site, map[], map[], map[];
      written, saved := [], [];
    }

    /** Every layout was split from some resource. Nothing is assumed about the configurations. */
    ghost predicate Valid()
      reads this
    {
      && Injective(digest)
      && forall id | id in layouts :: id in origins && Faithful(layouts[id], origins[id])
    }

    ghost predicate Faithful(record: Record, origin: Resource) {
      Encodable(digest, origin.widgets) && record == Split(digest, origin)
    }

    /** Other requests, invalidation, expiry and eviction; configurations may become anything. */
    method Others()
      requires Valid()
      modifies `configs, `layouts, `origins
      ensures Valid()
    {
      var found: map<ConfigKey, Option<Binding>> := *;
      configs := found;
      var n: nat := *;
      while n > 0
        invariant Valid()
      {
        n := n - 1;
        var item: Resource, dropped: ResourceId := *, *;
        if Encodable(digest, item.widgets) {
          layouts, origins := layouts[item.id := Split(digest, item)], origins[item.id := item];
        }
        layouts := layouts - {dropped};
      }
    }

    /** The layout record as it is right now; a failed read is a miss. */
    method ReadRecord(id: ResourceId, fails: bool) returns (record: Option<Record>, ghost origin: Resource)
      requires Valid()
      modifies `configs, `layouts, `origins
      ensures Valid()
      ensures record == if !fails && id in layouts then Some(layouts[id]) else None
      ensures record.Some? ==> Faithful(record.value, origin)
    {
      Others();
      origin := Resource(id, 0, "", []);
      record := None;
      if !fails && id in layouts {
        record, origin := Some(layouts[id]), origins[id];
      }
    }

    /** A write may be lost. */
    method WriteConfig(key: ConfigKey, b: Binding, lost: bool)
      requires Valid()
      modifies `configs, `layouts, `origins, `written
      ensures Valid() && written == old(written) + [(key, b)]
      ensures !lost ==> key in configs && configs[key] == Some(b)
    {
      Others();
      written := written + [(key, b)];
      if !lost {
        configs := configs[key := Some(b)];
      }
    }

    /** Makes the references, and stores each configuration under its content. */
    method StoreWidgets(siteId: SiteId, owner: ResourceId, bindings: seq<Binding>) returns (refs: Option<seq<Ref>>)
      requires Valid()
      modifies `configs, `layouts, `origins, `written
      ensures Valid()
      ensures refs == if Encodable(digest, bindings) then Some(Refs(digest, bindings)) else None
      ensures Encodable(digest, bindings) ==> written == old(written) + Writes(digest, siteId, owner, bindings)
    {
      var made: seq<Ref> := [];
      for i := 0 to |bindings|
        invariant Valid() && Encodable(digest, bindings[..i]) && made == Refs(digest, bindings[..i])
        invariant written == old(written) + Writes(digest, siteId, owner, bindings[..i])
      {
        var ref := RefOf(digest, bindings[i]);
        assert bindings[i] in bindings && bindings[..i + 1] == bindings[..i] + [bindings[i]];
        if ref.None? {
          return None;
        }
        made := made + [ref.value];
        var lost: bool := *;
        WriteConfig(ConfigKey(siteId, owner, ref.value.id, ref.value.digest), Bare(bindings[i]), lost);
      }
      assert bindings[..|bindings|] == bindings;
      refs := Some(made);
    }

    /** What the configuration keys hold right now. */
    method GetMany(keys: seq<ConfigKey>) returns (values: seq<Option<Binding>>)
      requires Valid()
      modifies `configs, `layouts, `origins
      ensures Valid() && |values| == |keys|
      ensures forall i | 0 <= i < |keys| :: values[i] == if keys[i] in configs then configs[keys[i]] else None
    {
      Others();
      values := [];
      for i := 0 to |keys|
        invariant Valid() && |values| == i
        invariant forall j | 0 <= j < i :: values[j] == if keys[j] in configs then configs[keys[j]] else None
      {
        values := values + [if keys[i] in configs then configs[keys[i]] else None];
      }
    }

    /**
     Puts the widgets of a layout together from the cached configurations and, where some do
     not fit, from what the base repository then answers. Success means exactly the list the
     layout was made from; the layout is reported as inconsistent exactly when some reference
     is covered by neither.
     */
    method LoadWidgets(siteId: SiteId, owner: ResourceId, refs: seq<Ref>, answer: Option<seq<Binding>>, ghost bindings: seq<Binding>)
      returns (r: Result<Option<seq<Binding>>, ReadError>, ghost values: seq<Option<Binding>>)
      requires Valid() && Encodable(digest, bindings) && refs == Refs(digest, bindings)
      modifies `configs, `layouts, `origins, `written
      ensures Valid()
      ensures r.Success? && r.value.Some? ==> r.value.value == bindings
      ensures |values| == |refs|
      ensures r == Failure(Unavailable) <==> !AllFit(digest, refs, values) && answer.None?
      ensures r == Failure(EncodingFailed) <==> !AllFit(digest, refs, values) && answer.Some? && !Encodable(digest, answer.value)
      ensures r.Failure? ==> r.error == Unavailable || r.error == EncodingFailed
      ensures DistinctIds(refs) && r.Success? ==>
                (r.value.Some? <==> Covered(digest, refs, values, if AllFit(digest, refs, values) then [] else answer.value))
    {
      var keys := seq(|refs|, i requires 0 <= i < |refs| => ConfigKey(siteId, owner, refs[i].id, refs[i].digest));
      var cached := GetMany(keys);
      values := cached;
      var found, missing := Decoded(refs, cached);
      ghost var decoded := found;
      if DistinctIds(refs) { FoundFits(digest, refs, found); }
      if missing != [] {
        if answer.None? {
          return Failure(Unavailable), values;
        }
        var ok;
        found, ok := Overlay(siteId, owner, found, answer.value);
        if !ok {
          return Failure(EncodingFailed), values;
        }
      }
      if DistinctIds(refs) { CoveredExactly(digest, refs, values, decoded, if missing == [] then [] else answer.value); }
      var assembled := Assemble(refs, found);
      if assembled.Some? {
        MatchingConfigsRebuildTheList(digest, bindings, found);
      }
      r := Success(assembled);
    }

    /** Puts freshly read bindings over the cached configurations, and stores them. */
    method Overlay(siteId: SiteId, owner: ResourceId, found: map<WidgetId, Binding>, loaded: seq<Binding>)
      returns (all: map<WidgetId, Binding>, ok: bool)
      requires Valid()
      modifies `configs, `layouts, `origins, `written
      ensures Valid()
      ensures ok <==> Encodable(digest, loaded)
      ensures ok ==> all == Overlaid(found, loaded) && written == old(written) + Writes(digest, siteId, owner, loaded)
    {
      all := found;
      for i := 0 to |loaded|
        invariant Valid() && Encodable(digest, loaded[..i]) && all == Overlaid(found, loaded[..i])
        invariant written == old(written) + Writes(digest, siteId, owner, loaded[..i])
      {
        var b := loaded[i];
        assert b in loaded && loaded[..i + 1] == loaded[..i] + [b] && loaded[..i + 1][..i] == loaded[..i];
        var ref := RefOf(digest, b);
        if ref.None? {
          return all, false;
        }
        all := all[b.id := Bare(b)];
        var lost: bool := *;
        WriteConfig(ConfigKey(siteId, owner, ref.value.id, ref.value.digest), Bare(b), lost);
      }
      assert loaded[..|loaded|] == loaded;
      ok := true;
    }

    /** The configurations that match their references, and the widgets that have none. */
    method Decoded(refs: seq<Ref>, values: seq<Option<Binding>>) returns (found: map<WidgetId, Binding>, missing: seq<WidgetId>)
      requires |refs| == |values|
      ensures Sourced(digest, refs, found)
      ensures AllFit(digest, refs, values) <==> missing == []
      ensures DistinctIds(refs) ==> Decodes(digest, refs, values, found)
    {
      found, missing := map[], [];
      for i := 0 to |refs|
        invariant Sourced(digest, refs[..i], found)
        invariant AllFit(digest, refs[..i], values[..i]) <==> missing == []
        invariant DistinctIds(refs) ==> Decodes(digest, refs[..i], values[..i], found)
      {
        assert refs[..i + 1] == refs[..i] + [refs[i]] && values[..i + 1] == values[..i] + [values[i]];
        SourcedMore(digest, refs, found, i, values[i]);
        if DistinctIds(refs) { DecodesMore(digest, refs, values, found, i); }
        if !Fits(digest, refs[i], values[i]) {
          missing := missing + [refs[i].id];
        } else {
          found := found[refs[i].id := values[i].value];
        }
      }
      assert refs[..|refs|] == refs && values[..|values|] == values;
    }

    /** Consistent exactly when every reference has a matching configuration. */
    method Assemble(refs: seq<Ref>, found: map<WidgetId, Binding>) returns (r: Option<seq<Binding>>)
      ensures r.Some? <==> forall ref | ref in refs :: ref.id in found && Matches(digest, ref, found[ref.id])
      ensures r.Some? ==> r.value == Rebuilt(refs, found)
    {
      var result: seq<Binding> := [];
      for i := 0 to |refs|
        invariant forall ref | ref in refs[..i] :: ref.id in found && Matches(digest, ref, found[ref.id])
        invariant result == Rebuilt(refs[..i], found)
      {
        var ref := refs[i];
        assert ref in refs && refs[..i + 1] == refs[..i] + [ref];
        if ref.id !in found || !Matches(digest, ref, found[ref.id]) {
          return None;
        }
        result := result + [found[ref.id].(area := ref.area, position := ref.position)];
      }
      assert refs[..|refs|] == refs;
      r := Some(result);
    }

    /**
     The answer is exactly, widgets included, the resource that a cached layout was split
     from, or what the base repository has just answered. `locks` tells whether the load lock
     is obtained, `answer` what `WidgetsByID` answers, `first` and `second` what `ByID` does.
     */
    method ReadResource(id: ResourceId, locks: bool, answer: Option<seq<Binding>>, first: Option<Resource>, second: Option<Resource>)
      returns (r: Result<Resource, ReadError>, ghost cached: Option<Resource>)
      requires Valid()
      modifies this
      ensures Valid()
      ensures cached.Some? ==> r == Success(cached.value) && cached.value.id == id && saved == old(saved)
      ensures cached.None? && r.Success? ==> Loaded(first, second, r.value) && Saves(old(saved), saved, id, first, r.value)
      ensures r.Failure? ==> saved == old(saved) && Explains(r.error, locks, answer, first, second)
    {
      cached := None;
      ghost var origin;
      var record;
      var fails: bool := *;
      record, origin := ReadRecord(id, fails);
      if record.None? || record.value.resource.id != id {
        if !locks {
          return Failure(LockFailed), cached;
        }
        fails := *;
        record, origin := ReadRecord(id, fails);
      }
      if record.Some? && record.value.resource.id == id {
        ghost var values;
        var widgets;
        widgets, values := LoadWidgets(record.value.resource.site, id, record.value.refs, answer, origin.widgets);
        if widgets.Failure? {
          return Failure(widgets.error), cached;
        }
        if widgets.value.Some? {
          cached := Some(origin);
          return Success(record.value.resource.(widgets := widgets.value.value)), cached;
        }
      }
      r := Reload(id, first, second);
    }

    /** The resource was answered by `ByID`: at once, or at the second time when the first was of another site. */
    ghost predicate Loaded(first: Option<Resource>, second: Option<Resource>, item: Resource) {
      first.Some? && if first.value.site == site then item == first.value else second == Some(item)
    }

    /** The layout of what was answered is stored, unless its site changed between the two answers. */
    ghost predicate Saves(before: seq<(ResourceId, Record)>, after: seq<(ResourceId, Record)>, id: ResourceId,
                          first: Option<Resource>, item: Resource) {
      if first.Some? && item.site == first.value.site
      then Encodable(digest, item.widgets) && after == before + [(id, Split(digest, item))]
      else after == before
    }

    ghost predicate Explains(e: ReadError, locks: bool, answer: Option<seq<Binding>>, first: Option<Resource>, second: Option<Resource>) {
      match e
      case LockFailed => !locks
      case Unavailable => answer.None?
      case NotFound => first.None? || (first.value.site != site && second.None?)
      case EncodingFailed =>
        || (answer.Some? && !Encodable(digest, answer.value))
        || (first.Some? && first.value.site == site && !Encodable(digest, first.value.widgets))
        || (first.Some? && second.Some? && first.value.site == second.value.site != site && !Encodable(digest, second.value.widgets))
    }

    /** The authoritative load, repeated when the resource turns out to belong to another site. */
    method Reload(id: ResourceId, first: Option<Resource>, second: Option<Resource>) returns (r: Result<Resource, ReadError>)
      requires Valid()
      modifies this
      ensures Valid()
      ensures r.Success? ==> Loaded(first, second, r.value) && Saves(old(saved), saved, id, first, r.value)
      ensures r.Failure? ==> saved == old(saved) && Explains(r.error, true, Some([]), first, second)
    {
      if first.None? {
        return Failure(NotFound);
      }
      var item := first.value;
      if item.site != site {
        var owner := item.site;
        if second.None? {
          return Failure(NotFound);
        }
        item := second.value;
        if item.site != owner {
          return Success(item);
        }
      }
      var refs := StoreWidgets(item.site, id, item.widgets);
      if refs.None? {
        return Failure(EncodingFailed);
      }
      Others();
      saved := saved + [(id, Record(item.(widgets := []), refs.value))];
      var lost: bool := *;
      if !lost {
        layouts, origins := layouts[id := Record(item.(widgets := []), refs.value)], origins[id := item];
      }
      return Success(item);
    }
  }
}
