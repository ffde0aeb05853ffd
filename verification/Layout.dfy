/** The layout of a form (modules/forms/validation.go). */
module Layout {
  import opened Wrappers
  import Graphs
  import Sorting

  const CONSENT_CODE := "privacy_consent"
  const CAPTCHA_CODE := "captcha"

  datatype FieldType = Consent | Captcha | OtherType
  datatype Field = Field(id: int, code: string, kind: FieldType, required: bool)
  datatype Element = Element(id: int, submit: bool)
  datatype Kind = FieldNode | ElementNode | ContainerNode | UnknownKind
  datatype ContainerType = NoContainer | Group | Slide | UnknownContainer
  datatype Node = Node(id: int, parent: Option<int>, kind: Kind, field: Option<int>, element: Option<int>,
                       container: ContainerType, position: int, config: string)
  datatype Form = Form(fields: seq<Field>, elements: seq<Element>, layout: seq<Node>)

  // ---------------------------------------------------------------- what a layout has to be

  function Ids(nodes: seq<Node>): set<int> {
    set n | n in nodes :: n.id
  }

  function FieldIds(form: Form): set<int> {
    set f | f in form.fields :: f.id
  }

  function ElementIds(form: Form): set<int> {
    set e | e in form.elements :: e.id
  }

  function PlacedFields(nodes: seq<Node>): set<int> {
    set n | n in nodes && n.field.Some? :: n.field.value
  }

  function PlacedElements(nodes: seq<Node>): set<int> {
    set n | n in nodes && n.element.Some? :: n.element.value
  }

  predicate ReferenceOk(form: Form, n: Node) {
    match n.kind
    case FieldNode => n.field.Some? && n.element.None? && n.container.NoContainer? && n.field.value in FieldIds(form)
    case ElementNode =>
      n.element.Some? && n.field.None? && n.container.NoContainer? && n.element.value in ElementIds(form)
    case ContainerNode => n.field.None? && n.element.None? && (n.container.Group? || n.container.Slide?)
    case UnknownKind => false
  }

  /** `json` stands for `json.Valid`. */
  ghost predicate NodeOk(form: Form, json: string -> bool, n: Node) {
    && n.id > 0 && n.position >= 0 && n.id in Ids(form.layout)
    && ReferenceOk(form, n) && (n.config != "" ==> json(n.config))
  }

  /** No node, field or element appears twice. */
  ghost predicate NoRepeat(nodes: seq<Node>) {
    forall i, j | 0 <= i < j < |nodes| :: Apart(nodes[i], nodes[j])
  }

  predicate Apart(a: Node, b: Node) {
    && a.id != b.id
    && (a.field.Some? ==> a.field != b.field)
    && (a.element.Some? ==> a.element != b.element)
  }

  ghost predicate ParentOk(nodes: seq<Node>, n: Node) {
    n.parent.Some? ==> n.parent.value != n.id && exists p | p in nodes :: p.id == n.parent.value && p.kind.ContainerNode?
  }

  ghost predicate SiblingsApart(nodes: seq<Node>) {
    forall a, b | a in nodes && b in nodes && a != b && a.parent == b.parent :: a.position != b.position
  }

  ghost function ParentLinks(nodes: seq<Node>): Graphs.Links<int> {
    if nodes == [] then map[]
    else ParentLinks(nodes[..|nodes| - 1])[nodes[|nodes| - 1].id := nodes[|nodes| - 1].parent]
  }

  /** Climbing from any node reaches the root. */
  ghost predicate Rooted(nodes: seq<Node>) {
    forall id | id in Ids(nodes) :: Graphs.Grounded(ParentLinks(nodes), id)
  }

  ghost predicate Entries(form: Form, json: string -> bool, nodes: seq<Node>) {
    (forall n | n in nodes :: NodeOk(form, json, n)) && NoRepeat(nodes)
  }

  ghost predicate Complete(form: Form, nodes: seq<Node>) {
    FieldIds(form) <= PlacedFields(nodes) && ElementIds(form) <= PlacedElements(nodes)
  }

  ghost predicate Attached(nodes: seq<Node>) {
    (forall n | n in nodes :: ParentOk(nodes, n)) && SiblingsApart(nodes)
  }

  /** The request describes a complete forest of the form's nodes. */
  ghost predicate Structured(form: Form, json: string -> bool, nodes: seq<Node>) {
    && |nodes| == |form.layout| && Entries(form, json, nodes) && Complete(form, nodes)
    && Attached(nodes) && Rooted(nodes)
  }

  // ---------------------------------------------------------------- consequences

  lemma {:induction false} DistinctIds(nodes: seq<Node>)
    requires NoRepeat(nodes)
    ensures |Ids(nodes)| == |nodes|
  {
    if nodes != [] {
      var n := |nodes| - 1;
      DistinctIds(nodes[..n]);
      assert nodes == nodes[..n] + [nodes[n]];
      assert Ids(nodes) == Ids(nodes[..n]) + {nodes[n].id};
      assert nodes[n].id !in Ids(nodes[..n]) by {
        forall m | m in nodes[..n] ensures m.id != nodes[n].id {
          var i :| 0 <= i < n && nodes[i] == m;
          assert Apart(nodes[i], nodes[n]);
        }
      }
    }
  }

  lemma {:induction false} FewIds(nodes: seq<Node>)
    ensures |Ids(nodes)| <= |nodes|
  {
    if nodes != [] {
      var n := |nodes| - 1;
      FewIds(nodes[..n]);
      assert nodes == nodes[..n] + [nodes[n]];
      assert Ids(nodes) == Ids(nodes[..n]) + {nodes[n].id};
    }
  }

  /** Equal lengths leave no existing node out, although only foreign and repeated nodes are looked for. */
  lemma NoNodeIsMissing(form: Form, json: string -> bool, nodes: seq<Node>)
    requires Structured(form, json, nodes)
    ensures Ids(nodes) == Ids(form.layout)
  {
    DistinctIds(nodes);
    FewIds(form.layout);
    assert Ids(nodes) <= Ids(form.layout);
    Same(Ids(nodes), Ids(form.layout));
  }

  lemma Same(a: set<int>, b: set<int>)
    requires a <= b && |b| <= |a|
    ensures a == b
  {
    assert b == a + (b - a);
  }

  /** Each field is shown by exactly one node, and so is each element. */
  lemma PlacedOnce(form: Form, json: string -> bool, nodes: seq<Node>, f: Field) returns (i: nat)
    requires Structured(form, json, nodes) && f in form.fields
    ensures i < |nodes| && nodes[i].field == Some(f.id)
    ensures forall j | 0 <= j < |nodes| && nodes[j].field == Some(f.id) :: j == i
  {
    assert f.id in PlacedFields(nodes);
    var n :| n in nodes && n.field == Some(f.id);
    i :| 0 <= i < |nodes| && nodes[i] == n;
    forall j | 0 <= j < |nodes| && nodes[j].field == Some(f.id) ensures j == i {
      assert i < j ==> Apart(nodes[i], nodes[j]);
      assert j < i ==> Apart(nodes[j], nodes[i]);
    }
  }

  // ---------------------------------------------------------------- the order of the result

  function Key(n: Node): int {
    if n.parent.Some? then n.parent.value else 0
  }

  predicate Before(a: Node, b: Node) {
    if Key(a) != Key(b) then Key(a) < Key(b)
    else if a.position != b.position then a.position < b.position
    else a.id < b.id
  }

  lemma BeforeIsAnOrder()
    ensures Sorting.Order(Before)
  {
  }

  /** The roots first, then the children parent by parent, siblings by position, and no ties. */
  ghost predicate Ordered(nodes: seq<Node>) {
    forall i, j | 0 <= i < j < |nodes| :: Earlier(nodes[i], nodes[j])
  }

  ghost predicate Earlier(a: Node, b: Node) {
    if a.parent == b.parent then a.position < b.position
    else a.parent.None? || (b.parent.Some? && a.parent.value < b.parent.value)
  }

  lemma SameKeySameParent(form: Form, json: string -> bool, nodes: seq<Node>, a: Node, b: Node)
    requires Entries(form, json, nodes) && Attached(nodes) && a in nodes && b in nodes
    ensures Key(a) == Key(b) <==> a.parent == b.parent
    ensures a.parent.None? <==> Key(a) == 0
    ensures Key(a) >= 0
  {
    assert ParentOk(nodes, a) && ParentOk(nodes, b);
    assert forall p | p in nodes :: p.id > 0 by {
      assert forall p | p in nodes :: NodeOk(form, json, p);
    }
  }

  lemma SortedIsOrdered(form: Form, json: string -> bool, nodes: seq<Node>)
    requires Structured(form, json, nodes)
    ensures Ordered(Sorting.Sort(Before, nodes))
    ensures multiset(Sorting.Sort(Before, nodes)) == multiset(nodes)
  {
    var r := Sorting.Sort(Before, nodes);
    BeforeIsAnOrder();
    Sorting.SortSorts(Before, nodes);
    Sorting.SortContents(Before, nodes);
    forall i, j | 0 <= i < j < |r| ensures Earlier(r[i], r[j]) {
      assert r[i] in multiset(nodes) && r[j] in multiset(nodes);
      assert !Before(r[j], r[i]);
      assert forall a, b | 0 <= a < b < |nodes| :: Apart(nodes[a], nodes[b]);
      Sorting.DistinctPermutation(nodes, r, i, j);
      SameKeySameParent(form, json, nodes, r[i], r[j]);
      SameKeySameParent(form, json, nodes, r[j], r[i]);
    }
  }

  // ---------------------------------------------------------------- first pass: the nodes one by one

  ghost predicate Indexed(nodes: seq<Node>, index: map<int, Node>) {
    index.Keys == Ids(nodes) && forall n | n in nodes :: index[n.id] == n
  }

  lemma PrefixGrows(nodes: seq<Node>, i: nat)
    requires i < |nodes|
    ensures Ids(nodes[..i + 1]) == Ids(nodes[..i]) + {nodes[i].id}
    ensures PlacedFields(nodes[..i + 1]) ==
            PlacedFields(nodes[..i]) + if nodes[i].field.Some? then {nodes[i].field.value} else {}
    ensures PlacedElements(nodes[..i + 1]) ==
            PlacedElements(nodes[..i]) + if nodes[i].element.Some? then {nodes[i].element.value} else {}
  {
    assert nodes[..i + 1] == nodes[..i] + [nodes[i]];
  }

  lemma NoRepeatGrows(nodes: seq<Node>, i: nat)
    requires i < |nodes|
    ensures NoRepeat(nodes[..i + 1]) <==> NoRepeat(nodes[..i]) && Fresh(nodes[..i], nodes[i])
  {
    assert nodes[..i + 1] == nodes[..i] + [nodes[i]];
    if NoRepeat(nodes[..i + 1]) {
      forall m | m in nodes[..i] ensures Apart(m, nodes[i]) {
        var j :| 0 <= j < i && nodes[j] == m;
        assert nodes[..i + 1][j] == m && nodes[..i + 1][i] == nodes[i];
      }
      forall a, b | 0 <= a < b < i ensures Apart(nodes[..i][a], nodes[..i][b]) {
        assert nodes[..i + 1][a] == nodes[a] && nodes[..i + 1][b] == nodes[b];
      }
    }
  }

  ghost predicate Fresh(nodes: seq<Node>, n: Node) {
    forall m | m in nodes :: Apart(m, n)
  }

  lemma FreshMeans(nodes: seq<Node>, n: Node)
    ensures Fresh(nodes, n) <==>
            && n.id !in Ids(nodes)
            && (n.field.Some? ==> n.field.value !in PlacedFields(nodes))
            && (n.element.Some? ==> n.element.value !in PlacedElements(nodes))
  {
    if Fresh(nodes, n) {
      assert forall m | m in nodes :: Apart(m, n);
    }
  }

  lemma NoRepeatPrefix(nodes: seq<Node>, i: nat)
    requires i <= |nodes| && NoRepeat(nodes)
    ensures NoRepeat(nodes[..i])
  {
    forall a, b | 0 <= a < b < i ensures Apart(nodes[..i][a], nodes[..i][b]) {
      assert Apart(nodes[a], nodes[b]);
    }
  }

  /** Checks what one node refers to, and records it as placed. */
  method Place(form: Form, item: Node, fields: set<int>, elements: set<int>)
    returns (ok: bool, placedFields: set<int>, placedElements: set<int>)
    ensures ok <==>
            && ReferenceOk(form, item)
            && (item.field.Some? ==> item.field.value !in fields)
            && (item.element.Some? ==> item.element.value !in elements)
    ensures ok ==> placedFields == fields + if item.field.Some? then {item.field.value} else {}
    ensures ok ==> placedElements == elements + if item.element.Some? then {item.element.value} else {}
  {
    ok, placedFields, placedElements := true, fields, elements;
    match item.kind {
      case FieldNode =>
        if item.field.None? || item.element.Some? || !item.container.NoContainer? ||
           item.field.value !in FieldIds(form) || item.field.value in placedFields {
          return false, fields, elements;
        }
        placedFields := placedFields + {item.field.value};
      case ElementNode =>
        if item.element.None? || item.field.Some? || !item.container.NoContainer? ||
           item.element.value !in ElementIds(form) || item.element.value in placedElements {
          return false, fields, elements;
        }
        placedElements := placedElements + {item.element.value};
      case ContainerNode =>
        if item.field.Some? || item.element.Some? || !(item.container.Group? || item.container.Slide?) {
          return false, fields, elements;
        }
      case UnknownKind =>
        return false, fields, elements;
    }
  }

  ghost predicate EntriesTo(form: Form, json: string -> bool, nodes: seq<Node>, i: nat)
    requires i <= |nodes|
  {
    Entries(form, json, nodes[..i])
  }

  lemma EntriesGrow(form: Form, json: string -> bool, nodes: seq<Node>, i: nat)
    requires i < |nodes|
    ensures EntriesTo(form, json, nodes, i + 1) <==>
            EntriesTo(form, json, nodes, i) && NodeOk(form, json, nodes[i]) && Fresh(nodes[..i], nodes[i])
  {
    NoRepeatGrows(nodes, i);
    assert nodes[..i + 1] == nodes[..i] + [nodes[i]];
    assert forall n | n in nodes[..i] :: n in nodes[..i + 1];
    assert nodes[i] in nodes[..i + 1];
  }

  lemma EntriesShrink(form: Form, json: string -> bool, nodes: seq<Node>, i: nat)
    requires i <= |nodes| && Entries(form, json, nodes)
    ensures EntriesTo(form, json, nodes, i)
  {
    NoRepeatPrefix(nodes, i);
  }

  lemma IndexGrows(nodes: seq<Node>, i: nat, index: map<int, Node>)
    requires i < |nodes| && Indexed(nodes[..i], index) && nodes[i].id !in index
    ensures Indexed(nodes[..i + 1], index[nodes[i].id := nodes[i]])
  {
    PrefixGrows(nodes, i);
    assert nodes[..i + 1] == nodes[..i] + [nodes[i]];
  }

  /** Checks the nodes in the order given, and indexes them. */
  method Collect(form: Form, json: string -> bool, desired: seq<Node>)
    returns (ok: bool, nodes: map<int, Node>, placedFields: set<int>, placedElements: set<int>)
    ensures ok <==> Entries(form, json, desired)
    ensures ok ==> Indexed(desired, nodes)
    ensures ok ==> placedFields == PlacedFields(desired) && placedElements == PlacedElements(desired)
  {
    var existing := Ids(form.layout);
    nodes, placedFields, placedElements := map[], {}, {};
    for i := 0 to |desired|
      invariant Indexed(desired[..i], nodes)
      invariant placedFields == PlacedFields(desired[..i]) && placedElements == PlacedElements(desired[..i])
      invariant EntriesTo(form, json, desired, i)
    {
      var item := desired[i];
      PrefixGrows(desired, i);
      EntriesGrow(form, json, desired, i);
      FreshMeans(desired[..i], item);
      if Entries(form, json, desired) { EntriesShrink(form, json, desired, i + 1); }
      if item.id <= 0 || item.id !in existing || item.id in nodes || item.position < 0 {
        return false, nodes, placedFields, placedElements;
      }
      ok, placedFields, placedElements := Place(form, item, placedFields, placedElements);
      if !ok { return; }
      if item.config != "" && !json(item.config) {
        return false, nodes, placedFields, placedElements;
      }
      IndexGrows(desired, i, nodes);
      nodes := nodes[item.id := item];
    }
    assert desired[..|desired|] == desired;
    ok := true;
  }

  method AllPlaced(ids: set<int>, placed: set<int>) returns (ok: bool)
    ensures ok <==> ids <= placed
  {
    var rest := ids;
    while rest != {}
      invariant rest <= ids && ids - rest <= placed
      decreases |rest|
    {
      var id := Graphs.Any(rest);
      if id !in placed {
        return false;
      }
      rest := rest - {id};
    }
    ok := true;
  }

  // ---------------------------------------------------------------- second pass: parents and siblings

  ghost predicate ParentOkIn(index: map<int, Node>, n: Node) {
    n.parent.Some? ==> n.parent.value != n.id && n.parent.value in index && index[n.parent.value].kind.ContainerNode?
  }

  ghost predicate ApartIn(index: map<int, Node>, done: set<int>) {
    forall a, b | a in done && b in done && a in index && b in index && a != b && Key(index[a]) == Key(index[b]) ::
      index[a].position != index[b].position
  }

  ghost predicate AttachedIn(index: map<int, Node>, done: set<int>) {
    && (forall id {:trigger ParentOkIn(index, index[id])} | id in done && id in index :: ParentOkIn(index, index[id]))
    && ApartIn(index, done)
  }

  ghost predicate ChildrenOf(index: map<int, Node>, done: set<int>, children: map<int, seq<int>>) {
    && (forall p, c | p in children && c in children[p] :: c in done && c in index && Key(index[c]) == p)
    && (forall c | c in done && c in index :: Key(index[c]) in children && c in children[Key(index[c])])
  }

  ghost predicate PositionsOf(index: map<int, Node>, done: set<int>, positions: map<int, set<int>>) {
    && (forall p, x | p in positions && x in positions[p] ::
          exists c | c in done && c in index :: Key(index[c]) == p && index[c].position == x)
    && (forall c | c in done && c in index :: Key(index[c]) in positions && index[c].position in positions[Key(index[c])])
  }

  ghost predicate Taken(index: map<int, Node>, done: set<int>, parent: int, position: int) {
    exists c | c in done && c in index :: Key(index[c]) == parent && index[c].position == position
  }

  lemma AttachedGrows(index: map<int, Node>, done: set<int>, id: int)
    requires id in index && id !in done
    ensures AttachedIn(index, done + {id}) <==>
            && AttachedIn(index, done)
            && ParentOkIn(index, index[id])
            && !Taken(index, done, Key(index[id]), index[id].position)
  {
    var more := done + {id};
    assert id in more && forall c | c in done :: c in more;
    if AttachedIn(index, more) {
      assert !Taken(index, done, Key(index[id]), index[id].position);
    }
  }

  lemma ChildrenGrow(index: map<int, Node>, done: set<int>, id: int, children: map<int, seq<int>>, more: map<int, seq<int>>)
    requires id in index && ChildrenOf(index, done, children)
    requires more == children[Key(index[id]) := (if Key(index[id]) in children then children[Key(index[id])] else []) + [id]]
    ensures ChildrenOf(index, done + {id}, more)
  {
  }

  lemma PositionsGrow(index: map<int, Node>, done: set<int>, id: int, positions: map<int, set<int>>, more: map<int, set<int>>)
    requires id in index && PositionsOf(index, done, positions)
    requires more == positions[Key(index[id]) :=
                       (if Key(index[id]) in positions then positions[Key(index[id])] else {}) + {index[id].position}]
    ensures PositionsOf(index, done + {id}, more)
  {
    forall p, x | p in more && x in more[p]
      ensures exists c | c in done + {id} && c in index :: Key(index[c]) == p && index[c].position == x
    {
      if p in positions && x in positions[p] {
        var c :| c in done && c in index && Key(index[c]) == p && index[c].position == x;
        assert c in done + {id};
      } else {
        assert id in done + {id};
      }
    }
  }

  lemma TakenMeans(index: map<int, Node>, done: set<int>, positions: map<int, set<int>>, parent: int, position: int)
    requires PositionsOf(index, done, positions)
    ensures Taken(index, done, parent, position) <==> parent in positions && position in positions[parent]
  {
  }

  /** Looks a node's parent up and puts the node among its siblings. */
  method AttachOne(nodes: map<int, Node>, ghost done: set<int>, id: int,
                   positions: map<int, set<int>>, children: map<int, seq<int>>)
    returns (ok: bool, positions': map<int, set<int>>, children': map<int, seq<int>>)
    requires id in nodes && id !in done && AttachedIn(nodes, done)
    requires ChildrenOf(nodes, done, children) && PositionsOf(nodes, done, positions)
    ensures ok <==> AttachedIn(nodes, done + {id})
    ensures ok ==> ChildrenOf(nodes, done + {id}, children') && PositionsOf(nodes, done + {id}, positions')
  {
    AttachedGrows(nodes, done, id);
    positions', children' := positions, children;
    var item := nodes[id];
    if item.parent.Some? {
      if item.parent.value == item.id {
        return false, positions, children;
      }
      if item.parent.value !in nodes || !nodes[item.parent.value].kind.ContainerNode? {
        return false, positions, children;
      }
    }
    var parent := Key(item);
    TakenMeans(nodes, done, positions, parent, item.position);
    if parent !in positions' {
      positions' := positions'[parent := {}];
    }
    if item.position in positions'[parent] {
      return false, positions, children;
    }
    positions' := positions'[parent := positions'[parent] + {item.position}];
    children' := children'[parent := (if parent in children then children[parent] else []) + [id]];
    PositionsGrow(nodes, done, id, positions, positions');
    ChildrenGrow(nodes, done, id, children, children');
    ok := true;
  }

  /** Attaches the nodes in any order. */
  method Attach(nodes: map<int, Node>) returns (ok: bool, children: map<int, seq<int>>)
    ensures ok <==> AttachedIn(nodes, nodes.Keys)
    ensures ok ==> ChildrenOf(nodes, nodes.Keys, children)
  {
    children := map[];
    var positions: map<int, set<int>> := map[];
    var rest := nodes.Keys;
    while rest != {}
      invariant rest <= nodes.Keys
      invariant AttachedIn(nodes, nodes.Keys - rest)
      invariant ChildrenOf(nodes, nodes.Keys - rest, children)
      invariant PositionsOf(nodes, nodes.Keys - rest, positions)
      decreases |rest|
    {
      var id := Graphs.Any(rest);
      ghost var done := nodes.Keys - rest;
      rest := rest - {id};
      assert nodes.Keys - rest == done + {id};
      ok, positions, children := AttachOne(nodes, done, id, positions, children);
      if !ok {
        AttachedShrinks(nodes, done + {id});
        return;
      }
    }
    assert nodes.Keys - rest == nodes.Keys;
    ok := true;
  }

  lemma AttachedShrinks(index: map<int, Node>, done: set<int>)
    requires done <= index.Keys && !AttachedIn(index, done)
    ensures !AttachedIn(index, index.Keys)
  {
  }

  // ---------------------------------------------------------------- third pass: no cycles

  function IndexLinks(index: map<int, Node>): Graphs.Links<int> {
    map id | id in index :: index[id].parent
  }

  lemma {:induction false} LinkOf(nodes: seq<Node>, n: Node)
    requires NoRepeat(nodes) && n in nodes
    ensures n.id in ParentLinks(nodes) && ParentLinks(nodes)[n.id] == n.parent
  {
    var m := |nodes| - 1;
    if n != nodes[m] {
      NoRepeatPrefix(nodes, m);
      LinkOf(nodes[..m], n);
      var i :| 0 <= i < m && nodes[i] == n;
      assert Apart(n, nodes[m]);
    }
  }

  lemma {:induction false} LinkKeys(nodes: seq<Node>)
    ensures ParentLinks(nodes).Keys == Ids(nodes)
  {
    if nodes != [] {
      LinkKeys(nodes[..|nodes| - 1]);
      PrefixGrows(nodes, |nodes| - 1);
      assert nodes[..|nodes| - 1 + 1] == nodes;
    }
  }

  lemma LinksAgree(nodes: seq<Node>, index: map<int, Node>)
    requires NoRepeat(nodes) && Indexed(nodes, index)
    ensures ParentLinks(nodes) == IndexLinks(index)
  {
    LinkKeys(nodes);
    forall id | id in index ensures ParentLinks(nodes)[id] == index[id].parent {
      assert id in Ids(nodes);
      LinkOf(nodes, index[id]);
    }
  }

  lemma AttachedMeans(form: Form, json: string -> bool, nodes: seq<Node>, index: map<int, Node>)
    requires Entries(form, json, nodes) && Indexed(nodes, index)
    ensures AttachedIn(index, index.Keys) <==> Attached(nodes)
  {
    assert forall n | n in nodes :: n.id in index && n.id > 0 by {
      assert forall n | n in nodes :: NodeOk(form, json, n);
    }
    forall n | n in nodes ensures ParentOkIn(index, n) <==> ParentOk(nodes, n) {
      if n.parent.Some? && n.parent.value in index {
        assert index[n.parent.value] in nodes;
      }
    }
    assert (forall id | id in index :: ParentOkIn(index, index[id])) <==> (forall n | n in nodes :: ParentOk(nodes, n)) by {
      forall id | id in index ensures index[id] in nodes {
        assert id in Ids(nodes);
      }
      assert forall n | n in nodes :: index[n.id] == n;
    }
    if forall n | n in nodes :: ParentOk(nodes, n) {
      SiblingsMean(nodes, index);
    }
  }

  lemma SiblingsMean(nodes: seq<Node>, index: map<int, Node>)
    requires Indexed(nodes, index) && (forall n | n in nodes :: n.id > 0 && ParentOk(nodes, n))
    ensures ApartIn(index, index.Keys) <==> SiblingsApart(nodes)
  {
    forall a, b | a in nodes && b in nodes ensures Key(a) == Key(b) <==> a.parent == b.parent {
      assert ParentOk(nodes, a) && ParentOk(nodes, b);
    }
    forall id | id in index ensures index[id] in nodes {
      assert id in Ids(nodes);
    }
    if ApartIn(index, index.Keys) {
      forall a, b | a in nodes && b in nodes && a != b && a.parent == b.parent ensures a.position != b.position {
        assert index[a.id] == a && index[b.id] == b;
      }
    }
  }

  function ChildGraph(index: map<int, Node>, children: map<int, seq<int>>): Graphs.Graph<int> {
    map id | id in index :: if id in children then children[id] else []
  }

  lemma ChildrenBelow(index: map<int, Node>, children: map<int, seq<int>>)
    requires ChildrenOf(index, index.Keys, children) && 0 !in index
    ensures Graphs.Below(ChildGraph(index, children), IndexLinks(index))
  {
    var g := ChildGraph(index, children);
    forall k, s | k in g && s in g[k] ensures s in index && index[s].parent == Some(k) {
      assert s in children[k];
    }
  }

  lemma ParentsAbove(index: map<int, Node>, children: map<int, seq<int>>)
    requires AttachedIn(index, index.Keys) && ChildrenOf(index, index.Keys, children)
    ensures Graphs.Above(ChildGraph(index, children), IndexLinks(index))
  {
    var g, links := ChildGraph(index, children), IndexLinks(index);
    forall s | s in links && links[s].Some? ensures links[s].value in g && s in g[links[s].value] {
      assert ParentOkIn(index, index[s]);
      ParentIsAbove(index, children, s);
    }
  }

  lemma ParentIsAbove(index: map<int, Node>, children: map<int, seq<int>>, c: int)
    requires c in index && ParentOkIn(index, index[c]) && ChildrenOf(index, index.Keys, children)
    requires index[c].parent.Some?
    ensures index[c].parent.value in index && c in ChildGraph(index, children)[index[c].parent.value]
  {
  }

  lemma ChildGraphInverts(index: map<int, Node>, children: map<int, seq<int>>)
    requires AttachedIn(index, index.Keys) && ChildrenOf(index, index.Keys, children) && 0 !in index
    ensures Graphs.Inverts(ChildGraph(index, children), IndexLinks(index)) && Graphs.Closed(ChildGraph(index, children))
  {
    ChildrenBelow(index, children);
    ParentsAbove(index, children);
    EdgesInvert(ChildGraph(index, children), IndexLinks(index));
  }

  lemma EdgesInvert(g: Graphs.Graph<int>, links: Graphs.Links<int>)
    requires g.Keys == links.Keys && Graphs.Below(g, links) && Graphs.Above(g, links)
    ensures Graphs.Inverts(g, links) && Graphs.Closed(g)
  {
    InvertedIsClosed(g, links);
  }

  lemma InvertedIsClosed(g: Graphs.Graph<int>, links: Graphs.Links<int>)
    requires g.Keys == links.Keys && Graphs.Below(g, links)
    ensures Graphs.Closed(g)
  {
    forall k, i | k in g && 0 <= i < |g[k]| ensures g[k][i] in g {
      var s := g[k][i];
      assert s in g[k];
      assert s in links;
    }
  }

  // ---------------------------------------------------------------- the mandatory parts

  function LastWithCode(fields: seq<Field>, code: string): Option<Field> {
    if fields == [] then None
    else if fields[|fields| - 1].code == code then Some(fields[|fields| - 1])
    else LastWithCode(fields[..|fields| - 1], code)
  }

  function SubmitIds(elements: seq<Element>): set<int> {
    set e | e in elements && e.submit :: e.id
  }

  predicate MandatoryField(f: Field) {
    && (f.code == CONSENT_CODE ==> f.kind.Consent? && f.required)
    && (f.code == CAPTCHA_CODE ==> f.kind.Captcha? && f.required)
  }

  ghost predicate HasField(fields: seq<Field>, code: string) {
    LastWithCode(fields, code).Some? && LastWithCode(fields, code).value.id > 0
  }

  /** The parts of the form itself that must exist. */
  ghost predicate MandatoryParts(fields: seq<Field>, elements: seq<Element>) {
    && (forall f | f in fields :: MandatoryField(f)) && HasField(fields, CONSENT_CODE) && HasField(fields, CAPTCHA_CODE)
    && |SubmitIds(elements)| == 1
  }

  ghost predicate MandatoryPlaced(fields: seq<Field>, elements: seq<Element>, layout: seq<Node>)
    requires MandatoryParts(fields, elements)
  {
    && (exists n | n in layout :: n.field == Some(LastWithCode(fields, CONSENT_CODE).value.id))
    && (exists n | n in layout :: n.field == Some(LastWithCode(fields, CAPTCHA_CODE).value.id))
    && (exists n | n in layout :: n.element.Some? && n.element.value in SubmitIds(elements))
  }

  lemma {:induction false} LastWithCodeIsThere(fields: seq<Field>, code: string)
    requires LastWithCode(fields, code).Some?
    ensures LastWithCode(fields, code).value in fields
  {
    if fields[|fields| - 1].code != code {
      LastWithCodeIsThere(fields[..|fields| - 1], code);
    }
  }

  /** In a complete layout the search for the mandatory nodes cannot fail. */
  lemma CompleteLayoutsPlaceTheMandatory(form: Form, nodes: seq<Node>)
    requires Complete(form, nodes) && MandatoryParts(form.fields, form.elements)
    ensures MandatoryPlaced(form.fields, form.elements, nodes)
  {
    LastWithCodeIsThere(form.fields, CONSENT_CODE);
    LastWithCodeIsThere(form.fields, CAPTCHA_CODE);
    assert LastWithCode(form.fields, CONSENT_CODE).value.id in PlacedFields(nodes);
    assert LastWithCode(form.fields, CAPTCHA_CODE).value.id in PlacedFields(nodes);
    var id :| id in SubmitIds(form.elements);
    assert id in PlacedElements(nodes);
  }

  function IdOf(f: Option<Field>): int {
    if f.Some? then f.value.id else 0
  }

  method ValidateMandatory(fields: seq<Field>, elements: seq<Element>, layout: seq<Node>) returns (ok: bool)
    ensures ok <==> MandatoryParts(fields, elements) && MandatoryPlaced(fields, elements, layout)
  {
    var consent, captcha := 0, 0;
    for i := 0 to |fields|
      invariant forall f | f in fields[..i] :: MandatoryField(f)
      invariant consent == IdOf(LastWithCode(fields[..i], CONSENT_CODE))
      invariant captcha == IdOf(LastWithCode(fields[..i], CAPTCHA_CODE))
    {
      var item := fields[i];
      assert fields[..i + 1][..i] == fields[..i] && fields[..i + 1] == fields[..i] + [item] && item in fields;
      if item.code == CONSENT_CODE {
        if !item.kind.Consent? || !item.required {
          return false;
        }
        consent := item.id;
      } else if item.code == CAPTCHA_CODE {
        if !item.kind.Captcha? || !item.required {
          return false;
        }
        captcha := item.id;
      }
    }
    assert fields[..|fields|] == fields;
    if consent <= 0 || captcha <= 0 {
      return false;
    }
    var submits := SubmitIds(elements);
    if |submits| != 1 {
      return false;
    }
    ok := FindPlaced(layout, consent, captcha, submits);
  }

  method FindPlaced(layout: seq<Node>, consent: int, captcha: int, submits: set<int>) returns (ok: bool)
    ensures ok <==> (exists n | n in layout :: n.field == Some(consent)) && (exists n | n in layout :: n.field == Some(captcha))
                    && (exists n | n in layout :: n.element.Some? && n.element.value in submits)
  {
    var consentPlaced, captchaPlaced, submitPlaced := false, false, false;
    for i := 0 to |layout|
      invariant consentPlaced <==> exists n | n in layout[..i] :: n.field == Some(consent)
      invariant captchaPlaced <==> exists n | n in layout[..i] :: n.field == Some(captcha)
      invariant submitPlaced <==> exists n | n in layout[..i] :: n.element.Some? && n.element.value in submits
    {
      var item := layout[i];
      assert layout[..i + 1] == layout[..i] + [item];
      if item.field.Some? && item.field.value == consent {
        consentPlaced := true;
      }
      if item.field.Some? && item.field.value == captcha {
        captchaPlaced := true;
      }
      if item.element.Some? && item.element.value in submits {
        submitPlaced := true;
      }
    }
    assert layout[..|layout|] == layout;
    ok := consentPlaced && captchaPlaced && submitPlaced;
  }

  // ---------------------------------------------------------------- the order of the request does not matter

  lemma NoRepeatPermuted(nodes: seq<Node>, others: seq<Node>)
    requires multiset(nodes) == multiset(others) && NoRepeat(nodes)
    ensures NoRepeat(others)
  {
    assert forall i, j | 0 <= i < j < |nodes| :: Apart(nodes[i], nodes[j]);
    forall a, b | 0 <= a < b < |others| ensures Apart(others[a], others[b]) {
      Sorting.DistinctPermutation(nodes, others, a, b);
      assert others[a] in multiset(nodes) && others[b] in multiset(nodes);
      var i :| 0 <= i < |nodes| && nodes[i] == others[a];
      var j :| 0 <= j < |nodes| && nodes[j] == others[b];
      assert i < j ==> Apart(nodes[i], nodes[j]);
      assert j < i ==> Apart(nodes[j], nodes[i]);
    }
  }

  lemma LinksPermuted(nodes: seq<Node>, others: seq<Node>)
    requires NoRepeat(nodes) && NoRepeat(others) && forall n :: n in nodes <==> n in others
    ensures ParentLinks(nodes) == ParentLinks(others)
  {
    LinkKeys(nodes);
    LinkKeys(others);
    forall id | id in Ids(nodes) ensures id in Ids(others) && ParentLinks(nodes)[id] == ParentLinks(others)[id] {
      var n :| n in nodes && n.id == id;
      LinkOf(nodes, n);
      LinkOf(others, n);
    }
    forall id | id in Ids(others) ensures id in Ids(nodes) {
      var n :| n in others && n.id == id;
      assert n in nodes;
    }
  }

  lemma AttachedPermuted(nodes: seq<Node>, others: seq<Node>)
    requires Attached(nodes) && forall n :: n in nodes <==> n in others
    ensures Attached(others)
  {
    forall n | n in others ensures ParentOk(others, n) {
      assert ParentOk(nodes, n);
    }
  }

  lemma StructuredPermuted(form: Form, json: string -> bool, nodes: seq<Node>, others: seq<Node>)
    requires multiset(nodes) == multiset(others) && Structured(form, json, nodes)
    ensures Structured(form, json, others)
  {
    Sorting.SameLength(nodes, others);
    NoRepeatPermuted(nodes, others);
    forall n ensures n in nodes <==> n in others {
      assert n in multiset(nodes) <==> n in multiset(others);
    }
    LinksPermuted(nodes, others);
    AttachedPermuted(nodes, others);
    assert Ids(others) == Ids(nodes) && PlacedFields(others) == PlacedFields(nodes);
    assert PlacedElements(others) == PlacedElements(nodes);
  }

  /** Whether a request is accepted, and with what result, depends on its nodes and not on the order they come in. */
  lemma OrderOfRequestIsIrrelevant(form: Form, json: string -> bool, nodes: seq<Node>, others: seq<Node>)
    requires multiset(nodes) == multiset(others)
    ensures Structured(form, json, nodes) <==> Structured(form, json, others)
    ensures Structured(form, json, nodes) ==> Sorting.Sort(Before, nodes) == Sorting.Sort(Before, others)
  {
    if Structured(form, json, others) {
      StructuredPermuted(form, json, others, nodes);
    }
    if Structured(form, json, nodes) {
      StructuredPermuted(form, json, nodes, others);
      SameResult(nodes, others);
    }
  }

  lemma SameResult(nodes: seq<Node>, others: seq<Node>)
    requires multiset(nodes) == multiset(others) && NoRepeat(nodes)
    ensures Sorting.Sort(Before, nodes) == Sorting.Sort(Before, others)
  {
    BeforeIsAnOrder();
    forall x, y | x in nodes && y in nodes && x != y ensures Before(x, y) || Before(y, x) {
      var i :| 0 <= i < |nodes| && nodes[i] == x;
      var j :| 0 <= j < |nodes| && nodes[j] == y;
      assert i < j ==> Apart(x, y);
      assert j < i ==> Apart(y, x);
    }
    Sorting.SortOfPermutation(Before, nodes, others);
  }

  // ---------------------------------------------------------------- the whole check

  /** Accepts exactly the complete forests, whatever order the maps are walked in. */
  method CheckStructure(form: Form, json: string -> bool, desired: seq<Node>) returns (ok: bool)
    ensures ok <==> Structured(form, json, desired)
  {
    if |desired| != |form.layout| {
      return false;
    }
    var nodes, placedFields, placedElements;
    ok, nodes, placedFields, placedElements := Collect(form, json, desired);
    if !ok { return; }
    ok := AllPlaced(FieldIds(form), placedFields);
    if !ok { return; }
    ok := AllPlaced(ElementIds(form), placedElements);
    if !ok { return; }
    ok := CheckForest(form, json, desired, nodes);
  }

  method CheckForest(ghost form: Form, ghost json: string -> bool, ghost desired: seq<Node>, nodes: map<int, Node>)
    returns (ok: bool)
    requires Entries(form, json, desired) && Indexed(desired, nodes)
    ensures ok <==> Attached(desired) && Rooted(desired)
  {
    var children;
    ok, children := Attach(nodes);
    AttachedMeans(form, json, desired, nodes);
    if !ok { return; }
    assert 0 !in nodes by {
      assert forall n | n in desired :: NodeOk(form, json, n);
    }
    ChildGraphInverts(nodes, children);
    LinksAgree(desired, nodes);
    var search := new Graphs.Search(ChildGraph(nodes, children));
    ghost var cycle;
    ok, cycle := search.Run();
    Graphs.SearchDecidesGrounded(search.g, IndexLinks(nodes), ok, search.order, cycle);
  }

  /** A layout is accepted when it is a complete forest and the mandatory parts exist; it comes back in order. */
  method Normalize(form: Form, json: string -> bool, desired: seq<Node>) returns (ok: bool, result: seq<Node>)
    ensures ok <==> Structured(form, json, desired) && MandatoryParts(form.fields, form.elements)
    ensures ok ==> Ordered(result) && multiset(result) == multiset(desired) && result == Sorting.Sort(Before, desired)
    ensures ok ==> Ids(desired) == Ids(form.layout)
    ensures ok ==> MandatoryPlaced(form.fields, form.elements, result)
  {
    result := [];
    ok := CheckStructure(form, json, desired);
    if !ok { return; }
    NoNodeIsMissing(form, json, desired);
    SortedIsOrdered(form, json, desired);
    result := Sorting.Sort(Before, desired);
    ok := ValidateMandatory(form.fields, form.elements, result);
    if MandatoryParts(form.fields, form.elements) {
      assert Complete(form, result) by {
        forall n | n in desired ensures n in result {
          assert n in multiset(result);
        }
      }
      CompleteLayoutsPlaceTheMandatory(form, result);
    }
  }
}
