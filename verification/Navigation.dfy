/** The admin navigation tree (adminui/navigation.go). */
module Navigation {
  import opened Wrappers
  import opened Lists
  import opened Sorting
  import Text

  const ADMINISTRATOR := "administrator"

  datatype Item = Item(code: string, parent: string, caption: string, route: string, icon: string, order: int,
                       permission: string, visibility: string, scope: string, children: seq<Item>)

  predicate Before(a: Item, b: Item) {
    if a.order == b.order then Text.Less(a.code, b.code) else a.order < b.order
  }

  /** Ascending in `order`, and in the code among equals. */
  ghost predicate Ascending(items: seq<Item>) {
    forall i, j | 0 <= i < j < |items| ::
      items[i].order < items[j].order || (items[i].order == items[j].order && !Text.Less(items[j].code, items[i].code))
  }

  lemma SortedAscends(items: seq<Item>)
    requires Sorted(Before, items)
    ensures Ascending(items)
  {
    forall i, j | 0 <= i < j < |items|
      ensures items[i].order < items[j].order || (items[i].order == items[j].order && !Text.Less(items[j].code, items[i].code))
    {
      assert !Before(items[j], items[i]);
    }
  }

  /** Sorting puts items in ascending order and keeps each of them. */
  lemma SortAscends(items: seq<Item>)
    ensures Ascending(Sort(Before, items))
    ensures forall x | x in Sort(Before, items) :: x in items
  {
    BeforeIsAnOrder();
    SortSorts(Before, items);
    SortContents(Before, items);
    SortedAscends(Sort(Before, items));
    forall x | x in Sort(Before, items) ensures x in items {
      assert x in multiset(items);
    }
  }

  lemma BeforeIsAnOrder()
    ensures Order(Before)
    ensures forall a: Item, b: Item | a.code != b.code :: Before(a, b) || Before(b, a)
  {
    Text.LessIsAnOrder();
  }

  // ---------------------------------------------------------------- codes

  function Codes(item: Item): seq<string>
    decreases item, 0
  {
    [item.code] + CodesOf(item.children)
  }

  function CodesOf(items: seq<Item>): seq<string>
    decreases items, 1
  {
    if items == [] then [] else CodesOf(items[..|items| - 1]) + Codes(items[|items| - 1])
  }

  /** The codes are all different and none is in use. */
  ghost predicate Available(codes: seq<string>, used: set<string>) {
    NoDuplicates(codes) && forall c | c in codes :: c !in used
  }

  lemma AvailableAppend(a: seq<string>, b: seq<string>, used: set<string>)
    ensures Available(a + b, used) <==> Available(a, used) && Available(b, used + Members(a))
    ensures Members(a + b) == Members(a) + Members(b)
  {
    assert multiset(a + b) == multiset(a) + multiset(b);
    if Available(a + b, used) {
      forall c ensures multiset(a)[c] <= 1 && multiset(b)[c] <= 1 && (c in b ==> c !in Members(a)) {
        assert multiset(a + b)[c] <= 1;
        assert c in a ==> multiset(a)[c] >= 1;
        assert c in b ==> multiset(b)[c] >= 1;
      }
      assert forall c | c in a :: c in a + b;
      assert forall c | c in b :: c in a + b;
    }
    if Available(a, used) && Available(b, used + Members(a)) {
      forall c ensures multiset(a + b)[c] <= 1 {
        assert c in multiset(a) ==> c in Members(a);
        assert c in multiset(b) ==> c in b;
      }
    }
  }

  lemma CodesSnoc(items: seq<Item>, i: nat)
    requires i < |items|
    ensures CodesOf(items[..i + 1]) == CodesOf(items[..i]) + Codes(items[i])
  {
    assert items[..i + 1][..i] == items[..i];
  }

  lemma {:induction false} CodesAppend(a: seq<Item>, b: seq<Item>)
    ensures CodesOf(a + b) == CodesOf(a) + CodesOf(b)
  {
    if b == [] {
      assert a + b == a;
    } else {
      var n := |b| - 1;
      CodesAppend(a, b[..n]);
      assert (a + b)[..|a + b| - 1] == a + b[..n];
      assert CodesOf(a) + (CodesOf(b[..n]) + Codes(b[n])) == CodesOf(a) + CodesOf(b[..n]) + Codes(b[n]);
    }
  }

  lemma AvailableStep(items: seq<Item>, i: nat, used: set<string>)
    requires i < |items|
    ensures Available(CodesOf(items[..i + 1]), used) <==>
            Available(CodesOf(items[..i]), used) && Available(Codes(items[i]), used + Members(CodesOf(items[..i])))
    ensures Members(CodesOf(items[..i + 1])) == Members(CodesOf(items[..i])) + Members(Codes(items[i]))
    ensures Available(CodesOf(items), used) ==> Available(CodesOf(items[..i + 1]), used)
  {
    CodesSnoc(items, i);
    AvailableAppend(CodesOf(items[..i]), Codes(items[i]), used);
    if Available(CodesOf(items), used) { AvailablePrefix(items, i + 1, used); }
  }

  /** If a longer list is available so is a shorter one. */
  lemma AvailablePrefix(items: seq<Item>, i: nat, used: set<string>)
    requires i <= |items| && Available(CodesOf(items), used)
    ensures Available(CodesOf(items[..i]), used)
  {
    assert items == items[..i] + items[i..];
    CodesAppend(items[..i], items[i..]);
    AvailableAppend(CodesOf(items[..i]), CodesOf(items[i..]), used);
  }

  // ---------------------------------------------------------------- compiling one source

  predicate Letter(c: char) {
    'a' <= c <= 'z'
  }

  predicate Alphanumeric(c: char) {
    Letter(c) || '0' <= c <= '9'
  }

  predicate Separator(c: char) {
    c == '.' || c == '_' || c == '-'
  }

  /** Alphanumeric words joined by single separators, the first starting with a letter. */
  predicate Semantic(s: string) {
    && (forall c | c in s :: Alphanumeric(c) || Separator(c))
    && s != "" && Letter(s[0])
    && forall i | 0 <= i < |s| && Separator(s[i]) :: i + 1 < |s| && Alphanumeric(s[i + 1])
  }

  /** `permitted` stands for the permission syntax and registry. */
  predicate ItemOk(item: Item, scope: string, permitted: string -> bool) {
    && Semantic(item.code) && (item.parent != "" ==> Semantic(item.parent))
    && Text.TrimSpace(item.caption) != "" && item.order >= 0 && item.scope == scope
    && (item.icon != "" ==> Semantic(item.icon)) && (item.permission != "" ==> permitted(item.permission))
    && (item.visibility == "" || item.visibility == ADMINISTRATOR)
    && if item.children == [] then Semantic(item.route) else item.route == ""
  }

  predicate TreeOk(item: Item, scope: string, permitted: string -> bool) {
    ItemOk(item, scope, permitted) && ChildrenOk(item.children, scope, permitted)
  }

  predicate ChildrenOk(items: seq<Item>, scope: string, permitted: string -> bool) {
    forall child | child in items :: child.parent == "" && TreeOk(child, scope, permitted)
  }

  lemma ChildrenOkSnoc(items: seq<Item>, i: nat, scope: string, permitted: string -> bool)
    requires i < |items|
    ensures ChildrenOk(items[..i + 1], scope, permitted) <==>
            ChildrenOk(items[..i], scope, permitted) && items[i].parent == "" && TreeOk(items[i], scope, permitted)
    ensures ChildrenOk(items, scope, permitted) ==> ChildrenOk(items[..i + 1], scope, permitted)
  {
    assert items[..i + 1] == items[..i] + [items[i]];
  }

  /** The item with trimmed labels and ordered children, all the way down. */
  function Canonical(item: Item): Item
    decreases item, 0
  {
    item.(caption := Text.TrimSpace(item.caption), children := Sort(Before, CanonicalAll(item.children)))
  }

  function CanonicalAll(items: seq<Item>): (r: seq<Item>)
    ensures |r| == |items|
    decreases items, 1
  {
    if items == [] then [] else CanonicalAll(items[..|items| - 1]) + [Canonical(items[|items| - 1])]
  }

  method CompileItem(item: Item, scope: string, permitted: string -> bool, used: set<string>)
    returns (ok: bool, compiled: Item, used': set<string>)
    ensures ok <==> TreeOk(item, scope, permitted) && Available(Codes(item), used)
    ensures ok ==> compiled == Canonical(item) && used' == used + Members(Codes(item))
    decreases item, 0
  {
    compiled, used' := item, used;
    AvailableAppend([item.code], CodesOf(item.children), used);
    AvailableOne(item.code, used);
    if !Semantic(item.code) || item.code in used {
      return false, compiled, used';
    }
    used' := used' + {item.code};
    if item.parent != "" && !Semantic(item.parent) { return false, compiled, used'; }
    compiled := item.(caption := Text.TrimSpace(item.caption));
    if compiled.caption == "" { return false, compiled, used'; }
    if item.order < 0 || item.scope != scope { return false, compiled, used'; }
    if item.icon != "" && !Semantic(item.icon) { return false, compiled, used'; }
    if item.permission != "" && !permitted(item.permission) { return false, compiled, used'; }
    if item.visibility != "" && item.visibility != ADMINISTRATOR { return false, compiled, used'; }
    if item.children == [] && !Semantic(item.route) { return false, compiled, used'; }
    if item.children != [] && item.route != "" { return false, compiled, used'; }
    var children;
    ok, children, used' := CompileChildren(item.children, scope, permitted, used');
    if !ok { return; }
    compiled := compiled.(children := Sort(Before, children));
  }

  method CompileChildren(items: seq<Item>, scope: string, permitted: string -> bool, used: set<string>)
    returns (ok: bool, children: seq<Item>, used': set<string>)
    ensures ok <==> Accepted(items, scope, permitted, used)
    ensures ok ==> children == CanonicalAll(items) && used' == used + Members(CodesOf(items))
    decreases items, 1
  {
    children, used' := [], used;
    for i := 0 to |items|
      invariant Accepted(items[..i], scope, permitted, used)
      invariant used' == used + Members(CodesOf(items[..i])) && children == CanonicalAll(items[..i])
    {
      AcceptedStep(items, i, scope, permitted, used);
      assert items[i] in items && items[..i + 1][..i] == items[..i];
      if items[i].parent != "" {
        return false, children, used';
      }
      var compiled;
      ok, compiled, used' := CompileItem(items[i], scope, permitted, used');
      if !ok { return; }
      children := children + [compiled];
    }
    assert items[..|items|] == items;
    ok := true;
  }

  ghost predicate Accepted(items: seq<Item>, scope: string, permitted: string -> bool, used: set<string>) {
    ChildrenOk(items, scope, permitted) && Available(CodesOf(items), used)
  }

  lemma AcceptedStep(items: seq<Item>, i: nat, scope: string, permitted: string -> bool, used: set<string>)
    requires i < |items|
    ensures Accepted(items[..i + 1], scope, permitted, used) <==>
            && Accepted(items[..i], scope, permitted, used)
            && items[i].parent == "" && TreeOk(items[i], scope, permitted)
            && Available(Codes(items[i]), used + Members(CodesOf(items[..i])))
    ensures Members(CodesOf(items[..i + 1])) == Members(CodesOf(items[..i])) + Members(Codes(items[i]))
    ensures Accepted(items, scope, permitted, used) ==> Accepted(items[..i + 1], scope, permitted, used)
  {
    AvailableStep(items, i, used);
    ChildrenOkSnoc(items, i, scope, permitted);
  }

  lemma AvailableOne(code: string, used: set<string>)
    ensures Available([code], used) <==> code !in used
    ensures Members([code]) == {code}
  {
    assert code in [code];
  }

  /** Children are in order at every level. */
  ghost predicate Tidy(item: Item) {
    Ascending(item.children) && forall child | child in item.children :: Tidy(child)
  }

  lemma {:induction false} CanonicalIsTidy(item: Item)
    ensures Tidy(Canonical(item))
    decreases item, 0
  {
    SortAscends(CanonicalAll(item.children));
    CanonicalAllAreTidy(item.children);
  }

  lemma {:induction false} CanonicalAllAreTidy(items: seq<Item>)
    ensures forall x | x in CanonicalAll(items) :: Tidy(x)
    decreases items, 1
  {
    if items != [] {
      CanonicalAllAreTidy(items[..|items| - 1]);
      CanonicalIsTidy(items[|items| - 1]);
    }
  }

  // ---------------------------------------------------------------- what merging means

  function Detached(item: Item): Item {
    item.(parent := "")
  }

  /** The items that name `code` as their parent, in order. */
  function Attached(items: seq<Item>, code: string): seq<Item> {
    if items == [] then []
    else
      var n := |items| - 1;
      if items[n].parent != "" && items[n].parent == code then Attached(items[..n], code) + [Detached(items[n])]
      else Attached(items[..n], code)
  }

  /** A root with further children, in order. */
  function Extend(root: Item, more: seq<Item>): Item {
    if more == [] then root else root.(children := Sort(Before, root.children + more))
  }

  function RootsWith(items: seq<Item>, all: seq<Item>): seq<Item> {
    if items == [] then []
    else
      var n := |items| - 1;
      if items[n].parent == "" then RootsWith(items[..n], all) + [Extend(items[n], Attached(all, items[n].code))]
      else RootsWith(items[..n], all)
  }

  /** The tree that merging produces. */
  function Merged(items: seq<Item>): seq<Item> {
    Sort(Before, RootsWith(items, items))
  }

  ghost predicate HasParent(items: seq<Item>, x: Item) {
    x.parent != "" ==> exists r | r in items :: r.parent == "" && r.code == x.parent && r.route == ""
  }

  /** No code twice anywhere in the trees, and every parent is a root group. */
  ghost predicate Mergeable(items: seq<Item>) {
    NoDuplicates(CodesOf(items)) && forall x | x in items :: HasParent(items, x)
  }

  function All(collections: seq<seq<Item>>): seq<Item> {
    if collections == [] then [] else All(collections[..|collections| - 1]) + collections[|collections| - 1]
  }

  // ---------------------------------------------------------------- the merge

  method CollectCodes(item: Item, used: set<string>) returns (ok: bool, used': set<string>)
    ensures ok <==> Available(Codes(item), used)
    ensures ok ==> used' == used + Members(Codes(item))
    decreases item, 0
  {
    used' := used;
    AvailableAppend([item.code], CodesOf(item.children), used);
    AvailableOne(item.code, used);
    if item.code in used {
      return false, used';
    }
    used' := used' + {item.code};
    ok, used' := CollectAll(item.children, used');
  }

  method CollectAll(items: seq<Item>, used: set<string>) returns (ok: bool, used': set<string>)
    ensures ok <==> Available(CodesOf(items), used)
    ensures ok ==> used' == used + Members(CodesOf(items))
    decreases items, 1
  {
    used' := used;
    for i := 0 to |items|
      invariant Available(CodesOf(items[..i]), used) && used' == used + Members(CodesOf(items[..i]))
    {
      AvailableStep(items, i, used);
      ok, used' := CollectCodes(items[i], used');
      if !ok { return; }
    }
    assert items[..|items|] == items;
    ok := true;
  }

  /** The list while the items before `i` have been attached. */
  function Grown(items: seq<Item>, i: nat): (r: seq<Item>)
    requires i <= |items|
    ensures |r| == |items|
  {
    seq(|items|, j requires 0 <= j < |items| => GrownAt(items, i, items[j]))
  }

  function GrownAt(items: seq<Item>, i: nat, x: Item): Item
    requires i <= |items|
  {
    if x.parent == "" then Extend(x, Attached(items[..i], x.code)) else x
  }

  /** Where each root is. */
  ghost predicate Located(items: seq<Item>, i: nat, roots: map<string, nat>) {
    && (forall c | c in roots :: roots[c] < |items| && items[roots[c]].parent == "" && items[roots[c]].code == c)
    && forall j | 0 <= j < i && j < |items| :: items[j].parent == "" ==> items[j].code in roots
  }

  method Merge(collections: seq<seq<Item>>) returns (ok: bool, tree: seq<Item>)
    ensures ok <==> Mergeable(All(collections))
    ensures ok ==> tree == Merged(All(collections))
  {
    tree := [];
    var items;
    ok, items := Gather(collections);
    if !ok { return; }
    var roots := Locate(items);
    var result;
    ok, result := AttachAll(items, roots);
    if !ok { return; }
    var grouped := TopLevel(items, result);
    tree := Sort(Before, grouped);
  }

  method Locate(items: seq<Item>) returns (roots: map<string, nat>)
    ensures Located(items, |items|, roots)
  {
    roots := map[];
    for i := 0 to |items|
      invariant Located(items, i, roots)
    {
      if items[i].parent == "" {
        roots := roots[items[i].code := i];
      }
    }
  }

  /** The roots with what was attached to them, in the order they came in. */
  method TopLevel(ghost items: seq<Item>, result: seq<Item>) returns (grouped: seq<Item>)
    requires result == Grown(items, |items|)
    ensures grouped == RootsWith(items, items)
  {
    grouped := [];
    for i := 0 to |result|
      invariant grouped == RootsWith(items[..i], items)
    {
      assert items[..i + 1][..i] == items[..i] && items[..|items|] == items;
      if result[i].parent == "" {
        grouped := grouped + [result[i]];
      }
    }
    assert items[..|items|] == items;
  }

  /** The items of all collections, unless a code occurs twice. */
  method Gather(collections: seq<seq<Item>>) returns (ok: bool, items: seq<Item>)
    ensures ok <==> NoDuplicates(CodesOf(All(collections)))
    ensures ok ==> items == All(collections)
  {
    var used: set<string> := {};
    items := [];
    for i := 0 to |collections|
      invariant items == All(collections[..i])
      invariant Available(CodesOf(items), {}) && used == Members(CodesOf(items))
    {
      GatherStep(collections, i);
      if Available(CodesOf(All(collections)), {}) { GatherPrefix(collections, i + 1); }
      ok, used := CollectAll(collections[i], used);
      if !ok { return; }
      items := items + collections[i];
    }
    assert collections[..|collections|] == collections;
    ok := true;
  }

  lemma GatherStep(collections: seq<seq<Item>>, i: nat)
    requires i < |collections|
    ensures All(collections[..i + 1]) == All(collections[..i]) + collections[i]
    ensures var before := CodesOf(All(collections[..i]));
            && (Available(CodesOf(All(collections[..i + 1])), {}) <==>
                Available(before, {}) && Available(CodesOf(collections[i]), Members(before)))
            && Members(CodesOf(All(collections[..i + 1]))) == Members(before) + Members(CodesOf(collections[i]))
  {
    var before := All(collections[..i]);
    assert collections[..i + 1][..i] == collections[..i];
    CodesAppend(before, collections[i]);
    AvailableAppend(CodesOf(before), CodesOf(collections[i]), {});
    assert {} + Members(CodesOf(before)) == Members(CodesOf(before));
  }

  lemma GatherPrefix(collections: seq<seq<Item>>, i: nat)
    requires i <= |collections| && Available(CodesOf(All(collections)), {})
    ensures Available(CodesOf(All(collections[..i])), {})
  {
    AllPrefix(collections, i);
    var part := All(collections[..i]);
    AvailablePrefix(All(collections), |part|, {});
    assert All(collections)[..|part|] == part;
  }

  lemma {:induction false} AllPrefix(collections: seq<seq<Item>>, i: nat)
    requires i <= |collections|
    ensures All(collections[..i]) <= All(collections)
  {
    if i < |collections| {
      var n := |collections| - 1;
      AllPrefix(collections[..n], i);
      assert collections[..n][..i] == collections[..i];
    } else {
      assert collections[..i] == collections;
    }
  }

  /** Moves every item with a parent into that root, in the order of the list. */
  method AttachAll(items: seq<Item>, roots: map<string, nat>) returns (ok: bool, result: seq<Item>)
    requires NoDuplicates(CodesOf(items)) && Located(items, |items|, roots)
    ensures ok <==> forall x | x in items :: HasParent(items, x)
    ensures ok ==> result == Grown(items, |items|)
  {
    result := items;
    assert Grown(items, 0) == items;
    for i := 0 to |items|
      invariant result == Grown(items, i)
      invariant forall x | x in items[..i] :: HasParent(items, x)
    {
      var item := result[i];
      assert items[i] in items && items[..i + 1] == items[..i] + [items[i]];
      if item.parent == "" {
        GrownSame(items, i);
      } else {
        ParentMeans(items, roots, i);
        if item.parent !in roots || result[roots[item.parent]].route != "" {
          return false, result;
        }
        var index := roots[item.parent];
        result := result[index := WithChild(result[index], Detached(item))];
        GrownOne(items, i, index);
      }
    }
    assert items[..|items|] == items;
    ok := true;
  }

  lemma ParentMeans(items: seq<Item>, roots: map<string, nat>, i: nat)
    requires NoDuplicates(CodesOf(items)) && Located(items, |items|, roots) && i < |items| && items[i].parent != ""
    ensures HasParent(items, items[i]) <==> items[i].parent in roots && items[roots[items[i].parent]].route == ""
  {
    forall r | r in items && r.parent == "" && r.code == items[i].parent
      ensures r.code in roots && r == items[roots[r.code]]
    {
      var j :| 0 <= j < |items| && items[j] == r;
      DistinctCodes(items, j, roots[r.code]);
    }
    if items[i].parent in roots {
      assert items[roots[items[i].parent]] in items;
    }
  }

  lemma {:induction false} CodeIsThere(items: seq<Item>, j: nat)
    requires j < |items|
    ensures items[j].code in CodesOf(items)
  {
    var n := |items| - 1;
    if j < n {
      CodeIsThere(items[..n], j);
    }
  }

  /** No two of the items share a code. */
  ghost predicate CodesDiffer(items: seq<Item>) {
    forall j, k | 0 <= j < k < |items| :: items[j].code != items[k].code
  }

  lemma {:induction false} LaterCodeDiffers(items: seq<Item>, j: nat, k: nat)
    requires NoDuplicates(CodesOf(items)) && j < k < |items|
    ensures items[j].code != items[k].code
  {
    var n := |items| - 1;
    LastCodesDiffer(items);
    if k < n {
      LaterCodeDiffers(items[..n], j, k);
    } else {
      CodeIsThere(items[..n], j);
    }
  }

  lemma LastCodesDiffer(items: seq<Item>)
    requires items != [] && NoDuplicates(CodesOf(items))
    ensures var n := |items| - 1; NoDuplicates(CodesOf(items[..n])) && items[n].code !in CodesOf(items[..n])
  {
    var n := |items| - 1;
    AvailableAppend(CodesOf(items[..n]), Codes(items[n]), {});
    assert Codes(items[n])[0] == items[n].code;
    assert items[n].code !in {} + Members(CodesOf(items[..n]));
  }

  lemma DistinctCodes(items: seq<Item>, j: nat, k: nat)
    requires NoDuplicates(CodesOf(items)) && j < |items| && k < |items| && items[j].code == items[k].code
    ensures j == k
  {
    if j < k {
      LaterCodeDiffers(items, j, k);
    } else if k < j {
      LaterCodeDiffers(items, k, j);
    }
  }

  lemma AttachedSnoc(items: seq<Item>, i: nat, code: string)
    requires i < |items|
    ensures Attached(items[..i + 1], code) ==
            if items[i].parent != "" && items[i].parent == code then Attached(items[..i], code) + [Detached(items[i])]
            else Attached(items[..i], code)
  {
    assert items[..i + 1][..i] == items[..i];
  }

  lemma GrownSame(items: seq<Item>, i: nat)
    requires i < |items| && items[i].parent == ""
    ensures Grown(items, i + 1) == Grown(items, i)
  {
    forall j | 0 <= j < |items| ensures GrownAt(items, i + 1, items[j]) == GrownAt(items, i, items[j]) {
      AttachedSnoc(items, i, items[j].code);
    }
  }

  lemma SortAgain(xs: seq<Item>, x: Item)
    ensures Sort(Before, Sort(Before, xs) + [x]) == Sort(Before, xs + [x])
  {
    BeforeIsAnOrder();
    SortSorts(Before, xs);
    SortOfSorted(Before, Sort(Before, xs));
    assert (Sort(Before, xs) + [x])[..|xs|] == Sort(Before, xs) && (xs + [x])[..|xs|] == xs;
  }

  function WithChild(r: Item, x: Item): Item {
    r.(children := Sort(Before, r.children + [x]))
  }

  lemma ExtendOnce(root: Item, more: seq<Item>, x: Item)
    ensures Extend(root, more + [x]) == WithChild(Extend(root, more), x)
  {
    if more == [] {
      assert more + [x] == [x];
    } else {
      SortAgain(root.children + more, x);
      assert root.children + (more + [x]) == root.children + more + [x];
    }
  }

  lemma GrownOne(items: seq<Item>, i: nat, index: nat)
    requires NoDuplicates(CodesOf(items)) && i < |items| && items[i].parent != ""
    requires index < |items| && items[index].parent == "" && items[index].code == items[i].parent
    ensures Grown(items, i + 1) == Grown(items, i)[index := WithChild(Grown(items, i)[index], Detached(items[i]))]
  {
    var before, after := Grown(items, i), Grown(items, i + 1);
    GrownAtParent(items, i, items[index]);
    GrownElsewhere(items, i, index);
    UpdatedAt(before, after, index);
  }

  lemma UpdatedAt(before: seq<Item>, after: seq<Item>, index: nat)
    requires |before| == |after| && index < |before|
    requires forall j | 0 <= j < |before| && j != index :: after[j] == before[j]
    ensures after == before[index := after[index]]
  {
  }

  lemma GrownElsewhere(items: seq<Item>, i: nat, index: nat)
    requires NoDuplicates(CodesOf(items)) && i < |items|
    requires index < |items| && items[index].code == items[i].parent
    ensures forall j | 0 <= j < |items| && j != index :: Grown(items, i + 1)[j] == Grown(items, i)[j]
  {
    AvailableDiffer(items);
    forall j | 0 <= j < |items| && j != index ensures Grown(items, i + 1)[j] == Grown(items, i)[j] {
      assert items[j].code != items[index].code;
      AttachedSnoc(items, i, items[j].code);
    }
  }

  lemma GrownAtParent(items: seq<Item>, i: nat, r: Item)
    requires i < |items| && items[i].parent != "" && r.parent == "" && r.code == items[i].parent
    ensures GrownAt(items, i + 1, r) == WithChild(GrownAt(items, i, r), Detached(items[i]))
  {
    AttachedSnoc(items, i, r.code);
    ExtendOnce(r, Attached(items[..i], r.code), Detached(items[i]));
  }

  // ---------------------------------------------------------------- nothing is lost and nothing added

  /** What an item is, apart from its place in the tree. */
  function Bare(item: Item): Item {
    item.(parent := "", children := [])
  }

  function Nodes(item: Item): multiset<Item>
    decreases item, 0
  {
    multiset{Bare(item)} + NodesOf(item.children)
  }

  function NodesOf(items: seq<Item>): multiset<Item>
    decreases items, 1
  {
    if items == [] then multiset{} else NodesOf(items[..|items| - 1]) + Nodes(items[|items| - 1])
  }

  lemma {:induction false} NodesCollect(items: seq<Item>)
    ensures NodesOf(items) == Collect(Nodes, items)
  {
    if items != [] {
      NodesCollect(items[..|items| - 1]);
    }
  }

  lemma NodesAppend(a: seq<Item>, b: seq<Item>)
    ensures NodesOf(a + b) == NodesOf(a) + NodesOf(b)
  {
    NodesCollect(a);
    NodesCollect(b);
    NodesCollect(a + b);
    CollectAppend(Nodes, a, b);
  }

  lemma NodesSnoc(items: seq<Item>, x: Item)
    ensures NodesOf(items + [x]) == NodesOf(items) + Nodes(x)
  {
    assert (items + [x])[..|items|] == items;
  }

  lemma NodesSort(items: seq<Item>)
    ensures NodesOf(Sort(Before, items)) == NodesOf(items)
  {
    NodesCollect(items);
    NodesCollect(Sort(Before, items));
    SortCollects(Before, Nodes, items);
  }

  lemma NodesExtend(root: Item, more: seq<Item>)
    ensures Nodes(Extend(root, more)) == Nodes(root) + NodesOf(more)
  {
    NodesSort(root.children + more);
    NodesAppend(root.children, more);
  }

  /** The roots alone, and the other items alone. */
  function Roots(items: seq<Item>): seq<Item> {
    if items == [] then []
    else
      var n := |items| - 1;
      if items[n].parent == "" then Roots(items[..n]) + [items[n]] else Roots(items[..n])
  }

  function Others(items: seq<Item>): seq<Item> {
    if items == [] then []
    else
      var n := |items| - 1;
      if items[n].parent == "" then Others(items[..n]) else Others(items[..n]) + [Detached(items[n])]
  }

  lemma {:induction false} NodesSplit(items: seq<Item>)
    ensures NodesOf(items) == NodesOf(Roots(items)) + NodesOf(Others(items))
  {
    if items != [] {
      var n := |items| - 1;
      NodesSplit(items[..n]);
      var x := items[n];
      NodesSnoc(Roots(items[..n]), x);
      NodesSnoc(Others(items[..n]), Detached(x));
      assert Nodes(Detached(x)) == Nodes(x);
    }
  }

  ghost predicate HasRoot(roots: seq<Item>, x: Item) {
    x.parent != "" ==> exists k | 0 <= k < |roots| :: roots[k].code == x.parent
  }

  /** Each other item is attached to exactly one root. */
  lemma {:induction false} NodesAttached(roots: seq<Item>, items: seq<Item>)
    requires CodesDiffer(roots) && forall x | x in items :: HasRoot(roots, x)
    ensures NodesOf(Extended(roots, items)) == NodesOf(roots) + NodesOf(Others(items))
    decreases |items|
  {
    if items == [] {
      assert Extended(roots, []) == roots;
    } else {
      var n := |items| - 1;
      var x := items[n];
      assert forall y | y in items[..n] :: y in items;
      NodesAttached(roots, items[..n]);
      if x.parent == "" {
        ExtendedSame(roots, items);
        assert Others(items) == Others(items[..n]);
      } else {
        assert HasRoot(roots, x);
        var k :| 0 <= k < |roots| && roots[k].code == x.parent;
        NodesOneMore(roots, items, k);
        NodesSnoc(Others(items[..n]), Detached(x));
      }
    }
  }

  lemma ExtendedSame(roots: seq<Item>, items: seq<Item>)
    requires items != [] && items[|items| - 1].parent == ""
    ensures Extended(roots, items) == Extended(roots, items[..|items| - 1])
  {
    forall j | 0 <= j < |roots| ensures Attached(items, roots[j].code) == Attached(items[..|items| - 1], roots[j].code) {
    }
  }

  function Extended(roots: seq<Item>, items: seq<Item>): (r: seq<Item>)
    ensures |r| == |roots|
  {
    seq(|roots|, j requires 0 <= j < |roots| => Extend(roots[j], Attached(items, roots[j].code)))
  }

  lemma NodesOneMore(roots: seq<Item>, items: seq<Item>, k: nat)
    requires items != [] && k < |roots|
    requires CodesDiffer(roots)
    requires var x := items[|items| - 1]; x.parent != "" && roots[k].code == x.parent
    ensures NodesOf(Extended(roots, items)) ==
            NodesOf(Extended(roots, items[..|items| - 1])) + Nodes(Detached(items[|items| - 1]))
  {
    var n := |items| - 1;
    var before, after := Extended(roots, items[..n]), Extended(roots, items);
    NodesOfExtension(roots[k], items);
    NodesAround(before, k);
    NodesAround(after, k);
    OthersUnchanged(roots, items, k);
  }

  lemma OthersUnchanged(roots: seq<Item>, items: seq<Item>, k: nat)
    requires items != [] && k < |roots| && CodesDiffer(roots)
    requires var x := items[|items| - 1]; x.parent != "" && roots[k].code == x.parent
    ensures var before, after := Extended(roots, items[..|items| - 1]), Extended(roots, items);
            before[..k] == after[..k] && before[k + 1..] == after[k + 1..]
  {
    var before, after := Extended(roots, items[..|items| - 1]), Extended(roots, items);
    forall j | 0 <= j < |roots| && j != k ensures before[j] == after[j] {
      assert roots[j].code != roots[k].code;
      assert Attached(items, roots[j].code) == Attached(items[..|items| - 1], roots[j].code);
    }
  }

  lemma NodesOfExtension(root: Item, items: seq<Item>)
    requires items != [] && items[|items| - 1].parent != "" && items[|items| - 1].parent == root.code
    ensures Nodes(Extend(root, Attached(items, root.code))) ==
            Nodes(Extend(root, Attached(items[..|items| - 1], root.code))) + Nodes(Detached(items[|items| - 1]))
  {
    var n := |items| - 1;
    NodesExtend(root, Attached(items[..n], root.code));
    NodesExtend(root, Attached(items, root.code));
    NodesSnoc(Attached(items[..n], root.code), Detached(items[n]));
  }

  lemma NodesAround(items: seq<Item>, k: nat)
    requires k < |items|
    ensures NodesOf(items) == NodesOf(items[..k]) + Nodes(items[k]) + NodesOf(items[k + 1..])
  {
    NodesCollect(items);
    NodesCollect(items[..k]);
    NodesCollect(items[k + 1..]);
    CollectAt(Nodes, items, k);
  }

  lemma {:induction false} RootsExtended(items: seq<Item>, all: seq<Item>)
    ensures RootsWith(items, all) == Extended(Roots(items), all)
  {
    if items != [] {
      RootsExtended(items[..|items| - 1], all);
    }
  }

  lemma {:induction false} RootsAreItems(items: seq<Item>, k: nat) returns (j: nat)
    requires k < |Roots(items)|
    ensures j < |items| && items[j] == Roots(items)[k] && items[j].parent == ""
    ensures k + |items| >= |Roots(items)| + j
  {
    var n := |items| - 1;
    if k < |Roots(items[..n])| {
      j := RootsAreItems(items[..n], k);
    } else {
      j := n;
    }
  }

  lemma {:induction false} RootsDiffer(items: seq<Item>)
    requires NoDuplicates(CodesOf(items))
    ensures CodesDiffer(Roots(items))
  {
    if items != [] {
      var n := |items| - 1;
      LastCodesDiffer(items);
      RootsDiffer(items[..n]);
      forall j | 0 <= j < |Roots(items[..n])| ensures Roots(items[..n])[j].code != items[n].code {
        var i := RootsAreItems(items[..n], j);
        CodeIsThere(items[..n], i);
      }
    }
  }

  lemma {:induction false} RootIsThere(items: seq<Item>, r: Item)
    requires r in items && r.parent == ""
    ensures r in Roots(items)
  {
    if r != items[|items| - 1] {
      RootIsThere(items[..|items| - 1], r);
    }
  }

  /** Merging keeps every item of every collection, at whatever depth, exactly once. */
  lemma MergeKeepsEveryItem(items: seq<Item>)
    requires Mergeable(items)
    ensures NodesOf(Merged(items)) == NodesOf(items)
  {
    NodesSort(RootsWith(items, items));
    RootsExtended(items, items);
    RootsDiffer(items);
    forall x | x in items ensures HasRoot(Roots(items), x) {
      assert HasParent(items, x);
      if x.parent != "" {
        var r :| r in items && r.parent == "" && r.code == x.parent && r.route == "";
        RootIsThere(items, r);
      }
    }
    NodesAttached(Roots(items), items);
    NodesSplit(items);
  }

  /** No root has a parent any more, the top level is in order, and so is every group that was extended. */
  lemma MergedIsOrdered(items: seq<Item>)
    ensures Ascending(Merged(items))
    ensures forall x | x in Merged(items) ::
              exists r | r in items :: r.parent == "" && x == Extend(r, Attached(items, r.code)) &&
                                       (Attached(items, r.code) != [] ==> Ascending(x.children))
  {
    var roots := RootsWith(items, items);
    SortAscends(roots);
    forall x | x in Merged(items)
      ensures exists r | r in items :: r.parent == "" && x == Extend(r, Attached(items, r.code)) &&
                                       (Attached(items, r.code) != [] ==> Ascending(x.children))
    {
      var k :| 0 <= k < |roots| && roots[k] == x;
      RootsExtended(items, items);
      var j := RootsAreItems(items, k);
      SortAscends(items[j].children + Attached(items, items[j].code));
      assert items[j] in items;
    }
  }

  lemma {:induction false} AttachedAreItems(items: seq<Item>, code: string, x: Item)
    requires x in Attached(items, code)
    ensures exists y | y in items :: y.parent == code && x == Detached(y)
  {
    var n := |items| - 1;
    if x in Attached(items[..n], code) {
      AttachedAreItems(items[..n], code, x);
    } else {
      assert items[n] in items;
    }
  }

  lemma ExtendStaysTidy(r: Item, more: seq<Item>)
    requires Tidy(r) && forall x | x in more :: Tidy(x)
    ensures Tidy(Extend(r, more))
  {
    SortAscends(r.children + more);
  }

  /** Trees that are in order at every level stay so. */
  lemma MergedStaysTidy(items: seq<Item>)
    requires forall x | x in items :: Tidy(x)
    ensures Ascending(Merged(items)) && forall x | x in Merged(items) :: Tidy(x)
  {
    MergedIsOrdered(items);
    forall x | x in Merged(items) ensures Tidy(x) {
      var r :| r in items && r.parent == "" && x == Extend(r, Attached(items, r.code));
      forall y | y in Attached(items, r.code) ensures Tidy(y) {
        AttachedAreItems(items, r.code, y);
      }
      ExtendStaysTidy(r, Attached(items, r.code));
    }
  }

  // ---------------------------------------------------------------- the order of the collections does not matter

  function AttachedBag(code: string): Item -> multiset<Item> {
    (x: Item) => if x.parent != "" && x.parent == code then multiset{Detached(x)} else multiset{}
  }

  lemma {:induction false} AttachedCollects(items: seq<Item>, code: string)
    ensures multiset(Attached(items, code)) == Collect(AttachedBag(code), items)
  {
    if items != [] {
      AttachedCollects(items[..|items| - 1], code);
    }
  }

  function RootBag(all: seq<Item>): Item -> multiset<Item> {
    (x: Item) => if x.parent == "" then multiset{Extend(x, Attached(all, x.code))} else multiset{}
  }

  lemma {:induction false} RootsCollect(items: seq<Item>, all: seq<Item>)
    ensures multiset(RootsWith(items, all)) == Collect(RootBag(all), items)
  {
    if items != [] {
      RootsCollect(items[..|items| - 1], all);
    }
  }

  function CodeBag(x: Item): multiset<string> {
    multiset(Codes(x))
  }

  lemma {:induction false} CodesCollect(items: seq<Item>)
    ensures multiset(CodesOf(items)) == Collect(CodeBag, items)
  {
    if items != [] {
      CodesCollect(items[..|items| - 1]);
    }
  }

  lemma DifferentCodesDistinguish(items: seq<Item>)
    requires CodesDiffer(items)
    ensures Distinguishes(Before, items)
  {
    BeforeIsAnOrder();
    forall x, y | x in items && y in items && x != y ensures Before(x, y) || Before(y, x) {
      var j :| 0 <= j < |items| && items[j] == x;
      var k :| 0 <= k < |items| && items[k] == y;
      assert j < k || k < j;
    }
  }

  lemma {:induction false} AvailableDiffer(items: seq<Item>)
    requires NoDuplicates(CodesOf(items))
    ensures CodesDiffer(items)
  {
    forall j, k | 0 <= j < k < |items| ensures items[j].code != items[k].code {
      if items[j].code == items[k].code {
        DistinctCodes(items, j, k);
      }
    }
  }

  lemma {:induction false} AttachedCodesWithin(items: seq<Item>, code: string)
    ensures multiset(CodesOf(Attached(items, code))) + multiset(CodesOf(Roots(items))) <= multiset(CodesOf(items))
  {
    if items != [] {
      var n := |items| - 1;
      var x := items[n];
      AttachedCodesWithin(items[..n], code);
      var attached, roots := Attached(items[..n], code), Roots(items[..n]);
      CodesOfSnoc(items[..n], x);
      assert items == items[..n] + [x];
      if x.parent == "" {
        CodesOfSnoc(roots, x);
        assert Roots(items) == roots + [x] && Attached(items, code) == attached;
      } else if x.parent == code {
        CodesOfSnoc(attached, Detached(x));
        assert Codes(Detached(x)) == Codes(x);
        assert Roots(items) == roots && Attached(items, code) == attached + [Detached(x)];
      } else {
        assert Roots(items) == roots && Attached(items, code) == attached;
      }
    }
  }

  lemma CodesOfSnoc(items: seq<Item>, x: Item)
    ensures CodesOf(items + [x]) == CodesOf(items) + Codes(x)
    ensures multiset(CodesOf(items + [x])) == multiset(CodesOf(items)) + multiset(Codes(x))
  {
    assert (items + [x])[..|items|] == items;
  }

  lemma {:induction false} RootCodesWithin(roots: seq<Item>, r: Item)
    requires r in roots
    ensures multiset(Codes(r)) <= multiset(CodesOf(roots))
  {
    var n := |roots| - 1;
    if r != roots[n] {
      RootCodesWithin(roots[..n], r);
    }
  }

  /** The children of a root, with what is attached to it, are told apart by their codes. */
  lemma FamilyDiffers(items: seq<Item>, r: Item)
    requires NoDuplicates(CodesOf(items)) && r in Roots(items)
    ensures Distinguishes(Before, r.children + Attached(items, r.code))
  {
    var more := Attached(items, r.code);
    AttachedCodesWithin(items, r.code);
    RootCodesWithin(Roots(items), r);
    CodesAppend(r.children, more);
    var codes := CodesOf(r.children + more);
    assert multiset(Codes(r)) == multiset{r.code} + multiset(CodesOf(r.children));
    assert multiset(codes) <= multiset(CodesOf(items));
    forall c ensures multiset(codes)[c] <= 1 {
      assert multiset(CodesOf(items))[c] <= 1;
    }
    AvailableDiffer(r.children + more);
    DifferentCodesDistinguish(r.children + more);
  }

  lemma SameFamily(items: seq<Item>, others: seq<Item>, r: Item)
    requires multiset(items) == multiset(others) && NoDuplicates(CodesOf(items)) && r in Roots(items)
    ensures Extend(r, Attached(items, r.code)) == Extend(r, Attached(others, r.code))
  {
    var a, b := Attached(items, r.code), Attached(others, r.code);
    AttachedCollects(items, r.code);
    AttachedCollects(others, r.code);
    CollectPermutation(AttachedBag(r.code), items, others);
    SameLength(a, b);
    FamilyDiffers(items, r);
    assert multiset(r.children + a) == multiset(r.children) + multiset(a);
    assert multiset(r.children + b) == multiset(r.children) + multiset(b);
    BeforeIsAnOrder();
    SortOfPermutation(Before, r.children + a, r.children + b);
  }

  lemma SameRoots(items: seq<Item>, others: seq<Item>)
    requires multiset(items) == multiset(others) && NoDuplicates(CodesOf(items))
    ensures multiset(RootsWith(items, items)) == multiset(RootsWith(others, others))
  {
    RootsExtended(items, items);
    RootsExtended(items, others);
    forall j | 0 <= j < |Roots(items)| ensures Extended(Roots(items), items)[j] == Extended(Roots(items), others)[j] {
      SameFamily(items, others, Roots(items)[j]);
    }
    assert RootsWith(items, items) == RootsWith(items, others);
    RootsCollect(items, others);
    RootsCollect(others, others);
    CollectPermutation(RootBag(others), items, others);
  }

  lemma SameParents(items: seq<Item>, others: seq<Item>)
    requires multiset(items) == multiset(others)
    ensures (forall x | x in items :: HasParent(items, x)) ==> forall x | x in others :: HasParent(others, x)
  {
    forall x ensures x in items <==> x in others {
      assert x in multiset(items) <==> x in multiset(others);
    }
    if forall x | x in items :: HasParent(items, x) {
      forall x | x in others ensures HasParent(others, x) {
        assert HasParent(items, x);
      }
    }
  }

  lemma SameTree(items: seq<Item>, others: seq<Item>)
    requires multiset(items) == multiset(others) && NoDuplicates(CodesOf(items))
    ensures Merged(items) == Merged(others)
  {
    SameRoots(items, others);
    RootsExtended(items, items);
    RootsDiffer(items);
    DifferentCodesDistinguish(RootsWith(items, items));
    BeforeIsAnOrder();
    SortOfPermutation(Before, RootsWith(items, items), RootsWith(others, others));
  }

  lemma SameCodes(items: seq<Item>, others: seq<Item>)
    requires multiset(items) == multiset(others)
    ensures NoDuplicates(CodesOf(items)) <==> NoDuplicates(CodesOf(others))
  {
    CodesCollect(items);
    CodesCollect(others);
    CollectPermutation(CodeBag, items, others);
  }

  /** Any arrangement of the same items, from whatever collections, merges to the same tree or not at all. */
  lemma OrderIsIrrelevant(items: seq<Item>, others: seq<Item>)
    requires multiset(items) == multiset(others)
    ensures Mergeable(items) <==> Mergeable(others)
    ensures Mergeable(items) ==> Merged(items) == Merged(others)
  {
    SameCodes(items, others);
    SameParents(items, others);
    SameParents(others, items);
    if Mergeable(items) {
      SameTree(items, others);
    }
  }
}
