/** Three-colour depth-first search, and chains of parents. */
module Graphs {
  import opened Wrappers

  type Graph<!K> = map<K, seq<K>>

  /** Edges stay inside the graph. */
  ghost predicate Closed<K>(g: Graph<K>) {
    forall k, i | k in g && 0 <= i < |g[k]| :: g[k][i] in g
  }

  ghost predicate Path<K>(g: Graph<K>, p: seq<K>) {
    forall i | 0 <= i < |p| - 1 :: p[i] in g && p[i + 1] in g[p[i]]
  }

  ghost predicate Cycle<K>(g: Graph<K>, p: seq<K>) {
    |p| >= 2 && Path(g, p) && p[0] == p[|p| - 1]
  }

  /** Every successor comes earlier. */
  ghost predicate Topological<K>(g: Graph<K>, order: seq<K>) {
    && (forall i, j | 0 <= i < j < |order| :: order[i] != order[j])
    && (forall i | 0 <= i < |order| :: order[i] in g)
    && (forall i, k | 0 <= i < |order| && k in g[order[i]] :: k in order[..i])
  }

  ghost predicate Covers<K>(g: Graph<K>, order: seq<K>) {
    forall k | k in g :: k in order
  }

  /** A topological order leaves no room for a cycle. */
  lemma {:induction false} OrderedPath<K>(g: Graph<K>, order: seq<K>, p: seq<K>, i: nat)
    requires Topological(g, order) && Path(g, p) && |p| >= 2
    requires i < |order| && order[i] == p[0]
    ensures exists j | 0 <= j < i :: order[j] == p[|p| - 1]
    decreases |p|
  {
    assert p[1] in g[order[i]];
    var j :| 0 <= j < i && order[j] == p[1];
    if |p| > 2 {
      forall k | 0 <= k < |p[1..]| - 1 ensures p[1..][k] in g && p[1..][k + 1] in g[p[1..][k]] {
        assert p[1..][k] == p[k + 1] && p[1..][k + 1] == p[k + 2];
      }
      OrderedPath(g, order, p[1..], j);
    }
  }

  lemma NoCycle<K>(g: Graph<K>, order: seq<K>, p: seq<K>)
    requires Topological(g, order) && Covers(g, order) && |p| >= 2 && Path(g, p)
    ensures p[0] != p[|p| - 1]
  {
    assert p[0] in g;
    var i :| 0 <= i < |order| && order[i] == p[0];
    OrderedPath(g, order, p, i);
  }

  lemma AppendTopological<K>(g: Graph<K>, order: seq<K>, k: K)
    requires Topological(g, order) && k in g && k !in order && forall s | s in g[k] :: s in order
    ensures Topological(g, order + [k])
  {
    var longer := order + [k];
    forall i, s | 0 <= i < |longer| && s in g[longer[i]] ensures s in longer[..i] {
      assert i < |order| ==> longer[..i] == order[..i];
      assert i == |order| ==> longer[..i] == order;
    }
  }

  lemma AppendPath<K>(g: Graph<K>, p: seq<K>, k: K)
    requires Path(g, p) && (p != [] ==> p[|p| - 1] in g && k in g[p[|p| - 1]])
    ensures Path(g, p + [k])
  {
  }

  lemma PrefixPath<K>(g: Graph<K>, p: seq<K>, k: K)
    requires Path(g, p + [k])
    ensures Path(g, p)
  {
    forall i | 0 <= i < |p| - 1 ensures p[i] in g && p[i + 1] in g[p[i]] {
      assert (p + [k])[i] == p[i] && (p + [k])[i + 1] == p[i + 1];
    }
  }

  /** Meeting a node of the stack again closes a cycle. */
  lemma CloseCycle<K>(g: Graph<K>, stack: seq<K>, k: K) returns (cycle: seq<K>)
    requires Path(g, stack) && k in stack && stack[|stack| - 1] in g && k in g[stack[|stack| - 1]]
    ensures Cycle(g, cycle)
  {
    var i :| 0 <= i < |stack| && stack[i] == k;
    cycle := stack[i..] + [k];
    forall j | 0 <= j < |cycle| - 1 ensures cycle[j] in g && cycle[j + 1] in g[cycle[j]] {
      assert cycle[j] == stack[i + j];
      assert j + 1 < |cycle| - 1 ==> cycle[j + 1] == stack[i + j + 1];
    }
  }

  datatype Colour = Grey | Black

  class Search<K(==,!new)> {
    const g: Graph<K>
    var state: map<K, Colour> // white nodes are absent
    ghost var order: seq<K>

    constructor (g: Graph<K>)
      ensures this.g == g && state == map[] && order == []
    {
      this.g, state, order := g, map[], [];
    }

    /** Grey nodes are those on the stack, black ones are in the order. */
    ghost predicate Valid(stack: seq<K>)
      reads this
    {
      && Closed(g) && Path(g, stack) && (forall k | k in stack :: k in g) && Topological(g, order)
      && (forall k :: k in state && state[k].Grey? <==> k in stack)
      && (forall k :: k in state && state[k].Black? <==> k in order)
    }

    /** Nodes not met yet. */
    ghost function Left(): nat
      reads this
    {
      |g.Keys - state.Keys|
    }

    /**
     Visits a node and everything reachable from it. Failure means a cycle; `cycle`
     is one. The stack is the chain of calls under way.
     */
    method Visit(k: K, ghost stack: seq<K>) returns (ok: bool, ghost cycle: seq<K>)
      requires Valid(stack) && k in g && (stack != [] ==> stack[|stack| - 1] in g && k in g[stack[|stack| - 1]])
      modifies this
      ensures ok ==> Valid(stack) && Grown(old(order), old(state).Keys) && k in order
      ensures !ok ==> Cycle(g, cycle)
      decreases Left(), 0
    {
      if k in state {
        if state[k].Grey? {
          cycle := CloseCycle(g, stack, k);
          return false, cycle;
        }
        return true, [];
      }
      Enter(k, stack);
      SmallerRest(g.Keys, old(state).Keys, state.Keys, k);
      ok, cycle := VisitSuccessors(k, stack + [k]);
      if ok {
        Blacken(k, stack);
      }
    }

    method VisitSuccessors(k: K, ghost stack: seq<K>) returns (ok: bool, ghost cycle: seq<K>)
      requires Valid(stack) && stack != [] && stack[|stack| - 1] == k && k in g
      modifies this
      ensures ok ==> Valid(stack) && Grown(old(order), old(state).Keys) && forall s | s in g[k] :: s in order
      ensures !ok ==> Cycle(g, cycle)
      decreases Left(), 1
    {
      ok, cycle := true, [];
      for i := 0 to |g[k]|
        invariant Valid(stack) && Grown(old(order), old(state).Keys)
        invariant AllIn(g[k], i, order)
      {
        SubsetOrEqual(g.Keys - state.Keys, g.Keys - old(state).Keys);
        ghost var before := order;
        ok, cycle := Visit(g[k][i], stack);
        if !ok { return; }
        OneMoreIn(g[k], i, before, order);
      }
    }

    ghost predicate Grown(before: seq<K>, met: set<K>)
      reads this
    {
      before <= order && met <= state.Keys
    }

    method Enter(k: K, ghost stack: seq<K>)
      requires Valid(stack) && k in g && k !in state
      requires stack != [] ==> stack[|stack| - 1] in g && k in g[stack[|stack| - 1]]
      modifies this
      ensures Valid(stack + [k]) && order == old(order) && state.Keys == old(state).Keys + {k} && k !in stack && k !in order
    {
      AppendPath(g, stack, k);
      state := state[k := Grey];
    }

    method Blacken(k: K, ghost stack: seq<K>)
      requires Valid(stack + [k]) && k !in stack && k !in order && forall s | s in g[k] :: s in order
      modifies this
      ensures Valid(stack) && order == old(order) + [k] && state.Keys == old(state).Keys
    {
      assert k in stack + [k];
      PrefixPath(g, stack, k);
      AppendTopological(g, order, k);
      state, order := state[k := Black], order + [k];
    }

    /** Starts from every node, in any order. Succeeds exactly on graphs without cycles. */
    method Run() returns (ok: bool, ghost cycle: seq<K>)
      requires Closed(g) && state == map[] && order == []
      modifies this
      ensures ok ==> Topological(g, order) && Covers(g, order)
      ensures !ok ==> Cycle(g, cycle)
    {
      cycle := [];
      var rest := g.Keys;
      while rest != {}
        invariant rest <= g.Keys && Valid([]) && forall k | k in g.Keys - rest :: k in order
        decreases |rest|
      {
        var k :| k in rest;
        ok, cycle := Visit(k, []);
        if !ok { return; }
        rest := rest - {k};
      }
      ok := true;
    }
  }

  ghost predicate AllIn<K>(successors: seq<K>, i: nat, order: seq<K>) {
    forall j | 0 <= j < i && j < |successors| :: successors[j] in order
  }

  lemma OneMoreIn<K>(successors: seq<K>, i: nat, before: seq<K>, after: seq<K>)
    requires AllIn(successors, i, before) && before <= after && i < |successors| && successors[i] in after
    ensures AllIn(successors, i + 1, after)
  {
  }

  lemma SmallerRest<K>(all: set<K>, before: set<K>, now: set<K>, k: K)
    requires k in all && k !in before && before + {k} <= now
    ensures |all - now| < |all - before|
  {
    SubsetOrEqual(all - now, all - before - {k});
  }

  lemma SubsetOrEqual<K>(a: set<K>, b: set<K>)
    requires a <= b
    ensures |a| <= |b|
  {
    assert b == a + (b - a);
  }

  /** The next element of a loop over a map: any one. */
  method Any<K(==,!new)>(s: set<K>) returns (k: K)
    requires s != {}
    ensures k in s
  {
    k :| k in s;
  }

  // ---------------------------------------------------------------- parent links

  type Links<!K> = map<K, Option<K>>

  ghost predicate LinksClosed<K>(links: Links<K>) {
    forall k | k in links && links[k].Some? :: links[k].value in links
  }

  /** The node reached by following `n` links, if the chain is that long. */
  function Up<K>(links: Links<K>, k: K, n: nat): Option<K> {
    if n == 0 then Some(k)
    else
      var below := Up(links, k, n - 1);
      if below.Some? && below.value in links then links[below.value] else None
  }

  /** Following links from the node ends. */
  ghost predicate Grounded<K>(links: Links<K>, k: K) {
    exists n: nat :: Up(links, k, n).None?
  }

  lemma {:induction false} UpAdds<K>(links: Links<K>, k: K, m: nat, n: nat)
    requires Up(links, k, m).Some?
    ensures Up(links, k, m + n) == Up(links, Up(links, k, m).value, n)
  {
    if n > 0 {
      UpAdds(links, k, m, n - 1);
    }
  }

  lemma {:induction false} UpStops<K>(links: Links<K>, k: K, m: nat, n: nat)
    requires Up(links, k, m).None? && m <= n
    ensures Up(links, k, n).None?
  {
    if m < n {
      UpStops(links, k, m, n - 1);
    }
  }

  /** A chain that comes back to its start never ends. */
  lemma {:induction false} LoopNeverEnds<K>(links: Links<K>, k: K, period: nat, n: nat)
    requires period > 0 && Up(links, k, period) == Some(k)
    ensures Up(links, k, n).Some?
  {
    if n < period {
      if Up(links, k, n).None? {
        UpStops(links, k, n, period);
      }
    } else {
      LoopNeverEnds(links, k, period, n - period);
      UpAdds(links, k, period, n - period);
    }
  }

  lemma {:induction false} OneUp<K>(links: Links<K>, k: K, p: K, n: nat)
    requires k in links && links[k] == Some(p) && Up(links, p, n).None?
    ensures Up(links, k, n + 1).None?
  {
    UpAdds(links, k, 1, n);
  }

  // ---------------------------------------------------------------- links and the graphs that search them

  /** `g` lists the nodes that link to each node. */
  ghost predicate Inverts<K(!new)>(g: Graph<K>, links: Links<K>) {
    g.Keys == links.Keys && Below(g, links) && Above(g, links)
  }

  /** What is listed under a node links to it. */
  ghost predicate Below<K(!new)>(g: Graph<K>, links: Links<K>) {
    forall k, s | k in g && s in g[k] :: s in links && links[s] == Some(k)
  }

  /** What links to a node is listed under it. */
  ghost predicate Above<K(!new)>(g: Graph<K>, links: Links<K>) {
    forall s | s in links && links[s].Some? :: links[s].value in g && s in g[links[s].value]
  }

  lemma {:induction false} LaterIsCloserToARoot<K(!new)>(g: Graph<K>, links: Links<K>, order: seq<K>, i: nat)
    requires Inverts(g, links) && Topological(g, order) && Covers(g, order) && i < |order|
    ensures Grounded(links, order[i])
    decreases |order| - i
  {
    var k := order[i];
    if links[k].None? {
      assert Up(links, k, 1).None?;
    } else {
      var p := links[k].value;
      var j :| 0 <= j < |order| && order[j] == p;
      assert k in order[..j];
      LaterIsCloserToARoot(g, links, order, j);
      var n: nat :| Up(links, p, n).None?;
      OneUp(links, k, p, n);
    }
  }

  lemma {:induction false} BackAlongPath<K(!new)>(g: Graph<K>, links: Links<K>, p: seq<K>, m: nat)
    requires Below(g, links) && Path(g, p) && m < |p|
    ensures Up(links, p[|p| - 1], m) == Some(p[|p| - 1 - m])
  {
    if m > 0 {
      BackAlongPath(g, links, p, m - 1);
      var i := |p| - 1 - m;
      assert p[i] in g && p[i + 1] in g[p[i]];
    }
  }

  /** A search of the inverted links succeeds exactly when every chain of links ends. */
  lemma SearchDecidesGrounded<K(!new)>(g: Graph<K>, links: Links<K>, ok: bool, order: seq<K>, cycle: seq<K>)
    requires Inverts(g, links)
    requires if ok then Topological(g, order) && Covers(g, order) else Cycle(g, cycle)
    ensures ok <==> forall k | k in links :: Grounded(links, k)
  {
    if ok {
      forall k | k in links ensures Grounded(links, k) {
        var i :| 0 <= i < |order| && order[i] == k;
        LaterIsCloserToARoot(g, links, order, i);
      }
    } else {
      var last := cycle[|cycle| - 1];
      BackAlongPath(g, links, cycle, |cycle| - 1);
      forall n: nat ensures Up(links, last, n).Some? {
        LoopNeverEnds(links, last, |cycle| - 1, n);
      }
      assert cycle[0] in g && !Grounded(links, last);
    }
  }

  /** `g` lists the one node each node links to. */
  ghost predicate Follows<K(!new)>(g: Graph<K>, links: Links<K>) {
    && g.Keys == links.Keys && LinksClosed(links)
    && forall k | k in g :: g[k] == if links[k].Some? then [links[k].value] else []
  }

  lemma {:induction false} EarlierIsCloserToTheEnd<K(!new)>(g: Graph<K>, links: Links<K>, order: seq<K>, i: nat)
    requires Follows(g, links) && Topological(g, order) && i < |order|
    ensures Grounded(links, order[i])
  {
    var k := order[i];
    if links[k].None? {
      assert Up(links, k, 1).None?;
    } else {
      var p := links[k].value;
      assert p in g[k];
      var j :| 0 <= j < i && order[j] == p;
      EarlierIsCloserToTheEnd(g, links, order, j);
      var n: nat :| Up(links, p, n).None?;
      OneUp(links, k, p, n);
    }
  }

  lemma {:induction false} AlongPath<K(!new)>(g: Graph<K>, links: Links<K>, p: seq<K>, m: nat)
    requires Follows(g, links) && Path(g, p) && m < |p|
    ensures Up(links, p[0], m) == Some(p[m])
  {
    if m > 0 {
      AlongPath(g, links, p, m - 1);
      assert p[m - 1] in g && p[m] in g[p[m - 1]];
    }
  }

  /** A search along the links succeeds exactly when every chain of links ends. */
  lemma SearchDecidesEnding<K(!new)>(g: Graph<K>, links: Links<K>, ok: bool, order: seq<K>, cycle: seq<K>)
    requires Follows(g, links)
    requires if ok then Topological(g, order) && Covers(g, order) else Cycle(g, cycle)
    ensures ok <==> forall k | k in links :: Grounded(links, k)
  {
    if ok {
      forall k | k in links ensures Grounded(links, k) {
        var i :| 0 <= i < |order| && order[i] == k;
        EarlierIsCloserToTheEnd(g, links, order, i);
      }
    } else {
      AlongPath(g, links, cycle, |cycle| - 1);
      forall n: nat ensures Up(links, cycle[0], n).Some? {
        LoopNeverEnds(links, cycle[0], |cycle| - 1, n);
      }
      assert cycle[0] in g && !Grounded(links, cycle[0]);
    }
  }
}
