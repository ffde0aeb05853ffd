/** From dependency tags to the stripes that guard them. */
module LockIndexes {
  import opened Sorting
  import opened Stripes

  /** FNV-1a over the bytes of a tag, 32 bits wide. */
  function Fnv1a(bytes: seq<bv8>): bv32 {
    if bytes == [] then 2166136261
    else (Fnv1a(bytes[..|bytes| - 1]) ^ (bytes[|bytes| - 1] as bv32)) * 16777619
  }

  /** The published values of the hash for the empty text and for "a". */
  lemma KnownHashes()
    ensures Fnv1a([]) == 0x811C9DC5
    ensures Fnv1a([0x61]) == 0xE40C292C
  {
    var bytes: seq<bv8> := [0x61];
    assert bytes[..0] == [] && bytes[0] == 0x61;
  }

  function Stripe(tag: seq<bv8>): (s: nat)
    ensures s < STRIPES
  {
    (Fnv1a(tag) as int) % STRIPES
  }

  predicate NatLess(a: nat, b: nat) {
    a < b
  }

  /** The stripes of the tags: all of them, each once, in increasing order. */
  ghost predicate IsPlan(tags: seq<seq<bv8>>, plan: seq<nat>) {
    && Increasing(plan)
    && (forall s: nat :: s in plan <==> exists i | 0 <= i < |tags| :: Stripe(tags[i]) == s)
  }

  lemma TwiceCounts(r: seq<nat>, i: nat, j: nat)
    requires i < j < |r| && r[i] == r[j]
    ensures multiset(r)[r[i]] >= 2
  {
    assert r == r[..i] + [r[i]] + r[i + 1..j] + [r[j]] + r[j + 1..];
  }

  /** Sorting numbers that were collected once each. */
  lemma SortedOnce(xs: seq<nat>, unique: set<nat>)
    requires multiset(xs) == multiset(unique)
    ensures forall i, j | 0 <= i < j < |xs| :: Sort(NatLess, xs)[i] < Sort(NatLess, xs)[j]
    ensures forall s :: s in Sort(NatLess, xs) <==> s in unique
  {
    var r := Sort(NatLess, xs);
    SortSorts(NatLess, xs);
    SortContents(NatLess, xs);
    assert forall s :: s in r <==> s in multiset(r);
    forall i, j | 0 <= i < j < |r| ensures r[i] < r[j] {
      assert !NatLess(r[j], r[i]);
      if r[i] == r[j] {
        TwiceCounts(r, i, j);
      }
    }
  }

  method CollectStripes(tags: seq<seq<bv8>>) returns (unique: set<nat>)
    ensures forall s :: s in unique <==> exists k | 0 <= k < |tags| :: Stripe(tags[k]) == s
  {
    unique := {};
    for i := 0 to |tags|
      invariant forall s :: s in unique <==> exists k | 0 <= k < i :: Stripe(tags[k]) == s
    {
      unique := unique + {Stripe(tags[i])};
    }
  }

  method LockIndexes(tags: seq<seq<bv8>>) returns (result: seq<nat>)
    ensures IsPlan(tags, result)
  {
    var unique := CollectStripes(tags);
    var collected: seq<nat> := [];
    var rest := unique;
    while rest != {}
      invariant rest <= unique && multiset(collected) + multiset(rest) == multiset(unique)
      decreases |rest|
    {
      var index :| index in rest;
      collected, rest := collected + [index], rest - {index};
    }
    SortedOnce(collected, unique);
    result := Sort(NatLess, collected);
    forall i | 0 <= i < |result| ensures result[i] < STRIPES {
      assert result[i] in unique;
    }
  }

  /** A reader and a writer that name a common tag can never be inside their sections together. */
  lemma SharedTagExcludes(run: seq<(Tid, Step)>, w: Tid, u: Tid, tags: seq<seq<bv8>>, others: seq<seq<bv8>>, tag: seq<bv8>)
    requires After(run).Some? && tag in tags && tag in others && w != u
    requires w in After(run).value && u in After(run).value
    requires IsPlan(tags, After(run).value[w].plan) && IsPlan(others, After(run).value[u].plan)
    requires After(run).value[w].mode.Write? && After(run).value[w].phase.Inside?
    ensures !After(run).value[u].phase.Inside?
  {
    assert Stripe(tag) in After(run).value[w].plan && Stripe(tag) in After(run).value[u].plan;
    if After(run).value[u].phase.Inside? {
      WriterIsAlone(run, w, u);
    }
  }
}
