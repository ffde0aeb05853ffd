/** Lists of strings as sets. */
module Lists {

  function Members(s: seq<string>): set<string> {
    set c | c in s
  }

  ghost predicate NoDuplicates(s: seq<string>) {
    forall c :: multiset(s)[c] <= 1
  }

  lemma AppendDistinct(a: seq<string>, b: seq<string>)
    requires NoDuplicates(a) && NoDuplicates(b) && forall c | c in a :: c !in b
    ensures NoDuplicates(a + b)
  {
    forall c ensures multiset(a + b)[c] <= 1 {
      assert multiset(a)[c] <= 1 && multiset(b)[c] <= 1;
      assert c in multiset(a) ==> c in a;
      assert c in multiset(b) ==> c in b;
    }
  }
}
