/** The resumable directory scan of local storage (connectors/localstorage/connector.go). */
module PrefixScan {
  import opened Wrappers
  import opened Lists
  import Text

  /** A directory tree that nobody changes during the scan. */
  datatype Entry = Entry(name: string, node: Node)
  datatype Node = File | Symlink | Dir(entries: seq<Entry>)

  /** A directory being read: its key and the entries not yet returned by `ReadDir`. */
  datatype Cursor = Cursor(key: string, rest: seq<Entry>)

  function JoinKey(key: string, name: string): string {
    key + "/" + name
  }

  /** The keys of the files below, depth first. */
  function Flatten(key: string, entries: seq<Entry>): seq<string>
    decreases entries, 1
  {
    if entries == [] then [] else FlattenEntry(key, entries[0]) + Flatten(key, entries[1..])
  }

  function FlattenEntry(key: string, e: Entry): seq<string>
    decreases e, 0
  {
    match e.node
    case File => [JoinKey(key, e.name)]
    case Symlink => []
    case Dir(entries) => Flatten(JoinKey(key, e.name), entries)
  }

  /** Reads needed to exhaust the entries: one for each, and one more to see the end of each directory below. */
  function Reads(entries: seq<Entry>): nat {
    if entries == [] then 0 else 1 + ReadsBelow(entries[0]) + Reads(entries[1..])
  }

  function ReadsBelow(e: Entry): nat {
    match e.node
    case Dir(entries) => Reads(entries) + 1
    case _ => 0
  }

  /** The keys still to come, innermost directory first. */
  function Remaining(stack: seq<Cursor>): seq<string> {
    if stack == [] then []
    else Flatten(stack[|stack| - 1].key, stack[|stack| - 1].rest) + Remaining(stack[..|stack| - 1])
  }

  function Work(stack: seq<Cursor>): nat {
    if stack == [] then 0 else Reads(stack[|stack| - 1].rest) + 1 + Work(stack[..|stack| - 1])
  }

  // ---------------------------------------------------------------- one read

  function Advance(stack: seq<Cursor>): (r: (seq<Cursor>, seq<string>))
    requires stack != []
  {
    var n := |stack| - 1;
    var top := stack[n];
    if top.rest == [] then (stack[..n], [])
    else
      var e := top.rest[0];
      var left := stack[..n] + [Cursor(top.key, top.rest[1..])];
      match e.node
      case Symlink => (left, [])
      case File => (left, [JoinKey(top.key, e.name)])
      case Dir(entries) => (left + [Cursor(JoinKey(top.key, e.name), entries)], [])
  }

  /** A read loses no key and repeats none, and it is exactly one read less to do. */
  lemma AdvanceKeeps(stack: seq<Cursor>)
    requires stack != []
    ensures Advance(stack).1 + Remaining(Advance(stack).0) == Remaining(stack)
    ensures Work(Advance(stack).0) == Work(stack) - 1
  {
    var n := |stack| - 1;
    var top := stack[n];
    if top.rest != [] {
      var e := top.rest[0];
      var left := stack[..n] + [Cursor(top.key, top.rest[1..])];
      assert left[..n] == stack[..n] && left[n] == Cursor(top.key, top.rest[1..]);
      var rest := Flatten(top.key, top.rest[1..]);
      assert Remaining(left) == rest + Remaining(stack[..n]);
      assert Remaining(stack) == FlattenEntry(top.key, e) + rest + Remaining(stack[..n]);
      assert Work(left) == Reads(top.rest[1..]) + 1 + Work(stack[..n]);
      assert Work(stack) == 1 + ReadsBelow(e) + Reads(top.rest[1..]) + 1 + Work(stack[..n]);
      Text.Associates(FlattenEntry(top.key, e), rest, Remaining(stack[..n]));
      if e.node.Dir? {
        var below := Cursor(JoinKey(top.key, e.name), e.node.entries);
        var deeper := left + [below];
        assert deeper[..n + 1] == left && deeper[n + 1] == below;
        assert Remaining(deeper) == Flatten(below.key, below.rest) + Remaining(left);
        assert Work(deeper) == Reads(below.rest) + 1 + Work(left);
        assert Advance(stack) == (deeper, []);
      }
    }
  }

  /** The state and the keys after up to `limit` reads. */
  function Page(stack: seq<Cursor>, limit: nat): (seq<Cursor>, seq<string>) {
    if limit == 0 || stack == [] then (stack, [])
    else
      var before := Page(stack, limit - 1);
      if before.0 == [] then before else (Advance(before.0).0, before.1 + Advance(before.0).1)
  }

  lemma {:induction false} PageKeeps(stack: seq<Cursor>, limit: nat)
    ensures Page(stack, limit).1 + Remaining(Page(stack, limit).0) == Remaining(stack)
    ensures Work(Page(stack, limit).0) == if Work(stack) <= limit then 0 else Work(stack) - limit
  {
    if limit > 0 && stack != [] {
      PageKeeps(stack, limit - 1);
      var before := Page(stack, limit - 1);
      if before.0 != [] {
        NextKeeps(before.0, before.1, Remaining(stack));
      }
    }
  }

  lemma NextKeeps(stack: seq<Cursor>, keys: seq<string>, all: seq<string>)
    requires stack != [] && keys + Remaining(stack) == all
    ensures keys + Advance(stack).1 + Remaining(Advance(stack).0) == all
    ensures Work(Advance(stack).0) == Work(stack) - 1
  {
    AdvanceKeeps(stack);
    Text.Associates(keys, Advance(stack).1, Remaining(Advance(stack).0));
  }

  // ---------------------------------------------------------------- whole scans

  /** The keys of consecutive pages, and what is left after them. */
  function Pages(stack: seq<Cursor>, limits: seq<nat>): (seq<Cursor>, seq<string>)
    decreases |limits|
  {
    if limits == [] then (stack, [])
    else
      var page := Page(stack, limits[0]);
      var others := Pages(page.0, limits[1..]);
      (others.0, page.1 + others.1)
  }

  function Sum(limits: seq<nat>): nat {
    if limits == [] then 0 else limits[0] + Sum(limits[1..])
  }

  lemma {:induction false} PagesKeep(stack: seq<Cursor>, limits: seq<nat>)
    ensures Pages(stack, limits).1 + Remaining(Pages(stack, limits).0) == Remaining(stack)
    ensures Work(Pages(stack, limits).0) == if Work(stack) <= Sum(limits) then 0 else Work(stack) - Sum(limits)
    decreases |limits|
  {
    if limits != [] {
      var page := Page(stack, limits[0]);
      PageKeeps(stack, limits[0]);
      PagesKeep(page.0, limits[1..]);
      var others := Pages(page.0, limits[1..]);
      Text.Associates(page.1, others.1, Remaining(others.0));
    }
  }

  /**
   Whatever the limits, the pages together hold every key of the tree in depth-first
   order, as soon as the limits allow for one read per entry and one per directory;
   with less the scan is not done.
   */
  lemma PagesListTheTree(key: string, entries: seq<Entry>, limits: seq<nat>)
    ensures var r := Pages([Cursor(key, entries)], limits);
            && r.1 <= Flatten(key, entries)
            && (r.0 == [] <==> Sum(limits) >= Reads(entries) + 1)
            && (r.0 == [] ==> r.1 == Flatten(key, entries))
  {
    var start := [Cursor(key, entries)];
    PagesKeep(start, limits);
    assert start[..0] == [];
    assert Remaining(start) == Flatten(key, entries) + Remaining(start[..0]);
    assert Work(start) == Reads(entries) + 1 + Work(start[..0]);
    assert Remaining(start) == Flatten(key, entries);
  }

  // ---------------------------------------------------------------- what the keys are

  /** Names in a directory differ and contain no separator. */
  predicate WellFormed(entries: seq<Entry>) {
    && (forall i, j | 0 <= i < j < |entries| :: entries[i].name != entries[j].name)
    && (forall e | e in entries :: '/' !in e.name)
    && (forall e | e in entries :: e.node.Dir? ==> WellFormed(e.node.entries))
  }

  ghost predicate FileAt(entries: seq<Entry>, path: seq<string>) {
    && path != []
    && exists e | e in entries :: e.name == path[0] && NodeAt(e.node, path[1..])
  }

  ghost predicate NodeAt(node: Node, path: seq<string>) {
    match node
    case File => path == []
    case Symlink => false
    case Dir(entries) => path != [] && exists e | e in entries :: e.name == path[0] && NodeAt(e.node, path[1..])
  }

  function JoinAll(key: string, path: seq<string>): string
    decreases |path|
  {
    if path == [] then key else JoinAll(JoinKey(key, path[0]), path[1..])
  }

  /** The keys are the files that can be reached through real directories. */
  lemma {:induction false} FlattenIsTheFiles(key: string, entries: seq<Entry>, k: string)
    ensures k in Flatten(key, entries) <==> exists path :: FileAt(entries, path) && k == JoinAll(key, path)
    decreases entries, 1
  {
    if entries != [] {
      FlattenEntryIsTheFiles(key, entries[0], k);
      FlattenIsTheFiles(key, entries[1..], k);
      if k in FlattenEntry(key, entries[0]) {
        var path :| NodeAt(entries[0].node, path) && k == JoinAll(JoinKey(key, entries[0].name), path);
        var whole := [entries[0].name] + path;
        assert whole[1..] == path && entries[0] in entries;
        assert FileAt(entries, whole) && k == JoinAll(key, whole);
      }
      if k in Flatten(key, entries[1..]) {
        var path :| FileAt(entries[1..], path) && k == JoinAll(key, path);
        assert FileAt(entries, path);
      }
      if exists path :: FileAt(entries, path) && k == JoinAll(key, path) {
        var path :| FileAt(entries, path) && k == JoinAll(key, path);
        var e :| e in entries && e.name == path[0] && NodeAt(e.node, path[1..]);
        if e != entries[0] {
          assert e in entries[1..];
          assert FileAt(entries[1..], path);
        } else {
          assert NodeAt(entries[0].node, path[1..]);
        }
      }
    }
  }

  lemma {:induction false} FlattenEntryIsTheFiles(key: string, e: Entry, k: string)
    ensures k in FlattenEntry(key, e) <==> exists path :: NodeAt(e.node, path) && k == JoinAll(JoinKey(key, e.name), path)
    decreases e, 0
  {
    var inner := JoinKey(key, e.name);
    match e.node
    case File =>
      assert NodeAt(e.node, []) && JoinAll(inner, []) == inner;
    case Symlink =>
    case Dir(entries) =>
      FlattenIsTheFiles(inner, entries, k);
      if exists path :: NodeAt(e.node, path) && k == JoinAll(inner, path) {
        var path :| NodeAt(e.node, path) && k == JoinAll(inner, path);
        assert FileAt(entries, path);
      }
      if exists path :: FileAt(entries, path) && k == JoinAll(inner, path) {
        var path :| FileAt(entries, path) && k == JoinAll(inner, path);
        assert NodeAt(e.node, path);
      }
  }

  /** The key is below the entry of that name. */
  ghost predicate Below(key: string, name: string, k: string) {
    JoinKey(key, name) <= k && (|k| > |JoinKey(key, name)| ==> k[|JoinKey(key, name)|] == '/')
  }

  lemma {:induction false} FlattenStaysBelow(key: string, entries: seq<Entry>, k: string)
    requires k in Flatten(key, entries)
    ensures exists e | e in entries :: Below(key, e.name, k)
    decreases entries, 1
  {
    if k in FlattenEntry(key, entries[0]) {
      FlattenEntryStaysBelow(key, entries[0], k);
    } else {
      FlattenStaysBelow(key, entries[1..], k);
    }
  }

  lemma {:induction false} FlattenEntryStaysBelow(key: string, e: Entry, k: string)
    requires k in FlattenEntry(key, e)
    ensures Below(key, e.name, k)
    decreases e, 0
  {
    if e.node.Dir? {
      var inner := JoinKey(key, e.name);
      FlattenStaysBelow(inner, e.node.entries, k);
      var f :| f in e.node.entries && Below(inner, f.name, k);
      assert inner <= JoinKey(inner, f.name) && JoinKey(inner, f.name)[|inner|] == '/';
    }
  }

  lemma BelowOne(key: string, a: string, b: string, k: string)
    requires Below(key, a, k) && Below(key, b, k) && '/' !in a && '/' !in b
    ensures a == b
  {
    var start := |key| + 1;
    var t := k[start..];
    assert t[..|a|] == a && t[..|b|] == b;
    forall i | 0 <= i < |a| ensures t[i] != '/' { assert t[i] == a[i] && a[i] in a; }
    forall i | 0 <= i < |b| ensures t[i] != '/' { assert t[i] == b[i] && b[i] in b; }
    assert |t| > |a| ==> t[|a|] == '/';
    assert |t| > |b| ==> t[|b|] == '/';
  }

  lemma {:induction false} FlattenHasNoDuplicates(key: string, entries: seq<Entry>)
    requires WellFormed(entries)
    ensures NoDuplicates(Flatten(key, entries))
    decreases entries
  {
    if entries != [] {
      var e := entries[0];
      assert e in entries;
      if e.node.Dir? {
        FlattenHasNoDuplicates(JoinKey(key, e.name), e.node.entries);
      }
      WellFormedRest(entries);
      FlattenHasNoDuplicates(key, entries[1..]);
      forall k | k in FlattenEntry(key, e) && k in Flatten(key, entries[1..]) ensures false {
        FlattenEntryStaysBelow(key, e, k);
        FlattenStaysBelow(key, entries[1..], k);
        var f :| f in entries[1..] && Below(key, f.name, k);
        var i :| 0 <= i < |entries| - 1 && entries[i + 1] == f;
        assert entries[0].name != entries[i + 1].name && f in entries;
        BelowOne(key, e.name, f.name, k);
      }
      AppendDistinct(FlattenEntry(key, e), Flatten(key, entries[1..]));
    }
  }

  lemma WellFormedRest(entries: seq<Entry>)
    requires WellFormed(entries) && entries != []
    ensures WellFormed(entries[1..])
  {
  }

  // ---------------------------------------------------------------- the scan

  datatype Handle = Handle(id: nat, cursor: Cursor)
  datatype Batch = Batch(keys: seq<string>, done: bool)
  datatype Fault = InvalidLimit | Cancelled | ReadFailed | OpenFailed | CloseFailed

  /** What goes wrong at one read, if anything. */
  datatype Trouble = Fine | Cancels | Unreadable | NotOpened | NotClosed

  /** The fault that this trouble is for a directory with these entries left. */
  function FaultOf(trouble: Trouble, rest: seq<Entry>): Option<Fault> {
    match trouble
    case Fine => None
    case Cancels => Some(Cancelled)
    case Unreadable => Some(ReadFailed)
    case NotOpened => if rest != [] && rest[0].node.Dir? then Some(OpenFailed) else None
    case NotClosed => if rest == [] then Some(CloseFailed) else None
  }

  function Top(stack: seq<Cursor>): Cursor
    requires stack != []
  {
    stack[|stack| - 1]
  }

  /** The fault met at read `k` of a page. */
  ghost predicate FaultAt(stack: seq<Cursor>, trouble: nat -> Trouble, k: nat, fault: Fault) {
    var left := Page(stack, k).0;
    left != [] && FaultOf(trouble(k), Top(left).rest) == Some(fault)
  }

  ghost predicate FineAt(stack: seq<Cursor>, trouble: nat -> Trouble, k: nat) {
    var left := Page(stack, k).0;
    left == [] || FaultOf(trouble(k), Top(left).rest).None?
  }

  /** None of the first `n` reads of a page meets a fault. */
  ghost predicate AllFine(stack: seq<Cursor>, trouble: nat -> Trouble, n: nat) {
    forall k {:trigger FineAt(stack, trouble, k)} | 0 <= k < n :: FineAt(stack, trouble, k)
  }

  /** Once the stack is empty there are no more reads. */
  lemma FineWhenEmpty(stack: seq<Cursor>, trouble: nat -> Trouble, n: nat, limit: nat)
    requires n <= limit && AllFine(stack, trouble, n) && (n == limit || Page(stack, n).0 == [])
    ensures AllFine(stack, trouble, limit)
  {
    forall k | n <= k < limit ensures FineAt(stack, trouble, k) {
      PageStops(stack, n, k);
    }
  }

  /** What read `n` of a page does, and the fault that it meets if its trouble is one. */
  lemma ReadIsRight(start: seq<Cursor>, trouble: nat -> Trouble, n: nat, stack: seq<Handle>, keys: seq<string>)
    requires stack != [] && (Cursors(stack), keys) == Page(start, n) && AllFine(start, trouble, n)
    ensures Page(start, n + 1) == (Advance(Cursors(stack)).0, keys + Advance(Cursors(stack)).1)
    ensures match FaultOf(trouble(n), stack[|stack| - 1].cursor.rest)
            case None => AllFine(start, trouble, n + 1)
            case Some(fault) => FaultAt(start, trouble, n, fault)
  {
    assert FineAt(start, trouble, n) || FaultAt(start, trouble, n, FaultOf(trouble(n), stack[|stack| - 1].cursor.rest).value);
  }

  function Cursors(stack: seq<Handle>): (r: seq<Cursor>)
    ensures |r| == |stack|
  {
    seq(|stack|, i requires 0 <= i < |stack| => stack[i].cursor)
  }

  class Scan {
    var stack: seq<Handle>
    var done: bool
    var visited: nat
    var openings: nat                // directories opened so far; names the next handle
    ghost var closes: seq<nat>       // calls of Close per directory
    ghost var refused: set<nat>      // directories whose Close failed at their end

    constructor Missing()
      ensures Valid() && done && stack == [] && openings == 0 && refused == {}
    {
      stack, done, visited, openings, closes, refused := [], true, 0, 0, [], {};
    }

    constructor Open(key: string, entries: seq<Entry>)
      ensures Valid() && !done && Cursors(stack) == [Cursor(key, entries)] && openings == 1 && refused == {}
    {
      stack, done, visited := [Handle(0, Cursor(key, entries))], false, 0;
      openings, closes, refused := 1, [0], {};
      new;
      assert stack[0].id == 0;
    }

    /**
     Directories on the stack are open. All others were closed once, except one
     whose Close failed at its end: it is closed again with the rest of the stack.
     */
    ghost predicate Valid()
      reads this
    {
      && (done <==> stack == [])
      && Distinct(stack, openings) && (forall id | id in refused :: id < openings)
      && ClosedRight(stack, openings, closes, refused)
    }

    method CloseHandle(h: Handle) returns (ok: bool)
      requires h.id < |closes|
      modifies this`closes
      ensures closes == old(closes)[h.id := old(closes)[h.id] + 1]
    {
      closes := closes[h.id := closes[h.id] + 1];
      ok := *;
    }

    /** Closes what is open, innermost first, and ends the scan. */
    method CloseLocked() returns (ok: bool)
      requires Distinct(stack, openings) && |closes| == openings
      modifies this
      ensures stack == [] && done && openings == old(openings) && visited == old(visited) && refused == old(refused)
      ensures OnceMore(old(stack), old(closes), closes)
    {
      ok := true;
      var index := |stack|;
      assert stack[index..] == [];
      while index > 0
        invariant 0 <= index <= |stack| && stack == old(stack) && openings == old(openings)
        invariant visited == old(visited) && refused == old(refused)
        invariant OnceMore(stack[index..], old(closes), closes)
      {
        index := index - 1;
        var closed := CloseHandle(stack[index]);
        ok := ok && closed;
        OneMoreOpen(stack, index);
      }
      assert stack[0..] == stack;
      stack, done := [], true;
    }

    method Close() returns (ok: bool)
      requires Valid() || Stacked()
      modifies this
      ensures Valid() && done
      ensures openings == old(openings) && visited == old(visited) && refused == old(refused)
    {
      ok := CloseLocked();
      ClosingAll(old(stack), openings, old(closes), closes, refused);
    }

    /** The innermost directory is exhausted. */
    method EndDirectory(fails: bool) returns (ok: bool)
      requires Stacked() && stack != []
      modifies this
      ensures ok <==> !fails
      ensures openings == old(openings) && visited == old(visited)
      ensures ok ==> Stacked() && stack == old(stack)[..|old(stack)| - 1] && refused == old(refused)
      ensures !ok ==> Valid() && done && refused == old(refused) + {old(stack)[|old(stack)| - 1].id}
    {
      var top := stack[|stack| - 1];
      assert top in stack;
      TopIsOpen(stack);
      var _ := CloseHandle(top);
      ok := !fails;
      if !ok {
        refused := refused + {top.id};
        var _ := CloseLocked();
        return;
      }
      stack := stack[..|stack| - 1];
    }

    /** Opens a directory and continues in it. */
    method Descend(key: string, entries: seq<Entry>, fails: bool) returns (ok: bool)
      requires Stacked()
      modifies this
      ensures ok <==> !fails
      ensures visited == old(visited) && refused == old(refused)
      ensures ok ==> Stacked() && Cursors(stack) == Cursors(old(stack)) + [Cursor(key, entries)]
      ensures !ok ==> Valid() && done
    {
      ok := !fails;
      if !ok {
        var _ := Close();
        return;
      }
      OpeningOne(stack, openings, closes, refused, Cursor(key, entries));
      ghost var before := stack;
      stack := stack + [Handle(openings, Cursor(key, entries))];
      CursorsSplit(stack);
      assert stack[..|stack| - 1] == before;
      openings, closes := openings + 1, closes + [0];
    }

    /** Takes the next entry of the innermost directory. */
    method TakeEntry() returns (entry: Entry)
      requires Stacked() && stack != [] && stack[|stack| - 1].cursor.rest != []
      modifies this`stack
      ensures Stacked() && |stack| == |old(stack)|
      ensures var n := |stack| - 1;
              var top := old(stack)[n].cursor;
              && entry == top.rest[0]
              && Cursors(stack) == Cursors(old(stack))[..n] + [Cursor(top.key, top.rest[1..])]
    {
      var index := |stack| - 1;
      var current := stack[index];
      entry := current.cursor.rest[0];
      SameHandles(stack, Cursor(current.cursor.key, current.cursor.rest[1..]));
      CursorsSplit(stack);
      stack := stack[..index] + [Handle(current.id, Cursor(current.cursor.key, current.cursor.rest[1..]))];
      CursorsSplit(stack);
    }

    /** One turn of the loop of `Next`. */
    method Step(trouble: Trouble) returns (r: Result<seq<string>, Fault>)
      requires Stacked() && stack != []
      modifies this
      ensures visited <= old(visited) + 1
      ensures FaultOf(trouble, old(stack)[|old(stack)| - 1].cursor.rest) == if r.Failure? then Some(r.error) else None
      ensures match r
              case Success(keys) =>
                && Stacked() && refused == old(refused) && visited == old(visited) + 1
                && (Cursors(stack), keys) == Advance(Cursors(old(stack)))
              case Failure(fault) =>
                && Valid() && done && fault != InvalidLimit
                && refused == old(refused) + if fault.CloseFailed? then {old(stack)[|old(stack)| - 1].id} else {}
    {
      if trouble.Cancels? {
        var _ := Close();
        return Failure(Cancelled);
      }
      visited := visited + 1;
      CursorsSplit(stack);
      if trouble.Unreadable? {
        var _ := Close();
        return Failure(ReadFailed);
      }
      if stack[|stack| - 1].cursor.rest == [] {
        var closed := EndDirectory(trouble.NotClosed?);
        return if closed then Success([]) else Failure(CloseFailed);
      }
      var key := stack[|stack| - 1].cursor.key;
      var entry := TakeEntry();
      match entry.node {
        case Symlink => return Success([]);
        case File => return Success([JoinKey(key, entry.name)]);
        case Dir(entries) =>
          var opens := Descend(JoinKey(key, entry.name), entries, trouble.NotOpened?);
          return if opens then Success([]) else Failure(OpenFailed);
      }
    }

    /** `Valid` while `done` may still have to be set. */
    ghost predicate Stacked()
      reads this
    {
      && !done && Distinct(stack, openings) && (forall id | id in refused :: id < openings)
      && ClosedRight(stack, openings, closes, refused)
    }

    /**
     At most `limit` reads; the page holds exactly the keys they meet. It fails exactly when
     one of them meets a fault, with that fault; then nothing stays open.
     */
    method Next(limit: int, trouble: nat -> Trouble) returns (r: Result<Batch, Fault>)
      requires Valid()
      modifies this
      ensures Valid()
      ensures limit < 1 <==> r == Failure(InvalidLimit)
      ensures limit < 1 ==> unchanged(this)
      ensures limit >= 1 ==> visited <= old(visited) + limit
      ensures match r
              case Success(batch) =>
                && (Cursors(stack), batch.keys) == Page(Cursors(old(stack)), limit)
                && (batch.done <==> stack == []) && refused == old(refused)
                && AllFine(Cursors(old(stack)), trouble, limit)
              case Failure(fault) =>
                fault == InvalidLimit || (done && exists k | 0 <= k < limit :: FaultAt(Cursors(old(stack)), trouble, k, fault))
      ensures r.Failure? && !r.error.CloseFailed? ==> refused == old(refused)
    {
      if limit < 1 {
        return Failure(InvalidLimit);
      }
      if done {
        FineWhenEmpty(Cursors(stack), trouble, 0, limit);
        return Success(Batch([], true));
      }
      var keys: seq<string> := [];
      var steps := 0;
      ghost var start := Cursors(stack);
      while steps < limit && stack != []
        invariant 0 <= steps <= limit && visited == old(visited) + steps && Stacked() && refused == old(refused)
        invariant (Cursors(stack), keys) == Page(start, steps) && AllFine(start, trouble, steps)
        decreases limit - steps
      {
        ghost var before := stack;
        var read := Step(trouble(steps));
        ReadIsRight(start, trouble, steps, before, keys);
        if read.Failure? {
          return Failure(read.error);
        }
        keys := keys + read.value;
        steps := steps + 1;
      }
      PageStops(start, steps, limit);
      FineWhenEmpty(start, trouble, steps, limit);
      if stack == [] {
        done := true;
      }
      r := Success(Batch(keys, done));
    }
  }

  // ---------------------------------------------------------------- handles

  ghost predicate Distinct(stack: seq<Handle>, openings: nat) {
    && (forall i | 0 <= i < |stack| :: stack[i].id < openings)
    && forall i, j | 0 <= i < j < |stack| :: stack[i].id != stack[j].id
  }

  ghost predicate IsOpen(stack: seq<Handle>, id: nat) {
    exists i | 0 <= i < |stack| :: stack[i].id == id
  }

  ghost predicate ClosedRight(stack: seq<Handle>, openings: nat, closes: seq<nat>, refused: set<nat>) {
    && |closes| == openings
    && (forall id | 0 <= id < openings :: closes[id] == if IsOpen(stack, id) then 0 else if id in refused then 2 else 1)
    && forall id: nat | IsOpen(stack, id) :: id !in refused
  }

  /** Every handle of the stack was closed once more, and no other. */
  ghost predicate OnceMore(stack: seq<Handle>, before: seq<nat>, closes: seq<nat>) {
    && |closes| == |before|
    && forall id | 0 <= id < |closes| :: closes[id] == before[id] + if IsOpen(stack, id) then 1 else 0
  }

  lemma OneMoreOpen(stack: seq<Handle>, index: nat)
    requires index < |stack|
    ensures forall id: nat :: IsOpen(stack[index..], id) <==> stack[index].id == id || IsOpen(stack[index + 1..], id)
  {
    var longer, shorter := stack[index..], stack[index + 1..];
    assert longer == [stack[index]] + shorter;
    forall id: nat ensures IsOpen(longer, id) <==> stack[index].id == id || IsOpen(shorter, id) {
      if IsOpen(shorter, id) {
        var i :| 0 <= i < |shorter| && shorter[i].id == id;
        assert longer[i + 1].id == id;
      }
      assert longer[0] == stack[index];
    }
  }

  lemma TopIsOpen(stack: seq<Handle>)
    requires stack != []
    ensures var n := |stack| - 1;
            forall id: nat :: IsOpen(stack, id) <==> stack[n].id == id || IsOpen(stack[..n], id)
  {
    var n := |stack| - 1;
    forall id: nat ensures IsOpen(stack, id) <==> stack[n].id == id || IsOpen(stack[..n], id) {
      if IsOpen(stack[..n], id) {
        var i :| 0 <= i < n && stack[..n][i].id == id;
        assert stack[i].id == id;
      }
      if IsOpen(stack, id) && stack[n].id != id {
        var i :| 0 <= i < |stack| && stack[i].id == id;
        assert stack[..n][i].id == id;
      }
    }
  }

  lemma ClosingAll(stack: seq<Handle>, openings: nat, before: seq<nat>, closes: seq<nat>, refused: set<nat>)
    requires ClosedRight(stack, openings, before, refused) && OnceMore(stack, before, closes)
    ensures ClosedRight([], openings, closes, refused)
  {
  }

  lemma OpeningOne(stack: seq<Handle>, openings: nat, closes: seq<nat>, refused: set<nat>, c: Cursor)
    requires Distinct(stack, openings) && ClosedRight(stack, openings, closes, refused)
    requires forall id | id in refused :: id < openings
    ensures Distinct(stack + [Handle(openings, c)], openings + 1)
    ensures ClosedRight(stack + [Handle(openings, c)], openings + 1, closes + [0], refused)
  {
    var more := stack + [Handle(openings, c)];
    TopIsOpen(more);
    assert more[..|stack|] == stack;
  }

  lemma SameHandles(stack: seq<Handle>, c: Cursor)
    requires stack != []
    ensures var n := |stack| - 1;
            var other := stack[..n] + [Handle(stack[n].id, c)];
            && (forall id: nat :: IsOpen(stack, id) <==> IsOpen(other, id))
            && forall openings: nat :: Distinct(stack, openings) <==> Distinct(other, openings)
  {
    var n := |stack| - 1;
    var other := stack[..n] + [Handle(stack[n].id, c)];
    TopIsOpen(stack);
    TopIsOpen(other);
    assert other[..n] == stack[..n];
    assert forall i | 0 <= i < |stack| :: stack[i].id == other[i].id;
  }

  lemma CursorsSplit(stack: seq<Handle>)
    requires stack != []
    ensures var n := |stack| - 1; Cursors(stack) == Cursors(stack[..n]) + [stack[n].cursor]
    ensures Cursors(stack)[..|stack| - 1] == Cursors(stack[..|stack| - 1])
  {
  }

  lemma {:induction false} PageStops(stack: seq<Cursor>, steps: nat, limit: nat)
    requires steps <= limit && (steps == limit || Page(stack, steps).0 == [])
    ensures Page(stack, limit) == Page(stack, steps)
  {
    if steps < limit {
      PageStops(stack, steps, limit - 1);
    }
  }
}
