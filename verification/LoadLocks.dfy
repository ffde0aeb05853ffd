/**
 Per-key load locks. An entry of the table is created by the first thread that
 asks for its key and deleted by the last one that lets go; its token is a
 one-slot channel. Threads interleave at every critical section.
 */
module LoadLocks {
  import opened Wrappers

  type Key = string
  type Tid = nat

  /** Stands for the identity of a `loadLock` object; recreated entries get new ones. */
  type LockId = nat

  /** The one-slot channel, empty or with the value some thread sent, and the reference count. */
  datatype Lock = Lock(slot: Option<Tid>, refs: int)

  datatype Pc =
    | Waiting // referenced, in the select
    | Holding // its value is in the token channel
    | Leaving // gave up or gave the token back; still to be unreferenced

  datatype Thread = Thread(key: Key, lock: LockId, pc: Pc)

  datatype State = State(keys: map<Key, LockId>, locks: map<LockId, Lock>, threads: map<Tid, Thread>)

  datatype Step = Enter(key: Key, id: LockId) | Take | Cancel | Free | Unref

  predicate Enabled(s: State, t: Tid, step: Step) {
    if step.Enter? then
      t !in s.threads && (step.key in s.keys || step.id !in s.locks) &&
      (step.key in s.keys ==> s.keys[step.key] in s.locks)
    else
      t in s.threads && s.threads[t].lock in s.locks &&
      match step
      case Take => s.threads[t].pc.Waiting? && s.locks[s.threads[t].lock].slot.None?
      case Cancel => s.threads[t].pc.Waiting?
      case Free => s.threads[t].pc.Holding?
      case Unref => s.threads[t].pc.Leaving?
      case _ => true
  }

  function Do(s: State, t: Tid, step: Step): State
    requires Enabled(s, t, step)
  {
    match step
    case Enter(key, unused) =>
      var id := if key in s.keys then s.keys[key] else unused;
      var lock := if key in s.keys then s.locks[id] else Lock(None, 0);
      State(s.keys[key := id], s.locks[id := lock.(refs := lock.refs + 1)], s.threads[t := Thread(key, id, Waiting)])
    case Take =>
      var id := s.threads[t].lock;
      s.(locks := s.locks[id := s.locks[id].(slot := Some(t))], threads := s.threads[t := s.threads[t].(pc := Holding)])
    case Cancel => s.(threads := s.threads[t := s.threads[t].(pc := Leaving)])
    case Free =>
      var id := s.threads[t].lock;
      s.(locks := s.locks[id := s.locks[id].(slot := None)], threads := s.threads[t := s.threads[t].(pc := Leaving)])
    case Unref =>
      var id := s.threads[t].lock;
      var lock := s.locks[id].(refs := s.locks[id].refs - 1);
      State(if lock.refs == 0 then s.keys - {s.threads[t].key} else s.keys, s.locks[id := lock], s.threads - {t})
  }

  const Empty := State(map[], map[], map[])

  function After(run: seq<(Tid, Step)>): Option<State> {
    if run == [] then Some(Empty)
    else
      var before := After(run[..|run| - 1]);
      var (t, step) := run[|run| - 1];
      if before.Some? && Enabled(before.value, t, step) then Some(Do(before.value, t, step)) else None
  }

  // ---------------------------------------------------------------- invariant

  function Users(s: State, id: LockId): set<Tid> {
    set t | t in s.threads && s.threads[t].lock == id
  }

  /** Every thread shares the table's entry of its key, and every entry is in use. */
  ghost predicate Shared(s: State) {
    && (forall t | t in s.threads :: s.threads[t].key in s.keys && s.keys[s.threads[t].key] == s.threads[t].lock)
    && (forall k | k in s.keys :: s.keys[k] in s.locks && s.locks[s.keys[k]].refs > 0)
    && (forall k, l | k in s.keys && l in s.keys && k != l :: s.keys[k] != s.keys[l])
  }

  ghost predicate Counted(s: State) {
    forall k | k in s.keys :: s.keys[k] in s.locks && s.locks[s.keys[k]].refs == |Users(s, s.keys[k])|
  }

  /** The slot of an entry is filled exactly by the thread that holds it. */
  ghost predicate SlotsMatch(s: State) {
    && (forall t | t in s.threads && s.threads[t].pc.Holding? ::
          s.threads[t].lock in s.locks && s.locks[s.threads[t].lock].slot == Some(t))
    && (forall k | k in s.keys && s.keys[k] in s.locks && s.locks[s.keys[k]].slot.Some? ::
          var t := s.locks[s.keys[k]].slot.value; t in s.threads && s.threads[t] == Thread(k, s.keys[k], Holding))
  }

  ghost predicate Inv(s: State) {
    Shared(s) && Counted(s) && SlotsMatch(s)
  }

  /** Nobody uses an identity that is free. */
  lemma FreeIsUnused(s: State, id: LockId)
    requires Shared(s) && id !in s.locks
    ensures Users(s, id) == {}
  {
    forall u | u in s.threads ensures s.threads[u].lock != id {
      assert s.threads[u].key in s.keys;
    }
  }

  lemma EnterUsers(s: State, t: Tid, key: Key, id: LockId, i: LockId)
    requires Enabled(s, t, Enter(key, id))
    ensures Users(Do(s, t, Enter(key, id)), i) ==
            Users(s, i) + if i == (if key in s.keys then s.keys[key] else id) then {t} else {}
    ensures t !in Users(s, i)
  {
  }

  lemma EnterCounts(s: State, t: Tid, key: Key, id: LockId)
    requires Shared(s) && Counted(s) && Enabled(s, t, Enter(key, id))
    ensures Counted(Do(s, t, Enter(key, id)))
  {
    var r := Do(s, t, Enter(key, id));
    if key !in s.keys {
      FreeIsUnused(s, id);
    }
    forall k | k in r.keys ensures r.keys[k] in r.locks && r.locks[r.keys[k]].refs == |Users(r, r.keys[k])| {
      EnterUsers(s, t, key, id, r.keys[k]);
    }
  }

  lemma EnterShares(s: State, t: Tid, key: Key, id: LockId)
    requires Shared(s) && Enabled(s, t, Enter(key, id))
    ensures Shared(Do(s, t, Enter(key, id)))
  {
  }

  lemma EnterSlots(s: State, t: Tid, key: Key, id: LockId)
    requires Shared(s) && SlotsMatch(s) && Enabled(s, t, Enter(key, id))
    ensures SlotsMatch(Do(s, t, Enter(key, id)))
  {
  }

  lemma EnterKeeps(s: State, t: Tid, key: Key, id: LockId)
    requires Inv(s) && Enabled(s, t, Enter(key, id))
    ensures Inv(Do(s, t, Enter(key, id)))
  {
    EnterShares(s, t, key, id);
    EnterCounts(s, t, key, id);
    EnterSlots(s, t, key, id);
  }

  /** Who uses which entry does not change when a thread only moves its program point. */
  lemma MoveCounts(s: State, t: Tid, step: Step)
    requires Counted(s) && Enabled(s, t, step) && (step.Take? || step.Cancel? || step.Free?)
    ensures Counted(Do(s, t, step))
  {
    var r := Do(s, t, step);
    forall k | k in r.keys ensures Users(r, r.keys[k]) == Users(s, s.keys[k]) {
    }
  }

  lemma MoveSlots(s: State, t: Tid, step: Step)
    requires Shared(s) && SlotsMatch(s) && Enabled(s, t, step) && (step.Take? || step.Cancel? || step.Free?)
    ensures SlotsMatch(Do(s, t, step))
  {
    var r := Do(s, t, step);
    assert s.keys[s.threads[t].key] == s.threads[t].lock;
    forall u | u in r.threads && r.threads[u].pc.Holding?
      ensures r.threads[u].lock in r.locks && r.locks[r.threads[u].lock].slot == Some(u) {
    }
  }

  lemma MoveKeeps(s: State, t: Tid, step: Step)
    requires Inv(s) && Enabled(s, t, step) && (step.Take? || step.Cancel? || step.Free?)
    ensures Inv(Do(s, t, step))
  {
    MoveCounts(s, t, step);
    MoveSlots(s, t, step);
  }

  lemma UnrefCounts(s: State, t: Tid)
    requires Shared(s) && Counted(s) && Enabled(s, t, Unref)
    ensures Counted(Do(s, t, Unref))
    ensures Users(Do(s, t, Unref), s.threads[t].lock) == Users(s, s.threads[t].lock) - {t}
    ensures |Users(s, s.threads[t].lock)| == |Users(s, s.threads[t].lock) - {t}| + 1
  {
    var r := Do(s, t, Unref);
    var id := s.threads[t].lock;
    assert t in Users(s, id) && s.keys[s.threads[t].key] == id;
    assert Users(r, id) == Users(s, id) - {t};
    forall k | k in r.keys && s.keys[k] != id ensures Users(r, r.keys[k]) == Users(s, s.keys[k]) {
    }
  }

  lemma UnrefShares(s: State, t: Tid)
    requires Shared(s) && Counted(s) && Enabled(s, t, Unref)
    ensures Shared(Do(s, t, Unref))
  {
    var r := Do(s, t, Unref);
    var id := s.threads[t].lock;
    UnrefCounts(s, t);
    assert s.keys[s.threads[t].key] == id;
    forall u | u in r.threads ensures r.threads[u].key in r.keys {
      if s.threads[u].lock == id {
        assert u in Users(r, id);
      }
    }
  }

  lemma UnrefKeeps(s: State, t: Tid)
    requires Inv(s) && Enabled(s, t, Unref)
    ensures Inv(Do(s, t, Unref))
  {
    UnrefCounts(s, t);
    UnrefShares(s, t);
    UnrefSlots(s, t);
  }

  lemma UnrefSlots(s: State, t: Tid)
    requires Shared(s) && SlotsMatch(s) && Enabled(s, t, Unref)
    ensures SlotsMatch(Do(s, t, Unref))
  {
  }

  lemma {:induction false} RunKeeps(run: seq<(Tid, Step)>)
    requires After(run).Some?
    ensures Inv(After(run).value)
  {
    if run != [] {
      RunKeeps(run[..|run| - 1]);
      var before := After(run[..|run| - 1]).value;
      var (t, step) := run[|run| - 1];
      match step
      case Enter(key, id) => EnterKeeps(before, t, key, id);
      case Unref => UnrefKeeps(before, t);
      case _ => MoveKeeps(before, t, step);
    }
  }

  /**
   In every run, across deletion and recreation of entries and across cancelled
   waiters: no two threads hold the same key, whoever uses a key shares the entry
   in the table, its counter is their number, and only used keys are in the table.
   */
  lemma LoadLocksExclude(run: seq<(Tid, Step)>)
    requires After(run).Some?
    ensures var s := After(run).value;
      && (forall t, u | t in s.threads && u in s.threads && s.threads[t].pc.Holding? && s.threads[u].pc.Holding? && t != u ::
            s.threads[t].key != s.threads[u].key)
      && (forall t | t in s.threads :: s.threads[t].key in s.keys && s.keys[s.threads[t].key] == s.threads[t].lock)
      && (forall k | k in s.keys :: s.keys[k] in s.locks &&
            s.locks[s.keys[k]].refs == |set t | t in s.threads && s.threads[t].key == k|)
      && s.keys.Keys == set t | t in s.threads :: s.threads[t].key
  {
    RunKeeps(run);
    var s := After(run).value;
    forall k | k in s.keys
      ensures Users(s, s.keys[k]) == set t | t in s.threads && s.threads[t].key == k
      ensures exists t :: t in s.threads && s.threads[t].key == k
    {
      var t :| t in Users(s, s.keys[k]);
    }
  }

  lemma LockExists(run: seq<(Tid, Step)>, t: Tid)
    requires After(run).Some? && t in After(run).value.threads
    ensures var s := After(run).value; s.threads[t].lock in s.locks
  {
    RunKeeps(run);
    var key := After(run).value.threads[t].key;
    assert After(run).value.keys[key] == After(run).value.threads[t].lock;
  }

  lemma SetAgain<K, V>(m: map<K, V>, k: K)
    requires k in m
    ensures m[k := m[k]] == m
  {
  }

  lemma SetTwice<K, V>(m: map<K, V>, k: K, a: V, b: V)
    ensures m[k := a][k := b] == m[k := b]
  {
  }

  lemma EntriesExist(run: seq<(Tid, Step)>)
    requires After(run).Some?
    ensures var s := After(run).value; forall k | k in s.keys :: s.keys[k] in s.locks
  {
    RunKeeps(run);
  }

  /** At some moment, from `since` on, another thread held the key. */
  ghost predicate Contended(run: seq<(Tid, Step)>, since: nat, t: Tid, key: Key) {
    exists m: nat :: since <= m <= |run| && HeldByOther(run[..m], t, key)
  }

  ghost predicate HeldByOther(run: seq<(Tid, Step)>, t: Tid, key: Key) {
    var s := After(run);
    s.Some? && exists u :: u in s.value.threads && u != t && s.value.threads[u].key == key && s.value.threads[u].pc.Holding?
  }

  lemma TakenIsContended(run: seq<(Tid, Step)>, since: nat, t: Tid)
    requires After(run).Some? && t in After(run).value.threads && since <= |run|
    requires var s := After(run).value; s.threads[t].pc.Waiting? && s.threads[t].lock in s.locks && s.locks[s.threads[t].lock].slot.Some?
    ensures Contended(run, since, t, After(run).value.threads[t].key)
  {
    RunKeeps(run);
    var s := After(run).value;
    var key := s.threads[t].key;
    assert s.keys[key] == s.threads[t].lock;
    assert run[..|run|] == run && HeldByOther(run, t, key);
  }

  lemma ContendedGrows(before: seq<(Tid, Step)>, run: seq<(Tid, Step)>, since: nat, t: Tid, key: Key)
    requires Contended(before, since, t, key) && before <= run
    ensures Contended(run, since, t, key)
  {
    var m: nat :| since <= m <= |before| && HeldByOther(before[..m], t, key);
    assert run[..m] == before[..m];
  }

  // ---------------------------------------------------------------- the code

  /** The table of one store. `threads` and `run` record where its callers are and how they got there. */
  class Table {
    var keys: map<Key, LockId>
    var locks: map<LockId, Lock>
    var threads: map<Tid, Thread>
    ghost var run: seq<(Tid, Step)>

    function View(): State
      reads this
    {
      State(keys, locks, threads)
    }

    ghost predicate Valid()
      reads this
    {
      After(run) == Some(View())
    }

    constructor ()
      ensures Valid() && threads == map[]
    {
      keys, locks, threads, run := map[], map[], map[], [];
    }

    method Perform(t: Tid, step: Step)
      requires Valid() && Enabled(View(), t, step)
      modifies this
      ensures Valid() && View() == Do(old(View()), t, step) && run == old(run) + [(t, step)]
    {
      var s := Do(View(), t, step);
      keys, locks, threads, run := s.keys, s.locks, s.threads, run + [(t, step)];
      assert run[..|run| - 1] == old(run);
    }

    /** Other callers enter, take, give up and leave, for as long as they like. */
    method Others(t: Tid)
      requires Valid()
      modifies this
      ensures Valid() && old(run) <= run
      ensures (t in threads <==> t in old(threads)) && (t in threads ==> threads[t] == old(threads[t]))
    {
      var n: nat := *;
      while n > 0
        invariant Valid() && old(run) <= run
        invariant (t in threads <==> t in old(threads)) && (t in threads ==> threads[t] == old(threads[t]))
      {
        var u: Tid, step: Step := *, *;
        if u != t && Enabled(View(), u, step) {
          Perform(u, step);
        }
        n := n - 1;
      }
    }

    /** An object identity that is not in use. */
    method NewLock() returns (id: LockId)
      ensures id !in locks
    {
      id := 0;
      var rest := locks.Keys;
      while rest != {}
        invariant rest <= locks.Keys
        invariant forall i | i in locks && i !in rest :: i < id
        decreases |rest|
      {
        var i :| i in rest;
        id, rest := if i < id then id else i + 1, rest - {i};
      }
    }

    /** Finds or creates the entry of the key and counts the caller in, under the table's mutex. */
    method Ref(t: Tid, key: Key) returns (id: LockId)
      requires Valid() && t !in threads
      modifies this
      ensures Valid() && old(run) <= run && t in threads && threads[t] == Thread(key, id, Waiting)
    {
      ghost var before := View();
      EntriesExist(run);
      if key in keys {
        id := keys[key];
        SetAgain(keys, key);
      } else {
        id := NewLock();
        SetTwice(locks, id, Lock(None, 0), Lock(None, 1));
        keys, locks := keys[key := id], locks[id := Lock(None, 0)];
      }
      locks := locks[id := locks[id].(refs := locks[id].refs + 1)];
      threads, run := threads[t := Thread(key, id, Waiting)], run + [(t, Enter(key, id))];
      assert run[..|run| - 1] == old(run);
      assert View() == Do(before, t, Enter(key, id));
    }

    /** Counts the caller out, and deletes the entry after its last user. */
    method Unref(t: Tid, key: Key, id: LockId)
      requires Valid() && t in threads && threads[t] == Thread(key, id, Leaving)
      modifies this
      ensures Valid() && old(run) <= run && t !in threads
    {
      ghost var before := View();
      RunKeeps(run);
      locks := locks[id := locks[id].(refs := locks[id].refs - 1)];
      if locks[id].refs == 0 {
        keys := keys - {key};
      }
      threads, run := threads - {t}, run + [(t, Step.Unref)];
      assert run[..|run| - 1] == old(run);
      assert View() == Do(before, t, Step.Unref);
    }

    /**
     `cancelled` tells whether the context has ended before the call, `patience` after how many
     looks at the taken slot it ends. Success means that the caller alone holds the key; otherwise
     it has left no trace, and either its context had ended or it has met another holder.
     */
    method LockLoad(t: Tid, key: Key, cancelled: bool, patience: nat) returns (r: Result<LockId, ()>)
      requires Valid() && t !in threads
      modifies this
      ensures Valid() && old(run) <= run
      ensures r.Success? ==> t in threads && threads[t] == Thread(key, r.value, Holding)
      ensures r.Success? ==> forall u | u in threads && u != t && threads[u].key == key :: !threads[u].pc.Holding?
      ensures r.Failure? ==> t !in threads
      ensures cancelled ==> r.Failure? && run == old(run)
      ensures r.Failure? && !cancelled && patience > 0 ==> Contended(run, |old(run)|, t, key)
    {
      if cancelled { return Failure(()); }
      Others(t);
      var id := Ref(t, key);
      for look := 0 to patience
        invariant Valid() && old(run) <= run && t in threads && threads[t] == Thread(key, id, Waiting)
        invariant look > 0 ==> Contended(run, |old(run)|, t, key)
      {
        Others(t);
        LockExists(run, t);
        if locks[id].slot.None? {
          Perform(t, Take);
          LoadLocksExclude(run);
          return Success(id);
        }
        TakenIsContended(run, |old(run)|, t);
      }
      ghost var waited := run;
      GiveUp(t, key, id);
      if patience > 0 { ContendedGrows(waited, run, |old(run)|, t, key); }
      r := Failure(());
    }

    /** The context has ended. */
    method GiveUp(t: Tid, key: Key, id: LockId)
      requires Valid() && t in threads && threads[t] == Thread(key, id, Waiting)
      modifies this
      ensures Valid() && old(run) <= run && t !in threads
    {
      LockExists(run, t);
      Perform(t, Cancel);
      Others(t);
      Unref(t, key, id);
    }

    /** The function that a successful `LockLoad` returns. */
    method Release(t: Tid, key: Key, id: LockId)
      requires Valid() && t in threads && threads[t] == Thread(key, id, Holding)
      modifies this
      ensures Valid() && old(run) <= run && t !in threads
    {
      Others(t);
      LockExists(run, t);
      Perform(t, Free);
      Others(t);
      Unref(t, key, id);
    }
  }
}
