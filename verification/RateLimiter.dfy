/** The submission rate limiter (modules/forms/limits.go). Times and durations are in nanoseconds. */
module RateLimiter {
  import opened Wrappers

  datatype Entry = Entry(start: int, count: int, touched: int)
  datatype Rules = Rules(limit: int, window: int) {
    /** What `PublicLimits.Validate` demands. */
    predicate Valid() {
      limit >= 1 && window > 0
    }

    predicate Expired(e: Entry, now: int) {
      now - e.start >= window
    }

    /** What one call does to the entry of its key. */
    function Next(e: Option<Entry>, now: int): (Entry, bool) {
      if e.None? || Expired(e.value, now) then (Entry(now, 1, now), true)
      else if e.value.count >= limit then (e.value.(touched := now), false)
      else (Entry(e.value.start, e.value.count + 1, now), true)
    }
  }

  // ---------------------------------------------------------------- one key over time

  /** An admitted call and the window it was counted in. */
  datatype Admission = Admission(start: int, time: int)

  /** The entry and the admissions after calls at these times, while the key is not evicted. */
  function Track(r: Rules, times: seq<int>): (Option<Entry>, seq<Admission>) {
    if times == [] then (None, [])
    else
      var n := |times| - 1;
      var before := Track(r, times[..n]);
      var (e, allowed) := r.Next(before.0, times[n]);
      (Some(e), if allowed then before.1 + [Admission(e.start, times[n])] else before.1)
  }

  predicate Ascending(times: seq<int>) {
    forall i, j | 0 <= i < j < |times| :: times[i] <= times[j]
  }

  /** How many admissions were counted in the window that starts then. */
  function InWindow(admissions: seq<Admission>, start: int): nat {
    if admissions == [] then 0
    else InWindow(admissions[..|admissions| - 1], start) + if admissions[|admissions| - 1].start == start then 1 else 0
  }

  /** How many admissions fall in the half-open span of that length. */
  function InSpan(admissions: seq<Admission>, from: int, length: int): nat {
    if admissions == [] then 0
    else
      InSpan(admissions[..|admissions| - 1], from, length) +
      if from <= admissions[|admissions| - 1].time < from + length then 1 else 0
  }

  /** Admissions lie in their windows, a window starts with an admission, and windows do not overlap. */
  ghost predicate Spaced(r: Rules, admissions: seq<Admission>) {
    && (forall a | a in admissions :: a.start <= a.time < a.start + r.window && Admission(a.start, a.start) in admissions)
    && forall i, j | 0 <= i < j < |admissions| ::
         admissions[i].start == admissions[j].start || admissions[i].start + r.window <= admissions[j].start
  }

  /** The entry counts the admissions of the newest window. */
  ghost predicate Counted(r: Rules, e: Option<Entry>, admissions: seq<Admission>) {
    match e
    case None => admissions == []
    case Some(e) =>
      && 1 <= e.count <= r.limit && InWindow(admissions, e.start) == e.count && e.start <= e.touched
      && Admission(e.start, e.start) in admissions
      && forall a | a in admissions :: a.start == e.start || a.start + r.window <= e.start
  }

  lemma {:induction false} NoneInWindow(admissions: seq<Admission>, start: int)
    requires forall a | a in admissions :: a.start != start
    ensures InWindow(admissions, start) == 0
  {
    if admissions != [] {
      assert forall a | a in admissions[..|admissions| - 1] :: a in admissions;
      NoneInWindow(admissions[..|admissions| - 1], start);
    }
  }

  lemma AdmissionsGrow(admissions: seq<Admission>, a: Admission, start: int)
    ensures InWindow(admissions + [a], start) == InWindow(admissions, start) + if a.start == start then 1 else 0
  {
    assert (admissions + [a])[..|admissions|] == admissions;
  }

  lemma {:induction false} TrackCounts(r: Rules, times: seq<int>)
    requires r.Valid() && Ascending(times)
    ensures var (e, admissions) := Track(r, times);
            && Counted(r, e, admissions) && Spaced(r, admissions)
            && (times == [] <==> e.None?) && (e.Some? ==> e.value.touched == times[|times| - 1])
            && forall start :: InWindow(admissions, start) <= r.limit
  {
    if times != [] {
      var n := |times| - 1;
      TrackCounts(r, times[..n]);
      var before := Track(r, times[..n]);
      assert n > 0 ==> times[n - 1] <= times[n];
      OneCall(r, before.0, before.1, times[n]);
    }
  }

  lemma OneCall(r: Rules, e: Option<Entry>, admissions: seq<Admission>, now: int)
    requires r.Valid() && Counted(r, e, admissions) && Spaced(r, admissions)
    requires e.Some? ==> e.value.touched <= now
    requires forall start :: InWindow(admissions, start) <= r.limit
    ensures var (next, allowed) := r.Next(e, now);
            var more := if allowed then admissions + [Admission(next.start, now)] else admissions;
            && Counted(r, Some(next), more) && Spaced(r, more) && next.touched == now
            && forall start :: InWindow(more, start) <= r.limit
  {
    var (next, allowed) := r.Next(e, now);
    if allowed {
      if e.None? || r.Expired(e.value, now) {
        CallOpens(r, e, admissions, now);
      } else {
        CallCounts(r, e.value, admissions, now);
      }
    }
  }

  lemma AllGrow(admissions: seq<Admission>, a: Admission)
    ensures forall start :: InWindow(admissions + [a], start) == InWindow(admissions, start) + if a.start == start then 1 else 0
  {
    forall start ensures InWindow(admissions + [a], start) == InWindow(admissions, start) + if a.start == start then 1 else 0 {
      AdmissionsGrow(admissions, a, start);
    }
  }

  lemma CallOpens(r: Rules, e: Option<Entry>, admissions: seq<Admission>, now: int)
    requires r.Valid() && Counted(r, e, admissions) && Spaced(r, admissions) && (e.None? || r.Expired(e.value, now))
    requires forall start :: InWindow(admissions, start) <= r.limit
    ensures var more := admissions + [Admission(now, now)];
            && Counted(r, Some(Entry(now, 1, now)), more) && Spaced(r, more)
            && forall start :: InWindow(more, start) <= r.limit
  {
    assert forall x | x in admissions :: x.start + r.window <= now;
    NoneInWindow(admissions, now);
    AllGrow(admissions, Admission(now, now));
  }

  lemma CallCounts(r: Rules, e: Entry, admissions: seq<Admission>, now: int)
    requires r.Valid() && Counted(r, Some(e), admissions) && Spaced(r, admissions)
    requires !r.Expired(e, now) && e.touched <= now && e.count < r.limit
    requires forall start :: InWindow(admissions, start) <= r.limit
    ensures var more := admissions + [Admission(e.start, now)];
            && Counted(r, Some(Entry(e.start, e.count + 1, now)), more) && Spaced(r, more)
            && forall start :: InWindow(more, start) <= r.limit
  {
    AllGrow(admissions, Admission(e.start, now));
    SpacedMore(r, admissions, Admission(e.start, now));
  }

  lemma SpacedMore(r: Rules, admissions: seq<Admission>, a: Admission)
    requires Spaced(r, admissions) && a.start <= a.time < a.start + r.window
    requires Admission(a.start, a.start) in admissions
    requires forall x | x in admissions :: x.start == a.start || x.start + r.window <= a.start
    ensures Spaced(r, admissions + [a])
  {
    var more := admissions + [a];
    assert forall x | x in admissions :: x in more;
    forall i, j | 0 <= i < j < |more| ensures more[i].start == more[j].start || more[i].start + r.window <= more[j].start {
      assert more[i] == admissions[i] && more[i] in admissions;
    }
  }

  lemma {:induction false} OneWindow(r: Rules, admissions: seq<Admission>, from: int, a: int)
    requires forall x | x in admissions && from <= x.time < from + r.window :: x.start == a
    ensures InSpan(admissions, from, r.window) <= InWindow(admissions, a)
  {
    if admissions != [] {
      var n := |admissions| - 1;
      assert forall x | x in admissions[..n] :: x in admissions;
      OneWindow(r, admissions[..n], from, a);
      assert admissions[n] in admissions;
    }
  }

  lemma {:induction false} TwoWindows(r: Rules, admissions: seq<Admission>, from: int, a: int, b: int)
    requires a != b
    requires forall x | x in admissions && from <= x.time < from + r.window :: x.start == a || x.start == b
    ensures InSpan(admissions, from, r.window) <= InWindow(admissions, a) + InWindow(admissions, b)
    ensures (exists x | x in admissions :: x.start == a && x.time < from) ==>
              InSpan(admissions, from, r.window) < InWindow(admissions, a) + InWindow(admissions, b)
  {
    if admissions != [] {
      var n := |admissions| - 1;
      assert forall x | x in admissions :: x == admissions[n] || x in admissions[..n];
      assert forall x | x in admissions[..n] :: x in admissions;
      TwoWindows(r, admissions[..n], from, a, b);
      assert admissions[n] in admissions;
    }
  }

  lemma Apart(r: Rules, admissions: seq<Admission>, x: Admission, y: Admission)
    requires Spaced(r, admissions) && x in admissions && y in admissions
    ensures x.start == y.start || x.start + r.window <= y.start || y.start + r.window <= x.start
  {
    var i :| 0 <= i < |admissions| && admissions[i] == x;
    var j :| 0 <= j < |admissions| && admissions[j] == y;
    assert i < j || j < i || i == j;
  }

  ghost predicate Within(r: Rules, admissions: seq<Admission>, from: int, x: Admission) {
    x in admissions && from <= x.time < from + r.window
  }

  lemma AtMostTwoWindows(r: Rules, admissions: seq<Admission>, from: int, x: Admission, y: Admission, z: Admission)
    requires r.Valid() && Spaced(r, admissions) && x.start != y.start
    requires Within(r, admissions, from, x) && Within(r, admissions, from, y) && Within(r, admissions, from, z)
    ensures z.start == x.start || z.start == y.start
  {
    Apart(r, admissions, x, y);
    Apart(r, admissions, x, z);
    Apart(r, admissions, y, z);
  }

  /** A span of one window's length meets at most two windows, and misses the call that opened the older one. */
  lemma SpanIsBounded(r: Rules, admissions: seq<Admission>, from: int, limit: nat)
    requires r.Valid() && Spaced(r, admissions) && limit >= 1 && forall start :: InWindow(admissions, start) <= limit
    ensures InSpan(admissions, from, r.window) <= 2 * limit - 1
  {
    if x, y :| Within(r, admissions, from, x) && Within(r, admissions, from, y) && x.start < y.start {
      Apart(r, admissions, x, y);
      forall z | z in admissions && from <= z.time < from + r.window ensures z.start == x.start || z.start == y.start {
        AtMostTwoWindows(r, admissions, from, x, y, z);
      }
      assert Admission(x.start, x.start) in admissions;
      TwoWindows(r, admissions, from, x.start, y.start);
    } else if x :| Within(r, admissions, from, x) {
      forall z | z in admissions && from <= z.time < from + r.window ensures z.start == x.start {
        assert Within(r, admissions, from, z);
      }
      OneWindow(r, admissions, from, x.start);
    } else {
      assert forall z | z in admissions && from <= z.time < from + r.window :: Within(r, admissions, from, z);
      OneWindow(r, admissions, from, 0);
    }
  }

  /**
   With a clock that does not go back, a key that is not evicted is admitted at most
   `limit` times in a window and less than twice that in any span of a window's length.
   */
  lemma AdmissionsAreBounded(r: Rules, times: seq<int>, from: int)
    requires r.Valid() && Ascending(times)
    ensures forall start :: InWindow(Track(r, times).1, start) <= r.limit
    ensures InSpan(Track(r, times).1, from, r.window) <= 2 * r.limit - 1
  {
    TrackCounts(r, times);
    SpanIsBounded(r, Track(r, times).1, from, r.limit);
  }

  // ---------------------------------------------------------------- the bound is reached

  lemma OneMoreCall(r: Rules, times: seq<int>, t: int)
    ensures var (e, admissions) := Track(r, times);
            var (next, allowed) := r.Next(e, t);
            Track(r, times + [t]) == (Some(next), if allowed then admissions + [Admission(next.start, t)] else admissions)
  {
    assert (times + [t])[..|times|] == times;
  }

  lemma SpanGrows(admissions: seq<Admission>, a: Admission, from: int, length: int)
    ensures InSpan(admissions + [a], from, length)
            == InSpan(admissions, from, length) + if from <= a.time < from + length then 1 else 0
  {
    assert (admissions + [a])[..|admissions|] == admissions;
  }

  lemma OneMoreAscends(times: seq<int>, last: int, t: int)
    requires Ascending(times) && last <= t && forall x | x in times :: x <= last
    ensures Ascending(times + [t]) && forall x | x in times + [t] :: x <= t
  {
    assert forall i | 0 <= i < |times| :: times[i] in times;
  }

  /** After these calls, the last at `last`, the open window and the admissions in the span. */
  ghost predicate Stage(r: Rules, times: seq<int>, last: int, from: int, start: int, count: nat, span: nat) {
    && Ascending(times) && (forall x | x in times :: x <= last)
    && Track(r, times).0 == Some(Entry(start, count, last)) && InSpan(Track(r, times).1, from, r.window) == span
  }

  predicate InSpanAt(r: Rules, t: int, from: int) {
    from <= t < from + r.window
  }

  /** A further call is admitted while the window is open and has room. */
  lemma CallAgain(r: Rules, times: seq<int>, last: int, from: int, start: int, count: nat, span: nat, t: int)
    requires Stage(r, times, last, from, start, count, span) && last <= t < start + r.window && count < r.limit
    ensures Stage(r, times + [t], t, from, start, count + 1, span + if InSpanAt(r, t, from) then 1 else 0)
  {
    OneMoreCall(r, times, t);
    SpanGrows(Track(r, times).1, Admission(start, t), from, r.window);
    OneMoreAscends(times, last, t);
  }

  lemma {:induction false} CallsAt(r: Rules, times: seq<int>, last: int, from: int, start: int, count: nat, span: nat, t: int, k: nat)
    returns (more: seq<int>)
    requires Stage(r, times, last, from, start, count, span) && last <= t < start + r.window && count + k <= r.limit
    ensures Stage(r, more, if k == 0 then last else t, from, start, count + k, span + if InSpanAt(r, t, from) then k else 0)
  {
    more := times;
    if k > 0 {
      more := CallsAt(r, times, last, from, start, count, span, t, k - 1);
      CallAgain(r, more, if k == 1 then last else t, from, start, count + k - 1,
                span + if InSpanAt(r, t, from) then k - 1 else 0, t);
      more := more + [t];
    }
  }

  /** A call after the end of the window opens the next one. */
  lemma WindowOpens(r: Rules, times: seq<int>, last: int, from: int, start: int, count: nat, span: nat, t: int)
    requires r.Valid() && Stage(r, times, last, from, start, count, span) && last <= t && start + r.window <= t
    ensures Stage(r, times + [t], t, from, t, 1, span + if InSpanAt(r, t, from) then 1 else 0)
  {
    OneMoreCall(r, times, t);
    SpanGrows(Track(r, times).1, Admission(t, t), from, r.window);
    OneMoreAscends(times, last, t);
  }

  lemma FirstCall(r: Rules, t: int, from: int)
    ensures Stage(r, [t], t, from, t, 1, if InSpanAt(r, t, from) then 1 else 0)
  {
    assert [t][..0] == [];
    SpanGrows([], Admission(t, t), from, r.window);
    assert [] + [Admission(t, t)] == [Admission(t, t)];
  }

  /** A call that opens a window, the others of that window at its last instant, and a full window right after it. */
  lemma FullSpan(r: Rules) returns (times: seq<int>)
    requires r.Valid() && r.window >= 2
    ensures Ascending(times) && InSpan(Track(r, times).1, r.window - 1, r.window) == 2 * r.limit - 1
  {
    var from, k := r.window - 1, r.limit - 1;
    FirstCall(r, 0, from);
    times := CallsAt(r, [0], 0, from, 0, 1, 0, from, k);
    WindowOpens(r, times, if k == 0 then 0 else from, from, 0, 1 + k, k, r.window);
    times := CallsAt(r, times + [r.window], r.window, from, r.window, 1, k + 1, r.window, k);
  }

  /** With windows of a single instant a span is one window. */
  lemma InstantSpan(r: Rules, times: seq<int>, from: int)
    requires r.Valid() && r.window == 1 && Ascending(times)
    ensures InSpan(Track(r, times).1, from, r.window) <= r.limit
  {
    TrackCounts(r, times);
    OneWindow(r, Track(r, times).1, from, from);
  }

  /** The calls at some times reach the bound. */
  ghost predicate Reaches(r: Rules, times: seq<int>, from: int) {
    Ascending(times) && InSpan(Track(r, times).1, from, r.window) == 2 * r.limit - 1
  }

  /** Whether the bound on spans is reached: by every rule, except with windows of a single instant and a limit above one. */
  lemma TheBoundIsReached(r: Rules)
    requires r.Valid()
    ensures (exists times, from :: Reaches(r, times, from)) <==> r.window >= 2 || r.limit == 1
  {
    if r.window >= 2 {
      var times := FullSpan(r);
      assert Reaches(r, times, r.window - 1);
    } else if r.limit == 1 {
      FirstCall(r, 0, 0);
      assert Reaches(r, [0], 0);
    } else if times, from :| Reaches(r, times, from) {
      InstantSpan(r, times, from);
    }
  }

  // ---------------------------------------------------------------- the limiter

  class Limiter {
    const rules: Rules
    const maxEntries: int
    var entries: map<string, Entry>
    ghost var clock: int                    // the time of the last call
    ghost var steady: bool                  // the clock never went back
    ghost var tracks: map<string, seq<int>> // the calls of each key since it was last evicted

    constructor (rules: Rules, maxEntries: int)
      requires rules.Valid() && maxEntries >= 1
      ensures Valid() && this.rules == rules && this.maxEntries == maxEntries && entries == map[] && steady
    {
      this.rules, this.maxEntries, entries := rules, maxEntries, map[];
      clock, steady, tracks := 0, true, map[];
    }

    ghost predicate Valid()
      reads this
    {
      && rules.Valid() && |entries| <= maxEntries && maxEntries >= 1 && "" !in entries
      && (forall k | k in entries :: 1 <= entries[k].count <= rules.limit)
      && (steady ==> Tracked(rules, entries, tracks, clock))
    }

    /** Expired entries go; then the least recently touched ones, as many as needed for one more. */
    method Evict(now: int)
      requires "" !in entries && maxEntries >= 1
      modifies this`entries
      ensures Evicted(rules, old(entries), entries, maxEntries, now)
    {
      ghost var live := LiveKeys(rules, entries, now);
      entries := Unexpired(rules, entries, now);
      ghost var unexpired := entries;
      assert unexpired.Keys == live;
      while |entries| >= maxEntries
        invariant Oldest(unexpired, entries)
        invariant |unexpired| < maxEntries || |entries| >= maxEntries - 1
        invariant |unexpired| < maxEntries ==> entries == unexpired
        decreases |entries|
      {
        var oldest := FindOldest();
        if oldest == "" {
          break;
        }
        ghost var before := entries;
        entries := entries - {oldest};
        assert before.Keys == entries.Keys + {oldest};
      }
    }

    /** The scan for the least recently touched key, in any order; empty when there is none. */
    method FindOldest() returns (oldest: string)
      requires "" !in entries
      ensures oldest == "" <==> entries == map[]
      ensures oldest != "" ==> oldest in entries && forall k | k in entries :: entries[oldest].touched <= entries[k].touched
    {
      oldest := "";
      var when := 0;
      var rest := entries.Keys;
      while rest != {}
        invariant rest <= entries.Keys
        invariant oldest == "" ==> rest == entries.Keys
        invariant oldest != "" ==> oldest in entries && when == entries[oldest].touched
        invariant oldest != "" ==> forall k | k in entries && k !in rest :: when <= entries[k].touched
        decreases |rest|
      {
        var key :| key in rest;
        rest := rest - {key};
        if oldest == "" || entries[key].touched < when {
          oldest, when := key, entries[key].touched;
        }
      }
    }

    /**
     Admits or refuses a call. The entry of the key moves on by `Next`; entries of other
     keys are at most dropped; one whose window is running only when a new key finds as many
     such entries as the table holds.
     */
    method Allow(key: string, now: int) returns (allowed: bool)
      requires Valid()
      modifies this
      ensures Valid()
      ensures key == "" ==> !allowed && unchanged(this)
      ensures key != "" ==> Moved(rules, old(entries), entries, key, now, allowed)
      ensures !allowed <==> key == "" || Spent(rules, old(entries), key, now)
      ensures key != "" ==> OtherKeys(rules, old(entries), entries, maxEntries, key, now)
      ensures key != "" ==> Remembers(rules, old(entries), entries, maxEntries, key, now)
      ensures key != "" ==> (steady <==> old(steady) && old(clock) <= now)
      ensures steady && key != "" ==> Recorded(rules, old(tracks), tracks, old(entries), entries, key, now)
      ensures steady && key != "" ==> Answered(rules, tracks[key], allowed)
    {
      if key == "" {
        return false;
      }
      ghost var before := entries;
      allowed := Count(key, now);
      CountsKeep(rules, before, entries, key, now, allowed);
      Note(before, key, now, allowed);
    }

    method Count(key: string, now: int) returns (allowed: bool)
      requires "" !in entries && maxEntries >= 1 && key != "" && |entries| <= maxEntries
      modifies this`entries
      ensures Moved(rules, old(entries), entries, key, now, allowed)
      ensures !allowed <==> Spent(rules, old(entries), key, now)
      ensures OtherKeys(rules, old(entries), entries, maxEntries, key, now)
      ensures Remembers(rules, old(entries), entries, maxEntries, key, now)
      ensures |entries| <= maxEntries
    {
      var found := key in entries;
      var entry := if found then entries[key] else Entry(now, 0, now);
      if !found || rules.Expired(entry, now) {
        Open(key, now);
        OnlyFullTablesForget(rules, old(entries), entries, maxEntries, key, now);
        return true;
      }
      entry := entry.(touched := now);
      Sizes(entries, entries[key := entry], key);
      if entry.count >= rules.limit {
        entries := entries[key := entry];
        return false;
      }
      entry := entry.(count := entry.count + 1);
      Sizes(entries, entries[key := entry], key);
      entries := entries[key := entry];
      return true;
    }

    /** Starts a window for the key, after making room if the key is new and the table full. */
    method Open(key: string, now: int)
      requires "" !in entries && maxEntries >= 1 && key != "" && |entries| <= maxEntries
      modifies this`entries
      ensures key in entries && entries[key] == Entry(now, 1, now)
      ensures forall k | k in entries && k != key :: k in old(entries) && entries[k] == old(entries)[k]
      ensures OtherKeys(rules, old(entries), entries, maxEntries, key, now)
      ensures |entries| <= maxEntries
    {
      if key !in entries && |entries| >= maxEntries {
        Evict(now);
        assert entries[key := Entry(now, 1, now)] - {key} == entries;
      }
      Sizes(entries, entries[key := Entry(now, 1, now)], key);
      entries := entries[key := Entry(now, 1, now)];
    }

    /** Records the call in the history. */
    ghost method Note(before: map<string, Entry>, key: string, now: int, allowed: bool)
      requires rules.Valid() && (steady ==> Tracked(rules, before, tracks, clock))
      requires Moved(rules, before, entries, key, now, allowed)
      modifies `clock, `steady, `tracks
      ensures steady <==> old(steady) && old(clock) <= now
      ensures steady ==> Tracked(rules, entries, tracks, clock)
      ensures steady ==> Recorded(rules, old(tracks), tracks, before, entries, key, now)
      ensures steady ==> Answered(rules, tracks[key], allowed)
    {
      steady := steady && clock <= now;
      if steady { tracks := CallIsTracked(rules, before, entries, tracks, clock, key, now, allowed); }
      clock := now;
    }
  }

  function Unexpired(r: Rules, entries: map<string, Entry>, now: int): map<string, Entry> {
    map k | k in entries && !r.Expired(entries[k], now) :: entries[k]
  }

  /** The entries left are some of the old ones, and none of the others was touched later. */
  ghost predicate Oldest(before: map<string, Entry>, after: map<string, Entry>) {
    && after.Keys <= before.Keys && (forall k | k in after :: after[k] == before[k])
    && forall k, o | k in before && k !in after && o in after :: before[k].touched <= after[o].touched
  }

  /** The keys whose window is still running. */
  ghost function LiveKeys(r: Rules, entries: map<string, Entry>, now: int): set<string> {
    set k | k in entries && now - entries[k].start < r.window
  }

  /**
   Only keys whose window is running stay, with their entries: all of them if that leaves
   room for one more, and otherwise as many as leave room for one, the most recently touched.
   */
  ghost predicate Evicted(r: Rules, before: map<string, Entry>, after: map<string, Entry>, maxEntries: int, now: int) {
    var live := LiveKeys(r, before, now);
    && after.Keys <= live && (forall k | k in after :: after[k] == before[k])
    && (if |live| < maxEntries then after.Keys == live else |after| == maxEntries - 1)
    && forall k, o | k in live && k !in after && o in after :: before[k].touched <= before[o].touched
  }

  /** What a call does to the entries of other keys: nothing, unless a new key finds the table full. */
  ghost predicate OtherKeys(r: Rules, before: map<string, Entry>, after: map<string, Entry>, maxEntries: int, key: string, now: int) {
    if key in before || |before| < maxEntries then after - {key} == before - {key}
    else Evicted(r, before, after - {key}, maxEntries, now)
  }

  /** The entry of the key moved on by one call, which was answered so; entries of other keys are at most gone. */
  ghost predicate Moved(r: Rules, before: map<string, Entry>, after: map<string, Entry>, key: string, now: int, allowed: bool) {
    && key in after && (after[key], allowed) == r.Next(if key in before then Some(before[key]) else None, now)
    && forall k | k in after && k != key :: k in before && after[k] == before[k]
  }

  /** The window of the key is running and its calls are used up. */
  ghost predicate Spent(r: Rules, entries: map<string, Entry>, key: string, now: int) {
    key in entries && now - entries[key].start < r.window && entries[key].count >= r.limit
  }

  /** A key whose window is running is forgotten only when a new key finds as many such keys as the table holds. */
  ghost predicate Remembers(r: Rules, before: map<string, Entry>, after: map<string, Entry>, maxEntries: int, key: string, now: int) {
    forall k | k in LiveKeys(r, before, now) && k !in after :: key !in before && |LiveKeys(r, before, now)| >= maxEntries
  }

  lemma OnlyFullTablesForget(r: Rules, before: map<string, Entry>, after: map<string, Entry>, maxEntries: int, key: string, now: int)
    requires OtherKeys(r, before, after, maxEntries, key, now) && key in after
    ensures Remembers(r, before, after, maxEntries, key, now)
  {
    forall k | k in LiveKeys(r, before, now) && k !in after ensures key !in before && |LiveKeys(r, before, now)| >= maxEntries {
      assert k in before - {key} && k !in after - {key};
    }
  }

  /** The called key has one more call; the other keys keep theirs, unless they lost an entry whose window was running. */
  ghost predicate Recorded(r: Rules, tracks: map<string, seq<int>>, tracks': map<string, seq<int>>, before: map<string, Entry>,
                           after: map<string, Entry>, key: string, now: int) {
    && tracks'.Keys == tracks.Keys + {key}
    && tracks'[key] == (if key in tracks then tracks[key] else []) + [now]
    && forall k | k in tracks && k != key ::
         tracks'[k] == if k in LiveKeys(r, before, now) && k !in after then [] else tracks[k]
  }

  lemma TracksAreRecorded(r: Rules, tracks: map<string, seq<int>>, before: map<string, Entry>, after: map<string, Entry>,
                          key: string, now: int)
    ensures Recorded(r, tracks, TracksAfter(tracks, before, after, r, key, now), before, after, key, now)
  {
  }

  lemma CountsKeep(r: Rules, before: map<string, Entry>, after: map<string, Entry>, key: string, now: int, allowed: bool)
    requires r.Valid() && Moved(r, before, after, key, now, allowed)
    requires forall k | k in before :: 1 <= before[k].count <= r.limit
    ensures forall k | k in after :: 1 <= after[k].count <= r.limit
  {
  }

  lemma Sizes(before: map<string, Entry>, after: map<string, Entry>, key: string)
    requires key in after && after.Keys <= before.Keys + {key}
    ensures |after| <= |before| + 1
    ensures key in before ==> |after| <= |before|
  {
    var all := before.Keys + {key};
    assert all == after.Keys + (all - after.Keys);
    assert key in before ==> all == before.Keys;
  }

  /** The calls of a key; none if it is unknown. */
  function Calls(tracks: map<string, seq<int>>, key: string): seq<int> {
    if key in tracks then tracks[key] else []
  }

  /** Only keys that lost a live entry start afresh; the called key has one more call. */
  function TracksAfter(tracks: map<string, seq<int>>, before: map<string, Entry>, after: map<string, Entry>,
                       r: Rules, key: string, now: int): map<string, seq<int>> {
    map k | k in tracks.Keys + {key} ::
      if k == key then Calls(tracks, key) + [now]
      else if k in before && k !in after && !r.Expired(before[k], now) then []
      else tracks[k]
  }

  /** The table agrees with the calls recorded for each key, except that it may have forgotten what is expired. */
  ghost predicate Tracked(r: Rules, entries: map<string, Entry>, tracks: map<string, seq<int>>, clock: int) {
    && (forall k | k in entries :: k in tracks)
    && forall k | k in tracks :: TrackedKey(r, if k in entries then Some(entries[k]) else None, tracks[k], clock)
  }

  ghost predicate TrackedKey(r: Rules, entry: Option<Entry>, calls: seq<int>, clock: int) {
    && Ascending(calls) && (forall t | t in calls :: t <= clock)
    && var e := Track(r, calls).0;
       if entry.Some? then e == entry else e.None? || r.Expired(e.value, clock)
  }

  /** The last of these calls was answered so, and counts as an admission exactly if it was let in. */
  ghost predicate Answered(r: Rules, times: seq<int>, allowed: bool) {
    times != [] &&
    var n := |times| - 1;
    var before := Track(r, times[..n]);
    && allowed == r.Next(before.0, times[n]).1
    && Track(r, times).1 == if allowed then before.1 + [Admission(Track(r, times).0.value.start, times[n])] else before.1
  }

  /** The table answers as the recorded calls of the key do. */
  lemma SameAnswer(r: Rules, entries: map<string, Entry>, tracks: map<string, seq<int>>, clock: int, key: string, now: int)
    requires Tracked(r, entries, tracks, clock) && clock <= now
    ensures Answered(r, Calls(tracks, key) + [now], r.Next(if key in entries then Some(entries[key]) else None, now).1)
  {
    var calls := Calls(tracks, key);
    assert (calls + [now])[..|calls|] == calls;
    if key in tracks {
      assert TrackedKey(r, if key in entries then Some(entries[key]) else None, tracks[key], clock);
    }
  }

  lemma TrackOn(r: Rules, before: map<string, Entry>, after: map<string, Entry>, tracks: map<string, seq<int>>,
                clock: int, key: string, now: int)
    requires r.Valid() && Tracked(r, before, tracks, clock) && clock <= now
    requires forall k | k in after && k != key :: k in before && after[k] == before[k]
    requires var e := if key in before then Some(before[key]) else None; key in after && after[key] == r.Next(e, now).0
    ensures Tracked(r, after, TracksAfter(tracks, before, after, r, key, now), now)
  {
    var next := TracksAfter(tracks, before, after, r, key, now);
    forall k | k in next ensures TrackedKey(r, if k in after then Some(after[k]) else None, next[k], now) {
      if k == key {
        assert key in tracks ==> TrackedKey(r, if k in before then Some(before[k]) else None, tracks[key], clock);
        TrackCall(r, if k in before then Some(before[k]) else None, Calls(tracks, key), clock, now);
      } else {
        assert TrackedKey(r, if k in before then Some(before[k]) else None, tracks[k], clock);
        assert r.Next(None, now).0 == Entry(now, 1, now);
      }
    }
  }

  lemma CallIsTracked(r: Rules, before: map<string, Entry>, after: map<string, Entry>, tracks: map<string, seq<int>>,
                      clock: int, key: string, now: int, allowed: bool) returns (next: map<string, seq<int>>)
    requires r.Valid() && Tracked(r, before, tracks, clock) && clock <= now
    requires Moved(r, before, after, key, now, allowed)
    ensures Tracked(r, after, next, now) && Recorded(r, tracks, next, before, after, key, now) && Answered(r, next[key], allowed)
  {
    next := TracksAfter(tracks, before, after, r, key, now);
    SameAnswer(r, before, tracks, clock, key, now);
    TrackOn(r, before, after, tracks, clock, key, now);
    TracksAreRecorded(r, tracks, before, after, key, now);
  }

  lemma TrackCall(r: Rules, entry: Option<Entry>, calls: seq<int>, clock: int, now: int)
    requires r.Valid() && TrackedKey(r, entry, calls, clock) && clock <= now
    ensures TrackedKey(r, Some(r.Next(entry, now).0), calls + [now], now)
  {
    assert (calls + [now])[..|calls|] == calls;
    forall i, j | 0 <= i < j < |calls + [now]| ensures (calls + [now])[i] <= (calls + [now])[j] {
      assert calls[i] in calls;
    }
  }
}
