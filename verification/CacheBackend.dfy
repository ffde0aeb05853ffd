/**
 A backend shared by several processes. Each of its commands first lets the
 other processes act: any number of commands that `Allowed` permits, in any
 order. A write that fails may still have taken effect, or take effect later
 (as one of the commands of the others).
 */
module CacheBackend {
  import opened Wrappers
  import opened TokenHistory

  /** The reply to a read: a value, no value, or a transport failure. */
  datatype Reply<+T> = Found(value: T) | Missing | Failed

  class Backend {
    const conf: Conf
    var entries: map<Key, Stored>
    var tokens: map<Bucket, Raw>
    var clock: int
    var log: seq<Event>

    ghost predicate Valid()
      reads this
    {
      WellFormed(conf, log) && Store(entries, tokens, clock) == StoreAfter(log)
    }

    constructor (conf: Conf)
      ensures Valid() && this.conf == conf && log == []
    {
      this.conf := conf;
      entries, tokens, clock, log := map[], map[], 0, [];
    }

    method Perform(e: Event)
      requires Valid() && Allowed(conf, log, e)
      modifies this
      ensures Valid() && log == old(log) + [e]
    {
      WellFormedExtend(conf, log, e);
      var s := Do(Store(entries, tokens, clock), e);
      entries, tokens, clock, log := s.entries, s.tokens, s.clock, log + [e];
    }

    /** The other processes run, for as long as they like. */
    method Others()
      requires Valid()
      modifies this
      ensures Valid() && old(log) <= log
    {
      var n: nat := *;
      while n > 0
        invariant Valid() && old(log) <= log
      {
        var e: Event := *;
        if Allowed(conf, log, e) {
          Perform(e);
        }
        n := n - 1;
      }
    }

    /** A command that fails leaves a trace in the history. */
    method Fails() returns (fails: bool)
      requires Valid()
      modifies this
      ensures Valid() && old(log) <= log && StoreAfter(log) == StoreAfter(old(log))
      ensures if fails then Happened(log, Outage, |old(log)|) else log == old(log)
    {
      fails := *;
      if fails {
        Perform(Outage);
      }
    }

    /** `ctx.Err() != nil`. */
    method Interrupted() returns (cancelled: bool)
      requires Valid()
      modifies this
      ensures Valid() && old(log) <= log && StoreAfter(log) == StoreAfter(old(log))
      ensures if cancelled then Happened(log, Interrupt, |old(log)|) else log == old(log)
    {
      cancelled := *;
      if cancelled {
        Perform(Interrupt);
      }
    }

    /** Reads the clock. Time passes, and others act, before that. */
    method Now() returns (now: int)
      requires Valid()
      modifies this
      ensures Valid() && old(log) <= log && now == ClockAfter(log)
    {
      Others();
      now := clock;
    }

    method GetToken(b: Bucket) returns (r: Reply<Raw>)
      requires Valid()
      modifies this
      ensures Valid() && old(log) <= log
      ensures r.Found? ==> TokenAfter(log, b) == Some(r.value)
      ensures r.Missing? ==> TokenAfter(log, b) == None
      ensures r.Failed? ==> Happened(log, Outage, |old(log)|)
    {
      Others();
      var fails := Fails();
      if fails {
        return Failed;
      }
      r := if b in tokens then Found(tokens[b]) else Missing;
    }

    method GetEntry(k: Key) returns (r: Reply<Stored>)
      requires Valid()
      modifies this
      ensures Valid() && old(log) <= log
      ensures r.Found? ==> k in StoreAfter(log).entries && StoreAfter(log).entries[k] == r.value
      ensures r.Missing? ==> k !in StoreAfter(log).entries
      ensures r.Failed? ==> Happened(log, Outage, |old(log)|)
    {
      Others();
      var fails := Fails();
      if fails {
        return Failed;
      }
      r := if k in entries then Found(entries[k]) else Missing;
    }

    /** Stores a freshly drawn token. A draw that repeats a used token counts as a failure. */
    method SetFreshToken(b: Bucket) returns (ok: bool)
      requires Valid()
      modifies this
      ensures Valid() && old(log) <= log
      ensures ok ==> |old(log)| < |log| && log[|log| - 1].SetToken? && log[|log| - 1].bucket == b
      ensures !ok ==> Happened(log, Outage, |old(log)|)
    {
      Others();
      var token: Token := *;
      var arrives: bool := *;
      if !arrives || Used(log, token) {
        Perform(Outage);
        return false;
      }
      Perform(SetToken(b, token));
      var fails := Fails();
      ok := !fails;
    }

    method PutEntry(k: Key, entry: Entry) returns (ok: bool)
      requires Valid() && Allowed(conf, log, SetEntry(k, entry))
      modifies this
      ensures Valid() && old(log) <= log
      ensures ok ==> |old(log)| < |log| && log[|log| - 1] == SetEntry(k, entry)
      ensures !ok ==> Happened(log, Outage, |old(log)|)
    {
      Others();
      var arrives: bool := *;
      if !arrives {
        Perform(Outage);
        return false;
      }
      LateWriteAllowed(conf, old(log), log, k, entry);
      Perform(SetEntry(k, entry));
      var fails := Fails();
      ok := !fails;
    }

    method DeleteEntry(k: Key)
      requires Valid()
      modifies this
      ensures Valid() && old(log) <= log
      ensures Happened(log, DropEntry(k), |old(log)|) || Happened(log, Outage, |old(log)|)
    {
      Others();
      var arrives: bool := *;
      Perform(if arrives then DropEntry(k) else Outage);
    }
  }

  /** The entry has no expiry, or the clock had not reached it at some moment since `since`. */
  ghost predicate Live(log: seq<Event>, entry: Entry, since: nat) {
    entry.expiresAt <= 0 || exists c: nat | since <= c <= |log| :: ClockAfter(log[..c]) < entry.expiresAt
  }

  lemma LiveGrows(log: seq<Event>, longer: seq<Event>, entry: Entry, since: nat)
    requires log <= longer && Live(log, entry, since)
    ensures Live(longer, entry, since)
  {
    if entry.expiresAt > 0 {
      var c: nat :| since <= c <= |log| && ClockAfter(log[..c]) < entry.expiresAt;
      PrefixOfPrefix(log, longer, c);
    }
  }

  /**
   A value served from the cache under key `k` by a read that began at `since` and
   checked from moment `m`: it was loaded for that key and stored with tags that include
   the declared ones, it had not expired, and for each of its tags its load began after
   every invalidation that took effect before `m`.
   */
  ghost predicate FreshHit(conf: Conf, log: seq<Event>, k: Key, value: Payload, since: nat, m: nat) {
    exists w: nat, entry: Entry ::
      && w < |log| && log[w] == SetEntry(k, entry) && entry.value == value && value.loadedAt <= w
      && conf.declared(k) <= entry.tags.Keys && WasLoaded(log, k, value) && Live(log, entry, since)
      && forall tag | tag in entry.tags :: LoadedAfter(conf, log, tag, value.loadedAt, m)
  }

  /** An entry found in the backend, together with what its writer guaranteed. */
  ghost predicate Legitimate(conf: Conf, log: seq<Event>, k: Key, entry: Entry) {
    && Allowed(conf, log, SetEntry(k, entry))
    && exists w: nat :: w < |log| && log[w] == SetEntry(k, entry) && entry.value.loadedAt <= w
  }

  lemma LegitimateGrows(conf: Conf, log: seq<Event>, longer: seq<Event>, k: Key, entry: Entry)
    requires log <= longer && Legitimate(conf, log, k, entry)
    ensures Legitimate(conf, longer, k, entry)
  {
    LateWriteAllowed(conf, log, longer, k, entry);
    var w: nat :| w < |log| && log[w] == SetEntry(k, entry) && entry.value.loadedAt <= w;
    assert longer[w] == log[w];
  }

  lemma {:induction false} StoredIsLegitimate(conf: Conf, log: seq<Event>, k: Key)
    requires WellFormed(conf, log)
    requires k in StoreAfter(log).entries && StoreAfter(log).entries[k].Encoded?
    ensures Legitimate(conf, log, k, StoreAfter(log).entries[k].entry)
    decreases |log|
  {
    var n := |log| - 1;
    var entry := StoreAfter(log).entries[k].entry;
    StoredIsAllowed(conf, log, k);
    if log[n] == SetEntry(k, entry) {
      assert Allowed(conf, log[..n], log[n]);
    } else {
      WellFormedPrefix(conf, log, n);
      StoredIsLegitimate(conf, log[..n], k);
      LegitimateGrows(conf, log[..n], log, k, entry);
    }
  }
}
