/** Read-through caching: the order of read, lock, second read, capture, load and write. */
module Remember {
  import opened Wrappers
  import opened TokenHistory
  import opened CacheBackend
  import opened RedisConnector
  import opened FilesystemConnector

  datatype LoadError = LockCancelled | LoaderFailed

  /** The authoritative source behind one caller, and what it has answered to that caller. */
  class Loader {
    var answers: seq<Option<Payload>>

    constructor ()
      ensures answers == []
    {
      answers := [];
    }

    /** A load for a key begins at the moment of the call; others act while it runs. */
    method Load(client: Backend, key: Key) returns (r: Option<Payload>)
      requires client.Valid()
      modifies this, client
      ensures client.Valid() && old(client.log) <= client.log && answers == old(answers) + [r]
      ensures r.Some? ==> r.value.loadedAt == |old(client.log)| && WasLoaded(client.log, key, r.value)
    {
      var bytes: string := *;
      var fails: bool := *;
      var begun := |client.log|;
      client.Others();
      r := None;
      if !fails {
        r := Some(Payload(bytes, begun));
        client.Perform(Loaded(key, r.value));
      }
      answers := answers + [r];
    }
  }

  /** The stores a value can be remembered in. */
  datatype Store = Redis(redis: Connector) | Disk(disk: DiskConnector) {
    function Client(): Backend {
      if Redis? then redis.client else disk.disk
    }

    /** Both connectors capture generations and write entries with the same code. */
    function Writer(): Connector {
      if Redis? then redis else disk.generations
    }

    predicate Ready() {
      Writer().client == Client()
    }
  }

  /** Since `since` the tag was damaged twice, the second time into some token. */
  ghost predicate DamagedSince(conf: Conf, log: seq<Event>, tag: Tag, since: nat) {
    exists t :: DamagedTwice(conf, log, tag, t, since)
  }

  /**
   The value of key `k` reflects everything whose invalidation took effect before moment
   `m`; read from disk, except for tags that were damaged twice since.
   */
  ghost predicate UpToDate(store: Store, conf: Conf, log: seq<Event>, k: Key, value: Payload, m: nat) {
    forall tag | tag in conf.declared(k) ::
      LoadedAfter(conf, log, tag, value.loadedAt, m) || (store.Disk? && DamagedSince(conf, log, tag, m))
  }

  /** What a read may answer, with its reason. */
  ghost predicate Reads(store: Store, conf: Conf, log: seq<Event>, k: Key, r: ReadResult, since: nat, start: nat) {
    if store.Redis? then Answered(conf, log, k, r, since, start) else DiskAnswered(conf, log, k, r, since, start)
  }

  /** A read that began at `since` or later answered so. */
  ghost predicate ReadSince(store: Store, conf: Conf, log: seq<Event>, k: Key, r: ReadResult, since: nat) {
    exists from: nat, start: nat | since <= from <= start :: Reads(store, conf, log, k, r, from, start)
  }

  ghost predicate Served(store: Store, conf: Conf, log: seq<Event>, k: Key, value: Payload, since: nat) {
    ReadSince(store, conf, log, k, Hit(value), since)
  }

  /** Between these moments a read of the key gave no value, for a reason. */
  ghost predicate Unserved(store: Store, conf: Conf, log: seq<Event>, k: Key, since: nat, until: nat) {
    until <= |log| && exists r: ReadResult :: !r.Hit? && ReadSince(store, conf, log[..until], k, r, since)
  }

  /** Two reads gave no value, the second one after the first. */
  ghost predicate UnservedTwice(store: Store, conf: Conf, log: seq<Event>, k: Key, since: nat) {
    exists n: nat, m: nat | n <= m <= |log| :: Unserved(store, conf, log, k, since, n) && Unserved(store, conf, log, k, n, m)
  }

  lemma NowUnserved(store: Store, conf: Conf, read: seq<Event>, log: seq<Event>, k: Key, r: ReadResult, since: nat)
    requires read <= log && !r.Hit? && ReadSince(store, conf, read, k, r, since)
    ensures Unserved(store, conf, log, k, since, |read|)
  {
    assert log[..|read|] == read;
  }

  /** A value served was loaded for the key, and recently enough. */
  lemma ServedIsUpToDate(store: Store, conf: Conf, log: seq<Event>, k: Key, value: Payload, m: nat)
    requires Served(store, conf, log, k, value, m)
    ensures UpToDate(store, conf, log, k, value, m) && WasLoaded(log, k, value)
  {
    var from: nat, start: nat :| m <= from <= start && Reads(store, conf, log, k, Hit(value), from, start);
    if store.Redis? {
      FreshIsUpToDate(store, conf, log, k, value, from, start, m);
    } else {
      DatedIsUpToDate(store, conf, log, k, value, start, m);
    }
  }

  lemma FreshIsUpToDate(store: Store, conf: Conf, log: seq<Event>, k: Key, value: Payload, since: nat, start: nat, m: nat)
    requires FreshHit(conf, log, k, value, since, start) && m <= start
    ensures UpToDate(store, conf, log, k, value, m) && WasLoaded(log, k, value)
  {
    var w: nat, entry: Entry :|
      && w < |log| && log[w] == SetEntry(k, entry) && entry.value == value && value.loadedAt <= w
      && conf.declared(k) <= entry.tags.Keys && WasLoaded(log, k, value) && Live(log, entry, since)
      && forall tag | tag in entry.tags :: LoadedAfter(conf, log, tag, value.loadedAt, start);
  }

  lemma DatedIsUpToDate(store: Store, conf: Conf, log: seq<Event>, k: Key, value: Payload, start: nat, m: nat)
    requires store.Disk? && DatedHit(conf, log, k, value, start) && m <= start
    ensures UpToDate(store, conf, log, k, value, m) && WasLoaded(log, k, value)
  {
    var w: nat, entry: Entry :| DatedEntry(conf, log, k, value, start, w, entry);
    forall tag | tag in conf.declared(k) && !LoadedAfter(conf, log, tag, value.loadedAt, m)
      ensures DamagedSince(conf, log, tag, m)
    {
      assert !LoadedAfter(conf, log, tag, value.loadedAt, start);
      DamagedEarlier(conf, log, tag, entry.tags[tag], start, m);
    }
  }

  lemma DamagedEarlier(conf: Conf, log: seq<Event>, tag: Tag, t: Token, since: nat, earlier: nat)
    requires DamagedTwice(conf, log, tag, t, since) && earlier <= since
    ensures DamagedSince(conf, log, tag, earlier)
  {
    assert DamagedTwice(conf, log, tag, t, earlier);
  }

  method Get(store: Store, key: Key) returns (r: ReadResult)
    requires store.Ready() && store.Client().Valid()
    modifies store.Client()
    ensures store.Client().Valid() && old(store.Client().log) <= store.Client().log
    ensures ReadSince(store, store.Client().conf, store.Client().log, key, r, |old(store.Client().log)|)
  {
    ghost var start;
    if store.Redis? {
      r, start := store.redis.Get(key);
    } else {
      r, start := store.disk.Get(key);
    }
    assert Reads(store, store.Client().conf, store.Client().log, key, r, |old(store.Client().log)|, start);
  }

  /** The value was stored under the tags, unless the store, the context or the arguments prevented it. */
  ghost predicate Kept(log: seq<Event>, key: Key, value: Payload, tags: seq<Tag>, ttl: int, since: nat) {
    || (exists tokens: map<Tag, Token> :: tokens.Keys == (set t | t in tags) && Written(log, key, value, tokens, ttl, since))
    || Happened(log, Outage, since) || Happened(log, Interrupt, since) || GenerationLost(log, since)
    || key == "" || "" in tags || ttl < 0
  }

  /** Some generation was missing at a moment since `since`. */
  ghost predicate GenerationLost(log: seq<Event>, since: nat) {
    exists b, c: nat | since <= c <= |log| :: TokenAfter(log[..c], b) == None
  }

  /** The result of a call that did not ask the source: a value served, or a cancelled wait for the load lock. */
  ghost predicate NotAsked(store: Store, conf: Conf, log: seq<Event>, key: Key, r: Result<Payload, LoadError>, since: nat) {
    match r
    case Success(value) => Served(store, conf, log, key, value, since)
    case Failure(error) => error == LockCancelled && Happened(log, Interrupt, since)
  }

  /**
   `RememberJSONWithOptions`. A value that the cache serves is returned at once, and the
   source is asked at most once, after two reads that gave no value. Asked, it decides: its value is returned as it is, and
   stored unless something prevented that; its failure is the answer. Whatever path is
   taken, the value returned was loaded for this key after every invalidation of its
   declared tags that took effect before the call, on disk up to tags damaged twice
   during the call.
   */
  method RememberJSON(store: Store, loader: Loader, key: Key, tags: seq<Tag>, ttl: string -> int)
    returns (r: Result<Payload, LoadError>)
    requires store.Ready() && store.Client().Valid() && store.Client().conf.declared(key) <= (set t | t in tags)
    modifies store.Client(), loader
    ensures store.Client().Valid() && old(store.Client().log) <= store.Client().log
    ensures r.Success? ==> UpToDate(store, store.Client().conf, store.Client().log, key, r.value, |old(store.Client().log)|)
    ensures r.Success? ==> WasLoaded(store.Client().log, key, r.value)
    ensures loader.answers == old(loader.answers) || loader.answers == old(loader.answers) + [
              if r.Success? then Some(r.value) else None]
    ensures loader.answers == old(loader.answers) ==>
              NotAsked(store, store.Client().conf, store.Client().log, key, r, |old(store.Client().log)|)
    ensures loader.answers != old(loader.answers) ==>
              UnservedTwice(store, store.Client().conf, store.Client().log, key, |old(store.Client().log)|)
    ensures loader.answers != old(loader.answers) && r.Failure? ==> r.error == LoaderFailed
    ensures loader.answers != old(loader.answers) && r.Success? ==>
              Kept(store.Client().log, key, r.value, tags, ttl(r.value.bytes), |old(store.Client().log)|)
  {
    var client := store.Client();
    ghost var m := |client.log|;
    var first := Get(store, key);
    if first.Hit? {
      ServedIsUpToDate(store, client.conf, client.log, key, first.value, m);
      return Success(first.value);
    }
    ghost var missed := client.log;
    client.Others(); // waiting for the load lock of the key
    var cancelled := client.Interrupted();
    if cancelled { return Failure(LockCancelled); }
    ghost var locked := |client.log|;
    var second := Get(store, key);
    if second.Hit? {
      ReadLater(store, client.conf, client.log, key, second, locked, m);
      ServedIsUpToDate(store, client.conf, client.log, key, second.value, m);
      return Success(second.value);
    }
    ghost var missedAgain := client.log;
    r := Fill(store, loader, key, tags, ttl, m);
    NowUnserved(store, client.conf, missed, client.log, key, first, m);
    ReadLater(store, client.conf, missedAgain, key, second, locked, |missed|);
    NowUnserved(store, client.conf, missedAgain, client.log, key, second, |missed|);
  }

  lemma ReadLater(store: Store, conf: Conf, log: seq<Event>, k: Key, r: ReadResult, later: nat, since: nat)
    requires ReadSince(store, conf, log, k, r, later) && since <= later
    ensures ReadSince(store, conf, log, k, r, since)
  {
    var from: nat, start: nat :| later <= from <= start && Reads(store, conf, log, k, r, from, start);
  }

  /** Captures the generations, loads, and stores what was loaded. */
  method Fill(store: Store, loader: Loader, key: Key, tags: seq<Tag>, ttl: string -> int, ghost m: nat)
    returns (r: Result<Payload, LoadError>)
    requires store.Ready() && store.Client().Valid() && store.Client().conf.declared(key) <= (set t | t in tags)
    requires m <= |store.Client().log|
    modifies store.Client(), loader
    ensures store.Client().Valid() && old(store.Client().log) <= store.Client().log
    ensures loader.answers == old(loader.answers) + [if r.Success? then Some(r.value) else None]
    ensures r.Success? ==> UpToDate(store, store.Client().conf, store.Client().log, key, r.value, m)
    ensures r.Success? ==> WasLoaded(store.Client().log, key, r.value)
    ensures r.Success? ==> Kept(store.Client().log, key, r.value, tags, ttl(r.value.bytes), m)
    ensures r.Failure? ==> r.error == LoaderFailed
  {
    var client, writer := store.Client(), store.Writer();
    var prepared := writer.Prepare(tags);
    ghost var before := client.log;
    var loaded := loader.Load(client, key);
    if loaded.None? { return Failure(LoaderFailed); }
    var value := loaded.value;
    ghost var loadedLog := client.log;
    if prepared.Success? {
      PreparedGrows(client.conf, before, client.log, prepared.value.tags, |before|, |before|);
      var written := writer.Write(prepared.value, key, value, ttl(value.bytes));
      LoadedGrows(loadedLog, client.log, key, value);
      WriteStores(client.log, key, value, prepared.value.tags, tags, ttl(value.bytes), written, |loadedLog|, m);
    } else {
      PrepareBlamed(client.conf, before, client.log, key, value, tags, ttl(value.bytes), prepared.error, |old(client.log)|, m);
    }
    r := Success(value);
  }

  lemma WriteStores(log: seq<Event>, key: Key, value: Payload, tokens: map<Tag, Token>, tags: seq<Tag>, ttl: int,
                    written: Result<(), CacheError>, later: nat, since: nat)
    requires since <= later && tokens.Keys == (set t | t in tags)
    requires if written.Success? then Written(log, key, value, tokens, ttl, later)
             else (written.error == InvalidTTL && ttl < 0) || Blamed(log, key, written.error, later)
    ensures Kept(log, key, value, tags, ttl, since)
  {
    if written.Success? {
      var w: nat :| WrittenAt(log, w, key, value, tokens, ttl, later);
      assert WrittenAt(log, w, key, value, tokens, ttl, since);
    } else if Blamed(log, key, written.error, later) {
      BlamedSince(log, key, written.error, later, since);
    }
  }

  lemma PrepareBlamed(conf: Conf, log: seq<Event>, longer: seq<Event>, key: Key, value: Payload, tags: seq<Tag>, ttl: int,
                      error: CacheError, later: nat, since: nat)
    requires log <= longer && since <= later && TagBlamed(conf, log, (set t | t in tags), error, later)
    ensures Kept(longer, key, value, tags, ttl, since)
  {
    TagBlamedGrows(conf, log, longer, (set t | t in tags), error, later, since);
    if error.Lost? {
      var tag, c: nat :| tag in tags && since <= c <= |longer| && TokenAfter(longer[..c], conf.bucketOf(tag)) == None;
    }
  }
}
