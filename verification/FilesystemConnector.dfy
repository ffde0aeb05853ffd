/** The filesystem connector: the same token protocol over overwritable objects, one tag at a time. */
module FilesystemConnector {
  import opened Wrappers
  import opened TokenHistory
  import opened CacheBackend
  import opened RedisConnector

  /** For every tag in `tags`, the load came after each invalidation before `start`, unless the tag was damaged twice since. */
  ghost predicate Dated(conf: Conf, log: seq<Event>, entry: Entry, tags: set<Tag>, start: nat) {
    forall t | t in tags && t in entry.tags ::
      LoadedAfter(conf, log, t, entry.value.loadedAt, start) || DamagedTwice(conf, log, t, entry.tags[t], start)
  }

  lemma DatedGrows(conf: Conf, log: seq<Event>, longer: seq<Event>, entry: Entry, tags: set<Tag>, start: nat)
    requires log <= longer && start <= |log| && Dated(conf, log, entry, tags, start)
    ensures Dated(conf, longer, entry, tags, start)
  {
    forall t | t in tags && t in entry.tags && !LoadedAfter(conf, longer, t, entry.value.loadedAt, start)
      ensures DamagedTwice(conf, longer, t, entry.tags[t], start)
    {
      DamagedTwiceGrows(conf, log, longer, t, entry.tags[t], start);
    }
  }

  /** One more tag, whose captured token `tagToken` just answered. */
  lemma Confirm(conf: Conf, log: seq<Event>, longer: seq<Event>, key: Key, entry: Entry, checked: set<Tag>, tag: Tag, start: nat)
    requires WellFormed(conf, longer) && log <= longer && entry.value.loadedAt <= start <= |log|
    requires Legitimate(conf, log, key, entry) && Dated(conf, log, entry, checked, start)
    requires tag in entry.tags && Answers(conf, longer, tag, |log|, entry.tags[tag])
    ensures Legitimate(conf, longer, key, entry)
    ensures Dated(conf, longer, entry, checked + {tag}, start)
  {
    LegitimateGrows(conf, log, longer, key, entry);
    DatedGrows(conf, log, longer, entry, checked, start);
    AnswersSince(conf, longer, tag, |log|, start, entry.tags[tag]);
    ConfirmedTokenDatesLoad(conf, longer, tag, entry.tags[tag], entry.value.loadedAt, start);
  }

  lemma AnswersSince(conf: Conf, log: seq<Event>, tag: Tag, since: nat, earlier: nat, t: Token)
    requires Answers(conf, log, tag, since, t) && earlier <= since
    ensures Answers(conf, log, tag, earlier, t)
  {
  }

  /**
   A value served under key `k` after a check that began at `start`: it was loaded for that
   key and stored with tags that include the declared ones, it had not expired, and its load
   began after every invalidation of its tags before `start`, except of tags that were damaged
   twice during the check.
   */
  ghost predicate DatedHit(conf: Conf, log: seq<Event>, k: Key, value: Payload, start: nat) {
    exists w: nat, entry: Entry :: DatedEntry(conf, log, k, value, start, w, entry)
  }

  ghost predicate DatedEntry(conf: Conf, log: seq<Event>, k: Key, value: Payload, start: nat, w: nat, entry: Entry) {
    && w < |log| && log[w] == SetEntry(k, entry) && entry.value == value && value.loadedAt <= w
    && conf.declared(k) <= entry.tags.Keys && WasLoaded(log, k, value) && Live(log, entry, start)
    && Dated(conf, log, entry, entry.tags.Keys, start)
  }

  lemma DatedHitIntro(conf: Conf, log: seq<Event>, key: Key, entry: Entry, start: nat)
    requires Legitimate(conf, log, key, entry) && Live(log, entry, start) && Dated(conf, log, entry, entry.tags.Keys, start)
    ensures DatedHit(conf, log, key, entry.value, start)
  {
    var w: nat :| w < |log| && log[w] == SetEntry(key, entry) && entry.value.loadedAt <= w;
    assert DatedEntry(conf, log, key, entry.value, start, w, entry);
  }

  /** No bucket was damaged since the check began. */
  ghost predicate Undamaged(log: seq<Event>, start: nat) {
    forall i: nat | start <= i < |log| :: !log[i].CorruptToken?
  }

  /** Without damage during the check a hit is as fresh as one of the Redis connector. */
  lemma UndamagedHitIsFresh(conf: Conf, log: seq<Event>, key: Key, value: Payload, start: nat)
    requires DatedHit(conf, log, key, value, start) && Undamaged(log, start)
    ensures FreshHit(conf, log, key, value, start, start)
  {
    var w: nat, entry: Entry :| DatedEntry(conf, log, key, value, start, w, entry);
    forall t | t in entry.tags ensures LoadedAfter(conf, log, t, value.loadedAt, start) {
      assert !DamagedTwice(conf, log, t, entry.tags[t], start);
    }
  }

  /** One of the entry's generations could not be read from its bucket at some moment since `since`. */
  ghost predicate Moved(conf: Conf, log: seq<Event>, entry: Entry, since: nat) {
    exists tag, m: nat | tag in entry.tags && since <= m <= |log| :: !Captured(log, conf.bucketOf(tag), entry.tags[tag], m)
  }

  lemma MovedGrows(conf: Conf, log: seq<Event>, longer: seq<Event>, entry: Entry, since: nat)
    requires log <= longer && Moved(conf, log, entry, since)
    ensures Moved(conf, longer, entry, since)
  {
    var tag, m: nat :| tag in entry.tags && since <= m <= |log| && !Captured(log, conf.bucketOf(tag), entry.tags[tag], m);
    PrefixOfPrefix(log, longer, m);
    assert !Captured(longer, conf.bucketOf(tag), entry.tags[tag], m);
  }

  /** Why the check of an entry misses: it had expired, or one of its generations had moved. */
  ghost predicate RefusedEntry(conf: Conf, log: seq<Event>, entry: Entry, start: nat) {
    Expired(log, entry, start) || Moved(conf, log, entry, start)
  }

  /** Why a read misses: there was no entry, or the one seen was refused. */
  ghost predicate MissReason(conf: Conf, log: seq<Event>, key: Key, since: nat, start: nat) {
    AbsentSince(log, key, since) || exists entry :: SeenAt(log, key, entry, since) && RefusedEntry(conf, log, entry, start)
  }

  /** A failure of a key's read, or of the generations of the entry seen. */
  ghost predicate DiskBlamed(conf: Conf, log: seq<Event>, key: Key, error: CacheError, since: nat) {
    || Blamed(log, key, error, since)
    || exists entry :: SeenAt(log, key, entry, since) && TagBlamed(conf, log, entry.tags.Keys, error, since)
  }

  /** Every answer of the filesystem connector has its reason. */
  ghost predicate DiskAnswered(conf: Conf, log: seq<Event>, key: Key, r: ReadResult, since: nat, start: nat) {
    match r
    case Hit(value) => DatedHit(conf, log, key, value, start)
    case Miss => MissReason(conf, log, key, since, start)
    case Corrupt => GarbledSince(log, key, since)
    case Fault(error) => DiskBlamed(conf, log, key, error, since)
  }

  lemma TagBlamedGrows(conf: Conf, log: seq<Event>, longer: seq<Event>, tags: set<Tag>, error: CacheError, later: nat, since: nat)
    requires log <= longer && since <= later && TagBlamed(conf, log, tags, error, later)
    ensures TagBlamed(conf, longer, tags, error, since)
  {
    match error
    case Cancelled => HappenedEarlier(log, longer, Interrupt, later, since);
    case Backend => HappenedEarlier(log, longer, Outage, later, since);
    case Lost =>
      var tag, c: nat :| tag in tags && later <= c <= |log| && TokenAfter(log[..c], conf.bucketOf(tag)) == None;
      PrefixOfPrefix(log, longer, c);
      assert TokenAfter(longer[..c], conf.bucketOf(tag)) == None;
    case _ =>
  }

  lemma HappenedEarlier(log: seq<Event>, longer: seq<Event>, e: Event, later: nat, since: nat)
    requires log <= longer && since <= later && Happened(log, e, later)
    ensures Happened(longer, e, since)
  {
    HappenedGrows(log, longer, e, later);
    var i: nat :| later <= i < |longer| && longer[i] == e;
  }

  lemma RefusedEntryGrows(conf: Conf, log: seq<Event>, longer: seq<Event>, entry: Entry, start: nat)
    requires log <= longer && RefusedEntry(conf, log, entry, start)
    ensures RefusedEntry(conf, longer, entry, start)
  {
    if Expired(log, entry, start) {
      ExpiredGrows(log, longer, entry, start);
    } else {
      MovedGrows(conf, log, longer, entry, start);
    }
  }

  /** What the check of an entry that was read at moment `start` answered, when the read returns later. */
  lemma CheckedIsAnswered(conf: Conf, read: seq<Event>, log: seq<Event>, longer: seq<Event>, key: Key, stored: Stored,
                          r: ReadResult, since: nat)
    requires since <= |read| && read <= log <= longer
    requires key in StoreAfter(read).entries && StoreAfter(read).entries[key] == stored
    requires !r.Hit? && CheckedSo(conf, log, key, stored, r, |read|)
    ensures DiskAnswered(conf, longer, key, r, since, |read|)
  {
    assert read[..|read|] == read;
    if stored.Garbled? {
      assert IsGarbled(StoreAfter(read[..|read|]), key);
      GarbledGrows(read, longer, key, since);
    } else if r.Miss? {
      assert HasEntry(StoreAfter(read[..|read|]), key, stored.entry);
      SeenGrows(read, longer, key, stored.entry, since);
      RefusedEntryGrows(conf, log, longer, stored.entry, |read|);
    } else {
      assert HasEntry(StoreAfter(read[..|read|]), key, stored.entry);
      SeenGrows(read, longer, key, stored.entry, since);
      TagBlamedGrows(conf, log, longer, stored.entry.tags.Keys, r.error, |read|, since);
    }
  }

  /** The answers that the check of a stored object, begun at `start`, may give. */
  ghost predicate CheckedSo(conf: Conf, log: seq<Event>, key: Key, stored: Stored, r: ReadResult, start: nat) {
    if stored.Garbled? then r.Corrupt?
    else
      match r
      case Hit(value) => value == stored.entry.value && DatedHit(conf, log, key, value, start)
      case Miss => RefusedEntry(conf, log, stored.entry, start)
      case Corrupt => false
      case Fault(error) => TagBlamed(conf, log, stored.entry.tags.Keys, error, start)
  }

  /** Why the check of an entry stops at a tag. */
  ghost predicate StoppedSo(conf: Conf, log: seq<Event>, entry: Entry, r: ReadResult, start: nat) {
    match r
    case Miss => Moved(conf, log, entry, start)
    case Fault(error) => TagBlamed(conf, log, entry.tags.Keys, error, start)
    case _ => false
  }

  lemma TagBlamedWider(conf: Conf, log: seq<Event>, tags: set<Tag>, more: set<Tag>, error: CacheError, since: nat)
    requires TagBlamed(conf, log, tags, error, since) && tags <= more
    ensures TagBlamed(conf, log, more, error, since)
  {
  }

  /** Token reads, token creation and prepared writes follow the same code as in the Redis connector. */
  class DiskConnector {
    const disk: Backend
    const generations: Connector

    constructor (disk: Backend)
      ensures this.disk == disk && generations.client == disk
    {
      this.disk := disk;
      generations := new Connector(disk);
    }

    /** Compares one tag's current generation, created if missing, with the one in the entry. */
    method CheckTag(key: Key, entry: Entry, tag: Tag, ghost checked: set<Tag>, ghost start: nat) returns (stop: Option<ReadResult>)
      requires disk.Valid() && generations.client == disk && tag in entry.tags
      requires entry.value.loadedAt <= start <= |disk.log|
      requires Legitimate(disk.conf, disk.log, key, entry) && Dated(disk.conf, disk.log, entry, checked, start)
      modifies disk
      ensures disk.Valid() && old(disk.log) <= disk.log
      ensures stop.Some? ==> StoppedSo(disk.conf, disk.log, entry, stop.value, start)
      ensures stop.None? ==> Legitimate(disk.conf, disk.log, key, entry)
      ensures stop.None? ==> Answers(disk.conf, disk.log, tag, |old(disk.log)|, entry.tags[tag])
      ensures stop.None? ==> Dated(disk.conf, disk.log, entry, checked + {tag}, start)
    {
      ghost var before := disk.log;
      var current := generations.TagToken(tag);
      if current.Failure? {
        TagBlamedGrows(disk.conf, disk.log, disk.log, {tag}, current.error, |before|, start);
        TagBlamedWider(disk.conf, disk.log, {tag}, entry.tags.Keys, current.error, start);
        return Some(Fault(current.error));
      }
      if current.value != entry.tags[tag] {
        assert !Captured(disk.log, disk.conf.bucketOf(tag), entry.tags[tag], |disk.log|);
        return Some(Miss);
      }
      Confirm(disk.conf, before, disk.log, key, entry, checked, tag, start);
      stop := None;
    }

    /** Checks the tags of an entry one after the other. */
    method CheckTags(key: Key, entry: Entry, ghost start: nat) returns (stop: Option<ReadResult>)
      requires disk.Valid() && generations.client == disk
      requires Legitimate(disk.conf, disk.log, key, entry) && entry.value.loadedAt <= start <= |disk.log|
      modifies disk
      ensures disk.Valid() && old(disk.log) <= disk.log
      ensures stop.Some? ==> StoppedSo(disk.conf, disk.log, entry, stop.value, start)
      ensures stop.None? ==> Legitimate(disk.conf, disk.log, key, entry)
      ensures stop.None? ==> Dated(disk.conf, disk.log, entry, entry.tags.Keys, start)
    {
      ghost var checked: set<Tag> := {};
      var rest := entry.tags.Keys;
      while rest != {}
        invariant rest <= entry.tags.Keys <= rest + checked
        invariant disk.Valid() && old(disk.log) <= disk.log && Legitimate(disk.conf, disk.log, key, entry)
        invariant Dated(disk.conf, disk.log, entry, checked, start)
        decreases |rest|
      {
        var tag :| tag in rest;
        stop := CheckTag(key, entry, tag, checked, start);
        if stop.Some? { return; }
        rest, checked := rest - {tag}, checked + {tag};
      }
      stop := None;
    }

    /** Checks an entry that was just read. */
    method ValidEntry(key: Key, stored: Stored) returns (r: ReadResult)
      requires disk.Valid() && generations.client == disk
      requires stored.Encoded? ==>
        Legitimate(disk.conf, disk.log, key, stored.entry) && stored.entry.value.loadedAt <= |disk.log|
      modifies disk
      ensures disk.Valid() && old(disk.log) <= disk.log
      ensures CheckedSo(disk.conf, disk.log, key, stored, r, |old(disk.log)|)
    {
      if stored.Garbled? { return Corrupt; }
      var entry := stored.entry;
      if entry.expiresAt > 0 {
        var now := disk.Now();
        assert disk.log[..|disk.log|] == disk.log;
        LegitimateGrows(disk.conf, old(disk.log), disk.log, key, entry);
        if now >= entry.expiresAt {
          assert Expired(disk.log, entry, |old(disk.log)|);
          return Miss;
        }
        assert Live(disk.log, entry, |old(disk.log)|);
      }
      r := CheckLive(key, entry, |old(disk.log)|);
    }

    method CheckLive(key: Key, entry: Entry, ghost start: nat) returns (r: ReadResult)
      requires disk.Valid() && generations.client == disk
      requires Legitimate(disk.conf, disk.log, key, entry) && entry.value.loadedAt <= start <= |disk.log|
      requires Live(disk.log, entry, start)
      modifies disk
      ensures disk.Valid() && old(disk.log) <= disk.log
      ensures CheckedSo(disk.conf, disk.log, key, Encoded(entry), r, start)
    {
      ghost var before := disk.log;
      var stop := CheckTags(key, entry, start);
      if stop.Some? { return stop.value; }
      LiveGrows(before, disk.log, entry, start);
      DatedHitIntro(disk.conf, disk.log, key, entry, start);
      r := Hit(entry.value);
    }

    /** A read of one key. An entry that is not served is deleted, whatever the reason. */
    method Get(key: Key) returns (r: ReadResult, ghost start: nat)
      requires disk.Valid() && generations.client == disk
      modifies disk
      ensures disk.Valid() && old(disk.log) <= disk.log
      ensures |old(disk.log)| <= start <= |disk.log|
      ensures DiskAnswered(disk.conf, disk.log, key, r, |old(disk.log)|, start)
      ensures r.Hit? && Undamaged(disk.log, start) ==> FreshHit(disk.conf, disk.log, key, r.value, start, start)
      ensures r.Hit? || AbsentSince(disk.log, key, |old(disk.log)|) || Deleted(disk.log, key, |old(disk.log)|)
              || (r.Fault? && Blamed(disk.log, key, r.error, |old(disk.log)|))
    {
      start := |disk.log|;
      var cancelled := disk.Interrupted();
      if cancelled { return Fault(Cancelled), |disk.log|; }
      if key == "" { return Fault(EmptyKey), |disk.log|; }
      var raw := disk.GetEntry(key);
      start := |disk.log|;
      ghost var read := disk.log;
      assert read[..start] == read;
      if raw.Missing? { return Miss, start; }
      if raw.Failed? { return Fault(Backend), start; }
      if raw.value.Encoded? {
        StoredIsLegitimate(disk.conf, disk.log, key);
      }
      r := ValidEntry(key, raw.value);
      if r.Hit? {
        if Undamaged(disk.log, start) {
          UndamagedHitIsFresh(disk.conf, disk.log, key, r.value, start);
        }
        return;
      }
      ghost var checked := disk.log;
      disk.DeleteEntry(key);
      DeletedSince(disk.log, key, |checked|, |old(disk.log)|);
      CheckedIsAnswered(disk.conf, read, checked, disk.log, key, raw.value, r, |old(disk.log)|);
    }
  }

  /** The entry was deleted since, unless the deletion failed. */
  ghost predicate Deleted(log: seq<Event>, key: Key, since: nat) {
    Happened(log, DropEntry(key), since) || Happened(log, Outage, since)
  }

  lemma DeletedSince(log: seq<Event>, key: Key, later: nat, since: nat)
    requires Deleted(log, key, later) && since <= later
    ensures Deleted(log, key, since)
  {
    HappenedEarlier(log, log, if Happened(log, DropEntry(key), later) then DropEntry(key) else Outage, later, since);
  }
}
