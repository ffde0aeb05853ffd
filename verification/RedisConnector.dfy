/** The Redis connector: prepared writes, tag invalidation and batched reads. */
module RedisConnector {
  import opened Wrappers
  import opened TokenHistory
  import opened CacheBackend

  datatype CacheError = Cancelled | EmptyKey | EmptyTag | InvalidTTL | Backend | Lost

  datatype ReadResult = Hit(value: Payload) | Miss | Corrupt | Fault(error: CacheError)

  /** The tokens observed before an authoritative read, waiting for its result. */
  datatype PreparedSet = PreparedSet(tags: map<Tag, Token>)

  /** Each token was read at the moment `readAt` gives, not before `start`. */
  ghost predicate TokensRead(log: seq<Event>, tokens: map<Bucket, Reply<Raw>>, readAt: map<Bucket, nat>, start: nat) {
    && tokens.Keys == readAt.Keys
    && forall b | b in tokens ::
      && start <= readAt[b] <= |log|
      && (tokens[b].Found? ==> TokenAfter(log[..readAt[b]], b) == Some(tokens[b].value))
      && (tokens[b].Missing? ==> TokenAfter(log[..readAt[b]], b) == None)
      && (tokens[b].Failed? ==> Happened(log, Outage, start))
  }

  ghost predicate AllLegitimate(conf: Conf, log: seq<Event>, entries: map<Key, Entry>, start: nat) {
    forall k {:trigger Legitimate(conf, log, k, entries[k])} | k in entries ::
      Legitimate(conf, log, k, entries[k]) && entries[k].value.loadedAt <= start
  }

  lemma AllLegitimateGrow(conf: Conf, log: seq<Event>, longer: seq<Event>, entries: map<Key, Entry>, start: nat)
    requires AllLegitimate(conf, log, entries, start) && log <= longer
    ensures AllLegitimate(conf, longer, entries, start)
  {
    forall k | k in entries ensures Legitimate(conf, longer, k, entries[k]) && entries[k].value.loadedAt <= start {
      assert Legitimate(conf, log, k, entries[k]);
      LegitimateGrows(conf, log, longer, k, entries[k]);
    }
  }

  /** Tags of the entry, and the buckets their tokens live in. */
  predicate BucketsIn(conf: Conf, entry: Entry, buckets: set<Bucket>) {
    forall t | t in entry.tags :: conf.bucketOf(t) in buckets
  }

  function BucketsOf(conf: Conf, entries: map<Key, Entry>): (buckets: set<Bucket>)
    ensures forall k | k in entries :: BucketsIn(conf, entries[k], buckets)
  {
    set k, t | k in entries && t in entries[k].tags :: conf.bucketOf(t)
  }

  lemma MatchDatesLoad(conf: Conf, log: seq<Event>, tag: Tag, entry: Entry, tokens: map<Bucket, Reply<Raw>>,
                       readAt: map<Bucket, nat>, start: nat)
    requires WellFormed(conf, log) && TokensRead(log, tokens, readAt, start)
    requires Prepared(conf, log, entry.tags, entry.value.loadedAt) && entry.value.loadedAt <= start
    requires tag in entry.tags && conf.bucketOf(tag) in tokens && tokens[conf.bucketOf(tag)] == Found(entry.tags[tag])
    ensures LoadedAfter(conf, log, tag, entry.value.loadedAt, start)
  {
    assert CopyToken(entry.tags[tag]) == entry.tags[tag];
    MatchingTokenDatesLoad(conf, log, tag, entry.tags[tag], entry.value.loadedAt, readAt[conf.bucketOf(tag)]);
  }

  lemma FreshHitIntro(conf: Conf, log: seq<Event>, key: Key, entry: Entry, since: nat, start: nat)
    requires Legitimate(conf, log, key, entry) && Live(log, entry, since)
    requires forall tag | tag in entry.tags :: LoadedAfter(conf, log, tag, entry.value.loadedAt, start)
    ensures FreshHit(conf, log, key, entry.value, since, start)
  {
    var w: nat :| w < |log| && log[w] == SetEntry(key, entry) && entry.value.loadedAt <= w;
  }

  lemma AnswersNow(conf: Conf, log: seq<Event>, tag: Tag, since: nat, raw: Raw)
    requires TokenAfter(log, conf.bucketOf(tag)) == Some(raw)
    requires |raw| == TOKEN_SIZE || ReplacedDamage(conf, log, tag, since)
    ensures Answers(conf, log, tag, since, CopyToken(raw))
  {
    assert log[..|log|] == log;
    if |raw| == TOKEN_SIZE {
      CopyKeeps(raw, []);
      assert raw + [] == raw;
    }
  }

  /** The damage seen at the end of one history and the fresh token at the end of the next. */
  lemma DamageReplaced(conf: Conf, damaged: seq<Event>, replaced: seq<Event>, log: seq<Event>, tag: Tag, since: nat)
    requires damaged < replaced <= log && since <= |damaged| && Damaged(TokenAfter(damaged, conf.bucketOf(tag)))
    requires Invalidates(conf, replaced[|replaced| - 1], tag)
    ensures ReplacedDamage(conf, log, tag, since)
  {
    assert log[..|damaged|] == damaged && log[|replaced| - 1] == replaced[|replaced| - 1];
  }

  // ---------------------------------------------------------------- the reasons of an answer

  /** At some moment since `since` there was no entry. */
  ghost predicate AbsentSince(log: seq<Event>, key: Key, since: nat) {
    exists c: nat | since <= c <= |log| :: key !in StoreAfter(log[..c]).entries
  }

  ghost predicate GarbledSince(log: seq<Event>, key: Key, since: nat) {
    exists c: nat | since <= c <= |log| :: IsGarbled(StoreAfter(log[..c]), key)
  }

  ghost predicate IsGarbled(s: Store, key: Key) {
    key in s.entries && s.entries[key] == Garbled
  }

  /** The entry was in the backend at some moment since `since`. */
  ghost predicate SeenAt(log: seq<Event>, key: Key, entry: Entry, since: nat) {
    exists c: nat | since <= c <= |log| :: HasEntry(StoreAfter(log[..c]), key, entry)
  }

  ghost predicate HasEntry(s: Store, key: Key, entry: Entry) {
    key in s.entries && s.entries[key] == Encoded(entry)
  }

  /** The clock had reached the entry's expiry at some moment since `since`. */
  ghost predicate Expired(log: seq<Event>, entry: Entry, since: nat) {
    entry.expiresAt > 0 && exists c: nat | since <= c <= |log| :: entry.expiresAt <= ClockAfter(log[..c])
  }

  ghost predicate ExpiredSince(log: seq<Event>, key: Key, since: nat) {
    exists entry :: SeenAt(log, key, entry, since) && Expired(log, entry, since)
  }

  /** One of the entry's generations was not in place at some moment of the check. */
  ghost predicate Outdated(conf: Conf, log: seq<Event>, entry: Entry, start: nat) {
    exists tag, m: nat | tag in entry.tags && start <= m <= |log| ::
      TokenAfter(log[..m], conf.bucketOf(tag)) != Some(entry.tags[tag])
  }

  /** One of the entry's generations was found damaged at some moment of the check. */
  ghost predicate DamagedTag(conf: Conf, log: seq<Event>, entry: Entry, start: nat) {
    exists tag, m: nat | tag in entry.tags && start <= m <= |log| :: Damaged(TokenAfter(log[..m], conf.bucketOf(tag)))
  }

  ghost predicate MissExplained(conf: Conf, log: seq<Event>, key: Key, since: nat, start: nat) {
    || AbsentSince(log, key, since) || ExpiredSince(log, key, since)
    || exists entry :: SeenAt(log, key, entry, since) && Outdated(conf, log, entry, start)
  }

  ghost predicate CorruptExplained(conf: Conf, log: seq<Event>, key: Key, since: nat, start: nat) {
    GarbledSince(log, key, since) || exists entry :: SeenAt(log, key, entry, since) && DamagedTag(conf, log, entry, start)
  }

  /** What went wrong: the caller's context or input, or a command since `since`. */
  ghost predicate Blamed(log: seq<Event>, key: Key, error: CacheError, since: nat) {
    match error
    case Cancelled => Happened(log, Interrupt, since)
    case EmptyKey => key == ""
    case Backend => Happened(log, Outage, since)
    case _ => false
  }

  /** Every answer has its reason. */
  ghost predicate Answered(conf: Conf, log: seq<Event>, key: Key, r: ReadResult, since: nat, start: nat) {
    match r
    case Hit(value) => FreshHit(conf, log, key, value, since, start)
    case Miss => MissExplained(conf, log, key, since, start)
    case Corrupt => CorruptExplained(conf, log, key, since, start)
    case Fault(error) => Blamed(log, key, error, since)
  }

  predicate Matches(conf: Conf, tokens: map<Bucket, Reply<Raw>>, tag: Tag, expected: Token) {
    var b := conf.bucketOf(tag);
    b in tokens && tokens[b].Found? && tokens[b].value == expected
  }

  /** The first phase has refused the key. */
  ghost predicate Refused(log: seq<Event>, key: Key, r: ReadResult, since: nat) {
    match r
    case Hit(_) => false
    case Miss => AbsentSince(log, key, since) || ExpiredSince(log, key, since)
    case Corrupt => GarbledSince(log, key, since)
    case Fault(error) => Blamed(log, key, error, since)
  }

  ghost predicate AllRefused(log: seq<Event>, result: map<Key, ReadResult>, since: nat) {
    forall k {:trigger Refused(log, k, result[k], since)} | k in result :: Refused(log, k, result[k], since)
  }

  /** The first phase has found an entry that had not expired. */
  ghost predicate Usable(conf: Conf, log: seq<Event>, key: Key, entry: Entry, since: nat) {
    Legitimate(conf, log, key, entry) && SeenAt(log, key, entry, since) && Live(log, entry, since)
  }

  ghost predicate AllSeen(conf: Conf, log: seq<Event>, entries: map<Key, Entry>, since: nat) {
    forall k {:trigger Usable(conf, log, k, entries[k], since)} | k in entries :: Usable(conf, log, k, entries[k], since)
  }

  /** What the check of an entry's generations may answer. */
  ghost predicate Settled(conf: Conf, log: seq<Event>, key: Key, entry: Entry, r: ReadResult, since: nat, start: nat) {
    match r
    case Hit(value) => value == entry.value && FreshHit(conf, log, key, value, since, start)
    case Miss => Outdated(conf, log, entry, start)
    case Corrupt => DamagedTag(conf, log, entry, start)
    case Fault(error) => error == Backend && Happened(log, Outage, start)
  }

  /** Entries that may be compared with the tokens read. */
  ghost predicate Checkable(conf: Conf, log: seq<Event>, entries: map<Key, Entry>, tokens: map<Bucket, Reply<Raw>>,
                            readAt: map<Bucket, nat>, since: nat, start: nat) {
    && WellFormed(conf, log) && TokensRead(log, tokens, readAt, start) && AllLegitimate(conf, log, entries, start)
    && AllSeen(conf, log, entries, since)
    && forall k | k in entries :: BucketsIn(conf, entries[k], tokens.Keys)
  }

  ghost predicate AllSettled(conf: Conf, log: seq<Event>, entries: map<Key, Entry>, result: map<Key, ReadResult>,
                             since: nat, start: nat) {
    forall k {:trigger Settled(conf, log, k, entries[k], result[k], since, start)} | k in result && k in entries ::
      Settled(conf, log, k, entries[k], result[k], since, start)
  }

  lemma SettledMore(conf: Conf, log: seq<Event>, entries: map<Key, Entry>, result: map<Key, ReadResult>,
                    key: Key, r: ReadResult, since: nat, start: nat)
    requires AllSettled(conf, log, entries, result, since, start) && key in entries
    requires Settled(conf, log, key, entries[key], r, since, start)
    ensures AllSettled(conf, log, entries, result[key := r], since, start)
  {
  }

  lemma SeenIsLegitimate(conf: Conf, log: seq<Event>, entries: map<Key, Entry>, since: nat)
    requires AllSeen(conf, log, entries, since)
    ensures AllLegitimate(conf, log, entries, |log|)
  {
    forall k | k in entries ensures Legitimate(conf, log, k, entries[k]) && entries[k].value.loadedAt <= |log| {
      assert Usable(conf, log, k, entries[k], since);
    }
  }

  lemma SeenGrows(log: seq<Event>, longer: seq<Event>, key: Key, entry: Entry, since: nat)
    requires log <= longer && SeenAt(log, key, entry, since)
    ensures SeenAt(longer, key, entry, since)
  {
    var c: nat :| since <= c <= |log| && HasEntry(StoreAfter(log[..c]), key, entry);
    PrefixOfPrefix(log, longer, c);
  }

  lemma ExpiredGrows(log: seq<Event>, longer: seq<Event>, entry: Entry, since: nat)
    requires log <= longer && Expired(log, entry, since)
    ensures Expired(longer, entry, since)
  {
    var c: nat :| since <= c <= |log| && entry.expiresAt <= ClockAfter(log[..c]);
    PrefixOfPrefix(log, longer, c);
  }

  lemma AbsentGrows(log: seq<Event>, longer: seq<Event>, key: Key, since: nat)
    requires log <= longer && AbsentSince(log, key, since)
    ensures AbsentSince(longer, key, since)
  {
    var c: nat :| since <= c <= |log| && key !in StoreAfter(log[..c]).entries;
    PrefixOfPrefix(log, longer, c);
  }

  lemma ExpiredSinceGrows(log: seq<Event>, longer: seq<Event>, key: Key, since: nat)
    requires log <= longer && ExpiredSince(log, key, since)
    ensures ExpiredSince(longer, key, since)
  {
    var entry :| SeenAt(log, key, entry, since) && Expired(log, entry, since);
    SeenGrows(log, longer, key, entry, since);
    ExpiredGrows(log, longer, entry, since);
  }

  lemma GarbledGrows(log: seq<Event>, longer: seq<Event>, key: Key, since: nat)
    requires log <= longer && GarbledSince(log, key, since)
    ensures GarbledSince(longer, key, since)
  {
    var c: nat :| since <= c <= |log| && IsGarbled(StoreAfter(log[..c]), key);
    PrefixOfPrefix(log, longer, c);
  }

  lemma BlamedGrows(log: seq<Event>, longer: seq<Event>, key: Key, error: CacheError, since: nat)
    requires log <= longer && Blamed(log, key, error, since)
    ensures Blamed(longer, key, error, since)
  {
    if error.Cancelled? {
      HappenedGrows(log, longer, Interrupt, since);
    } else if error.Backend? {
      HappenedGrows(log, longer, Outage, since);
    }
  }

  lemma RefusedGrows(log: seq<Event>, longer: seq<Event>, key: Key, r: ReadResult, since: nat)
    requires log <= longer && Refused(log, key, r, since)
    ensures Refused(longer, key, r, since)
  {
    match r
    case Hit(_) =>
    case Miss =>
      if AbsentSince(log, key, since) {
        AbsentGrows(log, longer, key, since);
      } else {
        ExpiredSinceGrows(log, longer, key, since);
      }
    case Corrupt => GarbledGrows(log, longer, key, since);
    case Fault(error) => BlamedGrows(log, longer, key, error, since);
  }

  lemma UsableGrows(conf: Conf, log: seq<Event>, longer: seq<Event>, key: Key, entry: Entry, since: nat)
    requires log <= longer && Usable(conf, log, key, entry, since)
    ensures Usable(conf, longer, key, entry, since)
  {
    LegitimateGrows(conf, log, longer, key, entry);
    SeenGrows(log, longer, key, entry, since);
    LiveGrows(log, longer, entry, since);
  }

  lemma ReadsGrow(conf: Conf, log: seq<Event>, longer: seq<Event>, result: map<Key, ReadResult>, entries: map<Key, Entry>, since: nat)
    requires log <= longer && AllRefused(log, result, since) && AllSeen(conf, log, entries, since)
    ensures AllRefused(longer, result, since) && AllSeen(conf, longer, entries, since)
  {
    forall k | k in result ensures Refused(longer, k, result[k], since) {
      RefusedGrows(log, longer, k, result[k], since);
    }
    forall k | k in entries ensures Usable(conf, longer, k, entries[k], since) {
      UsableGrows(conf, log, longer, k, entries[k], since);
    }
  }

  lemma OneMoreSeen(conf: Conf, log: seq<Event>, entries: map<Key, Entry>, key: Key, entry: Entry, since: nat)
    requires AllSeen(conf, log, entries, since) && Usable(conf, log, key, entry, since)
    ensures AllSeen(conf, log, entries[key := entry], since)
  {
  }

  lemma OneMoreRefused(log: seq<Event>, result: map<Key, ReadResult>, key: Key, r: ReadResult, since: nat)
    requires AllRefused(log, result, since) && Refused(log, key, r, since)
    ensures AllRefused(log, result[key := r], since)
  {
  }

  /** One more answer, after more has happened. */
  lemma ReadMore(conf: Conf, log: seq<Event>, longer: seq<Event>, result: map<Key, ReadResult>, entries: map<Key, Entry>,
                 key: Key, answer: ReadResult, entry: Option<Entry>, since: nat)
    requires log <= longer && AllRefused(log, result, since) && AllSeen(conf, log, entries, since)
    requires if entry.Some? then Usable(conf, longer, key, entry.value, since) else Refused(longer, key, answer, since)
    ensures AllRefused(longer, if entry.Some? then result else result[key := answer], since)
    ensures AllSeen(conf, longer, if entry.Some? then entries[key := entry.value] else entries, since)
  {
    ReadsGrow(conf, log, longer, result, entries, since);
    if entry.Some? {
      OneMoreSeen(conf, longer, entries, key, entry.value, since);
    } else {
      OneMoreRefused(longer, result, key, answer, since);
    }
  }

  /** An entry read at the end of one history and dated by the clock at the end of a longer one. */
  lemma DatedNow(conf: Conf, read: seq<Event>, log: seq<Event>, key: Key, entry: Entry, since: nat)
    requires since <= |read| && read <= log && HasEntry(StoreAfter(read), key, entry) && Legitimate(conf, read, key, entry)
    ensures if entry.expiresAt > 0 && ClockAfter(log) >= entry.expiresAt then Refused(log, key, Miss, since)
            else Usable(conf, log, key, entry, since)
  {
    assert read[..|read|] == read && log[..|log|] == log;
    assert SeenAt(read, key, entry, since);
    SeenGrows(read, log, key, entry, since);
    LegitimateGrows(conf, read, log, key, entry);
    if entry.expiresAt > 0 && ClockAfter(log) >= entry.expiresAt {
      assert Expired(log, entry, since);
    } else {
      assert Live(log, entry, since);
    }
  }

  /** A reply without a usable entry refuses the key. */
  lemma NoEntryNow(log: seq<Event>, key: Key, since: nat)
    requires since <= |log|
    ensures key !in StoreAfter(log).entries ==> Refused(log, key, Miss, since)
    ensures IsGarbled(StoreAfter(log), key) ==> Refused(log, key, Corrupt, since)
  {
    assert log[..|log|] == log;
  }

  lemma SettledIsAnswered(conf: Conf, log: seq<Event>, key: Key, entry: Entry, r: ReadResult, since: nat, start: nat)
    requires Usable(conf, log, key, entry, since) && Settled(conf, log, key, entry, r, since, start) && since <= start
    ensures Answered(conf, log, key, r, since, start)
  {
    if r.Fault? {
      var i: nat :| start <= i < |log| && log[i] == Outage;
    }
  }

  lemma AllAnswered(conf: Conf, log: seq<Event>, result: map<Key, ReadResult>, entries: map<Key, Entry>,
                    checked: map<Key, ReadResult>, since: nat, start: nat)
    requires AllRefused(log, result, since) && AllSeen(conf, log, entries, since) && checked.Keys == entries.Keys
    requires AllSettled(conf, log, entries, checked, since, start) && since <= start
    ensures forall k | k in result + checked :: Answered(conf, log, k, (result + checked)[k], since, start)
  {
    forall k | k in result + checked ensures Answered(conf, log, k, (result + checked)[k], since, start) {
      if k in checked {
        SettledIsAnswered(conf, log, k, entries[k], checked[k], since, start);
      } else {
        assert Refused(log, k, result[k], since);
      }
    }
  }

  lemma OneMoreRead(before: seq<Event>, log: seq<Event>, tokens: map<Bucket, Reply<Raw>>, readAt: map<Bucket, nat>,
                    start: nat, b: Bucket, raw: Reply<Raw>)
    requires before <= log && start <= |before| && TokensRead(before, tokens, readAt, start)
    requires raw.Found? ==> TokenAfter(log, b) == Some(raw.value)
    requires raw.Missing? ==> TokenAfter(log, b) == None
    requires raw.Failed? ==> Happened(log, Outage, |before|)
    ensures TokensRead(log, tokens[b := raw], readAt[b := |log|], start)
  {
    forall c | c in tokens ensures log[..readAt[c]] == before[..readAt[c]] && (tokens[c].Failed? ==> Happened(log, Outage, start)) {
      PrefixOfPrefix(before, log, readAt[c]);
      if tokens[c].Failed? {
        HappenedGrows(before, log, Outage, start);
      }
    }
    assert log[..|log|] == log;
    if raw.Failed? {
      var i: nat :| |before| <= i < |log| && log[i] == Outage;
    }
  }

  /** What went wrong with a tag: the caller's context, an empty tag, a command, or a generation that vanished again. */
  ghost predicate TagBlamed(conf: Conf, log: seq<Event>, tags: set<Tag>, error: CacheError, since: nat) {
    match error
    case Cancelled => Happened(log, Interrupt, since)
    case EmptyTag => "" in tags
    case Lost => exists tag, c: nat | tag in tags && since <= c <= |log| :: TokenAfter(log[..c], conf.bucketOf(tag)) == None
    case Backend => Happened(log, Outage, since)
    case _ => false
  }

  /** The error of a read that found no generation. */
  function Unread(raw: Reply<Raw>): CacheError {
    if raw.Missing? then Lost else Backend
  }

  lemma UnreadBlamed(conf: Conf, log: seq<Event>, tag: Tag, raw: Reply<Raw>, since: nat)
    requires since <= |log| && (raw.Missing? ==> TokenAfter(log, conf.bucketOf(tag)) == None)
    requires raw.Failed? ==> exists later: nat | since <= later :: Happened(log, Outage, later)
    ensures !raw.Found? ==> TagBlamed(conf, log, {tag}, Unread(raw), since)
  {
    if raw.Missing? {
      assert log[..|log|] == log;
    }
  }

  lemma TagBlamedFor(conf: Conf, log: seq<Event>, tags: seq<Tag>, i: nat, error: CacheError, since: nat)
    requires i < |tags| && exists later: nat | since <= later :: TagBlamed(conf, log, {tags[i]}, error, later)
    ensures TagBlamed(conf, log, (set t | t in tags), error, since)
  {
  }

  lemma BlamedSince(log: seq<Event>, key: Key, error: CacheError, later: nat, since: nat)
    requires Blamed(log, key, error, later) && since <= later
    ensures Blamed(log, key, error, since)
  {
  }

  /** At moment `w` the value was stored under these generations, to expire `ttl` after some clock reading since `since`. */
  ghost predicate WrittenAt(log: seq<Event>, w: nat, key: Key, value: Payload, tags: map<Tag, Token>, ttl: int, since: nat) {
    && since <= w < |log| && log[w].SetEntry? && log[w].key == key
    && log[w].entry.value == value && log[w].entry.tags == tags
    && if ttl > 0 then exists c: nat | since <= c <= w :: log[w].entry.expiresAt == ClockAfter(log[..c]) + ttl
       else log[w].entry.expiresAt == 0
  }

  ghost predicate Written(log: seq<Event>, key: Key, value: Payload, tags: map<Tag, Token>, ttl: int, since: nat) {
    exists w: nat :: WrittenAt(log, w, key, value, tags, ttl, since)
  }

  class Connector {
    const client: Backend

    constructor (client: Backend)
      ensures this.client == client
    {
      this.client := client;
    }

    method InvalidateTag(tag: Tag) returns (r: Result<(), CacheError>)
      requires client.Valid()
      modifies client
      ensures client.Valid() && old(client.log) <= client.log
      ensures r.Success? ==>
        |old(client.log)| < |client.log| && Invalidates(client.conf, client.log[|client.log| - 1], tag)
      ensures r.Failure? ==> TagBlamed(client.conf, client.log, {tag}, r.error, |old(client.log)|)
      ensures tag == "" ==> r.Failure? && StoreAfter(client.log) == StoreAfter(old(client.log))
    {
      var cancelled := client.Interrupted();
      if cancelled { return Failure(Cancelled); }
      if tag == "" { return Failure(EmptyTag); }
      var ok := client.SetFreshToken(client.conf.bucketOf(tag));
      r := if ok then Success(()) else Failure(Backend);
    }

    /** Reads a generation, creating it when it is missing or damaged. */
    method TagToken(tag: Tag) returns (r: Result<Token, CacheError>)
      requires client.Valid()
      modifies client
      ensures client.Valid() && old(client.log) <= client.log
      ensures r.Success? ==> Answers(client.conf, client.log, tag, |old(client.log)|, r.value)
      ensures r.Failure? ==> TagBlamed(client.conf, client.log, {tag}, r.error, |old(client.log)|)
    {
      var b := client.conf.bucketOf(tag);
      var raw := client.GetToken(b);
      if raw.Missing? {
        var created := InvalidateTag(tag);
        if created.Failure? { return Failure(created.error); }
        raw := client.GetToken(b);
      }
      UnreadBlamed(client.conf, client.log, tag, raw, |old(client.log)|);
      if !raw.Found? { return Failure(Unread(raw)); }
      r := Measured(tag, raw.value, |old(client.log)|);
    }

    /** Replaces a damaged generation and reads again, once. */
    method Measured(tag: Tag, first: Raw, ghost since: nat) returns (r: Result<Token, CacheError>)
      requires client.Valid() && since <= |client.log|
      requires TokenAfter(client.log, client.conf.bucketOf(tag)) == Some(first)
      modifies client
      ensures client.Valid() && old(client.log) <= client.log
      ensures r.Success? ==> Answers(client.conf, client.log, tag, since, r.value)
      ensures r.Failure? ==> TagBlamed(client.conf, client.log, {tag}, r.error, |old(client.log)|)
    {
      var raw := first;
      if |raw| != TOKEN_SIZE {
        ghost var damaged := client.log;
        var created := InvalidateTag(tag);
        if created.Failure? { return Failure(created.error); }
        ghost var replaced := client.log;
        var again := client.GetToken(client.conf.bucketOf(tag));
        UnreadBlamed(client.conf, client.log, tag, again, |old(client.log)|);
        if !again.Found? { return Failure(Unread(again)); }
        raw := again.value;
        DamageReplaced(client.conf, damaged, replaced, client.log, tag, since);
      }
      AnswersNow(client.conf, client.log, tag, since, raw);
      r := Success(CopyToken(raw));
    }

    method TagTokens(tags: seq<Tag>) returns (r: Result<map<Tag, Token>, CacheError>)
      requires client.Valid()
      modifies client
      ensures client.Valid() && old(client.log) <= client.log
      ensures r.Success? ==> r.value.Keys == (set t | t in tags)
      ensures r.Success? ==> Prepared(client.conf, client.log, r.value, |client.log|)
      ensures r.Failure? ==> TagBlamed(client.conf, client.log, (set t | t in tags), r.error, |old(client.log)|)
    {
      var result: map<Tag, Token> := map[];
      for i := 0 to |tags|
        invariant client.Valid() && old(client.log) <= client.log
        invariant result.Keys == (set t | t in tags[..i])
        invariant Prepared(client.conf, client.log, result, |client.log|)
      {
        assert tags[..i + 1] == tags[..i] + [tags[i]];
        var failure;
        result, failure := AddToken(tags[i], result);
        if failure.Some? {
          TagBlamedFor(client.conf, client.log, tags, i, failure.value, |old(client.log)|);
          return Failure(failure.value);
        }
      }
      assert tags[..|tags|] == tags;
      r := Success(result);
    }

    /** One tag of a preparation, unless it has its token already. */
    method AddToken(tag: Tag, tokens: map<Tag, Token>) returns (result: map<Tag, Token>, failure: Option<CacheError>)
      requires client.Valid() && Prepared(client.conf, client.log, tokens, |client.log|)
      modifies client
      ensures client.Valid() && old(client.log) <= client.log
      ensures failure.None? ==> result.Keys == tokens.Keys + {tag} && Prepared(client.conf, client.log, result, |client.log|)
      ensures failure.Some? ==> TagBlamed(client.conf, client.log, {tag}, failure.value, |old(client.log)|)
    {
      result, failure := tokens, None;
      var cancelled := client.Interrupted();
      if cancelled { return tokens, Some(Cancelled); }
      if tag == "" { return tokens, Some(EmptyTag); }
      if tag in tokens { return; }
      var token := TagToken(tag);
      if token.Failure? { return tokens, Some(token.error); }
      assert CapturedBy(client.log, client.conf.bucketOf(tag), token.value, |client.log|);
      PreparedGrows(client.conf, old(client.log), client.log, tokens, |old(client.log)|, |client.log|);
      result := tokens[tag := token.value];
    }

    method Prepare(dependencies: seq<Tag>) returns (r: Result<PreparedSet, CacheError>)
      requires client.Valid()
      modifies client
      ensures client.Valid() && old(client.log) <= client.log
      ensures r.Success? ==> r.value.tags.Keys == (set t | t in dependencies)
      ensures r.Success? ==> Prepared(client.conf, client.log, r.value.tags, |client.log|)
      ensures r.Failure? ==> TagBlamed(client.conf, client.log, (set t | t in dependencies), r.error, |old(client.log)|)
    {
      var tags := TagTokens(dependencies);
      r := if tags.Success? then Success(PreparedSet(tags.value)) else Failure(tags.error);
    }

    /** The closure returned by `Prepare`. What it needs is that the load began after the capture. */
    method Write(set_: PreparedSet, key: Key, value: Payload, ttl: int) returns (r: Result<(), CacheError>)
      requires client.Valid()
      requires Prepared(client.conf, client.log, set_.tags, value.loadedAt) && WasLoaded(client.log, key, value)
      requires client.conf.declared(key) <= set_.tags.Keys
      modifies client
      ensures client.Valid() && old(client.log) <= client.log
      ensures r.Success? ==> key != "" && ttl >= 0 && Written(client.log, key, value, set_.tags, ttl, |old(client.log)|)
      ensures r.Failure? ==> (r.error == InvalidTTL && ttl < 0) || Blamed(client.log, key, r.error, |old(client.log)|)
    {
      var cancelled := client.Interrupted();
      if cancelled { return Failure(Cancelled); }
      if key == "" { return Failure(EmptyKey); }
      if ttl < 0 { return Failure(InvalidTTL); }
      var expiresAt := 0;
      ghost var dated := client.log;
      if ttl > 0 {
        var now := client.Now();
        expiresAt, dated := now + ttl, client.log;
      }
      var entry := Entry(expiresAt, set_.tags, value);
      LateWriteAllowed(client.conf, old(client.log), client.log, key, Entry(0, set_.tags, value));
      var ok := client.PutEntry(key, entry);
      if !ok { return Failure(Backend); }
      assert client.log[..|dated|] == dated;
      assert WrittenAt(client.log, |client.log| - 1, key, value, set_.tags, ttl, |old(client.log)|);
      r := Success(());
    }

    /** One answer of the first pipeline: an entry that exists, decodes and has not expired, or the reason why not. */
    method ReadOne(key: Key, ghost since: nat) returns (r: ReadResult, entry: Option<Entry>)
      requires client.Valid() && since <= |client.log|
      modifies client
      ensures client.Valid() && old(client.log) <= client.log
      ensures entry.None? ==> Refused(client.log, key, r, since)
      ensures entry.Some? ==> Usable(client.conf, client.log, key, entry.value, since)
    {
      var raw := client.GetEntry(key);
      NoEntryNow(client.log, key, since);
      if raw.Missing? { return Miss, None; }
      if raw.Failed? {
        BlamedSince(client.log, key, Backend, |old(client.log)|, since);
        return Fault(Backend), None;
      }
      if raw.value.Garbled? { return Corrupt, None; }
      StoredIsLegitimate(client.conf, client.log, key);
      ghost var read := client.log;
      var found := raw.value.entry;
      var now := client.Now();
      DatedNow(client.conf, read, client.log, key, found, since);
      if found.expiresAt > 0 && now >= found.expiresAt { return Miss, None; }
      return Miss, Some(found);
    }

    /** Files one answer under its key, unless the key has one already. */
    method ReadInto(key: Key, result: map<Key, ReadResult>, entries: map<Key, Entry>, ghost since: nat)
      returns (result': map<Key, ReadResult>, entries': map<Key, Entry>)
      requires client.Valid() && since <= |client.log| && result.Keys !! entries.Keys
      requires AllRefused(client.log, result, since) && AllSeen(client.conf, client.log, entries, since)
      modifies client
      ensures client.Valid() && old(client.log) <= client.log
      ensures result'.Keys + entries'.Keys == result.Keys + entries.Keys + {key} && result'.Keys !! entries'.Keys
      ensures AllRefused(client.log, result', since) && AllSeen(client.conf, client.log, entries', since)
    {
      result', entries' := result, entries;
      if key in result || key in entries {
        return;
      }
      var answer, entry := ReadValid(key, since);
      ReadMore(client.conf, old(client.log), client.log, result, entries, key, answer, entry, since);
      if entry.Some? {
        entries' := entries[key := entry.value];
      } else {
        result' := result[key := answer];
      }
    }

    /** Reads a key unless the context is cancelled or the key empty. */
    method ReadValid(key: Key, ghost since: nat) returns (answer: ReadResult, entry: Option<Entry>)
      requires client.Valid() && since <= |client.log|
      modifies client
      ensures client.Valid() && old(client.log) <= client.log
      ensures entry.None? ==> Refused(client.log, key, answer, since)
      ensures entry.Some? ==> Usable(client.conf, client.log, key, entry.value, since)
    {
      var cancelled := client.Interrupted();
      if cancelled || key == "" {
        answer := Fault(if cancelled then Cancelled else EmptyKey);
        BlamedSince(client.log, key, answer.error, |old(client.log)|, since);
        return answer, None;
      }
      answer, entry := ReadOne(key, since);
    }

    /** The first pipeline of a batched read. */
    method ReadEntries(keys: seq<Key>) returns (result: map<Key, ReadResult>, entries: map<Key, Entry>)
      requires client.Valid()
      modifies client
      ensures client.Valid() && old(client.log) <= client.log
      ensures result.Keys + entries.Keys == (set k | k in keys) && result.Keys !! entries.Keys
      ensures AllRefused(client.log, result, |old(client.log)|)
      ensures AllSeen(client.conf, client.log, entries, |old(client.log)|)
    {
      result, entries := map[], map[];
      for i := 0 to |keys|
        invariant client.Valid() && old(client.log) <= client.log
        invariant result.Keys + entries.Keys == (set k | k in keys[..i]) && result.Keys !! entries.Keys
        invariant AllRefused(client.log, result, |old(client.log)|)
        invariant AllSeen(client.conf, client.log, entries, |old(client.log)|)
      {
        assert keys[..i + 1] == keys[..i] + [keys[i]];
        result, entries := ReadInto(keys[i], result, entries, |old(client.log)|);
      }
      assert keys[..|keys|] == keys;
    }

    /** The second pipeline: the current tokens of the buckets, each read at some moment not before the call. */
    method ReadTokens(buckets: set<Bucket>) returns (tokens: map<Bucket, Reply<Raw>>, ghost readAt: map<Bucket, nat>)
      requires client.Valid()
      modifies client
      ensures client.Valid() && old(client.log) <= client.log
      ensures tokens.Keys == buckets
      ensures TokensRead(client.log, tokens, readAt, |old(client.log)|)
    {
      tokens, readAt := map[], map[];
      var rest := buckets;
      while rest != {}
        invariant client.Valid() && old(client.log) <= client.log
        invariant rest <= buckets && tokens.Keys == buckets - rest
        invariant TokensRead(client.log, tokens, readAt, |old(client.log)|)
        decreases |rest|
      {
        var b :| b in rest;
        ghost var before := client.log;
        var raw := client.GetToken(b);
        OneMoreRead(before, client.log, tokens, readAt, |old(client.log)|, b, raw);
        tokens, readAt := tokens[b := raw], readAt[b := |client.log|];
        rest := rest - {b};
      }
    }

    /** Compares one of an entry's tokens with the one read. */
    method CheckTag(entry: Entry, tag: Tag, tokens: map<Bucket, Reply<Raw>>,
                    ghost log: seq<Event>, ghost readAt: map<Bucket, nat>, ghost start: nat) returns (stop: Option<ReadResult>)
      requires TokensRead(log, tokens, readAt, start)
      requires tag in entry.tags && client.conf.bucketOf(tag) in tokens
      ensures stop.None? <==> Matches(client.conf, tokens, tag, entry.tags[tag])
      ensures stop.Some? ==> !stop.value.Hit? && forall key, since :: Settled(client.conf, log, key, entry, stop.value, since, start)
    {
      var b := client.conf.bucketOf(tag);
      var token := tokens[b];
      assert start <= readAt[b] <= |log|;
      if !token.Found? { return Some(if token.Missing? then Miss else Fault(Backend)); }
      if |token.value| != TOKEN_SIZE { return Some(Corrupt); }
      if token.value != entry.tags[tag] { return Some(Miss); }
      stop := None;
    }

    /** Compares an entry's tokens with the ones read; stops at the first tag that does not match. */
    method CheckEntry(key: Key, entry: Entry, tokens: map<Bucket, Reply<Raw>>,
                      ghost log: seq<Event>, ghost readAt: map<Bucket, nat>, ghost since: nat, ghost start: nat) returns (r: ReadResult)
      requires WellFormed(client.conf, log) && TokensRead(log, tokens, readAt, start)
      requires Usable(client.conf, log, key, entry, since) && entry.value.loadedAt <= start
      requires BucketsIn(client.conf, entry, tokens.Keys)
      ensures Settled(client.conf, log, key, entry, r, since, start)
      ensures r.Hit? <==> forall tag | tag in entry.tags :: Matches(client.conf, tokens, tag, entry.tags[tag])
    {
      var rest := entry.tags.Keys;
      while rest != {}
        invariant rest <= entry.tags.Keys
        invariant forall t | t in entry.tags.Keys - rest ::
          Matches(client.conf, tokens, t, entry.tags[t]) && LoadedAfter(client.conf, log, t, entry.value.loadedAt, start)
        decreases |rest|
      {
        var tag :| tag in rest;
        assert tag in entry.tags;
        var stop := CheckTag(entry, tag, tokens, log, readAt, start);
        if stop.Some? { return stop.value; }
        MatchDatesLoad(client.conf, log, tag, entry, tokens, readAt, start);
        rest := rest - {tag};
      }
      FreshHitIntro(client.conf, log, key, entry, since, start);
      r := Hit(entry.value);
    }

    method CheckNext(key: Key, entries: map<Key, Entry>, result: map<Key, ReadResult>, tokens: map<Bucket, Reply<Raw>>,
                     ghost log: seq<Event>, ghost readAt: map<Bucket, nat>, ghost since: nat, ghost start: nat)
      returns (result': map<Key, ReadResult>)
      requires Checkable(client.conf, log, entries, tokens, readAt, since, start) && key in entries
      requires AllSettled(client.conf, log, entries, result, since, start)
      ensures result'.Keys == result.Keys + {key} && AllSettled(client.conf, log, entries, result', since, start)
    {
      assert Usable(client.conf, log, key, entries[key], since) && BucketsIn(client.conf, entries[key], tokens.Keys);
      var checked := CheckEntry(key, entries[key], tokens, log, readAt, since, start);
      SettledMore(client.conf, log, entries, result, key, checked, since, start);
      result' := result[key := checked];
    }

    /** The last loop of a batched read: settles every entry that was found. */
    method CheckEntries(entries: map<Key, Entry>, tokens: map<Bucket, Reply<Raw>>,
                        ghost log: seq<Event>, ghost readAt: map<Bucket, nat>, ghost since: nat, ghost start: nat)
      returns (result: map<Key, ReadResult>)
      requires Checkable(client.conf, log, entries, tokens, readAt, since, start)
      ensures result.Keys == entries.Keys
      ensures AllSettled(client.conf, log, entries, result, since, start)
    {
      result := map[];
      var rest := entries.Keys;
      while rest != {}
        invariant rest <= entries.Keys && result.Keys == entries.Keys - rest
        invariant AllSettled(client.conf, log, entries, result, since, start)
        decreases |rest|
      {
        var key :| key in rest;
        result := CheckNext(key, entries, result, tokens, log, readAt, since, start);
        rest := rest - {key};
      }
    }

    /**
     A batched read. `start` is the moment at which the entries were known and the
     token-check phase began. Every answer has its reason: a hit is fresh with respect to
     that moment and had not expired; a miss was absent, expired, or had a generation out of
     place during the call; damage was found; or the context or a command failed.
     */
    method GetMany(keys: seq<Key>) returns (result: map<Key, ReadResult>, ghost start: nat)
      requires client.Valid()
      modifies client
      ensures client.Valid() && old(client.log) <= client.log
      ensures result.Keys == (set k | k in keys)
      ensures |old(client.log)| <= start <= |client.log|
      ensures forall k | k in result :: Answered(client.conf, client.log, k, result[k], |old(client.log)|, start)
    {
      var entries;
      result, entries := ReadEntries(keys);
      start := |client.log|;
      ghost var before := client.log;
      var tokens, readAt := ReadTokens(BucketsOf(client.conf, entries));
      SeenIsLegitimate(client.conf, before, entries, |old(client.log)|);
      AllLegitimateGrow(client.conf, before, client.log, entries, start);
      ReadsGrow(client.conf, before, client.log, result, entries, |old(client.log)|);
      var checked := CheckEntries(entries, tokens, client.log, readAt, |old(client.log)|, start);
      AllAnswered(client.conf, client.log, result, entries, checked, |old(client.log)|, start);
      result := result + checked;
    }

    method Get(key: Key) returns (r: ReadResult, ghost start: nat)
      requires client.Valid()
      modifies client
      ensures client.Valid() && old(client.log) <= client.log
      ensures |old(client.log)| <= start <= |client.log|
      ensures Answered(client.conf, client.log, key, r, |old(client.log)|, start)
    {
      var result;
      result, start := GetMany([key]);
      assert key in [key];
      r := result[key];
    }
  }
}
