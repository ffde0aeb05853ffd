/**
 The tag-generation protocol of the cache connectors, as a history.

 Everything the processes sharing one backend do to it is a sequence of atomic
 commands, the `log`; a moment is a length of that log. A tag maps to a bucket,
 and the bucket holds the current generation token of all tags that collide in
 it. `Allowed` says which command may come next; it is what `Connector` and
 `FilesystemConnector` are proved to respect, and therefore all that they need
 to assume of the other processes.
 */
module TokenHistory {
  import opened Wrappers

  type Key = string
  type Tag = string
  type Bucket = string
  newtype Byte = x: int | 0 <= x < 256
  type Raw = seq<Byte>

  const TOKEN_SIZE: nat := 32

  type Token = t: Raw | |t| == TOKEN_SIZE witness seq(TOKEN_SIZE, _ => 0)

  /** What Go's `copy(token[:], raw)` leaves in a fresh token. */
  function CopyToken(raw: Raw): (t: Token) {
    seq(TOKEN_SIZE, i requires 0 <= i => if i < |raw| then raw[i] else 0)
  }

  /** A cached value, stamped with the moment at which its authoritative load began. */
  datatype Payload = Payload(bytes: string, loadedAt: nat)

  datatype Entry = Entry(expiresAt: int, tags: map<Tag, Token>, value: Payload)

  /** An entry object either decodes or does not. */
  datatype Stored = Encoded(entry: Entry) | Garbled

  datatype Event =
    | SetToken(bucket: Bucket, token: Token)
    | LoseToken(bucket: Bucket)
    | CorruptToken(bucket: Bucket, raw: Raw)
    | SetEntry(key: Key, entry: Entry)
    | GarbleEntry(key: Key)
    | DropEntry(key: Key)
    | Loaded(key: Key, value: Payload) // the authoritative source answered a load for this key
    | Tick(now: int)                   // the clock of the callers was set
    | Outage                           // a command failed, although it may have had its effect
    | Interrupt                        // a caller found its context cancelled

  datatype Store = Store(entries: map<Key, Stored>, tokens: map<Bucket, Raw>, clock: int)

  const EmptyStore := Store(map[], map[], 0)

  function Do(s: Store, e: Event): Store {
    match e
    case SetToken(b, t) => s.(tokens := s.tokens[b := t])
    case LoseToken(b) => s.(tokens := s.tokens - {b})
    case CorruptToken(b, raw) => s.(tokens := s.tokens[b := raw])
    case SetEntry(k, entry) => s.(entries := s.entries[k := Encoded(entry)])
    case GarbleEntry(k) => s.(entries := s.entries[k := Garbled])
    case DropEntry(k) => s.(entries := s.entries - {k})
    case Tick(now) => s.(clock := now)
    case _ => s
  }

  function StoreAfter(log: seq<Event>): Store {
    if log == [] then EmptyStore else Do(StoreAfter(log[..|log| - 1]), log[|log| - 1])
  }

  function ClockAfter(log: seq<Event>): int {
    StoreAfter(log).clock
  }

  /** The event occurs since moment `since`. */
  ghost predicate Happened(log: seq<Event>, e: Event, since: nat) {
    exists i: nat | since <= i < |log| :: log[i] == e
  }

  /** The value is what the authoritative source answered to some load for the key. */
  predicate WasLoaded(log: seq<Event>, k: Key, value: Payload) {
    Loaded(k, value) in log
  }

  function TokenAfter(log: seq<Event>, b: Bucket): Option<Raw> {
    var tokens := StoreAfter(log).tokens;
    if b in tokens then Some(tokens[b]) else None
  }

  /** The event changes what bucket `b` holds. */
  predicate Touches(e: Event, b: Bucket) {
    match e
    case SetToken(c, _) => c == b
    case LoseToken(c) => c == b
    case CorruptToken(c, _) => c == b
    case _ => false
  }

  /** The token has been in some bucket, or can be read out of something that has. */
  predicate Used(log: seq<Event>, t: Token) {
    exists i: nat | i < |log| ::
      (log[i].SetToken? && log[i].token == t) || (log[i].CorruptToken? && CopyToken(log[i].raw) == t)
  }

  /** Reading bucket `b` at moment `c` yields token `t`. */
  predicate Captured(log: seq<Event>, b: Bucket, t: Token, c: nat) {
    c <= |log| && TokenAfter(log[..c], b).Some? && CopyToken(TokenAfter(log[..c], b).value) == t
  }

  /** Token `t` was captured no later than moment `until`. */
  predicate CapturedBy(log: seq<Event>, b: Bucket, t: Token, until: nat) {
    exists c: nat | c <= until :: Captured(log, b, t, c)
  }

  /** Where tags live, and which tags every writer of a key declares for it. */
  datatype Conf = Conf(bucketOf: Tag -> Bucket, declared: Key -> set<Tag>)

  /** All tokens of a prepared write were captured no later than `until`. */
  predicate Prepared(conf: Conf, log: seq<Event>, tags: map<Tag, Token>, until: nat) {
    until <= |log| && forall tag | tag in tags :: CapturedBy(log, conf.bucketOf(tag), tags[tag], until)
  }

  predicate Allowed(conf: Conf, log: seq<Event>, e: Event) {
    match e
    case SetToken(_, t) => !Used(log, t)
    case CorruptToken(_, raw) => |raw| != TOKEN_SIZE
    case SetEntry(k, entry) =>
      && conf.declared(k) <= entry.tags.Keys && Prepared(conf, log, entry.tags, entry.value.loadedAt)
      && WasLoaded(log, k, entry.value)
    case Loaded(_, value) => value.loadedAt <= |log|
    case _ => true
  }

  /** The event damages bucket `b` so that what is left reads as token `t`. */
  predicate Forges(e: Event, b: Bucket, t: Token) {
    e.CorruptToken? && e.bucket == b && CopyToken(e.raw) == t
  }

  ghost predicate Unforged(log: seq<Event>, b: Bucket, t: Token, from: nat, until: nat) {
    forall i: nat | from <= i < until && i < |log| :: !Forges(log[i], b, t)
  }

  ghost predicate Untouched(log: seq<Event>, b: Bucket, from: nat, until: nat) {
    forall i: nat | from <= i < until && i < |log| :: !Touches(log[i], b)
  }

  ghost predicate WellFormed(conf: Conf, log: seq<Event>) {
    forall i: nat {:trigger Allowed(conf, log[..i], log[i])} | i < |log| :: Allowed(conf, log[..i], log[i])
  }

  /** The invalidation of a tag, as it takes effect: a fresh token lands in its bucket. */
  predicate Invalidates(conf: Conf, e: Event, tag: Tag) {
    e.SetToken? && e.bucket == conf.bucketOf(tag)
  }

  /** Every invalidation of `tag` before moment `m` precedes the moment `loaded`. */
  ghost predicate LoadedAfter(conf: Conf, log: seq<Event>, tag: Tag, loaded: nat, m: nat) {
    forall i: nat | i < m && i < |log| && Invalidates(conf, log[i], tag) :: i < loaded
  }

  // ---------------------------------------------------------------- monotonicity

  lemma PrefixOfPrefix<T>(log: seq<T>, longer: seq<T>, c: nat)
    requires log <= longer && c <= |log|
    ensures longer[..c] == log[..c]
  {
  }

  lemma HappenedGrows(log: seq<Event>, longer: seq<Event>, e: Event, since: nat)
    requires log <= longer && Happened(log, e, since)
    ensures Happened(longer, e, since)
  {
    var i: nat :| since <= i < |log| && log[i] == e;
    assert longer[i] == log[i];
  }

  lemma LoadedGrows(log: seq<Event>, longer: seq<Event>, k: Key, value: Payload)
    requires log <= longer && WasLoaded(log, k, value)
    ensures WasLoaded(longer, k, value)
  {
    var i :| 0 <= i < |log| && log[i] == Loaded(k, value);
    assert longer[i] == log[i];
  }

  lemma CapturedGrows(log: seq<Event>, longer: seq<Event>, b: Bucket, t: Token, until: nat, later: nat)
    requires log <= longer && CapturedBy(log, b, t, until) && until <= later
    ensures CapturedBy(longer, b, t, later)
  {
    var c: nat :| c <= until && Captured(log, b, t, c);
    PrefixOfPrefix(log, longer, c);
    assert Captured(longer, b, t, c);
  }

  lemma PreparedGrows(conf: Conf, log: seq<Event>, longer: seq<Event>, tags: map<Tag, Token>, until: nat, later: nat)
    requires log <= longer && Prepared(conf, log, tags, until) && until <= later <= |longer|
    ensures Prepared(conf, longer, tags, later)
  {
    forall tag | tag in tags ensures CapturedBy(longer, conf.bucketOf(tag), tags[tag], later) {
      CapturedGrows(log, longer, conf.bucketOf(tag), tags[tag], until, later);
    }
  }

  /** A prepared write stays permitted however late it reaches the backend. */
  lemma LateWriteAllowed(conf: Conf, log: seq<Event>, longer: seq<Event>, k: Key, entry: Entry)
    requires log <= longer && Allowed(conf, log, SetEntry(k, entry))
    ensures Allowed(conf, longer, SetEntry(k, entry))
  {
    PreparedGrows(conf, log, longer, entry.tags, entry.value.loadedAt, entry.value.loadedAt);
    LoadedGrows(log, longer, k, entry.value);
  }

  lemma WellFormedExtend(conf: Conf, log: seq<Event>, e: Event)
    requires WellFormed(conf, log) && Allowed(conf, log, e)
    ensures WellFormed(conf, log + [e]) && StoreAfter(log + [e]) == Do(StoreAfter(log), e)
  {
    var longer := log + [e];
    assert longer[..|log|] == log;
    forall i: nat | i < |longer| ensures Allowed(conf, longer[..i], longer[i]) {
      if i < |log| { PrefixOfPrefix(log, longer, i); }
    }
  }

  lemma WellFormedPrefix(conf: Conf, log: seq<Event>, m: nat)
    requires WellFormed(conf, log) && m <= |log|
    ensures WellFormed(conf, log[..m])
  {
    forall i: nat | i < m ensures Allowed(conf, log[..m][..i], log[..m][i]) {
      PrefixOfPrefix(log[..m], log, i);
    }
  }

  // ---------------------------------------------------------------- the protocol

  /** A token that sits in a bucket has been used. */
  lemma {:induction false} HeldIsUsed(log: seq<Event>, b: Bucket)
    requires TokenAfter(log, b).Some?
    ensures Used(log, CopyToken(TokenAfter(log, b).value))
  {
    var n := |log| - 1;
    var t := CopyToken(TokenAfter(log, b).value);
    if Touches(log[n], b) {
      if log[n].SetToken? {
        assert CopyToken(log[n].token) == log[n].token;
      }
    } else {
      HeldIsUsed(log[..n], b);
      var i: nat :| i < n && ((log[..n][i].SetToken? && log[..n][i].token == t) ||
                              (log[..n][i].CorruptToken? && CopyToken(log[..n][i].raw) == t));
      assert log[i] == log[..n][i];
    }
  }

  lemma UsedGrows(log: seq<Event>, longer: seq<Event>, t: Token)
    requires log <= longer && Used(log, t)
    ensures Used(longer, t)
  {
    var i: nat :| i < |log| && ((log[i].SetToken? && log[i].token == t) ||
                                (log[i].CorruptToken? && CopyToken(log[i].raw) == t));
    assert longer[i] == log[i];
  }

  /**
   A token in use at moment `c` that a bucket yields at a later moment `m`: nothing
   touched the bucket in between exactly when no damage in between, of this bucket,
   left a value that reads as this token. A token found intact needs no condition.
   */
  lemma {:induction false} GenerationIsAnInterval(conf: Conf, log: seq<Event>, b: Bucket, t: Token, c: nat, m: nat)
    requires WellFormed(conf, log) && c <= m <= |log|
    requires Used(log[..c], t) && Captured(log, b, t, m)
    ensures Untouched(log, b, c, m) <==> Unforged(log, b, t, c, m)
    ensures TokenAfter(log[..m], b) == Some(t) ==> Untouched(log, b, c, m)
    decreases m
  {
    if c < m {
      // Whatever last set the bucket needed a token not used by then; `t` was, at `c`.
      assert log[..m][..m - 1] == log[..m - 1];
      assert log[m - 1].SetToken? ==> CopyToken(log[m - 1].token) == log[m - 1].token;
      assert log[..c] <= log[..m - 1];
      UsedGrows(log[..c], log[..m - 1], t);
      assert Allowed(conf, log[..m - 1], log[m - 1]);
      if Touches(log[m - 1], b) {
        assert Forges(log[m - 1], b, t);
      } else {
        GenerationIsAnInterval(conf, log, b, t, c, m - 1);
      }
    }
  }

  /** A token captured no later than `until` was in use by then. */
  lemma CapturedIsUsed(log: seq<Event>, b: Bucket, t: Token, until: nat)
    requires CapturedBy(log, b, t, until) && until <= |log|
    ensures Used(log[..until], t)
  {
    var c: nat :| c <= until && Captured(log, b, t, c);
    HeldIsUsed(log[..c], b);
    UsedGrows(log[..c], log[..until], t);
  }

  /**
   The heart of a hit: a token still in place dates the load after every earlier
   invalidation, unless damage since the load imitates it.
   */
  lemma MatchingTokenDatesLoad(conf: Conf, log: seq<Event>, tag: Tag, t: Token, loaded: nat, m: nat)
    requires WellFormed(conf, log) && loaded <= m <= |log|
    requires CapturedBy(log, conf.bucketOf(tag), t, loaded)
    requires Captured(log, conf.bucketOf(tag), t, m)
    requires TokenAfter(log[..m], conf.bucketOf(tag)) == Some(t) || Unforged(log, conf.bucketOf(tag), t, loaded, m)
    ensures LoadedAfter(conf, log, tag, loaded, m)
  {
    CapturedIsUsed(log, conf.bucketOf(tag), t, loaded);
    GenerationIsAnInterval(conf, log, conf.bucketOf(tag), t, loaded, m);
  }

  // ---------------------------------------------------------------- what reading a generation yields

  predicate Damaged(raw: Option<Raw>) {
    raw.Some? && |raw.value| != TOKEN_SIZE
  }

  /** Since `since` the bucket of the tag was seen damaged, and later given a fresh token. */
  ghost predicate ReplacedDamage(conf: Conf, log: seq<Event>, tag: Tag, since: nat) {
    exists c: nat, w: nat | since <= c <= w < |log| ::
      Damaged(TokenAfter(log[..c], conf.bucketOf(tag))) && Invalidates(conf, log[w], tag)
  }

  /**
   What `tagToken`, called at moment `since` and returning now, can answer: the
   token that is in place, or, once it has replaced a damaged one, whatever the
   second read yields, since that one is not measured.
   */
  ghost predicate Answers(conf: Conf, log: seq<Event>, tag: Tag, since: nat, t: Token) {
    && Captured(log, conf.bucketOf(tag), t, |log|)
    && (TokenAfter(log, conf.bucketOf(tag)) == Some(t) || ReplacedDamage(conf, log, tag, since))
  }

  /** Since `since` the tag was found damaged, given a fresh token, and damaged again into token `t`. */
  ghost predicate DamagedTwice(conf: Conf, log: seq<Event>, tag: Tag, t: Token, since: nat) {
    exists c: nat, w: nat, j: nat | since <= c <= w < j < |log| ::
      && Damaged(TokenAfter(log[..c], conf.bucketOf(tag))) && Invalidates(conf, log[w], tag)
      && Forges(log[j], conf.bucketOf(tag), t)
  }

  lemma DamagedTwiceGrows(conf: Conf, log: seq<Event>, longer: seq<Event>, tag: Tag, t: Token, since: nat)
    requires log <= longer && DamagedTwice(conf, log, tag, t, since)
    ensures DamagedTwice(conf, longer, tag, t, since)
  {
    var c: nat, w: nat, j: nat :| since <= c <= w < j < |log| &&
      Damaged(TokenAfter(log[..c], conf.bucketOf(tag))) && Invalidates(conf, log[w], tag) &&
      Forges(log[j], conf.bucketOf(tag), t);
    PrefixOfPrefix(log, longer, c);
    assert longer[w] == log[w] && longer[j] == log[j];
  }

  /** A fresh token at moment `w`, an older one now: damage in between imitates the older one. */
  lemma ImitatedSince(conf: Conf, log: seq<Event>, tag: Tag, t: Token, since: nat, w: nat) returns (j: nat)
    requires WellFormed(conf, log) && since <= w < |log| && Used(log[..since], t)
    requires Captured(log, conf.bucketOf(tag), t, |log|) && Invalidates(conf, log[w], tag)
    ensures w < j < |log| && Forges(log[j], conf.bucketOf(tag), t)
  {
    UsedGrows(log[..since], log[..w], t);
    GenerationIsAnInterval(conf, log, conf.bucketOf(tag), t, w, |log|);
    assert Touches(log[w], conf.bucketOf(tag));
    j :| w <= j < |log| && Forges(log[j], conf.bucketOf(tag), t);
  }

  /** An old token that `tagToken` answers is intact, or the tag was damaged twice. */
  lemma OldAnswers(conf: Conf, log: seq<Event>, tag: Tag, t: Token, since: nat)
    requires WellFormed(conf, log) && since <= |log| && Used(log[..since], t) && Answers(conf, log, tag, since, t)
    ensures TokenAfter(log, conf.bucketOf(tag)) == Some(t) || DamagedTwice(conf, log, tag, t, since)
  {
    if TokenAfter(log, conf.bucketOf(tag)) != Some(t) {
      var c: nat, w: nat :| since <= c <= w < |log| &&
        Damaged(TokenAfter(log[..c], conf.bucketOf(tag))) && Invalidates(conf, log[w], tag);
      var j := ImitatedSince(conf, log, tag, t, since, w);
    }
  }

  /** An entry's token that `tagToken` confirms dates its load, unless the tag was damaged twice. */
  lemma ConfirmedTokenDatesLoad(conf: Conf, log: seq<Event>, tag: Tag, t: Token, loaded: nat, since: nat)
    requires WellFormed(conf, log) && loaded <= since <= |log| && CapturedBy(log, conf.bucketOf(tag), t, loaded)
    requires Answers(conf, log, tag, since, t)
    ensures LoadedAfter(conf, log, tag, loaded, since) || DamagedTwice(conf, log, tag, t, since)
  {
    CapturedIsUsed(log, conf.bucketOf(tag), t, loaded);
    UsedGrows(log[..loaded], log[..since], t);
    OldAnswers(conf, log, tag, t, since);
    if TokenAfter(log, conf.bucketOf(tag)) == Some(t) {
      assert log[..|log|] == log;
      MatchingTokenDatesLoad(conf, log, tag, t, loaded, |log|);
    }
  }

  /**
   When an outdated token is confirmed: the tag was invalidated between the load of
   an entry and the start of the check, and `tagToken` still answers the entry's token
   exactly when it had to replace a damaged one and a second damage imitates the old.
   */
  lemma StaleIsConfirmed(conf: Conf, log: seq<Event>, tag: Tag, t: Token, loaded: nat, since: nat)
    requires WellFormed(conf, log) && loaded <= since <= |log| && CapturedBy(log, conf.bucketOf(tag), t, loaded)
    requires !LoadedAfter(conf, log, tag, loaded, since)
    ensures Answers(conf, log, tag, since, t)
            <==> Captured(log, conf.bucketOf(tag), t, |log|) && DamagedTwice(conf, log, tag, t, since)
  {
    if Answers(conf, log, tag, since, t) {
      ConfirmedTokenDatesLoad(conf, log, tag, t, loaded, since);
    }
  }

  /** Whatever entry a backend holds was an allowed write. */
  lemma {:induction false} StoredIsAllowed(conf: Conf, log: seq<Event>, k: Key)
    requires WellFormed(conf, log)
    requires k in StoreAfter(log).entries && StoreAfter(log).entries[k].Encoded?
    ensures Allowed(conf, log, SetEntry(k, StoreAfter(log).entries[k].entry))
    decreases |log|
  {
    var n := |log| - 1;
    var entry := StoreAfter(log).entries[k].entry;
    assert log[..n] <= log;
    if log[n] == SetEntry(k, entry) {
      assert Allowed(conf, log[..n], log[n]);
    } else {
      WellFormedPrefix(conf, log, n);
      StoredIsAllowed(conf, log[..n], k);
    }
    LateWriteAllowed(conf, log[..n], log, k, entry);
  }

  // ---------------------------------------------------------------- what goes wrong otherwise

  function Filled(x: Byte): Token {
    seq(TOKEN_SIZE, _ => x)
  }

  lemma FilledDiffer(x: Byte, y: Byte)
    requires x != y
    ensures Filled(x) != Filled(y)
  {
    assert Filled(x)[0] == x && Filled(y)[0] == y;
  }

  lemma EmptyIsNotFilled(x: Byte)
    requires x != 0
    ensures CopyToken([]) != Filled(x)
  {
    assert CopyToken([])[0] == 0 && Filled(x)[0] == x;
  }

  lemma CopyKeeps(t: Token, more: Raw)
    ensures CopyToken(t + more) == t
  {
  }

  /** Appends an event to a history and reads the token back. */
  lemma Then(conf: Conf, log: seq<Event>, e: Event, b: Bucket, raw: Raw) returns (longer: seq<Event>)
    requires WellFormed(conf, log) && Allowed(conf, log, e)
    requires (e.SetToken? && e.bucket == b && e.token == raw) || (e.CorruptToken? && e.bucket == b && e.raw == raw)
    ensures longer == log + [e] && WellFormed(conf, longer) && longer[..|log|] == log
    ensures TokenAfter(longer, b) == Some(raw)
  {
    WellFormedExtend(conf, log, e);
    longer := log + [e];
  }

  /** Two generations of a tag, one after the other. */
  lemma TwoGenerations(conf: Conf, tag: Tag, t: Token, u: Token) returns (log: seq<Event>)
    requires t != u
    ensures var b := conf.bucketOf(tag);
            && log == [SetToken(b, t), SetToken(b, u)] && WellFormed(conf, log)
            && Captured(log, b, t, 1) && Captured(log, b, u, 2) && TokenAfter(log, b) == Some(u)
  {
    var b := conf.bucketOf(tag);
    CopyKeeps(t, []);
    CopyKeeps(u, []);
    assert t + [] == t && u + [] == u;
    var first := Then(conf, [], SetToken(b, t), b, t);
    assert !Used(first, u);
    log := Then(conf, first, SetToken(b, u), b, u);
    assert log[..1] == first && log[..2] == log;
  }

  /**
   Why dependencies are captured before the load: an entry written with tokens
   captured after the load began can match although its value predates an
   invalidation. The history keeps every other rule.
   */
  lemma CaptureAfterLoadServesStale(conf: Conf, tag: Tag) returns (log: seq<Event>, entry: Entry)
    ensures WellFormed(conf, log)
    ensures entry.value.loadedAt <= |log| && entry.tags.Keys == {tag}
    ensures Prepared(conf, log, entry.tags, |log|)
    ensures TokenAfter(log, conf.bucketOf(tag)) == Some(entry.tags[tag])
    ensures !LoadedAfter(conf, log, tag, entry.value.loadedAt, |log|)
  {
    var u := Filled(1);
    FilledDiffer(0, 1);
    log := TwoGenerations(conf, tag, Filled(0), u);
    entry := Entry(0, map[tag := u], Payload("", 1));
    assert CapturedBy(log, conf.bucketOf(tag), u, 2);
    assert Invalidates(conf, log[1], tag);
  }

  /** An entry under one tag, loaded and written with the tag's first token, and outdated by the second. */
  lemma OutdatedEntry(conf: Conf, key: Key, tag: Tag, t: Token, u: Token) returns (log: seq<Event>, entry: Entry)
    requires t != u && conf.declared(key) <= {tag}
    ensures entry == Entry(0, map[tag := t], Payload("", 1)) && |log| == 4
    ensures var b := conf.bucketOf(tag);
            log[0] == SetToken(b, t) && log[1].Loaded? && log[2].SetEntry? && log[3] == SetToken(b, u)
    ensures WellFormed(conf, log) && HoldsEntry(log, key, entry)
  {
    entry := Entry(0, map[tag := t], Payload("", 1));
    var first := FirstToken(conf, conf.bucketOf(tag), t, u);
    var loaded := LoadValue(conf, first, key, entry, tag, u);
    var filled := Fill(conf, loaded, key, entry, tag, u);
    log := NextGeneration(conf, filled, conf.bucketOf(tag), u);
    StillHolds(filled, SetToken(conf.bucketOf(tag), u), key, entry);
  }

  /** The source answers a load that began with the one token in place. */
  lemma LoadValue(conf: Conf, log: seq<Event>, key: Key, entry: Entry, tag: Tag, u: Token) returns (longer: seq<Event>)
    requires WellFormed(conf, log) && !Used(log, u) && entry.tags.Keys == {tag} && entry.value.loadedAt == |log|
    requires TokenAfter(log, conf.bucketOf(tag)) == Some(entry.tags[tag])
    ensures longer == log + [Loaded(key, entry.value)] && WellFormed(conf, longer) && !Used(longer, u)
    ensures WasLoaded(longer, key, entry.value)
    ensures CapturedBy(longer, conf.bucketOf(tag), entry.tags[tag], entry.value.loadedAt)
  {
    WellFormedExtend(conf, log, Loaded(key, entry.value));
    longer := log + [Loaded(key, entry.value)];
    CopyKeeps(entry.tags[tag], []);
    assert entry.tags[tag] + [] == entry.tags[tag] && longer[..|log|] == log;
    assert Captured(longer, conf.bucketOf(tag), entry.tags[tag], |log|);
    assert longer[|log|] == Loaded(key, entry.value);
  }

  ghost predicate HoldsEntry(log: seq<Event>, key: Key, entry: Entry) {
    var entries := StoreAfter(log).entries; key in entries && entries[key] == Encoded(entry)
  }

  lemma StillHolds(log: seq<Event>, e: Event, key: Key, entry: Entry)
    requires HoldsEntry(log, key, entry) && e.SetToken?
    ensures HoldsEntry(log + [e], key, entry)
  {
    assert (log + [e])[..|log|] == log;
  }

  lemma FirstToken(conf: Conf, b: Bucket, t: Token, u: Token) returns (log: seq<Event>)
    requires t != u
    ensures |log| == 1 && log[0] == SetToken(b, t) && WellFormed(conf, log)
    ensures TokenAfter(log, b) == Some(t) && !Used(log, u)
  {
    log := Then(conf, [], SetToken(b, t), b, t);
  }

  lemma Fill(conf: Conf, log: seq<Event>, key: Key, entry: Entry, tag: Tag, u: Token) returns (longer: seq<Event>)
    requires WellFormed(conf, log) && !Used(log, u)
    requires conf.declared(key) <= {tag} == entry.tags.Keys && entry.value.loadedAt <= |log|
    requires WasLoaded(log, key, entry.value)
    requires CapturedBy(log, conf.bucketOf(tag), entry.tags[tag], entry.value.loadedAt)
    ensures longer == log + [SetEntry(key, entry)] && WellFormed(conf, longer) && !Used(longer, u)
    ensures HoldsEntry(longer, key, entry)
  {
    WellFormedExtend(conf, log, SetEntry(key, entry));
    longer := log + [SetEntry(key, entry)];
  }

  lemma NextGeneration(conf: Conf, log: seq<Event>, b: Bucket, u: Token) returns (longer: seq<Event>)
    requires WellFormed(conf, log) && !Used(log, u)
    ensures longer == log + [SetToken(b, u)] && WellFormed(conf, longer)
  {
    WellFormedExtend(conf, log, SetToken(b, u));
    longer := log + [SetToken(b, u)];
  }

  /**
   The filesystem connector serves a stale value. The entry is read at moment `start`,
   after its tag was invalidated; `tagToken` then finds damage, replaces it, and reads
   new damage that starts with the old token, which it answers without measuring it.
   */
  lemma DamagedTwiceServesStale(conf: Conf, key: Key, tag: Tag) returns (log: seq<Event>, entry: Entry, start: nat)
    requires conf.declared(key) <= {tag}
    ensures WellFormed(conf, log) && start <= |log| && entry.tags.Keys == {tag} && entry.expiresAt == 0
    ensures HoldsEntry(log[..start], key, entry)
    ensures Answers(conf, log, tag, start, entry.tags[tag])
    ensures !LoadedAfter(conf, log, tag, entry.value.loadedAt, start)
  {
    var b := conf.bucketOf(tag);
    var t, u, v := Filled(1), Filled(2), Filled(3);
    FilledDiffer(1, 2);
    FilledDiffer(1, 3);
    FilledDiffer(2, 3);
    EmptyIsNotFilled(3);
    CopyKeeps(t, [7]);
    var outdated, damaged, replaced;
    outdated, entry := OutdatedEntry(conf, key, tag, t, u);
    start := 4;
    damaged := Then(conf, outdated, CorruptToken(b, []), b, []);
    assert !Used(damaged, v);
    replaced := Then(conf, damaged, SetToken(b, v), b, v);
    log := Then(conf, replaced, CorruptToken(b, t + [7]), b, t + [7]);
    assert log[..|log|] == log && log[..5] == damaged && log[..4] == outdated;
    assert Damaged(TokenAfter(log[..5], b)) && Invalidates(conf, log[5], tag);
    assert ReplacedDamage(conf, log, tag, start);
    assert Invalidates(conf, log[3], tag);
  }
}
