/**
 Cached site listings over an authoritative repository. Readers run `ListBySite`
 through the cache inside a read section; mutations change the repository and
 then invalidate its tags inside a write section. Steps of any number of threads
 interleave freely; entries may be evicted, generations lost, and other parts of
 the program may invalidate any tag at any time.
 */
module Coherence {
  import opened Wrappers
  import opened Stripes

  type SiteId = nat
  type ResourceId = nat

  datatype Resource = Resource(site: SiteId, content: string)
  type Base = map<ResourceId, Resource>
  type Listing = map<ResourceId, Resource>

  /** What the base repository answers: the resources of a site. */
  function ListBySite(base: Base, site: SiteId): Listing {
    map id | id in base && base[id].site == site :: base[id]
  }

  datatype Tag = SiteTag(site: SiteId) | SiteResources(site: SiteId) | ResourceTag(id: ResourceId) | OtherTag(n: nat)

  type Token = nat

  datatype Entry = Entry(tags: map<Tag, Token>, value: Listing)

  /** Delete and widget mutations learn the owner before they lock anything. */
  datatype Op =
    | Create(at: SiteId)
    | Update(id: ResourceId, current: SiteId, item: SiteId)
    | Transfer(id: ResourceId, source: SiteId, target: SiteId)
    | Delete(id: ResourceId, owner: SiteId)
    | Widgets(id: ResourceId, owner: SiteId)

  /** The sites an operation locks and invalidates. */
  function Sites(op: Op): set<SiteId> {
    match op
    case Create(at) => {at}
    case Update(_, current, item) => {current, item}
    case Transfer(_, source, target) => {source, target}
    case Delete(_, owner) => {owner}
    case Widgets(_, owner) => {owner}
  }

  predicate OwnerAgrees(op: Op, base: Base) {
    (op.Delete? || op.Widgets?) && op.id in base ==> base[op.id].site == op.owner
  }

  datatype ReadPc =
    | Look(again: bool)
    | Check(again: bool, entry: Entry, todo: set<Tag>)
    | AskLock
    | Capture(tokens: map<Tag, Token>)
    | Fill(tokens: map<Tag, Token>, value: Listing)
    | Return(value: Listing)
    | Gone

  datatype WritePc = Before | Invalidating(todo: set<Tag>) | Done

  datatype Work = List(site: SiteId, rpc: ReadPc) | Change(op: Op, wpc: WritePc)

  datatype State = State(
    locks: Stripes.State, work: map<Tid, Work>,
    base: Base, entries: map<SiteId, Entry>, tokens: map<Tag, Token>, next: Token)

  datatype Step =
    | BeginList(site: SiteId, plan: seq<nat>)
    | BeginChange(op: Op, plan: seq<nat>)
    | Lock(step: Stripes.Step)
    | Fetch
    | Compare(tag: Tag)
    | LookAgain
    | CaptureToken(tag: Tag)
    | Load
    | Store
    | GiveUp
    | Mutate(result: Base, tags: set<Tag>)
    | MutateFails
    | InvalidateOne(tag: Tag)
    | EvictEntry(site: SiteId)
    | LoseToken(tag: Tag)
    | InvalidateElsewhere(tag: Tag)

  /** Assigns a stripe to each tag. */
  type StripeOf = Tag -> nat

  predicate InSection(s: State, t: Tid) {
    t in s.locks && s.locks[t].phase.Inside? && !s.locks[t].phase.load.Waiting?
  }

  predicate Reading(s: State, t: Tid) {
    t in s.work && s.work[t].List? && InSection(s, t)
  }

  predicate Writing(s: State, t: Tid) {
    t in s.work && s.work[t].Change? && InSection(s, t)
  }

  function ListTags(site: SiteId): set<Tag> {
    {SiteTag(site), SiteResources(site)}
  }

  /** The lock operations the code performs at the thread's present point. */
  predicate LockStepFits(w: Work, step: Stripes.Step) {
    match step
    case Start(_, _) => false
    case AskLoad(_) => w.List? && w.rpc.AskLock?
    case FreeLoad => w.List? && (w.rpc.Return? || w.rpc.Gone?)
    case Leave =>
      if w.List? then w.rpc.Return? || w.rpc.Gone? else w.wpc.Done? || w.wpc == Invalidating({})
    case _ => true
  }

  predicate CanDo(stripeOf: StripeOf, s: State, t: Tid, step: Step) {
    match step
    case BeginList(site, plan) =>
      t !in s.work && Enabled(s.locks, t, Start(Read, plan)) && stripeOf(SiteResources(site)) in plan
    case BeginChange(op, plan) =>
      t !in s.work && Enabled(s.locks, t, Start(Write, plan)) &&
      (forall site | site in Sites(op) :: stripeOf(SiteResources(site)) in plan) &&
      (op.Delete? || op.Widgets? ==> op.id in s.base && s.base[op.id].site == op.owner)
    case Lock(step) => t in s.work && Enabled(s.locks, t, step) && LockStepFits(s.work[t], step)
    case Fetch => Reading(s, t) && s.work[t].rpc.Look?
    case Compare(tag) => Reading(s, t) && s.work[t].rpc.Check? && tag in s.work[t].rpc.todo && tag in s.work[t].rpc.entry.tags
    case LookAgain => Reading(s, t) && s.work[t].rpc.AskLock? && s.locks[t].phase.load.Holding?
    case CaptureToken(tag) =>
      Reading(s, t) && s.work[t].rpc.Capture? && tag in ListTags(s.work[t].site) - s.work[t].rpc.tokens.Keys
    case Load => Reading(s, t) && s.work[t].rpc.Capture? && s.work[t].rpc.tokens.Keys == ListTags(s.work[t].site)
    case Store => Reading(s, t) && s.work[t].rpc.Fill?
    case GiveUp => Reading(s, t) && (s.work[t].rpc.AskLock? || s.work[t].rpc.Capture?)
    case Mutate(result, tags) =>
      Writing(s, t) && s.work[t].wpc.Before? &&
      (forall site | site in Sites(s.work[t].op) :: SiteResources(site) in tags) &&
      MutationFits(s.work[t].op, s.base, result)
    case MutateFails => Writing(s, t) && s.work[t].wpc.Before?
    case InvalidateOne(tag) => Writing(s, t) && s.work[t].wpc.Invalidating? && tag in s.work[t].wpc.todo
    case _ => true
  }

  /** The row was and is nowhere but in this site. */
  predicate Stays(base: Base, result: Base, id: ResourceId, site: SiteId) {
    (id in base ==> base[id].site == site) && (id in result ==> result[id].site == site)
  }

  predicate Moves(base: Base, result: Base, id: ResourceId, source: SiteId, target: SiteId) {
    id in base && id in result && base[id].site == source && result[id].site == target
  }

  /**
   What the repository may do to a row. A new resource lands in its site; an update moves
   its own row, which is where the caller saw it; a transfer moves rows of a subtree; a deletion
   and widget mutations work on the site in which the row is found. Neighbours in those sites
   may be renumbered in place.
   */
  predicate RowFits(op: Op, base: Base, result: Base, id: ResourceId) {
    match op
    case Create(at) => Stays(base, result, id, at) && id in result
    case Update(x, current, item) =>
      if id == x then Moves(base, result, id, current, item)
      else id in base && id in result && (Stays(base, result, id, current) || Stays(base, result, id, item))
    case Transfer(_, source, target) =>
      && id in base && id in result
      && (Moves(base, result, id, source, target) || Stays(base, result, id, source) || Stays(base, result, id, target))
    case Delete(x, _) => x in base && id in base && Stays(base, result, id, base[x].site)
    case Widgets(x, _) => x in base && id in base && id in result && Stays(base, result, id, base[x].site)
  }

  /** Every row is left alone or changed as the operation may change it. */
  predicate MutationFits(op: Op, base: Base, result: Base) {
    forall id | id in base.Keys + result.Keys ::
      (id in base && id in result && base[id] == result[id]) || RowFits(op, base, result, id)
  }

  function Missed(again: bool): ReadPc {
    if again then Capture(map[]) else AskLock
  }

  function LockDo(s: State, t: Tid, step: Stripes.Step): State
    requires t in s.work && Enabled(s.locks, t, step) && LockStepFits(s.work[t], step)
  {
    var locks := Stripes.Do(s.locks, t, step);
    match step
    case Leave => s.(locks := locks, work := s.work[t := if s.work[t].List? then s.work[t].(rpc := Gone) else s.work[t].(wpc := Done)])
    case Finish => s.(locks := locks, work := s.work - {t})
    case _ => s.(locks := locks)
  }

  function At(s: State, t: Tid, pc: ReadPc): map<Tid, Work>
    requires t in s.work && s.work[t].List?
  {
    s.work[t := s.work[t].(rpc := pc)]
  }

  function Do(stripeOf: StripeOf, s: State, t: Tid, step: Step): State
    requires CanDo(stripeOf, s, t, step)
  {
    match step
    case BeginList(site, plan) =>
      s.(locks := Stripes.Do(s.locks, t, Start(Read, plan)), work := s.work[t := List(site, Look(false))])
    case BeginChange(op, plan) =>
      s.(locks := Stripes.Do(s.locks, t, Start(Write, plan)), work := s.work[t := Change(op, Before)])
    case Lock(step) => LockDo(s, t, step)
    case Fetch =>
      var w := s.work[t];
      s.(work := At(s, t, if w.site in s.entries
                          then Check(w.rpc.again, s.entries[w.site], s.entries[w.site].tags.Keys)
                          else Missed(w.rpc.again)))
    case Compare(tag) =>
      var pc := s.work[t].rpc;
      s.(work := At(s, t, if tag in s.tokens && s.tokens[tag] == pc.entry.tags[tag]
                          then (if pc.todo == {tag} then Return(pc.entry.value) else pc.(todo := pc.todo - {tag}))
                          else Missed(pc.again)))
    case LookAgain => s.(work := At(s, t, Look(true)))
    case CaptureToken(tag) =>
      var token := if tag in s.tokens then s.tokens[tag] else s.next;
      s.(work := At(s, t, Capture(s.work[t].rpc.tokens[tag := token])),
         tokens := s.tokens[tag := token],
         next := if tag in s.tokens then s.next else s.next + 1)
    case Load => s.(work := At(s, t, Fill(s.work[t].rpc.tokens, ListBySite(s.base, s.work[t].site))))
    case Store =>
      s.(work := At(s, t, Return(s.work[t].rpc.value)),
         entries := s.entries[s.work[t].site := Entry(s.work[t].rpc.tokens, s.work[t].rpc.value)])
    case GiveUp => s.(work := At(s, t, Gone))
    case Mutate(result, tags) => s.(base := result, work := s.work[t := s.work[t].(wpc := Invalidating(tags))])
    case MutateFails => s.(work := s.work[t := s.work[t].(wpc := Done)])
    case InvalidateOne(tag) =>
      s.(work := s.work[t := s.work[t].(wpc := Invalidating(s.work[t].wpc.todo - {tag}))],
         tokens := s.tokens[tag := s.next], next := s.next + 1)
    case EvictEntry(site) => s.(entries := s.entries - {site})
    case LoseToken(tag) => s.(tokens := s.tokens - {tag})
    case InvalidateElsewhere(tag) => s.(tokens := s.tokens[tag := s.next], next := s.next + 1)
  }

  function After(stripeOf: StripeOf, base: Base, run: seq<(Tid, Step)>): Option<State> {
    if run == [] then Some(State(map[], map[], base, map[], map[], 0))
    else
      var before := After(stripeOf, base, run[..|run| - 1]);
      var (t, step) := run[|run| - 1];
      if before.Some? && CanDo(stripeOf, before.value, t, step) then Some(Do(stripeOf, before.value, t, step)) else None
  }

  /** Whenever a mutation of the run writes, the owner read before locking is still the owner. */
  ghost predicate OwnersAgree(stripeOf: StripeOf, base: Base, run: seq<(Tid, Step)>) {
    forall i: nat | i < |run| && run[i].1.Mutate? ::
      var s := After(stripeOf, base, run[..i]);
      s.Some? && run[i].0 in s.value.work && s.value.work[run[i].0].Change? ==>
        OwnerAgrees(s.value.work[run[i].0].op, s.value.base)
  }

  // ---------------------------------------------------------------- invariant

  predicate Fits(stripeOf: StripeOf, w: Work, th: Thread) {
    match w
    case List(site, pc) =>
      th.mode.Read? && stripeOf(SiteResources(site)) in th.plan &&
      (pc == Look(false) || pc.Gone? || th.phase.Inside?)
    case Change(op, pc) =>
      th.mode.Write? && (forall site | site in Sites(op) :: stripeOf(SiteResources(site)) in th.plan) &&
      (pc.Invalidating? ==> th.phase.Inside?)
  }

  ghost predicate LocksOk(stripeOf: StripeOf, s: State) {
    && s.work.Keys == s.locks.Keys
    && forall t | t in s.work :: Fits(stripeOf, s.work[t], s.locks[t])
  }

  /** The thread has written rows of the site and still has to invalidate its listing. */
  predicate Owes(w: Work, site: SiteId) {
    w.Change? && w.wpc.Invalidating? && site in Sites(w.op) && SiteResources(site) in w.wpc.todo
  }

  ghost predicate Dirty(s: State, site: SiteId) {
    exists t :: t in s.work && Owes(s.work[t], site)
  }

  predicate Numbered(tokens: map<Tag, Token>, next: Token) {
    forall tag | tag in tokens :: tokens[tag] < next
  }

  /** The entry still matches in the tags given. */
  predicate InPlace(s: State, e: Entry, todo: set<Tag>) {
    forall tag | tag in todo :: tag in e.tags && tag in s.tokens && s.tokens[tag] == e.tags[tag]
  }

  /** An entry that still matches in the tags that are left to compare holds the listing of this moment. */
  predicate MatchExact(s: State, site: SiteId, e: Entry, todo: set<Tag>) {
    && Numbered(e.tags, s.next) && SiteResources(site) in e.tags
    && (InPlace(s, e, todo) ==> e.value == ListBySite(s.base, site))
  }

  predicate ReaderExact(s: State, site: SiteId, pc: ReadPc) {
    match pc
    case Check(_, e, todo) =>
      MatchExact(s, site, e, todo) && todo <= e.tags.Keys
    case Capture(tokens) => Numbered(tokens, s.next)
    case Fill(tokens, value) =>
      Numbered(tokens, s.next) && SiteResources(site) in tokens && value == ListBySite(s.base, site)
    case Return(value) => value == ListBySite(s.base, site)
    case _ => true
  }

  ghost predicate EntriesExact(s: State) {
    forall site | site in s.entries ::
      Numbered(s.entries[site].tags, s.next) && SiteResources(site) in s.entries[site].tags &&
      (!Dirty(s, site) ==> MatchExact(s, site, s.entries[site], s.entries[site].tags.Keys))
  }

  ghost predicate ReadersExact(s: State) {
    forall t | t in s.work && s.work[t].List? :: ReaderExact(s, s.work[t].site, s.work[t].rpc)
  }

  ghost predicate CacheInv(stripeOf: StripeOf, s: State) {
    && LocksOk(stripeOf, s) && Numbered(s.tokens, s.next) && EntriesExact(s) && ReadersExact(s)
  }

  /** While a reader is inside, no mutation of its site is between its write and its invalidation. */
  lemma ReaderIsClean(stripeOf: StripeOf, s: State, t: Tid)
    requires Inv(s.locks) && LocksOk(stripeOf, s) && t in s.work && s.work[t].List? && s.locks[t].phase.Inside?
    ensures forall u | u in s.work && s.work[u].Change? && s.locks[u].phase.Inside? :: s.work[t].site !in Sites(s.work[u].op)
  {
    forall u | u in s.work && s.work[u].Change? && s.locks[u].phase.Inside?
      ensures s.work[t].site !in Sites(s.work[u].op)
    {
      assert Fits(stripeOf, s.work[t], s.locks[t]) && Fits(stripeOf, s.work[u], s.locks[u]);
      InsideExcludes(s.locks, u, t);
    }
  }

  lemma ReadSiteIsClean(stripeOf: StripeOf, s: State, t: Tid)
    requires Inv(s.locks) && LocksOk(stripeOf, s) && t in s.work && s.work[t].List? && s.locks[t].phase.Inside?
    ensures !Dirty(s, s.work[t].site)
  {
    ReaderIsClean(stripeOf, s, t);
    forall u | u in s.work ensures !Owes(s.work[u], s.work[t].site) {
      assert Fits(stripeOf, s.work[u], s.locks[u]);
    }
  }

  // ---------------------------------------------------------------- preservation

  /** The repository stays as it is, and any generation that changed is one never used before. */
  ghost predicate Relaxes(s: State, r: State) {
    && r.base == s.base && s.next <= r.next
    && forall tag | tag in r.tokens :: (tag in s.tokens && s.tokens[tag] == r.tokens[tag]) || s.next <= r.tokens[tag] < r.next
  }

  lemma MatchRelaxed(s: State, r: State, site: SiteId, e: Entry, todo: set<Tag>)
    requires Relaxes(s, r) && MatchExact(s, site, e, todo)
    ensures MatchExact(r, site, e, todo)
  {
  }

  lemma ReaderRelaxed(s: State, r: State, site: SiteId, pc: ReadPc)
    requires Relaxes(s, r) && ReaderExact(s, site, pc)
    ensures ReaderExact(r, site, pc)
  {
  }

  /** Entries survive a step that keeps them, the repository, and what is owed. */
  lemma EntriesRelaxed(s: State, r: State)
    requires Relaxes(s, r) && EntriesExact(s)
    requires forall site | site in r.entries :: site in s.entries && r.entries[site] == s.entries[site]
    requires forall site | site in r.entries && Dirty(s, site) :: Dirty(r, site) || MatchExact(r, site, r.entries[site], r.entries[site].tags.Keys)
    ensures EntriesExact(r)
  {
    forall site | site in r.entries && !Dirty(r, site) ensures MatchExact(r, site, r.entries[site], r.entries[site].tags.Keys) {
      if !Dirty(s, site) {
        MatchRelaxed(s, r, site, s.entries[site], s.entries[site].tags.Keys);
      }
    }
  }

  /** A step of thread `t` that leaves the work of the others alone. */
  lemma OwesOthers(s: State, r: State, t: Tid)
    requires forall u | u in s.work && u != t :: u in r.work && r.work[u] == s.work[u]
    requires t in s.work ==> forall site | Owes(s.work[t], site) :: t in r.work && Owes(r.work[t], site)
    ensures forall site | Dirty(s, site) :: Dirty(r, site)
  {
    forall site | Dirty(s, site) ensures Dirty(r, site) {
      var u :| u in s.work && Owes(s.work[u], site);
      assert u in r.work && Owes(r.work[u], site);
    }
  }

  lemma ReadersRelaxed(s: State, r: State, t: Tid)
    requires Relaxes(s, r) && ReadersExact(s)
    requires forall u | u in r.work && u != t :: u in s.work && r.work[u] == s.work[u]
    requires t in r.work && r.work[t].List? ==> ReaderExact(r, r.work[t].site, r.work[t].rpc)
    ensures ReadersExact(r)
  {
    forall u | u in r.work && r.work[u].List? ensures ReaderExact(r, r.work[u].site, r.work[u].rpc) {
      if u != t {
        ReaderRelaxed(s, r, r.work[u].site, r.work[u].rpc);
      }
    }
  }

  lemma BeginKeeps(stripeOf: StripeOf, s: State, t: Tid, step: Step)
    requires CacheInv(stripeOf, s) && CanDo(stripeOf, s, t, step) && (step.BeginList? || step.BeginChange?)
    ensures CacheInv(stripeOf, Do(stripeOf, s, t, step))
  {
    var r := Do(stripeOf, s, t, step);
    OwesOthers(s, r, t);
    EntriesRelaxed(s, r);
    ReadersRelaxed(s, r, t);
  }

  lemma LockFits(stripeOf: StripeOf, s: State, t: Tid, step: Stripes.Step)
    requires LocksOk(stripeOf, s) && t in s.work && Enabled(s.locks, t, step) && LockStepFits(s.work[t], step)
    ensures LocksOk(stripeOf, LockDo(s, t, step))
  {
    assert Fits(stripeOf, s.work[t], s.locks[t]);
  }

  lemma LockKeeps(stripeOf: StripeOf, s: State, t: Tid, step: Stripes.Step)
    requires CacheInv(stripeOf, s) && CanDo(stripeOf, s, t, Lock(step))
    ensures CacheInv(stripeOf, Do(stripeOf, s, t, Lock(step)))
  {
    var r := LockDo(s, t, step);
    LockFits(stripeOf, s, t, step);
    assert Fits(stripeOf, s.work[t], s.locks[t]);
    OwesOthers(s, r, t);
    EntriesRelaxed(s, r);
    ReadersRelaxed(s, r, t);
  }

  /** A reader's step that moves only its own program point, and perhaps creates a generation. */
  lemma ReaderMoves(stripeOf: StripeOf, s: State, r: State, t: Tid)
    requires CacheInv(stripeOf, s) && Relaxes(s, r) && Numbered(r.tokens, r.next)
    requires r.locks == s.locks && r.entries == s.entries
    requires t in s.work && s.work[t].List? && s.locks[t].phase.Inside?
    requires t in r.work && r.work[t].List? && r.work == At(s, t, r.work[t].rpc)
    requires ReaderExact(r, s.work[t].site, r.work[t].rpc)
    ensures CacheInv(stripeOf, r)
  {
    assert Fits(stripeOf, s.work[t], s.locks[t]);
    OwesOthers(s, r, t);
    EntriesRelaxed(s, r);
    ReadersRelaxed(s, r, t);
  }

  lemma FetchKeeps(stripeOf: StripeOf, s: State, t: Tid, step: Step)
    requires CacheInv(stripeOf, s) && CanDo(stripeOf, s, t, step) && (step.Fetch? || step.Compare?)
    requires !Dirty(s, s.work[t].site)
    ensures CacheInv(stripeOf, Do(stripeOf, s, t, step))
  {
    var r := Do(stripeOf, s, t, step);
    assert ReaderExact(s, s.work[t].site, s.work[t].rpc);
    ReaderMoves(stripeOf, s, r, t);
  }

  lemma FillKeeps(stripeOf: StripeOf, s: State, t: Tid, step: Step)
    requires CacheInv(stripeOf, s) && CanDo(stripeOf, s, t, step)
    requires step.LookAgain? || step.CaptureToken? || step.Load? || step.GiveUp?
    ensures CacheInv(stripeOf, Do(stripeOf, s, t, step))
  {
    var r := Do(stripeOf, s, t, step);
    assert ReaderExact(s, s.work[t].site, s.work[t].rpc);
    ReaderMoves(stripeOf, s, r, t);
  }

  lemma StoreKeeps(stripeOf: StripeOf, s: State, t: Tid, step: Step)
    requires CacheInv(stripeOf, s) && CanDo(stripeOf, s, t, step) && step.Store?
    ensures CacheInv(stripeOf, Do(stripeOf, s, t, step))
  {
    var r := Do(stripeOf, s, t, step);
    assert ReaderExact(s, s.work[t].site, s.work[t].rpc);
    var kept := r.(entries := s.entries);
    ReaderMoves(stripeOf, s, kept, t);
    StoreExact(kept, r, s.work[t].site);
    ReadersRelaxed(kept, r, t);
  }

  lemma StoreExact(s: State, r: State, site: SiteId)
    requires EntriesExact(s) && r == s.(entries := r.entries) && site in r.entries
    requires r.entries == s.entries[site := r.entries[site]]
    requires MatchExact(s, site, r.entries[site], r.entries[site].tags.Keys)
    ensures EntriesExact(r)
  {
    forall other | other in r.entries && !Dirty(r, other) ensures MatchExact(r, other, r.entries[other], r.entries[other].tags.Keys) {
      assert Dirty(r, other) <==> Dirty(s, other);
    }
    forall other | other in r.entries
      ensures Numbered(r.entries[other].tags, r.next) && SiteResources(other) in r.entries[other].tags {
      assert other != site ==> other in s.entries;
    }
  }

  /** An operation that finds the owner it read changes the listings of no sites but its own. */
  lemma OwnSitesOnly(op: Op, base: Base, result: Base, site: SiteId)
    requires MutationFits(op, base, result) && OwnerAgrees(op, base) && site !in Sites(op)
    ensures ListBySite(base, site) == ListBySite(result, site)
  {
    forall id ensures id in ListBySite(base, site) <==> id in ListBySite(result, site) {
      RowElsewhere(op, base, result, site, id);
    }
    forall id | id in ListBySite(base, site) ensures ListBySite(base, site)[id] == ListBySite(result, site)[id] {
      RowElsewhere(op, base, result, site, id);
    }
  }

  lemma RowElsewhere(op: Op, base: Base, result: Base, site: SiteId, id: ResourceId)
    requires MutationFits(op, base, result) && OwnerAgrees(op, base) && site !in Sites(op)
    ensures (id in base && base[id].site == site) || (id in result && result[id].site == site) ==>
              id in base && id in result && base[id] == result[id]
  {
    assert id in base || id in result ==> id in base.Keys + result.Keys;
  }

  /** What the operations are for can be done: a new row, a changed or moved row, a moved subtree, rows removed. */
  lemma OrdinaryWritesFit(base: Base, id: ResourceId, content: string, site: SiteId, other: SiteId, rows: set<ResourceId>)
    requires forall x | x in rows :: x in base && base[x].site == site
    ensures id !in base ==> MutationFits(Create(site), base, base[id := Resource(site, content)])
    ensures id in rows ==> MutationFits(Update(id, site, other), base, base[id := Resource(other, content)])
    ensures id in rows ==> MutationFits(Transfer(id, site, other), base, Moved(base, rows, other))
    ensures id in rows ==> MutationFits(Delete(id, site), base, base - rows)
    ensures id in rows ==> MutationFits(Widgets(id, site), base, base[id := Resource(site, content)])
  {
  }

  function Moved(base: Base, rows: set<ResourceId>, target: SiteId): Base {
    map id | id in base :: if id in rows then base[id].(site := target) else base[id]
  }

  /** The reader has accepted a listing of its site, or will accept the one it found if nothing moves on. */
  predicate Trusts(s: State, pc: ReadPc) {
    match pc
    case Check(_, e, todo) => InPlace(s, e, todo)
    case Fill(_, _) => true
    case Return(_) => true
    case _ => false
  }

  /** Some cached entry of the site can be served, or some reader is about to serve a listing of it. */
  ghost predicate Relied(s: State, site: SiteId) {
    || (site in s.entries && !Dirty(s, site) && InPlace(s, s.entries[site], s.entries[site].tags.Keys))
    || exists u :: u in s.work && s.work[u].List? && s.work[u].site == site && Trusts(s, s.work[u].rpc)
  }

  /** A listing that somebody relies on changes only for sites that the operation locks and invalidates. */
  ghost predicate SafeMutation(s: State, op: Op, result: Base) {
    forall site | Relied(s, site) && site !in Sites(op) :: ListBySite(s.base, site) == ListBySite(result, site)
  }

  /** The step is no write, or a safe one. */
  ghost predicate SafeStep(s: State, t: Tid, step: Step) {
    step.Mutate? && t in s.work && s.work[t].Change? ==> SafeMutation(s, s.work[t].op, step.result)
  }

  lemma OwnerAgreesIsSafe(s: State, op: Op, result: Base)
    requires MutationFits(op, s.base, result) && OwnerAgrees(op, s.base)
    ensures SafeMutation(s, op, result)
  {
    forall site | site !in Sites(op) ensures ListBySite(s.base, site) == ListBySite(result, site) {
      OwnSitesOnly(op, s.base, result, site);
    }
  }

  /** The write makes exactly the operation's own sites dirty. */
  lemma MutateDirties(stripeOf: StripeOf, s: State, t: Tid, step: Step, site: SiteId)
    requires CanDo(stripeOf, s, t, step) && step.Mutate?
    ensures Dirty(Do(stripeOf, s, t, step), site) <==> Dirty(s, site) || site in Sites(s.work[t].op)
  {
    var r := Do(stripeOf, s, t, step);
    if site in Sites(s.work[t].op) {
      assert Owes(r.work[t], site);
    }
    if Dirty(s, site) {
      var u :| u in s.work && Owes(s.work[u], site);
      assert u in r.work && Owes(r.work[u], site);
    }
    if Dirty(r, site) && site !in Sites(s.work[t].op) {
      var u :| u in r.work && Owes(r.work[u], site);
      assert u in s.work && Owes(s.work[u], site);
    }
  }

  lemma MutateEntries(stripeOf: StripeOf, s: State, t: Tid, step: Step)
    requires CacheInv(stripeOf, s) && CanDo(stripeOf, s, t, step) && step.Mutate?
    requires SafeStep(s, t, step)
    ensures EntriesExact(Do(stripeOf, s, t, step))
  {
    var r := Do(stripeOf, s, t, step);
    forall site | site in r.entries && !Dirty(r, site) ensures MatchExact(r, site, r.entries[site], r.entries[site].tags.Keys) {
      MutateDirties(stripeOf, s, t, step, site);
      assert InPlace(s, s.entries[site], s.entries[site].tags.Keys) ==> Relied(s, site);
    }
  }

  /** No reader is inside a section on a site of the writer. */
  ghost predicate ReadersApart(s: State, t: Tid)
    requires s.work.Keys == s.locks.Keys && t in s.work && s.work[t].Change?
  {
    forall u | u in s.work && s.work[u].List? && s.locks[u].phase.Inside? :: s.work[u].site !in Sites(s.work[t].op)
  }

  lemma WriterHasNoReaders(stripeOf: StripeOf, s: State, t: Tid)
    requires Inv(s.locks) && LocksOk(stripeOf, s) && Writing(s, t)
    ensures ReadersApart(s, t)
  {
    forall u | u in s.work && s.work[u].List? && s.locks[u].phase.Inside? ensures s.work[u].site !in Sites(s.work[t].op) {
      ReaderIsClean(stripeOf, s, u);
    }
  }

  lemma MutateLocks(stripeOf: StripeOf, s: State, t: Tid, step: Step)
    requires CacheInv(stripeOf, s) && CanDo(stripeOf, s, t, step) && step.Mutate?
    ensures var r := Do(stripeOf, s, t, step); LocksOk(stripeOf, r) && Numbered(r.tokens, r.next)
  {
    assert Fits(stripeOf, s.work[t], s.locks[t]);
  }

  lemma MutateReaders(stripeOf: StripeOf, s: State, t: Tid, step: Step)
    requires CacheInv(stripeOf, s) && CanDo(stripeOf, s, t, step) && step.Mutate?
    requires SafeStep(s, t, step)
    requires ReadersApart(s, t)
    ensures ReadersExact(Do(stripeOf, s, t, step))
  {
    var r := Do(stripeOf, s, t, step);
    forall u | u in r.work && r.work[u].List? ensures ReaderExact(r, r.work[u].site, r.work[u].rpc) {
      assert Fits(stripeOf, s.work[u], s.locks[u]);
      assert ReaderExact(s, s.work[u].site, s.work[u].rpc);
      assert Trusts(s, s.work[u].rpc) ==> Relied(s, s.work[u].site);
    }
  }

  /** What somebody relies on and the operation does not invalidate must be the same afterwards. */
  lemma UnsafeBreaks(stripeOf: StripeOf, s: State, t: Tid, step: Step, site: SiteId)
    requires CacheInv(stripeOf, s) && CanDo(stripeOf, s, t, step) && step.Mutate?
    requires EntriesExact(Do(stripeOf, s, t, step)) && ReadersExact(Do(stripeOf, s, t, step))
    requires Relied(s, site) && site !in Sites(s.work[t].op)
    ensures ListBySite(s.base, site) == ListBySite(step.result, site)
  {
    var r := Do(stripeOf, s, t, step);
    MutateDirties(stripeOf, s, t, step, site);
    if site in s.entries && !Dirty(s, site) && InPlace(s, s.entries[site], s.entries[site].tags.Keys) {
      assert MatchExact(s, site, s.entries[site], s.entries[site].tags.Keys) && MatchExact(r, site, r.entries[site], r.entries[site].tags.Keys);
    } else {
      var u :| u in s.work && s.work[u].List? && s.work[u].site == site && Trusts(s, s.work[u].rpc);
      assert ReaderExact(s, site, s.work[u].rpc) && ReaderExact(r, site, r.work[u].rpc);
    }
  }

  lemma SafeMutationKeeps(stripeOf: StripeOf, s: State, t: Tid, step: Step)
    requires Inv(s.locks) && CacheInv(stripeOf, s) && CanDo(stripeOf, s, t, step) && step.Mutate?
    requires SafeStep(s, t, step)
    ensures CacheInv(stripeOf, Do(stripeOf, s, t, step))
  {
    WriterHasNoReaders(stripeOf, s, t);
    MutateLocks(stripeOf, s, t, step);
    MutateEntries(stripeOf, s, t, step);
    MutateReaders(stripeOf, s, t, step);
  }

  lemma KeptMutationIsSafe(stripeOf: StripeOf, s: State, t: Tid, step: Step)
    requires CacheInv(stripeOf, s) && CanDo(stripeOf, s, t, step) && step.Mutate?
    requires CacheInv(stripeOf, Do(stripeOf, s, t, step))
    ensures SafeStep(s, t, step)
  {
    forall site | Relied(s, site) && site !in Sites(s.work[t].op)
      ensures ListBySite(s.base, site) == ListBySite(step.result, site)
    {
      UnsafeBreaks(stripeOf, s, t, step, site);
    }
  }

  /**
   Which writes keep the cache exact: those, and only those, that change no listing
   anybody relies on beyond the sites the operation locked and will invalidate.
   */
  lemma MutateKeepsExactly(stripeOf: StripeOf, s: State, t: Tid, step: Step)
    requires Inv(s.locks) && CacheInv(stripeOf, s) && CanDo(stripeOf, s, t, step) && step.Mutate?
    ensures CacheInv(stripeOf, Do(stripeOf, s, t, step)) <==> SafeStep(s, t, step)
  {
    if SafeStep(s, t, step) {
      SafeMutationKeeps(stripeOf, s, t, step);
    }
    if CacheInv(stripeOf, Do(stripeOf, s, t, step)) {
      KeptMutationIsSafe(stripeOf, s, t, step);
    }
  }

  /** A site whose listing is invalidated now is not owed any more: its entry cannot match. */
  lemma InvalidateSettles(stripeOf: StripeOf, s: State, t: Tid, tag: Tag, site: SiteId)
    requires CacheInv(stripeOf, s) && CanDo(stripeOf, s, t, InvalidateOne(tag)) && site in s.entries && Dirty(s, site)
    ensures var r := Do(stripeOf, s, t, InvalidateOne(tag));
            Dirty(r, site) || MatchExact(r, site, s.entries[site], s.entries[site].tags.Keys)
  {
    var r := Do(stripeOf, s, t, InvalidateOne(tag));
    if tag == SiteResources(site) {
      assert r.tokens[tag] == s.next;
    } else {
      var u :| u in s.work && Owes(s.work[u], site);
      assert u in r.work && Owes(r.work[u], site);
    }
  }

  lemma InvalidateKeeps(stripeOf: StripeOf, s: State, t: Tid, tag: Tag)
    requires CacheInv(stripeOf, s) && CanDo(stripeOf, s, t, InvalidateOne(tag))
    ensures CacheInv(stripeOf, Do(stripeOf, s, t, InvalidateOne(tag)))
  {
    var r := Do(stripeOf, s, t, InvalidateOne(tag));
    assert Fits(stripeOf, s.work[t], s.locks[t]);
    forall site | site in r.entries && Dirty(s, site)
      ensures Dirty(r, site) || MatchExact(r, site, r.entries[site], r.entries[site].tags.Keys)
    {
      InvalidateSettles(stripeOf, s, t, tag, site);
    }
    EntriesRelaxed(s, r);
    ReadersRelaxed(s, r, t);
  }

  lemma MutateFailsKeeps(stripeOf: StripeOf, s: State, t: Tid)
    requires CacheInv(stripeOf, s) && CanDo(stripeOf, s, t, MutateFails)
    ensures CacheInv(stripeOf, Do(stripeOf, s, t, MutateFails))
  {
    var r := Do(stripeOf, s, t, MutateFails);
    assert Fits(stripeOf, s.work[t], s.locks[t]);
    OwesOthers(s, r, t);
    EntriesRelaxed(s, r);
    ReadersRelaxed(s, r, t);
  }

  /** Tokens move on, or entries go, and nobody's work changes. */
  lemma ElsewhereKeeps(stripeOf: StripeOf, s: State, r: State)
    requires CacheInv(stripeOf, s) && r.work == s.work && r.locks == s.locks && Relaxes(s, r) && Numbered(r.tokens, r.next)
    requires forall site | site in r.entries :: site in s.entries && r.entries[site] == s.entries[site]
    ensures CacheInv(stripeOf, r)
  {
    forall site | Dirty(s, site) ensures Dirty(r, site) {
    }
    EntriesRelaxed(s, r);
    forall u | u in r.work && r.work[u].List? ensures ReaderExact(r, r.work[u].site, r.work[u].rpc) {
      ReaderRelaxed(s, r, r.work[u].site, r.work[u].rpc);
    }
  }

  lemma OutsideKeeps(stripeOf: StripeOf, s: State, t: Tid, step: Step)
    requires CacheInv(stripeOf, s) && CanDo(stripeOf, s, t, step)
    requires step.InvalidateElsewhere? || step.LoseToken? || step.EvictEntry? || step.MutateFails?
    ensures CacheInv(stripeOf, Do(stripeOf, s, t, step))
  {
    if step.MutateFails? {
      MutateFailsKeeps(stripeOf, s, t);
    } else {
      ElsewhereKeeps(stripeOf, s, Do(stripeOf, s, t, step));
    }
  }

  lemma LocksStep(stripeOf: StripeOf, s: State, t: Tid, step: Step)
    requires Inv(s.locks) && CanDo(stripeOf, s, t, step)
    ensures Inv(Do(stripeOf, s, t, step).locks)
  {
    match step
    case BeginList(_, plan) => StepKeepsInv(s.locks, t, Start(Read, plan));
    case BeginChange(_, plan) => StepKeepsInv(s.locks, t, Start(Write, plan));
    case Lock(l) => StepKeepsInv(s.locks, t, l);
    case _ =>
  }

  lemma LookupKeeps(stripeOf: StripeOf, s: State, t: Tid, step: Step)
    requires Inv(s.locks) && CacheInv(stripeOf, s) && CanDo(stripeOf, s, t, step) && (step.Fetch? || step.Compare?)
    ensures CacheInv(stripeOf, Do(stripeOf, s, t, step))
  {
    ReadSiteIsClean(stripeOf, s, t);
    FetchKeeps(stripeOf, s, t, step);
  }

  predicate OfReader(step: Step) {
    step.Fetch? || step.Compare? || step.Store? || step.LookAgain? || step.CaptureToken? || step.Load? || step.GiveUp?
  }

  lemma ReaderStepKeeps(stripeOf: StripeOf, s: State, t: Tid, step: Step)
    requires Inv(s.locks) && CacheInv(stripeOf, s) && CanDo(stripeOf, s, t, step) && OfReader(step)
    ensures CacheInv(stripeOf, Do(stripeOf, s, t, step))
  {
    if step.Store? {
      StoreKeeps(stripeOf, s, t, step);
    } else if step.Fetch? || step.Compare? {
      LookupKeeps(stripeOf, s, t, step);
    } else {
      FillKeeps(stripeOf, s, t, step);
    }
  }

  lemma StepKeeps(stripeOf: StripeOf, s: State, t: Tid, step: Step)
    requires Inv(s.locks) && CacheInv(stripeOf, s) && CanDo(stripeOf, s, t, step)
    requires SafeStep(s, t, step)
    ensures CacheInv(stripeOf, Do(stripeOf, s, t, step))
  {
    if OfReader(step) {
      ReaderStepKeeps(stripeOf, s, t, step);
    } else if step.Mutate? {
      MutateKeepsExactly(stripeOf, s, t, step);
    } else if step.InvalidateOne? {
      InvalidateKeeps(stripeOf, s, t, step.tag);
    } else if step.Lock? {
      LockKeeps(stripeOf, s, t, step.step);
    } else if step.BeginList? || step.BeginChange? {
      BeginKeeps(stripeOf, s, t, step);
    } else {
      OutsideKeeps(stripeOf, s, t, step);
    }
  }

  /** The step at moment `i`, if the run gets there, is not an unsafe write. */
  ghost predicate SafeAt(stripeOf: StripeOf, base: Base, run: seq<(Tid, Step)>, i: nat)
    requires i < |run|
  {
    var s := After(stripeOf, base, run[..i]);
    s.Some? ==> SafeStep(s.value, run[i].0, run[i].1)
  }

  ghost predicate ExactAt(stripeOf: StripeOf, base: Base, run: seq<(Tid, Step)>, n: nat)
    requires n <= |run|
  {
    var s := After(stripeOf, base, run[..n]);
    s.Some? && Inv(s.value.locks) && CacheInv(stripeOf, s.value)
  }

  lemma AfterPrefix(stripeOf: StripeOf, base: Base, run: seq<(Tid, Step)>, n: nat)
    requires n < |run| && After(stripeOf, base, run[..n + 1]).Some?
    ensures After(stripeOf, base, run[..n]).Some?
    ensures CanDo(stripeOf, After(stripeOf, base, run[..n]).value, run[n].0, run[n].1)
    ensures After(stripeOf, base, run[..n + 1]).value == Do(stripeOf, After(stripeOf, base, run[..n]).value, run[n].0, run[n].1)
  {
    assert run[..n + 1][..n] == run[..n] && run[..n + 1][n] == run[n];
  }

  ghost predicate Possible(stripeOf: StripeOf, base: Base, run: seq<(Tid, Step)>, n: nat)
    requires n <= |run|
  {
    After(stripeOf, base, run[..n]).Some?
  }

  lemma ExactStep(stripeOf: StripeOf, base: Base, run: seq<(Tid, Step)>, n: nat)
    requires n < |run| && Possible(stripeOf, base, run, n + 1)
    ensures Possible(stripeOf, base, run, n)
    ensures ExactAt(stripeOf, base, run, n) ==> (ExactAt(stripeOf, base, run, n + 1) <==> SafeAt(stripeOf, base, run, n))
  {
    AfterPrefix(stripeOf, base, run, n);
    if ExactAt(stripeOf, base, run, n) {
      var s := After(stripeOf, base, run[..n]).value;
      LocksStep(stripeOf, s, run[n].0, run[n].1);
      if run[n].1.Mutate? {
        MutateKeepsExactly(stripeOf, s, run[n].0, run[n].1);
      } else {
        StepKeeps(stripeOf, s, run[n].0, run[n].1);
      }
    }
  }

  lemma StartIsExact(stripeOf: StripeOf, base: Base, run: seq<(Tid, Step)>)
    ensures ExactAt(stripeOf, base, run, 0)
  {
  }

  lemma {:induction false} ExactWhileSafe(stripeOf: StripeOf, base: Base, run: seq<(Tid, Step)>, n: nat)
    requires n <= |run| && Possible(stripeOf, base, run, n) && SafeUntil(stripeOf, base, run, n)
    ensures ExactAt(stripeOf, base, run, n)
  {
    if n == 0 {
      StartIsExact(stripeOf, base, run);
    } else {
      ExactStep(stripeOf, base, run, n - 1);
      assert SafeAt(stripeOf, base, run, n - 1);
      ExactWhileSafe(stripeOf, base, run, n - 1);
    }
  }

  ghost predicate SafeUntil(stripeOf: StripeOf, base: Base, run: seq<(Tid, Step)>, n: nat)
    requires n <= |run|
  {
    forall i: nat | i < n :: SafeAt(stripeOf, base, run, i)
  }

  lemma {:induction false} RunPrefix(stripeOf: StripeOf, base: Base, run: seq<(Tid, Step)>, n: nat)
    requires n <= |run| && After(stripeOf, base, run).Some?
    ensures After(stripeOf, base, run[..n]).Some?
    decreases |run| - n
  {
    if n < |run| {
      RunPrefix(stripeOf, base, run, n + 1);
      AfterPrefix(stripeOf, base, run, n);
    } else {
      assert run[..n] == run;
    }
  }

  /** The cache is exact at every moment of a run if and only if all its writes are safe. */
  lemma RunIsExactExactly(stripeOf: StripeOf, base: Base, run: seq<(Tid, Step)>)
    requires After(stripeOf, base, run).Some?
    ensures (forall n: nat | n <= |run| :: ExactAt(stripeOf, base, run, n))
            <==> SafeUntil(stripeOf, base, run, |run|)
  {
    forall n: nat | n <= |run| ensures After(stripeOf, base, run[..n]).Some? {
      RunPrefix(stripeOf, base, run, n);
    }
    if SafeUntil(stripeOf, base, run, |run|) {
      forall n: nat | n <= |run| ensures ExactAt(stripeOf, base, run, n) {
        assert SafeUntil(stripeOf, base, run, n);
        ExactWhileSafe(stripeOf, base, run, n);
      }
    } else if forall n: nat | n <= |run| :: ExactAt(stripeOf, base, run, n) {
      forall i: nat | i < |run| ensures SafeAt(stripeOf, base, run, i) {
        assert ExactAt(stripeOf, base, run, i) && ExactAt(stripeOf, base, run, i + 1);
        ExactStep(stripeOf, base, run, i);
      }
    }
  }

  lemma AgreeingRunIsSafe(stripeOf: StripeOf, base: Base, run: seq<(Tid, Step)>)
    requires After(stripeOf, base, run).Some? && OwnersAgree(stripeOf, base, run)
    ensures SafeUntil(stripeOf, base, run, |run|)
  {
    forall i: nat | i < |run| ensures SafeAt(stripeOf, base, run, i) {
      RunPrefix(stripeOf, base, run, i + 1);
      AfterPrefix(stripeOf, base, run, i);
      if run[i].1.Mutate? {
        var s := After(stripeOf, base, run[..i]).value;
        OwnerAgreesIsSafe(s, s.work[run[i].0].op, run[i].1.result);
      }
    }
  }

  lemma RunKeeps(stripeOf: StripeOf, base: Base, run: seq<(Tid, Step)>)
    requires After(stripeOf, base, run).Some? && OwnersAgree(stripeOf, base, run)
    ensures Inv(After(stripeOf, base, run).value.locks) && CacheInv(stripeOf, After(stripeOf, base, run).value)
  {
    AgreeingRunIsSafe(stripeOf, base, run);
    assert run[..|run|] == run;
    ExactWhileSafe(stripeOf, base, run, |run|);
  }

  /**
   Cached listings are exact: in every run whose mutations find the owner they
   read, a listing about to be returned is what the repository holds right then.
   */
  lemma CachedListingIsExact(stripeOf: StripeOf, base: Base, run: seq<(Tid, Step)>, t: Tid)
    requires After(stripeOf, base, run).Some? && OwnersAgree(stripeOf, base, run)
    requires var s := After(stripeOf, base, run).value; t in s.work && s.work[t].List? && s.work[t].rpc.Return?
    ensures var s := After(stripeOf, base, run).value; s.work[t].rpc.value == ListBySite(s.base, s.work[t].site)
  {
    RunKeeps(stripeOf, base, run);
    ReturnIsExact(After(stripeOf, base, run).value, t);
  }

  lemma ReturnIsExact(s: State, t: Tid)
    requires ReadersExact(s) && t in s.work && s.work[t].List? && s.work[t].rpc.Return?
    ensures s.work[t].rpc.value == ListBySite(s.base, s.work[t].site)
  {
    assert ReaderExact(s, s.work[t].site, s.work[t].rpc);
  }

  /** No resource changes site: at every moment of the run each row sits in the site `home` names. */
  ghost predicate SitesFixed(home: ResourceId -> SiteId, stripeOf: StripeOf, base: Base, run: seq<(Tid, Step)>) {
    forall i: nat | i <= |run| ::
      var s := After(stripeOf, base, run[..i]);
      s.Some? ==> forall id | id in s.value.base :: s.value.base[id].site == home(id)
  }

  predicate OwnerHome(home: ResourceId -> SiteId, w: Work) {
    w.Change? && (w.op.Delete? || w.op.Widgets?) ==> w.op.owner == home(w.op.id)
  }

  lemma OwnersStayHome(home: ResourceId -> SiteId, stripeOf: StripeOf, s: State, t: Tid, step: Step)
    requires CanDo(stripeOf, s, t, step)
    requires forall id | id in s.base :: s.base[id].site == home(id)
    requires forall u | u in s.work :: OwnerHome(home, s.work[u])
    ensures forall u | u in Do(stripeOf, s, t, step).work :: OwnerHome(home, Do(stripeOf, s, t, step).work[u])
  {
    var r := Do(stripeOf, s, t, step);
    forall u | u in r.work ensures OwnerHome(home, r.work[u]) {
      assert u in s.work ==> OwnerHome(home, s.work[u]);
    }
  }

  lemma {:induction false} OwnersAreHome(home: ResourceId -> SiteId, stripeOf: StripeOf, base: Base, run: seq<(Tid, Step)>)
    requires SitesFixed(home, stripeOf, base, run) && After(stripeOf, base, run).Some?
    ensures forall t | t in After(stripeOf, base, run).value.work :: OwnerHome(home, After(stripeOf, base, run).value.work[t])
  {
    if run != [] {
      var n := |run| - 1;
      forall i: nat | i <= n ensures run[..n][..i] == run[..i] {
      }
      OwnersAreHome(home, stripeOf, base, run[..n]);
      assert run[..n] == run[..n][..n];
      OwnersStayHome(home, stripeOf, After(stripeOf, base, run[..n]).value, run[n].0, run[n].1);
    }
  }

  /** Without site changes the owner always agrees, so cached listings are exact. */
  lemma FixedSitesAreExact(home: ResourceId -> SiteId, stripeOf: StripeOf, base: Base, run: seq<(Tid, Step)>, t: Tid)
    requires SitesFixed(home, stripeOf, base, run) && After(stripeOf, base, run).Some?
    requires var s := After(stripeOf, base, run).value; t in s.work && s.work[t].List? && s.work[t].rpc.Return?
    ensures var s := After(stripeOf, base, run).value; s.work[t].rpc.value == ListBySite(s.base, s.work[t].site)
  {
    forall i: nat | i < |run| && run[i].1.Mutate?
      ensures var s := After(stripeOf, base, run[..i]);
        s.Some? && run[i].0 in s.value.work && s.value.work[run[i].0].Change? ==>
          OwnerAgrees(s.value.work[run[i].0].op, s.value.base)
    {
      if After(stripeOf, base, run[..i]).Some? {
        forall j: nat | j <= i ensures run[..i][..j] == run[..j] {
        }
        OwnersAreHome(home, stripeOf, base, run[..i]);
        assert run[..i][..i] == run[..i];
      }
    }
    CachedListingIsExact(stripeOf, base, run, t);
  }

  // ---------------------------------------------------------------- the cache is used

  /** One thread goes on for these steps while the others do nothing. */
  function Alone(stripeOf: StripeOf, s: State, t: Tid, steps: seq<Step>): Option<State>
    decreases |steps|
  {
    if steps == [] then Some(s)
    else if CanDo(stripeOf, s, t, steps[0]) then Alone(stripeOf, Do(stripeOf, s, t, steps[0]), t, steps[1..])
    else None
  }

  lemma {:induction false} ComparesReturn(stripeOf: StripeOf, s: State, t: Tid) returns (steps: seq<Step>)
    requires Reading(s, t) && s.work[t].rpc.Check? && s.work[t].rpc.todo != {}
    requires InPlace(s, s.work[t].rpc.entry, s.work[t].rpc.todo)
    ensures Load !in steps
    ensures var r := Alone(stripeOf, s, t, steps);
            r.Some? && t in r.value.work && r.value.work[t] == s.work[t].(rpc := Return(s.work[t].rpc.entry.value))
    decreases s.work[t].rpc.todo
  {
    var todo := s.work[t].rpc.todo;
    var tag :| tag in todo;
    var next := Do(stripeOf, s, t, Compare(tag));
    if todo == {tag} {
      steps := [Compare(tag)];
      assert Alone(stripeOf, next, t, steps[1..]) == Some(next);
    } else {
      var rest := ComparesReturn(stripeOf, next, t);
      steps := [Compare(tag)] + rest;
      assert steps[1..] == rest;
    }
  }

  /** An entry whose tokens are all in place is served: the reader that looks returns its value without a load. */
  lemma MatchingEntryIsServed(stripeOf: StripeOf, s: State, t: Tid) returns (steps: seq<Step>)
    requires Reading(s, t) && s.work[t].rpc.Look? && s.work[t].site in s.entries
    requires var e := s.entries[s.work[t].site]; e.tags != map[] && InPlace(s, e, e.tags.Keys)
    ensures Load !in steps
    ensures var r := Alone(stripeOf, s, t, steps);
            && r.Some? && t in r.value.work
            && r.value.work[t].List? && r.value.work[t].rpc == Return(s.entries[s.work[t].site].value)
  {
    var next := Do(stripeOf, s, t, Fetch);
    var rest := ComparesReturn(stripeOf, next, t);
    steps := [Fetch] + rest;
    assert steps[1..] == rest;
  }
}
