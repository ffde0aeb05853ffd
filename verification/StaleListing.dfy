/**
 Why cached listings need resources to stay in their sites: a run in which a delete
 learns the owner, the resource moves to another site, and only then the delete
 takes its locks. It invalidates the old site, and the listing of the new site keeps
 the deleted resource after everybody has finished.
 */
module StaleListing {
  import opened Wrappers
  import opened Coherence
  import Stripes

  /** The entry of the site matches in all its tags. */
  predicate Servable(s: State, site: SiteId)
    requires site in s.entries
  {
    InPlace(s, s.entries[site], s.entries[site].tags.Keys)
  }

  /**
   A delete that finds its row in another site than the one whose owner it read: any
   entry of that site that can be served can still be served afterwards, and is wrong.
   */
  lemma MovedDeleteLeavesStale(stripeOf: StripeOf, s: State, t: Stripes.Tid, step: Step)
    requires CacheInv(stripeOf, s) && CanDo(stripeOf, s, t, step) && step.Mutate? && s.work[t].op.Delete?
    requires var op := s.work[t].op; op.id in s.base && op.id !in step.result && !OwnerAgrees(op, s.base)
    requires var site := s.base[s.work[t].op.id].site; site in s.entries && !Dirty(s, site) && Servable(s, site)
    ensures var r, site := Do(stripeOf, s, t, step), s.base[s.work[t].op.id].site;
            && site in r.entries && !Dirty(r, site) && Servable(r, site)
            && r.entries[site].value != ListBySite(r.base, site)
  {
    var id := s.work[t].op.id;
    var site := s.base[id].site;
    MutateDirties(stripeOf, s, t, step, site);
    assert MatchExact(s, site, s.entries[site], s.entries[site].tags.Keys);
    assert id in ListBySite(s.base, site) && id !in ListBySite(step.result, site);
  }

  const OLD: SiteId := 1
  const NEW: SiteId := 2
  const ITEM: ResourceId := 5

  const BEFORE: Base := map[ITEM := Resource(OLD, "x")]
  const MOVED: Base := map[ITEM := Resource(NEW, "x")]

  type Run = seq<(Stripes.Tid, Step)>

  /** All tags share a stripe. */
  function StripeFor(tag: Tag): nat {
    0
  }

  lemma Further(run: Run, s: State, t: Stripes.Tid, step: Step) returns (run': Run, s': State)
    requires After(StripeFor, BEFORE, run) == Some(s) && CanDo(StripeFor, s, t, step)
    ensures run' == run + [(t, step)] && s' == Do(StripeFor, s, t, step) && After(StripeFor, BEFORE, run') == Some(s')
  {
    run', s' := run + [(t, step)], Do(StripeFor, s, t, step);
    assert run'[..|run|] == run;
  }

  lemma Locks(run: Run, s: State, t: Stripes.Tid, step: Stripes.Step) returns (run': Run, s': State)
    requires After(StripeFor, BEFORE, run) == Some(s) && t in s.work
    requires Stripes.Enabled(s.locks, t, step) && LockStepFits(s.work[t], step)
    ensures s' == LockDo(s, t, step) && After(StripeFor, BEFORE, run') == Some(s')
  {
    run', s' := Further(run, s, t, Lock(step));
  }

  // ---------------------------------------------------------------- the states of the run

  function Writer(phase: Stripes.Phase): Stripes.Thread {
    Stripes.Thread(Stripes.Write, [0], phase)
  }

  function Reader(phase: Stripes.Phase): Stripes.Thread {
    Stripes.Thread(Stripes.Read, [0], phase)
  }

  const WAITS: Stripes.Phase := Stripes.Acquiring(0, false)
  const INSIDE: Stripes.Phase := Stripes.Inside(Stripes.NoLoad)
  const LOADS: Stripes.Phase := Stripes.Inside(Stripes.Holding("k"))

  function Deleting(pc: WritePc): Work {
    Change(Delete(ITEM, OLD), pc)
  }

  /** The delete has read the owner and locked nothing yet. */
  function Waiting(base: Base, entries: map<SiteId, Entry>, tokens: map<Tag, Token>, next: Token): State {
    State(map[1 := Writer(WAITS)], map[1 := Deleting(WritePc.Before)], base, entries, tokens, next)
  }

  /** Meanwhile another thread moves the resource. */
  function Moving(pc: WritePc, phase: Stripes.Phase, base: Base, tokens: map<Tag, Token>, next: Token): State {
    State(map[1 := Writer(WAITS), 2 := Writer(phase)],
          map[1 := Deleting(WritePc.Before), 2 := Change(Transfer(ITEM, OLD, NEW), pc)], base, map[], tokens, next)
  }

  /** Then a third one lists the new site. */
  function Listing(pc: ReadPc, phase: Stripes.Phase, entries: map<SiteId, Entry>, tokens: map<Tag, Token>, next: Token): State {
    State(map[1 := Writer(WAITS), 3 := Reader(phase)],
          map[1 := Deleting(WritePc.Before), 3 := List(NEW, pc)], MOVED, entries, tokens, next)
  }

  /** At last the delete goes on. */
  function Removing(pc: WritePc, phase: Stripes.Phase, base: Base, tokens: map<Tag, Token>, next: Token): State {
    State(map[1 := Writer(phase)], map[1 := Deleting(pc)], base, CACHED, tokens, next)
  }

  const TOKENS: map<Tag, Token> := map[SiteResources(OLD) := 0, SiteResources(NEW) := 1]
  const CAPTURED: map<Tag, Token> := map[SiteResources(NEW) := 1, SiteTag(NEW) := 2]
  const ALL_TOKENS: map<Tag, Token> := TOKENS[SiteTag(NEW) := 2]
  const CACHED: map<SiteId, Entry> := map[NEW := Entry(CAPTURED, MOVED)]

  // ---------------------------------------------------------------- the run

  lemma MoveStarts(run: Run, s: State) returns (run': Run, s': State)
    requires After(StripeFor, BEFORE, run) == Some(s) && s == Waiting(BEFORE, map[], map[], 0)
    ensures After(StripeFor, BEFORE, run') == Some(s') && s' == Moving(WritePc.Before, Stripes.Acquiring(0, true), BEFORE, map[], 0)
  {
    run', s' := Further(run, s, 2, BeginChange(Transfer(ITEM, OLD, NEW), [0]));
    run', s' := Locks(run', s', 2, Stripes.Announce);
  }

  lemma MoveEnters(run: Run, s: State) returns (run': Run, s': State)
    requires After(StripeFor, BEFORE, run) == Some(s) && s == Moving(WritePc.Before, Stripes.Acquiring(0, true), BEFORE, map[], 0)
    ensures After(StripeFor, BEFORE, run') == Some(s') && s' == Moving(WritePc.Before, INSIDE, BEFORE, map[], 0)
  {
    run', s' := Locks(run, s, 2, Stripes.Take);
    run', s' := Locks(run', s', 2, Stripes.Enter);
  }

  lemma MoveWrites(run: Run, s: State) returns (run': Run, s': State)
    requires After(StripeFor, BEFORE, run) == Some(s) && s == Moving(WritePc.Before, INSIDE, BEFORE, map[], 0)
    ensures After(StripeFor, BEFORE, run') == Some(s')
    ensures s' == Moving(Invalidating({SiteResources(OLD), SiteResources(NEW)}), INSIDE, MOVED, map[], 0)
  {
    run', s' := Further(run, s, 2, Mutate(MOVED, {SiteResources(OLD), SiteResources(NEW)}));
  }

  lemma MoveInvalidates(run: Run, s: State) returns (run': Run, s': State)
    requires After(StripeFor, BEFORE, run) == Some(s)
    requires s == Moving(Invalidating({SiteResources(OLD), SiteResources(NEW)}), INSIDE, MOVED, map[], 0)
    ensures After(StripeFor, BEFORE, run') == Some(s')
    ensures s' == Moving(Invalidating({SiteResources(NEW)}), INSIDE, MOVED, map[SiteResources(OLD) := 0], 1)
  {
    run', s' := Further(run, s, 2, InvalidateOne(SiteResources(OLD)));
    assert {SiteResources(OLD), SiteResources(NEW)} - {SiteResources(OLD)} == {SiteResources(NEW)};
  }

  lemma MoveInvalidatesNew(run: Run, s: State) returns (run': Run, s': State)
    requires After(StripeFor, BEFORE, run) == Some(s)
    requires s == Moving(Invalidating({SiteResources(NEW)}), INSIDE, MOVED, map[SiteResources(OLD) := 0], 1)
    ensures After(StripeFor, BEFORE, run') == Some(s') && s' == Moving(Invalidating({}), INSIDE, MOVED, TOKENS, 2)
  {
    run', s' := Further(run, s, 2, InvalidateOne(SiteResources(NEW)));
    assert {SiteResources(NEW)} - {SiteResources(NEW)} == {};
  }

  lemma MoveLeaves(run: Run, s: State) returns (run': Run, s': State)
    requires After(StripeFor, BEFORE, run) == Some(s) && s == Moving(Invalidating({}), INSIDE, MOVED, TOKENS, 2)
    ensures After(StripeFor, BEFORE, run') == Some(s') && s' == Waiting(MOVED, map[], TOKENS, 2)
  {
    run', s' := Locks(run, s, 2, Stripes.Leave);
    run', s' := Locks(run', s', 2, Stripes.Release);
    run', s' := Locks(run', s', 2, Stripes.Finish);
  }

  lemma ListBegins(run: Run, s: State) returns (run': Run, s': State)
    requires After(StripeFor, BEFORE, run) == Some(s) && s == Waiting(MOVED, map[], TOKENS, 2)
    ensures After(StripeFor, BEFORE, run') == Some(s') && s' == Listing(Look(false), WAITS, map[], TOKENS, 2)
  {
    run', s' := Further(run, s, 3, BeginList(NEW, [0]));
  }

  lemma ListStarts(run: Run, s: State) returns (run': Run, s': State)
    requires After(StripeFor, BEFORE, run) == Some(s) && s == Listing(Look(false), WAITS, map[], TOKENS, 2)
    ensures After(StripeFor, BEFORE, run') == Some(s') && s' == Listing(Look(false), Stripes.Acquiring(1, false), map[], TOKENS, 2)
  {
    run', s' := Locks(run, s, 3, Stripes.Take);
  }

  lemma ListMisses(run: Run, s: State) returns (run': Run, s': State)
    requires After(StripeFor, BEFORE, run) == Some(s) && s == Listing(Look(false), Stripes.Acquiring(1, false), map[], TOKENS, 2)
    ensures After(StripeFor, BEFORE, run') == Some(s') && s' == Listing(AskLock, INSIDE, map[], TOKENS, 2)
  {
    run', s' := Locks(run, s, 3, Stripes.Enter);
    run', s' := Further(run', s', 3, Fetch);
  }

  lemma ListLocks(run: Run, s: State) returns (run': Run, s': State)
    requires After(StripeFor, BEFORE, run) == Some(s) && s == Listing(AskLock, INSIDE, map[], TOKENS, 2)
    ensures After(StripeFor, BEFORE, run') == Some(s') && s' == Listing(AskLock, LOADS, map[], TOKENS, 2)
  {
    run', s' := Locks(run, s, 3, Stripes.AskLoad("k"));
    run', s' := Locks(run', s', 3, Stripes.TakeLoad);
  }

  lemma ListMissesAgain(run: Run, s: State) returns (run': Run, s': State)
    requires After(StripeFor, BEFORE, run) == Some(s) && s == Listing(AskLock, LOADS, map[], TOKENS, 2)
    ensures After(StripeFor, BEFORE, run') == Some(s') && s' == Listing(Capture(map[]), LOADS, map[], TOKENS, 2)
  {
    run', s' := Further(run, s, 3, LookAgain);
    run', s' := Further(run', s', 3, Fetch);
  }

  lemma ListCaptures(run: Run, s: State) returns (run': Run, s': State)
    requires After(StripeFor, BEFORE, run) == Some(s) && s == Listing(Capture(map[]), LOADS, map[], TOKENS, 2)
    ensures After(StripeFor, BEFORE, run') == Some(s') && s' == Listing(Capture(CAPTURED), LOADS, map[], ALL_TOKENS, 3)
  {
    run', s' := Further(run, s, 3, CaptureToken(SiteResources(NEW)));
    run', s' := Further(run', s', 3, CaptureToken(SiteTag(NEW)));
  }

  lemma ListFills(run: Run, s: State) returns (run': Run, s': State)
    requires After(StripeFor, BEFORE, run) == Some(s) && s == Listing(Capture(CAPTURED), LOADS, map[], ALL_TOKENS, 3)
    ensures After(StripeFor, BEFORE, run') == Some(s') && s' == Listing(Return(MOVED), LOADS, CACHED, ALL_TOKENS, 3)
  {
    assert CAPTURED.Keys == ListTags(NEW) && ListBySite(MOVED, NEW) == MOVED;
    run', s' := Further(run, s, 3, Load);
    run', s' := Further(run', s', 3, Store);
  }

  lemma ListUnlocks(run: Run, s: State) returns (run': Run, s': State)
    requires After(StripeFor, BEFORE, run) == Some(s) && s == Listing(Return(MOVED), LOADS, CACHED, ALL_TOKENS, 3)
    ensures After(StripeFor, BEFORE, run') == Some(s') && s' == Listing(Gone, Stripes.Releasing(1), CACHED, ALL_TOKENS, 3)
  {
    run', s' := Locks(run, s, 3, Stripes.FreeLoad);
    run', s' := Locks(run', s', 3, Stripes.Leave);
  }

  lemma ListReleases(run: Run, s: State) returns (run': Run, s': State)
    requires After(StripeFor, BEFORE, run) == Some(s) && s == Listing(Gone, Stripes.Releasing(1), CACHED, ALL_TOKENS, 3)
    ensures After(StripeFor, BEFORE, run') == Some(s') && s' == Listing(Gone, Stripes.Releasing(0), CACHED, ALL_TOKENS, 3)
  {
    run', s' := Locks(run, s, 3, Stripes.Release);
  }

  lemma ListLeaves(run: Run, s: State) returns (run': Run, s': State)
    requires After(StripeFor, BEFORE, run) == Some(s) && s == Listing(Gone, Stripes.Releasing(0), CACHED, ALL_TOKENS, 3)
    ensures After(StripeFor, BEFORE, run') == Some(s') && s' == Waiting(MOVED, CACHED, ALL_TOKENS, 3)
  {
    run', s' := Locks(run, s, 3, Stripes.Finish);
  }

  lemma DeleteAnnounces(run: Run, s: State) returns (run': Run, s': State)
    requires After(StripeFor, BEFORE, run) == Some(s) && s == Waiting(MOVED, CACHED, ALL_TOKENS, 3)
    ensures After(StripeFor, BEFORE, run') == Some(s') && s' == Removing(WritePc.Before, Stripes.Acquiring(0, true), MOVED, ALL_TOKENS, 3)
  {
    run', s' := Locks(run, s, 1, Stripes.Announce);
  }

  lemma DeleteLocks(run: Run, s: State) returns (run': Run, s': State)
    requires After(StripeFor, BEFORE, run) == Some(s) && s == Removing(WritePc.Before, Stripes.Acquiring(0, true), MOVED, ALL_TOKENS, 3)
    ensures After(StripeFor, BEFORE, run') == Some(s') && s' == Removing(WritePc.Before, Stripes.Acquiring(1, false), MOVED, ALL_TOKENS, 3)
  {
    WriterTakes(s.locks, 1);
    run', s' := Locks(run, s, 1, Stripes.Take);
  }

  /** A writer that is alone takes its stripe. */
  lemma WriterTakes(locks: Stripes.State, t: Stripes.Tid)
    requires locks == map[t := Writer(Stripes.Acquiring(0, true))]
    ensures Stripes.Enabled(locks, t, Stripes.Take)
    ensures Stripes.Do(locks, t, Stripes.Take) == map[t := Writer(Stripes.Acquiring(1, false))]
  {
  }

  lemma DeleteEnters(run: Run, s: State) returns (run': Run, s': State)
    requires After(StripeFor, BEFORE, run) == Some(s) && s == Removing(WritePc.Before, Stripes.Acquiring(1, false), MOVED, ALL_TOKENS, 3)
    ensures After(StripeFor, BEFORE, run') == Some(s') && s' == Removing(WritePc.Before, INSIDE, MOVED, ALL_TOKENS, 3)
  {
    run', s' := Locks(run, s, 1, Stripes.Enter);
  }

  /** The row of the new site goes. */
  lemma DeleteWrites(run: Run, s: State) returns (run': Run, s': State)
    requires After(StripeFor, BEFORE, run) == Some(s) && s == Removing(WritePc.Before, INSIDE, MOVED, ALL_TOKENS, 3)
    ensures After(StripeFor, BEFORE, run') == Some(s')
    ensures s' == Removing(Invalidating({SiteResources(OLD)}), INSIDE, map[], ALL_TOKENS, 3)
  {
    run', s' := Further(run, s, 1, Mutate(map[], {SiteResources(OLD)}));
  }

  /** Only the old site is invalidated. */
  lemma DeleteInvalidates(run: Run, s: State) returns (run': Run, s': State)
    requires After(StripeFor, BEFORE, run) == Some(s)
    requires s == Removing(Invalidating({SiteResources(OLD)}), INSIDE, map[], ALL_TOKENS, 3)
    ensures After(StripeFor, BEFORE, run') == Some(s')
    ensures s' == Removing(Invalidating({}), INSIDE, map[], ALL_TOKENS[SiteResources(OLD) := 3], 4)
  {
    run', s' := Further(run, s, 1, InvalidateOne(SiteResources(OLD)));
    assert {SiteResources(OLD)} - {SiteResources(OLD)} == {};
  }

  lemma DeleteLeaves(run: Run, s: State) returns (run': Run, s': State)
    requires After(StripeFor, BEFORE, run) == Some(s) && s == Removing(Invalidating({}), INSIDE, map[], ALL_TOKENS[SiteResources(OLD) := 3], 4)
    ensures After(StripeFor, BEFORE, run') == Some(s') && s' == State(map[], map[], map[], CACHED, ALL_TOKENS[SiteResources(OLD) := 3], 4)
  {
    run', s' := Locks(run, s, 1, Stripes.Leave);
    run', s' := Locks(run', s', 1, Stripes.Release);
    run', s' := Locks(run', s', 1, Stripes.Finish);
  }

  /** The resource moves while the delete waits, and the new site is listed and cached. */
  lemma ListingIsCached() returns (run: Run, s: State)
    ensures After(StripeFor, BEFORE, run) == Some(s) && s == Waiting(MOVED, CACHED, ALL_TOKENS, 3)
  {
    run, s := Further([], State(map[], map[], BEFORE, map[], map[], 0), 1, BeginChange(Delete(ITEM, OLD), [0]));
    run, s := MoveStarts(run, s);
    run, s := MoveEnters(run, s);
    run, s := MoveWrites(run, s);
    run, s := MoveInvalidates(run, s);
    run, s := MoveInvalidatesNew(run, s);
    run, s := MoveLeaves(run, s);
    run, s := ListBegins(run, s);
    run, s := ListStarts(run, s);
    run, s := ListMisses(run, s);
    run, s := ListLocks(run, s);
    run, s := ListMissesAgain(run, s);
    run, s := ListCaptures(run, s);
    run, s := ListFills(run, s);
    run, s := ListUnlocks(run, s);
    run, s := ListReleases(run, s);
    run, s := ListLeaves(run, s);
  }

  /** Nobody is at work, the cached listing matches all its generations, and it is not what the repository holds. */
  lemma StaleListingStays() returns (run: Run)
    ensures After(StripeFor, BEFORE, run).Some?
    ensures var s := After(StripeFor, BEFORE, run).value;
            && s.work == map[] && NEW in s.entries
            && (forall tag | tag in s.entries[NEW].tags :: tag in s.tokens && s.tokens[tag] == s.entries[NEW].tags[tag])
            && s.entries[NEW].value != ListBySite(s.base, NEW)
  {
    var s;
    run, s := ListingIsCached();
    run, s := DeleteAnnounces(run, s);
    run, s := DeleteLocks(run, s);
    run, s := DeleteEnters(run, s);
    run, s := DeleteWrites(run, s);
    run, s := DeleteInvalidates(run, s);
    run, s := DeleteLeaves(run, s);
    assert ITEM in MOVED && ITEM !in ListBySite(s.base, NEW);
  }
}
