/** Delivery of entity hooks to their recipients (entityhooks/delivery.go, entityhooks/adapters/postgres/source.go). */
module Delivery {
  import opened Wrappers

  type Target = string
  type Owner = nat // a fresh message ID per attempt

  const LEASE := 120 // seconds

  /** A recipient of one event. */
  datatype Row = Row(owner: Option<Owner>, until: int, completed: bool)

  /** `claimed` remembers which attempt claimed which recipient, `calls` which called the handler and whether it succeeded. */
  datatype State = State(rows: map<Target, Row>, clock: int, claimed: map<Owner, Target>, calls: map<Owner, bool>) {
    predicate Succeeded(o: Owner) {
      o in calls && calls[o]
    }
  }

  datatype Step = Claim(target: Target, owner: Owner) | Invoke(target: Target, owner: Owner, ok: bool)
                | Complete(target: Target, owner: Owner) | Fail(target: Target, owner: Owner) | Pass(seconds: nat)

  /** The conditions of the SQL statements, and the order of the statements within an attempt. */
  predicate CanDo(s: State, step: Step) {
    match step
    case Claim(t, o) =>
      t in s.rows && o !in s.claimed && !s.rows[t].completed && (s.rows[t].owner.None? || s.rows[t].until <= s.clock)
    case Invoke(t, o, _) => o in s.claimed && s.claimed[o] == t && o !in s.calls
    case Complete(t, o) => s.Succeeded(o) && o in s.claimed && s.claimed[o] == t && Holds(s, t, o) && s.clock < s.rows[t].until
    case Fail(t, o) => o in s.calls && !s.calls[o] && o in s.claimed && s.claimed[o] == t && Holds(s, t, o)
    case Pass(_) => true
  }

  predicate Holds(s: State, t: Target, o: Owner) {
    t in s.rows && s.rows[t].owner == Some(o) && !s.rows[t].completed
  }

  function Do(s: State, step: Step): State
    requires CanDo(s, step)
  {
    match step
    case Claim(t, o) => s.(rows := s.rows[t := Row(Some(o), s.clock + LEASE, false)], claimed := s.claimed[o := t])
    case Invoke(_, o, ok) => s.(calls := s.calls[o := ok])
    case Complete(t, _) => s.(rows := s.rows[t := Row(None, s.rows[t].until, true)])
    case Fail(t, _) => s.(rows := s.rows[t := s.rows[t].(owner := None)])
    case Pass(seconds) => s.(clock := s.clock + seconds)
  }

  /** The recipients appended with the event, before any attempt. */
  function Start(targets: set<Target>): State {
    State(map t | t in targets :: Row(None, 0, false), 0, map[], map[])
  }

  function After(targets: set<Target>, run: seq<Step>): Option<State> {
    if run == [] then Some(Start(targets))
    else
      var before := After(targets, run[..|run| - 1]);
      if before.Some? && CanDo(before.value, run[|run| - 1]) then Some(Do(before.value, run[|run| - 1])) else None
  }

  function OwnerOf(step: Step): Option<Owner> {
    match step
    case Claim(_, o) => Some(o)
    case Invoke(_, o, _) => Some(o)
    case Complete(_, o) => Some(o)
    case Fail(_, o) => Some(o)
    case Pass(_) => None
  }

  // ---------------------------------------------------------------- properties of every run

  /** The attempt claimed the recipient, its handler succeeded, and then the recipient was completed. */
  ghost predicate Executed(run: seq<Step>, t: Target, o: Owner) {
    exists i, j, k | 0 <= i < j < k < |run| :: run[i] == Claim(t, o) && run[j] == Invoke(t, o, true) && run[k] == Complete(t, o)
  }

  lemma Prefixes(targets: set<Target>, run: seq<Step>, i: nat)
    requires i <= |run| && After(targets, run).Some?
    ensures After(targets, run[..i]).Some?
    ensures i < |run| ==> CanDo(After(targets, run[..i]).value, run[i])
    ensures i < |run| ==> After(targets, run[..i + 1]) == Some(Do(After(targets, run[..i]).value, run[i]))
    decreases |run|
  {
    if i == |run| {
      assert run[..i] == run;
    } else {
      var n := |run| - 1;
      if i < n {
        Prefixes(targets, run[..n], i);
        assert run[..n][..i] == run[..i] && run[..n][..i + 1] == run[..i + 1];
      } else {
        assert run[..i + 1] == run;
      }
      assert run[..i + 1][..i] == run[..i];
    }
  }

  ghost predicate ClaimedSo(run: seq<Step>, s: State, o: Owner) {
    o in s.claimed ==> exists i | 0 <= i < |run| :: run[i] == Claim(s.claimed[o], o)
  }

  ghost predicate SucceededSo(run: seq<Step>, s: State, o: Owner) {
    s.Succeeded(o) ==>
      o in s.claimed && exists i, j | 0 <= i < j < |run| :: run[i] == Claim(s.claimed[o], o) && run[j] == Invoke(s.claimed[o], o, true)
  }

  ghost predicate CompletedSo(run: seq<Step>, s: State, t: Target) {
    t in s.rows && s.rows[t].completed ==> exists o :: Executed(run, t, o)
  }

  lemma {:induction false} HistoryIsRight(targets: set<Target>, run: seq<Step>)
    requires After(targets, run).Some?
    ensures var s := After(targets, run).value;
            forall o :: ClaimedSo(run, s, o) && SucceededSo(run, s, o)
    ensures var s := After(targets, run).value; forall t :: CompletedSo(run, s, t)
  {
    if run != [] {
      var n := |run| - 1;
      HistoryIsRight(targets, run[..n]);
      var before, s := After(targets, run[..n]).value, After(targets, run).value;
      assert run == run[..n] + [run[n]];
      forall o ensures ClaimedSo(run, s, o) && SucceededSo(run, s, o) {
        AttemptStep(run, before, o);
      }
      forall t ensures CompletedSo(run, s, t) {
        CompletionStep(run, before, t);
      }
    }
  }

  lemma AttemptStep(run: seq<Step>, s: State, o: Owner)
    requires run != [] && CanDo(s, run[|run| - 1])
    requires ClaimedSo(run[..|run| - 1], s, o) && SucceededSo(run[..|run| - 1], s, o)
    ensures var t := Do(s, run[|run| - 1]); ClaimedSo(run, t, o) && SucceededSo(run, t, o)
  {
    var n := |run| - 1;
    var before, t := run[..n], Do(s, run[n]);
    if o in s.claimed {
      var i :| 0 <= i < n && before[i] == Claim(s.claimed[o], o);
      assert run[i] == Claim(t.claimed[o], o);
      if s.Succeeded(o) {
        var a, b :| 0 <= a < b < n && before[a] == Claim(s.claimed[o], o) && before[b] == Invoke(s.claimed[o], o, true);
        assert run[a] == Claim(t.claimed[o], o) && run[b] == Invoke(t.claimed[o], o, true);
      } else if t.Succeeded(o) {
        assert run[n] == Invoke(t.claimed[o], o, true);
      }
    } else if o in t.claimed {
      assert run[n] == Claim(t.claimed[o], o);
    }
  }

  lemma CompletionStep(run: seq<Step>, s: State, t: Target)
    requires run != [] && CanDo(s, run[|run| - 1]) && CompletedSo(run[..|run| - 1], s, t)
    requires run[|run| - 1].Complete? ==> SucceededSo(run[..|run| - 1], s, run[|run| - 1].owner)
    ensures CompletedSo(run, Do(s, run[|run| - 1]), t)
  {
    var n := |run| - 1;
    var before := run[..n];
    if t in s.rows && s.rows[t].completed {
      var o :| Executed(before, t, o);
      ExecutedLater(before, run, 0, t, o);
    } else if run[n].Complete? && run[n].target == t {
      CompletedNow(run, s, t, run[n].owner);
    }
  }

  lemma CompletedNow(run: seq<Step>, s: State, t: Target, o: Owner)
    requires run != [] && run[|run| - 1] == Complete(t, o) && CanDo(s, run[|run| - 1])
    requires SucceededSo(run[..|run| - 1], s, o)
    ensures Executed(run, t, o)
  {
    var n := |run| - 1;
    var before := run[..n];
    var i, j :| 0 <= i < j < n && before[i] == Claim(t, o) && before[j] == Invoke(t, o, true);
    assert run[i] == Claim(t, o) && run[j] == Invoke(t, o, true);
  }

  /** A completed recipient was handled successfully by the attempt that completed it. */
  lemma CompletedMeansHandled(targets: set<Target>, run: seq<Step>, t: Target)
    requires After(targets, run).Some? && t in After(targets, run).value.rows && After(targets, run).value.rows[t].completed
    ensures exists o :: Executed(run, t, o)
  {
    HistoryIsRight(targets, run);
    assert CompletedSo(run, After(targets, run).value, t);
  }

  /** A handler runs only for an attempt that claimed its recipient. */
  lemma InvocationsAreClaimed(targets: set<Target>, run: seq<Step>, j: nat, t: Target, o: Owner, ok: bool)
    requires After(targets, run).Some? && j < |run| && run[j] == Invoke(t, o, ok)
    ensures exists i | 0 <= i < j :: run[i] == Claim(t, o)
  {
    Prefixes(targets, run, j);
    HistoryIsRight(targets, run[..j]);
    assert ClaimedSo(run[..j], After(targets, run[..j]).value, o);
    var i :| 0 <= i < j && run[..j][i] == Claim(t, o);
    assert run[i] == Claim(t, o);
  }

  lemma {:induction false} CompletedStays(targets: set<Target>, run: seq<Step>, i: nat, t: Target)
    requires i <= |run| && After(targets, run).Some?
    requires After(targets, run[..i]).Some? && t in After(targets, run[..i]).value.rows && After(targets, run[..i]).value.rows[t].completed
    ensures t in After(targets, run).value.rows && After(targets, run).value.rows[t].completed
  {
    if i < |run| {
      var n := |run| - 1;
      assert run[..n][..i] == run[..i];
      CompletedStays(targets, run[..n], i, t);
    } else {
      assert run[..i] == run;
    }
  }

  /** After a recipient is completed no attempt claims it, and none completes it again. */
  lemma CompletedIsFinal(targets: set<Target>, run: seq<Step>, i: nat, j: nat, t: Target, o: Owner)
    requires After(targets, run).Some? && i < j < |run| && run[i] == Complete(t, o)
    ensures !((run[j].Claim? || run[j].Complete?) && run[j].target == t)
  {
    Prefixes(targets, run, i);
    Prefixes(targets, run, j);
    assert run[..j][..i + 1] == run[..i + 1];
    CompletedStays(targets, run[..j], i + 1, t);
  }

  /** The recipient still belongs to the attempt that claimed it at `since`, or is done. */
  ghost predicate Kept(s: State, t: Target, o: Owner, since: int) {
    t in s.rows && (s.rows[t].completed || s.rows[t] == Row(Some(o), since + LEASE, false))
  }

  lemma KeptStep(s: State, step: Step, t: Target, o: Owner, since: int)
    requires CanDo(s, step) && step != Fail(t, o)
    requires s.clock >= since + LEASE || Kept(s, t, o, since)
    ensures var r := Do(s, step); r.clock >= since + LEASE || Kept(r, t, o, since)
  {
  }

  lemma {:induction false} LeaseLasts(targets: set<Target>, run: seq<Step>, i: nat, t: Target, o: Owner, since: int)
    requires After(targets, run).Some? && i < |run| && run[i] == Claim(t, o)
    requires forall k | i < k < |run| :: run[k] != Fail(t, o)
    requires After(targets, run[..i]).Some? && since == After(targets, run[..i]).value.clock
    ensures After(targets, run).value.clock >= since + LEASE || Kept(After(targets, run).value, t, o, since)
    decreases |run|
  {
    var n := |run| - 1;
    if i < n {
      assert run[..n][..i] == run[..i];
      LeaseLasts(targets, run[..n], i, t, o, since);
      KeptStep(After(targets, run[..n]).value, run[n], t, o, since);
    }
  }

  /** A second claim of a recipient comes only after the lease of the first ran out or was given up. */
  lemma LeasesExclude(targets: set<Target>, run: seq<Step>, i: nat, j: nat, t: Target, o: Owner, p: Owner)
    requires After(targets, run).Some? && i < j < |run| && run[i] == Claim(t, o) && run[j] == Claim(t, p)
    ensures After(targets, run[..i]).Some? && After(targets, run[..j]).Some?
    ensures || (exists k | i < k < j :: run[k] == Fail(t, o))
            || After(targets, run[..j]).value.clock >= After(targets, run[..i]).value.clock + LEASE
  {
    Prefixes(targets, run, i);
    Prefixes(targets, run, j);
    if !exists k | i < k < j :: run[k] == Fail(t, o) {
      assert run[..j][..i] == run[..i];
      LeaseLasts(targets, run[..j], i, t, o, After(targets, run[..i]).value.clock);
    }
  }

  // ---------------------------------------------------------------- when a handler can run again

  /** The attempt claimed the recipient and has not called its handler yet. */
  predicate Stalled(s: State, t: Target, o: Owner) {
    o in s.claimed && s.claimed[o] == t && o !in s.calls
  }

  lemma {:induction false} RecordsLast(targets: set<Target>, run: seq<Step>, i: nat)
    requires i <= |run| && After(targets, run).Some? && After(targets, run[..i]).Some?
    ensures var s, r := After(targets, run[..i]).value, After(targets, run).value;
            && (forall o | o in s.claimed :: o in r.claimed && r.claimed[o] == s.claimed[o])
            && forall o | o in s.calls :: o in r.calls
    decreases |run|
  {
    if i < |run| {
      assert run[..|run| - 1][..i] == run[..i];
      RecordsLast(targets, run[..|run| - 1], i);
    } else {
      assert run[..i] == run;
    }
  }

  /** Some longer run has the attempt call the handler after this moment. */
  ghost predicate MayInvoke(targets: set<Target>, run: seq<Step>, t: Target, o: Owner) {
    exists longer, j :: InvokesLater(targets, run, longer, j, t, o)
  }

  ghost predicate InvokesLater(targets: set<Target>, run: seq<Step>, longer: seq<Step>, j: nat, t: Target, o: Owner) {
    && run <= longer && After(targets, longer).Some? && |run| <= j < |longer|
    && longer[j].Invoke? && longer[j].target == t && longer[j].owner == o
  }

  /** What a later call needs. */
  lemma InvokesLaterMeans(targets: set<Target>, run: seq<Step>, longer: seq<Step>, j: nat, t: Target, o: Owner)
    requires After(targets, run).Some? && InvokesLater(targets, run, longer, j, t, o)
    ensures var s := After(targets, run).value;
            Stalled(s, t, o) || (o !in s.claimed && t in s.rows && !s.rows[t].completed)
  {
    var s := After(targets, run).value;
    var n := |run|;
    assert longer[..n] == run;
    Prefixes(targets, longer, j);
    var before := longer[..j];
    assert before[..n] == run;
    RecordsLast(targets, before, n);
    if o !in s.claimed {
      InvocationsAreClaimed(targets, longer, j, t, o, longer[j].ok);
      var i :| 0 <= i < j && longer[i] == Claim(t, o);
      ClaimedLater(targets, run, longer, i, t, o);
    }
  }

  lemma ClaimedLater(targets: set<Target>, run: seq<Step>, longer: seq<Step>, i: nat, t: Target, o: Owner)
    requires run <= longer && After(targets, run).Some? && After(targets, longer).Some?
    requires i < |longer| && longer[i] == Claim(t, o) && o !in After(targets, run).value.claimed
    ensures t in After(targets, run).value.rows && !After(targets, run).value.rows[t].completed
  {
    var n := |run|;
    Prefixes(targets, longer, i);
    if i < n {
      assert longer[..n] == run && run[..i + 1] == longer[..i + 1];
      RecordsLast(targets, run, i + 1);
    } else {
      var before := longer[..i];
      assert before[..n] == run;
      SameRecipients(targets, run);
      SameRecipients(targets, before);
      if After(targets, run).value.rows[t].completed {
        CompletedStays(targets, before, n, t);
      }
    }
  }

  /** A new attempt takes over a recipient that is not completed, as soon as no lease runs any more. */
  lemma TakeOver(targets: set<Target>, run: seq<Step>, t: Target, o: Owner) returns (longer: seq<Step>, s: State)
    requires After(targets, run).Some? && t in After(targets, run).value.rows
    requires !After(targets, run).value.rows[t].completed
    requires o !in After(targets, run).value.claimed && o !in After(targets, run).value.calls
    ensures run < longer && After(targets, longer) == Some(s)
    ensures longer[|longer| - 1] == Invoke(t, o, true) && InvokesLater(targets, run, longer, |longer| - 1, t, o)
    ensures CanDo(s, Complete(t, o))
  {
    s := After(targets, run).value;
    var wait: nat := if s.rows[t].until <= s.clock then 0 else s.rows[t].until - s.clock;
    longer, s := Further(targets, run, s, Pass(wait));
    longer, s := Further(targets, longer, s, Claim(t, o));
    longer, s := Further(targets, longer, s, Invoke(t, o, true));
  }

  lemma {:induction false} CallsAreClaimed(targets: set<Target>, run: seq<Step>)
    requires After(targets, run).Some?
    ensures After(targets, run).value.calls.Keys <= After(targets, run).value.claimed.Keys
  {
    if run != [] {
      CallsAreClaimed(targets, run[..|run| - 1]);
    }
  }

  /**
   Which attempts can still call a handler, at any moment of any run: those that have
   claimed the recipient and not called it yet, and, while it is not completed, all new ones.
   */
  lemma MayInvokeExactly(targets: set<Target>, run: seq<Step>, t: Target, o: Owner)
    requires After(targets, run).Some? && t in targets
    ensures var s := After(targets, run).value;
            t in s.rows && (MayInvoke(targets, run, t, o) <==> Stalled(s, t, o) || (o !in s.claimed && !s.rows[t].completed))
  {
    var s := After(targets, run).value;
    SameRecipients(targets, run);
    CallsAreClaimed(targets, run);
    if MayInvoke(targets, run, t, o) {
      var longer, j :| InvokesLater(targets, run, longer, j, t, o);
      InvokesLaterMeans(targets, run, longer, j, t, o);
    }
    if Stalled(s, t, o) {
      var longer, _ := Further(targets, run, s, Invoke(t, o, true));
      assert InvokesLater(targets, run, longer, |run|, t, o);
    } else if o !in s.claimed && !s.rows[t].completed {
      var longer, _ := TakeOver(targets, run, t, o);
    }
  }

  lemma {:induction false} UnusedOwner(used: set<Owner>) returns (o: Owner)
    ensures forall x | x in used :: x < o
  {
    if used == {} {
      o := 0;
    } else {
      var x :| x in used;
      var rest := UnusedOwner(used - {x});
      o := if x < rest then rest else x + 1;
      assert forall y | y in used :: y == x || y in used - {x};
    }
  }

  /**
   When a handler that has succeeded can be called again: exactly while its recipient is
   not completed, or an attempt that claimed it has not called it yet.
   */
  lemma SuccessIsRepeatedExactly(targets: set<Target>, run: seq<Step>, i: nat, t: Target, o: Owner)
    requires After(targets, run).Some? && i < |run| && run[i] == Invoke(t, o, true) && t in targets
    ensures var s := After(targets, run).value;
            t in s.rows && ((exists p :: MayInvoke(targets, run, t, p)) <==> !s.rows[t].completed || exists p :: Stalled(s, t, p))
    ensures !MayInvoke(targets, run, t, o)
  {
    var s := After(targets, run).value;
    SameRecipients(targets, run);
    forall p ensures MayInvoke(targets, run, t, p) <==> Stalled(s, t, p) || (p !in s.claimed && !s.rows[t].completed) {
      MayInvokeExactly(targets, run, t, p);
    }
    if !s.rows[t].completed {
      var p := UnusedOwner(s.claimed.Keys);
      assert MayInvoke(targets, run, t, p);
    }
    Prefixes(targets, run, i);
    RecordsLast(targets, run, i + 1);
    CallsAreClaimed(targets, run);
  }

  /** A success that was not recorded in time is repeated by any new attempt, whose success can then be recorded. */
  lemma LateSuccessIsRepeated(targets: set<Target>, run: seq<Step>, i: nat, t: Target, o: Owner, p: Owner)
    returns (longer: seq<Step>, j: nat)
    requires After(targets, run).Some? && i < |run| && run[i] == Invoke(t, o, true) && t in targets
    requires t in After(targets, run).value.rows ==> !After(targets, run).value.rows[t].completed
    requires p !in After(targets, run).value.claimed
    ensures run <= longer && After(targets, longer).Some? && |run| <= j < |longer| && longer[j] == Invoke(t, p, true)
    ensures t in After(targets, longer).value.rows && After(targets, longer).value.rows[t].completed
  {
    SameRecipients(targets, run);
    CallsAreClaimed(targets, run);
    var s;
    longer, s := TakeOver(targets, run, t, p);
    j := |longer| - 1;
    longer, s := Further(targets, longer, s, Complete(t, p));
  }

  /** An attempt that could still call the handler of a completed recipient has outlived its lease. */
  lemma StalledOutlivesLease(targets: set<Target>, run: seq<Step>, i: nat, t: Target, o: Owner)
    requires After(targets, run).Some? && i < |run| && run[i] == Claim(t, o)
    requires var s := After(targets, run).value; Stalled(s, t, o) && t in s.rows && s.rows[t].completed
    ensures After(targets, run[..i]).Some?
    ensures After(targets, run).value.clock >= After(targets, run[..i]).value.clock + LEASE
  {
    Prefixes(targets, run, i);
    StalledKeeps(targets, run, i, t, o, After(targets, run[..i]).value.clock);
  }

  /** The lease the attempt took at `since` has run out, or the recipient still is the attempt's and open. */
  predicate Leased(s: State, t: Target, o: Owner, since: int) {
    s.clock >= since + LEASE || (t in s.rows && s.rows[t] == Row(Some(o), since + LEASE, false))
  }

  /** While an attempt has not called the handler, its lease runs or the row is its own and open. */
  lemma {:induction false} StalledKeeps(targets: set<Target>, run: seq<Step>, i: nat, t: Target, o: Owner, since: int)
    requires After(targets, run).Some? && i < |run| && run[i] == Claim(t, o)
    requires After(targets, run[..i]).Some? && since == After(targets, run[..i]).value.clock
    requires o !in After(targets, run).value.calls
    ensures Leased(After(targets, run).value, t, o, since)
    decreases |run|
  {
    var n := |run| - 1;
    if i < n {
      assert run[..n][..i] == run[..i];
      StalledKeeps(targets, run[..n], i, t, o, since);
      StalledStep(After(targets, run[..n]).value, run[n], t, o, since);
    }
  }

  lemma StalledStep(s: State, step: Step, t: Target, o: Owner, since: int)
    requires CanDo(s, step) && o !in s.calls
    requires Leased(s, t, o, since)
    ensures Leased(Do(s, step), t, o, since)
  {
  }

  lemma Further(targets: set<Target>, run: seq<Step>, s: State, step: Step) returns (run': seq<Step>, s': State)
    requires After(targets, run) == Some(s) && CanDo(s, step)
    ensures run' == run + [step] && s' == Do(s, step) && After(targets, run') == Some(s')
  {
    run', s' := run + [step], Do(s, step);
    assert run'[..|run|] == run;
  }

  // ---------------------------------------------------------------- the runner

  datatype Listed = Listed(target: Target, completed: bool)
  datatype Problem = NotAvailable | BusyElsewhere | HandlerFailed | StoreFailed

  /**
   What an attempt meets: whether the target has a registry with its handler, whether that
   can be pinned, whether the claim reaches the source, how the handler ends, and whether the
   outcome reaches the source.
   */
  datatype Circumstances = Circumstances(available: bool, pinned: bool, reachable: bool, ok: bool, written: bool) {
    predicate Claims() {
      available && pinned && reachable
    }

    /** The problem of an attempt that does not get as far as its claim. */
    function Obstacle(): Problem
      requires !Claims()
    {
      if !available then NotAvailable else if !pinned then BusyElsewhere else StoreFailed
    }
  }

  datatype Attempt = Attempt(target: Target, owner: Owner, problem: Option<Problem>)

  class Runner {
    ghost const targets: set<Target>
    ghost var run: seq<Step>
    var s: State

    constructor (targets: set<Target>)
      ensures Valid() && this.targets == targets && run == []
    {
      this.targets, run, s := targets, [], Start(targets);
    }

    ghost predicate Valid()
      reads this
    {
      After(targets, run) == Some(s) && s.calls.Keys <= s.claimed.Keys
    }

    method Perform(step: Step)
      requires Valid() && CanDo(s, step)
      modifies this
      ensures Valid() && run == old(run) + [step] && s == Do(old(s), step)
    {
      assert (run + [step])[..|run|] == run;
      run := run + [step];
      s := Do(s, step);
    }

    /** Other runners, redeliveries and time; they do not know this runner's owner. */
    method Others(mine: Option<Owner>)
      requires Valid() && (mine.Some? ==> mine.value in s.claimed)
      modifies this
      ensures Valid() && Continues(old(run), run, old(s), s, mine)
    {
      var n: nat := *;
      while n > 0
        invariant Valid() && Continues(old(run), run, old(s), s, mine)
      {
        n := n - 1;
        var step: Step := *;
        if CanDo(s, step) && (mine.None? || OwnerOf(step) != mine) {
          Perform(step);
        }
      }
    }

    /** `Calls`: the recipients and whether they are completed at that moment. */
    method Calls() returns (calls: seq<Listed>)
      requires Valid()
      ensures Lists(calls, s)
    {
      calls := [];
      var rest := s.rows.Keys;
      while rest != {}
        invariant rest <= s.rows.Keys
        invariant forall call | call in calls :: call.target in s.rows && call.completed == s.rows[call.target].completed
        invariant forall t | t in s.rows && t !in rest :: Listed(t, s.rows[t].completed) in calls
        decreases |rest|
      {
        var t :| t in rest;
        calls, rest := calls + [Listed(t, s.rows[t].completed)], rest - {t};
      }
    }

    /**
     One attempt at one recipient. No problem means that this attempt claimed it, its
     handler succeeded, and it was completed under the same lease. An attempt that cannot
     claim does nothing; one that claims calls the handler, and has a problem exactly when the
     handler failed or the outcome could not be recorded.
     */
    method Execute(t: Target, c: Circumstances) returns (problem: Option<Problem>, owner: Owner)
      requires Valid()
      modifies this
      ensures Valid() && old(run) <= run && owner !in old(s).claimed
      ensures problem.None? ==> Executed(run[|old(run)|..], t, owner)
      ensures !c.Claims() ==> problem == Some(c.Obstacle()) && run == old(run)
      ensures c.Claims() && !CanDo(old(s), Claim(t, owner)) ==> problem == Some(BusyElsewhere) && run == old(run)
      ensures c.Claims() && CanDo(old(s), Claim(t, owner)) ==>
                Called(run[|old(run)|..], t, owner, c.ok) && Outcome(s, run, t, owner, c, problem)
      ensures Caused(targets, |old(run)|, run, Attempt(t, owner, problem), c)
    {
      owner := NewOwner();
      assert run[..|run|] == run;
      if !c.available { return Some(NotAvailable), owner; }
      if !c.pinned { return Some(BusyElsewhere), owner; }
      if !c.reachable { return Some(StoreFailed), owner; }
      if !CanDo(s, Claim(t, owner)) { return Some(BusyElsewhere), owner; }
      Perform(Claim(t, owner));
      problem := Invoke(t, owner, c, |old(run)|);
      OutcomeIsCaused(targets, |old(run)|, run, s, t, owner, c, problem);
    }

    /** Calls the handler of a recipient that was just claimed, and records the outcome. */
    method Invoke(t: Target, owner: Owner, c: Circumstances, ghost start: nat) returns (problem: Option<Problem>)
      requires Valid() && owner in s.claimed && s.claimed[owner] == t && owner !in s.calls
      requires start < |run| && run[start] == Claim(t, owner)
      modifies this
      ensures Valid() && old(run) <= run
      ensures Called(run[start..], t, owner, c.ok) && Outcome(s, run, t, owner, c, problem)
      ensures problem.None? ==> Executed(run[start..], t, owner)
    {
      ghost var middle := Call(t, owner, c.ok, start);
      problem := Record(t, owner, c, start, middle);
      AttemptCalled(run, start, middle, t, owner, c.ok);
      if problem.None? { AttemptExecuted(run, start, middle, t, owner); }
    }

    /** The call itself; what goes on beside it leaves the claim of this attempt alone. */
    method Call(t: Target, owner: Owner, ok: bool, ghost start: nat) returns (ghost middle: nat)
      requires Valid() && owner in s.claimed && s.claimed[owner] == t && owner !in s.calls
      requires start < |run| && run[start] == Claim(t, owner)
      modifies this
      ensures Valid() && old(run) <= run
      ensures start < middle < |run| && run[start] == Claim(t, owner) && run[middle] == Step.Invoke(t, owner, ok)
    {
      Others(Some(owner));
      middle := |run|;
      Perform(Step.Invoke(t, owner, ok));
      Others(Some(owner));
    }

    /** Records how the handler ended, where that reaches the source and is still possible. */
    method Record(t: Target, owner: Owner, c: Circumstances, ghost start: nat, ghost middle: nat) returns (problem: Option<Problem>)
      requires Valid() && start < middle < |run| && run[start] == Claim(t, owner) && run[middle] == Step.Invoke(t, owner, c.ok)
      modifies this
      ensures Valid() && old(run) <= run && run[start] == Claim(t, owner) && run[middle] == Step.Invoke(t, owner, c.ok)
      ensures Outcome(s, run, t, owner, c, problem)
      ensures problem.None? ==> |old(run)| < |run|
    {
      if !c.ok {
        if c.written && CanDo(s, Fail(t, owner)) {
          Perform(Fail(t, owner));
        }
        return Some(HandlerFailed);
      }
      if !c.written || !CanDo(s, Complete(t, owner)) {
        return Some(StoreFailed);
      }
      Perform(Complete(t, owner));
      problem := None;
    }

    /** `messageid.New`: an identifier no attempt has used. */
    method NewOwner() returns (owner: Owner)
      ensures owner !in s.claimed
    {
      owner := 0;
      var rest := s.claimed.Keys;
      while rest != {}
        invariant rest <= s.claimed.Keys && forall o | o in s.claimed && o !in rest :: o < owner
        decreases |rest|
      {
        var o :| o in rest;
        owner, rest := if o < owner then owner else o + 1, rest - {o};
      }
    }

    /**
     Handles one message. Every recipient the source lists is tried that was not completed,
     once and in order, whatever happened to the ones before it; completed ones are left
     alone. The message is acknowledged exactly when no attempt had a problem.
     */
    method Handle(source: string, known: bool, decodes: bool, lists: bool, circumstances: Target -> Circumstances)
      returns (acknowledged: bool, calls: seq<Listed>, attempts: seq<Attempt>)
      requires Valid()
      modifies this
      ensures Valid() && old(run) <= run
      ensures source == "" ==> acknowledged && calls == [] && attempts == [] && run == old(run)
      ensures source != "" && !(known && decodes && lists) ==> !acknowledged && attempts == [] && run == old(run)
      ensures source != "" && known && decodes && lists ==>
                && Lists(calls, old(s)) && Tried(calls, attempts)
                && (acknowledged <==> forall a | a in attempts :: a.problem.None?)
      ensures AllExecuted(run[|old(run)|..], attempts)
      ensures AllCaused(targets, |old(run)|, run, attempts, circumstances)
      ensures acknowledged && source != "" ==> forall t | t in s.rows :: s.rows[t].completed
    {
      acknowledged, calls, attempts := true, [], [];
      if source == "" { return; }
      if !known || !decodes || !lists {
        acknowledged := false;
        return;
      }
      calls := Calls();
      for i := 0 to |calls|
        invariant Valid() && old(run) <= run && Tried(calls[..i], attempts)
        invariant acknowledged <==> forall a | a in attempts :: a.problem.None?
        invariant AllExecuted(run[|old(run)|..], attempts)
        invariant AllCaused(targets, |old(run)|, run, attempts, circumstances)
      {
        assert calls[..i + 1][..i] == calls[..i];
        if calls[i].completed {
          continue;
        }
        ghost var before := run;
        var problem, owner := Execute(calls[i].target, circumstances(calls[i].target));
        acknowledged := acknowledged && problem.None?;
        var attempt := Attempt(calls[i].target, owner, problem);
        OneMoreExecuted(|old(run)|, before, run, attempts, attempt);
        OneMoreCaused(targets, |old(run)|, before, run, attempts, attempt, circumstances);
        TriedMore(calls, i, attempts, attempt);
        attempts := attempts + [attempt];
      }
      assert calls[..|calls|] == calls;
      if acknowledged { NothingIsLeft(targets, old(run), run, calls, attempts); }
    }
  }

  /** The attempt claimed the recipient and then called its handler, which ended so. */
  ghost predicate Called(run: seq<Step>, t: Target, o: Owner, ok: bool) {
    exists i, j | 0 <= i < j < |run| :: run[i] == Claim(t, o) && run[j] == Invoke(t, o, ok)
  }

  lemma AttemptCalled(run: seq<Step>, start: nat, middle: nat, t: Target, o: Owner, ok: bool)
    requires start < middle < |run| && run[start] == Claim(t, o) && run[middle] == Invoke(t, o, ok)
    ensures Called(run[start..], t, o, ok)
  {
    var tail := run[start..];
    assert tail[0] == Claim(t, o) && tail[middle - start] == Invoke(t, o, ok);
  }

  /** How an attempt that called the handler ends: its outcome is the last step, or could not be recorded. */
  ghost predicate Outcome(s: State, run: seq<Step>, t: Target, o: Owner, c: Circumstances, problem: Option<Problem>) {
    run != [] &&
    var last := run[|run| - 1];
    if !c.ok then problem == Some(HandlerFailed) && (last == Fail(t, o) || !c.written || !CanDo(s, Fail(t, o)))
    else if problem.None? then c.written && last == Complete(t, o)
    else problem == Some(StoreFailed) && (!c.written || !CanDo(s, Complete(t, o)))
  }

  /** At some moment of the run, from `start` on, the step was not possible. */
  ghost predicate Impossible(targets: set<Target>, start: nat, run: seq<Step>, step: Step) {
    exists m | start <= m <= |run| :: After(targets, run[..m]).Some? && !CanDo(After(targets, run[..m]).value, step)
  }

  /** An attempt has no problem only when nothing was in its way, and a problem only for its own reason. */
  ghost predicate Caused(targets: set<Target>, start: nat, run: seq<Step>, a: Attempt, c: Circumstances) {
    if a.problem.None? then c.Claims() && c.ok && c.written
    else if !c.Claims() then a.problem == Some(c.Obstacle())
    else if a.problem.value.HandlerFailed? then !c.ok && start <= |run| && Called(run[start..], a.target, a.owner, false)
    else if a.problem.value.BusyElsewhere? then Impossible(targets, start, run, Claim(a.target, a.owner))
    else a.problem.value.StoreFailed? && c.ok && (!c.written || Impossible(targets, start, run, Complete(a.target, a.owner)))
  }

  ghost predicate AllCaused(targets: set<Target>, start: nat, run: seq<Step>, attempts: seq<Attempt>, circumstances: Target -> Circumstances) {
    forall a | a in attempts :: Caused(targets, start, run, a, circumstances(a.target))
  }

  lemma OutcomeIsCaused(targets: set<Target>, start: nat, run: seq<Step>, s: State, t: Target, o: Owner, c: Circumstances,
                        problem: Option<Problem>)
    requires start < |run| && After(targets, run) == Some(s) && c.Claims()
    requires Called(run[start..], t, o, c.ok) && Outcome(s, run, t, o, c, problem)
    ensures Caused(targets, start, run, Attempt(t, o, problem), c)
  {
    assert run[..|run|] == run;
  }

  lemma CausedGrows(targets: set<Target>, start: nat, before: seq<Step>, run: seq<Step>, a: Attempt, c: Circumstances, from: nat)
    requires Caused(targets, from, before, a, c) && start <= from <= |before| && before <= run
    ensures Caused(targets, start, run, a, c)
  {
    if a.problem.Some? && c.Claims() {
      if a.problem.value.HandlerFailed? {
        CalledLater(before[from..], run[start..], from - start, a.target, a.owner, false);
      } else if a.problem.value.BusyElsewhere? {
        ImpossibleGrows(targets, start, before, run, Claim(a.target, a.owner), from);
      } else if c.written {
        ImpossibleGrows(targets, start, before, run, Complete(a.target, a.owner), from);
      }
    }
  }

  lemma ImpossibleGrows(targets: set<Target>, start: nat, before: seq<Step>, run: seq<Step>, step: Step, from: nat)
    requires Impossible(targets, from, before, step) && start <= from && before <= run
    ensures Impossible(targets, start, run, step)
  {
    var m :| from <= m <= |before| && After(targets, before[..m]).Some? && !CanDo(After(targets, before[..m]).value, step);
    assert run[..m] == before[..m];
  }

  lemma OneMoreCaused(targets: set<Target>, start: nat, before: seq<Step>, run: seq<Step>, attempts: seq<Attempt>, next: Attempt,
                      circumstances: Target -> Circumstances)
    requires start <= |before| && before <= run && AllCaused(targets, start, before, attempts, circumstances)
    requires Caused(targets, |before|, run, next, circumstances(next.target))
    ensures AllCaused(targets, start, run, attempts + [next], circumstances)
  {
    forall a | a in attempts ensures Caused(targets, start, run, a, circumstances(a.target)) {
      CausedGrows(targets, start, before, run, a, circumstances(a.target), start);
    }
    CausedGrows(targets, start, run, run, next, circumstances(next.target), |before|);
  }

  lemma AttemptExecuted(run: seq<Step>, start: nat, middle: nat, t: Target, o: Owner)
    requires start < middle < |run| - 1 && run[start] == Claim(t, o) && run[middle] == Invoke(t, o, true)
    requires run[|run| - 1] == Complete(t, o)
    ensures Executed(run[start..], t, o)
  {
    var tail := run[start..];
    assert tail[0] == Claim(t, o) && tail[middle - start] == Invoke(t, o, true) && tail[|tail| - 1] == Complete(t, o);
  }

  /** Exactly the recipients, with what is recorded of them. */
  ghost predicate Lists(calls: seq<Listed>, s: State) {
    && (forall call | call in calls :: call.target in s.rows && call.completed == s.rows[call.target].completed)
    && forall t | t in s.rows :: Listed(t, s.rows[t].completed) in calls
  }

  /** The attempts without a problem were executed. */
  ghost predicate AllExecuted(run: seq<Step>, attempts: seq<Attempt>) {
    forall a | a in attempts && a.problem.None? :: Executed(run, a.target, a.owner)
  }

  lemma OneMoreExecuted(start: nat, before: seq<Step>, run: seq<Step>, attempts: seq<Attempt>, next: Attempt)
    requires start <= |before| && before <= run && AllExecuted(before[start..], attempts)
    requires next.problem.None? ==> Executed(run[|before|..], next.target, next.owner)
    ensures AllExecuted(run[start..], attempts + [next])
  {
    forall a | a in attempts && a.problem.None? ensures Executed(run[start..], a.target, a.owner) {
      ExecutedLater(before[start..], run[start..], 0, a.target, a.owner);
    }
    if next.problem.None? {
      ExecutedLater(run[|before|..], run[start..], |before| - start, next.target, next.owner);
    }
  }

  /** What happens beside an attempt leaves its claim and its outcome alone. */
  ghost predicate Continues(run: seq<Step>, run': seq<Step>, s: State, s': State, mine: Option<Owner>) {
    && run <= run'
    && (forall o | o in s.claimed :: o in s'.claimed && s'.claimed[o] == s.claimed[o])
    && (mine.Some? ==> (mine.value in s'.calls <==> mine.value in s.calls) && (s'.Succeeded(mine.value) <==> s.Succeeded(mine.value)))
  }

  lemma SameAt<T>(part: seq<T>, whole: seq<T>, offset: nat, k: nat)
    requires offset + |part| <= |whole| && whole[offset..offset + |part|] == part && k < |part|
    ensures whole[offset + k] == part[k]
  {
  }

  lemma ExecutedLater(part: seq<Step>, whole: seq<Step>, offset: nat, t: Target, o: Owner)
    requires Executed(part, t, o) && offset + |part| <= |whole| && whole[offset..offset + |part|] == part
    ensures Executed(whole, t, o)
  {
    var i, j, k :| 0 <= i < j < k < |part| && part[i] == Claim(t, o) && part[j] == Invoke(t, o, true) && part[k] == Complete(t, o);
    SameAt(part, whole, offset, i);
    SameAt(part, whole, offset, j);
    SameAt(part, whole, offset, k);
    assert whole[offset + i] == Claim(t, o) && whole[offset + j] == Invoke(t, o, true) && whole[offset + k] == Complete(t, o);
  }

  lemma CalledLater(part: seq<Step>, whole: seq<Step>, offset: nat, t: Target, o: Owner, ok: bool)
    requires Called(part, t, o, ok) && offset + |part| <= |whole| && whole[offset..offset + |part|] == part
    ensures Called(whole, t, o, ok)
  {
    var i, j :| 0 <= i < j < |part| && part[i] == Claim(t, o) && part[j] == Invoke(t, o, ok);
    SameAt(part, whole, offset, i);
    SameAt(part, whole, offset, j);
    assert whole[offset + i] == Claim(t, o) && whole[offset + j] == Invoke(t, o, ok);
  }

  lemma TriedMore(calls: seq<Listed>, i: nat, attempts: seq<Attempt>, next: Attempt)
    requires i < |calls| && !calls[i].completed && Tried(calls[..i], attempts) && next.target == calls[i].target
    ensures Tried(calls[..i + 1], attempts + [next])
  {
    assert calls[..i + 1][..i] == calls[..i] && (attempts + [next])[..|attempts|] == attempts;
  }

  /** One attempt for each recipient that was not completed, in order. */
  predicate Tried(calls: seq<Listed>, attempts: seq<Attempt>) {
    if calls == [] then attempts == []
    else
      var n := |calls| - 1;
      if calls[n].completed then Tried(calls[..n], attempts)
      else
        && attempts != [] && attempts[|attempts| - 1].target == calls[n].target
        && Tried(calls[..n], attempts[..|attempts| - 1])
  }

  lemma {:induction false} TriedCovers(calls: seq<Listed>, attempts: seq<Attempt>, call: Listed)
    requires Tried(calls, attempts) && call in calls && !call.completed
    ensures exists a | a in attempts :: a.target == call.target
  {
    var n := |calls| - 1;
    if call == calls[n] {
      assert attempts[|attempts| - 1] in attempts;
    } else if calls[n].completed {
      TriedCovers(calls[..n], attempts, call);
    } else {
      TriedCovers(calls[..n], attempts[..|attempts| - 1], call);
    }
  }

  lemma {:induction false} SameRecipients(targets: set<Target>, run: seq<Step>)
    requires After(targets, run).Some?
    ensures After(targets, run).value.rows.Keys == targets
  {
    if run != [] {
      SameRecipients(targets, run[..|run| - 1]);
    }
  }

  lemma CompletionOf(run: seq<Step>, start: nat, t: Target, o: Owner) returns (m: nat)
    requires start <= |run| && Executed(run[start..], t, o)
    ensures m < |run| && run[m] == Complete(t, o)
  {
    var i, j, k :| 0 <= i < j < k < |run| - start && run[start..][i] == Claim(t, o) && run[start..][j] == Invoke(t, o, true)
                   && run[start..][k] == Complete(t, o);
    m := start + k;
    TailAt(run, start, k);
  }

  lemma TailAt<T>(s: seq<T>, start: nat, k: nat)
    requires start + k < |s|
    ensures s[start..][k] == s[start + k]
  {
  }

  lemma CompletionLasts(targets: set<Target>, run: seq<Step>, m: nat, t: Target, o: Owner)
    requires After(targets, run).Some? && m < |run| && run[m] == Complete(t, o)
    ensures t in After(targets, run).value.rows && After(targets, run).value.rows[t].completed
  {
    Prefixes(targets, run, m);
    CompletedStays(targets, run, m + 1, t);
  }

  /** When all recipients were completed before or executed since, all of them are completed. */
  lemma NothingIsLeft(targets: set<Target>, before: seq<Step>, run: seq<Step>, calls: seq<Listed>, attempts: seq<Attempt>)
    requires before <= run && After(targets, before).Some? && After(targets, run).Some?
    requires Lists(calls, After(targets, before).value) && Tried(calls, attempts)
    requires AllExecuted(run[|before|..], attempts) && forall a | a in attempts :: a.problem.None?
    ensures var s := After(targets, run).value; forall t | t in s.rows :: s.rows[t].completed
  {
    var s := After(targets, run).value;
    SameRecipients(targets, before);
    SameRecipients(targets, run);
    var s0 := After(targets, before).value;
    assert run[..|before|] == before;
    forall t | t in s.rows ensures s.rows[t].completed {
      var call := Listed(t, s0.rows[t].completed);
      assert call in calls;
      if call.completed {
        CompletedStays(targets, run, |before|, t);
      } else {
        TriedIsCompleted(targets, |before|, run, calls, attempts, call);
      }
    }
  }

  lemma TriedIsCompleted(targets: set<Target>, start: nat, run: seq<Step>, calls: seq<Listed>, attempts: seq<Attempt>, call: Listed)
    requires start <= |run| && After(targets, run).Some? && Tried(calls, attempts) && AllExecuted(run[start..], attempts)
    requires forall a | a in attempts :: a.problem.None?
    requires call in calls && !call.completed
    ensures call.target in After(targets, run).value.rows && After(targets, run).value.rows[call.target].completed
  {
    TriedCovers(calls, attempts, call);
    var a :| a in attempts && a.target == call.target;
    var m := CompletionOf(run, start, call.target, a.owner);
    CompletionLasts(targets, run, m, call.target, a.owner);
  }
}
