/**
 The writers of the dashboard (pr_agent/dashboard/storage.py, pr_agent/dashboard/audit.py): bounded
 retries under lock contention, what their return values are worth, and terminal events that describe
 the database rather than the caller's intent.
 */
module DashboardStorage {
  import opened Wrappers
  import opened WriteOutcomes
  import opened FindingBounds
  import opened ReviewStore

  /** Other workers' transactions that come first, and how the attempt then ends. */
  datatype Attempt = Attempt(others: seq<Transaction>, outcome: Outcome)

  /** The store afterwards, the reported value, and whether this call's own update was committed. */
  datatype Reply = Reply(store: Store, reported: bool, own: bool)

  /**
   A retried write. `sticky` is the flag of `finish_review`, which an attempt sets and none resets;
   `_finish_without_issues` assigns its flag afresh in every attempt.
   */
  function Write(
      sticky: bool, s: Store, l: Limits, t: Transaction, attempts: seq<Attempt>, flag: bool): Reply
    decreases |attempts|
  {
    if attempts == [] then Reply(s, false, false)
    else
      var u := RunAll(s, l, attempts[0].others);
      var matched := Hits(u, t);
      match attempts[0].outcome
      case Commits => Reply(Apply(u, l, t), (sticky && flag) || matched, matched)
      case LockedBefore => Write(sticky, u, l, t, attempts[1..], flag)
      case LockedAfter => Write(sticky, u, l, t, attempts[1..], (sticky && flag) || matched)
      case Breaks => Reply(u, false, false)
      case CommitsThenBreaks => Reply(Apply(u, l, t), false, matched)
  }

  /** The store an attempt finds. */
  function Found(s: Store, l: Limits, attempts: seq<Attempt>, k: nat): Store
    requires k < |attempts|
    decreases k
  {
    var u := RunAll(s, l, attempts[0].others);
    if k == 0 then u else Found(u, l, attempts[1..], k - 1)
  }

  /** The attempt that commits and reports it, if one does before anything but a lock stops the retries. */
  function Landing(attempts: seq<Attempt>): Option<nat> {
    if attempts == [] then None
    else match attempts[0].outcome
      case Commits => Some(0)
      case LockedBefore | LockedAfter =>
        var k := Landing(attempts[1..]);
        if k.Some? then Some(k.value + 1) else None
      case _ => None
  }

  lemma {:induction false} LandingIs(attempts: seq<Attempt>, k: nat)
    ensures Landing(attempts) == Some(k) <==>
              k < |attempts| && attempts[k].outcome.Commits?
              && (forall i :: 0 <= i < k ==> attempts[i].outcome.LockedBefore? || attempts[i].outcome.LockedAfter?)
  {
    if attempts != [] && k > 0 {
      LandingIs(attempts[1..], k - 1);
      assert forall i :: 0 <= i < |attempts| - 1 ==> attempts[1..][i] == attempts[i + 1];
      if attempts[0].outcome.LockedBefore? || attempts[0].outcome.LockedAfter? {
        if k < |attempts| && Landing(attempts[1..]) == Some((k - 1) as nat) {
          forall i | 0 <= i < k ensures attempts[i].outcome.LockedBefore? || attempts[i].outcome.LockedAfter? {
            if i > 0 {
              assert attempts[1..][i - 1] == attempts[i];
            }
          }
        }
      }
    }
  }

  /** Attempt `i` updated a running row and was rolled back. */
  ghost predicate RolledBack(s: Store, l: Limits, t: Transaction, attempts: seq<Attempt>, i: nat) {
    i < |attempts| && attempts[i].outcome.LockedAfter? && Hits(Found(s, l, attempts, i), t)
  }

  ghost predicate RolledBackBefore(s: Store, l: Limits, t: Transaction, attempts: seq<Attempt>, k: nat) {
    exists i :: 0 <= i < k && RolledBack(s, l, t, attempts, i)
  }

  lemma RolledBackShift(s: Store, l: Limits, t: Transaction, attempts: seq<Attempt>, k: nat)
    requires attempts != [] && k < |attempts|
    ensures var u := RunAll(s, l, attempts[0].others);
            RolledBackBefore(s, l, t, attempts, k + 1)
            <==> RolledBack(s, l, t, attempts, 0) || RolledBackBefore(u, l, t, attempts[1..], k)
  {
    var u := RunAll(s, l, attempts[0].others);
    forall i | 0 < i < |attempts|
      ensures RolledBack(s, l, t, attempts, i) <==> RolledBack(u, l, t, attempts[1..], i - 1)
    {
      assert attempts[1..][i - 1] == attempts[i];
    }
    if RolledBackBefore(u, l, t, attempts[1..], k) {
      var i :| 0 <= i < k && RolledBack(u, l, t, attempts[1..], i);
      assert RolledBack(s, l, t, attempts, i + 1);
    }
    if RolledBackBefore(s, l, t, attempts, k + 1) {
      var i :| 0 <= i < k + 1 && RolledBack(s, l, t, attempts, i);
      if i > 0 {
        assert RolledBack(u, l, t, attempts[1..], i - 1);
      }
    }
  }

  /** What a retried write reports, and whether its own update is what was committed. */
  lemma {:induction false} WriteReports(
      sticky: bool, s: Store, l: Limits, t: Transaction, attempts: seq<Attempt>, flag: bool)
    ensures var r, k := Write(sticky, s, l, t, attempts, flag), Landing(attempts);
            && (k.None? ==> !r.reported)
            && (k.Some? ==> k.value < |attempts|)
            && (k.Some? ==>
                  var matched := Hits(Found(s, l, attempts, k.value), t);
                  && (r.own <==> matched)
                  && (r.reported <==> (matched
                       || (sticky && (flag || RolledBackBefore(s, l, t, attempts, k.value))))))
    decreases |attempts|
  {
    hide RunAll, Hits, Apply, RolledBackBefore;
    if attempts == [] {
    } else {
      var u := RunAll(s, l, attempts[0].others);
      var k := Landing(attempts);
      if attempts[0].outcome.LockedBefore? || attempts[0].outcome.LockedAfter? {
        var next := if attempts[0].outcome.LockedAfter? then (sticky && flag) || Hits(u, t) else flag;
        WriteReports(sticky, u, l, t, attempts[1..], next);
        if k.Some? {
          RolledBackShift(s, l, t, attempts, k.value - 1);
        }
      } else if k.Some? {
        NoneBeforeFirst(s, l, t, attempts);
      }
    }
  }

  lemma NoneBeforeFirst(s: Store, l: Limits, t: Transaction, attempts: seq<Attempt>)
    ensures !RolledBackBefore(s, l, t, attempts, 0)
  {}

  /** A write whose flag every attempt sets afresh reports success exactly when it did it itself and landed. */
  lemma CloseIsHonest(s: Store, l: Limits, t: Transaction, attempts: seq<Attempt>)
    ensures var r := Write(false, s, l, t, attempts, false);
            r.reported <==> r.own && Landing(attempts).Some?
  {
    hide RunAll, Hits, Apply;
    WriteReports(false, s, l, t, attempts, false);
  }

  /**
   `finish_review` reports a completion it did not make exactly when one of its updates was rolled back
   by a lock and another worker had closed the review before it committed.
   */
  lemma FinishIsHonestUnlessOvertaken(s: Store, l: Limits, t: Transaction, attempts: seq<Attempt>)
    ensures var r, k := Write(true, s, l, t, attempts, false), Landing(attempts);
            r.reported && !r.own <==>
              k.Some? && k.value < |attempts|
              && !Hits(Found(s, l, attempts, k.value), t)
              && RolledBackBefore(s, l, t, attempts, k.value)
  {
    hide RunAll, Hits, Apply, RolledBackBefore;
    WriteReports(true, s, l, t, attempts, false);
  }

  /** It happens: the heartbeat goes stale between two attempts, and the row that is reported completed is FAILED. */
  lemma FinishCanMisreport(l: Limits)
    requires l.staleSeconds < l.retentionSeconds && l.maxRecords > 0
    ensures var s := Store(map[1 := Review("r", RUNNING, "", Some(0), 0, false, [])], 1, []);
            var late := l.staleSeconds + 1;
            var attempts := [Attempt([], LockedAfter), Attempt([Maintain(late)], Commits)];
            var r := Write(true, s, l, Finish("r", "APPROVE", []), attempts, false);
            r.reported && !r.own && 1 in r.store.rows && r.store.rows[1].status == FAILED
  {
    var row := Review("r", RUNNING, "", Some(0), 0, false, []);
    var s := Store(map[1 := row], 1, []);
    var late := l.staleSeconds + 1;
    var a, b := Attempt([], LockedAfter), Attempt([Maintain(late)], Commits);
    assert HasRunning(s.rows, "r") by {
      assert 1 in s.rows;
    }
    LoneStaleRow(l, row, late);
    var u := s.(rows := map[1 := row.(status := FAILED)]);
    assert RunAll(s, l, [Maintain(late)]) == u by {
      assert [Maintain(late)][1..] == [];
    }
    assert !HasRunning(u.rows, "r");
    var t := Finish("r", "APPROVE", []);
    assert Apply(u, l, t).rows[1] == u.rows[1];
    assert [a, b][1..] == [b];
    assert Write(true, s, l, t, [b], true) == Reply(Apply(u, l, t), true, false);
  }

  lemma LoneStaleRow(l: Limits, row: Review, now: int)
    requires l.maxRecords > 0 && Stale(row, l, now) && row.created >= now - l.retentionSeconds
    ensures Maintained(map[1 := row], l, now) == map[1 := row.(status := FAILED)]
  {
    var failed := map[1 := row.(status := FAILED)];
    assert FailStale(map[1 := row], l, now) == failed;
    assert DropOld(failed, l, now) == failed;
    assert RunningIds(failed) == {} && TerminalIds(failed) == {1} && Above({1}, 1) == {};
    assert Cap(failed, l) == failed;
  }

  /** The store a fresh-flag write that reports success left, and the one it found. */
  lemma {:induction false} ReportedLands(s: Store, l: Limits, t: Transaction, attempts: seq<Attempt>, flag: bool)
    returns (u: Store)
    requires Write(false, s, l, t, attempts, flag).reported
    ensures Hits(u, t) && Write(false, s, l, t, attempts, flag).store == Apply(u, l, t)
    decreases |attempts|
  {
    hide RunAll, Hits, Apply;
    u := RunAll(s, l, attempts[0].others);
    match attempts[0].outcome
    case LockedBefore => u := ReportedLands(u, l, t, attempts[1..], flag);
    case LockedAfter => u := ReportedLands(u, l, t, attempts[1..], Hits(u, t));
    case _ =>
  }

  /** `cancel_review` returns true only when a running review was flagged, and then it is. */
  lemma CancelIsHonest(s: Store, l: Limits, id: nat, attempts: seq<Attempt>)
    ensures var r := Write(false, s, l, Cancel(id), attempts, false);
            && (r.reported <==> r.own && Landing(attempts).Some?)
            && (r.reported ==> id in r.store.rows && IsRunning(r.store.rows[id]) && r.store.rows[id].cancelled)
  {
    hide RunAll, Write;
    CloseIsHonest(s, l, Cancel(id), attempts);
    if Write(false, s, l, Cancel(id), attempts, false).reported {
      var u := ReportedLands(s, l, Cancel(id), attempts, false);
    }
  }

  /** The retried insert of a new review; a request id that is taken is refused without a retry. */
  function Insert(s: Store, l: Limits, request: string, now: int, attempts: seq<Attempt>): Reply
    decreases |attempts|
  {
    if attempts == [] then Reply(s, false, false)
    else
      var u := RunAll(s, l, attempts[0].others);
      if attempts[0].outcome.LockedBefore? then Insert(u, l, request, now, attempts[1..])
      else if Taken(u.rows, request) || attempts[0].outcome.Breaks? then Reply(u, false, false)
      else if attempts[0].outcome.LockedAfter? then Insert(u, l, request, now, attempts[1..])
      else Reply(Apply(u, l, Create(request, now)), attempts[0].outcome.Commits?, true)
  }

  /** No attempt up to `k` that reached the table found the request id taken. */
  ghost predicate NeverTaken(s: Store, l: Limits, request: string, attempts: seq<Attempt>, k: nat)
    requires k < |attempts|
    decreases k
  {
    var u := RunAll(s, l, attempts[0].others);
    && (attempts[0].outcome.LockedBefore? || !Taken(u.rows, request))
    && (k > 0 ==> NeverTaken(u, l, request, attempts[1..], k - 1))
  }

  /**
   `create_review` returns its request id exactly when an attempt landed and no attempt found the id taken;
   then, and when a committed insert is followed by a failure, a new running row has that id.
   */
  lemma {:induction false} CreateIsHonest(s: Store, l: Limits, request: string, now: int, attempts: seq<Attempt>)
    requires Consistent(s)
    ensures var r, k := Insert(s, l, request, now, attempts), Landing(attempts);
            && (k.Some? ==> k.value < |attempts|)
            && (r.reported <==> k.Some? && NeverTaken(s, l, request, attempts, k.value))
            && (r.reported ==> r.own)
            && (r.own ==> r.store.last in r.store.rows && IsRunning(r.store.rows[r.store.last])
                          && r.store.rows[r.store.last].request == request)
    decreases |attempts|
  {
    hide RunAll, Taken, Apply, Consistent;
    if attempts != [] {
      var u := RunAll(s, l, attempts[0].others);
      RunKeeps(s, l, attempts[0].others);
      CreateIsHonest(u, l, request, now, attempts[1..]);
      if !Taken(u.rows, request) {
        CreatedRuns(u, l, request, now);
      }
    }
  }

  lemma CreatedRuns(s: Store, l: Limits, request: string, now: int)
    requires Consistent(s) && !Taken(s.rows, request)
    ensures var u := Apply(s, l, Create(request, now));
            u.last in u.rows && IsRunning(u.rows[u.last]) && u.rows[u.last].request == request
  {
    hide Apply;
    CreateAddsOneRow(s, l, request, now);
  }

  // ----- terminal events -----

  /** The store with every row read back for an announcement that may still be appended. */
  datatype System = System(store: Store, readBack: set<Event>)

  datatype Step = Commit(t: Transaction) | ReadBack(id: nat, announced: Status) | Append(event: Event)

  ghost predicate Next(s: System, l: Limits, step: Step, s': System) {
    match step
    case Commit(t) => !t.Announce? && Proper(t) && s' == s.(store := Apply(s.store, l, t))
    case ReadBack(id, announced) =>
      && announced != RUNNING && id in s.store.rows
      && (var row := s.store.rows[id];
          row.status == announced && s' == s.(readBack := s.readBack + {Event(id, announced, row.status, row.verdict)}))
    case Append(e) => e in s.readBack && s' == s.(store := Apply(s.store, l, Announce(e)))
  }

  /** The announced outcome is the persisted one, for as long as the row exists. */
  ghost predicate Truthful(s: Store, e: Event) {
    && e.announced == e.status && e.status != RUNNING && e.row <= s.last
    && (e.row in s.rows ==> s.rows[e.row].status == e.status && s.rows[e.row].verdict == e.verdict)
  }

  ghost predicate AllTruthful(s: System) {
    && Consistent(s.store)
    && (forall e :: e in s.store.events || e in s.readBack ==> Truthful(s.store, e))
  }

  lemma StepStaysTruthful(s: System, l: Limits, step: Step, s': System)
    requires AllTruthful(s) && Next(s, l, step, s')
    ensures AllTruthful(s')
  {
    hide Apply;
    match step
    case Commit(t) =>
      StepKeeps(s.store, l, t);
      EventsStay(s.store, l, t);
    case ReadBack(id, announced) =>
    case Append(e) =>
      StepKeeps(s.store, l, Announce(e));
      EventAppends(s.store, l, e);
  }

  lemma EventsStay(s: Store, l: Limits, t: Transaction)
    requires !t.Announce?
    ensures Apply(s, l, t).events == s.events
  {
    hide Maintained, UpdateRunning;
  }

  lemma EventAppends(s: Store, l: Limits, e: Event)
    ensures Apply(s, l, Announce(e)) == s.(events := s.events + [e])
  {}

  ghost predicate Behaviour(states: seq<System>, l: Limits, steps: seq<Step>) {
    && |states| == |steps| + 1
    && states[0] == System(EMPTY_STORE, {})
    && (forall k :: 0 <= k < |steps| ==> Next(states[k], l, steps[k], states[k + 1]))
  }

  /**
   In every interleaving every terminal event agrees with the persisted row, whatever the call that led
   to it reported: it is read back before it is announced.
   */
  lemma {:induction false} EveryEventIsTrue(states: seq<System>, l: Limits, steps: seq<Step>, k: nat)
    requires Behaviour(states, l, steps) && k <= |steps|
    ensures AllTruthful(states[k])
  {
    if k > 0 {
      EveryEventIsTrue(states, l, steps, k - 1);
      assert Next(states[k - 1], l, steps[k - 1], states[k]);
      StepStaysTruthful(states[k - 1], l, steps[k - 1], states[k]);
    }
  }

  // ----- the methods -----

  class Database {
    var store: Store
    const limits: Limits

    constructor (limits: Limits)
      ensures store == EMPTY_STORE && this.limits == limits
    {
      store := EMPTY_STORE;
      this.limits := limits;
    }

    /** The transactions other workers commit meanwhile. */
    method Meanwhile(others: seq<Transaction>)
      modifies this
      ensures store == RunAll(old(store), limits, others)
    {
      var k := 0;
      assert others[0..] == others;
      while k < |others|
        invariant 0 <= k <= |others|
        invariant RunAll(store, limits, others[k..]) == RunAll(old(store), limits, others)
      {
        assert others[k..][1..] == others[k + 1..];
        store := Apply(store, limits, others[k]);
        k := k + 1;
      }
    }

    /** The statements of one maintenance transaction, in order. */
    method MaintainReviewRows(now: int)
      modifies this
      ensures store == Apply(old(store), limits, Maintain(now))
    {
      var rows := store.rows;
      rows := map id | id in rows :: if Stale(rows[id], limits, now) then rows[id].(status := FAILED) else rows[id];
      rows := map id | id in rows
        && (IsRunning(rows[id]) || rows[id].created >= now - limits.retentionSeconds) :: rows[id];
      var running := |RunningIds(rows)|;
      var limit := if limits.maxRecords - running > 0 then limits.maxRecords - running else 0;
      var kept := Newest(TerminalIds(rows), limit);
      rows := map id | id in rows && (IsRunning(rows[id]) || id in kept) :: rows[id];
      store := store.(rows := rows);
    }

    method FinishReview(
        request: string, verdict: string, issues: seq<Option<Finding>>, budget: nat, attempts: seq<Attempt>)
      returns (ok: bool, ghost own: bool)
      requires |attempts| == MAX_RETRY
      modifies this
      ensures Reply(store, ok, own)
              == Write(true, old(store), limits, Finish(request, verdict, Bounded(issues, 0, budget)), attempts, false)
    {
      hide RunAll, Apply, Hits;
      var findings := BoundReviewIssues(issues, budget);
      var t := Finish(request, verdict, findings);
      var transitioned := false;
      own := false;
      var k := 0;
      assert attempts[0..] == attempts;
      while k < MAX_RETRY
        invariant 0 <= k <= MAX_RETRY && !own
        invariant Write(true, store, limits, t, attempts[k..], transitioned)
                  == Write(true, old(store), limits, t, attempts, false)
      {
        assert attempts[k..][1..] == attempts[k + 1..];
        Meanwhile(attempts[k].others);
        var matched := Hits(store, t);
        match attempts[k].outcome {
          case LockedBefore =>
          case LockedAfter =>
            if matched {
              transitioned := true;
            }
          case Breaks =>
            return false, false;
          case Commits | CommitsThenBreaks =>
            store := Apply(store, limits, t);
            if matched {
              transitioned := true;
            }
            return attempts[k].outcome.Commits? && transitioned, matched;
        }
        k := k + 1;
      }
      ok := false;
    }

    /** The retry loop of a write whose flag every attempt sets afresh. */
    method Transact(t: Transaction, attempts: seq<Attempt>) returns (ok: bool, ghost own: bool)
      modifies this
      ensures Reply(store, ok, own) == Write(false, old(store), limits, t, attempts, false)
    {
      hide RunAll, Apply, Hits;
      var flag := false;
      own := false;
      var k := 0;
      assert attempts[0..] == attempts;
      while k < |attempts|
        invariant 0 <= k <= |attempts| && !own
        invariant Write(false, store, limits, t, attempts[k..], flag)
                  == Write(false, old(store), limits, t, attempts, false)
      {
        assert attempts[k..][1..] == attempts[k + 1..];
        Meanwhile(attempts[k].others);
        match attempts[k].outcome {
          case LockedBefore =>
          case LockedAfter =>
            flag := Hits(store, t);
          case Breaks =>
            return false, false;
          case Commits | CommitsThenBreaks =>
            flag := Hits(store, t);
            store := Apply(store, limits, t);
            return attempts[k].outcome.Commits? && flag, flag;
        }
        k := k + 1;
      }
      ok := false;
    }

    method FinishWithoutIssues(request: string, status: Status, attempts: seq<Attempt>)
      returns (ok: bool, ghost own: bool)
      requires |attempts| == MAX_RETRY && (status == FAILED || status == SKIPPED)
      modifies this
      ensures Reply(store, ok, own) == Write(false, old(store), limits, Close(request, status), attempts, false)
    {
      ok, own := Transact(Close(request, status), attempts);
    }

    method CancelReview(id: nat, attempts: seq<Attempt>) returns (flagged: bool, ghost own: bool)
      requires |attempts| == MAX_RETRY
      modifies this
      ensures Reply(store, flagged, own) == Write(false, old(store), limits, Cancel(id), attempts, false)
    {
      flagged, own := Transact(Cancel(id), attempts);
    }

    /** A heartbeat is tried once. */
    method TouchReview(request: string, now: int, attempt: Attempt) returns (touched: bool, ghost own: bool)
      modifies this
      ensures Reply(store, touched, own) == Write(false, old(store), limits, Touch(request, now), [attempt], false)
    {
      touched, own := Transact(Touch(request, now), [attempt]);
    }

    /** The request id when the row was inserted, and nothing otherwise. */
    method CreateReview(request: string, now: int, attempts: seq<Attempt>) returns (created: string, ghost own: bool)
      requires |attempts| == MAX_RETRY
      modifies this
      ensures var r := Insert(old(store), limits, request, now, attempts);
              store == r.store && own == r.own && created == if r.reported then request else ""
    {
      hide RunAll, Apply, Taken;
      own := false;
      var k := 0;
      assert attempts[0..] == attempts;
      while k < MAX_RETRY
        invariant 0 <= k <= MAX_RETRY && !own
        invariant Insert(store, limits, request, now, attempts[k..])
                  == Insert(old(store), limits, request, now, attempts)
      {
        assert attempts[k..][1..] == attempts[k + 1..];
        Meanwhile(attempts[k].others);
        if !attempts[k].outcome.LockedBefore? {
          if Taken(store.rows, request) || attempts[k].outcome.Breaks? {
            return "", false;
          }
          if !attempts[k].outcome.LockedAfter? {
            store := Apply(store, limits, Create(request, now));
            return if attempts[k].outcome.Commits? then request else "", true;
          }
        }
        k := k + 1;
      }
      created := "";
    }

    /** Announce an outcome only if the row, read back, has it; other workers act before and between. */
    method RecordTerminalEvent(request: string, announced: Status, before: seq<Transaction>, between: seq<Transaction>)
      returns (event: Option<Event>)
      requires announced != RUNNING
      modifies this
      ensures var u := RunAll(old(store), limits, before);
              && (event.Some? ==>
                    && event.value.row in u.rows && u.rows[event.value.row].request == request
                    && u.rows[event.value.row].status == event.value.status == event.value.announced == announced
                    && u.rows[event.value.row].verdict == event.value.verdict
                    && store == Apply(RunAll(u, limits, between), limits, Announce(event.value)))
              && (event.None? ==>
                    && store == u
                    && !(exists id :: id in u.rows && u.rows[id].request == request && u.rows[id].status == announced))
    {
      hide RunAll, Apply;
      Meanwhile(before);
      if id :| id in store.rows && store.rows[id].request == request && store.rows[id].status == announced {
        var row := store.rows[id];
        Meanwhile(between);
        var e := Event(id, announced, row.status, row.verdict);
        store := Apply(store, limits, Announce(e));
        return Some(e);
      }
      event := None;
    }
  }
}
