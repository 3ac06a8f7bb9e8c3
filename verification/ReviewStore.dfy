/**
 The review life cycle (pr_agent/dashboard/storage.py, pr_agent/dashboard/audit.py) as a transition
 system. Every SQL transaction is one atomic step; many workers take them in any order.
 */
module ReviewStore {
  import opened Wrappers
  import opened FindingBounds

  datatype Status = RUNNING | COMPLETED | FAILED | SKIPPED

  /** Times are whole seconds. The findings of a row are deleted with it. */
  datatype Review = Review(
    request: string, status: Status, verdict: string,
    heartbeat: Option<int>, created: int, cancelled: bool, findings: seq<Finding>)

  /** What a terminal event announces, and the row it was read from. */
  datatype Event = Event(row: nat, announced: Status, status: Status, verdict: string)

  /** Row ids come from AUTOINCREMENT: `last` is the highest ever used. */
  datatype Store = Store(rows: map<nat, Review>, last: nat, events: seq<Event>)

  const EMPTY_STORE := Store(map[], 0, [])

  datatype Limits = Limits(staleSeconds: nat, retentionSeconds: nat, maxRecords: nat)

  datatype Transaction =
    | Maintain(now: int)
    | Create(request: string, now: int)
    | Touch(request: string, now: int)
    | Cancel(id: nat)
    | Finish(request: string, verdict: string, findings: seq<Finding>)
    | Close(request: string, status: Status)
    | Announce(event: Event)

  // ----- statements -----

  predicate IsRunning(r: Review) { r.status == RUNNING }

  predicate Stale(r: Review, l: Limits, now: int) {
    IsRunning(r) && (if r.heartbeat.Some? then r.heartbeat.value else r.created) < now - l.staleSeconds
  }

  /** UPDATE reviews SET status='FAILED' WHERE the heartbeat is overdue. */
  function FailStale(rows: map<nat, Review>, l: Limits, now: int): map<nat, Review> {
    map id | id in rows :: if Stale(rows[id], l, now) then rows[id].(status := FAILED) else rows[id]
  }

  /** DELETE of terminal rows past retention. */
  function DropOld(rows: map<nat, Review>, l: Limits, now: int): map<nat, Review> {
    map id | id in rows && (IsRunning(rows[id]) || rows[id].created >= now - l.retentionSeconds) :: rows[id]
  }

  function RunningIds(rows: map<nat, Review>): set<nat> { set id | id in rows && IsRunning(rows[id]) }

  function TerminalIds(rows: map<nat, Review>): set<nat> { set id | id in rows && !IsRunning(rows[id]) }

  function Above(ids: set<nat>, id: nat): set<nat> { set x | x in ids && x > id }

  /** ORDER BY id DESC LIMIT ?. */
  function Newest(ids: set<nat>, limit: nat): set<nat> { set id | id in ids && |Above(ids, id)| < limit }

  function TerminalLimit(rows: map<nat, Review>, l: Limits): nat {
    if |RunningIds(rows)| < l.maxRecords then l.maxRecords - |RunningIds(rows)| else 0
  }

  /** DELETE of terminal rows beyond what the running ones leave of the cap, newest ids kept. */
  function Cap(rows: map<nat, Review>, l: Limits): map<nat, Review> {
    map id | id in rows && (IsRunning(rows[id]) || id in Newest(TerminalIds(rows), TerminalLimit(rows, l))) :: rows[id]
  }

  function Maintained(rows: map<nat, Review>, l: Limits, now: int): map<nat, Review> {
    Cap(DropOld(FailStale(rows, l, now), l, now), l)
  }

  /** UPDATE reviews ... WHERE request_id = ? AND status = 'RUNNING'. */
  function UpdateRunning(rows: map<nat, Review>, request: string, f: Review -> Review): map<nat, Review> {
    map id | id in rows ::
      if rows[id].request == request && IsRunning(rows[id]) then f(rows[id]) else rows[id]
  }

  predicate HasRunning(rows: map<nat, Review>, request: string) {
    exists id :: id in rows && rows[id].request == request && IsRunning(rows[id])
  }

  predicate Taken(rows: map<nat, Review>, request: string) { exists id :: id in rows && rows[id].request == request }

  /** Whether the one UPDATE of a transaction finds its row. */
  predicate Hits(s: Store, t: Transaction) {
    match t
    case Touch(request, _) => HasRunning(s.rows, request)
    case Cancel(id) => id in s.rows && IsRunning(s.rows[id])
    case Finish(request, _, _) => HasRunning(s.rows, request)
    case Close(request, _) => HasRunning(s.rows, request)
    case _ => true
  }

  /** What one committed transaction does; a duplicate request id makes an insert fail. */
  function Apply(s: Store, l: Limits, t: Transaction): Store {
    match t
    case Maintain(now) => s.(rows := Maintained(s.rows, l, now))
    case Create(request, now) =>
      if Taken(s.rows, request) then s
      else s.(rows := s.rows[s.last + 1 := Review(request, RUNNING, "", Some(now), now, false, [])], last := s.last + 1)
    case Touch(request, now) => s.(rows := UpdateRunning(s.rows, request, (r: Review) => r.(heartbeat := Some(now))))
    case Cancel(id) =>
      if id in s.rows && IsRunning(s.rows[id]) then s.(rows := s.rows[id := s.rows[id].(cancelled := true)]) else s
    case Finish(request, verdict, findings) =>
      s.(rows := UpdateRunning(s.rows, request,
           (r: Review) => r.(status := COMPLETED, verdict := verdict, findings := findings)))
    case Close(request, status) => s.(rows := UpdateRunning(s.rows, request, (r: Review) => r.(status := status)))
    case Announce(event) => s.(events := s.events + [event])
  }

  /** Ids were handed out in order, and a request id names at most one row. */
  ghost predicate Consistent(s: Store) {
    && (forall id :: id in s.rows ==> id <= s.last)
    && (forall a, b :: a in s.rows && b in s.rows && s.rows[a].request == s.rows[b].request ==> a == b)
  }

  /** The program closes a review only as FAILED or SKIPPED. */
  predicate Proper(t: Transaction) { t.Close? ==> t.status == FAILED || t.status == SKIPPED }

  // ----- what every transaction keeps -----

  /** Terminal rows do not change, requests stay with their rows, and ids are never handed out twice. */
  ghost predicate Keeps(s: Store, s': Store) {
    && s.last <= s'.last
    && (forall id :: id in s.rows && id in s'.rows && !IsRunning(s.rows[id]) ==> s'.rows[id] == s.rows[id])
    && (forall id :: id in s.rows && id in s'.rows ==> s'.rows[id].request == s.rows[id].request)
    && (forall id :: id in s'.rows && id !in s.rows ==> id > s.last)
  }

  lemma StepKeeps(s: Store, l: Limits, t: Transaction)
    requires Consistent(s)
    ensures Consistent(Apply(s, l, t)) && Keeps(s, Apply(s, l, t))
  {
    hide Maintained, UpdateRunning, IsRunning, Taken;
    match t
    case Maintain(now) =>
      MaintainedKeeps(s.rows, l, now);
    case Create(request, now) =>
      CreateKeeps(s, l, request, now);
    case Touch(request, now) =>
      UpdateKeeps(s.rows, request, (r: Review) => r.(heartbeat := Some(now)));
    case Finish(request, verdict, findings) =>
      UpdateKeeps(s.rows, request, (r: Review) => r.(status := COMPLETED, verdict := verdict, findings := findings));
    case Close(request, status) =>
      UpdateKeeps(s.rows, request, (r: Review) => r.(status := status));
    case _ =>
  }

  lemma CreateKeeps(s: Store, l: Limits, request: string, now: int)
    requires Consistent(s)
    ensures var s' := Apply(s, l, Create(request, now)); Consistent(s') && Keeps(s, s')
  {}

  lemma UpdateKeeps(rows: map<nat, Review>, request: string, f: Review -> Review)
    requires forall r :: f(r).request == r.request
    ensures var rows' := UpdateRunning(rows, request, f);
            && rows'.Keys == rows.Keys
            && (forall id :: id in rows ==> rows'[id].request == rows[id].request)
            && (forall id :: id in rows && !IsRunning(rows[id]) ==> rows'[id] == rows[id])
  {}

  lemma MaintainedKeeps(rows: map<nat, Review>, l: Limits, now: int)
    ensures forall id :: id in Maintained(rows, l, now) ==> id in rows
    ensures forall id :: id in Maintained(rows, l, now) && !IsRunning(rows[id]) ==>
            Maintained(rows, l, now)[id] == rows[id]
    ensures forall id :: id in Maintained(rows, l, now) ==> Maintained(rows, l, now)[id].request == rows[id].request
  {
    hide Newest;
  }

  /** Terminal rows above `id` that maintenance finds or makes terminal and keeps within retention. */
  function NewerTerminal(rows: map<nat, Review>, l: Limits, now: int, id: nat): set<nat> {
    set x | x in rows && x > id && (!IsRunning(rows[x]) || Stale(rows[x], l, now))
      && rows[x].created >= now - l.retentionSeconds
  }

  function StillRunning(rows: map<nat, Review>, l: Limits, now: int): set<nat> {
    set x | x in rows && IsRunning(rows[x]) && !Stale(rows[x], l, now)
  }

  /**
   A running row disappears exactly in a maintenance pass that finds it overdue and also either past
   retention, or with so many newer terminal rows that they and the running ones fill the cap.
   */
  lemma RunningRowDisappears(s: Store, l: Limits, t: Transaction, id: nat)
    requires Consistent(s) && id in s.rows && IsRunning(s.rows[id])
    ensures id !in Apply(s, l, t).rows
            <==> t.Maintain? && Stale(s.rows[id], l, t.now)
                 && (s.rows[id].created < t.now - l.retentionSeconds
                     || |NewerTerminal(s.rows, l, t.now, id)| + |StillRunning(s.rows, l, t.now)| >= l.maxRecords)
  {
    hide Newest;
    if t.Maintain? && Stale(s.rows[id], l, t.now) && s.rows[id].created >= t.now - l.retentionSeconds {
      TerminalRowIsCapped(s.rows, l, t.now, id);
    }
  }

  /** So a running row can vanish without ever being seen as FAILED. */
  lemma RunningRowCanVanish(l: Limits, now: int)
    requires l.retentionSeconds >= l.staleSeconds
    ensures var created := now - l.retentionSeconds - 1;
            var s := Store(map[1 := Review("r", RUNNING, "", Some(created), created, false, [])], 1, []);
            Consistent(s) && IsRunning(s.rows[1]) && 1 !in Apply(s, l, Maintain(now)).rows
  {
    var created := now - l.retentionSeconds - 1;
    var s := Store(map[1 := Review("r", RUNNING, "", Some(created), created, false, [])], 1, []);
    RunningRowDisappears(s, l, Maintain(now), 1);
  }

  function RunAll(s: Store, l: Limits, ts: seq<Transaction>): Store
    decreases |ts|
  {
    if ts == [] then s else RunAll(Apply(s, l, ts[0]), l, ts[1..])
  }

  lemma {:induction false} RunKeeps(s: Store, l: Limits, ts: seq<Transaction>)
    requires Consistent(s)
    ensures Consistent(RunAll(s, l, ts)) && Keeps(s, RunAll(s, l, ts))
    decreases |ts|
  {
    hide Apply;
    if ts != [] {
      StepKeeps(s, l, ts[0]);
      RunKeeps(Apply(s, l, ts[0]), l, ts[1..]);
    }
  }

  /** How often a row left RUNNING in a run. */
  function Departures(s: Store, l: Limits, ts: seq<Transaction>, id: nat): nat
    decreases |ts|
  {
    if ts == [] then 0
    else
      var s' := Apply(s, l, ts[0]);
      (if id in s.rows && IsRunning(s.rows[id]) && !(id in s'.rows && IsRunning(s'.rows[id])) then 1 else 0)
      + Departures(s', l, ts[1..], id)
  }

  /** In any interleaving a row leaves RUNNING at most once, and afterwards it only stays or is deleted. */
  lemma {:induction false} LeavesRunningOnce(s: Store, l: Limits, ts: seq<Transaction>, id: nat)
    requires Consistent(s)
    ensures Departures(s, l, ts, id) <= 1
    ensures id <= s.last && !(id in s.rows && IsRunning(s.rows[id])) ==>
              Departures(s, l, ts, id) == 0
                && (id in RunAll(s, l, ts).rows ==> id in s.rows && RunAll(s, l, ts).rows[id] == s.rows[id])
    decreases |ts|
  {
    hide Apply;
    if ts != [] {
      StepKeeps(s, l, ts[0]);
      LeavesRunningOnce(Apply(s, l, ts[0]), l, ts[1..], id);
    }
  }

  /** Findings appear on a row only in the step that completes it, and then the whole list does. */
  lemma FindingsComeWithCompletion(s: Store, l: Limits, t: Transaction, id: nat)
    requires Consistent(s) && Proper(t)
    requires id in s.rows && id in Apply(s, l, t).rows
    ensures var r, r' := s.rows[id], Apply(s, l, t).rows[id];
            && (r'.status == COMPLETED && r.status != COMPLETED <==>
                  t.Finish? && t.request == r.request && r.status == RUNNING)
            && (r'.status == COMPLETED && r.status != COMPLETED ==>
                  r'.findings == t.findings && r'.verdict == t.verdict)
            && (r'.findings != r.findings || r'.verdict != r.verdict ==>
                  t.Finish? && r'.status == COMPLETED && r.status == RUNNING)
  {
    hide Newest;
  }

  /** A heartbeat keeps its review running through any maintenance within the stale window. */
  lemma HeartbeatKeepsAlive(s: Store, l: Limits, id: nat, now: int, later: int)
    requires id in s.rows && IsRunning(s.rows[id]) && later <= now + l.staleSeconds
    ensures var after := Apply(Apply(s, l, Touch(s.rows[id].request, now)), l, Maintain(later));
            id in after.rows && after.rows[id] == s.rows[id].(heartbeat := Some(now))
  {
    hide Newest;
  }

  /** Cancelling flags the row exactly while it runs, and touches nothing else. */
  lemma CancelFlagsOnlyRunning(s: Store, l: Limits, id: nat)
    ensures var after := Apply(s, l, Cancel(id));
            && after.rows.Keys == s.rows.Keys
            && (forall x :: x in s.rows ==>
                  after.rows[x] == if x == id && IsRunning(s.rows[x]) then s.rows[x].(cancelled := true) else s.rows[x])
  {}

  /** A review is created running, under a new id, unless its request id is taken. */
  lemma CreateAddsOneRow(s: Store, l: Limits, request: string, now: int)
    requires Consistent(s)
    ensures var after := Apply(s, l, Create(request, now));
            if (exists id :: id in s.rows && s.rows[id].request == request) then after == s
            else
              && after.rows.Keys == s.rows.Keys + {after.last} && after.last !in s.rows
              && (forall id :: id in s.rows ==> after.rows[id] == s.rows[id])
              && after.rows[after.last] == Review(request, RUNNING, "", Some(now), now, false, [])
  {}

  /** What a heartbeat, a finish and a close make of a running row. */
  function Written(t: Transaction, r: Review): Review
    requires t.Touch? || t.Finish? || t.Close?
  {
    match t
    case Touch(_, now) => Review(r.request, r.status, r.verdict, Some(now), r.created, r.cancelled, r.findings)
    case Finish(_, verdict, findings) =>
      Review(r.request, COMPLETED, verdict, r.heartbeat, r.created, r.cancelled, findings)
    case Close(_, status) => Review(r.request, status, r.verdict, r.heartbeat, r.created, r.cancelled, r.findings)
  }

  /** They change the running row of their request and nothing else. */
  lemma RequestWritesItsRow(s: Store, l: Limits, t: Transaction)
    requires t.Touch? || t.Finish? || t.Close?
    ensures var after := Apply(s, l, t);
            && after.rows.Keys == s.rows.Keys && after.last == s.last && after.events == s.events
            && (forall id :: id in s.rows ==>
                  after.rows[id] == if s.rows[id].request == t.request && s.rows[id].status == RUNNING
                                    then Written(t, s.rows[id]) else s.rows[id])
  {}

  /** A running row whose last sign of life is too long ago. */
  predicate Overdue(r: Review, l: Limits, now: int) {
    r.status == RUNNING && now - (match r.heartbeat case Some(at) => at case None => r.created) > l.staleSeconds
  }

  /**
   Maintenance fails exactly the overdue rows it keeps and keeps every other running row as it is; of the rest it keeps
   those within retention with few enough newer ones, what the running rows leave of the cap.
   */
  lemma MaintainsExactly(s: Store, l: Limits, now: int, id: nat)
    requires id in s.rows
    ensures var after, r := Apply(s, l, Maintain(now)), s.rows[id];
            && after.last == s.last && after.events == s.events && after.rows.Keys <= s.rows.Keys
            && (id in after.rows ==>
                  after.rows[id]
                  == if Overdue(r, l, now)
                     then Review(r.request, FAILED, r.verdict, r.heartbeat, r.created, r.cancelled, r.findings) else r)
            && (r.status == RUNNING && !Overdue(r, l, now) ==> id in after.rows)
            && (r.status != RUNNING || Overdue(r, l, now) ==>
                  (id in after.rows
                   <==> now - r.created <= l.retentionSeconds
                        && |NewerTerminal(s.rows, l, now, id)| + |StillRunning(s.rows, l, now)| < l.maxRecords))
  {
    hide Newest;
    var before := DropOld(FailStale(s.rows, l, now), l, now);
    if !(IsRunning(s.rows[id]) && !Stale(s.rows[id], l, now)) && s.rows[id].created >= now - l.retentionSeconds {
      TerminalRowIsCapped(s.rows, l, now, id);
    }
  }

  lemma TerminalRowIsCapped(rows: map<nat, Review>, l: Limits, now: int, id: nat)
    requires id in rows && (!IsRunning(rows[id]) || Stale(rows[id], l, now))
    requires rows[id].created >= now - l.retentionSeconds
    ensures id in Maintained(rows, l, now)
            <==> |NewerTerminal(rows, l, now, id)| + |StillRunning(rows, l, now)| < l.maxRecords
  {
    var before := DropOld(FailStale(rows, l, now), l, now);
    assert Above(TerminalIds(before), id) == NewerTerminal(rows, l, now, id);
    assert RunningIds(before) == StillRunning(rows, l, now);
  }

  // ----- the cap -----

  lemma {:induction false} NewestCount(ids: set<nat>, limit: nat)
    ensures |Newest(ids, limit)| == if |ids| < limit then |ids| else limit
    decreases |ids|
  {
    if ids == {} {
    } else {
      var least := LeastOf(ids);
      var rest := ids - {least};
      NewestCount(rest, limit);
      assert Above(ids, least) == rest;
      forall id | id in rest ensures Above(ids, id) == Above(rest, id) {
      }
      assert Newest(ids, limit) == Newest(rest, limit) + (if |rest| < limit then {least} else {});
    }
  }

  lemma LeastOf(ids: set<nat>) returns (least: nat)
    requires ids != {}
    ensures least in ids && forall x :: x in ids ==> least <= x
    decreases |ids|
  {
    var first :| first in ids;
    least := first;
    var rest := ids - {first};
    if rest != {} {
      var other := LeastOf(rest);
      if other < first {
        least := other;
      }
    }
    forall x | x in ids ensures least <= x {
      assert x == first || x in rest;
    }
  }

  /** After maintenance the table holds at most the cap, or only the running reviews when those exceed it. */
  lemma MaintenanceCaps(rows: map<nat, Review>, l: Limits, now: int)
    ensures var after := Maintained(rows, l, now);
            var running := |RunningIds(after)|;
            && |after| <= (if running > l.maxRecords then running else l.maxRecords)
            && RunningIds(after) == set id | id in rows && IsRunning(rows[id]) && !Stale(rows[id], l, now)
  {
    var before := DropOld(FailStale(rows, l, now), l, now);
    CapCounts(before, l);
    assert RunningIds(Cap(before, l)) == RunningIds(before);
  }

  lemma CapCounts(rows: map<nat, Review>, l: Limits)
    ensures var running := |RunningIds(rows)|;
            |Cap(rows, l)| <= if running > l.maxRecords then running else l.maxRecords
  {
    hide Newest;
    NewestCount(TerminalIds(rows), TerminalLimit(rows, l));
    assert Cap(rows, l).Keys <= RunningIds(rows) + Newest(TerminalIds(rows), TerminalLimit(rows, l));
    SizeOfUnion(Cap(rows, l).Keys, RunningIds(rows), Newest(TerminalIds(rows), TerminalLimit(rows, l)));
    assert |Cap(rows, l)| == |Cap(rows, l).Keys|;
  }

  lemma SizeOfUnion(a: set<nat>, b: set<nat>, c: set<nat>)
    requires a <= b + c
    ensures |a| <= |b| + |c|
  {
    Subset(a, b + c);
  }

  lemma {:induction false} Subset(a: set<nat>, b: set<nat>)
    requires a <= b
    ensures |a| <= |b|
    decreases |a|
  {
    if a != {} {
      var x :| x in a;
      Subset(a - {x}, b - {x});
    }
  }
}
