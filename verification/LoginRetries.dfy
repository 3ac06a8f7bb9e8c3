/**
 The retried transaction of the login limiter (pr_agent/dashboard/storage.py) and the answer of the login
 route (pr_agent/servers/dashboard_api.py), which reads a result that every attempt writes into.
 */
module LoginRetries {
  import opened LoginLimiter
  import opened Wrappers
  import opened WriteOutcomes

  /** What the callers' transactions in between leave. */
  function AfterOthers(rows: seq<Row>, c: Config, others: seq<Call>): seq<Row>
    decreases |others|
  {
    if others == [] then rows else AfterOthers(Verify(rows, c, others[0]).rows, c, others[1..])
  }

  /** Calls that land first, and how the attempt then ends. */
  datatype Try = Try(others: seq<Call>, outcome: Outcome)

  /** The result the attempts write into; none of them clears what an earlier one wrote. */
  datatype Report = Report(authenticated: bool, lockedOut: bool, failedCount: nat, storageError: bool)

  const FRESH := Report(false, false, 0, true)

  function Noted(r: Report, d: Decision): Report {
    match d
    case LockedOut(n) => r.(lockedOut := true, failedCount := n)
    case Authenticated => r.(authenticated := true, failedCount := 0)
    case Rejected(n) => r.(failedCount := n)
  }

  /** What the login route makes of the result. */
  datatype Answer = Unavailable | TooMany | Wrong(failures: nat) | Welcome

  function AnswerTo(r: Report): Answer {
    if r.storageError then Unavailable
    else if r.lockedOut then TooMany
    else if r.authenticated then Welcome
    else Wrong(r.failedCount)
  }

  function Says(d: Decision): Answer {
    match d
    case LockedOut(_) => TooMany
    case Authenticated => Welcome
    case Rejected(n) => Wrong(n)
  }

  datatype Tried = Tried(rows: seq<Row>, report: Report)

  function Retried(rows: seq<Row>, c: Config, call: Call, tries: seq<Try>, report: Report): Tried
    decreases |tries|
  {
    if tries == [] then Tried(rows, report)
    else
      var u := AfterOthers(rows, c, tries[0].others);
      var o := Verify(u, c, call);
      match tries[0].outcome
      case LockedBefore => Retried(u, c, call, tries[1..], report)
      case LockedAfter => Retried(u, c, call, tries[1..], Noted(report, o.decision))
      case Breaks => Tried(u, report)
      case Commits => Tried(o.rows, Noted(report, o.decision).(storageError := false))
      case CommitsThenBreaks => Tried(o.rows, Noted(report, o.decision))
  }

  /** The attempt that commits, if one does before anything but a lock stops the retries. */
  function Landed(tries: seq<Try>): Option<nat> {
    if tries == [] then None
    else match tries[0].outcome
      case Commits => Some(0)
      case LockedBefore | LockedAfter =>
        var k := Landed(tries[1..]);
        if k.Some? then Some(k.value + 1) else None
      case _ => None
  }

  /** The table an attempt finds. */
  function FoundBy(rows: seq<Row>, c: Config, tries: seq<Try>, k: nat): seq<Row>
    requires k < |tries|
    decreases k
  {
    var u := AfterOthers(rows, c, tries[0].others);
    if k == 0 then u else FoundBy(u, c, tries[1..], k - 1)
  }

  /** Before attempt `k` one decided on a lock-out and was rolled back. */
  predicate RolledBackLock(rows: seq<Row>, c: Config, call: Call, tries: seq<Try>, k: nat)
    requires k <= |tries|
    decreases k
  {
    k > 0 &&
    (var u := AfterOthers(rows, c, tries[0].others);
     || (tries[0].outcome.LockedAfter? && Verify(u, c, call).decision.LockedOut?)
     || RolledBackLock(u, c, call, tries[1..], k - 1))
  }

  lemma {:induction false} RetriedReports(rows: seq<Row>, c: Config, call: Call, tries: seq<Try>, report: Report)
    requires report.storageError && (report.authenticated ==> call.matches)
    ensures var r, k := Retried(rows, c, call, tries, report).report, Landed(tries);
            && (k.Some? ==> k.value < |tries|)
            && AnswerTo(r) == if k.None? then Unavailable
                              else if report.lockedOut || RolledBackLock(rows, c, call, tries, k.value) then TooMany
                              else Says(Verify(FoundBy(rows, c, tries, k.value), c, call).decision)
    decreases |tries|
  {
    hide AfterOthers;
    if tries != [] {
      var u := AfterOthers(rows, c, tries[0].others);
      DecisionFits(u, c, call);
      hide Verify;
      if tries[0].outcome.LockedBefore? {
        RetriedReports(u, c, call, tries[1..], report);
      } else if tries[0].outcome.LockedAfter? {
        RetriedReports(u, c, call, tries[1..], Noted(report, Verify(u, c, call).decision));
      }
    }
  }

  /** The attempt whose writes stay, reported or not. */
  function Kept(tries: seq<Try>): Option<nat> {
    if tries == [] || tries[0].outcome.Breaks? then None
    else if tries[0].outcome.Commits? || tries[0].outcome.CommitsThenBreaks? then Some(0)
    else
      var k := Kept(tries[1..]);
      if k.Some? then Some(k.value + 1) else None
  }

  /** The last attempt made: the first that does not lose to a lock, or else the last one there is. */
  function LastMade(tries: seq<Try>): (k: nat)
    requires tries != []
    ensures k < |tries|
  {
    if |tries| == 1 || !(tries[0].outcome.LockedBefore? || tries[0].outcome.LockedAfter?) then 0
    else 1 + LastMade(tries[1..])
  }

  /** What is counted in a decision. */
  function Failures(d: Decision): nat {
    match d
    case LockedOut(n) => n
    case Authenticated => 0
    case Rejected(n) => n
  }

  /**
   The table afterwards is what the attempt that stays made of what it found, and otherwise what the last attempt
   found; a report of success carries the count of the attempt that committed.
   */
  lemma {:induction false} RetriesLeave(rows: seq<Row>, c: Config, call: Call, tries: seq<Try>, report: Report)
    requires tries != [] && report.storageError
    ensures var t, k, landed := Retried(rows, c, call, tries, report), Kept(tries), Landed(tries);
            && (k.Some? ==> k.value < |tries|)
            && t.rows == (if k.Some? then Verify(FoundBy(rows, c, tries, k.value), c, call).rows
                          else FoundBy(rows, c, tries, LastMade(tries)))
            && (landed.Some? ==>
                  && landed == k
                  && t.report.failedCount == Failures(Verify(FoundBy(rows, c, tries, k.value), c, call).decision))
    decreases |tries|
  {
    hide Verify, AfterOthers;
    var u := AfterOthers(rows, c, tries[0].others);
    if tries[0].outcome.LockedBefore? || tries[0].outcome.LockedAfter? {
      var next := if tries[0].outcome.LockedBefore? then report else Noted(report, Verify(u, c, call).decision);
      if |tries| == 1 {
        assert tries[1..] == [];
      } else {
        RetriesLeave(u, c, call, tries[1..], next);
      }
    }
  }

  lemma DecisionFits(rows: seq<Row>, c: Config, call: Call)
    ensures var d := Verify(rows, c, call).decision;
            (d.Authenticated? ==> call.matches) && (d.Rejected? ==> !call.matches)
  {}

  /**
   The login route answers with the decision that was committed, unless that was no lock-out and an attempt
   that was rolled back had decided on one: then it answers that there were too many attempts.
   */
  lemma AnswerIsRight(rows: seq<Row>, c: Config, call: Call, tries: seq<Try>)
    ensures var answer, k := AnswerTo(Retried(rows, c, call, tries, FRESH).report), Landed(tries);
            && (answer == Unavailable <==> k.None?)
            && (k.Some? ==> k.value < |tries|)
            && (k.Some? ==>
                  var d := Verify(FoundBy(rows, c, tries, k.value), c, call).decision;
                  (answer == Says(d) <==> d.LockedOut? || !RolledBackLock(rows, c, call, tries, k.value)))
  {
    hide Verify, Retried, FoundBy, RolledBackLock;
    RetriedReports(rows, c, call, tries, FRESH);
  }

  /**
   It happens: the right password arrives while the key is locked out, the attempt is rolled back, a later call
   of somebody else purges the old failure, and the second attempt authenticates and clears the key's rows; the
   answer is still that there were too many attempts.
   */
  lemma LoginIsMisreported(k: string, o: string)
    requires k != o
    ensures var c, call := Config(10, 1, 100), Call(k, true, 10.0);
            var tries := [Try([], LockedAfter), Try([Call(o, false, 10.5)], Commits)];
            var r := Retried([Row(k, 0.0)], c, call, tries, FRESH);
            r.rows == [Row(o, 10.5)] && AnswerTo(r.report) == TooMany
  {
    var c, call := Config(10, 1, 100), Call(k, true, 10.0);
    var a, b := Try([], LockedAfter), Try([Call(o, false, 10.5)], Commits);
    var stale, next := Row(k, 0.0), Row(o, 10.5);
    var other := Call(o, false, 10.5);
    LoneRow(stale, c, call);
    PurgedByOther(stale, next, c);
    OtherRow(next, c, call);
    hide Verify;
    assert [a, b][1..] == [b] && [other][1..] == [];
    assert AfterOthers([stale], c, [other]) == [next];
    assert Retried([stale], c, call, [b], Noted(FRESH, LockedOut(1))).rows == [next];
  }

  lemma OtherRow(r: Row, c: Config, call: Call)
    requires r.key != call.key && call.matches && r.at >= call.now - c.window as real && c.maxAttempts >= 1
    ensures Verify([r], c, call) == Verified([r], Authenticated)
  {
    FromOne(r, call.now - c.window as real);
    CountOne(r, call.key, call.now - c.window as real, None);
    assert [r][1..] == [] && Without([r], call.key) == [r];
  }

  lemma LoneRow(r: Row, c: Config, call: Call)
    requires r.key == call.key && r.at >= call.now - c.window as real && c.maxAttempts == 1
    ensures Verify([r], c, call) == Verified([r], LockedOut(1))
  {
    FromOne(r, call.now - c.window as real);
    CountOne(r, call.key, call.now - c.window as real, None);
  }

  lemma PurgedByOther(stale: Row, next: Row, c: Config)
    requires stale.at < next.at - c.window as real && c.maxAttempts >= 1 && c.maxRows >= 1
    ensures Verify([stale], c, Call(next.key, false, next.at)) == Verified([next], Rejected(1))
  {
    FromOne(stale, next.at - c.window as real);
    assert [] + [next] == [next];
  }

  class LoginAttempts {
    var rows: seq<Row>

    constructor ()
      ensures rows == []
    {
      rows := [];
    }

    /** The statements of one transaction. */
    method Transact(c: Config, call: Call) returns (decision: Decision)
      modifies this
      ensures Verified(rows, decision) == Verify(old(rows), c, call)
    {
      hide From, CountSince, Without, DropOldest;
      var cutoff := call.now - c.window as real;
      rows := From(rows, cutoff);
      var failures := CountSince(rows, call.key, cutoff);
      if failures >= c.maxAttempts {
        return LockedOut(failures);
      }
      if call.matches {
        rows := Without(rows, call.key);
        return Authenticated;
      }
      rows := rows + [Row(call.key, call.now)];
      failures := failures + 1;
      var excess := if |rows| - c.maxRows > 0 then |rows| - c.maxRows else 0;
      if excess > 0 {
        rows := DropOldest(rows, excess);
      } else {
        DropNothing(rows, |rows| - c.maxRows);
      }
      decision := Rejected(failures);
    }

    method Meanwhile(c: Config, others: seq<Call>)
      modifies this
      ensures rows == AfterOthers(old(rows), c, others)
    {
      hide Verify;
      assert others[0..] == others;
      for k := 0 to |others|
        invariant AfterOthers(rows, c, others[k..]) == AfterOthers(old(rows), c, others)
      {
        assert others[k..][1..] == others[k + 1..];
        var _ := Transact(c, others[k]);
      }
    }

    /** The retry loop around it; a rolled-back attempt leaves the table alone and the result as it wrote it. */
    method VerifyLoginAttempt(c: Config, call: Call, tries: seq<Try>) returns (report: Report)
      requires |tries| == MAX_RETRY
      modifies this
      ensures Tried(rows, report) == Retried(old(rows), c, call, tries, FRESH)
    {
      hide Verify, AfterOthers;
      report := FRESH;
      assert tries[0..] == tries;
      for k := 0 to MAX_RETRY
        invariant report.storageError
        invariant Retried(rows, c, call, tries[k..], report) == Retried(old(rows), c, call, tries, FRESH)
      {
        assert tries[k..][1..] == tries[k + 1..];
        Meanwhile(c, tries[k].others);
        if tries[k].outcome.Breaks? {
          return;
        }
        if !tries[k].outcome.LockedBefore? {
          var before := rows;
          var decision := Transact(c, call);
          report := Noted(report, decision);
          if !tries[k].outcome.LockedAfter? {
            return report.(storageError := !tries[k].outcome.Commits?);
          }
          rows := before;
        }
      }
    }
  }
}
