/**
 The sliding-window login limiter (pr_agent/dashboard/storage.py): one transaction that purges, counts,
 and records or clears, against the full history of failures that is never purged or capped.

 A call carries the time it was made at; calls land in the order of their transactions, which need not be
 the order of those times.
 */
module LoginLimiter {
  import opened Sequences
  import opened Wrappers

  /** Rows stand in the order of their ids. */
  datatype Row = Row(key: string, at: real)

  datatype Config = Config(window: nat, maxAttempts: int, maxRows: int)

  datatype Decision = LockedOut(failures: nat) | Authenticated | Rejected(failures: nat)

  datatype Call = Call(key: string, matches: bool, now: real)

  // ----- statements -----

  /** DELETE ... WHERE attempted_at < cutoff. */
  function From(rows: seq<Row>, cutoff: real): seq<Row> {
    if rows == [] then [] else (if rows[0].at < cutoff then [] else [rows[0]]) + From(rows[1..], cutoff)
  }

  /** What that statement deletes. */
  function Before(rows: seq<Row>, cutoff: real): seq<Row> {
    if rows == [] then [] else (if rows[0].at < cutoff then [rows[0]] else []) + Before(rows[1..], cutoff)
  }

  /** DELETE ... WHERE lockout_key = ?. */
  function Without(rows: seq<Row>, key: string): seq<Row> {
    if rows == [] then [] else (if rows[0].key == key then [] else [rows[0]]) + Without(rows[1..], key)
  }

  /** How many rows of a key lie between two times, or after the first. */
  function Count(rows: seq<Row>, key: string, lo: real, hi: Option<real>): nat {
    if rows == [] then 0
    else
      (if rows[0].key == key && lo <= rows[0].at && (hi.Some? ==> rows[0].at <= hi.value) then 1 else 0)
      + Count(rows[1..], key, lo, hi)
  }

  /** SELECT COUNT(*) ... WHERE lockout_key = ? AND attempted_at >= cutoff. */
  function CountSince(rows: seq<Row>, key: string, cutoff: real): nat { Count(rows, key, cutoff, None) }

  /** ORDER BY attempted_at, id LIMIT 1. */
  function Oldest(rows: seq<Row>): (k: nat)
    requires rows != []
    ensures k < |rows| && forall i :: 0 <= i < |rows| ==> rows[k].at <= rows[i].at
  {
    if |rows| == 1 then 0
    else
      var k := Oldest(rows[1..]) + 1;
      if rows[0].at <= rows[k].at then 0 else k
  }

  function Omit(rows: seq<Row>, k: nat): seq<Row>
    requires k < |rows|
  {
    rows[..k] + rows[k + 1..]
  }

  /** DELETE of the oldest `n` rows. */
  function DropOldest(rows: seq<Row>, n: int): seq<Row>
    decreases |rows|
  {
    if n <= 0 || rows == [] then rows else DropOldest(Omit(rows, Oldest(rows)), n - 1)
  }

  /** What that statement deletes. */
  function OldestRows(rows: seq<Row>, n: int): seq<Row>
    decreases |rows|
  {
    if n <= 0 || rows == [] then [] else [rows[Oldest(rows)]] + OldestRows(Omit(rows, Oldest(rows)), n - 1)
  }

  function Capped(rows: seq<Row>, maxRows: int): seq<Row> { DropOldest(rows, |rows| - maxRows) }

  datatype Verified = Verified(rows: seq<Row>, decision: Decision)

  function Verify(rows: seq<Row>, c: Config, call: Call): Verified {
    var cutoff := call.now - c.window as real;
    var recent := From(rows, cutoff);
    var failures := CountSince(recent, call.key, cutoff);
    if failures >= c.maxAttempts then Verified(recent, LockedOut(failures))
    else if call.matches then Verified(Without(recent, call.key), Authenticated)
    else Verified(Capped(recent + [Row(call.key, call.now)], c.maxRows), Rejected(failures + 1))
  }

  // ----- counting through the statements -----

  lemma {:induction false} CountConcat(a: seq<Row>, b: seq<Row>, key: string, lo: real, hi: Option<real>)
    ensures Count(a + b, key, lo, hi) == Count(a, key, lo, hi) + Count(b, key, lo, hi)
  {
    if a == [] {
      assert a + b == b;
    } else {
      assert (a + b)[1..] == a[1..] + b;
      CountConcat(a[1..], b, key, lo, hi);
    }
  }

  lemma CountOne(r: Row, key: string, lo: real, hi: Option<real>)
    ensures Count([r], key, lo, hi)
            == if r.key == key && lo <= r.at && (hi.Some? ==> r.at <= hi.value) then 1 else 0
  {
    assert [r][1..] == [];
  }

  /** Counts do not depend on the order of the rows. */
  lemma {:induction false} CountPermuted(a: seq<Row>, b: seq<Row>, key: string, lo: real, hi: Option<real>)
    requires multiset(a) == multiset(b)
    ensures Count(a, key, lo, hi) == Count(b, key, lo, hi)
    decreases |a|
  {
    hide Count, Omit;
    if a == [] {
      assert |multiset(b)| == 0;
    } else {
      var r := a[0];
      assert r in multiset(b);
      var k :| 0 <= k < |b| && b[k] == r;
      OmitOne(b, k);
      OmitOne(a, 0);
      TailIsOmit(a);
      assert multiset(a[1..]) == multiset(a) - multiset{r} == multiset(b) - multiset{r} == multiset(Omit(b, k));
      CountPermuted(a[1..], Omit(b, k), key, lo, hi);
      CountOmit(a, 0, key, lo, hi);
      CountOmit(b, k, key, lo, hi);
    }
  }

  lemma TailIsOmit(a: seq<Row>)
    requires a != []
    ensures Omit(a, 0) == a[1..]
  {}

  lemma CountOmit(rows: seq<Row>, k: nat, key: string, lo: real, hi: Option<real>)
    requires k < |rows|
    ensures Count(rows, key, lo, hi) == Count([rows[k]], key, lo, hi) + Count(Omit(rows, k), key, lo, hi)
  {
    hide Count;
    assert rows == rows[..k] + ([rows[k]] + rows[k + 1..]);
    CountConcat(rows[..k], [rows[k]] + rows[k + 1..], key, lo, hi);
    CountConcat([rows[k]], rows[k + 1..], key, lo, hi);
    CountConcat(rows[..k], rows[k + 1..], key, lo, hi);
  }

  lemma OmitOne(rows: seq<Row>, k: nat)
    requires k < |rows|
    ensures multiset(rows) == multiset{rows[k]} + multiset(Omit(rows, k))
  {
    assert rows == rows[..k] + ([rows[k]] + rows[k + 1..]);
  }

  /** Every row is kept or deleted. */
  lemma {:induction false} PurgeSplits(rows: seq<Row>, cutoff: real)
    ensures multiset(rows) == multiset(From(rows, cutoff)) + multiset(Before(rows, cutoff))
  {
    if rows != [] {
      PurgeSplits(rows[1..], cutoff);
      assert rows == [rows[0]] + rows[1..];
    }
  }

  lemma DropNothing(rows: seq<Row>, n: int)
    requires n <= 0 || rows == []
    ensures DropOldest(rows, n) == rows && OldestRows(rows, n) == []
  {
    hide Oldest, Omit;
  }

  /** One row at a time. */
  lemma DropStep(rows: seq<Row>, n: int)
    requires n > 0 && rows != []
    ensures var k := Oldest(rows);
            && DropOldest(rows, n) == DropOldest(Omit(rows, k), n - 1)
            && OldestRows(rows, n) == [rows[k]] + OldestRows(Omit(rows, k), n - 1)
  {
    hide Oldest, Omit;
  }

  lemma {:induction false} DropSplits(rows: seq<Row>, n: int)
    ensures multiset(rows) == multiset(DropOldest(rows, n)) + multiset(OldestRows(rows, n))
    decreases |rows|
  {
    hide *;
    if n <= 0 || rows == [] {
      DropNothing(rows, n);
    } else {
      var k := Oldest(rows);
      var rest := Omit(rows, k);
      OmitOne(rows, k);
      OmitShrinks(rows, k);
      DropSplits(rest, n - 1);
      DropStep(rows, n);
      OneMore(rows, rows[k], rest, DropOldest(rest, n - 1), OldestRows(rest, n - 1));
    }
  }

  lemma OneMore(rows: seq<Row>, r: Row, rest: seq<Row>, kept: seq<Row>, dropped: seq<Row>)
    requires multiset(rows) == multiset{r} + multiset(rest) && multiset(rest) == multiset(kept) + multiset(dropped)
    ensures multiset(rows) == multiset(kept) + multiset([r] + dropped)
  {
    forall x: Row ensures multiset(rows)[x] == (multiset(kept) + multiset([r] + dropped))[x] {
    }
  }

  lemma OmitShrinks(rows: seq<Row>, k: nat)
    requires k < |rows|
    ensures |Omit(rows, k)| < |rows|
  {}

  /** What the success of a key deletes, as often as it is there. */
  lemma {:induction false} WithoutIs(rows: seq<Row>, key: string, r: Row)
    ensures multiset(Without(rows, key))[r] == if r.key == key then 0 else multiset(rows)[r]
  {
    if rows != [] {
      WithoutIs(rows[1..], key, r);
      assert rows == [rows[0]] + rows[1..];
    }
  }

  lemma WithoutPermuted(a: seq<Row>, b: seq<Row>, key: string)
    requires multiset(a) == multiset(b)
    ensures multiset(Without(a, key)) == multiset(Without(b, key))
  {
    forall r: Row ensures multiset(Without(a, key))[r] == multiset(Without(b, key))[r] {
      WithoutIs(a, key, r);
      WithoutIs(b, key, r);
    }
  }

  lemma {:induction false} WithoutConcat(a: seq<Row>, b: seq<Row>, key: string)
    ensures Without(a + b, key) == Without(a, key) + Without(b, key)
  {
    if a == [] {
      assert a + b == b;
    } else {
      assert (a + b)[1..] == a[1..] + b;
      WithoutConcat(a[1..], b, key);
    }
  }

  lemma {:induction false} CountWithout(rows: seq<Row>, gone: string, key: string, lo: real, hi: Option<real>)
    ensures Count(Without(rows, gone), key, lo, hi) == if key == gone then 0 else Count(rows, key, lo, hi)
  {
    if rows != [] {
      CountWithout(rows[1..], gone, key, lo, hi);
      HeadTail(rows);
      Reassoc(Without(rows[1..], gone), [], []);
      CountConcat([rows[0]], Without(rows[1..], gone), key, lo, hi);
      CountOne(rows[0], key, lo, hi);
    }
  }

  lemma {:induction false} CountFrom(rows: seq<Row>, key: string, cutoff: real)
    ensures CountSince(From(rows, cutoff), key, cutoff) == CountSince(rows, key, cutoff)
  {
    if rows != [] {
      CountFrom(rows[1..], key, cutoff);
      Reassoc(From(rows[1..], cutoff), [], []);
      CountConcat([rows[0]], From(rows[1..], cutoff), key, cutoff, None);
      CountOne(rows[0], key, cutoff, None);
    }
  }

  lemma {:induction false} NoneCounted(rows: seq<Row>, key: string, lo: real, hi: Option<real>)
    requires forall k :: 0 <= k < |rows| && rows[k].key == key ==> rows[k].at < lo
    ensures Count(rows, key, lo, hi) == 0
  {
    if rows != [] {
      assert rows[0].key == key ==> rows[0].at < lo;
      NoneCounted(rows[1..], key, lo, hi);
    }
  }

  /** A narrower window counts no more. */
  lemma {:induction false} CountNarrows(rows: seq<Row>, key: string, lo: real, hi: Option<real>, from: real)
    requires from <= lo
    ensures Count(rows, key, lo, hi) <= CountSince(rows, key, from)
  {
    if rows != [] {
      CountNarrows(rows[1..], key, lo, hi, from);
    }
  }

  lemma {:induction false} CountToLast(rows: seq<Row>, key: string, lo: real, hi: real)
    requires Past(rows, hi)
    ensures Count(rows, key, lo, Some(hi)) == CountSince(rows, key, lo)
  {
    if rows != [] {
      CountToLast(rows[1..], key, lo, hi);
    }
  }

  ghost predicate Past(rows: seq<Row>, time: real) { forall k :: 0 <= k < |rows| ==> rows[k].at <= time }

  lemma {:induction false} WithoutStaysPast(rows: seq<Row>, key: string, time: real)
    requires Past(rows, time)
    ensures Past(Without(rows, key), time)
  {
    if rows != [] {
      WithoutStaysPast(rows[1..], key, time);
    }
  }

  lemma {:induction false} PurgeStaysPast(rows: seq<Row>, cutoff: real, time: real)
    requires Past(rows, time)
    ensures Past(From(rows, cutoff), time)
    ensures forall k :: 0 <= k < |Before(rows, cutoff)| ==> Before(rows, cutoff)[k].at < cutoff
  {
    if rows != [] {
      PurgeStaysPast(rows[1..], cutoff, time);
    }
  }

  lemma {:induction false} DropStaysPast(rows: seq<Row>, n: int, time: real)
    requires Past(rows, time)
    ensures Past(DropOldest(rows, n), time) && Past(OldestRows(rows, n), time)
    decreases |rows|
  {
    hide DropOldest, OldestRows, Oldest;
    if n <= 0 || rows == [] {
      DropNothing(rows, n);
    } else {
      DropStep(rows, n);
      DropStaysPast(Omit(rows, Oldest(rows)), n - 1, time);
    }
  }

  // ----- against the full history -----

  /**
   The table beside every failure recorded since its key's last success, and beside those of them that the
   cap dropped and that calls purged. `latest` is the greatest time of a call so far, `lastDrop` a time up to
   which everything the cap dropped lies.
   */
  datatype History = History(
    rows: seq<Row>, full: seq<Row>, capped: seq<Row>, purged: seq<Row>, latest: real, lastDrop: real)

  function Later(a: real, b: real): real { if a >= b then a else b }

  function Purge(rows: seq<Row>, c: Config, call: Call): seq<Row> { Before(rows, call.now - c.window as real) }

  /** The rows the cap drops when a failure is recorded. */
  function Dropped(rows: seq<Row>, c: Config, call: Call): seq<Row> {
    var grown := From(rows, call.now - c.window as real) + [Row(call.key, call.now)];
    OldestRows(grown, |grown| - c.maxRows)
  }

  function Advance(h: History, c: Config, call: Call): History {
    var o, purged, latest := Verify(h.rows, c, call), h.purged + Purge(h.rows, c, call), Later(h.latest, call.now);
    match o.decision
    case LockedOut(_) => h.(rows := o.rows, purged := purged, latest := latest)
    case Authenticated =>
      History(o.rows, Without(h.full, call.key), Without(h.capped, call.key), Without(purged, call.key), latest,
              h.lastDrop)
    case Rejected(_) =>
      var dropped := Dropped(h.rows, c, call);
      History(o.rows, h.full + [Row(call.key, call.now)], h.capped + dropped, purged, latest,
              if dropped == [] then h.lastDrop else Later(h.lastDrop, latest))
  }

  function Replay(h: History, c: Config, calls: seq<Call>): History
    decreases |calls|
  {
    if calls == [] then h else Replay(Advance(h, c, calls[0]), c, calls[1..])
  }

  /** Nothing is lost track of: what is in the table, was dropped by the cap, or was purged makes up the history. */
  ghost predicate Tracks(h: History, c: Config) {
    && multiset(h.full) == multiset(h.rows + h.capped + h.purged)
    && Past(h.full, h.latest) && Past(h.rows, h.latest) && Past(h.capped, h.lastDrop)
    && (forall k :: 0 <= k < |h.purged| ==> h.purged[k].at < h.latest - c.window as real)
  }

  lemma StartsTracked(c: Config, latest: real, lastDrop: real)
    ensures var h := History([], [], [], [], latest, lastDrop); Tracks(h, c) && WindowsHold(h, c, c.window as real)
  {}

  lemma AdvanceConserves(h: History, c: Config, call: Call)
    requires Tracks(h, c)
    ensures var h' := Advance(h, c, call); multiset(h'.full) == multiset(h'.rows + h'.capped + h'.purged)
  {
    hide *;
    var recent, gone := From(h.rows, call.now - c.window as real), Purge(h.rows, c, call);
    var purged, r := h.purged + gone, Row(call.key, call.now);
    var grown := recent + [r];
    TracksIs(h, c);
    PurgeConserves(h.rows, c, call);
    RegroupPurged(h.full, h.rows, h.capped, h.purged, recent, gone);
    AdvanceParts(h, c, call);
    WithoutPermuted(h.full, recent + h.capped + purged, call.key);
    WithoutConcat(recent + h.capped, purged, call.key);
    WithoutConcat(recent, h.capped, call.key);
    DropSplits(grown, |grown| - c.maxRows);
    RegroupRows(h.full, r, recent, h.capped, purged, DropOldest(grown, |grown| - c.maxRows),
                OldestRows(grown, |grown| - c.maxRows));
  }

  lemma PurgeConserves(rows: seq<Row>, c: Config, call: Call)
    ensures multiset(rows) == multiset(From(rows, call.now - c.window as real)) + multiset(Purge(rows, c, call))
  {
    hide From, Before;
    PurgeSplits(rows, call.now - c.window as real);
  }

  /** What a call makes of the four parts. */
  lemma AdvanceParts(h: History, c: Config, call: Call)
    ensures var h', recent, purged :=
              Advance(h, c, call), From(h.rows, call.now - c.window as real), h.purged + Purge(h.rows, c, call);
            var grown := recent + [Row(call.key, call.now)];
            || (h'.full == h.full && h'.rows == recent && h'.capped == h.capped && h'.purged == purged)
            || (h'.full == Without(h.full, call.key) && h'.rows == Without(recent, call.key)
                && h'.capped == Without(h.capped, call.key) && h'.purged == Without(purged, call.key))
            || (h'.full == h.full + [Row(call.key, call.now)] && h'.rows == DropOldest(grown, |grown| - c.maxRows)
                && h'.capped == h.capped + OldestRows(grown, |grown| - c.maxRows) && h'.purged == purged)
  {
    hide From, Without, CountSince, DropOldest, OldestRows, Purge;
  }

  lemma RegroupPurged(
      full: seq<Row>, rows: seq<Row>, capped: seq<Row>, purged: seq<Row>, recent: seq<Row>, gone: seq<Row>)
    requires multiset(full) == multiset(rows + capped + purged)
    requires multiset(rows) == multiset(recent) + multiset(gone)
    ensures multiset(full) == multiset(recent + capped + (purged + gone))
  {
    forall x: Row ensures multiset(full)[x] == multiset(recent + capped + (purged + gone))[x] {
      assert multiset(full)[x] == multiset(rows)[x] + multiset(capped)[x] + multiset(purged)[x];
      assert multiset(rows)[x] == multiset(recent)[x] + multiset(gone)[x];
    }
  }

  lemma RegroupRows(
      full: seq<Row>, r: Row, recent: seq<Row>, capped: seq<Row>, purged: seq<Row>, kept: seq<Row>, dropped: seq<Row>)
    requires multiset(full) == multiset(recent + capped + purged)
    requires multiset(recent + [r]) == multiset(kept) + multiset(dropped)
    ensures multiset(full + [r]) == multiset(kept + (capped + dropped) + purged)
  {
    forall x: Row ensures multiset(full + [r])[x] == multiset(kept + (capped + dropped) + purged)[x] {
      assert multiset(full)[x] == multiset(recent)[x] + multiset(capped)[x] + multiset(purged)[x];
      assert multiset(recent + [r])[x] == multiset(kept)[x] + multiset(dropped)[x];
    }
  }

  lemma AdvanceStaysPast(h: History, c: Config, call: Call)
    requires Tracks(h, c)
    ensures var h' := Advance(h, c, call);
            && Past(h'.full, h'.latest) && Past(h'.rows, h'.latest) && Past(h'.capped, h'.lastDrop)
            && (forall k :: 0 <= k < |h'.purged| ==> h'.purged[k].at < h'.latest - c.window as real)
  {
    hide From, Before, Without, Count, CountSince, DropOldest, OldestRows;
    var cutoff, latest := call.now - c.window as real, Later(h.latest, call.now);
    var purged := h.purged + Purge(h.rows, c, call);
    PurgeStaysPast(h.rows, cutoff, latest);
    WithoutStaysPast(h.full, call.key, latest);
    WithoutStaysPast(h.capped, call.key, h.lastDrop);
    WithoutStaysPast(From(h.rows, cutoff), call.key, latest);
    WithoutStaysBefore(purged, call.key, latest - c.window as real);
    var grown := From(h.rows, cutoff) + [Row(call.key, call.now)];
    DropStaysPast(grown, |grown| - c.maxRows, latest);
    PastConcat(h.capped, Dropped(h.rows, c, call), h.lastDrop, latest);
  }

  lemma PastConcat(a: seq<Row>, b: seq<Row>, s: real, t: real)
    requires Past(a, s) && Past(b, t)
    ensures Past(a + b, Later(s, t)) && (b == [] ==> Past(a + b, s))
  {}

  lemma {:induction false} WithoutStaysBefore(rows: seq<Row>, key: string, time: real)
    requires forall k :: 0 <= k < |rows| ==> rows[k].at < time
    ensures forall k :: 0 <= k < |Without(rows, key)| ==> Without(rows, key)[k].at < time
  {
    if rows != [] {
      WithoutStaysBefore(rows[1..], key, time);
    }
  }

  lemma AdvanceTracks(h: History, c: Config, call: Call)
    requires Tracks(h, c)
    ensures Tracks(Advance(h, c, call), c)
  {
    hide *;
    AdvanceConserves(h, c, call);
    AdvanceStaysPast(h, c, call);
    TracksIs(Advance(h, c, call), c);
  }

  lemma TracksIs(h: History, c: Config)
    ensures Tracks(h, c) <==>
              && multiset(h.full) == multiset(h.rows + h.capped + h.purged)
              && Past(h.full, h.latest) && Past(h.rows, h.latest) && Past(h.capped, h.lastDrop)
              && (forall k :: 0 <= k < |h.purged| ==> h.purged[k].at < h.latest - c.window as real)
  {}

  lemma {:induction false} ReplayTracks(h: History, c: Config, calls: seq<Call>)
    requires Tracks(h, c)
    ensures Tracks(Replay(h, c, calls), c)
    decreases |calls|
  {
    hide Tracks, Advance;
    if calls != [] {
      AdvanceTracks(h, c, calls[0]);
      ReplayTracks(Advance(h, c, calls[0]), c, calls[1..]);
    }
  }

  /** For every key and every window: the counts of the parts add up to that of the history. */
  lemma CountsAddUp(h: History, c: Config, key: string, lo: real, hi: Option<real>)
    requires Tracks(h, c)
    ensures Count(h.full, key, lo, hi)
            == Count(h.rows, key, lo, hi) + Count(h.capped, key, lo, hi) + Count(h.purged, key, lo, hi)
  {
    hide Count, Past;
    CountPermuted(h.full, h.rows + h.capped + h.purged, key, lo, hi);
    CountConcat(h.rows + h.capped, h.purged, key, lo, hi);
    CountConcat(h.rows, h.capped, key, lo, hi);
  }

  /** The failures of the caller's key that still matter, and how many of them are no longer in the table. */
  function Earned(h: History, c: Config, call: Call): nat { CountSince(h.full, call.key, call.now - c.window as real) }

  function Lost(h: History, c: Config, call: Call): nat {
    var cutoff := call.now - c.window as real;
    CountSince(h.capped, call.key, cutoff) + CountSince(h.purged, call.key, cutoff)
  }

  /** So many of the key's failures inside the window are gone that the rest stay below the limit. */
  predicate Misses(h: History, c: Config, call: Call) {
    Earned(h, c, call) - Lost(h, c, call) < c.maxAttempts <= Earned(h, c, call)
  }

  /**
   Whatever the times of the calls: a lock-out is always earned by failures in the history, and one that is
   earned is missed exactly when too many of the key's failures inside the window were dropped by the cap or
   purged. A call that is not late finds none purged, and none dropped once the last drop left the window.
   */
  lemma DecisionIsTheHistorys(h: History, c: Config, call: Call)
    requires Tracks(h, c)
    ensures var locked := Verify(h.rows, c, call).decision.LockedOut?;
            var earned, cutoff := Earned(h, c, call) >= c.maxAttempts, call.now - c.window as real;
            && (locked ==> earned)
            && (earned && !locked <==> Misses(h, c, call))
            && (call.now >= h.latest ==> CountSince(h.purged, call.key, cutoff) == 0)
            && (h.lastDrop < cutoff ==> CountSince(h.capped, call.key, cutoff) == 0)
            && (call.now >= h.latest && h.lastDrop < cutoff ==> (locked <==> earned))
  {
    hide Count, From, DropOldest, Without;
    var cutoff := call.now - c.window as real;
    CountFrom(h.rows, call.key, cutoff);
    CountsAddUp(h, c, call.key, cutoff, None);
    if call.now >= h.latest {
      NoneCounted(h.purged, call.key, cutoff, None);
    }
    if h.lastDrop < cutoff {
      NoneCounted(h.capped, call.key, cutoff, None);
    }
  }

  // ----- every window -----

  function Limit(c: Config): nat { if c.maxAttempts > 0 then c.maxAttempts else 0 }

  /** Every closed window of this length holds at most the limit. */
  ghost predicate WindowsHold(h: History, c: Config, length: real) {
    forall key, lo, hi :: hi == lo + length ==> Count(h.full, key, lo, Some(hi)) <= Limit(c)
  }

  /** In the window from `lo` on, around the call, the key's failures already come to the limit. */
  predicate Crowded(h: History, c: Config, call: Call, lo: real) {
    var hi := lo + c.window as real;
    && lo <= call.now <= hi
    && Count(h.rows, call.key, lo, Some(hi)) + Count(h.capped, call.key, lo, Some(hi))
       + Count(h.purged, call.key, lo, Some(hi))
       >= Limit(c)
  }

  /** A failure is recorded although rows of the table, dropped rows and purged rows make some window around it full. */
  ghost predicate Overfills(h: History, c: Config, call: Call) {
    Verify(h.rows, c, call).decision.Rejected? && exists lo :: Crowded(h, c, call, lo)
  }

  lemma CountIsCrowd(h: History, c: Config, call: Call, lo: real)
    requires Tracks(h, c)
    ensures Crowded(h, c, call, lo)
            <==> lo <= call.now <= lo + c.window as real
                 && Count(h.full, call.key, lo, Some(lo + c.window as real)) >= Limit(c)
  {
    hide Count, Tracks;
    CountsAddUp(h, c, call.key, lo, Some(lo + c.window as real));
  }

  /** Recording a failure overfills a window exactly when one around it was full. */
  lemma AdvanceKeepsWindows(h: History, c: Config, call: Call)
    requires Tracks(h, c) && WindowsHold(h, c, c.window as real)
    ensures WindowsHold(Advance(h, c, call), c, c.window as real) <==> !Overfills(h, c, call)
  {
    hide Count, Verify, Without, Dropped, Purge, Crowded, Tracks;
    var length := c.window as real;
    if !Overfills(h, c, call) {
      forall key, lo, hi | hi == lo + length ensures Count(Advance(h, c, call).full, key, lo, Some(hi)) <= Limit(c) {
        NewCount(h, c, call, key, lo, hi);
        CountIsCrowd(h, c, call, lo);
      }
    } else {
      var lo :| Crowded(h, c, call, lo);
      CountIsCrowd(h, c, call, lo);
      NewCount(h, c, call, call.key, lo, lo + length);
    }
  }

  /** What a call does to the count of a window. */
  lemma NewCount(h: History, c: Config, call: Call, key: string, lo: real, hi: real)
    ensures var n, before := Count(Advance(h, c, call).full, key, lo, Some(hi)), Count(h.full, key, lo, Some(hi));
            match Verify(h.rows, c, call).decision
            case LockedOut(_) => n == before
            case Authenticated => n <= before
            case Rejected(_) => n == before + if key == call.key && lo <= call.now <= hi then 1 else 0
  {
    hide Count, Verify, Dropped, Purge;
    CountWithout(h.full, call.key, key, lo, Some(hi));
    CountConcat(h.full, [Row(call.key, call.now)], key, lo, Some(hi));
    CountOne(Row(call.key, call.now), key, lo, Some(hi));
  }

  ghost predicate AlwaysHold(h: History, c: Config, calls: seq<Call>, length: real)
    decreases |calls|
  {
    WindowsHold(h, c, length) && (calls != [] ==> AlwaysHold(Advance(h, c, calls[0]), c, calls[1..], length))
  }

  ghost predicate NeverOverfills(h: History, c: Config, calls: seq<Call>)
    decreases |calls|
  {
    calls == [] || (!Overfills(h, c, calls[0]) && NeverOverfills(Advance(h, c, calls[0]), c, calls[1..]))
  }

  /**
   Whatever the times of the calls: between two successes of a key every closed window holds at most
   `maxAttempts` recorded failures, all through a run, exactly when no failure is recorded where the rows
   left, dropped and purged already make a window around it full.
   */
  lemma {:induction false} EveryWindowHolds(h: History, c: Config, calls: seq<Call>)
    requires Tracks(h, c) && WindowsHold(h, c, c.window as real)
    ensures AlwaysHold(h, c, calls, c.window as real) <==> NeverOverfills(h, c, calls)
    ensures Tracks(Replay(h, c, calls), c)
    decreases |calls|
  {
    hide Tracks, WindowsHold, Advance, Overfills;
    ReplayTracks(h, c, calls);
    if calls != [] {
      AdvanceTracks(h, c, calls[0]);
      AdvanceKeepsWindows(h, c, calls[0]);
      if WindowsHold(Advance(h, c, calls[0]), c, c.window as real) {
        EveryWindowHolds(Advance(h, c, calls[0]), c, calls[1..]);
      }
    }
  }

  /** A call that is not late overfills a window exactly when it is a failure that misses its lock-out. */
  lemma InOrderOverfills(h: History, c: Config, call: Call)
    requires Tracks(h, c) && call.now >= h.latest
    ensures Overfills(h, c, call) <==> !call.matches && Misses(h, c, call)
  {
    hide Count, Crowded, From, DropOldest, Without;
    var length := c.window as real;
    DecisionIsTheHistorys(h, c, call);
    if Overfills(h, c, call) {
      var lo :| Crowded(h, c, call, lo);
      CountIsCrowd(h, c, call, lo);
      CountNarrows(h.full, call.key, lo, Some(lo + length), call.now - length);
    }
    if !call.matches && Misses(h, c, call) {
      CountToLast(h.full, call.key, call.now - length, call.now);
      CountIsCrowd(h, c, call, call.now - length);
    }
  }

  /** Calls land at most `delay` after a call with a later time. */
  ghost predicate Timely(h: History, c: Config, calls: seq<Call>, delay: real)
    decreases |calls|
  {
    calls == [] || (calls[0].now >= h.latest - delay && Timely(Advance(h, c, calls[0]), c, calls[1..], delay))
  }

  /** Every recorded failure finds room in the table. */
  ghost predicate Roomy(h: History, c: Config, calls: seq<Call>)
    decreases |calls|
  {
    calls == [] || (Dropped(h.rows, c, calls[0]) == [] && Roomy(Advance(h, c, calls[0]), c, calls[1..]))
  }

  lemma ShortWindowsStay(h: History, c: Config, call: Call, delay: real)
    requires Tracks(h, c) && h.capped == [] && 0.0 <= delay <= c.window as real && call.now >= h.latest - delay
    requires WindowsHold(h, c, c.window as real - delay)
    ensures WindowsHold(Advance(h, c, call), c, c.window as real - delay)
  {
    hide Count, Without, Dropped, Purge, From, DropOldest;
    var length, cutoff := c.window as real - delay, call.now - c.window as real;
    forall key, lo, hi | hi == lo + length ensures Count(Advance(h, c, call).full, key, lo, Some(hi)) <= Limit(c) {
      NewCount(h, c, call, key, lo, hi);
      if Verify(h.rows, c, call).decision.Rejected? && key == call.key && lo <= call.now <= hi {
        CountFrom(h.rows, key, cutoff);
        CountsAddUp(h, c, key, lo, Some(hi));
        CountNarrows(h.rows, key, lo, Some(hi), cutoff);
        NoneCounted(h.purged, key, lo, Some(hi));
        NoneCounted(h.capped, key, lo, Some(hi));
      }
    }
  }

  /**
   With calls at most `delay` late and room in the table, every closed window shorter than the configured one
   by `delay` holds at most `maxAttempts` recorded failures; so with calls in order the configured ones do.
   */
  lemma {:induction false} LateCallsShortenTheWindow(h: History, c: Config, calls: seq<Call>, delay: real)
    requires Tracks(h, c) && h.capped == [] && 0.0 <= delay <= c.window as real
    requires Timely(h, c, calls, delay) && Roomy(h, c, calls) && WindowsHold(h, c, c.window as real - delay)
    ensures AlwaysHold(h, c, calls, c.window as real - delay)
    decreases |calls|
  {
    hide Tracks, WindowsHold, Advance, Dropped;
    if calls != [] {
      AdvanceTracks(h, c, calls[0]);
      ShortWindowsStay(h, c, calls[0], delay);
      RoomKeepsAll(h, c, calls[0]);
      LateCallsShortenTheWindow(Advance(h, c, calls[0]), c, calls[1..], delay);
    }
  }

  lemma RoomKeepsAll(h: History, c: Config, call: Call)
    requires h.capped == [] && Dropped(h.rows, c, call) == []
    ensures Advance(h, c, call).capped == []
  {
    hide Verify, Dropped, Purge;
  }

  /** The same for calls in order: exactly when no failure misses its lock-out. */
  ghost predicate NeverMisses(h: History, c: Config, calls: seq<Call>)
    decreases |calls|
  {
    calls == [] ||
    ((calls[0].matches || !Misses(h, c, calls[0])) && NeverMisses(Advance(h, c, calls[0]), c, calls[1..]))
  }

  lemma {:induction false} EveryWindowHoldsInOrder(h: History, c: Config, calls: seq<Call>)
    requires Tracks(h, c) && WindowsHold(h, c, c.window as real) && Timely(h, c, calls, 0.0)
    ensures AlwaysHold(h, c, calls, c.window as real) <==> NeverMisses(h, c, calls)
    decreases |calls|
  {
    hide Tracks, WindowsHold, Advance, Overfills, Misses;
    if calls != [] {
      AdvanceTracks(h, c, calls[0]);
      AdvanceKeepsWindows(h, c, calls[0]);
      InOrderOverfills(h, c, calls[0]);
      if WindowsHold(Advance(h, c, calls[0]), c, c.window as real) {
        EveryWindowHoldsInOrder(Advance(h, c, calls[0]), c, calls[1..]);
      }
    }
  }

  /** The late call is real: made at 10, it lands after one made at 10.5, which purged the failure at 0. */
  lemma LateCallOverfills(k: string, o: string)
    requires k != o
    ensures var c := Config(10, 2, 100);
            var h := Replay(History([], [], [], [], 0.0, 0.0), c,
                            [Call(k, false, 0.0), Call(k, false, 1.0), Call(o, false, 10.5)]);
            && h.full == [Row(k, 0.0), Row(k, 1.0), Row(o, 10.5)] && h.rows == [Row(k, 1.0), Row(o, 10.5)]
            && Overfills(h, c, Call(k, false, 10.0)) && Timely(h, c, [Call(k, false, 10.0)], 0.5)
  {
    hide *;
    var c := Config(10, 2, 100);
    Steps(History([], [], [], [], 0.0, 0.0), c, Call(k, false, 0.0), Call(k, false, 1.0), Call(o, false, 10.5));
    ThreeFailures(k, o, c);
    TwoLeft(k, o, c);
  }

  /** The failures at 0, 1 and 10.5, the last of which purges the first. */
  lemma ThreeFailures(k: string, o: string, c: Config)
    requires k != o && c == Config(10, 2, 100)
    ensures Advance(Advance(Advance(History([], [], [], [], 0.0, 0.0), c, Call(k, false, 0.0)), c, Call(k, false, 1.0)),
                    c, Call(o, false, 10.5))
            == AfterThree(k, o)
  {
    hide *;
    var h0 := History([], [], [], [], 0.0, 0.0);
    var h1 := History([Row(k, 0.0)], [Row(k, 0.0)], [], [], 0.0, 0.0);
    NothingYet(k, -10.0);
    RecordsFailure(h0, c, Call(k, false, 0.0), [], []);
    FromOne(Row(k, 0.0), -9.0);
    CountOne(Row(k, 0.0), k, -9.0, None);
    SinceIs([Row(k, 0.0)], k, -9.0);
    RecordsFailure(h1, c, Call(k, false, 1.0), [Row(k, 0.0)], []);
    FromTwo(Row(k, 0.0), Row(k, 1.0), 0.5);
    CountOne(Row(k, 1.0), o, 0.5, None);
    SinceIs([Row(k, 1.0)], o, 0.5);
    AfterThreeIs(k, o);
    LaterOf();
    RecordsFailure(AfterTwo(k), c, Call(o, false, 10.5), [Row(k, 1.0)], [Row(k, 0.0)]);
  }

  function AfterTwo(k: string): History {
    History([Row(k, 0.0), Row(k, 1.0)], [Row(k, 0.0), Row(k, 1.0)], [], [], 1.0, 0.0)
  }

  function AfterThree(k: string, o: string): History {
    History([Row(k, 1.0), Row(o, 10.5)], [Row(k, 0.0), Row(k, 1.0), Row(o, 10.5)], [], [Row(k, 0.0)], 10.5, 0.0)
  }

  lemma AfterThreeIs(k: string, o: string)
    ensures AfterTwo(k) == History([Row(k, 0.0)] + [Row(k, 1.0)], [Row(k, 0.0)] + [Row(k, 1.0)], [], [] + [], 1.0, 0.0)
    ensures AfterThree(k, o)
            == History([Row(k, 1.0)] + [Row(o, 10.5)], AfterTwo(k).full + [Row(o, 10.5)], [], [] + [Row(k, 0.0)],
                       10.5, 0.0)
    ensures AfterTwo(k).rows == [Row(k, 0.0), Row(k, 1.0)] && AfterTwo(k).capped == [] && AfterTwo(k).purged == []
    ensures AfterTwo(k).latest == 1.0 && AfterTwo(k).lastDrop == 0.0
    ensures [] + [Row(k, 0.0)] == [Row(k, 0.0)]
    ensures var none: seq<Row> := []; none + none == none
  {}

  lemma LaterOf()
    ensures Later(0.0, 0.0) == 0.0 && Later(0.0, 1.0) == 1.0 && Later(1.0, 10.5) == 10.5
  {}

  lemma NothingYet(key: string, cutoff: real)
    ensures From([], cutoff) == [] && Before([], cutoff) == [] && CountSince([], key, cutoff) == 0
  {}

  lemma SinceIs(rows: seq<Row>, key: string, cutoff: real)
    ensures CountSince(rows, key, cutoff) == Count(rows, key, cutoff, None)
  {}

  /** The call of 10 finds one failure of its key, though its window held two. */
  lemma TwoLeft(k: string, o: string, c: Config)
    requires k != o && c == Config(10, 2, 100)
    ensures var h, late := AfterThree(k, o), Call(k, false, 10.0);
            && h.full == [Row(k, 0.0), Row(k, 1.0), Row(o, 10.5)] && h.rows == [Row(k, 1.0), Row(o, 10.5)]
            && Overfills(h, c, late) && Timely(h, c, [late], 0.5)
  {
    hide Verify, Count, From, Advance;
    var h, late := AfterThree(k, o), Call(k, false, 10.0);
    CountTwo(Row(k, 1.0), Row(o, 10.5), k, 0.0, None);
    CountTwo(Row(k, 1.0), Row(o, 10.5), k, 0.0, Some(10.0));
    CountOne(Row(k, 1.0), k, 0.0, None);
    CountOne(Row(o, 10.5), k, 0.0, None);
    CountOne(Row(k, 1.0), k, 0.0, Some(10.0));
    CountOne(Row(o, 10.5), k, 0.0, Some(10.0));
    FromTwo(Row(k, 1.0), Row(o, 10.5), 0.0);
    CountOne(Row(k, 0.0), k, 0.0, Some(10.0));
    assert [Row(k, 1.0)] + [Row(o, 10.5)] == [Row(k, 1.0), Row(o, 10.5)];
    StillRejected(h.rows, c, late);
    assert Crowded(h, c, late, 0.0);
    assert [late][1..] == [];
  }

  lemma Steps(h: History, c: Config, a: Call, b: Call, d: Call)
    ensures Replay(h, c, [a, b, d]) == Advance(Advance(Advance(h, c, a), c, b), c, d)
  {
    hide Advance;
    var h1 := Advance(h, c, a);
    var h2 := Advance(h1, c, b);
    assert [a, b, d][1..] == [b, d] && [b, d][1..] == [d] && [d][1..] == [];
    assert Replay(h, c, [a, b, d]) == Replay(h1, c, [b, d]);
    assert Replay(h1, c, [b, d]) == Replay(h2, c, [d]);
    assert Replay(h2, c, [d]) == Replay(Advance(h2, c, d), c, []);
  }

  lemma StillRejected(rows: seq<Row>, c: Config, call: Call)
    requires var cutoff := call.now - c.window as real;
             !call.matches && CountSince(From(rows, cutoff), call.key, cutoff) < c.maxAttempts
    ensures Verify(rows, c, call).decision.Rejected?
  {}

  /** A failure recorded below the limit and with room in the table. */
  lemma RecordsFailure(h: History, c: Config, call: Call, recent: seq<Row>, gone: seq<Row>)
    requires !call.matches && From(h.rows, call.now - c.window as real) == recent
    requires Before(h.rows, call.now - c.window as real) == gone
    requires CountSince(recent, call.key, call.now - c.window as real) < c.maxAttempts && |recent| < c.maxRows
    ensures Advance(h, c, call)
            == History(recent + [Row(call.key, call.now)], h.full + [Row(call.key, call.now)], h.capped,
                       h.purged + gone, Later(h.latest, call.now), h.lastDrop)
  {
    hide From, Before, Count;
    assert h.capped + [] == h.capped;
  }

  lemma FromOne(r: Row, cutoff: real)
    ensures From([r], cutoff) == if r.at < cutoff then [] else [r]
    ensures Before([r], cutoff) == if r.at < cutoff then [r] else []
  {
    assert [r][1..] == [];
  }

  lemma FromTwo(a: Row, b: Row, cutoff: real)
    ensures From([a, b], cutoff) == (if a.at < cutoff then [] else [a]) + (if b.at < cutoff then [] else [b])
    ensures Before([a, b], cutoff) == (if a.at < cutoff then [a] else []) + (if b.at < cutoff then [b] else [])
  {
    assert [a, b][1..] == [b];
    FromOne(b, cutoff);
  }

  lemma CountTwo(a: Row, b: Row, key: string, lo: real, hi: Option<real>)
    ensures Count([a, b], key, lo, hi) == Count([a], key, lo, hi) + Count([b], key, lo, hi)
  {
    assert [a, b] == [a] + [b];
    CountConcat([a], [b], key, lo, hi);
    CountOne(a, key, lo, hi);
    CountOne(b, key, lo, hi);
  }

  lemma {:induction false} DropLength(rows: seq<Row>, n: int)
    ensures |DropOldest(rows, n)| == if n <= 0 then |rows| else if n >= |rows| then 0 else |rows| - n
    decreases |rows|
  {
    hide DropOldest, Oldest;
    if n <= 0 || rows == [] {
      DropNothing(rows, n);
    } else {
      DropStep(rows, n);
      DropLength(Omit(rows, Oldest(rows)), n - 1);
    }
  }

  /** After every recorded failure the table is within its cap. */
  lemma TableIsCapped(rows: seq<Row>, c: Config, call: Call)
    ensures var o := Verify(rows, c, call);
            o.decision.Rejected? ==> |o.rows| <= if c.maxRows > 0 then c.maxRows else 0
  {
    hide From, Count, DropOldest;
    var grown := From(rows, call.now - c.window as real) + [Row(call.key, call.now)];
    DropLength(grown, |grown| - c.maxRows);
  }

  // ----- the statements, row by row -----

  /** The places of the rows a count is about. */
  ghost function Places(rows: seq<Row>, key: string, lo: real, hi: Option<real>): set<nat> {
    set k: nat | k < |rows| && rows[k].key == key && lo <= rows[k].at && (hi.Some? ==> rows[k].at <= hi.value)
  }

  lemma {:induction false} CountsPlaces(rows: seq<Row>, key: string, lo: real, hi: Option<real>)
    ensures Count(rows, key, lo, hi) == |Places(rows, key, lo, hi)|
    decreases |rows|
  {
    if rows == [] {
      assert Places(rows, key, lo, hi) == {};
    } else {
      hide Count, Places;
      var n := |rows| - 1;
      var front := rows[..n];
      assert rows == front + [rows[n]];
      CountsPlaces(front, key, lo, hi);
      CountConcat(front, [rows[n]], key, lo, hi);
      CountOne(rows[n], key, lo, hi);
      PlacesLast(rows, key, lo, hi);
      AddsOne(Places(front, key, lo, hi), n);
    }
  }

  lemma PlacesLast(rows: seq<Row>, key: string, lo: real, hi: Option<real>)
    requires rows != []
    ensures var n := |rows| - 1;
            var front := Places(rows[..n], key, lo, hi);
            && n !in front
            && Places(rows, key, lo, hi)
               == if rows[n].key == key && lo <= rows[n].at && (hi.Some? ==> rows[n].at <= hi.value) then front + {n}
                  else front
  {
    assert forall k :: 0 <= k < |rows| - 1 ==> rows[..|rows| - 1][k] == rows[k];
  }

  lemma AddsOne(s: set<nat>, n: nat)
    requires n !in s
    ensures |s + {n}| == |s| + 1
  {}

  /** Purging keeps exactly the rows from the cut-off on, each as often as it is there. */
  lemma {:induction false} FromIs(rows: seq<Row>, cutoff: real, r: Row)
    ensures multiset(From(rows, cutoff))[r] == if r.at >= cutoff then multiset(rows)[r] else 0
  {
    if rows != [] {
      FromIs(rows[1..], cutoff, r);
      assert rows == [rows[0]] + rows[1..];
    }
  }

  /** Of the rows with the least time the first is the oldest. */
  lemma {:induction false} OldestIsFirst(rows: seq<Row>)
    requires rows != []
    ensures forall i :: 0 <= i < |rows| ==> rows[Oldest(rows)].at <= rows[i].at
    ensures forall i :: 0 <= i < Oldest(rows) ==> rows[Oldest(rows)].at < rows[i].at
  {
    if |rows| > 1 {
      OldestIsFirst(rows[1..]);
      assert forall i :: 1 <= i < |rows| ==> rows[1..][i - 1] == rows[i];
    }
  }

  /** What the cap drops is no newer than anything it keeps. */
  lemma {:induction false} DropsTheOldest(rows: seq<Row>, n: int)
    ensures forall d, k :: d in OldestRows(rows, n) && k in DropOldest(rows, n) ==> d.at <= k.at
    ensures forall k :: k in DropOldest(rows, n) ==> k in rows
    decreases |rows|
  {
    hide DropOldest, OldestRows, Oldest;
    if n <= 0 || rows == [] {
      DropNothing(rows, n);
    } else {
      DropStep(rows, n);
      DropsTheOldest(Omit(rows, Oldest(rows)), n - 1);
    }
  }

  /**
   One transaction, from the rows it finds: locked out when enough failures of the key lie in its window;
   otherwise the password decides, and the rows of the key go, or one row comes and the oldest make room.
   */
  lemma VerifyIs(rows: seq<Row>, c: Config, call: Call)
    ensures var cutoff, o := call.now - c.window as real, Verify(rows, c, call);
            var recent, failures := From(rows, cutoff), |Places(rows, call.key, cutoff, None)|;
            match o.decision
            case LockedOut(n) => n == failures >= c.maxAttempts && o.rows == recent
            case Authenticated =>
              failures < c.maxAttempts && call.matches && o.rows == Without(recent, call.key)
            case Rejected(n) =>
              var grown := recent + [Row(call.key, call.now)];
              && failures < c.maxAttempts && !call.matches && n == failures + 1
              && o.rows == DropOldest(grown, |grown| - c.maxRows)
  {
    hide From, Without, DropOldest, Count;
    CountFrom(rows, call.key, call.now - c.window as real);
    CountsPlaces(rows, call.key, call.now - c.window as real, None);
  }
}
