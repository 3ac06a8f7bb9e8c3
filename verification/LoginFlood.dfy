/**
 The row cap of the login limiter (pr_agent/dashboard/storage.py) can be made to forget the failures of a key.
 */
module LoginFlood {
  import opened LoginLimiter
  import opened Wrappers

  /** One failure for each key, all at the same time. */
  function Failures(keys: seq<string>, now: real): seq<Call> {
    if keys == [] then [] else Failures(keys[..|keys| - 1], now) + [Call(keys[|keys| - 1], false, now)]
  }

  function RowsOf(keys: seq<string>, now: real): seq<Row> {
    if keys == [] then [] else RowsOf(keys[..|keys| - 1], now) + [Row(keys[|keys| - 1], now)]
  }

  function Repeated(key: string, n: nat): seq<string> { if n == 0 then [] else Repeated(key, n - 1) + [key] }

  function Exes(n: nat): string { if n == 0 then "" else Exes(n - 1) + "x" }

  /** `n` further keys, all different. */
  function Others(key: string, n: nat): seq<string> {
    if n == 0 then [] else Others(key, n - 1) + [key + Exes(n)]
  }

  /** Failures of `key` up to the limit, then one each of as many other keys as the table has room for. */
  function Flood(key: string, c: Config): seq<string>
    requires c.maxAttempts >= 0
  {
    Repeated(key, c.maxAttempts) + Others(key, if c.maxRows > 0 then c.maxRows else 0)
  }

  lemma {:induction false} ReplayLast(h: History, c: Config, calls: seq<Call>, call: Call)
    ensures Replay(h, c, calls + [call]) == Advance(Replay(h, c, calls), c, call)
    decreases |calls|
  {
    hide Advance;
    if calls == [] {
      assert [] + [call] == [call] && [call][1..] == [];
    } else {
      assert (calls + [call])[1..] == calls[1..] + [call];
      ReplayLast(Advance(h, c, calls[0]), c, calls[1..], call);
    }
  }

  lemma {:induction false} RowsOfShape(keys: seq<string>, now: real)
    ensures |RowsOf(keys, now)| == |keys|
    ensures forall k :: 0 <= k < |keys| ==> RowsOf(keys, now)[k] == Row(keys[k], now)
  {
    if keys != [] {
      RowsOfShape(keys[..|keys| - 1], now);
    }
  }

  lemma {:induction false} FromKeepsAll(rows: seq<Row>, cutoff: real)
    requires forall k :: 0 <= k < |rows| ==> rows[k].at >= cutoff
    ensures From(rows, cutoff) == rows
  {
    if rows != [] {
      assert rows[0].at >= cutoff;
      FromKeepsAll(rows[1..], cutoff);
      assert [rows[0]] + rows[1..] == rows;
    }
  }

  /** Of rows of one time the first are the oldest. */
  lemma {:induction false} DropFirst(rows: seq<Row>, n: int, now: real)
    requires forall k :: 0 <= k < |rows| ==> rows[k].at == now
    ensures DropOldest(rows, n) == if n <= 0 then rows else if n >= |rows| then [] else rows[n..]
    decreases |rows|
  {
    hide *;
    if n <= 0 || rows == [] {
      DropNothing(rows, n);
    } else {
      FirstIsOldest(rows, now);
      TailIsOmit(rows);
      DropStep(rows, n);
      DropFirst(rows[1..], n - 1, now);
    }
  }

  lemma {:induction false} FirstIsOldest(rows: seq<Row>, now: real)
    requires rows != [] && forall k :: 0 <= k < |rows| ==> rows[k].at == now
    ensures Oldest(rows) == 0
  {}

  lemma CappedTwice(rows: seq<Row>, r: Row, maxRows: int, now: real)
    requires r.at == now && forall k :: 0 <= k < |rows| ==> rows[k].at == now
    ensures Capped(Capped(rows, maxRows) + [r], maxRows) == Capped(rows + [r], maxRows)
    ensures forall k :: 0 <= k < |Capped(rows, maxRows)| ==> Capped(rows, maxRows)[k].at == now
  {
    hide DropOldest;
    DropFirst(rows, |rows| - maxRows, now);
    DropFirst(rows + [r], |rows + [r]| - maxRows, now);
    var kept := Capped(rows, maxRows) + [r];
    DropFirst(kept, |kept| - maxRows, now);
  }

  lemma CappedCounts(rows: seq<Row>, maxRows: int, key: string, cutoff: real)
    ensures CountSince(Capped(rows, maxRows), key, cutoff) <= CountSince(rows, key, cutoff)
  {
    hide Count, DropOldest, OldestRows;
    var n := |rows| - maxRows;
    DropSplits(rows, n);
    assert multiset(rows) == multiset(DropOldest(rows, n) + OldestRows(rows, n));
    CountPermuted(rows, DropOldest(rows, n) + OldestRows(rows, n), key, cutoff, None);
    CountConcat(DropOldest(rows, n), OldestRows(rows, n), key, cutoff, None);
  }

  /** No key comes again once it has come `limit` times. */
  ghost predicate Spread(keys: seq<string>, limit: int, now: real) {
    forall n :: 0 <= n < |keys| ==> CountSince(RowsOf(keys[..n], now), keys[n], now) < limit
  }

  /** From an empty table such failures are all recorded, and the table holds the newest of them. */
  lemma {:induction false} FailuresAreRecorded(c: Config, keys: seq<string>, now: real)
    requires Spread(keys, c.maxAttempts, now)
    ensures var h := Replay(History([], [], [], [], now, now), c, Failures(keys, now));
            h.rows == Capped(RowsOf(keys, now), c.maxRows) && h.full == RowsOf(keys, now)
  {
    if keys != [] {
      hide Count, CountSince, Advance;
      var n := |keys| - 1;
      var front, key, call := keys[..n], keys[n], Call(keys[n], false, now);
      var h := Replay(History([], [], [], [], now, now), c, Failures(front, now));
      SpreadFront(keys, c.maxAttempts, now);
      FailuresAreRecorded(c, front, now);
      ReplayLast(History([], [], [], [], now, now), c, Failures(front, now), call);
      assert CountSince(RowsOf(keys[..n], now), keys[n], now) < c.maxAttempts;
      RowsOfShape(front, now);
      FailureIsRecorded(h, c, RowsOf(front, now), key, now);
    } else {
      assert Failures(keys, now) == [] && RowsOf(keys, now) == [];
    }
  }

  lemma SpreadFront(keys: seq<string>, limit: int, now: real)
    requires keys != [] && Spread(keys, limit, now)
    ensures Spread(keys[..|keys| - 1], limit, now)
  {
    var front := keys[..|keys| - 1];
    forall n | 0 <= n < |front| ensures CountSince(RowsOf(front[..n], now), front[n], now) < limit {
      assert front[..n] == keys[..n] && front[n] == keys[n];
    }
  }

  lemma FailureIsRecorded(h: History, c: Config, rows: seq<Row>, key: string, now: real)
    requires h.rows == Capped(rows, c.maxRows) && h.full == rows
    requires forall k :: 0 <= k < |rows| ==> rows[k].at == now
    requires CountSince(rows, key, now) < c.maxAttempts
    ensures var h' := Advance(h, c, Call(key, false, now));
            h'.rows == Capped(rows + [Row(key, now)], c.maxRows) && h'.full == rows + [Row(key, now)]
  {
    hide Count, From, Before, Without, DropOldest, OldestRows;
    var cutoff := now - c.window as real;
    CappedTwice(rows, Row(key, now), c.maxRows, now);
    FromKeepsAll(h.rows, cutoff);
    CappedCounts(rows, c.maxRows, key, now);
    SameCount(h.rows, key, cutoff, now);
  }

  lemma {:induction false} SameCount(rows: seq<Row>, key: string, cutoff: real, now: real)
    requires cutoff <= now && forall k :: 0 <= k < |rows| ==> rows[k].at == now
    ensures CountSince(rows, key, cutoff) == CountSince(rows, key, now)
  {
    if rows != [] {
      assert rows[0].at == now;
      SameCount(rows[1..], key, cutoff, now);
    }
  }

  lemma {:induction false} RowsOfConcat(a: seq<string>, b: seq<string>, now: real)
    ensures RowsOf(a + b, now) == RowsOf(a, now) + RowsOf(b, now)
    decreases |b|
  {
    if b == [] {
      assert a + b == a;
    } else {
      assert (a + b)[..|a + b| - 1] == a + b[..|b| - 1];
      RowsOfConcat(a, b[..|b| - 1], now);
    }
  }

  function Times(keys: seq<string>, key: string, now: real): nat { CountSince(RowsOf(keys, now), key, now) }

  lemma TimesLast(keys: seq<string>, last: string, key: string, now: real)
    ensures Times(keys + [last], key, now) == Times(keys, key, now) + if last == key then 1 else 0
  {
    hide Count, CountSince;
    assert (keys + [last])[..|keys|] == keys;
    CountConcat(RowsOf(keys, now), [Row(last, now)], key, now, None);
    CountOne(Row(last, now), key, now, None);
    SinceIs(RowsOf(keys + [last], now), key, now);
    SinceIs(RowsOf(keys, now), key, now);
  }

  lemma TimesConcat(a: seq<string>, b: seq<string>, key: string, now: real)
    ensures Times(a + b, key, now) == Times(a, key, now) + Times(b, key, now)
  {
    hide Count, CountSince, RowsOf;
    RowsOfConcat(a, b, now);
    CountConcat(RowsOf(a, now), RowsOf(b, now), key, now, None);
    SinceIs(RowsOf(a + b, now), key, now);
    SinceIs(RowsOf(a, now), key, now);
    SinceIs(RowsOf(b, now), key, now);
  }

  lemma {:induction false} RepeatedTimes(key: string, n: nat, other: string, now: real)
    ensures Times(Repeated(key, n), other, now) == if other == key then n else 0
  {
    hide Times;
    if n > 0 {
      RepeatedTimes(key, n - 1, other, now);
      TimesLast(Repeated(key, n - 1), key, other, now);
    } else {
      TimesNone(other, now);
    }
  }

  lemma TimesNone(key: string, now: real)
    ensures Times([], key, now) == 0
  {}

  lemma {:induction false} ExesLength(n: nat)
    ensures |Exes(n)| == n
  {
    if n > 0 {
      ExesLength(n - 1);
    }
  }

  /** The further keys are longer than the first and no two are equally long. */
  lemma {:induction false} OthersAbsent(key: string, n: nat, k: string, now: real)
    requires |k| <= |key| || |k| > |key| + n
    ensures Times(Others(key, n), k, now) == 0 && |Others(key, n)| == n
  {
    hide Times;
    ExesLength(n);
    if n > 0 {
      OthersAbsent(key, n - 1, k, now);
      TimesLast(Others(key, n - 1), key + Exes(n), k, now);
    } else {
      TimesNone(k, now);
    }
  }

  lemma SpreadLast(keys: seq<string>, last: string, limit: int, now: real)
    requires Spread(keys, limit, now) && Times(keys, last, now) < limit
    ensures Spread(keys + [last], limit, now)
  {
    hide Count, CountSince, RowsOf;
    var all := keys + [last];
    forall n | 0 <= n < |all| ensures CountSince(RowsOf(all[..n], now), all[n], now) < limit {
      assert all[..n] == keys[..n];
      assert keys[..|keys|] == keys;
    }
  }

  lemma {:induction false} RepeatedSpread(key: string, n: nat, limit: int, now: real)
    requires n <= limit
    ensures Spread(Repeated(key, n), limit, now)
  {
    hide Spread, Times;
    if n == 0 {
      SpreadNothing(limit, now);
    } else {
      RepeatedSpread(key, n - 1, limit, now);
      RepeatedTimes(key, n - 1, key, now);
      SpreadLast(Repeated(key, n - 1), key, limit, now);
    }
  }

  lemma SpreadNothing(limit: int, now: real)
    ensures Spread([], limit, now)
  {}

  lemma {:induction false} FloodSpread(key: string, a: nat, n: nat, limit: int, now: real)
    requires a <= limit && 1 <= limit
    ensures Spread(Repeated(key, a) + Others(key, n), limit, now)
    decreases n
  {
    hide Spread, Times;
    RepeatedSpread(key, a, limit, now);
    if n == 0 {
      assert Repeated(key, a) + Others(key, 0) == Repeated(key, a);
    } else {
      var front, last := Repeated(key, a) + Others(key, n - 1), key + Exes(n);
      FloodSpread(key, a, n - 1, limit, now);
      ExesLength(n);
      OthersAbsent(key, n - 1, last, now);
      RepeatedTimes(key, a, last, now);
      TimesConcat(Repeated(key, a), Others(key, n - 1), last, now);
      SpreadLast(front, last, limit, now);
      assert front + [last] == Repeated(key, a) + Others(key, n);
    }
  }

  lemma {:induction false} FailuresShape(keys: seq<string>, now: real)
    ensures |Failures(keys, now)| == |keys|
    ensures forall k :: 0 <= k < |keys| ==> Failures(keys, now)[k].now == now
  {
    if keys != [] {
      FailuresShape(keys[..|keys| - 1], now);
    }
  }

  lemma CappedTail(a: seq<Row>, b: seq<Row>, maxRows: int, now: real)
    requires |b| == if maxRows > 0 then maxRows else 0
    requires forall k :: 0 <= k < |a + b| ==> (a + b)[k].at == now
    ensures Capped(a + b, maxRows) == b
  {
    hide DropOldest;
    DropFirst(a + b, |a + b| - maxRows, now);
    assert (a + b)[|a|..] == b;
    assert a == [] ==> a + b == b;
  }

  /**
   Whatever the window, the limit and the cap: failures of one key up to the limit, followed by one failure
   each of as many other keys as the table has room for, leave that key with an earned lock-out that the
   next call does not get.
   */
  lemma CapForgets(key: string, c: Config, now: real)
    requires c.maxAttempts >= 1
    ensures var calls := Failures(Flood(key, c), now);
            var h := Replay(History([], [], [], [], now, now), c, calls);
            && (forall k :: 0 <= k < |calls| ==> calls[k].now == now) && Tracks(h, c)
            && Misses(h, c, Call(key, false, now))
            && !Verify(h.rows, c, Call(key, false, now)).decision.LockedOut?
  {
    hide Count, CountSince, RowsOf, Advance, Verify, Tracks, Replay, WindowsHold, DropOldest;
    var n := if c.maxRows > 0 then c.maxRows else 0;
    var start := History([], [], [], [], now, now);
    var mine, others := Repeated(key, c.maxAttempts), Others(key, n);
    var calls := Failures(Flood(key, c), now);
    var h := Replay(start, c, calls);
    FailuresShape(Flood(key, c), now);
    FloodSpread(key, c.maxAttempts, n, c.maxAttempts, now);
    FailuresAreRecorded(c, Flood(key, c), now);
    StartsTracked(c, now, now);
    ReplayTracks(start, c, calls);
    RowsOfConcat(mine, others, now);
    RowsOfShape(Flood(key, c), now);
    RowsOfShape(others, now);
    OthersAbsent(key, n, key, now);
    CappedTail(RowsOf(mine, now), RowsOf(others, now), c.maxRows, now);
    TimesConcat(mine, others, key, now);
    RepeatedTimes(key, c.maxAttempts, key, now);
    var cutoff := now - c.window as real;
    SameCount(h.full, key, cutoff, now);
    SameCount(h.rows, key, cutoff, now);
    FloodMisses(h, c, Call(key, false, now));
  }

  lemma FloodMisses(h: History, c: Config, call: Call)
    requires Tracks(h, c)
    requires CountSince(h.rows, call.key, call.now - c.window as real) < c.maxAttempts
             <= CountSince(h.full, call.key, call.now - c.window as real)
    ensures Misses(h, c, call) && !Verify(h.rows, c, call).decision.LockedOut?
  {
    hide Count, CountSince, From, DropOldest, Without;
    var cutoff := call.now - c.window as real;
    CountFrom(h.rows, call.key, cutoff);
    DecisionIsTheHistorys(h, c, call);
  }
}
