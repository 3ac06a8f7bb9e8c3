/**
 The append-only event stream and its resumable readers (pr_agent/dashboard/storage.py, with the
 polling loop of pr_agent/servers/dashboard_api.py).
 */
module EventStream {
  datatype Entry = Entry(id: nat, at: int)

  /** The rows in id order; ids come from AUTOINCREMENT, and `last` is the highest ever used. */
  datatype Stream = Stream(rows: seq<Entry>, last: nat)

  datatype Limits = Limits(retentionSeconds: nat, maxRows: nat)

  ghost predicate Ascending(rows: seq<Entry>) {
    forall i, j :: 0 <= i < j < |rows| ==> rows[i].id < rows[j].id
  }

  ghost predicate Valid(s: Stream) {
    Ascending(s.rows) && forall k :: 0 <= k < |s.rows| ==> 1 <= s.rows[k].id <= s.last
  }

  ghost predicate Holds(s: Stream, id: nat) { exists k :: 0 <= k < |s.rows| && s.rows[k].id == id }

  // ----- the writers -----

  function Append(s: Stream, now: int): Stream { Stream(s.rows + [Entry(s.last + 1, now)], s.last + 1) }

  function Since(rows: seq<Entry>, cutoff: int): seq<Entry> {
    if rows == [] then [] else (if rows[0].at < cutoff then [] else [rows[0]]) + Since(rows[1..], cutoff)
  }

  function Maintain(s: Stream, l: Limits, now: int): Stream {
    var kept := Since(s.rows, now - l.retentionSeconds);
    s.(rows := Newest(kept, l.maxRows))
  }

  /** ORDER BY id DESC LIMIT ?, as a suffix of the rows in id order. */
  function Newest(rows: seq<Entry>, limit: nat): seq<Entry> {
    if |rows| <= limit then rows else rows[|rows| - limit..]
  }

  // ----- the reader -----

  function After(rows: seq<Entry>, cursor: int): seq<Entry> {
    if rows == [] then [] else (if rows[0].id > cursor then [rows[0]] else []) + After(rows[1..], cursor)
  }

  function PageSize(limit: int): nat { if limit < 1 then 1 else if limit > 500 then 500 else limit }

  /** The events after the cursor, oldest first, at most a page of them. */
  function List(rows: seq<Entry>, after: int, limit: int): seq<Entry> {
    var found := After(rows, if after > 0 then after else 0);
    if |found| <= PageSize(limit) then found else found[..PageSize(limit)]
  }

  method DeleteBefore(rows: seq<Entry>, cutoff: int) returns (kept: seq<Entry>)
    ensures kept == Since(rows, cutoff)
  {
    kept := [];
    var k := 0;
    assert rows[0..] == rows && [] + Since(rows, cutoff) == Since(rows, cutoff);
    while k < |rows|
      invariant 0 <= k <= |rows|
      invariant kept + Since(rows[k..], cutoff) == Since(rows, cutoff)
    {
      assert rows[k..][1..] == rows[k + 1..];
      ghost var rest := Since(rows[k + 1..], cutoff);
      if rows[k].at >= cutoff {
        assert kept + ([rows[k]] + rest) == kept + [rows[k]] + rest;
        kept := kept + [rows[k]];
      } else {
        assert [] + rest == rest;
      }
      k := k + 1;
    }
    assert kept + [] == kept;
  }

  class EventBus {
    var rows: seq<Entry>
    var last: nat

    function Contents(): Stream
      reads this
    {
      Stream(rows, last)
    }

    constructor ()
      ensures Contents() == Stream([], 0)
    {
      rows, last := [], 0;
    }

    method AddEvent(now: int) returns (id: nat)
      requires Valid(Contents())
      modifies this
      ensures Valid(Contents()) && Contents() == Append(old(Contents()), now)
      ensures id == last && !Holds(old(Contents()), id)
    {
      last := last + 1;
      rows := rows + [Entry(last, now)];
      id := last;
    }

    method MaintainEventRows(l: Limits, now: int)
      requires Valid(Contents())
      modifies this
      ensures Valid(Contents()) && Contents() == Maintain(old(Contents()), l, now)
    {
      MaintainKeepsValid(Contents(), l, now);
      var kept := DeleteBefore(rows, now - l.retentionSeconds);
      rows := Newest(kept, l.maxRows);
    }

    method ListEvents(after: int, limit: int) returns (page: seq<Entry>)
      ensures page == List(rows, after, limit)
    {
      var cursor := if after > 0 then after else 0;
      page := [];
      var k := 0;
      assert rows[0..] == rows && [] + After(rows, cursor) == After(rows, cursor);
      while k < |rows| && |page| < PageSize(limit)
        invariant 0 <= k <= |rows| && |page| <= PageSize(limit)
        invariant page + After(rows[k..], cursor) == After(rows, cursor)
      {
        assert rows[k..][1..] == rows[k + 1..];
        ghost var rest := After(rows[k + 1..], cursor);
        if rows[k].id > cursor {
          assert page + ([rows[k]] + rest) == page + [rows[k]] + rest;
          page := page + [rows[k]];
        } else {
          assert [] + rest == rest;
        }
        k := k + 1;
      }
      if k == |rows| {
        assert page + [] == page;
      }
    }
  }

  // ----- what the operations do to the rows -----

  lemma {:induction false} SinceKeeps(rows: seq<Entry>, cutoff: int)
    ensures forall e :: e in Since(rows, cutoff) <==> e in rows && e.at >= cutoff
    ensures Ascending(rows) ==> Ascending(Since(rows, cutoff))
  {
    if rows != [] {
      SinceKeeps(rows[1..], cutoff);
      assert rows == [rows[0]] + rows[1..];
    }
  }

  lemma NewestKeeps(rows: seq<Entry>, limit: nat)
    ensures |Newest(rows, limit)| <= limit
    ensures Ascending(rows) ==> Ascending(Newest(rows, limit))
    ensures forall k :: 0 <= k < |Newest(rows, limit)| ==> Newest(rows, limit)[k] in rows
  {
    var d := |rows| - limit;
    if d > 0 {
      assert forall k :: 0 <= k < |Newest(rows, limit)| ==> Newest(rows, limit)[k] == rows[d + k];
    }
  }

  lemma MaintainKeepsValid(s: Stream, l: Limits, now: int)
    requires Valid(s)
    ensures Valid(Maintain(s, l, now))
    ensures forall k :: 0 <= k < |Maintain(s, l, now).rows| ==> Maintain(s, l, now).rows[k] in s.rows
    ensures |Maintain(s, l, now).rows| <= l.maxRows
  {
    hide Newest, Since;
    var cutoff := now - l.retentionSeconds;
    SinceKeeps(s.rows, cutoff);
    NewestKeeps(Since(s.rows, cutoff), l.maxRows);
    var rows := Maintain(s, l, now).rows;
    forall k | 0 <= k < |rows| ensures rows[k] in s.rows && 1 <= rows[k].id <= s.last {
      assert rows[k] in Since(s.rows, cutoff);
    }
  }

  /** An event stays exactly while it is within retention and few enough retained ones follow it. */
  lemma EventStays(s: Stream, l: Limits, now: int, e: Entry)
    requires Valid(s)
    ensures e in Maintain(s, l, now).rows <==>
              var kept := Since(s.rows, now - l.retentionSeconds);
              exists k :: 0 <= k < |kept| && kept[k] == e && |kept| - k <= l.maxRows
    ensures e in Since(s.rows, now - l.retentionSeconds) <==> e in s.rows && e.at >= now - l.retentionSeconds
  {
    hide Since;
    SinceKeeps(s.rows, now - l.retentionSeconds);
    var kept := Since(s.rows, now - l.retentionSeconds);
    var d := |kept| - l.maxRows;
    if d > 0 {
      assert forall k :: 0 <= k < l.maxRows ==> kept[d..][k] == kept[d + k];
      forall k | 0 <= k < |kept| && kept[k] == e && |kept| - k <= l.maxRows ensures e in kept[d..] {
        assert kept[d..][k - d] == e;
      }
    }
  }

  lemma {:induction false} AfterElements(rows: seq<Entry>, cursor: int, e: Entry)
    ensures e in After(rows, cursor) <==> e in rows && e.id > cursor
  {
    if rows != [] {
      AfterElements(rows[1..], cursor, e);
      assert e in rows <==> e == rows[0] || e in rows[1..];
    }
  }

  lemma {:induction false} AfterAscends(rows: seq<Entry>, cursor: int)
    requires Ascending(rows)
    ensures Ascending(After(rows, cursor))
  {
    if rows != [] {
      var rest := After(rows[1..], cursor);
      AfterAscends(rows[1..], cursor);
      forall k | 0 <= k < |rest| ensures rest[k].id > rows[0].id {
        AfterElements(rows[1..], cursor, rest[k]);
        var m :| 0 <= m < |rows| - 1 && rows[1..][m] == rest[k];
        assert rows[m + 1] == rest[k];
      }
    }
  }

  lemma AfterIsTheRest(rows: seq<Entry>, cursor: int)
    requires Ascending(rows)
    ensures Ascending(After(rows, cursor))
    ensures forall e :: e in After(rows, cursor) <==> e in rows && e.id > cursor
  {
    AfterAscends(rows, cursor);
    forall e ensures e in After(rows, cursor) <==> e in rows && e.id > cursor {
      AfterElements(rows, cursor, e);
    }
  }

  /** A page asks for at least one event and at most five hundred. */
  predicate AsksFor(limit: int, n: nat) {
    if limit < 1 then n == 1 else if limit <= 500 then n == limit else n == 500
  }

  /**
   A page is the oldest events after the cursor, in order, as many as it asks for if there are so many; a
   negative cursor is the start.
   */
  lemma PageIsTheOldest(rows: seq<Entry>, after: int, limit: int, n: nat)
    requires Ascending(rows) && AsksFor(limit, n)
    ensures var page := List(rows, after, limit);
            && |page| <= n && Ascending(page)
            && (forall e :: e in page ==> e in rows && e.id > after && e.id > 0)
            && (forall e :: e in rows && e.id > after && e.id > 0 && e !in page ==>
                  |page| == n && forall p :: p in page ==> p.id < e.id)
  {
    hide After, Ascending;
    var found := After(rows, if after > 0 then after else 0);
    AfterIsTheRest(rows, if after > 0 then after else 0);
    OldestFirst(found, if |found| <= n then |found| else n);
    assert found[..|found|] == found;
  }

  lemma OldestFirst(found: seq<Entry>, m: nat)
    requires Ascending(found) && m <= |found|
    ensures Ascending(found[..m]) && forall p :: p in found[..m] ==> p in found
    ensures forall e, p :: e in found && e !in found[..m] && p in found[..m] ==> p.id < e.id
    ensures m == |found| ==> found[..m] == found
  {
    var page := found[..m];
    assert forall i :: 0 <= i < m ==> page[i] == found[i] && found[i] in page;
    forall e, p | e in found && e !in page && p in page ensures p.id < e.id {
      var k :| 0 <= k < |found| && found[k] == e;
      var i :| 0 <= i < m && page[i] == p;
    }
  }

  // ----- any interleaving of one reader with the writers -----

  /** A reader that started after `start`, its cursor, and the ids it was sent. */
  datatype Session = Session(stream: Stream, start: nat, cursor: nat, got: seq<nat>)

  /** A reader may lose its connection in the middle of a page: it was sent the first `sent` events. */
  datatype Step = Add(now: int) | Clean(now: int) | Poll(limit: int, sent: nat)

  function Ids(rows: seq<Entry>): seq<nat> { seq(|rows|, i requires 0 <= i < |rows| => rows[i].id) }

  ghost predicate Next(s: Session, l: Limits, step: Step, s': Session) {
    match step
    case Add(now) => s' == s.(stream := Append(s.stream, now))
    case Clean(now) => s' == s.(stream := Maintain(s.stream, l, now))
    case Poll(limit, sent) =>
      var page := List(s.stream.rows, s.cursor, limit);
      && sent <= |page|
      && s' == if sent == 0 then s else s.(cursor := page[sent - 1].id, got := s.got + Ids(page[..sent]))
  }

  ghost predicate Sorted(ids: seq<nat>) { forall i, j :: 0 <= i < j < |ids| ==> ids[i] < ids[j] }

  /** The reader has what it passed, in order, without repetition. */
  ghost predicate UpToDate(s: Session) {
    && Valid(s.stream) && s.start <= s.cursor <= s.stream.last
    && Sorted(s.got) && (forall id :: id in s.got ==> s.start < id <= s.cursor)
    && (forall k :: 0 <= k < |s.stream.rows| && s.start < s.stream.rows[k].id <= s.cursor ==>
          s.stream.rows[k].id in s.got)
  }

  lemma SentInOrder(s: Session, page: seq<Entry>, sent: nat)
    requires UpToDate(s) && 0 < sent <= |page| && Ascending(page)
    requires forall k :: 0 <= k < |page| ==> page[k].id > s.cursor
    ensures Sorted(s.got + Ids(page[..sent]))
    ensures forall id :: id in s.got + Ids(page[..sent]) ==> s.start < id <= page[sent - 1].id
  {
    var ids := Ids(page[..sent]);
    forall k | 0 <= k < sent ensures ids[k] == page[k].id && s.cursor < ids[k] <= page[sent - 1].id {
    }
    forall i, j | 0 <= i < j < |s.got + ids| ensures (s.got + ids)[i] < (s.got + ids)[j] {
      if i < |s.got| <= j {
        assert s.got[i] in s.got;
        assert ids[j - |s.got|] > s.cursor;
      } else if |s.got| <= i {
        assert page[i - |s.got|].id < page[j - |s.got|].id;
      }
    }
  }

  lemma PollMissesNothing(rows: seq<Entry>, cursor: nat, limit: int, sent: nat, k: nat)
    requires Ascending(rows) && 0 < sent <= |List(rows, cursor, limit)| && k < |rows|
    requires cursor < rows[k].id <= List(rows, cursor, limit)[sent - 1].id
    ensures rows[k].id in Ids(List(rows, cursor, limit)[..sent])
  {
    var found, page := After(rows, cursor), List(rows, cursor, limit);
    AfterIsTheRest(rows, cursor);
    assert rows[k] in found;
    var i :| 0 <= i < |found| && found[i] == rows[k];
    assert page[sent - 1] == found[sent - 1];
    assert i < sent;
    assert Ids(page[..sent])[i] == page[i].id;
  }

  lemma PageIsAscending(rows: seq<Entry>, cursor: nat, limit: int)
    requires Ascending(rows)
    ensures Ascending(List(rows, cursor, limit))
    ensures forall k :: 0 <= k < |List(rows, cursor, limit)| ==>
              List(rows, cursor, limit)[k] in rows && List(rows, cursor, limit)[k].id > cursor
  {
    var found, page := After(rows, cursor), List(rows, cursor, limit);
    AfterIsTheRest(rows, cursor);
    assert forall k :: 0 <= k < |page| ==> page[k] == found[k] && found[k] in found;
  }

  lemma PollStaysUpToDate(s: Session, limit: int, sent: nat)
    requires UpToDate(s) && 0 < sent <= |List(s.stream.rows, s.cursor, limit)|
    ensures var page := List(s.stream.rows, s.cursor, limit);
            UpToDate(s.(cursor := page[sent - 1].id, got := s.got + Ids(page[..sent])))
  {
    hide List, Ids;
    var rows, page := s.stream.rows, List(s.stream.rows, s.cursor, limit);
    PageIsAscending(rows, s.cursor, limit);
    SentInOrder(s, page, sent);
    assert page[sent - 1] in rows;
    forall k | 0 <= k < |rows| && s.start < rows[k].id <= page[sent - 1].id
      ensures rows[k].id in s.got + Ids(page[..sent])
    {
      if rows[k].id > s.cursor {
        PollMissesNothing(rows, s.cursor, limit, sent, k);
      }
    }
  }

  lemma StepStaysUpToDate(s: Session, l: Limits, step: Step, s': Session)
    requires UpToDate(s) && Next(s, l, step, s')
    ensures UpToDate(s') && s'.start == s.start && s.got <= s'.got
  {
    hide List;
    match step
    case Add(now) =>
    case Clean(now) =>
      MaintainKeepsValid(s.stream, l, now);
    case Poll(limit, sent) =>
      if sent > 0 {
        PollStaysUpToDate(s, limit, sent);
      }
  }

  ghost predicate Behaviour(states: seq<Session>, l: Limits, steps: seq<Step>) {
    && |states| == |steps| + 1
    && Valid(states[0].stream) && states[0].got == []
    && states[0].cursor == states[0].start <= states[0].stream.last
    && (forall k :: 0 <= k < |steps| ==> Next(states[k], l, steps[k], states[k + 1]))
  }

  /** In every run the ids sent are strictly increasing, and everything still stored behind the cursor was sent. */
  lemma {:induction false} ReaderIsUpToDate(states: seq<Session>, l: Limits, steps: seq<Step>, k: nat)
    requires Behaviour(states, l, steps) && k <= |steps|
    ensures UpToDate(states[k]) && states[k].start == states[0].start
  {
    if k > 0 {
      ReaderIsUpToDate(states, l, steps, k - 1);
      assert Next(states[k - 1], l, steps[k - 1], states[k]);
      StepStaysUpToDate(states[k - 1], l, steps[k - 1], states[k]);
    }
  }

  // ----- what a reader can miss -----

  lemma {:induction false} LaterStates(states: seq<Session>, l: Limits, steps: seq<Step>, j: nat, k: nat)
    requires Behaviour(states, l, steps) && j <= k <= |steps|
    ensures states[j].got <= states[k].got
    decreases k
  {
    if j < k {
      LaterStates(states, l, steps, j, k - 1);
      ReaderIsUpToDate(states, l, steps, k - 1);
      assert Next(states[k - 1], l, steps[k - 1], states[k]);
      StepStaysUpToDate(states[k - 1], l, steps[k - 1], states[k]);
    }
  }

  /** An event the reader passed without being sent it was deleted before the reader reached it. */
  lemma {:induction false} OnlyDeletedEventsAreMissed(
      states: seq<Session>, l: Limits, steps: seq<Step>, from: nat, n: nat, id: nat)
    requires Behaviour(states, l, steps) && from <= n <= |steps|
    requires Holds(states[from].stream, id) && states[from].cursor < id <= states[n].cursor && id !in states[n].got
    ensures exists j :: from <= j < n && states[j].cursor < id
              && Holds(states[j].stream, id) && !Holds(states[j + 1].stream, id)
    decreases n - from
  {
    ReaderIsUpToDate(states, l, steps, from);
    ReaderIsUpToDate(states, l, steps, from + 1);
    if Holds(states[from + 1].stream, id) {
      if id <= states[from + 1].cursor {
        LaterStates(states, l, steps, from + 1, n);
      } else {
        OnlyDeletedEventsAreMissed(states, l, steps, from + 1, n, id);
      }
    }
  }

  /** The next event is ahead of a reader exactly when its saved cursor is not ahead of the stream. */
  lemma NextEventIsAhead(s: Stream, cursor: nat, now: int)
    requires Valid(s)
    ensures Entry(s.last + 1, now) in After(Append(s, now).rows, cursor) <==> cursor <= s.last
  {
    var rows := Append(s, now).rows;
    AfterIsTheRest(rows, cursor);
    assert rows[|s.rows|] == Entry(s.last + 1, now);
  }

  // ----- pages join up -----

  function Drain(rows: seq<Entry>, cursor: nat, limit: int): seq<Entry>
    requires Ascending(rows)
    decreases |After(rows, cursor)|
  {
    var page := List(rows, cursor, limit);
    if page == [] then []
    else
      PageShortens(rows, cursor, limit);
      page + Drain(rows, page[|page| - 1].id, limit)
  }

  lemma {:induction false} AfterLater(rows: seq<Entry>, cursor: int, n: nat)
    requires Ascending(rows) && 0 < n <= |After(rows, cursor)|
    ensures After(rows, After(rows, cursor)[n - 1].id) == After(rows, cursor)[n..]
  {
    AfterIsTheRest(rows, cursor);
    if rows[0].id > cursor {
      AllAfter(rows, cursor);
      AllAfterIndex(rows, n);
    } else {
      assert [] + After(rows[1..], cursor) == After(rows[1..], cursor);
      AfterLater(rows[1..], cursor, n);
      var next := After(rows, cursor)[n - 1];
      assert next in After(rows, cursor);
      assert [] + After(rows[1..], next.id) == After(rows[1..], next.id);
    }
  }

  lemma {:induction false} AllAfter(rows: seq<Entry>, cursor: int)
    requires Ascending(rows) && (rows != [] ==> rows[0].id > cursor)
    ensures After(rows, cursor) == rows
  {
    if rows != [] {
      AllAfter(rows[1..], cursor);
      assert rows == [rows[0]] + rows[1..];
    }
  }

  lemma {:induction false} AllAfterIndex(rows: seq<Entry>, n: nat)
    requires Ascending(rows) && 0 < n <= |rows|
    ensures After(rows, rows[n - 1].id) == rows[n..]
  {
    assert [] + After(rows[1..], rows[n - 1].id) == After(rows[1..], rows[n - 1].id);
    if n == 1 {
      AllAfter(rows[1..], rows[0].id);
    } else {
      assert rows[0].id < rows[n - 1].id;
      AllAfterIndex(rows[1..], n - 1);
      assert rows[1..][n - 1..] == rows[n..];
    }
  }

  lemma PageShortens(rows: seq<Entry>, cursor: nat, limit: int)
    requires Ascending(rows) && List(rows, cursor, limit) != []
    ensures var page := List(rows, cursor, limit);
            && After(rows, cursor) == page + After(rows, page[|page| - 1].id)
            && |After(rows, page[|page| - 1].id)| < |After(rows, cursor)|
  {
    var page := List(rows, cursor, limit);
    AfterLater(rows, cursor, |page|);
    assert After(rows, cursor) == page + After(rows, cursor)[|page|..];
  }

  /** Whatever the page limit, reading page after page yields every event once, in order. */
  lemma {:induction false} PagesJoinUp(rows: seq<Entry>, cursor: nat, limit: int)
    requires Ascending(rows)
    ensures Drain(rows, cursor, limit) == After(rows, cursor)
    decreases |After(rows, cursor)|
  {
    var page := List(rows, cursor, limit);
    if page != [] {
      PageShortens(rows, cursor, limit);
      PagesJoinUp(rows, page[|page| - 1].id, limit);
    }
  }
}
