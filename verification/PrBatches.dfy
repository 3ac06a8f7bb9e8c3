/**
 Spreading a pull request over several prompts (pr_agent/algo/pr_processing.py): `generate_full_patch`
 fills one prompt greedily, and the batch loop of `pr_generate_compressed_diff` repeats it on what is
 left. Token counts are given.
 */
module PrBatches {
  import opened Sequences
  import opened TokenThresholds

  /** An entry of `file_dict`: `cost` counts the patch with its wrapper, `tokens` without. */
  datatype Entry = Entry(name: string, patch: string, tokens: nat, cost: nat)

  datatype Limits = Limits(prompt: nat, model: int)

  /** One filled prompt; `vanished` are the files that had room but an empty patch. */
  datatype Batch = Batch(total: nat, placed: seq<Entry>, left: seq<string>, vanished: seq<string>)

  function Names(entries: seq<Entry>): seq<string> {
    if entries == [] then [] else [entries[0].name] + Names(entries[1..])
  }

  ghost predicate Distinct(entries: seq<Entry>) {
    forall i, j :: 0 <= i < j < |entries| ==> entries[i].name != entries[j].name
  }

  predicate TooLarge(l: Limits, total: nat, e: Entry) { total + e.tokens > l.model - SOFT_THRESHOLD }

  predicate Skipped(l: Limits, total: nat, e: Entry) {
    total > l.model - HARD_THRESHOLD || TooLarge(l, total, e)
  }

  // ----- one prompt -----

  function Fill(entries: seq<Entry>, remaining: seq<string>, l: Limits, total: nat): Batch {
    if entries == [] then Batch(total, [], [], [])
    else
      var e := entries[0];
      if e.name !in remaining then Fill(entries[1..], remaining, l, total)
      else if Skipped(l, total, e) then
        var b := Fill(entries[1..], remaining, l, total);
        b.(left := [e.name] + b.left)
      else if e.patch == "" then
        var b := Fill(entries[1..], remaining, l, total);
        b.(vanished := [e.name] + b.vanished)
      else
        var b := Fill(entries[1..], remaining, l, total + e.cost);
        b.(placed := [e] + b.placed)
  }

  /** The names of the dictionary that are still asked for, in its order. */
  function Chosen(entries: seq<Entry>, remaining: seq<string>): seq<string> {
    if entries == [] then []
    else (if entries[0].name in remaining then [entries[0].name] else []) + Chosen(entries[1..], remaining)
  }

  function Times(n: string, s: seq<string>): nat { multiset(s)[n] }

  lemma TimesCons(n: string, x: string, s: seq<string>)
    ensures Times(n, [x] + s) == (if n == x then 1 else 0) + Times(n, s)
  {}

  lemma NamesCons(n: string, e: Entry, entries: seq<Entry>)
    ensures Times(n, Names([e] + entries)) == (if n == e.name then 1 else 0) + Times(n, Names(entries))
  {
    assert ([e] + entries)[1..] == entries;
    TimesCons(n, e.name, Names(entries));
  }

  /** Every file asked for is placed, left for another prompt, or vanishes: each exactly once. */
  lemma {:induction false} FillConserves(
      entries: seq<Entry>, remaining: seq<string>, l: Limits, total: nat, n: string)
    ensures var b := Fill(entries, remaining, l, total);
            Times(n, Names(b.placed)) + Times(n, b.left) + Times(n, b.vanished) == Times(n, Chosen(entries, remaining))
  {
    hide Skipped, Times;
    if entries == [] {
      TimesNone(n);
    } else {
      var e, rest := entries[0], Chosen(entries[1..], remaining);
      if e.name !in remaining {
        FillConserves(entries[1..], remaining, l, total, n);
        assert [] + rest == rest;
      } else {
        TimesCons(n, e.name, rest);
        var t := if !Skipped(l, total, e) && e.patch != "" then total + e.cost else total;
        var b := Fill(entries[1..], remaining, l, t);
        FillConserves(entries[1..], remaining, l, t, n);
        TimesCons(n, e.name, b.left);
        TimesCons(n, e.name, b.vanished);
        NamesCons(n, e, b.placed);
      }
    }
  }

  lemma TimesNone(n: string)
    ensures Times(n, []) == 0
  {}

  /** Nothing that was left would have fitted beside what was placed. */
  lemma FillIsMaximal(entries: seq<Entry>, remaining: seq<string>, l: Limits, total: nat)
    ensures var b := Fill(entries, remaining, l, total);
            forall n :: n in b.left ==>
              exists e :: e in entries && e.name == n && total + Cost(b.placed) + e.tokens > l.model - SOFT_THRESHOLD
  {
    FillStops(entries, remaining, l, total);
    TotalIsCost(entries, remaining, l, total);
  }

  lemma {:induction false} FillStops(entries: seq<Entry>, remaining: seq<string>, l: Limits, total: nat)
    ensures var b := Fill(entries, remaining, l, total);
            && b.total >= total
            && (forall n :: n in b.left ==> exists e :: e in entries && e.name == n && TooLarge(l, b.total, e))
  {
    if entries != [] {
      var e := entries[0];
      FillStops(entries[1..], remaining, l, total);
      FillStops(entries[1..], remaining, l, total + e.cost);
      var b := Fill(entries, remaining, l, total);
      forall n | n in b.left ensures exists e :: e in entries && e.name == n && TooLarge(l, b.total, e) {
        if e.name in remaining && Skipped(l, total, e) && n == e.name {
          assert TooLarge(l, b.total, e);
        }
      }
    }
  }

  /** Only non-empty patches of the dictionary are placed; only empty ones vanish. */
  lemma {:induction false} FillPlaces(entries: seq<Entry>, remaining: seq<string>, l: Limits, total: nat)
    ensures var b := Fill(entries, remaining, l, total);
            && (forall e :: e in b.placed ==> e in entries && e.name in remaining && e.patch != "")
            && (forall n :: n in b.left ==> n in remaining)
            && (forall n :: n in b.vanished ==> exists e :: e in entries && e.name == n && e.patch == "")
            && (b.placed == [] ==> b.total == total)
  {
    if entries != [] {
      var e := entries[0];
      FillPlaces(entries[1..], remaining, l, total);
      FillPlaces(entries[1..], remaining, l, total + e.cost);
    }
  }

  // ----- what a prompt weighs, and what decides about a file -----

  function Cost(entries: seq<Entry>): nat {
    if entries == [] then 0 else entries[0].cost + Cost(entries[1..])
  }

  lemma CostCons(e: Entry, entries: seq<Entry>)
    ensures Cost([e] + entries) == e.cost + Cost(entries) && Cost([]) == 0
  {
    assert ([e] + entries)[1..] == entries;
  }

  /** The total reported is the prompt and the cost of every file placed, and nothing else. */
  lemma {:induction false} TotalIsCost(entries: seq<Entry>, remaining: seq<string>, l: Limits, total: nat)
    ensures var b := Fill(entries, remaining, l, total); b.total == total + Cost(b.placed)
  {
    hide Skipped;
    if entries != [] {
      var e := entries[0];
      TotalIsCost(entries[1..], remaining, l, total);
      TotalIsCost(entries[1..], remaining, l, total + e.cost);
      CostCons(e, Fill(entries[1..], remaining, l, total + e.cost).placed);
    }
  }

  /** The entries that are among the placed ones, in the dictionary's order. */
  function Among(entries: seq<Entry>, placed: seq<Entry>): seq<Entry> {
    if entries == [] then []
    else (if entries[0] in placed then [entries[0]] else []) + Among(entries[1..], placed)
  }

  lemma {:induction false} AmongMore(entries: seq<Entry>, x: Entry, placed: seq<Entry>)
    requires x !in entries
    ensures Among(entries, [x] + placed) == Among(entries, placed)
  {
    if entries != [] {
      assert entries[0] in [x] + placed <==> entries[0] in placed;
      AmongMore(entries[1..], x, placed);
    }
  }

  /** The prompt and the cost of the files placed before entry `k`. */
  function Reached(entries: seq<Entry>, k: nat, prompt: nat, placed: seq<Entry>): nat
    requires k <= |entries|
  {
    prompt + Cost(Among(entries[..k], placed))
  }

  /** Both margins: what is there leaves the hard one, and with the bare patch of the file the soft one. */
  predicate KeepsMargins(l: Limits, used: nat, e: Entry) {
    used <= l.model - HARD_THRESHOLD && used + e.tokens <= l.model - SOFT_THRESHOLD
  }

  /** An entry that is asked for goes where the margins put it, by what was reached before it. */
  ghost predicate DecidedAt(entries: seq<Entry>, remaining: seq<string>, l: Limits, prompt: nat, b: Batch, k: nat)
    requires k < |entries|
  {
    var e, fits := entries[k], KeepsMargins(l, Reached(entries, k, prompt, b.placed), entries[k]);
    && (e in b.placed <==> e.name in remaining && fits && e.patch != "")
    && (e.name in b.left <==> e.name in remaining && !fits)
    && (e.name in b.vanished <==> e.name in remaining && fits && e.patch == "")
  }

  /** The files placed, in the dictionary's order, at their true total, and every file where it belongs. */
  ghost predicate Greedy(entries: seq<Entry>, remaining: seq<string>, l: Limits, prompt: nat, b: Batch) {
    && b.total == prompt + Cost(b.placed) && b.placed == Among(entries, b.placed)
    && (forall k :: 0 <= k < |entries| ==> DecidedAt(entries, remaining, l, prompt, b, k))
  }

  /** One prompt is filled greedily, file by file in the dictionary's order, against the true running total. */
  lemma {:induction false} FillIsGreedy(entries: seq<Entry>, remaining: seq<string>, l: Limits, total: nat)
    requires Distinct(entries)
    ensures Greedy(entries, remaining, l, total, Fill(entries, remaining, l, total))
  {
    hide Fill, Among, DecidedAt, Cost, Distinct, Stays, KeepsMargins;
    TotalIsCost(entries, remaining, l, total);
    if entries != [] {
      var e, tail := entries[0], entries[1..];
      var b := Fill(entries, remaining, l, total);
      var placed, t, c := FirstFilled(entries, remaining, l, total);
      FirstIsNew(entries);
      FillIsGreedy(tail, remaining, l, t);
      FillStays(tail, remaining, l, t);
      FirstDecided(entries, remaining, l, total, b, c);
      AmongFirst(entries, b.placed, c.placed);
      forall k | 0 <= k < |entries| ensures DecidedAt(entries, remaining, l, total, b, k) {
        if k > 0 {
          assert DecidedAt(tail, remaining, l, t, c, k - 1);
          LaterDecided(entries, remaining, l, total, t, b, c, k - 1);
        }
      }
    } else {
      NothingFilled(remaining, l, total);
    }
  }

  lemma NothingFilled(remaining: seq<string>, l: Limits, total: nat)
    ensures Fill([], remaining, l, total) == Batch(total, [], [], []) && Among([], []) == []
  {}

  lemma NothingAmong(placed: seq<Entry>)
    ensures Among([], placed) == [] && Cost([]) == 0
  {}

  /** What becomes of the first entry, and of the others after it. */
  lemma FirstFilled(entries: seq<Entry>, remaining: seq<string>, l: Limits, total: nat)
    returns (placed: bool, t: nat, c: Batch)
    requires entries != []
    ensures var e, b := entries[0], Fill(entries, remaining, l, total);
            var fits := e.name in remaining && KeepsMargins(l, total, e);
            && placed == (fits && e.patch != "") && t == (if placed then total + e.cost else total)
            && c == Fill(entries[1..], remaining, l, t)
            && b.placed == (if placed then [e] else []) + c.placed
            && b.left == (if e.name in remaining && !fits then [e.name] else []) + c.left
            && b.vanished == (if fits && !placed then [e.name] else []) + c.vanished
  {
    var e := entries[0];
    placed := e.name in remaining && KeepsMargins(l, total, e) && e.patch != "";
    t := if placed then total + e.cost else total;
    c := Fill(entries[1..], remaining, l, t);
    assert [] + c.placed == c.placed && [] + c.left == c.left && [] + c.vanished == c.vanished;
  }

  lemma FirstIsNew(entries: seq<Entry>)
    requires entries != [] && Distinct(entries)
    ensures Distinct(entries[1..]) && entries[0] !in entries[1..]
    ensures forall x :: x in entries[1..] ==> x.name != entries[0].name
  {
    var tail := entries[1..];
    forall x | x in tail ensures x.name != entries[0].name {
      var k :| 0 <= k < |tail| && tail[k] == x;
      assert entries[k + 1] == x;
    }
  }

  /** Whatever happens to the entries happens to their own names. */
  ghost predicate Stays(entries: seq<Entry>, b: Batch) {
    && (forall e :: e in b.placed ==> e in entries)
    && (forall n :: n in b.left || n in b.vanished ==> exists e :: e in entries && e.name == n)
  }

  lemma FillStays(entries: seq<Entry>, remaining: seq<string>, l: Limits, total: nat)
    ensures Stays(entries, Fill(entries, remaining, l, total))
    ensures forall e :: e in Fill(entries, remaining, l, total).placed ==> e in entries
  {
    hide Fill;
    FillPlaces(entries, remaining, l, total);
    FillIsMaximal(entries, remaining, l, total);
  }

  lemma FirstDecided(entries: seq<Entry>, remaining: seq<string>, l: Limits, total: nat, b: Batch, c: Batch)
    requires entries != [] && Stays(entries[1..], c)
    requires entries[0] !in entries[1..] && forall x :: x in entries[1..] ==> x.name != entries[0].name
    requires var e := entries[0];
             var fits := e.name in remaining && KeepsMargins(l, total, e);
             && b.placed == (if fits && e.patch != "" then [e] else []) + c.placed
             && b.left == (if e.name in remaining && !fits then [e.name] else []) + c.left
             && b.vanished == (if fits && e.patch == "" then [e.name] else []) + c.vanished
    ensures DecidedAt(entries, remaining, l, total, b, 0)
  {
    NothingAmong(b.placed);
    assert entries[..0] == [];
  }

  lemma AmongFirst(entries: seq<Entry>, placed: seq<Entry>, rest: seq<Entry>)
    requires entries != [] && entries[0] !in entries[1..] && entries[0] !in rest
    requires placed == rest || placed == [entries[0]] + rest
    ensures forall k :: 0 <= k < |entries| ==>
              Among(entries[..k + 1], placed)
              == (if entries[0] in placed then [entries[0]] else []) + Among(entries[1..][..k], rest)
    ensures Among(entries, placed)
            == (if entries[0] in placed then [entries[0]] else []) + Among(entries[1..], rest)
  {
    forall k | 0 <= k < |entries|
      ensures Among(entries[..k + 1], placed)
              == (if entries[0] in placed then [entries[0]] else []) + Among(entries[1..][..k], rest)
    {
      assert entries[..k + 1][0] == entries[0] && entries[..k + 1][1..] == entries[1..][..k];
      if entries[0] in placed {
        AmongMore(entries[1..][..k], entries[0], rest);
      }
    }
    assert entries[..|entries|] == entries && entries[1..][..|entries| - 1] == entries[1..];
  }

  lemma LaterDecided(
      entries: seq<Entry>, remaining: seq<string>, l: Limits, total: nat, t: nat, b: Batch, c: Batch, k: nat)
    requires k < |entries| - 1 && entries[0] !in entries[1..]
    requires forall x :: x in entries[1..] ==> x.name != entries[0].name
    requires Stays(entries[1..], c) && DecidedAt(entries[1..], remaining, l, t, c, k)
    requires var e := entries[0];
             && t == (if e in b.placed then total + e.cost else total)
             && (b.placed == c.placed || b.placed == [e] + c.placed)
             && (b.left == c.left || b.left == [e.name] + c.left)
             && (b.vanished == c.vanished || b.vanished == [e.name] + c.vanished)
    ensures DecidedAt(entries, remaining, l, total, b, k + 1)
  {
    hide Among, Cost, KeepsMargins;
    var x, before := entries[k + 1], Among(entries[1..][..k], c.placed);
    assert x == entries[1..][k] && x in entries[1..];
    AmongFirst(entries, b.placed, c.placed);
    CostCons(entries[0], before);
    assert [] + before == before;
  }

  /** The wrapper around a patch costs no more than the gap between the two thresholds. */
  ghost predicate SmallWrappers(entries: seq<Entry>) {
    forall e :: e in entries ==> e.cost <= e.tokens + (SOFT_THRESHOLD - HARD_THRESHOLD)
  }

  lemma {:induction false} FillIsBounded(entries: seq<Entry>, remaining: seq<string>, l: Limits, total: nat)
    requires SmallWrappers(entries)
    ensures var b := Fill(entries, remaining, l, total);
            b.placed != [] ==> total + Cost(b.placed) <= l.model - HARD_THRESHOLD
  {
    TotalIsCost(entries, remaining, l, total);
    if entries != [] {
      var e := entries[0];
      FillIsBounded(entries[1..], remaining, l, total);
      FillIsBounded(entries[1..], remaining, l, total + e.cost);
      TotalIsCost(entries[1..], remaining, l, total);
      TotalIsCost(entries[1..], remaining, l, total + e.cost);
      FillPlaces(entries[1..], remaining, l, total + e.cost);
    }
  }

  method GenerateFullPatch(entries: seq<Entry>, remaining: seq<string>, l: Limits) returns (b: Batch)
    ensures b == Fill(entries, remaining, l, l.prompt)
  {
    var total: nat := l.prompt;
    var placed: seq<Entry>, left: seq<string>, vanished: seq<string> := [], [], [];
    var i := 0;
    assert entries[0..] == entries;
    ghost var whole := Fill(entries, remaining, l, l.prompt);
    Prepend([], [], [], whole);
    while i < |entries|
      invariant 0 <= i <= |entries|
      invariant whole == Before(placed, left, vanished, Fill(entries[i..], remaining, l, total))
    {
      var e := entries[i];
      assert entries[i..][1..] == entries[i + 1..];
      i := i + 1;
      if e.name !in remaining {
        continue;
      }
      if total > l.model - HARD_THRESHOLD {
        BeforeStep(placed, left, vanished, [], [e.name], [], Fill(entries[i..], remaining, l, total));
        left := left + [e.name];
        continue;
      }
      if total + e.tokens > l.model - SOFT_THRESHOLD {
        BeforeStep(placed, left, vanished, [], [e.name], [], Fill(entries[i..], remaining, l, total));
        left := left + [e.name];
        continue;
      }
      if e.patch != "" {
        BeforeStep(placed, left, vanished, [e], [], [], Fill(entries[i..], remaining, l, total + e.cost));
        placed := placed + [e];
        total := total + e.cost;
      } else {
        BeforeStep(placed, left, vanished, [], [], [e.name], Fill(entries[i..], remaining, l, total));
        vanished := vanished + [e.name];
      }
    }
    b := Batch(total, placed, left, vanished);
    assert entries[|entries|..] == [];
    assert placed + [] == placed && left + [] == left && vanished + [] == vanished;
  }

  function Before(placed: seq<Entry>, left: seq<string>, vanished: seq<string>, b: Batch): Batch {
    Batch(b.total, placed + b.placed, left + b.left, vanished + b.vanished)
  }

  lemma Prepend(placed: seq<Entry>, left: seq<string>, vanished: seq<string>, b: Batch)
    requires placed == [] && left == [] && vanished == []
    ensures Before(placed, left, vanished, b) == b
  {
    assert placed + b.placed == b.placed && left + b.left == b.left && vanished + b.vanished == b.vanished;
  }

  lemma BeforeStep(
      placed: seq<Entry>, left: seq<string>, vanished: seq<string>,
      p: seq<Entry>, n: seq<string>, v: seq<string>, b: Batch)
    ensures Before(placed, left, vanished, Before(p, n, v, b)) == Before(placed + p, left + n, vanished + v, b)
    ensures p == [] ==> p + b.placed == b.placed
    ensures n == [] ==> n + b.left == b.left
    ensures v == [] ==> v + b.vanished == b.vanished
    ensures placed + [] == placed && left + [] == left && vanished + [] == vanished
  {
    assert placed + (p + b.placed) == placed + p + b.placed;
    assert left + (n + b.left) == left + n + b.left;
    assert vanished + (v + b.vanished) == vanished + v + b.vanished;
  }

  // ----- the batch loop -----

  datatype Result = Result(batches: seq<Batch>, left: seq<string>, vanished: seq<string>)

  /** Up to `n` more prompts for what is left; a prompt that got nothing is not kept. */
  function More(entries: seq<Entry>, remaining: seq<string>, l: Limits, n: nat): Result
    decreases n
  {
    if n == 0 || remaining == [] then Result([], remaining, [])
    else
      var b := Fill(entries, remaining, l, l.prompt);
      var rest := More(entries, b.left, l, n - 1);
      Result((if b.placed == [] then [] else [b]) + rest.batches, rest.left, b.vanished + rest.vanished)
  }

  /** The first prompt is always kept; one call is held back for the summary, one is the first prompt. */
  function AllBatches(entries: seq<Entry>, remaining: seq<string>, l: Limits, large: bool, calls: int): Result {
    var b := Fill(entries, remaining, l, l.prompt);
    var rest := More(entries, b.left, l, if large && calls > 2 then calls - 2 else 0);
    Result([b] + rest.batches, rest.left, b.vanished + rest.vanished)
  }

  method GenerateCompressedDiff(entries: seq<Entry>, remaining: seq<string>, l: Limits, large: bool, calls: int)
    returns (batches: seq<Batch>, left: seq<string>)
    ensures batches == AllBatches(entries, remaining, l, large, calls).batches
    ensures left == AllBatches(entries, remaining, l, large, calls).left
  {
    var b := GenerateFullPatch(entries, remaining, l);
    batches, left := [b], b.left;
    var n := if large && calls > 2 then calls - 2 else 0;
    assert n > 0 ==> n == calls - 2;
    var i := 0;
    while i < n
      invariant 0 <= i <= n
      invariant AllBatches(entries, remaining, l, large, calls).batches
                == batches + More(entries, left, l, n - i).batches
      invariant AllBatches(entries, remaining, l, large, calls).left == More(entries, left, l, n - i).left
    {
      if left == [] {
        break;
      }
      ghost var rest := More(entries, left, l, n - i).batches;
      var c := GenerateFullPatch(entries, left, l);
      ghost var last := More(entries, c.left, l, n - i - 1).batches;
      left := c.left;
      if c.placed != [] {
        Reassoc(batches, [c], last);
        batches := batches + [c];
      } else {
        assert [] + last == last;
      }
      i := i + 1;
    }
    assert batches + [] == batches;
  }

  // ----- conservation over all prompts -----

  function AllPlaced(batches: seq<Batch>): seq<string> {
    if batches == [] then [] else Names(batches[0].placed) + AllPlaced(batches[1..])
  }

  lemma TimesConcat(n: string, a: seq<string>, b: seq<string>)
    ensures Times(n, a + b) == Times(n, a) + Times(n, b)
  {}

  lemma {:induction false} ChosenIgnores(entries: seq<Entry>, s: seq<string>, x: string)
    requires forall e :: e in entries ==> e.name != x
    ensures Chosen(entries, [x] + s) == Chosen(entries, s)
  {
    if entries != [] {
      assert entries[0].name in [x] + s <==> entries[0].name in s;
      ChosenIgnores(entries[1..], s, x);
    }
  }

  /** What a prompt leaves is asked for again in the same order, and nothing else is. */
  lemma {:induction false} LeftIsChosen(entries: seq<Entry>, remaining: seq<string>, l: Limits, total: nat)
    requires Distinct(entries)
    ensures Chosen(entries, Fill(entries, remaining, l, total).left) == Fill(entries, remaining, l, total).left
  {
    if entries != [] {
      var e, tail := entries[0], entries[1..];
      forall x | x in tail ensures x.name != e.name {
        var k :| 0 <= k < |tail| && tail[k] == x;
        assert entries[k + 1] == x;
      }
      var t := if e.name in remaining && !Skipped(l, total, e) && e.patch != "" then total + e.cost else total;
      LeftIsChosen(tail, remaining, l, t);
      FillIsMaximal(tail, remaining, l, t);
      var s := Fill(tail, remaining, l, t).left;
      assert e.name !in s;
      if e.name in remaining && Skipped(l, total, e) {
        ChosenIgnores(tail, s, e.name);
      } else {
        assert [] + s == s;
      }
    }
  }

  lemma {:induction false} MoreConserves(entries: seq<Entry>, remaining: seq<string>, l: Limits, n: nat, name: string)
    requires Distinct(entries) && Chosen(entries, remaining) == remaining
    ensures var r := More(entries, remaining, l, n);
            Times(name, AllPlaced(r.batches)) + Times(name, r.left) + Times(name, r.vanished) == Times(name, remaining)
    decreases n
  {
    hide Times, Fill, Chosen;
    TimesNone(name);
    if n > 0 && remaining != [] {
      var b := Fill(entries, remaining, l, l.prompt);
      FillConserves(entries, remaining, l, l.prompt, name);
      LeftIsChosen(entries, remaining, l, l.prompt);
      MoreConserves(entries, b.left, l, n - 1, name);
      Accounts(b, More(entries, b.left, l, n - 1), name);
    }
  }

  /** Putting one prompt before the others adds up. */
  lemma Accounts(b: Batch, rest: Result, name: string)
    ensures Times(name, AllPlaced((if b.placed == [] then [] else [b]) + rest.batches))
            == Times(name, Names(b.placed)) + Times(name, AllPlaced(rest.batches))
    ensures Times(name, AllPlaced([b] + rest.batches))
            == Times(name, Names(b.placed)) + Times(name, AllPlaced(rest.batches))
    ensures Times(name, b.vanished + rest.vanished) == Times(name, b.vanished) + Times(name, rest.vanished)
  {
    TimesConcat(name, b.vanished, rest.vanished);
    TimesConcat(name, Names(b.placed), AllPlaced(rest.batches));
    assert ([b] + rest.batches)[1..] == rest.batches;
    if b.placed == [] {
      NoNames();
      assert [] + AllPlaced(rest.batches) == AllPlaced(rest.batches);
      assert [] + rest.batches == rest.batches;
    }
  }

  lemma NoNames()
    ensures Names([]) == []
  {}

  /** Over all prompts every file asked for is placed once, left over once, or had no patch. */
  lemma BatchesConserve(
      entries: seq<Entry>, remaining: seq<string>, l: Limits, large: bool, calls: int, name: string)
    requires Distinct(entries)
    ensures var r := AllBatches(entries, remaining, l, large, calls);
            Times(name, AllPlaced(r.batches)) + Times(name, r.left) + Times(name, r.vanished)
            == Times(name, Chosen(entries, remaining))
  {
    hide Times, Fill, Chosen;
    var b := Fill(entries, remaining, l, l.prompt);
    FillConserves(entries, remaining, l, l.prompt, name);
    LeftIsChosen(entries, remaining, l, l.prompt);
    var n := if large && calls > 2 then calls - 2 else 0;
    MoreConserves(entries, b.left, l, n, name);
    Accounts(b, More(entries, b.left, l, n), name);
  }

  lemma {:induction false} ChosenOnce(entries: seq<Entry>, remaining: seq<string>, e: Entry)
    requires Distinct(entries) && e in entries && e.name in remaining
    ensures Times(e.name, Chosen(entries, remaining)) == 1
  {
    hide *;
    RestDiffers(entries, e);
    ChosenStep(entries, remaining, e.name);
    if entries[0] == e {
      ChosenAbsent(entries[1..], remaining, e.name);
    } else {
      ChosenOnce(entries[1..], remaining, e);
    }
  }

  /** The first of distinct entries has a name of its own. */
  lemma RestDiffers(entries: seq<Entry>, e: Entry)
    requires Distinct(entries) && e in entries
    ensures entries != [] && Distinct(entries[1..])
    ensures forall x :: x in entries[1..] ==> x.name != entries[0].name
    ensures e == entries[0] || (e in entries[1..] && e.name != entries[0].name)
  {
    var tail := entries[1..];
    forall x | x in tail ensures x.name != entries[0].name {
      var k :| 0 <= k < |tail| && tail[k] == x;
      assert entries[k + 1] == x;
    }
    assert entries == [entries[0]] + tail;
  }

  lemma ChosenStep(entries: seq<Entry>, remaining: seq<string>, n: string)
    requires entries != []
    ensures var first, rest := entries[0].name, Times(n, Chosen(entries[1..], remaining));
            Times(n, Chosen(entries, remaining)) == rest + if first == n && first in remaining then 1 else 0
  {
    hide Times;
    var rest := Chosen(entries[1..], remaining);
    TimesCons(n, entries[0].name, rest);
    assert [] + rest == rest;
  }

  lemma {:induction false} ChosenAbsent(entries: seq<Entry>, remaining: seq<string>, n: string)
    requires forall e :: e in entries ==> e.name != n
    ensures Times(n, Chosen(entries, remaining)) == 0
  {
    hide Times;
    if entries == [] {
      TimesNone(n);
    } else {
      ChosenStep(entries, remaining, n);
      ChosenAbsent(entries[1..], remaining, n);
    }
  }

  lemma FillVanished(entries: seq<Entry>, remaining: seq<string>, l: Limits, e: Entry)
    requires Distinct(entries) && e in entries && e.name in Fill(entries, remaining, l, l.prompt).vanished
    ensures e.patch == ""
  {
    FillPlaces(entries, remaining, l, l.prompt);
    var x :| x in entries && x.name == e.name && x.patch == "";
    SameName(entries, x, e);
  }

  lemma {:induction false} MoreVanished(entries: seq<Entry>, remaining: seq<string>, l: Limits, n: nat, e: Entry)
    requires Distinct(entries) && e in entries && e.name in More(entries, remaining, l, n).vanished
    ensures e.patch == ""
    decreases n
  {
    var b := Fill(entries, remaining, l, l.prompt);
    if e.name in b.vanished {
      FillVanished(entries, remaining, l, e);
    } else {
      MoreVanished(entries, b.left, l, n - 1, e);
    }
  }

  lemma SameName(entries: seq<Entry>, a: Entry, b: Entry)
    requires Distinct(entries) && a in entries && b in entries && a.name == b.name
    ensures a == b
  {
    var i :| 0 <= i < |entries| && entries[i] == a;
    var j :| 0 <= j < |entries| && entries[j] == b;
  }

  /** Every file with a patch is in exactly one prompt or left over; never in two, never in both. */
  lemma EveryFileOnce(entries: seq<Entry>, remaining: seq<string>, l: Limits, large: bool, calls: int, e: Entry)
    requires Distinct(entries) && e in entries && e.name in remaining && e.patch != ""
    ensures var r := AllBatches(entries, remaining, l, large, calls);
            Times(e.name, AllPlaced(r.batches)) + Times(e.name, r.left) == 1
  {
    var r := AllBatches(entries, remaining, l, large, calls);
    BatchesConserve(entries, remaining, l, large, calls, e.name);
    ChosenOnce(entries, remaining, e);
    var b := Fill(entries, remaining, l, l.prompt);
    if e.name in b.vanished {
      FillVanished(entries, remaining, l, e);
    } else if e.name in r.vanished {
      MoreVanished(entries, b.left, l, if large && calls > 2 then calls - 2 else 0, e);
    }
  }

  // ----- every prompt is maximal, bounded, and there are not too many -----

  lemma {:induction false} MoreStaysWithin(entries: seq<Entry>, remaining: seq<string>, l: Limits, n: nat)
    ensures var r := More(entries, remaining, l, n);
            && |r.batches| <= n
            && (forall k :: 0 <= k < |r.batches| ==> r.batches[k].placed != [])
            && (forall k, e :: 0 <= k < |r.batches| && e in r.batches[k].placed ==> e in entries && e.name in remaining)
            && (forall x :: x in r.left ==> x in remaining)
    decreases n
  {
    if n > 0 && remaining != [] {
      var b := Fill(entries, remaining, l, l.prompt);
      FillPlaces(entries, remaining, l, l.prompt);
      MoreStaysWithin(entries, b.left, l, n - 1);
    }
  }

  /** Beside the files of a prompt this one would not leave the soft margin. */
  predicate Overflows(l: Limits, placed: seq<Entry>, e: Entry) {
    l.prompt + Cost(placed) + e.tokens > l.model - SOFT_THRESHOLD
  }

  /** A file in a later prompt, or left over at the end, did not fit any earlier prompt. */
  ghost predicate Maximal(entries: seq<Entry>, l: Limits, r: Result) {
    && (forall i, j, e :: 0 <= i < j < |r.batches| && e in r.batches[j].placed ==> Overflows(l, r.batches[i].placed, e))
    && (forall i, e :: 0 <= i < |r.batches| && e in entries && e.name in r.left ==>
          Overflows(l, r.batches[i].placed, e))
  }

  lemma {:induction false} MoreIsMaximal(entries: seq<Entry>, remaining: seq<string>, l: Limits, n: nat)
    requires Distinct(entries)
    ensures Maximal(entries, l, More(entries, remaining, l, n))
    decreases n
  {
    hide Overflows;
    if n > 0 && remaining != [] {
      var b := Fill(entries, remaining, l, l.prompt);
      MoreIsMaximal(entries, b.left, l, n - 1);
      FirstIsMaximal(entries, remaining, l, n - 1);
    }
  }

  lemma FirstIsMaximal(entries: seq<Entry>, remaining: seq<string>, l: Limits, n: nat)
    requires Distinct(entries)
    requires Maximal(entries, l, More(entries, Fill(entries, remaining, l, l.prompt).left, l, n))
    ensures var b := Fill(entries, remaining, l, l.prompt);
            var rest := More(entries, b.left, l, n);
            Maximal(entries, l, rest.(batches := [b] + rest.batches))
  {
    hide More, Fill, TooLarge, Overflows;
    var b := Fill(entries, remaining, l, l.prompt);
    var rest := More(entries, b.left, l, n);
    FillIsMaximal(entries, remaining, l, l.prompt);
    MoreStaysWithin(entries, b.left, l, n);
    forall e | e in entries && e.name in b.left ensures Overflows(l, b.placed, e) {
      var x :| x in entries && x.name == e.name && l.prompt + Cost(b.placed) + x.tokens > l.model - SOFT_THRESHOLD;
      SameName(entries, x, e);
      OverflowsIs(l, b.placed, e);
    }
  }

  lemma OverflowsIs(l: Limits, placed: seq<Entry>, e: Entry)
    ensures Overflows(l, placed, e) <==> l.prompt + Cost(placed) + e.tokens > l.model - SOFT_THRESHOLD
  {}

  lemma BatchesAreMaximal(entries: seq<Entry>, remaining: seq<string>, l: Limits, large: bool, calls: int)
    requires Distinct(entries)
    ensures Maximal(entries, l, AllBatches(entries, remaining, l, large, calls))
    ensures |AllBatches(entries, remaining, l, large, calls).batches| <= if large && calls > 2 then calls - 1 else 1
    ensures forall k :: 1 <= k < |AllBatches(entries, remaining, l, large, calls).batches| ==>
              AllBatches(entries, remaining, l, large, calls).batches[k].placed != []
  {
    var b := Fill(entries, remaining, l, l.prompt);
    var n := if large && calls > 2 then calls - 2 else 0;
    MoreIsMaximal(entries, b.left, l, n);
    FirstIsMaximal(entries, remaining, l, n);
    MoreStaysWithin(entries, b.left, l, n);
  }

  /** Each prompt is filled greedily from what the one before it left. */
  ghost predicate Chain(entries: seq<Entry>, remaining: seq<string>, l: Limits, batches: seq<Batch>) {
    forall k :: 0 <= k < |batches| ==> GreedyAt(entries, remaining, l, batches, k)
  }

  ghost predicate GreedyAt(entries: seq<Entry>, remaining: seq<string>, l: Limits, batches: seq<Batch>, k: nat)
    requires k < |batches|
  {
    Greedy(entries, if k == 0 then remaining else batches[k - 1].left, l, l.prompt, batches[k])
  }

  lemma {:induction false} MoreIsGreedy(entries: seq<Entry>, remaining: seq<string>, l: Limits, n: nat)
    requires Distinct(entries)
    ensures Chain(entries, remaining, l, More(entries, remaining, l, n).batches)
    decreases n
  {
    hide Greedy, Fill;
    if n > 0 && remaining != [] {
      var b := Fill(entries, remaining, l, l.prompt);
      FillIsGreedy(entries, remaining, l, l.prompt);
      MoreIsGreedy(entries, b.left, l, n - 1);
      if b.placed == [] {
        StuckForGood(entries, remaining, l, n);
      } else {
        ChainGrows(entries, remaining, l, b, More(entries, b.left, l, n - 1).batches);
      }
    }
  }

  lemma ChainGrows(entries: seq<Entry>, remaining: seq<string>, l: Limits, b: Batch, rest: seq<Batch>)
    requires Greedy(entries, remaining, l, l.prompt, b) && Chain(entries, b.left, l, rest)
    ensures Chain(entries, remaining, l, [b] + rest)
  {
    hide Greedy;
    var all := [b] + rest;
    forall k | 0 <= k < |all| ensures GreedyAt(entries, remaining, l, all, k) {
      if k > 0 {
        assert all[k] == rest[k - 1] && GreedyAt(entries, b.left, l, rest, k - 1);
      }
    }
  }

  /** Every prompt is filled greedily, at its true total, from what the one before it left. */
  lemma EveryPromptIsGreedy(entries: seq<Entry>, remaining: seq<string>, l: Limits, large: bool, calls: int)
    requires Distinct(entries)
    ensures Chain(entries, remaining, l, AllBatches(entries, remaining, l, large, calls).batches)
  {
    hide Greedy, Fill;
    var b := Fill(entries, remaining, l, l.prompt);
    var n := if large && calls > 2 then calls - 2 else 0;
    FillIsGreedy(entries, remaining, l, l.prompt);
    MoreIsGreedy(entries, b.left, l, n);
    ChainGrows(entries, remaining, l, b, More(entries, b.left, l, n).batches);
  }

  /** The files of a prompt and the prompt itself leave the hard margin free. */
  predicate Bounded(l: Limits, b: Batch) { b.placed != [] ==> l.prompt + Cost(b.placed) <= l.model - HARD_THRESHOLD }

  lemma {:induction false} MoreIsBounded(entries: seq<Entry>, remaining: seq<string>, l: Limits, n: nat, k: nat)
    requires SmallWrappers(entries) && k < |More(entries, remaining, l, n).batches|
    ensures Bounded(l, More(entries, remaining, l, n).batches[k])
    decreases n
  {
    var b := Fill(entries, remaining, l, l.prompt);
    FillIsBounded(entries, remaining, l, l.prompt);
    if b.placed == [] {
      MoreIsBounded(entries, b.left, l, n - 1, k);
    } else if k > 0 {
      MoreIsBounded(entries, b.left, l, n - 1, k - 1);
    }
  }

  /** A prompt that holds a file keeps the hard margin free for the answer. */
  lemma BatchesAreBounded(
      entries: seq<Entry>, remaining: seq<string>, l: Limits, large: bool, calls: int, k: nat)
    requires SmallWrappers(entries) && k < |AllBatches(entries, remaining, l, large, calls).batches|
    ensures var b := AllBatches(entries, remaining, l, large, calls).batches[k];
            b.placed != [] ==> l.prompt + Cost(b.placed) <= l.model - HARD_THRESHOLD
  {
    var b := Fill(entries, remaining, l, l.prompt);
    FillIsBounded(entries, remaining, l, l.prompt);
    if k > 0 {
      MoreIsBounded(entries, b.left, l, if large && calls > 2 then calls - 2 else 0, k - 1);
    }
  }

  // ----- a prompt that gets nothing is the last -----

  lemma {:induction false} NothingPlaced(entries: seq<Entry>, remaining: seq<string>, l: Limits, total: nat)
    ensures Fill(entries, remaining, l, total).placed == []
            <==> (forall e :: e in entries && e.name in remaining && e.patch != "" ==> Skipped(l, total, e))
  {
    if entries != [] {
      NothingPlaced(entries[1..], remaining, l, total);
      assert entries == [entries[0]] + entries[1..];
    }
  }

  lemma {:induction false} StuckForGood(entries: seq<Entry>, remaining: seq<string>, l: Limits, n: nat)
    requires Fill(entries, remaining, l, l.prompt).placed == []
    ensures More(entries, remaining, l, n).batches == []
    decreases n
  {
    if n > 0 && remaining != [] {
      var b := Fill(entries, remaining, l, l.prompt);
      FillPlaces(entries, remaining, l, l.prompt);
      NothingPlaced(entries, remaining, l, l.prompt);
      NothingPlaced(entries, b.left, l, l.prompt);
      StuckForGood(entries, b.left, l, n - 1);
    }
  }

  lemma {:induction false} FillLengths(entries: seq<Entry>, remaining: seq<string>, l: Limits, total: nat)
    ensures var b := Fill(entries, remaining, l, total);
            |b.placed| + |b.left| + |b.vanished| == |Chosen(entries, remaining)|
  {
    if entries != [] {
      FillLengths(entries[1..], remaining, l, total);
      FillLengths(entries[1..], remaining, l, total + entries[0].cost);
    }
  }

  /** With calls enough, only files too large for a prompt of their own are left over. */
  lemma {:induction false} EnoughCallsExhaust(entries: seq<Entry>, remaining: seq<string>, l: Limits, n: nat, e: Entry)
    requires Distinct(entries) && Chosen(entries, remaining) == remaining && n >= |remaining|
    requires e in entries && e.name in More(entries, remaining, l, n).left
    ensures l.prompt + e.tokens > l.model - SOFT_THRESHOLD
    decreases n
  {
    if remaining != [] {
      var b := Fill(entries, remaining, l, l.prompt);
      MoreStaysWithin(entries, b.left, l, n - 1);
      if b.placed == [] {
        FillPlaces(entries, remaining, l, l.prompt);
        FillIsMaximal(entries, remaining, l, l.prompt);
        var x :| x in entries && x.name == e.name && l.prompt + Cost(b.placed) + x.tokens > l.model - SOFT_THRESHOLD;
        SameName(entries, x, e);
      } else {
        FillLengths(entries, remaining, l, l.prompt);
        LeftIsChosen(entries, remaining, l, l.prompt);
        EnoughCallsExhaust(entries, b.left, l, n - 1, e);
      }
    }
  }

  /** Nothing that is left could be placed alone in a prompt of its own. */
  ghost predicate Exhausted(entries: seq<Entry>, l: Limits, left: seq<string>) {
    forall e :: e in entries && e.name in left ==> !KeepsMargins(l, l.prompt, e)
  }

  lemma NothingFits(entries: seq<Entry>, remaining: seq<string>, l: Limits)
    requires Distinct(entries) && Fill(entries, remaining, l, l.prompt).placed == []
    ensures Exhausted(entries, l, Fill(entries, remaining, l, l.prompt).left)
  {
    hide Fill, DecidedAt;
    var b := Fill(entries, remaining, l, l.prompt);
    FillIsGreedy(entries, remaining, l, l.prompt);
    forall e | e in entries && e.name in b.left ensures !KeepsMargins(l, l.prompt, e) {
      var k :| 0 <= k < |entries| && entries[k] == e;
      assert DecidedAt(entries, remaining, l, l.prompt, b, k);
      NothingReached(entries, remaining, l, b, k);
    }
  }

  lemma NothingReached(entries: seq<Entry>, remaining: seq<string>, l: Limits, b: Batch, k: nat)
    requires k < |entries| && b.placed == [] && DecidedAt(entries, remaining, l, l.prompt, b, k)
    ensures entries[k].name in b.left ==> !KeepsMargins(l, l.prompt, entries[k])
  {
    hide KeepsMargins;
    AmongNone(entries[..k]);
  }

  lemma {:induction false} AmongNone(entries: seq<Entry>)
    ensures Among(entries, []) == [] && Cost([]) == 0
  {
    if entries != [] {
      AmongNone(entries[1..]);
    }
  }

  lemma {:induction false} MoreGoesOn(entries: seq<Entry>, remaining: seq<string>, l: Limits, n: nat)
    requires Distinct(entries)
    ensures var r := More(entries, remaining, l, n);
            |r.batches| == n || r.left == [] || Exhausted(entries, l, r.left)
    decreases n
  {
    hide Fill, Exhausted;
    if n > 0 && remaining != [] {
      var b := Fill(entries, remaining, l, l.prompt);
      MoreGoesOn(entries, b.left, l, n - 1);
      if b.placed == [] {
        NothingFits(entries, remaining, l);
        MoreStaysWithin(entries, b.left, l, n - 1);
        StillExhausted(entries, l, b.left, More(entries, b.left, l, n - 1).left);
      }
    }
  }

  lemma StillExhausted(entries: seq<Entry>, l: Limits, left: seq<string>, less: seq<string>)
    requires Exhausted(entries, l, left) && forall x :: x in less ==> x in left
    ensures Exhausted(entries, l, less)
  {}

  /** No call is given up while it could be of use. */
  lemma EveryCallIsUsed(entries: seq<Entry>, remaining: seq<string>, l: Limits, large: bool, calls: int)
    requires Distinct(entries)
    ensures var r := AllBatches(entries, remaining, l, large, calls);
            r.left != [] && (exists e :: e in entries && e.name in r.left && KeepsMargins(l, l.prompt, e)) ==>
              |r.batches| == if large && calls > 2 then calls - 1 else 1
  {
    hide Fill, KeepsMargins;
    var b := Fill(entries, remaining, l, l.prompt);
    MoreGoesOn(entries, b.left, l, if large && calls > 2 then calls - 2 else 0);
  }
}
