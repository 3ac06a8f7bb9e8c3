/**
 Splitting a large pull request into several prompts (pr_agent/algo/pr_processing.py): the loop of
 `get_pr_multi_diffs`, which packs file patches next-fit into at most `max_calls` chunks.

 Token counting and clipping are arbitrary functions.
 */
module PrChunks {
  import opened Sequences
  import opened TokenThresholds
  import opened Wrappers

  /** A patch text with its token count. */
  datatype Item = Item(text: string, tokens: nat)

  /** What `large_patch_policy` says. */
  datatype Policy = Skip | Clip | Other

  datatype Tokens = Tokens(count: string -> nat, clip: (string, int) -> string, prompt: nat, model: int)

  /** What is left of the model's window for the patches of one prompt. */
  function Budget(t: Tokens): int { t.model - SOFT_THRESHOLD - t.prompt }

  function Weight(chunk: seq<Item>): nat {
    if chunk == [] then 0 else chunk[0].tokens + Weight(chunk[1..])
  }

  lemma {:induction false} WeightConcat(a: seq<Item>, b: seq<Item>)
    ensures Weight(a + b) == Weight(a) + Weight(b)
  {
    if a == [] {
      assert a + b == b;
    } else {
      assert (a + b)[1..] == a[1..] + b;
      WeightConcat(a[1..], b);
    }
  }

  // ----- which texts are packed -----

  /** The text a file contributes, or none; an oversized one is dropped or clipped and counted again. */
  function Eligible(t: Tokens, policy: Policy, file: Option<string>): seq<Item> {
    if file.None? || file.value == "" then []
    else if t.count(file.value) <= Budget(t) then [Item(file.value, t.count(file.value))]
    else if !policy.Clip? then []
    else
      var clipped := t.clip(file.value, Budget(t));
      if clipped == "" || t.count(clipped) > Budget(t) then [] else [Item(clipped, t.count(clipped))]
  }

  function AllEligible(t: Tokens, policy: Policy, files: seq<Option<string>>): seq<Item> {
    if files == [] then [] else Eligible(t, policy, files[0]) + AllEligible(t, policy, files[1..])
  }

  ghost predicate AllFit(items: seq<Item>, budget: int) {
    forall k :: 0 <= k < |items| ==> items[k].tokens <= budget
  }

  lemma {:induction false} EligibleFits(t: Tokens, policy: Policy, files: seq<Option<string>>)
    ensures AllFit(AllEligible(t, policy, files), Budget(t))
    ensures forall k :: 0 <= k < |AllEligible(t, policy, files)| ==> AllEligible(t, policy, files)[k].text != ""
  {
    if files != [] {
      EligibleFits(t, policy, files[1..]);
    }
  }

  // ----- what has to be packed -----

  /** A text that leaves the answer its room beside the prompt. */
  predicate FitsAlone(t: Tokens, text: string) { t.prompt + t.count(text) + SOFT_THRESHOLD <= t.model }

  /**
   A non-empty patch that fits goes in as it is; one that does not goes in clipped to the room there is, under
   the clipping policy alone, when something is left of it that fits; nothing else goes in.
   */
  predicate Contributes(t: Tokens, policy: Policy, file: Option<string>, item: Item) {
    && file.Some? && file.value != "" && item.tokens == t.count(item.text)
    && if FitsAlone(t, file.value) then item.text == file.value
       else
         && policy == Clip && item.text == t.clip(file.value, t.model - SOFT_THRESHOLD - t.prompt)
         && item.text != "" && FitsAlone(t, item.text)
  }

  ghost predicate HasPatch(t: Tokens, policy: Policy, file: Option<string>) {
    exists item :: Contributes(t, policy, file, item)
  }

  lemma EligibleContributes(t: Tokens, policy: Policy, file: Option<string>)
    ensures var e := Eligible(t, policy, file);
            && (HasPatch(t, policy, file) <==> e != [])
            && (e != [] ==> |e| == 1 && Contributes(t, policy, file, e[0]))
            && (forall item :: Contributes(t, policy, file, item) ==> e == [item])
  {
    var e := Eligible(t, policy, file);
    if e != [] {
      assert Contributes(t, policy, file, e[0]);
    }
  }

  /** Item `k` is what file `from[k]` contributes; the files stand in their order. */
  ghost predicate Sourced(t: Tokens, policy: Policy, files: seq<Option<string>>, items: seq<Item>, from: seq<nat>) {
    && |from| == |items| && Rising(from)
    && (forall k :: 0 <= k < |from| ==> SourcedAt(t, policy, files, items[k], from[k]))
  }

  predicate SourcedAt(t: Tokens, policy: Policy, files: seq<Option<string>>, item: Item, i: nat) {
    i < |files| && Contributes(t, policy, files[i], item)
  }

  ghost predicate Rising(from: seq<nat>) { forall j, k :: 0 <= j < k < |from| ==> from[j] < from[k] }

  /** Every file that has something to contribute is packed, once and in order. */
  lemma {:induction false} EveryPatchIsEligible(t: Tokens, policy: Policy, files: seq<Option<string>>)
    returns (from: seq<nat>)
    ensures Sourced(t, policy, files, AllEligible(t, policy, files), from)
    ensures forall i :: 0 <= i < |files| ==> (i in from <==> HasPatch(t, policy, files[i]))
  {
    hide AllEligible, Eligible, Contributes, HasPatch, Sourced;
    from := [];
    if files == [] {
      NothingEligible(t, policy);
    } else {
      var n := |files| - 1;
      var front := EveryPatchIsEligible(t, policy, files[..n]);
      EligibleContributes(t, policy, files[n]);
      LastEligible(t, policy, files);
      var items, e := AllEligible(t, policy, files[..n]), Eligible(t, policy, files[n]);
      SourcedGrows(t, policy, files, items, front, e);
      from := if e == [] then front else front + [n];
      FrontStays(t, policy, files, front);
      forall i | 0 <= i < |files| ensures i in from <==> HasPatch(t, policy, files[i]) {
        if i < n {
          assert files[..n][i] == files[i];
        }
      }
    }
  }

  lemma NothingEligible(t: Tokens, policy: Policy)
    ensures AllEligible(t, policy, []) == [] && Sourced(t, policy, [], [], [])
  {}

  /** Positions of the front are in front of the last file. */
  lemma FrontStays(t: Tokens, policy: Policy, files: seq<Option<string>>, front: seq<nat>)
    requires files != []
    requires Sourced(t, policy, files[..|files| - 1], AllEligible(t, policy, files[..|files| - 1]), front)
    ensures |files| - 1 !in front
  {
    hide AllEligible, Contributes, Rising;
  }

  lemma SourcedGrows(
      t: Tokens, policy: Policy, files: seq<Option<string>>, items: seq<Item>, front: seq<nat>, e: seq<Item>)
    requires files != [] && Sourced(t, policy, files[..|files| - 1], items, front)
    requires e == [] || (|e| == 1 && Contributes(t, policy, files[|files| - 1], e[0]))
    ensures Sourced(t, policy, files, items + e, if e == [] then front else front + [|files| - 1])
  {
    hide Contributes, Rising, SourcedAt;
    var n := |files| - 1;
    if e == [] {
      assert items + e == items;
    } else {
      LastRises(t, policy, files, items, front);
    }
    forall k | 0 <= k < |front| ensures SourcedAt(t, policy, files, items[k], front[k]) {
      StillSourced(t, policy, files, items[k], front[k]);
    }
    LastSourced(t, policy, files, e);
  }

  lemma StillSourced(t: Tokens, policy: Policy, files: seq<Option<string>>, item: Item, i: nat)
    requires files != [] && SourcedAt(t, policy, files[..|files| - 1], item, i)
    ensures SourcedAt(t, policy, files, item, i)
  {
    hide Contributes;
  }

  lemma LastSourced(t: Tokens, policy: Policy, files: seq<Option<string>>, e: seq<Item>)
    requires files != [] && (e == [] || (|e| == 1 && Contributes(t, policy, files[|files| - 1], e[0])))
    ensures e != [] ==> SourcedAt(t, policy, files, e[0], |files| - 1)
  {
    hide Contributes;
  }

  lemma LastRises(t: Tokens, policy: Policy, files: seq<Option<string>>, items: seq<Item>, front: seq<nat>)
    requires files != [] && Sourced(t, policy, files[..|files| - 1], items, front)
    ensures Rising(front + [|files| - 1])
  {
    hide Contributes;
    assert forall k :: 0 <= k < |front| ==> SourcedAt(t, policy, files[..|files| - 1], items[k], front[k]);
  }

  lemma {:induction false} LastEligible(t: Tokens, policy: Policy, files: seq<Option<string>>)
    requires files != []
    ensures var n := |files| - 1;
            AllEligible(t, policy, files) == AllEligible(t, policy, files[..n]) + Eligible(t, policy, files[n])
  {
    hide Eligible;
    var n := |files| - 1;
    if n == 0 {
      Reassoc(Eligible(t, policy, files[0]), [], []);
    } else {
      LastEligible(t, policy, files[1..]);
      assert files[1..][..n - 1] == files[..n][1..];
      Reassoc(Eligible(t, policy, files[0]), AllEligible(t, policy, files[1..][..n - 1]),
              Eligible(t, policy, files[n]));
    }
  }

  // ----- next-fit -----

  function Pack(items: seq<Item>, open: seq<Item>, budget: int): seq<seq<Item>>
    decreases |items|
  {
    if items == [] then (if open == [] then [] else [open])
    else if open != [] && Weight(open) + items[0].tokens > budget then
      [open] + Pack(items[1..], [items[0]], budget)
    else Pack(items[1..], open + [items[0]], budget)
  }

  function Capped(chunks: seq<seq<Item>>, calls: int): seq<seq<Item>> {
    if calls <= 0 then [] else if |chunks| <= calls then chunks else chunks[..calls]
  }

  function Flat(chunks: seq<seq<Item>>): seq<Item> {
    if chunks == [] then [] else chunks[0] + Flat(chunks[1..])
  }

  /** Chunks that fit and are not empty, each closed only because the next item did not fit it. */
  ghost predicate IsNextFit(chunks: seq<seq<Item>>, items: seq<Item>, budget: int) {
    && Flat(chunks) == items
    && (forall k :: 0 <= k < |chunks| ==> chunks[k] != [] && Weight(chunks[k]) <= budget)
    && (forall k :: 0 <= k < |chunks| - 1 ==> Weight(chunks[k]) + chunks[k + 1][0].tokens > budget)
  }

  lemma PackStartsWithOpen(items: seq<Item>, open: seq<Item>, budget: int)
    requires open != []
    ensures Pack(items, open, budget) != [] && Pack(items, open, budget)[0] != []
    ensures Pack(items, open, budget)[0][0] == open[0]
    decreases |items|
  {}

  lemma WeightOne(x: Item)
    ensures Weight([x]) == x.tokens
  {
    assert [x][1..] == [];
  }

  lemma {:induction false} PackIsNextFit(items: seq<Item>, open: seq<Item>, budget: int)
    requires AllFit(items, budget) && (open != [] ==> Weight(open) <= budget)
    ensures IsNextFit(Pack(items, open, budget), open + items, budget)
    decreases |items|
  {
    if items == [] {
      assert open + items == open;
      if open != [] {
        assert Flat([open]) == open + Flat([][..]);
      }
    } else if open != [] && Weight(open) + items[0].tokens > budget {
      WeightOne(items[0]);
      PackIsNextFit(items[1..], [items[0]], budget);
      PackStartsWithOpen(items[1..], [items[0]], budget);
      var rest := Pack(items[1..], [items[0]], budget);
      assert ([open] + rest)[1..] == rest;
      assert [items[0]] + items[1..] == items;
    } else {
      WeightConcat(open, [items[0]]);
      WeightOne(items[0]);
      PackIsNextFit(items[1..], open + [items[0]], budget);
      assert open + [items[0]] + items[1..] == open + items;
    }
  }

  // ----- next-fit is determined by what it promises -----

  lemma {:induction false} PackPeels(first: seq<Item>, rest: seq<Item>, open: seq<Item>, budget: int)
    requires open + first != [] && Weight(open + first) <= budget
    requires rest == [] || Weight(open + first) + rest[0].tokens > budget
    ensures Pack(first + rest, open, budget) == [open + first] + Pack(rest, [], budget)
    decreases |first|
  {
    if first == [] {
      assert open + first == open && first + rest == rest;
      if rest != [] {
        assert [] + [rest[0]] == [rest[0]];
      }
    } else {
      assert open + first == open + [first[0]] + first[1..];
      WeightConcat(open + [first[0]], first[1..]);
      WeightConcat(open, [first[0]]);
      WeightOne(first[0]);
      assert (first + rest)[1..] == first[1..] + rest;
      PackPeels(first[1..], rest, open + [first[0]], budget);
    }
  }

  /** There is only one next-fit chunking, and it is the one the loop computes. */
  lemma {:induction false} NextFitIsUnique(chunks: seq<seq<Item>>, items: seq<Item>, budget: int)
    requires IsNextFit(chunks, items, budget)
    ensures chunks == Pack(items, [], budget)
    decreases |chunks|
  {
    if chunks != [] {
      var rest := chunks[1..];
      assert forall k :: 0 <= k < |rest| ==> rest[k] == chunks[k + 1];
      NextFitIsUnique(rest, Flat(rest), budget);
      if rest != [] {
        assert Flat(rest)[0] == rest[0][0];
      }
      assert [] + chunks[0] == chunks[0];
      PackPeels(chunks[0], Flat(rest), [], budget);
    }
  }

  // ----- how good it is -----

  function Total(chunks: seq<seq<Item>>): nat { Weight(Flat(chunks)) }

  lemma {:induction false} PairsOverflow(chunks: seq<seq<Item>>, items: seq<Item>, budget: int)
    requires IsNextFit(chunks, items, budget) && |chunks| >= 2
    ensures Weight(items) > (|chunks| / 2) * budget
    decreases |chunks|
  {
    var rest := chunks[2..];
    assert chunks[1..][1..] == rest;
    assert Flat(chunks) == chunks[0] + (chunks[1] + Flat(rest));
    WeightConcat(chunks[0], chunks[1] + Flat(rest));
    WeightConcat(chunks[1], Flat(rest));
    assert Weight(chunks[0]) + Weight(chunks[1]) > budget;
    if |chunks| >= 4 {
      assert forall k :: 0 <= k < |rest| ==> rest[k] == chunks[k + 2];
      PairsOverflow(rest, Flat(rest), budget);
      HalfStep(|rest|, budget);
    }
  }

  lemma HalfStep(n: nat, b: int)
    ensures ((n + 2) / 2) * b == (n / 2) * b + b
  {
    assert (n + 2) / 2 == n / 2 + 1;
  }

  /** Any way to share the items out over prompts that fit. */
  ghost predicate Shares(chunks: seq<seq<Item>>, items: seq<Item>, budget: int) {
    && multiset(Flat(chunks)) == multiset(items)
    && (forall k :: 0 <= k < |chunks| ==> Weight(chunks[k]) <= budget)
  }

  lemma {:induction false} WeightOfMultiset(a: seq<Item>, b: seq<Item>)
    requires multiset(a) == multiset(b)
    ensures Weight(a) == Weight(b)
    decreases |a|
  {
    if a == [] {
      assert |multiset(b)| == 0;
    } else {
      hide Weight;
      var k := Position(a, b);
      var c := b[..k] + b[k + 1..];
      WithoutFirst(a, b, k);
      Parts(b, k);
      HeadTail(a);
      WeightOfMultiset(a[1..], c);
      WeightConcat(b[..k], [b[k]] + b[k + 1..]);
      WeightConcat([b[k]], b[k + 1..]);
      WeightConcat(b[..k], b[k + 1..]);
      WeightConcat([a[0]], a[1..]);
      WeightOne(b[k]);
    }
  }

  lemma Position(a: seq<Item>, b: seq<Item>) returns (k: nat)
    requires a != [] && multiset(a) == multiset(b)
    ensures k < |b| && b[k] == a[0]
  {
    assert a[0] in multiset(b);
    k :| 0 <= k < |b| && b[k] == a[0];
  }

  lemma Parts(a: seq<Item>, k: nat)
    requires k < |a|
    ensures a == a[..k] + ([a[k]] + a[k + 1..])
  {}

  lemma CountParts(e: Item, before: seq<Item>, after: seq<Item>, x: Item)
    ensures multiset(before + ([e] + after))[x] == multiset(before + after)[x] + (if x == e then 1 else 0)
  {}

  lemma CountWithout(b: seq<Item>, k: nat, x: Item)
    requires k < |b|
    ensures multiset(b)[x] == multiset(b[..k] + b[k + 1..])[x] + (if x == b[k] then 1 else 0)
  {
    Parts(b, k);
    CountParts(b[k], b[..k], b[k + 1..], x);
  }

  lemma WithoutFirst(a: seq<Item>, b: seq<Item>, k: nat)
    requires a != [] && k < |b| && b[k] == a[0] && multiset(a) == multiset(b)
    ensures multiset(a[1..]) == multiset(b[..k] + b[k + 1..])
  {
    assert a[..0] + a[1..] == a[1..];
    forall x: Item ensures multiset(a[1..])[x] == multiset(b[..k] + b[k + 1..])[x] {
      CountWithout(a, 0, x);
      CountWithout(b, k, x);
    }
  }

  lemma {:induction false} ShareWeight(chunks: seq<seq<Item>>, budget: int)
    requires forall k :: 0 <= k < |chunks| ==> Weight(chunks[k]) <= budget
    ensures Total(chunks) <= |chunks| * budget
  {
    if chunks != [] {
      hide Weight;
      WeightConcat(chunks[0], Flat(chunks[1..]));
      ShareWeight(chunks[1..], budget);
      OneMore(|chunks[1..]|, budget);
    } else {
      WeightEmpty();
    }
  }

  lemma OneMore(n: nat, b: int)
    ensures (n + 1) * b == n * b + b
  {}

  /** Next-fit needs fewer than twice the prompts of the best possible sharing. */
  lemma NextFitIsTwoCompetitive(chunks: seq<seq<Item>>, other: seq<seq<Item>>, items: seq<Item>, budget: int)
    requires IsNextFit(chunks, items, budget) && items != [] && Shares(other, items, budget)
    ensures |chunks| < 2 * |other|
  {
    ShareWeight(other, budget);
    WeightOfMultiset(Flat(other), items);
    assert other != [] by {
      assert |multiset(items)| == |items|;
    }
    assert chunks != [] && budget >= 0;
    if |chunks| >= 2 {
      PairsOverflow(chunks, items, budget);
      if |chunks| >= 2 * |other| {
        Monotone(|other|, |chunks| / 2, budget);
      }
    }
  }

  lemma Monotone(a: nat, b: nat, c: int)
    requires a <= b && c >= 0
    ensures a * c <= b * c
  {
    assert b * c == a * c + (b - a) * c;
  }

  // ----- the loop -----

  lemma {:induction false} FlatConcat(a: seq<seq<Item>>, b: seq<seq<Item>>)
    ensures Flat(a + b) == Flat(a) + Flat(b)
  {
    if a == [] {
      assert a + b == b;
    } else {
      assert (a + b)[1..] == a[1..] + b;
      FlatConcat(a[1..], b);
    }
  }

  /**
   The chunks are the first `calls` of the one next-fit chunking of the eligible files, in order;
   nothing is cut off when fewer chunks than calls come out.
   */
  lemma ChunkingPromises(t: Tokens, policy: Policy, files: seq<Option<string>>, calls: int)
    ensures var items := AllEligible(t, policy, files);
            var chunks := Capped(Pack(items, [], Budget(t)), calls);
            && |chunks| <= (if calls > 0 then calls else 0)
            && Flat(chunks) <= items
            && (|chunks| < calls ==> Flat(chunks) == items)
            && IsNextFit(chunks, Flat(chunks), Budget(t))
  {
    hide Pack, Weight, AllEligible;
    var items := AllEligible(t, policy, files);
    var all := Pack(items, [], Budget(t));
    EligibleFits(t, policy, files);
    PackIsNextFit(items, [], Budget(t));
    assert [] + items == items;
    CappedIsNextFit(all, items, Budget(t), calls);
  }

  /**
   The same against the files themselves: what is packed is what the files contribute, in their order, and a file
   with something to contribute is missing only when every call is used up, and then it comes after all packed ones.
   */
  lemma PackedIsContributed(t: Tokens, policy: Policy, files: seq<Option<string>>, calls: int) returns (from: seq<nat>)
    ensures var chunks := Capped(Pack(AllEligible(t, policy, files), [], Budget(t)), calls);
            && Sourced(t, policy, files, Flat(chunks), from)
            && (forall i :: 0 <= i < |files| && i in from ==> HasPatch(t, policy, files[i]))
            && (forall i :: 0 <= i < |files| && HasPatch(t, policy, files[i]) && i !in from ==>
                  |chunks| >= calls && forall k :: 0 <= k < |from| ==> from[k] < i)
  {
    hide Pack, Capped, AllEligible, HasPatch, Contributes, SourcedAt, IsNextFit;
    var chunks := Capped(Pack(AllEligible(t, policy, files), [], Budget(t)), calls);
    ChunkingPromises(t, policy, files, calls);
    var all := EveryPatchIsEligible(t, policy, files);
    var n := |Flat(chunks)|;
    from := all[..n];
    assert forall j :: 0 <= j < n ==> from[j] == all[j] && all[j] in from;
    forall i | 0 <= i < |files| && HasPatch(t, policy, files[i]) && i !in from
      ensures |chunks| >= calls && forall k :: 0 <= k < |from| ==> from[k] < i
    {
      assert i in all;
      var j :| 0 <= j < |all| && all[j] == i;
    }
  }

  lemma CappedIsNextFit(all: seq<seq<Item>>, items: seq<Item>, budget: int, calls: int)
    requires IsNextFit(all, items, budget)
    ensures var chunks := Capped(all, calls);
            && |chunks| <= (if calls > 0 then calls else 0)
            && Flat(chunks) <= items
            && (|chunks| < calls ==> Flat(chunks) == items)
            && IsNextFit(chunks, Flat(chunks), budget)
  {
    hide Weight, Flat;
    var chunks := Capped(all, calls);
    assert all == chunks + all[|chunks|..];
    FlatConcat(chunks, all[|chunks|..]);
    FlatNothing();
  }

  lemma FlatNothing()
    ensures Flat([]) == []
  {}

  /** The text and token count a file enters the packing with; an empty text is never placed. */
  method PreparePatch(t: Tokens, policy: Policy, file: Option<string>) returns (patch: string, tokens: nat)
    ensures Eligible(t, policy, file) == if patch == "" then [] else [Item(patch, tokens)]
    ensures patch != "" ==> tokens <= Budget(t) && Contributes(t, policy, file, Item(patch, tokens))
    ensures patch == "" ==> !HasPatch(t, policy, file)
  {
    if file.None? || file.value == "" {
      return "", 0;
    }
    patch, tokens := file.value, t.count(file.value);
    if t.prompt + tokens > t.model - SOFT_THRESHOLD {
      if !policy.Clip? {
        return "", 0;
      }
      patch := t.clip(patch, t.model - SOFT_THRESHOLD - t.prompt);
      tokens := t.count(patch);
      if patch != "" && t.prompt + tokens > t.model - SOFT_THRESHOLD {
        return "", 0;
      }
    }
  }

  method PackIntoChunks(t: Tokens, policy: Policy, files: seq<Option<string>>, calls: int)
    returns (chunks: seq<seq<Item>>)
    ensures chunks == Capped(Pack(AllEligible(t, policy, files), [], Budget(t)), calls)
  {
    hide Eligible, Weight, Pack;
    ghost var items := AllEligible(t, policy, files);
    chunks := [];
    var patches: seq<Item> := [];
    var total: int := t.prompt;
    var call := 1;
    var i := 0;
    assert files[0..] == files;
    WeightEmpty();
    while i < |files|
      invariant 0 <= i <= |files|
      invariant |chunks| == call - 1 && (calls > 0 ==> call <= calls) && (calls <= 0 ==> call == 1 && patches == [])
      invariant total == t.prompt + Weight(patches)
      invariant Pack(items, [], Budget(t)) == chunks + Pack(AllEligible(t, policy, files[i..]), patches, Budget(t))
    {
      if call > calls {
        return [];
      }
      ghost var after := AllEligible(t, policy, files[i + 1..]);
      assert files[i..][1..] == files[i + 1..];
      var patch, tokens := PreparePatch(t, policy, files[i]);
      i := i + 1;
      ghost var item := Item(patch, tokens);
      if patch == "" {
        assert [] + after == after;
        continue;
      }
      PackStep(item, after, patches, Budget(t));
      if total + tokens > t.model - SOFT_THRESHOLD {
        PackStep(item, after, [], Budget(t));
        Reassoc(chunks, [patches], Pack(after, [item], Budget(t)));
        chunks := chunks + [patches];
        patches := [];
        total := t.prompt;
        call := call + 1;
        if call > calls {
          CutOff(chunks, Pack(after, [item], Budget(t)));
          return;
        }
      }
      WeightConcat(patches, [Item(patch, tokens)]);
      WeightOne(Item(patch, tokens));
      patches := patches + [Item(patch, tokens)];
      total := total + tokens;
    }
    assert files[|files|..] == [] && chunks + [] == chunks;
    PackNothing(patches, Budget(t));
    if patches != [] {
      chunks := chunks + [patches];
    }
  }

  lemma PackStep(item: Item, after: seq<Item>, open: seq<Item>, budget: int)
    ensures Pack([item] + after, open, budget)
            == if open != [] && Weight(open) + item.tokens > budget then [open] + Pack(after, [item], budget)
               else Pack(after, open + [item], budget)
    ensures [] + [item] == [item]
  {
    assert ([item] + after)[1..] == after;
  }

  lemma PackNothing(open: seq<Item>, budget: int)
    ensures Pack([], open, budget) == if open == [] then [] else [open]
  {}

  lemma WeightEmpty()
    ensures Weight([]) == 0
  {}

  lemma CutOff(chunks: seq<seq<Item>>, rest: seq<seq<Item>>)
    requires chunks != []
    ensures Capped(chunks + rest, |chunks|) == chunks
  {}
}
