/**
 What the two passes over the related files come to, decision by decision (pr_agent/algo/related_files.py).
 */
module RelatedPasses {
  import opened RelatedFiles
  import opened RelatedText
  import opened Sequences
  import opened Wrappers

  /** The blocks of the files that were taken whole, in order. */
  function Wholes(files: seq<File>, taken: seq<bool>): seq<Block>
    requires |files| == |taken|
  {
    if files == [] then []
    else
      (if taken[0] then [WholeBlock(files[0], FenceOf(files[0].content))] else []) + Wholes(files[1..], taken[1..])
  }

  /** The other files, in order. */
  function Others(files: seq<File>, taken: seq<bool>): seq<File>
    requires |files| == |taken|
  {
    if files == [] then [] else (if taken[0] then [] else [files[0]]) + Others(files[1..], taken[1..])
  }

  ghost predicate Possible(others: seq<File>, cuts: seq<Option<nat>>) {
    && |others| == |cuts|
    && forall k :: 0 <= k < |cuts| && cuts[k].Some? ==> cuts[k].value <= |SplitLines(others[k].content)|
  }

  /** The blocks of the files that were cut, in order. */
  function Cuts(others: seq<File>, cuts: seq<Option<nat>>): seq<Block>
    requires Possible(others, cuts)
  {
    if others == [] then []
    else
      assert Possible(others[1..], cuts[1..]) by { PossibleTail(others, cuts); }
      (if cuts[0].Some? then [CutBlock(others[0], FenceOf(others[0].content), cuts[0].value)] else [])
      + Cuts(others[1..], cuts[1..])
  }

  lemma PossibleTail(others: seq<File>, cuts: seq<Option<nat>>)
    requires Possible(others, cuts) && others != []
    ensures Possible(others[1..], cuts[1..])
  {
    hide SplitLines;
  }

  lemma PossiblePrefix(others: seq<File>, cuts: seq<Option<nat>>, k: nat)
    requires Possible(others, cuts) && k <= |others|
    ensures Possible(others[..k], cuts[..k])
  {
    hide SplitLines;
  }

  /** No more lines than allowed, nor more tokens where there is a limit and a counter; a failed count is too many. */
  predicate Allowed(b: Budget, blocks: seq<Block>) {
    var text := Assemble(b.intro, blocks);
    && |SplitLines(text)| <= b.maxLines
    && (b.maxTokens == 0 || b.count.None? || (b.count.value(text).Some? && b.count.value(text).value <= b.maxTokens))
  }

  lemma AllowedIs(b: Budget, blocks: seq<Block>, next: Block)
    ensures Allowed(b, blocks + [next]) <==> FitsWith(b, blocks, next)
  {
    hide SplitLines, Assemble;
  }

  /** File `k` goes in whole exactly when it fits beside the whole files in front of it. */
  ghost predicate WholeAt(b: Budget, files: seq<File>, blocks: seq<Block>, taken: seq<bool>, k: nat)
    requires |files| == |taken| && k < |files|
  {
    taken[k]
    <==> Allowed(b, blocks + Wholes(files[..k], taken[..k]) + [WholeBlock(files[k], FenceOf(files[k].content))])
  }

  /** File `k` of the others gets the best cut beside all whole files and the cuts in front of it. */
  ghost predicate CutAt(b: Budget, others: seq<File>, blocks: seq<Block>, cuts: seq<Option<nat>>, k: nat)
    requires Possible(others, cuts) && k < |others|
  {
    PossiblePrefix(others, cuts, k);
    BestCut(b, blocks + Cuts(others[..k], cuts[..k]), others[k], FenceOf(others[k].content), cuts[k])
  }

  lemma {:induction false} WholePass(b: Budget, files: seq<File>, blocks: seq<Block>) returns (taken: seq<bool>)
    ensures |taken| == |files|
    ensures PlaceWhole(b, files, blocks) == FirstPass(blocks + Wholes(files, taken), Others(files, taken))
    ensures forall k :: 0 <= k < |files| ==> WholeAt(b, files, blocks, taken, k)
    decreases |files|
  {
    hide FitsWith, WholeBlock, Allowed;
    if files == [] {
      taken := [];
      Reassoc(blocks, [], []);
    } else {
      var whole := WholeBlock(files[0], FenceOf(files[0].content));
      AllowedIs(b, blocks, whole);
      var fits := FitsWith(b, blocks, whole);
      var now := if fits then blocks + [whole] else blocks;
      var rest := WholePass(b, files[1..], now);
      taken := [fits] + rest;
      assert taken[1..] == rest;
      Reassoc(blocks, [whole], Wholes(files[1..], rest));
      Reassoc(Wholes(files[1..], rest), [], []);
      Reassoc(Others(files[1..], rest), [], []);
      forall k | 0 <= k < |files| ensures WholeAt(b, files, blocks, taken, k) {
        if k == 0 {
          NoneTaken();
          assert files[..0] == [] && taken[..0] == [];
          Reassoc(blocks, [], []);
        } else {
          assert WholeAt(b, files[1..], now, rest, k - 1);
          WholesStep(files, taken, k);
          Reassoc(blocks, [whole], Wholes(files[1..][..k - 1], rest[..k - 1]));
          Reassoc(Wholes(files[1..][..k - 1], rest[..k - 1]), [], []);
        }
      }
    }
  }

  lemma NoneTaken()
    ensures Wholes([], []) == []
  {}

  lemma WholesStep(files: seq<File>, taken: seq<bool>, k: nat)
    requires |files| == |taken| && 1 <= k <= |files|
    ensures Wholes(files[..k], taken[..k])
            == (if taken[0] then [WholeBlock(files[0], FenceOf(files[0].content))] else [])
               + Wholes(files[1..][..k - 1], taken[1..][..k - 1])
  {
    hide WholeBlock, FenceOf;
    assert files[..k][0] == files[0] && files[..k][1..] == files[1..][..k - 1];
    assert taken[..k][0] == taken[0] && taken[..k][1..] == taken[1..][..k - 1];
  }

  lemma {:induction false} CutPass(b: Budget, others: seq<File>, blocks: seq<Block>, result: seq<Block>)
    returns (cuts: seq<Option<nat>>)
    requires PlacesCuts(b, others, blocks, result)
    ensures Possible(others, cuts) && result == blocks + Cuts(others, cuts)
    ensures forall k :: 0 <= k < |others| ==> CutAt(b, others, blocks, cuts, k)
    decreases |others|
  {
    hide BestCut, CutBlock, SplitLines;
    if others == [] {
      cuts := [];
      Reassoc(blocks, [], []);
    } else {
      var f := others[0];
      var best := FirstCut(b, others, blocks, result);
      var rest := CutPass(b, others[1..], WithCut(blocks, f, best), result);
      cuts := [best] + rest;
      MorePossible(others, best, rest);
      var first := if best.Some? then [CutBlock(f, FenceOf(f.content), best.value)] else [];
      assert cuts[1..] == rest;
      Reassoc(blocks, first, Cuts(others[1..], rest));
      Reassoc(blocks, [], []);
      forall k | 0 <= k < |others| ensures CutAt(b, others, blocks, cuts, k) {
        if k == 0 {
          NoneCut(others, cuts);
          Reassoc(blocks, [], []);
        } else {
          assert CutAt(b, others[1..], WithCut(blocks, f, best), rest, k - 1);
          CutsStep(others, cuts, k);
          PossiblePrefix(others[1..], rest, k - 1);
          Reassoc(blocks, first, Cuts(others[1..][..k - 1], rest[..k - 1]));
        }
      }
    }
  }

  lemma FirstCut(b: Budget, others: seq<File>, blocks: seq<Block>, result: seq<Block>) returns (best: Option<nat>)
    requires PlacesCuts(b, others, blocks, result) && others != []
    ensures BestCut(b, blocks, others[0], FenceOf(others[0].content), best)
    ensures best.Some? ==> best.value <= |SplitLines(others[0].content)|
    ensures PlacesCuts(b, others[1..], WithCut(blocks, others[0], best), result)
  {
    hide CutFits, DownwardClosed, SplitLines;
    var f := others[0];
    best := FirstCutIs(b, others, blocks, result);
    BestCutIsCut(b, blocks, f, FenceOf(f.content), best);
  }

  lemma FirstCutIs(b: Budget, others: seq<File>, blocks: seq<Block>, result: seq<Block>) returns (best: Option<nat>)
    requires PlacesCuts(b, others, blocks, result) && others != []
    ensures BestCut(b, blocks, others[0], FenceOf(others[0].content), best)
    ensures PlacesCuts(b, others[1..], WithCut(blocks, others[0], best), result)
  {
    hide FitsWith, SplitLines, DownwardClosed;
    var f := others[0];
    best :| BestCut(b, blocks, f, FenceOf(f.content), best)
      && PlacesCuts(b, others[1..], WithCut(blocks, f, best), result);
  }

  lemma MorePossible(others: seq<File>, best: Option<nat>, rest: seq<Option<nat>>)
    requires others != [] && Possible(others[1..], rest)
    requires best.Some? ==> best.value <= |SplitLines(others[0].content)|
    ensures Possible(others, [best] + rest)
  {
    hide SplitLines;
    assert forall k :: 1 <= k < |others| ==> others[k] == others[1..][k - 1];
  }

  lemma NoneCut(others: seq<File>, cuts: seq<Option<nat>>)
    requires Possible(others, cuts)
    ensures Possible(others[..0], cuts[..0]) && Cuts(others[..0], cuts[..0]) == []
  {
    hide SplitLines;
  }

  lemma CutsStep(others: seq<File>, cuts: seq<Option<nat>>, k: nat)
    requires Possible(others, cuts) && 1 <= k <= |others|
    ensures Possible(others[..k], cuts[..k]) && Possible(others[1..][..k - 1], cuts[1..][..k - 1])
    ensures Cuts(others[..k], cuts[..k])
            == (if cuts[0].Some? then [CutBlock(others[0], FenceOf(others[0].content), cuts[0].value)] else [])
               + Cuts(others[1..][..k - 1], cuts[1..][..k - 1])
  {
    hide SplitLines, CutBlock, FenceOf;
    PossiblePrefix(others, cuts, k);
    PossibleTail(others, cuts);
    PossiblePrefix(others[1..], cuts[1..], k - 1);
    assert others[..k][0] == others[0] && others[..k][1..] == others[1..][..k - 1];
    assert cuts[..k][0] == cuts[0] && cuts[..k][1..] == cuts[1..][..k - 1];
  }

  /**
   The blocks rendered are the files that fit whole beside the whole ones in front of them, and then, of every other
   file, the best cut beside all of those and the cuts in front of it.
   */
  lemma RendersExactly(b: Budget, files: seq<File>, result: seq<Block>)
    returns (taken: seq<bool>, cuts: seq<Option<nat>>)
    requires Renders(b, files, result)
    ensures |taken| == |files| && Possible(Others(files, taken), cuts)
    ensures result == Wholes(files, taken) + Cuts(Others(files, taken), cuts)
    ensures forall k :: 0 <= k < |files| ==> WholeAt(b, files, [], taken, k)
    ensures forall k :: 0 <= k < |cuts| ==> CutAt(b, Others(files, taken), Wholes(files, taken), cuts, k)
  {
    hide WholeAt, CutAt, SplitLines, Cuts;
    taken := WholePass(b, files, []);
    Reassoc(Wholes(files, taken), [], []);
    cuts := CutPass(b, Others(files, taken), Wholes(files, taken), result);
  }
}
