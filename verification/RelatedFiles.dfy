/**
 Rendering related files within a budget (pr_agent/algo/related_files.py): the fence loop, the search
 for the longest prefix that fits, and the two passes.
 */
module RelatedFiles {
  import opened Wrappers
  import opened RelatedText

  const FENCE := "`````"
  const TRUNCATION_MARKER := "...(truncated)..."

  /** A counter may be absent, and may fail on a text; a zero token limit means none. */
  datatype Budget = Budget(intro: seq<string>, maxLines: int, maxTokens: int, count: Option<string -> Option<nat>>)

  predicate Fits(b: Budget, text: string) {
    && |SplitLines(text)| <= b.maxLines
    && (b.maxTokens != 0 && b.count.Some? ==>
          b.count.value(text).Some? && b.count.value(text).value <= b.maxTokens)
  }

  datatype File = File(path: string, content: string)

  // ----- fences -----

  predicate AllTicks(s: string) { forall k :: 0 <= k < |s| ==> s[k] == '`' }

  /** The shortest run of at least five backticks that the content does not contain. */
  ghost predicate ShortestFence(content: string, fence: string) {
    && AllTicks(fence) && |fence| >= |FENCE| && !Contains(content, fence)
    && (forall shorter :: AllTicks(shorter) && |FENCE| <= |shorter| < |fence| ==> Contains(content, shorter))
  }

  /** The loop ends because a text cannot contain a fence longer than itself. */
  function WidenFence(content: string, fence: string): string
    decreases |content| - |fence|
  {
    if Contains(content, fence) then WidenFence(content, fence + "`") else fence
  }

  function FenceOf(content: string): string { WidenFence(content, FENCE) }

  method FenceFor(content: string) returns (fence: string)
    ensures fence == FenceOf(content)
  {
    fence := FENCE;
    while Contains(content, fence)
      invariant WidenFence(content, fence) == FenceOf(content)
      decreases |content| - |fence|
    {
      fence := fence + "`";
    }
  }

  lemma TicksAreEqual(a: string, b: string)
    requires AllTicks(a) && AllTicks(b) && |a| == |b|
    ensures a == b
  {}

  lemma {:induction false} WidenedIsShortest(content: string, fence: string)
    requires AllTicks(fence) && |fence| >= |FENCE|
    requires forall shorter :: AllTicks(shorter) && |FENCE| <= |shorter| < |fence| ==> Contains(content, shorter)
    ensures ShortestFence(content, WidenFence(content, fence))
    decreases |content| - |fence|
  {
    hide Contains;
    if Contains(content, fence) {
      ContainedIsShorter(content, fence);
      forall shorter | AllTicks(shorter) && |FENCE| <= |shorter| < |fence| + 1
        ensures Contains(content, shorter)
      {
        if |shorter| == |fence| {
          TicksAreEqual(shorter, fence);
        }
      }
      WidenedIsShortest(content, fence + "`");
    }
  }

  lemma ContainedIsShorter(content: string, fence: string)
    requires Contains(content, fence)
    ensures |fence| <= |content|
  {}

  /** No line of the content can close its own block, and the fence is no longer than it must be. */
  lemma FenceIsShortest(content: string)
    ensures ShortestFence(content, FenceOf(content))
    ensures forall line :: line in SplitLines(content) ==> line != FenceOf(content) && OneLine(line)
    ensures OneLine(FenceOf(content))
  {
    WidenedIsShortest(content, FENCE);
    forall line | line in SplitLines(content) ensures line != FenceOf(content) && OneLine(line) {
      LinesArePieces(content, line);
    }
  }

  // ----- blocks -----

  function WholeBlock(f: File, fence: string): Block { Block(f.path, SplitLines(f.content), fence) }

  function CutBlock(f: File, fence: string, count: nat): Block
    requires count <= |SplitLines(f.content)|
  {
    Block(f.path, SplitLines(f.content)[..count] + [TRUNCATION_MARKER], fence)
  }

  predicate FitsWith(b: Budget, blocks: seq<Block>, next: Block) { Fits(b, Assemble(b.intro, blocks + [next])) }

  /** A prefix that fits is a proper one of at least one line. */
  predicate CutFits(b: Budget, blocks: seq<Block>, f: File, fence: string, count: nat) {
    1 <= count < |SplitLines(f.content)| && FitsWith(b, blocks, CutBlock(f, fence, count))
  }

  /** Fewer lines of the file never stop fitting. */
  ghost predicate DownwardClosed(b: Budget, blocks: seq<Block>, f: File, fence: string) {
    forall m: nat, n: nat :: 1 <= m < n && CutFits(b, blocks, f, fence, n) ==> CutFits(b, blocks, f, fence, m)
  }

  /** A prefix that fits; when fitting is downward closed, the longest, and none only when none fits. */
  ghost predicate BestCut(b: Budget, blocks: seq<Block>, f: File, fence: string, best: Option<nat>) {
    && (best.Some? ==> CutFits(b, blocks, f, fence, best.value))
    && (DownwardClosed(b, blocks, f, fence) ==>
          forall n: nat :: CutFits(b, blocks, f, fence, n) ==> best.Some? && n <= best.value)
  }

  method LargestPrefixThatFits(b: Budget, blocks: seq<Block>, f: File, fence: string) returns (best: Option<nat>)
    ensures BestCut(b, blocks, f, fence, best)
  {
    hide Fits, Assemble, SplitLines;
    var lines := SplitLines(f.content);
    var low, high := 1, |lines| - 1;
    best := None;
    while low <= high
      invariant 1 <= low <= high + 2 && high < |lines|
      invariant best.Some? ==> CutFits(b, blocks, f, fence, best.value) && best.value == low - 1
      invariant best.None? ==> low == 1
      invariant DownwardClosed(b, blocks, f, fence) ==> forall n: nat :: n > high ==> !CutFits(b, blocks, f, fence, n)
    {
      var middle := (low + high) / 2;
      if FitsWith(b, blocks, CutBlock(f, fence, middle)) {
        assert CutFits(b, blocks, f, fence, middle);
        best := Some(middle);
        low := middle + 1;
      } else {
        assert !CutFits(b, blocks, f, fence, middle);
        high := middle - 1;
      }
    }
  }

  /** A shorter candidate list never stops fitting the selection prompt. */
  ghost predicate Monotone(fits: nat -> bool, n: nat) {
    forall k, m :: 1 <= k < m <= n && fits(m) ==> fits(k)
  }

  /** Shortening the candidate list; without a counter it is not shortened. */
  method CandidatesThatFit(candidates: seq<string>, fits: Option<nat -> bool>) returns (kept: seq<string>)
    ensures kept <= candidates
    ensures fits.None? ==> kept == candidates
    ensures fits.Some? && kept != [] ==> fits.value(|kept|)
    ensures fits.Some? && Monotone(fits.value, |candidates|) ==>
              forall n: nat :: 1 <= n <= |candidates| && fits.value(n) ==> n <= |kept|
  {
    if fits.None? || candidates == [] {
      return candidates;
    }
    if fits.value(|candidates|) {
      return candidates;
    }
    var low, high, best := 1, |candidates| - 1, 0;
    while low <= high
      invariant 1 <= low <= high + 2 && 0 <= high < |candidates|
      invariant best == low - 1 && best <= |candidates| && (best > 0 ==> fits.value(best))
      invariant Monotone(fits.value, |candidates|) ==> forall n: nat :: high < n <= |candidates| ==> !fits.value(n)
    {
      var middle := (low + high) / 2;
      if fits.value(middle) {
        best, low := middle, middle + 1;
      } else {
        high := middle - 1;
      }
    }
    kept := candidates[..best];
  }

  // ----- the two passes -----

  /** What the first pass keeps and what it sets aside. */
  datatype FirstPass = FirstPass(blocks: seq<Block>, oversized: seq<File>)

  /** In the order given, every file goes in whole if it fits beside those already in. */
  function PlaceWhole(b: Budget, files: seq<File>, blocks: seq<Block>): FirstPass {
    if files == [] then FirstPass(blocks, [])
    else
      var whole := WholeBlock(files[0], FenceOf(files[0].content));
      if FitsWith(b, blocks, whole) then PlaceWhole(b, files[1..], blocks + [whole])
      else
        var r := PlaceWhole(b, files[1..], blocks);
        r.(oversized := [files[0]] + r.oversized)
  }

  function WithCut(blocks: seq<Block>, f: File, best: Option<nat>): seq<Block>
    requires best.Some? ==> best.value <= |SplitLines(f.content)|
  {
    if best.Some? then blocks + [CutBlock(f, FenceOf(f.content), best.value)] else blocks
  }

  /** Then every file set aside gets the longest prefix that still fits, or nothing. */
  ghost predicate PlacesCuts(b: Budget, oversized: seq<File>, blocks: seq<Block>, result: seq<Block>)
    decreases |oversized|
  {
    if oversized == [] then result == blocks
    else
      var f := oversized[0];
      exists best {:trigger BestCut(b, blocks, f, FenceOf(f.content), best)} ::
        BestCut(b, blocks, f, FenceOf(f.content), best)
          && PlacesCuts(b, oversized[1..], WithCut(blocks, f, best), result)
  }

  ghost predicate Renders(b: Budget, files: seq<File>, blocks: seq<Block>) {
    var first := PlaceWhole(b, files, []);
    PlacesCuts(b, first.oversized, first.blocks, blocks)
  }

  /** The first pass: every file that fits whole, in order. */
  method PlaceWholeFiles(b: Budget, files: seq<File>) returns (placed: seq<Block>, oversized: seq<File>)
    ensures FirstPass(placed, oversized) == PlaceWhole(b, files, [])
  {
    hide FitsWith, Assemble, WholeBlock, SplitLines;
    placed, oversized := [], [];
    var i := 0;
    assert files[0..] == files;
    NothingAside(PlaceWhole(b, files, []));
    while i < |files|
      invariant 0 <= i <= |files|
      invariant PlaceWhole(b, files, []) == Aside(oversized, PlaceWhole(b, files[i..], placed))
    {
      var f := files[i];
      assert files[i..][1..] == files[i + 1..];
      var fence := FenceFor(f.content);
      if FitsWith(b, placed, WholeBlock(f, fence)) {
        placed := placed + [WholeBlock(f, fence)];
      } else {
        AsideOne(oversized, f, PlaceWhole(b, files[i + 1..], placed));
        oversized := oversized + [f];
      }
      i := i + 1;
    }
    assert files[|files|..] == [] && oversized + [] == oversized;
  }

  /** The second pass: the leftover budget goes to the files that did not fit. */
  method PlaceCutFiles(b: Budget, oversized: seq<File>, first: seq<Block>) returns (placed: seq<Block>)
    ensures PlacesCuts(b, oversized, first, placed)
  {
    hide FitsWith, Assemble, BestCut, CutBlock, SplitLines;
    placed := first;
    var i := 0;
    assert oversized[0..] == oversized;
    while i < |oversized|
      invariant 0 <= i <= |oversized|
      invariant forall result :: PlacesCuts(b, oversized[i..], placed, result) ==>
                PlacesCuts(b, oversized, first, result)
    {
      var f := oversized[i];
      assert oversized[i..][1..] == oversized[i + 1..];
      var fence := FenceFor(f.content);
      var best := LargestPrefixThatFits(b, placed, f, fence);
      BestCutIsCut(b, placed, f, fence, best);
      assert forall result :: PlacesCuts(b, oversized[i + 1..], WithCut(placed, f, best), result)
                              ==> PlacesCuts(b, oversized[i..], placed, result);
      if best.Some? {
        placed := placed + [CutBlock(f, fence, best.value)];
      }
      i := i + 1;
    }
    assert oversized[|oversized|..] == [];
  }

  method Render(b: Budget, files: seq<File>) returns (text: string)
    ensures exists blocks {:trigger Renders(b, files, blocks)} ::
              Renders(b, files, blocks) && text == if blocks == [] then "" else Assemble(b.intro, blocks)
  {
    hide PlaceWhole, PlacesCuts, Assemble;
    var placed, oversized := PlaceWholeFiles(b, files);
    placed := PlaceCutFiles(b, oversized, placed);
    assert Renders(b, files, placed);
    text := if placed == [] then "" else Assemble(b.intro, placed);
  }

  function Aside(oversized: seq<File>, r: FirstPass): FirstPass { r.(oversized := oversized + r.oversized) }

  lemma NothingAside(r: FirstPass)
    ensures Aside([], r) == r
  {
    assert [] + r.oversized == r.oversized;
  }

  lemma AsideOne(oversized: seq<File>, f: File, r: FirstPass)
    ensures Aside(oversized, r.(oversized := [f] + r.oversized)) == Aside(oversized + [f], r)
  {
    assert oversized + ([f] + r.oversized) == oversized + [f] + r.oversized;
  }

  lemma BestCutIsCut(b: Budget, blocks: seq<Block>, f: File, fence: string, best: Option<nat>)
    requires BestCut(b, blocks, f, fence, best)
    ensures best.Some? ==> best.value <= |SplitLines(f.content)|
  {}

  // ----- within budget -----

  lemma {:induction false} WholeBlocksFit(b: Budget, files: seq<File>, blocks: seq<Block>)
    requires blocks != [] ==> Fits(b, Assemble(b.intro, blocks))
    ensures var r := PlaceWhole(b, files, blocks); r.blocks != [] ==> Fits(b, Assemble(b.intro, r.blocks))
    decreases |files|
  {
    hide Fits, Assemble, WholeBlock, FenceOf;
    if files != [] {
      var whole := WholeBlock(files[0], FenceOf(files[0].content));
      if FitsWith(b, blocks, whole) {
        WholeBlocksFit(b, files[1..], blocks + [whole]);
      } else {
        WholeBlocksFit(b, files[1..], blocks);
      }
    }
  }

  lemma {:induction false} CutBlocksFit(b: Budget, oversized: seq<File>, blocks: seq<Block>, result: seq<Block>)
    requires PlacesCuts(b, oversized, blocks, result)
    requires blocks != [] ==> Fits(b, Assemble(b.intro, blocks))
    ensures result != [] ==> Fits(b, Assemble(b.intro, result))
    decreases |oversized|
  {
    hide Fits, Assemble, CutBlock, FenceOf, SplitLines;
    if oversized != [] {
      var f := oversized[0];
      var best :| BestCut(b, blocks, f, FenceOf(f.content), best)
        && PlacesCuts(b, oversized[1..], WithCut(blocks, f, best), result);
      CutBlocksFit(b, oversized[1..], WithCut(blocks, f, best), result);
    }
  }

  /** What is rendered is nothing, or a text within both the line and the token limit. */
  lemma RenderedFits(b: Budget, files: seq<File>, blocks: seq<Block>)
    requires Renders(b, files, blocks)
    ensures var text := Assemble(b.intro, blocks);
            blocks != [] ==>
              && |SplitLines(text)| <= b.maxLines
              && (b.maxTokens != 0 && b.count.Some? ==>
                    b.count.value(text).Some? && b.count.value(text).value <= b.maxTokens)
  {
    hide Assemble, SplitLines;
    WholeBlocksFit(b, files, []);
    CutBlocksFit(b, PlaceWhole(b, files, []).oversized, PlaceWhole(b, files, []).blocks, blocks);
  }

  // ----- decodable -----

  /** The whole file, or a proper prefix of it and the marker. */
  ghost predicate Shows(block: Block, f: File) {
    && block.path == f.path && block.fence == FenceOf(f.content)
    && (block == WholeBlock(f, FenceOf(f.content))
        || (exists n :: 1 <= n < |SplitLines(f.content)| && block == CutBlock(f, FenceOf(f.content), n)))
  }

  ghost predicate AllShown(blocks: seq<Block>, files: seq<File>) {
    forall k :: 0 <= k < |blocks| ==> exists f :: f in files && Shows(blocks[k], f)
  }

  lemma ShownFile(blocks: seq<Block>, files: seq<File>, k: nat) returns (f: File)
    requires AllShown(blocks, files) && k < |blocks|
    ensures f in files && Shows(blocks[k], f)
  {
    hide Shows;
    var block := blocks[k];
    f :| f in files && Shows(block, f);
  }

  lemma {:induction false} WholeBlocksShow(b: Budget, files: seq<File>, blocks: seq<Block>, all: seq<File>)
    requires AllShown(blocks, all) && (forall f :: f in files ==> f in all)
    ensures AllShown(PlaceWhole(b, files, blocks).blocks, all)
    ensures forall f :: f in PlaceWhole(b, files, blocks).oversized ==> f in all
    decreases |files|
  {
    hide FitsWith, FenceOf, SplitLines;
    if files != [] {
      var whole := WholeBlock(files[0], FenceOf(files[0].content));
      if FitsWith(b, blocks, whole) {
        assert files[0] in all && Shows(whole, files[0]);
        WholeBlocksShow(b, files[1..], blocks + [whole], all);
      } else {
        WholeBlocksShow(b, files[1..], blocks, all);
      }
    }
  }

  lemma {:induction false} CutBlocksShow(
      b: Budget, oversized: seq<File>, blocks: seq<Block>, result: seq<Block>, all: seq<File>)
    requires PlacesCuts(b, oversized, blocks, result)
    requires AllShown(blocks, all) && (forall f :: f in oversized ==> f in all)
    ensures AllShown(result, all)
    decreases |oversized|
  {
    hide FitsWith, FenceOf, SplitLines, DownwardClosed;
    if oversized != [] {
      var f := oversized[0];
      var best :| BestCut(b, blocks, f, FenceOf(f.content), best)
        && PlacesCuts(b, oversized[1..], WithCut(blocks, f, best), result);
      if best.Some? {
        assert Shows(CutBlock(f, FenceOf(f.content), best.value), f);
      }
      CutBlocksShow(b, oversized[1..], WithCut(blocks, f, best), result, all);
    }
  }

  lemma ShownIsFenced(block: Block, f: File)
    requires Shows(block, f) && OneRow(f.path)
    ensures Fenced(block)
  {
    hide SplitLines, FenceOf;
    FenceIsShortest(f.content);
    assert OneLine(TRUNCATION_MARKER) && !AllTicks(TRUNCATION_MARKER) by {
      assert TRUNCATION_MARKER[0] == '.';
    }
    var lines := SplitLines(f.content);
    assert forall k :: 0 <= k < |lines| ==> lines[k] in lines;
  }

  /**
   For paths without a line feed the parser recovers exactly the rendered blocks, each the whole of one of the
   files or a prefix of it.
   */
  lemma RenderedDecodes(b: Budget, files: seq<File>, blocks: seq<Block>)
    requires Renders(b, files, blocks)
    requires forall k :: 0 <= k < |b.intro| ==> OneRow(b.intro[k])
    requires forall f :: f in files ==> OneRow(f.path)
    ensures ParseText(b.intro, Assemble(b.intro, blocks)) == Some(Entries(blocks))
    ensures AllShown(blocks, files)
  {
    hide ParseText, Assemble, Entries, Fenced, Shows, OneRow, PlaceWhole, PlacesCuts;
    var first := PlaceWhole(b, files, []);
    WholeBlocksShow(b, files, [], files);
    CutBlocksShow(b, first.oversized, first.blocks, blocks, files);
    forall k | 0 <= k < |blocks| ensures Fenced(blocks[k]) {
      var f := ShownFile(blocks, files, k);
      ShownIsFenced(blocks[k], f);
    }
    RenderedTextDecodes(b.intro, blocks);
  }

  // ----- when the prefix is the longest -----

  /** How many lines the text of some blocks has. */
  lemma LinesOfText(b: Budget, blocks: seq<Block>)
    requires forall k :: 0 <= k < |b.intro| ==> Solid(b.intro[k])
    requires forall k :: 0 <= k < |blocks| ==> Fenced(blocks[k])
    ensures |SplitLines(Assemble(b.intro, blocks))| == LineSum(b.intro) + 2 + LineSum(AllLines(blocks))
  {
    hide SplitLines, Join, AllLines, OneLine, OneRow, Solid, Fenced, LineSum;
    var rows := Header(b.intro) + AllLines(blocks) + [LIST_END];
    AllOneRow(blocks);
    TagsAreOneLine();
    OneLineIsOne(LIST_TAG);
    OneLineIsOne(LIST_END);
    OneLineSum([LIST_TAG]);
    OneLineSum([LIST_END]);
    LineSumConcat(b.intro, [LIST_TAG]);
    LineSumConcat(Header(b.intro), AllLines(blocks));
    LineSumConcat(Header(b.intro) + AllLines(blocks), [LIST_END]);
    JoinedLines(rows);
  }

  lemma {:induction false} AllLinesLast(blocks: seq<Block>, next: Block)
    ensures AllLines(blocks + [next]) == AllLines(blocks) + BlockLines(next)
  {
    hide BlockLines;
    if blocks == [] {
      assert blocks + [next] == [next] && [next][1..] == [];
      assert BlockLines(next) + [] == BlockLines(next) && [] + BlockLines(next) == BlockLines(next);
    } else {
      assert (blocks + [next])[1..] == blocks[1..] + [next];
      AllLinesLast(blocks[1..], next);
      assert BlockLines(blocks[0]) + (AllLines(blocks[1..]) + BlockLines(next))
          == BlockLines(blocks[0]) + AllLines(blocks[1..]) + BlockLines(next);
    }
  }

  lemma LinesOfBlock(block: Block)
    requires Fenced(block)
    ensures LineSum(BlockLines(block)) == LinesIn(OpenLine(block.path)) + |block.body| + 3
  {
    hide LinesIn, OneLine, OneRow, OpenLine;
    var rest := [block.fence] + block.body + [block.fence, CLOSE_TAG];
    TagsAreOneLine();
    OneLineSum(rest);
    assert BlockLines(block) == [OpenLine(block.path)] + rest;
  }

  /** With only a line limit fitting is downward closed, so the prefix is always the longest that fits. */
  lemma LineLimitIsDownwardClosed(b: Budget, blocks: seq<Block>, f: File)
    requires b.maxTokens == 0 || b.count.None?
    requires forall k :: 0 <= k < |b.intro| ==> Solid(b.intro[k])
    requires OneRow(f.path) && forall k :: 0 <= k < |blocks| ==> Fenced(blocks[k])
    ensures DownwardClosed(b, blocks, f, FenceOf(f.content))
  {
    hide SplitLines, FenceOf, Assemble, OneRow, Solid, Fenced, LineSum, LinesIn, OpenLine;
    var fence := FenceOf(f.content);
    forall m: nat, n: nat | 1 <= m < n && CutFits(b, blocks, f, fence, n)
      ensures CutFits(b, blocks, f, fence, m)
    {
      CutLines(b, blocks, f, m);
      CutLines(b, blocks, f, n);
    }
  }

  lemma CutLines(b: Budget, blocks: seq<Block>, f: File, n: nat)
    requires forall k :: 0 <= k < |b.intro| ==> Solid(b.intro[k])
    requires OneRow(f.path) && forall k :: 0 <= k < |blocks| ==> Fenced(blocks[k])
    requires 1 <= n < |SplitLines(f.content)|
    ensures |SplitLines(Assemble(b.intro, blocks + [CutBlock(f, FenceOf(f.content), n)]))|
            == LineSum(b.intro) + 2 + LineSum(AllLines(blocks)) + LinesIn(OpenLine(f.path)) + n + 4
  {
    hide SplitLines, FenceOf, Assemble, OneRow, Solid, Fenced, AllLines, LineSum, LinesIn, OpenLine, BlockLines;
    var cut := CutBlock(f, FenceOf(f.content), n);
    assert Shows(cut, f);
    ShownIsFenced(cut, f);
    AllLinesLast(blocks, cut);
    LineSumConcat(AllLines(blocks), BlockLines(cut));
    LinesOfBlock(cut);
    LinesOfText(b, blocks + [cut]);
  }
}
