/**
 Showing the lines of a finding (pr_agent/algo/utils.py, extract_relevant_lines_str): from the new file, or
 from the patch when the file's text is not at hand.
 */
module PatchFallback {
  import opened Bounds
  import opened PatchLineNumbers
  import opened PatchModel
  import opened PatchNumbering
  import opened PatchSelection
  import opened PatchSides
  import opened PythonStrings
  import opened Sequences
  import opened Wrappers

  /** Trailing white space cut off the joined lines, lines of nothing else included. */
  function TrimEnd(lines: seq<string>): seq<string> {
    if lines == [] then []
    else
      var n := |lines| - 1;
      if RStrip(lines[n]) == "" then TrimEnd(lines[..n]) else lines[..n] + [RStrip(lines[n])]
  }

  /** The loop that drops deleted lines and the first character of the others. */
  method DropMinusLines(selected: seq<string>) returns (lines: seq<string>)
    ensures lines == DropMinus(selected)
  {
    hide DropMinus, IsMinus;
    lines := [];
    assert selected[0..] == selected;
    Reassoc(DropMinus(selected), [], []);
    for i := 0 to |selected|
      invariant DropMinus(selected) == lines + DropMinus(selected[i..])
    {
      assert selected[i..][1..] == selected[i + 1..];
      DropMinusStep(selected[i..]);
      var text := if selected[i] == "" then "" else selected[i][1..];
      Reassoc(lines, [text], DropMinus(selected[i + 1..]));
      if !IsMinus(selected[i]) {
        lines := lines + [text];
      }
    }
    NothingSelected(lines);
  }

  lemma DropMinusStep(selected: seq<string>)
    requires selected != []
    ensures DropMinus(selected)
            == if IsMinus(selected[0]) then DropMinus(selected[1..])
               else [if selected[0] == "" then "" else selected[0][1..]] + DropMinus(selected[1..])
  {
    Reassoc(DropMinus(selected[1..]), [], []);
  }

  /** What the patch has to show for a range: nothing at all when the selection is blank. */
  function FromPatch(patch: seq<PatchLine>, lineStart: int, lineEnd: int): Option<seq<string>> {
    var selected := TrimEnd(Select(patch, Right, lineStart, lineEnd, BEFORE_HUNKS));
    if selected == [] then None else Some(DropMinus(selected))
  }

  /** The two ways of showing a finding's lines; `head` is absent when the new file's text is empty too. */
  method RelevantLines(head: Option<seq<string>>, patch: seq<PatchLine>, lineStart: int, lineEnd: int)
    returns (lines: Option<seq<string>>)
    ensures lines == match head
                     case Some(file) => Some(Slice(file, lineStart - 1, lineEnd))
                     case None => FromPatch(patch, lineStart, lineEnd)
  {
    match head
    case Some(file) =>
      lines := Some(Slice(file, lineStart - 1, lineEnd));
    case None =>
      var _, selected := ExtractHunkLines(patch, lineStart, lineEnd, Right);
      selected := TrimEnd(selected);
      if selected == [] {
        return None;
      }
      var shown := DropMinusLines(selected);
      lines := Some(shown);
  }

  // ----- what trimming does -----

  /** A line that ends the selection and is shown as it is, or not at all. */
  predicate Untrimmed(t: string) { IsMinus(t) || RStrip(t) == t }

  lemma {:induction false} RStripIsPrefix(s: string)
    ensures RStrip(s) <= s
  {
    if s != "" && IsSpace(s[|s| - 1]) {
      RStripIsPrefix(s[..|s| - 1]);
    }
  }

  lemma {:induction false} NotAllSpace(t: string)
    requires t != "" && !IsSpace(t[0])
    ensures RStrip(t) != ""
  {
    if IsSpace(t[|t| - 1]) {
      NotAllSpace(t[..|t| - 1]);
    }
  }

  lemma {:induction false} TrimOnlyShortens(lines: seq<string>)
    ensures |DropMinus(TrimEnd(lines))| <= |DropMinus(lines)|
  {
    if lines != [] {
      hide DropMinus, RStrip;
      var n := |lines| - 1;
      assert lines == lines[..n] + [lines[n]];
      DropMinusConcat(lines[..n], [lines[n]]);
      if RStrip(lines[n]) == "" {
        TrimOnlyShortens(lines[..n]);
      } else {
        DropMinusConcat(lines[..n], [RStrip(lines[n])]);
        OneShown(lines[n]);
      }
    }
  }

  /** What becomes of one line when it is the last. */
  lemma OneShown(t: string)
    ensures var r := RStrip(t);
            && |DropMinus([t])| == (if IsMinus(t) then 0 else 1)
            && (r != "" ==> |DropMinus([r])| == |DropMinus([t])|)
            && (t != "" && t[0] in " +-" && r != "" ==> (DropMinus([r]) == DropMinus([t]) <==> Untrimmed(t)))
            && (t != "" && t[0] in " +-" && r == "" ==> !Untrimmed(t) && !IsMinus(t))
  {
    var r: string := RStrip(t);
    RStripIsPrefix(t);
    if t != "" && t[0] in "+-" {
      NotAllSpace(t);
    }
    OneLine(t);
    OneLine(r);
    if r != "" {
      assert r[0] == t[0];
      SameTail(r, t);
    }
  }

  lemma OneLine(t: string)
    ensures |DropMinus([t])| == (if IsMinus(t) then 0 else 1)
    ensures !IsMinus(t) && t != "" ==> DropMinus([t])[0] == t[1..]
  {
    assert [t][1..] == [];
  }

  lemma SameTail(r: string, t: string)
    requires r != "" && t != "" && r[0] == t[0]
    ensures r == t <==> r[1..] == t[1..]
  {
    assert r == [r[0]] + r[1..] && t == [t[0]] + t[1..];
  }

  /** Trimming leaves what is shown as it is exactly when the last line is. */
  lemma TrimTells(lines: seq<string>)
    requires lines != [] && forall s :: s in lines ==> s != "" && s[0] in " +-"
    ensures DropMinus(TrimEnd(lines)) == DropMinus(lines) <==> Untrimmed(lines[|lines| - 1])
    ensures TrimEnd(lines) == [] ==> !Untrimmed(lines[|lines| - 1])
  {
    hide DropMinus, RStrip, Untrimmed;
    var n := |lines| - 1;
    var t := lines[n];
    assert t in lines && lines == lines[..n] + [t];
    DropMinusConcat(lines[..n], [t]);
    OneShown(t);
    if RStrip(t) == "" {
      TrimOnlyShortens(lines[..n]);
    } else {
      DropMinusConcat(lines[..n], [RStrip(t)]);
      SameFront(DropMinus(lines[..n]), DropMinus([RStrip(t)]), DropMinus([t]));
    }
  }

  lemma SameFront(a: seq<string>, b: seq<string>, c: seq<string>)
    ensures a + b == a + c <==> b == c
  {
    if a + b == a + c {
      assert (a + b)[|a|..] == b && (a + c)[|a|..] == c;
    }
  }

  /** The lines joined, each with its line feed. */
  function JoinedText(lines: seq<string>): string {
    if lines == [] then "" else JoinedText(lines[..|lines| - 1]) + (lines[|lines| - 1] + "\n")
  }

  lemma {:induction false} RStripConcat(a: string, b: string)
    ensures RStrip(a + b) == if RStrip(b) == "" then RStrip(a) else a + RStrip(b)
    decreases |b|
  {
    if b == "" {
      assert a + b == a;
    } else if IsSpace(b[|b| - 1]) {
      assert (a + b)[..|a + b| - 1] == a + b[..|b| - 1];
      RStripConcat(a, b[..|b| - 1]);
    }
  }

  lemma LineFeedGoes(t: string)
    ensures RStrip(t + "\n") == RStrip(t)
  {
    assert (t + "\n")[..|t|] == t;
  }

  /** Trimming is what the source language's `rstrip` makes of the joined text, read as lines again. */
  lemma {:induction false} TrimEndIsRStrip(lines: seq<string>)
    ensures if TrimEnd(lines) == [] then RStrip(JoinedText(lines)) == ""
            else JoinedText(TrimEnd(lines)) == RStrip(JoinedText(lines)) + "\n"
  {
    hide RStrip;
    if lines == [] {
      NothingToStrip();
    } else {
      var n := |lines| - 1;
      LineFeedGoes(lines[n]);
      RStripConcat(JoinedText(lines[..n]), lines[n] + "\n");
      if RStrip(lines[n]) == "" {
        TrimEndIsRStrip(lines[..n]);
      } else {
        var r := lines[..n] + [RStrip(lines[n])];
        assert r[..n] == lines[..n];
        Reassoc(JoinedText(lines[..n]), RStrip(lines[n]), "\n");
      }
    }
  }

  lemma NothingToStrip()
    ensures RStrip("") == ""
  {}

  // ----- the last line of a selection -----

  /** The hunk whose new side holds a line. */
  function HunkAt(hunks: seq<Hunk>, line: int): Hunk
    requires exists h :: h in hunks && Covers(h.header, line)
  {
    if Covers(hunks[0].header, line) then hunks[0]
    else
      assert hunks == [hunks[0]] + hunks[1..];
      HunkAt(hunks[1..], line)
  }

  lemma {:induction false} HunkAtIs(hunks: seq<Hunk>, line: int)
    requires exists h :: h in hunks && Covers(h.header, line)
    ensures var h := HunkAt(hunks, line);
            h in hunks && Covers(h.header, line) && EndOf(hunks, line) == h.header.start2 + h.header.size2 - 1
  {
    if !Covers(hunks[0].header, line) {
      assert hunks == [hunks[0]] + hunks[1..];
      HunkAtIs(hunks[1..], line);
    }
  }

  lemma SelectionIsPicked(
      hunks: seq<Hunk>, base: seq<string>, head: seq<string>, i: nat, j: nat, lineStart: int, lineEnd: int, st: Cursor)
    requires i <= |base| && j <= |head| && WellFormed(hunks, base, head, i, j)
    requires forall h :: h in hunks ==> CleanHunk(h)
    requires exists h :: h in hunks && Covers(h.header, lineStart)
    ensures var h := HunkAt(hunks, lineStart);
            Select(Flatten(hunks), Right, lineStart, lineEnd, st)
            == Picks(h.body, Right, h.header.start2, lineStart, lineEnd)
    decreases |hunks|
  {
    hide Select, Clean, HunkFits, Flatten, WellFormed, HasRemark, Picks;
    SelectsHunkByHunk(hunks, Right, lineStart, lineEnd, st);
    ChosenAt(hunks, base, head, i, j, lineStart, lineEnd);
  }

  lemma {:induction false} ChosenAt(
      hunks: seq<Hunk>, base: seq<string>, head: seq<string>, i: nat, j: nat, lineStart: int, lineEnd: int)
    requires i <= |base| && j <= |head| && WellFormed(hunks, base, head, i, j)
    requires exists h :: h in hunks && Covers(h.header, lineStart)
    ensures var h := HunkAt(hunks, lineStart);
            Chosen(hunks, Right, lineStart, lineEnd) == Picks(h.body, Right, h.header.start2, lineStart, lineEnd)
    decreases |hunks|
  {
    hide HunkFits, WellFormed, Picks;
    var h, rest := hunks[0], hunks[1..];
    assert hunks == [h] + rest;
    var c, d := FirstHunk(hunks, base, head, i, j);
    LaterHunksFollow(rest, base, head, c, d);
    if Covers(h.header, lineStart) {
      NothingChosen(rest, Right, lineStart, lineEnd);
      Reassoc(Picks(h.body, Right, h.header.start2, lineStart, lineEnd), [], []);
    } else {
      ChosenAt(rest, base, head, c, d, lineStart, lineEnd);
      Reassoc(Chosen(rest, Right, lineStart, lineEnd), [], []);
    }
  }

  /** The printed line that ends the selection: of the last line asked for, or else the hunk's last. */
  function RangeEnd(body: seq<string>, k: int): string {
    var news, kept := NewText(body), Kept(body);
    if 0 <= k < |news| then news[k] else if kept == [] then "" else kept[|kept| - 1]
  }

  lemma {:induction false} PickedEnds(body: seq<string>, n: int, lineStart: int, lineEnd: int)
    requires Kept(body) != [] && n <= lineEnd && lineStart <= lineEnd && lineStart < n + |NewText(body)|
    ensures var picked := Picks(body, Right, n, lineStart, lineEnd);
            picked != [] && picked[|picked| - 1] == RangeEnd(body, lineEnd - n)
    decreases |body|
  {
    hide HasRemark, IsMinus, Picks, NewText, Kept;
    if body == [] {
      NothingPicked(Right, n, lineStart, lineEnd);
    } else {
      PickStep(body, Right, n, lineStart, lineEnd);
      var t, rest := body[0], body[1..];
      var n' := if HasRemark(t) || IsMinus(t) then n else n + 1;
      if Kept(rest) == [] {
        NothingKept(rest, n', lineStart, lineEnd);
      } else if n' > lineEnd {
        NonePicked(rest, n', lineStart, lineEnd);
      } else {
        PickedEnds(rest, n', lineStart, lineEnd);
      }
    }
  }

  lemma {:induction false} NothingKept(body: seq<string>, n: int, lineStart: int, lineEnd: int)
    requires Kept(body) == []
    ensures NewText(body) == [] && Picks(body, Right, n, lineStart, lineEnd) == []
    decreases |body|
  {
    hide HasRemark;
    if body != [] {
      NothingKept(body[1..], n, lineStart, lineEnd);
    }
  }

  lemma {:induction false} NewTextIsKept(body: seq<string>)
    ensures |NewText(body)| <= |Kept(body)|
  {
    hide HasRemark;
    if body != [] {
      NewTextIsKept(body[1..]);
    }
  }

  lemma {:induction false} NonePicked(body: seq<string>, n: int, lineStart: int, lineEnd: int)
    requires n > lineEnd
    ensures Picks(body, Right, n, lineStart, lineEnd) == []
    decreases |body|
  {
    if body != [] {
      NonePicked(body[1..], if HasRemark(body[0]) || IsMinus(body[0]) then n else n + 1, lineStart, lineEnd);
    }
  }

  /**
   For a range that begins inside a hunk, the patch shows the lines the new file shows exactly when the range ends
   inside the hunk or the hunk ends the file, and the printed line that ends the selection is a deleted one or
   ends in no white space, its mark included.
   */
  lemma BranchesAgree(hunks: seq<Hunk>, base: seq<string>, head: seq<string>, lineStart: int, lineEnd: int)
    requires WellFormed(hunks, base, head, 0, 0) && NoRemarks(base, head, hunks)
    requires lineStart <= lineEnd
    requires exists h :: h in hunks && Covers(h.header, lineStart)
    ensures var h := HunkAt(hunks, lineStart);
            var last := h.header.start2 + h.header.size2 - 1;
            FromPatch(Flatten(hunks), lineStart, lineEnd) == Some(Slice(head, lineStart - 1, lineEnd))
            <==> (lineEnd <= last || last == |head|) && Untrimmed(RangeEnd(h.body, lineEnd - h.header.start2))
  {
    hide *;
    var h, selected := HunkAt(hunks, lineStart), Select(Flatten(hunks), Right, lineStart, lineEnd, BEFORE_HUNKS);
    WellFormedFits(hunks, base, head, 0, 0);
    forall h | h in hunks ensures CleanHunk(h) {
      FittingHunkIsClean(h, base, head, hunks);
    }
    HunkAtIs(hunks, lineStart);
    SelectionIsPicked(hunks, base, head, 0, 0, lineStart, lineEnd, BEFORE_HUNKS);
    SelectionEnds(h, base, head, lineStart, lineEnd);
    SelectionIsFileSlice(hunks, base, head, 0, 0, lineStart, lineEnd, BEFORE_HUNKS);
    EndInFile(hunks, base, head, lineStart);
    var e := EndOf(hunks, lineStart);
    var shown := Max(lineStart - 1, Min(lineEnd, e));
    Bounded(lineStart, lineEnd, e, |head|);
    SliceLengths(head, lineStart - 1, shown, lineEnd);
    TrimTells(selected);
    TrimOnlyShortens(selected);
    FromPatchIs(Flatten(hunks), lineStart, lineEnd);
  }

  lemma FromPatchIs(patch: seq<PatchLine>, lineStart: int, lineEnd: int)
    ensures var selected := TrimEnd(Select(patch, Right, lineStart, lineEnd, BEFORE_HUNKS));
            FromPatch(patch, lineStart, lineEnd) == if selected == [] then None else Some(DropMinus(selected))
  {}

  lemma Bounded(lineStart: int, lineEnd: int, e: int, n: int)
    requires 1 <= lineStart <= e <= n && lineStart <= lineEnd
    ensures Max(lineStart - 1, Min(lineEnd, e)) == if lineEnd <= e then lineEnd else e
    ensures Min(lineEnd, n) == if lineEnd <= n then lineEnd else n
  {}

  lemma SelectionEnds(h: Hunk, base: seq<string>, head: seq<string>, lineStart: int, lineEnd: int)
    requires HunkFits(h, base, head) && CleanHunk(h) && Covers(h.header, lineStart) && lineStart <= lineEnd
    ensures var picked := Picks(h.body, Right, h.header.start2, lineStart, lineEnd);
            && picked != [] && picked[|picked| - 1] == RangeEnd(h.body, lineEnd - h.header.start2)
            && (forall s :: s in picked ==> s != "" && s[0] in " +-")
  {
    hide HunkFits, Picks, RangeEnd, HasRemark, NewText, NewSide, Kept, Clean;
    FitsIsSized(h, base, head);
    NewTextIsNewSide(h.body);
    NewTextIsKept(h.body);
    PickedEnds(h.body, h.header.start2, lineStart, lineEnd);
    PickedAreMarked(h.body, h.header.start2, lineStart, lineEnd);
  }

  lemma {:induction false} PickedAreMarked(body: seq<string>, n: int, lineStart: int, lineEnd: int)
    requires Clean(body)
    ensures forall s :: s in Picks(body, Right, n, lineStart, lineEnd) ==> s != "" && s[0] in " +-"
    decreases |body|
  {
    hide HasRemark, Clean, BodyLine;
    if body != [] {
      FirstLineIsClean(body);
      CleanTail(body);
      PickedAreMarked(body[1..], if HasRemark(body[0]) || IsMinus(body[0]) then n else n + 1, lineStart, lineEnd);
    }
  }

  lemma SliceLengths(head: seq<string>, lo: int, hi: int, lineEnd: int)
    requires 0 <= lo < |head| && lo <= hi <= |head|
    ensures |Slice(head, lo, hi)| == hi - lo
    ensures lineEnd >= lo ==> |Slice(head, lo, lineEnd)| == Min(lineEnd, |head|) - lo
    ensures lineEnd >= |head| ==> Slice(head, lo, lineEnd) == Slice(head, lo, |head|)
  {}

  lemma {:induction false} EndInFile(hunks: seq<Hunk>, base: seq<string>, head: seq<string>, line: int)
    requires forall h :: h in hunks ==> HunkFits(h, base, head)
    requires exists h :: h in hunks && Covers(h.header, line)
    ensures 1 <= line <= EndOf(hunks, line) <= |head|
  {
    hide HunkFits;
    assert HunkFits(hunks[0], base, head);
    FitsIsSized(hunks[0], base, head);
    if !Covers(hunks[0].header, line) {
      assert hunks == [hunks[0]] + hunks[1..];
      EndInFile(hunks[1..], base, head, line);
    }
  }
}
