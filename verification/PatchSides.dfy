/**
 What a range selects on either side of a patch, and the hunks shown beside it, line by line
 (pr_agent/algo/git_patch_processing.py, extract_hunk_lines_from_patch).
 */
module PatchSides {
  import opened Bounds
  import opened PatchLineNumbers
  import opened PatchModel
  import opened PatchNumbering
  import opened PatchSelection
  import opened Sequences

  /** Body lines but the remark. */
  function Kept(body: seq<string>): seq<string> {
    if body == [] then [] else (if HasRemark(body[0]) then [] else [body[0]]) + Kept(body[1..])
  }

  /** The chosen side of the hunk holds the line; without a side every hunk is taken. */
  predicate Holds(h: Header, side: Side, line: int) {
    match side
    case Left => h.start1 <= line < h.start1 + h.size1
    case Right => h.start2 <= line < h.start2 + h.size2
    case Other => true
  }

  /** The body lines that are counted on a side. */
  function SideText(body: seq<string>, side: Side): seq<string> {
    match side
    case Left => OldText(body)
    case Right => NewText(body)
    case Other => []
  }

  // ----- within one hunk -----

  /** The printed lines of a body that are selected when its first line on the side has number `n`. */
  function Picks(body: seq<string>, side: Side, n: int, lineStart: int, lineEnd: int): seq<string> {
    if body == [] then []
    else
      var t := body[0];
      var counted := !HasRemark(t) && side != Other && !(if side == Left then IsPlus(t) else IsMinus(t));
      (if !HasRemark(t) && lineStart <= n <= lineEnd && (side == Right || counted) then [t] else [])
      + Picks(body[1..], side, if counted then n + 1 else n, lineStart, lineEnd)
  }

  lemma PickStep(body: seq<string>, side: Side, n: int, lineStart: int, lineEnd: int)
    requires body != []
    ensures var t, rest := body[0], body[1..];
            var counted := !HasRemark(t) && side != Other && !(if side == Left then IsPlus(t) else IsMinus(t));
            && SideText(body, side) == (if counted then [t] else []) + SideText(rest, side)
            && Kept(body) == (if HasRemark(t) then [] else [t]) + Kept(rest)
            && Picks(body, side, n, lineStart, lineEnd)
               == (if !HasRemark(t) && lineStart <= n <= lineEnd && (side == Right || counted) then [t] else [])
                  + Picks(rest, side, if counted then n + 1 else n, lineStart, lineEnd)
  {
    hide HasRemark;
  }

  lemma NothingPicked(side: Side, n: int, lineStart: int, lineEnd: int)
    ensures Kept([]) == [] && SideText([], side) == [] && Picks([], side, n, lineStart, lineEnd) == []
    ensures NewText([]) == []
  {}

  lemma SelectOne(t: string, lines: seq<PatchLine>, side: Side, lineStart: int, lineEnd: int, st: Cursor)
    requires !Marked(t) && !st.skip
    ensures var n := st.start + st.count;
            var counted := !HasRemark(t) && side != Other && !(if side == Left then IsPlus(t) else IsMinus(t));
            && Select([Txt(t)] + lines, side, lineStart, lineEnd, st)
               == (if !HasRemark(t) && lineStart <= n <= lineEnd && (side == Right || counted) then [t] else [])
                  + Select(lines, side, lineStart, lineEnd, Advance(t, side, st))
            && Advance(t, side, st) == if counted then st.(count := st.count + 1) else st
  {
    hide HasRemark, Marked, IsMinus, IsPlus;
    var all := [Txt(t)] + lines;
    assert all[0] == Txt(t) && all[1..] == lines;
  }

  lemma {:induction false} SelectPicks(
      body: seq<string>, rest: seq<PatchLine>, side: Side, lineStart: int, lineEnd: int, st: Cursor)
    requires Unmarked(body) && !st.skip
    ensures Select(Txts(body) + rest, side, lineStart, lineEnd, st)
            == Picks(body, side, st.start + st.count, lineStart, lineEnd)
               + Select(rest, side, lineStart, lineEnd, st.(count := st.count + |SideText(body, side)|))
    decreases |body|
  {
    hide *;
    if body == [] {
      NothingPicked(side, st.start + st.count, lineStart, lineEnd);
      NoTxts(rest);
      Reassoc(Select(rest, side, lineStart, lineEnd, st), [], []);
    } else {
      var t, n, more := body[0], st.start + st.count, Txts(body[1..]) + rest;
      var counted := !HasRemark(t) && side != Other && !(if side == Left then IsPlus(t) else IsMinus(t));
      FirstUnmarked(body, rest);
      SelectOne(t, more, side, lineStart, lineEnd, st);
      PickStep(body, side, n, lineStart, lineEnd);
      var st' := Advance(t, side, st);
      SelectPicks(body[1..], rest, side, lineStart, lineEnd, st');
      Reassoc(if !HasRemark(t) && lineStart <= n <= lineEnd && (side == Right || counted) then [t] else [],
              Picks(body[1..], side, st'.start + st'.count, lineStart, lineEnd),
              Select(rest, side, lineStart, lineEnd, st.(count := st.count + |SideText(body, side)|)));
    }
  }

  lemma NoTxts(rest: seq<PatchLine>)
    ensures Txts([]) + rest == rest
  {}

  lemma FirstUnmarked(body: seq<string>, rest: seq<PatchLine>)
    requires body != [] && Unmarked(body)
    ensures !Marked(body[0]) && Unmarked(body[1..])
    ensures Txts(body) + rest == [Txt(body[0])] + (Txts(body[1..]) + rest)
  {
    hide Marked;
    assert body[0] in body;
  }

  // ----- exactly which lines -----

  /**
   A line is selected by the number of lines of the side in front of it in the hunk: on the old side if it is not
   an added one, on the new side whatever it is; a remark never is.
   */
  predicate Wanted(body: seq<string>, k: nat, side: Side, start: int, lineStart: int, lineEnd: int)
    requires k < |body|
  {
    && !HasRemark(body[k])
    && match side
       case Left => body[k] != "" && body[k][0] != '+' && lineStart <= start + |OldSide(body[..k])| <= lineEnd
       case Right => lineStart <= start + |NewSide(body[..k])| <= lineEnd
       case Other => false
  }

  ghost predicate Rising(at: seq<nat>) { forall j, k :: 0 <= j < k < |at| ==> at[j] < at[k] }

  /** `lines` are the lines of the body at the places `at`, in order. */
  ghost predicate TakenAt(body: seq<string>, lines: seq<string>, at: seq<nat>) {
    |at| == |lines| && Rising(at) && forall k :: 0 <= k < |at| ==> at[k] < |body| && lines[k] == body[at[k]]
  }

  lemma {:induction false} PicksConcat(a: seq<string>, t: string, side: Side, n: int, lineStart: int, lineEnd: int)
    ensures Picks(a + [t], side, n, lineStart, lineEnd)
            == Picks(a, side, n, lineStart, lineEnd) + Picks([t], side, n + |SideText(a, side)|, lineStart, lineEnd)
    decreases |a|
  {
    hide *;
    if a == [] {
      NothingPicked(side, n, lineStart, lineEnd);
      Reassoc(Picks([t], side, n, lineStart, lineEnd), [], []);
      Reassoc([t], [], []);
    } else {
      var counted := !HasRemark(a[0]) && side != Other && !(if side == Left then IsPlus(a[0]) else IsMinus(a[0]));
      assert (a + [t])[0] == a[0] && (a + [t])[1..] == a[1..] + [t];
      PickStep(a + [t], side, n, lineStart, lineEnd);
      PickStep(a, side, n, lineStart, lineEnd);
      PicksConcat(a[1..], t, side, if counted then n + 1 else n, lineStart, lineEnd);
    }
  }

  lemma {:induction false} OldTextIsOldSide(body: seq<string>)
    requires Clean(body)
    ensures |OldText(body)| == |OldSide(body)|
    ensures forall k :: 0 <= k < |OldText(body)| ==>
              var t := OldText(body)[k];
              t != "" && t[0] in " -" && t[1..] == OldSide(body)[k]
  {
    if body != [] {
      hide HasRemark, OldText, OldSide, Clean;
      CleanTail(body);
      OldTextIsOldSide(body[1..]);
      OldTextStep(body);
    }
  }

  lemma OldTextStep(body: seq<string>)
    requires body != [] && Clean(body)
    ensures var t := body[0];
            if t != "" && t[0] in " -" then
              OldText(body) == [t] + OldText(body[1..]) && OldSide(body) == [t[1..]] + OldSide(body[1..])
            else OldText(body) == OldText(body[1..]) && OldSide(body) == OldSide(body[1..])
  {
    hide HasRemark;
    assert body[0] in body;
    assert [] + OldText(body[1..]) == OldText(body[1..]) && [] + OldSide(body[1..]) == OldSide(body[1..]);
  }

  lemma OnePicked(t: string, side: Side, n: int, lineStart: int, lineEnd: int)
    requires BodyLine(t)
    ensures Picks([t], side, n, lineStart, lineEnd)
            == if !HasRemark(t) && lineStart <= n <= lineEnd && (side == Right || (side == Left && t[0] != '+'))
               then [t] else []
  {
    hide HasRemark;
    assert [t][1..] == [];
  }

  lemma CleanParts(body: seq<string>)
    requires body != [] && Clean(body)
    ensures Clean(body[..|body| - 1]) && BodyLine(body[|body| - 1])
  {
    hide HasRemark, BodyLine;
    assert body[|body| - 1] in body;
  }

  /** What a range selects in a hunk is exactly the wanted lines, in order. */
  lemma {:induction false} PicksExactly(body: seq<string>, side: Side, start: int, lineStart: int, lineEnd: int)
    returns (at: seq<nat>)
    requires Clean(body)
    ensures TakenAt(body, Picks(body, side, start, lineStart, lineEnd), at)
    ensures forall k :: 0 <= k < |body| ==> (k in at <==> Wanted(body, k, side, start, lineStart, lineEnd))
    decreases |body|
  {
    hide Picks, Clean, BodyLine, HasRemark, OldSide, NewSide, OldText, NewText;
    at := [];
    if body == [] {
      NothingPicked(side, start, lineStart, lineEnd);
    } else {
      var n := |body| - 1;
      var front, t := body[..n], body[n];
      CleanParts(body);
      var before := PicksExactly(front, side, start, lineStart, lineEnd);
      OldTextIsOldSide(front);
      NewTextIsNewSide(front);
      PicksConcat(front, t, side, start, lineStart, lineEnd);
      assert body == front + [t];
      OnePicked(t, side, start + |SideText(front, side)|, lineStart, lineEnd);
      BodyLineIs(t);
      var wanted := Wanted(body, n, side, start, lineStart, lineEnd);
      at := if wanted then before + [n] else before;
      TakenMore(body, Picks(front, side, start, lineStart, lineEnd), before, wanted);
      forall k | 0 <= k < n
        ensures Wanted(body, k, side, start, lineStart, lineEnd) <==> Wanted(front, k, side, start, lineStart, lineEnd)
      {
        assert front[..k] == body[..k] && front[k] == body[k];
      }
    }
  }

  lemma BodyLineIs(t: string)
    requires BodyLine(t)
    ensures t != ""
  {}

  lemma TakenMore(body: seq<string>, lines: seq<string>, before: seq<nat>, wanted: bool)
    requires body != [] && TakenAt(body[..|body| - 1], lines, before)
    ensures |body| - 1 !in before
    ensures TakenAt(body, if wanted then lines + [body[|body| - 1]] else lines,
                    if wanted then before + [|body| - 1] else before)
  {
    var n := |body| - 1;
    assert forall k :: 0 <= k < |before| ==> before[k] < n && lines[k] == body[before[k]];
  }

  // ----- over the whole patch -----

  function StartOf(h: Header, side: Side): int {
    match side
    case Left => h.start1
    case Right => h.start2
    case Other => -1
  }

  /** What every hunk whose chosen side holds the first line asked for gives. */
  function Chosen(hunks: seq<Hunk>, side: Side, lineStart: int, lineEnd: int): seq<string> {
    if hunks == [] then []
    else
      var h := hunks[0];
      (if Holds(h.header, side, lineStart)
       then Picks(h.body, side, StartOf(h.header, side), lineStart, lineEnd) else [])
      + Chosen(hunks[1..], side, lineStart, lineEnd)
  }

  lemma EnterIs(h: Header, side: Side, line: int)
    ensures Enter(h, side, line) == Cursor(StartOf(h, side), !Holds(h, side, line), 0)
  {}

  lemma AfterHeader(h: Hunk, rest: seq<Hunk>, side: Side, lineStart: int, lineEnd: int, st: Cursor)
    requires !HasRemark(h.header.section)
    ensures var lines, st' := Txts(h.body) + Flatten(rest), Enter(h.header, side, lineStart);
            && Select(Flatten([h] + rest), side, lineStart, lineEnd, st) == Select(lines, side, lineStart, lineEnd, st')
            && Shown(Flatten([h] + rest), side, lineStart, st)
               == (if st'.skip then [] else [Txt(""), Hdr(h.header)]) + Shown(lines, side, lineStart, st')
  {
    hide HasRemark, Enter;
    var hunks := [h] + rest;
    assert hunks[1..] == rest;
    FlattenStep(hunks);
    var lines := Flatten(hunks);
    assert lines[0] == Hdr(h.header) && lines[1..] == Txts(h.body) + Flatten(rest);
  }

  lemma {:induction false} SkippedBody(
      body: seq<string>, rest: seq<PatchLine>, side: Side, lineStart: int, lineEnd: int, st: Cursor)
    requires st.skip
    ensures Select(Txts(body) + rest, side, lineStart, lineEnd, st) == Select(rest, side, lineStart, lineEnd, st)
    ensures Shown(Txts(body) + rest, side, lineStart, st) == Shown(rest, side, lineStart, st)
    decreases |body|
  {
    hide HasRemark, Marked;
    if body == [] {
      assert Txts(body) + rest == rest;
    } else {
      var lines := Txts(body) + rest;
      assert lines[0] == Txt(body[0]) && lines[1..] == Txts(body[1..]) + rest;
      SkippedBody(body[1..], rest, side, lineStart, lineEnd, st);
      Reassoc(Select(rest, side, lineStart, lineEnd, st), [], []);
      Reassoc(Shown(rest, side, lineStart, st), [], []);
    }
  }

  /** On either side, of any clean patch, with whatever was read before. */
  lemma {:induction false} SelectsHunkByHunk(hunks: seq<Hunk>, side: Side, lineStart: int, lineEnd: int, st: Cursor)
    requires forall h :: h in hunks ==> CleanHunk(h)
    ensures Select(Flatten(hunks), side, lineStart, lineEnd, st) == Chosen(hunks, side, lineStart, lineEnd)
    decreases |hunks|
  {
    if hunks != [] {
      hide Select, Picks, Clean, HasRemark, Holds, Enter, Flatten;
      var h, rest := hunks[0], hunks[1..];
      var st' := Enter(h.header, side, lineStart);
      assert hunks == [h] + rest && CleanHunk(h);
      AfterHeader(h, rest, side, lineStart, lineEnd, st);
      EnterIs(h.header, side, lineStart);
      if st'.skip {
        SkippedBody(h.body, Flatten(rest), side, lineStart, lineEnd, st');
        SelectsHunkByHunk(rest, side, lineStart, lineEnd, st');
        Reassoc(Chosen(rest, side, lineStart, lineEnd), [], []);
      } else {
        CleanIsUnmarked(h.body);
        SelectPicks(h.body, Flatten(rest), side, lineStart, lineEnd, st');
        SelectsHunkByHunk(rest, side, lineStart, lineEnd, st'.(count := |SideText(h.body, side)|));
      }
    } else {
      NothingFlat();
    }
  }

  lemma NothingFlat()
    ensures Flatten([]) == []
  {}

  /** Beside the selection: each such hunk behind a blank line, whole but for the remark. */
  function ShownHunks(hunks: seq<Hunk>, side: Side, lineStart: int): seq<PatchLine> {
    if hunks == [] then []
    else
      (if Holds(hunks[0].header, side, lineStart)
       then [Txt(""), Hdr(hunks[0].header)] + Txts(Kept(hunks[0].body)) else [])
      + ShownHunks(hunks[1..], side, lineStart)
  }

  lemma ShownOne(t: string, lines: seq<PatchLine>, side: Side, lineStart: int, st: Cursor)
    requires !Marked(t) && !st.skip
    ensures Shown([Txt(t)] + lines, side, lineStart, st)
            == (if HasRemark(t) then [] else [Txt(t)]) + Shown(lines, side, lineStart, Advance(t, side, st))
    ensures !Advance(t, side, st).skip
  {
    hide HasRemark, Marked, IsMinus, IsPlus;
    var all := [Txt(t)] + lines;
    assert all[0] == Txt(t) && all[1..] == lines;
  }

  lemma {:induction false} ShownBody(body: seq<string>, rest: seq<PatchLine>, side: Side, lineStart: int, st: Cursor)
    returns (st': Cursor)
    requires Unmarked(body) && !st.skip
    ensures Shown(Txts(body) + rest, side, lineStart, st) == Txts(Kept(body)) + Shown(rest, side, lineStart, st')
    decreases |body|
  {
    hide *;
    if body == [] {
      NothingPicked(side, 0, 0, 0);
      NoTxts(rest);
      NoTxts(Shown(rest, side, lineStart, st));
      st' := st;
    } else {
      FirstUnmarked(body, rest);
      ShownOne(body[0], Txts(body[1..]) + rest, side, lineStart, st);
      st' := ShownBody(body[1..], rest, side, lineStart, Advance(body[0], side, st));
      PickStep(body, side, 0, 0, 0);
      TxtsOne(body[0], Kept(body[1..]));
      Reassoc(if HasRemark(body[0]) then [] else [Txt(body[0])], Txts(Kept(body[1..])),
              Shown(rest, side, lineStart, st'));
    }
  }

  lemma TxtsOne(t: string, more: seq<string>)
    ensures Txts([t] + more) == [Txt(t)] + Txts(more) && Txts([] + more) == [] + Txts(more)
  {
    assert ([t] + more)[1..] == more && [] + more == more;
  }

  lemma {:induction false} ShowsWholeHunks(hunks: seq<Hunk>, side: Side, lineStart: int, st: Cursor)
    requires forall h :: h in hunks ==> CleanHunk(h)
    ensures Shown(Flatten(hunks), side, lineStart, st) == ShownHunks(hunks, side, lineStart)
    decreases |hunks|
  {
    if hunks != [] {
      hide Shown, Clean, HasRemark, Holds, Enter, Flatten, Kept;
      var h, rest := hunks[0], hunks[1..];
      var st' := Enter(h.header, side, lineStart);
      assert hunks == [h] + rest && CleanHunk(h);
      AfterHeader(h, rest, side, lineStart, 0, st);
      EnterIs(h.header, side, lineStart);
      if st'.skip {
        SkippedBody(h.body, Flatten(rest), side, lineStart, 0, st');
        ShowsWholeHunks(rest, side, lineStart, st');
      } else {
        CleanIsUnmarked(h.body);
        var end := ShownBody(h.body, Flatten(rest), side, lineStart, st');
        ShowsWholeHunks(rest, side, lineStart, end);
        Reassoc([Txt(""), Hdr(h.header)], Txts(Kept(h.body)), ShownHunks(rest, side, lineStart));
      }
    } else {
      NothingFlat();
    }
  }

  // ----- the old side against the old file -----

  /** Lines without their one-character prefix. */
  function Contents(lines: seq<string>): seq<string> {
    if lines == [] then [] else [if lines[0] == "" then "" else lines[0][1..]] + Contents(lines[1..])
  }

  lemma {:induction false} PicksOldSide(body: seq<string>, n: int, lineStart: int, lineEnd: int)
    requires Clean(body)
    ensures Contents(Picks(body, Left, n, lineStart, lineEnd)) == InRange(OldSide(body), n, lineStart, lineEnd)
    decreases |body|
  {
    hide HasRemark, Clean, BodyLine, InRange, Picks, Contents, OldSide;
    if body == [] {
      NothingPicked(Left, n, lineStart, lineEnd);
      NothingInRange(n, lineStart, lineEnd);
      NoContents();
    } else {
      FirstLineIsClean(body);
      CleanTail(body);
      var t, rest := body[0], body[1..];
      PickStep(body, Left, n, lineStart, lineEnd);
      OldSideFirst(body);
      var m := if t[0] in " -" then n + 1 else n;
      PicksOldSide(rest, m, lineStart, lineEnd);
      ContentsCons(t, Picks(rest, Left, m, lineStart, lineEnd));
      if t[0] in " -" {
        InRangeStep(OldSide(body), n, lineStart, lineEnd);
      }
      Reassoc(Picks(rest, Left, m, lineStart, lineEnd), [], []);
    }
  }

  lemma OldSideFirst(body: seq<string>)
    requires body != [] && body[0] != ""
    ensures var t := body[0];
            if t[0] in " -" then
              OldSide(body) == [t[1..]] + OldSide(body[1..]) && OldSide(body)[0] == t[1..]
              && OldSide(body)[1..] == OldSide(body[1..])
            else OldSide(body) == OldSide(body[1..])
  {
    Reassoc(OldSide(body[1..]), [], []);
  }

  lemma NoContents()
    ensures Contents([]) == [] && OldSide([]) == []
  {}

  lemma ContentsCons(t: string, lines: seq<string>)
    ensures Contents([t] + lines) == [if t == "" then "" else t[1..]] + Contents(lines)
  {
    assert ([t] + lines)[1..] == lines;
  }

  /** Last old-side line of the hunk that holds `line`. */
  function OldEndOf(hunks: seq<Hunk>, line: int): int
    requires exists h :: h in hunks && Holds(h.header, Left, line)
  {
    if Holds(hunks[0].header, Left, line) then hunks[0].header.start1 + hunks[0].header.size1 - 1
    else
      assert hunks == [hunks[0]] + hunks[1..];
      OldEndOf(hunks[1..], line)
  }

  lemma {:induction false} LaterOldSides(hunks: seq<Hunk>, base: seq<string>, head: seq<string>, i: nat, j: nat)
    requires i <= |base| && j <= |head| && WellFormed(hunks, base, head, i, j)
    ensures forall h :: h in hunks ==> i <= OldPos(h.header)
    decreases |hunks|
  {
    hide HunkFits;
    if hunks != [] {
      var h := hunks[0];
      FitsIsSized(h, base, head);
      LaterOldSides(hunks[1..], base, head, OldPos(h.header) + h.header.size1, NewPos(h.header) + h.header.size2);
    }
  }

  lemma {:induction false} NothingChosen(hunks: seq<Hunk>, side: Side, lineStart: int, lineEnd: int)
    requires forall h :: h in hunks ==> !Holds(h.header, side, lineStart)
    ensures Chosen(hunks, side, lineStart, lineEnd) == []
  {
    if hunks != [] {
      NothingChosen(hunks[1..], side, lineStart, lineEnd);
    }
  }

  lemma OldHunkSlice(h: Hunk, base: seq<string>, head: seq<string>, lineStart: int, lineEnd: int)
    requires HunkFits(h, base, head) && Holds(h.header, Left, lineStart)
    ensures InRange(OldSide(h.body), h.header.start1, lineStart, lineEnd)
            == Slice(base, lineStart - 1, Max(lineStart - 1, Min(lineEnd, h.header.start1 + h.header.size1 - 1)))
  {
    hide InRange, Slice, BodyLine;
    FitsIsSized(h, base, head);
    InRangeIsSlice(OldSide(h.body), h.header.start1, lineStart, lineEnd);
    SliceInHunk(OldSide(h.body), base, OldPos(h.header), lineStart - h.header.start1, lineEnd + 1 - h.header.start1);
  }

  /** The left-side selection is the old file from the first line asked for to the last or the end of the hunk. */
  lemma {:induction false} LeftSelectionIsFileSlice(
      hunks: seq<Hunk>, base: seq<string>, head: seq<string>, i: nat, j: nat, lineStart: int, lineEnd: int, st: Cursor)
    requires i <= |base| && j <= |head| && WellFormed(hunks, base, head, i, j)
    requires forall h :: h in hunks ==> CleanHunk(h)
    requires exists h :: h in hunks && Holds(h.header, Left, lineStart)
    ensures Contents(Select(Flatten(hunks), Left, lineStart, lineEnd, st))
            == Slice(base, lineStart - 1, Max(lineStart - 1, Min(lineEnd, OldEndOf(hunks, lineStart))))
  {
    hide Select, Flatten, WellFormed, Clean, HasRemark, HunkFits;
    SelectsHunkByHunk(hunks, Left, lineStart, lineEnd, st);
    ChosenIsSlice(hunks, base, head, i, j, lineStart, lineEnd);
  }

  lemma {:induction false} ChosenIsSlice(
      hunks: seq<Hunk>, base: seq<string>, head: seq<string>, i: nat, j: nat, lineStart: int, lineEnd: int)
    requires i <= |base| && j <= |head| && WellFormed(hunks, base, head, i, j)
    requires forall h :: h in hunks ==> CleanHunk(h)
    requires exists h :: h in hunks && Holds(h.header, Left, lineStart)
    ensures Contents(Chosen(hunks, Left, lineStart, lineEnd))
            == Slice(base, lineStart - 1, Max(lineStart - 1, Min(lineEnd, OldEndOf(hunks, lineStart))))
    decreases |hunks|
  {
    hide Contents, Clean, Slice, InRange, OldSide, HunkFits, WellFormed, HasRemark, Picks;
    var h, rest := hunks[0], hunks[1..];
    assert hunks == [h] + rest && CleanHunk(h);
    var c, d := FirstHunk(hunks, base, head, i, j);
    LaterOldSides(rest, base, head, c, d);
    if Holds(h.header, Left, lineStart) {
      OnlyFirstHolds(h, rest, lineStart, c);
      NothingChosen(rest, Left, lineStart, lineEnd);
      PicksOldSide(h.body, h.header.start1, lineStart, lineEnd);
      OldHunkSlice(h, base, head, lineStart, lineEnd);
      Reassoc(Picks(h.body, Left, h.header.start1, lineStart, lineEnd), [], []);
    } else {
      ChosenIsSlice(rest, base, head, c, d, lineStart, lineEnd);
      Reassoc(Chosen(rest, Left, lineStart, lineEnd), [], []);
    }
  }

  lemma OnlyFirstHolds(h: Hunk, rest: seq<Hunk>, line: int, c: int)
    requires Holds(h.header, Left, line) && c == OldPos(h.header) + h.header.size1
    requires forall x :: x in rest ==> c <= OldPos(x.header)
    ensures forall x :: x in rest ==> !Holds(x.header, Left, line)
  {
    forall x | x in rest ensures !Holds(x.header, Left, line) {
      assert c <= OldPos(x.header);
    }
  }
}
