/**
 Dropping deletion-only hunks and selecting line ranges, against the two real files
 (pr_agent/algo/git_patch_processing.py, pr_agent/git_providers/diff_parsing.py, pr_agent/algo/utils.py).
 */
module PatchSelection {
  import opened Bounds
  import opened PatchLineNumbers
  import opened PatchModel
  import opened PatchNumbering
  import opened Sequences

  // ----- dropping deletion-only hunks -----

  /** The hunks that add a line. */
  function Survivors(hunks: seq<Hunk>): seq<Hunk> {
    if hunks == [] then []
    else (if AnyPlus(hunks[0].body) then [hunks[0]] else []) + Survivors(hunks[1..])
  }

  lemma {:induction false} OmitBody(body: seq<string>, rest: seq<PatchLine>, st: Held)
    requires Unmarked(body)
    ensures Omit(Txts(body) + rest, st)
            == Omit(rest, Held(st.lines + Txts(body), st.add || AnyPlus(body), st.inside))
    decreases |body|
  {
    if body == [] {
      hide Omit;
      assert Txts(body) + rest == rest;
      Reassoc(st.lines, [], []);
    } else {
      hide Omit, Txts, AnyPlus, IsPlus;
      var t := body[0];
      OmitStep(body, rest, st);
      OmitBody(body[1..], rest, Held(st.lines + [Txt(t)], st.add || IsPlus(t), st.inside));
      Reassoc(st.lines, [Txt(t)], Txts(body[1..]));
      BodyStep(body);
    }
  }

  lemma OmitStep(body: seq<string>, rest: seq<PatchLine>, st: Held)
    requires body != [] && Unmarked(body)
    ensures Unmarked(body[1..])
    ensures Omit(Txts(body) + rest, st)
            == Omit(Txts(body[1..]) + rest, Held(st.lines + [Txt(body[0])], st.add || IsPlus(body[0]), st.inside))
  {
    hide Marked;
    var t, lines := body[0], Txts(body) + rest;
    assert t in body;
    assert lines[0] == Txt(t) && lines[1..] == Txts(body[1..]) + rest;
  }

  lemma BodyStep(body: seq<string>)
    requires body != []
    ensures Txts(body) == [Txt(body[0])] + Txts(body[1..])
    ensures AnyPlus(body) <==> IsPlus(body[0]) || AnyPlus(body[1..])
  {
    assert body == [body[0]] + body[1..];
  }

  lemma {:induction false} OmitHunks(hunks: seq<Hunk>, st: Held)
    requires st.inside && forall h :: h in hunks ==> Unmarked(h.body)
    ensures Omit(Flatten(hunks), st) == Release(st) + Flatten(Survivors(hunks))
    decreases |hunks|
  {
    hide Unmarked, AnyPlus;
    if hunks == [] {
      Reassoc(Release(st), [], []);
    } else {
      var h, rest, lines := hunks[0], hunks[1..], Flatten(hunks);
      FlattenStep(hunks);
      assert lines[0] == Hdr(h.header) && lines[1..] == Txts(h.body) + Flatten(rest);
      OmitBody(h.body, Flatten(rest), Held([lines[0]], false, true));
      var st' := Held([lines[0]] + Txts(h.body), AnyPlus(h.body), true);
      OmitHunks(rest, st');
      FlattenSurvivors(hunks);
      assert Release(st') == if AnyPlus(h.body) then [Hdr(h.header)] + Txts(h.body) else [];
    }
  }

  lemma FlattenSurvivors(hunks: seq<Hunk>)
    requires hunks != []
    ensures Flatten(Survivors(hunks))
            == (if AnyPlus(hunks[0].body) then [Hdr(hunks[0].header)] + Txts(hunks[0].body) else [])
               + Flatten(Survivors(hunks[1..]))
  {
    hide AnyPlus, Flatten, Txts;
    Reassoc(Survivors(hunks[1..]), [], []);
    Reassoc(Flatten(Survivors(hunks[1..])), [], []);
    if AnyPlus(hunks[0].body) {
      var s := Survivors(hunks);
      assert s[0] == hunks[0] && s[1..] == Survivors(hunks[1..]);
      FlattenStep(s);
      Reassoc([Hdr(hunks[0].header)], Txts(hunks[0].body), Flatten(s[1..]));
    }
  }

  /**
   Exactly the hunks with an addition survive, in order and unchanged; but lines ahead of the first
   header are taken as part of the first hunk, so a "+++" file header there keeps it in any case.
   */
  lemma OmitPatch(prelude: seq<string>, hunks: seq<Hunk>)
    requires hunks != [] && Unmarked(prelude) && forall h :: h in hunks ==> Unmarked(h.body)
    ensures Omit(Txts(prelude) + Flatten(hunks), Held([], false, false))
            == (if AnyPlus(prelude) || AnyPlus(hunks[0].body)
                then Txts(prelude) + ([Hdr(hunks[0].header)] + Txts(hunks[0].body)) else [])
               + Flatten(Survivors(hunks[1..]))
  {
    hide Unmarked, AnyPlus;
    var h, rest, lines := hunks[0], hunks[1..], Flatten(hunks);
    OmitBody(prelude, lines, Held([], false, false));
    Reassoc(Txts(prelude), [], []);
    FlattenStep(hunks);
    assert lines[0] == Hdr(h.header) && lines[1..] == Txts(h.body) + Flatten(rest);
    var held := Txts(prelude) + [lines[0]];
    OmitBody(h.body, Flatten(rest), Held(held, AnyPlus(prelude), true));
    OmitHunks(rest, Held(held + Txts(h.body), AnyPlus(prelude) || AnyPlus(h.body), true));
    Reassoc(Txts(prelude), [lines[0]], Txts(h.body));
  }

  lemma {:induction false} HunkOnlyDropsPrelude(prelude: seq<string>, hunks: seq<Hunk>)
    requires hunks != [] && Unmarked(prelude)
    ensures HunkOnly(Txts(prelude) + Flatten(hunks)) == Flatten(hunks)
    decreases |prelude|
  {
    hide Marked;
    var lines := Txts(prelude) + Flatten(hunks);
    if prelude == [] {
      assert lines == Flatten(hunks);
    } else {
      assert lines[0] == Txt(prelude[0]) && lines[1..] == Txts(prelude[1..]) + Flatten(hunks);
      HunkOnlyDropsPrelude(prelude[1..], hunks);
    }
  }

  /** Once the file header is cut off, the hunks that add a line are exactly what is left. */
  lemma OmitAfterHunkOnly(prelude: seq<string>, hunks: seq<Hunk>)
    requires hunks != [] && Unmarked(prelude) && forall h :: h in hunks ==> Unmarked(h.body)
    ensures Omit(HunkOnly(Txts(prelude) + Flatten(hunks)), Held([], false, false)) == Flatten(Survivors(hunks))
  {
    hide Unmarked, AnyPlus;
    HunkOnlyDropsPrelude(prelude, hunks);
    NothingUnmarked();
    Reassoc(Flatten(hunks), [], []);
    OmitPatch([], hunks);
    FlattenSurvivors(hunks);
  }

  lemma NothingUnmarked()
    ensures Unmarked([]) && !AnyPlus([]) && Txts([]) == []
    ensures forall s: seq<PatchLine> :: [] + s == s
  {}

  // ----- selecting a line range -----

  /** Text of the selected lines that are in the new file. */
  function DropMinus(selected: seq<string>): seq<string> {
    if selected == [] then []
    else (if IsMinus(selected[0]) then [] else [if selected[0] == "" then "" else selected[0][1..]])
         + DropMinus(selected[1..])
  }

  /** Lines numbered from `n` on that fall in the range. */
  function InRange(lines: seq<string>, n: int, lineStart: int, lineEnd: int): seq<string> {
    if lines == [] then []
    else (if lineStart <= n <= lineEnd then [lines[0]] else []) + InRange(lines[1..], n + 1, lineStart, lineEnd)
  }

  lemma {:induction false} InRangeIsSlice(lines: seq<string>, n: int, lineStart: int, lineEnd: int)
    ensures InRange(lines, n, lineStart, lineEnd) == Slice(lines, Max(0, lineStart - n), Max(0, lineEnd + 1 - n))
    decreases |lines|
  {
    if lines != [] {
      hide Slice, InRange;
      InRangeIsSlice(lines[1..], n + 1, lineStart, lineEnd);
      InRangeStep(lines, n, lineStart, lineEnd);
      var lo, hi := Max(0, lineStart - n), Max(0, lineEnd + 1 - n);
      if lo == 0 && hi > 0 {
        SliceFromStart(lines, hi);
      } else if lo == 0 {
        SliceEmpty(lines);
        SliceEmpty(lines[1..]);
      } else {
        SliceFromLater(lines, lo, hi);
      }
    }
  }

  lemma InRangeStep(lines: seq<string>, n: int, lineStart: int, lineEnd: int)
    requires lines != []
    ensures InRange(lines, n, lineStart, lineEnd)
            == if lineStart <= n <= lineEnd then [lines[0]] + InRange(lines[1..], n + 1, lineStart, lineEnd)
               else InRange(lines[1..], n + 1, lineStart, lineEnd)
  {
    assert [] + InRange(lines[1..], n + 1, lineStart, lineEnd) == InRange(lines[1..], n + 1, lineStart, lineEnd);
  }

  lemma SliceFromStart(lines: seq<string>, hi: int)
    requires lines != [] && hi > 0
    ensures Slice(lines, 0, hi) == [lines[0]] + Slice(lines[1..], 0, hi - 1)
  {}

  lemma SliceEmpty(lines: seq<string>)
    ensures Slice(lines, 0, 0) == []
  {}

  lemma SliceFromLater(lines: seq<string>, lo: int, hi: int)
    requires lines != [] && lo > 0 && hi >= 0
    ensures Slice(lines, lo, hi) == Slice(lines[1..], lo - 1, Max(0, hi - 1))
  {
    hide *;
    var a, b := Clamp(lo, |lines|), Clamp(hi, |lines|);
    ClampsFollow(lo, hi, |lines|);
    SliceIs(lines, lo, hi);
    SliceIs(lines[1..], lo - 1, Max(0, hi - 1));
    if a <= b {
      TailSlice(lines, a, b);
    }
  }

  lemma SliceIs(lines: seq<string>, lo: int, hi: int)
    ensures var a, b := Clamp(lo, |lines|), Clamp(hi, |lines|);
            Slice(lines, lo, hi) == if a <= b then lines[a..b] else []
  {
    hide Clamp;
  }

  lemma ClampsFollow(lo: int, hi: int, n: nat)
    requires n > 0 && lo > 0 && hi >= 0
    ensures Clamp(lo, n) >= 1
    ensures Clamp(lo - 1, n - 1) == Clamp(lo, n) - 1
    ensures Clamp(hi, n) >= 1 ==> Clamp(Max(0, hi - 1), n - 1) == Clamp(hi, n) - 1
    ensures Clamp(hi, n) == 0 ==> Clamp(Max(0, hi - 1), n - 1) == 0
  {}

  lemma TailSlice(lines: seq<string>, a: nat, b: nat)
    requires 1 <= a <= b <= |lines|
    ensures lines[1..][a - 1..b - 1] == lines[a..b]
  {}

  lemma {:induction false} DropMinusConcat(a: seq<string>, b: seq<string>)
    ensures DropMinus(a + b) == DropMinus(a) + DropMinus(b)
  {
    if a == [] {
      assert a + b == b;
    } else {
      assert (a + b)[1..] == a[1..] + b;
      DropMinusConcat(a[1..], b);
    }
  }

  /** Reading a body on the right side selects the new-side lines of the range, and counts them all. */
  lemma {:induction false} SelectBody(
      body: seq<string>, rest: seq<PatchLine>, lineStart: int, lineEnd: int, st: Cursor)
    requires Clean(body) && !st.skip
    ensures var n := st.start + st.count;
            DropMinus(Select(Txts(body) + rest, Right, lineStart, lineEnd, st))
            == InRange(NewSide(body), n, lineStart, lineEnd)
               + DropMinus(Select(rest, Right, lineStart, lineEnd, st.(count := st.count + |NewSide(body)|)))
    decreases |body|
  {
    hide HasRemark, Marked, BodyLine, InRange, DropMinus, Select;
    if body == [] {
      assert Txts(body) + rest == rest;
      NothingInRange(st.start + st.count, lineStart, lineEnd);
      Reassoc([], DropMinus(Select(rest, Right, lineStart, lineEnd, st)), []);
    } else {
      hide NewSide, Advance, Picked;
      FirstLineIsClean(body);
      CleanTail(body);
      StepInRange(body, st, lineStart, lineEnd);
      SelectStep(body, rest, lineStart, lineEnd, st);
      var st' := Advance(body[0], Right, st);
      SelectBody(body[1..], rest, lineStart, lineEnd, st');
      Reassoc(DropMinus(if !HasRemark(body[0]) && Picked(body[0], Right, lineStart, lineEnd, st) then [body[0]]
                        else []),
              InRange(NewSide(body[1..]), st'.start + st'.count, lineStart, lineEnd),
              DropMinus(Select(rest, Right, lineStart, lineEnd, st.(count := st.count + |NewSide(body)|))));
    }
  }

  lemma SelectTxt(t: string, lines: seq<PatchLine>, lineStart: int, lineEnd: int, st: Cursor)
    requires lines != [] && lines[0] == Txt(t) && !Marked(t) && !st.skip
    ensures Select(lines, Right, lineStart, lineEnd, st)
            == (if !HasRemark(t) && Picked(t, Right, lineStart, lineEnd, st) then [t] else [])
               + Select(lines[1..], Right, lineStart, lineEnd, Advance(t, Right, st))
  {
    hide HasRemark, Marked, Picked, Advance;
  }

  lemma SelectStep(body: seq<string>, rest: seq<PatchLine>, lineStart: int, lineEnd: int, st: Cursor)
    requires body != [] && !Marked(body[0]) && !st.skip
    ensures var t := body[0];
            DropMinus(Select(Txts(body) + rest, Right, lineStart, lineEnd, st))
            == DropMinus(if !HasRemark(t) && Picked(t, Right, lineStart, lineEnd, st) then [t] else [])
               + DropMinus(Select(Txts(body[1..]) + rest, Right, lineStart, lineEnd, Advance(t, Right, st)))
  {
    hide HasRemark, Marked, DropMinus, Picked, Advance, Select;
    var t, lines := body[0], Txts(body) + rest;
    assert lines[0] == Txt(t) && lines[1..] == Txts(body[1..]) + rest;
    SelectTxt(t, lines, lineStart, lineEnd, st);
    DropMinusConcat(if !HasRemark(t) && Picked(t, Right, lineStart, lineEnd, st) then [t] else [],
                    Select(lines[1..], Right, lineStart, lineEnd, Advance(t, Right, st)));
  }

  lemma NothingInRange(n: int, lineStart: int, lineEnd: int)
    ensures InRange([], n, lineStart, lineEnd) == []
  {}

  lemma FirstLineIsClean(body: seq<string>)
    requires body != [] && Clean(body)
    ensures body[0] != "" && !Marked(body[0])
    ensures HasRemark(body[0]) <==> body[0][0] == '\\'
    ensures body[0][0] in " +-\\"
  {
    hide HasRemark;
    assert body[0] in body;
  }

  lemma StepInRange(body: seq<string>, st: Cursor, lineStart: int, lineEnd: int)
    requires body != [] && Clean(body) && !st.skip
    ensures var t, n, st' := body[0], st.start + st.count, Advance(body[0], Right, st);
            && !st'.skip && st'.start == st.start
            && st'.count + |NewSide(body[1..])| == st.count + |NewSide(body)|
            && DropMinus(if !HasRemark(t) && Picked(t, Right, lineStart, lineEnd, st) then [t] else [])
               + InRange(NewSide(body[1..]), st'.start + st'.count, lineStart, lineEnd)
               == InRange(NewSide(body), n, lineStart, lineEnd)
  {
    hide HasRemark, Marked, Clean, InRange, DropMinus, NewSide;
    FirstLineIsClean(body);
    var t, n := body[0], st.start + st.count;
    NewSideFirst(body);
    DropMinusOne(t);
    NothingSelected([]);
    Reassoc(InRange(NewSide(body[1..]), Advance(t, Right, st).start + Advance(t, Right, st).count, lineStart, lineEnd),
            [], []);
    if t[0] in " +" {
      InRangeStep(NewSide(body), n, lineStart, lineEnd);
    }
  }

  lemma NewSideFirst(body: seq<string>)
    requires body != [] && body[0] != ""
    ensures var t := body[0];
            if t[0] in " +" then
              && NewSide(body) == [t[1..]] + NewSide(body[1..])
              && NewSide(body)[0] == t[1..] && NewSide(body)[1..] == NewSide(body[1..])
            else NewSide(body) == NewSide(body[1..])
  {
    Reassoc(NewSide(body[1..]), [], []);
  }

  lemma DropMinusOne(t: string)
    requires t != ""
    ensures DropMinus([t]) == (if IsMinus(t) then [] else [t[1..]]) && DropMinus([]) == []
  {
    assert [t][1..] == [];
  }

  lemma {:induction false} SelectSkipped(
      body: seq<string>, rest: seq<PatchLine>, lineStart: int, lineEnd: int, st: Cursor)
    requires st.skip
    ensures Select(Txts(body) + rest, Right, lineStart, lineEnd, st) == Select(rest, Right, lineStart, lineEnd, st)
    decreases |body|
  {
    hide HasRemark, Marked;
    if body == [] {
      assert Txts(body) + rest == rest;
    } else {
      var lines := Txts(body) + rest;
      assert lines[0] == Txt(body[0]) && lines[1..] == Txts(body[1..]) + rest;
      SelectSkipped(body[1..], rest, lineStart, lineEnd, st);
    }
  }

  /** Nothing is selected from hunks whose new side does not hold the first line asked for. */
  lemma {:induction false} SelectNone(hunks: seq<Hunk>, lineStart: int, lineEnd: int, st: Cursor)
    requires forall h :: h in hunks ==> CleanHunk(h) && !Covers(h.header, lineStart)
    ensures Select(Flatten(hunks), Right, lineStart, lineEnd, st) == []
    decreases |hunks|
  {
    hide HasRemark, Clean;
    if hunks != [] {
      var h, lines := hunks[0], Flatten(hunks);
      assert CleanHunk(h);
      FlattenStep(hunks);
      assert lines[0] == Hdr(h.header) && lines[1..] == Txts(h.body) + Flatten(hunks[1..]);
      SelectSkipped(h.body, Flatten(hunks[1..]), lineStart, lineEnd, Enter(h.header, Right, lineStart));
      SelectNone(hunks[1..], lineStart, lineEnd, Enter(h.header, Right, lineStart));
    }
  }

  /** Last new-side line of the hunk that holds `line`. */
  function EndOf(hunks: seq<Hunk>, line: int): int
    requires exists h :: h in hunks && Covers(h.header, line)
  {
    if Covers(hunks[0].header, line) then hunks[0].header.start2 + hunks[0].header.size2 - 1
    else
      assert hunks == [hunks[0]] + hunks[1..];
      EndOf(hunks[1..], line)
  }

  lemma {:induction false} LaterHunksFollow(hunks: seq<Hunk>, base: seq<string>, head: seq<string>, i: nat, j: nat)
    requires i <= |base| && j <= |head| && WellFormed(hunks, base, head, i, j)
    ensures forall h :: h in hunks ==> j <= NewPos(h.header)
    decreases |hunks|
  {
    hide HunkFits;
    if hunks != [] {
      var h := hunks[0];
      FitsIsSized(h, base, head);
      LaterHunksFollow(hunks[1..], base, head, OldPos(h.header) + h.header.size1, NewPos(h.header) + h.header.size2);
    }
  }

  /**
   Selecting from the patch is slicing the new file: for a first line inside a hunk's new side, the
   right-side selection without its deleted lines is the new file from that line to the last line asked
   for or the end of the hunk, whichever comes first.
   */
  lemma {:induction false} SelectionIsFileSlice(
      hunks: seq<Hunk>, base: seq<string>, head: seq<string>, i: nat, j: nat, lineStart: int, lineEnd: int, st: Cursor)
    requires i <= |base| && j <= |head| && WellFormed(hunks, base, head, i, j)
    requires forall h :: h in hunks ==> CleanHunk(h)
    requires exists h :: h in hunks && Covers(h.header, lineStart)
    ensures DropMinus(Select(Flatten(hunks), Right, lineStart, lineEnd, st))
            == Slice(head, lineStart - 1, Max(lineStart - 1, Min(lineEnd, EndOf(hunks, lineStart))))
    decreases |hunks|
  {
    hide Select, DropMinus, Clean, Slice, InRange, NewSide, HunkFits, Flatten, WellFormed, HasRemark;
    var h, rest := hunks[0], hunks[1..];
    assert hunks == [h] + rest && CleanHunk(h);
    var st' := Enter(h.header, Right, lineStart);
    SelectHeader(h, rest, lineStart, lineEnd, st);
    var c, d := FirstHunk(hunks, base, head, i, j);
    LaterHunksFollow(rest, base, head, c, d);
    if Covers(h.header, lineStart) {
      SelectBody(h.body, Flatten(rest), lineStart, lineEnd, st');
      SelectNone(rest, lineStart, lineEnd, st'.(count := |NewSide(h.body)|));
      NothingSelected(InRange(NewSide(h.body), h.header.start2, lineStart, lineEnd));
      HunkSlice(h, base, head, lineStart, lineEnd);
    } else {
      SelectSkipped(h.body, Flatten(rest), lineStart, lineEnd, st');
      SelectionIsFileSlice(rest, base, head, c, d, lineStart, lineEnd, st');
    }
  }

  lemma SelectHeader(h: Hunk, rest: seq<Hunk>, lineStart: int, lineEnd: int, st: Cursor)
    requires !HasRemark(h.header.section)
    ensures Select(Flatten([h] + rest), Right, lineStart, lineEnd, st)
            == Select(Txts(h.body) + Flatten(rest), Right, lineStart, lineEnd, Enter(h.header, Right, lineStart))
  {
    hide HasRemark;
    var hunks := [h] + rest;
    assert hunks[1..] == rest;
    FlattenStep(hunks);
    var lines := Flatten(hunks);
    assert lines[0] == Hdr(h.header) && lines[1..] == Txts(h.body) + Flatten(rest);
  }

  lemma NothingSelected(a: seq<string>)
    ensures a + DropMinus([]) == a
  {}

  lemma HunkSlice(h: Hunk, base: seq<string>, head: seq<string>, lineStart: int, lineEnd: int)
    requires HunkFits(h, base, head) && Covers(h.header, lineStart)
    ensures InRange(NewSide(h.body), h.header.start2, lineStart, lineEnd)
            == Slice(head, lineStart - 1,
                     Max(lineStart - 1, Min(lineEnd, h.header.start2 + h.header.size2 - 1)))
  {
    hide HunkFits, InRange, NewSide, Slice;
    FitsIsSized(h, base, head);
    InRangeIsSlice(NewSide(h.body), h.header.start2, lineStart, lineEnd);
    SliceInHunk(NewSide(h.body), head, NewPos(h.header), lineStart - h.header.start2, lineEnd + 1 - h.header.start2);
  }

  lemma SliceInHunk(side: seq<string>, head: seq<string>, a: nat, lo: nat, hi: int)
    requires a + |side| <= |head| && side == head[a..a + |side|] && lo < |side|
    ensures Slice(side, lo, Max(0, hi)) == Slice(head, a + lo, Max(a + lo, Min(a + hi, a + |side|)))
  {
    if hi > lo {
      var top := Min(hi, |side|);
      forall k | 0 <= k < top - lo ensures side[lo..top][k] == head[a + lo..a + top][k] {
        assert side[lo + k] == head[a + (lo + k)];
      }
    }
  }

  lemma FittingHunkIsClean(h: Hunk, base: seq<string>, head: seq<string>, hunks: seq<Hunk>)
    requires h in hunks && HunkFits(h, base, head) && NoRemarks(base, head, hunks)
    ensures CleanHunk(h)
  {
    hide HasRemark, BodyLine;
    CleanFromSides(h.body);
  }

  // ----- dropping hunks and numbering -----

  /** Dropping deletion-only hunks first leaves the numbered output of every surviving hunk as it was. */
  lemma SurvivorsKeepNumbers(hunks: seq<Hunk>)
    requires hunks != [] && forall h :: h in hunks ==> CleanHunk(h)
    ensures Number(Omit(Flatten(hunks), Held([], false, false)), true, NOTHING_READ) == Sections(Survivors(hunks))
    ensures Number(Flatten(hunks), true, NOTHING_READ) == Sections(hunks)
  {
    hide HasRemark, Clean, AnyPlus, Sections, Omit;
    forall h | h in hunks ensures Unmarked(h.body) {
      CleanIsUnmarked(h.body);
    }
    NothingUnmarked();
    OmitAfterHunkOnly([], hunks);
    Reassoc([], Flatten(hunks), []);
    HunkOnlyDropsPrelude([], hunks);
    SurvivorsAreHunks(hunks);
    NumberJoined(hunks, [], true, NOTHING_READ);
    if Survivors(hunks) != [] {
      NumberJoined(Survivors(hunks), [], true, NOTHING_READ);
    } else {
      assert Sections([]) == [] by { NoSections(); }
    }
  }

  lemma NoSections()
    ensures Sections([]) == []
  {}

  lemma CleanIsUnmarked(body: seq<string>)
    requires Clean(body)
    ensures Unmarked(body)
  {
    hide HasRemark;
    forall s | s in body ensures !Marked(s) { assert BodyLine(s); }
  }

  lemma {:induction false} SurvivorsAreHunks(hunks: seq<Hunk>)
    ensures forall h :: h in Survivors(hunks) ==> h in hunks
  {
    hide AnyPlus;
    if hunks != [] {
      SurvivorsAreHunks(hunks[1..]);
    }
  }
}
