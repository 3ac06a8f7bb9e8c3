/**
 What numbering and selecting make of a patch of any lines at all: lines in front of the first hunk, blank lines,
 remarks, and lines that look like a hunk header but are none (pr_agent/algo/git_patch_processing.py).
 */
module PatchStrays {
  import opened PatchLineNumbers
  import opened PatchModel
  import opened PatchNumbering
  import opened PatchSections
  import opened PatchSides
  import opened Sequences
  import opened Wrappers

  /** It starts like a hunk header and is none; with the remark in it the line is passed over as a remark. */
  predicate Stray(s: string) { Marked(s) && !HasRemark(s) }

  // ----- selecting -----

  function FirstStray(body: seq<string>): (k: nat)
    ensures k <= |body| && (forall j :: 0 <= j < k ==> !Stray(body[j])) && (k < |body| ==> Stray(body[k]))
  {
    if body == [] || Stray(body[0]) then 0 else 1 + FirstStray(body[1..])
  }

  /** The lines in front of the first stray header. */
  function Before(body: seq<string>): seq<string> { body[..FirstStray(body)] }

  function Cuts(hunks: seq<Hunk>): seq<Hunk> {
    if hunks == [] then [] else [hunks[0].(body := Before(hunks[0].body))] + Cuts(hunks[1..])
  }

  ghost predicate Headed(hunks: seq<Hunk>) { forall h :: h in hunks ==> !HasRemark(h.header.section) }

  lemma BeforeStep(body: seq<string>)
    requires body != []
    ensures Before(body) == if Stray(body[0]) then [] else [body[0]] + Before(body[1..])
  {}

  lemma StepOver(t: string, lines: seq<PatchLine>, side: Side, lineStart: int, lineEnd: int, st: Cursor)
    requires HasRemark(t) || Marked(t)
    ensures var st' := if HasRemark(t) then st else st.(skip := true);
            && Select([Txt(t)] + lines, side, lineStart, lineEnd, st) == Select(lines, side, lineStart, lineEnd, st')
            && Shown([Txt(t)] + lines, side, lineStart, st) == Shown(lines, side, lineStart, st')
  {
    hide HasRemark, Marked;
    var all := [Txt(t)] + lines;
    assert all[0] == Txt(t) && all[1..] == lines;
  }

  /** The lines in front of a stray header count, and nothing of the same hunk behind it. */
  lemma {:induction false} SelectsBefore(
      body: seq<string>, rest: seq<PatchLine>, side: Side, lineStart: int, lineEnd: int, st: Cursor)
    returns (st': Cursor)
    requires !st.skip
    ensures Select(Txts(body) + rest, side, lineStart, lineEnd, st)
            == Picks(Before(body), side, st.start + st.count, lineStart, lineEnd)
               + Select(rest, side, lineStart, lineEnd, st')
    ensures Shown(Txts(body) + rest, side, lineStart, st)
            == Txts(Kept(Before(body))) + Shown(rest, side, lineStart, st')
    decreases |body|
  {
    hide *;
    if body == [] {
      st' := st;
      NothingBefore();
      NothingPicked(side, st.start + st.count, lineStart, lineEnd);
      NoTxts(rest);
      NoTxts(Shown(rest, side, lineStart, st));
      Reassoc(Select(rest, side, lineStart, lineEnd, st), [], []);
    } else {
      var t, n, more := body[0], st.start + st.count, body[1..];
      BeforeStep(body);
      FirstTxt(body, rest);
      StrayIs(t);
      if Stray(t) {
        st' := st.(skip := true);
        StepOver(t, Txts(more) + rest, side, lineStart, lineEnd, st);
        SkippedBody(more, rest, side, lineStart, lineEnd, st');
        NothingPicked(side, n, lineStart, lineEnd);
        NoTxts(Shown(rest, side, lineStart, st'));
        Reassoc(Select(rest, side, lineStart, lineEnd, st'), [], []);
      } else {
        var counted := !HasRemark(t) && side != Other && !(if side == Left then IsPlus(t) else IsMinus(t));
        var next := if counted then st.(count := st.count + 1) else st;
        OneBefore(t, Txts(more) + rest, side, lineStart, lineEnd, st);
        st' := SelectsBefore(more, rest, side, lineStart, lineEnd, next);
        FirstPicked(t, Before(more), side, n, lineStart, lineEnd);
        Reassoc(if !HasRemark(t) && lineStart <= n <= lineEnd && (side == Right || counted) then [t] else [],
                Picks(Before(more), side, if counted then n + 1 else n, lineStart, lineEnd),
                Select(rest, side, lineStart, lineEnd, st'));
        Reassoc(if HasRemark(t) then [] else [Txt(t)], Txts(Kept(Before(more))), Shown(rest, side, lineStart, st'));
      }
    }
  }

  lemma NothingBefore()
    ensures Before([]) == [] && Txts([]) == []
  {}

  lemma StrayIs(t: string)
    ensures Stray(t) <==> Marked(t) && !HasRemark(t)
  {}

  lemma FirstTxt(body: seq<string>, rest: seq<PatchLine>)
    requires body != []
    ensures Txts(body) + rest == [Txt(body[0])] + (Txts(body[1..]) + rest)
  {}

  lemma OneBefore(t: string, lines: seq<PatchLine>, side: Side, lineStart: int, lineEnd: int, st: Cursor)
    requires !Stray(t) && !st.skip
    ensures var n := st.start + st.count;
            var counted := !HasRemark(t) && side != Other && !(if side == Left then IsPlus(t) else IsMinus(t));
            var st' := if counted then st.(count := st.count + 1) else st;
            && Select([Txt(t)] + lines, side, lineStart, lineEnd, st)
               == (if !HasRemark(t) && lineStart <= n <= lineEnd && (side == Right || counted) then [t] else [])
                  + Select(lines, side, lineStart, lineEnd, st')
            && Shown([Txt(t)] + lines, side, lineStart, st)
               == (if HasRemark(t) then [] else [Txt(t)]) + Shown(lines, side, lineStart, st')
  {
    hide HasRemark, Marked, Select, Shown, IsPlus, IsMinus;
    if HasRemark(t) {
      StepOver(t, lines, side, lineStart, lineEnd, st);
      Reassoc(Select(lines, side, lineStart, lineEnd, st), [], []);
      Reassoc(Shown(lines, side, lineStart, st), [], []);
    } else {
      SelectOne(t, lines, side, lineStart, lineEnd, st);
      ShownOne(t, lines, side, lineStart, st);
    }
  }

  lemma FirstPicked(t: string, more: seq<string>, side: Side, n: int, lineStart: int, lineEnd: int)
    ensures var counted := !HasRemark(t) && side != Other && !(if side == Left then IsPlus(t) else IsMinus(t));
            && Picks([t] + more, side, n, lineStart, lineEnd)
               == (if !HasRemark(t) && lineStart <= n <= lineEnd && (side == Right || counted) then [t] else [])
                  + Picks(more, side, if counted then n + 1 else n, lineStart, lineEnd)
            && Txts(Kept([t] + more)) == (if HasRemark(t) then [] else [Txt(t)]) + Txts(Kept(more))
  {
    hide HasRemark, Picks, Kept, IsPlus, IsMinus;
    var all := [t] + more;
    assert all[0] == t && all[1..] == more;
    PickStep(all, side, n, lineStart, lineEnd);
    TxtsOne(t, Kept(more));
  }

  lemma {:induction false} HunksBefore(hunks: seq<Hunk>, side: Side, lineStart: int, lineEnd: int, st: Cursor)
    requires Headed(hunks)
    ensures Select(Flatten(hunks), side, lineStart, lineEnd, st) == Chosen(Cuts(hunks), side, lineStart, lineEnd)
    ensures Shown(Flatten(hunks), side, lineStart, st) == ShownHunks(Cuts(hunks), side, lineStart)
    decreases |hunks|
  {
    if hunks == [] {
      NothingFlat();
    } else {
      hide *;
      var h, rest := hunks[0], hunks[1..];
      var st' := Enter(h.header, side, lineStart);
      assert hunks == [h] + rest;
      HeadedStep(hunks);
      AfterHeader(h, rest, side, lineStart, lineEnd, st);
      EnterIs(h.header, side, lineStart);
      CutStep(hunks, side, lineStart, lineEnd);
      if st'.skip {
        SkippedBody(h.body, Flatten(rest), side, lineStart, lineEnd, st');
        HunksBefore(rest, side, lineStart, lineEnd, st');
        Reassoc(Chosen(Cuts(rest), side, lineStart, lineEnd), [], []);
        Reassoc(ShownHunks(Cuts(rest), side, lineStart), [], []);
      } else {
        var end := SelectsBefore(h.body, Flatten(rest), side, lineStart, lineEnd, st');
        HunksBefore(rest, side, lineStart, lineEnd, end);
        Reassoc([Txt(""), Hdr(h.header)], Txts(Kept(Before(h.body))), ShownHunks(Cuts(rest), side, lineStart));
      }
    }
  }

  lemma HeadedStep(hunks: seq<Hunk>)
    requires Headed(hunks) && hunks != []
    ensures !HasRemark(hunks[0].header.section) && Headed(hunks[1..])
  {
    hide HasRemark;
  }

  lemma CutStep(hunks: seq<Hunk>, side: Side, lineStart: int, lineEnd: int)
    requires hunks != []
    ensures var h, rest := hunks[0], hunks[1..];
            && Chosen(Cuts(hunks), side, lineStart, lineEnd)
               == (if Holds(h.header, side, lineStart)
                   then Picks(Before(h.body), side, StartOf(h.header, side), lineStart, lineEnd) else [])
                  + Chosen(Cuts(rest), side, lineStart, lineEnd)
            && ShownHunks(Cuts(hunks), side, lineStart)
               == (if Holds(h.header, side, lineStart)
                   then [Txt(""), Hdr(h.header)] + Txts(Kept(Before(h.body))) else [])
                  + ShownHunks(Cuts(rest), side, lineStart)
  {
    hide Before, Holds, Picks, Kept;
    assert Cuts(hunks)[1..] == Cuts(hunks[1..]);
  }

  /**
   A patch of any lines: a stray header cuts its hunk off, and the lines in front of the first hunk are counted
   from -1, selected if the range reaches them, and shown.
   */
  lemma SelectsAnything(prelude: seq<string>, hunks: seq<Hunk>, side: Side, lineStart: int, lineEnd: int)
    requires Headed(hunks)
    ensures var lines := Txts(prelude) + Flatten(hunks);
            && Select(lines, side, lineStart, lineEnd, BEFORE_HUNKS)
               == Picks(Before(prelude), side, -1, lineStart, lineEnd) + Chosen(Cuts(hunks), side, lineStart, lineEnd)
            && Shown(lines, side, lineStart, BEFORE_HUNKS)
               == Txts(Kept(Before(prelude))) + ShownHunks(Cuts(hunks), side, lineStart)
  {
    hide Select, Shown, Headed, Picks, Before, Chosen, Cuts, ShownHunks;
    var st := SelectsBefore(prelude, Flatten(hunks), side, lineStart, lineEnd, BEFORE_HUNKS);
    HunksBefore(hunks, side, lineStart, lineEnd, st);
  }

  // ----- numbering -----

  /**
   A line is read if it is no remark, no stray header is at or in front of it, and it is no blank line at the end of
   its hunk or right in front of a stray header; a blank first line of the patch is read.
   */
  predicate IsRead(body: seq<string>, k: nat, first: bool)
    requires k < |body|
  {
    && !HasRemark(body[k])
    && (forall j :: 0 <= j <= k ==> !Stray(body[j]))
    && !(body[k] == "" && !(first && k == 0) && (k == |body| - 1 || Marked(body[k + 1])))
  }

  function ReadLines(body: seq<string>, first: bool): seq<string> {
    if body == [] || Stray(body[0]) then []
    else (if IsRead(body, 0, first) then [body[0]] else []) + ReadLines(body[1..], false)
  }

  lemma Moved(body: seq<string>, lines: seq<string>, later: seq<nat>) returns (at: seq<nat>)
    requires body != [] && TakenAt(body[1..], lines, later)
    ensures TakenAt(body, lines, at)
    ensures forall k :: k in at <==> k >= 1 && k - 1 in later
  {
    at := seq(|later|, i requires 0 <= i < |later| => later[i] + 1);
    assert forall i :: 0 <= i < |later| ==> lines[i] == body[1..][later[i]] == body[at[i]];
    forall k | k >= 1 && k - 1 in later ensures k in at {
      var i :| 0 <= i < |later| && later[i] == k - 1;
      assert at[i] == k;
    }
  }

  lemma WithFirst(body: seq<string>, lines: seq<string>, at: seq<nat>)
    requires body != [] && TakenAt(body, lines, at) && 0 !in at
    ensures TakenAt(body, [body[0]] + lines, [0] + at)
  {
    var all, places := [body[0]] + lines, [0] + at;
    forall k | 0 <= k < |places| ensures places[k] < |body| && all[k] == body[places[k]] {
      if k > 0 {
        assert all[k] == lines[k - 1] && places[k] == at[k - 1];
      }
    }
    forall j, k | 0 <= j < k < |places| ensures places[j] < places[k] {
      assert places[k] == at[k - 1] && at[k - 1] in at;
      if j > 0 {
        assert places[j] == at[j - 1];
      }
    }
  }

  lemma OneMore(body: seq<string>, lines: seq<string>, later: seq<nat>, now: bool) returns (at: seq<nat>)
    requires body != [] && TakenAt(body[1..], lines, later)
    ensures TakenAt(body, (if now then [body[0]] else []) + lines, at)
    ensures forall k :: 0 <= k < |body| ==> (k in at <==> if k == 0 then now else k - 1 in later)
  {
    hide TakenAt;
    at := Moved(body, lines, later);
    Reassoc(lines, [], []);
    if now {
      WithFirst(body, lines, at);
      at := [0] + at;
    }
  }

  /** The lines read are exactly those, in order. */
  lemma {:induction false} ReadLinesAre(body: seq<string>, first: bool) returns (at: seq<nat>)
    ensures TakenAt(body, ReadLines(body, first), at)
    ensures forall k :: 0 <= k < |body| ==> (k in at <==> IsRead(body, k, first))
    decreases |body|
  {
    if body == [] {
      at := [];
    } else {
      hide TakenAt, IsRead;
      if Stray(body[0]) {
        at := [];
        NothingTaken(body);
        StrayEnds(body, first);
      } else {
        var later := ReadLinesAre(body[1..], false);
        at := OneMore(body, ReadLines(body[1..], false), later, IsRead(body, 0, first));
        forall k | 1 <= k < |body| ensures k in at <==> IsRead(body, k, first) {
          ReadLater(body, k, first);
        }
      }
    }
  }

  lemma NothingTaken(body: seq<string>)
    ensures TakenAt(body, [], [])
  {}

  lemma StrayEnds(body: seq<string>, first: bool)
    requires body != [] && Stray(body[0])
    ensures forall k :: 0 <= k < |body| ==> !IsRead(body, k, first)
  {}

  lemma ReadLater(body: seq<string>, k: nat, first: bool)
    requires 1 <= k < |body| && !Stray(body[0])
    ensures IsRead(body, k, first) <==> IsRead(body[1..], k - 1, false)
  {
    hide HasRemark, Marked;
    if forall j :: 0 <= j <= k - 1 ==> !Stray(body[1..][j]) {
      assert forall j :: 1 <= j <= k ==> body[j] == body[1..][j - 1];
    }
    if forall j :: 0 <= j <= k ==> !Stray(body[j]) {
      assert forall j :: 0 <= j <= k - 1 ==> body[1..][j] == body[j + 1];
    }
  }

  /** The lines that do not start with this mark. */
  function Without(lines: seq<string>, mark: char): seq<string> {
    if lines == [] then []
    else (if lines[0] != "" && lines[0][0] == mark then [] else [lines[0]]) + Without(lines[1..], mark)
  }

  lemma {:induction false} WithoutHolds(lines: seq<string>, mark: char)
    ensures forall s :: s in Without(lines, mark) <==> s in lines && !(s != "" && s[0] == mark)
  {
    if lines != [] {
      WithoutHolds(lines[1..], mark);
    }
  }

  /** What is printed of the lines read after a header, or in front of the first one. */
  function Printed(h: Option<Header>, read: seq<string>): seq<OutLine> {
    Flush(Reading(Without(read, '-'), Without(read, '+'), h, false))
  }

  lemma PrintedCases(read: seq<string>)
    ensures var news, olds := Without(read, '-'), Without(read, '+');
            && (news == [] && olds == [] <==> read == [])
            && (AnyPlus(news) || AnyMinus(olds) <==> Alters(read))
            && (AnyMinus(olds) <==> Deletes(read))
  {
    var news, olds := Without(read, '-'), Without(read, '+');
    hide Without;
    WithoutHolds(read, '-');
    WithoutHolds(read, '+');
    if read != [] {
      assert read[0] in news || read[0] in olds;
    } else {
      NothingWithout();
    }
  }

  lemma NothingWithout()
    ensures Without([], '-') == [] && Without([], '+') == []
  {}

  /** Of a hunk nothing when no line was read, its title when nothing changed, and otherwise its numbered section. */
  lemma PrintedIs(h: Header, read: seq<string>)
    ensures var out := Printed(Some(h), read);
            && (read == [] ==> out == [])
            && (read != [] && !Alters(read) ==> out == [HunkTitle(h)])
            && (Alters(read) ==> LaidOut(out, h, Without(read, '-'), Without(read, '+'), Deletes(read)))
    ensures h.start2 == -1 ==> (if Alters(read) then Printed(Some(h), read) == [HunkTitle(h)] + Printed(None, read)
                                else Printed(None, read) == [])
  {
    hide Without, LaidOut, Alters, Deletes, AnyPlus, AnyMinus, NewRows, OldRows, Flush;
    var news, olds := Without(read, '-'), Without(read, '+');
    PrintedCases(read);
    if Alters(read) {
      ChangedMeansNonempty(news, olds);
    }
    LayOut(h, news, olds, Deletes(read));
    FlushIs(news, olds, h);
  }

  lemma FlushIs(news: seq<string>, olds: seq<string>, h: Header)
    ensures var any, new_ := AnyPlus(news) || AnyMinus(olds), [HunkTitle(h)] + ([NewMark] + NewRows(news, h.start2));
            && Flush(Reading(news, olds, Some(h), false))
               == (if news == [] && olds == [] then []
                   else if !any then [HunkTitle(h)]
                   else if AnyMinus(olds) then new_ + ([OldMark] + OldRows(olds)) else new_)
            && (any && h.start2 == -1 ==>
                  Flush(Reading(news, olds, Some(h), false))
                  == [HunkTitle(h)] + Flush(Reading(news, olds, None, false)))
            && (!any ==> Flush(Reading(news, olds, None, false)) == [])
  {
    hide NewRows, OldRows;
    var new_ := [HunkTitle(h)] + ([NewMark] + NewRows(news, h.start2));
    Reassoc(new_, [], []);
    Reassoc([HunkTitle(h)], [], []);
    Reassoc([HunkTitle(h)], [] + ([NewMark] + NewRows(news, h.start2)), [OldMark] + OldRows(olds));
    Reassoc([NewMark] + NewRows(news, h.start2), [], []);
  }

  lemma CollectRead(body: seq<string>, rest: seq<PatchLine>, first: bool, st: Reading)
    requires body != [] && !Stray(body[0]) && !st.skip && (rest == [] || rest[0].Hdr?)
    ensures var t := body[0];
            Collect(t, first, Txts(body[1..]) + rest, st)
            == if IsRead(body, 0, first)
               then st.(plus := st.plus + (if IsMinus(t) then [] else [t]),
                        minus := st.minus + (if IsPlus(t) then [] else [t]))
               else st
  {
    hide HasRemark, Marked, IsRead;
    Reassoc(st.plus, [], []);
    Reassoc(st.minus, [], []);
    NextMark(body[1..], rest);
    FirstRead(body, first);
  }

  lemma FirstRead(body: seq<string>, first: bool)
    requires body != [] && !Stray(body[0])
    ensures IsRead(body, 0, first)
            <==> !HasRemark(body[0]) && !(body[0] == "" && !first && (body[1..] == [] || Marked(body[1..][0])))
  {
    hide HasRemark, Marked;
  }

  lemma NextMark(more: seq<string>, rest: seq<PatchLine>)
    requires rest == [] || rest[0].Hdr?
    ensures var lines := Txts(more) + rest;
            lines == [] || StartsMarked(lines) <==> more == [] || Marked(more[0])
  {
    hide Marked;
    if more == [] {
      NoTxts(rest);
    } else {
      FirstTxt(more, rest);
    }
  }

  lemma NumberTxt(t: string, lines: seq<PatchLine>, first: bool, st: Reading)
    ensures Number([Txt(t)] + lines, first, st) == Number(lines, false, Collect(t, first, lines, st))
  {
    hide Collect;
    var all := [Txt(t)] + lines;
    assert all[0] == Txt(t) && all[1..] == lines;
  }

  lemma {:induction false} NumberSkipped(body: seq<string>, rest: seq<PatchLine>, st: Reading)
    requires st.skip
    ensures Number(Txts(body) + rest, false, st) == Number(rest, false, st)
    decreases |body|
  {
    hide HasRemark, Number, Flush;
    if body == [] {
      NoTxts(rest);
    } else {
      FirstTxt(body, rest);
      NumberTxt(body[0], Txts(body[1..]) + rest, false, st);
      NumberSkipped(body[1..], rest, st);
    }
  }

  lemma FirstOnlyForTxt(rest: seq<PatchLine>, first: bool, st: Reading)
    requires rest == [] || rest[0].Hdr?
    ensures Number(rest, first, st) == Number(rest, false, st)
  {
    hide HasRemark, Flush;
  }

  lemma {:induction false} NumberRead(body: seq<string>, rest: seq<PatchLine>, first: bool, st: Reading)
    returns (skip: bool)
    requires !st.skip && (rest == [] || rest[0].Hdr?)
    ensures var read := ReadLines(body, first);
            Number(Txts(body) + rest, first, st)
            == Number(rest, false,
                      Reading(st.plus + Without(read, '-'), st.minus + Without(read, '+'), st.header, skip))
    decreases |body|
  {
    hide HasRemark, Number, Collect, IsRead, Stray;
    if body == [] {
      skip := false;
      NoTxts(rest);
      FirstOnlyForTxt(rest, first, st);
      Reassoc(st.plus, [], []);
      Reassoc(st.minus, [], []);
    } else {
      var t, more := body[0], body[1..];
      FirstTxt(body, rest);
      NumberTxt(t, Txts(more) + rest, first, st);
      if Stray(t) {
        skip := true;
        StrayCollected(t, first, Txts(more) + rest, st);
        NumberSkipped(more, rest, st.(skip := true));
        Reassoc(st.plus, [], []);
        Reassoc(st.minus, [], []);
      } else {
        CollectRead(body, rest, first, st);
        skip := NumberRead(more, rest, false, Collect(t, first, Txts(more) + rest, st));
        WithoutStep(body, first, st);
      }
    }
  }

  lemma StrayCollected(t: string, first: bool, rest: seq<PatchLine>, st: Reading)
    requires Stray(t)
    ensures Collect(t, first, rest, st) == st.(skip := true)
  {
    hide HasRemark;
  }

  lemma WithoutStep(body: seq<string>, first: bool, st: Reading)
    requires body != [] && !Stray(body[0])
    ensures var t, read, more := body[0], ReadLines(body, first), ReadLines(body[1..], false);
            if IsRead(body, 0, first) then
              && st.plus + Without(read, '-') == st.plus + (if IsMinus(t) then [] else [t]) + Without(more, '-')
              && st.minus + Without(read, '+') == st.minus + (if IsPlus(t) then [] else [t]) + Without(more, '+')
            else read == more
  {
    hide IsRead, Stray;
    var t, more := body[0], ReadLines(body[1..], false);
    if IsRead(body, 0, first) {
      var read := [t] + more;
      assert read[0] == t && read[1..] == more && ReadLines(body, first) == read;
      Reassoc(st.plus, if IsMinus(t) then [] else [t], Without(more, '-'));
      Reassoc(st.minus, if IsPlus(t) then [] else [t], Without(more, '+'));
    } else {
      Reassoc(more, [], []);
    }
  }

  function PrintedAll(hunks: seq<Hunk>): seq<OutLine> {
    if hunks == [] then []
    else Printed(Some(hunks[0].header), ReadLines(hunks[0].body, false)) + PrintedAll(hunks[1..])
  }

  lemma FlushAtHeader(h: Hunk, rest: seq<Hunk>, st: Reading)
    requires !HasRemark(h.header.section)
    ensures Number(Flatten([h] + rest), false, st)
            == Flush(st) + Number(Txts(h.body) + Flatten(rest), false, Reading([], [], Some(h.header), false))
  {
    hide HasRemark, Flush;
    var hunks := [h] + rest;
    assert hunks[1..] == rest;
    FlattenStep(hunks);
    var lines := Flatten(hunks);
    assert lines[0] == Hdr(h.header) && lines[1..] == Txts(h.body) + Flatten(rest);
  }

  lemma FlattenStarts(hunks: seq<Hunk>)
    ensures Flatten(hunks) == [] || Flatten(hunks)[0].Hdr?
  {
    if hunks != [] {
      FlattenStep(hunks);
    }
  }

  lemma {:induction false} HunksNumbered(hunks: seq<Hunk>, st: Reading)
    requires Headed(hunks)
    ensures Number(Flatten(hunks), false, st)
            == (if hunks == [] && st.header.None? then [] else Flush(st)) + PrintedAll(hunks)
    decreases |hunks|
  {
    if hunks == [] {
      hide Flush;
      NothingFlat();
      Reassoc(Flush(st), [], []);
    } else {
      hide Number, ReadLines, Headed, Flatten;
      var h, rest := hunks[0], hunks[1..];
      assert hunks == [h] + rest;
      HeadedStep(hunks);
      FlushAtHeader(h, rest, st);
      FlattenStarts(rest);
      var start := Reading([], [], Some(h.header), false);
      var skip := NumberRead(h.body, Flatten(rest), false, start);
      var read := ReadLines(h.body, false);
      var end := Reading([] + Without(read, '-'), [] + Without(read, '+'), Some(h.header), skip);
      HunksNumbered(rest, end);
      SkipPrints(h.header, read, skip);
    }
  }

  lemma SkipPrints(h: Header, read: seq<string>, skip: bool)
    ensures Flush(Reading([] + Without(read, '-'), [] + Without(read, '+'), Some(h), skip)) == Printed(Some(h), read)
  {
    hide Without, Flush;
    Reassoc(Without(read, '-'), [], []);
    Reassoc(Without(read, '+'), [], []);
    SkipIgnored(Without(read, '-'), Without(read, '+'), Some(h), skip);
  }

  lemma SkipIgnored(news: seq<string>, olds: seq<string>, h: Option<Header>, skip: bool)
    ensures Flush(Reading(news, olds, h, skip)) == Flush(Reading(news, olds, h, false))
  {
    hide AnyPlus, AnyMinus, NewRows, OldRows;
  }

  /**
   A patch of any lines is numbered hunk by hunk from the lines read; lines in front of the first hunk are printed
   when a hunk follows, numbered from -1.
   */
  lemma NumbersAnything(prelude: seq<string>, hunks: seq<Hunk>)
    requires Headed(hunks)
    ensures Number(Txts(prelude) + Flatten(hunks), true, NOTHING_READ)
            == (if hunks == [] then [] else Printed(None, ReadLines(prelude, true))) + PrintedAll(hunks)
  {
    hide Number, ReadLines, Headed, Flatten, PrintedAll, Without, Flush;
    FlattenStarts(hunks);
    var skip := NumberRead(prelude, Flatten(hunks), true, NOTHING_READ);
    var read := ReadLines(prelude, true);
    HunksNumbered(hunks, Reading([] + Without(read, '-'), [] + Without(read, '+'), None, skip));
    Reassoc(Without(read, '-'), [], []);
    Reassoc(Without(read, '+'), [], []);
    SkipIgnored(Without(read, '-'), Without(read, '+'), None, skip);
  }
}
