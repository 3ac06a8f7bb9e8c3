/**
 Line numbers are true end to end (pr_agent/algo/git_patch_processing.py): a patch between two files,
 widened and then numbered, prints rows `n text` whose text is line n of the new file.
 */
module PatchLineNumbers {
  import opened Bounds
  import opened PatchExtension
  import opened PatchModel
  import opened PatchNumbering
  import opened PatchPlacement
  import opened PatchTheorems
  import opened Sequences
  import opened Wrappers

  /** Body lines a diff may print, none of them content that the numbering loop would drop. */
  predicate Clean(body: seq<string>) {
    forall s :: s in body ==> BodyLine(s) && (s[0] in " +-" ==> !HasRemark(s))
  }

  predicate CleanHunk(h: Hunk) { Clean(h.body) && !HasRemark(h.header.section) }

  /** The body lines collected as new, respectively old, content. */
  function NewText(body: seq<string>): seq<string> {
    if body == [] then []
    else (if HasRemark(body[0]) || IsMinus(body[0]) then [] else [body[0]]) + NewText(body[1..])
  }

  function OldText(body: seq<string>): seq<string> {
    if body == [] then []
    else (if HasRemark(body[0]) || IsPlus(body[0]) then [] else [body[0]]) + OldText(body[1..])
  }

  function Section(h: Hunk): seq<OutLine> {
    Flush(Reading(NewText(h.body), OldText(h.body), Some(h.header), false))
  }

  function Sections(hunks: seq<Hunk>): seq<OutLine> {
    if hunks == [] then [] else Section(hunks[0]) + Sections(hunks[1..])
  }

  lemma {:induction false} NumberBody(body: seq<string>, rest: seq<PatchLine>, st: Reading)
    requires Clean(body) && !st.skip
    ensures Number(Txts(body) + rest, false, st)
            == Number(rest, false, st.(plus := st.plus + NewText(body), minus := st.minus + OldText(body)))
    decreases |body|
  {
    hide HasRemark, Flush, Marked, BodyLine, StartsMarked;
    if body == [] {
      assert Txts(body) + rest == rest;
      Reassoc(st.plus, [], []);
      Reassoc(st.minus, [], []);
    } else {
      var t, lines := body[0], Txts(body) + rest;
      assert lines[0] == Txt(t) && lines[1..] == Txts(body[1..]) + rest;
      var st' := Collect(t, false, lines[1..], st);
      CollectStep(body, lines[1..], st);
      CleanTail(body);
      NumberBody(body[1..], rest, st');
    }
  }

  lemma CleanTail(body: seq<string>)
    requires body != [] && Clean(body)
    ensures Clean(body[1..])
  {
    hide HasRemark, BodyLine;
  }

  lemma CollectStep(body: seq<string>, rest: seq<PatchLine>, st: Reading)
    requires body != [] && Clean(body) && !st.skip
    ensures var st' := Collect(body[0], false, rest, st);
            && !st'.skip && st'.header == st.header
            && st'.plus + NewText(body[1..]) == st.plus + NewText(body)
            && st'.minus + OldText(body[1..]) == st.minus + OldText(body)
  {
    hide HasRemark;
    var t := body[0];
    assert t in body && !Marked(t);
    Reassoc(st.plus, if HasRemark(t) || IsMinus(t) then [] else [t], NewText(body[1..]));
    Reassoc(st.minus, if HasRemark(t) || IsPlus(t) then [] else [t], OldText(body[1..]));
    Reassoc(st.plus, [], []);
    Reassoc(st.minus, [], []);
  }

  /** Numbering a patch made of hunks prints one section per hunk; blank separators print nothing. */
  lemma {:induction false} NumberJoined(hunks: seq<Hunk>, sep: seq<string>, first: bool, st: Reading)
    requires hunks != [] && (sep == [] || sep == [""])
    requires forall h :: h in hunks ==> CleanHunk(h)
    ensures Number(Joined(hunks, sep), first, st) == Flush(st) + Sections(hunks)
    decreases |hunks|
  {
    hide HasRemark, Flush, Clean;
    var h, rest := hunks[0], hunks[1..];
    assert CleanHunk(h);
    var gap := Txts(if |hunks| > 1 then sep else []);
    var more := gap + Joined(rest, sep);
    var lines := Joined(hunks, sep);
    assert lines[0] == Hdr(h.header) && lines[1..] == Txts(h.body) + more;
    NumberBody(h.body, more, Reading([], [], Some(h.header), false));
    Reassoc(NewText(h.body), [], []);
    Reassoc(OldText(h.body), [], []);
    var st' := Reading(NewText(h.body), OldText(h.body), Some(h.header), false);
    if rest == [] {
      assert more == [];
      Reassoc(Section(h), [], []);
    } else {
      SeparatorPrintsNothing(rest, sep, st');
      NumberJoined(rest, sep, false, st');
    }
    Reassoc(Flush(st), Section(h), Sections(rest));
  }

  lemma SeparatorPrintsNothing(hunks: seq<Hunk>, sep: seq<string>, st: Reading)
    requires hunks != [] && (sep == [] || sep == [""])
    ensures Number(Txts(sep) + Joined(hunks, sep), false, st) == Number(Joined(hunks, sep), false, st)
  {
    var lines := Txts(sep) + Joined(hunks, sep);
    if sep == [] {
      assert lines == Joined(hunks, sep);
    } else {
      assert sep[1..] == [] && Txts(sep) == [Txt("")];
      assert lines[0] == Txt("") && lines[1..] == Joined(hunks, sep);
      assert !HasRemark("") by {
        assert |Lower("")| == 0;
      }
    }
  }

  // ----- true rows -----

  /** A numbered row shows the new file's line of that number, after its one-character prefix. */
  predicate RowTrue(o: OutLine, head: seq<string>) {
    o.NewRow? ==> 1 <= o.number <= |head| && o.text != "" && o.text[0] in " +" && o.text[1..] == head[o.number - 1]
  }

  predicate AllRowsTrue(out: seq<OutLine>, head: seq<string>) {
    forall o :: o in out ==> RowTrue(o, head)
  }

  lemma {:induction false} NewRowsTrue(lines: seq<string>, n: int, head: seq<string>)
    ensures AllRowsTrue(NewRows(lines, n), head)
            <==> forall k :: 0 <= k < |lines| ==> RowTrue(NewRow(n + k, lines[k]), head)
    decreases |lines|
  {
    if lines != [] {
      var rest := lines[1..];
      NewRowsTrue(rest, n + 1, head);
      AllRowsConcat([NewRow(n, lines[0])], NewRows(rest, n + 1), head);
      assert AllRowsTrue([NewRow(n, lines[0])], head) <==> RowTrue(NewRow(n, lines[0]), head);
      if forall k :: 0 <= k < |rest| ==> RowTrue(NewRow(n + 1 + k, rest[k]), head) {
        forall k | 0 < k < |lines| ensures RowTrue(NewRow(n + k, lines[k]), head) {
          assert lines[k] == rest[k - 1] && n + k == n + 1 + (k - 1);
        }
      }
      if forall k :: 0 <= k < |lines| ==> RowTrue(NewRow(n + k, lines[k]), head) {
        forall k | 0 <= k < |rest| ensures RowTrue(NewRow(n + 1 + k, rest[k]), head) {
          assert rest[k] == lines[k + 1] && n + 1 + k == n + (k + 1);
        }
      }
    }
  }

  lemma AllRowsConcat(a: seq<OutLine>, b: seq<OutLine>, head: seq<string>)
    ensures AllRowsTrue(a + b, head) <==> AllRowsTrue(a, head) && AllRowsTrue(b, head)
  {
    hide RowTrue;
    if AllRowsTrue(a + b, head) {
      forall o | o in a ensures RowTrue(o, head) { assert o in a + b; }
      forall o | o in b ensures RowTrue(o, head) { assert o in a + b; }
    }
  }

  lemma {:induction false} OldRowsTrue(lines: seq<string>, head: seq<string>)
    ensures AllRowsTrue(OldRows(lines), head)
  {
    if lines != [] {
      OldRowsTrue(lines[1..], head);
    }
  }

  /** The new content of a clean body is its new side, each line behind a blank or a plus. */
  lemma {:induction false} NewTextIsNewSide(body: seq<string>)
    requires Clean(body)
    ensures |NewText(body)| == |NewSide(body)|
    ensures forall k :: 0 <= k < |NewText(body)| ==>
              var t := NewText(body)[k];
              t != "" && t[0] in " +" && t[1..] == NewSide(body)[k]
  {
    if body != [] {
      hide HasRemark, NewText, NewSide, Clean;
      CleanTail(body);
      NewTextIsNewSide(body[1..]);
      NewTextStep(body);
    }
  }

  /** The first body line is collected as new content exactly when it is on the new side. */
  lemma NewTextStep(body: seq<string>)
    requires body != [] && Clean(body)
    ensures var t := body[0];
            if t != "" && t[0] in " +" then
              NewText(body) == [t] + NewText(body[1..]) && NewSide(body) == [t[1..]] + NewSide(body[1..])
            else NewText(body) == NewText(body[1..]) && NewSide(body) == NewSide(body[1..])
  {
    hide HasRemark;
    assert body[0] in body;
    assert [] + NewText(body[1..]) == NewText(body[1..]) && [] + NewSide(body[1..]) == NewSide(body[1..]);
  }

  /** A change is printed, so a hunk with one prints its new rows. */
  lemma {:induction false} ChangeIsCollected(body: seq<string>)
    requires Clean(body)
    ensures (exists s :: s in body && (IsPlus(s) || IsMinus(s)))
            ==> AnyPlus(NewText(body)) || AnyMinus(OldText(body))
  {
    hide HasRemark;
    if body != [] {
      assert body[0] in body;
      ChangeIsCollected(body[1..]);
      if IsPlus(body[0]) {
        assert body[0] in NewText(body);
      } else if IsMinus(body[0]) {
        assert body[0] in OldText(body);
      } else if AnyPlus(NewText(body[1..])) {
        var s :| s in NewText(body[1..]) && IsPlus(s);
        assert s in NewText(body);
      } else if AnyMinus(OldText(body[1..])) {
        var s :| s in OldText(body[1..]) && IsMinus(s);
        assert s in OldText(body);
      }
    }
  }

  /** The section of a changed hunk is true exactly when its new side stands at its printed start. */
  lemma SectionTrue(h: Hunk, head: seq<string>)
    requires Clean(h.body) && (exists s :: s in h.body && (IsPlus(s) || IsMinus(s)))
    ensures AllRowsTrue(Section(h), head)
            <==> StandsAt(NewSide(h.body), h.header.start2, head)
  {
    hide *;
    ChangeIsCollected(h.body);
    NewTextIsNewSide(h.body);
    var plus, minus, n := NewText(h.body), OldText(h.body), h.header.start2;
    var title, new_, old_ := [HunkTitle(h.header)], [NewMark] + NewRows(plus, n), [OldMark] + OldRows(minus);
    SectionIs(h);
    AllRowsConcat(title + new_, old_, head);
    AllRowsConcat(title, new_, head);
    AllRowsConcat([NewMark], NewRows(plus, n), head);
    AllRowsConcat([OldMark], OldRows(minus), head);
    MarksAreTrue(h.header, head);
    OldRowsTrue(minus, head);
    NewRowsTrue(plus, n, head);
    RowsStand(plus, NewSide(h.body), n, head);
  }

  /** What is printed for a changed hunk. */
  lemma SectionIs(h: Hunk)
    requires AnyPlus(NewText(h.body)) || AnyMinus(OldText(h.body))
    ensures var plus, minus := NewText(h.body), OldText(h.body);
            var new_ := [HunkTitle(h.header)] + ([NewMark] + NewRows(plus, h.header.start2));
            Section(h) == if AnyMinus(minus) then new_ + ([OldMark] + OldRows(minus)) else new_
  {
    hide NewText, OldText, AnyPlus, AnyMinus;
    ChangedMeansNonempty(NewText(h.body), OldText(h.body));
    var new_ := [HunkTitle(h.header)] + ([NewMark] + NewRows(NewText(h.body), h.header.start2));
    assert new_ + [] == new_;
  }

  lemma MarksAreTrue(h: Header, head: seq<string>)
    ensures AllRowsTrue([HunkTitle(h)], head) && AllRowsTrue([NewMark], head) && AllRowsTrue([OldMark], head)
  {}

  lemma ChangedMeansNonempty(plus: seq<string>, minus: seq<string>)
    requires AnyPlus(plus) || AnyMinus(minus)
    ensures plus != [] || minus != []
  {}

  /** One line of the new file in its place. */
  predicate StandsOneAt(line: string, n: int, head: seq<string>) { 1 <= n <= |head| && line == head[n - 1] }

  /** Lines numbered from `n` on are the lines of the new file with those numbers. */
  predicate StandsAt(lines: seq<string>, n: int, head: seq<string>) {
    forall k {:trigger lines[k]} :: 0 <= k < |lines| ==> StandsOneAt(lines[k], n + k, head)
  }

  lemma RowsStand(plus: seq<string>, side: seq<string>, n: int, head: seq<string>)
    requires |plus| == |side|
    requires forall k :: 0 <= k < |plus| ==> plus[k] != "" && plus[k][0] in " +" && plus[k][1..] == side[k]
    ensures (forall k :: 0 <= k < |plus| ==> RowTrue(NewRow(n + k, plus[k]), head)) <==> StandsAt(side, n, head)
  {
    forall k | 0 <= k < |plus|
      ensures RowTrue(NewRow(n + k, plus[k]), head) <==> StandsAt([side[k]], n + k, head)
    {
      StandsOne(side[k], n + k, head);
    }
    StandsPointwise(side, n, head);
  }

  lemma StandsOne(line: string, n: int, head: seq<string>)
    ensures StandsAt([line], n, head) <==> 1 <= n <= |head| && line == head[n - 1]
  {
    if StandsAt([line], n, head) {
      assert [line][0] == line;
    }
  }

  lemma {:induction false} StandsPointwise(lines: seq<string>, n: int, head: seq<string>)
    ensures StandsAt(lines, n, head) <==> forall k :: 0 <= k < |lines| ==> StandsAt([lines[k]], n + k, head)
    decreases |lines|
  {
    if lines != [] {
      var rest := lines[1..];
      assert lines == [lines[0]] + rest;
      StandsConcat([lines[0]], rest, n, head);
      StandsPointwise(rest, n + 1, head);
      if forall k :: 0 <= k < |lines| ==> StandsAt([lines[k]], n + k, head) {
        forall k | 0 <= k < |rest| ensures StandsAt([rest[k]], n + 1 + k, head) {
          assert rest[k] == lines[k + 1] && n + 1 + k == n + (k + 1);
        }
      }
      if forall k :: 0 <= k < |rest| ==> StandsAt([rest[k]], n + 1 + k, head) {
        if StandsAt([lines[0]], n, head) {
          forall k | 0 <= k < |lines| ensures StandsAt([lines[k]], n + k, head) {
            if k > 0 { assert rest[k - 1] == lines[k] && n + k == n + 1 + (k - 1); }
          }
        }
      }
    }
  }

  lemma StandsIs(lines: seq<string>, n: int, head: seq<string>, k: nat)
    requires StandsAt(lines, n, head) && k < |lines|
    ensures StandsOneAt(lines[k], n + k, head)
  {}

  lemma IsStands(lines: seq<string>, n: int, head: seq<string>)
    requires forall k :: 0 <= k < |lines| ==> StandsOneAt(lines[k], n + k, head)
    ensures StandsAt(lines, n, head)
  {
    hide StandsOneAt;
  }

  lemma StandsConcat(a: seq<string>, b: seq<string>, n: int, head: seq<string>)
    ensures StandsAt(a + b, n, head) <==> StandsAt(a, n, head) && StandsAt(b, n + |a|, head)
  {
    hide StandsAt, StandsOneAt;
    if StandsAt(a + b, n, head) {
      forall k | 0 <= k < |a| ensures StandsOneAt(a[k], n + k, head) {
        StandsIs(a + b, n, head, k);
      }
      IsStands(a, n, head);
      forall k | 0 <= k < |b| ensures StandsOneAt(b[k], n + |a| + k, head) {
        StandsIs(a + b, n, head, |a| + k);
      }
      IsStands(b, n + |a|, head);
    }
    if StandsAt(a, n, head) && StandsAt(b, n + |a|, head) {
      forall k | 0 <= k < |a + b| ensures StandsOneAt((a + b)[k], n + k, head) {
        if k < |a| {
          StandsIs(a, n, head, k);
        } else {
          StandsIs(b, n + |a|, head, k - |a|);
        }
      }
      IsStands(a + b, n, head);
    }
  }

  /** The lines appended after a hunk are the new file's lines with the numbers that follow the printed start. */
  predicate TrailAgrees(cfg: Config, base: seq<string>, head: seq<string>, h: Hunk) {
    var p := Placed(cfg, base, head, h);
    StandsAt(TrailOf(cfg, base, h), p.header.start2 + |p.lead| + h.header.size2, head)
  }

  /** A content line of either file never carries the remark the numbering loop drops. */
  predicate NoRemarks(base: seq<string>, head: seq<string>, hunks: seq<Hunk>) {
    && (forall s :: s in base ==> !HasRemark(s))
    && (forall s :: s in head ==> !HasRemark(s))
    && (forall h :: h in hunks ==> !HasRemark(h.header.section))
  }

  lemma {:induction false} CleanFromSides(body: seq<string>)
    requires forall s :: s in body ==> BodyLine(s)
    requires forall s :: s in OldSide(body) ==> !HasRemark(s)
    requires forall s :: s in NewSide(body) ==> !HasRemark(s)
    ensures Clean(body)
  {
    hide HasRemark;
    if body != [] {
      var t := body[0];
      assert t in body;
      var content := t[1..];
      assert t == [t[0]] + content;
      if t[0] in " +-" {
        assert content in OldSide(body) || content in NewSide(body);
        if HasRemark(t) {
          RemarkBehindPrefix(t[0], content);
        }
      }
      forall s | s in OldSide(body[1..]) ensures !HasRemark(s) { assert s in OldSide(body); }
      forall s | s in NewSide(body[1..]) ensures !HasRemark(s) { assert s in NewSide(body); }
      CleanFromSides(body[1..]);
    }
  }

  /** Extending a fitting hunk keeps it clean and keeps its change. */
  lemma ExtendedHunkIsClean(cfg: Config, base: seq<string>, head: seq<string>, hunks: seq<Hunk>, h: Hunk)
    requires h in hunks && NoRemarks(base, head, hunks) && HunkFits(h, base, head)
    ensures CleanHunk(ExtendedHunk(cfg, base, head, h))
    ensures var body := ExtendedHunk(cfg, base, head, h).body;
            exists s :: s in body && (IsPlus(s) || IsMinus(s))
  {
    hide HasRemark, Place, Trail;
    var e, p, trail := ExtendedHunk(cfg, base, head, h), Placed(cfg, base, head, h), TrailOf(cfg, base, h);
    LinesOfFile(cfg, base, head, h);
    ContextIsBody(p.lead);
    ContextIsBody(trail);
    ExtendedSides(cfg, base, head, h);
    forall s | s in e.body ensures BodyLine(s) {
      assert s in Context(p.lead) || s in h.body || s in Context(trail);
    }
    CleanFromSides(e.body);
    var s :| s in h.body && (IsPlus(s) || IsMinus(s));
    assert s in e.body;
    SectionKept(cfg, base, head, h);
  }

  lemma SectionKept(cfg: Config, base: seq<string>, head: seq<string>, h: Hunk)
    requires !HasRemark(h.header.section)
    ensures !HasRemark(Placed(cfg, base, head, h).header.section)
  {
    hide HasRemark, Context, FirstHolding, MatchesFile, Slice, FirstShared;
    assert !HasRemark("") by {
      EmptyHasNoRemark();
    }
  }

  lemma EmptyHasNoRemark()
    ensures !HasRemark("")
  {
    assert |Lower("")| == 0;
  }

  lemma {:induction false} ContextIsBody(lines: seq<string>)
    ensures forall s :: s in Context(lines) ==> BodyLine(s)
  {
    if lines != [] {
      ContextIsBody(lines[1..]);
    }
  }

  lemma SliceMembers(s: seq<string>, lo: int, hi: int)
    ensures forall x :: x in Slice(s, lo, hi) ==> x in s
  {}

  lemma LinesOfFile(cfg: Config, base: seq<string>, head: seq<string>, h: Hunk)
    ensures forall x :: x in Placed(cfg, base, head, h).lead ==> x in base
    ensures forall x :: x in TrailOf(cfg, base, h) ==> x in base
  {
    hide Context, FirstHolding, MatchesFile, Slice;
    var s := Start(cfg, base, head, h.header);
    SliceMembers(base, s.start1 - 1, h.header.start1 - 1);
    var e := h.header.start1 + h.header.size1 - 1;
    SliceMembers(base, e, e + cfg.after);
  }

  /** The rows of one extended hunk are true exactly when its trailing lines agree with the new file. */
  lemma ExtendedSectionTrue(cfg: Config, base: seq<string>, head: seq<string>, hunks: seq<Hunk>, h: Hunk)
    requires Sane(cfg) && head != []
    requires h in hunks && NoRemarks(base, head, hunks) && HunkFits(h, base, head)
    ensures AllRowsTrue(Section(ExtendedHunk(cfg, base, head, h)), head) <==> TrailAgrees(cfg, base, head, h)
  {
    hide *;
    var e, p, trail := ExtendedHunk(cfg, base, head, h), Placed(cfg, base, head, h), TrailOf(cfg, base, h);
    ExtendedHunkIsClean(cfg, base, head, hunks, h);
    CleanBody(e);
    SectionTrue(e, head);
    HeaderIsPlaced(cfg, base, head, h);
    TrailAgreesIs(cfg, base, head, h);
    ExtendedSides(cfg, base, head, h);
    LeadStands(cfg, base, head, h);
    StandsConcat(p.lead, NewSide(h.body) + trail, p.header.start2, head);
    StandsConcat(NewSide(h.body), trail, p.header.start2 + |p.lead|, head);
  }

  lemma CleanBody(h: Hunk)
    requires CleanHunk(h)
    ensures Clean(h.body)
  {}

  lemma TrailAgreesIs(cfg: Config, base: seq<string>, head: seq<string>, h: Hunk)
    ensures var p := Placed(cfg, base, head, h);
            TrailAgrees(cfg, base, head, h)
            <==> StandsAt(TrailOf(cfg, base, h), p.header.start2 + |p.lead| + h.header.size2, head)
  {}

  /** The leading lines and the hunk's own new side stand at the printed numbers, in every branch. */
  lemma LeadStands(cfg: Config, base: seq<string>, head: seq<string>, h: Hunk)
    requires Sane(cfg) && head != [] && HunkFits(h, base, head)
    ensures var p := Placed(cfg, base, head, h);
            && StandsAt(p.lead, p.header.start2, head)
            && StandsAt(NewSide(h.body), p.header.start2 + |p.lead|, head)
            && |NewSide(h.body)| == h.header.size2
            && (1 <= h.header.start2 ==> p.header.start2 + |p.lead| == h.header.start2)
  {
    hide Placed, HunkFits, StandsAt, NewSide, Sane;
    NewSideStands(h, base, head);
    PlacedInFile(cfg, base, head, h);
    var p := Placed(cfg, base, head, h);
    NothingStands(p.header.start2, head);
    NothingStands(p.header.start2 + |p.lead|, head);
  }

  /** Leading lines stand in the new file at the printed numbers and reach up to the hunk. */
  lemma PlacedInFile(cfg: Config, base: seq<string>, head: seq<string>, h: Hunk)
    requires Sane(cfg) && head != [] && h.header.start2 - 1 <= |head|
    ensures var p := Placed(cfg, base, head, h);
            && StandsAt(p.lead, p.header.start2, head)
            && (1 <= h.header.start2 ==> p.header.start2 + |p.lead| == h.header.start2)
  {
    hide Start, Settle, Context, FirstHolding, MatchesFile, StandsAt;
    NothingStands(h.header.start2, head);
    if cfg.before > 0 || cfg.after > 0 {
      StartInNewFile(cfg, base, head, h.header);
      SettleInNewFile(base, head, h.header, Start(cfg, base, head, h.header));
      PlaceIsSettle(cfg, base, head, h.header);
    }
  }

  lemma StartInNewFile(cfg: Config, base: seq<string>, head: seq<string>, h: Header)
    requires Sane(cfg) && h.start2 - 1 <= |head|
    ensures var s := Start(cfg, base, head, h); 1 <= s.start2 && (1 <= h.start2 ==> s.start2 <= h.start2)
  {
    hide FirstHolding, Slice, Limits;
    LimitsStart(h, cfg.before, cfg.after, |base|);
    if cfg.allowDynamic && head != [] {
      LimitsStart(h, cfg.dynamicBefore, cfg.after, |base|);
      var d := Limits(h, cfg.dynamicBefore, cfg.after, |base|);
      var a, b := Slice(base, d.start1 - 1, h.start1 - 1), Slice(head, d.start2 - 1, h.start2 - 1);
      var i := FirstHolding(h.section, a);
      if i < |a| && a[i..] == Slice(b, i, |b|) {
        SuffixInside(b, i);
        if 1 <= h.start2 {
          SliceInside(head, d.start2 - 1, h.start2 - 1);
        }
      }
    }
  }

  lemma SuffixInside(b: seq<string>, i: nat)
    requires Slice(b, i, |b|) != []
    ensures i < |b|
  {}

  lemma SettleInNewFile(base: seq<string>, head: seq<string>, h: Header, s: Header)
    requires head != [] && 1 <= s.start2 && h.start2 - 1 <= |head| && (1 <= h.start2 ==> s.start2 <= h.start2)
    ensures var p := Settle(base, head, h, s);
            && StandsAt(p.lead, p.header.start2, head)
            && (1 <= h.start2 ==> p.header.start2 + |p.lead| == h.start2)
  {
    hide Slice, StandsAt, FirstShared;
    var a, b := Slice(base, s.start1 - 1, h.start1 - 1), Slice(head, s.start2 - 1, h.start2 - 1);
    var i := FirstShared(a, b, 0);
    NothingStands(h.start2, head);
    if 1 <= h.start2 {
      SliceInside(head, s.start2 - 1, h.start2 - 1);
    }
    SuffixStands(head, s.start2 - 1, h.start2 - 1, 0);
    assert b[0..] == b;
    if i < |a| {
      SuffixStands(head, s.start2 - 1, h.start2 - 1, i);
    }
  }

  /** A slice of the new file that begins at a known line stands there, and so does every suffix of it. */
  lemma SuffixStands(head: seq<string>, lo: nat, hi: int, i: nat)
    requires i <= |Slice(head, lo, hi)|
    ensures StandsAt(Slice(head, lo, hi)[i..], lo + 1 + i, head)
  {
    var b := Slice(head, lo, hi);
    forall k | 0 <= k < |b[i..]| ensures StandsOneAt(b[i..][k], lo + 1 + i + k, head) {
      assert b[i..][k] == b[i + k] == head[lo + i + k];
    }
  }

  lemma SliceStands(head: seq<string>, lo: nat, hi: nat)
    requires lo <= hi <= |head|
    ensures StandsAt(head[lo..hi], lo + 1, head)
  {}

  lemma NothingStands(n: int, head: seq<string>)
    ensures StandsAt([], n, head)
  {}

  lemma NewSideStands(h: Hunk, base: seq<string>, head: seq<string>)
    requires HunkFits(h, base, head)
    ensures |NewSide(h.body)| == h.header.size2 && h.header.start2 - 1 <= |head|
    ensures if h.header.size2 == 0 then NewSide(h.body) == []
            else 1 <= h.header.start2 && StandsAt(NewSide(h.body), h.header.start2, head)
  {
    hide NewSide, OldSide, BodyLine;
    if h.header.size2 > 0 {
      SliceStands(head, NewPos(h.header), NewPos(h.header) + h.header.size2);
    }
  }

  /**
   Extending a well-formed patch between two non-empty files and numbering the result prints only true
   rows, in every branch of the extension, exactly when each hunk's trailing lines are the new file's.
   */
  lemma NumbersAreTrue(cfg: Config, base: seq<string>, head: seq<string>, hunks: seq<Hunk>)
    requires Sane(cfg) && base != [] && head != [] && hunks != []
    requires WellFormed(hunks, base, head, 0, 0) && NoRemarks(base, head, hunks)
    ensures AllRowsTrue(Number(Extend(cfg, base, head, Flatten(hunks), NOTHING_OPEN), true, NOTHING_READ), head)
            <==> forall h :: h in hunks ==> TrailAgrees(cfg, base, head, h)
  {
    hide Place, Trail, HunkFits, HasRemark, Section, CleanHunk, WellFormed;
    WellFormedFits(hunks, base, head, 0, 0);
    var es := ExtendedHunks(cfg, base, head, hunks);
    forall e | e in es ensures CleanHunk(e) {
      var k :| 0 <= k < |es| && es[k] == e;
      ExtendedHunkIsClean(cfg, base, head, hunks, hunks[k]);
    }
    NumberExtended(cfg, base, head, hunks);
    SectionsTrue(es, head);
    forall k | 0 <= k < |hunks|
      ensures AllRowsTrue(Section(es[k]), head) <==> TrailAgrees(cfg, base, head, hunks[k])
    {
      ExtendedSectionTrue(cfg, base, head, hunks, hunks[k]);
    }
    if AllRowsTrue(Sections(es), head) {
      forall h | h in hunks ensures TrailAgrees(cfg, base, head, h) {
        var k :| 0 <= k < |hunks| && hunks[k] == h;
        assert es[k] in es;
      }
    }
    if forall h :: h in hunks ==> TrailAgrees(cfg, base, head, h) {
      forall e | e in es ensures AllRowsTrue(Section(e), head) {
        var k :| 0 <= k < |es| && es[k] == e;
        assert hunks[k] in hunks;
      }
    }
  }

  lemma {:induction false} SectionsTrue(hunks: seq<Hunk>, head: seq<string>)
    ensures AllRowsTrue(Sections(hunks), head) <==> forall h :: h in hunks ==> AllRowsTrue(Section(h), head)
  {
    hide AllRowsTrue, Section;
    if hunks == [] {
      assert AllRowsTrue([], head) by { NewRowsTrue([], 0, head); }
    } else {
      SectionsTrue(hunks[1..], head);
      AllRowsConcat(Section(hunks[0]), Sections(hunks[1..]), head);
      assert hunks == [hunks[0]] + hunks[1..];
    }
  }

  lemma NumberExtended(cfg: Config, base: seq<string>, head: seq<string>, hunks: seq<Hunk>)
    requires hunks != []
    requires forall e :: e in ExtendedHunks(cfg, base, head, hunks) ==> CleanHunk(e)
    ensures Number(Extend(cfg, base, head, Flatten(hunks), NOTHING_OPEN), true, NOTHING_READ)
            == Sections(ExtendedHunks(cfg, base, head, hunks))
  {
    hide Number, Extend, Joined, CleanHunk, Sections, Flatten, ExtendedHunks;
    var es := ExtendedHunks(cfg, base, head, hunks);
    ExtendFlatten(cfg, base, head, hunks, NOTHING_OPEN);
    assert Txts(Context([])) == [];
    Reassoc([Txt("")] + Joined(es, [""]), [], []);
    LeadingBlank(Joined(es, [""]));
    NumberJoined(es, [""], false, Reading([""], [""], None, false));
    BlankPrintsNothing();
  }

  lemma LeadingBlank(lines: seq<PatchLine>)
    ensures Number([Txt("")] + lines, true, NOTHING_READ) == Number(lines, false, Reading([""], [""], None, false))
  {
    hide HasRemark;
    EmptyHasNoRemark();
    var all := [Txt("")] + lines;
    assert all[0] == Txt("") && all[1..] == lines;
    assert !Marked("") && [] + [""] == [""];
  }

  lemma BlankPrintsNothing()
    ensures Flush(Reading([""], [""], None, false)) == []
    ensures forall s: seq<OutLine> :: [] + s == s
  {
    assert !AnyPlus([""]) && !AnyMinus([""]);
  }

  // ----- when the trailing lines agree -----

  /** Read off the files: as many new lines after the hunk's new side are the old lines after its old side. */
  lemma TrailAgreesInFiles(cfg: Config, base: seq<string>, head: seq<string>, h: Hunk)
    requires Sane(cfg) && head != [] && HunkFits(h, base, head) && 1 <= h.header.start1 && 1 <= h.header.start2
    ensures var c, d := h.header.start1 - 1 + h.header.size1, h.header.start2 - 1 + h.header.size2;
            var t := Min(cfg.after, |base| - c);
            && 0 <= t && 0 <= d <= |head|
            && (TrailAgrees(cfg, base, head, h) <==> d + t <= |head| && base[c..c + t] == head[d..d + t])
  {
    hide Placed, TrailOf, HunkFits, Valid, StandsAt, StandsOneAt, NewSide;
    var c, d := h.header.start1 - 1 + h.header.size1, h.header.start2 - 1 + h.header.size2;
    FittingHunkIsValid(h, base, head);
    FitsIsSized(h, base, head);
    PlacedInFile(cfg, base, head, h);
    TrailIsOldFile(cfg, base, h);
    StandsIsSlice(base[c..c + Min(cfg.after, |base| - c)], d, head);
  }

  lemma StandsIsSlice(lines: seq<string>, d: nat, head: seq<string>)
    requires d <= |head|
    ensures StandsAt(lines, d + 1, head) <==> d + |lines| <= |head| && lines == head[d..d + |lines|]
  {
    if StandsAt(lines, d + 1, head) {
      forall k | 0 <= k < |lines| ensures d + k < |head| && lines[k] == head[d + k] {
        StandsIs(lines, d + 1, head, k);
      }
      if lines != [] {
        StandsIs(lines, d + 1, head, |lines| - 1);
      }
    } else if d + |lines| <= |head| && lines == head[d..d + |lines|] {
      SliceStands(head, d, d + |lines|);
    }
  }

  /**
   After an insertion the lines appended begin one too early, with the line the insertion follows. With the next
   lines unchanged they agree only if none is appended, or if there are enough lines and all are alike.
   */
  lemma InsertionTrailAgrees(cfg: Config, base: seq<string>, head: seq<string>, h: Hunk)
    requires Sane(cfg) && HunkFits(h, base, head) && 1 <= h.header.start1 && h.header.size1 == 0 && 1 <= h.header.size2
    requires var x, d := h.header.start1, h.header.start2 - 1 + h.header.size2;
             var n := Min(cfg.after, |base| - x);
             && d + n <= |head| && base[x..x + n] == head[d..d + n]
             && (n < cfg.after ==> d + n == |head|)
    ensures var x := h.header.start1;
            TrailAgrees(cfg, base, head, h)
            <==> cfg.after == 0
                 || (x + cfg.after <= |base| && forall k :: x <= k < x + cfg.after ==> base[k] == base[x - 1])
  {
    hide TrailAgrees, HunkFits;
    FitsIsSized(h, base, head);
    TrailAgreesInFiles(cfg, base, head, h);
    var x, d := h.header.start1, h.header.start2 - 1 + h.header.size2;
    if x + cfg.after <= |base| {
      ShiftedSlice(base, x, cfg.after);
    }
  }

  lemma {:induction false} ShiftedSlice(s: seq<string>, x: nat, n: nat)
    requires 1 <= x && x + n <= |s|
    ensures s[x - 1..x - 1 + n] == s[x..x + n] <==> forall k :: x <= k < x + n ==> s[k] == s[x - 1]
    decreases n
  {
    if n > 0 {
      var a, b := s[x - 1..x - 1 + n], s[x..x + n];
      var last := s[x + (n - 1)] == s[x - 1 + (n - 1)];
      ShiftedSlice(s, x, n - 1);
      assert b == s[x..x + (n - 1)] + [s[x + (n - 1)]];
      assert a == s[x - 1..x - 1 + (n - 1)] + [s[x - 1 + (n - 1)]];
      assert a == b <==> s[x - 1..x - 1 + (n - 1)] == s[x..x + (n - 1)] && last by {
        if a == b {
          assert a[..n - 1] == b[..n - 1] && a[n - 1] == b[n - 1];
        }
      }
    }
  }

  /** Consecutive hunks leave at least `after` unchanged old lines between them. */
  predicate Spaced(hunks: seq<Hunk>, after: int) {
    forall k :: 0 <= k < |hunks| - 1 ==>
      OldPos(hunks[k + 1].header) - (OldPos(hunks[k].header) + hunks[k].header.size1) >= after
  }

  /** With both sides non-empty and hunks at least `after` lines apart, every trailing line agrees. */
  lemma {:induction false} SpacedTrailsAgree(
      cfg: Config, base: seq<string>, head: seq<string>, hunks: seq<Hunk>, i: nat, j: nat)
    requires Sane(cfg) && i <= |base| && j <= |head| && WellFormed(hunks, base, head, i, j) && head != []
    requires Spaced(hunks, cfg.after)
    requires forall h :: h in hunks ==> 1 <= h.header.size1 && 1 <= h.header.size2
    ensures forall h :: h in hunks ==> TrailAgrees(cfg, base, head, h)
    decreases |hunks|
  {
    hide MatchesFile, HunkFits, TrailAgrees;
    if hunks != [] {
      assert HunkFits(hunks[0], base, head);
      var h, rest := hunks[0], hunks[1..];
      FitsIsSized(h, base, head);
      var c, d := OldPos(h.header) + h.header.size1, NewPos(h.header) + h.header.size2;
      assert Spaced(rest, cfg.after) by {
        forall k | 0 <= k < |rest| - 1
          ensures OldPos(rest[k + 1].header) - (OldPos(rest[k].header) + rest[k].header.size1) >= cfg.after
        {
          assert rest[k] == hunks[k + 1] && rest[k + 1] == hunks[k + 2];
        }
      }
      SpacedTrailsAgree(cfg, base, head, rest, c, d);
      var n := Min(cfg.after, |base| - c);
      SharedAfter(hunks, base, head, c, d, n);
      assert h in hunks;
      FirstTrailAgrees(cfg, base, head, h, c, d, n);
    }
  }

  lemma SharedAfter(hunks: seq<Hunk>, base: seq<string>, head: seq<string>, c: nat, d: nat, n: nat)
    requires hunks != [] && c <= |base| && d <= |head| && n <= |base| - c
    requires WellFormed(hunks[1..], base, head, c, d)
    requires |hunks| > 1 ==> n <= OldPos(hunks[1].header) - c
    ensures d + n <= |head| && base[c..c + n] == head[d..d + n]
  {
    if |hunks| > 1 {
      assert hunks[1..][0] == hunks[1];
      var p, q := OldPos(hunks[1].header), NewPos(hunks[1].header);
      FitsIsSized(hunks[1], base, head);
      assert base[c..p] == head[d..q];
      assert |base[c..p]| == |head[d..q]|;
      assert base[c..c + n] == base[c..p][..n] && head[d..d + n] == head[d..q][..n];
    } else {
      assert base[c..] == head[d..];
      assert |base[c..]| == |head[d..]|;
      assert base[c..c + n] == base[c..][..n] && head[d..d + n] == head[d..][..n];
    }
  }

  lemma FirstTrailAgrees(cfg: Config, base: seq<string>, head: seq<string>, h: Hunk, c: nat, d: nat, n: nat)
    requires Sane(cfg) && 1 <= h.header.size1 && 1 <= h.header.size2 && head != [] && HunkFits(h, base, head)
    requires c == OldPos(h.header) + h.header.size1 && d == NewPos(h.header) + h.header.size2
    requires c <= |base| && n == Min(cfg.after, |base| - c) && d + n <= |head|
    requires base[c..c + n] == head[d..d + n]
    ensures TrailAgrees(cfg, base, head, h)
  {
    hide Placed, HunkFits, StandsOneAt;
    FitsIsSized(h, base, head);
    PlacedInFile(cfg, base, head, h);
    TrailShape(cfg, base, h, c, n);
    var trail := TrailOf(cfg, base, h);
    if trail != [] {
      assert trail == base[c..c + n];
      forall k | 0 <= k < |trail|
        ensures StandsOneAt(trail[k], d + 1 + k, head)
      {
        assert trail[k] == head[d..d + n][k] == head[d + k];
        OneStands(head, d + k);
      }
    }
  }

  lemma OneStands(head: seq<string>, k: nat)
    requires k < |head|
    ensures StandsOneAt(head[k], k + 1, head)
  {}

  lemma TrailShape(cfg: Config, base: seq<string>, h: Hunk, c: nat, n: nat)
    requires 1 <= h.header.start1 && c == h.header.start1 + h.header.size1 - 1 <= |base|
    requires Sane(cfg) && n == Min(cfg.after, |base| - c)
    ensures TrailOf(cfg, base, h) != [] ==> TrailOf(cfg, base, h) == base[c..c + n]
  {
    hide MatchesFile;
  }

  /** The usual case in full: every printed row of an extended patch carries its true line number. */
  lemma SpacedNumbersAreTrue(cfg: Config, base: seq<string>, head: seq<string>, hunks: seq<Hunk>)
    requires Sane(cfg) && base != [] && head != [] && hunks != []
    requires WellFormed(hunks, base, head, 0, 0) && NoRemarks(base, head, hunks)
    requires forall h :: h in hunks ==> 1 <= h.header.size1 && 1 <= h.header.size2
    requires Spaced(hunks, cfg.after)
    ensures AllRowsTrue(Number(Extend(cfg, base, head, Flatten(hunks), NOTHING_OPEN), true, NOTHING_READ), head)
  {
    hide Extend, Number, NoRemarks, AllRowsTrue;
    WellFormedFits(hunks, base, head, 0, 0);
    SpacedTrailsAgree(cfg, base, head, hunks, 0, 0);
    NumbersAreTrue(cfg, base, head, hunks);
  }

  /** The condition can fail: after a hunk without old lines the loop appends the line before it again. */
  lemma EmptySideTrailDisagrees()
    ensures var cfg, base, head := Config(0, 1, false, 0), ["a", "c"], ["a", "b", "c"];
            var h := Hunk(Header(1, 0, 2, 1, ""), ["+b"]);
            WellFormed([h], base, head, 0, 0) && !TrailAgrees(cfg, base, head, h)
  {
    var cfg, base, head := Config(0, 1, false, 0), ["a", "c"], ["a", "b", "c"];
    var h := Hunk(Header(1, 0, 2, 1, ""), ["+b"]);
    hide HunkFits, TrailOf, StandsAt, Placed;
    InsertionFits(h, base, head);
    assert base[0..1] == ["a"] == head[0..1];
    LastHunkIsWellFormed(h, base, head);
    InsertionTrail(cfg, base, h);
    PlacedInFile(cfg, base, head, h);
    StandsOne("a", 3, head);
  }

  /**
   A hunk that deletes the first lines of the old file, printed with start 0 on the new side: its trailing
   lines are numbered from 0, which is wrong, unless the new file has one line and they are that line.
   */
  lemma TopDeletionTrail(cfg: Config, base: seq<string>, head: seq<string>, h: Hunk)
    requires Sane(cfg) && head != [] && h.header.start1 == 1 && h.header.start2 == 0 && h.header.size2 == 0
    ensures TrailAgrees(cfg, base, head, h)
            <==> TrailOf(cfg, base, h) == [] || (|head| == 1 && TrailOf(cfg, base, h) == head)
  {
    hide Placed, TrailOf, StandsAt;
    var trail := TrailOf(cfg, base, h);
    TopDeletionPlaced(cfg, base, head, h);
    NothingStands(Placed(cfg, base, head, h).header.start2, head);
    if trail != [] {
      NothingStandsAtZero(trail, head);
      if |head| == 1 {
        OnlyLineStands(trail, head);
      }
    }
  }

  lemma NothingStandsAtZero(lines: seq<string>, head: seq<string>)
    requires lines != []
    ensures !StandsAt(lines, 0, head)
  {
    if StandsAt(lines, 0, head) {
      StandsIs(lines, 0, head, 0);
    }
  }

  lemma OnlyLineStands(lines: seq<string>, head: seq<string>)
    requires lines != [] && |head| == 1
    ensures StandsAt(lines, 1, head) <==> lines == head
  {
    if StandsAt(lines, 1, head) {
      StandsIs(lines, 1, head, 0);
      if |lines| > 1 {
        StandsIs(lines, 1, head, 1);
      }
    }
    SliceStands(head, 0, 1);
    assert head[0..1] == head;
  }

  lemma TopDeletionPlaced(cfg: Config, base: seq<string>, head: seq<string>, h: Hunk)
    requires Sane(cfg) && head != [] && h.header.start1 == 1 && h.header.start2 == 0
    ensures var p := Placed(cfg, base, head, h);
            && p.lead == []
            && (TrailOf(cfg, base, h) != [] ==> p.header.start2 == if |head| == 1 then 1 else 0)
  {
    hide MatchesFile, Context, FirstHolding;
    assert Slice(base, 0, 0) == [];
    assert |Slice(head, 0, -1)| == |head| - 1;
  }

  lemma LastHunkIsWellFormed(h: Hunk, base: seq<string>, head: seq<string>)
    requires HunkFits(h, base, head) && h.header == Header(1, 0, 2, 1, "") && |base| == 2 && |head| == 3
    requires base[0..1] == head[0..1] && base[1] == head[2]
    ensures WellFormed([h], base, head, 0, 0)
  {
    hide HunkFits;
    assert [h][1..] == [] && base[1..] == head[2..];
  }

  lemma InsertionFits(h: Hunk, base: seq<string>, head: seq<string>)
    requires base == ["a", "c"] && head == ["a", "b", "c"] && h == Hunk(Header(1, 0, 2, 1, ""), ["+b"])
    ensures HunkFits(h, base, head)
  {
    assert h.body[1..] == [] && "+b"[1..] == "b";
    assert OldSide([]) == [] && NewSide([]) == [];
    assert OldSide(h.body) == [] && NewSide(h.body) == ["b"];
    assert head[1..2] == ["b"] && base[1..1] == [];
    assert IsPlus(h.body[0]) && h.body[0] in h.body;
  }

  lemma InsertionTrail(cfg: Config, base: seq<string>, h: Hunk)
    requires cfg == Config(0, 1, false, 0) && base == ["a", "c"] && h == Hunk(Header(1, 0, 2, 1, ""), ["+b"])
    ensures TrailOf(cfg, base, h) == ["a"]
  {
    hide Strip;
    assert h.body[0][0] == '+';
  }
}
