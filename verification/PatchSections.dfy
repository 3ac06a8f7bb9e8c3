/**
 The printed section of a hunk, row by row, against the two files (pr_agent/algo/git_patch_processing.py,
 decouple_and_convert_to_hunks_with_lines_numbers).
 */
module PatchSections {
  import opened PatchExtension
  import opened PatchLineNumbers
  import opened PatchModel
  import opened PatchNumbering
  import opened PatchSides
  import opened PatchTheorems
  import opened Sequences

  /** The body lines with one of these marks, in order. */
  function WithMark(body: seq<string>, marks: string): seq<string> {
    if body == [] then []
    else (if body[0] != "" && body[0][0] in marks then [body[0]] else []) + WithMark(body[1..], marks)
  }

  ghost predicate Alters(body: seq<string>) { exists s :: s in body && (IsPlus(s) || IsMinus(s)) }

  ghost predicate Deletes(body: seq<string>) { exists s :: s in body && IsMinus(s) }

  /** The rows from `at` on are these lines, numbered from `n`, in order. */
  ghost predicate ShowsNew(out: seq<OutLine>, at: nat, lines: seq<string>, n: int) {
    && at + |lines| <= |out|
    && forall k {:trigger out[at + k]} :: 0 <= k < |lines| ==> out[at + k] == NewRow(n + k, lines[k])
  }

  ghost predicate ShowsOld(out: seq<OutLine>, at: nat, lines: seq<string>) {
    at + |lines| <= |out| && forall k {:trigger out[at + k]} :: 0 <= k < |lines| ==> out[at + k] == OldRow(lines[k])
  }

  /** Title, new mark and numbered new rows; then, if something is deleted, the old mark and the old rows. */
  ghost predicate LaidOut(out: seq<OutLine>, h: Header, news: seq<string>, olds: seq<string>, deletes: bool) {
    && |out| == 2 + |news| + (if deletes then 1 + |olds| else 0)
    && out[0] == HunkTitle(h) && out[1] == NewMark && ShowsNew(out, 2, news, h.start2)
    && (deletes ==> out[2 + |news|] == OldMark && ShowsOld(out, 3 + |news|, olds))
  }

  // ----- rows -----

  lemma {:induction false} NewRowAt(lines: seq<string>, n: int, k: nat)
    ensures |NewRows(lines, n)| == |lines|
    ensures k < |lines| ==> NewRows(lines, n)[k] == NewRow(n + k, lines[k])
    decreases |lines|
  {
    if lines != [] {
      NewRowAt(lines[1..], n + 1, if k > 0 then k - 1 else 0);
    }
  }

  lemma {:induction false} OldRowAt(lines: seq<string>, k: nat)
    ensures |OldRows(lines)| == |lines|
    ensures k < |lines| ==> OldRows(lines)[k] == OldRow(lines[k])
    decreases |lines|
  {
    if lines != [] {
      OldRowAt(lines[1..], if k > 0 then k - 1 else 0);
    }
  }

  lemma LayOut(h: Header, news: seq<string>, olds: seq<string>, deletes: bool)
    ensures var new_ := [HunkTitle(h)] + ([NewMark] + NewRows(news, h.start2));
            LaidOut(if deletes then new_ + ([OldMark] + OldRows(olds)) else new_, h, news, olds, deletes)
  {
    hide NewRows, OldRows;
    var new_ := [HunkTitle(h)] + ([NewMark] + NewRows(news, h.start2));
    var out := if deletes then new_ + ([OldMark] + OldRows(olds)) else new_;
    NewRowAt(news, h.start2, 0);
    OldRowAt(olds, 0);
    forall k | 0 <= k < |news| ensures out[2 + k] == NewRow(h.start2 + k, news[k]) {
      NewRowAt(news, h.start2, k);
    }
    if deletes {
      forall k | 0 <= k < |olds| ensures out[3 + |news| + k] == OldRow(olds[k]) {
        OldRowAt(olds, k);
      }
    }
  }

  // ----- what is collected -----

  lemma {:induction false} CollectedNew(body: seq<string>)
    requires Clean(body)
    ensures NewText(body) == WithMark(body, " +")
  {
    if body != [] {
      hide HasRemark, NewText, NewSide, Clean;
      CleanTail(body);
      CollectedNew(body[1..]);
      NewTextStep(body);
      Reassoc(NewText(body[1..]), [], []);
    }
  }

  lemma {:induction false} CollectedOld(body: seq<string>)
    requires Clean(body)
    ensures OldText(body) == WithMark(body, " -")
  {
    if body != [] {
      hide HasRemark, OldText, OldSide, Clean;
      CleanTail(body);
      CollectedOld(body[1..]);
      OldTextStep(body);
      Reassoc(OldText(body[1..]), [], []);
    }
  }

  lemma {:induction false} MinusCollected(body: seq<string>)
    requires Clean(body)
    ensures AnyMinus(WithMark(body, " -")) <==> Deletes(body)
  {
    if body != [] {
      hide HasRemark, Clean, BodyLine;
      CleanTail(body);
      MinusCollected(body[1..]);
      var t, rest := body[0], WithMark(body[1..], " -");
      if IsMinus(t) {
        assert t in WithMark(body, " -") && t in body;
      }
      if AnyMinus(rest) {
        var s :| s in rest && IsMinus(s);
        assert s in WithMark(body, " -");
        var u :| u in body[1..] && IsMinus(u);
        assert u in body;
      }
      if AnyMinus(WithMark(body, " -")) && !IsMinus(t) {
        var s :| s in WithMark(body, " -") && IsMinus(s);
        assert s in rest;
      }
      if Deletes(body) && !IsMinus(t) {
        var s :| s in body && IsMinus(s);
        assert s in body[1..];
      }
    }
  }

  /** A changed hunk prints exactly this, its lines with their marks. */
  lemma SectionShows(h: Hunk)
    requires Clean(h.body) && Alters(h.body)
    ensures LaidOut(Section(h), h.header, WithMark(h.body, " +"), WithMark(h.body, " -"), Deletes(h.body))
  {
    hide NewText, OldText, AnyPlus, AnyMinus, WithMark, LaidOut, Deletes, Clean, Section;
    ChangeIsCollected(h.body);
    SectionIs(h);
    CollectedNew(h.body);
    CollectedOld(h.body);
    MinusCollected(h.body);
    LayOut(h.header, WithMark(h.body, " +"), WithMark(h.body, " -"), Deletes(h.body));
  }

  // ----- against the two files -----

  lemma {:induction false} MarkedContents(body: seq<string>)
    ensures Contents(WithMark(body, " -")) == OldSide(body) && Contents(WithMark(body, " +")) == NewSide(body)
  {
    if body != [] {
      MarkedContents(body[1..]);
      var t := body[0];
      ContentsCons(t, WithMark(body[1..], " -"));
      ContentsCons(t, WithMark(body[1..], " +"));
      Reassoc(WithMark(body[1..], " -"), [], []);
      Reassoc(WithMark(body[1..], " +"), [], []);
    }
  }

  /**
   The section of a hunk between the two files: all of its new side, numbered; and, exactly when it deletes a line,
   all of its old side, in order; behind their marks these are the files' own lines.
   */
  lemma SectionIsBothSides(h: Hunk, base: seq<string>, head: seq<string>)
    requires HunkFits(h, base, head) && CleanHunk(h)
    ensures var news, olds := WithMark(h.body, " +"), WithMark(h.body, " -");
            && LaidOut(Section(h), h.header, news, olds, Deletes(h.body))
            && 0 <= NewPos(h.header) && 0 <= h.header.size2 && NewPos(h.header) + h.header.size2 <= |head|
            && 0 <= OldPos(h.header) && 0 <= h.header.size1 && OldPos(h.header) + h.header.size1 <= |base|
            && Contents(news) == head[NewPos(h.header)..NewPos(h.header) + h.header.size2]
            && Contents(olds) == base[OldPos(h.header)..OldPos(h.header) + h.header.size1]
  {
    hide WithMark, LaidOut, Deletes, Clean, Section, OldSide, NewSide, Contents, BodyLine;
    SectionShows(h);
    MarkedContents(h.body);
  }

  /** The same of a widened hunk: the old rows are the lines above, the old side and the lines behind. */
  lemma WidenedSection(
      cfg: Config, base: seq<string>, head: seq<string>, hunks: seq<Hunk>, h: Hunk)
    requires h in hunks && NoRemarks(base, head, hunks) && HunkFits(h, base, head)
    ensures var e, p, trail := ExtendedHunk(cfg, base, head, h), Placed(cfg, base, head, h), TrailOf(cfg, base, h);
            var news, olds := WithMark(e.body, " +"), WithMark(e.body, " -");
            && LaidOut(Section(e), p.header, news, olds, Deletes(h.body))
            && Contents(news) == p.lead + (NewSide(h.body) + trail)
            && Contents(olds) == p.lead + (OldSide(h.body) + trail)
  {
    var e := ExtendedHunk(cfg, base, head, h);
    hide *;
    ExtendedHunkIsClean(cfg, base, head, hunks, h);
    CleanBody(e);
    AltersIs(e.body);
    SectionShows(e);
    MarkedContents(e.body);
    ExtendedSides(cfg, base, head, h);
    HeaderIsPlaced(cfg, base, head, h);
    DeletesStill(cfg, base, head, h);
  }

  lemma AltersIs(body: seq<string>)
    ensures Alters(body) <==> exists s :: s in body && (IsPlus(s) || IsMinus(s))
  {}

  lemma DeletesStill(cfg: Config, base: seq<string>, head: seq<string>, h: Hunk)
    ensures Deletes(ExtendedHunk(cfg, base, head, h).body) <==> Deletes(h.body)
  {
    hide IsMinus, Placed, TrailOf, Context;
    var p, trail := Placed(cfg, base, head, h), TrailOf(cfg, base, h);
    var body := ExtendedHunk(cfg, base, head, h).body;
    NoMinusInContext(p.lead);
    NoMinusInContext(trail);
    assert body == Context(p.lead) + (h.body + Context(trail));
    if Deletes(h.body) {
      var s :| s in h.body && IsMinus(s);
      assert s in body;
    }
  }

  lemma {:induction false} NoMinusInContext(lines: seq<string>)
    ensures forall s :: s in Context(lines) ==> !IsMinus(s)
  {
    if lines != [] {
      NoMinusInContext(lines[1..]);
    }
  }

  // ----- the sections of a whole patch -----

  function Rows(hunks: seq<Hunk>): nat {
    if hunks == [] then 0 else |Section(hunks[0])| + Rows(hunks[1..])
  }

  /** Each hunk's section stands behind those of the hunks before it. */
  lemma {:induction false} SectionStands(hunks: seq<Hunk>, q: nat)
    requires q < |hunks|
    ensures var out, at := Sections(hunks), Rows(hunks[..q]);
            at + |Section(hunks[q])| <= |out| && out[at..at + |Section(hunks[q])|] == Section(hunks[q])
    ensures |Sections(hunks)| == Rows(hunks)
    decreases |hunks|
  {
    hide Section;
    RowsOfAll(hunks);
    if q > 0 {
      SectionStands(hunks[1..], q - 1);
      assert hunks[..q][0] == hunks[0] && hunks[..q][1..] == hunks[1..][..q - 1];
    } else {
      assert hunks[..0] == [];
    }
  }

  lemma {:induction false} RowsOfAll(hunks: seq<Hunk>)
    ensures |Sections(hunks)| == Rows(hunks)
  {
    hide Section;
    if hunks != [] {
      RowsOfAll(hunks[1..]);
    }
  }

  /** Numbering a patch prints the hunks' sections one behind the other, and nothing else. */
  lemma PatchPrintsSections(hunks: seq<Hunk>, q: nat)
    requires q < |hunks| && forall h :: h in hunks ==> CleanHunk(h)
    ensures var out, at := Number(Flatten(hunks), true, NOTHING_READ), Rows(hunks[..q]);
            && |out| == Rows(hunks) && at + |Section(hunks[q])| <= |out|
            && out[at..at + |Section(hunks[q])|] == Section(hunks[q])
  {
    hide Section, Sections, Number, Flatten, Clean;
    NumberJoined(hunks, [], true, NOTHING_READ);
    FlushNothing();
    Reassoc(Sections(hunks), [], []);
    SectionStands(hunks, q);
    FlattenIs(hunks);
  }

  lemma FlushNothing()
    ensures Flush(NOTHING_READ) == []
  {}

  lemma FlattenIs(hunks: seq<Hunk>)
    ensures Flatten(hunks) == Joined(hunks, [])
  {}
}
