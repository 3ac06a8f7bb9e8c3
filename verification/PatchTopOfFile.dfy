/**
 Hunks printed with start 0 (pr_agent/algo/git_patch_processing.py, process_patch_lines): an insertion above
 the first old line, or a deletion that leaves nothing above it in the new file. The widening loop treats
 the 0 as a line number, so slices begin or end one line before the file, counted from its end.
 */
module PatchTopOfFile {
  import opened Bounds
  import opened PatchExtension
  import opened PatchModel
  import opened PatchPlacement
  import opened PatchTheorems
  import opened Sequences

  // ----- nothing above on the new side -----

  /** New-side size announced, counted from line 1, with `t` trailing lines. */
  function Announced(cfg: Config, t: nat): int { if cfg.after > 0 && t == 0 then 0 else t - 1 }

  /** The old side is widened as ever; the new side starts at 1 and is announced one line short. */
  predicate Sunk(cfg: Config, s: Header, h: Header, t: nat) {
    && 1 <= s.start1 <= h.start1 && s.size1 == h.size1 + (h.start1 - s.start1) + t
    && 1 <= s.start2 && s.size2 + (s.start2 - 1) == Announced(cfg, t)
    && (s.start2 > 1 ==> s.start1 < h.start1)
  }

  /** A deletion printed with start 0 on the new side: hypotheses of all that follows. */
  predicate Deletes(base: seq<string>, h: Header, cfg: Config, t: int) {
    && Sane(cfg) && 1 <= h.start1 && 0 <= h.size1 && h.start1 - 1 + h.size1 <= |base| && h.start2 == 0 && h.size2 == 0
    && t == Min(cfg.after, |base| - (h.start1 - 1 + h.size1))
  }

  lemma LimitsSink(cfg: Config, base: seq<string>, h: Header, before: nat, t: nat)
    requires Deletes(base, h, cfg, t)
    ensures var s := Limits(h, before, cfg.after, |base|); Sunk(cfg, s, h, t) && s.start2 == 1
  {}

  lemma StartSinks(cfg: Config, base: seq<string>, head: seq<string>, h: Header, t: nat)
    requires Deletes(base, h, cfg, t)
    ensures Sunk(cfg, Start(cfg, base, head, h), h, t)
  {
    hide FirstHolding, Slice, Limits;
    LimitsSink(cfg, base, h, cfg.before, t);
    if cfg.allowDynamic && head != [] {
      LimitsSink(cfg, base, h, cfg.dynamicBefore, t);
      var d := Limits(h, cfg.dynamicBefore, cfg.after, |base|);
      SliceInside(base, d.start1 - 1, h.start1 - 1);
    }
  }

  lemma SettleSinks(cfg: Config, base: seq<string>, head: seq<string>, h: Header, s: Header, t: nat)
    requires Deletes(base, h, cfg, t) && Sunk(cfg, s, h, t)
    ensures var p := Settle(base, head, h, s);
            if p.reset then p.header == h.(section := s.section) && p.lead == []
            else Sunk(cfg, p.header, h, t) && p.lead == base[p.header.start1 - 1..h.start1 - 1]
  {
    hide FirstShared, Slice, Announced;
    var a, b := Slice(base, s.start1 - 1, h.start1 - 1), Slice(head, s.start2 - 1, h.start2 - 1);
    SliceInside(base, s.start1 - 1, h.start1 - 1);
    var i := FirstShared(a, b, 0);
    if head != [] && a != b && i < |a| {
      SliceOfSlice(base, s.start1 - 1, h.start1 - 1, i);
    }
  }

  lemma PlacedSinks(cfg: Config, base: seq<string>, head: seq<string>, h: Hunk, t: nat)
    requires Deletes(base, h.header, cfg, t) && Valid(base, h) && Widens(cfg)
    ensures var p := Placed(cfg, base, head, h);
            if p.reset then p.header.size2 == 0 && p.lead == []
            else Sunk(cfg, p.header, h.header, t) && p.lead == base[p.header.start1 - 1..h.header.start1 - 1]
    ensures var p := Placed(cfg, base, head, h);
            p.reset ==> p.header.start1 == h.header.start1 && p.header.size1 == h.header.size1
  {
    hide Start, Settle, Context, FirstHolding, MatchesFile, Announced;
    StartSinks(cfg, base, head, h.header, t);
    SettleSinks(cfg, base, head, h.header, Start(cfg, base, head, h.header), t);
    PlaceIsSettle(cfg, base, head, h.header);
  }

  /**
   A hunk printed with start 0 on the new side: the old side of the widened hunk is as its header says, but
   for the one exception; the printed new-side size is right only if nothing was put around the hunk.
   */
  lemma TopDeletionHeader(cfg: Config, base: seq<string>, head: seq<string>, target: seq<string>, h: Hunk)
    requires Sane(cfg) && HunkFits(h, base, target) && h.header.start2 == 0
    ensures var e, abandons := ExtendedHunk(cfg, base, head, h), Abandons(cfg, base, head, h.header);
            && (TruthfulOldSide(e, base) <==> !(abandons && Trails(cfg, base, h.header)))
            && (|NewSide(e.body)| == e.header.size2
                <==> !Leads(cfg, base, head, h.header) && !Trails(cfg, base, h.header)
                     && (abandons || !Widens(cfg) || cfg.after > 0))
  {
    hide *;
    var e, p, trail := ExtendedHunk(cfg, base, head, h), Placed(cfg, base, head, h), TrailOf(cfg, base, h);
    var t := Min(cfg.after, |base| - (h.header.start1 - 1 + h.header.size1));
    TopDeletionFacts(cfg, base, target, h, t);
    FittingHunkIsValid(h, base, target);
    ExtendedSides(cfg, base, head, h);
    HeaderIsPlaced(cfg, base, head, h);
    TrailIsOldFile(cfg, base, h);
    if Widens(cfg) {
      PlacedSinks(cfg, base, head, h, t);
      SunkTells(cfg, base, h.header, p, OldSide(h.body), NewSide(h.body), trail, t);
    } else {
      NotWidened(cfg, base, head, h);
      SunkTells(cfg, base, h.header, p, OldSide(h.body), NewSide(h.body), trail, t);
    }
    TruthIs(e, base);
    PlacedByInput(cfg, base, head, target, h);
    TrailsExactly(cfg, base, target, h);
  }

  lemma TopDeletionFacts(cfg: Config, base: seq<string>, target: seq<string>, h: Hunk, t: int)
    requires Sane(cfg) && HunkFits(h, base, target) && h.header.start2 == 0
    requires t == Min(cfg.after, |base| - (h.header.start1 - 1 + h.header.size1))
    ensures t >= 0 && 1 <= h.header.start1 && 0 <= h.header.size1
    ensures var c := h.header.start1 - 1 + h.header.size1;
            c + t <= |base| && OldSide(h.body) == base[h.header.start1 - 1..c] && NewSide(h.body) == []
    ensures Deletes(base, h.header, cfg, t)
  {
    hide BodyLine, OldSide, NewSide;
    ChangeHasSide(h.body);
  }

  /** A changed line is on one of the two sides. */
  lemma {:induction false} ChangeHasSide(body: seq<string>)
    ensures (exists s :: s in body && (IsPlus(s) || IsMinus(s))) ==> OldSide(body) != [] || NewSide(body) != []
  {
    if body != [] {
      ChangeHasSide(body[1..]);
    }
  }

  lemma NotWidened(cfg: Config, base: seq<string>, head: seq<string>, h: Hunk)
    requires !Widens(cfg)
    ensures Placed(cfg, base, head, h) == Placement(h.header, [], false) && TrailOf(cfg, base, h) == []
  {}

  lemma SunkTells(
      cfg: Config, base: seq<string>, h: Header, p: Placement, removed: seq<string>, added: seq<string>,
      trail: seq<string>, t: nat)
    requires Deletes(base, h, cfg, t) && added == [] && removed == base[h.start1 - 1..h.start1 - 1 + h.size1]
    requires var c := h.start1 - 1 + h.size1; c + t <= |base| && trail == base[c..c + t]
    requires if !Widens(cfg) then p == Placement(h, [], false)
             else if p.reset then
               p.lead == [] && p.header.size2 == 0 && p.header.start1 == h.start1 && p.header.size1 == h.size1
             else Sunk(cfg, p.header, h, t) && p.lead == base[p.header.start1 - 1..h.start1 - 1]
    ensures Names(p.header, base, p.lead + (removed + trail)) <==> !(p.reset && trail != [])
    ensures |p.lead + (added + trail)| == p.header.size2
            <==> p.lead == [] && trail == [] && (p.reset || !Widens(cfg) || cfg.after > 0)
  {
    var c := h.start1 - 1 + h.size1;
    if p.lead == [] && t == 0 {
      assert p.lead + (removed + trail) == removed;
    }
    if !p.reset {
      OldSlices(base, p.header.start1 - 1, h.start1 - 1, c, c + t);
    } else {
      assert |p.lead + (removed + trail)| == h.size1 + t;
    }
  }

  // ----- nothing above on the old side -----

  /** Announced sizes, counted from line 1 of the old file and from the hunk in the new one. */
  predicate Floats(cfg: Config, base: seq<string>, s: Header, h: Header) {
    && 1 <= s.start1 && s.start1 - 1 <= AllButLast(base) && s.size1 + (s.start1 - 1) == Min(cfg.after - 1, |base|)
    && 1 <= s.start2 <= h.start2 && s.size2 == h.size2 + (h.start2 - s.start2) + Min(cfg.after, |base| + 1)
  }

  /** An insertion printed with start 0 on the old side. */
  predicate Inserts(cfg: Config, head: seq<string>, h: Header) {
    && Sane(cfg) && h.start1 == 0 && h.size1 == 0 && 1 <= h.start2 && 0 <= h.size2
    && (head != [] ==> h.start2 - 1 <= |head|)
  }

  lemma LimitsFloat(cfg: Config, base: seq<string>, head: seq<string>, h: Header, before: nat)
    requires Inserts(cfg, head, h)
    ensures var s := Limits(h, before, cfg.after, |base|);
            Floats(cfg, base, s, h) && s.start1 == 1 && s.start2 == Max(1, h.start2 - before)
  {}

  lemma BeforeTheLast(base: seq<string>, lo: nat)
    requires lo <= AllButLast(base)
    ensures Slice(base, lo, -1) == base[lo..AllButLast(base)]
  {}

  lemma StartFloats(cfg: Config, base: seq<string>, head: seq<string>, h: Header)
    requires Inserts(cfg, head, h)
    ensures var s := Start(cfg, base, head, h);
            Floats(cfg, base, s, h) && (head == [] ==> s.start1 == 1 && s.start2 == Max(1, h.start2 - cfg.before))
  {
    hide FirstHolding, Limits, AllButLast;
    LimitsFloat(cfg, base, head, h, cfg.before);
    if cfg.allowDynamic && head != [] {
      LimitsFloat(cfg, base, head, h, cfg.dynamicBefore);
      var d := Limits(h, cfg.dynamicBefore, cfg.after, |base|);
      BeforeTheLast(base, d.start1 - 1);
      SliceInside(head, d.start2 - 1, h.start2 - 1);
    }
  }

  lemma SettleFloats(cfg: Config, base: seq<string>, head: seq<string>, h: Header, s: Header)
    requires Inserts(cfg, head, h) && Floats(cfg, base, s, h)
    ensures var p := Settle(base, head, h, s);
            if p.reset then head != [] && p.header == h.(section := s.section) && p.lead == []
            else
              && Floats(cfg, base, p.header, h) && p.lead == base[p.header.start1 - 1..AllButLast(base)]
              && (head != [] ==> |p.lead| == h.start2 - p.header.start2)
              && (head == [] ==> p.header == s)
  {
    hide FirstShared, Slice, AllButLast;
    var a, b := Slice(base, s.start1 - 1, h.start1 - 1), Slice(head, s.start2 - 1, h.start2 - 1);
    BeforeTheLast(base, s.start1 - 1);
    if head != [] {
      SliceInside(head, s.start2 - 1, h.start2 - 1);
      var i := FirstShared(a, b, 0);
      if a != b && i < |a| {
        SliceOfSlice(base, s.start1 - 1, AllButLast(base), i);
      }
    }
  }

  /** Where widening puts the lines around an insertion above the first old line. */
  ghost predicate Floated(cfg: Config, base: seq<string>, head: seq<string>, h: Header, p: Placement) {
    if p.reset then head != [] && p.header == h.(section := p.header.section) && p.lead == []
    else
      && Floats(cfg, base, p.header, h) && p.lead == base[p.header.start1 - 1..AllButLast(base)]
      && (head != [] ==> |p.lead| == h.start2 - p.header.start2)
      && (head == [] ==> p.header.start1 == 1 && p.header.start2 == Max(1, h.start2 - cfg.before))
  }

  lemma PlacedFloats(cfg: Config, base: seq<string>, head: seq<string>, h: Hunk)
    requires Inserts(cfg, head, h.header) && Valid(base, h) && Widens(cfg)
    ensures Floated(cfg, base, head, h.header, Placed(cfg, base, head, h))
  {
    hide Start, Settle, Context, FirstHolding, MatchesFile, AllButLast;
    StartFloats(cfg, base, head, h.header);
    SettleFloats(cfg, base, head, h.header, Start(cfg, base, head, h.header));
    PlaceIsSettle(cfg, base, head, h.header);
  }

  /** The trailing lines start one before the first: at the last line of the file, if the slice gets that far. */
  lemma TrailAtTop(cfg: Config, base: seq<string>, h: Hunk)
    requires Sane(cfg) && Valid(base, h) && h.header.start1 == 0 && h.header.size1 == 0
    ensures TrailOf(cfg, base, h) == if base != [] && cfg.after > |base| then base[|base| - 1..] else []
  {
    hide MatchesFile;
  }

  lemma TopInsertionFacts(cfg: Config, base: seq<string>, head: seq<string>, target: seq<string>, h: Hunk)
    requires Sane(cfg) && HunkFits(h, base, target) && h.header.start1 == 0 && (head == target || head == [])
    ensures Inserts(cfg, head, h.header) && OldSide(h.body) == [] && |NewSide(h.body)| == h.header.size2
  {
    hide BodyLine, OldSide, NewSide;
    ChangeHasSide(h.body);
  }

  /**
   An insertion above the first old line. Unless widening is off or given up, everything but the old file's
   last line is taken for its leading context, so the header is right about the old side only when the
   configured trailing lines cover the file, and about the new side only when there is none to announce.
   */
  lemma TopInsertionHeader(cfg: Config, base: seq<string>, head: seq<string>, target: seq<string>, h: Hunk)
    requires Sane(cfg) && HunkFits(h, base, target) && h.header.start1 == 0 && (head == target || head == [])
    ensures var e, abandons := ExtendedHunk(cfg, base, head, h), Abandons(cfg, base, head, h.header);
            && (TruthfulOldSide(e, base)
                <==> !Widens(cfg) || (if abandons then base == [] || cfg.after <= |base|
                                      else cfg.after >= Max(1, |base|)))
            && (|NewSide(e.body)| == e.header.size2
                <==> !Widens(cfg) || (if abandons then base == [] || cfg.after <= |base|
                                      else if head != [] then cfg.after == 0 else AnnouncesAll(cfg, base, h.header)))
  {
    hide *;
    var e, p, trail := ExtendedHunk(cfg, base, head, h), Placed(cfg, base, head, h), TrailOf(cfg, base, h);
    TopInsertionFacts(cfg, base, head, target, h);
    FittingHunkIsValid(h, base, target);
    ExtendedSides(cfg, base, head, h);
    HeaderIsPlaced(cfg, base, head, h);
    InsertsIs(cfg, head, h.header);
    TrailAtTop(cfg, base, h);
    PlacedByInput(cfg, base, head, target, h);
    if Widens(cfg) {
      PlacedFloats(cfg, base, head, h);
      FloatTells(cfg, base, head, h.header, p, NewSide(h.body), trail);
      assert OldSide(h.body) + trail == trail;
    } else {
      NotWidened(cfg, base, head, h);
      NothingAround(h.header, base, OldSide(h.body), NewSide(h.body));
    }
    TruthIs(e, base);
  }

  lemma InsertsIs(cfg: Config, head: seq<string>, h: Header)
    requires Inserts(cfg, head, h)
    ensures Sane(cfg) && h.start1 == 0 && h.size1 == 0
  {}

  /** Without the new file: the lines put in front and behind are as many as the header announces. */
  predicate AnnouncesAll(cfg: Config, base: seq<string>, h: Header) {
    if base == [] then cfg.after == 0 && Min(cfg.before, h.start2 - 1) == 0
    else cfg.after <= |base| && |base| - 1 == Min(cfg.before, h.start2 - 1) + cfg.after
  }

  lemma NothingAround(h: Header, base: seq<string>, removed: seq<string>, added: seq<string>)
    requires h.size1 == 0 && removed == [] && |added| == h.size2
    ensures Names(h, base, [] + (removed + [])) && |[] + (added + [])| == h.size2
  {}

  lemma FloatTells(
      cfg: Config, base: seq<string>, head: seq<string>, h: Header, p: Placement, added: seq<string>,
      trail: seq<string>)
    requires Inserts(cfg, head, h) && Widens(cfg) && Floated(cfg, base, head, h, p) && |added| == h.size2
    requires trail == if base != [] && cfg.after > |base| then base[|base| - 1..] else []
    ensures Names(p.header, base, p.lead + trail) <==> if p.reset then trail == [] else cfg.after >= Max(1, |base|)
    ensures |p.lead + (added + trail)| == p.header.size2
            <==> if p.reset then trail == [] else if head != [] then cfg.after == 0 else AnnouncesAll(cfg, base, h)
  {
    if p.reset {
      assert p.lead + trail == trail;
    } else {
      OldLinesTell(cfg, base, p, trail);
      NewLinesTell(cfg, base, head, h, p, added, trail);
    }
  }

  lemma OldLinesTell(cfg: Config, base: seq<string>, p: Placement, trail: seq<string>)
    requires 1 <= p.header.start1 && p.header.start1 - 1 <= AllButLast(base) && cfg.after >= 0
    requires p.header.size1 + (p.header.start1 - 1) == Min(cfg.after - 1, |base|)
    requires p.lead == base[p.header.start1 - 1..AllButLast(base)]
    requires trail == if base != [] && cfg.after > |base| then base[|base| - 1..] else []
    ensures Names(p.header, base, p.lead + trail) <==> cfg.after >= Max(1, |base|)
  {
    var k := p.header.start1 - 1;
    if base != [] && cfg.after > |base| {
      WholeRest(base, k);
      assert p.header.size1 == |base| - k;
    } else {
      Reassoc(p.lead, [], []);
      assert |p.lead| == AllButLast(base) - k;
    }
  }

  lemma WholeRest(base: seq<string>, k: nat)
    requires base != [] && k < |base|
    ensures base[k..|base| - 1] + base[|base| - 1..] == base[k..] == base[k..k + (|base| - k)]
  {}

  lemma NewLinesTell(
      cfg: Config, base: seq<string>, head: seq<string>, h: Header, p: Placement, added: seq<string>,
      trail: seq<string>)
    requires Sane(cfg) && !p.reset && Floated(cfg, base, head, h, p) && |added| == h.size2 && 1 <= h.start2
    requires |trail| == if base != [] && cfg.after > |base| then 1 else 0
    ensures |p.lead + (added + trail)| == p.header.size2
            <==> if head != [] then cfg.after == 0 else AnnouncesAll(cfg, base, h)
  {}
}
