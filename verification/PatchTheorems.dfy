/**
 What widening a patch promises, against the two target files (pr_agent/algo/git_patch_processing.py):
 it only inserts context, goes hunk by hunk, and prints truthful headers, with one exception.
 */
module PatchTheorems {
  import opened Bounds
  import opened PatchExtension
  import opened PatchModel
  import opened PatchPlacement
  import opened Sequences
  import opened Wrappers

  // ----- extension only inserts context -----

  /** The added and deleted lines of a patch, in order. */
  function Changes(lines: seq<PatchLine>): seq<string> {
    if lines == [] then []
    else (if lines[0].Txt? && (IsPlus(lines[0].text) || IsMinus(lines[0].text)) then [lines[0].text] else [])
         + Changes(lines[1..])
  }

  lemma {:induction false} ChangesConcat(a: seq<PatchLine>, b: seq<PatchLine>)
    ensures Changes(a + b) == Changes(a) + Changes(b)
  {
    if a == [] {
      assert a + b == b;
    } else {
      assert (a + b)[1..] == a[1..] + b;
      ChangesConcat(a[1..], b);
    }
  }

  lemma {:induction false} ContextHasNoChanges(lines: seq<string>)
    ensures Changes(Txts(Context(lines))) == []
  {
    if lines != [] {
      assert Context(lines)[1..] == Context(lines[1..]);
      assert Txts(Context(lines))[1..] == Txts(Context(lines[1..]));
      ContextHasNoChanges(lines[1..]);
    }
  }

  /** For every patch and every pair of files, well formed or not. */
  lemma {:induction false} ExtensionKeepsChanges(
      cfg: Config, base: seq<string>, head: seq<string>, lines: seq<PatchLine>, st: Open)
    ensures Changes(Extend(cfg, base, head, lines, st)) == Changes(lines)
    decreases |lines|
  {
    ContextHasNoChanges(Trail(cfg, base, st));
    if lines != [] {
      match lines[0]
      case Txt(_) =>
        ExtensionKeepsChanges(cfg, base, head, lines[1..], st);
        ChangesConcat([lines[0]], Extend(cfg, base, head, lines[1..], st));
      case Hdr(h) =>
        var valid := MatchesFile(First(lines[1..]), base, h.start1);
        var p := Place(cfg, base, head, h, valid);
        var rest := Extend(cfg, base, head, lines[1..], Open(Some(h), valid));
        var tail, title := Txts(Context(Trail(cfg, base, st))), [Txt(""), Hdr(p.header)];
        ExtensionKeepsChanges(cfg, base, head, lines[1..], Open(Some(h), valid));
        ContextHasNoChanges(p.lead);
        ChangesConcat(tail + (title + Txts(Context(p.lead))), rest);
        ChangesConcat(tail, title + Txts(Context(p.lead)));
        ChangesConcat(title, Txts(Context(p.lead)));
        assert title[1..][1..] == [];
    }
  }

  // ----- extension, hunk by hunk -----

  predicate Valid(base: seq<string>, h: Hunk) {
    MatchesFile(First(Txts(h.body)), base, h.header.start1)
  }

  function Placed(cfg: Config, base: seq<string>, head: seq<string>, h: Hunk): Placement {
    Place(cfg, base, head, h.header, Valid(base, h))
  }

  function TrailOf(cfg: Config, base: seq<string>, h: Hunk): seq<string> {
    Trail(cfg, base, Open(Some(h.header), Valid(base, h)))
  }

  function ExtendedHunk(cfg: Config, base: seq<string>, head: seq<string>, h: Hunk): Hunk {
    var p := Placed(cfg, base, head, h);
    Hunk(p.header, Context(p.lead) + (h.body + Context(TrailOf(cfg, base, h))))
  }

  function ExtendedHunks(cfg: Config, base: seq<string>, head: seq<string>, hunks: seq<Hunk>): (r: seq<Hunk>)
    ensures |r| == |hunks|
    ensures forall k :: 0 <= k < |hunks| ==> r[k] == ExtendedHunk(cfg, base, head, hunks[k])
  {
    if hunks == [] then []
    else [ExtendedHunk(cfg, base, head, hunks[0])] + ExtendedHunks(cfg, base, head, hunks[1..])
  }

  lemma {:induction false} ExtendBody(
      cfg: Config, base: seq<string>, head: seq<string>, body: seq<string>, rest: seq<PatchLine>, st: Open)
    ensures Extend(cfg, base, head, Txts(body) + rest, st) == Txts(body) + Extend(cfg, base, head, rest, st)
    decreases |body|
  {
    if body == [] {
      assert Txts(body) + rest == rest;
      assert Txts(body) + Extend(cfg, base, head, rest, st) == Extend(cfg, base, head, rest, st);
    } else {
      var lines := Txts(body) + rest;
      assert lines[0] == Txt(body[0]) && lines[1..] == Txts(body[1..]) + rest;
      ExtendBody(cfg, base, head, body[1..], rest, st);
      Reassoc([Txt(body[0])], Txts(body[1..]), Extend(cfg, base, head, rest, st));
    }
  }

  /** A patch made of hunks extends to a patch made of extended hunks, each header after a blank line. */
  lemma {:induction false} ExtendFlatten(cfg: Config, base: seq<string>, head: seq<string>, hunks: seq<Hunk>, st: Open)
    ensures Extend(cfg, base, head, Flatten(hunks), st)
            == Txts(Context(Trail(cfg, base, st)))
               + (if hunks == [] then [] else [Txt("")] + Joined(ExtendedHunks(cfg, base, head, hunks), [""]))
    decreases |hunks|
  {
    if hunks == [] {
      Reassoc(Txts(Context(Trail(cfg, base, st))), [], []);
    } else {
      var h, rest := hunks[0], hunks[1..];
      var open := Open(Some(h.header), Valid(base, h));
      ExtendFlatten(cfg, base, head, rest, open);
      ExtendBody(cfg, base, head, h.body, Flatten(rest), open);
      ExtendFirstHunk(cfg, base, head, hunks, st);
      var p := Placed(cfg, base, head, h);
      var more := if rest == [] then [] else [Txt("")] + Joined(ExtendedHunks(cfg, base, head, rest), [""]);
      JoinedStep(cfg, base, head, hunks, more);
      Glue(Txts(Context(Trail(cfg, base, st))), [Txt("")], [Hdr(p.header)], Txts(Context(p.lead)), Txts(h.body),
           Txts(Context(TrailOf(cfg, base, h))), more);
    }
  }

  lemma ExtendFirstHunk(cfg: Config, base: seq<string>, head: seq<string>, hunks: seq<Hunk>, st: Open)
    requires hunks != []
    ensures var h, p := hunks[0], Placed(cfg, base, head, hunks[0]);
            Extend(cfg, base, head, Flatten(hunks), st)
            == Txts(Context(Trail(cfg, base, st))) + ([Txt("")] + [Hdr(p.header)] + Txts(Context(p.lead)))
               + Extend(cfg, base, head, Txts(h.body) + Flatten(hunks[1..]), Open(Some(h.header), Valid(base, h)))
  {
    FlattenStep(hunks);
    FirstLineValid(base, hunks);
    var lines := Flatten(hunks);
    assert lines[0] == Hdr(hunks[0].header) && lines[1..] == Txts(hunks[0].body) + Flatten(hunks[1..]);
    assert [Txt("")] + [Hdr(Placed(cfg, base, head, hunks[0]).header)]
        == [Txt(""), Hdr(Placed(cfg, base, head, hunks[0]).header)];
  }

  lemma FirstLineValid(base: seq<string>, hunks: seq<Hunk>)
    requires hunks != []
    ensures MatchesFile(First(Txts(hunks[0].body) + Flatten(hunks[1..])), base, hunks[0].header.start1)
            == Valid(base, hunks[0])
  {
    if hunks[0].body == [] {
      assert Txts(hunks[0].body) + Flatten(hunks[1..]) == Flatten(hunks[1..]);
    }
  }

  lemma JoinedStep(cfg: Config, base: seq<string>, head: seq<string>, hunks: seq<Hunk>, more: seq<PatchLine>)
    requires hunks != []
    requires more == if hunks[1..] == [] then []
                     else [Txt("")] + Joined(ExtendedHunks(cfg, base, head, hunks[1..]), [""])
    ensures var p := Placed(cfg, base, head, hunks[0]);
            Joined(ExtendedHunks(cfg, base, head, hunks), [""])
            == [Hdr(p.header)]
               + (Txts(Context(p.lead) + (hunks[0].body + Context(TrailOf(cfg, base, hunks[0])))) + more)
    ensures var p := Placed(cfg, base, head, hunks[0]);
            Txts(Context(p.lead) + (hunks[0].body + Context(TrailOf(cfg, base, hunks[0]))))
            == Txts(Context(p.lead)) + (Txts(hunks[0].body) + Txts(Context(TrailOf(cfg, base, hunks[0]))))
  {
    hide Placed, Context, Trail;
    var p, trail := Placed(cfg, base, head, hunks[0]), Context(TrailOf(cfg, base, hunks[0]));
    TxtsConcat(Context(p.lead), hunks[0].body + trail);
    TxtsConcat(hunks[0].body, trail);
    var es := ExtendedHunks(cfg, base, head, hunks);
    assert es[1..] == ExtendedHunks(cfg, base, head, hunks[1..]);
    if hunks[1..] == [] {
      assert Txts([]) + Joined([], [""]) == [];
    } else {
      assert Txts([""]) == [Txt("")] by { assert [""][1..] == []; }
    }
  }

  lemma Glue<T>(tail: seq<T>, blank: seq<T>, title: seq<T>, lead: seq<T>, body: seq<T>, trail: seq<T>, more: seq<T>)
    ensures tail + (blank + title + lead) + (body + (trail + more))
            == tail + (blank + (title + ((lead + (body + trail)) + more)))
  {
    assert body + (trail + more) == (body + trail) + more;
    assert lead + ((body + trail) + more) == (lead + (body + trail)) + more;
  }

  // ----- truthful headers -----

  /** These lines are the slice of the old file a header names; an empty range names no line. */
  predicate Names(p: Header, base: seq<string>, lines: seq<string>) {
    if p.size1 == 0 then lines == []
    else
      && 1 <= p.start1 && 0 <= p.size1 && p.start1 - 1 + p.size1 <= |base|
      && lines == base[p.start1 - 1..p.start1 - 1 + p.size1]
  }

  /** The old side is exactly the slice of the old file the header names. */
  predicate TruthfulOldSide(h: Hunk, base: seq<string>) { Names(h.header, base, OldSide(h.body)) }

  predicate Sane(cfg: Config) { cfg.before >= 0 && cfg.after >= 0 && cfg.dynamicBefore >= 0 }

  lemma StripOfContext(t: string)
    ensures Strip(" " + t) == Strip(t)
  {
    assert (" " + t)[1..] == t;
  }

  lemma FittingHunkIsValid(h: Hunk, base: seq<string>, head: seq<string>)
    requires HunkFits(h, base, head)
    ensures Valid(base, h)
  {
    if h.body != [] && h.body[0] != "" && h.body[0][0] == ' ' {
      var t := h.body[0][1..];
      assert h.body[0] == " " + t;
      StripOfContext(t);
      assert OldSide(h.body)[0] == t;
      assert base[h.header.start1 - 1] == OldSide(h.body)[0];
    }
  }

  /** A widened header that counts `t` trailing lines and the leading lines it moved over. */
  predicate Consistent(s: Header, h: Header, t: nat) {
    && 1 <= s.start1 <= h.start1 && 1 <= s.start2 <= h.start2
    && s.size1 == h.size1 + (h.start1 - s.start1) + t
    && s.size2 == h.size2 + (h.start2 - s.start2) + t
  }

  lemma LimitsAreConsistent(h: Header, before: nat, after: nat, oldLength: nat, t: nat)
    requires 1 <= h.start1 && 1 <= h.start2 && 0 <= h.size1 && 0 <= h.size2
    requires h.start1 - 1 + h.size1 <= oldLength && t == Min(after, oldLength - (h.start1 - 1 + h.size1))
    ensures Consistent(Limits(h, before, after, oldLength), h, t)
  {}

  lemma StartIsConsistent(cfg: Config, base: seq<string>, head: seq<string>, h: Header, t: nat)
    requires Sane(cfg) && 1 <= h.start1 && 1 <= h.start2 && 0 <= h.size1 && 0 <= h.size2
    requires h.start1 - 1 + h.size1 <= |base| && (head != [] ==> h.start2 - 1 <= |head|)
    requires t == Min(cfg.after, |base| - (h.start1 - 1 + h.size1))
    ensures Consistent(Start(cfg, base, head, h), h, t)
  {
    LimitsAreConsistent(h, cfg.before, cfg.after, |base|, t);
    if cfg.allowDynamic && head != [] {
      LimitsAreConsistent(h, cfg.dynamicBefore, cfg.after, |base|, t);
      var d := Limits(h, cfg.dynamicBefore, cfg.after, |base|);
      var a, b := Slice(base, d.start1 - 1, h.start1 - 1), Slice(head, d.start2 - 1, h.start2 - 1);
      assert |a| == h.start1 - d.start1 && |b| == h.start2 - d.start2;
      DropIsConsistent(d, h, t, FirstHolding(h.section, a), a, b);
    }
  }

  lemma DropIsConsistent(d: Header, h: Header, t: nat, i: nat, a: seq<string>, b: seq<string>)
    requires Consistent(d, h, t) && |a| == h.start1 - d.start1 && |b| == h.start2 - d.start2
    ensures i < |a| && a[i..] == Slice(b, i, |b|) ==>
              i <= |b| && Consistent(Drop(d, i), h, t) && Consistent(Drop(d, i).(section := ""), h, t)
  {}

  /** Leading context is the old file's, and the new file's when that is supplied. */
  ghost predicate Settled(p: Placement, base: seq<string>, head: seq<string>, h: Header, t: nat)
    requires 0 <= h.start1 - 1 <= |base| && (head != [] ==> 0 <= h.start2 - 1 <= |head|)
  {
    && (p.reset ==> head != [] && p.header == h.(section := p.header.section) && p.lead == [])
    && (!p.reset ==>
         && Consistent(p.header, h, t)
         && p.lead == base[p.header.start1 - 1..h.start1 - 1]
         && (head != [] ==> p.lead == head[p.header.start2 - 1..h.start2 - 1]))
  }

  lemma SettleIsSettled(base: seq<string>, head: seq<string>, h: Header, s: Header, t: nat)
    requires 0 <= h.start1 - 1 <= |base| && (head != [] ==> 0 <= h.start2 - 1 <= |head|)
    requires Consistent(s, h, t)
    ensures Settled(Settle(base, head, h, s), base, head, h, t)
  {
    hide Slice, Clamp, FirstShared;
    var a, b := Slice(base, s.start1 - 1, h.start1 - 1), Slice(head, s.start2 - 1, h.start2 - 1);
    SliceInside(base, s.start1 - 1, h.start1 - 1);
    DropIsSettled(base, head, h, s, t, 0);
    if head != [] {
      SliceInside(head, s.start2 - 1, h.start2 - 1);
      DropIsSettled(base, head, h, s, t, FirstShared(a, b, 0));
    }
  }

  lemma DropIsSettled(base: seq<string>, head: seq<string>, h: Header, s: Header, t: nat, i: nat)
    requires 0 <= h.start1 - 1 <= |base| && (head != [] ==> 0 <= h.start2 - 1 <= |head|)
    requires Consistent(s, h, t)
    requires i <= h.start1 - s.start1
    ensures var a := base[s.start1 - 1..h.start1 - 1];
            (head != [] ==>
              var b := head[s.start2 - 1..h.start2 - 1]; i <= |b| && a[i..] == b[i..]) ==>
            (head == [] ==> i == 0) ==>
            Settled(Placement(Drop(s, i), a[i..], false), base, head, h, t)
    ensures Drop(s, 0) == s && base[s.start1 - 1..h.start1 - 1][0..] == base[s.start1 - 1..h.start1 - 1]
  {
    hide OldSide;
    SliceOfSlice(base, s.start1 - 1, h.start1 - 1, i);
    if head != [] && i <= h.start2 - s.start2 {
      SliceOfSlice(head, s.start2 - 1, h.start2 - 1, i);
    }
  }

  lemma SliceInside(s: seq<string>, lo: int, hi: int)
    requires 0 <= lo <= hi <= |s|
    ensures Slice(s, lo, hi) == s[lo..hi]
  {}

  lemma SliceOfSlice(s: seq<string>, a: nat, b: nat, i: nat)
    requires a <= b <= |s| && i <= b - a
    ensures s[a..b][i..] == s[a + i..b]
  {}

  lemma PlaceIsSettle(cfg: Config, base: seq<string>, head: seq<string>, h: Header)
    requires cfg.before > 0 || cfg.after > 0
    ensures var p, s := Place(cfg, base, head, h, true), Settle(base, head, h, Start(cfg, base, head, h));
            p == s.(header := s.header.(section := p.header.section))
  {}

  lemma StartWithoutNewFile(cfg: Config, base: seq<string>, h: Header)
    ensures var s := Start(cfg, base, [], h);
            s.start1 == Max(1, h.start1 - cfg.before) && s.start2 == Max(1, h.start2 - cfg.before)
            && Settle(base, [], h, s).header == s
  {}

  /** Everything the header proofs need about a placed hunk, with `t` trailing lines. */
  lemma PlacedFacts(cfg: Config, base: seq<string>, head: seq<string>, h: Hunk, t: nat)
    requires Sane(cfg) && 1 <= h.header.start1 && 1 <= h.header.start2
    requires 0 <= h.header.size1 && 0 <= h.header.size2
    requires h.header.start1 - 1 + h.header.size1 <= |base| && (head != [] ==> h.header.start2 - 1 <= |head|)
    requires Valid(base, h) && t == Min(cfg.after, |base| - (h.header.start1 - 1 + h.header.size1))
    ensures Settled(Placed(cfg, base, head, h), base, head, h.header, t)
    ensures var p := Placed(cfg, base, head, h);
            head == [] ==> !p.reset && p.header.start2 == Max(1, h.header.start2 - cfg.before)
                           && p.header.start1 == Max(1, h.header.start1 - cfg.before)
  {
    hide Start, Settle, Context, FirstHolding, MatchesFile;
    if cfg.before > 0 || cfg.after > 0 {
      StartIsConsistent(cfg, base, head, h.header, t);
      StartWithoutNewFile(cfg, base, h.header);
      SettleIsSettled(base, head, h.header, Start(cfg, base, head, h.header), t);
      PlaceIsSettle(cfg, base, head, h.header);
    }
  }

  lemma TrailIsOldFile(cfg: Config, base: seq<string>, h: Hunk)
    requires Sane(cfg) && Valid(base, h)
    requires 1 <= h.header.start1 && 0 <= h.header.size1 && h.header.start1 - 1 + h.header.size1 <= |base|
    ensures var e := h.header.start1 - 1 + h.header.size1;
            TrailOf(cfg, base, h) == base[e..e + Min(cfg.after, |base| - e)]
  {}

  /**
   An extended hunk's header tells the truth about both sides, except where widening was given up in front and
   trailing lines were appended all the same; an empty side starts where the header's number says, and the two
   kinds of hunk printed with start 0 are the subject of PatchTopOfFile. `target` is the new file; `head` is
   what the caller supplied of it. Without the new file the printed new-side size is right exactly when both
   starts leave room for the same number of leading lines.
   */
  lemma HeadersAreTruthful(cfg: Config, base: seq<string>, head: seq<string>, target: seq<string>, h: Hunk)
    requires Sane(cfg) && HunkFits(h, base, target) && (head == target || head == [])
    requires 1 <= h.header.start1 && 1 <= h.header.start2
    ensures var e, wrong := ExtendedHunk(cfg, base, head, h),
                            Abandons(cfg, base, head, h.header) && Trails(cfg, base, h.header);
            && (TruthfulOldSide(e, base) <==> !wrong)
            && (|NewSide(e.body)| == e.header.size2 <==>
                  if head == [] then Min(cfg.before, h.header.start1 - 1) == Min(cfg.before, h.header.start2 - 1)
                  else !wrong)
  {
    hide *;
    var p, trail := Placed(cfg, base, head, h), TrailOf(cfg, base, h);
    var t := Min(cfg.after, |base| - (h.header.start1 - 1 + h.header.size1));
    HeaderFacts(cfg, base, head, target, h, t);
    ExtendedSides(cfg, base, head, h);
    OldSideTells(p, base, head, h.header, OldSide(h.body), trail, t);
    NewSideTells(p, base, head, h.header, NewSide(h.body), trail, t, cfg.before);
    TruthIs(ExtendedHunk(cfg, base, head, h), base);
    HeaderIsPlaced(cfg, base, head, h);
    PlacedByInput(cfg, base, head, target, h);
    TrailsExactly(cfg, base, target, h);
  }

  /** What was put in front of a hunk and whether widening was given up show in the files and the header. */
  lemma PlacedByInput(cfg: Config, base: seq<string>, head: seq<string>, target: seq<string>, h: Hunk)
    requires HunkFits(h, base, target)
    ensures var p := Placed(cfg, base, head, h);
            && (p.reset <==> Abandons(cfg, base, head, h.header))
            && (p.lead != [] <==> Leads(cfg, base, head, h.header))
  {
    hide HunkFits, Place, Valid, Abandons, Leads;
    FittingHunkIsValid(h, base, target);
    AbandonsExactly(cfg, base, head, h.header);
  }

  lemma TrailsExactly(cfg: Config, base: seq<string>, target: seq<string>, h: Hunk)
    requires Sane(cfg) && HunkFits(h, base, target) && 1 <= h.header.start1
    ensures TrailOf(cfg, base, h) != [] <==> Trails(cfg, base, h.header)
  {
    hide Valid, TrailOf, OldSide, NewSide, BodyLine;
    FittingHunkIsValid(h, base, target);
    TrailIsOldFile(cfg, base, h);
  }

  lemma HeaderIsPlaced(cfg: Config, base: seq<string>, head: seq<string>, h: Hunk)
    ensures ExtendedHunk(cfg, base, head, h).header == Placed(cfg, base, head, h).header
  {}

  lemma HeaderFacts(cfg: Config, base: seq<string>, head: seq<string>, target: seq<string>, h: Hunk, t: int)
    requires Sane(cfg) && HunkFits(h, base, target) && (head == target || head == [])
    requires 1 <= h.header.start1 && 1 <= h.header.start2
    requires t == Min(cfg.after, |base| - (h.header.start1 - 1 + h.header.size1))
    ensures var c := h.header.start1 - 1 + h.header.size1;
            && t >= 0 && cfg.before >= 0 && 0 <= h.header.size1 && c + t <= |base|
            && OldSide(h.body) == base[h.header.start1 - 1..c]
            && TrailOf(cfg, base, h) == base[c..c + t]
            && |NewSide(h.body)| == h.header.size2
            && (head != [] ==> h.header.start2 - 1 <= |head|)
            && Settled(Placed(cfg, base, head, h), base, head, h.header, t)
    ensures var p := Placed(cfg, base, head, h);
            head == [] ==> !p.reset && p.header.start2 == Max(1, h.header.start2 - cfg.before)
                           && p.header.start1 == Max(1, h.header.start1 - cfg.before)
  {
    hide Place, Context, MatchesFile, Trail, OldSide, NewSide, BodyLine, Settled;
    FittingHunkIsValid(h, base, target);
    TrailIsOldFile(cfg, base, h);
    PlacedFacts(cfg, base, head, h, t);
  }

  lemma TruthIs(e: Hunk, base: seq<string>)
    ensures TruthfulOldSide(e, base) <==> Names(e.header, base, OldSide(e.body))
  {}

  lemma OldSideTells(
      p: Placement, base: seq<string>, head: seq<string>, h: Header, side: seq<string>, trail: seq<string>, t: nat)
    requires 1 <= h.start1 && 0 <= h.size1 && (head != [] ==> 0 <= h.start2 - 1 <= |head|)
    requires h.start1 - 1 + h.size1 + t <= |base| && Settled(p, base, head, h, t)
    requires side == base[h.start1 - 1..h.start1 - 1 + h.size1]
    requires trail == base[h.start1 - 1 + h.size1..h.start1 - 1 + h.size1 + t]
    ensures Names(p.header, base, p.lead + (side + trail)) <==> !(p.reset && trail != [])
  {
    var c := h.start1 - 1 + h.size1;
    if !p.reset {
      OldSlices(base, p.header.start1 - 1, h.start1 - 1, c, c + t);
    } else if t == 0 {
      assert p.lead + (side + trail) == side;
    } else {
      assert |p.lead + (side + trail)| == h.size1 + t;
    }
  }

  lemma NewSideTells(
      p: Placement, base: seq<string>, head: seq<string>, h: Header, side: seq<string>, trail: seq<string>, t: nat,
      before: int)
    requires 1 <= h.start1 && 0 <= h.size1 && (head != [] ==> 0 <= h.start2 - 1 <= |head|)
    requires h.start1 - 1 + h.size1 + t <= |base| && Settled(p, base, head, h, t)
    requires |side| == h.size2 && |trail| == t && before >= 0 && 1 <= h.start2
    requires head == [] ==>
             !p.reset && p.header.start2 == Max(1, h.start2 - before) && p.header.start1 == Max(1, h.start1 - before)
    ensures |p.lead + (side + trail)| == p.header.size2 <==>
              if head == [] then Min(before, h.start1 - 1) == Min(before, h.start2 - 1) else !(p.reset && trail != [])
  {}

  lemma OldSlices(base: seq<string>, a: nat, b: nat, c: nat, d: nat)
    requires a <= b <= c <= d <= |base|
    ensures base[a..d] == base[a..b] + (base[b..c] + base[c..d])
  {}

  lemma ExtendedSides(cfg: Config, base: seq<string>, head: seq<string>, h: Hunk)
    ensures var e, p, trail := ExtendedHunk(cfg, base, head, h), Placed(cfg, base, head, h), TrailOf(cfg, base, h);
            && OldSide(e.body) == p.lead + (OldSide(h.body) + trail)
            && NewSide(e.body) == p.lead + (NewSide(h.body) + trail)
  {
    var p, trail := Placed(cfg, base, head, h), TrailOf(cfg, base, h);
    SidesOfContext(p.lead);
    SidesOfContext(trail);
    SidesConcat(Context(p.lead), h.body + Context(trail));
    SidesConcat(h.body, Context(trail));
  }

  /**
   The exception is real: after an insertion above it, a hunk near the top has its leading context
   clipped differently in the two files, so widening is abandoned; the header still says one old line
   while the body holds that line and one trailing line.
   */
  lemma AbandonedHeaderIsWrong()
    ensures var cfg := Config(5, 1, false, 0);
            var base, head := ["a", "b", "c", "d"], ["X", "a", "b", "C", "d"];
            var h := Hunk(Header(3, 1, 4, 1, ""), ["-c", "+C"]);
            && HunkFits(h, base, head)
            && Placed(cfg, base, head, h).header == h.header
            && OldSide(ExtendedHunk(cfg, base, head, h).body) == ["c", "d"]
            && !TruthfulOldSide(ExtendedHunk(cfg, base, head, h), base)
  {
    var cfg := Config(5, 1, false, 0);
    var base, head := ["a", "b", "c", "d"], ["X", "a", "b", "C", "d"];
    var h := Hunk(Header(3, 1, 4, 1, ""), ["-c", "+C"]);
    hide *;
    ReplacementFits(h, base, head);
    WideningIsAbandoned(cfg, base, head, h);
    ExtendedSides(cfg, base, head, h);
    assert ["d"] != [] && [] + (["c"] + ["d"]) == ["c", "d"];
    PlacedByInput(cfg, base, head, head, h);
    TrailsExactly(cfg, base, head, h);
    HeadersAreTruthful(cfg, base, head, head, h);
  }

  lemma ReplacementFits(h: Hunk, base: seq<string>, head: seq<string>)
    requires base == ["a", "b", "c", "d"] && head == ["X", "a", "b", "C", "d"]
    requires h == Hunk(Header(3, 1, 4, 1, ""), ["-c", "+C"])
    ensures HunkFits(h, base, head) && OldSide(h.body) == ["c"]
    ensures Sane(Config(5, 1, false, 0))
  {
    assert h.body[1..] == ["+C"] && ["+C"][1..] == [];
    assert "-c"[1..] == "c" && "+C"[1..] == "C";
    assert OldSide(["+C"]) == [] && NewSide(["+C"]) == ["C"];
    assert OldSide(h.body) == ["c"] && NewSide(h.body) == ["C"];
    assert base[2..3] == ["c"] && head[3..4] == ["C"];
    assert IsMinus(h.body[0]) && h.body[0] in h.body;
  }

  lemma WideningIsAbandoned(cfg: Config, base: seq<string>, head: seq<string>, h: Hunk)
    requires cfg == Config(5, 1, false, 0)
    requires base == ["a", "b", "c", "d"] && head == ["X", "a", "b", "C", "d"]
    requires h == Hunk(Header(3, 1, 4, 1, ""), ["-c", "+C"])
    ensures var p := Placed(cfg, base, head, h); p.reset && p.lead == [] && p.header == h.header
    ensures TrailOf(cfg, base, h) == ["d"]
  {
    hide Strip, Slice, FirstShared, Context;
    assert "-c"[0] == '-';
    assert Valid(base, h);
    var s := Start(cfg, base, head, h.header);
    assert s == Header(1, 4, 1, 5, "");
    var a, b := Slice(base, 0, 2), Slice(head, 0, 3);
    SliceInside(base, 0, 2);
    SliceInside(head, 0, 3);
    assert a == ["a", "b"] && b == ["X", "a", "b"];
    NothingShared(a, b);
    SliceInside(base, 3, 4);
    assert base[3..4] == ["d"];
  }

  lemma NothingShared(a: seq<string>, b: seq<string>)
    requires a == ["a", "b"] && b == ["X", "a", "b"]
    ensures a != b && FirstShared(a, b, 0) == 2
  {
    assert FirstShared(a, b, 2) == 2;
    assert a[1..] == ["b"] && b[1..] == ["a", "b"];
    assert FirstShared(a, b, 1) == 2;
  }
}
