/**
 From a line of the new file to a line of the patch (pr_agent/algo/utils.py): the absolute-position
 branch of `find_line_number_of_relevant_line_in_file`.
 */
module PatchPositions {
  import opened PatchModel
  import opened Sequences

  /** Where the search stops; it breaks on a line that starts like a header and is none. */
  datatype Located = At(index: nat) | Nowhere | Broken

  function Shifted(n: nat, r: Located): Located { if r.At? then At(r.index + n) else r }

  /** The first patch line whose running new-file number is the target. */
  function Locate(lines: seq<PatchLine>, start2: int, delta: int, target: int): Located {
    if lines == [] then Nowhere
    else match lines[0]
      case Hdr(h) =>
        if h.start2 - 1 == target then At(0) else Shifted(1, Locate(lines[1..], h.start2, 0, target))
      case Txt(t) =>
        if Marked(t) then Broken
        else
          var d := if IsMinus(t) then delta else delta + 1;
          if start2 + d - 1 == target then At(0) else Shifted(1, Locate(lines[1..], start2, d, target))
  }

  method FindPosition(lines: seq<PatchLine>, target: int) returns (r: Located)
    ensures r == Locate(lines, 0, 0, target)
  {
    var start2, delta := 0, 0;
    var i := 0;
    assert lines[0..] == lines;
    while i < |lines|
      invariant 0 <= i <= |lines|
      invariant Locate(lines, 0, 0, target) == Shifted(i, Locate(lines[i..], start2, delta, target))
    {
      assert lines[i..][1..] == lines[i + 1..];
      match lines[i] {
        case Hdr(h) =>
          delta := 0;
          start2 := h.start2;
        case Txt(t) =>
          if Marked(t) {
            return Broken;
          }
          if !IsMinus(t) {
            delta := delta + 1;
          }
      }
      if start2 + delta - 1 == target {
        return At(i);
      }
      i := i + 1;
    }
    r := Nowhere;
  }

  // ----- within one hunk -----

  predicate OnNewSide(s: string) { s != "" && s[0] in " +" }

  predicate IsRemark(s: string) { s != "" && s[0] == '\\' }

  predicate NoRemark(body: seq<string>) { forall s :: s in body ==> !IsRemark(s) }

  predicate Printed(body: seq<string>) { forall s :: s in body ==> BodyLine(s) }

  /** The lines the search counts: every line that is not deleted, remarks included. */
  function Counted(body: seq<string>): nat {
    if body == [] then 0 else (if IsMinus(body[0]) then 0 else 1) + Counted(body[1..])
  }

  /** The body line with `m` counted lines before it. */
  predicate CountedAt(body: seq<string>, k: nat, m: int) {
    k < |body| && !IsMinus(body[k]) && Counted(body[..k]) == m
  }

  /** The body line that shows line `n` of the new side. */
  predicate ShownAt(body: seq<string>, k: nat, n: int) {
    k < |body| && OnNewSide(body[k]) && |NewSide(body[..k])| == n
  }

  lemma BodyLineKinds(s: string)
    requires BodyLine(s)
    ensures !Marked(s) && (IsMinus(s) || IsRemark(s) || OnNewSide(s))
    ensures OnNewSide(s) <==> !IsMinus(s) && !IsRemark(s)
  {
    hide HasRemark;
    assert " +-"[0] == " +"[0] == ' ' && " +-"[1] == " +"[1] == '+' && " +-"[2] == '-';
    if |s| >= 2 {
      assert s[..2][0] == s[0];
    }
  }

  lemma CountStep(body: seq<string>)
    requires body != []
    ensures Counted(body) == (if IsMinus(body[0]) then 0 else 1) + Counted(body[1..])
    ensures |NewSide(body)| == (if OnNewSide(body[0]) then 1 else 0) + |NewSide(body[1..])|
    ensures OnNewSide(body[0]) ==> NewSide(body) == [body[0][1..]] + NewSide(body[1..])
    ensures !OnNewSide(body[0]) ==> NewSide(body) == NewSide(body[1..])
    ensures Printed(body) ==> Printed(body[1..]) && BodyLine(body[0])
  {
    hide BodyLine;
    assert body[0] in body;
    Reassoc(NewSide(body[1..]), [], []);
  }

  /** Only remarks are counted without being shown. */
  lemma {:induction false} CountedExceedsShown(body: seq<string>)
    requires Printed(body)
    ensures Counted(body) >= |NewSide(body)|
    ensures Counted(body) == |NewSide(body)| <==> NoRemark(body)
  {
    if body != [] {
      hide Counted, NewSide, BodyLine;
      CountStep(body);
      BodyLineKinds(body[0]);
      CountedExceedsShown(body[1..]);
      assert forall s :: s in body <==> s == body[0] || s in body[1..];
    }
  }

  lemma {:induction false} CountConcat(a: seq<string>, b: seq<string>)
    ensures Counted(a + b) == Counted(a) + Counted(b)
  {
    if a == [] {
      assert a + b == b;
    } else {
      assert (a + b)[1..] == a[1..] + b;
      CountConcat(a[1..], b);
    }
  }

  /** No two lines have the same number of counted lines before them. */
  lemma CountedAtOnce(body: seq<string>, k: nat, l: nat, m: int)
    requires CountedAt(body, k, m) && l < |body| && !IsMinus(body[l])
    ensures CountedAt(body, l, m) <==> l == k
  {
    if l < k {
      CountedBetween(body, l, k);
    } else if k < l {
      CountedBetween(body, k, l);
    }
  }

  lemma CountedBetween(body: seq<string>, i: nat, j: nat)
    requires i < j <= |body| && !IsMinus(body[i])
    ensures Counted(body[..i]) < Counted(body[..j])
  {
    assert body[..j] == body[..i] + body[i..j];
    CountConcat(body[..i], body[i..j]);
    assert body[i..j][0] == body[i];
  }

  /** The line that shows line `n` of the new side is the one counted `n`-th exactly when no remark precedes it. */
  lemma ShownIsCounted(body: seq<string>, k: nat, n: int)
    requires Printed(body) && ShownAt(body, k, n)
    ensures !IsMinus(body[k]) && (CountedAt(body, k, n) <==> NoRemark(body[..k]))
  {
    hide Counted, NewSide, BodyLine;
    assert body[k] in body;
    BodyLineKinds(body[k]);
    CountedExceedsShown(body[..k]);
  }

  /** Each line of the new side has its place in the body, and its text. */
  lemma {:induction false} ShownHasPlace(body: seq<string>, n: nat) returns (k: nat)
    requires n < |NewSide(body)|
    ensures ShownAt(body, k, n)
  {
    hide NewSide, OnNewSide;
    NewSideOfNothing();
    CountStep(body);
    if OnNewSide(body[0]) && n == 0 {
      k := 0;
      assert body[..0] == [];
    } else {
      var i := ShownHasPlace(body[1..], if OnNewSide(body[0]) then n - 1 else n);
      k := i + 1;
      assert body[..k][0] == body[0] && body[..k][1..] == body[1..][..i];
      CountStep(body[..k]);
    }
  }

  lemma NewSideOfNothing()
    ensures NewSide([]) == []
  {}

  lemma ShownText(body: seq<string>, k: nat, n: int)
    requires ShownAt(body, k, n)
    ensures n < |NewSide(body)| && NewSide(body)[n] == body[k][1..]
  {
    hide NewSide;
    assert body == body[..k] + body[k..];
    SidesConcat(body[..k], body[k..]);
    CountStep(body[k..]);
  }

  // ----- the search within one hunk -----

  lemma FirstTxt(body: seq<string>, rest: seq<PatchLine>)
    requires body != []
    ensures var lines := Txts(body) + rest;
            lines != [] && lines[0] == Txt(body[0]) && lines[1..] == Txts(body[1..]) + rest
  {
    Peel(Txt(body[0]), Txts(body[1..]), rest);
  }

  lemma LocateStep(body: seq<string>, rest: seq<PatchLine>, start2: int, delta: int, target: int)
    requires body != [] && !Marked(body[0])
    ensures var d := if IsMinus(body[0]) then delta else delta + 1;
            Locate(Txts(body) + rest, start2, delta, target)
            == if start2 + d - 1 == target then At(0)
               else Shifted(1, Locate(Txts(body[1..]) + rest, start2, d, target))
  {
    FirstTxt(body, rest);
    hide Marked, Txts, IsMinus;
  }

  lemma UnmarkedTail(body: seq<string>)
    requires body != [] && Unmarked(body)
    ensures !Marked(body[0]) && Unmarked(body[1..])
  {
    assert body[0] in body;
  }

  lemma PrintedIsUnmarked(body: seq<string>)
    requires Printed(body)
    ensures Unmarked(body)
  {
    hide BodyLine;
    forall s | s in body ensures !Marked(s) {
      BodyLineKinds(s);
    }
  }

  /** In a run of lines the search stops at the one whose count comes to the target, or goes past all of it. */
  lemma {:induction false} LocateBody(body: seq<string>, rest: seq<PatchLine>, start2: int, delta: int, target: int)
    requires Unmarked(body) && target != start2 + delta - 1
    ensures var r, n := Locate(Txts(body) + rest, start2, delta, target), Counted(body);
            if start2 + delta <= target < start2 + delta + n then
              r.At? && CountedAt(body, r.index, target - start2 - delta)
            else r == Shifted(|body|, Locate(rest, start2, delta + n, target))
  {
    hide *;
    if body == [] {
      LocateNoBody(rest, start2, delta, target);
    } else {
      CountStep(body);
      UnmarkedTail(body);
      LocateStep(body, rest, start2, delta, target);
      var d := if IsMinus(body[0]) then delta else delta + 1;
      var n := Counted(body[1..]);
      if start2 + d - 1 == target {
        FirstCounted(body);
      } else {
        LocateBody(body[1..], rest, start2, d, target);
        if start2 + d <= target < start2 + d + n {
          var r := Locate(Txts(body[1..]) + rest, start2, d, target);
          CountedShift(body, r.index, target - start2 - d);
          ShiftAt(r);
        } else {
          ShiftTwice(|body| - 1, Locate(rest, start2, d + n, target));
        }
      }
    }
  }

  lemma LocateNoBody(rest: seq<PatchLine>, start2: int, delta: int, target: int)
    ensures Txts([]) + rest == rest && Counted([]) == 0
    ensures Shifted(0, Locate(rest, start2, delta, target)) == Locate(rest, start2, delta, target)
  {}

  lemma FirstCounted(body: seq<string>)
    requires body != [] && !IsMinus(body[0])
    ensures CountedAt(body, 0, 0)
  {}

  lemma CountedShift(body: seq<string>, k: nat, m: int)
    requires body != [] && CountedAt(body[1..], k, m)
    ensures CountedAt(body, k + 1, if IsMinus(body[0]) then m else m + 1)
  {
    assert body[..k + 1][0] == body[0] && body[..k + 1][1..] == body[1..][..k];
  }

  lemma ShiftAt(r: Located)
    requires r.At?
    ensures Shifted(1, r) == At(r.index + 1)
  {}

  lemma ShiftTwice(n: nat, r: Located)
    ensures Shifted(1, Shifted(n, r)) == Shifted(n + 1, r)
  {}

  // ----- over the whole patch -----

  /** The line before a hunk is mistaken for its header. */
  predicate Claims(h: Header, line: int) { h.start2 - 1 == line }

  /** The numbers a hunk gives out: those of its lines, and one more for each remark. */
  predicate Reaches(h: Hunk, line: int) { h.header.start2 <= line < h.header.start2 + Counted(h.body) }

  predicate Stops(h: Hunk, line: int) { Claims(h.header, line) || Reaches(h, line) }

  /** Where in the header and body of one hunk the search stops. */
  predicate StopsAt(h: Hunk, line: int, k: int) {
    if Claims(h.header, line) then k == 0 else k >= 1 && CountedAt(h.body, k - 1, line - h.header.start2)
  }

  /** How many patch lines stand before hunk `q`. */
  function Offset(hunks: seq<Hunk>, q: nat): nat
    requires q <= |hunks|
  {
    if q == 0 then 0 else 1 + |hunks[0].body| + Offset(hunks[1..], q - 1)
  }

  lemma LocateHeader(h: Hunk, tail: seq<Hunk>, start2: int, delta: int, target: int)
    ensures Locate(Flatten([h] + tail), start2, delta, target)
            == if Claims(h.header, target) then At(0)
               else Shifted(1, Locate(Txts(h.body) + Flatten(tail), h.header.start2, 0, target))
  {
    var all := [h] + tail;
    assert all[1..] == tail;
    FlattenStep(all);
    assert Flatten(all)[1..] == Txts(h.body) + Flatten(tail);
  }

  /** The search through the first hunk. */
  lemma LocateHunk(h: Hunk, tail: seq<Hunk>, start2: int, delta: int, target: int)
    requires Printed(h.body)
    ensures var r := Locate(Flatten([h] + tail), start2, delta, target);
            if Stops(h, target) then r.At? && StopsAt(h, target, r.index)
            else r == Shifted(1 + |h.body|, Locate(Flatten(tail), h.header.start2, Counted(h.body), target))
  {
    hide Flatten, Locate, Printed, Counted, CountedAt;
    LocateHeader(h, tail, start2, delta, target);
    if !Claims(h.header, target) {
      PrintedIsUnmarked(h.body);
      LocateBody(h.body, Flatten(tail), h.header.start2, 0, target);
    }
  }

  lemma {:induction false} LocateFirst(hunks: seq<Hunk>, q: nat, start2: int, delta: int, target: int)
    requires q < |hunks| && (forall h :: h in hunks ==> Printed(h.body))
    requires Stops(hunks[q], target) && forall p :: 0 <= p < q ==> !Stops(hunks[p], target)
    ensures var r := Locate(Flatten(hunks), start2, delta, target);
            r.At? && StopsAt(hunks[q], target, r.index - Offset(hunks, q))
    decreases q
  {
    hide Flatten, Locate, Printed, Stops, StopsAt, Counted;
    var h, tail := hunks[0], hunks[1..];
    assert hunks == [h] + tail;
    LocateHunk(h, tail, start2, delta, target);
    if q > 0 {
      LocateFirst(tail, q - 1, h.header.start2, Counted(h.body), target);
    }
  }

  lemma {:induction false} LocateNone(hunks: seq<Hunk>, start2: int, delta: int, target: int)
    requires forall h :: h in hunks ==> Printed(h.body)
    requires forall h :: h in hunks ==> !Stops(h, target)
    ensures Locate(Flatten(hunks), start2, delta, target) == Nowhere
  {
    if hunks != [] {
      hide Flatten, Locate, Printed, Stops, StopsAt, Counted;
      var h, tail := hunks[0], hunks[1..];
      assert hunks == [h] + tail && h in hunks;
      LocateHunk(h, tail, start2, delta, target);
      LocateNone(tail, h.header.start2, Counted(h.body), target);
    }
  }

  /** What the search comes to for any number: nothing, or the first hunk that gives the number out. */
  lemma SearchStopsAtTheFirst(hunks: seq<Hunk>, target: int)
    requires forall h :: h in hunks ==> Printed(h.body)
    ensures var r := Locate(Flatten(hunks), 0, 0, target);
            && (r == Nowhere <==> forall h :: h in hunks ==> !Stops(h, target))
            && (forall q :: 0 <= q < |hunks| && Stops(hunks[q], target)
                            && (forall p :: 0 <= p < q ==> !Stops(hunks[p], target))
                  ==> r.At? && StopsAt(hunks[q], target, r.index - Offset(hunks, q)))
  {
    hide Flatten, Locate, Printed, Stops, StopsAt, Offset;
    if forall h :: h in hunks ==> !Stops(h, target) {
      LocateNone(hunks, 0, 0, target);
    } else {
      var q := FirstStop(hunks, target);
      LocateFirst(hunks, q, 0, 0, target);
    }
  }

  /**
   Lines in front of the first hunk, a file header say, are counted from 0: they give out as many numbers as are
   not marked as deleted, and hide those lines of the new file; any other line is looked for in the hunks.
   */
  lemma PreludeHidesFirstLines(prelude: seq<string>, hunks: seq<Hunk>, target: nat)
    requires Unmarked(prelude) && hunks != []
    ensures var r := Locate(Txts(prelude) + Flatten(hunks), 0, 0, target);
            if target < Counted(prelude) then r.At? && CountedAt(prelude, r.index, target)
            else r == Shifted(|prelude|, Locate(Flatten(hunks), 0, 0, target))
  {
    hide Flatten, Locate, Counted, CountedAt;
    LocateBody(prelude, Flatten(hunks), 0, 0, target);
    assert hunks == [hunks[0]] + hunks[1..];
    LocateHeader(hunks[0], hunks[1..], 0, Counted(prelude), target);
    LocateHeader(hunks[0], hunks[1..], 0, 0, target);
  }

  lemma {:induction false} FirstStop(hunks: seq<Hunk>, target: int) returns (q: nat)
    requires exists h :: h in hunks && Stops(h, target)
    ensures q < |hunks| && Stops(hunks[q], target) && forall p :: 0 <= p < q ==> !Stops(hunks[p], target)
  {
    hide Stops;
    if Stops(hunks[0], target) {
      q := 0;
    } else {
      var i := FirstStop(hunks[1..], target);
      q := i + 1;
    }
  }

  lemma {:induction false} HunksFollow(hunks: seq<Hunk>, base: seq<string>, head: seq<string>, i: nat, j: nat)
    requires i <= |base| && j <= |head| && WellFormed(hunks, base, head, i, j)
    ensures forall q :: 0 <= q < |hunks| ==> j <= NewPos(hunks[q].header) && hunks[q].header.size2 >= 0
    ensures forall p, q :: 0 <= p < q < |hunks| ==>
            NewPos(hunks[p].header) + hunks[p].header.size2 <= NewPos(hunks[q].header)
    decreases |hunks|
  {
    if hunks != [] {
      hide HunkFits;
      var h := hunks[0].header;
      FitsIsSized(hunks[0], base, head);
      HunksFollow(hunks[1..], base, head, OldPos(h) + h.size1, NewPos(h) + h.size2);
    }
  }

  lemma {:induction false} TxtsAt(body: seq<string>, k: nat)
    requires k < |body|
    ensures |Txts(body)| == |body| && Txts(body)[k] == Txt(body[k])
    decreases |body|
  {
    TxtsLength(body);
    if k > 0 {
      TxtsAt(body[1..], k - 1);
    }
  }

  lemma {:induction false} TxtsLength(body: seq<string>)
    ensures |Txts(body)| == |body|
  {
    if body != [] {
      TxtsLength(body[1..]);
    }
  }

  lemma {:induction false} OffsetNext(hunks: seq<Hunk>, q: nat)
    requires q < |hunks|
    ensures Offset(hunks, q + 1) == Offset(hunks, q) + 1 + |hunks[q].body|
    decreases q
  {
    if q > 0 {
      OffsetNext(hunks[1..], q - 1);
    } else {
      assert Offset(hunks[1..], 0) == 0;
    }
  }

  lemma {:induction false} OffsetMonotone(hunks: seq<Hunk>, p: nat, q: nat)
    requires p <= q <= |hunks|
    ensures Offset(hunks, p) <= Offset(hunks, q)
    decreases q - p
  {
    if p < q {
      OffsetNext(hunks, p);
      OffsetMonotone(hunks, p + 1, q);
    }
  }

  /** The patch line a body line becomes. */
  lemma {:induction false} FlattenAt(hunks: seq<Hunk>, q: nat, k: nat)
    requires q < |hunks| && k < |hunks[q].body|
    ensures var i := Offset(hunks, q) + 1 + k;
            i < |Flatten(hunks)| && Flatten(hunks)[i] == Txt(hunks[q].body[k])
    decreases q
  {
    hide Flatten, Txts;
    FlattenStep(hunks);
    TxtsLength(hunks[0].body);
    if q == 0 {
      TxtsAt(hunks[0].body, k);
    } else {
      FlattenAt(hunks[1..], q - 1, k);
    }
  }

  lemma HunksPrint(hunks: seq<Hunk>, base: seq<string>, head: seq<string>)
    requires WellFormed(hunks, base, head, 0, 0)
    ensures forall h :: h in hunks ==> Printed(h.body) && HunkFits(h, base, head)
  {
    hide BodyLine, WellFormed;
    WellFormedFits(hunks, base, head, 0, 0);
  }

  /** A hunk gives out the numbers of its lines and one more for each remark in it. */
  lemma ReachIs(h: Hunk, base: seq<string>, head: seq<string>)
    requires HunkFits(h, base, head)
    ensures Counted(h.body) >= h.header.size2 >= 0
    ensures Counted(h.body) == h.header.size2 <==> NoRemark(h.body)
    ensures forall line :: Covers(h.header, line) ==> Reaches(h, line)
  {
    hide BodyLine, Counted, NewSide;
    FitsIsSized(h, base, head);
    CountedExceedsShown(h.body);
  }

  /** An earlier hunk can only stop the search for a later line by giving out more numbers than it has lines. */
  lemma EarlierClaimsNothing(
      hunks: seq<Hunk>, base: seq<string>, head: seq<string>, p: nat, q: nat, target: int)
    requires WellFormed(hunks, base, head, 0, 0) && p < q < |hunks| && Covers(hunks[q].header, target)
    ensures !Claims(hunks[p].header, target)
  {
    hide WellFormed;
    HunksFollow(hunks, base, head, 0, 0);
  }

  /** Body line `k` of the hunk is the one that shows line `target` of the new file. */
  predicate Shows(h: Hunk, k: int, target: int) { k >= 0 && ShownAt(h.body, k, target - h.header.start2) }

  lemma ShowsInside(h: Hunk, k: int, target: int)
    requires Shows(h, k, target)
    ensures 0 <= k < |h.body| && h.header.start2 <= target
  {}

  lemma ShownLine(h: Hunk, base: seq<string>, head: seq<string>, k: nat, target: int)
    requires HunkFits(h, base, head) && Shows(h, k, target)
    ensures Covers(h.header, target) && 1 <= target <= |head| && h.body[k][1..] == head[target - 1]
  {
    hide BodyLine, NewSide;
    FitsIsSized(h, base, head);
    var n, j := target - h.header.start2, NewPos(h.header);
    ShownText(h.body, k, n);
    assert head[j..j + h.header.size2][n] == head[j + n];
  }

  /** In a hunk that stops the search for a line it shows, it stops at that line or at a remark's expense. */
  lemma OwnPlaceInHunk(h: Hunk, k: nat, target: int, i: int)
    requires Printed(h.body) && Shows(h, k, target) && StopsAt(h, target, i)
    ensures i == 1 + k <==> NoRemark(h.body[..k])
  {
    hide Counted, NoRemark, Printed, NewSide;
    var n := target - h.header.start2;
    ShownIsCounted(h.body, k, n);
    CountedAtOnce(h.body, i - 1, k, n);
  }

  lemma OwnPlaceOnlyIn(hunks: seq<Hunk>, q: nat, k: nat, target: int)
    requires q < |hunks| && (forall h :: h in hunks ==> Printed(h.body))
    requires Shows(hunks[q], k, target) && Stops(hunks[q], target)
    ensures Locate(Flatten(hunks), 0, 0, target) == At(Offset(hunks, q) + 1 + k)
            <==> NoRemark(hunks[q].body[..k]) && forall p :: 0 <= p < q ==> !Stops(hunks[p], target)
  {
    hide *;
    var r := Locate(Flatten(hunks), 0, 0, target);
    assert hunks[q] in hunks;
    ShowsInside(hunks[q], k, target);
    var p := FirstStop(hunks, target);
    LocateFirst(hunks, p, 0, 0, target);
    if p < q {
      StopsInside(hunks[p], target, r.index - Offset(hunks, p));
      OffsetNext(hunks, p);
      OffsetMonotone(hunks, p + 1, q);
    } else {
      OwnPlaceInHunk(hunks[q], k, target, r.index - Offset(hunks, q));
    }
  }

  lemma StopsInside(h: Hunk, line: int, k: int)
    requires StopsAt(h, line, k)
    ensures 0 <= k <= |h.body|
  {
    hide Counted;
  }

  /**
   Line `target` of the new file, which hunk `q` shows in line `k` of its body, is found there exactly
   when no remark stands before it in the hunk and no earlier hunk runs on to its number.
   */
  lemma PositionsAreTrue(
      hunks: seq<Hunk>, base: seq<string>, head: seq<string>, q: nat, k: nat, target: int)
    requires WellFormed(hunks, base, head, 0, 0) && q < |hunks| && Shows(hunks[q], k, target)
    ensures var lines, i := Flatten(hunks), Offset(hunks, q) + 1 + k;
            && 1 <= target <= |head| && i < |lines| && lines[i] == Txt(hunks[q].body[k])
            && hunks[q].body[k][1..] == head[target - 1]
            && (Locate(lines, 0, 0, target) == At(i)
                <==> NoRemark(hunks[q].body[..k]) && forall p :: 0 <= p < q ==> !Reaches(hunks[p], target))
  {
    hide *;
    var h := hunks[q];
    assert h in hunks;
    HunksPrint(hunks, base, head);
    ShowsInside(h, k, target);
    ShownLine(h, base, head, k, target);
    ReachIs(h, base, head);
    StopsIs(h, target);
    FlattenAt(hunks, q, k);
    forall p | 0 <= p < q ensures Stops(hunks[p], target) <==> Reaches(hunks[p], target) {
      EarlierClaimsNothing(hunks, base, head, p, q, target);
      StopsIs(hunks[p], target);
    }
    OwnPlaceOnlyIn(hunks, q, k, target);
  }

  lemma StopsIs(h: Hunk, line: int)
    ensures Stops(h, line) <==> Claims(h.header, line) || Reaches(h, line)
  {}

  ghost predicate Covered(hunks: seq<Hunk>, line: int) { exists h :: h in hunks && Covers(h.header, line) }

  ghost predicate Claimed(hunks: seq<Hunk>, line: int) { exists h :: h in hunks && Claims(h.header, line) }

  /** Every line a hunk covers has its place in that hunk. */
  lemma CoveredIsShown(hunks: seq<Hunk>, base: seq<string>, head: seq<string>, target: int) returns (q: nat, k: nat)
    requires WellFormed(hunks, base, head, 0, 0) && Covered(hunks, target)
    ensures q < |hunks| && Shows(hunks[q], k, target)
  {
    hide BodyLine, WellFormed, HunkFits, ShownAt;
    var h :| h in hunks && Covers(h.header, target);
    q :| 0 <= q < |hunks| && hunks[q] == h;
    HunksPrint(hunks, base, head);
    FitsIsSized(h, base, head);
    k := ShownHasPlace(h.body, target - h.header.start2);
  }

  /** Past its own lines a hunk goes on by one number for each remark in it. */
  predicate RunsOver(h: Hunk, line: int) {
    h.header.start2 + h.header.size2 <= line < h.header.start2 + Counted(h.body)
  }

  /** A line no hunk shows is found nowhere unless it stands just before a hunk or a remark's hunk runs on to it. */
  lemma UncoveredPositions(hunks: seq<Hunk>, base: seq<string>, head: seq<string>, target: int)
    requires WellFormed(hunks, base, head, 0, 0) && !Covered(hunks, target)
    ensures Locate(Flatten(hunks), 0, 0, target) == Nowhere
            <==> !Claimed(hunks, target) && forall h :: h in hunks ==> !RunsOver(h, target)
  {
    hide Flatten, Locate, Printed, Offset, Counted, NoRemark, CountedAt, WellFormed, HunkFits;
    HunksPrint(hunks, base, head);
    SearchStopsAtTheFirst(hunks, target);
    forall h | h in hunks ensures Reaches(h, target) <==> RunsOver(h, target) {
      ReachIs(h, base, head);
    }
  }

  /** Without remarks: a line some hunk shows is found in its own place, the line before a hunk at its header. */
  lemma PositionsWithoutRemarks(hunks: seq<Hunk>, base: seq<string>, head: seq<string>, target: int)
    requires WellFormed(hunks, base, head, 0, 0) && forall h :: h in hunks ==> NoRemark(h.body)
    ensures var r := Locate(Flatten(hunks), 0, 0, target);
            && (r == Nowhere <==> !Covered(hunks, target) && !Claimed(hunks, target))
            && (forall q, k: nat :: 0 <= q < |hunks| && Shows(hunks[q], k, target) ==>
                  r == At(Offset(hunks, q) + 1 + k))
            && (!Covered(hunks, target) && Claimed(hunks, target) ==> AtHeader(hunks, r, target))
  {
    hide Flatten, Locate, Printed, Offset, Counted, Shows, WellFormed, HunkFits, NoRemark, StopsAt;
    HunksPrint(hunks, base, head);
    SearchStopsAtTheFirst(hunks, target);
    forall h | h in hunks ensures Reaches(h, target) <==> Covers(h.header, target) {
      ReachIs(h, base, head);
    }
    forall q, k: nat | 0 <= q < |hunks| && Shows(hunks[q], k, target)
      ensures Locate(Flatten(hunks), 0, 0, target) == At(Offset(hunks, q) + 1 + k)
    {
      ShowsInside(hunks[q], k, target);
      RemarkFreePlace(hunks, base, head, q, k, target);
    }
    if !Covered(hunks, target) && Claimed(hunks, target) {
      var q := FirstStop(hunks, target);
      assert hunks[q] in hunks && Claims(hunks[q].header, target);
      ClaimedAtHeader(hunks, q, target);
    }
  }

  ghost predicate AtHeader(hunks: seq<Hunk>, r: Located, target: int) {
    exists q :: 0 <= q < |hunks| && Claims(hunks[q].header, target) && r == At(Offset(hunks, q))
  }

  lemma ClaimedAtHeader(hunks: seq<Hunk>, q: nat, target: int)
    requires q < |hunks| && Claims(hunks[q].header, target) && (forall h :: h in hunks ==> Printed(h.body))
    requires forall p :: 0 <= p < q ==> !Stops(hunks[p], target)
    ensures AtHeader(hunks, Locate(Flatten(hunks), 0, 0, target), target)
  {
    hide Flatten, Locate, Printed, Offset, Counted;
    LocateFirst(hunks, q, 0, 0, target);
  }

  lemma RemarkFreePlace(hunks: seq<Hunk>, base: seq<string>, head: seq<string>, q: nat, k: nat, target: int)
    requires WellFormed(hunks, base, head, 0, 0) && forall h :: h in hunks ==> NoRemark(h.body)
    requires q < |hunks| && Shows(hunks[q], k, target)
    ensures Locate(Flatten(hunks), 0, 0, target) == At(Offset(hunks, q) + 1 + k)
  {
    hide *;
    var h := hunks[q];
    assert h in hunks;
    HunksPrint(hunks, base, head);
    ShowsInside(h, k, target);
    ShownLine(h, base, head, k, target);
    StillNoRemark(h.body, k);
    HunksFollow(hunks, base, head, 0, 0);
    forall p | 0 <= p < q ensures !Reaches(hunks[p], target) {
      assert hunks[p] in hunks;
      ReachIs(hunks[p], base, head);
      EndsBefore(hunks[p], h, target);
    }
    PositionsAreTrue(hunks, base, head, q, k, target);
  }

  lemma StillNoRemark(body: seq<string>, k: nat)
    requires k <= |body| && NoRemark(body)
    ensures NoRemark(body[..k])
  {}

  lemma EndsBefore(p: Hunk, h: Hunk, target: int)
    requires p.header.size2 >= 0 && NewPos(p.header) + p.header.size2 <= NewPos(h.header) && Covers(h.header, target)
    requires Counted(p.body) == p.header.size2
    ensures !Reaches(p, target)
  {
    hide Counted;
  }

  /** A line deleted without a final newline: the remark is found in place of the added line after it. */
  lemma RemarkShiftsPositions(removed: string, remark: string, added: string)
    requires IsMinus(removed) && IsRemark(remark) && HasRemark(remark) && IsPlus(added)
    ensures Locate([Hdr(Header(1, 1, 1, 1, "")), Txt(removed), Txt(remark), Txt(added)], 0, 0, 1) == At(2)
  {
    var lines := [Hdr(Header(1, 1, 1, 1, "")), Txt(removed), Txt(remark), Txt(added)];
    assert lines[1..] == [Txt(removed), Txt(remark), Txt(added)];
    assert lines[1..][1..] == [Txt(remark), Txt(added)];
    NotMarked(removed);
    NotMarked(remark);
    assert Locate([Txt(remark), Txt(added)], 1, 0, 1) == At(0);
  }

  lemma NotMarked(s: string)
    requires s != "" && s[0] != '@'
    ensures !Marked(s)
  {
    if |s| >= 2 {
      assert s[..2][0] == s[0];
    }
  }
}
