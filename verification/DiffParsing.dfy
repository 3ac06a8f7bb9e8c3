/**
 Reverse application of a unified diff (pr_agent/git_providers/diff_parsing.py).

 `Apply` is the reference: the forward application of a patch, driven by the old-side positions the
 hunk headers name. `Reverse` is the walk the code performs over the new file. The two are inverse
 exactly when no deletion-only hunk is misplaced, a condition stated by `DeletionsCommute`.
 */
module DiffParsing {
  import opened DiffHeaders
  import opened Sequences
  import opened Wrappers

  type Line = string

  /** One body line; `Note` is the "\ No newline" remark, which belongs to neither side. */
  datatype HunkLine = Context(text: Line) | Added(text: Line) | Removed(text: Line) | Note(text: Line)

  /** Header starts are the printed numbers; the lengths are those of the two sides of the body. */
  datatype Hunk = Hunk(sourceStart: int, targetStart: int, lines: seq<HunkLine>)

  function OldSide(lines: seq<HunkLine>): seq<Line> {
    if lines == [] then []
    else (match lines[0]
          case Context(t) => [t]
          case Removed(t) => [t]
          case _ => []) + OldSide(lines[1..])
  }

  function NewSide(lines: seq<HunkLine>): seq<Line> {
    if lines == [] then []
    else (match lines[0]
          case Context(t) => [t]
          case Added(t) => [t]
          case _ => []) + NewSide(lines[1..])
  }

  function OldPos(h: Hunk): int { Position(h.sourceStart, |OldSide(h.lines)|) }

  function NewPos(h: Hunk): int { Position(h.targetStart, |NewSide(h.lines)|) }

  /** Forward application to the old lines from line `i` on; None when a hunk does not match. */
  function Apply(rest: seq<Line>, i: int, hunks: seq<Hunk>): Option<seq<Line>>
    decreases |hunks|
  {
    if hunks == [] then Some(rest)
    else
      var h, n := hunks[0], OldPos(hunks[0]) - i;
      var removed := OldSide(h.lines);
      if n < 0 || n > |rest| || !(removed <= rest[n..]) then None
      else Prepend(rest[..n] + NewSide(h.lines),
                   Apply(rest[n + |removed|..], i + n + |removed|, hunks[1..]))
  }

  function Prepend(prefix: seq<Line>, rest: Option<seq<Line>>): Option<seq<Line>> {
    match rest
    case None => None
    case Some(t) => Some(prefix + t)
  }

  /** Hunks are in order, and each new-side start is the old-side start moved by the earlier hunks. */
  predicate HeadersAgree(hunks: seq<Hunk>, i: int, j: int)
    decreases |hunks|
  {
    hunks == [] ||
    (var h := hunks[0];
     && i <= OldPos(h)
     && NewPos(h) - j == OldPos(h) - i
     && HeadersAgree(hunks[1..], OldPos(h) + |OldSide(h.lines)|, NewPos(h) + |NewSide(h.lines)|))
  }

  /** The walk over one hunk body: the emitted old lines and the new lines left. */
  function Walk(rest: seq<Line>, lines: seq<HunkLine>): Option<(seq<Line>, seq<Line>)>
    decreases |lines|
  {
    if lines == [] then Some(([], rest))
    else match lines[0]
      case Context(t) =>
        if rest == [] || rest[0] != t then None
        else PrependWalk([t], Walk(rest[1..], lines[1..]))
      case Added(t) =>
        if rest == [] || rest[0] != t then None else Walk(rest[1..], lines[1..])
      case Removed(t) => PrependWalk([t], Walk(rest, lines[1..]))
      case Note(_) => Walk(rest, lines[1..])
  }

  function PrependWalk(prefix: seq<Line>, w: Option<(seq<Line>, seq<Line>)>): Option<(seq<Line>, seq<Line>)> {
    match w
    case None => None
    case Some((e, t)) => Some((prefix + e, t))
  }

  /** What the code rebuilds from the new lines left at cursor `idx`; None is its empty failure result. */
  function Reverse(rest: seq<Line>, idx: int, hunks: seq<Hunk>): Option<seq<Line>>
    decreases |hunks|
  {
    if hunks == [] then Some(rest)
    else
      var n := hunks[0].targetStart - 1 - idx;
      if n < 0 || n > |rest| then None
      else match Walk(rest[n..], hunks[0].lines)
        case None => None
        case Some((e, t)) =>
          Prepend(rest[..n] + e, Reverse(t, idx + |rest| - |t|, hunks[1..]))
  }

  /** A body walk succeeds exactly where the new side stands in the file, and emits the old side. */
  lemma {:induction false} WalkIsSideMatch(rest: seq<Line>, lines: seq<HunkLine>)
    ensures Walk(rest, lines) ==
            if NewSide(lines) <= rest then Some((OldSide(lines), rest[|NewSide(lines)|..])) else None
    decreases |lines|
  {
    if lines != [] {
      var next := lines[1..];
      match lines[0]
      case Context(t) =>
        assert NewSide(lines) == [t] + NewSide(next) && OldSide(lines) == [t] + OldSide(next);
        if rest != [] {
          WalkIsSideMatch(rest[1..], next);
          PrefixStep(t, NewSide(next), rest);
        }
      case Added(t) =>
        assert NewSide(lines) == [t] + NewSide(next) && OldSide(lines) == [] + OldSide(next) == OldSide(next);
        if rest != [] {
          WalkIsSideMatch(rest[1..], next);
          PrefixStep(t, NewSide(next), rest);
        }
      case Removed(t) =>
        WalkIsSideMatch(rest, next);
        assert NewSide(lines) == [] + NewSide(next) == NewSide(next) && OldSide(lines) == [t] + OldSide(next);
      case Note(t) =>
        WalkIsSideMatch(rest, next);
        assert NewSide(lines) == [] + NewSide(next) == NewSide(next);
        assert OldSide(lines) == [] + OldSide(next) == OldSide(next);
    }
  }

  lemma PrefixStep(t: Line, side: seq<Line>, rest: seq<Line>)
    requires rest != []
    ensures [t] + side <= rest <==> rest[0] == t && side <= rest[1..]
    ensures [t] + side <= rest ==> rest[|[t] + side|..] == rest[1..][|side|..]
  {
    if [t] + side <= rest {
      assert rest[0] == ([t] + side)[0];
      assert forall k :: 0 <= k < |side| ==> side[k] == ([t] + side)[k + 1] == rest[k + 1] == rest[1..][k];
    }
    if rest[0] == t && side <= rest[1..] {
      assert forall k :: 0 <= k < |side| ==> side[k] == rest[1..][k] == rest[k + 1];
    }
  }

  /** One hunk of the reverse walk, with the surrounding lines named. */
  lemma ReverseStep(kept: seq<Line>, t: seq<Line>, idx: int, hunks: seq<Hunk>)
    requires hunks != [] && hunks[0].targetStart - 1 - idx == |kept|
    ensures var added := NewSide(hunks[0].lines);
            Reverse(kept + (added + t), idx, hunks)
            == Prepend(kept + OldSide(hunks[0].lines), Reverse(t, idx + |kept| + |added|, hunks[1..]))
  {
    hide OldSide, NewSide, Walk;
    var added := NewSide(hunks[0].lines);
    Middle(kept, added, t);
    WalkIsSideMatch(added + t, hunks[0].lines);
  }

  /** A successful reverse walk has the shape ReverseStep starts from. */
  lemma ReverseShape(rest: seq<Line>, idx: int, hunks: seq<Hunk>) returns (kept: seq<Line>, t: seq<Line>)
    requires hunks != [] && Reverse(rest, idx, hunks).Some?
    ensures hunks[0].targetStart - 1 - idx == |kept|
    ensures rest == kept + (NewSide(hunks[0].lines) + t)
  {
    var n := hunks[0].targetStart - 1 - idx;
    WalkIsSideMatch(rest[n..], hunks[0].lines);
    kept, t := rest[..n], rest[n..][|NewSide(hunks[0].lines)|..];
  }

  /** One hunk of the forward application, with the surrounding lines named. */
  lemma ApplyStep(kept: seq<Line>, t: seq<Line>, i: int, hunks: seq<Hunk>)
    requires hunks != [] && OldPos(hunks[0]) - i == |kept|
    ensures var removed := OldSide(hunks[0].lines);
            Apply(kept + (removed + t), i, hunks)
            == Prepend(kept + NewSide(hunks[0].lines), Apply(t, i + |kept| + |removed|, hunks[1..]))
  {
    hide OldSide, NewSide, OldPos;
    Middle(kept, OldSide(hunks[0].lines), t);
  }

  lemma ApplyShape(rest: seq<Line>, i: int, hunks: seq<Hunk>) returns (kept: seq<Line>, t: seq<Line>)
    requires hunks != [] && Apply(rest, i, hunks).Some?
    ensures OldPos(hunks[0]) - i == |kept|
    ensures rest == kept + (OldSide(hunks[0].lines) + t)
  {
    var n := OldPos(hunks[0]) - i;
    kept, t := rest[..n], rest[n + |OldSide(hunks[0].lines)|..];
    assert rest[n..][|OldSide(hunks[0].lines)|..] == t;
  }

  lemma PrependWalkTwice(
      emitted: seq<Line>, line: HunkLine, stay: Option<(seq<Line>, seq<Line>)>, step: Option<(seq<Line>, seq<Line>)>)
    ensures PrependWalk(emitted, PrependWalk([line.text], stay)) == PrependWalk(emitted + [line.text], stay)
    ensures PrependWalk(emitted, PrependWalk([line.text], step)) == PrependWalk(emitted + [line.text], step)
  {
    if stay.Some? { assert emitted + ([line.text] + stay.value.0) == emitted + [line.text] + stay.value.0; }
    if step.Some? { assert emitted + ([line.text] + step.value.0) == emitted + [line.text] + step.value.0; }
  }

  lemma PrependTwice(a: seq<Line>, b: seq<Line>, r: Option<seq<Line>>)
    ensures Prepend(a, Prepend(b, r)) == Prepend(a + b, r)
  {
    if r.Some? { assert a + (b + r.value) == a + b + r.value; }
  }

  lemma PrependNothing(r: Option<seq<Line>>)
    ensures Prepend([], r) == r
  {
    if r.Some? { assert [] + r.value == r.value; }
  }

  /** The inner loop: one hunk from a line of the new file, giving the old lines and where it stops. */
  method WalkHunk(head: seq<Line>, start: nat, lines: seq<HunkLine>)
    returns (fits: bool, emitted: seq<Line>, headIdx: nat)
    requires start <= |head|
    ensures !fits ==> Walk(head[start..], lines) == None
    ensures fits ==> headIdx <= |head| && Walk(head[start..], lines) == Some((emitted, head[headIdx..]))
  {
    fits, emitted, headIdx := true, [], start;
    assert lines[0..] == lines;
    ghost var w := Walk(head[start..], lines);
    assert w.Some? ==> [] + w.value.0 == w.value.0;
    for l := 0 to |lines|
      invariant fits && start <= headIdx <= |head|
      invariant w == PrependWalk(emitted, Walk(head[headIdx..], lines[l..]))
    {
      var line := lines[l];
      ghost var rest := head[headIdx..];
      PrependWalkTwice(emitted, line, Walk(rest, lines[l + 1..]),
                       Walk(rest[if rest == [] then 0 else 1..], lines[l + 1..]));
      assert rest != [] ==> rest[0] == head[headIdx] && rest[1..] == head[headIdx + 1..];
      assert lines[l..][0] == line && lines[l..][1..] == lines[l + 1..];
      match line {
        case Context(value) =>
          if headIdx >= |head| || head[headIdx] != value {
            fits := false;
            return;
          }
          emitted := emitted + [head[headIdx]];
          headIdx := headIdx + 1;
        case Added(value) =>
          if headIdx >= |head| || head[headIdx] != value {
            fits := false;
            return;
          }
          headIdx := headIdx + 1;
        case Removed(value) =>
          emitted := emitted + [value];
        case Note(_) =>
      }
    }
    assert lines[|lines|..] == [] && emitted + [] == emitted;
  }

  /** The loops of the source: a cursor over the new file, over hunks and over their lines. */
  method ReconstructBaseFile(head: seq<Line>, hunks: seq<Hunk>) returns (base: Option<seq<Line>>)
    ensures base == Reverse(head, 0, hunks)
  {
    var baseLines: seq<Line> := [];
    var headIdx: nat := 0;
    assert head[0..] == head && hunks[0..] == hunks;
    PrependNothing(Reverse(head, 0, hunks));
    for k := 0 to |hunks|
      invariant headIdx <= |head|
      invariant Reverse(head, 0, hunks) == Prepend(baseLines, Reverse(head[headIdx..], headIdx, hunks[k..]))
    {
      var h := hunks[k];
      assert hunks[k..][0] == h && hunks[k..][1..] == hunks[k + 1..];
      var start := h.targetStart - 1;
      if start < headIdx || start > |head| {
        return None;
      }
      ghost var held, from, before := baseLines, headIdx, baseLines + head[headIdx..start];
      assert head[headIdx..][start - headIdx..] == head[start..];
      assert head[headIdx..][..start - headIdx] == head[headIdx..start];
      baseLines := baseLines + head[headIdx..start];
      headIdx := start;
      var fits, emitted, next := WalkHunk(head, start, h.lines);
      if !fits {
        return None;
      }
      baseLines := baseLines + emitted;
      headIdx := next;
      PrependTwice(held, head[from..start] + emitted, Reverse(head[headIdx..], headIdx, hunks[k + 1..]));
      assert baseLines == held + (head[from..start] + emitted);
    }
    return Some(baseLines + head[headIdx..]);
  }

  predicate AllEqual(block: seq<Line>, c: Line) { forall k :: 0 <= k < |block| ==> block[k] == c }

  /**
   When a misplaced deletion does no harm: the code puts a hunk with an empty new side one line too
   early, so that line must still be ahead of the cursor and equal to every removed line.
   */
  predicate DeletionsCommute(head: seq<Line>, cursor: int, hunks: seq<Hunk>)
    decreases |hunks|
  {
    hunks == [] ||
    (var h, s := hunks[0], hunks[0].targetStart - 1;
     if NewSide(h.lines) == [] then
       && cursor <= s && 0 <= s < |head|
       && AllEqual(OldSide(h.lines), head[s])
       && DeletionsCommute(head, s, hunks[1..])
     else
       DeletionsCommute(head, s + |NewSide(h.lines)|, hunks[1..]))
  }

  /** Moving a line across a block is invisible exactly when the block repeats that line. */
  lemma {:induction false} ShiftedBlock(c: Line, block: seq<Line>)
    ensures [c] + block == block + [c] <==> AllEqual(block, c)
  {
    var a, b := [c] + block, block + [c];
    if a == b && block != [] {
      assert block[0] == b[0] == a[0];
      assert a[1..] == [c] + block[1..] && b[1..] == block[1..] + [c];
      ShiftedBlock(c, block[1..]);
      forall k | 0 <= k < |block| ensures block[k] == c {
        if k > 0 { assert block[k] == block[1..][k - 1]; }
      }
    }
    if forall k :: 0 <= k < |block| ==> block[k] == c {
      assert forall k :: 0 <= k < |a| ==> a[k] == b[k];
    }
  }

  lemma Cancel(x: seq<Line>, a: seq<Line>, b: seq<Line>)
    ensures x + a == x + b <==> a == b
  {
    assert (x + a)[|x|..] == a && (x + b)[|x|..] == b;
  }

  /** The same, with what follows: only then does the misplaced block still read as the true one. */
  lemma MisplacedBlock(c: Line, block: seq<Line>, tail: seq<Line>, rest: seq<Line>)
    requires block + tail == [c] + block + rest
    ensures [c] + block == block + [c]
  {
    var n := |block|;
    assert forall k :: 0 <= k < n ==> block[k] == (block + tail)[k] == ([c] + block)[k];
    forall k | 0 <= k < n ensures block[k] == c {
      RepeatsBack(c, block, k);
    }
    ShiftedBlock(c, block);
  }

  lemma {:induction false} RepeatsBack(c: Line, block: seq<Line>, k: nat)
    requires k < |block| && forall m :: 0 <= m < |block| ==> block[m] == ([c] + block)[m]
    ensures block[k] == c
  {
    if k > 0 { RepeatsBack(c, block, k - 1); }
  }

  /**
   The induction behind ReverseInvertsApply. After a misplaced deletion the walk stands one line
   behind its true position; `lag` is that line, still ahead of the walk in both files.
   */
  lemma {:induction false} ReverseAfterApply(
      head: seq<Line>, lag: seq<Line>, baseRest: seq<Line>, i: int, headRest: seq<Line>, j: nat, hunks: seq<Hunk>)
    requires |lag| <= 1 && |lag| <= j <= |head| && head[j - |lag|..] == lag + headRest
    requires HeadersAgree(hunks, i, j)
    requires Apply(baseRest, i, hunks) == Some(headRest)
    ensures Reverse(lag + headRest, j - |lag|, hunks) == Some(lag + baseRest)
            <==> DeletionsCommute(head, j - |lag|, hunks)
    decreases |hunks|
  {
    if hunks != [] {
      hide *;
      HeadersStep(hunks, i, j);
      var h := hunks[0];
      var moved, baseNext, t := ApplyHunk(baseRest, i, hunks, headRest);
      var kept := lag + moved;
      Associate(lag, moved, OldSide(h.lines), baseNext);
      Associate(lag, moved, NewSide(h.lines), t);
      var i' := OldPos(h) + |OldSide(h.lines)|;
      if NewSide(h.lines) != [] {
        ReverseAfterKept(head, kept, baseNext, i', t, h.targetStart - 1, hunks);
      } else if kept != [] {
        ReverseAfterDeletion(head, kept, baseNext, i', t, h.targetStart, hunks);
      } else {
        TooEarly(lag + headRest, head, j - |lag|, hunks);
      }
    }
  }

  lemma HeadersStep(hunks: seq<Hunk>, i: int, j: int)
    requires hunks != [] && HeadersAgree(hunks, i, j)
    ensures var h := hunks[0];
            var new2 := if NewSide(h.lines) == [] then h.targetStart else h.targetStart - 1;
            && i <= OldPos(h) && new2 - j == OldPos(h) - i
            && HeadersAgree(hunks[1..], OldPos(h) + |OldSide(h.lines)|, new2 + |NewSide(h.lines)|)
  {
    hide OldSide, NewSide;
  }

  /** A deletion before the cursor neither commutes nor can be walked. */
  lemma TooEarly(rest: seq<Line>, head: seq<Line>, cursor: int, hunks: seq<Hunk>)
    requires hunks != [] && NewSide(hunks[0].lines) == [] && hunks[0].targetStart - 1 < cursor
    ensures !DeletionsCommute(head, cursor, hunks) && Reverse(rest, cursor, hunks) == None
  {}

  lemma ApplyHunk(rest: seq<Line>, i: int, hunks: seq<Hunk>, result: seq<Line>)
    returns (kept: seq<Line>, t: seq<Line>, next: seq<Line>)
    requires hunks != [] && Apply(rest, i, hunks) == Some(result)
    ensures OldPos(hunks[0]) - i == |kept|
    ensures rest == kept + (OldSide(hunks[0].lines) + t)
    ensures result == kept + (NewSide(hunks[0].lines) + next)
    ensures Apply(t, i + |kept| + |OldSide(hunks[0].lines)|, hunks[1..]) == Some(next)
  {
    kept, t := ApplyShape(rest, i, hunks);
    ApplyStep(kept, t, i, hunks);
    next := Apply(t, i + |kept| + |OldSide(hunks[0].lines)|, hunks[1..]).value;
    assert kept + NewSide(hunks[0].lines) + next == kept + (NewSide(hunks[0].lines) + next);
  }

  lemma Associate(a: seq<Line>, b: seq<Line>, c: seq<Line>, d: seq<Line>)
    ensures a + (b + (c + d)) == (a + b) + (c + d) == ((a + b) + c) + d
    ensures c == [] ==> a + (b + (c + d)) == (a + b) + d
  {}

  /** The step of ReverseAfterApply at a hunk whose new side is not empty, after `kept` unchanged lines. */
  lemma {:induction false} ReverseAfterKept(
      head: seq<Line>, kept: seq<Line>, baseNext: seq<Line>, i: int, t: seq<Line>, j: nat, hunks: seq<Hunk>)
    requires hunks != [] && NewSide(hunks[0].lines) != [] && hunks[0].targetStart - 1 == j
    requires |kept| <= j <= |head| && head[j - |kept|..] == kept + (NewSide(hunks[0].lines) + t)
    requires HeadersAgree(hunks[1..], i, j + |NewSide(hunks[0].lines)|)
    requires Apply(baseNext, i, hunks[1..]) == Some(t)
    ensures Reverse(kept + (NewSide(hunks[0].lines) + t), j - |kept|, hunks)
            == Some((kept + OldSide(hunks[0].lines)) + baseNext)
            <==> DeletionsCommute(head, j - |kept|, hunks)
    decreases |hunks|, 0
  {
    hide Reverse, Apply, OldSide, NewSide, HeadersAgree;
    var added, j' := NewSide(hunks[0].lines), j + |NewSide(hunks[0].lines)|;
    ReverseStep(kept, t, j - |kept|, hunks);
    Cut(head, j - |kept|, kept, added + t);
    Cut(head, j, added, t);
    EmptyLag(t);
    EmptyLag(baseNext);
    ReverseAfterApply(head, [], baseNext, i, t, j', hunks[1..]);
    CancelOption(kept + OldSide(hunks[0].lines), Reverse(t, j', hunks[1..]), baseNext);
  }

  lemma EmptyLag(t: seq<Line>)
    ensures [] + t == t
  {}

  lemma CancelOption(x: seq<Line>, r: Option<seq<Line>>, b: seq<Line>)
    ensures Prepend(x, r) == Some(x + b) <==> r == Some(b)
  {
    if r.Some? { Cancel(x, r.value, b); }
  }

  lemma Cut(head: seq<Line>, j: nat, kept: seq<Line>, rest: seq<Line>)
    requires j <= |head| && head[j..] == kept + rest
    ensures j + |kept| <= |head| && head[j + |kept|..] == rest
  {
    assert head[j + |kept|..] == head[j..][|kept|..];
  }

  /** The step of ReverseAfterApply at a hunk whose new side is empty, after `kept` unchanged lines. */
  lemma {:induction false} ReverseAfterDeletion(
      head: seq<Line>, kept: seq<Line>, baseNext: seq<Line>, i: int, t: seq<Line>, j: nat, hunks: seq<Hunk>)
    requires hunks != [] && NewSide(hunks[0].lines) == [] && hunks[0].targetStart == j
    requires 0 < |kept| <= j <= |head| && head[j - |kept|..] == kept + t
    requires HeadersAgree(hunks[1..], i, j)
    requires Apply(baseNext, i, hunks[1..]) == Some(t)
    ensures Reverse(kept + t, j - |kept|, hunks) == Some((kept + OldSide(hunks[0].lines)) + baseNext)
            <==> DeletionsCommute(head, j - |kept|, hunks)
    decreases |hunks|, 0
  {
    var removed := OldSide(hunks[0].lines);
    var front, c := kept[..|kept| - 1], kept[|kept| - 1];
    DeletionCut(head, kept, t, j);
    DeletionReverse(kept, t, j, hunks);
    DeletionHere(head, j - |kept|, hunks, c);
    hide *;
    ReverseAfterApply(head, [c], baseNext, i, t, j, hunks[1..]);
    MisplacedIffSame(front, c, removed, baseNext, Reverse([c] + t, j - 1, hunks[1..]));
  }

  lemma DeletionCut(head: seq<Line>, kept: seq<Line>, t: seq<Line>, j: nat)
    requires 0 < |kept| <= j <= |head| && head[j - |kept|..] == kept + t
    ensures var front, c := kept[..|kept| - 1], kept[|kept| - 1];
            kept == front + [c] && head[j - 1..] == [c] + t && head[j - 1] == c
  {
    var front, c := SplitLast(kept, t);
    Cut(head, j - |kept|, front, [c] + t);
    LineAt(head, j - 1, c, t);
  }

  /** A hunk without new lines is rebuilt before the line it belongs after. */
  lemma DeletionReverse(kept: seq<Line>, t: seq<Line>, j: nat, hunks: seq<Hunk>)
    requires hunks != [] && NewSide(hunks[0].lines) == [] && hunks[0].targetStart == j && 0 < |kept| <= j
    ensures var front, c := kept[..|kept| - 1], kept[|kept| - 1];
            Reverse(kept + t, j - |kept|, hunks)
            == Prepend(front + OldSide(hunks[0].lines), Reverse([c] + t, j - 1, hunks[1..]))
  {
    hide Reverse;
    var front, c := SplitLast(kept, t);
    ReverseStep(front, [c] + t, j - |kept|, hunks);
  }

  lemma DeletionHere(head: seq<Line>, cursor: int, hunks: seq<Hunk>, c: Line)
    requires hunks != [] && NewSide(hunks[0].lines) == []
    requires cursor <= hunks[0].targetStart - 1 && 0 <= hunks[0].targetStart - 1 < |head|
             && head[hunks[0].targetStart - 1] == c
    ensures var removed := OldSide(hunks[0].lines);
            DeletionsCommute(head, cursor, hunks)
            <==> AllEqual(removed, c) && DeletionsCommute(head, hunks[0].targetStart - 1, hunks[1..])
  {
    hide OldSide, NewSide;
  }

  lemma LineAt(head: seq<Line>, s: nat, c: Line, t: seq<Line>)
    requires s <= |head| && head[s..] == [c] + t
    ensures s < |head| && head[s] == c
  {
    assert head[s..][0] == c;
  }

  lemma SplitLast(kept: seq<Line>, t: seq<Line>) returns (front: seq<Line>, c: Line)
    requires kept != []
    ensures kept == front + [c] && |front| == |kept| - 1
    ensures kept + t == front + ([c] + t) == front + ([] + ([c] + t))
  {
    front, c := kept[..|kept| - 1], kept[|kept| - 1];
  }

  /** Emitting a block before the line it belongs after is right only if the block repeats that line. */
  lemma MisplacedIffSame(front: seq<Line>, c: Line, removed: seq<Line>, baseNext: seq<Line>, r: Option<seq<Line>>)
    ensures Prepend(front + removed, r) == Some((front + [c]) + removed + baseNext)
            <==> AllEqual(removed, c) && r == Some([c] + baseNext)
  {
    ShiftedBlock(c, removed);
    assert (front + [c]) + removed + baseNext == front + ([c] + removed + baseNext);
    if [c] + removed == removed + [c] {
      assert [c] + removed + baseNext == removed + ([c] + baseNext);
      assert front + (removed + ([c] + baseNext)) == (front + removed) + ([c] + baseNext);
      CancelOption(front + removed, r, [c] + baseNext);
    } else if r.Some? && front + removed + r.value == (front + [c]) + removed + baseNext {
      assert front + removed + r.value == front + (removed + r.value);
      Cancel(front, removed + r.value, [c] + removed + baseNext);
      MisplacedBlock(c, removed, r.value, baseNext);
    }
  }

  /**
   Reverse-apply inverts apply: the code recovers the old file from the new one exactly when every
   hunk with an empty new side commutes with the line before it.
   */
  lemma ReverseInvertsApply(base: seq<Line>, head: seq<Line>, hunks: seq<Hunk>)
    requires HeadersAgree(hunks, 0, 0)
    requires Apply(base, 0, hunks) == Some(head)
    ensures Reverse(head, 0, hunks) == Some(base) <==> DeletionsCommute(head, 0, hunks)
  {
    assert head[0..] == [] + head && head == [] + head && base == [] + base;
    ReverseAfterApply(head, [], base, 0, head, 0, hunks);
  }

  /** The converse induction: re-applying the hunks to a rebuilt file. */
  lemma {:induction false} ApplyAfterReverse(
      head: seq<Line>, lag: seq<Line>, baseRest: seq<Line>, i: int, headRest: seq<Line>, j: nat, hunks: seq<Hunk>)
    requires |lag| <= 1 && |lag| <= j <= |head| && head[j - |lag|..] == lag + headRest
    requires HeadersAgree(hunks, i, j)
    requires Reverse(lag + headRest, j - |lag|, hunks) == Some(lag + baseRest)
    requires DeletionsCommute(head, j - |lag|, hunks)
    ensures Apply(baseRest, i, hunks) == Some(headRest)
    decreases |hunks|
  {
    hide *;
    if hunks == [] {
      NoHunks(lag, baseRest, i, headRest, j - |lag|);
    } else {
      FirstAgrees(head, j - |lag|, i, j, hunks);
      var kept, t, r := CutHunk(head, j - |lag|, hunks, lag + headRest, lag + baseRest);
      if NewSide(hunks[0].lines) != [] {
        ApplyAfterKept(head, lag, baseRest, i, headRest, j, hunks, kept, t, r);
      } else {
        var t', r' := SharedHead(head, hunks, r);
        ApplyAfterDeletion(head, lag, baseRest, i, headRest, j, hunks, kept, t', r');
      }
    }
  }

  lemma NoHunks(lag: seq<Line>, baseRest: seq<Line>, i: int, headRest: seq<Line>, cursor: int)
    requires Reverse(lag + headRest, cursor, []) == Some(lag + baseRest)
    ensures Apply(baseRest, i, []) == Some(headRest)
  {
    Cancel(lag, headRest, baseRest);
  }

  /** The first hunk of a successful reverse walk, cut out of both files. */
  lemma CutHunk(head: seq<Line>, from: nat, hunks: seq<Hunk>, headRest: seq<Line>, baseRest: seq<Line>)
    returns (kept: seq<Line>, t: seq<Line>, next: seq<Line>)
    requires from <= |head| && head[from..] == headRest && hunks != []
    requires Reverse(headRest, from, hunks) == Some(baseRest)
    ensures var h, s := hunks[0], hunks[0].targetStart - 1;
            && s - from == |kept| && headRest == kept + (NewSide(h.lines) + t)
            && baseRest == kept + (OldSide(h.lines) + next)
            && 0 <= s && s + |NewSide(h.lines)| <= |head| && head[s + |NewSide(h.lines)|..] == t
            && Reverse(t, s + |NewSide(h.lines)|, hunks[1..]) == Some(next)
            && (NewSide(h.lines) == [] ==> NewSide(h.lines) + t == t)
  {
    hide *;
    kept, t, next := ReverseHunk(headRest, from, hunks, baseRest);
    TwoCuts(head, from, kept, NewSide(hunks[0].lines), t, headRest, hunks[0].targetStart - 1);
  }

  lemma TwoCuts(head: seq<Line>, from: nat, kept: seq<Line>, added: seq<Line>, t: seq<Line>, rest: seq<Line>, s: int)
    requires from <= |head| && head[from..] == rest == kept + (added + t) && s - from == |kept|
    ensures 0 <= s && s + |added| <= |head| && head[s + |added|..] == t
    ensures added == [] ==> added + t == t
  {
    Cut(head, from, kept, added + t);
    Cut(head, s, added, t);
    EmptyLag(t);
  }

  lemma FirstAgrees(head: seq<Line>, cursor: int, i: int, j: int, hunks: seq<Hunk>)
    requires hunks != [] && HeadersAgree(hunks, i, j) && DeletionsCommute(head, cursor, hunks)
    ensures var h, s := hunks[0], hunks[0].targetStart - 1;
            if NewSide(h.lines) == [] then
              && 0 <= s < |head| && DeletionsCommute(head, s, hunks[1..])
              && HeadersAgree(hunks[1..], OldPos(h) + |OldSide(h.lines)|, h.targetStart)
            else DeletionsCommute(head, s + |NewSide(h.lines)|, hunks[1..])
  {}

  /** At a commuting deletion both files go on with the same line, equal to every removed one. */
  lemma SharedHead(head: seq<Line>, hunks: seq<Hunk>, r: seq<Line>) returns (t': seq<Line>, r': seq<Line>)
    requires hunks != [] && NewSide(hunks[0].lines) == []
    requires exists cursor :: DeletionsCommute(head, cursor, hunks)
    requires 0 <= hunks[0].targetStart - 1 < |head|
    requires HeadersAgree(hunks[1..], OldPos(hunks[0]) + |OldSide(hunks[0].lines)|, hunks[0].targetStart)
    requires Reverse(head[hunks[0].targetStart - 1..], hunks[0].targetStart - 1, hunks[1..]) == Some(r)
    ensures head[hunks[0].targetStart - 1..] == [head[hunks[0].targetStart - 1]] + t'
    ensures r == [head[hunks[0].targetStart - 1]] + r'
    ensures var c, removed := head[hunks[0].targetStart - 1], OldSide(hunks[0].lines);
            [c] + removed == removed + [c]
  {
    var s, removed := hunks[0].targetStart - 1, OldSide(hunks[0].lines);
    var cursor :| DeletionsCommute(head, cursor, hunks);
    ShiftedBlock(head[s], removed);
    StartsAtCursor(head, s, OldPos(hunks[0]) + |removed|, hunks[1..], r);
    t', r' := head[s..][1..], r[1..];
  }

  lemma ReverseHunk(rest: seq<Line>, idx: int, hunks: seq<Hunk>, result: seq<Line>)
    returns (kept: seq<Line>, t: seq<Line>, next: seq<Line>)
    requires hunks != [] && Reverse(rest, idx, hunks) == Some(result)
    ensures hunks[0].targetStart - 1 - idx == |kept|
    ensures rest == kept + (NewSide(hunks[0].lines) + t)
    ensures result == kept + (OldSide(hunks[0].lines) + next)
    ensures Reverse(t, idx + |kept| + |NewSide(hunks[0].lines)|, hunks[1..]) == Some(next)
  {
    kept, t := ReverseShape(rest, idx, hunks);
    ReverseStep(kept, t, idx, hunks);
    next := Reverse(t, idx + |kept| + |NewSide(hunks[0].lines)|, hunks[1..]).value;
    assert kept + OldSide(hunks[0].lines) + next == kept + (OldSide(hunks[0].lines) + next);
  }

  lemma RegroupBlock(kept: seq<Line>, c: Line, block: seq<Line>, t: seq<Line>)
    requires [c] + block == block + [c]
    ensures kept + (block + ([c] + t)) == (kept + [c]) + (block + t)
    ensures block == [] ==> kept + ([c] + t) == (kept + [c]) + (block + t)
  {
    assert block + ([c] + t) == (block + [c]) + t == ([c] + block) + t == [c] + (block + t);
    assert kept + ([c] + (block + t)) == (kept + [c]) + (block + t);
  }

  /** The step of ApplyAfterReverse at a hunk whose new side is not empty, after `kept` unchanged lines. */
  lemma {:induction false} ApplyAfterKept(
      head: seq<Line>, lag: seq<Line>, baseRest: seq<Line>, i: int, headRest: seq<Line>, j: nat, hunks: seq<Hunk>,
      kept: seq<Line>, t: seq<Line>, r: seq<Line>)
    requires hunks != [] && NewSide(hunks[0].lines) != []
    requires |lag| <= 1 && |lag| <= j
    requires HeadersAgree(hunks, i, j) && |kept| == hunks[0].targetStart - 1 - (j - |lag|)
    requires var removed, added := OldSide(hunks[0].lines), NewSide(hunks[0].lines);
             var j' := hunks[0].targetStart - 1 + |added|;
             && lag + headRest == kept + (added + t)
             && lag + baseRest == kept + (removed + r)
             && 0 <= j' <= |head| && head[j'..] == t
             && Reverse(t, j', hunks[1..]) == Some(r)
             && DeletionsCommute(head, j', hunks[1..])
    ensures Apply(baseRest, i, hunks) == Some(headRest)
    decreases |hunks|, 0
  {
    hide Reverse, Apply, OldSide, NewSide, DeletionsCommute;
    var removed, added := OldSide(hunks[0].lines), NewSide(hunks[0].lines);
    var moved := kept[|lag|..];
    SplitLag(lag, kept, moved, baseRest, removed + r);
    SplitLag(lag, kept, moved, headRest, added + t);
    EmptyLag(t);
    EmptyLag(r);
    ApplyAfterReverse(head, [], r, OldPos(hunks[0]) + |removed|, t, hunks[0].targetStart - 1 + |added|, hunks[1..]);
    ApplyStep(moved, r, i, hunks);
    Reassoc(moved, added, t);
  }

  /** The step of ApplyAfterReverse at a hunk whose new side is empty, after `kept` unchanged lines. */
  lemma {:induction false} ApplyAfterDeletion(
      head: seq<Line>, lag: seq<Line>, baseRest: seq<Line>, i: int, headRest: seq<Line>, j: nat, hunks: seq<Hunk>,
      kept: seq<Line>, t: seq<Line>, r: seq<Line>)
    requires hunks != [] && NewSide(hunks[0].lines) == []
    requires |lag| <= 1 && |lag| <= j && 0 < hunks[0].targetStart <= |head|
    requires HeadersAgree(hunks, i, j) && |kept| == hunks[0].targetStart - 1 - (j - |lag|)
    requires var c := head[hunks[0].targetStart - 1];
             var removed := OldSide(hunks[0].lines);
             && [c] + removed == removed + [c]
             && head[hunks[0].targetStart - 1..] == [c] + t
             && lag + headRest == kept + ([c] + t)
             && lag + baseRest == kept + (removed + ([c] + r))
             && Reverse([c] + t, hunks[0].targetStart - 1, hunks[1..]) == Some([c] + r)
    requires DeletionsCommute(head, hunks[0].targetStart - 1, hunks[1..])
    ensures Apply(baseRest, i, hunks) == Some(headRest)
    decreases |hunks|, 0
  {
    hide Reverse, Apply, OldSide, NewSide, DeletionsCommute;
    var h, c := hunks[0], head[hunks[0].targetStart - 1];
    var removed := OldSide(h.lines);
    ApplyAfterReverse(head, [c], r, OldPos(h) + |removed|, t, h.targetStart, hunks[1..]);
    var moved := (kept + [c])[|lag|..];
    RegroupBlock(kept, c, removed, r);
    RegroupBlock(kept, c, [], t);
    SplitLag(lag, kept + [c], moved, baseRest, removed + r);
    SplitLag(lag, kept + [c], moved, headRest, [] + t);
    ApplyStep(moved, r, i, hunks);
    Reassoc(moved, [], t);
  }

  lemma SplitLag(lag: seq<Line>, kept: seq<Line>, moved: seq<Line>, rest: seq<Line>, tail: seq<Line>)
    requires |lag| <= |kept| && moved == kept[|lag|..]
    requires lag + rest == kept + tail
    ensures rest == moved + tail
  {
    assert rest == (lag + rest)[|lag|..] == (kept + tail)[|lag|..] == moved + tail;
  }

  /** Under the commuting condition, what is rebuilt after a deletion starts with the line at the cursor. */
  lemma {:induction false} StartsAtCursor(head: seq<Line>, s: nat, i: int, hunks: seq<Hunk>, r: seq<Line>)
    requires s < |head|
    requires HeadersAgree(hunks, i, s + 1)
    requires Reverse(head[s..], s, hunks) == Some(r)
    requires DeletionsCommute(head, s, hunks)
    ensures r != [] && r[0] == head[s]
    decreases |hunks|
  {
    if hunks != [] {
      var h, s' := hunks[0], hunks[0].targetStart - 1;
      var removed := OldSide(h.lines);
      WalkIsSideMatch(head[s..][s' - s..], h.lines);
      if s' == s {
        assert NewSide(h.lines) == [];
        assert head[s..][0..] == head[s..];
        var t := Reverse(head[s..], s, hunks[1..]).value;
        assert r == removed + t;
        if removed == [] {
          StartsAtCursor(head, s, OldPos(h), hunks[1..], t);
        }
      } else {
        assert head[s..][..s' - s][0] == head[s];
      }
    }
  }

  /** Whenever the code succeeds, re-applying the hunks to its result gives the new file back, with
      the same exception and no other. */
  lemma ApplyInvertsReverse(base: seq<Line>, head: seq<Line>, hunks: seq<Hunk>)
    requires HeadersAgree(hunks, 0, 0)
    requires Reverse(head, 0, hunks) == Some(base)
    ensures Apply(base, 0, hunks) == Some(head) <==> DeletionsCommute(head, 0, hunks)
  {
    assert head[0..] == [] + head && head == [] + head && base == [] + base;
    if DeletionsCommute(head, 0, hunks) {
      ApplyAfterReverse(head, [], base, 0, head, 0, hunks);
    }
    if Apply(base, 0, hunks) == Some(head) {
      ReverseInvertsApply(base, head, hunks);
    }
  }

  /** The ordinary case: a patch whose hunks all keep or add a line never meets the exception. */
  lemma {:induction false} KeptLinesCommute(head: seq<Line>, cursor: int, hunks: seq<Hunk>)
    requires forall h :: h in hunks ==> NewSide(h.lines) != []
    ensures DeletionsCommute(head, cursor, hunks)
    decreases |hunks|
  {
    if hunks != [] {
      KeptLinesCommute(head, hunks[0].targetStart - 1 + |NewSide(hunks[0].lines)|, hunks[1..]);
    }
  }

  /** A one-hunk patch that deletes "b" after "a": the code rebuilds "b", "a" instead of "a", "b". */
  lemma MisplacedDeletion()
    ensures var hunks := [Hunk(2, 1, [Removed("b")])];
            && HeadersAgree(hunks, 0, 0)
            && Apply(["a", "b"], 0, hunks) == Some(["a"])
            && Reverse(["a"], 0, hunks) == Some(["b", "a"])
  {
    hide *;
    LateDeletion("a", "b");
  }

  lemma LateDeletion(a: Line, b: Line)
    ensures var hunks := [Hunk(2, 1, [Removed(b)])];
            && HeadersAgree(hunks, 0, 0)
            && Apply([a, b], 0, hunks) == Some([a])
            && Reverse([a], 0, hunks) == Some([b, a])
  {
    hide OldSide, NewSide, Walk;
    var hunks := [Hunk(2, 1, [Removed(b)])];
    OneDeletion(b);
    assert [a] + ([b] + []) == [a, b] && [] + ([] + [a]) == [a];
    ApplyStep([a], [], 0, hunks);
    ReverseStep([], [a], 0, hunks);
    assert [a] + [] + [] == [a] && [] + [b] + [a] == [b, a];
  }

  lemma OneDeletion(b: Line)
    ensures OldSide([Removed(b)]) == [b] && NewSide([Removed(b)]) == []
  {
    assert [Removed(b)][1..] == [];
  }
}
