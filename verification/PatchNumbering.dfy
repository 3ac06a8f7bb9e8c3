/**
 The other loops over a patch (pr_agent/algo/git_patch_processing.py, pr_agent/git_providers/diff_parsing.py):
 dropping hunks that only delete, numbering new-side lines, and selecting a line range.
 */
module PatchNumbering {
  import opened PatchModel
  import opened Sequences
  import opened Wrappers

  // ----- dropping deletion-only hunks -----

  /** Lines held back, whether they include an addition, and whether a header was seen. */
  datatype Held = Held(lines: seq<PatchLine>, add: bool, inside: bool)

  function Release(st: Held): seq<PatchLine> {
    if st.inside && st.add then st.lines else []
  }

  function Omit(lines: seq<PatchLine>, st: Held): seq<PatchLine> {
    if lines == [] then Release(st)
    else match lines[0]
      case Hdr(_) =>
        if st.inside then Release(st) + Omit(lines[1..], Held([lines[0]], false, true))
        else Omit(lines[1..], Held(st.lines + [lines[0]], st.add, true))
      case Txt(t) =>
        if Marked(t) then Omit(lines[1..], st)
        else Omit(lines[1..], Held(st.lines + [lines[0]], st.add || IsPlus(t), st.inside))
  }

  method OmitDeletionHunks(lines: seq<PatchLine>) returns (kept: seq<PatchLine>)
    ensures kept == Omit(lines, Held([], false, false))
  {
    var temp: seq<PatchLine> := [];
    kept := [];
    var add, inside := false, false;
    assert lines[0..] == lines;
    for i := 0 to |lines|
      invariant Omit(lines, Held([], false, false)) == kept + Omit(lines[i..], Held(temp, add, inside))
    {
      assert lines[i..][0] == lines[i] && lines[i..][1..] == lines[i + 1..];
      match lines[i]
      case Hdr(_) =>
        if inside {
          Reassoc(kept, if add then temp else [], Omit(lines[i + 1..], Held([lines[i]], false, true)));
          if add {
            kept := kept + temp;
          }
          temp := [];
          add := false;
          assert [] + [lines[i]] == [lines[i]];
        }
        temp := temp + [lines[i]];
        inside := true;
      case Txt(t) =>
        if !Marked(t) {
          temp := temp + [lines[i]];
          if IsPlus(t) {
            add := true;
          }
        }
    }
    if inside && add {
      kept := kept + temp;
    }
  }

  /** Drops the file header lines before the first "@@" line; nothing is left when there is none. */
  function HunkOnly(lines: seq<PatchLine>): seq<PatchLine> {
    if lines == [] || StartsMarked(lines) then lines else HunkOnly(lines[1..])
  }

  method ToHunkOnlyPatch(lines: seq<PatchLine>) returns (rest: seq<PatchLine>)
    ensures rest == HunkOnly(lines)
  {
    assert lines[0..] == lines;
    for i := 0 to |lines|
      invariant HunkOnly(lines) == HunkOnly(lines[i..])
    {
      if lines[i].Hdr? || Marked(lines[i].text) {
        return lines[i..];
      }
      assert lines[i..][0] == lines[i] && lines[i..][1..] == lines[i + 1..];
    }
    return [];
  }

  // ----- numbering -----

  datatype OutLine =
    | HunkTitle(header: Header)
    | NewMark
    | NewRow(number: int, text: string)
    | OldMark
    | OldRow(text: string)

  /** Collected new and old lines of the hunk being read, and the state of the header match. */
  datatype Reading = Reading(plus: seq<string>, minus: seq<string>, header: Option<Header>, skip: bool)

  function NewRows(lines: seq<string>, n: int): seq<OutLine> {
    if lines == [] then [] else [NewRow(n, lines[0])] + NewRows(lines[1..], n + 1)
  }

  function OldRows(lines: seq<string>): seq<OutLine> {
    if lines == [] then [] else [OldRow(lines[0])] + OldRows(lines[1..])
  }

  predicate AnyPlus(lines: seq<string>) { exists s :: s in lines && IsPlus(s) }

  predicate AnyMinus(lines: seq<string>) { exists s :: s in lines && IsMinus(s) }

  /** What is printed for the hunk being read. */
  function Flush(st: Reading): seq<OutLine> {
    if st.plus == [] && st.minus == [] then []
    else
      (if st.header.Some? then [HunkTitle(st.header.value)] else [])
      + (if AnyPlus(st.plus) || AnyMinus(st.minus)
         then [NewMark] + NewRows(st.plus, if st.header.Some? then st.header.value.start2 else -1) else [])
      + (if AnyMinus(st.minus) then [OldMark] + OldRows(st.minus) else [])
  }

  function Collect(t: string, first: bool, rest: seq<PatchLine>, st: Reading): Reading {
    if HasRemark(t) then st
    else if Marked(t) then st.(skip := true)
    else if st.skip then st
    else if IsPlus(t) then st.(plus := st.plus + [t])
    else if IsMinus(t) then st.(minus := st.minus + [t])
    else if t == "" && !first && (rest == [] || StartsMarked(rest)) then st
    else st.(plus := st.plus + [t], minus := st.minus + [t])
  }

  function Number(lines: seq<PatchLine>, first: bool, st: Reading): seq<OutLine>
    decreases |lines|
  {
    if lines == [] then (if st.header.Some? then Flush(st) else [])
    else match lines[0]
      case Hdr(h) =>
        if HasRemark(h.section) then Number(lines[1..], false, st)
        else Flush(st) + Number(lines[1..], false, Reading([], [], Some(h), false))
      case Txt(t) => Number(lines[1..], false, Collect(t, first, lines[1..], st))
  }

  const NOTHING_READ := Reading([], [], None, false)

  method PrintNewRows(lines: seq<string>, start2: int) returns (out: seq<OutLine>)
    ensures out == NewRows(lines, start2)
  {
    out := [];
    var i := 0;
    assert lines[0..] == lines;
    while i < |lines|
      invariant i <= |lines|
      invariant NewRows(lines, start2) == out + NewRows(lines[i..], start2 + i)
    {
      assert lines[i..][0] == lines[i] && lines[i..][1..] == lines[i + 1..];
      Reassoc(out, [NewRow(start2 + i, lines[i])], NewRows(lines[i + 1..], start2 + (i + 1)));
      out := out + [NewRow(start2 + i, lines[i])];
      i := i + 1;
    }
  }

  method PrintOldRows(lines: seq<string>) returns (out: seq<OutLine>)
    ensures out == OldRows(lines)
  {
    out := [];
    assert lines[0..] == lines;
    for i := 0 to |lines|
      invariant OldRows(lines) == out + OldRows(lines[i..])
    {
      assert lines[i..][0] == lines[i] && lines[i..][1..] == lines[i + 1..];
      out := out + [OldRow(lines[i])];
    }
  }

  method PrintHunk(plus: seq<string>, minus: seq<string>, header: Option<Header>) returns (out: seq<OutLine>)
    requires plus != [] || minus != []
    ensures out == Flush(Reading(plus, minus, header, false))
  {
    out := if header.Some? then [HunkTitle(header.value)] else [];
    var isPlus := AnyPlusLine(plus);
    var isMinus := AnyMinusLine(minus);
    if isPlus || isMinus {
      var rows := PrintNewRows(plus, if header.Some? then header.value.start2 else -1);
      out := out + ([NewMark] + rows);
    }
    if isMinus {
      var rows := PrintOldRows(minus);
      out := out + ([OldMark] + rows);
    }
  }

  method AnyPlusLine(lines: seq<string>) returns (found: bool)
    ensures found == AnyPlus(lines)
  {
    for i := 0 to |lines|
      invariant forall k :: 0 <= k < i ==> !IsPlus(lines[k])
    {
      if IsPlus(lines[i]) {
        return true;
      }
    }
    return false;
  }

  method AnyMinusLine(lines: seq<string>) returns (found: bool)
    ensures found == AnyMinus(lines)
  {
    for i := 0 to |lines|
      invariant forall k :: 0 <= k < i ==> !IsMinus(lines[k])
    {
      if IsMinus(lines[i]) {
        return true;
      }
    }
    return false;
  }

  method DecoupleHunks(lines: seq<PatchLine>) returns (out: seq<OutLine>)
    ensures out == Number(lines, true, NOTHING_READ)
  {
    out := [];
    var newLines: seq<string> := [];
    var oldLines: seq<string> := [];
    var header: Option<Header> := None;
    var skip := false;
    assert lines[0..] == lines;
    for i := 0 to |lines|
      invariant Number(lines, true, NOTHING_READ)
             == out + Number(lines[i..], i == 0, Reading(newLines, oldLines, header, skip))
    {
      assert lines[i..][0] == lines[i] && lines[i..][1..] == lines[i + 1..];
      match lines[i]
      case Hdr(h) =>
        if !HasRemark(h.section) {
          var printed: seq<OutLine> := [];
          if newLines != [] || oldLines != [] {
            printed := PrintHunk(newLines, oldLines, header);
          }
          Reassoc(out, printed, Number(lines[i + 1..], false, Reading([], [], Some(h), false)));
          out := out + printed;
          newLines, oldLines, header, skip := [], [], Some(h), false;
        }
      case Txt(t) =>
        if HasRemark(t) {
        } else if Marked(t) {
          skip := true;
        } else if skip {
        } else if IsPlus(t) {
          newLines := newLines + [t];
        } else if IsMinus(t) {
          oldLines := oldLines + [t];
        } else {
          var blankBeforeHeader := t == "" && i != 0
            && (i + 1 == |lines| || lines[i + 1].Hdr? || Marked(lines[i + 1].text));
          if !blankBeforeHeader {
            newLines := newLines + [t];
            oldLines := oldLines + [t];
          }
        }
    }
    if header.Some? && (newLines != [] || oldLines != []) {
      var printed := PrintHunk(newLines, oldLines, header);
      out := out + printed;
    }
  }

  // ----- selecting a line range -----

  datatype Side = Left | Right | Other

  /** First line number of the hunk on the chosen side, whether it is skipped, and lines counted. */
  datatype Cursor = Cursor(start: int, skip: bool, count: int)

  function Enter(h: Header, side: Side, lineStart: int): Cursor {
    match side
    case Left => Cursor(h.start1, !(h.start1 <= lineStart <= h.start1 + h.size1 - 1), 0)
    case Right => Cursor(h.start2, !(h.start2 <= lineStart <= h.start2 + h.size2 - 1), 0)
    case Other => Cursor(-1, false, 0)
  }

  predicate OnSide(t: string, side: Side) {
    if side == Left then !IsPlus(t) else !IsMinus(t)
  }

  predicate Picked(t: string, side: Side, lineStart: int, lineEnd: int, st: Cursor) {
    && side != Other
    && lineStart <= st.start + st.count <= lineEnd
    && (OnSide(t, side) || side == Right)
  }

  function Advance(t: string, side: Side, st: Cursor): Cursor {
    if HasRemark(t) then st
    else if Marked(t) then st.(skip := true)
    else if st.skip || side == Other || !OnSide(t, side) then st
    else st.(count := st.count + 1)
  }

  function Select(lines: seq<PatchLine>, side: Side, lineStart: int, lineEnd: int, st: Cursor): seq<string> {
    if lines == [] then []
    else match lines[0]
      case Hdr(h) =>
        Select(lines[1..], side, lineStart, lineEnd, if HasRemark(h.section) then st else Enter(h, side, lineStart))
      case Txt(t) =>
        (if !HasRemark(t) && !Marked(t) && !st.skip && Picked(t, side, lineStart, lineEnd, st) then [t] else [])
        + Select(lines[1..], side, lineStart, lineEnd, Advance(t, side, st))
  }

  /** The companion output: the whole hunks that were entered, each header after a blank line. */
  function Shown(lines: seq<PatchLine>, side: Side, lineStart: int, st: Cursor): seq<PatchLine> {
    if lines == [] then []
    else match lines[0]
      case Hdr(h) =>
        var st' := if HasRemark(h.section) then st else Enter(h, side, lineStart);
        (if HasRemark(h.section) || st'.skip then [] else [Txt(""), lines[0]])
        + Shown(lines[1..], side, lineStart, st')
      case Txt(t) =>
        (if !HasRemark(t) && !Marked(t) && !st.skip then [lines[0]] else [])
        + Shown(lines[1..], side, lineStart, Advance(t, side, st))
  }

  const BEFORE_HUNKS := Cursor(-1, false, 0)

  method ExtractHunkLines(lines: seq<PatchLine>, lineStart: int, lineEnd: int, side: Side)
    returns (shown: seq<PatchLine>, selected: seq<string>)
    ensures shown == Shown(lines, side, lineStart, BEFORE_HUNKS)
    ensures selected == Select(lines, side, lineStart, lineEnd, BEFORE_HUNKS)
  {
    shown, selected := [], [];
    var start, skip, count := -1, false, 0;
    assert lines[0..] == lines;
    for i := 0 to |lines|
      invariant Shown(lines, side, lineStart, BEFORE_HUNKS)
             == shown + Shown(lines[i..], side, lineStart, Cursor(start, skip, count))
      invariant Select(lines, side, lineStart, lineEnd, BEFORE_HUNKS)
             == selected + Select(lines[i..], side, lineStart, lineEnd, Cursor(start, skip, count))
    {
      assert lines[i..][0] == lines[i] && lines[i..][1..] == lines[i + 1..];
      var seen: seq<PatchLine>, taken: seq<string> := [], [];
      match lines[i] {
        case Hdr(h) =>
          if !HasRemark(h.section) {
            var next := Enter(h, side, lineStart);
            start, skip, count := next.start, next.skip, next.count;
            if !skip {
              seen := [Txt(""), lines[i]];
            }
          }
        case Txt(t) =>
          if HasRemark(t) {
          } else if Marked(t) {
            skip := true;
          } else if !skip {
            if side != Other {
              if lineStart <= start + count <= lineEnd && (OnSide(t, side) || side == Right) {
                taken := [t];
              }
              if OnSide(t, side) {
                count := count + 1;
              }
            }
            seen := [lines[i]];
          }
      }
      Reassoc(shown, seen, Shown(lines[i + 1..], side, lineStart, Cursor(start, skip, count)));
      Reassoc(selected, taken, Select(lines[i + 1..], side, lineStart, lineEnd, Cursor(start, skip, count)));
      shown, selected := shown + seen, selected + taken;
    }
  }
}
