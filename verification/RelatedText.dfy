/**
 The text format of related-file context (pr_agent/algo/related_files.py): lines, fences, escaped
 paths, and the parser that reads the format back.
 */
module RelatedText {
  import opened PythonStrings
  import opened Sequences
  import opened Wrappers

  // ----- lines -----

  predicate IsBreak(c: char) {
    c == '\n' || c == '\r' || c == '\U{0B}' || c == '\U{0C}' || c == '\U{1C}' || c == '\U{1D}' || c == '\U{1E}'
    || c == '\U{85}' || c == '\U{2028}' || c == '\U{2029}'
  }

  predicate OneLine(s: string) { forall k :: 0 <= k < |s| ==> !IsBreak(s[k]) }

  function FirstBreak(s: string): (k: nat)
    ensures k <= |s| && (forall i :: 0 <= i < k ==> !IsBreak(s[i])) && (k < |s| ==> IsBreak(s[k]))
  {
    if s == "" || IsBreak(s[0]) then 0 else 1 + FirstBreak(s[1..])
  }

  /** How many characters the break at `k` takes. */
  function BreakLength(s: string, k: nat): (n: nat)
    requires k < |s|
    ensures 1 <= n && k + n <= |s|
  {
    if s[k] == '\r' && k + 1 < |s| && s[k + 1] == '\n' then 2 else 1
  }

  function AfterBreak(s: string, k: nat): (rest: string)
    requires k < |s|
    ensures |rest| < |s|
  {
    s[k + BreakLength(s, k)..]
  }

  /** `str.splitlines`: a carriage return and line feed break once; a final break opens no line. */
  function SplitLines(s: string): seq<string>
    decreases |s|
  {
    if s == "" then []
    else
      var k := FirstBreak(s);
      if k == |s| then [s]
      else [s[..k]] + SplitLines(AfterBreak(s, k))
  }

  function Join(lines: seq<string>): string {
    if lines == [] then "" else if |lines| == 1 then lines[0] else lines[0] + "\n" + Join(lines[1..])
  }

  predicate Contains(s: string, t: string) {
    exists i :: 0 <= i <= |s| - |t| && s[i..][..|t|] == t
  }

  lemma ContainsShifts(s: string, n: nat, t: string)
    requires n <= |s| && Contains(s[n..], t)
    ensures Contains(s, t)
  {
    var i :| 0 <= i <= |s[n..]| - |t| && s[n..][i..][..|t|] == t;
    assert s[n..][i..] == s[n + i..];
  }

  lemma ContainsStart(s: string, k: nat)
    requires k <= |s|
    ensures Contains(s, s[..k])
  {
    assert s[0..][..k] == s[..k];
  }

  /** Every line of a text is a piece of it, and holds no line break. */
  lemma {:induction false} LinesArePieces(s: string, line: string)
    requires line in SplitLines(s)
    ensures Contains(s, line) && OneLine(line)
    decreases |s|
  {
    hide Contains;
    var k := FirstBreak(s);
    if line == s[..k] {
      ContainsStart(s, k);
    } else {
      var n := k + BreakLength(s, k);
      LinesArePieces(s[n..], line);
      ContainsShifts(s, n, line);
    }
  }

  const BREAKS := "\n\r\U{0B}\U{0C}\U{1C}\U{1D}\U{1E}\U{85}\U{2028}\U{2029}"

  predicate Breaks(sep: string) { sep == "\r\n" || (|sep| == 1 && sep[0] in BREAKS) }

  /** Each line with what breaks it off. */
  function Weave(lines: seq<string>, seps: seq<string>): string
    requires |lines| == |seps|
  {
    if lines == [] then "" else lines[0] + (seps[0] + Weave(lines[1..], seps[1..]))
  }

  /** Line `k` has no break in it and ends in a whole one, but that the last line may just end if it is not empty. */
  ghost predicate BrokenOff(lines: seq<string>, seps: seq<string>, k: nat)
    requires |lines| == |seps| && k < |lines|
  {
    && (forall c :: c in lines[k] ==> c !in BREAKS)
    && (Breaks(seps[k]) || (k == |lines| - 1 && seps[k] == "" && lines[k] != ""))
    && (seps[k] == "\r" && k + 1 < |lines| ==> !(lines[k + 1] == "" && "\n" <= seps[k + 1]))
  }

  lemma IsBreakIs(c: char)
    ensures IsBreak(c) <==> c in BREAKS
  {
    var b := BREAKS;
    assert b[0] == '\n' && b[1] == '\r' && b[2] == '\U{0B}' && b[3] == '\U{0C}' && b[4] == '\U{1C}';
    assert b[5] == '\U{1D}' && b[6] == '\U{1E}' && b[7] == '\U{85}' && b[8] == '\U{2028}' && b[9] == '\U{2029}';
  }

  lemma PieceHasNoBreak(s: string)
    requires OneLine(s)
    ensures forall c :: c in s ==> c !in BREAKS
  {
    hide IsBreak;
    forall c | c in s ensures c !in BREAKS {
      var k :| 0 <= k < |s| && s[k] == c;
      IsBreakIs(c);
    }
  }

  lemma BreakIs(s: string, k: nat)
    requires k < |s| && IsBreak(s[k])
    ensures k + BreakLength(s, k) <= |s| && Breaks(s[k..k + BreakLength(s, k)])
    ensures s[k..k + BreakLength(s, k)] == "\r" && k + 1 < |s| ==> s[k + 1] != '\n'
  {
    hide IsBreak;
    IsBreakIs(s[k]);
    assert s[k..k + 1] == [s[k]];
    if BreakLength(s, k) == 2 {
      assert s[k..k + 2] == [s[k], s[k + 1]];
    }
  }

  /** The lines of a text are read off it: the breaks between them, and nothing else, are left out. */
  lemma {:induction false} SplitLinesRead(s: string) returns (seps: seq<string>)
    ensures |seps| == |SplitLines(s)| && s == Weave(SplitLines(s), seps)
    ensures forall k :: 0 <= k < |seps| ==> BrokenOff(SplitLines(s), seps, k)
    decreases |s|
  {
    hide IsBreak, BreakLength, SplitLines, Weave, BrokenOff, Breaks, FirstBreak, OneLine;
    SplitFirst(s);
    if s == "" {
      seps := [];
      NothingWoven();
    } else {
      var k := FirstBreak(s);
      PieceHasNoBreak(s[..k]);
      if k == |s| {
        seps := [""];
        LastWoven(s);
      } else {
        BreakIs(s, k);
        var n := k + BreakLength(s, k);
        var rest := SplitLinesRead(s[n..]);
        seps := [s[k..n]] + rest;
        FirstWoven(s, k, n, SplitLines(s[n..]), rest);
      }
    }
  }

  lemma NothingWoven()
    ensures Weave([], []) == ""
  {}

  lemma SplitFirst(s: string)
    ensures s == "" ==> SplitLines(s) == []
    ensures s != "" ==>
              var k := FirstBreak(s);
              && OneLine(s[..k])
              && if k == |s| then SplitLines(s) == [s]
                 else
                   && IsBreak(s[k]) && 1 <= BreakLength(s, k) && k + BreakLength(s, k) <= |s|
                   && SplitLines(s) == [s[..k]] + SplitLines(s[k + BreakLength(s, k)..])
  {
    hide IsBreak, SplitLines;
    if FirstBreak(s) < |s| {
      FirstLine(s);
    } else {
      LastLine(s);
    }
  }

  lemma LastLine(s: string)
    requires FirstBreak(s) == |s|
    ensures SplitLines(s) == if s == "" then [] else [s]
  {}

  lemma FirstLine(s: string)
    requires FirstBreak(s) < |s|
    ensures var k := FirstBreak(s); SplitLines(s) == [s[..k]] + SplitLines(s[k + BreakLength(s, k)..])
  {
    hide SplitLines, FirstBreak, BreakLength, IsBreak;
    FirstUnfolds(s);
  }

  lemma FirstUnfolds(s: string)
    requires FirstBreak(s) < |s|
    ensures var k := FirstBreak(s); SplitLines(s) == [s[..k]] + SplitLines(AfterBreak(s, k))
  {
    hide FirstBreak, AfterBreak, IsBreak;
  }

  lemma WeaveStep(lines: seq<string>, seps: seq<string>)
    requires |lines| == |seps| && lines != []
    ensures Weave(lines, seps) == lines[0] + (seps[0] + Weave(lines[1..], seps[1..]))
  {}

  lemma LastWoven(s: string)
    requires s != "" && forall c :: c in s[..|s|] ==> c !in BREAKS
    ensures Weave([s], [""]) == s && BrokenOff([s], [""], 0)
  {
    assert s[..|s|] == s && [s][1..] == [];
    var none: seq<string> := [""];
    assert none[1..] == [];
    assert s + ("" + "") == s;
  }

  lemma FirstWoven(s: string, k: nat, n: nat, lines: seq<string>, rest: seq<string>)
    requires k < n <= |s| && |lines| == |rest| && s[n..] == Weave(lines, rest)
    requires (forall c :: c in s[..k] ==> c !in BREAKS) && Breaks(s[k..n])
    requires s[k..n] == "\r" && n < |s| ==> s[n] != '\n'
    requires forall i :: 0 <= i < |rest| ==> BrokenOff(lines, rest, i)
    ensures s == Weave([s[..k]] + lines, [s[k..n]] + rest)
    ensures forall i :: 0 <= i < |rest| + 1 ==> BrokenOff([s[..k]] + lines, [s[k..n]] + rest, i)
  {
    hide Breaks, Weave;
    var all, seps := [s[..k]] + lines, [s[k..n]] + rest;
    assert all[1..] == lines && seps[1..] == rest;
    assert s == s[..k] + (s[k..n] + s[n..]);
    WeaveStep(all, seps);
    if lines != [] {
      WeaveStep(lines, rest);
    }
    forall i | 0 <= i < |rest| + 1 ensures BrokenOff(all, seps, i) {
      if i > 0 {
        assert BrokenOff(lines, rest, i - 1);
      } else if lines != [] && lines[0] == "" && "\n" <= rest[0] {
        assert s[n..] == rest[0] + Weave(lines[1..], rest[1..]);
        assert s[n..][0] == s[n];
      }
    }
  }

  lemma {:induction false} BreakIsAt(s: string, t: string)
    requires OneLine(s)
    ensures FirstBreak(s + "\n" + t) == |s|
    ensures FirstBreak(s) == |s|
  {
    var whole := s + "\n" + t;
    if s == "" {
      assert whole == "\n" + t;
      assert whole[0] == '\n';
    } else {
      assert whole[0] == s[0] && whole[1..] == s[1..] + "\n" + t;
      BreakIsAt(s[1..], t);
    }
  }

  /** `str.split("\\n")`: only line feeds part the rows, and there is always one row. */
  function Rows(s: string): seq<string>
    decreases |s|
  {
    var k := FirstNewline(s);
    if k == |s| then [s] else [s[..k]] + Rows(s[k + 1..])
  }

  function FirstNewline(s: string): (k: nat)
    ensures k <= |s| && (k < |s| ==> s[k] == '\n')
  {
    if s == "" || s[0] == '\n' then 0 else 1 + FirstNewline(s[1..])
  }

  predicate OneRow(s: string) { forall k :: 0 <= k < |s| ==> s[k] != '\n' }

  /** The filter every path passes before it is rendered; it lets the wider line breaks through. */
  predicate IsSafePath(path: string) {
    && (exists c :: c in path && !IsSpace(c))
    && (forall c :: c in path ==> c >= ' ' && c != '\U{7F}')
  }

  lemma SafePathIsOneRow(path: string)
    requires IsSafePath(path)
    ensures OneRow(path)
  {
    forall k | 0 <= k < |path| ensures path[k] != '\n' {
      assert path[k] in path;
    }
  }

  lemma {:induction false} NewlineIsAt(s: string, t: string)
    requires OneRow(s)
    ensures FirstNewline(s + "\n" + t) == |s| && FirstNewline(s) == |s|
  {
    var whole := s + "\n" + t;
    if s == "" {
      assert whole[0] == '\n';
    } else {
      assert whole[0] == s[0] && whole[1..] == s[1..] + "\n" + t;
      NewlineIsAt(s[1..], t);
    }
  }

  /** Joining rows and splitting the text gives the rows back. */
  lemma {:induction false} SplitUndoesJoin(rows: seq<string>)
    requires rows != [] && forall k :: 0 <= k < |rows| ==> OneRow(rows[k])
    ensures Rows(Join(rows)) == rows
  {
    hide OneRow, Rows;
    if |rows| == 1 {
      LastRow(rows[0]);
      assert rows == [rows[0]];
    } else {
      SplitUndoesJoin(rows[1..]);
      RowStep(rows[0], Join(rows[1..]));
      assert rows == [rows[0]] + rows[1..];
    }
  }

  lemma LastRow(s: string)
    requires OneRow(s)
    ensures Rows(s) == [s]
  {
    hide OneRow;
    NewlineIsAt(s, "");
  }

  lemma RowStep(s: string, rest: string)
    requires OneRow(s)
    ensures Rows(s + "\n" + rest) == [s] + Rows(rest)
  {
    var whole := s + "\n" + rest;
    NewlineIsAt(s, rest);
    assert whole[|s|] == '\n' && whole[..|s|] == s && whole[|s| + 1..] == rest;
  }

  // ----- counting lines of joined rows -----

  /** A row whose last character does not break a line, so that the line feed after it is a break of its own. */
  predicate Solid(s: string) { s == "" || !IsBreak(s[|s| - 1]) }

  function LinesIn(row: string): nat { if row == "" then 1 else |SplitLines(row)| }

  function LineSum(rows: seq<string>): nat { if rows == [] then 0 else LinesIn(rows[0]) + LineSum(rows[1..]) }

  lemma SplitEmptyRow(rest: string)
    ensures SplitLines("\n" + rest) == [""] + SplitLines(rest)
  {
    assert ("\n" + rest)[0] == '\n' && ("\n" + rest)[1..] == rest && ("\n" + rest)[..0] == "";
  }

  /** A line feed after a solid row ends that row's last line. */
  lemma {:induction false} SplitStep(s: string, rest: string)
    requires Solid(s) && s != ""
    ensures SplitLines(s + "\n" + rest) == SplitLines(s) + SplitLines(rest)
    decreases |s|
  {
    hide *;
    if FirstBreak(s) == |s| {
      SplitLastLine(s, rest);
    } else {
      var n := SameBreak(s, rest);
      SplitStep(s[n..], rest);
      FirstLine(s);
      FirstLine(s + "\n" + rest);
      Reassoc([s[..FirstBreak(s)]], SplitLines(s[n..]), SplitLines(rest));
    }
  }

  lemma SplitLastLine(s: string, rest: string)
    requires FirstBreak(s) == |s| && s != ""
    ensures SplitLines(s + "\n" + rest) == SplitLines(s) + SplitLines(rest)
  {
    var whole := s + "\n" + rest;
    BreakIsAt(s, rest);
    assert whole[|s|] == '\n' && whole[..|s|] == s && whole[|s| + 1..] == rest;
  }

  /** The first break of a solid row is also the first of a text that goes on with a line feed. */
  lemma SameBreak(s: string, rest: string) returns (n: nat)
    requires Solid(s) && FirstBreak(s) < |s|
    ensures var k, whole := FirstBreak(s), s + "\n" + rest;
            && k < n == k + BreakLength(s, k) < |s| && FirstBreak(whole) == k && BreakLength(whole, k) == n - k
            && whole[..k] == s[..k] && whole[n..] == s[n..] + "\n" + rest && Solid(s[n..])
  {
    var k, whole := FirstBreak(s), s + "\n" + rest;
    assert whole == s + ("\n" + rest);
    FirstBreakStays(s, "\n" + rest);
    n := k + BreakLength(s, k);
    assert whole[k] == s[k] && k + 1 < |s| && whole[k + 1] == s[k + 1];
  }

  lemma {:induction false} FirstBreakStays(s: string, t: string)
    requires FirstBreak(s) < |s|
    ensures FirstBreak(s + t) == FirstBreak(s)
  {
    assert (s + t)[0] == s[0] && (s + t)[1..] == s[1..] + t;
    if !IsBreak(s[0]) {
      FirstBreakStays(s[1..], t);
    }
  }

  /** The lines of joined solid rows are those of the rows, one after the other. */
  lemma {:induction false} JoinedLines(rows: seq<string>)
    requires (forall k :: 0 <= k < |rows| ==> Solid(rows[k])) && rows != [] && rows[|rows| - 1] != ""
    ensures |SplitLines(Join(rows))| == LineSum(rows)
  {
    hide SplitLines, Solid;
    if |rows| == 1 {
      assert rows[1..] == [];
    } else {
      var rest := Join(rows[1..]);
      JoinedLines(rows[1..]);
      if rows[0] == "" {
        assert "" + "\n" + rest == "\n" + rest;
        SplitEmptyRow(rest);
      } else {
        SplitStep(rows[0], rest);
      }
    }
  }

  lemma {:induction false} LineSumConcat(a: seq<string>, b: seq<string>)
    ensures LineSum(a + b) == LineSum(a) + LineSum(b)
  {
    if a == [] {
      assert a + b == b;
    } else {
      assert (a + b)[1..] == a[1..] + b;
      LineSumConcat(a[1..], b);
    }
  }

  lemma OneLineIsOne(s: string)
    requires OneLine(s)
    ensures LinesIn(s) == 1 && Solid(s) && OneRow(s)
  {
    BreakIsAt(s, "");
  }

  lemma {:induction false} OneLineSum(rows: seq<string>)
    requires forall k :: 0 <= k < |rows| ==> OneLine(rows[k])
    ensures LineSum(rows) == |rows|
  {
    hide LinesIn, OneLine;
    if rows != [] {
      OneLineIsOne(rows[0]);
      OneLineSum(rows[1..]);
    }
  }

  // ----- escaped paths -----

  function EscapeOne(c: char): string {
    if c == '&' then "&amp;"
    else if c == '<' then "&lt;"
    else if c == '>' then "&gt;"
    else if c == '"' then "&quot;"
    else if c == '\'' then "&#x27;"
    else [c]
  }

  function Escape(s: string): string {
    if s == "" then "" else EscapeOne(s[0]) + Escape(s[1..])
  }

  /** The character an escaped text starts with, and how many characters spell it. */
  function UnescapeOne(s: string): (char, nat)
    requires s != ""
  {
    if |s| >= 5 && s[..5] == "&amp;" then ('&', 5)
    else if |s| >= 4 && s[..4] == "&lt;" then ('<', 4)
    else if |s| >= 4 && s[..4] == "&gt;" then ('>', 4)
    else if |s| >= 6 && s[..6] == "&quot;" then ('"', 6)
    else if |s| >= 6 && s[..6] == "&#x27;" then ('\'', 6)
    else (s[0], 1)
  }

  function Unescape(s: string): string
    decreases |s|
  {
    if s == "" then "" else [UnescapeOne(s).0] + Unescape(s[UnescapeOne(s).1..])
  }

  lemma UnescapeReads(c: char, rest: string)
    ensures EscapeOne(c) != "" && UnescapeOne(EscapeOne(c) + rest) == (c, |EscapeOne(c)|)
  {
    var s := EscapeOne(c) + rest;
    assert s[..|EscapeOne(c)|] == EscapeOne(c);
    assert s[0] == EscapeOne(c)[0];
    if |EscapeOne(c)| > 1 {
      assert s[1] == EscapeOne(c)[1];
      if c == '<' || c == '>' {
        if |s| >= 5 {
          assert s[..5][1] == s[1];
        }
      }
      if |s| >= 4 {
        assert s[..4][1] == s[1];
      }
      if |s| >= 5 {
        assert s[..5][1] == s[1];
      }
      if |s| >= 6 {
        assert s[..6][1] == s[1];
      }
    } else {
      if |s| >= 4 {
        assert s[..4][0] == s[0];
      }
      if |s| >= 5 {
        assert s[..5][0] == s[0];
      }
      if |s| >= 6 {
        assert s[..6][0] == s[0];
      }
    }
  }

  lemma {:induction false} UnescapeUndoesEscape(s: string)
    ensures Unescape(Escape(s)) == s
  {
    hide EscapeOne, UnescapeOne;
    if s != "" {
      UnescapeStep(s[0], Escape(s[1..]));
      UnescapeUndoesEscape(s[1..]);
    }
  }

  lemma UnescapeStep(c: char, rest: string)
    ensures Unescape(EscapeOne(c) + rest) == [c] + Unescape(rest)
  {
    hide EscapeOne, UnescapeOne;
    UnescapeReads(c, rest);
    assert (EscapeOne(c) + rest)[|EscapeOne(c)|..] == rest;
  }

  lemma {:induction false} EscapeStaysOneRow(s: string)
    requires OneRow(s)
    ensures OneRow(Escape(s))
  {
    if s != "" {
      EscapeStaysOneRow(s[1..]);
      assert OneRow(EscapeOne(s[0]));
    }
  }

  // ----- blocks -----

  const OPEN_TAG := "<file path=\""
  const OPEN_END := "\">"
  const CLOSE_TAG := "</file>"
  const LIST_TAG := "<related_files>"
  const LIST_END := "</related_files>"

  datatype Block = Block(path: string, body: seq<string>, fence: string)

  function OpenLine(path: string): string { OPEN_TAG + Escape(path) + OPEN_END }

  function BlockLines(b: Block): seq<string> {
    [OpenLine(b.path), b.fence] + b.body + [b.fence, CLOSE_TAG]
  }

  function AllLines(blocks: seq<Block>): seq<string> {
    if blocks == [] then [] else BlockLines(blocks[0]) + AllLines(blocks[1..])
  }

  /** The lines before the blocks: an introduction and the opening tag. */
  function Header(intro: seq<string>): seq<string> { intro + [LIST_TAG] }

  function Assemble(intro: seq<string>, blocks: seq<Block>): string {
    Join(Header(intro) + AllLines(blocks) + [LIST_END])
  }

  // ----- the parser -----

  /** How many lines come before the first one equal to the fence. */
  function UntilFence(lines: seq<string>, fence: string): nat {
    if lines == [] || lines[0] == fence then 0 else 1 + UntilFence(lines[1..], fence)
  }

  function PathOf(line: string): Option<string> {
    var n := |OPEN_TAG|;
    var m := |OPEN_END|;
    if |line| >= n + m && line[..n] == OPEN_TAG && line[|line| - m..] == OPEN_END then
      Some(Unescape(line[n..|line| - m]))
    else None
  }

  datatype Entry = Entry(path: string, body: seq<string>)

  /** Block after block, each read up to the first line equal to its own fence. */
  function Parse(lines: seq<string>): Option<seq<Entry>>
    decreases |lines|
  {
    if lines == [LIST_END] then Some([])
    else if |lines| < 2 || PathOf(lines[0]).None? then None
    else
      var fence, rest := lines[1], lines[2..];
      var n := UntilFence(rest, fence);
      if n + 1 >= |rest| || rest[n + 1] != CLOSE_TAG then None
      else
        var tail := Parse(rest[n + 2..]);
        if tail.None? then None else Some([Entry(PathOf(lines[0]).value, rest[..n])] + tail.value)
  }

  function ParseText(intro: seq<string>, text: string): Option<seq<Entry>> {
    var lines := Rows(text);
    var n := |Header(intro)|;
    if |lines| < n || lines[..n] != Header(intro) then None else Parse(lines[n..])
  }

  function Entries(blocks: seq<Block>): seq<Entry> {
    if blocks == [] then [] else [Entry(blocks[0].path, blocks[0].body)] + Entries(blocks[1..])
  }

  /** A path without a line feed, a fence that no line of the body equals, and nothing in them that breaks a line. */
  ghost predicate Fenced(b: Block) {
    && OneRow(b.path) && OneLine(b.fence)
    && (forall k :: 0 <= k < |b.body| ==> OneLine(b.body[k]) && b.body[k] != b.fence)
  }

  lemma {:induction false} UntilFenceIs(body: seq<string>, fence: string, rest: seq<string>)
    requires forall k :: 0 <= k < |body| ==> body[k] != fence
    ensures UntilFence(body + [fence] + rest, fence) == |body|
  {
    var lines := body + [fence] + rest;
    if body != [] {
      assert lines[0] == body[0] && lines[1..] == body[1..] + [fence] + rest;
      UntilFenceIs(body[1..], fence, rest);
    }
  }

  lemma PathReadsBack(path: string)
    ensures PathOf(OpenLine(path)) == Some(path)
  {
    var line := OpenLine(path);
    UnescapeUndoesEscape(path);
    assert line[..|OPEN_TAG|] == OPEN_TAG;
    assert line[|line| - |OPEN_END|..] == OPEN_END;
    assert line[|OPEN_TAG|..|line| - |OPEN_END|] == Escape(path);
  }

  lemma {:induction false} ParseUndoesBlocks(blocks: seq<Block>)
    requires forall k :: 0 <= k < |blocks| ==> Fenced(blocks[k])
    ensures Parse(AllLines(blocks) + [LIST_END]) == Some(Entries(blocks))
  {
    hide PathOf, OpenLine, OneLine, OneRow, BlockLines;
    if blocks == [] {
      assert AllLines(blocks) + [LIST_END] == [LIST_END];
    } else {
      var b := blocks[0];
      var more := AllLines(blocks[1..]) + [LIST_END];
      var lines := AllLines(blocks) + [LIST_END];
      ParseUndoesBlocks(blocks[1..]);
      PathReadsBack(b.path);
      UntilFenceIs(b.body, b.fence, [CLOSE_TAG] + more);
      var rest := b.body + [b.fence] + ([CLOSE_TAG] + more);
      SplitBlock(b, AllLines(blocks[1..]), rest);
      assert lines == [OpenLine(b.path), b.fence] + rest;
      assert rest[|b.body| + 1] == CLOSE_TAG && rest[..|b.body|] == b.body && rest[|b.body| + 2..] == more;
      assert lines[2..] == rest;
    }
  }

  lemma SplitBlock(b: Block, others: seq<string>, rest: seq<string>)
    requires rest == b.body + [b.fence] + ([CLOSE_TAG] + (others + [LIST_END]))
    ensures BlockLines(b) + others + [LIST_END] == [OpenLine(b.path), b.fence] + rest
  {}

  lemma {:induction false} AllOneRow(blocks: seq<Block>)
    requires forall k :: 0 <= k < |blocks| ==> Fenced(blocks[k])
    ensures forall k :: 0 <= k < |AllLines(blocks)| ==> OneRow(AllLines(blocks)[k]) && Solid(AllLines(blocks)[k])
  {
    if blocks != [] {
      hide OneRow, Solid, Fenced, BlockLines;
      AllOneRow(blocks[1..]);
      BlockOneRow(blocks[0]);
    }
  }

  lemma BlockOneRow(b: Block)
    requires Fenced(b)
    ensures forall k :: 0 <= k < |BlockLines(b)| ==> OneRow(BlockLines(b)[k]) && Solid(BlockLines(b)[k])
  {
    hide OneRow, OneLine, Solid, OpenLine;
    OpenIsOneRow(b.path);
    TagsAreOneLine();
    OneLineIsOne(b.fence);
    OneLineIsOne(CLOSE_TAG);
    forall k | 0 <= k < |b.body| ensures OneRow(b.body[k]) && Solid(b.body[k]) {
      OneLineIsOne(b.body[k]);
    }
  }

  lemma OpenIsOneRow(path: string)
    requires OneRow(path)
    ensures OneRow(OpenLine(path)) && Solid(OpenLine(path)) && OpenLine(path) != ""
  {
    EscapeStaysOneRow(path);
    assert OneRow(OPEN_TAG) && OneRow(OPEN_END);
    assert OpenLine(path)[|OpenLine(path)| - 1] == OPEN_END[1] == '>';
  }

  lemma Sections(head: seq<string>, middle: seq<string>, last: string)
    requires forall k :: 0 <= k < |head| ==> OneRow(head[k])
    requires forall k :: 0 <= k < |middle| ==> OneRow(middle[k])
    requires OneRow(last)
    ensures forall k :: 0 <= k < |head + middle + [last]| ==> OneRow((head + middle + [last])[k])
    ensures (head + middle + [last])[..|head|] == head
    ensures (head + middle + [last])[|head|..] == middle + [last]
  {
    hide OneRow;
  }

  lemma TagsAreOneLine()
    ensures OneLine(LIST_TAG) && OneLine(LIST_END) && OneLine(CLOSE_TAG)
  {}

  /** Whatever the files contain, the parser recovers exactly the blocks that were rendered. */
  lemma RenderedTextDecodes(intro: seq<string>, blocks: seq<Block>)
    requires forall k :: 0 <= k < |intro| ==> OneRow(intro[k])
    requires forall k :: 0 <= k < |blocks| ==> Fenced(blocks[k])
    ensures ParseText(intro, Assemble(intro, blocks)) == Some(Entries(blocks))
  {
    hide *;
    var lines := Header(intro) + AllLines(blocks) + [LIST_END];
    TextIs(intro, blocks);
    AllOneRow(blocks);
    HeaderRows(intro);
    Sections(Header(intro), AllLines(blocks), LIST_END);
    SplitUndoesJoin(lines);
    ParseTextIs(intro, Assemble(intro, blocks), AllLines(blocks) + [LIST_END]);
    ParseUndoesBlocks(blocks);
  }

  lemma TextIs(intro: seq<string>, blocks: seq<Block>)
    ensures Assemble(intro, blocks) == Join(Header(intro) + AllLines(blocks) + [LIST_END])
  {}

  lemma HeaderRows(intro: seq<string>)
    requires forall k :: 0 <= k < |intro| ==> OneRow(intro[k])
    ensures OneRow(LIST_END) && forall k :: 0 <= k < |Header(intro)| ==> OneRow(Header(intro)[k])
  {
    hide OneRow, OneLine;
    TagsAreOneLine();
    OneLineIsOne(LIST_TAG);
    OneLineIsOne(LIST_END);
  }

  lemma ParseTextIs(intro: seq<string>, text: string, tail: seq<string>)
    requires |Rows(text)| >= |Header(intro)|
    requires Rows(text)[..|Header(intro)|] == Header(intro) && Rows(text)[|Header(intro)|..] == tail
    ensures ParseText(intro, text) == Parse(tail)
  {
    hide Rows, Parse, Header;
  }
}
