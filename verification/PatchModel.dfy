/**
 Unified-diff patches at line level (pr_agent/algo/git_patch_processing.py).

 A patch is a list of lines, each either a parsed hunk header or any other line. Files are lists of
 lines. `WellFormed` is the specification every patch theorem starts from: the two real files.
 */
module PatchModel {
  import opened DiffHeaders
  import opened PythonStrings
  import opened Sequences

  datatype Header = Header(start1: int, size1: int, start2: int, size2: int, section: string)

  /** `Txt` covers body lines, blank lines and lines that start with "@@" but are not hunk headers. */
  datatype PatchLine = Hdr(header: Header) | Txt(text: string)

  datatype Hunk = Hunk(header: Header, body: seq<string>)

  // ----- Python lists -----

  function Clamp(i: int, n: nat): (r: nat)
    ensures r <= n
  {
    if i < 0 then (if i + n < 0 then 0 else i + n) else if i > n then n else i
  }

  /** The slice s[lo:hi] of the source language, negative bounds and overruns included. */
  function Slice<T>(s: seq<T>, lo: int, hi: int): seq<T> {
    var a, b := Clamp(lo, |s|), Clamp(hi, |s|);
    if a <= b then s[a..b] else []
  }

  // ----- Python strings -----

  function LStrip(s: string): string {
    if s != "" && IsSpace(s[0]) then LStrip(s[1..]) else s
  }

  function RStrip(s: string): string {
    if s != "" && IsSpace(s[|s| - 1]) then RStrip(s[..|s| - 1]) else s
  }

  function Strip(s: string): string { RStrip(LStrip(s)) }

  predicate OccursAt(part: string, s: string, k: int) {
    0 <= k <= |s| - |part| && s[k..k + |part|] == part
  }

  predicate Occurs(part: string, s: string) {
    exists k :: 0 <= k <= |s| && OccursAt(part, s, k)
  }

  function LowerChar(c: char): char {
    if 'A' <= c <= 'Z' then c + ' ' else c
  }

  function Lower(s: string): string {
    seq(|s|, i requires 0 <= i < |s| => LowerChar(s[i]))
  }

  const NO_NEWLINE := "no newline at end of file"

  /** The numbering and selection loops drop every line holding this remark, in any letter case. */
  predicate HasRemark(s: string) { Occurs(NO_NEWLINE, Lower(s)) }

  /** A one-character prefix that is not the remark's first letter cannot create a remark. */
  lemma RemarkBehindPrefix(c: char, s: string)
    requires c in " +-" && HasRemark([c] + s)
    ensures HasRemark(s)
  {
    var w := Lower([c] + s);
    var k :| 0 <= k <= |w| && OccursAt(NO_NEWLINE, w, k);
    assert w == [LowerChar(c)] + Lower(s);
    assert w[0] != NO_NEWLINE[0];
    assert |NO_NEWLINE| <= |w| ==> w[0..|NO_NEWLINE|][0] == w[0];
    assert k != 0;
    assert Lower(s)[k - 1..k - 1 + |NO_NEWLINE|] == w[k..k + |NO_NEWLINE|];
    assert OccursAt(NO_NEWLINE, Lower(s), k - 1);
  }

  // ----- sides of a hunk body -----

  predicate IsMinus(s: string) { s != "" && s[0] == '-' }

  predicate IsPlus(s: string) { s != "" && s[0] == '+' }

  /** A body line a diff may print: content with its prefix, or the remark that starts with '\'. */
  predicate BodyLine(s: string) {
    s != "" && (s[0] in " +-" || (s[0] == '\\' && HasRemark(s)))
  }

  function OldSide(body: seq<string>): seq<string> {
    if body == [] then []
    else (if body[0] != "" && body[0][0] in " -" then [body[0][1..]] else []) + OldSide(body[1..])
  }

  function NewSide(body: seq<string>): seq<string> {
    if body == [] then []
    else (if body[0] != "" && body[0][0] in " +" then [body[0][1..]] else []) + NewSide(body[1..])
  }

  /** Plain file lines printed as context. */
  function Context(lines: seq<string>): seq<string> {
    if lines == [] then [] else [" " + lines[0]] + Context(lines[1..])
  }

  lemma {:induction false} SidesConcat(a: seq<string>, b: seq<string>)
    ensures OldSide(a + b) == OldSide(a) + OldSide(b)
    ensures NewSide(a + b) == NewSide(a) + NewSide(b)
  {
    if a == [] {
      assert a + b == b;
    } else {
      assert (a + b)[1..] == a[1..] + b && (a + b)[0] == a[0];
      SidesConcat(a[1..], b);
      var t := a[0];
      Reassoc(if t != "" && t[0] in " -" then [t[1..]] else [], OldSide(a[1..]), OldSide(b));
      Reassoc(if t != "" && t[0] in " +" then [t[1..]] else [], NewSide(a[1..]), NewSide(b));
    }
  }

  lemma {:induction false} SidesOfContext(lines: seq<string>)
    ensures OldSide(Context(lines)) == lines && NewSide(Context(lines)) == lines
    ensures |Context(lines)| == |lines|
  {
    if lines != [] {
      SidesOfContext(lines[1..]);
      assert (" " + lines[0])[1..] == lines[0];
      assert Context(lines)[1..] == Context(lines[1..]);
      assert lines == [lines[0]] + lines[1..];
    }
  }

  // ----- structured patches -----

  function Txts(body: seq<string>): seq<PatchLine> {
    if body == [] then [] else [Txt(body[0])] + Txts(body[1..])
  }

  /** The lines of a patch, with `sep` between the body of a hunk and the next header. */
  function Joined(hunks: seq<Hunk>, sep: seq<string>): seq<PatchLine> {
    if hunks == [] then []
    else [Hdr(hunks[0].header)]
         + (Txts(hunks[0].body) + (Txts(if |hunks| > 1 then sep else []) + Joined(hunks[1..], sep)))
  }

  function Flatten(hunks: seq<Hunk>): seq<PatchLine> { Joined(hunks, []) }

  lemma FlattenStep(hunks: seq<Hunk>)
    requires hunks != []
    ensures Flatten(hunks) == [Hdr(hunks[0].header)] + (Txts(hunks[0].body) + Flatten(hunks[1..]))
  {
    assert Txts([]) + Joined(hunks[1..], []) == Joined(hunks[1..], []);
  }

  /** Lines the loops treat as hunk headers before matching them. */
  predicate Marked(text: string) { |text| >= 2 && text[..2] == "@@" }

  predicate Unmarked(body: seq<string>) { forall s :: s in body ==> !Marked(s) }

  predicate StartsMarked(lines: seq<PatchLine>) {
    lines != [] && (lines[0].Hdr? || Marked(lines[0].text))
  }

  lemma {:induction false} TxtsConcat(a: seq<string>, b: seq<string>)
    ensures Txts(a + b) == Txts(a) + Txts(b)
  {
    if a == [] {
      assert a + b == b;
    } else {
      assert (a + b)[1..] == a[1..] + b;
      TxtsConcat(a[1..], b);
    }
  }

  function OldPos(h: Header): int { Position(h.start1, h.size1) }

  function NewPos(h: Header): int { Position(h.start2, h.size2) }

  /** The header counts this line of the new file among its own. */
  predicate Covers(h: Header, line: int) { h.start2 <= line < h.start2 + h.size2 }

  /** One hunk between the two files: both sides stand where the header says, and something changes. */
  predicate HunkFits(h: Hunk, base: seq<string>, head: seq<string>) {
    && 0 <= OldPos(h.header) && 0 <= h.header.size1 && OldPos(h.header) + h.header.size1 <= |base|
    && 0 <= NewPos(h.header) && 0 <= h.header.size2 && NewPos(h.header) + h.header.size2 <= |head|
    && OldSide(h.body) == base[OldPos(h.header)..OldPos(h.header) + h.header.size1]
    && NewSide(h.body) == head[NewPos(h.header)..NewPos(h.header) + h.header.size2]
    && (forall s :: s in h.body ==> BodyLine(s))
    && (exists s :: s in h.body && (IsPlus(s) || IsMinus(s)))
  }

  /** The hunks turn old lines from `i` on into new lines from `j` on, and nothing else differs. */
  predicate WellFormed(hunks: seq<Hunk>, base: seq<string>, head: seq<string>, i: nat, j: nat)
    requires i <= |base| && j <= |head|
    decreases |hunks|
  {
    if hunks == [] then base[i..] == head[j..]
    else
      var h := hunks[0].header;
      && HunkFits(hunks[0], base, head)
      && i <= OldPos(h) && j <= NewPos(h)
      && base[i..OldPos(h)] == head[j..NewPos(h)]
      && WellFormed(hunks[1..], base, head, OldPos(h) + h.size1, NewPos(h) + h.size2)
  }

  lemma {:induction false} WellFormedFits(hunks: seq<Hunk>, base: seq<string>, head: seq<string>, i: nat, j: nat)
    requires i <= |base| && j <= |head| && WellFormed(hunks, base, head, i, j)
    ensures forall h :: h in hunks ==> HunkFits(h, base, head)
    decreases |hunks|
  {
    if hunks != [] {
      var h := hunks[0].header;
      WellFormedFits(hunks[1..], base, head, OldPos(h) + h.size1, NewPos(h) + h.size2);
    }
  }

  lemma FitsIsSized(h: Hunk, base: seq<string>, head: seq<string>)
    requires HunkFits(h, base, head)
    ensures 0 <= OldPos(h.header) && 0 <= h.header.size1 && OldPos(h.header) + h.header.size1 <= |base|
    ensures 0 <= NewPos(h.header) && 0 <= h.header.size2 && NewPos(h.header) + h.header.size2 <= |head|
    ensures NewSide(h.body) == head[NewPos(h.header)..NewPos(h.header) + h.header.size2]
  {}

  /** What is left of a well-formed patch after its first hunk. */
  lemma FirstHunk(hunks: seq<Hunk>, base: seq<string>, head: seq<string>, i: nat, j: nat) returns (next: nat, new2: nat)
    requires i <= |base| && j <= |head| && WellFormed(hunks, base, head, i, j) && hunks != []
    ensures HunkFits(hunks[0], base, head) && hunks[0].header.size2 >= 0
    ensures next <= |base| && new2 <= |head| && WellFormed(hunks[1..], base, head, next, new2)
    ensures next == OldPos(hunks[0].header) + hunks[0].header.size1
            && new2 == NewPos(hunks[0].header) + hunks[0].header.size2
  {
    var h := hunks[0].header;
    FitsIsSized(hunks[0], base, head);
    next, new2 := OldPos(h) + h.size1, NewPos(h) + h.size2;
  }
}
