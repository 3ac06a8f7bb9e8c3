/**
 Widening hunks with file context (pr_agent/algo/git_patch_processing.py, process_patch_lines).

 `Extend` is the function the loops compute. The theorems about it are in PatchTheorems.
 */
module PatchExtension {
  import opened Bounds
  import opened Wrappers
  import opened PatchModel

  datatype Config = Config(before: int, after: int, allowDynamic: bool, dynamicBefore: int)

  /** Context limits with `before` lines ahead of the hunk, clipped at line 1 and at the old file's end. */
  function Limits(h: Header, before: int, after: int, oldLength: nat): Header {
    var start1, start2 := Max(1, h.start1 - before), Max(1, h.start2 - before);
    var size1, size2 := h.size1 + (h.start1 - start1) + after, h.size2 + (h.start2 - start2) + after;
    var over := start1 - 1 + size1 - oldLength;
    if over > 0 then Header(start1, Max(size1 - over, h.size1), start2, Max(size2 - over, h.size2), h.section)
    else Header(start1, size1, start2, size2, h.section)
  }

  /** Drops the first `i` leading context lines from what a header announces. */
  function Drop(h: Header, i: int): Header {
    Header(h.start1 + i, h.size1 - i, h.start2 + i, h.size2 - i, h.section)
  }

  /** Index of the first line holding the section text, or the length when there is none. */
  function FirstHolding(section: string, lines: seq<string>): (i: nat)
    ensures i <= |lines|
  {
    if lines == [] || Occurs(section, lines[0]) then 0 else 1 + FirstHolding(section, lines[1..])
  }

  /** Least `i` from `k` on whose suffixes agree, or the length of the first list when there is none. */
  function FirstShared(a: seq<string>, b: seq<string>, k: nat): (i: nat)
    requires k <= |a|
    ensures k <= i <= |a|
    ensures i < |a| ==> i <= |b| && a[i..] == b[i..]
    decreases |a| - k
  {
    if k == |a| || (k <= |b| && a[k..] == b[k..]) then k else FirstShared(a, b, k + 1)
  }

  /** The printed header, the context lines put before the hunk, and whether widening was abandoned. */
  datatype Placement = Placement(header: Header, lead: seq<string>, reset: bool)

  function Start(cfg: Config, base: seq<string>, head: seq<string>, h: Header): Header {
    if cfg.allowDynamic && head != [] then
      var d := Limits(h, cfg.dynamicBefore, cfg.after, |base|);
      var a, b := Slice(base, d.start1 - 1, h.start1 - 1), Slice(head, d.start2 - 1, h.start2 - 1);
      var i := FirstHolding(h.section, a);
      if i < |a| && a[i..] == Slice(b, i, |b|) then Drop(d, i).(section := "")
      else Limits(h, cfg.before, cfg.after, |base|)
    else Limits(h, cfg.before, cfg.after, |base|)
  }

  /** Leading context must be the same in both files: keep the longest shared suffix, else give up. */
  function Settle(base: seq<string>, head: seq<string>, h: Header, s: Header): Placement {
    var a := Slice(base, s.start1 - 1, h.start1 - 1);
    var b := Slice(head, s.start2 - 1, h.start2 - 1);
    if head == [] || a == b then Placement(s, a, false)
    else
      var i := FirstShared(a, b, 0);
      if i < |a| then Placement(Drop(s, i), a[i..], false)
      else Placement(h.(section := s.section), [], true)
  }

  function Place(cfg: Config, base: seq<string>, head: seq<string>, h: Header, valid: bool): Placement {
    if valid && (cfg.before > 0 || cfg.after > 0) then
      var p := Settle(base, head, h, Start(cfg, base, head, h));
      if !cfg.allowDynamic && FirstHolding(p.header.section, Context(p.lead)) < |p.lead|
      then p.(header := p.header.(section := "")) else p
    else Placement(h, [], false)
  }

  /** The first body line, when it is context, must stand at the announced place of the old file. */
  predicate MatchesFile(next: Option<PatchLine>, base: seq<string>, start1: int) {
    (next.Some? && next.value.Txt? && next.value.text != "" && next.value.text[0] == ' ') ==>
      var k := if start1 - 1 < 0 then start1 - 1 + |base| else start1 - 1;
      0 <= k < |base| ==> Strip(next.value.text) == Strip(base[k])
  }

  function First<T>(s: seq<T>): Option<T> {
    if s == [] then None else Some(s[0])
  }

  /** The hunk being read, if any, and whether it matched the file. */
  datatype Open = Open(hunk: Option<Header>, valid: bool)

  /** Context lines appended after the hunk being read. */
  function Trail(cfg: Config, base: seq<string>, st: Open): seq<string> {
    if st.valid && st.hunk.Some? && cfg.after > 0 then
      var e := st.hunk.value.start1 + st.hunk.value.size1 - 1;
      Slice(base, e, e + cfg.after)
    else []
  }

  function Extend(cfg: Config, base: seq<string>, head: seq<string>, lines: seq<PatchLine>, st: Open): seq<PatchLine>
    decreases |lines|
  {
    if lines == [] then Txts(Context(Trail(cfg, base, st)))
    else match lines[0]
      case Txt(_) => [lines[0]] + Extend(cfg, base, head, lines[1..], st)
      case Hdr(h) =>
        var valid := MatchesFile(First(lines[1..]), base, h.start1);
        var p := Place(cfg, base, head, h, valid);
        Txts(Context(Trail(cfg, base, st))) + ([Txt(""), Hdr(p.header)] + Txts(Context(p.lead)))
        + Extend(cfg, base, head, lines[1..], Open(Some(h), valid))
  }

  const NOTHING_OPEN := Open(None, true)

  // ----- the loops -----

  method FindSection(section: string, lines: seq<string>) returns (i: nat)
    ensures i == FirstHolding(section, lines)
  {
    i := 0;
    assert lines[0..] == lines;
    while i < |lines|
      invariant i <= |lines|
      invariant FirstHolding(section, lines) == i + FirstHolding(section, lines[i..])
    {
      if Occurs(section, lines[i]) {
        return;
      }
      assert lines[i..][1..] == lines[i + 1..];
      i := i + 1;
    }
  }

  method FindSharedSuffix(a: seq<string>, b: seq<string>) returns (i: nat)
    ensures i == FirstShared(a, b, 0)
  {
    i := 0;
    while i < |a|
      invariant i <= |a|
      invariant FirstShared(a, b, 0) == FirstShared(a, b, i)
    {
      if i <= |b| && a[i..] == b[i..] {
        return;
      }
      i := i + 1;
    }
  }

  method StartHunk(cfg: Config, base: seq<string>, head: seq<string>, h: Header) returns (extended: Header)
    ensures extended == Start(cfg, base, head, h)
  {
    extended := Limits(h, cfg.before, cfg.after, |base|);
    if cfg.allowDynamic && head != [] {
      var wide := Limits(h, cfg.dynamicBefore, cfg.after, |base|);
      var linesOld := Slice(base, wide.start1 - 1, h.start1 - 1);
      var linesNew := Slice(head, wide.start2 - 1, h.start2 - 1);
      var i := FindSection(h.section, linesOld);
      if i < |linesOld| && linesOld[i..] == Slice(linesNew, i, |linesNew|) {
        extended := Drop(wide, i).(section := "");
      }
    }
  }

  method SettleHunk(base: seq<string>, head: seq<string>, h: Header, extended: Header)
    returns (printed: Header, lead: seq<string>)
    ensures var p := Settle(base, head, h, extended);
            printed == p.header && lead == p.lead
  {
    printed := extended;
    lead := Slice(base, extended.start1 - 1, h.start1 - 1);
    if head != [] {
      var leadNew := Slice(head, extended.start2 - 1, h.start2 - 1);
      if lead != leadNew {
        var i := FindSharedSuffix(lead, leadNew);
        if i < |lead| {
          lead := lead[i..];
          printed := Drop(extended, i);
        } else {
          lead := [];
          printed := h.(section := extended.section);
        }
      }
    }
  }

  method PlaceHunk(cfg: Config, base: seq<string>, head: seq<string>, h: Header, valid: bool)
    returns (printed: Header, lead: seq<string>)
    ensures var p := Place(cfg, base, head, h, valid);
            printed == p.header && lead == p.lead
  {
    printed, lead := h, [];
    if valid && (cfg.before > 0 || cfg.after > 0) {
      var extended := StartHunk(cfg, base, head, h);
      printed, lead := SettleHunk(base, head, h, extended);
      if !cfg.allowDynamic {
        var i := FindSection(printed.section, Context(lead));
        if i < |lead| {
          printed := printed.(section := "");
        }
      }
    }
  }

  method ProcessPatchLines(cfg: Config, base: seq<string>, head: seq<string>, lines: seq<PatchLine>)
    returns (out: seq<PatchLine>)
    ensures out == Extend(cfg, base, head, lines, NOTHING_OPEN)
  {
    out := [];
    var hunk: Option<Header> := None;
    var valid := true;
    assert lines[0..] == lines;
    for i := 0 to |lines|
      invariant Extend(cfg, base, head, lines, NOTHING_OPEN)
             == out + Extend(cfg, base, head, lines[i..], Open(hunk, valid))
    {
      assert lines[i..][0] == lines[i] && lines[i..][1..] == lines[i + 1..];
      match lines[i]
      case Hdr(h) =>
        var tail := Trail(cfg, base, Open(hunk, valid));
        ghost var rest := Extend(cfg, base, head, lines[i..], Open(hunk, valid));
        valid := MatchesFile(First(lines[i + 1..]), base, h.start1);
        hunk := Some(h);
        var printed, lead := PlaceHunk(cfg, base, head, h, valid);
        ghost var next := Extend(cfg, base, head, lines[i + 1..], Open(hunk, valid));
        Append3(out, Txts(Context(tail)), [Txt(""), Hdr(printed)] + Txts(Context(lead)), next);
        out := out + Txts(Context(tail)) + ([Txt(""), Hdr(printed)] + Txts(Context(lead)));
      case Txt(_) =>
        Append3(out, [lines[i]], [], Extend(cfg, base, head, lines[i + 1..], Open(hunk, valid)));
        out := out + [lines[i]];
    }
    out := out + Txts(Context(Trail(cfg, base, Open(hunk, valid))));
  }

  lemma Append3<T>(out: seq<T>, a: seq<T>, b: seq<T>, rest: seq<T>)
    ensures out + (a + b + rest) == (out + a + b) + rest
    ensures b == [] ==> out + (a + rest) == (out + a) + rest
  {}
}
