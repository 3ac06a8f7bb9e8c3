/**
 Exactly which lines widening puts in front of a hunk, under which section text, and when it leaves a hunk alone
 (pr_agent/algo/git_patch_processing.py, process_patch_lines and check_if_hunk_lines_matches_to_file).
 */
module PatchContext {
  import opened Bounds
  import opened PatchExtension
  import opened PatchModel
  import opened PatchPlacement
  import opened PatchTheorems
  import opened PythonStrings
  import opened Sequences
  import opened Wrappers

  // ----- which hunks are widened at all -----

  /** The old file's line a hunk starts with, its last line for the number 0. */
  function LineAt(base: seq<string>, start1: nat): Option<string> {
    if start1 == 0 then (if base == [] then None else Some(base[|base| - 1]))
    else if start1 <= |base| then Some(base[start1 - 1]) else None
  }

  /** A hunk that begins with context which is not the old file's line there, white space around it aside. */
  predicate Misfits(base: seq<string>, h: Hunk)
    requires h.header.start1 >= 0
  {
    var line := LineAt(base, h.header.start1);
    h.body != [] && " " <= h.body[0] && line.Some? && Strip(h.body[0]) != Strip(line.value)
  }

  lemma ValidExactly(base: seq<string>, h: Hunk)
    requires h.header.start1 >= 0
    ensures Valid(base, h) <==> !Misfits(base, h)
  {
    hide Strip;
    if h.body != [] {
      assert " " <= h.body[0] <==> h.body[0] != "" && h.body[0][0] == ' ';
    }
  }

  /** Such a hunk, and every hunk when no lines are asked for, comes out as it went in. */
  lemma MisfitsStay(cfg: Config, base: seq<string>, head: seq<string>, h: Hunk)
    requires h.header.start1 >= 0 && (Misfits(base, h) || !Widens(cfg))
    ensures ExtendedHunk(cfg, base, head, h) == h
  {
    hide Strip, MatchesFile;
    ValidExactly(base, h);
    NoContext();
    Reassoc(h.body, [], []);
  }

  lemma NoContext()
    ensures Context([]) == []
  {}

  lemma {:induction false} LStripIs(s: string) returns (a: nat)
    ensures a <= |s| && LStrip(s) == s[a..] && (forall k :: 0 <= k < a ==> IsSpace(s[k]))
    ensures a < |s| ==> !IsSpace(s[a])
  {
    if s != "" && IsSpace(s[0]) {
      var b := LStripIs(s[1..]);
      a := b + 1;
      assert s[1..][b..] == s[a..];
    } else {
      a := 0;
    }
  }

  lemma {:induction false} RStripIs(s: string) returns (b: nat)
    ensures b <= |s| && RStrip(s) == s[..b] && (forall k :: b <= k < |s| ==> IsSpace(s[k]))
    ensures b > 0 ==> !IsSpace(s[b - 1])
  {
    if s != "" && IsSpace(s[|s| - 1]) {
      b := RStripIs(s[..|s| - 1]);
      assert s[..|s| - 1][..b] == s[..b];
    } else {
      b := |s|;
    }
  }

  /** Stripping takes the white space off both ends and nothing else. */
  lemma StripIs(s: string) returns (a: nat, b: nat)
    ensures a <= b <= |s| && Strip(s) == s[a..b]
    ensures forall k :: (0 <= k < a || b <= k < |s|) ==> IsSpace(s[k])
    ensures a < b ==> !IsSpace(s[a]) && !IsSpace(s[b - 1])
  {
    a := LStripIs(s);
    var n := RStripIs(s[a..]);
    b := a + n;
    assert s[a..][..n] == s[a..b];
    forall k | b <= k < |s| ensures IsSpace(s[k]) {
      assert s[a..][k - a] == s[k];
    }
    if a < b {
      assert s[a..][n - 1] == s[b - 1];
    }
  }

  // ----- the lines in front -----

  /** Both lists end with these lines. */
  predicate EndBoth(x: seq<string>, a: seq<string>, b: seq<string>) {
    |x| <= |a| && |x| <= |b| && a[|a| - |x|..] == x && b[|b| - |x|..] == x
  }

  lemma {:induction false} FirstSharedIsLongest(a: seq<string>, b: seq<string>, k: nat, m: nat)
    requires |a| == |b| && k <= m < |a| && a[m..] == b[m..]
    ensures FirstShared(a, b, k) <= m
    decreases |a| - k
  {
    if !(a[k..] == b[k..]) {
      assert k != m;
      FirstSharedIsLongest(a, b, k + 1, m);
    }
  }

  /** The section's line and all lines behind it, when the section is found above in both files. */
  ghost predicate FromSection(cfg: Config, base: seq<string>, h: Header, lead: seq<string>) {
    var above := Above(base, h.start1, cfg.dynamicBefore);
    && lead != [] && |lead| <= |above| && above[|above| - |lead|..] == lead
    && Occurs(h.section, lead[0])
    && forall k :: 0 <= k < |above| - |lead| ==> !Occurs(h.section, above[k])
  }

  /** Otherwise as many of the lines asked for as both files share in front of the hunk, if they are as many. */
  ghost predicate LongestShared(cfg: Config, base: seq<string>, head: seq<string>, h: Header, lead: seq<string>) {
    var a, b := Above(base, h.start1, cfg.before), Above(head, h.start2, cfg.before);
    if head == [] then lead == a
    else if |a| != |b| then lead == []
    else EndBoth(lead, a, b) && forall x :: EndBoth(x, a, b) ==> |x| <= |lead|
  }

  lemma {:induction false} FirstHoldingIs(section: string, lines: seq<string>)
    ensures var i := FirstHolding(section, lines);
            && (i < |lines| ==> Occurs(section, lines[i]))
            && (forall k :: 0 <= k < i ==> !Occurs(section, lines[k]))
  {
    hide Occurs;
    if lines != [] && !Occurs(section, lines[0]) {
      FirstHoldingIs(section, lines[1..]);
    }
  }

  /** What is settled on, from the lines the widening starts with. */
  lemma SettledLead(base: seq<string>, head: seq<string>, h: Header, s: Header)
    ensures var a, b := Slice(base, s.start1 - 1, h.start1 - 1), Slice(head, s.start2 - 1, h.start2 - 1);
            var p := Settle(base, head, h, s);
            && p.header.section == s.section
            && if head == [] || a == b then p.lead == a
               else if |a| != |b| then p.lead == []
               else EndBoth(p.lead, a, b) && forall x :: EndBoth(x, a, b) ==> |x| <= |p.lead|
  {
    hide Slice;
    var a, b := Slice(base, s.start1 - 1, h.start1 - 1), Slice(head, s.start2 - 1, h.start2 - 1);
    if head != [] && a != b {
      var i := FirstShared(a, b, 0);
      if |a| == |b| {
        forall x | EndBoth(x, a, b) ensures |x| <= |a| - i {
          if x != [] {
            FirstSharedIsLongest(a, b, 0, |a| - |x|);
          }
        }
        NoneShared(a, b);
      } else {
        SharedNeedsLength(a, b);
      }
    }
  }

  lemma NoneShared(a: seq<string>, b: seq<string>)
    requires |a| == |b|
    ensures EndBoth([], a, b) && EndBoth(a[FirstShared(a, b, 0)..], a, b)
  {}

  lemma SharedNeedsLength(a: seq<string>, b: seq<string>)
    requires |a| != |b|
    ensures FirstShared(a, b, 0) == |a|
  {
    FirstSharedIs(a, b, 0);
  }

  lemma EndsItself(a: seq<string>)
    ensures EndBoth(a, a, a) && forall x :: EndBoth(x, a, a) ==> |x| <= |a|
  {}

  /** Exactly the lines put in front of a hunk that is widened, whatever its header says. */
  lemma LeadIsExactly(cfg: Config, base: seq<string>, head: seq<string>, h: Header)
    requires Widens(cfg)
    ensures var lead := Place(cfg, base, head, h, true).lead;
            if SectionShared(cfg, base, head, h) then FromSection(cfg, base, h, lead)
            else LongestShared(cfg, base, head, h, lead)
  {
    hide Start, Settle, Slice, Above, Context, FirstHolding, Occurs, SectionShared, EndBoth;
    var s := Start(cfg, base, head, h);
    StartLeads(cfg, base, head, h);
    SettledLead(base, head, h, s);
    PlaceIsSettle(cfg, base, head, h);
    EndsItself(Above(base, h.start1, cfg.before));
    if SectionShared(cfg, base, head, h) {
      SectionLead(cfg, base, head, h);
    }
  }

  lemma SectionLead(cfg: Config, base: seq<string>, head: seq<string>, h: Header)
    requires SectionShared(cfg, base, head, h)
    ensures var s := Start(cfg, base, head, h); FromSection(cfg, base, h, Slice(base, s.start1 - 1, h.start1 - 1))
  {
    hide Slice, Occurs, Limits, FirstHolding;
    LimitsStart(h, cfg.dynamicBefore, cfg.after, |base|);
    var a, b := Above(base, h.start1, cfg.dynamicBefore), Above(head, h.start2, cfg.dynamicBefore);
    var i := FirstHolding(h.section, a);
    FirstHoldingIs(h.section, a);
    SuffixOf(a, b, i);
    SliceFurther(base, Max(1, h.start1 - cfg.dynamicBefore) - 1, h.start1 - 1, i);
    assert a[i..][0] == a[i];
  }

  // ----- the printed section -----

  /** The section text is dropped when the lines in front show it: found dynamically, or in static context. */
  ghost predicate ShowsSection(cfg: Config, base: seq<string>, head: seq<string>, h: Header) {
    if cfg.allowDynamic then SectionShared(cfg, base, head, h)
    else exists k :: 0 <= k < |Place(cfg, base, head, h, true).lead|
                     && Occurs(h.section, " " + Place(cfg, base, head, h, true).lead[k])
  }

  lemma StartSection(cfg: Config, base: seq<string>, head: seq<string>, h: Header)
    ensures Start(cfg, base, head, h).section == if SectionShared(cfg, base, head, h) then "" else h.section
  {
    hide Slice, FirstHolding;
    var a, b := Above(base, h.start1, cfg.dynamicBefore), Above(head, h.start2, cfg.dynamicBefore);
    var i := FirstHolding(h.section, a);
    LimitsStart(h, cfg.dynamicBefore, cfg.after, |base|);
    if cfg.allowDynamic && head != [] && i < |a| {
      SuffixOf(a, b, i);
    }
  }

  lemma {:induction false} ContextAt(lines: seq<string>, k: nat)
    ensures |Context(lines)| == |lines| && (k < |lines| ==> Context(lines)[k] == " " + lines[k])
  {
    if lines != [] {
      ContextAt(lines[1..], if k > 0 then k - 1 else 0);
    }
  }

  /** The header of a widened hunk keeps its section text, except where the lines in front show it. */
  lemma SectionIsExactly(cfg: Config, base: seq<string>, head: seq<string>, h: Header)
    requires Widens(cfg)
    ensures Place(cfg, base, head, h, true).header.section == if ShowsSection(cfg, base, head, h) then "" else h.section
  {
    hide Start, Settle, Slice, Context, FirstHolding, Occurs, SectionShared;
    var s := Start(cfg, base, head, h);
    var p := Settle(base, head, h, s);
    StartSection(cfg, base, head, h);
    SettledLead(base, head, h, s);
    PlaceIsSettle(cfg, base, head, h);
    if !cfg.allowDynamic {
      NoSectionShared(cfg, base, head, h);
      FirstHoldingIs(h.section, Context(p.lead));
      ContextAt(p.lead, 0);
      forall k | 0 <= k < |p.lead| ensures Context(p.lead)[k] == " " + p.lead[k] {
        ContextAt(p.lead, k);
      }
    }
  }

  lemma NoSectionShared(cfg: Config, base: seq<string>, head: seq<string>, h: Header)
    requires !cfg.allowDynamic
    ensures !SectionShared(cfg, base, head, h)
  {
    hide Above, FirstHolding;
  }
}
