/**
 Which lines widening puts in front of a hunk and when it gives up, read off the files and the hunk header
 (pr_agent/algo/git_patch_processing.py, process_patch_lines).
 */
module PatchPlacement {
  import opened Bounds
  import opened PatchExtension
  import opened PatchModel

  predicate Widens(cfg: Config) { cfg.before > 0 || cfg.after > 0 }

  /** At most `reach` lines of a file in front of a line number, as the widening loop slices them. */
  function Above(file: seq<string>, start: int, reach: int): seq<string> {
    Slice(file, Max(1, start - reach) - 1, start - 1)
  }

  /** All of a file but its last line: what a slice that ends at -1 holds. */
  function AllButLast(file: seq<string>): (n: nat)
    ensures n <= |file|
  {
    if file == [] then 0 else |file| - 1
  }

  /** The lines right above; for the number 0 all lines but the last, counted from the end of the file. */
  lemma AboveIs(file: seq<string>, start: int, reach: nat)
    requires 0 <= start <= |file| + 1
    ensures Above(file, start, reach)
            == if start == 0 then file[..AllButLast(file)] else file[start - 1 - Min(reach, start - 1)..start - 1]
  {}

  /** The lines above in the two files differ in number or in the last one: no suffix but the empty one is shared. */
  predicate Clash(a: seq<string>, b: seq<string>) { |a| != |b| || (a != [] && a[|a| - 1] != b[|b| - 1]) }

  /** From the first line above that holds the section text on, both files agree. */
  predicate SectionShared(cfg: Config, base: seq<string>, head: seq<string>, h: Header) {
    var a, b := Above(base, h.start1, cfg.dynamicBefore), Above(head, h.start2, cfg.dynamicBefore);
    var i := FirstHolding(h.section, a);
    cfg.allowDynamic && head != [] && i < |a| && |a| == |b| && a[i..] == b[i..]
  }

  /** Widening in front is given up. */
  predicate Abandons(cfg: Config, base: seq<string>, head: seq<string>, h: Header) {
    && Widens(cfg) && head != [] && !SectionShared(cfg, base, head, h)
    && Clash(Above(base, h.start1, cfg.before), Above(head, h.start2, cfg.before))
  }

  /** Some line is put in front. */
  predicate Leads(cfg: Config, base: seq<string>, head: seq<string>, h: Header) {
    && Widens(cfg) && !Abandons(cfg, base, head, h)
    && (SectionShared(cfg, base, head, h) || Above(base, h.start1, cfg.before) != [])
  }

  /** Some line of the old file is left behind the hunk, to be put there. */
  predicate Trails(cfg: Config, base: seq<string>, h: Header) { cfg.after > 0 && h.start1 - 1 + h.size1 < |base| }

  /** The shared suffix is looked for at every index, yet its last line and the two lengths decide. */
  lemma {:induction false} FirstSharedIs(a: seq<string>, b: seq<string>, k: nat)
    requires k <= |a|
    ensures FirstShared(a, b, k) < |a| <==> k < |a| && !Clash(a, b)
    decreases |a| - k
  {
    if k < |a| {
      SharedSuffix(a, b, k);
      if !(k <= |b| && a[k..] == b[k..]) {
        FirstSharedIs(a, b, k + 1);
      }
    }
  }

  lemma SharedSuffix(a: seq<string>, b: seq<string>, k: nat)
    requires k < |a|
    ensures k <= |b| && a[k..] == b[k..] ==> !Clash(a, b)
    ensures k + 1 == |a| && !Clash(a, b) ==> k <= |b| && a[k..] == b[k..]
  {
    if k <= |b| && a[k..] == b[k..] {
      assert |a[k..]| == |b[k..]| && a[k..][|a| - k - 1] == b[k..][|b| - k - 1];
    }
  }

  lemma SliceFurther(file: seq<string>, lo: nat, hi: int, i: nat)
    requires i <= |Slice(file, lo, hi)|
    ensures Slice(file, lo + i, hi) == Slice(file, lo, hi)[i..]
  {}

  lemma LimitsStart(h: Header, before: int, after: int, oldLength: nat)
    ensures var s := Limits(h, before, after, oldLength);
            s.start1 == Max(1, h.start1 - before) && s.start2 == Max(1, h.start2 - before)
  {}

  /** The lines in front of the header a widening starts from. */
  lemma StartLeads(cfg: Config, base: seq<string>, head: seq<string>, h: Header)
    ensures var s := Start(cfg, base, head, h);
            var a, b := Slice(base, s.start1 - 1, h.start1 - 1), Slice(head, s.start2 - 1, h.start2 - 1);
            if SectionShared(cfg, base, head, h) then a == b && a != []
            else a == Above(base, h.start1, cfg.before) && b == Above(head, h.start2, cfg.before)
  {
    hide Slice, FirstHolding, Limits;
    LimitsStart(h, cfg.before, cfg.after, |base|);
    LimitsStart(h, cfg.dynamicBefore, cfg.after, |base|);
    var a, b := Above(base, h.start1, cfg.dynamicBefore), Above(head, h.start2, cfg.dynamicBefore);
    var i := FirstHolding(h.section, a);
    if cfg.allowDynamic && head != [] && i < |a| {
      SuffixOf(a, b, i);
      SliceFurther(base, Max(1, h.start1 - cfg.dynamicBefore) - 1, h.start1 - 1, i);
      if i <= |b| {
        SliceFurther(head, Max(1, h.start2 - cfg.dynamicBefore) - 1, h.start2 - 1, i);
      }
    }
  }

  lemma SuffixOf(a: seq<string>, b: seq<string>, i: nat)
    requires i < |a|
    ensures a[i..] == Slice(b, i, |b|) <==> |a| == |b| && a[i..] == b[i..]
  {
    if a[i..] == Slice(b, i, |b|) {
      assert |a[i..]| == |a| - i;
    }
  }

  /** For every configuration, all files and every header: when a valid hunk's widening is given up, and when not. */
  lemma AbandonsExactly(cfg: Config, base: seq<string>, head: seq<string>, h: Header)
    ensures var p := Place(cfg, base, head, h, true);
            && (p.reset <==> Abandons(cfg, base, head, h))
            && (p.lead != [] <==> Leads(cfg, base, head, h))
  {
    hide Start, Slice, FirstShared, FirstHolding, SectionShared, Clash, Context, Above;
    if Widens(cfg) {
      var s := Start(cfg, base, head, h);
      var a, b := Slice(base, s.start1 - 1, h.start1 - 1), Slice(head, s.start2 - 1, h.start2 - 1);
      StartLeads(cfg, base, head, h);
      FirstSharedIs(a, b, 0);
      NoClash(a, b);
    }
  }

  lemma NoClash(a: seq<string>, b: seq<string>)
    ensures a == b ==> !Clash(a, b)
    ensures a == [] && b != [] ==> Clash(a, b)
    ensures !Clash(a, b) && a == [] ==> b == []
  {}

  /**
   With both files supplied and static context: widening is given up exactly when the two starts leave room for
   different numbers of lines, or the lines right above differ.
   */
  lemma AbandonsInside(cfg: Config, base: seq<string>, head: seq<string>, h: Header)
    requires cfg.before >= 0 && 1 <= h.start1 <= |base| + 1 && 1 <= h.start2 <= |head| + 1
    requires Widens(cfg) && head != [] && !SectionShared(cfg, base, head, h)
    ensures var room1, room2 := Min(cfg.before, h.start1 - 1), Min(cfg.before, h.start2 - 1);
            Abandons(cfg, base, head, h)
            <==> room1 != room2 || (room1 > 0 && base[h.start1 - 2] != head[h.start2 - 2])
  {
    hide SectionShared, Above;
    AboveIs(base, h.start1, cfg.before);
    AboveIs(head, h.start2, cfg.before);
  }
}
