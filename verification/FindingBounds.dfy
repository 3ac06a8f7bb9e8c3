/**
 The bounds on a review's findings (pr_agent/dashboard/storage.py): how many, how long each field, and
 how many bytes of text in all.
 */
module FindingBounds {
  import opened Bounds
  import opened Sequences
  import opened TextTruncation
  import opened Wrappers

  // ----- findings -----

  const MAX_FINDINGS := 30
  const FIELD_LIMITS: seq<nat> := [16, 4096, 16384, 65536]

  /** A finding's severity, file, summary and suggestion, in that order, and its line range. */
  datatype Raw = Raw(texts: seq<Text>, start: Option<int>, end: Option<int>)
  type Finding = f: Raw | |f.texts| == 4 witness Raw([[], [], [], []], None, None)

  function TotalBytes(texts: seq<Text>): nat {
    if texts == [] then 0 else Bytes(texts[0]) + TotalBytes(texts[1..])
  }

  function AllBytes(findings: seq<Finding>): nat {
    if findings == [] then 0 else TotalBytes(findings[0].texts) + AllBytes(findings[1..])
  }

  /** Field by field, each truncated to its own limit and to what is left of the total. */
  function BoundTexts(texts: seq<Text>, limits: seq<nat>, remaining: nat): (r: seq<Text>)
    requires |texts| == |limits|
    ensures |r| == |texts| && TotalBytes(r) <= remaining
  {
    if texts == [] then []
    else
      var t := Truncate(texts[0], Min(limits[0], remaining));
      TruncateIsExact(texts[0], Min(limits[0], remaining));
      [t] + BoundTexts(texts[1..], limits[1..], remaining - Bytes(t))
  }

  /** Entries that are not dictionaries are skipped. */
  function Bounded(issues: seq<Option<Finding>>, kept: nat, remaining: nat): seq<Finding> {
    if issues == [] || kept >= MAX_FINDINGS || remaining == 0 then []
    else if issues[0].None? then Bounded(issues[1..], kept, remaining)
    else
      var f := issues[0].value;
      var texts := BoundTexts(f.texts, FIELD_LIMITS, remaining);
      [f.(texts := texts)] + Bounded(issues[1..], kept + 1, remaining - TotalBytes(texts))
  }

  function Present(issues: seq<Option<Finding>>): seq<Finding> {
    if issues == [] then []
    else (if issues[0].Some? then [issues[0].value] else []) + Present(issues[1..])
  }

  /** A text cut to at most its limit. */
  ghost predicate Cut(kept: Text, given: Text, limit: nat) {
    Bytes(kept) <= limit && exists m {:trigger Truncate(given, m)} :: m <= limit && kept == Truncate(given, m)
  }

  /** A finding with its fields cut and nothing else changed. */
  ghost predicate Trims(kept: Finding, given: Finding) {
    && kept.start == given.start && kept.end == given.end
    && (forall k :: 0 <= k < 4 ==> Cut(kept.texts[k], given.texts[k], FIELD_LIMITS[k]))
  }

  lemma {:induction false} BoundTextsCut(texts: seq<Text>, limits: seq<nat>, remaining: nat, k: nat)
    requires |texts| == |limits| && k < |texts|
    ensures Cut(BoundTexts(texts, limits, remaining)[k], texts[k], limits[k])
  {
    hide Truncate, Bytes, Encode;
    var m := Min(limits[0], remaining);
    TruncateIsExact(texts[0], m);
    if k > 0 {
      BoundTextsCut(texts[1..], limits[1..], remaining - Bytes(Truncate(texts[0], m)), k - 1);
    }
  }

  lemma BoundedTrims(f: Finding, remaining: nat)
    ensures Trims(f.(texts := BoundTexts(f.texts, FIELD_LIMITS, remaining)), f)
  {
    hide BoundTexts, Cut;
    forall k | 0 <= k < 4
      ensures Cut(BoundTexts(f.texts, FIELD_LIMITS, remaining)[k], f.texts[k], FIELD_LIMITS[k])
    {
      BoundTextsCut(f.texts, FIELD_LIMITS, remaining, k);
    }
  }

  /** At most thirty findings, at most the byte total, each a trimmed version of the one given. */
  lemma {:induction false} BoundedKeepsBounds(issues: seq<Option<Finding>>, kept: nat, remaining: nat)
    ensures var r := Bounded(issues, kept, remaining);
            && |r| <= (if kept < MAX_FINDINGS then MAX_FINDINGS - kept else 0)
            && AllBytes(r) <= remaining
            && |r| <= |Present(issues)|
            && (forall k :: 0 <= k < |r| ==> Trims(r[k], Present(issues)[k]))
  {
    hide BoundTexts, TotalBytes, Trims;
    if issues != [] && kept < MAX_FINDINGS && remaining > 0 {
      if issues[0].None? {
        BoundedKeepsBounds(issues[1..], kept, remaining);
        assert [] + Present(issues[1..]) == Present(issues[1..]);
      } else {
        var f := issues[0].value;
        BoundedTrims(f, remaining);
        BoundedKeepsBounds(issues[1..], kept + 1, remaining - TotalBytes(BoundTexts(f.texts, FIELD_LIMITS, remaining)));
      }
    }
  }

  ghost predicate WithinLimits(texts: seq<Text>, limits: seq<nat>) {
    |texts| == |limits| && forall k :: 0 <= k < |texts| ==> Bytes(texts[k]) <= limits[k]
  }

  lemma SmallTextSurvives(s: Text, max: nat)
    requires Bytes(s) <= max
    ensures Truncate(s, max) == s
  {
    TruncateIsExact(s, max);
  }

  lemma {:induction false} SmallTextsSurvive(texts: seq<Text>, limits: seq<nat>, remaining: nat)
    requires WithinLimits(texts, limits) && TotalBytes(texts) <= remaining
    ensures BoundTexts(texts, limits, remaining) == texts
  {
    hide Truncate, Bytes, BoundTexts;
    if texts != [] {
      SmallTextSurvives(texts[0], Min(limits[0], remaining));
      SmallTextsSurvive(texts[1..], limits[1..], remaining - Bytes(texts[0]));
      OneMore(texts, limits, remaining, []);
      HeadTail(texts);
      Reassoc(BoundTexts(texts, limits, remaining), [], []);
    } else {
      NoTexts(texts, limits, remaining);
    }
  }

  lemma NoTexts(texts: seq<Text>, limits: seq<nat>, remaining: nat)
    requires texts == [] && limits == []
    ensures BoundTexts(texts, limits, remaining) == []
  {}

  /** Nothing is lost when at most thirty findings are given and everything is within its limits. */
  lemma {:induction false} SmallFindingsSurvive(issues: seq<Option<Finding>>, kept: nat, remaining: nat)
    requires forall f :: f in Present(issues) ==> WithinLimits(f.texts, FIELD_LIMITS)
    requires kept + |Present(issues)| <= MAX_FINDINGS && AllBytes(Present(issues)) < remaining
    ensures Bounded(issues, kept, remaining) == Present(issues)
  {
    hide WithinLimits, BoundTexts, TotalBytes;
    if issues != [] {
      var rest := Present(issues[1..]);
      if issues[0].None? {
        assert [] + rest == rest;
        SmallFindingsSurvive(issues[1..], kept, remaining);
      } else {
        var f := issues[0].value;
        assert ([f] + rest)[1..] == rest;
        SmallTextsSurvive(f.texts, FIELD_LIMITS, remaining);
        SmallFindingsSurvive(issues[1..], kept + 1, remaining - TotalBytes(f.texts));
      }
    }
  }

  // ----- no more is cut than the limits take -----

  /** The bytes given out before field `j` of finding `k`. */
  function Spent(r: seq<Finding>, k: nat, j: nat): nat
    requires k < |r| && j <= 4
  {
    AllBytes(r[..k]) + TotalBytes(r[k].texts[..j])
  }

  lemma {:induction false} FieldIsCut(texts: seq<Text>, limits: seq<nat>, remaining: nat, j: nat)
    requires |texts| == |limits| && j < |texts|
    ensures var r := BoundTexts(texts, limits, remaining);
            && TotalBytes(r[..j]) <= remaining
            && r[j] == Truncate(texts[j], Min(limits[j], remaining - TotalBytes(r[..j])))
    decreases j
  {
    hide Truncate, Bytes, BoundTexts;
    OneMore(texts, limits, remaining, []);
    var t := Truncate(texts[0], Min(limits[0], remaining));
    var rest: seq<Text> := BoundTexts(texts[1..], limits[1..], remaining - Bytes(t));
    var r: seq<Text> := [t] + rest;
    assert BoundTexts(texts, limits, remaining) == r by {
      Reassoc(BoundTexts(texts, limits, remaining), [], []);
      Reassoc(r, [], []);
    }
    if j == 0 {
      TotalNone();
      assert r[..0] == [];
    } else {
      FieldIsCut(texts[1..], limits[1..], remaining - Bytes(t), j - 1);
      assert r[..j][0] == t && r[..j][1..] == rest[..j - 1];
    }
  }

  /** Every field is cut to its own limit and to what the fields before it left of the budget, and no further. */
  ghost predicate CutInTurn(r: seq<Finding>, given: seq<Finding>, budget: nat, k: nat, j: nat)
    requires k < |r| && k < |given| && j < 4
  {
    && Spent(r, k, j) <= budget
    && r[k].texts[j] == Truncate(given[k].texts[j], Min(FIELD_LIMITS[j], budget - Spent(r, k, j)))
  }

  lemma FirstCutInTurn(f: Finding, rest: seq<Finding>, given: seq<Finding>, budget: nat, j: nat)
    requires j < 4 && given != [] && given[0] == f
    ensures var g := f.(texts := BoundTexts(f.texts, FIELD_LIMITS, budget)); CutInTurn([g] + rest, given, budget, 0, j)
  {
    hide BoundTexts, TotalBytes;
    FieldIsCut(f.texts, FIELD_LIMITS, budget, j);
    var r := [f.(texts := BoundTexts(f.texts, FIELD_LIMITS, budget))] + rest;
    assert r[..0] == [];
  }

  lemma LaterCutInTurn(g: Finding, rest: seq<Finding>, given: seq<Finding>, budget: nat, k: nat, j: nat)
    requires j < 4 && k < |rest| && k < |given| - 1 && TotalBytes(g.texts) <= budget
    requires CutInTurn(rest, given[1..], budget - TotalBytes(g.texts), k, j)
    ensures CutInTurn([g] + rest, given, budget, k + 1, j)
  {
    hide TotalBytes, Truncate;
    var r := [g] + rest;
    assert r[..k + 1][0] == g && r[..k + 1][1..] == rest[..k] && r[k + 1] == rest[k];
  }

  /** Findings are kept in order, each as long as may be, until thirty are kept or the budget is spent. */
  lemma {:induction false} NothingIsWasted(issues: seq<Option<Finding>>, kept: nat, remaining: nat)
    requires kept <= 30
    ensures var r, given := Bounded(issues, kept, remaining), Present(issues);
            && |r| <= |given| && |r| <= 30 - kept
            && (|r| < |given| ==> |r| == 30 - kept || AllBytes(r) == remaining)
            && (forall k, j :: 0 <= k < |r| && 0 <= j < 4 ==> CutInTurn(r, given, remaining, k, j))
    decreases |issues|
  {
    hide BoundTexts, TotalBytes, CutInTurn;
    if issues != [] && kept < 30 && remaining > 0 {
      var given := Present(issues[1..]);
      if issues[0].None? {
        NothingIsWasted(issues[1..], kept, remaining);
        assert [] + given == given;
      } else {
        var f := issues[0].value;
        var g := f.(texts := BoundTexts(f.texts, FIELD_LIMITS, remaining));
        var left := remaining - TotalBytes(g.texts);
        var rest := Bounded(issues[1..], kept + 1, left);
        NothingIsWasted(issues[1..], kept + 1, left);
        BoundedStep(issues, kept, remaining);
        assert ([f] + given)[1..] == given && ([g] + rest)[1..] == rest;
        forall k, j | 0 <= k < |rest| + 1 && 0 <= j < 4 ensures CutInTurn([g] + rest, [f] + given, remaining, k, j) {
          if k == 0 {
            FirstCutInTurn(f, rest, [f] + given, remaining, j);
          } else {
            LaterCutInTurn(g, rest, [f] + given, remaining, k - 1, j);
          }
        }
      }
    }
  }

  // ----- the loop -----

  /** One finding: its fields in order, each charged to the running remainder, which never goes below zero. */
  method BoundFinding(f: Finding, remaining: nat) returns (kept: Finding, left: nat)
    ensures kept == f.(texts := BoundTexts(f.texts, FIELD_LIMITS, remaining))
    ensures left == remaining - TotalBytes(kept.texts)
  {
    hide Truncate, Bytes, BoundTexts, TotalBytes;
    var texts: seq<Text> := [];
    left := remaining;
    assert f.texts[0..] == f.texts && FIELD_LIMITS[0..] == FIELD_LIMITS;
    var k := 0;
    Reassoc(BoundTexts(f.texts, FIELD_LIMITS, remaining), [], []);
    TotalNone();
    while k < 4
      invariant 0 <= k <= 4 && |texts| == k
      invariant texts + BoundTexts(f.texts[k..], FIELD_LIMITS[k..], left)
                == BoundTexts(f.texts, FIELD_LIMITS, remaining)
      invariant TotalBytes(texts) + left == remaining
    {
      var limit := if FIELD_LIMITS[k] < left then FIELD_LIMITS[k] else left;
      var text := Truncate(f.texts[k], limit);
      TruncateIsExact(f.texts[k], limit);
      OneMore(f.texts[k..], FIELD_LIMITS[k..], left, texts);
      assert f.texts[k..][1..] == f.texts[k + 1..] && FIELD_LIMITS[k..][1..] == FIELD_LIMITS[k + 1..];
      TotalAppend(texts, text);
      texts := texts + [text];
      left := left - Bytes(text);
      k := k + 1;
    }
    assert f.texts[4..] == [] && FIELD_LIMITS[4..] == [];
    NoTexts(f.texts[4..], FIELD_LIMITS[4..], left);
    assert texts + [] == texts;
    kept := f.(texts := texts);
  }

  lemma TotalNone()
    ensures TotalBytes([]) == 0
  {}

  lemma OneMore(texts: seq<Text>, limits: seq<nat>, left: nat, done: seq<Text>)
    requires |texts| == |limits| && texts != []
    ensures var t := Truncate(texts[0], Min(limits[0], left));
            Bytes(t) <= left &&
            done + BoundTexts(texts, limits, left) == done + [t] + BoundTexts(texts[1..], limits[1..], left - Bytes(t))
  {
    TruncateIsExact(texts[0], Min(limits[0], left));
  }

  lemma {:induction false} TotalAppend(texts: seq<Text>, t: Text)
    ensures TotalBytes(texts + [t]) == TotalBytes(texts) + Bytes(t)
  {
    if texts == [] {
      assert texts + [t] == [t] && [t][1..] == [];
    } else {
      assert (texts + [t])[1..] == texts[1..] + [t];
      TotalAppend(texts[1..], t);
    }
  }

  method BoundReviewIssues(issues: seq<Option<Finding>>, budget: nat) returns (bounded: seq<Finding>)
    ensures bounded == Bounded(issues, 0, budget)
  {
    hide BoundTexts, TotalBytes, Bounded;
    bounded := [];
    var remaining := budget;
    var i := 0;
    assert issues[0..] == issues;
    Reassoc(Bounded(issues, 0, budget), [], []);
    while i < |issues|
      invariant 0 <= i <= |issues|
      invariant bounded + Bounded(issues[i..], |bounded|, remaining) == Bounded(issues, 0, budget)
    {
      BoundedStep(issues[i..], |bounded|, remaining);
      if |bounded| >= MAX_FINDINGS || remaining == 0 {
        break;
      }
      assert issues[i..][1..] == issues[i + 1..];
      if issues[i].None? {
        i := i + 1;
        continue;
      }
      var kept, left := BoundFinding(issues[i].value, remaining);
      Reassoc(bounded, [kept], Bounded(issues[i + 1..], |bounded| + 1, left));
      remaining := left;
      bounded := bounded + [kept];
      i := i + 1;
    }
    BoundedNothing(|bounded|, remaining);
    assert issues[|issues|..] == [];
    Reassoc(bounded, [], []);
  }

  lemma BoundedNothing(kept: nat, remaining: nat)
    ensures Bounded([], kept, remaining) == []
  {}

  lemma BoundedStep(issues: seq<Option<Finding>>, kept: nat, remaining: nat)
    requires issues != []
    ensures Bounded(issues, kept, remaining)
            == if kept >= MAX_FINDINGS || remaining == 0 then []
               else if issues[0].None? then Bounded(issues[1..], kept, remaining)
               else
                 var f := issues[0].value;
                 var texts := BoundTexts(f.texts, FIELD_LIMITS, remaining);
                 [f.(texts := texts)] + Bounded(issues[1..], kept + 1, remaining - TotalBytes(texts))
  {
    hide BoundTexts, TotalBytes;
  }
}
