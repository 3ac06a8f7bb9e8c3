/**
 Fingerprint markers in comment bodies (pr_agent/algo/inline_comment_dedup.py): appending them within a
 length limit, finding them again, and stripping them.
 */
module InlineMarkers {
  import opened Wrappers

  const BODY := "<!-- pr-agent-dedup: "
  const CODE := "<!-- pr-agent-dedup-code: "
  const LOCATION := "<!-- pr-agent-key-issue-location: "
  const ANCHOR := "<!-- pr-agent-key-issue-anchor: "
  const END := " -->"
  const DIGITS: nat := 12

  predicate IsTag(tag: string) { tag == BODY || tag == CODE || tag == LOCATION || tag == ANCHOR }

  predicate IsHex(c: char) { '0' <= c <= '9' || 'a' <= c <= 'f' }

  /** Twelve hexadecimal digits. */
  predicate IsFingerprint(f: string) { |f| == DIGITS && forall k :: 0 <= k < |f| ==> IsHex(f[k]) }

  function Length(tag: string): nat { |tag| + DIGITS + |END| }

  /** A well-formed marker starts here. */
  predicate Matches(s: string, tag: string) {
    && |s| >= Length(tag) && s[..|tag|] == tag
    && IsFingerprint(s[|tag|..|tag| + DIGITS]) && s[|tag| + DIGITS..Length(tag)] == END
  }

  // ----- scanning, leftmost and without overlap -----

  function Find(s: string, tag: string): set<string>
    decreases |s|
  {
    if s == "" then {}
    else if Matches(s, tag) then {s[|tag|..|tag| + DIGITS]} + Find(s[Length(tag)..], tag)
    else Find(s[1..], tag)
  }

  function Remove(s: string, tag: string): string
    decreases |s|
  {
    if s == "" then ""
    else if Matches(s, tag) then Remove(s[Length(tag)..], tag)
    else [s[0]] + Remove(s[1..], tag)
  }

  function MarkerFingerprints(s: string): set<string> {
    Find(s, BODY) + Find(s, CODE) + Find(s, LOCATION) + Find(s, ANCHOR)
  }

  function StripMarkers(s: string): string {
    Remove(Remove(Remove(Remove(s, BODY), CODE), LOCATION), ANCHOR)
  }

  // ----- appending -----

  datatype Marker = Marker(tag: string, fingerprint: string)

  ghost predicate Proper(m: Marker) { IsTag(m.tag) && IsFingerprint(m.fingerprint) }

  function Render(m: Marker): string { m.tag + m.fingerprint + END }

  function Suffix(markers: seq<Marker>): string { "\n\n" + Lines(markers) }

  function Lines(markers: seq<Marker>): string {
    if markers == [] then ""
    else if |markers| == 1 then Render(markers[0])
    else Render(markers[0]) + "\n" + Lines(markers[1..])
  }

  /** The body is clipped, never the markers; a limit of zero is no limit. */
  function Clipped(body: string, markers: seq<Marker>, maxChars: Option<int>): string {
    var n := |Suffix(markers)|;
    if maxChars.Some? && maxChars.value != 0 && |body| + n > maxChars.value then
      body[..if maxChars.value > n then maxChars.value - n else 0]
    else body
  }

  function AppendMarkers(body: string, markers: seq<Marker>, maxChars: Option<int>): string {
    Clipped(body, markers, maxChars) + Suffix(markers)
  }

  // ----- a line break separates what is scanned -----

  predicate NoBreak(s: string) { forall k :: 0 <= k < |s| ==> s[k] != '\n' }

  lemma TagsHaveNoBreak(tag: string)
    requires IsTag(tag)
    ensures tag != "" && NoBreak(tag) && tag[0] == '<'
  {}

  lemma MatchHasNoBreak(s: string, tag: string, k: nat)
    requires IsTag(tag) && Matches(s, tag) && k < Length(tag)
    ensures s[k] != '\n'
  {
    hide IsTag;
    TagsHaveNoBreak(tag);
    if k < |tag| {
      assert s[k] == s[..|tag|][k];
    } else if k < |tag| + DIGITS {
      assert s[k] == s[|tag|..|tag| + DIGITS][k - |tag|];
    } else {
      assert s[k] == END[k - |tag| - DIGITS];
    }
  }

  /** A match never reaches across a line break. */
  lemma MatchStaysInLine(a: string, b: string, tag: string)
    requires IsTag(tag)
    ensures Matches(a + "\n" + b, tag) <==> Matches(a, tag)
    ensures Matches(a, tag) ==> (a + "\n" + b)[Length(tag)..] == a[Length(tag)..] + "\n" + b
    ensures Matches(a, tag) ==> (a + "\n" + b)[|tag|..|tag| + DIGITS] == a[|tag|..|tag| + DIGITS]
  {
    hide IsTag;
    var s := a + "\n" + b;
    assert s[|a|] == '\n';
    if |a| >= Length(tag) {
      assert s[..|tag|] == a[..|tag|];
      assert s[|tag|..|tag| + DIGITS] == a[|tag|..|tag| + DIGITS];
      assert s[|tag| + DIGITS..Length(tag)] == a[|tag| + DIGITS..Length(tag)];
    } else if Matches(s, tag) {
      MatchHasNoBreak(s, tag, |a|);
    }
  }

  lemma {:induction false} ScansSplit(a: string, b: string, tag: string)
    requires IsTag(tag)
    ensures Find(a + "\n" + b, tag) == Find(a, tag) + Find(b, tag)
    ensures Remove(a + "\n" + b, tag) == Remove(a, tag) + "\n" + Remove(b, tag)
    decreases |a|
  {
    hide Matches, IsTag;
    var s := a + "\n" + b;
    MatchStaysInLine(a, b, tag);
    if a == "" {
      assert s[1..] == b && s[0] == '\n';
      EmptyHasNoMatch(tag);
    } else if Matches(a, tag) {
      MatchIsLong(a, tag);
      ScansSplit(a[Length(tag)..], b, tag);
    } else {
      assert s[1..] == a[1..] + "\n" + b && s[0] == a[0];
      ScansSplit(a[1..], b, tag);
      Reassociate([a[0]], Remove(a[1..], tag), Remove(b, tag));
    }
  }

  lemma EmptyHasNoMatch(tag: string)
    ensures !Matches("", tag) && Find("", tag) == {} && Remove("", tag) == ""
  {}

  lemma MatchIsLong(s: string, tag: string)
    requires Matches(s, tag)
    ensures |s| >= Length(tag)
  {}

  lemma Reassociate(a: string, b: string, c: string)
    ensures a + (b + "\n" + c) == a + b + "\n" + c
  {}

  // ----- one marker -----

  lemma TagsDiffer(a: string, b: string) returns (k: nat)
    requires IsTag(a) && IsTag(b) && a != b
    ensures k < |a| && k < |b| && a[k] != b[k]
  {
    k := if a[14] != b[14] then 14 else if a[19] != b[19] then 19 else 24;
  }

  lemma OtherTagsDiffer(m: Marker, tag: string)
    requires Proper(m) && IsTag(tag) && tag != m.tag
    ensures !Matches(Render(m), tag)
  {
    hide IsTag;
    var s := Render(m);
    var k := TagsDiffer(m.tag, tag);
    assert s[k] == m.tag[k];
    if |s| >= |tag| {
      assert s[..|tag|][k] == s[k];
    }
  }

  /** Where nothing opens, nothing is found or removed. */
  lemma {:induction false} NothingOpens(s: string, tag: string)
    requires IsTag(tag) && forall k :: 0 <= k < |s| ==> s[k] != '<'
    ensures Find(s, tag) == {} && Remove(s, tag) == s
    decreases |s|
  {
    if s != "" {
      TagsHaveNoBreak(tag);
      if |s| >= |tag| {
        assert s[..|tag|][0] == s[0];
      }
      NothingOpens(s[1..], tag);
      assert s == [s[0]] + s[1..];
    }
  }

  lemma MarkerOpensOnce(m: Marker)
    requires Proper(m)
    ensures forall k :: 1 <= k < |Render(m)| ==> Render(m)[k] != '<'
    ensures Matches(Render(m), m.tag) && Render(m)[|m.tag|..|m.tag| + DIGITS] == m.fingerprint
    ensures |Render(m)| == Length(m.tag)
  {
    var s := Render(m);
    TagOpensOnce(m.tag);
    forall k | 1 <= k < |s| ensures s[k] != '<' {
      if |m.tag| <= k < |m.tag| + DIGITS {
        assert s[k] == m.fingerprint[k - |m.tag|] && IsHex(s[k]);
      } else if k < |m.tag| {
        assert s[k] == m.tag[k];
      } else {
        assert s[k] == END[k - |m.tag| - DIGITS];
      }
    }
    assert s[..|m.tag|] == m.tag && s[|m.tag|..|m.tag| + DIGITS] == m.fingerprint && s[|m.tag| + DIGITS..] == END;
  }

  lemma TagOpensOnce(tag: string)
    requires IsTag(tag)
    ensures forall k :: 1 <= k < |tag| ==> tag[k] != '<'
  {}

  lemma OneMarker(m: Marker, tag: string)
    requires Proper(m) && IsTag(tag)
    ensures Find(Render(m), tag) == if tag == m.tag then {m.fingerprint} else {}
    ensures Remove(Render(m), tag) == if tag == m.tag then "" else Render(m)
  {
    hide Matches, IsTag;
    var s := Render(m);
    MarkerOpensOnce(m);
    assert s != "";
    if tag == m.tag {
      assert s[Length(tag)..] == "";
      EmptyHasNoMatch(tag);
    } else {
      OtherTagsDiffer(m, tag);
      NothingOpens(s[1..], tag);
      assert [s[0]] + s[1..] == s;
    }
  }

  // ----- all markers -----

  function Fingerprints(markers: seq<Marker>, tag: string): set<string> {
    set m | m in markers && m.tag == tag :: m.fingerprint
  }

  lemma {:induction false} MarkersAreFound(markers: seq<Marker>, tag: string)
    requires IsTag(tag) && forall k :: 0 <= k < |markers| ==> Proper(markers[k])
    ensures Find(Lines(markers), tag) == Fingerprints(markers, tag)
  {
    hide Find, Render, IsTag, Proper;
    if markers == [] {
      EmptyHasNoMatch(tag);
    } else {
      OneMarker(markers[0], tag);
      assert markers == [markers[0]] + markers[1..];
      if |markers| > 1 {
        ScansSplit(Render(markers[0]), Lines(markers[1..]), tag);
        MarkersAreFound(markers[1..], tag);
      }
    }
  }

  lemma AppendedIsFound(body: string, markers: seq<Marker>, tag: string)
    requires IsTag(tag) && forall k :: 0 <= k < |markers| ==> Proper(markers[k])
    ensures Find(body + Suffix(markers), tag) == Find(body, tag) + Fingerprints(markers, tag)
  {
    hide Find, IsTag, Proper;
    var lines := Lines(markers);
    MarkersAreFound(markers, tag);
    EmptyHasNoMatch(tag);
    ScansSplit("", lines, tag);
    assert "" + "\n" + lines == "\n" + lines;
    ScansSplit(body, "\n" + lines, tag);
    assert body + Suffix(markers) == body + "\n" + ("\n" + lines);
  }

  /**
   Whatever the body and the limit, every marker appended is found again, with those the clipped body
   already had; and the text is within the limit when the markers alone are.
   */
  lemma MarkersSurvive(body: string, markers: seq<Marker>, maxChars: Option<int>)
    requires forall k :: 0 <= k < |markers| ==> Proper(markers[k])
    ensures MarkerFingerprints(AppendMarkers(body, markers, maxChars))
            == MarkerFingerprints(Clipped(body, markers, maxChars)) + (set m | m in markers :: m.fingerprint)
    ensures maxChars.Some? && maxChars.value >= |Suffix(markers)| ==>
            |AppendMarkers(body, markers, maxChars)| <= maxChars.value
    ensures Clipped(body, markers, maxChars) <= body
  {
    hide Find, Suffix;
    var clipped := Clipped(body, markers, maxChars);
    AppendedIsFound(clipped, markers, BODY);
    AppendedIsFound(clipped, markers, CODE);
    AppendedIsFound(clipped, markers, LOCATION);
    AppendedIsFound(clipped, markers, ANCHOR);
    AllTags(markers);
    SuffixIsNotEmpty(markers);
  }

  lemma SuffixIsNotEmpty(markers: seq<Marker>)
    ensures |Suffix(markers)| >= 2
  {}

  lemma AllTags(markers: seq<Marker>)
    requires forall k :: 0 <= k < |markers| ==> Proper(markers[k])
    ensures Fingerprints(markers, BODY) + Fingerprints(markers, CODE) + Fingerprints(markers, LOCATION)
            + Fingerprints(markers, ANCHOR) == set m | m in markers :: m.fingerprint
  {
    forall m | m in markers ensures IsTag(m.tag) {
      var k :| 0 <= k < |markers| && markers[k] == m;
      assert Proper(markers[k]);
    }
  }

  // ----- stripping -----

  lemma StripSplits(a: string, b: string)
    ensures StripMarkers(a + "\n" + b) == StripMarkers(a) + "\n" + StripMarkers(b)
  {
    hide Remove;
    ScansSplit(a, b, BODY);
    var a1, b1 := Remove(a, BODY), Remove(b, BODY);
    ScansSplit(a1, b1, CODE);
    var a2, b2 := Remove(a1, CODE), Remove(b1, CODE);
    ScansSplit(a2, b2, LOCATION);
    ScansSplit(Remove(a2, LOCATION), Remove(b2, LOCATION), ANCHOR);
  }

  lemma MarkerIsStripped(m: Marker)
    requires Proper(m)
    ensures StripMarkers(Render(m)) == ""
  {
    hide Remove, Render;
    OneMarker(m, BODY);
    OneMarker(m, CODE);
    OneMarker(m, LOCATION);
    OneMarker(m, ANCHOR);
    EmptyHasNoMatch(BODY);
    EmptyHasNoMatch(CODE);
    EmptyHasNoMatch(LOCATION);
    EmptyHasNoMatch(ANCHOR);
  }

  function Breaks(n: nat): string { if n == 0 then "" else "\n" + Breaks(n - 1) }

  lemma {:induction false} LinesAreStripped(markers: seq<Marker>)
    requires forall k :: 0 <= k < |markers| ==> Proper(markers[k])
    ensures StripMarkers(Lines(markers)) == Breaks(BreaksBetween(markers))
  {
    hide StripMarkers, Render, Proper;
    if markers == [] {
      NothingToStrip();
    } else {
      MarkerIsStripped(markers[0]);
      if |markers| > 1 {
        LinesAreStripped(markers[1..]);
        StripSplits(Render(markers[0]), Lines(markers[1..]));
      }
    }
  }

  lemma NothingToStrip()
    ensures StripMarkers("") == ""
  {
    EmptyHasNoMatch(BODY);
    EmptyHasNoMatch(CODE);
    EmptyHasNoMatch(LOCATION);
    EmptyHasNoMatch(ANCHOR);
  }

  lemma LeadingBreak(x: string)
    ensures "" + "\n" + x == "\n" + x
  {}

  lemma TwoBreaks(a: string, x: string, y: string)
    requires y == "\n" + x
    ensures a + "\n" + y == a + ("\n\n" + x)
    ensures a + "\n" + y == a + ("\n" + y)
  {}

  lemma StripLeadingBreak(x: string)
    ensures StripMarkers("\n" + x) == "\n" + StripMarkers(x)
  {
    hide StripMarkers;
    NothingToStrip();
    StripSplits("", x);
    LeadingBreak(x);
    LeadingBreak(StripMarkers(x));
  }

  lemma TwoMoreBreaks(n: nat)
    ensures Breaks(1 + n) == "\n" + Breaks(n) && Breaks(2 + n) == "\n" + Breaks(1 + n)
  {}

  function BreaksBetween(markers: seq<Marker>): nat { if markers == [] then 0 else |markers| - 1 }

  /** Stripping a marked body gives the stripped body and line breaks, so it fingerprints as the original. */
  lemma StripUndoesAppend(body: string, markers: seq<Marker>)
    requires forall k :: 0 <= k < |markers| ==> Proper(markers[k])
    ensures StripMarkers(AppendMarkers(body, markers, None)) == StripMarkers(body) + Breaks(2 + BreaksBetween(markers))
  {
    LinesAreStripped(markers);
    hide *;
    NoLimit(body, markers);
    StripTail(body, Lines(markers), BreaksBetween(markers));
  }

  lemma StripTail(body: string, lines: string, n: nat)
    requires StripMarkers(lines) == Breaks(n)
    ensures StripMarkers(body + ("\n\n" + lines)) == StripMarkers(body) + Breaks(2 + n)
  {
    hide StripMarkers, Breaks;
    var tail := "\n" + lines;
    StripLeadingBreak(lines);
    StripSplits(body, tail);
    TwoBreaks(body, lines, tail);
    TwoMoreBreaks(n);
    TwoBreaks(StripMarkers(body), Breaks(n), Breaks(1 + n));
  }

  lemma NoLimit(body: string, markers: seq<Marker>)
    ensures AppendMarkers(body, markers, None) == body + ("\n\n" + Lines(markers))
  {
    hide Lines;
  }

  // ----- exactly what is found, removed and clipped -----

  ghost predicate TwelveHexDigits(f: string) { |f| == 12 && forall c :: c in f ==> c in "0123456789abcdef" }

  /** A well-formed marker stands at this place. */
  ghost predicate StandsAt(s: string, k: nat, tag: string, f: string) {
    k <= |s| && TwelveHexDigits(f) && tag + (f + " -->") <= s[k..]
  }

  lemma HexIs(c: char)
    ensures IsHex(c) <==> c in "0123456789abcdef"
  {
    var all := "0123456789abcdef";
    if '0' <= c <= '9' {
      assert all[c as int - '0' as int] == c;
    }
    if 'a' <= c <= 'f' {
      assert all[c as int - 'a' as int + 10] == c;
    }
  }

  lemma FingerprintIs(f: string)
    ensures IsFingerprint(f) <==> TwelveHexDigits(f)
  {
    hide IsHex;
    forall k | 0 <= k < |f| ensures IsHex(f[k]) <==> f[k] in "0123456789abcdef" {
      HexIs(f[k]);
    }
    if IsFingerprint(f) {
      forall c | c in f ensures c in "0123456789abcdef" {
        var k :| 0 <= k < |f| && f[k] == c;
      }
    }
  }

  lemma MatchIs(s: string, tag: string, f: string)
    ensures TwelveHexDigits(f) && tag + (f + " -->") <= s
            <==> Matches(s, tag) && s[|tag|..|tag| + DIGITS] == f
  {
    hide IsHex;
    FingerprintIs(f);
    var m := tag + (f + " -->");
    if Matches(s, tag) && s[|tag|..|tag| + DIGITS] == f {
      assert s[..Length(tag)] == s[..|tag|] + (s[|tag|..|tag| + DIGITS] + s[|tag| + DIGITS..Length(tag)]);
    }
    if TwelveHexDigits(f) && m <= s {
      assert s[..|tag|] == m[..|tag|] && s[|tag|..|tag| + DIGITS] == m[|tag|..|tag| + DIGITS];
      assert s[|tag| + DIGITS..Length(tag)] == m[|tag| + DIGITS..];
    }
  }

  lemma MatchOpens(s: string, tag: string)
    requires IsTag(tag) && Matches(s, tag)
    ensures s != "" && s[0] == '<'
  {
    hide IsTag;
    TagsHaveNoBreak(tag);
    assert s[..|tag|][0] == s[0];
  }

  lemma NothingOpensInside(s: string, tag: string, k: nat)
    requires IsTag(tag) && Matches(s, tag) && 1 <= k < Length(tag)
    ensures s[k] != '<'
  {
    hide IsTag;
    TagOpensOnce(tag);
    if k < |tag| {
      assert s[..|tag|][k] == s[k];
    } else if k < |tag| + DIGITS {
      assert s[|tag|..|tag| + DIGITS][k - |tag|] == s[k] && IsHex(s[k]);
    } else {
      assert s[|tag| + DIGITS..Length(tag)][k - |tag| - DIGITS] == s[k];
    }
  }

  /** Inside a marker no other begins. */
  lemma NoMatchInside(s: string, tag: string, k: nat)
    requires IsTag(tag) && Matches(s, tag) && 1 <= k < Length(tag)
    ensures k <= |s| && !Matches(s[k..], tag)
  {
    NothingOpensInside(s, tag, k);
    hide IsTag, Matches;
    MatchIsLong(s, tag);
    if Matches(s[k..], tag) {
      MatchOpens(s[k..], tag);
    }
  }

  lemma {:induction false} FindMeans(s: string, tag: string, f: string)
    requires IsTag(tag)
    ensures f in Find(s, tag) <==> exists k: nat :: StandsAt(s, k, tag, f)
    decreases |s|
  {
    hide Matches, IsTag, StandsAt;
    if s == "" {
      EmptyHasNoMatch(tag);
      forall k: nat ensures !StandsAt(s, k, tag, f) {
        NothingStands(k, tag, f);
      }
    } else {
      var n := if Matches(s, tag) then Length(tag) else 1;
      if Matches(s, tag) {
        MatchIsLong(s, tag);
        LengthIsPositive(tag);
      }
      FindMeans(s[n..], tag, f);
      StandsFirst(s, tag, f);
      forall k: nat ensures StandsAt(s[n..], k, tag, f) <==> StandsAt(s, k + n, tag, f) {
        StandsLater(s, n, k, tag, f);
      }
      forall k: nat | 0 < k < n ensures !StandsAt(s, k, tag, f) {
        StandsOutside(s, k, tag, f);
      }
      if k: nat :| StandsAt(s, k, tag, f) {
        if k >= n {
          assert StandsAt(s[n..], k - n, tag, f);
        }
      }
    }
  }

  lemma LengthIsPositive(tag: string)
    ensures Length(tag) >= 1
  {}

  lemma NothingStands(k: nat, tag: string, f: string)
    ensures !StandsAt("", k, tag, f)
  {}

  lemma StandsFirst(s: string, tag: string, f: string)
    ensures StandsAt(s, 0, tag, f) <==> Matches(s, tag) && s[|tag|..|tag| + DIGITS] == f
  {
    MatchIs(s, tag, f);
    assert s[0..] == s;
  }

  lemma StandsLater(s: string, n: nat, k: nat, tag: string, f: string)
    requires n <= |s|
    ensures StandsAt(s[n..], k, tag, f) <==> StandsAt(s, k + n, tag, f)
  {
    hide TwelveHexDigits;
    if k + n <= |s| {
      assert s[n..][k..] == s[k + n..];
    }
  }

  lemma StandsOutside(s: string, k: nat, tag: string, f: string)
    requires IsTag(tag) && Matches(s, tag) && 1 <= k < Length(tag)
    ensures !StandsAt(s, k, tag, f)
  {
    hide TwelveHexDigits, IsTag;
    NoMatchInside(s, tag, k);
    MatchIs(s[k..], tag, f);
  }

  /** The fingerprints of a body are exactly those of the well-formed markers standing anywhere in it. */
  lemma FingerprintsAreThoseStanding(s: string, f: string)
    ensures f in MarkerFingerprints(s) <==> exists k: nat, tag :: IsTag(tag) && StandsAt(s, k, tag, f)
  {
    hide Find, IsTag, StandsAt;
    TheFourTags();
    forall tag: string | IsTag(tag) ensures f in Find(s, tag) <==> exists k: nat :: StandsAt(s, k, tag, f) {
      FindMeans(s, tag, f);
    }
  }

  lemma TheFourTags()
    ensures forall tag :: IsTag(tag) <==> tag == BODY || tag == CODE || tag == LOCATION || tag == ANCHOR
  {}

  /** Removing takes the leftmost marker out and goes on behind it; without a marker nothing changes. */
  lemma {:induction false} RemovesLeftmost(s: string, tag: string, k: nat)
    requires k <= |s| && forall i :: 0 <= i < k ==> !Matches(s[i..], tag)
    ensures Matches(s[k..], tag) ==> Remove(s, tag) == s[..k] + Remove(s[k..][Length(tag)..], tag)
    ensures k == |s| ==> Remove(s, tag) == s
    decreases k
  {
    hide Matches;
    if k == 0 {
      assert s[0..] == s && s[..0] == "";
      if Matches(s, tag) {
        NotEmpty(s, tag);
        assert "" + Remove(s[Length(tag)..], tag) == Remove(s[Length(tag)..], tag);
      }
    } else {
      assert s[0..] == s;
      var rest := s[1..];
      forall i | 0 <= i < k - 1 ensures !Matches(rest[i..], tag) {
        assert rest[i..] == s[i + 1..];
      }
      RemovesLeftmost(rest, tag, k - 1);
      assert rest[k - 1..] == s[k..] && s == [s[0]] + rest;
      if Matches(s[k..], tag) {
        NotEmpty(s[k..], tag);
        Glued(s, k, Remove(s[k..][Length(tag)..], tag));
      }
    }
  }

  lemma NotEmpty(s: string, tag: string)
    requires Matches(s, tag)
    ensures s != "" && |s| >= Length(tag)
  {}

  lemma Glued(s: string, k: nat, tail: string)
    requires 1 <= k <= |s|
    ensures [s[0]] + (s[1..][..k - 1] + tail) == s[..k] + tail
  {
    assert s[..k] == [s[0]] + s[1..][..k - 1];
  }

  /** No more of the body is given up than the limit takes. */
  lemma ClipsNoMore(body: string, markers: seq<Marker>, maxChars: Option<int>, k: nat)
    requires k <= |body|
    ensures maxChars.None? || maxChars.value == 0 ==> Clipped(body, markers, maxChars) == body
    ensures maxChars.Some? && |body[..k] + Suffix(markers)| <= maxChars.value ==>
              k <= |Clipped(body, markers, maxChars)|
  {
    hide Suffix;
  }
}
