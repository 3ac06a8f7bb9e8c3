/**
 The lazily loaded store of posted-comment fingerprints (pr_agent/algo/inline_comment_dedup.py),
 against one that lists the existing comments when it is built.
 */
module InlineCommentStore {
  import opened Sequences
  import opened Wrappers

  type Fingerprint = string

  datatype Op =
    | Load
    | Seen(fingerprint: Option<Fingerprint>)
    | Add(added: Option<Fingerprint>)
    | AddBody(markers: set<Fingerprint>)
    | Release(resolved: set<Fingerprint>)

  datatype State = State(keys: set<Fingerprint>, released: set<Fingerprint>, loaded: bool)

  /** `found` is what listing the existing comments yields before it ends or fails. */
  function Loaded(s: State, found: set<Fingerprint>): State {
    if s.loaded then s else State(s.keys + found - s.released, s.released, true)
  }

  predicate NeedsLoad(op: Op) { op.Load? || (op.Seen? && op.fingerprint.Some?) }

  function Step(s: State, found: set<Fingerprint>, op: Op): State {
    match op
    case Load => Loaded(s, found)
    case Seen(f) => if f.None? then s else Loaded(s, found)
    case Add(f) => if f.None? then s else s.(keys := s.keys + {f.value})
    case AddBody(markers) => s.(keys := s.keys + markers)
    case Release(resolved) =>
      State(s.keys - (s.released + resolved), s.released + resolved, s.loaded)
  }

  /** What a lookup answers. */
  function Answer(s: State, found: set<Fingerprint>, f: Option<Fingerprint>): bool {
    f.Some? && f.value in Loaded(s, found).keys
  }

  function Answers(s: State, found: set<Fingerprint>, ops: seq<Op>): seq<bool>
    decreases |ops|
  {
    if ops == [] then []
    else
      (if ops[0].Seen? then [Answer(s, found, ops[0].fingerprint)] else [])
      + Answers(Step(s, found, ops[0]), found, ops[1..])
  }

  function Run(s: State, found: set<Fingerprint>, ops: seq<Op>): State
    decreases |ops|
  {
    if ops == [] then s else Run(Step(s, found, ops[0]), found, ops[1..])
  }

  const LAZY := State({}, {}, false)

  function Eager(found: set<Fingerprint>): State { State(found, {}, true) }

  class Store {
    var keys: set<Fingerprint>
    var released: set<Fingerprint>
    var loaded: bool
    var loadFailed: bool

    function Contents(): State
      reads this
    {
      State(keys, released, loaded)
    }

    constructor ()
      ensures Contents() == LAZY && !loadFailed
    {
      keys, released, loaded, loadFailed := {}, {}, false, false;
    }

    /** The bodies listed before the listing ends, or fails; a failure still counts as loaded. */
    method LoadStore(bodies: seq<set<Fingerprint>>, fails: bool)
      modifies this
      ensures Contents() == Loaded(old(Contents()), Union(bodies))
      ensures loadFailed == (old(loadFailed) || (!old(loaded) && fails))
    {
      if loaded {
        return;
      }
      var k := 0;
      assert bodies[..0] == [];
      while k < |bodies|
        invariant 0 <= k <= |bodies|
        invariant keys == old(keys) + Union(bodies[..k])
        invariant released == old(released) && !loaded && loadFailed == old(loadFailed)
      {
        UnionGrows(bodies, k);
        keys := keys + bodies[k];
        k := k + 1;
      }
      assert bodies[..|bodies|] == bodies;
      if fails {
        loadFailed := true;
      }
      keys := keys - released;
      loaded := true;
    }

    method SeenBefore(f: Option<Fingerprint>, bodies: seq<set<Fingerprint>>, fails: bool) returns (seen: bool)
      modifies this
      ensures seen == Answer(old(Contents()), Union(bodies), f)
      ensures Contents() == Step(old(Contents()), Union(bodies), Seen(f))
    {
      if f.None? {
        return false;
      }
      LoadStore(bodies, fails);
      seen := f.value in keys;
    }

    method AddFingerprint(f: Option<Fingerprint>)
      modifies this
      ensures Contents() == Step(old(Contents()), {}, Add(f))
    {
      if f.Some? {
        keys := keys + {f.value};
      }
    }

    method ReleaseFingerprints(resolved: set<Fingerprint>)
      modifies this
      ensures Contents() == Step(old(Contents()), {}, Release(resolved))
    {
      released := released + resolved;
      keys := keys - released;
    }
  }

  function Union(bodies: seq<set<Fingerprint>>): set<Fingerprint> {
    if bodies == [] then {} else Union(bodies[..|bodies| - 1]) + bodies[|bodies| - 1]
  }

  lemma UnionGrows(bodies: seq<set<Fingerprint>>, k: nat)
    requires k < |bodies|
    ensures Union(bodies[..k + 1]) == Union(bodies[..k]) + bodies[k]
  {
    assert bodies[..k + 1][..k] == bodies[..k];
  }

  // ----- before the first load -----

  ghost predicate Unloaded(ops: seq<Op>) { forall k :: 0 <= k < |ops| ==> !NeedsLoad(ops[k]) }

  /** Fingerprints added back after their release, unless a later release swept them away again. */
  function AddedBack(s: State, ops: seq<Op>): set<Fingerprint> { Run(s, {}, ops).keys * Run(s, {}, ops).released }

  /** Until it loads, the lazy store lacks exactly the found markers that were never released. */
  lemma {:induction false} BeforeLoading(lazy: State, eager: State, found: set<Fingerprint>, ops: seq<Op>)
    requires !lazy.loaded && eager.loaded && lazy.released == eager.released
    requires eager.keys == lazy.keys + (found - lazy.released)
    requires Unloaded(ops)
    ensures var l, e := Run(lazy, found, ops), Run(eager, found, ops);
            && !l.loaded && e.loaded && l.released == e.released && e.keys == l.keys + (found - l.released)
            && l == Run(lazy, {}, ops)
    decreases |ops|
  {
    if ops != [] {
      var op := ops[0];
      assert !NeedsLoad(op);
      assert Step(lazy, found, op) == Step(lazy, {}, op);
      BeforeLoading(Step(lazy, found, op), Step(eager, found, op), found, ops[1..]);
    }
  }

  /** At its first load the lazy store lacks exactly what was added back. */
  lemma FirstLoad(found: set<Fingerprint>, before: seq<Op>)
    requires Unloaded(before)
    ensures var l, e := Loaded(Run(LAZY, found, before), found), Run(Eager(found), found, before);
            && l.released == e.released && e.loaded && l.loaded
            && l.keys == e.keys - AddedBack(LAZY, before)
            && AddedBack(LAZY, before) <= e.keys && AddedBack(LAZY, before) <= e.released
  {
    BeforeLoading(LAZY, Eager(found), found, before);
  }

  // ----- whole runs -----

  lemma {:induction false} RunsSplit(s: State, found: set<Fingerprint>, a: seq<Op>, b: seq<Op>)
    ensures Answers(s, found, a + b) == Answers(s, found, a) + Answers(Run(s, found, a), found, b)
    decreases |a|
  {
    if a == [] {
      assert a + b == b;
      assert [] + Answers(s, found, b) == Answers(s, found, b);
    } else {
      assert (a + b)[1..] == a[1..] + b && (a + b)[0] == a[0];
      RunsSplit(Step(s, found, a[0]), found, a[1..], b);
      Reassoc(if a[0].Seen? then [Answer(s, found, a[0].fingerprint)] else [],
              Answers(Step(s, found, a[0]), found, a[1..]), Answers(Run(s, found, a), found, b));
    }
  }

  /** A lookup of nothing answers no, loaded or not. */
  lemma {:induction false} QuietAnswers(s: State, t: State, found: set<Fingerprint>, ops: seq<Op>)
    requires Unloaded(ops)
    ensures Answers(s, found, ops) == Answers(t, found, ops)
    decreases |ops|
  {
    if ops != [] {
      assert !NeedsLoad(ops[0]);
      QuietAnswers(Step(s, found, ops[0]), Step(t, found, ops[0]), found, ops[1..]);
    }
  }

  /** The operation that loads, from a state loaded beforehand. */
  lemma LoadingFirst(s: State, found: set<Fingerprint>, op: Op, rest: seq<Op>)
    requires NeedsLoad(op)
    ensures Answers(s, found, [op] + rest) == Answers(Loaded(s, found), found, [op] + rest)
  {
    assert ([op] + rest)[1..] == rest;
  }

  ghost predicate SameAnswers(found: set<Fingerprint>, ops: seq<Op>) {
    Answers(LAZY, found, ops) == Answers(Eager(found), found, ops)
  }

  /**
   Whatever happens from the first load on, the lazy store answers every lookup as the eager one, exactly
   when nothing released was added back before that load.
   */
  lemma LazyAgreesWithEager(found: set<Fingerprint>, before: seq<Op>)
    requires Unloaded(before)
    ensures (forall rest :: rest != [] && NeedsLoad(rest[0]) ==> SameAnswers(found, before + rest))
            <==> AddedBack(LAZY, before) == {}
  {
    if AddedBack(LAZY, before) == {} {
      forall rest: seq<Op> | rest != [] && NeedsLoad(rest[0]) ensures SameAnswers(found, before + rest) {
        LazyAgrees(found, before, rest);
      }
    } else {
      var f :| f in AddedBack(LAZY, before);
      LazyForgets(found, before, f);
      assert NeedsLoad([Seen(Some(f))][0]);
    }
  }

  lemma LazyAgrees(found: set<Fingerprint>, before: seq<Op>, rest: seq<Op>)
    requires Unloaded(before) && AddedBack(LAZY, before) == {} && rest != [] && NeedsLoad(rest[0])
    ensures SameAnswers(found, before + rest)
  {
    hide Answers, Run, AddedBack;
    FirstLoad(found, before);
    RunsSplit(LAZY, found, before, rest);
    RunsSplit(Eager(found), found, before, rest);
    QuietAnswers(LAZY, Eager(found), found, before);
    assert rest == [rest[0]] + rest[1..];
    LoadingFirst(Run(LAZY, found, before), found, rest[0], rest[1..]);
    assert Loaded(Run(LAZY, found, before), found) == Run(Eager(found), found, before);
  }

  /** A fingerprint added back is seen by the eager store and not by the lazy one. */
  lemma LazyForgets(found: set<Fingerprint>, before: seq<Op>, f: Fingerprint)
    requires Unloaded(before) && f in AddedBack(LAZY, before)
    ensures !SameAnswers(found, before + [Seen(Some(f))])
  {
    hide Run, AddedBack;
    var rest := [Seen(Some(f))];
    FirstLoad(found, before);
    RunsSplit(LAZY, found, before, rest);
    RunsSplit(Eager(found), found, before, rest);
    QuietAnswers(LAZY, Eager(found), found, before);
    OneAnswer(Run(LAZY, found, before), found, f);
    OneAnswer(Run(Eager(found), found, before), found, f);
    LastDiffers(Answers(LAZY, found, before), false, true);
  }

  lemma LastDiffers(a: seq<bool>, x: bool, y: bool)
    requires x != y
    ensures a + [x] != a + [y]
  {
    assert (a + [x])[|a|] != (a + [y])[|a|];
  }

  lemma OneAnswer(s: State, found: set<Fingerprint>, f: Fingerprint)
    ensures Answers(s, found, [Seen(Some(f))]) == [Answer(s, found, Some(f))]
  {
    assert [Seen(Some(f))][1..] == [];
  }

  /** The next release makes the two stores the same again. */
  lemma ReleaseReunites(found: set<Fingerprint>, before: seq<Op>, resolved: set<Fingerprint>)
    requires Unloaded(before)
    ensures Step(Loaded(Run(LAZY, found, before), found), found, Release(resolved))
            == Step(Run(Eager(found), found, before), found, Release(resolved))
  {
    hide Run, AddedBack;
    FirstLoad(found, before);
    var l, e := Loaded(Run(LAZY, found, before), found), Run(Eager(found), found, before);
    assert l.keys - (l.released + resolved) == e.keys - (e.released + resolved);
  }

  // ----- what was added back -----

  predicate Adds(op: Op, f: Fingerprint) { (op.Add? && op.added == Some(f)) || (op.AddBody? && f in op.markers) }

  predicate Releases(op: Op, f: Fingerprint) { op.Release? && f in op.resolved }

  /** Added after its own release, with no release of anything since. */
  ghost predicate AddedBackAt(ops: seq<Op>, f: Fingerprint, i: nat) {
    && i < |ops| && Adds(ops[i], f)
    && (exists j :: 0 <= j < i && Releases(ops[j], f))
    && (forall k :: i < k < |ops| ==> !ops[k].Release?)
  }

  lemma {:induction false} RunLast(s: State, found: set<Fingerprint>, ops: seq<Op>, op: Op)
    ensures Run(s, found, ops + [op]) == Step(Run(s, found, ops), found, op)
    decreases |ops|
  {
    if ops == [] {
      assert ([] + [op])[1..] == [];
    } else {
      assert (ops + [op])[1..] == ops[1..] + [op];
      RunLast(Step(s, found, ops[0]), found, ops[1..], op);
    }
  }

  lemma {:induction false} ReleasedMeans(ops: seq<Op>, f: Fingerprint)
    requires Unloaded(ops)
    ensures f in Run(LAZY, {}, ops).released <==> exists j :: 0 <= j < |ops| && Releases(ops[j], f)
    decreases |ops|
  {
    if ops != [] {
      var n := |ops| - 1;
      assert ops == ops[..n] + [ops[n]];
      RunLast(LAZY, {}, ops[..n], ops[n]);
      ReleasedMeans(ops[..n], f);
      assert !NeedsLoad(ops[n]);
    }
  }

  lemma {:induction false} AddedBackMeans(ops: seq<Op>, f: Fingerprint)
    requires Unloaded(ops)
    ensures f in AddedBack(LAZY, ops) <==> exists i :: AddedBackAt(ops, f, i)
    decreases |ops|
  {
    if ops != [] {
      var n := |ops| - 1;
      var before, op := ops[..n], ops[n];
      assert ops == before + [op];
      RunLast(LAZY, {}, before, op);
      AddedBackMeans(before, f);
      ReleasedMeans(before, f);
      assert !NeedsLoad(op);
      if f in AddedBack(LAZY, before) && !op.Release? {
        var i :| AddedBackAt(before, f, i);
        assert AddedBackAt(ops, f, i);
      }
      if Adds(op, f) && f in Run(LAZY, {}, before).released {
        assert AddedBackAt(ops, f, n);
      }
      if i: nat :| AddedBackAt(ops, f, i) && i < n {
        var j :| 0 <= j < i && Releases(ops[j], f);
        assert Releases(before[j], f) && AddedBackAt(before, f, i);
      }
    }
  }

  // ----- what a lookup means -----

  /** A release from place `i` on forgets everything released so far, the fingerprint among it. */
  ghost predicate SweptFrom(ops: seq<Op>, f: Fingerprint, i: int) {
    exists j, k :: 0 <= j <= k < |ops| && i <= k && Releases(ops[j], f) && ops[k].Release?
  }

  /** Found at the start or added, and not swept away since. */
  ghost predicate Remembered(found: set<Fingerprint>, ops: seq<Op>, f: Fingerprint) {
    || (f in found && !SweptFrom(ops, f, 0))
    || exists i :: 0 <= i < |ops| && Adds(ops[i], f) && !SweptFrom(ops, f, i)
  }

  lemma SweptLast(ops: seq<Op>, op: Op, f: Fingerprint, i: int)
    requires i <= |ops|
    ensures SweptFrom(ops + [op], f, i)
            <==> SweptFrom(ops, f, i)
                 || (op.Release? && (Releases(op, f) || exists j :: 0 <= j < |ops| && Releases(ops[j], f)))
  {
    hide Releases;
    var all := ops + [op];
    if SweptFrom(all, f, i) {
      var j, k :| 0 <= j <= k < |all| && i <= k && Releases(all[j], f) && all[k].Release?;
      assert j < |ops| ==> all[j] == ops[j];
      assert k < |ops| ==> all[k] == ops[k];
    }
    if SweptFrom(ops, f, i) {
      var j, k :| 0 <= j <= k < |ops| && i <= k && Releases(ops[j], f) && ops[k].Release?;
      assert all[j] == ops[j] && all[k] == ops[k];
    }
    if op.Release? {
      assert all[|ops|] == op;
      if j :| 0 <= j < |ops| && Releases(ops[j], f) {
        assert all[j] == ops[j];
      }
    }
  }

  lemma RememberedLast(found: set<Fingerprint>, ops: seq<Op>, op: Op, f: Fingerprint)
    ensures Remembered(found, ops + [op], f)
            <==> || Adds(op, f)
                 || (Remembered(found, ops, f)
                     && !(op.Release? && (Releases(op, f) || exists j :: 0 <= j < |ops| && Releases(ops[j], f))))
  {
    hide Releases, SweptFrom, Adds;
    var all := ops + [op];
    forall i | 0 <= i <= |ops|
      ensures SweptFrom(all, f, i)
              <==> SweptFrom(ops, f, i)
                   || (op.Release? && (Releases(op, f) || exists j :: 0 <= j < |ops| && Releases(ops[j], f)))
    {
      SweptLast(ops, op, f, i);
    }
    assert all[|ops|] == op && forall i :: 0 <= i < |ops| ==> all[i] == ops[i];
    NothingBehind(ops, f);
    AddsNothingReleased(op, f);
    if Remembered(found, ops, f) && !(f in found && !SweptFrom(ops, f, 0)) {
      var i :| 0 <= i < |ops| && Adds(ops[i], f) && !SweptFrom(ops, f, i);
      assert Adds(all[i], f);
    }
    if Adds(op, f) {
      assert Adds(all[|ops|], f);
    }
  }

  lemma NothingBehind(ops: seq<Op>, f: Fingerprint)
    ensures !SweptFrom(ops, f, |ops|)
  {}

  lemma AddsNothingReleased(op: Op, f: Fingerprint)
    ensures Adds(op, f) ==> !op.Release?
  {}

  lemma {:induction false} ReleasedSoFar(found: set<Fingerprint>, ops: seq<Op>, f: Fingerprint)
    ensures var s := Run(Eager(found), found, ops);
            s.loaded && (f in s.released <==> exists j :: 0 <= j < |ops| && Releases(ops[j], f))
    decreases |ops|
  {
    if ops != [] {
      var n := |ops| - 1;
      var front := ops[..n];
      ReleasedSoFar(found, front, f);
      RunLast(Eager(found), found, front, ops[n]);
      assert ops == front + [ops[n]];
    }
  }

  /** After any operations the eager store knows exactly the fingerprints found or added and not swept since. */
  lemma {:induction false} SeenMeans(found: set<Fingerprint>, ops: seq<Op>, f: Fingerprint)
    ensures Answer(Run(Eager(found), found, ops), found, Some(f)) <==> Remembered(found, ops, f)
    decreases |ops|
  {
    hide Remembered, Run;
    if ops == [] {
      NothingHappened(found, f);
    } else {
      var n := |ops| - 1;
      var front, op := ops[..n], ops[n];
      assert ops == front + [op];
      SeenMeans(found, front, f);
      ReleasedSoFar(found, front, f);
      RunLast(Eager(found), found, front, op);
      RememberedLast(found, front, op, f);
    }
  }

  lemma NothingHappened(found: set<Fingerprint>, f: Fingerprint)
    ensures Run(Eager(found), found, []) == Eager(found) && (Remembered(found, [], f) <==> f in found)
  {}
}
