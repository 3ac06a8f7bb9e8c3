/**
 Release switching converges and stays safe (pr_agent/dashboard/ops.py): over every run with crashes
 at any file operation, boots, staged updates, restarts and rollbacks.
 */
module ReleaseTheorems {
  import opened Wrappers
  import opened ReleaseModel

  // ----- what a boot decides -----

  /** The boot prepares the source head. */
  predicate Prepares(v: Volume, w: World) { (Rebuilt(v, w) || v.current.None?) && w.sourceHead.Some? }

  /** The boot has to check the source head out. */
  predicate Due(v: Volume, w: World) { Prepares(v, w) && !Complete(v, w.sourceHead.value) }

  /** And Git will not have it: it is registered without a directory, or locked by an add that was killed. */
  predicate Refused(v: Volume, w: World) { Due(v, w) && Refuses(v, w.sourceHead.value) }

  /** The source head can be had, whatever is registered. */
  predicate Available(v: Volume, w: World, r: Revision) { Complete(v, r) || w.checkoutWorks(r) }

  /** Whether a boot gets as far as serving something, unless the checkout is refused. */
  predicate Able(v: Volume, w: World) {
    Rebuilt(v, w) || v.current.None? ==>
      && w.sourceHead.Some? && Available(v, w, w.sourceHead.value)
      && (WouldMatch(v, w, w.sourceHead.value) || v.current.Some?)
  }

  /** Whether it does; when it is tried does not matter. */
  predicate Boots(v: Volume, w: World) { Able(v, w) && !Refused(v, w) }

  lemma BootsIs(v: Volume, w: World, m: Moment)
    ensures BootPlan(v, w, m).boots <==> Boots(v, w)
  {
    hide EnsureOps, SwitchOps;
  }

  /** The marks a boot is after, read off its starting volume. */
  function Goal(v: Volume, w: World): Marks {
    if Rebuilt(v, w) || v.current.None? then
      if w.sourceHead.None? || !Available(v, w, w.sourceHead.value) then MarksOf(v)
      else if WouldMatch(v, w, w.sourceHead.value) then
        Marks(w.sourceHead, None, if w.buildId.Some? then w.buildId else v.built)
      else if v.current.None? then MarksOf(v)
      else Marks(v.current, w.sourceHead, v.built)
    else if PendingRelease(v).Some? && !RebuildRequired(v, w) then Marks(v.pending, None, v.built)
    else MarksOf(v)
  }

  /** The marks it ends with. */
  function Target(v: Volume, w: World): Marks { if Refused(v, w) then MarksOf(v) else Goal(v, w) }

  /** A boot from here is after the same as one from `v`; a checkout is still due only before any mark changed. */
  ghost predicate OnCourse(c: Volume, v: Volume, w: World) {
    && Sound(c) && Goal(c, w) == Goal(v, w) && (Able(c, w) <==> Able(v, w))
    && (Due(c, w) ==> Due(v, w) && MarksOf(c) == MarksOf(v))
  }

  /** Work on a release that was not finished disturbs nothing else. */
  ghost predicate SameBut(c: Volume, v: Volume, r: Revision) {
    && MarksOf(c) == MarksOf(v)
    && (forall x :: x != r ==> (x in c.dirs <==> x in v.dirs))
    && (forall x :: x != r && x in v.dirs ==> c.dirs[x] == v.dirs[x])
    && (v.locked <= v.registered ==> c.locked <= c.registered)
  }

  lemma EnsurePrefix(v: Volume, w: World, m: Moment, r: Revision, k: nat)
    requires k <= |EnsureOps(v, w, m, r)| && v.locked <= v.registered
    ensures var c := Run(EnsureOps(v, w, m, r)[..k], v);
            && SameBut(c, v, r)
            && (Complete(v, r) ==> c == v)
            && (Complete(c, r) ==> EnsureSucceeds(v, w, r))
            && (Complete(c, r) && !Complete(v, r) ==> c.dirs[r].intact && c.dirs[r].deps == w.deps(r))
            && (k == |EnsureOps(v, w, m, r)| ==> (Complete(c, r) <==> EnsureSucceeds(v, w, r)))
  {
    hide Run, DiscardOps, CheckoutOps;
    var ops := EnsureOps(v, w, m, r);
    if Complete(v, r) {
      assert ops[..k] == [];
      NoSteps(v);
    } else {
      var first := if r in v.dirs then DiscardOps(m, r) else [];
      var last := if Refuses(v, r) then DiscardOps(m, r) else CheckoutOps(w, m, r);
      var j := if k <= |first| then k else |first|;
      AddLength(w, m, r);
      assert first[..|first|] == first;
      RunPrefix(first, last, k, v);
      NoSteps(v);
      if r in v.dirs {
        DiscardRuns(m, r, v, j);
      }
      if k >= |first| {
        if Refuses(v, r) {
          DiscardRuns(m, r, Run(first, v), k - |first|);
        } else {
          CheckoutRuns(w, m, r, Run(first, v), k - |first|);
        }
      }
      SameTwice(Run(ops[..k], v), Run(first, v), v, r);
    }
  }

  lemma NoSteps(v: Volume)
    ensures Run([], v) == v && SameBut(v, v, 0)
    ensures forall r :: SameBut(v, v, r)
  {}

  lemma SameTwice(c: Volume, u: Volume, v: Volume, r: Revision)
    ensures SameBut(c, u, r) && SameBut(u, v, r) ==> SameBut(c, v, r)
  {}

  /** Discarding, step by step: the registration outlives the directory, and a locked one stays. */
  lemma DiscardRuns(m: Moment, r: Revision, v: Volume, k: nat)
    requires k <= |DiscardOps(m, r)|
    ensures var c := Run(DiscardOps(m, r)[..k], v);
            && SameBut(c, v, r) && (Complete(c, r) ==> Complete(v, r)) && (r in c.dirs <==> k < 2 && r in v.dirs)
            && c.locked == v.locked
            && (k < 3 ==> c.registered == v.registered)
            && (k >= 3 ==> (r in c.registered <==> r in v.locked && r in v.registered))
  {
    FirstSteps(DiscardOps(m, r), v);
  }

  /** Git registers and locks a worktree before it makes the directory, and unlocks it when the files are there. */
  lemma AddRuns(w: World, m: Moment, r: Revision, v: Volume, k: nat)
    requires k <= |AddOps(w, m, r)| && r !in v.dirs && r !in v.registered && r !in v.locked
    ensures var c := Run(AddOps(w, m, r)[..k], v);
            && SameBut(c, v, r) && !Complete(c, r)
            && (r in c.locked <==> 1 <= k <= if w.checkoutWorks(r) then 3 else 2)
            && (r in c.registered <==> 1 <= k && (w.checkoutWorks(r) || k <= 2))
            && (w.checkoutWorks(r) ==> (r in c.dirs <==> 2 <= k))
            && (k == |AddOps(w, m, r)| ==>
                  if w.checkoutWorks(r) then c.dirs[r].intact && c.dirs[r].deps == w.deps(r) else r !in c.dirs)
  {
    hide Run, Do;
    var begin := [Register(r), AddDirectory(r, m.now)];
    var u := Run(begin, v);
    BeginRuns(m, r, v, if k <= 2 then k else 2);
    assert begin[..2] == begin;
    if w.checkoutWorks(r) {
      AddEnds(begin, [FillDirectory(r, w.deps(r), m.now), Unlock(r)], k, v);
      if k >= 2 {
        FillRuns(w, m, r, u, k - 2);
        SameTwice(Run(AddOps(w, m, r)[..k], v), u, v, r);
      }
    } else {
      AddEnds(begin, [Forget(r), TearDirectory(r, m.torn(r)), RemoveDirectory(r)], k, v);
      if k >= 2 {
        CleanRuns(m, r, u, k - 2);
        SameTwice(Run(AddOps(w, m, r)[..k], v), u, v, r);
      }
    }
  }

  lemma BeginRuns(m: Moment, r: Revision, v: Volume, k: nat)
    requires k <= 2 && r !in v.dirs && r !in v.registered && r !in v.locked
    ensures var c := Run([Register(r), AddDirectory(r, m.now)][..k], v);
            && SameBut(c, v, r) && !Complete(c, r)
            && (r in c.registered <==> 1 <= k) && (r in c.locked <==> 1 <= k) && (r in c.dirs <==> 2 <= k)
  {
    FirstSteps([Register(r), AddDirectory(r, m.now)], v);
  }

  lemma AddEnds(begin: seq<FileOp>, rest: seq<FileOp>, k: nat, v: Volume)
    requires |begin| == 2 && k <= 2 + |rest|
    ensures k <= 2 ==> Run((begin + rest)[..k], v) == Run(begin[..k], v)
    ensures k >= 2 ==> Run((begin + rest)[..k], v) == Run(rest[..k - 2], Run(begin, v))
  {
    RunPrefix(begin, rest, k, v);
  }

  lemma FillRuns(w: World, m: Moment, r: Revision, u: Volume, k: nat)
    requires k <= 2 && r in u.dirs && !Complete(u, r) && r in u.locked && r in u.registered
    ensures var c := Run([FillDirectory(r, w.deps(r), m.now), Unlock(r)][..k], u);
            && SameBut(c, u, r) && !Complete(c, r) && r in c.dirs && r in c.registered && (r in c.locked <==> k < 2)
            && (k == 2 ==> c.dirs[r].intact && c.dirs[r].deps == w.deps(r))
  {
    FirstSteps([FillDirectory(r, w.deps(r), m.now), Unlock(r)], u);
  }

  lemma CleanRuns(m: Moment, r: Revision, u: Volume, k: nat)
    requires k <= 3 && r in u.dirs && !Complete(u, r) && r in u.locked && r in u.registered
    ensures var c := Run([Forget(r), TearDirectory(r, m.torn(r)), RemoveDirectory(r)][..k], u);
            && SameBut(c, u, r) && !Complete(c, r) && (r in c.registered <==> k < 1) && (r in c.locked <==> k < 1)
            && (k == 3 ==> r !in c.dirs)
  {
    FirstSteps([Forget(r), TearDirectory(r, m.torn(r)), RemoveDirectory(r)], u);
  }

  /** A checkout is finished only after its last step, and then it is whole. */
  lemma CheckoutRuns(w: World, m: Moment, r: Revision, v: Volume, k: nat)
    requires k <= |CheckoutOps(w, m, r)| && r !in v.dirs && r !in v.registered && r !in v.locked
    ensures var c := Run(CheckoutOps(w, m, r)[..k], v);
            && SameBut(c, v, r)
            && (Complete(c, r) <==> w.checkoutWorks(r) && k == |CheckoutOps(w, m, r)|)
            && (Complete(c, r) ==> c.dirs[r].intact && c.dirs[r].deps == w.deps(r))
            && (r in c.locked <==> if w.checkoutWorks(r) then 1 <= k <= 3 else 1 <= k <= 2)
            && (w.checkoutWorks(r) ==> (r in c.dirs <==> 2 <= k) && (r in c.registered <==> 1 <= k))
            && (k == |CheckoutOps(w, m, r)| && !w.checkoutWorks(r) ==> r !in c.dirs && r !in c.registered)
  {
    hide Run, DiscardOps, AddOps;
    var first := AddOps(w, m, r);
    var last := if w.checkoutWorks(r) then [MarkComplete(r, m.now)] else DiscardOps(m, r);
    AddLength(w, m, r);
    assert first[..|first|] == first;
    RunPrefix(first, last, k, v);
    AddRuns(w, m, r, v, if k <= |first| then k else |first|);
    var u := Run(first, v);
    if k >= |first| {
      if w.checkoutWorks(r) {
        FirstSteps(last, u);
      } else {
        DiscardRuns(m, r, u, k - |first|);
      }
      SameTwice(Run(CheckoutOps(w, m, r)[..k], v), u, v, r);
    }
  }

  lemma AddLength(w: World, m: Moment, r: Revision)
    ensures |AddOps(w, m, r)| == (if w.checkoutWorks(r) then 4 else 5) && |DiscardOps(m, r)| == 4
    ensures |CheckoutOps(w, m, r)| == if w.checkoutWorks(r) then 5 else 9
  {}

  /** The states after at most five operations. */
  lemma FirstSteps(ops: seq<FileOp>, v: Volume)
    ensures Run(ops[..0], v) == v
    ensures |ops| >= 1 ==> Run(ops[..1], v) == Do(ops[0], v)
    ensures |ops| >= 2 ==> Run(ops[..2], v) == Do(ops[1], Do(ops[0], v))
    ensures |ops| >= 3 ==> Run(ops[..3], v) == Do(ops[2], Do(ops[1], Do(ops[0], v)))
    ensures |ops| >= 4 ==> Run(ops[..4], v) == Do(ops[3], Do(ops[2], Do(ops[1], Do(ops[0], v))))
    ensures |ops| >= 5 ==> Run(ops[..5], v) == Do(ops[4], Do(ops[3], Do(ops[2], Do(ops[1], Do(ops[0], v)))))
  {
    hide Do;
    if |ops| >= 1 {
      NextStep(ops, 0, v);
    }
    if |ops| >= 2 {
      NextStep(ops, 1, v);
    }
    if |ops| >= 3 {
      NextStep(ops, 2, v);
    }
    if |ops| >= 4 {
      NextStep(ops, 3, v);
    }
    if |ops| >= 5 {
      NextStep(ops, 4, v);
    }
  }

  lemma NextStep(ops: seq<FileOp>, k: nat, v: Volume)
    requires k < |ops|
    ensures Run(ops[..k + 1], v) == Do(ops[k], Run(ops[..k], v))
  {
    assert ops[..k + 1] == ops[..k] + [ops[k]];
    RunConcat(ops[..k], [ops[k]], v);
    assert [ops[k]][1..] == [];
  }

  lemma EnsureStaysOnCourse(v: Volume, w: World, r: Revision, c: Volume)
    requires Sound(v) && w.sourceHead == Some(r) && (Rebuilt(v, w) || v.current.None?)
    requires SameBut(c, v, r) && (Complete(v, r) ==> c == v)
    requires Complete(c, r) ==> EnsureSucceeds(v, w, r)
    requires Complete(c, r) && !Complete(v, r) ==> c.dirs[r].deps == w.deps(r)
    ensures OnCourse(c, v, w)
  {
    hide SwitchOps, EnsureOps;
  }

  lemma SwitchRuns(r: Revision, v: Volume, k: nat)
    requires k <= 3
    ensures var c := Run(SwitchOps(r)[..k], v);
            && c.dirs == v.dirs && c.registered == v.registered && c.locked == v.locked
            && c.pending == v.pending && c.built == v.built
            && c.current == (if k == 3 then Some(r) else v.current)
  {
    FirstSteps(SwitchOps(r), v);
  }

  /** A prefix of two lists in a row is a prefix of the first, or the first and a prefix of the second. */
  lemma RunPrefix(a: seq<FileOp>, b: seq<FileOp>, k: nat, v: Volume)
    requires k <= |a| + |b|
    ensures k <= |a| ==> Run((a + b)[..k], v) == Run(a[..k], v)
    ensures |a| <= k ==> Run((a + b)[..k], v) == Run(b[..k - |a|], Run(a, v))
  {
    if k <= |a| {
      assert (a + b)[..k] == a[..k];
    }
    if |a| <= k {
      assert (a + b)[..k] == a + b[..k - |a|];
      RunConcat(a, b[..k - |a|], v);
    }
  }

  function Tail(w: World): seq<FileOp> {
    [UnlinkPending] + (if w.buildId.Some? then [WriteBuilt(w.buildId.value)] else [])
  }

  lemma TailRuns(w: World, v: Volume, k: nat)
    requires k <= |Tail(w)|
    ensures var c := Run(Tail(w)[..k], v);
            && c.dirs == v.dirs && c.registered == v.registered && c.locked == v.locked && c.current == v.current
            && c.pending == (if k == 0 then v.pending else None)
            && c.built == (if k == 2 then w.buildId else v.built)
  {
    FirstSteps(Tail(w), v);
  }

  /** Switching to the source head and clearing the markers, from the volume after the checkout. */
  lemma SwitchStaysOnCourse(v: Volume, w: World, u: Volume, r: Revision, k: nat)
    requires Sound(v) && w.sourceHead == Some(r) && (Rebuilt(v, w) || v.current.None?)
    requires OnCourse(u, v, w) && MarksOf(u) == MarksOf(v) && Complete(u, r)
    requires WouldMatch(u, w, r) && WouldMatch(v, w, r)
    requires EnsureSucceeds(v, w, r)
    requires k <= |SwitchOps(r) + Tail(w)|
    ensures OnCourse(Run((SwitchOps(r) + Tail(w))[..k], u), v, w) && !Due(Run((SwitchOps(r) + Tail(w))[..k], u), w)
    ensures k == |SwitchOps(r) + Tail(w)| ==> MarksOf(Run(SwitchOps(r) + Tail(w), u)) == Goal(v, w)
  {
    hide EnsureOps;
    var ops := SwitchOps(r) + Tail(w);
    RunPrefix(SwitchOps(r), Tail(w), k, u);
    if k < 3 {
      SwitchRuns(r, u, k);
    } else {
      SwitchRuns(r, u, 3);
      assert SwitchOps(r)[..3] == SwitchOps(r);
      TailRuns(w, Run(SwitchOps(r), u), k - 3);
      if k == |ops| {
        assert ops[..k] == ops;
      }
    }
  }

  /** Activating a pending release whose dependencies match. */
  lemma ActivateStaysOnCourse(v: Volume, w: World, r: Revision, k: nat)
    requires Sound(v) && !Rebuilt(v, w) && v.current.Some?
    requires PendingRelease(v) == Some(r) && !RebuildRequired(v, w)
    requires k <= |SwitchOps(r) + [UnlinkPending]|
    ensures OnCourse(Run((SwitchOps(r) + [UnlinkPending])[..k], v), v, w)
    ensures !Due(Run((SwitchOps(r) + [UnlinkPending])[..k], v), w)
    ensures k == 4 ==> MarksOf(Run(SwitchOps(r) + [UnlinkPending], v)) == Goal(v, w)
  {
    hide EnsureOps;
    var ops := SwitchOps(r) + [UnlinkPending];
    RunPrefix(SwitchOps(r), [UnlinkPending], k, v);
    SwitchRuns(r, v, if k < 3 then k else 3);
    assert SwitchOps(r)[..3] == SwitchOps(r);
    if k == 4 {
      assert ops[..4] == ops && [UnlinkPending][..1] == [UnlinkPending];
      assert [UnlinkPending][1..] == [];
    } else if k == 3 {
      assert [UnlinkPending][..0] == [];
    }
  }

  /** Every crash point of a boot before pruning leaves the same boot to be done. */
  lemma PlanStaysOnCourse(v: Volume, w: World, m: Moment, k: nat)
    requires Sound(v) && k <= |BootPlan(v, w, m).ops|
    ensures OnCourse(Run(BootPlan(v, w, m).ops[..k], v), v, w)
    ensures k == |BootPlan(v, w, m).ops| ==>
              && MarksOf(Run(BootPlan(v, w, m).ops, v)) == Target(v, w)
              && (Boots(v, w) ==> !Due(Run(BootPlan(v, w, m).ops, v), w))
  {
    var plan := BootPlan(v, w, m);
    assert plan.ops[..|plan.ops|] == plan.ops;
    if (Rebuilt(v, w) || v.current.None?) && w.sourceHead.Some? {
      CheckoutBranch(v, w, m, k);
    } else if !(Rebuilt(v, w) || v.current.None?) && PendingRelease(v).Some? && !RebuildRequired(v, w) {
      ActivateStaysOnCourse(v, w, PendingRelease(v).value, k);
    } else {
      assert plan.ops[..k] == [];
    }
  }

  lemma CheckoutBranch(v: Volume, w: World, m: Moment, k: nat)
    requires Sound(v) && (Rebuilt(v, w) || v.current.None?) && w.sourceHead.Some?
    requires k <= |BootPlan(v, w, m).ops|
    ensures OnCourse(Run(BootPlan(v, w, m).ops[..k], v), v, w)
    ensures k == |BootPlan(v, w, m).ops| ==>
              && MarksOf(Run(BootPlan(v, w, m).ops, v)) == Target(v, w)
              && (Boots(v, w) ==> !Due(Run(BootPlan(v, w, m).ops, v), w))
  {
    hide OnCourse, SwitchOps, Sound, Run, EnsureOps, WouldMatch, Refuses;
    assert v.locked <= v.registered by { SoundRegistry(v); }
    var r, ops := w.sourceHead.value, BootPlan(v, w, m).ops;
    var ensure := EnsureOps(v, w, m, r);
    assert ops[..|ops|] == ops && ensure[..|ensure|] == ensure;
    EnsurePrefix(v, w, m, r, |ensure|);
    var u := Run(ensure, v);
    EnsureStaysOnCourse(v, w, r, u);
    if k <= |ensure| {
      EnsurePrefix(v, w, m, r, k);
      EnsureStaysOnCourse(v, w, r, Run(ensure[..k], v));
    }
    PreparedMatches(v, w, u, r);
    if !EnsureSucceeds(v, w, r) || (!WouldMatch(v, w, r) && v.current.None?) {
      assert ops == ensure;
    } else if WouldMatch(v, w, r) {
      RunPrefix(ensure, SwitchOps(r) + Tail(w), k, v);
      if |ensure| <= k {
        SwitchStaysOnCourse(v, w, u, r, k - |ensure|);
        assert ops == ensure + (SwitchOps(r) + Tail(w));
        assert (SwitchOps(r) + Tail(w))[..|SwitchOps(r) + Tail(w)|] == SwitchOps(r) + Tail(w);
      }
    } else {
      RunPrefix(ensure, [WritePending(r)], k, v);
      if |ensure| < k {
        NameIsOnCourse(v, w, u, r);
        assert [WritePending(r)][..1] == [WritePending(r)];
      }
    }
  }

  lemma SoundRegistry(v: Volume)
    requires Sound(v)
    ensures v.locked <= v.registered
  {}

  /** Preparing a release does not change whether it matches. */
  lemma PreparedMatches(v: Volume, w: World, u: Volume, r: Revision)
    requires Complete(v, r) ==> u == v
    requires Complete(u, r) && !Complete(v, r) ==> u.dirs[r].deps == w.deps(r)
    ensures WouldMatch(u, w, r) <==> WouldMatch(v, w, r)
    ensures Complete(u, r) ==> (Matches(u, w, r) <==> WouldMatch(v, w, r))
  {}

  /** Naming the checked-out head as pending, when its dependencies do not match. */
  lemma NameIsOnCourse(v: Volume, w: World, u: Volume, r: Revision)
    requires Sound(v) && w.sourceHead == Some(r) && Rebuilt(v, w) && v.current.Some?
    requires OnCourse(u, v, w) && MarksOf(u) == MarksOf(v) && Complete(u, r)
    requires !WouldMatch(u, w, r) && !WouldMatch(v, w, r)
    requires EnsureSucceeds(v, w, r)
    ensures OnCourse(Run([WritePending(r)], u), v, w) && !Due(Run([WritePending(r)], u), w)
    ensures MarksOf(Run([WritePending(r)], u)) == Goal(v, w)
  {
    hide EnsureOps;
    assert [WritePending(r)][1..] == [];
  }

  // ----- pruning -----

  /** What removals, finished or not, leave alone. */
  ghost predicate OnlyGone(c: Volume, v: Volume, rs: seq<Revision>) {
    && MarksOf(c) == MarksOf(v) && c.dirs.Keys <= v.dirs.Keys
    && (v.locked <= v.registered ==> c.locked <= c.registered)
    && (forall x :: x in v.dirs && x !in rs ==> x in c.dirs && c.dirs[x] == v.dirs[x])
  }

  /** At any point of pruning the releases to go may be torn or gone; no other is touched, and no mark. */
  lemma {:induction false} RemovalsRun(m: Moment, rs: seq<Revision>, v: Volume, k: nat)
    requires k <= |Removals(m, rs)|
    ensures OnlyGone(Run(Removals(m, rs)[..k], v), v, rs)
    ensures k == |Removals(m, rs)| ==> forall x :: x in rs ==> x !in Run(Removals(m, rs)[..k], v).dirs
    decreases |rs|
  {
    if rs == [] {
      assert Removals(m, rs)[..k] == [];
    } else {
      var r, rest := rs[0], Removals(m, rs[1..]);
      RunPrefix(DiscardOps(m, r), rest, k, v);
      DiscardRuns(m, r, v, if k < 4 then k else 4);
      assert DiscardOps(m, r)[..4] == DiscardOps(m, r);
      assert rs == [r] + rs[1..];
      if k >= 4 {
        RemovalsRun(m, rs[1..], Run(DiscardOps(m, r), v), k - 4);
        GoneStaysGone(Run(rest[..k - 4], Run(DiscardOps(m, r), v)), Run(DiscardOps(m, r), v), v, rs);
      } else {
        OneGone(Run(DiscardOps(m, r)[..k], v), v, rs);
      }
    }
  }

  lemma OneGone(c: Volume, v: Volume, rs: seq<Revision>)
    requires rs != [] && SameBut(c, v, rs[0]) && (rs[0] in c.dirs ==> rs[0] in v.dirs)
    ensures OnlyGone(c, v, rs)
  {
    assert forall x :: x in c.dirs ==> x in v.dirs;
  }

  lemma GoneStaysGone(c: Volume, u: Volume, v: Volume, rs: seq<Revision>)
    requires rs != [] && OnlyGone(c, u, rs[1..]) && SameBut(u, v, rs[0]) && rs[0] !in u.dirs
    ensures OnlyGone(c, v, rs) && rs[0] !in c.dirs
  {
    assert rs == [rs[0]] + rs[1..];
    assert forall x :: x in u.dirs ==> x in v.dirs;
  }

  /** The releases a pruning removes, newest first. */
  ghost predicate Prunes(v: Volume, m: Moment, ops: seq<FileOp>, gone: seq<Revision>) {
    && ops == Removals(m, gone) && (forall x :: x in gone ==> x in Superseded(v))
  }

  lemma PruneIsRemovals(v: Volume, m: Moment, ops: seq<FileOp>) returns (gone: seq<Revision>)
    requires PruneOps(v, m, ops)
    ensures Prunes(v, m, ops, gone)
  {
    var rs: seq<Revision> :| Ordered(v, rs, Superseded(v)) &&
      ops == Removals(m, if |rs| > RELEASE_RETENTION then rs[RELEASE_RETENTION..] else []);
    gone := if |rs| > RELEASE_RETENTION then rs[RELEASE_RETENTION..] else [];
    forall x | x in gone ensures x in Superseded(v) {
      assert x in rs;
    }
  }

  /** Pruning touches neither the serving nor the waiting release, at any point of it. */
  lemma PruneStaysOnCourse(v: Volume, w: World, m: Moment, ops: seq<FileOp>, k: nat)
    requires Sound(v) && Target(v, w) == MarksOf(v) && Boots(v, w) && !Due(v, w)
    requires PruneOps(v, m, ops) && k <= |ops|
    ensures OnCourse(Run(ops[..k], v), v, w) && !Due(Run(ops[..k], v), w)
    ensures MarksOf(Run(ops[..k], v)) == MarksOf(v)
    ensures OnlySupersededGone(Run(ops[..k], v), v)
  {
    hide PruneOps, Removals, Run, Target, Boots, OnCourse, Sound, Due;
    var gone := PruneIsRemovals(v, m, ops);
    RemovalsRun(m, gone, v, k);
    PrunedIsOnCourse(v, w, Run(ops[..k], v));
  }

  ghost predicate OnlySupersededGone(c: Volume, v: Volume) {
    && MarksOf(c) == MarksOf(v) && c.dirs.Keys <= v.dirs.Keys
    && (forall x :: x in v.dirs && x !in Superseded(v) ==> x in c.dirs && c.dirs[x] == v.dirs[x])
  }

  /** Of the superseded releases pruning leaves exactly the newest; it touches no other and no mark. */
  lemma PruneKeepsTheNewest(v: Volume, m: Moment, ops: seq<FileOp>)
    requires PruneOps(v, m, ops)
    ensures var c := Run(ops, v);
            && MarksOf(c) == MarksOf(v)
            && (forall r :: r in c.dirs ==> r in v.dirs && c.dirs[r] == v.dirs[r])
            && (forall r :: r in v.dirs ==>
                  (r in c.dirs
                   <==> r !in Superseded(v) || (forall s :: s in Superseded(v) && s != r ==> Newer(v, r, s))))
  {
    var rs: seq<Revision> :| Ordered(v, rs, Superseded(v)) &&
      ops == Removals(m, if |rs| > RELEASE_RETENTION then rs[RELEASE_RETENTION..] else []);
    var gone := if |rs| > RELEASE_RETENTION then rs[RELEASE_RETENTION..] else [];
    RemovalsRun(m, gone, v, |ops|);
    assert ops[..|ops|] == ops;
    forall r | r in Superseded(v)
      ensures r in gone <==> !(forall s :: s in Superseded(v) && s != r ==> Newer(v, r, s))
    {
      var k :| 0 <= k < |rs| && rs[k] == r;
      if k > 0 {
        assert gone[k - 1] == r;
        assert Newer(v, rs[0], r) && rs[0] in Superseded(v);
      } else {
        NewestStays(v, rs, Superseded(v));
      }
    }
    forall r | r in v.dirs && r !in Superseded(v) ensures r !in gone {
      assert forall x :: x in gone ==> x in rs;
    }
  }

  lemma NewestStays(v: Volume, rs: seq<Revision>, members: set<Revision>)
    requires members <= v.dirs.Keys && Ordered(v, rs, members) && rs != []
    ensures rs[0] !in rs[1..]
    ensures forall s :: s in members && s != rs[0] ==> Newer(v, rs[0], s)
  {
    forall s | s in members && s != rs[0] ensures Newer(v, rs[0], s) {
      var k :| 0 <= k < |rs| && rs[k] == s;
    }
  }

  lemma PrunedIsOnCourse(v: Volume, w: World, c: Volume)
    requires Sound(v) && Target(v, w) == MarksOf(v) && Boots(v, w) && !Due(v, w) && OnlyGoneOf(c, v)
    ensures OnCourse(c, v, w) && OnlySupersededGone(c, v) && !Due(c, w)
  {
    hide EnsureOps, SwitchOps, Refuses;
    var gone: seq<Revision> :| OnlyGone(c, v, gone) && forall x :: x in gone ==> x in Superseded(v);
    assert v.current.Some? ==> v.current.value !in Superseded(v);
    assert v.pending.Some? ==> v.pending.value !in Superseded(v);
    if w.sourceHead.Some? && Rebuilt(v, w) {
      assert v.pending == w.sourceHead;
    }
  }

  ghost predicate OnlyGoneOf(c: Volume, v: Volume) {
    exists gone: seq<Revision> :: OnlyGone(c, v, gone) && forall x :: x in gone ==> x in Superseded(v)
  }

  // ----- boot recovery converges -----

  /** From the end of a boot plan, another boot has nothing left to decide. */
  lemma TargetIsFixed(v: Volume, w: World, m: Moment)
    requires Sound(v) && Boots(v, w)
    ensures var u := Run(BootPlan(v, w, m).ops, v);
            Sound(u) && Boots(u, w) && !Due(u, w) && MarksOf(u) == Target(v, w) == Target(u, w)
  {
    hide Able, Sound, BootPlan, Goal, Due;
    var ops := BootPlan(v, w, m).ops;
    assert ops[..|ops|] == ops;
    PlanStaysOnCourse(v, w, m, |ops|);
  }

  lemma BootPrefixOnCourse(v: Volume, w: World, m: Moment, ops: seq<FileOp>, k: nat)
    requires Sound(v) && BootOps(v, w, m, ops) && k <= |ops|
    ensures OnCourse(Run(ops[..k], v), v, w)
    ensures MarksOf(Run(ops, v)) == Target(v, w)
  {
    var plan := BootPlan(v, w, m);
    BootsIs(v, w, m);
    hide BootPlan, Target, OnCourse, Sound, PruneOps, Boots, Due;
    assert plan.ops[..|plan.ops|] == plan.ops && ops[..|ops|] == ops;
    PlanStaysOnCourse(v, w, m, |plan.ops|);
    if !plan.boots {
      PlanStaysOnCourse(v, w, m, k);
    } else {
      var prune: seq<FileOp> :| PruneOps(Run(plan.ops, v), m, prune) && ops == plan.ops + prune;
      var u := Run(plan.ops, v);
      TargetIsFixed(v, w, m);
      RunPrefix(plan.ops, prune, |ops|, v);
      assert prune[..|prune|] == prune;
      PruneStaysOnCourse(u, w, m, prune, |prune|);
      RunPrefix(plan.ops, prune, k, v);
      if k <= |plan.ops| {
        PlanStaysOnCourse(v, w, m, k);
      } else {
        PruneStaysOnCourse(u, w, m, prune, k - |plan.ops|);
        CourseComposes(Run(prune[..k - |plan.ops|], u), u, v, w);
      }
    }
  }

  lemma CourseComposes(c: Volume, u: Volume, v: Volume, w: World)
    requires OnCourse(c, u, w) && OnCourse(u, v, w)
    ensures OnCourse(c, v, w)
  {}

  /** Where a boot ends that starts on the course of another: at its goal, unless the checkout is refused. */
  ghost predicate EndsOnCourse(c: Volume, v: Volume, w: World, last: Volume) {
    && (Refused(c, w) ==> !Boots(c, w) && MarksOf(last) == MarksOf(c) == MarksOf(v))
    && (!Refused(c, w) ==> MarksOf(last) == Goal(v, w) && (Boots(c, w) <==> Able(v, w)))
  }

  lemma OnCourseEnds(c: Volume, v: Volume, w: World, later: Moment, last: seq<FileOp>)
    requires OnCourse(c, v, w) && BootOps(c, w, later, last)
    ensures EndsOnCourse(c, v, w, Run(last, c))
  {
    hide BootOps, Goal, Able, Refuses;
    BootPrefixOnCourse(c, w, later, last, |last|);
  }

  /** It ends as the other one, which was not refused. */
  predicate EndsAlike(c: Volume, v: Volume, w: World, last: Volume, end: Volume) {
    MarksOf(last) == MarksOf(end) && (Boots(c, w) <==> Boots(v, w))
  }

  /**
   Crash at any operation of a boot, inside a removal too, then boot again at any later time with the same
   image and source head. The second boot ends at the goal of the first, unless the crash left the source
   head registered without its directory or locked: then it fails with the marks unchanged. So it ends as the
   first would have exactly when that did not happen, or the first would have failed anyway.
   */
  lemma BootConverges(v: Volume, w: World, m: Moment, ops: seq<FileOp>, k: nat, later: Moment, again: seq<FileOp>)
    requires Sound(v) && BootOps(v, w, m, ops) && k <= |ops|
    requires BootOps(Run(ops[..k], v), w, later, again)
    ensures var c := Run(ops[..k], v);
            && OnCourse(c, v, w) && EndsOnCourse(c, v, w, Run(again, c))
            && (!Refused(v, w) ==>
                  (EndsAlike(c, v, w, Run(again, c), Run(ops, v)) <==> !(Refused(c, w) && Able(v, w))))
  {
    hide BootOps, Goal, Able, Refuses;
    BootPrefixOnCourse(v, w, m, ops, k);
    OnCourseEnds(Run(ops[..k], v), v, w, later, again);
    UnableKeepsMarks(v, w);
  }

  /** A boot that could not serve anything would have left the marks alone. */
  lemma UnableKeepsMarks(v: Volume, w: World)
    ensures !Able(v, w) ==> Goal(v, w) == MarksOf(v)
  {
    hide WouldMatch;
  }

  // ----- when the checkout is refused -----

  /**
   The crash points that make the next checkout fail: between the removal of the head's directory and of its
   registration, and while `git worktree add` holds its lock. Only the second leaves a lock.
   */
  lemma CrashRefuses(v: Volume, w: World, m: Moment, r: Revision, k: nat)
    requires v.locked <= v.registered && !Complete(v, r) && w.checkoutWorks(r) && !Refuses(v, r)
    requires k <= |EnsureOps(v, w, m, r)|
    ensures var c, n := Run(EnsureOps(v, w, m, r)[..k], v), if r in v.dirs then 4 else 0;
            && (!Complete(c, r) && Refuses(c, r) <==> (k == 2 && r in v.dirs && r in v.registered) || n < k <= n + 3)
            && (r in c.locked <==> n < k <= n + 3)
  {
    hide Run, DiscardOps, CheckoutOps;
    var first := if r in v.dirs then DiscardOps(m, r) else [];
    var last := CheckoutOps(w, m, r);
    AddLength(w, m, r);
    assert first[..|first|] == first;
    RunPrefix(first, last, k, v);
    NoSteps(v);
    if r in v.dirs {
      DiscardRuns(m, r, v, if k <= 4 then k else 4);
    }
    if k >= |first| {
      CheckoutRuns(w, m, r, Run(first, v), k - |first|);
    }
  }

  /** A whole boot leaves the checkout refused only when it was, by a lock: the failure clears the registration. */
  lemma RefusalEnds(c: Volume, w: World, m: Moment, ops: seq<FileOp>)
    requires Sound(c) && BootOps(c, w, m, ops)
    ensures var u := Run(ops, c);
            OnCourse(u, c, w) && (Refused(u, w) <==> Refused(c, w) && w.sourceHead.value in c.locked)
  {
    var plan := BootPlan(c, w, m);
    BootsIs(c, w, m);
    BootPrefixOnCourse(c, w, m, ops, |ops|);
    assert ops[..|ops|] == ops;
    if plan.boots {
      hide BootPlan, PruneOps, Boots, Able, Goal, Refuses;
      var prune: seq<FileOp> :| PruneOps(Run(plan.ops, c), m, prune) && ops == plan.ops + prune;
      TargetIsFixed(c, w, m);
      RunPrefix(plan.ops, prune, |ops|, c);
      assert prune[..|prune|] == prune;
      PruneStaysOnCourse(Run(plan.ops, c), w, m, prune, |prune|);
    } else if Due(c, w) {
      hide BootPlan, Able, Goal;
      DueFails(c, w, m);
      FailedEnsure(c, w, m, w.sourceHead.value);
    } else {
      hide Able, Goal, Refuses;
    }
  }

  lemma DueFails(c: Volume, w: World, m: Moment)
    requires Due(c, w) && !BootPlan(c, w, m).boots
    ensures BootPlan(c, w, m).ops == EnsureOps(c, w, m, w.sourceHead.value)
  {
    hide EnsureOps, SwitchOps;
  }

  /** Preparing a release leaves its registration in doubt only if it was locked. */
  lemma FailedEnsure(c: Volume, w: World, m: Moment, r: Revision)
    requires c.locked <= c.registered && !Complete(c, r)
    ensures var u := Run(EnsureOps(c, w, m, r), c);
            !Complete(u, r) ==> (Refuses(u, r) <==> Refuses(c, r) && r in c.locked)
    ensures var u := Run(EnsureOps(c, w, m, r), c);
            Complete(u, r) ==> EnsureSucceeds(c, w, r)
  {
    hide Run, DiscardOps, CheckoutOps;
    var ops := EnsureOps(c, w, m, r);
    var first := if r in c.dirs then DiscardOps(m, r) else [];
    var last := if Refuses(c, r) then DiscardOps(m, r) else CheckoutOps(w, m, r);
    assert ops[..|ops|] == ops && first[..|first|] == first && last[..|last|] == last;
    AddLength(w, m, r);
    RunPrefix(first, last, |ops|, c);
    NoSteps(c);
    if r in c.dirs {
      DiscardRuns(m, r, c, |first|);
    }
    if Refuses(c, r) {
      DiscardRuns(m, r, Run(first, c), |last|);
    } else {
      CheckoutRuns(w, m, r, Run(first, c), |last|);
    }
  }

  /**
   The boot after the refused one: with no lock left behind it ends at the goal of the first boot, so one
   failed boot is all that a registration without its directory costs; with a lock it fails again.
   */
  lemma ThirdBootConverges(
      v: Volume, w: World, c: Volume, m: Moment, again: seq<FileOp>, later: Moment, last: seq<FileOp>)
    requires Sound(v) && OnCourse(c, v, w) && BootOps(c, w, m, again) && BootOps(Run(again, c), w, later, last)
    ensures var u := Run(again, c);
            && EndsOnCourse(u, v, w, Run(last, u))
            && (Refused(u, w) <==> Refused(c, w) && w.sourceHead.value in c.locked)
  {
    hide BootOps, Goal, Able, Refuses;
    RefusalEnds(c, w, m, again);
    CourseComposes(Run(again, c), c, v, w);
    OnCourseEnds(Run(again, c), v, w, later, last);
  }

  /** It happens: a crash between `rmtree` and `git worktree prune` makes the next boot fail where this one served. */
  lemma RetryIsRefused(f: Fingerprint, m: Moment, w: World)
    requires w == World(None, Some(f), Some(1), r => Some(f), r => true)
    ensures var v := Volume(None, None, None, None, map[1 := Release(false, false, true, None, 0)], {1}, {});
            var c := Run(EnsureOps(v, w, m, 1)[..2], v);
            Sound(v) && Boots(v, w) && EnsureOps(v, w, m, 1) <= BootPlan(v, w, m).ops && Refused(c, w) && 1 !in c.locked
  {
    var v := Volume(None, None, None, None, map[1 := Release(false, false, true, None, 0)], {1}, {});
    hide EnsureOps, SwitchOps, CheckoutOps, Run;
    var n := |EnsureOps(v, w, m, 1)|;
    assert n >= 2 by { EnsureLength(v, w, m, 1); }
    CrashRefuses(v, w, m, 1, 2);
    EnsurePrefix(v, w, m, 1, 2);
  }

  lemma EnsureLength(v: Volume, w: World, m: Moment, r: Revision)
    ensures !Complete(v, r) ==> |EnsureOps(v, w, m, r)| >= 4
  {}

  /** It happens for good: a first boot killed while `git worktree add` works never gets that head checked out. */
  lemma KilledAddSticks(f: Fingerprint, m: Moment, w: World)
    requires w == World(None, Some(f), Some(1), r => Some(f), r => true)
    ensures var c := Run(EnsureOps(EMPTY_VOLUME, w, m, 1)[..1], EMPTY_VOLUME);
            && Boots(EMPTY_VOLUME, w) && EnsureOps(EMPTY_VOLUME, w, m, 1) <= BootPlan(EMPTY_VOLUME, w, m).ops
            && Refused(c, w) && 1 in c.locked
  {
    hide EnsureOps, SwitchOps, CheckoutOps, Run;
    EnsureLength(EMPTY_VOLUME, w, m, 1);
    CrashRefuses(EMPTY_VOLUME, w, m, 1, 1);
    EnsurePrefix(EMPTY_VOLUME, w, m, 1, 1);
  }

  // ----- any number of crashes -----

  /** An interrupted boot: when it was tried, its operations, and how many were done. */
  datatype Attempt = Attempt(moment: Moment, ops: seq<FileOp>, done: nat)

  ghost predicate Interrupted(v: Volume, w: World, attempts: seq<Attempt>, c: Volume)
    decreases |attempts|
  {
    if attempts == [] then c == v
    else
      && BootOps(v, w, attempts[0].moment, attempts[0].ops) && attempts[0].done <= |attempts[0].ops|
      && Interrupted(Run(attempts[0].ops[..attempts[0].done], v), w, attempts[1..], c)
  }

  /** The same after any number of boots, crashed or refused, whenever each is tried. */
  lemma {:induction false} BootConvergesAfterCrashes(
      v: Volume, w: World, attempts: seq<Attempt>, c: Volume, later: Moment, last: seq<FileOp>)
    requires Sound(v) && Interrupted(v, w, attempts, c) && BootOps(c, w, later, last)
    ensures OnCourse(c, v, w) && EndsOnCourse(c, v, w, Run(last, c))
  {
    hide BootOps, Sound, Goal, Able, Refuses;
    InterruptedOnCourse(v, w, attempts, c);
    OnCourseEnds(c, v, w, later, last);
  }

  lemma {:induction false} InterruptedOnCourse(v: Volume, w: World, attempts: seq<Attempt>, c: Volume)
    requires Sound(v) && Interrupted(v, w, attempts, c)
    ensures OnCourse(c, v, w)
    decreases |attempts|
  {
    hide BootOps, Goal, Able;
    if attempts != [] {
      var a := attempts[0];
      BootPrefixOnCourse(v, w, a.moment, a.ops, a.done);
      InterruptedOnCourse(Run(a.ops[..a.done], v), w, attempts[1..], c);
      CourseComposes(c, Run(a.ops[..a.done], v), v, w);
    }
  }

  /** A locked checkout stays locked, however many boots are tried and however they are interrupted. */
  lemma {:induction false} LockSticks(v: Volume, w: World, attempts: seq<Attempt>, c: Volume)
    requires Sound(v) && Refused(v, w) && w.sourceHead.value in v.locked && Interrupted(v, w, attempts, c)
    ensures Refused(c, w) && w.sourceHead.value in c.locked && !Boots(c, w) && MarksOf(c) == MarksOf(v)
    decreases |attempts|
  {
    hide BootOps, Goal, Able, Refuses, Complete;
    if attempts != [] {
      var a := attempts[0];
      var u := Run(a.ops[..a.done], v);
      LockedBoot(v, w, a.moment, a.ops, a.done);
      LockSticks(u, w, attempts[1..], c);
    }
  }

  lemma LockedBoot(v: Volume, w: World, m: Moment, ops: seq<FileOp>, k: nat)
    requires Sound(v) && Refused(v, w) && w.sourceHead.value in v.locked && BootOps(v, w, m, ops) && k <= |ops|
    ensures var u := Run(ops[..k], v);
            Sound(u) && Refused(u, w) && w.sourceHead.value in u.locked && MarksOf(u) == MarksOf(v)
  {
    var r := w.sourceHead.value;
    BootsIs(v, w, m);
    hide BootPlan, Able, Goal, EnsureOps, Run;
    BootPrefixOnCourse(v, w, m, ops, k);
    DueFails(v, w, m);
    EnsurePrefix(v, w, m, r, k);
    LockedEnsure(v, w, m, r, k);
  }

  lemma LockedEnsure(v: Volume, w: World, m: Moment, r: Revision, k: nat)
    requires v.locked <= v.registered && !Complete(v, r) && r in v.locked && k <= |EnsureOps(v, w, m, r)|
    ensures var c := Run(EnsureOps(v, w, m, r)[..k], v); r in c.locked && !Complete(c, r)
  {
    hide Run, DiscardOps, CheckoutOps;
    var first := if r in v.dirs then DiscardOps(m, r) else [];
    assert first[..|first|] == first;
    RunPrefix(first, DiscardOps(m, r), k, v);
    NoSteps(v);
    if r in v.dirs {
      DiscardRuns(m, r, v, if k <= |first| then k else |first|);
    }
    if k >= |first| {
      DiscardRuns(m, r, Run(first, v), k - |first|);
    }
  }
}
