/**
 What a boot, a staged update and a restart decide, case by case, read off the volume and the image
 (pr_agent/dashboard/ops.py).
 */
module ReleaseDecisions {
  import opened Wrappers
  import opened ReleaseModel
  import opened ReleaseRuns
  import opened ReleaseTheorems

  /** Both fingerprints can be read and are the same. */
  predicate Agree(baked: Option<Fingerprint>, deps: Option<Fingerprint>) {
    baked.Some? && deps.Some? && baked.value == deps.value
  }

  /** The directory of a revision that finished its checkout. */
  predicate Finished(v: Volume, r: Revision) { r in v.dirs && v.dirs[r].complete }

  /** A revision is there, or Git can check it out and neither a lock nor a stale registration stands in the way. */
  predicate Obtainable(v: Volume, w: World, r: Revision) {
    Finished(v, r)
    || (w.checkoutWorks(r) && r !in v.locked && (r in v.dirs || r !in v.registered))
  }

  /** The dependencies a revision has once it is there. */
  function DepsOf(v: Volume, w: World, r: Revision): Option<Fingerprint> {
    if Finished(v, r) then v.dirs[r].deps else w.deps(r)
  }

  /** An image that was rebuilt since the last one booted, or nothing to serve yet. */
  predicate StartsAfresh(v: Volume, w: World) {
    v.current.None? || (w.buildId.Some? && !(v.built.Some? && v.built.value == w.buildId.value))
  }

  /** The boot that starts afresh takes the source head, stages it, or gives up. */
  ghost predicate DecidesAfresh(v: Volume, w: World, u: Volume, boots: bool) {
    if w.sourceHead.None? || !Obtainable(v, w, w.sourceHead.value) then !boots && MarksOf(u) == MarksOf(v)
    else
      var r := w.sourceHead.value;
      if Agree(w.baked, DepsOf(v, w, r)) then
        boots && MarksOf(u) == Marks(Some(r), None, if w.buildId.Some? then w.buildId else v.built)
      else if v.current.Some? then boots && MarksOf(u) == Marks(v.current, Some(r), v.built)
      else !boots && MarksOf(u) == MarksOf(v)
  }

  /** Any other boot takes the pending release if it is there and the image has its dependencies. */
  ghost predicate DecidesAgain(v: Volume, w: World, u: Volume, boots: bool) {
    if v.pending.Some? && v.pending.value in v.dirs && Agree(w.baked, v.dirs[v.pending.value].deps) then
      boots && MarksOf(u) == Marks(v.pending, None, v.built)
    else boots && MarksOf(u) == MarksOf(v)
  }

  lemma ObtainableIs(v: Volume, w: World, r: Revision)
    requires v.locked <= v.registered
    ensures Obtainable(v, w, r) <==> Available(v, w, r) && (Complete(v, r) || !Refuses(v, r))
    ensures WouldMatch(v, w, r) <==> Agree(w.baked, DepsOf(v, w, r))
  {}

  lemma AfreshIs(v: Volume, w: World)
    ensures StartsAfresh(v, w) <==> Rebuilt(v, w) || v.current.None?
    ensures PendingRelease(v).Some? && !RebuildRequired(v, w)
            <==> v.pending.Some? && v.pending.value in v.dirs && Agree(w.baked, v.dirs[v.pending.value].deps)
    ensures PendingRelease(v).Some? ==> PendingRelease(v) == v.pending
  {}

  /** What an uninterrupted boot leaves, in every case, and whether it serves. */
  lemma BootDecides(v: Volume, w: World, m: Moment, ops: seq<FileOp>)
    requires Sound(v) && BootOps(v, w, m, ops)
    ensures var u, boots := Run(ops, v), BootPlan(v, w, m).boots;
            if StartsAfresh(v, w) then DecidesAfresh(v, w, u, boots) else DecidesAgain(v, w, u, boots)
  {
    hide BootOps, BootPlan, Sound, Run, Obtainable, Agree, DepsOf, Refuses, WouldMatch, Rebuilt, RebuildRequired;
    hide Complete, StartsAfresh, PendingRelease, Available;
    BootPrefixOnCourse(v, w, m, ops, |ops|);
    BootsIs(v, w, m);
    AfreshIs(v, w);
    SoundLocks(v);
    if w.sourceHead.Some? {
      ObtainableIs(v, w, w.sourceHead.value);
    }
  }

  lemma SoundLocks(v: Volume)
    requires Sound(v)
    ensures v.locked <= v.registered
  {}

  /** A staged update names the revision as pending exactly when it can be had; the served release stays. */
  lemma StageDecides(v: Volume, w: World, m: Moment, r: Revision)
    requires Sound(v) && v.current.Some?
    ensures var u := Run(StageOps(v, w, m, r), v);
            && u.current == v.current && u.built == v.built
            && u.pending == (if Obtainable(v, w, r) then Some(r) else v.pending)
            && (Obtainable(v, w, r) <==> Finished(u, r))
            && (Obtainable(v, w, r) ==> u.dirs[r].deps == DepsOf(v, w, r))
  {
    hide EnsureOps, Run, Sound, SameBut, Obtainable, Available, Refuses, DepsOf, WouldMatch, Agree;
    var ensure := EnsureOps(v, w, m, r);
    var rest := if EnsureSucceeds(v, w, r) then [WritePending(r)] else [];
    SoundLocks(v);
    EnsurePrefix(v, w, m, r, |ensure|);
    assert ensure[..|ensure|] == ensure;
    RunConcat(ensure, rest, v);
    SameMarks(Run(ensure, v), v, r);
    OneWrite(Run(ensure, v), r);
    ObtainableIs(v, w, r);
    SucceedsIs(v, w, r);
    DepsAre(v, w, r, Run(ensure, v));
  }

  lemma DepsAre(v: Volume, w: World, r: Revision, c: Volume)
    requires (Complete(v, r) ==> c == v) && (Complete(c, r) && !Complete(v, r) ==> c.dirs[r].deps == w.deps(r))
    ensures Complete(c, r) ==> c.dirs[r].deps == DepsOf(v, w, r)
  {}

  lemma SucceedsIs(v: Volume, w: World, r: Revision)
    ensures EnsureSucceeds(v, w, r) <==> Available(v, w, r) && (Complete(v, r) || !Refuses(v, r))
  {
    hide Refuses;
  }

  lemma SameMarks(c: Volume, v: Volume, r: Revision)
    requires SameBut(c, v, r)
    ensures MarksOf(c) == MarksOf(v)
  {}

  lemma OneWrite(c: Volume, r: Revision)
    ensures Run([WritePending(r)], c) == c.(pending := Some(r)) && Run([], c) == c
  {
    assert [WritePending(r)][1..] == [];
  }

  /** A restart is prepared only for a release with the image's dependencies: the waiting one, or else the served. */
  lemma RebuildRequiredExactly(v: Volume, w: World)
    ensures !RebuildRequired(v, w)
            <==> exists r :: r in v.dirs && Agree(w.baked, v.dirs[r].deps)
                             && (v.pending == Some(r) || (v.current == Some(r)
                                                          && !(v.pending.Some? && v.pending.value in v.dirs)))
  {}

  /** Where each fate of a queued restart leaves the link and the markers. */
  lemma RestartDecides(v: Volume, p: Revision, fate: Fate)
    requires Sound(v) && v.current.Some? && v.pending == Some(p) && p in v.dirs
    ensures var u := Run(RestartOps(v, Some(p), fate), v);
            && u.dirs == v.dirs
            && MarksOf(u) == if fate == Starts then Marks(Some(p), None, v.built)
                             else Marks(v.current, v.pending, v.built)
  {
    hide Run, RestartOps, Sound;
    var ops := RestartOps(v, Some(p), fate);
    assert ops[..|ops|] == ops;
    RestartPrefix(v, p, fate, |ops|);
  }

  /** The state after a queued restart of the staged release went through with the given fate. */
  ghost function Restarted(s: System, r: Revision, fate: Fate): System {
    System(Run(RestartOps(s.vol, Some(r), fate), s.vol), s.world, if fate == Starts then Down else Up)
  }

  /** An update can be staged, prepared and restarted into; a restart that fails leaves it waiting and serves on. */
  lemma UpdateGoesLive(s: System, m: Moment, r: Revision, fate: Fate)
    returns (staged: System, queued: System, after: System)
    requires Safe(s) && s.phase.Up?
    requires Obtainable(s.vol, s.world, r) && Agree(s.world.baked, DepsOf(s.vol, s.world, r))
    ensures Next(s, StageUpdate(m, r, |StageOps(s.vol, s.world, m, r)|), staged)
    ensures Next(staged, Prepare, queued)
    ensures Next(queued, Execute(fate, |RestartOps(queued.vol, Some(r), fate)|), after)
    ensures MarksOf(after.vol) == if fate == Starts then Marks(Some(r), None, s.vol.built)
                                  else Marks(s.vol.current, Some(r), s.vol.built)
    ensures after.phase == (if fate == Starts then Down else Up)
  {
    hide Run, Obtainable, DepsOf, StageOps, RestartOps, Sound, Agree, RebuildRequired;
    var ops := StageOps(s.vol, s.world, m, r);
    assert ops[..|ops|] == ops;
    staged := System(Run(ops, s.vol), s.world, Up);
    StageDecides(s.vol, s.world, m, r);
    StepIsSafe(s, StageUpdate(m, r, |ops|), staged);
    RebuildRequiredExactly(staged.vol, staged.world);
    queued := staged.(phase := Queued(Some(r)));
    after := Restarted(staged, r, fate);
    var last := RestartOps(staged.vol, Some(r), fate);
    assert last[..|last|] == last;
    RestartDecides(staged.vol, r, fate);
  }

  /** After a whole discard only registrations that are locked or still pointed at are left. */
  lemma DiscardSweeps(m: Moment, r: Revision, v: Volume)
    ensures var u := Run(DiscardOps(m, r), v);
            && r !in u.dirs && u.dirs.Keys == v.dirs.Keys - {r}
            && (forall x :: x in u.registered ==>
                  x in v.registered && (x in u.locked || (x in u.dirs && u.dirs[x].linked)))
            && (forall x :: x in v.registered && (x in v.locked || (x != r && x in v.dirs && v.dirs[x].linked)) ==>
                  x in u.registered)
  {
    var ops := DiscardOps(m, r);
    assert ops[..4] == ops;
    FirstSteps(ops, v);
  }
}
