/**
 Whole runs of a deployment (pr_agent/dashboard/ops.py): boots, staged updates, restarts and
 rollbacks under the operations lock, with a crash possible between any two file operations.
 */
module ReleaseRuns {
  import opened Wrappers
  import opened ReleaseModel
  import opened ReleaseTheorems

  /** `Queued` is a prepared restart: it holds the lock, so no update is staged meanwhile. */
  datatype Phase = Down | Up | Queued(ticket: Option<Revision>)

  datatype System = System(vol: Volume, world: World, phase: Phase)

  /** How a queued restart goes: it starts, it is refused, or the pending marker cannot be removed. */
  datatype Fate = Starts | Refused | MarkerStuck

  function ActivateOps(v: Volume): seq<FileOp> {
    if PendingRelease(v).None? then [] else SwitchOps(PendingRelease(v).value) + [UnlinkPending]
  }

  function UndoSwitch(previous: Option<Revision>): seq<FileOp> {
    if previous.Some? then SwitchOps(previous.value) else []
  }

  function RestartOps(v: Volume, ticket: Option<Revision>, fate: Fate): seq<FileOp> {
    if ticket.None? || PendingRelease(v).None? then []
    else
      var p := PendingRelease(v).value;
      match fate
      case Starts => ActivateOps(v)
      case Refused => ActivateOps(v) + (UndoSwitch(v.current) + [WritePending(p)])
      case MarkerStuck => SwitchOps(p) + UndoSwitch(v.current)
  }

  datatype Event =
    | Boot(moment: Moment, ops: seq<FileOp>, done: nat)
    | HostChanges(world: World)
    | StageUpdate(when: Moment, revision: Revision, done: nat)
    | Prepare
    | Execute(fate: Fate, done: nat)
    | Kill

  /** `done` operations of a list were performed; fewer than all of them means a crash. */
  ghost predicate Partly(ops: seq<FileOp>, done: nat, v: Volume, v': Volume) {
    done <= |ops| && v' == Run(ops[..done], v)
  }

  ghost predicate Next(s: System, e: Event, s': System) {
    match e
    case Boot(m, ops, done) =>
      && s.phase.Down? && BootOps(s.vol, s.world, m, ops) && Partly(ops, done, s.vol, s'.vol)
      && s'.world == s.world
      && s'.phase == (if done == |ops| && Boots(s.vol, s.world) then Up else Down)
    case HostChanges(w) =>
      && s'.vol == s.vol && s'.phase == s.phase && s'.world == w
      && (s.phase.Down? || (w.buildId == s.world.buildId && w.baked == s.world.baked))
    case StageUpdate(m, r, done) =>
      var ops := StageOps(s.vol, s.world, m, r);
      && s.phase.Up? && s.vol.current.Some? && Partly(ops, done, s.vol, s'.vol)
      && s'.world == s.world
      && s'.phase == (if done == |ops| then Up else Down)
    case Prepare =>
      && s.phase.Up? && !RebuildRequired(s.vol, s.world)
      && s'.vol == s.vol && s'.world == s.world && s'.phase == Queued(PendingRelease(s.vol))
    case Execute(fate, done) =>
      s.phase.Queued? &&
      var ops := RestartOps(s.vol, s.phase.ticket, fate);
      && Partly(ops, done, s.vol, s'.vol)
      && s'.world == s.world
      && s'.phase == (if done == |ops| && fate != Starts then Up else Down)
    case Kill => s'.vol == s.vol && s'.world == s.world && s'.phase == Down
  }

  ghost predicate Safe(s: System) {
    && Sound(s.vol)
    && (!s.phase.Down? ==> s.vol.current.Some?)
    && (s.phase.Queued? && s.phase.ticket.Some? ==>
         PendingRelease(s.vol) == s.phase.ticket && Matches(s.vol, s.world, s.phase.ticket.value))
  }

  /** The link moved only to a finished release whose dependencies are the image's. */
  ghost predicate SwitchedSafely(s: System, s': System) {
    s'.vol.current == s.vol.current ||
    (s'.vol.current.Some? && Complete(s'.vol, s'.vol.current.value) && Matches(s'.vol, s.world, s'.vol.current.value))
  }

  // ----- boots -----

  /** The directories and their registrations are as they were. */
  predicate SameStore(c: Volume, v: Volume) {
    c.dirs == v.dirs && c.registered == v.registered && c.locked == v.locked
  }

  /** The link is where it was, or at a release that matches. */
  predicate MovedSafely(c: Volume, v: Volume, w: World) {
    c.current == v.current || (c.current.Some? && Matches(c, w, c.current.value))
  }

  lemma PlanMovesLinkSafely(v: Volume, w: World, m: Moment, k: nat)
    requires Sound(v) && k <= |BootPlan(v, w, m).ops|
    ensures MovedSafely(Run(BootPlan(v, w, m).ops[..k], v), v, w)
    ensures Boots(v, w) ==> Run(BootPlan(v, w, m).ops, v).current.Some?
  {
    hide Run, EnsureOps, Matches;
    var ops := BootPlan(v, w, m).ops;
    if (Rebuilt(v, w) || v.current.None?) && w.sourceHead.Some? {
      CheckoutMovesLinkSafely(v, w, m, k);
    } else if !(Rebuilt(v, w) || v.current.None?) && PendingRelease(v).Some? && !RebuildRequired(v, w) {
      var p := PendingRelease(v).value;
      ActivateMovesLink(v, p, k);
      ActivateMovesLink(v, p, 4);
      SameDirsMatch(v, Run(ops[..k], v), w, p);
      assert ops[..4] == ops;
    } else {
      assert ops[..k] == [] == ops;
      FirstSteps([], v);
    }
  }

  lemma SameDirsMatch(v: Volume, c: Volume, w: World, r: Revision)
    requires r in v.dirs ==> r in c.dirs && c.dirs[r] == v.dirs[r]
    ensures Matches(v, w, r) ==> Matches(c, w, r)
  {}

  lemma CheckoutMovesLinkSafely(v: Volume, w: World, m: Moment, k: nat)
    requires Sound(v) && (Rebuilt(v, w) || v.current.None?) && w.sourceHead.Some?
    requires k <= |BootPlan(v, w, m).ops|
    ensures MovedSafely(Run(BootPlan(v, w, m).ops[..k], v), v, w)
    ensures Boots(v, w) ==> Run(BootPlan(v, w, m).ops, v).current.Some?
  {
    hide Run, EnsureOps, Sound, Rebuilt, Matches, WouldMatch;
    var ops, r := BootPlan(v, w, m).ops, w.sourceHead.value;
    var ensure := EnsureOps(v, w, m, r);
    var rest := ops[|ensure|..];
    assert ops == ensure + rest && ensure[..|ensure|] == ensure && rest[..|rest|] == rest;
    SoundRegistry(v);
    EnsurePrefix(v, w, m, r, |ensure|);
    RunConcat(ensure, rest, v);
    RunPrefix(ensure, rest, k, v);
    PreparedMatches(v, w, Run(ensure, v), r);
    if k <= |ensure| {
      EnsurePrefix(v, w, m, r, k);
    } else {
      RestMovesLinkSafely(Run(ensure, v), w, r, rest, k - |ensure|);
    }
    if Boots(v, w) {
      RestMovesLinkSafely(Run(ensure, v), w, r, rest, |rest|);
    }
  }

  lemma ActivateMovesLink(v: Volume, p: Revision, k: nat)
    requires k <= 4
    ensures var c := Run((SwitchOps(p) + [UnlinkPending])[..k], v);
            && c.current == (if k < 3 then v.current else Some(p))
            && c.pending == (if k < 4 then v.pending else None)
            && c.built == v.built && SameStore(c, v)
  {
    RunPrefix(SwitchOps(p), [UnlinkPending], k, v);
    SwitchRuns(p, v, if k < 3 then k else 3);
    assert SwitchOps(p)[..3] == SwitchOps(p);
    FirstSteps([UnlinkPending], Run(SwitchOps(p), v));
  }

  lemma RestMovesLinkSafely(u: Volume, w: World, r: Revision, rest: seq<FileOp>, k: nat)
    requires k <= |rest|
    requires rest == [] || rest == [WritePending(r)] || (rest == SwitchOps(r) + Tail(w) && Matches(u, w, r))
    ensures var c := Run(rest[..k], u);
            && MovedSafely(c, u, w) && SameStore(c, u)
            && (k == |rest| && rest == SwitchOps(r) + Tail(w) ==> c.current == Some(r))
  {
    if rest == SwitchOps(r) + Tail(w) {
      RunPrefix(SwitchOps(r), Tail(w), k, u);
      SwitchRuns(r, u, if k < 3 then k else 3);
      assert SwitchOps(r)[..3] == SwitchOps(r);
      if k > 3 {
        TailRuns(w, Run(SwitchOps(r), u), k - 3);
      } else if k == 3 {
        TailRuns(w, Run(SwitchOps(r), u), 0);
      }
    } else {
      FirstSteps(rest, u);
    }
  }

  lemma BootMovesLinkSafely(v: Volume, w: World, m: Moment, ops: seq<FileOp>, k: nat)
    requires Sound(v) && BootOps(v, w, m, ops) && k <= |ops|
    ensures MovedSafely(Run(ops[..k], v), v, w)
    ensures Boots(v, w) ==> Run(ops, v).current.Some?
  {
    var plan := BootPlan(v, w, m);
    BootsIs(v, w, m);
    hide BootPlan, Sound, PruneOps, Matches, Boots, MovedSafely;
    assert plan.ops[..|plan.ops|] == plan.ops && ops[..|ops|] == ops;
    PlanMovesLinkSafely(v, w, m, |plan.ops|);
    if !plan.boots {
      PlanMovesLinkSafely(v, w, m, k);
    } else {
      var prune: seq<FileOp> :| PruneOps(Run(plan.ops, v), m, prune) && ops == plan.ops + prune;
      var u := Run(plan.ops, v);
      TargetIsFixed(v, w, m);
      RunPrefix(plan.ops, prune, |ops|, v);
      assert prune[..|prune|] == prune;
      PruneStaysOnCourse(u, w, m, prune, |prune|);
      RunPrefix(plan.ops, prune, k, v);
      if k <= |plan.ops| {
        PlanMovesLinkSafely(v, w, m, k);
      } else {
        PruneStaysOnCourse(u, w, m, prune, k - |plan.ops|);
        PrunedMovedSafely(Run(prune[..k - |plan.ops|], u), u, v, w);
      }
    }
  }

  lemma PrunedMovedSafely(c: Volume, u: Volume, v: Volume, w: World)
    requires OnlySupersededGone(c, u) && MovedSafely(u, v, w)
    ensures MovedSafely(c, v, w)
  {
    if u.current.Some? {
      assert u.current.value !in Superseded(u);
    }
  }

  // ----- staging and restarts -----

  lemma StagePrefix(v: Volume, w: World, m: Moment, r: Revision, k: nat)
    requires Sound(v) && v.current.Some? && k <= |StageOps(v, w, m, r)|
    ensures var c := Run(StageOps(v, w, m, r)[..k], v);
            && Sound(c) && c.current == v.current && SameElsewhere(c, v, r)
            && (c.pending == v.pending || c.pending == Some(r))
            && (k == |StageOps(v, w, m, r)| && EnsureSucceeds(v, w, r) ==> c.pending == Some(r))
  {
    hide EnsureOps;
    var ensure := EnsureOps(v, w, m, r);
    var rest := if EnsureSucceeds(v, w, r) then [WritePending(r)] else [];
    RunPrefix(ensure, rest, k, v);
    if k <= |ensure| {
      EnsurePrefix(v, w, m, r, k);
    } else {
      EnsurePrefix(v, w, m, r, |ensure|);
      assert ensure[..|ensure|] == ensure && rest[..1] == [WritePending(r)];
      FirstSteps(rest, Run(ensure, v));
    }
  }

  /** Releases other than `r` are as they were; `r` is too if it was finished, and whole if it now is. */
  ghost predicate SameElsewhere(c: Volume, v: Volume, r: Revision) {
    && (forall x :: x != r ==> (x in c.dirs <==> x in v.dirs) && (x in v.dirs ==> c.dirs[x] == v.dirs[x]))
    && (Complete(v, r) ==> r in c.dirs && c.dirs[r] == v.dirs[r])
    && (Complete(c, r) && !Complete(v, r) ==> c.dirs[r].intact)
  }

  /** A queued restart keeps the volume sound at every point, and moves the link only there and back. */
  lemma RestartPrefix(v: Volume, p: Revision, fate: Fate, k: nat)
    requires Sound(v) && v.current.Some? && PendingRelease(v) == Some(p)
    requires k <= |RestartOps(v, Some(p), fate)|
    ensures var c := Run(RestartOps(v, Some(p), fate)[..k], v);
            && SameStore(c, v) && c.built == v.built
            && (c.current == v.current || c.current == Some(p))
            && (c.pending == v.pending || c.pending.None?)
    ensures k == |RestartOps(v, Some(p), fate)| ==>
              var c := Run(RestartOps(v, Some(p), fate), v);
              MarksOf(c) == if fate == Starts then Marks(Some(p), None, v.built) else MarksOf(v)
  {
    var ops := RestartOps(v, Some(p), fate);
    var prev := v.current.value;
    assert ops[..|ops|] == ops;
    var there := SwitchOps(p) + [UnlinkPending];
    assert there[..4] == there && SwitchOps(p)[..3] == SwitchOps(p) && SwitchOps(prev)[..3] == SwitchOps(prev);
    match fate
    case Starts =>
      ActivateMovesLink(v, p, k);
    case Refused =>
      var back := SwitchOps(prev) + [WritePending(p)];
      RunPrefix(there, back, k, v);
      ActivateMovesLink(v, p, if k < 4 then k else 4);
      if k >= 4 {
        var u := Run(there, v);
        RunPrefix(SwitchOps(prev), [WritePending(p)], k - 4, u);
        SwitchRuns(prev, u, if k < 7 then k - 4 else 3);
        FirstSteps([WritePending(p)], Run(SwitchOps(prev), u));
      }
    case MarkerStuck =>
      RunPrefix(SwitchOps(p), SwitchOps(prev), k, v);
      SwitchRuns(p, v, if k < 3 then k else 3);
      if k >= 3 {
        SwitchRuns(prev, Run(SwitchOps(p), v), k - 3);
      }
  }

  /** A restart that does not start puts the link and the pending marker back exactly. */
  lemma FailedRestartRestores(s: System, fate: Fate)
    requires Safe(s) && s.phase.Queued? && fate != Starts
    ensures MarksOf(Run(RestartOps(s.vol, s.phase.ticket, fate), s.vol)) == MarksOf(s.vol)
  {
    if s.phase.ticket.Some? {
      RestartPrefix(s.vol, s.phase.ticket.value, fate, |RestartOps(s.vol, s.phase.ticket, fate)|);
    }
  }

  // ----- every step, every run -----

  /** Every event keeps the volume safe, and moves the link only to a matching release. */
  lemma StepIsSafe(s: System, e: Event, s': System)
    requires Safe(s) && Next(s, e, s')
    ensures Safe(s') && SwitchedSafely(s, s')
  {
    hide BootOps, BootPlan, StageOps, Boots;
    match e
    case Boot(m, ops, done) =>
      assert ops[..|ops|] == ops;
      BootPrefixOnCourse(s.vol, s.world, m, ops, done);
      BootMovesLinkSafely(s.vol, s.world, m, ops, done);
    case StageUpdate(m, r, done) =>
      StagePrefix(s.vol, s.world, m, r, done);
    case Execute(fate, done) =>
      hide RestartOps;
      var ops := RestartOps(s.vol, s.phase.ticket, fate);
      assert ops[..|ops|] == ops;
      if s.phase.ticket.Some? {
        RestartPrefix(s.vol, s.phase.ticket.value, fate, done);
      } else {
        NoTicketNoOps(s.vol, fate);
        assert ops[..done] == [];
      }
    case _ =>
  }

  lemma NoTicketNoOps(v: Volume, fate: Fate)
    ensures RestartOps(v, None, fate) == []
  {}

  ghost predicate Behaviour(states: seq<System>, events: seq<Event>) {
    && |states| == |events| + 1
    && states[0].vol == EMPTY_VOLUME && states[0].phase == Down
    && (forall k :: 0 <= k < |events| ==> Next(states[k], events[k], states[k + 1]))
  }

  /** From an empty volume, every state of every run is safe and every move of the link was. */
  lemma {:induction false} EveryRunIsSafe(states: seq<System>, events: seq<Event>, k: nat)
    requires Behaviour(states, events) && k <= |events|
    ensures Safe(states[k])
    ensures k > 0 ==> SwitchedSafely(states[k - 1], states[k])
  {
    hide Next;
    if k > 0 {
      EveryRunIsSafe(states, events, k - 1);
      StepIsSafe(states[k - 1], events[k - 1], states[k]);
    }
  }

  /**
   In every run, however often the next boot is interrupted or refused: unless the checkout of the source head
   is refused then, the boot after ends at the goal the first one had; else it fails with the marks unchanged.
   */
  lemma EveryRunRecovers(
      states: seq<System>, events: seq<Event>, k: nat,
      attempts: seq<Attempt>, c: Volume, later: Moment, last: seq<FileOp>)
    requires Behaviour(states, events) && k <= |events|
    requires Interrupted(states[k].vol, states[k].world, attempts, c)
    requires BootOps(c, states[k].world, later, last)
    ensures EndsOnCourse(c, states[k].vol, states[k].world, Run(last, c))
  {
    hide BootOps, EndsOnCourse;
    EveryRunIsSafe(states, events, k);
    BootConvergesAfterCrashes(states[k].vol, states[k].world, attempts, c, later, last);
  }

  // ----- torn releases -----

  /** The event prepares a release that an interrupted removal left looking finished. */
  predicate ReusesTorn(s: System, e: Event) {
    match e
    case Boot(_, _, _) =>
      (Rebuilt(s.vol, s.world) || s.vol.current.None?) && s.world.sourceHead.Some?
        && Torn(s.vol, s.world.sourceHead.value)
    case StageUpdate(_, r, _) => Torn(s.vol, r)
    case _ => false
  }

  /** A boot that served, or an update that was staged to its end. */
  predicate Finishes(s: System, e: Event) {
    match e
    case Boot(_, ops, done) => done == |ops| && Boots(s.vol, s.world)
    case StageUpdate(m, r, done) => done == |StageOps(s.vol, s.world, m, r)|
    case _ => false
  }

  /** At any point of preparing and naming a release: who is named, and what became of the directories. */
  ghost predicate NamesOnly(c: Volume, v: Volume, r: Revision) {
    && SameElsewhere(c, v, r)
    && (c.current == v.current || c.current == Some(r))
    && (c.pending == v.pending || c.pending == Some(r) || c.pending.None?)
  }

  lemma NamedIsServed(c: Volume, v: Volume, r: Revision)
    requires NamesOnly(c, v, r) && Served(v) && Sound(c) && !Torn(v, r)
    ensures Served(c)
  {}

  lemma TornIsNotServed(c: Volume, v: Volume, r: Revision)
    requires SameElsewhere(c, v, r) && Torn(v, r) && (c.current == Some(r) || c.pending == Some(r))
    ensures !Served(c)
  {}

  /** Pruning takes nothing that is served. */
  lemma PruneKeepsServed(c: Volume, u: Volume)
    requires OnlySupersededGone(c, u) && Sound(u)
    ensures Served(c) <==> Served(u)
  {
    assert u.current.Some? ==> u.current.value !in Superseded(u);
    assert u.pending.Some? ==> u.pending.value !in Superseded(u);
  }

  lemma PlanNamesOnly(v: Volume, w: World, m: Moment, k: nat)
    requires Sound(v) && k <= |BootPlan(v, w, m).ops| && (Rebuilt(v, w) || v.current.None?) && w.sourceHead.Some?
    ensures NamesOnly(Run(BootPlan(v, w, m).ops[..k], v), v, w.sourceHead.value)
  {
    hide Run, EnsureOps, Sound, Rebuilt, Matches, WouldMatch;
    var ops, r := BootPlan(v, w, m).ops, w.sourceHead.value;
    var ensure := EnsureOps(v, w, m, r);
    var rest := ops[|ensure|..];
    assert ops == ensure + rest && ensure[..|ensure|] == ensure;
    RunPrefix(ensure, rest, k, v);
    SoundRegistry(v);
    EnsurePrefix(v, w, m, r, if k <= |ensure| then k else |ensure|);
    if k > |ensure| {
      RestNamesOnly(Run(ensure, v), w, r, rest, k - |ensure|);
    }
  }

  lemma RestNamesOnly(u: Volume, w: World, r: Revision, rest: seq<FileOp>, k: nat)
    requires k <= |rest|
    requires rest == [] || rest == [WritePending(r)] || rest == SwitchOps(r) + Tail(w)
    ensures var c := Run(rest[..k], u);
            && SameStore(c, u)
            && (c.current == u.current || c.current == Some(r))
            && (c.pending == u.pending || c.pending == Some(r) || c.pending.None?)
  {
    if rest == SwitchOps(r) + Tail(w) {
      RunPrefix(SwitchOps(r), Tail(w), k, u);
      SwitchRuns(r, u, if k < 3 then k else 3);
      assert SwitchOps(r)[..3] == SwitchOps(r);
      if k >= 3 {
        TailRuns(w, Run(SwitchOps(r), u), k - 3);
      }
    } else {
      FirstSteps(rest, u);
    }
  }

  /** Without a checkout to prepare, a boot moves the link to the pending release or nothing. */
  lemma ActivationIsServed(v: Volume, w: World, m: Moment, k: nat)
    requires Sound(v) && Served(v) && k <= |BootPlan(v, w, m).ops| && !(Rebuilt(v, w) || v.current.None?)
    ensures Served(Run(BootPlan(v, w, m).ops[..k], v))
  {
    hide Run, EnsureOps, Matches;
    var ops := BootPlan(v, w, m).ops;
    if PendingRelease(v).Some? && !RebuildRequired(v, w) {
      ActivateMovesLink(v, PendingRelease(v).value, k);
    } else {
      assert ops[..k] == [];
      FirstSteps([], v);
    }
  }

  lemma PlanServes(v: Volume, w: World, m: Moment, k: nat)
    requires Sound(v) && Served(v) && k <= |BootPlan(v, w, m).ops|
    requires (Rebuilt(v, w) || v.current.None?) && w.sourceHead.Some? ==> !Torn(v, w.sourceHead.value)
    ensures Served(Run(BootPlan(v, w, m).ops[..k], v))
  {
    hide Run, EnsureOps, WouldMatch, Served, Sound, Torn, OnCourse, NamesOnly;
    if Rebuilt(v, w) || v.current.None? {
      if w.sourceHead.Some? {
        PlanNamesOnly(v, w, m, k);
        PlanStaysOnCourse(v, w, m, k);
        CourseIsSound(Run(BootPlan(v, w, m).ops[..k], v), v, w);
        NamedIsServed(Run(BootPlan(v, w, m).ops[..k], v), v, w.sourceHead.value);
      } else {
        assert BootPlan(v, w, m).ops[..k] == [];
        FirstSteps([], v);
      }
    } else {
      ActivationIsServed(v, w, m, k);
    }
  }

  lemma CourseIsSound(c: Volume, v: Volume, w: World)
    requires OnCourse(c, v, w)
    ensures Sound(c)
  {}

  /** A finished boot that prepared a torn release names it. */
  lemma TornPlanServesTorn(v: Volume, w: World, m: Moment)
    requires Sound(v) && Boots(v, w) && (Rebuilt(v, w) || v.current.None?) && Torn(v, w.sourceHead.value)
    ensures !Served(Run(BootPlan(v, w, m).ops, v))
  {
    hide Run, EnsureOps, Torn, Served, NamesOnly, OnCourse;
    var ops := BootPlan(v, w, m).ops;
    assert ops[..|ops|] == ops;
    PlanNamesOnly(v, w, m, |ops|);
    PlanStaysOnCourse(v, w, m, |ops|);
    NamedSame(Run(ops, v), v, w.sourceHead.value);
    TornIsNotServed(Run(ops, v), v, w.sourceHead.value);
  }

  lemma NamedSame(c: Volume, v: Volume, r: Revision)
    requires NamesOnly(c, v, r)
    ensures SameElsewhere(c, v, r)
  {}

  lemma BootServes(v: Volume, w: World, m: Moment, ops: seq<FileOp>, k: nat)
    requires Sound(v) && Served(v) && BootOps(v, w, m, ops) && k <= |ops|
    ensures var torn := (Rebuilt(v, w) || v.current.None?) && w.sourceHead.Some? && Torn(v, w.sourceHead.value);
            && (!torn ==> Served(Run(ops[..k], v)))
            && (torn && k == |ops| && Boots(v, w) ==> !Served(Run(ops[..k], v)))
  {
    hide *;
    var torn := (Rebuilt(v, w) || v.current.None?) && w.sourceHead.Some? && Torn(v, w.sourceHead.value);
    var plan := BootPlan(v, w, m);
    BootsIs(v, w, m);
    var prune := BootSplits(v, w, m, ops);
    assert plan.ops[..|plan.ops|] == plan.ops;
    RunPrefix(plan.ops, prune, k, v);
    if !torn {
      PlanServes(v, w, m, if k <= |plan.ops| then k else |plan.ops|);
    } else if plan.boots {
      TornPlanServesTorn(v, w, m);
    }
    if plan.boots && k >= |plan.ops| {
      var u := Run(plan.ops, v);
      TargetIsFixed(v, w, m);
      PruneStaysOnCourse(u, w, m, prune, k - |plan.ops|);
      PruneKeepsServed(Run(prune[..k - |plan.ops|], u), u);
    }
  }

  lemma BootSplits(v: Volume, w: World, m: Moment, ops: seq<FileOp>) returns (prune: seq<FileOp>)
    requires BootOps(v, w, m, ops)
    ensures var plan := BootPlan(v, w, m);
            ops == plan.ops + prune && if plan.boots then PruneOps(Run(plan.ops, v), m, prune) else prune == []
  {
    hide BootPlan, PruneOps;
    var plan := BootPlan(v, w, m);
    if plan.boots {
      prune :| PruneOps(Run(plan.ops, v), m, prune) && ops == plan.ops + prune;
    } else {
      prune := [];
    }
  }

  /**
   The serving and the waiting release have all their files after every event, at every crash point of it,
   unless the event prepares a torn release; and one that does and finishes leaves that release named.
   */
  lemma StepServesWhole(s: System, e: Event, s': System)
    requires Safe(s) && Served(s.vol) && Next(s, e, s')
    ensures !ReusesTorn(s, e) ==> Served(s'.vol)
    ensures ReusesTorn(s, e) && Finishes(s, e) ==> !Served(s'.vol)
  {
    hide BootOps, BootPlan, StageOps, Boots, Rebuilt, Torn, EnsureSucceeds;
    match e
    case Boot(m, ops, done) =>
      hide Served, Sound;
      BootServes(s.vol, s.world, m, ops, done);
    case StageUpdate(m, r, done) =>
      hide Served, Sound;
      StagePrefix(s.vol, s.world, m, r, done);
      TornIsReused(s.vol, s.world, r);
      if Torn(s.vol, r) {
        if done == |StageOps(s.vol, s.world, m, r)| {
          assert StageOps(s.vol, s.world, m, r)[..done] == StageOps(s.vol, s.world, m, r);
          TornIsNotServed(s'.vol, s.vol, r);
        }
      } else {
        NamedIsServed(s'.vol, s.vol, r);
      }
    case Execute(fate, done) =>
      hide RestartOps;
      var ops := RestartOps(s.vol, s.phase.ticket, fate);
      if s.phase.ticket.Some? {
        RestartPrefix(s.vol, s.phase.ticket.value, fate, done);
      } else {
        NoTicketNoOps(s.vol, fate);
        assert ops[..done] == [];
      }
    case _ =>
  }

  lemma TornIsReused(v: Volume, w: World, r: Revision)
    ensures Torn(v, r) ==> EnsureSucceeds(v, w, r)
  {}

  /** A release becomes torn only when a boot is interrupted while it prunes. */
  lemma TornByInterruptedPruning(s: System, e: Event, s': System, r: Revision)
    requires Safe(s) && Next(s, e, s') && Torn(s'.vol, r) && !Torn(s.vol, r)
    ensures e.Boot? && |BootPlan(s.vol, s.world, e.moment).ops| < e.done < |e.ops|
  {
    hide BootOps, BootPlan, StageOps, Boots, Sound;
    match e
    case Boot(m, ops, done) =>
      BootTears(s.vol, s.world, m, ops, done, r);
    case StageUpdate(m, x, done) =>
      StagePrefix(s.vol, s.world, m, x, done);
    case Execute(fate, done) =>
      hide RestartOps;
      var ops := RestartOps(s.vol, s.phase.ticket, fate);
      if s.phase.ticket.Some? {
        RestartPrefix(s.vol, s.phase.ticket.value, fate, done);
      } else {
        NoTicketNoOps(s.vol, fate);
      }
    case _ =>
  }

  lemma PlanTearsNothing(v: Volume, w: World, m: Moment, k: nat, r: Revision)
    requires Sound(v) && k <= |BootPlan(v, w, m).ops| && !Torn(v, r)
    ensures !Torn(Run(BootPlan(v, w, m).ops[..k], v), r)
  {
    hide Run, EnsureOps, WouldMatch, Matches;
    var ops := BootPlan(v, w, m).ops;
    if (Rebuilt(v, w) || v.current.None?) && w.sourceHead.Some? {
      PlanNamesOnly(v, w, m, k);
    } else if !(Rebuilt(v, w) || v.current.None?) && PendingRelease(v).Some? && !RebuildRequired(v, w) {
      ActivateMovesLink(v, PendingRelease(v).value, k);
    } else {
      assert ops[..k] == [];
      FirstSteps([], v);
    }
  }

  lemma BootTears(v: Volume, w: World, m: Moment, ops: seq<FileOp>, k: nat, r: Revision)
    requires Sound(v) && BootOps(v, w, m, ops) && k <= |ops| && !Torn(v, r)
    ensures Torn(Run(ops[..k], v), r) ==> |BootPlan(v, w, m).ops| < k < |ops|
  {
    var plan := BootPlan(v, w, m);
    hide BootPlan, Sound, PruneOps, Torn;
    assert plan.ops[..|plan.ops|] == plan.ops;
    PlanTearsNothing(v, w, m, if k <= |plan.ops| then k else |plan.ops|, r);
    if plan.boots {
      var prune: seq<FileOp> :| PruneOps(Run(plan.ops, v), m, prune) && ops == plan.ops + prune;
      RunPrefix(plan.ops, prune, k, v);
      if k >= |plan.ops| {
        var gone := PruneIsRemovals(Run(plan.ops, v), m, prune);
        RemovalsRun(m, gone, Run(plan.ops, v), k - |plan.ops|);
        RemovalsTear(Run(plan.ops, v), Run(prune[..k - |plan.ops|], Run(plan.ops, v)), gone, k == |ops|, r);
        assert prune[..0] == [];
      }
    }
  }

  lemma RemovalsTear(u: Volume, c: Volume, gone: seq<Revision>, all: bool, r: Revision)
    requires OnlyGone(c, u, gone) && !Torn(u, r) && (all ==> forall x :: x in gone ==> x !in c.dirs)
    ensures all ==> !Torn(c, r)
  {}

  /** A run that never prepares a torn release serves and stages only whole ones. */
  lemma {:induction false} EveryRunServesWhole(states: seq<System>, events: seq<Event>, k: nat)
    requires Behaviour(states, events) && k <= |events|
    requires forall j :: 0 <= j < k ==> !ReusesTorn(states[j], events[j])
    ensures Served(states[k].vol)
  {
    hide Next, ReusesTorn;
    if k > 0 {
      EveryRunServesWhole(states, events, k - 1);
      EveryRunIsSafe(states, events, k - 1);
      StepServesWhole(states[k - 1], events[k - 1], states[k]);
    }
  }

  /**
   It can happen: pruning is interrupted while it removes release 1, the completion marker still being there;
   then an image is built whose source head is 1. The boot takes release 1 for finished and serves it.
   */
  lemma TornReleaseIsServed(deps: Fingerprint, world: World, m: Moment, later: Moment)
    requires world == World(Some(1), Some(deps), Some(1), r => Some(deps), r => true)
    requires m.torn(1) == Remains(true, true, Some(deps), 9)
    ensures var whole := (t: nat) => Release(true, true, true, Some(deps), t);
            var v := Volume(Some(3), None, None, Some(0), map[1 := whole(1), 2 := whole(2), 3 := whole(3)],
                            {1, 2, 3}, {});
            var ops := DiscardOps(m, 1);
            && Sound(v) && Served(v) && BootOps(v, world.(buildId := Some(0)), m, ops)
            && var c := Run(ops[..1], v);
               Torn(c, 1) && Boots(c, world) && Run(BootPlan(c, world, later).ops, c).current == Some(1)
               && !Served(Run(BootPlan(c, world, later).ops, c))
  {
    var whole := (t: nat) => Release(true, true, true, Some(deps), t);
    var v := Volume(Some(3), None, None, Some(0), map[1 := whole(1), 2 := whole(2), 3 := whole(3)], {1, 2, 3}, {});
    hide BootPlan, PruneOps, Superseded, BootOps, Boots;
    var ops := DiscardOps(m, 1);
    PruneOfThree(v, m);
    PlainBoot(v, world.(buildId := Some(0)), m, ops);
    FirstSteps(ops, v);
    TornHeadIsServed(Run(ops[..1], v), deps, world, later);
  }

  /** A boot of a rebuilt image whose source head is torn, its fingerprint being the image's. */
  lemma TornHeadIsServed(c: Volume, deps: Fingerprint, world: World, later: Moment)
    requires world == World(Some(1), Some(deps), Some(1), r => Some(deps), r => true)
    requires Sound(c) && Torn(c, 1) && c.dirs[1].deps == Some(deps) && c.built == Some(0)
    ensures var u := Run(BootPlan(c, world, later).ops, c); Boots(c, world) && u.current == Some(1) && !Served(u)
  {
    hide EnsureOps, SwitchOps, Served, Run, BootPlan;
    TornPlanServesTorn(c, world, later);
    PlanStaysOnCourse(c, world, later, |BootPlan(c, world, later).ops|);
  }

  lemma PlainBoot(v: Volume, w: World, m: Moment, prune: seq<FileOp>)
    requires !Rebuilt(v, w) && v.current.Some? && v.pending.None? && PruneOps(v, m, prune)
    ensures BootOps(v, w, m, prune)
  {
    assert [] + prune == prune;
  }

  lemma PruneOfThree(v: Volume, m: Moment)
    requires v.dirs.Keys == {1, 2, 3} && v.dirs[1].mtime == 1 && v.dirs[2].mtime == 2
    requires v.current == Some(3) && v.pending.None?
    ensures PruneOps(v, m, DiscardOps(m, 1))
  {
    var rs: seq<Revision> := [2, 1];
    assert Superseded(v) == {1, 2};
    assert rs[0] == 2 && rs[1] == 1;
    assert Ordered(v, rs, Superseded(v));
    assert rs[RELEASE_RETENTION..] == [1];
    assert [1][1..] == [] && Removals(m, [1]) == DiscardOps(m, 1);
  }
}
