/**
 The operations of pr_agent/dashboard/ops.py on the mutable volume. Every one of them performs, one
 atomic file operation at a time, exactly the list of operations the release theorems are about.
 */
module Releases {
  import opened Wrappers
  import opened ReleaseModel
  import opened ReleaseRuns
  import opened ReleaseTheorems

  datatype Activation = Activation(release: Revision, previous: Option<Revision>)

  lemma Chain(v: Volume, log: seq<FileOp>, a: seq<FileOp>, b: seq<FileOp>)
    ensures Run(a + b, v) == Run(b, Run(a, v))
    ensures log + a + b == log + (a + b)
  {
    RunConcat(a, b, v);
  }

  lemma NoOps(v: Volume, log: seq<FileOp>)
    ensures Run([], v) == v && log + [] == log
  {}

  lemma {:induction false} RemovalsAppend(m: Moment, rs: seq<Revision>, r: Revision)
    ensures Removals(m, rs + [r]) == Removals(m, rs) + DiscardOps(m, r)
    decreases |rs|
  {
    if rs == [] {
      assert [] + [r] == [r] && Removals(m, [r][1..]) == [];
      assert DiscardOps(m, r) + [] == DiscardOps(m, r) && [] + DiscardOps(m, r) == DiscardOps(m, r);
    } else {
      assert (rs + [r])[1..] == rs[1..] + [r];
      RemovalsAppend(m, rs[1..], r);
      assert DiscardOps(m, rs[0]) + (Removals(m, rs[1..]) + DiscardOps(m, r))
          == DiscardOps(m, rs[0]) + Removals(m, rs[1..]) + DiscardOps(m, r);
    }
  }

  class ReleaseVolume {
    var current: Option<Revision>
    var temp: Option<Revision>
    var pending: Option<Revision>
    var built: Option<BuildId>
    var dirs: map<Revision, Release>
    var registered: set<Revision>
    var locked: set<Revision>
    ghost var log: seq<FileOp>

    function Contents(): Volume
      reads this
    {
      Volume(current, temp, pending, built, dirs, registered, locked)
    }

    /** These file operations, in this order, and nothing else. */
    twostate predicate Performed(ops: seq<FileOp>)
      reads this
    {
      log == old(log) + ops && Contents() == Run(ops, old(Contents()))
    }

    constructor ()
      ensures Contents() == EMPTY_VOLUME && log == []
    {
      current, temp, pending, built, dirs, registered, locked, log := None, None, None, None, map[], {}, {}, [];
    }

    /** One file operation; a crash falls between two of these. */
    method Perform(op: FileOp)
      modifies this
      ensures Performed([op])
    {
      match op {
        case UnlinkTemp => temp := None;
        case LinkTemp(r) => temp := Some(r);
        case ReplaceLink => current, temp := temp, None;
        case UnlinkPending => pending := None;
        case WritePending(r) => pending := Some(r);
        case WriteBuilt(b) => built := Some(b);
        case AddDirectory(r, t) => dirs := dirs[r := Release(false, false, true, None, t)];
        case FillDirectory(r, deps, t) => dirs := dirs[r := Release(false, true, true, deps, t)];
        case MarkComplete(r, t) =>
          if r in dirs {
            dirs := dirs[r := dirs[r].(complete := true, mtime := t)];
          }
        case TearDirectory(r, m) =>
          if r in dirs {
            dirs := dirs[r := Left(dirs[r], m)];
          }
        case RemoveDirectory(r) => dirs := dirs - {r};
        case Register(r) => registered, locked := registered + {r}, locked + {r};
        case Unlock(r) => locked := locked - {r};
        case Forget(r) => registered, locked := registered - {r}, locked - {r};
        case Unregister(r) =>
          if r !in locked {
            registered := registered - {r};
          }
        case PruneStale =>
          registered := set r | r in registered && (r in locked || (r in dirs && dirs[r].linked));
      }
      log := log + [op];
      NoOps(Contents(), log);
      assert [op][1..] == [];
    }

    method SwitchActiveRelease(target: Revision) returns (previous: Option<Revision>)
      modifies this
      ensures previous == old(current)
      ensures Performed(SwitchOps(target))
    {
      ghost var v, l := Contents(), log;
      previous := current;
      Perform(UnlinkTemp);
      Perform(LinkTemp(target));
      Chain(v, l, [UnlinkTemp], [LinkTemp(target)]);
      Perform(ReplaceLink);
      Chain(v, l, [UnlinkTemp] + [LinkTemp(target)], [ReplaceLink]);
      assert [UnlinkTemp] + [LinkTemp(target)] + [ReplaceLink] == SwitchOps(target);
    }

    /** A failed unlink of the marker undoes the switch before the error surfaces. */
    method ActivatePendingRelease(markerStuck: bool) returns (activation: Option<Activation>)
      modifies this
      ensures var p := old(PendingRelease(Contents()));
              && Performed(if p.None? then [] else if markerStuck then SwitchOps(p.value) + UndoSwitch(old(current))
                           else ActivateOps(old(Contents())))
              && activation == (if p.None? || markerStuck then None else Some(Activation(p.value, old(current))))
    {
      hide Run, SwitchOps;
      ghost var v, l := Contents(), log;
      var waiting := PendingRelease(Contents());
      NoOps(v, l);
      if waiting.None? {
        return None;
      }
      var previous := SwitchActiveRelease(waiting.value);
      ghost var u, m := Contents(), log;
      NoOps(u, m);
      if markerStuck {
        if previous.Some? {
          var _ := SwitchActiveRelease(previous.value);
        }
        Chain(v, l, SwitchOps(waiting.value), UndoSwitch(previous));
        return None;
      }
      Perform(UnlinkPending);
      Chain(v, l, SwitchOps(waiting.value), [UnlinkPending]);
      activation := Some(Activation(waiting.value, previous));
    }

    method RollbackActivation(activation: Activation)
      modifies this
      ensures Performed(UndoSwitch(activation.previous) + [WritePending(activation.release)])
    {
      hide Run, SwitchOps;
      ghost var v, l := Contents(), log;
      NoOps(v, l);
      if activation.previous.Some? {
        var _ := SwitchActiveRelease(activation.previous.value);
      }
      Perform(WritePending(activation.release));
      Chain(v, l, UndoSwitch(activation.previous), [WritePending(activation.release)]);
    }

    /** The switch, the restart, and the rollback when the restart does not start. */
    method ExecuteRestart(ticket: Option<Revision>, fate: Fate)
      modifies this
      ensures Performed(RestartOps(old(Contents()), ticket, fate))
    {
      hide Run, SwitchOps, UndoSwitch;
      ghost var v, l := Contents(), log;
      NoOps(v, l);
      if ticket.Some? {
        var activation := ActivatePendingRelease(fate.MarkerStuck?);
        if fate.Refused? && activation.Some? {
          RollbackActivation(activation.value);
          Chain(v, l, ActivateOps(v), UndoSwitch(v.current) + [WritePending(activation.value.release)]);
        }
      }
    }

    /** Operations in a row. */
    method PerformAll(ops: seq<FileOp>)
      modifies this
      ensures Performed(ops)
    {
      hide Run;
      ghost var v, l := Contents(), log;
      NoOps(v, l);
      var k := 0;
      while k < |ops|
        invariant 0 <= k <= |ops|
        invariant Performed(ops[..k])
      {
        Perform(ops[k]);
        Chain(v, l, ops[..k], [ops[k]]);
        assert ops[..k] + [ops[k]] == ops[..k + 1];
        k := k + 1;
      }
      assert ops[..|ops|] == ops;
    }

    /** Files go one by one, then the directory, then its registration, then every registration left behind. */
    method DiscardReleaseWorktree(m: Moment, r: Revision)
      modifies this
      ensures Performed(DiscardOps(m, r))
    {
      PerformAll([TearDirectory(r, m.torn(r)), RemoveDirectory(r), Unregister(r), PruneStale]);
    }

    /** `git worktree add`: refused outright, or carried out, or undone by Git itself. */
    method AddWorktree(w: World, m: Moment, r: Revision) returns (ok: bool)
      requires r !in dirs
      modifies this
      ensures ok == (w.checkoutWorks(r) && r !in old(registered))
      ensures Performed(if r in old(registered) then [] else AddOps(w, m, r))
    {
      hide Run;
      NoOps(Contents(), log);
      if r in registered {
        return false;
      }
      PerformAll(AddOps(w, m, r));
      ok := w.checkoutWorks(r);
    }

    method EnsureReleaseWorktree(w: World, m: Moment, r: Revision) returns (ok: bool)
      requires locked <= registered
      modifies this
      ensures Performed(EnsureOps(old(Contents()), w, m, r))
      ensures ok == EnsureSucceeds(old(Contents()), w, r)
    {
      hide Run, DiscardOps, AddOps;
      ghost var v, l := Contents(), log;
      NoOps(v, l);
      if r in dirs && dirs[r].complete {
        return true;
      }
      ghost var first := if r in dirs then DiscardOps(m, r) else [];
      if r in dirs {
        DiscardReleaseWorktree(m, r);
        DiscardRuns(m, r, v, |DiscardOps(m, r)|);
        AddLength(w, m, r);
        assert DiscardOps(m, r)[..|DiscardOps(m, r)|] == DiscardOps(m, r);
      }
      ghost var u := Contents();
      assert r !in u.dirs && (r in u.registered <==> Refuses(v, r));
      ok := AddWorktree(w, m, r);
      ghost var add := if r in u.registered then [] else AddOps(w, m, r);
      Chain(v, l, first, add);
      ghost var end := if ok then [MarkComplete(r, m.now)] else DiscardOps(m, r);
      if ok {
        Perform(MarkComplete(r, m.now));
      } else {
        DiscardReleaseWorktree(m, r);
      }
      Chain(v, l, first + add, end);
      assert first + add + end == first + (add + end);
      assert add + end == if Refuses(v, r) then DiscardOps(m, r) else CheckoutOps(w, m, r);
    }

    /** Checking out a fetched revision and naming it as pending; the serving release is untouched. */
    method StageRelease(w: World, m: Moment, r: Revision) returns (ok: bool)
      requires locked <= registered
      modifies this
      ensures Performed(StageOps(old(Contents()), w, m, r))
      ensures ok == EnsureSucceeds(old(Contents()), w, r)
    {
      hide Run, EnsureOps;
      ghost var v, l := Contents(), log;
      ok := EnsureReleaseWorktree(w, m, r);
      ghost var ensure := EnsureOps(v, w, m, r);
      NoOps(Contents(), log);
      assert ensure + [] == ensure;
      if ok {
        Perform(WritePending(r));
        Chain(v, l, ensure, [WritePending(r)]);
      }
    }

    // ----- pruning -----

    method NewestOf(rest: set<Revision>) returns (best: Revision)
      requires rest != {} && rest <= dirs.Keys
      ensures best in rest
      ensures forall r :: r in rest && r != best ==> Newer(Contents(), best, r)
    {
      best :| best in rest;
      var todo := rest - {best};
      while todo != {}
        invariant todo <= rest && best in rest && best !in todo
        invariant forall r :: r in rest && r !in todo && r != best ==> Newer(Contents(), best, r)
        decreases |todo|
      {
        var r :| r in todo;
        if Newer(Contents(), r, best) {
          best := r;
        }
        todo := todo - {r};
      }
    }

    /** The candidates sorted newest first. */
    method NewestFirst(members: set<Revision>) returns (rs: seq<Revision>)
      requires members <= dirs.Keys
      ensures Ordered(Contents(), rs, members)
    {
      rs := [];
      var rest := members;
      while rest != {}
        invariant rest <= members && |rs| + |rest| == |members|
        invariant forall k :: 0 <= k < |rs| ==> rs[k] in members
        invariant forall r :: r in members ==> r in rs || r in rest
        invariant forall i, j :: 0 <= i < j < |rs| ==> Newer(Contents(), rs[i], rs[j])
        invariant forall k, r :: 0 <= k < |rs| && r in rest ==> Newer(Contents(), rs[k], r)
        decreases |rest|
      {
        var best := NewestOf(rest);
        rs := rs + [best];
        rest := rest - {best};
      }
    }

    method PruneReleases(m: Moment) returns (ghost ops: seq<FileOp>)
      modifies this
      ensures PruneOps(old(Contents()), m, ops) && Performed(ops)
    {
      hide Run, DiscardOps;
      ghost var v, l := Contents(), log;
      var waiting := PendingRelease(Contents());
      var rs := NewestFirst(set r | r in dirs && Some(r) != current && Some(r) != waiting);
      assert Ordered(v, rs, Superseded(v));
      ops := [];
      NoOps(v, l);
      var i := RELEASE_RETENTION;
      while i < |rs|
        invariant RELEASE_RETENTION <= i
        invariant i > |rs| ==> |rs| < RELEASE_RETENTION && ops == []
        invariant i <= |rs| ==> ops == Removals(m, rs[RELEASE_RETENTION..i])
        invariant Performed(ops)
      {
        RemovalsAppend(m, rs[RELEASE_RETENTION..i], rs[i]);
        assert rs[RELEASE_RETENTION..i + 1] == rs[RELEASE_RETENTION..i] + [rs[i]];
        DiscardReleaseWorktree(m, rs[i]);
        Chain(v, l, ops, DiscardOps(m, rs[i]));
        ops := ops + DiscardOps(m, rs[i]);
        i := i + 1;
      }
      assert |rs| > RELEASE_RETENTION ==> rs[RELEASE_RETENTION..|rs|] == rs[RELEASE_RETENTION..];
      assert |rs| == RELEASE_RETENTION ==> rs[RELEASE_RETENTION..|rs|] == [];
    }

    // ----- booting -----

    /** Choose the release to boot and point the link at it, up to pruning. */
    method ChooseRelease(w: World, m: Moment) returns (ok: bool)
      requires locked <= registered
      modifies this
      ensures Performed(BootPlan(old(Contents()), w, m).ops)
      ensures ok == BootPlan(old(Contents()), w, m).boots
    {
      hide Run, EnsureOps, SwitchOps, Matches, WouldMatch;
      ghost var v, l := Contents(), log;
      NoOps(v, l);
      var rebuilt := w.buildId.Some? && w.buildId != built;
      if rebuilt || current.None? {
        if w.sourceHead.None? {
          return false;
        }
        ok := BootFromSource(w, m, w.sourceHead.value);
      } else {
        var waiting := PendingRelease(Contents());
        if waiting.Some? && !RebuildRequired(Contents(), w) {
          var _ := ActivatePendingRelease(false);
        }
        ok := true;
      }
    }

    method BootFromSource(w: World, m: Moment, r: Revision) returns (ok: bool)
      requires Rebuilt(Contents(), w) || current.None?
      requires w.sourceHead == Some(r) && locked <= registered
      modifies this
      ensures Performed(BootPlan(old(Contents()), w, m).ops)
      ensures ok == BootPlan(old(Contents()), w, m).boots
    {
      hide Run, EnsureOps, SwitchOps, Matches, WouldMatch, Rebuilt, EnsureSucceeds, Refuses;
      ghost var v, l := Contents(), log;
      var first := current.None?;
      ok := EnsureReleaseWorktree(w, m, r);
      ghost var ensure := EnsureOps(v, w, m, r);
      if !ok {
        return;
      }
      EnsureRan(v, w, m, r);
      if Matches(Contents(), w, r) {
        var _ := SwitchActiveRelease(r);
        Chain(v, l, ensure, SwitchOps(r));
        Perform(UnlinkPending);
        Chain(v, l, ensure + SwitchOps(r), [UnlinkPending]);
        ghost var ops := ensure + SwitchOps(r) + [UnlinkPending];
        ghost var stamp := if w.buildId.Some? then [WriteBuilt(w.buildId.value)] else [];
        NoOps(Contents(), log);
        if w.buildId.Some? {
          Perform(WriteBuilt(w.buildId.value));
        }
        Chain(v, l, ops, stamp);
        Regroup(ensure, SwitchOps(r), [UnlinkPending], stamp);
      } else if first {
        ok := false;
      } else {
        Perform(WritePending(r));
        Chain(v, l, ensure, [WritePending(r)]);
      }
    }

    /** The launcher's decision, then pruning; it fails without pruning when nothing may be booted. */
    method ReconcileBootRelease(w: World, m: Moment) returns (ok: bool, ghost ops: seq<FileOp>)
      requires locked <= registered
      modifies this
      ensures BootOps(old(Contents()), w, m, ops) && Performed(ops)
      ensures ok == BootPlan(old(Contents()), w, m).boots
    {
      hide Run, BootPlan;
      ghost var v, l := Contents(), log;
      ok := ChooseRelease(w, m);
      ops := BootPlan(v, w, m).ops;
      if ok {
        ghost var prune;
        prune := PruneReleases(m);
        Chain(v, l, ops, prune);
        ops := ops + prune;
      }
    }
  }

  /** What the fingerprint of the prepared release says is what the decision was made on. */
  lemma EnsureRan(v: Volume, w: World, m: Moment, r: Revision)
    requires EnsureSucceeds(v, w, r) && v.locked <= v.registered
    ensures Matches(Run(EnsureOps(v, w, m, r), v), w, r) <==> WouldMatch(v, w, r)
  {
    hide EnsureOps, Matches, WouldMatch, Run;
    var ops := EnsureOps(v, w, m, r);
    assert ops[..|ops|] == ops;
    EnsurePrefix(v, w, m, r, |ops|);
    PreparedMatches(v, w, Run(ops, v), r);
  }

  lemma Regroup(a: seq<FileOp>, b: seq<FileOp>, c: seq<FileOp>, d: seq<FileOp>)
    ensures a + b + c + d == a + (b + (c + d))
  {}
}
