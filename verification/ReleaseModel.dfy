/**
 Release switching (pr_agent/dashboard/ops.py): the persistent volume with Git's worktree registry, their
 atomic operations, and what the code does, each as the list of operations it issues.

 A crash leaves the volume as some prefix of such a list made it.
 */
module ReleaseModel {
  import opened Wrappers

  /** A revision is a number of 40 hexadecimal digits; release directories are named by it. */
  type Revision = nat
  type Fingerprint = nat
  type BuildId = nat

  /**
   A release directory: whether it resolves to its revision and holds the completion marker, whether all of
   its files are there, whether it still points at its registration, and the dependency fingerprint it reads as.
   */
  datatype Release = Release(complete: bool, intact: bool, linked: bool, deps: Option<Fingerprint>, mtime: nat)

  /**
   The `current` link, its temporary name, the two markers, the release directories, and the worktrees Git
   has registered; a registration is locked while `git worktree add` works on it.
   */
  datatype Volume = Volume(
    current: Option<Revision>,
    temp: Option<Revision>,
    pending: Option<Revision>,
    built: Option<BuildId>,
    dirs: map<Revision, Release>,
    registered: set<Revision>,
    locked: set<Revision>)

  const EMPTY_VOLUME := Volume(None, None, None, None, map[], {}, {})

  /** The container image, the mounted source checkout, and what Git answers. */
  datatype World = World(
    buildId: Option<BuildId>,
    baked: Option<Fingerprint>,
    sourceHead: Option<Revision>,
    deps: Revision -> Option<Fingerprint>,
    checkoutWorks: Revision -> bool)

  /** What an interrupted removal leaves of a directory. */
  datatype Remains = Remains(flagged: bool, linked: bool, deps: Option<Fingerprint>, at: nat)

  /** When an operation is tried, and how far its removals come before each directory is gone. */
  datatype Moment = Moment(now: nat, torn: Revision -> Remains)

  datatype FileOp =
    | UnlinkTemp
    | LinkTemp(target: Revision)
    | ReplaceLink
    | UnlinkPending
    | WritePending(release: Revision)
    | WriteBuilt(id: BuildId)
    | AddDirectory(revision: Revision, when: nat)
    | FillDirectory(filled: Revision, deps: Option<Fingerprint>, since: nat)
    | MarkComplete(done: Revision, at: nat)
    | TearDirectory(torn: Revision, remains: Remains)
    | RemoveDirectory(gone: Revision)
    | Register(entered: Revision)
    | Unlock(settled: Revision)
    | Forget(dropped: Revision)
    | Unregister(closed: Revision)
    | PruneStale

  /** `git worktree prune` drops registrations whose directory no longer points at them, unless locked. */
  function StillLinked(v: Volume): set<Revision> {
    set r | r in v.registered && (r in v.locked || (r in v.dirs && v.dirs[r].linked))
  }

  function Marked(d: Release, t: nat): Release { d.(complete := true, mtime := t) }

  /** A removal takes files away in any order; the marker may go late. */
  function Left(d: Release, m: Remains): Release {
    Release(d.complete && m.flagged && m.linked, false, d.linked && m.linked, m.deps, m.at)
  }

  function Do(op: FileOp, v: Volume): Volume {
    match op
    case UnlinkTemp => v.(temp := None)
    case LinkTemp(r) => v.(temp := Some(r))
    case ReplaceLink => v.(current := v.temp, temp := None)
    case UnlinkPending => v.(pending := None)
    case WritePending(r) => v.(pending := Some(r))
    case WriteBuilt(b) => v.(built := Some(b))
    case AddDirectory(r, t) => v.(dirs := v.dirs[r := Release(false, false, true, None, t)])
    case FillDirectory(r, deps, t) => v.(dirs := v.dirs[r := Release(false, true, true, deps, t)])
    case MarkComplete(r, t) => if r in v.dirs then v.(dirs := v.dirs[r := Marked(v.dirs[r], t)]) else v
    case TearDirectory(r, m) => if r in v.dirs then v.(dirs := v.dirs[r := Left(v.dirs[r], m)]) else v
    case RemoveDirectory(r) => v.(dirs := v.dirs - {r})
    case Register(r) => v.(registered := v.registered + {r}, locked := v.locked + {r})
    case Unlock(r) => v.(locked := v.locked - {r})
    case Forget(r) => v.(registered := v.registered - {r}, locked := v.locked - {r})
    case Unregister(r) => if r in v.locked then v else v.(registered := v.registered - {r})
    case PruneStale => v.(registered := StillLinked(v))
  }

  function Run(ops: seq<FileOp>, v: Volume): Volume
    decreases |ops|
  {
    if ops == [] then v else Run(ops[1..], Do(ops[0], v))
  }

  lemma {:induction false} RunConcat(a: seq<FileOp>, b: seq<FileOp>, v: Volume)
    ensures Run(a + b, v) == Run(b, Run(a, v))
    decreases |a|
  {
    if a == [] {
      assert a + b == b;
    } else {
      assert (a + b)[1..] == a[1..] + b;
      RunConcat(a[1..], b, Do(a[0], v));
    }
  }

  // ----- queries -----

  /** What the code takes for a finished release. */
  predicate Complete(v: Volume, r: Revision) { r in v.dirs && v.dirs[r].complete }

  predicate Whole(v: Volume, r: Revision) { Complete(v, r) && v.dirs[r].intact }

  /** Taken for finished, but partly removed. */
  predicate Torn(v: Volume, r: Revision) { Complete(v, r) && !v.dirs[r].intact }

  /** A marker counts only while the directory it names exists. */
  function PendingRelease(v: Volume): Option<Revision> {
    if v.pending.Some? && v.pending.value in v.dirs then v.pending else None
  }

  predicate SameDeps(w: World, deps: Option<Fingerprint>) { w.baked.Some? && deps.Some? && w.baked == deps }

  /** The image and the release directory provably agree on dependencies. */
  predicate Matches(v: Volume, w: World, r: Revision) { r in v.dirs && SameDeps(w, v.dirs[r].deps) }

  /** The same of a release once it has been prepared: reused as it is, or checked out anew. */
  predicate WouldMatch(v: Volume, w: World, r: Revision) {
    SameDeps(w, if Complete(v, r) then v.dirs[r].deps else w.deps(r))
  }

  /** Fails closed: an unreadable fingerprint on either side asks for a rebuild. */
  predicate RebuildRequired(v: Volume, w: World) {
    var checkout := if PendingRelease(v).Some? then PendingRelease(v) else v.current;
    !(checkout.Some? && Matches(v, w, checkout.value))
  }

  // ----- operations as lists of file operations -----

  function SwitchOps(r: Revision): seq<FileOp> { [UnlinkTemp, LinkTemp(r), ReplaceLink] }

  /** `git worktree add` refuses a path that is registered; discarding a directory clears only an unlocked one. */
  predicate Refuses(v: Volume, r: Revision) { if r in v.dirs then r in v.locked else r in v.registered }

  predicate EnsureSucceeds(v: Volume, w: World, r: Revision) {
    Complete(v, r) || (w.checkoutWorks(r) && !Refuses(v, r))
  }

  /** Files, then the directory, then its registration, then every registration without a directory. */
  function DiscardOps(m: Moment, r: Revision): seq<FileOp> {
    [TearDirectory(r, m.torn(r)), RemoveDirectory(r), Unregister(r), PruneStale]
  }

  /** Reuse a finished checkout; otherwise discard what is there, check out, and mark it finished. */
  function EnsureOps(v: Volume, w: World, m: Moment, r: Revision): seq<FileOp> {
    if Complete(v, r) then []
    else
      (if r in v.dirs then DiscardOps(m, r) else [])
      + (if Refuses(v, r) then DiscardOps(m, r) else CheckoutOps(w, m, r))
  }

  /** `git worktree add` cleans up after itself when it fails. */
  function AddOps(w: World, m: Moment, r: Revision): seq<FileOp> {
    [Register(r), AddDirectory(r, m.now)]
    + if w.checkoutWorks(r) then [FillDirectory(r, w.deps(r), m.now), Unlock(r)]
      else [Forget(r), TearDirectory(r, m.torn(r)), RemoveDirectory(r)]
  }

  function CheckoutOps(w: World, m: Moment, r: Revision): seq<FileOp> {
    AddOps(w, m, r) + if w.checkoutWorks(r) then [MarkComplete(r, m.now)] else DiscardOps(m, r)
  }

  const RELEASE_RETENTION := 1

  predicate Newer(v: Volume, a: Revision, b: Revision)
    requires a in v.dirs && b in v.dirs
  {
    v.dirs[a].mtime > v.dirs[b].mtime || (v.dirs[a].mtime == v.dirs[b].mtime && a > b)
  }

  /** The releases neither serving nor waiting. */
  function Superseded(v: Volume): set<Revision> {
    set r | r in v.dirs && Some(r) != v.current && Some(r) != PendingRelease(v)
  }

  /** Newest first; names break ties. */
  ghost predicate Ordered(v: Volume, rs: seq<Revision>, members: set<Revision>)
    requires members <= v.dirs.Keys
  {
    && |rs| == |members|
    && (forall k :: 0 <= k < |rs| ==> rs[k] in members)
    && (forall r :: r in members ==> r in rs)
    && (forall i, j :: 0 <= i < j < |rs| ==> Newer(v, rs[i], rs[j]))
  }

  function Removals(m: Moment, rs: seq<Revision>): seq<FileOp> {
    if rs == [] then [] else DiscardOps(m, rs[0]) + Removals(m, rs[1..])
  }

  /** Removing every superseded release but the newest few, newest first. */
  ghost predicate PruneOps(v: Volume, m: Moment, ops: seq<FileOp>) {
    exists rs: seq<Revision> {:trigger Ordered(v, rs, Superseded(v))} ::
      Ordered(v, rs, Superseded(v)) &&
      ops == Removals(m, if |rs| > RELEASE_RETENTION then rs[RELEASE_RETENTION..] else [])
  }

  predicate Rebuilt(v: Volume, w: World) { w.buildId.Some? && w.buildId != v.built }

  /** What the launcher does before pruning, and whether it gets that far. */
  datatype Plan = Plan(ops: seq<FileOp>, boots: bool)

  function BootPlan(v: Volume, w: World, m: Moment): Plan {
    if Rebuilt(v, w) || v.current.None? then
      if w.sourceHead.None? then Plan([], false)
      else
        var r := w.sourceHead.value;
        var ensure := EnsureOps(v, w, m, r);
        if !EnsureSucceeds(v, w, r) then Plan(ensure, false)
        else if WouldMatch(v, w, r) then
          var built := if w.buildId.Some? then [WriteBuilt(w.buildId.value)] else [];
          Plan(ensure + (SwitchOps(r) + ([UnlinkPending] + built)), true)
        else if v.current.None? then Plan(ensure, false)
        else Plan(ensure + [WritePending(r)], true)
    else if PendingRelease(v).Some? && !RebuildRequired(v, w) then
      Plan(SwitchOps(PendingRelease(v).value) + [UnlinkPending], true)
    else Plan([], true)
  }

  /** A whole boot: the plan, then pruning when it got that far. */
  ghost predicate BootOps(v: Volume, w: World, m: Moment, ops: seq<FileOp>) {
    var plan := BootPlan(v, w, m);
    if !plan.boots then ops == plan.ops
    else exists prune: seq<FileOp> {:trigger plan.ops + prune} ::
           PruneOps(Run(plan.ops, v), m, prune) && ops == plan.ops + prune
  }

  /** Staging a fetched revision: check it out, then name it in the pending marker. */
  function StageOps(v: Volume, w: World, m: Moment, r: Revision): seq<FileOp> {
    EnsureOps(v, w, m, r) + (if EnsureSucceeds(v, w, r) then [WritePending(r)] else [])
  }

  // ----- invariants -----

  /** What every reachable volume satisfies. */
  predicate Sound(v: Volume) {
    && v.locked <= v.registered
    && (v.current.None? ==> v.pending.None?)
    && (v.built.Some? ==> v.current.Some?)
    && (v.current.Some? ==> Complete(v, v.current.value))
    && (v.pending.Some? ==> Complete(v, v.pending.value))
  }

  /** The serving and the waiting release have all their files. */
  predicate Served(v: Volume) {
    && (v.current.Some? ==> Whole(v, v.current.value))
    && (v.pending.Some? ==> Whole(v, v.pending.value))
  }

  datatype Marks = Marks(current: Option<Revision>, pending: Option<Revision>, built: Option<BuildId>)

  function MarksOf(v: Volume): Marks { Marks(v.current, v.pending, v.built) }
}
