/**
 Configuration writes and hot reloads across workers (pr_agent/dashboard/config_engine.py), as a
 transition system over file reads, file replacements, the write lock and in-memory settings.
 */
module ConfigEngine {
  import opened Wrappers

  type Path = string
  type Value = string
  type Worker = nat

  /** A parsed file: every leaf by its dotted path. */
  type Document = map<Path, Value>

  /** Settings the environment controls, the defaults, the secret's path and mask, and how reloads work. */
  datatype Deployment = Deployment(
    overridden: set<Path>, base: Document, secret: Path, mask: Value -> Value, managed: bool)

  // ----- edits -----

  /** A masked secret that comes back unchanged is not an edit. */
  function Effective(d: Deployment, doc: Document, fields: Document): Document {
    var stored := if d.secret in doc then doc[d.secret] else "";
    if d.secret in fields && fields[d.secret] == d.mask(stored) then fields - {d.secret} else fields
  }

  predicate Refused(d: Deployment, doc: Document, fields: Document) {
    var clean := Effective(d, doc, fields);
    clean == map[] || !(clean.Keys !! d.overridden)
  }

  /** What a save writes: an empty secret is not written either. */
  function Written(d: Deployment, doc: Document, fields: Document): Document {
    var clean := Effective(d, doc, fields);
    if d.secret in clean && clean[d.secret] == "" then clean - {d.secret} else clean
  }

  function Edited(d: Deployment, doc: Document, fields: Document): Document { doc + Written(d, doc, fields) }

  /** One change of the file: a save through the engine, or a replacement by somebody else. */
  datatype Change = Save(fields: Document) | Overwrite(doc: Document)

  function Changed(d: Deployment, doc: Document, c: Change): Document {
    match c
    case Save(fields) => Edited(d, doc, fields)
    case Overwrite(other) => other
  }

  function Fold(d: Deployment, doc: Document, changes: seq<Change>): Document
    decreases |changes|
  {
    if changes == [] then doc
    else Changed(d, Fold(d, doc, changes[..|changes| - 1]), changes[|changes| - 1])
  }

  // ----- workers -----

  /** Where an engine is in `write` or `reload_if_changed`; it does one at a time. */
  datatype Phase =
    | Idle
    | Locked(fields: Document)
    | Loaded(fields: Document, doc: Document)
    | Replaced
    | ReadBack(raw: Document)
    | Signed(raw: Document, signature: nat)
    | Noticed(signature: nat)
    | Fetched(raw: Document, signature: nat)

  predicate HoldsLock(p: Phase) { p.Locked? || p.Loaded? || p.Replaced? || p.ReadBack? || p.Signed? }

  /**
   `stray` records the paths a failed hot reload set without `loadedPaths` learning of them, `erased` the
   paths that were unset and not set again since.
   */
  datatype Engine = Engine(
    settings: Document, loadedSignature: nat, loadedPaths: set<Path>, phase: Phase, stray: set<Path>, erased: set<Path>)

  type Versions = v: seq<Document> | |v| > 0 witness [map[]]

  /** Every version of the file; a signature is the number of the version. */
  datatype System = System(versions: Versions, changes: seq<Change>, lock: Option<Worker>, engines: map<Worker, Engine>)

  function Current(s: System): Document { s.versions[|s.versions| - 1] }

  function Signature(s: System): nat { |s.versions| - 1 }

  // ----- hot reload -----

  /** Vanished paths are unset and the document is set, except what the environment controls. */
  function Reloaded(d: Deployment, e: Engine, raw: Document, onDisk: Document): Document {
    if d.managed then d.base + (onDisk - d.overridden)
    else (e.settings - (e.loadedPaths - raw.Keys - d.overridden)) + (raw - d.overridden)
  }

  /** The paths a reload unsets. */
  function Vanished(d: Deployment, e: Engine, raw: Document): set<Path> { e.loadedPaths - raw.Keys - d.overridden }

  function Done(d: Deployment, e: Engine, raw: Document, onDisk: Document, signature: nat): Engine {
    Engine(Reloaded(d, e, raw, onDisk), signature, raw.Keys, Idle,
           if d.managed then {} else e.stray - raw.Keys,
           if d.managed then {} else e.erased + Vanished(d, e, raw) - raw.Keys)
  }

  /** How far a reload came that raised: what it had unset and set, or what a broken rebuild left. */
  datatype Break = Break(dropped: set<Path>, placed: set<Path>, rebuilt: Document)

  /** Paths are unset first; setting starts when all of them are. */
  predicate CanBreak(d: Deployment, e: Engine, raw: Document, b: Break) {
    d.managed ||
    (&& b.dropped <= Vanished(d, e, raw) && b.placed <= raw.Keys - d.overridden
     && (b.placed == {} || b.dropped == Vanished(d, e, raw)))
  }

  function Only(doc: Document, paths: set<Path>): Document { doc - (doc.Keys - paths) }

  /** A reload that raises leaves the mark and the loaded paths as they were. */
  function Broken(d: Deployment, e: Engine, raw: Document, b: Break): Engine {
    if d.managed then e.(settings := b.rebuilt, phase := Idle)
    else e.(settings := (e.settings - b.dropped) + Only(raw, b.placed), phase := Idle,
            stray := e.stray + (b.placed - e.loadedPaths), erased := e.erased + b.dropped - b.placed)
  }

  // ----- steps -----

  datatype Event =
    | Construct(w: Worker)
    | Acquire(w: Worker, fields: Document)
    | Load(w: Worker)
    | Replace(w: Worker)
    | Reread(w: Worker)
    | Sign(w: Worker)
    | Notice(w: Worker)
    | Fetch(w: Worker)
    | Apply(w: Worker)
    | ApplyFails(w: Worker, failure: Break)
    | Abandon(w: Worker)
    | Die(w: Worker)
    | EditOutside(doc: Document)

  function With(s: System, w: Worker, e: Engine): System { s.(engines := s.engines[w := e]) }

  function Release(s: System, w: Worker): System { if s.lock == Some(w) then s.(lock := None) else s }

  ghost predicate Next(d: Deployment, s: System, event: Event, s': System) {
    match event
    case Construct(w) =>
      && w !in s.engines
      && s' == With(s, w, Engine(d.base + (Current(s) - d.overridden), Signature(s), Current(s).Keys, Idle, {}, {}))
    case EditOutside(doc) => s' == s.(versions := s.versions + [doc], changes := s.changes + [Overwrite(doc)])
    case Die(w) => w in s.engines && s' == Release(s.(engines := s.engines - {w}), w)
    case _ =>
      event.w in s.engines && EngineNext(d, s, event, s.engines[event.w], s')
  }

  ghost predicate EngineNext(d: Deployment, s: System, event: Event, e: Engine, s': System)
    requires !event.EditOutside? && !event.Construct? && !event.Die?
  {
    var w := event.w;
    match event
    case Acquire(_, fields) =>
      e.phase.Idle? && s.lock.None? && s' == With(s.(lock := Some(w)), w, e.(phase := Locked(fields)))
    case Load(_) => e.phase.Locked? && s' == With(s, w, e.(phase := Loaded(e.phase.fields, Current(s))))
    case Replace(_) =>
      && e.phase.Loaded? && !Refused(d, e.phase.doc, e.phase.fields)
      && s' == With(s.(versions := s.versions + [Edited(d, e.phase.doc, e.phase.fields)],
                       changes := s.changes + [Save(e.phase.fields)]), w, e.(phase := Replaced))
    case Reread(_) => e.phase.Replaced? && s' == With(s, w, e.(phase := ReadBack(Current(s))))
    case Sign(_) => e.phase.ReadBack? && s' == With(s, w, e.(phase := Signed(e.phase.raw, Signature(s))))
    case Notice(_) =>
      e.phase.Idle? && Signature(s) != e.loadedSignature && s' == With(s, w, e.(phase := Noticed(Signature(s))))
    case Fetch(_) => e.phase.Noticed? && s' == With(s, w, e.(phase := Fetched(Current(s), e.phase.signature)))
    case Apply(_) =>
      && (e.phase.Signed? || e.phase.Fetched?)
      && s' == Release(With(s, w, Done(d, e, e.phase.raw, Current(s), e.phase.signature)), w)
    case ApplyFails(_, failure) =>
      && (e.phase.Signed? || e.phase.Fetched?) && CanBreak(d, e, e.phase.raw, failure)
      && s' == Release(With(s, w, Broken(d, e, e.phase.raw, failure)), w)
    case Abandon(_) => s' == Release(With(s, w, e.(phase := Idle)), w)
  }

  /** Nobody changes the file behind the back of a worker that holds the write lock. */
  predicate Disciplined(s: System, event: Event) { event.EditOutside? ==> s.lock.None? }

  // ----- serialisability -----

  /** The lock is held by exactly the engine that is inside a write, whose document is the file. */
  ghost predicate LockHolds(s: System) {
    && (forall w :: w in s.engines && HoldsLock(s.engines[w].phase) ==> s.lock == Some(w))
    && (forall w :: w in s.engines && s.engines[w].phase.Loaded? ==> s.engines[w].phase.doc == Current(s))
  }

  ghost predicate Serial(d: Deployment, initial: Document, s: System) {
    LockHolds(s) && Current(s) == Fold(d, initial, s.changes)
  }

  lemma FoldAppends(d: Deployment, doc: Document, changes: seq<Change>, c: Change)
    ensures Fold(d, doc, changes + [c]) == Changed(d, Fold(d, doc, changes), c)
  {
    assert (changes + [c])[..|changes|] == changes;
  }

  function Stored(d: Deployment, doc: Document): Value { if d.secret in doc then doc[d.secret] else "" }

  /** A save sets exactly its fields, except a secret that is empty or comes back masked. */
  predicate Sets(d: Deployment, doc: Document, fields: Document, p: Path) {
    p in fields && (p == d.secret ==> fields[p] != "" && fields[p] != d.mask(Stored(d, doc)))
  }

  lemma EditSetsItsFields(d: Deployment, doc: Document, fields: Document, p: Path)
    ensures var after := Edited(d, doc, fields);
            if Sets(d, doc, fields, p) then p in after && after[p] == fields[p]
            else (p in after <==> p in doc) && (p in doc ==> after[p] == doc[p])
  {
    hide Refused;
    var after := Edited(d, doc, fields);
    if p == d.secret && p in fields && fields[p] == d.mask(Stored(d, doc)) {
      assert p !in Effective(d, doc, fields);
    }
  }

  lemma LastSave(d: Deployment, doc: Document, changes: seq<Change>)
    requires changes != [] && changes[|changes| - 1].Save?
    ensures var n := |changes| - 1;
            Fold(d, doc, changes) == Edited(d, Fold(d, doc, changes[..n]), changes[n].fields)
  {
    hide Edited;
  }

  /** No update is lost: what a save set stays until a later change sets the same path. */
  lemma {:induction false} SavedValueStays(d: Deployment, doc: Document, changes: seq<Change>, k: nat, p: Path)
    requires k < |changes| && changes[k].Save? && Sets(d, Fold(d, doc, changes[..k]), changes[k].fields, p)
    requires forall i :: k < i < |changes| ==>
               changes[i].Save? && !Sets(d, Fold(d, doc, changes[..i]), changes[i].fields, p)
    ensures p in Fold(d, doc, changes) && Fold(d, doc, changes)[p] == changes[k].fields[p]
    decreases |changes|
  {
    hide Edited, Sets, Fold;
    var n := |changes| - 1;
    var before := changes[..n];
    LastSave(d, doc, changes);
    EditSetsItsFields(d, Fold(d, doc, before), changes[n].fields, p);
    if k < n {
      assert changes[n].Save? && !Sets(d, Fold(d, doc, changes[..n]), changes[n].fields, p);
      assert before[..k] == changes[..k];
      forall i | k < i < n ensures changes[i].Save? && !Sets(d, Fold(d, doc, before[..i]), before[i].fields, p) {
        assert before[..i] == changes[..i];
      }
      SavedValueStays(d, doc, before, k, p);
    }
  }

  /** A field asks for a change, unless it is the secret coming back as it was shown. */
  predicate AsksFor(d: Deployment, doc: Document, fields: Document, p: Path) {
    p in fields && !(p == d.secret && fields[p] == d.mask(Stored(d, doc)))
  }

  /** Nothing is written exactly when no field asks for a change or one that does is the environment's. */
  lemma RefusedExactly(d: Deployment, doc: Document, fields: Document)
    ensures Refused(d, doc, fields)
            <==> (forall p :: p in fields ==> !AsksFor(d, doc, fields, p))
                 || (exists p :: p in fields && AsksFor(d, doc, fields, p) && p in d.overridden)
  {
    var clean := Effective(d, doc, fields);
    forall p ensures p in clean <==> AsksFor(d, doc, fields, p) {
      if p == d.secret && p in fields && fields[p] == d.mask(Stored(d, doc)) {
        assert p !in clean;
      }
    }
    if clean != map[] {
      var p :| p in clean;
      assert AsksFor(d, doc, fields, p);
    }
    if !(clean.Keys !! d.overridden) {
      var p :| p in clean.Keys && p in d.overridden;
      assert AsksFor(d, doc, fields, p);
    }
  }

  /** A save that goes through leaves what the environment controls as it was in the file. */
  lemma SavesSpareTheEnvironment(d: Deployment, doc: Document, fields: Document, p: Path)
    requires !Refused(d, doc, fields) && p in d.overridden
    ensures var after := Edited(d, doc, fields); (p in after <==> p in doc) && (p in doc ==> after[p] == doc[p])
  {
    hide Refused, Edited;
    RefusedExactly(d, doc, fields);
    EditSetsItsFields(d, doc, fields, p);
  }

  lemma WriteKeepsLock(d: Deployment, s: System, event: Event, s': System)
    requires LockHolds(s) && Next(d, s, event, s')
    requires event.Acquire? || event.Load? || event.Replace? || event.Reread? || event.Sign?
    ensures LockHolds(s')
  {
    hide Edited, Refused;
  }

  lemma FinishKeepsLock(d: Deployment, s: System, event: Event, s': System)
    requires LockHolds(s) && Next(d, s, event, s')
    requires event.Notice? || event.Fetch? || event.Apply? || event.ApplyFails? || event.Abandon?
    ensures LockHolds(s')
  {
    hide Reloaded, CanBreak, Only, Vanished;
  }

  lemma StepKeepsLock(d: Deployment, s: System, event: Event, s': System)
    requires LockHolds(s) && Next(d, s, event, s') && Disciplined(s, event)
    ensures LockHolds(s')
  {
    hide EngineNext;
    match event
    case Acquire(_, _) | Load(_) | Replace(_) | Reread(_) | Sign(_) =>
      WriteKeepsLock(d, s, event, s');
    case Notice(_) | Fetch(_) | Apply(_) | ApplyFails(_, _) | Abandon(_) =>
      FinishKeepsLock(d, s, event, s');
    case _ =>
  }

  lemma StepIsSerial(d: Deployment, initial: Document, s: System, event: Event, s': System)
    requires Serial(d, initial, s) && Next(d, s, event, s') && Disciplined(s, event)
    ensures Serial(d, initial, s')
  {
    hide Fold, Edited, Done, Broken, Refused;
    StepKeepsLock(d, s, event, s');
    match event
    case EditOutside(doc) =>
      FoldAppends(d, initial, s.changes, Overwrite(doc));
    case Replace(w) =>
      FoldAppends(d, initial, s.changes, Save(s.engines[w].phase.fields));
    case _ =>
      hide LockHolds;
  }

  // ----- freshness -----

  /** The path has its default, or is absent like it. */
  predicate AsBase(d: Deployment, settings: Document, p: Path) {
    (p in settings <==> p in d.base) && (p in d.base ==> p in settings && settings[p] == d.base[p])
  }

  /** What the settings show for one path when `doc` is the file they were last reloaded from. */
  predicate ShowsPath(d: Deployment, e: Engine, doc: Document, p: Path) {
    if p in d.overridden then AsBase(d, e.settings, p)
    else if p in doc then p in e.settings && e.settings[p] == doc[p]
    else if p in e.stray then p in e.settings
    else if p in e.erased then p !in e.settings
    else AsBase(d, e.settings, p)
  }

  /** The settings are the file's over the defaults: exactly when managed, else but for strays and erased paths. */
  ghost predicate ShowsFile(d: Deployment, e: Engine, doc: Document) {
    && (d.managed ==> e.settings == d.base + (doc - d.overridden) && e.stray == {} && e.erased == {})
    && (!d.managed ==> forall p :: ShowsPath(d, e, doc, p))
  }

  /** When a worker's mark is the file's signature, its settings are the file's. */
  ghost predicate Fresh(d: Deployment, s: System, e: Engine) {
    e.loadedSignature == Signature(s) ==> ShowsFile(d, e, Current(s))
  }

  /** What an engine's books say about one path, whatever it has been through. */
  predicate TracksPath(d: Deployment, e: Engine, p: Path) {
    if p in d.overridden then AsBase(d, e.settings, p)
    else
      && !(p in e.stray && p in e.loadedPaths)
      && (p in e.settings <==> p in e.stray || ((p in d.base || p in e.loadedPaths) && p !in e.erased))
      && (p in e.settings && p !in e.loadedPaths && p !in e.stray ==> p in d.base && e.settings[p] == d.base[p])
  }

  ghost predicate Tracked(d: Deployment, e: Engine) {
    if d.managed then e.stray == {} && e.erased == {} else forall p :: TracksPath(d, e, p)
  }

  /** What a phase has read: a signature newer than the mark, and content no older than the signature. */
  ghost predicate PhaseHolds(s: System, e: Engine) {
    match e.phase
    case Idle | Locked(_) | Loaded(_, _) => true
    case Replaced => e.loadedSignature < Signature(s)
    case ReadBack(raw) => e.loadedSignature < Signature(s) && raw == Current(s)
    case Signed(raw, signature) => e.loadedSignature < signature == Signature(s) && raw == Current(s)
    case Noticed(signature) => e.loadedSignature < signature <= Signature(s)
    case Fetched(raw, signature) =>
      e.loadedSignature < signature <= Signature(s) && (signature == Signature(s) ==> raw == Current(s))
  }

  ghost predicate EngineHolds(d: Deployment, s: System, e: Engine) {
    && e.loadedSignature <= Signature(s) && PhaseHolds(s, e) && Fresh(d, s, e)
    && Tracked(d, e)
  }

  ghost predicate AllHold(d: Deployment, s: System) {
    LockHolds(s) && forall w :: w in s.engines ==> EngineHolds(d, s, s.engines[w])
  }

  /** A finished hot reload shows the document it applied, and the books go on being right. */
  lemma ReloadShows(d: Deployment, e: Engine, raw: Document, signature: nat)
    requires Tracked(d, e)
    ensures var done := Done(d, e, raw, raw, signature); ShowsFile(d, done, raw) && Tracked(d, done)
  {
    var done := Done(d, e, raw, raw, signature);
    if !d.managed {
      forall p ensures ShowsPath(d, done, raw, p) && TracksPath(d, done, p) {
        assert TracksPath(d, e, p);
      }
    }
  }

  lemma UnmanagedReloadShows(d: Deployment, e: Engine, raw: Document, onDisk: Document)
    requires !d.managed
    ensures Reloaded(d, e, raw, onDisk) == Reloaded(d, e, raw, raw)
  {}

  /** The books stay right through a reload that raises. */
  lemma BrokenTracks(d: Deployment, e: Engine, raw: Document, b: Break)
    requires Tracked(d, e) && CanBreak(d, e, raw, b)
    ensures Tracked(d, Broken(d, e, raw, b))
  {
    if !d.managed {
      forall p ensures TracksPath(d, Broken(d, e, raw, b), p) {
        assert TracksPath(d, e, p);
      }
    }
  }

  /** A new version of the file, which no mark can be for yet. */
  lemma OlderMarksStay(d: Deployment, s: System, s': System, e: Engine)
    requires EngineHolds(d, s, e) && s'.versions == s.versions + [Current(s')]
    requires !HoldsLock(e.phase) || e.phase.Locked? || e.phase.Loaded?
    ensures EngineHolds(d, s', e) && e.loadedSignature < Signature(s')
  {}

  /** The engine a step is about, when it is one engine's step. */
  lemma EngineStepHolds(d: Deployment, s: System, event: Event, s': System)
    requires AllHold(d, s) && LockHolds(s') && Next(d, s, event, s')
    requires !event.EditOutside? && !event.Construct? && !event.Die? && !event.Replace?
    ensures s'.versions == s.versions && event.w in s'.engines && EngineHolds(d, s', s'.engines[event.w])
  {
    hide ShowsFile, Tracked, Reloaded, LockHolds, CanBreak;
    var e := s.engines[event.w];
    match event
    case Apply(w) =>
      if !d.managed {
        UnmanagedReloadShows(d, e, e.phase.raw, Current(s));
      }
      ApplyHolds(d, s, e, s');
    case ApplyFails(w, failure) =>
      BrokenTracks(d, e, e.phase.raw, failure);
    case Acquire(w, _) => PhaseChanges(d, s, e, s'.engines[w].phase);
    case Load(w) => PhaseChanges(d, s, e, s'.engines[w].phase);
    case Reread(w) => PhaseChanges(d, s, e, s'.engines[w].phase);
    case Sign(w) => PhaseChanges(d, s, e, s'.engines[w].phase);
    case Notice(w) => PhaseChanges(d, s, e, s'.engines[w].phase);
    case Fetch(w) => PhaseChanges(d, s, e, s'.engines[w].phase);
    case Abandon(w) => PhaseChanges(d, s, e, s'.engines[w].phase);
  }

  lemma PhaseChanges(d: Deployment, s: System, e: Engine, phase: Phase)
    requires EngineHolds(d, s, e) && PhaseHolds(s, e.(phase := phase))
    ensures EngineHolds(d, s, e.(phase := phase))
  {
    var e' := e.(phase := phase);
    if !d.managed {
      forall p ensures TracksPath(d, e', p) && (e.loadedSignature == Signature(s) ==> ShowsPath(d, e', Current(s), p)) {
        assert TracksPath(d, e, p);
        assert e.loadedSignature == Signature(s) ==> ShowsPath(d, e, Current(s), p);
      }
    }
  }

  lemma ApplyHolds(d: Deployment, s: System, e: Engine, s': System)
    requires EngineHolds(d, s, e) && (e.phase.Signed? || e.phase.Fetched?) && s'.versions == s.versions
    requires d.managed || Reloaded(d, e, e.phase.raw, Current(s)) == Reloaded(d, e, e.phase.raw, e.phase.raw)
    ensures EngineHolds(d, s', Done(d, e, e.phase.raw, Current(s), e.phase.signature))
  {
    hide ShowsFile, Tracked, Reloaded;
    ReloadShows(d, e, e.phase.raw, e.phase.signature);
    ManagedShows(d, e, e.phase.raw, Current(s), e.phase.signature);
  }

  /** A managed reload rebuilds from the file as it is by then. */
  lemma ManagedShows(d: Deployment, e: Engine, raw: Document, onDisk: Document, signature: nat)
    ensures d.managed ==> Tracked(d, Done(d, e, raw, onDisk, signature))
    ensures d.managed ==> ShowsFile(d, Done(d, e, raw, onDisk, signature), onDisk)
  {}

  lemma StepHolds(d: Deployment, s: System, event: Event, s': System)
    requires AllHold(d, s) && Next(d, s, event, s') && Disciplined(s, event)
    ensures AllHold(d, s')
  {
    hide EngineHolds, EngineNext, LockHolds;
    StepKeepsLock(d, s, event, s');
    match event
    case EditOutside(doc) =>
      NobodyHolds(s);
      NewVersionHolds(d, s, s', s.engines.Keys);
    case Replace(w) =>
      ReplaceHolds(d, s, w, s');
    case Construct(w) =>
      UnchangedFileHolds(d, s, s', s.engines.Keys);
      ConstructHolds(d, s, w, s');
    case Die(w) =>
      UnchangedFileHolds(d, s, s', s.engines.Keys - {w});
    case _ =>
      EngineStepHolds(d, s, event, s');
      OtherEnginesStay(d, s, event, s');
      UnchangedFileHolds(d, s, s', s.engines.Keys - {event.w});
  }

  lemma NobodyHolds(s: System)
    requires LockHolds(s) && s.lock.None?
    ensures forall w :: w in s.engines ==> !HoldsLock(s.engines[w].phase)
  {}

  lemma ConstructHolds(d: Deployment, s: System, w: Worker, s': System)
    requires Next(d, s, Construct(w), s')
    ensures EngineHolds(d, s', s'.engines[w])
  {
    var e := s'.engines[w];
    assert e.settings == d.base + (Current(s) - d.overridden);
  }

  lemma OtherEnginesStay(d: Deployment, s: System, event: Event, s': System)
    requires Next(d, s, event, s') && !event.EditOutside? && !event.Construct? && !event.Die?
    ensures s'.engines.Keys == s.engines.Keys
    ensures forall w :: w in s.engines && w != event.w ==> s'.engines[w] == s.engines[w]
  {
    hide Edited, Done, Broken, Refused;
  }

  lemma UnchangedFileHolds(d: Deployment, s: System, s': System, same: set<Worker>)
    requires AllHold(d, s) && s'.versions == s.versions
    requires forall w :: w in same ==> w in s.engines && w in s'.engines && s'.engines[w] == s.engines[w]
    ensures forall w :: w in same ==> EngineHolds(d, s', s'.engines[w])
  {
    hide ShowsFile, Tracked, LockHolds;
  }

  lemma NewVersionHolds(d: Deployment, s: System, s': System, same: set<Worker>)
    requires AllHold(d, s) && s'.versions == s.versions + [Current(s')]
    requires forall w :: w in same ==> w in s.engines && w in s'.engines && s'.engines[w] == s.engines[w]
    requires forall w :: w in same ==> !HoldsLock(s.engines[w].phase)
    ensures forall w :: w in same ==> EngineHolds(d, s', s'.engines[w])
  {
    hide EngineHolds;
    forall w | w in same ensures EngineHolds(d, s', s'.engines[w]) {
      OlderMarksStay(d, s, s', s.engines[w]);
    }
  }

  lemma ReplaceHolds(d: Deployment, s: System, w: Worker, s': System)
    requires AllHold(d, s) && Next(d, s, Replace(w), s')
    ensures forall x :: x in s'.engines ==> EngineHolds(d, s', s'.engines[x])
  {
    hide Edited, Refused, EngineHolds;
    var e := s.engines[w];
    OlderMarksStay(d, s, s', e);
    NewVersionHolds(d, s, s', s.engines.Keys - {w});
    ReplacedHolds(d, s', e);
  }

  lemma ReplacedHolds(d: Deployment, s: System, e: Engine)
    requires EngineHolds(d, s, e) && e.loadedSignature < Signature(s)
    ensures EngineHolds(d, s, e.(phase := Replaced))
  {
    hide ShowsFile, Tracked;
    PhaseChanges(d, s, e, Replaced);
  }

  // ----- one write, undisturbed -----

  /** A write nobody disturbs goes through: the file is the edited one, shown and marked, and the lock is free. */
  lemma WriteGoesThrough(d: Deployment, s: System, w: Worker, fields: Document) returns (states: seq<System>)
    requires AllHold(d, s) && w in s.engines && s.engines[w].phase.Idle? && s.lock.None?
    requires !Refused(d, Current(s), fields)
    ensures |states| == 7 && states[0] == s
    ensures forall k :: 0 <= k < 6 ==>
              Next(d, states[k], [Acquire(w, fields), Load(w), Replace(w), Reread(w), Sign(w), Apply(w)][k],
                   states[k + 1])
    ensures var end := states[6];
            && Current(end) == Edited(d, Current(s), fields) && end.lock.None? && end.engines.Keys == s.engines.Keys
            && end.engines[w].phase.Idle? && end.engines[w].loadedSignature == Signature(end)
            && ShowsFile(d, end.engines[w], Current(end))
            && forall x :: x in s.engines && x != w ==> end.engines[x] == s.engines[x]
  {
    hide Edited, Refused, Done, ShowsFile, Next, EngineNext, Release, Tracked, LockHolds, EngineHolds;
    var e, doc := s.engines[w], Current(s);
    var after := Edited(d, doc, fields);
    var s1 := With(s.(lock := Some(w)), w, e.(phase := Locked(fields)));
    var s2 := With(s1, w, e.(phase := Loaded(fields, doc)));
    var s3 := With(s2.(versions := s.versions + [after], changes := s.changes + [Save(fields)]), w,
                   e.(phase := Replaced));
    var s4 := With(s3, w, e.(phase := ReadBack(after)));
    var s5 := With(s4, w, e.(phase := Signed(after, |s.versions|)));
    var s6 := Release(With(s5, w, Done(d, e, after, after, |s.versions|)), w);
    states := [s, s1, s2, s3, s4, s5, s6];
    FirstSteps(d, s, w, fields, s1, s2, s3);
    LastSteps(d, s3, w, e, after, s4, s5, s6);
    BooksOf(d, s, w);
    DoneShows(d, e, after, |s.versions|);
    ReleaseFrees(With(s5, w, Done(d, e, after, after, |s.versions|)), w);
  }

  lemma BooksOf(d: Deployment, s: System, w: Worker)
    requires AllHold(d, s) && w in s.engines
    ensures Tracked(d, s.engines[w])
  {
    assert EngineHolds(d, s, s.engines[w]);
  }

  lemma ReleaseFrees(s: System, w: Worker)
    requires s.lock == Some(w)
    ensures Release(s, w) == s.(lock := None)
  {}

  lemma FirstSteps(d: Deployment, s: System, w: Worker, fields: Document, s1: System, s2: System, s3: System)
    requires w in s.engines && s.engines[w].phase.Idle? && s.lock.None? && !Refused(d, Current(s), fields)
    requires s1 == With(s.(lock := Some(w)), w, s.engines[w].(phase := Locked(fields)))
    requires s2 == With(s1, w, s.engines[w].(phase := Loaded(fields, Current(s))))
    requires var after := Edited(d, Current(s), fields);
             s3 == With(s2.(versions := s.versions + [after], changes := s.changes + [Save(fields)]), w,
                        s.engines[w].(phase := Replaced))
    ensures Next(d, s, Acquire(w, fields), s1) && Next(d, s1, Load(w), s2) && Next(d, s2, Replace(w), s3)
  {
    hide Edited, Refused;
  }

  lemma LastSteps(
      d: Deployment, s3: System, w: Worker, e: Engine, after: Document, s4: System, s5: System, s6: System)
    requires w in s3.engines && s3.engines[w] == e.(phase := Replaced) && Current(s3) == after
    requires s4 == With(s3, w, e.(phase := ReadBack(after)))
    requires s5 == With(s4, w, e.(phase := Signed(after, Signature(s3))))
    requires s6 == Release(With(s5, w, Done(d, e, after, after, Signature(s3))), w)
    ensures Next(d, s3, Reread(w), s4) && Next(d, s4, Sign(w), s5) && Next(d, s5, Apply(w), s6)
  {
    DoneIgnoresPhase(d, e, Signed(after, Signature(s3)), after, Signature(s3));
    hide Done, Release;
  }

  lemma DoneIgnoresPhase(d: Deployment, e: Engine, phase: Phase, raw: Document, signature: nat)
    ensures Done(d, e.(phase := phase), raw, raw, signature) == Done(d, e, raw, raw, signature)
  {}

  lemma DoneShows(d: Deployment, e: Engine, raw: Document, signature: nat)
    requires Tracked(d, e)
    ensures var done := Done(d, e, raw, raw, signature);
            done.phase.Idle? && done.loadedSignature == signature && ShowsFile(d, done, raw)
  {
    hide ShowsFile, Tracked;
    ReloadShows(d, e, raw, signature);
  }

  /** Only a replacement that is not refused, or somebody else, changes the file. */
  lemma OnlyReplacingWrites(d: Deployment, s: System, event: Event, s': System)
    requires Next(d, s, event, s') && s'.versions != s.versions
    ensures event.EditOutside?
            || (event.Replace? && event.w in s.engines && s.engines[event.w].phase.Loaded?
                && !Refused(d, s.engines[event.w].phase.doc, s.engines[event.w].phase.fields))
  {
    hide Refused, Edited, Done, Broken, CanBreak;
  }

  /** A broken reload that had begun to set had unset everything first. */
  lemma UnsettingComesFirst(d: Deployment, e: Engine, raw: Document, b: Break, p: Path)
    requires !d.managed && CanBreak(d, e, raw, b) && b.placed != {}
    requires p in e.loadedPaths && p !in raw && p !in d.overridden
    ensures p !in Broken(d, e, raw, b).settings
  {}

  ghost predicate Behaviour(d: Deployment, states: seq<System>, events: seq<Event>) {
    && |states| == |events| + 1
    && |states[0].versions| == 1 && states[0].changes == [] && states[0].lock.None? && states[0].engines == map[]
    && (forall k :: 0 <= k < |events| ==>
          Next(d, states[k], events[k], states[k + 1]) && Disciplined(states[k], events[k]))
  }

  /**
   In every interleaving the file is the fold of the changes in the order they took the lock, and a
   worker whose mark is the file's signature has the file's settings.
   */
  lemma {:induction false} EveryRunIsSerialAndFresh(d: Deployment, states: seq<System>, events: seq<Event>, k: nat)
    requires Behaviour(d, states, events) && k <= |events|
    ensures Serial(d, states[0].versions[0], states[k]) && AllHold(d, states[k])
    ensures forall w :: w in states[k].engines ==> Fresh(d, states[k], states[k].engines[w])
  {
    hide Next, EngineHolds, Fold;
    if k == 0 {
      FoldNothing(d, states[0].versions[0]);
    } else {
      EveryRunIsSerialAndFresh(d, states, events, k - 1);
      StepIsSerial(d, states[0].versions[0], states[k - 1], events[k - 1], states[k]);
      StepHolds(d, states[k - 1], events[k - 1], states[k]);
    }
    HoldsIsFresh(d, states[k]);
  }

  lemma FoldNothing(d: Deployment, doc: Document)
    ensures Fold(d, doc, []) == doc
  {}

  lemma HoldsIsFresh(d: Deployment, s: System)
    requires AllHold(d, s)
    ensures forall w :: w in s.engines ==> Fresh(d, s, s.engines[w])
  {
    hide Fresh;
  }

  // ----- what the hypotheses are for -----

  /**
   An edit from outside between a writer's read and its replacement is lost: each path it changed and the
   save does not set is back at what the writer had read, so the file is no fold of the changes any more.
   */
  lemma OutsideEditIsLost(d: Deployment, s: System, w: Worker, other: Document, p: Path, s1: System, s2: System)
    requires w in s.engines && s.engines[w].phase.Loaded? && s.engines[w].phase.doc == Current(s)
    requires Next(d, s, EditOutside(other), s1) && Next(d, s1, Replace(w), s2)
    requires var fields := s.engines[w].phase.fields;
             && !Sets(d, Current(s), fields, p) && !Sets(d, other, fields, p)
             && p in other && !(p in Current(s) && Current(s)[p] == other[p])
    ensures (p in Current(s2) <==> p in Current(s)) && (p in Current(s2) ==> Current(s2)[p] == Current(s)[p])
    ensures Current(s2) != Fold(d, Current(s), [Overwrite(other), Save(s.engines[w].phase.fields)])
  {
    hide Edited, Refused, Sets;
    var fields := s.engines[w].phase.fields;
    EditSetsItsFields(d, Current(s), fields, p);
    EditSetsItsFields(d, other, fields, p);
    FoldNothing(d, Current(s));
    FoldAppends(d, Current(s), [], Overwrite(other));
    FoldAppends(d, Current(s), [Overwrite(other)], Save(fields));
    assert [Overwrite(other)] + [Save(fields)] == [Overwrite(other), Save(fields)];
    assert [] + [Overwrite(other)] == [Overwrite(other)];
  }

  /**
   A write reads the content before the signature, so an edit from outside between the two leaves the
   old settings under the new mark; a reload reads them the other way round.
   */
  lemma OutsideEditMisleadsAWrite(
      d: Deployment, s: System, w: Worker, p: Path, value: Value, s1: System, s2: System, s3: System)
    requires w in s.engines && s.engines[w].phase.ReadBack? && !d.managed
    requires var raw := s.engines[w].phase.raw; p in raw && raw[p] != value && p !in d.overridden
    requires Next(d, s, EditOutside(s.engines[w].phase.raw[p := value]), s1)
    requires Next(d, s1, Sign(w), s2) && Next(d, s2, Apply(w), s3)
    ensures w in s3.engines && s3.engines[w].loadedSignature == Signature(s3)
    ensures !Fresh(d, s3, s3.engines[w])
  {
    assert p in Current(s3) && Current(s3)[p] == value;
    assert !ShowsPath(d, s3.engines[w], Current(s3), p);
  }

  // ----- what outlives its removal -----

  /**
   After a finished reload of a document without the path, the path is still set exactly when it strayed in
   through a failed reload, or is a default that no reload has unset and the last document did not set.
   */
  lemma PathOutlives(d: Deployment, e: Engine, raw: Document, p: Path, signature: nat)
    requires Tracked(d, e) && !d.managed && p !in raw && p !in d.overridden
    ensures p in Done(d, e, raw, raw, signature).settings
            <==> p in e.stray || (p in d.base && p !in e.erased && p !in e.loadedPaths)
  {
    hide TracksPath;
    TrackedAt(d, e, p);
  }

  lemma TrackedAt(d: Deployment, e: Engine, p: Path)
    requires Tracked(d, e) && !d.managed && p !in d.overridden
    ensures !(p in e.stray && p in e.loadedPaths)
    ensures p in e.settings <==> p in e.stray || ((p in d.base || p in e.loadedPaths) && p !in e.erased)
  {
    assert TracksPath(d, e, p);
  }

  /** It happens: a reload fails after setting a path that is new to the engine; then the path leaves the file. */
  lemma StrayPathSurvives(d: Deployment, e: Engine, p: Path, value: Value, raw: Document, signature: nat)
    requires Tracked(d, e) && !d.managed && p !in d.overridden && p !in e.loadedPaths && p !in raw
    ensures var seen := map[p := value];
            var failure := Break(Vanished(d, e, seen), {p}, map[]);
            && CanBreak(d, e, seen, failure)
            && p in Done(d, Broken(d, e, seen, failure), raw, raw, signature).settings
  {
    var seen := map[p := value];
    var failure := Break(Vanished(d, e, seen), {p}, map[]);
    BrokenTracks(d, e, seen, failure);
    PathOutlives(d, Broken(d, e, seen, failure), raw, p, signature);
  }

  /** How the reloads of one engine went, in order. */
  datatype Outcome = Finished(raw: Document) | BrokeOff(raw: Document, failure: Break)

  function After(d: Deployment, e: Engine, outcomes: seq<Outcome>): Engine
    decreases |outcomes|
  {
    if outcomes == [] then e
    else
      var n := |outcomes| - 1;
      var before := After(d, e, outcomes[..n]);
      match outcomes[n]
      case Finished(raw) => Done(d, before, raw, raw, before.loadedSignature)
      case BrokeOff(raw, failure) => Broken(d, before, raw, failure)
  }

  /** Reload `k` failed after setting a path the engine had not loaded. */
  predicate StraysAt(d: Deployment, e: Engine, outcomes: seq<Outcome>, k: int, p: Path) {
    && 0 <= k < |outcomes| && outcomes[k].BrokeOff?
    && p in outcomes[k].failure.placed && p !in After(d, e, outcomes[..k]).loadedPaths
  }

  predicate NotLoadedSince(outcomes: seq<Outcome>, k: int, p: Path) {
    forall j :: 0 <= k < j < |outcomes| && outcomes[j].Finished? ==> p !in outcomes[j].raw
  }

  ghost predicate HasStrayed(d: Deployment, e: Engine, outcomes: seq<Outcome>, p: Path) {
    exists k :: StraysAt(d, e, outcomes, k, p) && NotLoadedSince(outcomes, k, p)
  }

  /** A path is stray exactly when a failed reload set it unloaded and no document holding it was applied since. */
  lemma {:induction false} StrayMeans(d: Deployment, e: Engine, outcomes: seq<Outcome>, p: Path)
    requires !d.managed && e.stray == {}
    ensures p in After(d, e, outcomes).stray <==> HasStrayed(d, e, outcomes, p)
    decreases |outcomes|
  {
    if outcomes != [] {
      var n := |outcomes| - 1;
      var front := outcomes[..n];
      StrayMeans(d, e, front, p);
      forall k
        ensures StraysAt(d, e, outcomes, k, p)
                <==> (k == n && StraysAt(d, e, outcomes, n, p)) || StraysAt(d, e, front, k, p)
      {
        if 0 <= k < n {
          assert front[..k] == outcomes[..k];
        }
      }
      forall k | 0 <= k < n
        ensures NotLoadedSince(outcomes, k, p)
                <==> NotLoadedSince(front, k, p) && (outcomes[n].Finished? ==> p !in outcomes[n].raw)
      {
        SinceLast(outcomes, k, p);
      }
      StraysLast(d, e, outcomes, p);
    }
  }

  lemma SinceLast(outcomes: seq<Outcome>, k: nat, p: Path)
    requires k < |outcomes| - 1
    ensures var n := |outcomes| - 1;
            NotLoadedSince(outcomes, k, p)
            <==> NotLoadedSince(outcomes[..n], k, p) && (outcomes[n].Finished? ==> p !in outcomes[n].raw)
  {
    var n := |outcomes| - 1;
    assert forall j :: 0 <= j < n ==> outcomes[..n][j] == outcomes[j];
  }

  lemma StraysLast(d: Deployment, e: Engine, outcomes: seq<Outcome>, p: Path)
    requires !d.managed && outcomes != []
    ensures var n := |outcomes| - 1;
            var before := After(d, e, outcomes[..n]);
            && NotLoadedSince(outcomes, n, p)
            && (p in After(d, e, outcomes).stray
                <==> StraysAt(d, e, outcomes, n, p)
                     || (p in before.stray && (outcomes[n].Finished? ==> p !in outcomes[n].raw)))
  {}

  /** Reload `k` unset the path: it vanished from the file, and the reload got that far. */
  predicate ErasesAt(d: Deployment, e: Engine, outcomes: seq<Outcome>, k: int, p: Path) {
    && 0 <= k < |outcomes|
    && match outcomes[k]
       case Finished(raw) => p in Vanished(d, After(d, e, outcomes[..k]), raw)
       case BrokeOff(_, failure) => p in failure.dropped && p !in failure.placed
  }

  predicate SetAgain(o: Outcome, p: Path) {
    match o
    case Finished(raw) => p in raw
    case BrokeOff(_, failure) => p in failure.placed
  }

  predicate NotSetSince(outcomes: seq<Outcome>, k: int, p: Path) {
    forall j :: 0 <= k < j < |outcomes| ==> !SetAgain(outcomes[j], p)
  }

  ghost predicate WasErased(d: Deployment, e: Engine, outcomes: seq<Outcome>, p: Path) {
    exists k :: ErasesAt(d, e, outcomes, k, p) && NotSetSince(outcomes, k, p)
  }

  /** A path is erased exactly when a reload unset it and none has set it since. */
  lemma {:induction false} ErasedMeans(d: Deployment, e: Engine, outcomes: seq<Outcome>, p: Path)
    requires !d.managed && e.erased == {}
    ensures p in After(d, e, outcomes).erased <==> WasErased(d, e, outcomes, p)
    decreases |outcomes|
  {
    if outcomes != [] {
      hide SetAgain, Vanished;
      var n := |outcomes| - 1;
      var front := outcomes[..n];
      ErasedMeans(d, e, front, p);
      forall k
        ensures ErasesAt(d, e, outcomes, k, p)
                <==> (k == n && ErasesAt(d, e, outcomes, n, p)) || ErasesAt(d, e, front, k, p)
      {
        if 0 <= k < n {
          assert front[..k] == outcomes[..k];
        }
      }
      forall k | 0 <= k < n
        ensures NotSetSince(outcomes, k, p) <==> NotSetSince(front, k, p) && !SetAgain(outcomes[n], p)
      {
        assert forall j :: 0 <= j < n ==> front[j] == outcomes[j];
      }
      ErasesLast(d, e, outcomes, p);
    }
  }

  lemma ErasesLast(d: Deployment, e: Engine, outcomes: seq<Outcome>, p: Path)
    requires !d.managed && outcomes != []
    ensures var n := |outcomes| - 1;
            var before := After(d, e, outcomes[..n]);
            && NotSetSince(outcomes, n, p)
            && (p in After(d, e, outcomes).erased
                <==> ErasesAt(d, e, outcomes, n, p) || (p in before.erased && !SetAgain(outcomes[n], p)))
  {}

  ghost predicate CanHappen(d: Deployment, e: Engine, outcomes: seq<Outcome>) {
    forall k :: 0 <= k < |outcomes| && outcomes[k].BrokeOff? ==>
      CanBreak(d, After(d, e, outcomes[..k]), outcomes[k].raw, outcomes[k].failure)
  }

  lemma {:induction false} AfterTracked(d: Deployment, e: Engine, outcomes: seq<Outcome>)
    requires Tracked(d, e) && CanHappen(d, e, outcomes)
    ensures Tracked(d, After(d, e, outcomes))
    decreases |outcomes|
  {
    hide Tracked, CanBreak, Broken, Done;
    if outcomes != [] {
      var n := |outcomes| - 1;
      var front := outcomes[..n];
      assert CanHappen(d, e, front) by {
        forall k | 0 <= k < n && front[k].BrokeOff?
          ensures CanBreak(d, After(d, e, front[..k]), front[k].raw, front[k].failure)
        {
          assert front[..k] == outcomes[..k] && front[k] == outcomes[k];
        }
      }
      AfterTracked(d, e, front);
      var before := After(d, e, front);
      match outcomes[n]
      case Finished(raw) => ReloadShows(d, before, raw, before.loadedSignature);
      case BrokeOff(raw, failure) => BrokenTracks(d, before, raw, failure);
    }
  }

  /** From a new engine on, in terms of how its reloads went alone: which removed paths are still set. */
  lemma RemovedPathStays(d: Deployment, e: Engine, outcomes: seq<Outcome>, raw: Document, p: Path)
    requires Tracked(d, e) && e.stray == {} && e.erased == {} && CanHappen(d, e, outcomes)
    requires !d.managed && p !in raw && p !in d.overridden
    ensures var before := After(d, e, outcomes);
            p in Done(d, before, raw, raw, before.loadedSignature).settings
            <==> HasStrayed(d, e, outcomes, p)
                 || (p in d.base && p !in before.loadedPaths && !WasErased(d, e, outcomes, p))
  {
    hide *;
    var before := After(d, e, outcomes);
    AfterTracked(d, e, outcomes);
    StrayMeans(d, e, outcomes, p);
    ErasedMeans(d, e, outcomes, p);
    PathOutlives(d, before, raw, p, before.loadedSignature);
  }

  // ----- the engine object -----

  /** Unset the paths one by one; with `calls` given, the call after that many raises. */
  method UnsetAll(settings: Document, removed: set<Path>, overridden: set<Path>, calls: Option<nat>)
    returns (r: Document, ok: bool, ghost dropped: set<Path>)
    ensures dropped <= removed - overridden && r == settings - dropped
    ensures ok <==> dropped == removed - overridden
    ensures ok <==> calls.None? || |removed - overridden| <= calls.value
  {
    var made := 0;
    r, dropped := settings, {};
    var todo := removed;
    while todo != {}
      invariant todo <= removed
      invariant dropped == removed - todo - overridden && made == |dropped|
      invariant r == settings - dropped
      invariant calls.Some? ==> made <= calls.value
      decreases |todo|
    {
      var p :| p in todo;
      OneLess(removed, todo, overridden, p);
      if p !in overridden {
        if calls == Some(made) {
          MoreThan(dropped, removed - overridden, p);
          return r, false, dropped;
        }
        DropOne(settings, dropped, p);
        r := r - {p};
        dropped := dropped + {p};
        made := made + 1;
      }
      todo := todo - {p};
    }
    NoneLeft(removed, overridden);
    ok := true;
  }

  lemma OneLess(all: set<Path>, todo: set<Path>, skip: set<Path>, p: Path)
    requires todo <= all && p in todo
    ensures var did := all - todo - skip;
            if p in skip then all - (todo - {p}) - skip == did
            else p !in did && all - (todo - {p}) - skip == did + {p} && |did + {p}| == |did| + 1
  {}

  lemma NoneLeft(all: set<Path>, skip: set<Path>)
    ensures all - {} - skip == all - skip
  {}

  lemma DropOne(settings: Document, dropped: set<Path>, p: Path)
    ensures settings - dropped - {p} == settings - (dropped + {p})
  {}

  lemma MoreThan(part: set<Path>, whole: set<Path>, p: Path)
    requires part <= whole && p in whole && p !in part
    ensures |part| < |whole| && part != whole
  {
    var rest := whole - part;
    assert p in rest && whole == part + rest && |whole| == |part| + |rest|;
  }

  /** Set the document leaf by leaf in the same way. */
  method SetAll(settings: Document, raw: Document, overridden: set<Path>, calls: Option<nat>)
    returns (r: Document, ok: bool, ghost placed: set<Path>)
    ensures placed <= raw.Keys - overridden && r == settings + Only(raw, placed)
    ensures ok <==> placed == raw.Keys - overridden
    ensures ok <==> calls.None? || |raw.Keys - overridden| <= calls.value
  {
    hide Only;
    var made := 0;
    r, placed := settings, {};
    var todo := raw.Keys;
    NothingPlaced(settings, raw);
    while todo != {}
      invariant todo <= raw.Keys
      invariant placed == raw.Keys - todo - overridden && made == |placed|
      invariant r == settings + Only(raw, placed)
      invariant calls.Some? ==> made <= calls.value
      decreases |todo|
    {
      var p :| p in todo;
      OneLess(raw.Keys, todo, overridden, p);
      if p !in overridden {
        if calls == Some(made) {
          MoreThan(placed, raw.Keys - overridden, p);
          return r, false, placed;
        }
        PlaceOne(settings, raw, placed, p);
        r := r[p := raw[p]];
        placed := placed + {p};
        made := made + 1;
      }
      todo := todo - {p};
    }
    NoneLeft(raw.Keys, overridden);
    ok := true;
  }

  lemma PlaceOne(settings: Document, raw: Document, placed: set<Path>, p: Path)
    requires p in raw
    ensures (settings + Only(raw, placed))[p := raw[p]] == settings + Only(raw, placed + {p})
  {}

  /** How many calls into the settings a reload makes. */
  function Calls(d: Deployment, e: Engine, raw: Document): nat {
    if d.managed then 1 else |Vanished(d, e, raw)| + |raw.Keys - d.overridden|
  }

  /** Both passes of a reload that is not a rebuild. */
  method ReloadLeaves(
      d: Deployment, settings: Document, loaded: set<Path>, raw: Document, calls: Option<nat>, rebuilt: Document,
      ghost e: Engine)
    returns (r: Document, ok: bool, ghost failure: Break)
    requires !d.managed && e.settings == settings && e.loadedPaths == loaded
    ensures ok <==> calls.None? || Calls(d, e, raw) <= calls.value
    ensures ok ==> forall onDisk, signature :: r == Done(d, e, raw, onDisk, signature).settings
    ensures !ok ==> CanBreak(d, e, raw, failure) && r == Broken(d, e, raw, failure).settings
  {
    hide Only;
    var vanished := loaded - raw.Keys;
    ghost var dropped;
    ghost var placed := {};
    r, ok, dropped := UnsetAll(settings, vanished, d.overridden, calls);
    NothingPlaced(r, raw);
    if ok {
      r, ok, placed :=
        SetAll(r, raw, d.overridden, if calls.None? then None else Some(calls.value - |vanished - d.overridden|));
      AllPlaced(raw, d.overridden);
    }
    failure := Break(dropped, placed, rebuilt);
  }

  /** One worker's engine and the settings it applies documents to. */
  class WorkerEngine {
    var settings: Document
    var loadedSignature: nat
    var loadedPaths: set<Path>
    ghost var stray: set<Path>
    ghost var erased: set<Path>

    /** As an idle engine of the transition system. */
    ghost function Contents(): Engine
      reads this
    {
      Engine(settings, loadedSignature, loadedPaths, Idle, stray, erased)
    }

    constructor (d: Deployment, doc: Document, signature: nat)
      ensures Contents() == Engine(d.base + (doc - d.overridden), signature, doc.Keys, Idle, {}, {})
    {
      settings, loadedSignature, loadedPaths := d.base + (doc - d.overridden), signature, doc.Keys;
      stray, erased := {}, {};
    }

    /**
     Unset what vanished, then set the document leaf by leaf, leaving the environment's paths alone. With
     `calls` given, the call into the settings after that many raises and nothing more is done; `rebuilt`
     is what a rebuild that raises leaves.
     */
    method HotReload(d: Deployment, raw: Document, onDisk: Document, calls: Option<nat>, rebuilt: Document)
      returns (ok: bool, ghost failure: Break)
      modifies this
      ensures ok <==> calls.None? || Calls(d, old(Contents()), raw) <= calls.value
      ensures ok ==> Contents() == Done(d, old(Contents()), raw, onDisk, old(loadedSignature))
      ensures !ok ==>
                CanBreak(d, old(Contents()), raw, failure) && Contents() == Broken(d, old(Contents()), raw, failure)
    {
      hide Done, Broken, CanBreak, Calls;
      ghost var before := Contents();
      if d.managed {
        ok, failure := calls != Some(0), Break({}, {}, rebuilt);
        settings := if ok then d.base + (onDisk - d.overridden) else rebuilt;
        ManagedReload(d, before, raw, onDisk, failure);
      } else {
        settings, ok, failure := ReloadLeaves(d, settings, loadedPaths, raw, calls, rebuilt, before);
      }
      ReloadKeeps(d, before, raw, onDisk, failure);
      ghost var after :=
        if ok then Done(d, before, raw, onDisk, before.loadedSignature) else Broken(d, before, raw, failure);
      stray, erased := after.stray, after.erased;
      if ok {
        loadedPaths := raw.Keys;
      }
    }

    /** Once per request: the signature was read before the document, and is kept only if the reload finishes. */
    method ReloadIfChanged(
        d: Deployment, signature: Option<nat>, raw: Option<Document>, onDisk: Document, calls: Option<nat>,
        rebuilt: Document)
      returns (changed: bool, ghost failure: Break)
      modifies this
      ensures var before := old(Contents());
              var due := signature.Some? && signature.value != before.loadedSignature && raw.Some?;
              && (changed <==> due && (calls.None? || Calls(d, before, raw.value) <= calls.value))
              && (changed ==> Contents() == Done(d, before, raw.value, onDisk, signature.value))
              && (due && !changed ==>
                    CanBreak(d, before, raw.value, failure) && Contents() == Broken(d, before, raw.value, failure))
              && (!due ==> Contents() == before)
    {
      failure := Break({}, {}, rebuilt);
      if signature.None? || signature.value == loadedSignature || raw.None? {
        return false, failure;
      }
      changed, failure := HotReload(d, raw.value, onDisk, calls, rebuilt);
      if !changed {
        return;
      }
      loadedSignature := signature.value;
    }
  }

  lemma ManagedReload(d: Deployment, e: Engine, raw: Document, onDisk: Document, failure: Break)
    requires d.managed
    ensures Calls(d, e, raw) == 1 && CanBreak(d, e, raw, failure)
    ensures Broken(d, e, raw, failure).settings == failure.rebuilt
    ensures Done(d, e, raw, onDisk, e.loadedSignature).settings == d.base + (onDisk - d.overridden)
  {}

  lemma ReloadKeeps(d: Deployment, e: Engine, raw: Document, onDisk: Document, failure: Break)
    ensures var done := Done(d, e, raw, onDisk, e.loadedSignature);
            done == Engine(done.settings, e.loadedSignature, raw.Keys, Idle, done.stray, done.erased)
    ensures var broken := Broken(d, e, raw, failure);
            broken == Engine(broken.settings, e.loadedSignature, e.loadedPaths, Idle, broken.stray, broken.erased)
  {}

  lemma NothingPlaced(settings: Document, raw: Document)
    ensures settings + Only(raw, {}) == settings
  {}

  lemma AllPlaced(raw: Document, overridden: set<Path>)
    ensures Only(raw, raw.Keys - overridden) == raw - overridden
  {}
}
