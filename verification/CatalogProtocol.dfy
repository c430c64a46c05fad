/** Refreshing the two catalogs as a state machine: every run of fetch outcomes, write
    failures, cancellations and crashes, interleaved between the two sources. */
module CatalogProtocol {
  import opened Options
  import opened Utf8
  import opened CatalogDocuments

  datatype Pair<T> = Pair(models: T, parameters: T) {
    function Get(kind: Source): T { if kind == Models then models else parameters }
    function Set(kind: Source, v: T): Pair<T> { if kind == Models then this.(models := v) else this.(parameters := v) }
  }

  type Files = Pair<Option<string>>
  type Versions = Pair<set<Option<string>>>

  function Only(files: Files): Versions { Pair({files.models}, {files.parameters}) }

  /** How far the one refresh that holds a source's lock has come. */
  datatype Phase =
    | Idle
    | Fetching(previous: Option<SourceDocument>)
    | Validated(doc: SourceDocument, parsed: Parsed)
    | Renamed(doc: SourceDocument, parsed: Parsed)
    | Synced(doc: SourceDocument, parsed: Parsed)
    | Published(doc: SourceDocument, parsed: Parsed)

  /** The served catalogs, each source's record and phase, and the cache directory: what
      readers see of it, and which versions of each file a crash may leave: the last one
      synced, or any renamed into place since. */
  datatype Catalogs = Catalogs(
    models: ModelCatalog,
    parameters: ParameterCatalog,
    state: Pair<SourceState>,
    phase: Pair<Phase>,
    visible: Files,
    survivors: Versions)

  datatype Action =
    | Lock(kind: Source)
    | Cancel(kind: Source)
    | Respond(kind: Source, response: Response, now: int)
    | WriteFails(kind: Source)
    | Rename(kind: Source)
    | SyncFails(kind: Source)
    | Sync(kind: Source)
    | Publish(kind: Source)
    | Record(kind: Source)
    | Crash(kept: Files, bundled: Files, now: int)

  function Served(s: Catalogs, kind: Source): Parsed {
    if kind == Models then ParsedModels(s.models) else ParsedParameters(s.parameters)
  }

  /** Publishing goes by what was parsed, not by which source asked. */
  function Serve(s: Catalogs, parsed: Parsed): Catalogs {
    match parsed
    case ParsedModels(m) => s.(models := m)
    case ParsedParameters(p) => s.(parameters := p)
  }

  function EmptyModels(now: int): ModelCatalog { ModelCatalog("empty", now, {}, {}) }
  const EMPTY_PARAMETERS := ParameterCatalog("unavailable", [])

  predicate IsEmpty(parsed: Parsed) {
    match parsed
    case ParsedModels(m) => m == EmptyModels(m.fetchedAt)
    case ParsedParameters(p) => p == EMPTY_PARAMETERS
  }

  // ---- Start-up -----------------------------------------------------------

  function ServeLoaded(w: World, s: Catalogs, kind: Source): Catalogs {
    var d := s.state.Get(kind).document;
    if d.None? then s
    else
      var v := Validate(w, kind, d.value);
      if v.Ok? then Serve(s, v.value) else s
  }

  function Load(w: World, bundled: Files, disk: Files, now: int): Catalogs {
    var state := Pair(LoadOne(w, Models, bundled.models, disk.models),
                      LoadOne(w, Parameters, bundled.parameters, disk.parameters));
    var s := Catalogs(EmptyModels(now), EMPTY_PARAMETERS, state, Pair(Idle, Idle), disk, Only(disk));
    ServeLoaded(w, ServeLoaded(w, s, Models), Parameters)
  }

  // ---- Steps --------------------------------------------------------------

  function Failed(s: Catalogs, kind: Source, error: Failure): Catalogs {
    s.(state := s.state.Set(kind, s.state.Get(kind).(error := Some(error))), phase := s.phase.Set(kind, Idle))
  }

  function Respondent(
    w: World, s: Catalogs, kind: Source, previous: Option<SourceDocument>, response: Response, now: int): Catalogs {
    var f := Fetched(w, kind, previous, response, now);
    if f.Err? then Failed(s, kind, f.error)
    else
      var v := Validate(w, kind, f.value);
      if v.Err? then Failed(s, kind, v.error)
      else s.(phase := s.phase.Set(kind, Validated(f.value, v.value)))
  }

  /** What a crash leaves of a file: any of the versions that may survive, `kept` says which. */
  function Survivor(s: Catalogs, kept: Files, kind: Source): Option<string> {
    if kept.Get(kind) in s.survivors.Get(kind) then kept.Get(kind) else s.visible.Get(kind)
  }

  /** One step; an action whose phase has not come does nothing. */
  function Step(w: World, s: Catalogs, a: Action): Catalogs {
    if a.Crash? then
      Load(w, a.bundled, Pair(Survivor(s, a.kept, Models), Survivor(s, a.kept, Parameters)), a.now)
    else
      var kind, phase := a.kind, s.phase.Get(a.kind);
      match a
      case Lock(_) =>
        if phase.Idle? then s.(phase := s.phase.Set(kind, Fetching(s.state.Get(kind).document))) else s
      case Cancel(_) =>
        if phase.Fetching? then s.(phase := s.phase.Set(kind, Idle)) else s
      case Respond(_, response, now) =>
        if phase.Fetching? then Respondent(w, s, kind, phase.previous, response, now) else s
      case WriteFails(_) =>
        if phase.Validated? then Failed(s, kind, DiskFailure) else s
      case Rename(_) =>
        if phase.Validated?
        then s.(visible := s.visible.Set(kind, Some(w.encode(phase.doc))),
                survivors := s.survivors.Set(kind, s.survivors.Get(kind) + {Some(w.encode(phase.doc))}),
                phase := s.phase.Set(kind, Renamed(phase.doc, phase.parsed)))
        else s
      case SyncFails(_) =>
        if phase.Renamed? then Failed(s, kind, DiskFailure) else s
      case Sync(_) =>      // both files live in the one directory
        if phase.Renamed?
        then s.(survivors := Only(s.visible), phase := s.phase.Set(kind, Synced(phase.doc, phase.parsed)))
        else s
      case Publish(_) =>
        if phase.Synced?
        then Serve(s, phase.parsed).(phase := s.phase.Set(kind, Published(phase.doc, phase.parsed)))
        else s
      case Record(_) =>
        if phase.Published?
        then s.(state := s.state.Set(kind, SourceState(Remote, Some(phase.doc), None)),
                phase := s.phase.Set(kind, Idle))
        else s
  }

  function Run(w: World, s: Catalogs, actions: seq<Action>): Catalogs {
    if actions == [] then s else Step(w, Run(w, s, actions[..|actions| - 1]), actions[|actions| - 1])
  }

  // ---- The invariant ------------------------------------------------------

  /** The document behind what a source serves. */
  function Behind(s: Catalogs, kind: Source): Option<SourceDocument> {
    var phase := s.phase.Get(kind);
    if phase.Published? then Some(phase.doc) else s.state.Get(kind).document
  }

  /** The served catalog is the parse of a validated document, or the empty one when there is none. */
  predicate ServesValidated(w: World, s: Catalogs, kind: Source) {
    var d := Behind(s, kind);
    if d.Some? then Validate(w, kind, d.value) == Ok(Served(s, kind)) else IsEmpty(Served(s, kind))
  }

  predicate PhaseValid(w: World, s: Catalogs, kind: Source) {
    var phase, document := s.phase.Get(kind), s.state.Get(kind).document;
    && (document.Some? ==> Validate(w, kind, document.value).Ok?)
    && match phase
       case Idle => true
       case Fetching(previous) => previous == document
       case Validated(doc, parsed) => Validate(w, kind, doc) == Ok(parsed)
       case Renamed(doc, parsed) => Validate(w, kind, doc) == Ok(parsed)
       case Synced(doc, parsed) => Validate(w, kind, doc) == Ok(parsed)
       case Published(doc, parsed) => Validate(w, kind, doc) == Ok(parsed)
  }

  /** A refresh past its rename has its document on disk, and past its sync for good. */
  predicate PhaseOnDisk(w: World, s: Catalogs, kind: Source) {
    var phase := s.phase.Get(kind);
    && (phase.Renamed? || phase.Synced? || phase.Published? ==> s.visible.Get(kind) == Some(w.encode(phase.doc)))
    && (phase.Synced? || phase.Published? ==> s.survivors.Get(kind) == {Some(w.encode(phase.doc))})
  }

  predicate SourceInv(w: World, s: Catalogs, kind: Source) {
    ServesValidated(w, s, kind) && PhaseValid(w, s, kind) && PhaseOnDisk(w, s, kind)
  }

  predicate Inv(w: World, s: Catalogs) { SourceInv(w, s, Models) && SourceInv(w, s, Parameters) }

  lemma {:induction false} LoadValid(w: World, kind: Source, bundled: Option<string>, cache: Option<string>)
    ensures var d := LoadOne(w, kind, bundled, cache).document; d.Some? ==> Validate(w, kind, d.value).Ok?
  {
  }

  lemma {:induction false} LoadFrame(w: World, bundled: Files, disk: Files, now: int)
    ensures var s := Load(w, bundled, disk, now);
            && s.visible == disk && s.survivors == Only(disk) && s.phase == Pair(Idle, Idle)
            && s.state.models == LoadOne(w, Models, bundled.models, disk.models)
            && s.state.parameters == LoadOne(w, Parameters, bundled.parameters, disk.parameters)
  {
  }

  lemma {:induction false} LoadEstablishes(w: World, bundled: Files, disk: Files, now: int)
    ensures Inv(w, Load(w, bundled, disk, now))
  {
    LoadValid(w, Models, bundled.models, disk.models);
    LoadValid(w, Parameters, bundled.parameters, disk.parameters);
    LoadFrame(w, bundled, disk, now);
  }

  /** All that one source's steps touch: its own record, phase, catalog and file. */
  predicate SameSource(s: Catalogs, t: Catalogs, kind: Source) {
    && t.state.Get(kind) == s.state.Get(kind)
    && t.phase.Get(kind) == s.phase.Get(kind)
    && Served(t, kind) == Served(s, kind)
    && t.visible.Get(kind) == s.visible.Get(kind)
  }

  function Other(kind: Source): Source { if kind == Models then Parameters else Models }

  /** Refreshing one source never changes the other; at most it makes
      the other's renamed file durable too. */
  lemma {:induction false} StepIsLocal(w: World, s: Catalogs, a: Action)
    requires Inv(w, s) && !a.Crash?
    ensures SameSource(s, Step(w, s, a), Other(a.kind))
    ensures Step(w, s, a).survivors.Get(Other(a.kind))
         in {s.survivors.Get(Other(a.kind)), {s.visible.Get(Other(a.kind))}}
  {
    if a.Publish? && s.phase.Get(a.kind).Synced? {
      ValidateKind(w, a.kind, s.phase.Get(a.kind).doc);
    }
  }

  lemma {:induction false} FetchKeeps(w: World, s: Catalogs, a: Action)
    requires (a.Lock? || a.Cancel? || a.Respond?) && SourceInv(w, s, a.kind)
    ensures SourceInv(w, Step(w, s, a), a.kind)
  {
  }

  lemma {:induction false} SaveKeeps(w: World, s: Catalogs, a: Action)
    requires (a.WriteFails? || a.Rename? || a.SyncFails? || a.Sync?) && SourceInv(w, s, a.kind)
    ensures SourceInv(w, Step(w, s, a), a.kind)
  {
  }

  lemma {:induction false} CommitKeeps(w: World, s: Catalogs, a: Action)
    requires (a.Publish? || a.Record?) && SourceInv(w, s, a.kind)
    ensures SourceInv(w, Step(w, s, a), a.kind)
  {
    if a.Publish? && s.phase.Get(a.kind).Synced? {
      ValidateKind(w, a.kind, s.phase.Get(a.kind).doc);
    }
  }

  lemma {:induction false} OtherKeeps(w: World, s: Catalogs, t: Catalogs, kind: Source)
    requires SourceInv(w, s, kind) && SameSource(s, t, kind)
    requires t.survivors.Get(kind) in {s.survivors.Get(kind), {s.visible.Get(kind)}}
    ensures SourceInv(w, t, kind)
  {
  }

  lemma {:induction false} StepKeeps(w: World, s: Catalogs, a: Action)
    requires Inv(w, s)
    ensures Inv(w, Step(w, s, a))
  {
    if a.Crash? {
      LoadEstablishes(w, a.bundled, Pair(Survivor(s, a.kept, Models), Survivor(s, a.kept, Parameters)), a.now);
    } else {
      if a.Lock? || a.Cancel? || a.Respond? {
        FetchKeeps(w, s, a);
      } else if a.Publish? || a.Record? {
        CommitKeeps(w, s, a);
      } else {
        SaveKeeps(w, s, a);
      }
      StepIsLocal(w, s, a);
      OtherKeeps(w, s, Step(w, s, a), Other(a.kind));
    }
  }

  /** In every run from a start-up, what is served is the parse of a validated document. */
  lemma {:induction false} RunKeeps(w: World, bundled: Files, disk: Files, now: int, actions: seq<Action>)
    ensures Inv(w, Run(w, Load(w, bundled, disk, now), actions))
  {
    LoadEstablishes(w, bundled, disk, now);
    if actions != [] {
      RunKeeps(w, bundled, disk, now, actions[..|actions| - 1]);
      StepKeeps(w, Run(w, Load(w, bundled, disk, now), actions[..|actions| - 1]), actions[|actions| - 1]);
    }
  }

  /** In every run: the document behind what is served is authentic, and what is served is what its
      text holds. */
  lemma {:induction false} RunServesAuthentic(
    w: World, bundled: Files, disk: Files, now: int, actions: seq<Action>, kind: Source)
    ensures var s := Run(w, Load(w, bundled, disk, now), actions);
      var d := Behind(s, kind);
      if d.Some? then Authentic(w, kind, d.value) && IsParse(w, kind, d.value, Served(s, kind))
      else IsEmpty(Served(s, kind))
  {
    var s := Run(w, Load(w, bundled, disk, now), actions);
    RunKeeps(w, bundled, disk, now, actions);
    assert ServesValidated(w, s, kind);
    if Behind(s, kind).Some? { ValidateExact(w, kind, Behind(s, kind).value); }
  }

  // ---- The cache directory ------------------------------------------------

  /** The documents of `kind` that a run renames into place. */
  function Written(w: World, s: Catalogs, actions: seq<Action>, kind: Source): seq<SourceDocument> {
    if actions == [] then []
    else
      var k := |actions| - 1;
      var phase := Run(w, s, actions[..k]).phase.Get(kind);
      Written(w, s, actions[..k], kind) + if actions[k] == Rename(kind) && phase.Validated? then [phase.doc] else []
  }

  function Encoded(w: World, docs: seq<SourceDocument>): set<Option<string>> { set d | d in docs :: Some(w.encode(d)) }

  /** The versions of a source's file that readers see, or a crash may leave. */
  function OnDisk(s: Catalogs, kind: Source): set<Option<string>> { s.survivors.Get(kind) + {s.visible.Get(kind)} }

  /** What a step renames into place for `kind`. */
  function Placed(w: World, s: Catalogs, a: Action, kind: Source): set<Option<string>> {
    var phase := s.phase.Get(kind);
    if a == Rename(kind) && phase.Validated? then {Some(w.encode(phase.doc))} else {}
  }

  lemma {:induction false} StepMovesFiles(w: World, s: Catalogs, a: Action, kind: Source)
    ensures OnDisk(Step(w, s, a), kind) <= OnDisk(s, kind) + Placed(w, s, a, kind)
  {
    if a.Crash? {
      LoadFrame(w, a.bundled, Pair(Survivor(s, a.kept, Models), Survivor(s, a.kept, Parameters)), a.now);
    }
  }

  lemma {:induction false} RunMovesFiles(w: World, s: Catalogs, actions: seq<Action>, kind: Source)
    ensures OnDisk(Run(w, s, actions), kind) <= OnDisk(s, kind) + Encoded(w, Written(w, s, actions, kind))
  {
    if actions != [] {
      var k := |actions| - 1;
      RunMovesFiles(w, s, actions[..k], kind);
      StepMovesFiles(w, Run(w, s, actions[..k]), actions[k], kind);
      WrittenGrows(w, s, actions, kind);
    }
  }

  lemma {:induction false} RunInv(w: World, s: Catalogs, actions: seq<Action>)
    requires Inv(w, s)
    ensures Inv(w, Run(w, s, actions))
  {
    if actions != [] {
      var k := |actions| - 1;
      RunInv(w, s, actions[..k]);
      StepKeeps(w, Run(w, s, actions[..k]), actions[k]);
    }
  }

  lemma {:induction false} WrittenValid(w: World, s: Catalogs, actions: seq<Action>, kind: Source)
    requires Inv(w, s)
    ensures forall i :: 0 <= i < |Written(w, s, actions, kind)| ==>
      Validate(w, kind, Written(w, s, actions, kind)[i]).Ok?
  {
    if actions != [] {
      var k := |actions| - 1;
      WrittenValid(w, s, actions[..k], kind);
      RunInv(w, s, actions[..k]);
    }
  }

  /** In every run, with every crash, each version of a file on disk is complete: an earlier one,
      or a whole document that had passed validation. */
  lemma {:induction false} RunFilesWhole(w: World, s: Catalogs, actions: seq<Action>, kind: Source)
    requires Inv(w, s)
    ensures var docs := Written(w, s, actions, kind);
            && OnDisk(Run(w, s, actions), kind) <= OnDisk(s, kind) + Encoded(w, docs)
            && forall i :: 0 <= i < |docs| ==> Validate(w, kind, docs[i]).Ok?
  {
    RunMovesFiles(w, s, actions, kind);
    WrittenValid(w, s, actions, kind);
  }

  lemma {:induction false} WrittenGrows(w: World, s: Catalogs, actions: seq<Action>, kind: Source)
    requires actions != []
    ensures var k := |actions| - 1;
            Encoded(w, Written(w, s, actions, kind))
            == Encoded(w, Written(w, s, actions[..k], kind)) + Placed(w, Run(w, s, actions[..k]), actions[k], kind)
  {
    var k := |actions| - 1;
    var phase := Run(w, s, actions[..k]).phase.Get(kind);
    EncodedConcat(w, Written(w, s, actions[..k], kind),
                  if actions[k] == Rename(kind) && phase.Validated? then [phase.doc] else []);
  }

  lemma {:induction false} EncodedConcat(w: World, a: seq<SourceDocument>, b: seq<SourceDocument>)
    ensures Encoded(w, a + b) == Encoded(w, a) + Encoded(w, b)
  {
  }

  /** Between rename and sync a crash may leave the new file, or any that it could leave before. */
  lemma {:induction false} RenameIsUnsettled(w: World, s: Catalogs, kind: Source, kept: Files)
    requires s.phase.Get(kind).Validated?
    requires kept.Get(kind) == Some(w.encode(s.phase.Get(kind).doc)) || kept.Get(kind) in s.survivors.Get(kind)
    ensures Survivor(Step(w, s, Rename(kind)), kept, kind) == kept.Get(kind)
  {
  }

  /** After the sync it leaves what readers saw. */
  lemma {:induction false} SyncSettles(w: World, s: Catalogs, kind: Source, kept: Files, other: Source)
    requires s.phase.Get(kind).Renamed?
    ensures Survivor(Step(w, s, Sync(kind)), kept, other) == s.visible.Get(other)
  {
  }

  // ---- Failed refreshes ---------------------------------------------------

  /** What readers get from a source, apart from its last error. */
  predicate SameService(s: Catalogs, t: Catalogs, kind: Source) {
    && Served(t, kind) == Served(s, kind)
    && t.state.Get(kind).document == s.state.Get(kind).document
    && t.state.Get(kind).origin == s.state.Get(kind).origin
  }

  /** No step of the run publishes or records `kind`, and the server stays up. */
  predicate Unpublished(actions: seq<Action>, kind: Source) {
    forall i :: 0 <= i < |actions| ==> actions[i] != Publish(kind) && actions[i] != Record(kind) && !actions[i].Crash?
  }

  /** However far a refresh gets before it fails, catalog and document stay as they were. */
  lemma {:induction false} FailureKeepsService(w: World, s: Catalogs, actions: seq<Action>, kind: Source)
    requires Inv(w, s) && Unpublished(actions, kind)
    ensures Inv(w, Run(w, s, actions)) && SameService(s, Run(w, s, actions), kind)
  {
    if actions != [] {
      var k := |actions| - 1;
      var t := Run(w, s, actions[..k]);
      FailureKeepsService(w, s, actions[..k], kind);
      StepKeeps(w, t, actions[k]);
      StepIsLocal(w, t, actions[k]);
      assert actions[k].kind == kind ==> SameService(t, Step(w, t, actions[k]), kind);
    }
  }

  // ---- Reloading ----------------------------------------------------------

  /** The document's file is the only version there is. */
  predicate Settled(w: World, s: Catalogs, kind: Source, d: SourceDocument) { OnDisk(s, kind) == {Some(w.encode(d))} }

  lemma {:induction false} SettledStays(w: World, s: Catalogs, actions: seq<Action>, kind: Source, d: SourceDocument)
    requires Settled(w, s, kind, d) && Rename(kind) !in actions
    ensures Settled(w, Run(w, s, actions), kind, d)
  {
    if actions != [] {
      var k := |actions| - 1;
      SettledStays(w, s, actions[..k], kind, d);
      assert actions[k] in actions;
      var t := Run(w, s, actions[..k]);
      StepMovesFiles(w, t, actions[k], kind);
      assert Step(w, t, actions[k]).visible.Get(kind) in OnDisk(Step(w, t, actions[k]), kind);
    }
  }

  /** After a successful refresh of `kind`, any run that writes no newer document for it, and
      a crash, the start-up serves the published version again from the cache exactly when
      its file fits the read limit and no bundled copy is newer. */
  lemma {:induction false} ReloadsPublishedIff(w: World, s: Catalogs, kind: Source, actions: seq<Action>, crash: Action)
    requires Faithful(w) && Inv(w, s) && s.phase.Get(kind).Published? && Rename(kind) !in actions && crash.Crash?
    ensures var d, parsed := s.phase.Get(kind).doc, s.phase.Get(kind).parsed;
            var t := Step(w, Run(w, Step(w, s, Record(kind)), actions), crash);
            && (t.state.Get(kind).document == Some(d) && t.state.Get(kind).origin == Cache
                <==> Bytes(w.encode(d)) <= 2 * MAX_SOURCE_BYTES && !Outdated(w, kind, crash.bundled.Get(kind), d))
            && (t.state.Get(kind).document == Some(d) ==> Served(t, kind) == parsed)
  {
    var d := s.phase.Get(kind).doc;
    var recorded := Step(w, s, Record(kind));
    assert OnDisk(recorded, kind) == {Some(w.encode(d))};
    SettledStays(w, recorded, actions, kind, d);
    var u := Run(w, recorded, actions);
    var disk := Pair(Survivor(u, crash.kept, Models), Survivor(u, crash.kept, Parameters));
    assert disk.Get(kind) in OnDisk(u, kind);
    LoadEstablishes(w, crash.bundled, disk, crash.now);
    LoadFrame(w, crash.bundled, disk, crash.now);
    WrittenIsReloadedIff(w, kind, crash.bundled.Get(kind), d);
  }
}
