/** The catalog service object: start-up and refresh as the calls make them, each tied to the
    steps of the protocol. */
module CatalogService {
  import opened Options
  import opened Utf8
  import opened CatalogDocuments
  import opened CatalogProtocol

  /** How writing the cache file ended. */
  datatype Saving = WriteFailed | SyncFailed | Saved

  /** The steps one refresh takes; after a failure the later ones find nothing to do. */
  function RefreshSteps(kind: Source, response: Response, saving: Saving, now: int): seq<Action> {
    [Lock(kind), Respond(kind, response, now)] + Rest(kind, saving)
  }

  function Rest(kind: Source, saving: Saving): seq<Action> {
    match saving
    case WriteFailed => [WriteFails(kind)]
    case SyncFailed => [Rename(kind), SyncFails(kind)]
    case Saved => [Rename(kind), Sync(kind), Publish(kind), Record(kind)]
  }

  /** What follows a validated document, by how the saving ends. */
  function Finished(w: World, s: Catalogs, kind: Source, saving: Saving): Catalogs
    requires s.phase.Get(kind).Validated?
  {
    var doc, parsed := s.phase.Get(kind).doc, s.phase.Get(kind).parsed;
    var file := Some(w.encode(doc));
    var renamed := s.(visible := s.visible.Set(kind, file),
                      survivors := s.survivors.Set(kind, s.survivors.Get(kind) + {file}));
    match saving
    case WriteFailed => Failed(s, kind, DiskFailure)
    case SyncFailed => Failed(renamed, kind, DiskFailure)
    case Saved =>
      var served := Serve(renamed.(survivors := Only(renamed.visible)), parsed);
      served.(state := s.state.Set(kind, SourceState(Remote, Some(doc), None)), phase := s.phase.Set(kind, Idle))
  }

  /** What one undisturbed refresh makes of the state. */
  function Refreshed(w: World, s: Catalogs, kind: Source, response: Response, saving: Saving, now: int): Catalogs {
    var t := Respondent(w, s, kind, s.state.Get(kind).document, response, now);
    if t.phase.Get(kind).Validated? then Finished(w, t, kind, saving) else t
  }

  /** A refresh without an error has recorded the document of the response and serves its parse. */
  lemma {:induction false} RefreshedServes(
    w: World, s: Catalogs, kind: Source, response: Response, saving: Saving, now: int)
    ensures var t := Refreshed(w, s, kind, response, saving, now);
      var st := t.state.Get(kind);
      st.error.None? ==>
        && st.document.Some? && Represents(w, kind, s.state.Get(kind).document, response, now, st.document.value)
        && Authentic(w, kind, st.document.value) && IsParse(w, kind, st.document.value, Served(t, kind))
  {
    FetchedIs(w, kind, s.state.Get(kind).document, response, now);
    var f := Fetched(w, kind, s.state.Get(kind).document, response, now);
    if f.Ok? {
      ValidateExact(w, kind, f.value);
      ValidateKind(w, kind, f.value);
    }
  }

  /** The response stands for a document that validation accepts. */
  ghost predicate Usable(w: World, kind: Source, previous: Option<SourceDocument>, response: Response, now: int) {
    exists d :: Represents(w, kind, previous, response, now, d) && Acceptable(w, kind, d)
  }

  /** A refresh ends without an error exactly if the response is usable and saving it succeeds. */
  lemma {:induction false} RefreshedIff(
    w: World, s: Catalogs, kind: Source, response: Response, saving: Saving, now: int)
    ensures Refreshed(w, s, kind, response, saving, now).state.Get(kind).error.None?
            <==> saving.Saved? && Usable(w, kind, s.state.Get(kind).document, response, now)
  {
    var previous := s.state.Get(kind).document;
    var f := Fetched(w, kind, previous, response, now);
    FetchedIs(w, kind, previous, response, now);
    if f.Ok? { ValidateExact(w, kind, f.value); }
    if Usable(w, kind, previous, response, now) {
      var d :| Represents(w, kind, previous, response, now, d) && Acceptable(w, kind, d);
      OnlyDocument(w, kind, previous, response, now, d);
    }
  }

  lemma {:induction false} RunStep(w: World, s: Catalogs, actions: seq<Action>, a: Action)
    ensures Run(w, s, actions + [a]) == Step(w, Run(w, s, actions), a)
  {
    assert (actions + [a])[..|actions|] == actions;
  }

  lemma {:induction false} FetchRuns(w: World, s: Catalogs, kind: Source, response: Response, now: int)
    requires s.phase.Get(kind).Idle?
    ensures Run(w, s, [Lock(kind), Respond(kind, response, now)]) ==
        Respondent(w, s, kind, s.state.Get(kind).document, response, now)
  {
    RunStep(w, s, [], Lock(kind));
    RunStep(w, s, [Lock(kind)], Respond(kind, response, now));
    assert [] + [Lock(kind)] == [Lock(kind)];
    assert [Lock(kind)] + [Respond(kind, response, now)] == [Lock(kind), Respond(kind, response, now)];
  }

  lemma {:induction false} SnocAssociates(first: seq<Action>, init: seq<Action>, a: Action)
    ensures first + init + [a] == first + (init + [a])
  {
  }

  lemma {:induction false} RunConcat(w: World, s: Catalogs, first: seq<Action>, second: seq<Action>)
    ensures Run(w, s, first + second) == Run(w, Run(w, s, first), second)
  {
    if second == [] {
      assert first + second == first;
    } else {
      var init, a := second[..|second| - 1], second[|second| - 1];
      RunConcat(w, s, first, init);
      assert second == init + [a];
      SnocAssociates(first, init, a);
      RunBoth(w, first + init, init, s, Run(w, s, first), a);
    }
  }

  /** Runs that lead to the same state do so one step later. */
  lemma {:induction false} RunBoth(w: World, x: seq<Action>, y: seq<Action>, s: Catalogs, t: Catalogs, a: Action)
    requires Run(w, s, x) == Run(w, t, y)
    ensures Run(w, s, x + [a]) == Run(w, t, y + [a])
  {
    RunStep(w, s, x, a);
    RunStep(w, t, y, a);
  }

  /** The steps of one call, run without interruption, make exactly `Refreshed`. */
  lemma {:induction false} RefreshRuns(
    w: World, s: Catalogs, kind: Source, response: Response, saving: Saving, now: int)
    requires s.phase.Get(kind).Idle?
    ensures Run(w, s, RefreshSteps(kind, response, saving, now)) == Refreshed(w, s, kind, response, saving, now)
  {
    var t := Respondent(w, s, kind, s.state.Get(kind).document, response, now);
    var rest := Rest(kind, saving);
    RunConcat(w, s, [Lock(kind), Respond(kind, response, now)], rest);
    FetchRuns(w, s, kind, response, now);
    RestRuns(w, t, kind, saving);
  }

  lemma {:induction false} RestRuns(w: World, t: Catalogs, kind: Source, saving: Saving)
    requires t.phase.Get(kind).Idle? || t.phase.Get(kind).Validated?
    ensures Run(w, t, Rest(kind, saving)) == if t.phase.Get(kind).Idle? then t else Finished(w, t, kind, saving)
  {
    match saving
    case WriteFailed =>
      RunStep(w, t, [], WriteFails(kind));
      assert [] + [WriteFails(kind)] == [WriteFails(kind)];
    case SyncFailed =>
      RunTwo(w, t, Rename(kind), SyncFails(kind));
    case Saved =>
      SavedRuns(w, t, kind);
  }

  lemma {:induction false} SavedRuns(w: World, t: Catalogs, kind: Source)
    requires t.phase.Get(kind).Idle? || t.phase.Get(kind).Validated?
    ensures Run(w, t, Rest(kind, Saved)) == if t.phase.Get(kind).Idle? then t else Finished(w, t, kind, Saved)
  {
    RunConcat(w, t, [Rename(kind), Sync(kind)], [Publish(kind), Record(kind)]);
    assert [Rename(kind), Sync(kind)] + [Publish(kind), Record(kind)] == Rest(kind, Saved);
    RunTwo(w, t, Rename(kind), Sync(kind));
    RunTwo(w, Run(w, t, [Rename(kind), Sync(kind)]), Publish(kind), Record(kind));
  }

  lemma {:induction false} RunTwo(w: World, s: Catalogs, a: Action, b: Action)
    ensures Run(w, s, [a, b]) == Step(w, Step(w, s, a), b)
  {
    RunStep(w, s, [a], b);
    RunStep(w, s, [], a);
    assert [] + [a] == [a];
    assert [a] + [b] == [a, b];
  }

  /** How the refresh ends shows in the record: a failure changes nothing but the error, a
      success clears it and has its document on disk for good. */
  lemma {:induction false} RefreshedLaws(
    w: World, s: Catalogs, kind: Source, response: Response, saving: Saving, now: int)
    requires s.phase.Get(kind).Idle?
    ensures var t := Refreshed(w, s, kind, response, saving, now);
            var st := t.state.Get(kind);
            if st.error.Some? then SameService(s, t, kind)
            else st.document.Some? && st.origin == Remote && Settled(w, t, kind, st.document.value)
  {
  }

  lemma {:induction false} RefreshKeeps(
    w: World, s: Catalogs, kind: Source, response: Response, saving: Saving, now: int)
    requires Inv(w, s)
    ensures var t := Run(w, s, RefreshSteps(kind, response, saving, now)); Inv(w, t) && SameSource(s, t, Other(kind))
  {
    RunLocal(w, s, kind, RefreshSteps(kind, response, saving, now));
  }

  /** A run of steps of one source leaves the other as it was. */
  lemma {:induction false} RunLocal(w: World, s: Catalogs, kind: Source, actions: seq<Action>)
    requires Inv(w, s) && forall i :: 0 <= i < |actions| ==> !actions[i].Crash? && actions[i].kind == kind
    ensures Inv(w, Run(w, s, actions)) && SameSource(s, Run(w, s, actions), Other(kind))
  {
    if actions != [] {
      var k := |actions| - 1;
      RunLocal(w, s, kind, actions[..k]);
      StepKeeps(w, Run(w, s, actions[..k]), actions[k]);
      StepIsLocal(w, Run(w, s, actions[..k]), actions[k]);
    }
  }

  /** Collects a body chunk by chunk, giving up as soon as it grows too large. */
  method ReadBody(chunks: seq<seq<bv8>>, broken: bool) returns (r: Result<seq<bv8>>)
    ensures r == Body(chunks, broken)
  {
    var bytes := [];
    for i := 0 to |chunks|
      invariant bytes == Joined(chunks[..i]) && |bytes| <= MAX_SOURCE_BYTES
    {
      assert chunks[..i + 1][..i] == chunks[..i];
      if |bytes| + |chunks[i]| > MAX_SOURCE_BYTES {
        JoinedGrows(chunks, i + 1);
        return Err(BodyTooLarge);
      }
      bytes := bytes + chunks[i];
    }
    assert chunks[..|chunks|] == chunks;
    return if broken then Err(BodyBroken) else Ok(bytes);
  }

  lemma {:induction false} JoinedGrows(chunks: seq<seq<bv8>>, i: nat)
    requires i <= |chunks|
    ensures |Joined(chunks[..i])| <= |Joined(chunks)|
    decreases |chunks|
  {
    if i == |chunks| {
      assert chunks[..i] == chunks;
    } else {
      var init := chunks[..|chunks| - 1];
      JoinedGrows(init, i);
      assert init[..i] == chunks[..i];
    }
  }

  /** Builds the document of a response. */
  method Fetch(w: World, kind: Source, previous: Option<SourceDocument>, response: Response, now: int)
    returns (r: Result<SourceDocument>)
    ensures r == Fetched(w, kind, previous, response, now)
    ensures r.Ok? ==> Represents(w, kind, previous, response, now, r.value)
    ensures r.Err? ==> FailsWith(w, previous, response, r.error)
  {
    FetchedIs(w, kind, previous, response, now);
    if response.Unsent? {
      return Err(NotSent);
    }
    var document;
    if response.status == 304 {
      if previous.None? {
        return Err(NothingToReuse);
      }
      document := previous.value;
    } else {
      if !(200 <= response.status < 300) {
        return Err(Status(response.status));
      }
      var body := ReadBody(response.chunks, response.broken);
      var downloaded := Downloaded(w, kind, body, now);
      if downloaded.Err? {
        return downloaded;
      }
      document := downloaded.value;
    }
    document := document.(fetchedAt := now);
    if response.etag.Some? {
      document := document.(etag := response.etag);
    }
    if response.lastModified.Some? {
      document := document.(lastModified := response.lastModified);
    }
    return Ok(document);
  }

  class CatalogSources {
    const w: World
    var models: ModelCatalog
    var parameters: ParameterCatalog
    var modelsSource: SourceState
    var parametersSource: SourceState
    var visible: Files
    var survivors: Versions

    ghost function Value(): Catalogs
      reads this
    {
      Catalogs(models, parameters, Pair(modelsSource, parametersSource), Pair(Idle, Idle), visible, survivors)
    }

    function Source(kind: Source): SourceState
      reads this
    {
      if kind == Models then modelsSource else parametersSource
    }

    /** Loads what is on disk; a bundled directory may offer other copies. */
    constructor (w: World, bundled: Files, disk: Files, now: int)
      ensures this.w == w && Value() == Load(w, bundled, disk, now) && Inv(w, Value())
    {
      var modelsSource, parametersSource :=
        LoadOne(w, Models, bundled.models, disk.models), LoadOne(w, Parameters, bundled.parameters, disk.parameters);
      this.w := w;
      this.models, this.parameters := EmptyModels(now), EMPTY_PARAMETERS;
      this.modelsSource, this.parametersSource := modelsSource, parametersSource;
      this.visible, this.survivors := disk, Only(disk);
      new;
      LoadValid(w, Models, bundled.models, disk.models);
      LoadValid(w, Parameters, bundled.parameters, disk.parameters);
      LoadEstablishes(w, bundled, disk, now);
      if modelsSource.document.Some? {
        Swap(Validate(w, Models, modelsSource.document.value).value);
      }
      if parametersSource.document.Some? {
        Swap(Validate(w, Parameters, parametersSource.document.value).value);
      }
    }

    method Swap(parsed: Parsed)
      modifies this`models, this`parameters
      ensures Value() == Serve(old(Value()), parsed)
    {
      match parsed
      case ParsedModels(m) => models := m;
      case ParsedParameters(p) => parameters := p;
    }

    method SetSource(kind: Source, st: SourceState)
      modifies this`modelsSource, this`parametersSource
      ensures Value() == old(Value()).(state := old(Value()).state.Set(kind, st))
    {
      if kind == Models { modelsSource := st; } else { parametersSource := st; }
    }

    /** Refreshes one source from a response; the error is kept when a stage fails. */
    method RefreshFrom(kind: Source, response: Response, saving: Saving, now: int) returns (r: Result<()>)
      requires Inv(w, Value())
      modifies this
      ensures Value() == Run(w, old(Value()), RefreshSteps(kind, response, saving, now)) && Inv(w, Value())
      ensures Value().state.Get(kind).error == if r.Err? then Some(r.error) else None
      ensures r.Ok? <==> saving.Saved? && old(Usable(w, kind, Source(kind).document, response, now))
      ensures r.Err? ==> SameService(old(Value()), Value(), kind)
      ensures r.Ok? ==> var st := Value().state.Get(kind);
                        && st.document.Some? && st.origin == Remote && Settled(w, Value(), kind, st.document.value)
                        && Represents(w, kind, old(Source(kind)).document, response, now, st.document.value)
                        && Authentic(w, kind, st.document.value)
                        && IsParse(w, kind, st.document.value, Served(Value(), kind))
      ensures SameSource(old(Value()), Value(), Other(kind))
    {
      RefreshRuns(w, Value(), kind, response, saving, now);
      RefreshedLaws(w, Value(), kind, response, saving, now);
      RefreshedServes(w, Value(), kind, response, saving, now);
      RefreshedIff(w, Value(), kind, response, saving, now);
      RefreshKeeps(w, Value(), kind, response, saving, now);
      r := FetchAndPersist(kind, response, saving, now);
      if r.Err? {
        SetSource(kind, Source(kind).(error := Some(r.error)));
      }
    }

    /** Fetch, validate, write and sync, publish, record. */
    method FetchAndPersist(kind: Source, response: Response, saving: Saving, now: int) returns (r: Result<()>)
      modifies this
      ensures r.Err? ==> Refreshed(w, old(Value()), kind, response, saving, now) == Failed(Value(), kind, r.error)
      ensures r.Ok? ==> Refreshed(w, old(Value()), kind, response, saving, now) == Value()
                        && Value().state.Get(kind).error.None?
    {
      var fetched := Fetch(w, kind, Source(kind).document, response, now);
      if fetched.Err? {
        return Err(fetched.error);
      }
      var document := fetched.value;
      var parsed := Validate(w, kind, document);
      if parsed.Err? {
        return Err(parsed.error);
      }
      if saving.WriteFailed? {
        return Err(DiskFailure);
      }
      visible := visible.Set(kind, Some(w.encode(document)));
      survivors := survivors.Set(kind, survivors.Get(kind) + {Some(w.encode(document))});
      if saving.SyncFailed? {
        return Err(DiskFailure);
      }
      survivors := Only(visible);
      Swap(parsed.value);
      SetSource(kind, SourceState(Remote, Some(document), None));
      return Ok(());
    }
  }
}
