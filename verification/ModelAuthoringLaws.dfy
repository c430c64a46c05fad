/** What reconciliation promises: it only deletes, it is stable, the validator agrees with
    it. */
module ModelAuthoringLaws {
  import opened Options
  import opened Strings
  import opened JsonPointer
  import opened ModelAuthoring

  // ---- The validator ------------------------------------------------------

  datatype Problem =
    | Unsupported(path: string)
    | Schema(path: string)
    | NotApplicable(path: string)
    | Reserved(path: string)

  /** Problems of the value stored at a setting's own path. */
  function StorageProblems(g: Fields, s: Setting, all: seq<Setting>): set<Problem> {
    if s.storage.None? || s.storage.value.configPath == EXTRA then {}
    else
      var path := s.storage.value.configPath;
      var v := ReadPointer(g, path);
      if v.None? || (v.value == Null && s.storage.value.typed) then {}
      else
        (if s.rejects(v.value) then {Schema(path)} else {})
        + (if Applicable(s, g, all) then {} else {NotApplicable(path)})
  }

  /** Problems of a raw override, held to the same rule as its typed setting. */
  function OverrideProblems(g: Fields, s: Setting, all: seq<Setting>): set<Problem> {
    if !Overridable(s) then {}
    else
      var path := ExtraPath(s);
      var v := ReadPointer(g, path);
      if v.None? then {}
      else
        (if s.rejects(v.value) then {Schema(path)} else {})
        + (if Applicable(s, g, all) then {} else {NotApplicable(path)})
  }

  /** A reserved field is touched when the walk to it meets no missing key. */
  predicate Touched(v: Json, ks: Keys)
    decreases |ks|
  {
    ks == [] || !v.Obj? || (ks[0] in v.fields && Touched(v.fields[ks[0]], ks[1..]))
  }

  function ReservedProblems(g: Fields, settings: seq<Setting>): set<Problem> {
    var raw := FindSetting(settings, EXTRA);
    var extra := if "extra_params" in g && g["extra_params"] != Null then g["extra_params"] else Obj(map[]);
    if raw.None? then {}
    else set path | path in raw.value.reserved && Touched(extra, ParsePointer(path)) :: Reserved(EXTRA + path)
  }

  function ModelSettingErrors(g: Fields, protocol: Protocol, managed: set<string>): set<Problem> {
    (set p | p in UnsupportedPaths(g, protocol, managed) :: Unsupported(p))
    + AllStorageProblems(g, protocol.settings)
    + ReservedProblems(g, protocol.settings)
    + AllOverrideProblems(g, protocol.settings)
  }

  function AllStorageProblems(g: Fields, settings: seq<Setting>): set<Problem> {
    set i, e | 0 <= i < |settings| && e in StorageProblems(g, settings[i], settings) :: e
  }

  function AllOverrideProblems(g: Fields, settings: seq<Setting>): set<Problem> {
    set i, e | 0 <= i < |settings| && e in OverrideProblems(g, settings[i], settings) :: e
  }

  ghost predicate OnlyReserved(g: Fields, protocol: Protocol, managed: set<string>) {
    forall e :: e in ModelSettingErrors(g, protocol, managed) ==> e.Reserved?
  }

  // ---- Agreement ----------------------------------------------------------

  /** Settings stored among the extra parameters have their path there. */
  predicate ExtraUnderExtra(s: Setting) {
    s.storage.Some? && !s.storage.value.typed && s.storage.value.configPath != EXTRA
    ==> StartsWith(s.storage.value.configPath, EXTRA + "/")
  }

  ghost predicate ExtrasUnderExtra(settings: seq<Setting>) {
    forall i :: 0 <= i < |settings| ==> ExtraUnderExtra(settings[i])
  }

  /** Request paths are pointers. */
  ghost predicate RequestPointers(settings: seq<Setting>) {
    forall i :: 0 <= i < |settings| && settings[i].requestPath != "" ==> settings[i].requestPath[0] == '/'
  }

  /** A rejected null outside the extra parameters, which the validator checks and a round passes over. */
  predicate UncheckedNull(g: Fields, s: Setting, path: string) {
    && s.rejects(Null) && ReadPointer(g, path) == Some(Null) && !StartsWith(path, EXTRA + "/")
    && ((s.storage.Some? && !s.storage.value.typed && path == s.storage.value.configPath != EXTRA)
        || (Overridable(s) && path == ExtraPath(s)))
  }

  ghost predicate NoUncheckedNull(g: Fields, settings: seq<Setting>) {
    forall i, p :: 0 <= i < |settings| ==> !UncheckedNull(g, settings[i], p)
  }

  /** A null at a typed path, which the validator passes over and a round would delete. */
  predicate PassedNull(g: Fields, s: Setting, all: seq<Setting>) {
    && s.storage.Some? && s.storage.value.typed && s.storage.value.configPath != EXTRA
    && ReadPointer(g, s.storage.value.configPath) == Some(Null)
    && (!Applicable(s, g, all) || (StartsWith(s.storage.value.configPath, EXTRA + "/") && s.rejects(Null)))
  }

  ghost predicate NoPassedNull(g: Fields, settings: seq<Setting>) {
    forall i :: 0 <= i < |settings| ==> !PassedNull(g, settings[i], settings)
  }

  lemma {:induction false} ExtraPathIsExtra(s: Setting)
    requires Overridable(s) && s.requestPath[0] == '/'
    ensures StartsWith(ExtraPath(s), EXTRA + "/")
  {
    assert ExtraPath(s)[..|EXTRA| + 1] == EXTRA + s.requestPath[..1];
  }

  /** No null goes unchecked when extra and request paths are where they should be. */
  lemma {:induction false} PointersLeaveNoNull(g: Fields, settings: seq<Setting>)
    requires ExtrasUnderExtra(settings) && RequestPointers(settings)
    ensures NoUncheckedNull(g, settings)
  {
    forall i, p | 0 <= i < |settings| ensures !UncheckedNull(g, settings[i], p) {
      if Overridable(settings[i]) { ExtraPathIsExtra(settings[i]); }
    }
  }

  predicate SettingStable(g: Fields, s: Setting, all: seq<Setting>) {
    forall p :: p in SettingPaths(s) ==>
      !SchemaInvalid(g, s, p) && (ReadPointer(g, p).Some? ==> Applicable(s, g, all))
  }

  predicate SettingValid(g: Fields, s: Setting, all: seq<Setting>) {
    StorageProblems(g, s, all) == {} && OverrideProblems(g, s, all) == {}
  }

  lemma {:induction false} SettingPathCases(s: Setting, p: string)
    ensures p in SettingPaths(s) <==>
      (s.storage.Some? && p == s.storage.value.configPath != EXTRA) || (Overridable(s) && p == ExtraPath(s))
  {
  }

  lemma {:induction false} SettingAgrees(g: Fields, s: Setting, all: seq<Setting>)
    requires SettingStable(g, s, all)
    ensures SettingValid(g, s, all) <==> forall p :: !UncheckedNull(g, s, p)
  {
    if s.storage.Some? { SettingPathCases(s, s.storage.value.configPath); }
    SettingPathCases(s, ExtraPath(s));
    assert (forall p :: !UncheckedNull(g, s, p)) ==>
      !UncheckedNull(g, s, ExtraPath(s)) && (s.storage.Some? ==> !UncheckedNull(g, s, s.storage.value.configPath));
  }

  lemma {:induction false} SettingAgreesBack(g: Fields, s: Setting, all: seq<Setting>)
    requires SettingValid(g, s, all)
    ensures SettingStable(g, s, all) <==> !PassedNull(g, s, all)
  {
    forall p ensures p in SettingPaths(s) <==>
      (s.storage.Some? && p == s.storage.value.configPath != EXTRA) || (Overridable(s) && p == ExtraPath(s))
    {
      SettingPathCases(s, p);
    }
  }

  lemma {:induction false} InvalidBySetting(g: Fields, protocol: Protocol, managed: set<string>)
    requires protocol.settings != []
    ensures Invalid(g, protocol, managed) == {} <==>
      UnsupportedPaths(g, protocol, managed) == {}
      && forall i :: 0 <= i < |protocol.settings| ==> SettingStable(g, protocol.settings[i], protocol.settings)
  {
    var settings := protocol.settings;
    NoApi(g, protocol, managed);
    if Invalid(g, protocol, managed) == {} {
      assert UnsupportedPaths(g, protocol, managed) - {"/api"} == UnsupportedPaths(g, protocol, managed);
      forall i | 0 <= i < |settings| ensures SettingStable(g, settings[i], settings) {
        forall p | p in SettingPaths(settings[i])
          ensures !SchemaInvalid(g, settings[i], p)
          ensures ReadPointer(g, p).Some? ==> Applicable(settings[i], g, settings)
        {
          assert SchemaInvalid(g, settings[i], p) ==> p in SchemaErrors(g, settings);
          assert !Applicable(settings[i], g, settings) && ReadPointer(g, p).Some? ==>
            p in Inapplicable(g, settings, settings);
        }
      }
    }
  }

  lemma {:induction false} ReportedBySetting(g: Fields, protocol: Protocol, managed: set<string>)
    ensures OnlyReserved(g, protocol, managed) <==>
      UnsupportedPaths(g, protocol, managed) == {}
      && forall i :: 0 <= i < |protocol.settings| ==> SettingValid(g, protocol.settings[i], protocol.settings)
  {
    var settings, errors := protocol.settings, ModelSettingErrors(g, protocol, managed);
    if OnlyReserved(g, protocol, managed) {
      assert forall p :: p in UnsupportedPaths(g, protocol, managed) ==> Unsupported(p) in errors;
      forall i | 0 <= i < |settings| ensures SettingValid(g, settings[i], settings) {
        SettingReported(g, protocol, managed, i);
      }
    }
  }

  lemma {:induction false} SettingReported(g: Fields, protocol: Protocol, managed: set<string>, i: nat)
    requires i < |protocol.settings| && OnlyReserved(g, protocol, managed)
    ensures SettingValid(g, protocol.settings[i], protocol.settings)
  {
    var s, settings := protocol.settings[i], protocol.settings;
    NeverReserved(g, s, settings);
    forall e ensures e !in StorageProblems(g, s, settings) && e !in OverrideProblems(g, s, settings) {
      assert e in StorageProblems(g, s, settings) ==> e in AllStorageProblems(g, settings);
      assert e in OverrideProblems(g, s, settings) ==> e in AllOverrideProblems(g, settings);
      assert e in AllStorageProblems(g, settings) + AllOverrideProblems(g, settings) ==>
        e in ModelSettingErrors(g, protocol, managed);
    }
  }

  lemma {:induction false} NeverReserved(g: Fields, s: Setting, all: seq<Setting>)
    ensures forall e :: e in StorageProblems(g, s, all) + OverrideProblems(g, s, all) ==> !e.Reserved?
  {
  }

  /** Where no path is invalid the validator reports reserved fields at most, exactly when no
      rejected null goes unchecked. */
  lemma {:induction false} StableMeansValid(g: Fields, protocol: Protocol, managed: set<string>)
    requires protocol.settings != [] && Invalid(g, protocol, managed) == {}
    ensures OnlyReserved(g, protocol, managed) <==> NoUncheckedNull(g, protocol.settings)
  {
    InvalidBySetting(g, protocol, managed);
    ReportedBySetting(g, protocol, managed);
    forall i | 0 <= i < |protocol.settings|
      ensures SettingValid(g, protocol.settings[i], protocol.settings) <==>
        forall p :: !UncheckedNull(g, protocol.settings[i], p)
    {
      SettingAgrees(g, protocol.settings[i], protocol.settings);
    }
  }

  /** With settings present, `/api` is never among the unsupported paths. */
  lemma {:induction false} NoApi(g: Fields, protocol: Protocol, managed: set<string>)
    requires protocol.settings != []
    ensures "/api" !in UnsupportedPaths(g, protocol, managed)
  {
    ApiPointer();
    if "/api" in UnsupportedPaths(g, protocol, managed) {
      UnsupportedIsPath(g, protocol, managed, "/api");
    }
  }

  lemma {:induction false} ApiPointer()
    ensures ParsePointer("/api") == ["api"]
  {
    EscapePlain("api");
    PointerRoot("api");
  }

  /** The converse: what the validator accepts, reconciliation leaves alone, exactly when no
      null at a typed path is passed over. */
  lemma {:induction false} ValidMeansStable(g: Fields, protocol: Protocol, managed: set<string>)
    requires protocol.settings != [] && OnlyReserved(g, protocol, managed)
    ensures Invalid(g, protocol, managed) == {} <==> NoPassedNull(g, protocol.settings)
  {
    InvalidBySetting(g, protocol, managed);
    ReportedBySetting(g, protocol, managed);
    forall i | 0 <= i < |protocol.settings|
      ensures SettingStable(g, protocol.settings[i], protocol.settings) <==>
        !PassedNull(g, protocol.settings[i], protocol.settings)
    {
      SettingAgreesBack(g, protocol.settings[i], protocol.settings);
    }
  }

  // ---- The result ---------------------------------------------------------

  /** Only deletes, and a second run changes nothing. */
  lemma {:induction false} ReconciledLaws(g: Fields, protocol: Protocol, managed: set<string>)
    ensures var r := Reconciled(g, protocol, managed);
      && Within(Obj(r), Obj(g))
      && (Invalid(r, protocol, managed) == {} || Stuck(r, protocol, managed))
      && Reconciled(r, protocol, managed) == r
    decreases Paths(Obj(g))
  {
    if Removable(g, protocol, managed) {
      var next := Round(g, protocol, managed);
      RemovableShrinks(g, protocol, managed);
      RoundWithin(g, protocol, managed);
      ReconciledLaws(next, protocol, managed);
      WithinTransitive(Obj(Reconciled(next, protocol, managed)), Obj(next), Obj(g));
    }
  }

  /** A top-level key that no setting's path starts with. */
  ghost predicate Untouched(key: string, settings: seq<Setting>) {
    forall i, p :: 0 <= i < |settings| && p in SettingPaths(settings[i]) ==> ParsePointer(p)[0] != key
  }

  /** Identity, routing and managed keys come through whole when no setting owns them. */
  lemma {:induction false} ReconciledKeeps(g: Fields, protocol: Protocol, managed: set<string>, key: string)
    requires key in g && key in FIXED_KEYS + managed && Untouched(key, protocol.settings)
    ensures key in Reconciled(g, protocol, managed) && Reconciled(g, protocol, managed)[key] == g[key]
    decreases Paths(Obj(g))
  {
    var invalid := Invalid(g, protocol, managed);
    if Removable(g, protocol, managed) {
      RemovableShrinks(g, protocol, managed);
      forall p | p in invalid ensures ParsePointer(p)[0] != key {
        if p in UnsupportedPaths(g, protocol, managed) && p != "/api" {
          UnsupportedIsPath(g, protocol, managed, p);
        } else {
          var i :| 0 <= i < |protocol.settings| && p in SettingPaths(protocol.settings[i]);
        }
      }
      assert Tails(ParseAll(invalid), key) == {};
      PruneNothing(g[key]);
      ReconciledKeeps(Round(g, protocol, managed), protocol, managed, key);
    }
  }
}
