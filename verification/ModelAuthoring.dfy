/** Reconciling a model group with the settings a protocol supports: invalid paths are
    deleted, round after round, until the validator has nothing left to report. */
module ModelAuthoring {
  import opened Options
  import opened Strings
  import opened JsonPointer

  // ---- Settings -----------------------------------------------------------

  datatype Storage = Storage(typed: bool, configPath: string)

  datatype Rule =
    | All(rules: seq<Rule>)
    | Any(rules: seq<Rule>)
    | Not(rule: Rule)
    | In(path: string, values: seq<Json>)

  /** `rejects` is the schema check, taken as it is; absent paths are empty strings. */
  datatype Setting = Setting(
    storage: Option<Storage>,
    requestPath: string,
    catalogPath: string,
    rejects: Json -> bool,
    default: Option<Json>,
    rule: Option<Rule>,
    reserved: seq<string>)

  datatype Protocol = Protocol(available: bool, settings: seq<Setting>)

  const EXTRA := "/extra_params"
  const FIXED_KEYS := {"provider", "model", "api", "fallbacks", "retry", "extra_params"}

  function ExtraPath(s: Setting): string { EXTRA + s.requestPath }

  predicate Overridable(s: Setting) { s.catalogPath != "" && s.requestPath != "" }

  /** The paths at which a setting's value may be stored. */
  function SettingPaths(s: Setting): set<string> {
    (if s.storage.Some? && s.storage.value.configPath != EXTRA then {s.storage.value.configPath} else {})
    + (if Overridable(s) then {ExtraPath(s)} else {})
  }

  // ---- Applicability ------------------------------------------------------

  function FindSetting(settings: seq<Setting>, path: string): Option<Setting> {
    if settings == [] then None
    else if settings[0].storage.Some? && settings[0].storage.value.configPath == path then Some(settings[0])
    else FindSetting(settings[1..], path)
  }

  function EffectiveValue(g: Fields, path: string, settings: seq<Setting>): Option<Json> {
    var setting := FindSetting(settings, path);
    var raw :=
      if setting.Some? && setting.value.requestPath != "" then ReadPointer(g, ExtraPath(setting.value)) else None;
    if raw.Some? then raw
    else
      var stored := ReadPointer(g, path);
      if stored.Some? && stored.value != Null then stored
      else if setting.Some? then setting.value.default
      else None
  }

  predicate Holds(rule: Rule, g: Fields, settings: seq<Setting>) {
    match rule
    case All(rules) => forall i :: 0 <= i < |rules| ==> Holds(rules[i], g, settings)
    case Any(rules) => exists i :: 0 <= i < |rules| && Holds(rules[i], g, settings)
    case Not(r) => !Holds(r, g, settings)
    case In(path, values) =>
      var v := EffectiveValue(g, path, settings);
      v.Some? && v.value in values
  }

  predicate Applicable(s: Setting, g: Fields, settings: seq<Setting>) {
    s.rule.None? || Holds(s.rule.value, g, settings)
  }

  // ---- Unsupported paths --------------------------------------------------

  function TypedPaths(settings: seq<Setting>): set<string> {
    set i | 0 <= i < |settings| && settings[i].storage.Some? && settings[i].storage.value.typed
      :: settings[i].storage.value.configPath
  }

  /** Leaves below `path` that no typed setting names. */
  function Visit(typed: set<string>, v: Json, path: string): set<string> {
    if v.Null? || path in typed then {}
    else if v.Obj? && v.fields != map[] then
      set k, p | k in v.fields && p in Visit(typed, v.fields[k], path + "/" + Escape(k)) :: p
    else {path}
  }

  predicate HasApi(g: Fields) { "api" in g && g["api"].Str? && g["api"].s != "" }

  function UnsupportedPaths(g: Fields, protocol: Protocol, managed: set<string>): set<string> {
    (if |protocol.settings| == 0 && HasApi(g) then {"/api"} else {})
    + (set k, p | k in g && k !in FIXED_KEYS && k !in managed
                  && p in Visit(TypedPaths(protocol.settings), g[k], "/" + Escape(k)) :: p)
  }

  // ---- One round ----------------------------------------------------------

  predicate SchemaInvalid(g: Fields, s: Setting, path: string) {
    var v := ReadPointer(g, path);
    v.Some? && (v.value != Null || StartsWith(path, EXTRA + "/")) && s.rejects(v.value)
  }

  function SchemaErrors(g: Fields, settings: seq<Setting>): set<string> {
    set i, p | 0 <= i < |settings| && p in SettingPaths(settings[i]) && SchemaInvalid(g, settings[i], p) :: p
  }

  function Inapplicable(g: Fields, settings: seq<Setting>, all: seq<Setting>): set<string> {
    set i, p | 0 <= i < |settings| && !Applicable(settings[i], g, all)
               && p in SettingPaths(settings[i]) && ReadPointer(g, p).Some? :: p
  }

  /** What one round of the loop deletes: types and bounds first, applicability after. */
  function Invalid(g: Fields, protocol: Protocol, managed: set<string>): set<string> {
    var first := (UnsupportedPaths(g, protocol, managed) - {"/api"}) + SchemaErrors(g, protocol.settings);
    if first != {} then first else Inapplicable(g, protocol.settings, protocol.settings)
  }

  function ParseAll(paths: set<string>): set<Keys> { set p | p in paths :: ParsePointer(p) }

  function Round(g: Fields, protocol: Protocol, managed: set<string>): Fields {
    Prune(Obj(g), ParseAll(Invalid(g, protocol, managed))).fields
  }

  // ---- Progress -----------------------------------------------------------

  /** No setting's path enters an array of the group. */
  ghost predicate ArrayFree(g: Fields, settings: seq<Setting>) {
    forall i, p :: 0 <= i < |settings| && p in SettingPaths(settings[i]) ==> !ThroughArray(Obj(g), ParsePointer(p))
  }

  /** Reported leaves are reached through objects only. */
  lemma {:induction false} VisitPaths(typed: set<string>, v: Json, path: string, p: string) returns (rest: Keys)
    requires path != "" && p in Visit(typed, v, path)
    ensures ParsePointer(p) == ParsePointer(path) + rest
    ensures rest == [] || rest in Paths(v)
  {
    if v.Obj? && v.fields != map[] && path !in typed {
      var k :| k in v.fields && p in Visit(typed, v.fields[k], path + "/" + Escape(k));
      PointerExtend(path, k);
      rest := VisitPaths(typed, v.fields[k], path + "/" + Escape(k), p);
      PathsCons(v, k, rest);
      AppendKeys(ParsePointer(path), k, rest);
      rest := [k] + rest;
    } else {
      rest := [];
      assert ParsePointer(path) + [] == ParsePointer(path);
    }
  }

  lemma {:induction false} AppendKeys(a: Keys, k: string, b: Keys)
    ensures a + [k] + b == a + ([k] + b)
  {
  }

  lemma {:induction false} UnsupportedIsPath(g: Fields, protocol: Protocol, managed: set<string>, p: string)
    requires p in UnsupportedPaths(g, protocol, managed) && (p != "/api" || protocol.settings != [])
    ensures ParsePointer(p) in Paths(Obj(g))
    ensures ParsePointer(p)[0] !in FIXED_KEYS && ParsePointer(p)[0] !in managed
  {
    var typed := TypedPaths(protocol.settings);
    var k :| k in g && k !in FIXED_KEYS && k !in managed && p in Visit(typed, g[k], "/" + Escape(k));
    PointerRoot(k);
    var rest := VisitPaths(typed, g[k], "/" + Escape(k), p);
    PathsCons(Obj(g), k, rest);
  }

  /** Every invalid path is either removable or enters an array. */
  lemma {:induction false} InvalidIsPath(g: Fields, protocol: Protocol, managed: set<string>, p: string)
    requires p in Invalid(g, protocol, managed)
    ensures ParsePointer(p) in Paths(Obj(g)) || ThroughArray(Obj(g), ParsePointer(p))
    ensures ArrayFree(g, protocol.settings) ==> ParsePointer(p) in Paths(Obj(g))
  {
    if p in UnsupportedPaths(g, protocol, managed) && p != "/api" {
      UnsupportedIsPath(g, protocol, managed, p);
    } else {
      assert ReadPointer(g, p).Some?;
      if !ThroughArray(Obj(g), ParsePointer(p)) { ReadIsPath(Obj(g), ParsePointer(p)); }
      var i :| 0 <= i < |protocol.settings| && p in SettingPaths(protocol.settings[i]);
    }
  }

  lemma {:induction false} RoundWithin(g: Fields, protocol: Protocol, managed: set<string>)
    ensures Within(Obj(Round(g, protocol, managed)), Obj(g))
    ensures Paths(Obj(Round(g, protocol, managed))) <= Paths(Obj(g))
    ensures ArrayFree(g, protocol.settings) ==> ArrayFree(Round(g, protocol, managed), protocol.settings)
  {
    var all, g' := ParseAll(Invalid(g, protocol, managed)), Round(g, protocol, managed);
    PruneWithin(Obj(g), all);
    forall p | p in Paths(Obj(g')) ensures p in Paths(Obj(g)) { PrunePaths(Obj(g), all, p); }
    if ArrayFree(g, protocol.settings) {
      forall i, p | 0 <= i < |protocol.settings| && p in SettingPaths(protocol.settings[i])
        ensures !ThroughArray(Obj(g'), ParsePointer(p))
      {
        if ThroughArray(Obj(g'), ParsePointer(p)) { WithinThroughArray(Obj(g'), Obj(g), ParsePointer(p)); }
      }
    }
  }

  /** A round that deletes one real path leaves strictly fewer. */
  lemma {:induction false} RoundShrinks(g: Fields, protocol: Protocol, managed: set<string>, p: string)
    requires p in Invalid(g, protocol, managed) && ParsePointer(p) in Paths(Obj(g))
    ensures Paths(Obj(Round(g, protocol, managed))) < Paths(Obj(g))
  {
    var all := ParseAll(Invalid(g, protocol, managed));
    RoundWithin(g, protocol, managed);
    HitMember(all, ParsePointer(p));
    PrunePaths(Obj(g), all, ParsePointer(p));
  }

  lemma {:induction false} RoundProgress(g: Fields, protocol: Protocol, managed: set<string>)
    requires ArrayFree(g, protocol.settings) && Invalid(g, protocol, managed) != {}
    ensures Paths(Obj(Round(g, protocol, managed))) < Paths(Obj(g))
    ensures ArrayFree(Round(g, protocol, managed), protocol.settings)
  {
    var p :| p in Invalid(g, protocol, managed);
    InvalidIsPath(g, protocol, managed, p);
    RoundShrinks(g, protocol, managed, p);
    RoundWithin(g, protocol, managed);
  }

  ghost predicate Removable(g: Fields, protocol: Protocol, managed: set<string>) {
    exists p :: p in Invalid(g, protocol, managed) && ParsePointer(p) in Paths(Obj(g))
  }

  /** Something is invalid, but every invalid path enters an array, which reading follows
      and removal does not. */
  ghost predicate Stuck(g: Fields, protocol: Protocol, managed: set<string>) {
    Invalid(g, protocol, managed) != {} && !Removable(g, protocol, managed)
  }

  lemma {:induction false} RemovableShrinks(g: Fields, protocol: Protocol, managed: set<string>)
    requires Removable(g, protocol, managed)
    ensures Paths(Obj(Round(g, protocol, managed))) < Paths(Obj(g)) && Invalid(g, protocol, managed) != {}
  {
    var p :| p in Invalid(g, protocol, managed) && ParsePointer(p) in Paths(Obj(g));
    RoundShrinks(g, protocol, managed, p);
  }

  /** The group where the rounds stop changing anything, reached from every group. */
  ghost function Reconciled(g: Fields, protocol: Protocol, managed: set<string>): Fields
    decreases Paths(Obj(g))
  {
    if Removable(g, protocol, managed) then
      RemovableShrinks(g, protocol, managed);
      Reconciled(Round(g, protocol, managed), protocol, managed)
    else g
  }

  // ---- The loop -----------------------------------------------------------

  method FindInvalid(g: Fields, protocol: Protocol, managed: set<string>) returns (invalid: set<string>)
    ensures invalid == Invalid(g, protocol, managed)
  {
    var settings := protocol.settings;
    invalid := UnsupportedPaths(g, protocol, managed) - {"/api"};
    ghost var unsupported := invalid;
    for i := 0 to |settings|
      invariant invalid == unsupported + SchemaErrors(g, settings[..i])
    {
      var paths := SettingPaths(settings[i]);
      invalid := invalid + set p | p in paths && SchemaInvalid(g, settings[i], p);
      SchemaErrorsNext(g, settings, i);
    }
    assert settings[..|settings|] == settings;
    if invalid == {} {
      for i := 0 to |settings|
        invariant invalid == Inapplicable(g, settings[..i], settings)
      {
        InapplicableNext(g, settings, i);
        if !Applicable(settings[i], g, settings) {
          var paths := SettingPaths(settings[i]);
          invalid := invalid + set p | p in paths && ReadPointer(g, p).Some?;
        }
      }
    }
  }

  lemma {:induction false} SchemaErrorsNext(g: Fields, settings: seq<Setting>, i: nat)
    requires i < |settings|
    ensures SchemaErrors(g, settings[..i + 1])
         == SchemaErrors(g, settings[..i]) + set p | p in SettingPaths(settings[i]) && SchemaInvalid(g, settings[i], p)
  {
    assert settings[..i + 1] == settings[..i] + [settings[i]];
  }

  lemma {:induction false} InapplicableNext(g: Fields, settings: seq<Setting>, i: nat)
    requires i < |settings|
    ensures Inapplicable(g, settings[..i + 1], settings)
         == Inapplicable(g, settings[..i], settings)
            + if Applicable(settings[i], g, settings) then {}
              else set p | p in SettingPaths(settings[i]) && ReadPointer(g, p).Some?
  {
    assert settings[..i + 1] == settings[..i] + [settings[i]];
  }

  /** The pointers of one round removed one by one, in any order. */
  method RemoveAll(g: Fields, invalid: set<string>) returns (next: Fields)
    ensures Obj(next) == Prune(Obj(g), ParseAll(invalid))
  {
    next := g;
    var rest := invalid;
    while rest != {}
      invariant Prune(Obj(next), ParseAll(rest)) == Prune(Obj(g), ParseAll(invalid))
    {
      var path :| path in rest;
      var ks := ParsePointer(path);
      PruneAfterRemove(next, ks, ParseAll(rest - {path}));
      assert ParseAll(rest - {path}) + {ks} == ParseAll(rest);
      next := Remove(next, ks);
      rest := rest - {path};
    }
    assert ParseAll({}) == {};
    PruneNothing(Obj(next));
  }
}
