/** What applicability rules mean, and which values of a group they keep or delete. */
module ModelRules {
  import opened Options
  import opened Strings
  import opened JsonPointer
  import opened ModelAuthoring
  import opened ModelAuthoringLaws
  import opened ModelReconciliation

  // ---- Rules --------------------------------------------------------------

  /** All of no conditions hold and none of no alternatives does; one more condition restricts, one
      more alternative widens. */
  lemma {:induction false} RuleMeaning(first: Rule, rest: seq<Rule>, g: Fields, settings: seq<Setting>)
    ensures Holds(All([]), g, settings) && !Holds(Any([]), g, settings)
    ensures Holds(All([first] + rest), g, settings) <==> Holds(first, g, settings) && Holds(All(rest), g, settings)
    ensures Holds(Any([first] + rest), g, settings) <==> Holds(first, g, settings) || Holds(Any(rest), g, settings)
    ensures Holds(Not(first), g, settings) <==> !Holds(first, g, settings)
  {
    AllMeaning(first, rest, g, settings);
    AnyMeaning(first, rest, g, settings);
  }

  lemma {:induction false} AllMeaning(first: Rule, rest: seq<Rule>, g: Fields, settings: seq<Setting>)
    ensures Holds(All([first] + rest), g, settings) <==> Holds(first, g, settings) && Holds(All(rest), g, settings)
  {
    var rules := [first] + rest;
    assert rules[0] == first && forall i :: 0 <= i < |rest| ==> rest[i] == rules[i + 1];
    forall i | 0 <= i < |rules|
      ensures Holds(rules[i], g, settings)
              <==> if i == 0 then Holds(first, g, settings) else Holds(rest[i - 1], g, settings)
    {}
  }

  lemma {:induction false} AnyMeaning(first: Rule, rest: seq<Rule>, g: Fields, settings: seq<Setting>)
    ensures Holds(Any([first] + rest), g, settings) <==> Holds(first, g, settings) || Holds(Any(rest), g, settings)
  {
    var rules := [first] + rest;
    assert rules[0] == first && forall i :: 0 <= i < |rest| ==> rest[i] == rules[i + 1];
    forall i | 0 <= i < |rules|
      ensures Holds(rules[i], g, settings)
              <==> if i == 0 then Holds(first, g, settings) else Holds(rest[i - 1], g, settings)
    {}
  }

  /** `i` is the first setting stored at `path`. */
  ghost predicate FirstAt(settings: seq<Setting>, path: string, i: nat) {
    && i < |settings| && StoredAt(settings[i], path)
    && forall j :: 0 <= j < i ==> !StoredAt(settings[j], path)
  }

  predicate StoredAt(s: Setting, path: string) { s.storage.Some? && s.storage.value.configPath == path }

  lemma {:induction false} FindSettingIs(settings: seq<Setting>, path: string)
    ensures FindSetting(settings, path).None? ==> forall i :: 0 <= i < |settings| ==> !StoredAt(settings[i], path)
    ensures forall i: nat :: FirstAt(settings, path, i) ==> FindSetting(settings, path) == Some(settings[i])
  {
    if settings != [] && !StoredAt(settings[0], path) {
      var rest := settings[1..];
      FindSettingIs(rest, path);
      forall i: nat | FirstAt(settings, path, i) ensures FindSetting(settings, path) == Some(settings[i]) {
        assert forall j :: 0 <= j < |rest| ==> rest[j] == settings[j + 1];
        assert FirstAt(rest, path, i - 1);
      }
      if FindSetting(settings, path).None? {
        forall i | 0 <= i < |settings| ensures !StoredAt(settings[i], path) {
          if 0 < i { assert !StoredAt(rest[i - 1], path); }
        }
      }
    } else if settings != [] {
      assert forall i: nat :: FirstAt(settings, path, i) ==> i == 0;
    }
  }

  predicate NotNull(v: Option<Json>) { v.Some? && v.value != Null }

  /** A raw override counts first, even a null; then the stored value unless it is null; then the
      default of the first setting stored there. */
  lemma {:induction false} EffectiveOrder(g: Fields, path: string, settings: seq<Setting>, i: nat)
    requires FirstAt(settings, path, i)
    ensures var raw, stored, v := ReadPointer(g, "/extra_params" + settings[i].requestPath), ReadPointer(g, path),
        EffectiveValue(g, path, settings);
      && (settings[i].requestPath != "" && raw.Some? ==> v == raw)
      && ((settings[i].requestPath == "" || raw.None?) && NotNull(stored) ==> v == stored)
      && ((settings[i].requestPath == "" || raw.None?) && !NotNull(stored) ==> v == settings[i].default)
  {
    FindSettingIs(settings, path);
  }

  /** Where no setting is stored, there is only the value itself. */
  lemma {:induction false} EffectiveUnknown(g: Fields, path: string, settings: seq<Setting>)
    requires forall i :: 0 <= i < |settings| ==> !StoredAt(settings[i], path)
    ensures EffectiveValue(g, path, settings) == if NotNull(ReadPointer(g, path)) then ReadPointer(g, path) else None
  {
    var found := FindSetting(settings, path);
    if found.Some? { FindSettingMember(settings, path); }
  }

  lemma {:induction false} FindSettingMember(settings: seq<Setting>, path: string)
    requires FindSetting(settings, path).Some?
    ensures exists i :: 0 <= i < |settings| && StoredAt(settings[i], path)
  {
    if !StoredAt(settings[0], path) {
      FindSettingMember(settings[1..], path);
      var i :| 0 <= i < |settings[1..]| && StoredAt(settings[1..][i], path);
      assert StoredAt(settings[i + 1], path);
    }
  }

  // ---- Unsupported leaves -------------------------------------------------

  /** The value at `ks`, through objects only. */
  function ValueAt(v: Json, ks: Keys): Option<Json>
    decreases |ks|
  {
    if ks == [] then Some(v)
    else if v.Obj? && ks[0] in v.fields then ValueAt(v.fields[ks[0]], ks[1..])
    else None
  }

  /** A value of its own: no null, and nothing below it. */
  predicate IsValue(v: Option<Json>) { NotNull(v) && (v.value.Obj? ==> v.value.fields == map[]) }

  lemma {:induction false} VisitExact(typed: set<string>, v: Json, at: Keys, rest: Keys)
    requires at != []
    ensures Pointer(at + rest) in Visit(typed, v, Pointer(at))
            <==> IsValue(ValueAt(v, rest)) && Untyped(typed, at + rest, |at|)
    decreases |rest|
  {
    assert (at + rest)[..|at|] == at;
    if rest == [] {
      assert at + rest == at;
      if v.Obj? && v.fields != map[] { VisitBelow(typed, v, at, []); }
    } else {
      var k, below := rest[0], rest[1..];
      assert rest == [k] + below;
      AppendKeys(at, k, below);
      UntypedStep(typed, at, rest);
      if v.Obj? && k in v.fields {
        PointerSnoc(at, k);
        VisitExact(typed, v.fields[k], at + [k], below);
      }
      VisitBelow(typed, v, at, rest);
    }
  }

  /** Leaves are reported under the key they lie below, or at the value itself. */
  lemma {:induction false} VisitBelow(typed: set<string>, v: Json, at: Keys, rest: Keys)
    requires at != []
    ensures Pointer(at + rest) in Visit(typed, v, Pointer(at)) ==>
      if v.Obj? && v.fields != map[]
      then rest != [] && rest[0] in v.fields
           && Pointer(at + rest) in Visit(typed, v.fields[rest[0]], Pointer(at + [rest[0]]))
      else rest == []
  {
    var p := Pointer(at + rest);
    if p in Visit(typed, v, Pointer(at)) {
      PointerParses(at);
      PointerParses(at + rest);
      if v.Obj? && v.fields != map[] {
        var k :| k in v.fields && p in Visit(typed, v.fields[k], Pointer(at) + "/" + Escape(k));
        PointerSnoc(at, k);
        PointerParses(at + [k]);
        var more := VisitPaths(typed, v.fields[k], Pointer(at + [k]), p);
        AppendKeys(at, k, more);
        SameTail(at, rest, [k] + more);
      } else {
        SameTail(at, rest, []);
      }
    }
  }

  lemma {:induction false} SameTail(at: Keys, x: Keys, y: Keys)
    ensures at + x == at + y ==> x == y
    ensures at == at + []
    ensures at + x == at ==> x == []
  {
    if at + x == at + y { assert (at + x)[|at|..] == x && (at + y)[|at|..] == y; }
  }

  predicate TypedAt(s: Setting, path: string) { s.storage == Some(Storage(true, path)) }

  lemma {:induction false} TypedPathsAre(settings: seq<Setting>, path: string)
    ensures path in TypedPaths(settings) <==> exists i :: 0 <= i < |settings| && TypedAt(settings[i], path)
  {
    if path in TypedPaths(settings) {
      var i :| 0 <= i < |settings| && settings[i].storage.Some? && settings[i].storage.value.typed
               && settings[i].storage.value.configPath == path;
      assert TypedAt(settings[i], path);
    }
  }

  lemma {:induction false} UnsupportedLeaf(g: Fields, protocol: Protocol, managed: set<string>, ks: Keys)
    requires ks != [] && ks != ["api"]
    ensures Pointer(ks) in UnsupportedPaths(g, protocol, managed)
            <==> IsValue(ValueAt(Obj(g), ks)) && ks[0] !in FIXED_KEYS && ks[0] !in managed
                 && Untyped(TypedPaths(protocol.settings), ks, 1)
  {
    var typed, p, k := TypedPaths(protocol.settings), Pointer(ks), ks[0];
    assert ks == [k] + ks[1..];
    PointerParses(ks);
    ApiPointer();
    RootPointer(k);
    if k in g { VisitExact(typed, g[k], [k], ks[1..]); }
    if p in UnsupportedPaths(g, protocol, managed) {
      var j :| j in g && j !in FIXED_KEYS && j !in managed && p in Visit(typed, g[j], "/" + Escape(j));
      RootPointer(j);
      PointerParses([j]);
      var rest := VisitPaths(typed, g[j], "/" + Escape(j), p);
      assert ks[0] == j;
    }
  }

  /** A typed setting is stored at a prefix of `ks`. */
  ghost predicate Covered(settings: seq<Setting>, ks: Keys) {
    exists i, n :: 0 <= i < |settings| && 0 < n <= |ks| && TypedAt(settings[i], Pointer(ks[..n]))
  }

  lemma {:induction false} CoveredIff(settings: seq<Setting>, ks: Keys)
    ensures Covered(settings, ks) <==> !Untyped(TypedPaths(settings), ks, 1)
  {
    forall n | 0 < n <= |ks|
      ensures Pointer(ks[..n]) in TypedPaths(settings)
              <==> exists i :: 0 <= i < |settings| && TypedAt(settings[i], Pointer(ks[..n]))
    {
      TypedPathsAre(settings, Pointer(ks[..n]));
    }
  }

  /** Exactly the values that no typed path covers are unsupported, but for those under a fixed or a
      managed key. */
  lemma {:induction false} UnsupportedExact(g: Fields, protocol: Protocol, managed: set<string>, ks: Keys)
    requires ks != [] && ks != ["api"]
    ensures Pointer(ks) in UnsupportedPaths(g, protocol, managed)
            <==> IsValue(ValueAt(Obj(g), ks)) && !Covered(protocol.settings, ks) && ks[0] !in managed
                 && ks[0] !in {"provider", "model", "api", "fallbacks", "retry", "extra_params"}
  {
    UnsupportedLeaf(g, protocol, managed, ks);
    CoveredIff(protocol.settings, ks);
  }

  /** A reserved field is touched exactly if all its keys are there, or those up to a value that is no
      object. */
  lemma {:induction false} TouchedIff(v: Json, ks: Keys)
    ensures Touched(v, ks) <==> exists n :: StopsAt(v, ks, n)
    decreases |ks|
  {
    assert ks[..0] == [];
    if ks == [] || !v.Obj? {
      assert StopsAt(v, ks, 0);
    } else if ks[0] in v.fields {
      TouchedIff(v.fields[ks[0]], ks[1..]);
      forall n | 0 <= n <= |ks| - 1 ensures StopsAt(v.fields[ks[0]], ks[1..], n) <==> StopsAt(v, ks, n + 1) {
        assert ks[..n + 1][1..] == ks[1..][..n];
      }
      assert !StopsAt(v, ks, 0);
      if n :| StopsAt(v, ks, n) { assert StopsAt(v.fields[ks[0]], ks[1..], n - 1); }
    }
  }

  predicate StopsAt(v: Json, ks: Keys, n: int) {
    && 0 <= n <= |ks| && ValueAt(v, ks[..n]).Some?
    && (n == |ks| || !ValueAt(v, ks[..n]).value.Obj?)
  }

  // ---- One round ----------------------------------------------------------

  /** Nothing is unsupported and no value rejected, so that a round looks at rules. */
  ghost predicate TypesSettled(g: Fields, protocol: Protocol, managed: set<string>) {
    && UnsupportedPaths(g, protocol, managed) <= {"/api"}
    && forall i, p :: 0 <= i < |protocol.settings| && p in SettingPaths(protocol.settings[i]) ==>
         !SchemaInvalid(g, protocol.settings[i], p)
  }

  /** Setting `i` is stored at or above `ks`. */
  predicate Owner(g: Fields, protocol: Protocol, i: int, p: string, ks: Keys) {
    && 0 <= i < |protocol.settings| && p in SettingPaths(protocol.settings[i])
    && ParsePointer(p) <= ks && ReadPointer(g, p).Some?
  }

  /** Then a round keeps a value exactly if every setting stored at or above it is applicable. */
  lemma {:induction false} RulesDecide(g: Fields, protocol: Protocol, managed: set<string>, ks: Keys)
    requires TypesSettled(g, protocol, managed) && ks in Paths(Obj(g)) && ks != []
    ensures ks in Paths(Obj(Round(g, protocol, managed)))
            <==> forall i, p :: Owner(g, protocol, i, p, ks) ==>
                   Applicable(protocol.settings[i], g, protocol.settings)
  {
    RulesAlone(g, protocol, managed);
    var invalid := Inapplicable(g, protocol.settings, protocol.settings);
    PrunePaths(Obj(g), ParseAll(invalid), ks);
    if Hit(ParseAll(invalid), ks) {
      HitBySome(invalid, ks);
      var p :| p in invalid && ParsePointer(p) <= ks;
      var i := InapplicableOwner(g, protocol, p);
      assert Owner(g, protocol, i, p, ks);
    }
    forall i, p | Owner(g, protocol, i, p, ks) && !Applicable(protocol.settings[i], g, protocol.settings)
      ensures Hit(ParseAll(invalid), ks)
    {
      OwnerHits(g, protocol, i, p, ks);
    }
  }

  lemma {:induction false} RulesAlone(g: Fields, protocol: Protocol, managed: set<string>)
    requires TypesSettled(g, protocol, managed)
    ensures Invalid(g, protocol, managed) == Inapplicable(g, protocol.settings, protocol.settings)
  {
    assert SchemaErrors(g, protocol.settings) == {};
  }

  lemma {:induction false} InapplicableOwner(g: Fields, protocol: Protocol, p: string) returns (i: nat)
    requires p in Inapplicable(g, protocol.settings, protocol.settings)
    ensures Owner(g, protocol, i, p, ParsePointer(p)) && !Applicable(protocol.settings[i], g, protocol.settings)
  {
    i :| 0 <= i < |protocol.settings| && p in SettingPaths(protocol.settings[i])
         && !Applicable(protocol.settings[i], g, protocol.settings) && ReadPointer(g, p).Some?;
  }

  lemma {:induction false} OwnerHits(g: Fields, protocol: Protocol, i: nat, p: string, ks: Keys)
    requires Owner(g, protocol, i, p, ks) && !Applicable(protocol.settings[i], g, protocol.settings)
    ensures p in Inapplicable(g, protocol.settings, protocol.settings)
    ensures Hit(ParseAll(Inapplicable(g, protocol.settings, protocol.settings)), ks)
  {
    assert p in Inapplicable(g, protocol.settings, protocol.settings);
    assert ks[..|ParsePointer(p)|] == ParsePointer(p);
    PrefixHits(ParseAll(Inapplicable(g, protocol.settings, protocol.settings)), ks, |ParsePointer(p)|);
  }

  /** A value whose rule has a failed condition is gone from the result. */
  lemma {:induction false} FailedConditionDeletes(
    g: Fields, protocol: Protocol, managed: set<string>, i: nat, p: string, conditions: seq<Rule>, k: nat)
    requires TypesSettled(g, protocol, managed) && Owner(g, protocol, i, p, ParsePointer(p))
    requires ParsePointer(p) in Paths(Obj(g))
    requires protocol.settings[i].rule == Some(All(conditions))
    requires k < |conditions| && !Holds(conditions[k], g, protocol.settings)
    ensures ParsePointer(p) !in Paths(Obj(Reconciled(g, protocol, managed)))
  {
    var next, ks := Round(g, protocol, managed), ParsePointer(p);
    RulesAlone(g, protocol, managed);
    RulesDecide(g, protocol, managed, ks);
    OwnerHits(g, protocol, i, p, ks);
    assert Removable(g, protocol, managed);
    ReconciledLaws(next, protocol, managed);
    if ks in Paths(Obj(Reconciled(g, protocol, managed))) {
      WithinPaths(Obj(Reconciled(next, protocol, managed)), Obj(next), ks);
    }
  }

  /** In a settled group every rule of a stored value is met: all its conditions, or one of its
      alternatives. */
  lemma {:induction false} SettledRules(g: Fields, protocol: Protocol, managed: set<string>, i: nat, p: string)
    requires Invalid(g, protocol, managed) == {} && Owner(g, protocol, i, p, ParsePointer(p))
    requires protocol.settings[i].rule.Some?
    ensures var rule := protocol.settings[i].rule.value;
      && (rule.All? ==> forall k :: 0 <= k < |rule.rules| ==> Holds(rule.rules[k], g, protocol.settings))
      && (rule.Any? ==> exists k :: 0 <= k < |rule.rules| && Holds(rule.rules[k], g, protocol.settings))
  {
    assert p !in Inapplicable(g, protocol.settings, protocol.settings);
  }

  // ---- Values that keep each other ----------------------------------------

  /** What the setting at `path` counts as is read from a value of `kept`, which is no object. */
  ghost predicate Anchored(kept: set<Keys>, g: Fields, settings: seq<Setting>, path: string) {
    var s := FindSetting(settings, path);
    if s.Some? && s.value.requestPath != "" && ReadPointer(g, ExtraPath(s.value)).Some?
    then ParsePointer(ExtraPath(s.value)) in kept && !ReadPointer(g, ExtraPath(s.value)).value.Obj?
    else ParsePointer(path) in kept && NotNull(ReadPointer(g, path)) && !ReadPointer(g, path).value.Obj?
  }

  /** One alternative holds on account of a value of `kept`. */
  ghost predicate Backed(kept: set<Keys>, g: Fields, settings: seq<Setting>, rule: Rule) {
    rule.Any? && exists k :: 0 <= k < |rule.rules| && Backs(kept, g, settings, rule.rules[k])
  }

  ghost predicate Backs(kept: set<Keys>, g: Fields, settings: seq<Setting>, alternative: Rule) {
    && alternative.In? && Anchored(kept, g, settings, alternative.path)
    && EffectiveValue(g, alternative.path, settings).Some?
    && EffectiveValue(g, alternative.path, settings).value in alternative.values
  }

  /** Every value of `kept` is supported, and whatever setting is stored at or above it accepts what
      is there, and has no rule or one with an alternative that `kept` backs. */
  ghost predicate KeepEachOther(kept: set<Keys>, g: Fields, protocol: Protocol, managed: set<string>) {
    forall ks :: ks in kept ==>
      && ks != [] && ks in Paths(Obj(g)) && Supported(protocol, managed, ks)
      && forall i, p :: Owner(g, protocol, i, p, ks) ==>
           && AcceptsWithin(protocol.settings[i], ReadPointer(g, p).value)
           && (protocol.settings[i].rule.None? || Backed(kept, g, protocol.settings, protocol.settings[i].rule.value))
  }

  /** A kept value that is no object reads the same. */
  lemma {:induction false} KeptReads(r: Json, v: Json, ks: Keys)
    requires Within(r, v) && ks in Paths(r) && ReadKeys(v, ks).Some? && !ReadKeys(v, ks).value.Obj?
    ensures ReadKeys(r, ks) == ReadKeys(v, ks)
    decreases |ks|
  {
    if r != v {
      assert ks == [ks[0]] + ks[1..];
      PathsCons(r, ks[0], ks[1..]);
      if ks[1..] != [] { KeptReads(r.fields[ks[0]], v.fields[ks[0]], ks[1..]); }
    }
  }

  lemma {:induction false} StillRead(r: Fields, g: Fields, p: string)
    requires Within(Obj(r), Obj(g)) && ReadPointer(r, p).Some?
    ensures ReadPointer(g, p).Some? && Within(ReadPointer(r, p).value, ReadPointer(g, p).value)
  {
    ReadWithin(Obj(r), Obj(g), ParsePointer(p));
  }

  /** While the kept values are there, what is read from them stays. */
  lemma {:induction false} AnchorHolds(
    kept: set<Keys>, r: Fields, g: Fields, settings: seq<Setting>, path: string)
    requires Within(Obj(r), Obj(g)) && kept <= Paths(Obj(r)) && Anchored(kept, g, settings, path)
    ensures EffectiveValue(r, path, settings) == EffectiveValue(g, path, settings)
  {
    var s := FindSetting(settings, path);
    if s.Some? && s.value.requestPath != "" {
      var raw := ExtraPath(s.value);
      if ReadPointer(g, raw).Some? {
        KeptReads(Obj(r), Obj(g), ParsePointer(raw));
        return;
      }
      if ReadPointer(r, raw).Some? { StillRead(r, g, raw); }
    }
    KeptReads(Obj(r), Obj(g), ParsePointer(path));
  }

  /** In what is left of the group, nothing at or above a kept value is invalid. */
  lemma {:induction false} NotInvalid(
    kept: set<Keys>, r: Fields, g: Fields, protocol: Protocol, managed: set<string>, ks: Keys, p: string)
    requires KeepEachOther(kept, g, protocol, managed) && ks in kept
    requires Within(Obj(r), Obj(g)) && kept <= Paths(Obj(r)) && p in Invalid(r, protocol, managed)
    ensures !(ParsePointer(p) <= ks)
  {
    if ParsePointer(p) <= ks {
      if p in UnsupportedPaths(r, protocol, managed) - {"/api"} {
        SupportedKept(r, protocol, managed, p, ks);
      } else {
        var i :| 0 <= i < |protocol.settings| && p in SettingPaths(protocol.settings[i]) && ReadPointer(r, p).Some?
                 && (SchemaInvalid(r, protocol.settings[i], p)
                     || !Applicable(protocol.settings[i], r, protocol.settings));
        StillRead(r, g, p);
        assert Owner(g, protocol, i, p, ks);
        OwnerMet(kept, r, g, protocol, i, p);
      }
    }
  }

  lemma {:induction false} OwnerMet(
    kept: set<Keys>, r: Fields, g: Fields, protocol: Protocol, i: nat, p: string)
    requires Within(Obj(r), Obj(g)) && kept <= Paths(Obj(r)) && i < |protocol.settings|
    requires ReadPointer(r, p).Some? && ReadPointer(g, p).Some?
    requires AcceptsWithin(protocol.settings[i], ReadPointer(g, p).value)
    requires protocol.settings[i].rule.None? || Backed(kept, g, protocol.settings, protocol.settings[i].rule.value)
    ensures !SchemaInvalid(r, protocol.settings[i], p) && Applicable(protocol.settings[i], r, protocol.settings)
  {
    StillRead(r, g, p);
    if protocol.settings[i].rule.Some? {
      var rules := protocol.settings[i].rule.value.rules;
      var k :| 0 <= k < |rules| && Backs(kept, g, protocol.settings, rules[k]);
      AnchorHolds(kept, r, g, protocol.settings, rules[k].path);
      assert Holds(rules[k], r, protocol.settings);
    }
  }

  /** Values that keep each other come through every round. */
  lemma {:induction false} KeptStay(
    kept: set<Keys>, r: Fields, g: Fields, protocol: Protocol, managed: set<string>)
    requires KeepEachOther(kept, g, protocol, managed) && Within(Obj(r), Obj(g)) && kept <= Paths(Obj(r))
    ensures kept <= Paths(Obj(Reconciled(r, protocol, managed)))
    decreases Paths(Obj(r))
  {
    if Removable(r, protocol, managed) {
      var next, invalid := Round(r, protocol, managed), Invalid(r, protocol, managed);
      RemovableShrinks(r, protocol, managed);
      RoundWithin(r, protocol, managed);
      WithinTransitive(Obj(next), Obj(r), Obj(g));
      forall ks | ks in kept ensures ks in Paths(Obj(next)) {
        PrunePaths(Obj(r), ParseAll(invalid), ks);
        if Hit(ParseAll(invalid), ks) {
          HitBySome(invalid, ks);
          var p :| p in invalid && ParsePointer(p) <= ks;
          NotInvalid(kept, r, g, protocol, managed, ks, p);
        }
      }
      KeptStay(kept, next, g, protocol, managed);
    }
  }

  /** So the whole reconciliation keeps them, and those that are no objects with their values. */
  lemma {:induction false} BackedSurvive(
    kept: set<Keys>, g: Fields, protocol: Protocol, managed: set<string>, ks: Keys)
    requires KeepEachOther(kept, g, protocol, managed) && ks in kept
    ensures ks in Paths(Obj(Reconciled(g, protocol, managed)))
    ensures ReadKeys(Obj(g), ks).Some? && !ReadKeys(Obj(g), ks).value.Obj? ==>
      ReadKeys(Obj(Reconciled(g, protocol, managed)), ks) == ReadKeys(Obj(g), ks)
  {
    KeptStay(kept, g, g, protocol, managed);
    ReconciledLaws(g, protocol, managed);
    if ReadKeys(Obj(g), ks).Some? && !ReadKeys(Obj(g), ks).value.Obj? {
      KeptReads(Obj(Reconciled(g, protocol, managed)), Obj(g), ks);
    }
  }
}
