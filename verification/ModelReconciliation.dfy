/** When the reconciliation loop returns, decided from the group and the protocol alone, and
    the loop itself. */
module ModelReconciliation {
  import opened Options
  import opened Strings
  import opened JsonPointer
  import opened ModelAuthoring
  import opened ModelAuthoringLaws

  // ---- When the loop returns ----------------------------------------------

  function Iterate<T>(f: T -> T, x: T, n: nat): T {
    if n == 0 then x else f(Iterate(f, x, n - 1))
  }

  ghost predicate Reaches<T>(f: T -> T, done: T -> bool, x: T) {
    exists n: nat :: done(Iterate(f, x, n))
  }

  lemma {:induction false} IterateShift<T>(f: T -> T, x: T, n: nat)
    ensures Iterate(f, f(x), n) == Iterate(f, x, n + 1)
  {
    if n != 0 { IterateShift(f, x, n - 1); }
  }

  lemma {:induction false} IterateFixed<T>(f: T -> T, x: T, n: nat)
    requires f(x) == x
    ensures Iterate(f, x, n) == x
  {
    if n != 0 { IterateFixed(f, x, n - 1); }
  }

  lemma {:induction false} ReachesStep<T>(f: T -> T, done: T -> bool, x: T)
    ensures Reaches(f, done, x) <==> done(x) || Reaches(f, done, f(x))
  {
    if done(x) { assert done(Iterate(f, x, 0)); }
    if Reaches(f, done, f(x)) {
      var n: nat :| done(Iterate(f, f(x), n));
      IterateShift(f, x, n);
    }
    if Reaches(f, done, x) && !done(x) {
      var n: nat :| done(Iterate(f, x, n));
      IterateShift(f, x, n - 1);
    }
  }

  lemma {:induction false} ReachesFixed<T>(f: T -> T, done: T -> bool, x: T)
    requires f(x) == x
    ensures Reaches(f, done, x) <==> done(x)
  {
    if done(x) { assert done(Iterate(f, x, 0)); }
    if Reaches(f, done, x) {
      var n: nat :| done(Iterate(f, x, n));
      IterateFixed(f, x, n);
    }
  }

  function Rounds(protocol: Protocol, managed: set<string>): Fields -> Fields { g => Round(g, protocol, managed) }

  function Stable(protocol: Protocol, managed: set<string>): Fields -> bool {
    g => Invalid(g, protocol, managed) == {}
  }

  /** Some round finds nothing invalid, with no assumption on arrays. */
  ghost predicate Returns(g: Fields, protocol: Protocol, managed: set<string>) {
    Reaches(Rounds(protocol, managed), Stable(protocol, managed), g)
  }

  lemma {:induction false} PruneMisses(v: Json, all: set<Keys>)
    requires forall p :: p in all ==> p != [] && p !in Paths(v)
    ensures Prune(v, all) == v
  {
    if v.Obj? {
      forall k | k in v.fields ensures [k] !in all && Prune(v.fields[k], Tails(all, k)) == v.fields[k] {
        PathsCons(v, k, []);
        assert [k] + [] == [k];
        forall t | t in Tails(all, k) ensures t != [] && t !in Paths(v.fields[k]) {
          TailsMember(all, k, t);
          PathsCons(v, k, t);
        }
        PruneMisses(v.fields[k], Tails(all, k));
      }
    }
  }

  /** A stuck group stays as it is, and invalid. */
  lemma {:induction false} StuckStays(g: Fields, protocol: Protocol, managed: set<string>)
    requires Stuck(g, protocol, managed)
    ensures Rounds(protocol, managed)(g) == g && !Stable(protocol, managed)(g)
    ensures forall p :: p in Invalid(g, protocol, managed) ==> ThroughArray(Obj(g), ParsePointer(p))
  {
    PruneMisses(Obj(g), ParseAll(Invalid(g, protocol, managed)));
    forall p | p in Invalid(g, protocol, managed) ensures ThroughArray(Obj(g), ParsePointer(p)) {
      InvalidIsPath(g, protocol, managed, p);
    }
  }

  /** On every group the loop returns exactly when the group it settles on has no invalid path
      left; what can be left there are paths that enter an array. */
  lemma {:induction false} LoopReturns(g: Fields, protocol: Protocol, managed: set<string>)
    ensures Returns(g, protocol, managed) <==> !Stuck(Reconciled(g, protocol, managed), protocol, managed)
    decreases Paths(Obj(g))
  {
    var f, done := Rounds(protocol, managed), Stable(protocol, managed);
    if Removable(g, protocol, managed) {
      RemovableShrinks(g, protocol, managed);
      LoopReturns(Round(g, protocol, managed), protocol, managed);
      ReachesStep(f, done, g);
    } else if Stuck(g, protocol, managed) {
      StuckStays(g, protocol, managed);
      ReachesFixed(f, done, g);
    } else {
      ReachesStep(f, done, g);
    }
  }

  // ---- Supported arrays ---------------------------------------------------

  ghost predicate TypedAbove(typed: set<string>, at: Keys) {
    exists n :: 0 < n <= |at| && Pointer(at[..n]) in typed
  }

  /** No leaf at `at` is reported as unsupported. */
  ghost predicate Supported(protocol: Protocol, managed: set<string>, at: Keys)
    requires at != []
  {
    at[0] in FIXED_KEYS || at[0] in managed || TypedAbove(TypedPaths(protocol.settings), at)
  }

  /** Nothing lies below `q`. */
  ghost predicate IsLeaf(v: Json, q: Keys) { forall k :: q + [k] !in Paths(v) }

  lemma {:induction false} LeafBelow(v: Json, k: string, q: Keys)
    requires v.Obj? && k in v.fields && IsLeaf(v.fields[k], q)
    ensures IsLeaf(v, [k] + q)
  {
    forall j ensures [k] + q + [j] !in Paths(v) {
      PathsCons(v, k, q + [j]);
      assert [k] + q + [j] == [k] + (q + [j]);
    }
  }

  lemma {:induction false} LeafRoot(v: Json)
    requires !v.Obj? || v.fields == map[]
    ensures IsLeaf(v, [])
  {
    forall k ensures [] + [k] !in Paths(v) {
      assert [] + [k] == [k] + [];
      PathsCons(v, k, []);
    }
  }

  lemma {:induction false} LeafIsLast(v: Json, q: Keys, at: Keys)
    requires IsLeaf(v, q) && at in Paths(v) && q <= at
    ensures q == at
  {
    if |q| < |at| {
      var j, more := at[|q|], at[|q| + 1..];
      assert at == q + [j] + more;
      PathPrefix(v, q + [j], more);
    }
  }

  /** No typed path at the prefixes of `q` from length `from` on. */
  ghost predicate Untyped(typed: set<string>, q: Keys, from: nat) {
    forall n :: from <= n <= |q| ==> Pointer(q[..n]) !in typed
  }

  lemma {:induction false} UntypedStep(typed: set<string>, at: Keys, more: Keys)
    requires more != []
    ensures Untyped(typed, at + more, |at|) <==> Pointer(at) !in typed && Untyped(typed, at + more, |at| + 1)
  {
    assert (at + more)[..|at|] == at;
  }

  /** A reported leaf has no typed path above it, and nothing below it. */
  lemma {:induction false} VisitReports(typed: set<string>, v: Json, at: Keys, p: string) returns (rest: Keys)
    requires at != [] && p in Visit(typed, v, Pointer(at))
    ensures ParsePointer(p) == at + rest
    ensures Untyped(typed, at + rest, |at|) && IsLeaf(v, rest)
  {
    PointerParses(at);
    if v.Obj? && v.fields != map[] {
      var k :| k in v.fields && p in Visit(typed, v.fields[k], Pointer(at) + "/" + Escape(k));
      PointerSnoc(at, k);
      var below := VisitReports(typed, v.fields[k], at + [k], p);
      rest := [k] + below;
      AppendKeys(at, k, below);
      UntypedStep(typed, at, rest);
      LeafBelow(v, k, below);
    } else {
      rest := [];
      assert at + [] == at && at[..|at|] == at;
      LeafRoot(v);
    }
  }

  /** An array with no typed path above it is reported. */
  lemma {:induction false} VisitFinds(typed: set<string>, v: Json, at: Keys, rest: Keys)
    requires at != [] && ReadKeys(v, rest).Some? && ReadKeys(v, rest).value.Arr? && (rest == [] || rest in Paths(v))
    requires Untyped(typed, at + rest, |at|)
    ensures Pointer(at + rest) in Visit(typed, v, Pointer(at))
    decreases |rest|
  {
    if rest == [] {
      assert at + rest == at && at[..|at|] == at;
    } else {
      UntypedStep(typed, at, rest);
      var k, below := rest[0], rest[1..];
      assert rest == [k] + below && at + [k] + below == at + rest;
      PathsCons(v, k, below);
      PointerSnoc(at, k);
      VisitFinds(typed, v.fields[k], at + [k], below);
    }
  }

  /** Unsupported leaves are never at or above a supported path. */
  lemma {:induction false} SupportedKept(g: Fields, protocol: Protocol, managed: set<string>, p: string, at: Keys)
    requires at in Paths(Obj(g)) && at != [] && Supported(protocol, managed, at)
    requires p in UnsupportedPaths(g, protocol, managed) && (p != "/api" || protocol.settings != [])
    ensures !(ParsePointer(p) <= at)
  {
    var typed := TypedPaths(protocol.settings);
    var k :| k in g && k !in FIXED_KEYS && k !in managed && p in Visit(typed, g[k], "/" + Escape(k));
    RootPointer(k);
    var rest := VisitReports(typed, g[k], [k], p);
    var q := [k] + rest;
    if q <= at {
      LeafBelow(Obj(g), k, rest);
      LeafIsLast(Obj(g), q, at);
    }
  }

  lemma {:induction false} RootPointer(k: string)
    ensures Pointer([k]) == "/" + Escape(k)
  {
    assert [k][..0] == [] && "" + "/" + Escape(k) == "/" + Escape(k);
  }

  lemma {:induction false} PathPrefix(v: Json, p: Keys, more: Keys)
    requires p != [] && p + more in Paths(v)
    ensures p in Paths(v)
    decreases |p|
  {
    var k, rest := p[0], p[1..];
    assert p == [k] + rest && p + more == [k] + (rest + more);
    PathsCons(v, k, rest + more);
    PathsCons(v, k, rest);
    if rest != [] { PathPrefix(v.fields[k], rest, more); }
  }

  /** An unsupported array is reported. */
  lemma {:induction false} UnsupportedReported(g: Fields, protocol: Protocol, managed: set<string>, ks: Keys)
    requires ThroughArray(Obj(g), ks) && !Supported(protocol, managed, ArrayKeys(Obj(g), ks))
    ensures Pointer(ArrayKeys(Obj(g), ks)) in UnsupportedPaths(g, protocol, managed) - {"/api"}
  {
    var at := ArrayKeys(Obj(g), ks);
    ArrayReached(Obj(g), ks);
    var k, rest := at[0], at[1..];
    assert at == [k] + rest;
    PathsCons(Obj(g), k, rest);
    RootPointer(k);
    VisitFinds(TypedPaths(protocol.settings), g[k], [k], rest);
    PointerParses(at);
    ApiPointer();
  }

  // ---- The condition ------------------------------------------------------

  /** The array that `ks` enters is supported, and no setting for it or for an object above it
      rejects what is there. */
  ghost predicate Stays(g: Fields, protocol: Protocol, managed: set<string>, ks: Keys)
    requires ThroughArray(Obj(g), ks)
  {
    var at := ArrayKeys(Obj(g), ks);
    && Supported(protocol, managed, at)
    && forall i, q :: 0 <= i < |protocol.settings| && q in SettingPaths(protocol.settings[i]) ==>
         ParsePointer(q) <= at ==> !SchemaInvalid(g, protocol.settings[i], q)
  }

  /** Setting `i` has the path `p`, and it leads into an array that stays. */
  ghost predicate Inside(g: Fields, protocol: Protocol, managed: set<string>, i: nat, p: string) {
    && i < |protocol.settings| && p in SettingPaths(protocol.settings[i])
    && ThroughArray(Obj(g), ParsePointer(p)) && Stays(g, protocol, managed, ParsePointer(p))
  }

  /** A setting rejects what it reads in an array that stays. */
  ghost predicate RejectedInside(g: Fields, protocol: Protocol, managed: set<string>) {
    exists i: nat, p :: Inside(g, protocol, managed, i, p) && SchemaInvalid(g, protocol.settings[i], p)
  }

  /** No setting with a rule can be read in an array that stays. */
  ghost predicate NoRulesInside(g: Fields, protocol: Protocol, managed: set<string>) {
    forall i: nat, p :: Inside(g, protocol, managed, i, p) && ReadPointer(g, p).Some? ==>
        protocol.settings[i].rule.None?
  }

  ghost predicate AcceptsWithin(s: Setting, v: Json) { forall r: Json :: Within(r, v) ==> !s.rejects(r) }

  /** A setting for an object above the array that `ks` enters accepts that object, whatever
      keys are deleted from it. */
  ghost predicate AcceptedAbove(g: Fields, protocol: Protocol, ks: Keys)
    requires ThroughArray(Obj(g), ks)
  {
    forall i, q :: 0 <= i < |protocol.settings| && q in SettingPaths(protocol.settings[i]) ==>
      ParsePointer(q) < ArrayKeys(Obj(g), ks) && ReadPointer(g, q).Some? ==>
        AcceptsWithin(protocol.settings[i], ReadPointer(g, q).value)
  }

  ghost predicate AllAcceptedAbove(g: Fields, protocol: Protocol, managed: set<string>) {
    forall i: nat, p :: Inside(g, protocol, managed, i, p) && SchemaInvalid(g, protocol.settings[i], p) ==>
      AcceptedAbove(g, protocol, ParsePointer(p))
  }

  /** An array that does not stay is deleted in the first round. */
  lemma {:induction false} FirstRoundDeletes(g: Fields, protocol: Protocol, managed: set<string>, ks: Keys)
    requires ThroughArray(Obj(g), ks) && !Stays(g, protocol, managed, ks)
    ensures ArrayKeys(Obj(g), ks) !in Paths(Obj(Reconciled(g, protocol, managed)))
  {
    var at := ArrayKeys(Obj(g), ks);
    var q := InvalidAbove(g, protocol, managed, ks);
    InvalidPrefix(g, protocol, managed, ks, q);
    var next, r := Round(g, protocol, managed), Reconciled(g, protocol, managed);
    ReconciledLaws(next, protocol, managed);
    if at in Paths(Obj(r)) { WithinPaths(Obj(r), Obj(next), at); }
  }

  lemma {:induction false} InvalidAbove(g: Fields, protocol: Protocol, managed: set<string>, ks: Keys)
    returns (q: string)
    requires ThroughArray(Obj(g), ks) && !Stays(g, protocol, managed, ks)
    ensures q in Invalid(g, protocol, managed) && ParsePointer(q) <= ArrayKeys(Obj(g), ks)
  {
    var at := ArrayKeys(Obj(g), ks);
    if !Supported(protocol, managed, at) {
      UnsupportedReported(g, protocol, managed, ks);
      PointerParses(at);
      q := Pointer(at);
    } else {
      var i;
      i, q :| 0 <= i < |protocol.settings| && q in SettingPaths(protocol.settings[i]) && ParsePointer(q) <= at
              && SchemaInvalid(g, protocol.settings[i], q);
      assert q in SchemaErrors(g, protocol.settings);
    }
  }

  /** What is invalid at or above an array takes the array with it. */
  lemma {:induction false} InvalidPrefix(g: Fields, protocol: Protocol, managed: set<string>, ks: Keys, q: string)
    requires ThroughArray(Obj(g), ks)
    requires q in Invalid(g, protocol, managed) && ParsePointer(q) <= ArrayKeys(Obj(g), ks)
    ensures Removable(g, protocol, managed)
    ensures ArrayKeys(Obj(g), ks) !in Paths(Obj(Round(g, protocol, managed)))
  {
    ArrayReached(Obj(g), ks);
    PrefixDeleted(Obj(g), ParseAll(Invalid(g, protocol, managed)), ArrayKeys(Obj(g), ks), ParsePointer(q));
  }

  lemma {:induction false} PrefixDeleted(v: Json, all: set<Keys>, at: Keys, q: Keys)
    requires at in Paths(v) && q != [] && q <= at && q in all
    ensures q in Paths(v) && at !in Paths(Prune(v, all))
  {
    assert at[..|q|] == q && at == q + at[|q|..];
    PathPrefix(v, q, at[|q|..]);
    PrefixHits(all, at, |q|);
    PrunePaths(v, all, at);
  }

  /** What cannot be removed is invalid on account of a setting. */
  lemma {:induction false} InvalidSetting(
    g: Fields, protocol: Protocol, managed: set<string>, p: string) returns (i: nat)
    requires p in Invalid(g, protocol, managed) && ParsePointer(p) !in Paths(Obj(g))
    ensures i < |protocol.settings| && p in SettingPaths(protocol.settings[i]) && ReadPointer(g, p).Some?
    ensures SchemaInvalid(g, protocol.settings[i], p) || protocol.settings[i].rule.Some?
  {
    if p in UnsupportedPaths(g, protocol, managed) && p != "/api" { UnsupportedIsPath(g, protocol, managed, p); }
    if p in SchemaErrors(g, protocol.settings) {
      i :| 0 <= i < |protocol.settings| && p in SettingPaths(protocol.settings[i])
           && SchemaInvalid(g, protocol.settings[i], p);
    } else {
      i :| 0 <= i < |protocol.settings| && p in SettingPaths(protocol.settings[i])
           && !Applicable(protocol.settings[i], g, protocol.settings) && ReadPointer(g, p).Some?;
    }
  }

  /** What is still read through an array at the end was so from the start, in an array that stays. */
  lemma {:induction false} ReadInside(g: Fields, protocol: Protocol, managed: set<string>, i: nat, p: string)
    requires i < |protocol.settings| && p in SettingPaths(protocol.settings[i])
    requires ThroughArray(Obj(Reconciled(g, protocol, managed)), ParsePointer(p))
    ensures Inside(g, protocol, managed, i, p)
    ensures ReadPointer(Reconciled(g, protocol, managed), p) == ReadPointer(g, p)
  {
    var r, ks := Reconciled(g, protocol, managed), ParsePointer(p);
    ReconciledLaws(g, protocol, managed);
    ArraySame(Obj(r), Obj(g), ks);
    ArrayReached(Obj(r), ks);
    if !Stays(g, protocol, managed, ks) { FirstRoundDeletes(g, protocol, managed, ks); }
  }

  /** The loop returns when nothing is rejected in an array that stays, and no rule looks there. */
  lemma {:induction false} AcceptedReturns(g: Fields, protocol: Protocol, managed: set<string>)
    requires NoRulesInside(g, protocol, managed) && !RejectedInside(g, protocol, managed)
    ensures !Stuck(Reconciled(g, protocol, managed), protocol, managed)
  {
    var r := Reconciled(g, protocol, managed);
    if Stuck(r, protocol, managed) {
      StuckStays(r, protocol, managed);
      var p :| p in Invalid(r, protocol, managed);
      var i := InvalidSetting(r, protocol, managed, p);
      ReadInside(g, protocol, managed, i, p);
    }
  }

  /** A rejected element whose array stays is met in every round. */
  lemma {:induction false} RejectedStays(
    g: Fields, r: Fields, protocol: Protocol, managed: set<string>, i: nat, p: string)
    requires Inside(g, protocol, managed, i, p) && SchemaInvalid(g, protocol.settings[i], p)
    requires AcceptedAbove(g, protocol, ParsePointer(p))
    requires Within(Obj(r), Obj(g)) && ThroughArray(Obj(r), ParsePointer(p))
    ensures Stuck(Reconciled(r, protocol, managed), protocol, managed)
    decreases Paths(Obj(r))
  {
    var ks := ParsePointer(p);
    ArraySame(Obj(r), Obj(g), ks);
    assert p in SchemaErrors(r, protocol.settings);
    if Removable(r, protocol, managed) {
      var next := Round(r, protocol, managed);
      RemovableShrinks(r, protocol, managed);
      RoundWithin(r, protocol, managed);
      WithinTransitive(Obj(next), Obj(r), Obj(g));
      RejectedRound(g, r, protocol, managed, i, p);
      RejectedStays(g, next, protocol, managed, i, p);
    }
  }

  lemma {:induction false} RejectedRound(
    g: Fields, r: Fields, protocol: Protocol, managed: set<string>, i: nat, p: string)
    requires Inside(g, protocol, managed, i, p) && SchemaInvalid(g, protocol.settings[i], p)
    requires AcceptedAbove(g, protocol, ParsePointer(p))
    requires Within(Obj(r), Obj(g)) && ThroughArray(Obj(r), ParsePointer(p))
    ensures ThroughArray(Obj(Round(r, protocol, managed)), ParsePointer(p))
  {
    var ks, invalid := ParsePointer(p), Invalid(r, protocol, managed);
    var at := ArrayKeys(Obj(g), ks);
    ArraySame(Obj(r), Obj(g), ks);
    ArrayReached(Obj(r), ks);
    assert p in SchemaErrors(r, protocol.settings);
    forall q | q in invalid ensures !(ParsePointer(q) <= at) {
      UntouchedAbove(g, r, protocol, managed, i, p, q);
    }
    HitBySome(invalid, at);
    PrunePaths(Obj(r), ParseAll(invalid), at);
    RoundWithin(r, protocol, managed);
    ArrayStays(Obj(Round(r, protocol, managed)), Obj(r), ks);
  }

  lemma {:induction false} HitBySome(paths: set<string>, at: Keys)
    ensures Hit(ParseAll(paths), at) ==> exists q :: q in paths && ParsePointer(q) <= at
  {
    if Hit(ParseAll(paths), at) {
      var n := HitPrefix(ParseAll(paths), at);
      var q :| q in paths && ParsePointer(q) == at[..n];
      assert ParsePointer(q) <= at;
    }
  }

  /** No first-stage deletion is at or above the array. */
  lemma {:induction false} UntouchedAbove(
    g: Fields, r: Fields, protocol: Protocol, managed: set<string>, i: nat, p: string, q: string)
    requires Inside(g, protocol, managed, i, p) && AcceptedAbove(g, protocol, ParsePointer(p))
    requires Within(Obj(r), Obj(g)) && ThroughArray(Obj(r), ParsePointer(p))
    requires q in (UnsupportedPaths(r, protocol, managed) - {"/api"}) + SchemaErrors(r, protocol.settings)
    ensures !(ParsePointer(q) <= ArrayKeys(Obj(g), ParsePointer(p)))
  {
    ArraySame(Obj(r), Obj(g), ParsePointer(p));
    if q in UnsupportedPaths(r, protocol, managed) {
      ArrayReached(Obj(r), ParsePointer(p));
      SupportedKept(r, protocol, managed, q, ArrayKeys(Obj(r), ParsePointer(p)));
    } else {
      var j :| 0 <= j < |protocol.settings| && q in SettingPaths(protocol.settings[j])
               && SchemaInvalid(r, protocol.settings[j], q);
      AcceptedNotAbove(g, r, protocol, managed, ParsePointer(p), j, q);
    }
  }

  lemma {:induction false} AcceptedNotAbove(
    g: Fields, r: Fields, protocol: Protocol, managed: set<string>, ks: Keys, j: nat, q: string)
    requires ThroughArray(Obj(g), ks) && Stays(g, protocol, managed, ks) && AcceptedAbove(g, protocol, ks)
    requires Within(Obj(r), Obj(g)) && ThroughArray(Obj(r), ks)
    requires j < |protocol.settings| && q in SettingPaths(protocol.settings[j])
    requires SchemaInvalid(r, protocol.settings[j], q)
    ensures !(ParsePointer(q) <= ArrayKeys(Obj(g), ks))
  {
    var at := ArrayKeys(Obj(g), ks);
    ArraySame(Obj(r), Obj(g), ks);
    assert ParsePointer(q) <= at && |ParsePointer(q)| == |at| ==> ParsePointer(q) == at;
    if ParsePointer(q) <= at {
      ReadWithin(Obj(r), Obj(g), ParsePointer(q));
    }
  }

  lemma {:induction false} RejectedLoops(g: Fields, protocol: Protocol, managed: set<string>, i: nat, p: string)
    requires Inside(g, protocol, managed, i, p) && SchemaInvalid(g, protocol.settings[i], p)
    requires AcceptedAbove(g, protocol, ParsePointer(p))
    ensures !Returns(g, protocol, managed)
  {
    RejectedStays(g, g, protocol, managed, i, p);
    LoopReturns(g, protocol, managed);
  }

  /** Where no rule looks into an array that stays, and settings for objects above a rejected
      element accept what deletions leave of them: the loop returns exactly when no element is
      rejected there. */
  lemma {:induction false} LoopReturnsIff(g: Fields, protocol: Protocol, managed: set<string>)
    requires NoRulesInside(g, protocol, managed) && AllAcceptedAbove(g, protocol, managed)
    ensures Returns(g, protocol, managed) <==> !RejectedInside(g, protocol, managed)
  {
    if RejectedInside(g, protocol, managed) {
      var i: nat, p :| Inside(g, protocol, managed, i, p) && SchemaInvalid(g, protocol.settings[i], p);
      RejectedLoops(g, protocol, managed, i, p);
    } else {
      AcceptedReturns(g, protocol, managed);
      LoopReturns(g, protocol, managed);
    }
  }

  /** What a caller can check beforehand; and beyond that, every group on which the rounds end. */
  ghost predicate Ends(g: Fields, protocol: Protocol, managed: set<string>) {
    || (NoRulesInside(g, protocol, managed) && !RejectedInside(g, protocol, managed))
    || Returns(g, protocol, managed)
  }

  lemma {:induction false} EndsIff(g: Fields, protocol: Protocol, managed: set<string>)
    ensures Ends(g, protocol, managed) <==> Returns(g, protocol, managed)
    ensures Ends(g, protocol, managed) <==> !Stuck(Reconciled(g, protocol, managed), protocol, managed)
  {
    LoopReturns(g, protocol, managed);
    if NoRulesInside(g, protocol, managed) && !RejectedInside(g, protocol, managed) {
      AcceptedReturns(g, protocol, managed);
    }
  }

  /** In particular it returns whenever no setting's path enters an array. */
  lemma {:induction false} ArrayFreeReturns(g: Fields, protocol: Protocol, managed: set<string>)
    requires ArrayFree(g, protocol.settings)
    ensures NoRulesInside(g, protocol, managed) && !RejectedInside(g, protocol, managed)
    ensures Returns(g, protocol, managed)
  {
    AcceptedReturns(g, protocol, managed);
    LoopReturns(g, protocol, managed);
  }

  function ListSetting(): Setting {
    Setting(Some(Storage(true, "/a")), "", "", _ => false, None, None, [])
  }

  function ElementSetting(): Setting {
    Setting(Some(Storage(true, "/a/0")), "", "", _ => true, None, None, [])
  }

  lemma {:induction false} ExampleErrors(g: Fields)
    requires g == map["a" := Arr([Bool(true)])]
    ensures SchemaErrors(g, [ListSetting(), ElementSetting()]) == {"/a/0"}
  {
    ParseExample();
    var settings := [ListSetting(), ElementSetting()];
    assert settings[0] == ListSetting() && settings[1] == ElementSetting();
    assert SettingPaths(settings[0]) == {"/a"} && SettingPaths(settings[1]) == {"/a/0"};
    assert ReadKeys(Obj(g), ["a", "0"]) == Some(Bool(true)) by {
      assert ["a", "0"][1..] == ["0"] && "0"[..0] == "";
    }
    assert SchemaErrors(g, settings) == {"/a/0"};
  }

  lemma {:induction false} ExamplePath(g: Fields)
    requires g == map["a" := Arr([Bool(true)])]
    ensures ["a", "0"] !in Paths(Obj(g))
  {
    PathsCons(Obj(g), "a", ["0"]);
    assert ["a", "0"] == ["a"] + ["0"];
  }

  lemma {:induction false} ExampleInvalid(g: Fields, protocol: Protocol)
    requires g == map["a" := Arr([Bool(true)])] && protocol == Protocol(true, [ListSetting(), ElementSetting()])
    ensures Invalid(g, protocol, {}) == {"/a/0"} && ["a", "0"] !in Paths(Obj(g))
  {
    ParseExample();
    var settings := protocol.settings;
    assert settings[0] == ListSetting() && settings[1] == ElementSetting();
    assert SettingPaths(settings[0]) == {"/a"} && SettingPaths(settings[1]) == {"/a/0"};
    ExampleErrors(g);
    assert UnsupportedPaths(g, protocol, {}) == {} by { assert "/a" in TypedPaths(settings); }
    ExamplePath(g);
  }

  /** A supported array with a rejected element: the loop never returns. */
  lemma {:induction false} RejectedElementLoops() returns (g: Fields, protocol: Protocol)
    ensures protocol.available && protocol.settings != [] && !Returns(g, protocol, {})
  {
    g, protocol := map["a" := Arr([Bool(true)])], Protocol(true, [ListSetting(), ElementSetting()]);
    ExampleInvalid(g, protocol);
    ParseExample();
    assert Stuck(g, protocol, {});
    LoopReturns(g, protocol, {});
  }

  lemma {:induction false} ParseExample()
    ensures ParsePointer("/a/0") == ["a", "0"] && "/" + Escape("a") == "/a"
  {
    EscapePlain("a");
    EscapePlain("0");
    PointerRoot("a");
    PointerExtend("/a", "0");
    assert "/" + "a" == "/a" && "/a" + "/" + "0" == "/a/0";
  }

  // ---- Agreement with the validator ---------------------------------------

  /** After reconciling, the validator reports nothing but reserved fields, unless the group
      held a rejected null that a round passes over. */
  lemma {:induction false} ReconciledIsValid(g: Fields, protocol: Protocol, managed: set<string>)
    requires protocol.settings != [] && Ends(g, protocol, managed)
    requires NoUncheckedNull(g, protocol.settings)
    ensures OnlyReserved(Reconciled(g, protocol, managed), protocol, managed)
  {
    var r := Reconciled(g, protocol, managed);
    EndsIff(g, protocol, managed);
    ReconciledLaws(g, protocol, managed);
    forall i, p | 0 <= i < |protocol.settings| ensures !UncheckedNull(r, protocol.settings[i], p) {
      if ReadPointer(r, p) == Some(Null) { WithinLeaf(Obj(r), Obj(g), ParsePointer(p)); }
      assert !UncheckedNull(g, protocol.settings[i], p);
    }
    StableMeansValid(r, protocol, managed);
  }

  // ---- The loop -----------------------------------------------------------

  method ReconcileModelSettings(g: Fields, protocol: Protocol, managed: set<string>) returns (next: Fields)
    requires protocol.available && protocol.settings != [] ==> Ends(g, protocol, managed)
    ensures !protocol.available || protocol.settings == [] ==> next == g
    ensures protocol.available && protocol.settings != [] ==>
      next == Reconciled(g, protocol, managed) && Invalid(next, protocol, managed) == {}
  {
    next := g;
    if !protocol.available || protocol.settings == [] {
      return;
    }
    EndsIff(g, protocol, managed);
    while true
      invariant Reconciled(next, protocol, managed) == Reconciled(g, protocol, managed)
      decreases Paths(Obj(next))
    {
      var invalid := FindInvalid(next, protocol, managed);
      if invalid == {} {
        return;
      }
      assert Removable(next, protocol, managed);
      RemovableShrinks(next, protocol, managed);
      next := RemoveAll(next, invalid);
    }
  }
}
