/** The client's configuration patches against the server's merge: a diff, merged, gives
    the edited configuration, and combined patches merge like one after the other. */
module ModelPatches {
  import opened Options
  import opened JsonPointer

  const EXTRA_KEY := "extra_params"

  // ---- Client -------------------------------------------------------------

  /** `same` is the client's comparison of serialised values: it may miss equal values
      that differ in key order, but never identifies different ones. */
  ghost predicate Sound(same: (Json, Json) -> bool) { forall a, b :: same(a, b) ==> a == b }

  function Diff(before: Fields, after: Fields, same: (Json, Json) -> bool): Fields
    decreases Obj(after)
  {
    map key | key in before.Keys + after.Keys
              && !(key in before && key in after && same(before[key], after[key]))
      :: if key !in after then (if key == EXTRA_KEY then Obj(map[]) else Null)
         else if key != EXTRA_KEY && key in before && before[key].Obj? && after[key].Obj?
           then assert after[key] < Obj(after); Obj(Diff(before[key].fields, after[key].fields, same))
         else after[key]
  }

  function Combine(previous: Fields, next: Fields): Fields
    decreases Obj(next)
  {
    map key | key in previous.Keys + next.Keys
      :: if key !in next then previous[key]
         else if key != EXTRA_KEY && key in previous && previous[key].Obj? && next[key].Obj?
           then assert next[key] < Obj(next); Obj(Combine(previous[key].fields, next[key].fields))
         else next[key]
  }

  // ---- Server -------------------------------------------------------------

  /** Pairs of `fallbacks` and an index. */
  predicate FallbackPairs(keys: Keys)
    decreases |keys|
  {
    keys == [] || (|keys| >= 2 && keys[0] == "fallbacks" && keys[1] != "" && 0 <= Digits(keys[1])
                   && FallbackPairs(keys[2..]))
  }

  /** A model's raw request parameters, which replace in full. */
  predicate IsExtra(path: Keys) {
    && |path| >= 3 && path[0] == "models" && path[|path| - 1] == EXTRA_KEY
    && FallbackPairs(path[2..|path| - 1])
  }

  function Below(base: Json): Fields { if base.Obj? then base.fields else map[] }

  function Merge(base: Json, patch: Json, path: Keys): Json
    decreases patch
  {
    if IsExtra(path) || !patch.Obj? then patch
    else
      var b := Below(base);
      Obj(map k | k in b.Keys + patch.fields.Keys && !(k in patch.fields && patch.fields[k] == Null)
            :: if k in patch.fields
               then Merge(if k in b then b[k] else Null, patch.fields[k], path + [k])
               else b[k])
  }

  // ---- Key by key ---------------------------------------------------------

  function Get(m: Fields, k: string): Option<Json> { if k in m then Some(m[k]) else None }

  function OrNull(v: Option<Json>): Json { if v.Some? then v.value else Null }

  /** What merging does at one key. */
  function MergeEntry(was: Option<Json>, patch: Option<Json>, path: Keys): Option<Json> {
    if patch.None? then was
    else if patch.value == Null then None
    else Some(Merge(OrNull(was), patch.value, path))
  }

  lemma {:induction false} MergeGet(base: Json, patch: Fields, path: Keys, k: string)
    requires !IsExtra(path)
    ensures Merge(base, Obj(patch), path).Obj?
    ensures Get(Merge(base, Obj(patch), path).fields, k) == MergeEntry(Get(Below(base), k), Get(patch, k), path + [k])
  {
  }

  lemma {:induction false} SameFields(a: Fields, b: Fields)
    requires forall k :: Get(a, k) == Get(b, k)
    ensures a == b
  {
    assert forall k :: k in a <==> Get(a, k).Some?;
    assert forall k :: k in b <==> Get(b, k).Some?;
    assert forall k :: k in a ==> Get(a, k).value == a[k] && Get(b, k).value == b[k];
  }

  // ---- A diff, merged, is the edited configuration ------------------------

  /** Forgets null settings and empty raw parameters, which mean the same as absent ones. */
  function Trim(v: Json): Json {
    if v.Obj? then
      Obj(map k | k in v.fields && v.fields[k] != Null && !(k == EXTRA_KEY && v.fields[k] == Obj(map[]))
            :: if k == EXTRA_KEY then v.fields[k] else Trim(v.fields[k]))
    else v
  }

  function TrimEntry(v: Option<Json>, k: string): Option<Json> {
    if v.None? || v.value == Null then None
    else if k != EXTRA_KEY then Some(Trim(v.value))
    else if v.value == Obj(map[]) then None
    else v
  }

  lemma {:induction false} TrimGet(m: Fields, k: string)
    ensures Get(Trim(Obj(m)).fields, k) == TrimEntry(Get(m, k), k)
  {
  }

  lemma {:induction false} IsExtraKey(path: Keys, k: string)
    ensures IsExtra(path + [k]) ==> k == EXTRA_KEY
  {
  }

  lemma {:induction false} TrimSame(a: Fields, b: Fields)
    ensures Trim(Obj(a)) == Trim(Obj(b)) <==> forall k :: SameEntry(a, b, k)
  {
    forall k ensures SameEntry(a, b, k) <==> Get(Trim(Obj(a)).fields, k) == Get(Trim(Obj(b)).fields, k) {
      TrimGet(a, k);
      TrimGet(b, k);
    }
    if forall k :: SameEntry(a, b, k) {
      SameFields(Trim(Obj(a)).fields, Trim(Obj(b)).fields);
    }
  }

  ghost predicate SameEntry(a: Fields, b: Fields, k: string) {
    TrimEntry(Get(a, k), k) == TrimEntry(Get(b, k), k)
  }

  lemma {:induction false} MergeNull(base: Json, patch: Json, path: Keys)
    requires patch != Null
    ensures Merge(base, patch, path) != Null
  {
  }

  /** Merging `v` over `base` leaves exactly `v`: it holds no null, has every key of what it
      covers, and so on below, except that raw parameters and scalars just replace. */
  ghost predicate Overwrites(base: Json, v: Json, path: Keys)
    decreases v
  {
    IsExtra(path) || !v.Obj?
    || (&& Below(base).Keys <= v.fields.Keys
        && forall k :: k in v.fields ==>
             v.fields[k] != Null && Overwrites(OrNull(Get(Below(base), k)), v.fields[k], path + [k]))
  }

  lemma {:induction false} OverwritesIff(base: Json, v: Json, path: Keys)
    ensures Overwrites(base, v, path) <==> Merge(base, v, path) == v
    decreases v
  {
    if !IsExtra(path) && v.Obj? {
      var merged := Merge(base, v, path).fields;
      forall k ensures Get(merged, k) == MergeEntry(Get(Below(base), k), Get(v.fields, k), path + [k]) {
        MergeGet(base, v.fields, path, k);
      }
      forall k | k in v.fields
        ensures var was := OrNull(Get(Below(base), k));
          Overwrites(was, v.fields[k], path + [k]) <==> Merge(was, v.fields[k], path + [k]) == v.fields[k]
      {
        OverwritesIff(OrNull(Get(Below(base), k)), v.fields[k], path + [k]);
      }
      if Overwrites(base, v, path) {
        forall k ensures Get(merged, k) == Get(v.fields, k) {}
        SameFields(merged, v.fields);
      }
      if merged == v.fields {
        forall k | k in Below(base) ensures k in v.fields { assert Get(merged, k) == Get(v.fields, k); }
        forall k | k in v.fields
          ensures v.fields[k] != Null && Overwrites(OrNull(Get(Below(base), k)), v.fields[k], path + [k])
        {
          assert Get(merged, k) == Get(v.fields, k);
        }
      }
    }
  }

  /** What the diff holds at one key. */
  lemma {:induction false} DiffGet(before: Fields, after: Fields, same: (Json, Json) -> bool, k: string)
    requires Sound(same)
    ensures var d := Get(Diff(before, after, same), k);
      if d.None? then Get(before, k) == Get(after, k)
      else if k !in after then d == Some(if k == EXTRA_KEY then Obj(map[]) else Null)
      else if k != EXTRA_KEY && k in before && before[k].Obj? && after[k].Obj?
        then d == Some(Obj(Diff(before[k].fields, after[k].fields, same)))
      else d == Some(after[k])
  {
  }

  lemma {:induction false} DiffFresh(after: Fields, same: (Json, Json) -> bool)
    ensures Diff(map[], after, same) == after
  {
  }

  /** The diff says something about `k`. */
  ghost predicate Sent(before: Fields, after: Fields, same: (Json, Json) -> bool, k: string) {
    (k in before || k in after) && !(k in before && k in after && same(before[k], after[k]))
  }

  /** Every raw value that the diff sends, which is sent whole, overwrites what the server has:
      always so where the server takes it as raw, else only key by key. */
  ghost predicate Survives(before: Fields, after: Fields, same: (Json, Json) -> bool, path: Keys)
    decreases Obj(after)
  {
    forall k :: Sent(before, after, same, k) ==>
      if k == EXTRA_KEY
      then Overwrites(OrNull(Get(before, k)), if k in after then after[k] else Obj(map[]), path + [k])
      else k in after && after[k].Obj? ==>
             assert after[k] < Obj(after);
             Survives(Below(OrNull(Get(before, k))), after[k].fields, same, path + [k])
  }

  lemma {:induction false} RawEntry(before: Fields, after: Fields, same: (Json, Json) -> bool, path: Keys)
    requires Sound(same) && !IsExtra(path) && Sent(before, after, same, EXTRA_KEY)
    ensures var merged := Merge(Obj(before), Obj(Diff(before, after, same)), path).fields;
      var value := if EXTRA_KEY in after then after[EXTRA_KEY] else Obj(map[]);
      SameEntry(merged, after, EXTRA_KEY) <==> Overwrites(OrNull(Get(before, EXTRA_KEY)), value, path + [EXTRA_KEY])
  {
    var patch, k := Diff(before, after, same), EXTRA_KEY;
    MergeGet(Obj(before), patch, path, k);
    DiffGet(before, after, same, k);
    var value := if k in after then after[k] else Obj(map[]);
    OverwritesIff(OrNull(Get(before, k)), value, path + [k]);
    if value != Null { MergeNull(OrNull(Get(before, k)), value, path + [k]); }
  }

  /** At any other key nothing is lost but what is lost below it. */
  lemma {:induction false} TypedEntry(before: Fields, after: Fields, same: (Json, Json) -> bool, path: Keys, k: string)
    requires Sound(same) && !IsExtra(path) && Sent(before, after, same, k) && k != EXTRA_KEY
    ensures var merged := Merge(Obj(before), Obj(Diff(before, after, same)), path).fields;
      if k !in after || !after[k].Obj? then SameEntry(merged, after, k)
      else
        var below := Below(OrNull(Get(before, k)));
        SameEntry(merged, after, k) <==>
        Trim(Merge(Obj(below), Obj(Diff(below, after[k].fields, same)), path + [k])) == Trim(after[k])
  {
    var patch := Diff(before, after, same);
    MergeGet(Obj(before), patch, path, k);
    DiffGet(before, after, same, k);
    IsExtraKey(path, k);
    if k in after && after[k].Obj? {
      MergeNull(OrNull(Get(before, k)), patch[k], path + [k]);
      DiffFresh(after[k].fields, same);
    }
  }

  /** For all configurations: merging the diff yields the edited one, up to nulls and empty
      raw parameters, exactly when every raw value sent overwrites what is there. */
  lemma {:induction false} DiffMergesIff(before: Fields, after: Fields, same: (Json, Json) -> bool, path: Keys)
    requires Sound(same) && !IsExtra(path)
    ensures Trim(Merge(Obj(before), Obj(Diff(before, after, same)), path)) == Trim(Obj(after))
            <==> Survives(before, after, same, path)
    decreases Obj(after)
  {
    var merged := Merge(Obj(before), Obj(Diff(before, after, same)), path).fields;
    TrimSame(merged, after);
    forall k ensures SameEntry(merged, after, k) <==> SurvivesAt(before, after, same, path, k) {
      if !Sent(before, after, same, k) {
        MergeGet(Obj(before), Diff(before, after, same), path, k);
        DiffGet(before, after, same, k);
      } else if k == EXTRA_KEY {
        RawEntry(before, after, same, path);
      } else {
        TypedEntry(before, after, same, path, k);
        if k in after && after[k].Obj? {
          IsExtraKey(path, k);
          DiffMergesIff(Below(OrNull(Get(before, k))), after[k].fields, same, path + [k]);
        }
      }
    }
    SurvivesByKey(before, after, same, path);
  }

  /** `Survives`, at one key. */
  ghost predicate SurvivesAt(before: Fields, after: Fields, same: (Json, Json) -> bool, path: Keys, k: string) {
    Sent(before, after, same, k) ==>
      if k == EXTRA_KEY
      then Overwrites(OrNull(Get(before, k)), if k in after then after[k] else Obj(map[]), path + [k])
      else k in after && after[k].Obj? ==> Survives(Below(OrNull(Get(before, k))), after[k].fields, same, path + [k])
  }

  lemma {:induction false} SurvivesByKey(before: Fields, after: Fields, same: (Json, Json) -> bool, path: Keys)
    ensures Survives(before, after, same, path) <==> forall k :: SurvivesAt(before, after, same, path, k)
  {
    if Survives(before, after, same, path) {
      forall k ensures SurvivesAt(before, after, same, path, k) {}
    } else {
      var k :| Sent(before, after, same, k)
               && !(if k == EXTRA_KEY
                    then Overwrites(OrNull(Get(before, k)), if k in after then after[k] else Obj(map[]), path + [k])
                    else k in after && after[k].Obj? ==>
                           Survives(Below(OrNull(Get(before, k))), after[k].fields, same, path + [k]));
      assert !SurvivesAt(before, after, same, path, k);
    }
  }

  /** The client's raw key occurs only where the server takes it as raw. */
  ghost predicate Placed(m: Fields, path: Keys)
    decreases Obj(m)
  {
    && (EXTRA_KEY in m ==> IsExtra(path + [EXTRA_KEY]))
    && forall k :: k in m && k != EXTRA_KEY && m[k].Obj? ==>
         assert m[k] < Obj(m); Placed(m[k].fields, path + [k])
  }

  /** Then nothing is ever lost. */
  lemma {:induction false} PlacedSurvives(before: Fields, after: Fields, same: (Json, Json) -> bool, path: Keys)
    requires Placed(before, path) && Placed(after, path)
    ensures Survives(before, after, same, path)
    decreases Obj(after)
  {
    forall k | k in after && k != EXTRA_KEY && after[k].Obj?
      ensures Survives(Below(OrNull(Get(before, k))), after[k].fields, same, path + [k])
    {
      PlacedSurvives(Below(OrNull(Get(before, k))), after[k].fields, same, path + [k]);
    }
  }

  /** Where the raw key is not raw for the server, deleting a non-empty value is lost:
      the client sends an empty object, which merges into what is there. */
  lemma {:induction false} MisplacedDeletionIsLost(
    before: Fields, after: Fields, same: (Json, Json) -> bool, path: Keys)
    requires Sound(same) && !IsExtra(path) && !IsExtra(path + [EXTRA_KEY])
    requires EXTRA_KEY in before && EXTRA_KEY !in after && before[EXTRA_KEY].Obj? && before[EXTRA_KEY] != Obj(map[])
    ensures Trim(Merge(Obj(before), Obj(Diff(before, after, same)), path)) != Trim(Obj(after))
  {
    DiffMergesIff(before, after, same, path);
    assert Sent(before, after, same, EXTRA_KEY);
  }

  /** So is dropping one of its keys: in a model group named like the raw key, the old
      setting comes back. */
  lemma {:induction false} MisplacedEditIsLost(same: (Json, Json) -> bool)
    requires Sound(same)
    ensures var before := map[EXTRA_KEY := Obj(map["a" := Bool(true)])];
      var after := map[EXTRA_KEY := Obj(map["b" := Bool(true)])];
      Trim(Merge(Obj(before), Obj(Diff(before, after, same)), ["models"])) != Trim(Obj(after))
  {
    var before := map[EXTRA_KEY := Obj(map["a" := Bool(true)])];
    var after := map[EXTRA_KEY := Obj(map["b" := Bool(true)])];
    DiffMergesIff(before, after, same, ["models"]);
    assert "a" in Below(before[EXTRA_KEY]) && "a" !in after[EXTRA_KEY].fields;
    assert Sent(before, after, same, EXTRA_KEY);
  }

  // ---- Combined patches ---------------------------------------------------

  /** Whatever `p` does, `q` does over, so that merging `q` alone is merging both. */
  ghost predicate Masks(p: Fields, q: Fields, path: Keys)
    decreases Obj(q)
  {
    forall k :: k in p ==>
      && k in q
      && (q[k].Obj? && !IsExtra(path + [k]) ==>
            assert q[k] < Obj(q); p[k].Obj? && Masks(p[k].fields, q[k].fields, path + [k]))
  }

  /** `q` places an object only where `p` leaves the value alone or merges an object, and a
      misplaced raw object only where it masks the one of `p`. */
  ghost predicate Compatible(p: Fields, q: Fields, path: Keys)
    decreases Obj(q)
  {
    forall k :: k in q && k in p && q[k].Obj? && !IsExtra(path + [k]) ==>
      assert q[k] < Obj(q);
      && p[k].Obj?
      && if k == EXTRA_KEY then Masks(p[k].fields, q[k].fields, path + [k])
         else Compatible(p[k].fields, q[k].fields, path + [k])
  }

  lemma {:induction false} CombineGet(p: Fields, q: Fields, k: string)
    ensures Get(Combine(p, q), k) ==
      if k !in q then Get(p, k)
      else if k != EXTRA_KEY && k in p && p[k].Obj? && q[k].Obj? then Some(Obj(Combine(p[k].fields, q[k].fields)))
      else Some(q[k])
  {
  }

  lemma {:induction false} MasksMerge(base: Json, p: Fields, q: Fields, path: Keys)
    requires !IsExtra(path) && Masks(p, q, path)
    ensures Merge(base, Obj(q), path) == Merge(Merge(base, Obj(p), path), Obj(q), path)
    decreases Obj(q)
  {
    var mid := Merge(base, Obj(p), path);
    var once, twice := Merge(base, Obj(q), path).fields, Merge(mid, Obj(q), path).fields;
    forall k ensures Get(once, k) == Get(twice, k) {
      MergeGet(base, q, path, k);
      MergeGet(base, p, path, k);
      MergeGet(mid, q, path, k);
      if k in p && q[k].Obj? && !IsExtra(path + [k]) {
        MasksMerge(OrNull(Get(Below(base), k)), p[k].fields, q[k].fields, path + [k]);
      }
    }
    SameFields(once, twice);
  }

  lemma {:induction false} CombineMerges(base: Json, p: Fields, q: Fields, path: Keys)
    requires !IsExtra(path) && Compatible(p, q, path)
    ensures Merge(base, Obj(Combine(p, q)), path) == Merge(Merge(base, Obj(p), path), Obj(q), path)
    decreases Obj(q)
  {
    var mid := Merge(base, Obj(p), path);
    var once, twice := Merge(base, Obj(Combine(p, q)), path).fields, Merge(mid, Obj(q), path).fields;
    forall k ensures Get(once, k) == Get(twice, k) {
      MergeGet(base, Combine(p, q), path, k);
      MergeGet(base, p, path, k);
      MergeGet(mid, q, path, k);
      CombineGet(p, q, k);
      IsExtraKey(path, k);
      if k in q && k in p && q[k].Obj? && !IsExtra(path + [k]) {
        if k == EXTRA_KEY {
          MasksMerge(OrNull(Get(Below(base), k)), p[k].fields, q[k].fields, path + [k]);
        } else {
          CombineMerges(OrNull(Get(Below(base), k)), p[k].fields, q[k].fields, path + [k]);
        }
      }
    }
    SameFields(once, twice);
  }

  lemma {:induction false} FreshKey(s: set<string>) returns (z: string)
    ensures z !in s
  {
    z := "";
    var rest := s;
    while rest != {}
      invariant rest <= s
      invariant forall x :: x in s - rest ==> |x| < |z|
    {
      var x :| x in rest;
      if |z| <= |x| { z := x + "x"; }
      rest := rest - {x};
    }
    assert s - rest == s;
  }

  /** An object over a scalar or a deletion: what was there before shows in one merge only. */
  lemma {:induction false} ScalarShows(v: Json, q: Fields, path: Keys) returns (base: Json)
    requires !IsExtra(path) && !v.Obj?
    ensures Merge(base, Obj(q), path) != Merge(v, Obj(q), path)
    ensures base.Obj?
  {
    var z := FreshKey(q.Keys);
    base := Obj(map[z := Bool(true)]);
    MergeGet(base, q, path, z);
    MergeGet(v, q, path, z);
  }

  /** Two merges that differ below `k` differ. */
  lemma {:induction false} DifferBelow(base: Json, p: Fields, q: Fields, r: Fields, path: Keys, k: string)
    requires !IsExtra(path)
    requires MergeEntry(Get(Below(base), k), Get(r, k), path + [k])
          != MergeEntry(MergeEntry(Get(Below(base), k), Get(p, k), path + [k]), Get(q, k), path + [k])
    ensures Merge(base, Obj(r), path) != Merge(Merge(base, Obj(p), path), Obj(q), path)
  {
    MergeGet(base, r, path, k);
    MergeGet(base, p, path, k);
    MergeGet(Merge(base, Obj(p), path), q, path, k);
  }

  /** What `q` does not mask shows, on some configuration. */
  lemma {:induction false} UnmaskedShows(p: Fields, q: Fields, path: Keys) returns (base: Json)
    requires !IsExtra(path) && !Masks(p, q, path)
    ensures Merge(base, Obj(q), path) != Merge(Merge(base, Obj(p), path), Obj(q), path)
    decreases Obj(q)
  {
    var k :| k in p && !(k in q && (q[k].Obj? && !IsExtra(path + [k]) ==>
                           assert q[k] < Obj(q); p[k].Obj? && Masks(p[k].fields, q[k].fields, path + [k])));
    if k !in q {
      base := UnsentShows(p[k], path, k);
    } else {
      var inner: Json;
      if p[k].Obj? {
        inner := UnmaskedShows(p[k].fields, q[k].fields, path + [k]);
      } else {
        inner := ScalarShows(p[k], q[k].fields, path + [k]);
      }
      base := Obj(map[k := inner]);
    }
    DifferBelow(base, p, q, q, path, k);
  }

  lemma {:induction false} UnsentShows(v: Json, path: Keys, k: string) returns (base: Json)
    ensures MergeEntry(Get(Below(base), k), Some(v), path + [k]) != Get(Below(base), k)
  {
    if v == Null {
      base := Obj(map[k := Bool(true)]);
    } else {
      base := Obj(map[]);
    }
  }

  /** Incompatible patches do disagree, on some configuration. */
  lemma {:induction false} IncompatibleDiffer(p: Fields, q: Fields, path: Keys) returns (base: Json)
    requires !IsExtra(path) && !Compatible(p, q, path)
    ensures Merge(base, Obj(Combine(p, q)), path) != Merge(Merge(base, Obj(p), path), Obj(q), path)
    decreases Obj(q)
  {
    var k :| k in q && k in p && q[k].Obj? && !IsExtra(path + [k])
             && !(assert q[k] < Obj(q);
                  p[k].Obj? && if k == EXTRA_KEY then Masks(p[k].fields, q[k].fields, path + [k])
                               else Compatible(p[k].fields, q[k].fields, path + [k]));
    var inner: Json;
    if !p[k].Obj? {
      inner := ScalarShows(p[k], q[k].fields, path + [k]);
    } else if k == EXTRA_KEY {
      inner := UnmaskedShows(p[k].fields, q[k].fields, path + [k]);
    } else {
      inner := IncompatibleDiffer(p[k].fields, q[k].fields, path + [k]);
    }
    base := Obj(map[k := inner]);
    CombineGet(p, q, k);
    DifferBelow(base, p, q, Combine(p, q), path, k);
  }

  /** Combining two patches is merging one after the other on every configuration, exactly
      when they are compatible. */
  lemma {:induction false} CombineMergesIff(p: Fields, q: Fields, path: Keys)
    requires !IsExtra(path)
    ensures Compatible(p, q, path) <==>
      forall base :: Merge(base, Obj(Combine(p, q)), path) == Merge(Merge(base, Obj(p), path), Obj(q), path)
  {
    if Compatible(p, q, path) {
      forall base ensures Merge(base, Obj(Combine(p, q)), path) == Merge(Merge(base, Obj(p), path), Obj(q), path) {
        CombineMerges(base, p, q, path);
      }
    } else {
      var base := IncompatibleDiffer(p, q, path);
    }
  }
}
