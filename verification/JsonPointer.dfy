/** JSON values and the pointers that address them (section 4 of RFC 6901), with the
    client's escaping, reading and removal. */
module JsonPointer {
  import opened Options
  import opened Strings

  datatype Json =
    | Null
    | Bool(b: bool)
    | Num(n: real)
    | Str(s: string)
    | Arr(items: seq<Json>)
    | Obj(fields: map<string, Json>)

  type Fields = map<string, Json>
  type Keys = seq<string>

  // ---- Escaping -----------------------------------------------------------

  function Escape(key: string): string { Replace(Replace(key, "~", "~0"), "/", "~1") }

  function Unescape(token: string): string { Replace(Replace(token, "~1", "/"), "~0", "~") }

  function UnescapeAll(tokens: seq<string>): (ks: Keys)
    ensures |ks| == |tokens| && forall i {:trigger ks[i]} :: 0 <= i < |ks| ==> ks[i] == Unescape(tokens[i])
  {
    seq(|tokens|, i requires 0 <= i < |tokens| => Unescape(tokens[i]))
  }

  /** The keys a pointer steps through; its first character is dropped unread. */
  function ParsePointer(path: string): (ks: Keys)
    ensures ks != []
  {
    UnescapeAll(Split(if path == "" then "" else path[1..], '/'))
  }

  function EscapeChar(c: char): string {
    if c == '~' then "~0" else if c == '/' then "~1" else [c]
  }

  lemma {:induction false} EscapeStep(c: char, key: string)
    ensures Escape([c] + key) == EscapeChar(c) + Escape(key)
  {
    var rest := Replace(key, "~", "~0");
    assert ([c] + key)[..1] == [c] && ([c] + key)[1..] == key;
    if c == '~' {
      LiteralStep('0', rest, "/", "~1");
      LiteralStep('~', "0" + rest, "/", "~1");
      assert "~0" + rest == ['~'] + ("0" + rest);
    } else {
      LiteralStep(c, key, "~", "~0");
      assert ([c] + rest)[..1] == [c] && ([c] + rest)[1..] == rest;
    }
  }

  /** Undoing the slash escapes leaves only the tilde escapes. */
  lemma {:induction false} SlashStep(c: char, rest: string)
    ensures Replace(EscapeChar(c) + rest, "~1", "/")
         == (if c == '~' then "~0" else [c]) + Replace(rest, "~1", "/")
  {
    var t := EscapeChar(c) + rest;
    if c == '~' {
      assert t[..2] == "~0" && t[1..] == "0" + rest;
      LiteralStep('0', rest, "~1", "/");
    } else if c == '/' {
      assert t[..2] == "~1" && t[2..] == rest;
    } else {
      LiteralStep(c, rest, "~1", "/");
    }
  }

  /** A character that cannot start the pattern is copied. */
  lemma {:induction false} LiteralStep(c: char, rest: string, pat: string, rep: string)
    requires pat != "" && c != pat[0]
    ensures Replace([c] + rest, pat, rep) == [c] + Replace(rest, pat, rep)
  {
    var t := [c] + rest;
    assert t[1..] == rest;
    if |pat| <= |t| { assert t[..|pat|][0] == c; }
  }

  lemma {:induction false} TildeStep(c: char, rest: string)
    ensures Replace((if c == '~' then "~0" else [c]) + rest, "~0", "~") == [c] + Replace(rest, "~0", "~")
  {
    if c == '~' {
      assert ("~0" + rest)[..2] == "~0" && ("~0" + rest)[2..] == rest;
    } else {
      LiteralStep(c, rest, "~0", "~");
    }
  }

  /** Unescaping undoes escaping, and an escaped key holds no separator. */
  lemma {:induction false} EscapeRoundTrip(key: string)
    ensures Unescape(Escape(key)) == key && '/' !in Escape(key)
  {
    if key != "" {
      var c, rest := key[0], key[1..];
      assert key == [c] + rest;
      EscapeStep(c, rest);
      EscapeRoundTrip(rest);
      SlashStep(c, Escape(rest));
      TildeStep(c, Replace(Escape(rest), "~1", "/"));
    }
  }

  lemma {:induction false} SplitAppend(s: string, t: string, sep: char)
    requires sep !in t
    ensures Split(s + [sep] + t, sep) == Split(s, sep) + [t]
  {
    if s == "" {
      SplitWhole(t, sep);
      assert ("" + [sep] + t)[1..] == t;
    } else {
      SplitAppend(s[1..], t, sep);
      assert (s + [sep] + t)[1..] == s[1..] + [sep] + t;
    }
  }

  lemma {:induction false} SplitWhole(t: string, sep: char)
    requires sep !in t
    ensures Split(t, sep) == [t]
  {
    if t != "" {
      assert forall c <- t[1..] :: c in t;
      SplitWhole(t[1..], sep);
      assert t == [t[0]] + t[1..];
    }
  }

  /** Extending a pointer by an escaped key extends the keys it parses to. */
  lemma {:induction false} PointerExtend(path: string, key: string)
    requires path != ""
    ensures ParsePointer(path + "/" + Escape(key)) == ParsePointer(path) + [key]
  {
    EscapeRoundTrip(key);
    assert (path + "/" + Escape(key))[1..] == path[1..] + ['/'] + Escape(key);
    SplitAppend(path[1..], Escape(key), '/');
  }

  lemma {:induction false} PointerRoot(key: string)
    ensures ParsePointer("/" + Escape(key)) == [key]
  {
    EscapeRoundTrip(key);
    assert ("/" + Escape(key))[1..] == Escape(key);
    SplitWhole(Escape(key), '/');
  }

  /** Escaping leaves keys without tilde or slash alone. */
  lemma {:induction false} EscapePlain(key: string)
    requires forall i :: 0 <= i < |key| ==> key[i] != '~' && key[i] != '/'
    ensures Escape(key) == key
  {
    if key != "" {
      EscapePlain(key[1..]);
      EscapeStep(key[0], key[1..]);
      assert key == [key[0]] + key[1..];
    }
  }

  // ---- Reading ------------------------------------------------------------

  function Digits(key: string): (n: int)
    ensures -1 <= n
  {
    if key == "" then 0
    else
      var n, c := Digits(key[..|key| - 1]), key[|key| - 1];
      if n < 0 || !('0' <= c <= '9') then -1 else 10 * n + (c as int - '0' as int)
  }

  /** An own property of an array: an index in canonical decimal, or its length. */
  function ArrayProperty(items: seq<Json>, key: string): Option<Json> {
    if key == "length" then Some(Num(|items| as real))
    else if key != "" && (key[0] != '0' || key == "0") && 0 <= Digits(key) < |items| then Some(items[Digits(key)])
    else None
  }

  /** `n` in decimal, without leading zeros. */
  function Decimal(n: nat): (s: string)
    ensures s != "" && (s[0] == '0' ==> s == "0")
  {
    if n < 10 then ["0123456789"[n]] else Decimal(n / 10) + ["0123456789"[n % 10]]
  }

  lemma {:induction false} DecimalDigits(n: nat)
    ensures Digits(Decimal(n)) == n
  {
    if 10 <= n {
      DecimalDigits(n / 10);
      assert Decimal(n)[..|Decimal(n)| - 1] == Decimal(n / 10);
    } else {
      assert Decimal(n)[..0] == "";
    }
  }

  lemma {:induction false} DigitsDecimal(key: string)
    requires key != "" && (key[0] != '0' || key == "0") && 0 <= Digits(key)
    ensures key == Decimal(Digits(key))
  {
    var n := |key| - 1;
    assert key == key[..n] + [key[n]];
    if key[..n] == "" {
      assert key == [key[0]];
    } else {
      DigitsDecimal(key[..n]);
      assert Digits(key[..n]) != 0;
      assert Digits(key) / 10 == Digits(key[..n]);
    }
  }

  /** What an array has: its length, and an element under the decimal of its index. */
  lemma {:induction false} ArrayReads(items: seq<Json>, key: string)
    ensures ArrayProperty(items, "length") == Some(Num(|items| as real))
    ensures forall i :: 0 <= i < |items| ==> ArrayProperty(items, Decimal(i)) == Some(items[i])
    ensures key != "length" && ArrayProperty(items, key).Some? ==> exists i :: 0 <= i < |items| && key == Decimal(i)
  {
    forall i | 0 <= i < |items| ensures ArrayProperty(items, Decimal(i)) == Some(items[i]) {
      DecimalDigits(i);
      assert Digits("length") == -1;
    }
    if key != "length" && ArrayProperty(items, key).Some? { DigitsDecimal(key); }
  }

  function ReadKeys(v: Json, ks: Keys): Option<Json>
    decreases |ks|
  {
    if ks == [] then Some(v)
    else match v
      case Obj(m) => if ks[0] in m then ReadKeys(m[ks[0]], ks[1..]) else None
      case Arr(items) =>
        var item := ArrayProperty(items, ks[0]);
        if item.Some? then ReadKeys(item.value, ks[1..]) else None
      case _ => None
  }

  function ReadPointer(group: Fields, path: string): Option<Json> {
    if StartsWith(path, "/") then ReadKeys(Obj(group), ParsePointer(path)) else None
  }

  /** Reading `ks` from `v` enters an array on the way. */
  predicate ThroughArray(v: Json, ks: Keys)
    decreases |ks|
  {
    ks != [] && (v.Arr? || (v.Obj? && ks[0] in v.fields && ThroughArray(v.fields[ks[0]], ks[1..])))
  }

  /** Every key path that steps through objects only. */
  function Paths(v: Json): set<Keys> {
    if v.Obj? then
      (set k | k in v.fields :: [k]) + (set k, p | k in v.fields && p in Paths(v.fields[k]) :: [k] + p)
    else {}
  }

  lemma {:induction false} ReadIsPath(v: Json, ks: Keys)
    requires ks != [] && ReadKeys(v, ks).Some? && !ThroughArray(v, ks)
    ensures ks in Paths(v)
    decreases |ks|
  {
    if |ks| == 1 {
      assert ks == [ks[0]];
    } else {
      ReadIsPath(v.fields[ks[0]], ks[1..]);
      assert ks == [ks[0]] + ks[1..];
    }
  }

  // ---- Removal ------------------------------------------------------------

  /** `removePointer`: a copy without the addressed key, unless an ancestor is no object. */
  function Remove(m: Fields, ks: Keys): Fields
    requires ks != []
    decreases |ks|
  {
    var key := ks[0];
    if |ks| == 1 then m - {key}
    else if key in m && m[key].Obj? then m[key := Obj(Remove(m[key].fields, ks[1..]))]
    else m
  }

  function Tails(all: set<Keys>, key: string): set<Keys> {
    set ks | ks in all && 1 < |ks| && ks[0] == key :: ks[1..]
  }

  /** All the addressed keys gone at once, in no particular order. */
  function Prune(v: Json, all: set<Keys>): Json {
    if v.Obj? then Obj(map k | k in v.fields && [k] !in all :: Prune(v.fields[k], Tails(all, k))) else v
  }

  lemma {:induction false} PruneNothing(v: Json)
    ensures Prune(v, {}) == v
  {
    if v.Obj? {
      forall k | k in v.fields ensures Prune(v.fields[k], Tails({}, k)) == v.fields[k] {
        assert Tails({}, k) == {};
        PruneNothing(v.fields[k]);
      }
    }
  }

  /** Removing one pointer first and pruning the rest is pruning them all, so any order
      of removals has the same result. */
  lemma {:induction false} PruneAfterRemove(m: Fields, ks: Keys, all: set<Keys>)
    requires ks != []
    ensures Prune(Obj(Remove(m, ks)), all) == Prune(Obj(m), all + {ks})
    decreases |ks|
  {
    var m', both := Remove(m, ks), all + {ks};
    assert |ks| == 1 ==> ks == [ks[0]];
    forall k | k in m && [k] !in both
      ensures k in m' && Prune(m'[k], Tails(all, k)) == Prune(m[k], Tails(both, k))
    {
      if k != ks[0] {
        assert Tails(both, k) == Tails(all, k);
      } else {
        assert Tails(both, k) == Tails(all, k) + {ks[1..]};
        if m[k].Obj? { PruneAfterRemove(m[k].fields, ks[1..], Tails(all, k)); }
      }
    }
    assert forall k :: k in m' && [k] !in all <==> k in m && [k] !in both;
  }

  lemma {:induction false} TailsMember(all: set<Keys>, k: string, t: Keys)
    requires t != []
    ensures t in Tails(all, k) <==> [k] + t in all
  {
    assert ([k] + t)[1..] == t;
    if t in Tails(all, k) {
      var ks :| ks in all && 1 < |ks| && ks[0] == k && ks[1..] == t;
      assert ks == [k] + t;
    }
  }

  /** Some prefix of `p` is addressed. */
  predicate Hit(all: set<Keys>, p: Keys)
    decreases |p|
  {
    p != [] && ([p[0]] in all || Hit(Tails(all, p[0]), p[1..]))
  }

  lemma {:induction false} HitMember(all: set<Keys>, p: Keys)
    requires p in all && p != []
    ensures Hit(all, p)
    decreases |p|
  {
    if |p| == 1 {
      assert p == [p[0]];
    } else {
      TailsMember(all, p[0], p[1..]);
      assert p == [p[0]] + p[1..];
      HitMember(Tails(all, p[0]), p[1..]);
    }
  }

  lemma {:induction false} PathsCons(v: Json, k: string, rest: Keys)
    ensures [k] + rest in Paths(v) <==> v.Obj? && k in v.fields && (rest == [] || rest in Paths(v.fields[k]))
  {
    var p := [k] + rest;
    assert p[0] == k && p[1..] == rest;
    if rest == [] { assert p == [k]; }
  }

  /** A path survives pruning exactly when no prefix of it was addressed. */
  lemma {:induction false} PrunePaths(v: Json, all: set<Keys>, p: Keys)
    requires p != []
    ensures p in Paths(Prune(v, all)) <==> p in Paths(v) && !Hit(all, p)
    decreases |p|
  {
    var k, rest := p[0], p[1..];
    assert p == [k] + rest;
    PathsCons(v, k, rest);
    PathsCons(Prune(v, all), k, rest);
    if rest != [] && v.Obj? && k in v.fields {
      PrunePaths(v.fields[k], Tails(all, k), rest);
    }
  }

  /** `r` is `v` with some keys deleted: whatever survives keeps its value. */
  ghost predicate Within(r: Json, v: Json) {
    r == v || (r.Obj? && v.Obj? && forall k :: k in r.fields ==> k in v.fields && Within(r.fields[k], v.fields[k]))
  }

  lemma {:induction false} PruneWithin(v: Json, all: set<Keys>)
    ensures Within(Prune(v, all), v)
  {
    if v.Obj? {
      forall k | k in v.fields ensures Within(Prune(v.fields[k], Tails(all, k)), v.fields[k]) {
        PruneWithin(v.fields[k], Tails(all, k));
      }
    }
  }

  lemma {:induction false} WithinTransitive(a: Json, b: Json, c: Json)
    requires Within(a, b) && Within(b, c)
    ensures Within(a, c)
  {
    if a != b && b != c {
      forall k | k in a.fields ensures k in c.fields && Within(a.fields[k], c.fields[k]) {
        WithinTransitive(a.fields[k], b.fields[k], c.fields[k]);
      }
    }
  }

  lemma {:induction false} WithinThroughArray(r: Json, v: Json, ks: Keys)
    requires Within(r, v) && ThroughArray(r, ks)
    ensures ThroughArray(v, ks)
    decreases |ks|
  {
    if r != v && r.Obj? { WithinThroughArray(r.fields[ks[0]], v.fields[ks[0]], ks[1..]); }
  }

  lemma {:induction false} WithinPaths(r: Json, v: Json, p: Keys)
    requires Within(r, v) && p in Paths(r)
    ensures p in Paths(v)
    decreases |p|
  {
    if r != v {
      var k, rest := p[0], p[1..];
      assert p == [k] + rest;
      PathsCons(r, k, rest);
      PathsCons(v, k, rest);
      if rest != [] { WithinPaths(r.fields[k], v.fields[k], rest); }
    }
  }

  /** What is no object is either gone or as it was. */
  lemma {:induction false} WithinLeaf(r: Json, v: Json, ks: Keys)
    requires Within(r, v) && ReadKeys(r, ks).Some? && !ReadKeys(r, ks).value.Obj?
    ensures ReadKeys(v, ks) == ReadKeys(r, ks)
    decreases |ks|
  {
    if r != v && ks != [] { WithinLeaf(r.fields[ks[0]], v.fields[ks[0]], ks[1..]); }
  }

  /** What is still read is what was read, with some keys deleted. */
  lemma {:induction false} ReadWithin(r: Json, v: Json, ks: Keys)
    requires Within(r, v) && ReadKeys(r, ks).Some?
    ensures ReadKeys(v, ks).Some? && Within(ReadKeys(r, ks).value, ReadKeys(v, ks).value)
    decreases |ks|
  {
    if r != v && ks != [] { ReadWithin(r.fields[ks[0]], v.fields[ks[0]], ks[1..]); }
  }

  // ---- Arrays on the way --------------------------------------------------

  /** How many keys lead to the array that reading `ks` enters first. */
  function ArrayDepth(v: Json, ks: Keys): (d: nat)
    requires ThroughArray(v, ks)
    ensures d < |ks| && (v.Obj? ==> 0 < d)
    decreases |ks|
  {
    if v.Arr? then 0 else 1 + ArrayDepth(v.fields[ks[0]], ks[1..])
  }

  function ArrayKeys(v: Json, ks: Keys): (at: Keys)
    requires ThroughArray(v, ks)
    ensures v.Obj? ==> at != []
  {
    ks[..ArrayDepth(v, ks)]
  }

  lemma {:induction false} ArrayKeysStep(v: Json, ks: Keys)
    requires ThroughArray(v, ks) && v.Obj?
    ensures ArrayKeys(v, ks) == [ks[0]] + ArrayKeys(v.fields[ks[0]], ks[1..])
  {
  }

  /** It is reached through objects, and is an array. */
  lemma {:induction false} ArrayReached(v: Json, ks: Keys)
    requires ThroughArray(v, ks)
    ensures ReadKeys(v, ArrayKeys(v, ks)).Some? && ReadKeys(v, ArrayKeys(v, ks)).value.Arr?
    ensures v.Obj? ==> ArrayKeys(v, ks) in Paths(v)
    decreases |ks|
  {
    if v.Obj? {
      ArrayKeysStep(v, ks);
      ArrayReached(v.fields[ks[0]], ks[1..]);
      var rest := ArrayKeys(v.fields[ks[0]], ks[1..]);
      assert ([ks[0]] + rest)[1..] == rest;
      PathsCons(v, ks[0], rest);
      if rest != [] { assert v.fields[ks[0]].Obj?; }
    }
  }

  /** Deletions leave an array that is still there, and all that is read in it, as it was. */
  lemma {:induction false} ArraySame(r: Json, v: Json, ks: Keys)
    requires Within(r, v) && ThroughArray(r, ks)
    ensures ThroughArray(v, ks) && ArrayKeys(r, ks) == ArrayKeys(v, ks) && ReadKeys(r, ks) == ReadKeys(v, ks)
    ensures ReadKeys(r, ArrayKeys(v, ks)) == ReadKeys(v, ArrayKeys(v, ks))
    decreases |ks|
  {
    if r != v && r.Obj? {
      var k, rest := ks[0], ks[1..];
      ArraySame(r.fields[k], v.fields[k], rest);
      ArrayKeysStep(r, ks);
      ArrayKeysStep(v, ks);
      var at := ArrayKeys(v.fields[k], rest);
      assert ([k] + at)[1..] == at;
    }
  }

  /** And it is still there when its own path is. */
  lemma {:induction false} ArrayStays(r: Json, v: Json, ks: Keys)
    requires Within(r, v) && ThroughArray(v, ks) && v.Obj? && ArrayKeys(v, ks) in Paths(r)
    ensures ThroughArray(r, ks)
    decreases |ks|
  {
    if r != v {
      var k, rest := ks[0], ks[1..];
      ArrayKeysStep(v, ks);
      var at := ArrayKeys(v.fields[k], rest);
      PathsCons(r, k, at);
      if v.fields[k].Obj? { ArrayStays(r.fields[k], v.fields[k], rest); }
    }
  }

  lemma {:induction false} PrefixHits(all: set<Keys>, p: Keys, n: nat)
    requires 0 < n <= |p| && p[..n] in all
    ensures Hit(all, p)
    decreases |p|
  {
    if n == 1 {
      assert p[..1] == [p[0]];
    } else {
      assert p[..n] == [p[0]] + p[1..][..n - 1];
      TailsMember(all, p[0], p[1..][..n - 1]);
      PrefixHits(Tails(all, p[0]), p[1..], n - 1);
    }
  }

  lemma {:induction false} HitPrefix(all: set<Keys>, p: Keys) returns (n: nat)
    requires Hit(all, p)
    ensures 0 < n <= |p| && p[..n] in all
    decreases |p|
  {
    if [p[0]] in all {
      n := 1;
      assert p[..1] == [p[0]];
    } else {
      var m := HitPrefix(Tails(all, p[0]), p[1..]);
      n := m + 1;
      TailsMember(all, p[0], p[1..][..m]);
      assert p[..n] == [p[0]] + p[1..][..m];
    }
  }

  // ---- Writing pointers ---------------------------------------------------

  /** The pointer to `ks`, every key escaped. */
  function Pointer(ks: Keys): string {
    if ks == [] then "" else Pointer(ks[..|ks| - 1]) + "/" + Escape(ks[|ks| - 1])
  }

  lemma {:induction false} PointerSnoc(ks: Keys, k: string)
    ensures Pointer(ks + [k]) == Pointer(ks) + "/" + Escape(k)
  {
    assert (ks + [k])[..|ks|] == ks;
  }

  lemma {:induction false} PointerParses(ks: Keys)
    requires ks != []
    ensures Pointer(ks) != "" && Pointer(ks)[0] == '/' && ParsePointer(Pointer(ks)) == ks
  {
    var init, k := ks[..|ks| - 1], ks[|ks| - 1];
    assert ks == init + [k];
    if init == [] {
      assert Pointer(init) == "" && "" + "/" + Escape(k) == "/" + Escape(k);
      PointerRoot(k);
    } else {
      PointerParses(init);
      PointerExtend(Pointer(init), k);
    }
  }
}
