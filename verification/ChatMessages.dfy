/** The message list of a chat: optimistic placeholders, the server rows that replace
    them, and what every run of sends, loads and events keeps.  Sorting is taken as any
    permutation, so the list is observed through counts only. */
module ChatMessages {
  import opened Options
  import opened Strings

  datatype Role = User | Agent | System
  datatype Status = Unset | Executing | Completed | Paused | Failed

  datatype Msg = Msg(id: string, role: Role, content: Option<string>, status: Status)

  const OPTIMISTIC_PREFIX := "__user_"

  predicate IsPlaceholderId(id: string) { StartsWith(id, OPTIMISTIC_PREFIX) }

  predicate IsPlaceholder(m: Msg) { IsPlaceholderId(m.id) }

  /** `content ?? ""`. */
  function Key(m: Msg): string { if m.content.Some? then m.content.value else "" }

  // ---- Counting -----------------------------------------------------------

  function One(b: bool): nat { if b then 1 else 0 }

  function Count(p: Msg -> bool, s: seq<Msg>): nat {
    if s == [] then 0 else Count(p, s[..|s| - 1]) + One(p(s[|s| - 1]))
  }

  function HasId(id: string): Msg -> bool { (m: Msg) => m.id == id }
  function PlaceholderOf(key: string): Msg -> bool { (m: Msg) => IsPlaceholder(m) && Key(m) == key }
  function UserRowOf(key: string): Msg -> bool { (m: Msg) => m.role == User && Key(m) == key }

  lemma {:induction false} CountConcat(p: Msg -> bool, s: seq<Msg>, t: seq<Msg>)
    ensures Count(p, s + t) == Count(p, s) + Count(p, t)
  {
    if t == [] {
      assert s + t == s;
    } else {
      var n := |t| - 1;
      assert (s + t)[..|s + t| - 1] == s + t[..n];
      CountConcat(p, s, t[..n]);
    }
  }

  lemma {:induction false} CountSplit(p: Msg -> bool, s: seq<Msg>, i: nat)
    requires i < |s|
    ensures Count(p, s) == Count(p, s[..i]) + One(p(s[i])) + Count(p, s[i + 1..])
  {
    assert s == s[..i] + [s[i]] + s[i + 1..];
    CountConcat(p, s[..i] + [s[i]], s[i + 1..]);
    CountConcat(p, s[..i], [s[i]]);
    assert [s[i]][..0] == [];
  }

  lemma {:induction false} CountUpdate(p: Msg -> bool, s: seq<Msg>, i: nat, m: Msg)
    requires i < |s|
    ensures Count(p, s[i := m]) == Count(p, s) - One(p(s[i])) + One(p(m))
  {
    CountSplit(p, s, i);
    CountSplit(p, s[i := m], i);
    assert s[i := m][..i] == s[..i] && s[i := m][i + 1..] == s[i + 1..];
  }

  lemma {:induction false} CountZero(p: Msg -> bool, s: seq<Msg>)
    ensures Count(p, s) == 0 <==> forall i :: 0 <= i < |s| ==> !p(s[i])
  {
    if s != [] { CountZero(p, s[..|s| - 1]); }
  }

  lemma {:induction false} MultisetCancel(a: multiset<Msg>, b: multiset<Msg>, x: Msg)
    requires a + multiset{x} == b + multiset{x}
    ensures a == b
  {
    assert a == (a + multiset{x}) - multiset{x};
    assert b == (b + multiset{x}) - multiset{x};
  }

  /** Counts do not see the order. */
  lemma {:induction false} CountPermutation(p: Msg -> bool, s: seq<Msg>, t: seq<Msg>)
    requires multiset(s) == multiset(t)
    ensures Count(p, s) == Count(p, t)
    decreases |s|
  {
    if s == [] {
      assert |multiset(t)| == 0;
    } else {
      var n := |s| - 1;
      assert s == s[..n] + [s[n]];
      assert s[n] in multiset(t);
      var j :| 0 <= j < |t| && t[j] == s[n];
      assert t == t[..j] + [t[j]] + t[j + 1..];
      var rest := t[..j] + t[j + 1..];
      assert multiset(s) == multiset(s[..n]) + multiset{s[n]};
      assert multiset(t) == multiset(rest) + multiset{t[j]};
      MultisetCancel(multiset(s[..n]), multiset(rest), s[n]);
      CountPermutation(p, s[..n], rest);
      CountSplit(p, t, j);
      CountConcat(p, t[..j], t[j + 1..]);
    }
  }

  // ---- Claiming placeholders ----------------------------------------------

  predicate Free(msgs: seq<Msg>, taken: set<nat>, key: string, p: nat) {
    p < |msgs| && p !in taken && IsPlaceholder(msgs[p]) && Key(msgs[p]) == key
  }

  /** The first free placeholder with this text, from position `i` on. */
  function FirstFree(msgs: seq<Msg>, taken: set<nat>, key: string, i: nat): (r: Option<nat>)
    requires i <= |msgs|
    ensures r.Some? ==> i <= r.value && Free(msgs, taken, key, r.value)
    ensures r.None? ==> forall p :: i <= p ==> !Free(msgs, taken, key, p)
    ensures r.Some? ==> forall p :: i <= p < r.value ==> !Free(msgs, taken, key, p)
    decreases |msgs| - i
  {
    if i == |msgs| then None
    else if Free(msgs, taken, key, i) then Some(i)
    else FirstFree(msgs, taken, key, i + 1)
  }

  /** Which placeholder position each row claims: every user row takes the first free
      placeholder with its text, if there is one. */
  function Claims(rows: seq<Msg>, msgs: seq<Msg>): (r: map<nat, nat>)
    ensures forall p :: p in r ==> p < |msgs| && IsPlaceholder(msgs[p])
    ensures forall p :: p in r ==> r[p] < |rows| && rows[r[p]].role == User && Key(rows[r[p]]) == Key(msgs[p])
  {
    if rows == [] then map[]
    else
      var n := |rows| - 1;
      var before := Claims(rows[..n], msgs);
      var free := FirstFree(msgs, before.Keys, Key(rows[n]), 0);
      if rows[n].role == User && free.Some? then before[free.value := n] else before
  }

  /** No two placeholders go to one row. */
  lemma {:induction false} ClaimsOneToOne(rows: seq<Msg>, msgs: seq<Msg>, p: nat, q: nat)
    requires p in Claims(rows, msgs) && q in Claims(rows, msgs) && Claims(rows, msgs)[p] == Claims(rows, msgs)[q]
    ensures p == q
  {
    var n := |rows| - 1;
    var before := Claims(rows[..n], msgs);
    if p in before && q in before && before[p] == before[q] { ClaimsOneToOne(rows[..n], msgs, p, q); }
  }

  /** The messages at unclaimed positions. */
  function Drop(msgs: seq<Msg>, claimed: set<nat>): seq<Msg> {
    if msgs == [] then []
    else
      var n := |msgs| - 1;
      Drop(msgs[..n], claimed) + if n in claimed then [] else [msgs[n]]
  }

  function CountAt(p: Msg -> bool, msgs: seq<Msg>, claimed: set<nat>): nat {
    if msgs == [] then 0
    else
      var n := |msgs| - 1;
      CountAt(p, msgs[..n], claimed) + One(n in claimed && p(msgs[n]))
  }

  lemma {:induction false} DropCount(p: Msg -> bool, msgs: seq<Msg>, claimed: set<nat>)
    ensures Count(p, Drop(msgs, claimed)) + CountAt(p, msgs, claimed) == Count(p, msgs)
  {
    if msgs != [] {
      var n := |msgs| - 1;
      DropCount(p, msgs[..n], claimed);
      CountConcat(p, Drop(msgs[..n], claimed), if n in claimed then [] else [msgs[n]]);
      assert [msgs[n]][..0] == [];
    }
  }

  lemma {:induction false} CountAtAdd(p: Msg -> bool, msgs: seq<Msg>, claimed: set<nat>, i: nat)
    requires i !in claimed
    ensures CountAt(p, msgs, claimed + {i}) == CountAt(p, msgs, claimed) + One(i < |msgs| && p(msgs[i]))
  {
    if msgs != [] { CountAtAdd(p, msgs[..|msgs| - 1], claimed, i); }
  }

  lemma {:induction false} CountAtAll(p: Msg -> bool, msgs: seq<Msg>, claimed: set<nat>)
    requires forall i :: 0 <= i < |msgs| && p(msgs[i]) ==> i in claimed
    ensures CountAt(p, msgs, claimed) == Count(p, msgs)
  {
    if msgs != [] { CountAtAll(p, msgs[..|msgs| - 1], claimed); }
  }

  lemma {:induction false} CountAtNone(p: Msg -> bool, msgs: seq<Msg>, claimed: set<nat>)
    requires forall i :: 0 <= i < |msgs| && i in claimed ==> !p(msgs[i])
    ensures CountAt(p, msgs, claimed) == 0
  {
    if msgs != [] { CountAtNone(p, msgs[..|msgs| - 1], claimed); }
  }

  function Min(a: nat, b: nat): nat { if a <= b then a else b }

  /** For every text, exactly as many placeholders are claimed as there are both
      placeholders and rows with it. */
  lemma {:induction false} ClaimsExact(rows: seq<Msg>, msgs: seq<Msg>, key: string)
    ensures CountAt(PlaceholderOf(key), msgs, Claims(rows, msgs).Keys)
         == Min(Count(PlaceholderOf(key), msgs), Count(UserRowOf(key), rows))
  {
    var p := PlaceholderOf(key);
    if rows == [] {
      assert Claims(rows, msgs).Keys == {};
      CountAtNone(p, msgs, {});
    } else {
      var n := |rows| - 1;
      var row, before := rows[n], Claims(rows[..n], msgs);
      ClaimsExact(rows[..n], msgs, key);
      var free := FirstFree(msgs, before.Keys, Key(row), 0);
      if row.role == User {
        if free.Some? {
          assert Claims(rows, msgs).Keys == before.Keys + {free.value};
          CountAtAdd(p, msgs, before.Keys, free.value);
          DropCount(p, msgs, before.Keys + {free.value});
        } else if Key(row) == key {
          forall i | 0 <= i < |msgs| && p(msgs[i]) ensures i in before.Keys {
            assert !Free(msgs, before.Keys, key, i);
          }
          CountAtAll(p, msgs, before.Keys);
        }
      }
    }
  }

  // ---- Merging a fetched history ------------------------------------------

  predicate Known(msgs: seq<Msg>, id: string) { exists i :: 0 <= i < |msgs| && msgs[i].id == id }

  /** Rows whose id the store does not hold yet. */
  function Unknown(batch: seq<Msg>, msgs: seq<Msg>): (r: seq<Msg>)
    ensures forall i :: 0 <= i < |r| ==> r[i] in batch && !Known(msgs, r[i].id)
  {
    if batch == [] then []
    else
      var n := |batch| - 1;
      Unknown(batch[..n], msgs) + if Known(msgs, batch[n].id) then [] else [batch[n]]
  }

  /** The store after a history fetch, before sorting. */
  function MergeHistory(batch: seq<Msg>, msgs: seq<Msg>): seq<Msg> {
    if msgs == [] then batch
    else
      var historical := Unknown(batch, msgs);
      historical + Drop(msgs, Claims(historical, msgs).Keys)
  }

  /** Server rows never carry a placeholder id. */
  ghost predicate FromServer(batch: seq<Msg>) { forall i :: 0 <= i < |batch| ==> !IsPlaceholder(batch[i]) }

  lemma {:induction false} UnknownFromServer(batch: seq<Msg>, msgs: seq<Msg>)
    requires FromServer(batch)
    ensures FromServer(Unknown(batch, msgs))
  {
  }

  /** A property that no placeholder has is untouched by claiming. */
  lemma {:induction false} KeepsOthers(p: Msg -> bool, batch: seq<Msg>, msgs: seq<Msg>)
    requires msgs != [] && forall m :: p(m) ==> !IsPlaceholder(m)
    ensures Count(p, MergeHistory(batch, msgs)) == Count(p, Unknown(batch, msgs)) + Count(p, msgs)
  {
    var historical := Unknown(batch, msgs);
    var claimed := Claims(historical, msgs).Keys;
    CountConcat(p, historical, Drop(msgs, claimed));
    DropCount(p, msgs, claimed);
    CountAtNone(p, msgs, claimed);
  }

  /** After merging into a non-empty store: for every text, exactly the smaller of the
      number of placeholders and of new user rows with it has gone; and every message that
      is no placeholder occurs as often as in the store and the new rows together. */
  lemma {:induction false} MergeConserves(batch: seq<Msg>, msgs: seq<Msg>, key: string, m: Msg)
    requires msgs != [] && FromServer(batch)
    ensures var historical := Unknown(batch, msgs);
      Count(PlaceholderOf(key), MergeHistory(batch, msgs))
        == Count(PlaceholderOf(key), msgs) - Min(Count(PlaceholderOf(key), msgs), Count(UserRowOf(key), historical))
    ensures !IsPlaceholder(m) ==>
      Count(x => x == m, MergeHistory(batch, msgs)) ==
          Count(x => x == m, Unknown(batch, msgs)) + Count(x => x == m, msgs)
  {
    var historical := Unknown(batch, msgs);
    var claimed := Claims(historical, msgs).Keys;
    CountConcat(PlaceholderOf(key), historical, Drop(msgs, claimed));
    CountZero(PlaceholderOf(key), historical);
    DropCount(PlaceholderOf(key), msgs, claimed);
    ClaimsExact(historical, msgs, key);
    if !IsPlaceholder(m) { KeepsOthers(x => x == m, batch, msgs); }
  }
}
