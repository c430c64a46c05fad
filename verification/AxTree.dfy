/** Numbering the interactive nodes of an accessibility tree in one stateful walk, and the
    identity (role, name, nth) by which a stale reference is found again. */
module AxTree {
  import opened Options
  import opened Alignment

  /** A node as the browser reports it; a child id may name no node. */
  datatype AxNode = AxNode(
    role: Option<string>,
    name: Option<string>,
    ignored: bool,
    backend: Option<int>,
    children: seq<AxChild>)   // empty when the browser lists none
  datatype AxChild = Dangling | Linked(node: AxNode)

  datatype AriaNode = AriaNode(role: string, name: string, index: Option<nat>, children: seq<AriaChild>)
  datatype AriaChild = Text(text: string) | Child(node: AriaNode)

  datatype AxRef = AxRef(backend: int, role: string, name: string, nth: nat)

  type Key = (string, string)

  const INTERACTIVE: seq<string> := [
    "button", "link", "textbox", "combobox", "searchbox", "checkbox", "radio", "switch", "slider", "spinbutton",
    "menuitem", "menuitemcheckbox", "menuitemradio", "tab", "option", "treeitem"
  ]

  /** `role` is among `roles`. */
  predicate OneOf(role: string, roles: seq<string>) {
    roles != [] && (role == roles[0] || OneOf(role, roles[1..]))
  }

  predicate Blank(s: string) { forall i :: 0 <= i < |s| ==> IsWhitespace(s[i]) }

  function RoleOr(n: AxNode, default: string): string { if n.role.Some? then n.role.value else default }
  function NameOf(n: AxNode): string { if n.name.Some? then n.name.value else "" }

  /** Neither the node nor anything below it is shown. */
  predicate Skipped(n: AxNode) {
    var role := RoleOr(n, "generic");
    (n.ignored && role == "") || role == "InlineTextBox" || (role == "StaticText" && Blank(NameOf(n)))
  }

  predicate Indexed(n: AxNode) { OneOf(RoleOr(n, "generic"), INTERACTIVE) && n.backend.Some? }

  /** A child shown as its text alone. */
  predicate Inlined(n: AxNode) { RoleOr(n, "") in {"StaticText", "InlineTextBox"} && !Blank(NameOf(n)) }

  // ---- The reference: preorder --------------------------------------------

  datatype Seen = Seen(backend: int, role: string, name: string)

  /** What a node itself contributes. */
  function Own(n: AxNode): seq<Seen> {
    if Indexed(n) then [Seen(n.backend.value, RoleOr(n, "generic"), NameOf(n))] else []
  }

  /** The indexed nodes below and including `n`, in preorder. */
  function Preorder(n: AxNode): seq<Seen>
    decreases n, 2
  {
    if Skipped(n) then [] else Own(n) + PreorderAll(n.children)
  }

  function PreorderChild(c: AxChild): seq<Seen>
    decreases c, 1
  {
    if c.Linked? && !Inlined(c.node) then Preorder(c.node) else []
  }

  function PreorderAll(cs: seq<AxChild>): seq<Seen>
    decreases cs, 0
  {
    if cs == [] then [] else PreorderChild(cs[0]) + PreorderAll(cs[1..])
  }

  /** How many of `seen` have this role and name. */
  function Count(seen: seq<Seen>, key: Key): nat {
    if seen == [] then 0
    else
      var last := seen[|seen| - 1];
      Count(seen[..|seen| - 1], key) + if (last.role, last.name) == key then 1 else 0
  }

  /** The references for `seen`: `nth` counts earlier ones with the same role and name. */
  function Refs(seen: seq<Seen>): (refs: seq<AxRef>)
    ensures |refs| == |seen|
  {
    if seen == [] then []
    else
      var init, s := seen[..|seen| - 1], seen[|seen| - 1];
      Refs(init) + [AxRef(s.backend, s.role, s.name, Count(init, (s.role, s.name)))]
  }

  /** A numbered node as the converted tree shows it. */
  datatype Numbered = Numbered(index: nat, role: string, name: string)

  /** The numbered nodes of a converted tree, in preorder. */
  function Shown(n: AriaNode): seq<Numbered>
    decreases n, 1
  {
    (if n.index.Some? then [Numbered(n.index.value, n.role, n.name)] else []) + ShownAll(n.children)
  }

  function ShownAll(cs: seq<AriaChild>): seq<Numbered>
    decreases cs, 0
  {
    if cs == [] then []
    else
      ShownAll(cs[..|cs| - 1])
      + match cs[|cs| - 1] case Text(_) => [] case Child(n) => assert n < cs[|cs| - 1]; Shown(n)
  }

  /** The references from `lo` on, each under its own position. */
  function Labels(refs: seq<AxRef>, lo: nat): (r: seq<Numbered>)
    requires lo <= |refs|
    ensures |r| == |refs| - lo
    ensures forall i {:trigger r[i]} :: 0 <= i < |r| ==> r[i] == Numbered(lo + i, refs[lo + i].role, refs[lo + i].name)
  {
    seq(|refs| - lo, i requires 0 <= i < |refs| - lo => Numbered(lo + i, refs[lo + i].role, refs[lo + i].name))
  }

  // ---- The converted tree -------------------------------------------------

  /** The entry leaves something in the converted tree: a text or a node. */
  predicate Appears(c: AxChild) { c.Linked? && (Inlined(c.node) || !Skipped(c.node)) }

  /** Nothing is left of a dangling id, of blank text, and of an ignored node without a role. */
  lemma {:induction false} AppearsIff(c: AxChild)
    ensures Appears(c)
            <==> c.Linked?
                 && !(c.node.ignored && c.node.role == Some(""))
                 && !(c.node.role in {Some("StaticText"), Some("InlineTextBox")} && Blank(NameOf(c.node)))
  {
  }

  /** `node` is what `n` becomes: the same role and name, a number if it is interactive and known to
      the document, and below it what its entries leave, in order. */
  ghost predicate Mirrors(node: AriaNode, n: AxNode)
    decreases n, 2
  {
    && node.role == (if n.role.Some? then n.role.value else "generic")
    && node.name == (if n.name.Some? then n.name.value else "")
    && (node.index.Some? <==> node.role in INTERACTIVE && n.backend.Some?)
    && MirrorsAll(node.children, n.children)
  }

  ghost predicate MirrorsChild(c: AriaChild, a: AxChild)
    decreases a, 1
  {
    && Appears(a)
    && if a.node.role in {Some("StaticText"), Some("InlineTextBox")} then c == Text(NameOf(a.node))
       else c.Child? && Mirrors(c.node, a.node)
  }

  ghost predicate MirrorsAll(children: seq<AriaChild>, cs: seq<AxChild>)
    decreases cs, 0
  {
    if cs == [] then children == []
    else
      var n, m := |cs| - 1, |children| - 1;
      if !Appears(cs[n]) then MirrorsAll(children, cs[..n])
      else children != [] && MirrorsChild(children[m], cs[n]) && MirrorsAll(children[..m], cs[..n])
  }

  /** What one entry leaves: nothing, or one child that mirrors it. */
  ghost predicate Leaves(added: seq<AriaChild>, c: AxChild) {
    if Appears(c) then |added| == 1 && MirrorsChild(added[0], c) else added == []
  }

  lemma {:induction false} MirrorsNext(children: seq<AriaChild>, cs: seq<AxChild>, i: nat, added: seq<AriaChild>)
    requires i < |cs| && MirrorsAll(children, cs[..i]) && Leaves(added, cs[i])
    ensures MirrorsAll(children + added, cs[..i + 1])
  {
    assert cs[..i + 1][..i] == cs[..i];
    if Appears(cs[i]) {
      assert (children + added)[..|children|] == children;
    } else {
      assert children + [] == children;
    }
  }

  lemma {:induction false} OneOfIs(role: string, roles: seq<string>)
    ensures OneOf(role, roles) <==> role in roles
  {
    if roles != [] {
      assert roles == [roles[0]] + roles[1..];
      OneOfIs(role, roles[1..]);
    }
  }

  /** No text node and no blank text is left at any depth. */
  predicate Tidy(c: AriaChild)
    decreases c, 1
  {
    match c
    case Text(text) => !Blank(text)
    case Child(n) => n.role !in {"StaticText", "InlineTextBox"} && (assert n < c; TidyAll(n.children))
  }

  predicate TidyAll(cs: seq<AriaChild>)
    decreases cs, 0
  {
    cs == [] || (Tidy(cs[|cs| - 1]) && TidyAll(cs[..|cs| - 1]))
  }

  lemma {:induction false} MirrorsTidy(children: seq<AriaChild>, cs: seq<AxChild>)
    requires MirrorsAll(children, cs)
    ensures TidyAll(children)
    decreases cs, 0
  {
    if cs != [] {
      var n, m := |cs| - 1, |children| - 1;
      if Appears(cs[n]) {
        MirrorsTidy(children[..m], cs[..n]);
        ChildTidy(children[m], cs[n]);
      } else {
        MirrorsTidy(children, cs[..n]);
      }
    }
  }

  lemma {:induction false} ChildTidy(c: AriaChild, a: AxChild)
    requires MirrorsChild(c, a)
    ensures Tidy(c)
    decreases a, 1
  {
    AppearsIff(a);
    if c.Child? {
      assert Mirrors(c.node, a.node) && c.node < c && a.node < a;
      MirrorsTidy(c.node.children, a.node.children);
    }
  }

  // ---- The walk -----------------------------------------------------------

  /** The counter holds, per key met, the `nth` of its latest reference. */
  ghost predicate Counts(counter: map<Key, nat>, seen: seq<Seen>) {
    forall key ::
      && (key in counter <==> 0 < Count(seen, key))
      && (key in counter ==> counter[key] == Count(seen, key) - 1)
  }

  lemma {:induction false} CountSnoc(seen: seq<Seen>, s: Seen, key: Key)
    ensures Count(seen + [s], key) == Count(seen, key) + if (s.role, s.name) == key then 1 else 0
  {
    assert (seen + [s])[..|seen|] == seen;
  }

  lemma {:induction false} RefsSnoc(seen: seq<Seen>, s: Seen)
    ensures Refs(seen + [s]) == Refs(seen) + [AxRef(s.backend, s.role, s.name, Count(seen, (s.role, s.name)))]
  {
    assert (seen + [s])[..|seen|] == seen;
  }

  /** One reference: bump the key's counter, or start it at zero. */
  method AddRef(
    backend: int, role: string, name: string, counter: map<Key, nat>, refs: seq<AxRef>, ghost seen: seq<Seen>)
    returns (counter': map<Key, nat>, refs': seq<AxRef>)
    requires Walked(counter, refs, seen)
    ensures Walked(counter', refs', seen + [Seen(backend, role, name)])
    ensures |refs'| == |refs| + 1 && refs <= refs'
    ensures refs'[|refs|].role == role && refs'[|refs|].name == name
  {
    var key := (role, name);
    counter' := counter[key := if key in counter then counter[key] + 1 else 0];
    refs' := refs + [AxRef(backend, role, name, counter'[key])];
    RefsSnoc(seen, Seen(backend, role, name));
    forall k ensures Count(seen + [Seen(backend, role, name)], k) == Count(seen, k) + if k == key then 1 else 0 {
      CountSnoc(seen, Seen(backend, role, name), k);
    }
  }

  /** What the counter and the references hold once the walk has met `seen`. */
  ghost predicate Walked(counter: map<Key, nat>, refs: seq<AxRef>, seen: seq<Seen>) {
    Counts(counter, seen) && refs == Refs(seen)
  }

  /** Converts a node; `seen` stands for what the walk has met before. */
  method ConvertNode(n: AxNode, counter: map<Key, nat>, refs: seq<AxRef>, ghost seen: seq<Seen>)
    returns (node: Option<AriaNode>, counter': map<Key, nat>, refs': seq<AxRef>)
    requires Walked(counter, refs, seen)
    ensures Walked(counter', refs', seen + Preorder(n))
    ensures node.None? <==> Skipped(n)
    ensures refs <= refs'
    ensures node.Some? ==> Shown(node.value) == Labels(refs', |refs|) && Mirrors(node.value, n)
    ensures node.None? ==> refs' == refs
    decreases n, 1
  {
    if Skipped(n) {
      assert seen + Preorder(n) == seen;
      return None, counter, refs;
    }
    var index, started, pushed := Number(n, counter, refs, seen);
    var children;
    children, counter', refs' := CollectChildren(n.children, started, pushed, seen + Own(n));
    ConcatAssociates(seen, Own(n), PreorderAll(n.children));
    node := Some(AriaNode(RoleOr(n, "generic"), NameOf(n), index, children));
    NodeShown(node.value, refs, pushed, refs');
    OneOfIs(RoleOr(n, "generic"), INTERACTIVE);
  }

  /** A node's own number: the next index when it is interactive and known to the document. */
  method Number(n: AxNode, counter: map<Key, nat>, refs: seq<AxRef>, ghost seen: seq<Seen>)
    returns (index: Option<nat>, counter': map<Key, nat>, refs': seq<AxRef>)
    requires Walked(counter, refs, seen)
    ensures Walked(counter', refs', seen + Own(n))
    ensures refs <= refs'
    ensures Labels(refs', |refs|) ==
        if index.Some? then [Numbered(index.value, RoleOr(n, "generic"), NameOf(n))] else []
    ensures index.Some? <==> Indexed(n)
  {
    index, counter', refs' := None, counter, refs;
    if Indexed(n) {
      index := Some(|refs|);
      counter', refs' := AddRef(n.backend.value, RoleOr(n, "generic"), NameOf(n), counter, refs, seen);
    }
    assert Own(n) == [] ==> seen + Own(n) == seen;
  }

  lemma {:induction false} ConcatAssociates(a: seq<Seen>, b: seq<Seen>, c: seq<Seen>)
    ensures a + b + c == a + (b + c)
  {
  }

  method CollectChildren(cs: seq<AxChild>, counter: map<Key, nat>, refs: seq<AxRef>, ghost seen: seq<Seen>)
    returns (children: seq<AriaChild>, counter': map<Key, nat>, refs': seq<AxRef>)
    requires Walked(counter, refs, seen)
    ensures Walked(counter', refs', seen + PreorderAll(cs))
    ensures refs <= refs' && ShownAll(children) == Labels(refs', |refs|)
    ensures MirrorsAll(children, cs)
    decreases cs, 0
  {
    children, counter', refs' := [], counter, refs;
    ghost var met := seen;
    for i := 0 to |cs|
      invariant met + PreorderAll(cs[i..]) == seen + PreorderAll(cs)
      invariant Walked(counter', refs', met)
      invariant refs <= refs' && ShownAll(children) == Labels(refs', |refs|)
      invariant MirrorsAll(children, cs[..i])
    {
      PreorderNext(cs, i, met);
      var added, counted, pushed := CollectChild(cs[i], counter', refs', met);
      MirrorsNext(children, cs, i, added);
      if added == [] { assert children + added == children; } else { ShownSnoc(children, added[0]); }
      LabelsConcat(refs', pushed, |refs|);
      children, counter', refs' := children + added, counted, pushed;
      met := met + PreorderChild(cs[i]);
    }
    assert cs[|cs|..] == [] && cs[..|cs|] == cs;
    assert met + [] == met;
  }

  /** One entry: its text, its node, or nothing. */
  method CollectChild(c: AxChild, counter: map<Key, nat>, refs: seq<AxRef>, ghost seen: seq<Seen>)
    returns (added: seq<AriaChild>, counter': map<Key, nat>, refs': seq<AxRef>)
    requires Walked(counter, refs, seen)
    ensures Walked(counter', refs', seen + PreorderChild(c))
    ensures refs <= refs' && |added| <= 1 && Leaves(added, c)
    ensures Labels(refs', |refs|) == if added != [] && added[0].Child? then Shown(added[0].node) else []
    decreases c, 2
  {
    added, counter', refs' := [], counter, refs;
    assert PreorderChild(c) == [] ==> seen + PreorderChild(c) == seen;
    if c.Linked? {
      var n := c.node;
      if Inlined(n) {
        added := [Text(NameOf(n))];
      } else {
        assert n < c;
        var node;
        node, counter', refs' := ConvertNode(n, counter, refs, seen);
        if node.Some? {
          added := [Child(node.value)];
        }
      }
    }
  }

  lemma {:induction false} PreorderNext(cs: seq<AxChild>, i: nat, met: seq<Seen>)
    requires i < |cs|
    ensures met + PreorderAll(cs[i..]) == (met + PreorderChild(cs[i])) + PreorderAll(cs[i + 1..])
    ensures PreorderChild(cs[i]) == [] ==> met + PreorderChild(cs[i]) == met
  {
    assert cs[i..][1..] == cs[i + 1..] && cs[i..][0] == cs[i];
  }

  lemma {:induction false} NodeShown(n: AriaNode, before: seq<AxRef>, pushed: seq<AxRef>, refs: seq<AxRef>)
    requires before <= pushed <= refs && ShownAll(n.children) == Labels(refs, |pushed|)
    requires Labels(pushed, |before|) == if n.index.Some? then [Numbered(n.index.value, n.role, n.name)] else []
    ensures Shown(n) == Labels(refs, |before|)
  {
    LabelsConcat(pushed, refs, |before|);
  }

  lemma {:induction false} ShownSnoc(cs: seq<AriaChild>, c: AriaChild)
    ensures ShownAll(cs + [c]) == ShownAll(cs) + match c case Text(_) => [] case Child(n) => Shown(n)
  {
    assert (cs + [c])[..|cs|] == cs;
  }

  lemma {:induction false} LabelsConcat(before: seq<AxRef>, refs: seq<AxRef>, lo: nat)
    requires lo <= |before| && before <= refs
    ensures Labels(before, lo) + Labels(refs, |before|) == Labels(refs, lo)
  {
  }

  /** The snapshot: everything below the root, numbered from zero. */
  method Extract(root: AxNode) returns (children: seq<AriaChild>, refs: seq<AxRef>)
    ensures refs == Refs(PreorderAll(root.children))
    ensures ShownAll(children) == Labels(refs, 0)
    ensures MirrorsAll(children, root.children) && TidyAll(children)
  {
    var counter: map<Key, nat>;
    children, counter, refs := CollectChildren(root.children, map[], [], []);
    assert [] + PreorderAll(root.children) == PreorderAll(root.children);
    MirrorsTidy(children, root.children);
  }

  // ---- Identity -----------------------------------------------------------

  predicate SameIdentity(a: AxRef, b: AxRef) { a.role == b.role && a.name == b.name && a.nth == b.nth }

  /** Each reference's `nth` is the number of earlier references with its role and name. */
  lemma {:induction false} NthCountsEarlier(seen: seq<Seen>, i: nat)
    requires i < |seen|
    ensures Refs(seen)[i] ==
        AxRef(seen[i].backend, seen[i].role, seen[i].name, Count(seen[..i], (seen[i].role, seen[i].name)))
  {
    var n := |seen| - 1;
    if i < n {
      NthCountsEarlier(seen[..n], i);
      assert seen[..n][..i] == seen[..i];
    }
  }

  lemma {:induction false} CountMonotone(seen: seq<Seen>, i: nat, j: nat, key: Key)
    requires i <= j <= |seen|
    ensures Count(seen[..i], key) <= Count(seen[..j], key)
    ensures i < j && (seen[i].role, seen[i].name) == key ==> Count(seen[..i], key) < Count(seen[..j], key)
    decreases j
  {
    if i < j {
      CountMonotone(seen, i, j - 1, key);
      assert seen[..j] == seen[..j - 1] + [seen[j - 1]];
      CountSnoc(seen[..j - 1], seen[j - 1], key);
    }
  }

  /** No two references of a walk share role, name and nth. */
  lemma {:induction false} IdentityUnique(seen: seq<Seen>, i: nat, j: nat)
    requires i < |seen| && j < |seen| && SameIdentity(Refs(seen)[i], Refs(seen)[j])
    ensures i == j
  {
    NthCountsEarlier(seen, i);
    NthCountsEarlier(seen, j);
    var key := (seen[i].role, seen[i].name);
    if i < j { CountMonotone(seen, i, j, key); } else { CountMonotone(seen, j, i, key); }
  }

  /** Looking a reference up again by its identity, in a fresh walk. */
  method Resolve(refs: seq<AxRef>, r: AxRef) returns (at: Option<nat>)
    ensures at.Some? ==> at.value < |refs| && SameIdentity(refs[at.value], r)
    ensures at.None? ==> forall k :: 0 <= k < |refs| ==> !SameIdentity(refs[k], r)
  {
    for k := 0 to |refs|
      invariant forall j :: 0 <= j < k ==> !SameIdentity(refs[j], r)
    {
      if SameIdentity(refs[k], r) {
        return Some(k);
      }
    }
    return None;
  }

  /** On an unchanged tree, re-resolution finds the very reference it was asked for. */
  method ResolveAgain(root: AxNode, i: nat, ghost seen: seq<Seen>) returns (at: Option<nat>, refs: seq<AxRef>)
    requires seen == PreorderAll(root.children) && i < |seen|
    ensures refs == Refs(seen) && at == Some(i)
  {
    var children, again;
    children, refs := Extract(root);
    children, again := Extract(root);
    at := Resolve(again, refs[i]);
    assert SameIdentity(again[i], refs[i]);
    IdentityUnique(seen, at.value, i);
  }
}
