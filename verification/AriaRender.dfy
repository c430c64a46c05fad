/** Rendering an accessibility tree to indented lines, and the compact mode that prunes the
    lines by indentation alone: it keeps exactly the actionable lines and the headers of
    their tree ancestors. */
module AriaRender {
  import A = Alignment

  /** `plain` and `pointed` are the node's key without and with the cursor mark, which only a
      numbered node with a pointer cursor has (`pointer`); all strings are scalars already escaped
      to one line. */
  datatype AriaNode = AriaNode(
    role: string,
    plain: string,
    pointed: string,
    pointer: bool,
    props: seq<(string, string)>,
    children: seq<AriaChild>)

  datatype AriaChild = Text(text: string) | Child(node: AriaNode)

  // ---- The rendered tree --------------------------------------------------

  /** Lines with their tree structure: a line, the lines below it, the lines after it. */
  datatype Forest = Nil | Cons(text: string, kids: Forest, rest: Forest)

  function Label(n: AriaNode, cursor: bool): string { if cursor && n.pointer then n.pointed else n.plain }

  function PropsForest(props: seq<(string, string)>, rest: Forest): Forest {
    if props == [] then rest
    else Cons("/" + props[0].0 + ": " + props[0].1, Nil, PropsForest(props[1..], rest))
  }

  function NodeForest(n: AriaNode, cursor: bool, rest: Forest): Forest
    decreases n, 1
  {
    var key := Label(n, cursor);
    if n.children == [] && n.props == [] then Cons(key, Nil, rest)
    else if |n.children| == 1 && n.props == [] && n.children[0].Text? then
      Cons(key + (": " + n.children[0].text), Nil, rest)
    else
      Cons(key + ":", PropsForest(n.props, ChildrenForest(n.children, cursor && !n.pointer)), rest)
  }

  function ChildrenForest(cs: seq<AriaChild>, cursor: bool): Forest
    decreases cs, 0
  {
    if cs == [] then Nil
    else
      var rest := ChildrenForest(cs[1..], cursor);
      match cs[0]
      case Text(text) => if text == "" then rest else Cons("text: " + text, Nil, rest)
      case Child(node) => assert node < cs[0]; NodeForest(node, cursor, rest)
  }

  function Spaces(n: nat): string { seq(n, _ => ' ') }

  function Line(indent: nat, text: string): string { Spaces(indent) + "- " + text }

  function Lines(f: Forest, indent: nat): (r: seq<string>)
    ensures |r| == Size(f)
  {
    match f
    case Nil => []
    case Cons(text, kids, rest) => [Line(indent, text)] + Lines(kids, indent + 2) + Lines(rest, indent)
  }

  function Size(f: Forest): nat {
    match f case Nil => 0 case Cons(_, kids, rest) => 1 + Size(kids) + Size(rest)
  }

  /** Line `i` is the header of a tree ancestor of line `j`. */
  predicate Ancestor(f: Forest, i: nat, j: nat) {
    match f
    case Nil => false
    case Cons(_, kids, rest) =>
      var n := Size(kids);
      if i == 0 then 1 <= j <= n
      else if i <= n then 1 <= j <= n && Ancestor(kids, i - 1, j - 1)
      else n < j && Ancestor(rest, i - 1 - n, j - 1 - n)
  }

  // ---- What the lines say -------------------------------------------------

  /** The texts of the entries side by side at the top. */
  function Tops(f: Forest): seq<string> {
    match f case Nil => [] case Cons(text, _, rest) => [text] + Tops(rest)
  }

  /** What lies below the entry at `k`. */
  function Under(f: Forest, k: nat): Forest
    requires k < |Tops(f)|
  {
    if k == 0 then f.kids else Under(f.rest, k - 1)
  }

  predicate SoleText(n: AriaNode) { |n.children| == 1 && n.props == [] && n.children[0].Text? }

  /** A node's own line: its key, marked for the first node on the way down that has a pointer
      cursor; then the one text it holds, or a colon if anything else lies below it. */
  function Head(n: AriaNode, cursor: bool): string {
    (if cursor && n.pointer then n.pointed else n.plain)
    + if SoleText(n) then ": " + n.children[0].text else if n.children == [] && n.props == [] then "" else ":"
  }

  /** The lines for properties, and for children but empty texts. */
  function PropHead(p: (string, string)): string { "/" + p.0 + ": " + p.1 }

  function Heads(cs: seq<AriaChild>, cursor: bool): seq<string> {
    if cs == [] then []
    else
      Heads(cs[..|cs| - 1], cursor)
      + match cs[|cs| - 1]
        case Text(text) => if text == "" then [] else ["text: " + text]
        case Child(n) => [Head(n, cursor)]
  }

  lemma {:induction false} TopsOfProps(props: seq<(string, string)>, rest: Forest)
    ensures Tops(PropsForest(props, rest)) ==
        seq(|props|, i requires 0 <= i < |props| => PropHead(props[i])) + Tops(rest)
  {
    if props != [] { TopsOfProps(props[1..], rest); }
  }

  lemma {:induction false} HeadsCons(cs: seq<AriaChild>, cursor: bool)
    requires cs != []
    ensures Heads(cs, cursor) == Heads(cs[..1], cursor) + Heads(cs[1..], cursor)
  {
    if |cs| == 1 {
      assert cs[..1] == cs;
    } else {
      var n := |cs| - 1;
      HeadsCons(cs[..n], cursor);
      assert cs[..n][..1] == cs[..1] && cs[..n][1..] == cs[1..][..n - 1];
    }
  }

  lemma {:induction false} TopsOfNode(n: AriaNode, cursor: bool, rest: Forest)
    ensures NodeForest(n, cursor, rest).Cons?
    ensures NodeForest(n, cursor, rest).text == Head(n, cursor) && NodeForest(n, cursor, rest).rest == rest
    ensures NodeForest(n, cursor, rest).kids == NodeForest(n, cursor, Nil).kids
  {
    var key := Label(n, cursor);
    assert key + "" == key;
  }

  lemma {:induction false} TopsOfChildren(cs: seq<AriaChild>, cursor: bool)
    ensures Tops(ChildrenForest(cs, cursor)) == Heads(cs, cursor)
  {
    if cs != [] {
      TopsOfChildren(cs[1..], cursor);
      HeadsCons(cs, cursor);
      assert cs[..1][..0] == [];
      if cs[0].Child? { TopsOfNode(cs[0].node, cursor, ChildrenForest(cs[1..], cursor)); }
    }
  }

  /** A node is one entry with its own line; unless that says all, its properties and then its
      children lie right below it, each once and in order. */
  lemma {:induction false} NodeDrawn(n: AriaNode, cursor: bool)
    ensures var f := NodeForest(n, cursor, Nil);
      && Tops(f) == [Head(n, cursor)]
      && Tops(f.kids) ==
           if SoleText(n) then []
           else seq(|n.props|, i requires 0 <= i < |n.props| => PropHead(n.props[i]))
                + Heads(n.children, cursor && !n.pointer)
  {
    TopsOfNode(n, cursor, Nil);
    TopsOfChildren(n.children, cursor && !n.pointer);
    TopsOfProps(n.props, ChildrenForest(n.children, cursor && !n.pointer));
  }

  lemma {:induction false} UnderProps(props: seq<(string, string)>, rest: Forest, k: nat)
    requires k < |Tops(rest)|
    ensures |props| + k < |Tops(PropsForest(props, rest))|
    ensures Under(PropsForest(props, rest), |props| + k) == Under(rest, k)
  {
    TopsOfProps(props, rest);
    if props != [] { UnderProps(props[1..], rest, k); }
  }

  lemma {:induction false} HeadsNext(cs: seq<AriaChild>, i: nat, cursor: bool)
    requires 0 < i <= |cs|
    ensures |Heads(cs[..i], cursor)| == |Heads(cs[1..][..i - 1], cursor)| + |Heads(cs[..1], cursor)|
  {
    HeadsCons(cs[..i], cursor);
    assert cs[..i][..1] == cs[..1] && cs[..i][1..] == cs[1..][..i - 1];
  }

  /** One more child in front moves what lies below the others. */
  lemma {:induction false} UnderRest(cs: seq<AriaChild>, cursor: bool, k: nat)
    requires cs != [] && k < |Tops(ChildrenForest(cs[1..], cursor))|
    ensures var f, n := ChildrenForest(cs, cursor), |Heads(cs[..1], cursor)|;
      n + k < |Tops(f)| && Under(f, n + k) == Under(ChildrenForest(cs[1..], cursor), k)
  {
    assert cs[..1][..0] == [];
    if cs[0].Child? { TopsOfNode(cs[0].node, cursor, ChildrenForest(cs[1..], cursor)); }
  }

  lemma {:induction false} UnderChild(cs: seq<AriaChild>, i: nat, cursor: bool)
    requires i < |cs| && cs[i].Child?
    ensures var f, k := ChildrenForest(cs, cursor), |Heads(cs[..i], cursor)|;
      k < |Tops(f)| && Under(f, k) == NodeForest(cs[i].node, cursor, Nil).kids
  {
    if i == 0 {
      TopsOfNode(cs[0].node, cursor, ChildrenForest(cs[1..], cursor));
    } else {
      UnderChild(cs[1..], i - 1, cursor);
      HeadsNext(cs, i, cursor);
      UnderRest(cs, cursor, |Heads(cs[1..][..i - 1], cursor)|);
    }
  }

  /** Below a child's line lies what is drawn for that child, at every depth. */
  lemma {:induction false} ChildDrawn(n: AriaNode, i: nat, cursor: bool)
    requires !SoleText(n) && i < |n.children| && n.children[i].Child?
    ensures var f, below := NodeForest(n, cursor, Nil), cursor && !n.pointer;
      var k := |n.props| + |Heads(n.children[..i], below)|;
      k < |Tops(f.kids)| && Under(f.kids, k) == NodeForest(n.children[i].node, below, Nil).kids
  {
    var below := cursor && !n.pointer;
    UnderChild(n.children, i, below);
    UnderProps(n.props, ChildrenForest(n.children, below), |Heads(n.children[..i], below)|);
  }

  // ---- The renderer -------------------------------------------------------

  lemma {:induction false} LinesOfProps(props: seq<(string, string)>, rest: Forest, indent: nat)
    ensures Lines(PropsForest(props, rest), indent) == Lines(PropsForest(props, Nil), indent) + Lines(rest, indent)
  {
    if props != [] { LinesOfProps(props[1..], rest, indent); }
  }

  lemma {:induction false} LinesOfNode(n: AriaNode, cursor: bool, rest: Forest, indent: nat)
    ensures Lines(NodeForest(n, cursor, rest), indent) ==
        Lines(NodeForest(n, cursor, Nil), indent) + Lines(rest, indent)
  {
  }

  /** Pushes the lines of `n`, indented by `indent`, onto `lines`. */
  method Visit(n: AriaNode, indent: string, cursor: bool, lines: seq<string>) returns (r: seq<string>)
    requires indent == Spaces(|indent|)
    ensures r == lines + Lines(NodeForest(n, cursor, Nil), |indent|)
    decreases n, 1
  {
    var escapedKey := indent + "- " + Label(n, cursor);
    if n.children == [] && n.props == [] {
      return lines + [escapedKey];
    }
    if |n.children| == 1 && n.props == [] && n.children[0].Text? {
      KeyLine(indent, Label(n, cursor), ": " + n.children[0].text);
      return lines + [escapedKey + (": " + n.children[0].text)];
    }
    r := VisitBranch(n, indent, cursor, lines);
    BranchLines(n, cursor, |indent|);
  }

  method VisitBranch(n: AriaNode, indent: string, cursor: bool, lines: seq<string>) returns (r: seq<string>)
    requires indent == Spaces(|indent|)
    ensures r == lines + BranchOf(n, cursor, |indent|)
    decreases n, 0
  {
    var childIndent := indent + "  ";
    KeyLine(indent, Label(n, cursor), ":");
    r := VisitProps(n.props, childIndent, lines + [indent + "- " + Label(n, cursor) + ":"]);
    r := VisitChildren(n.children, childIndent, cursor && !n.pointer, r);
  }

  function BranchOf(n: AriaNode, cursor: bool, indent: nat): seq<string> {
    [Line(indent, Label(n, cursor) + ":")] + Lines(PropsForest(n.props, Nil), indent + 2)
    + Lines(ChildrenForest(n.children, cursor && !n.pointer), indent + 2)
  }

  /** The lines of a node that is not a single line. */
  lemma {:induction false} BranchLines(n: AriaNode, cursor: bool, indent: nat)
    requires !(n.children == [] && n.props == []) && !(|n.children| == 1 && n.props == [] && n.children[0].Text?)
    ensures Lines(NodeForest(n, cursor, Nil), indent) == BranchOf(n, cursor, indent)
  {
    var kids := ChildrenForest(n.children, cursor && !n.pointer);
    LinesOfProps(n.props, kids, indent + 2);
    assert NodeForest(n, cursor, Nil) == Cons(Label(n, cursor) + ":", PropsForest(n.props, kids), Nil);
    LinesCons(Label(n, cursor) + ":", PropsForest(n.props, kids), indent);
    var own := [Line(indent, Label(n, cursor) + ":")];
    Assoc(own, Lines(PropsForest(n.props, Nil), indent + 2), Lines(kids, indent + 2));
  }

  lemma {:induction false} LinesCons(text: string, kids: Forest, indent: nat)
    ensures Lines(Cons(text, kids, Nil), indent) == [Line(indent, text)] + Lines(kids, indent + 2)
  {
  }

  method VisitProps(props: seq<(string, string)>, indent: string, lines: seq<string>) returns (r: seq<string>)
    requires indent == Spaces(|indent|)
    ensures r == lines + Lines(PropsForest(props, Nil), |indent|)
  {
    r := lines;
    for i := 0 to |props|
      invariant r + Lines(PropsForest(props[i..], Nil), |indent|) == lines + Lines(PropsForest(props, Nil), |indent|)
    {
      PropLine(indent, props[i]);
      assert props[i..][1..] == props[i + 1..];
      r := r + [indent + "- /" + props[i].0 + ": " + props[i].1];
    }
  }

  method VisitChildren(cs: seq<AriaChild>, indent: string, cursor: bool, lines: seq<string>) returns (r: seq<string>)
    requires indent == Spaces(|indent|)
    ensures r == lines + Lines(ChildrenForest(cs, cursor), |indent|)
    decreases cs, 0
  {
    r := lines;
    for i := 0 to |cs|
      invariant r + Lines(ChildrenForest(cs[i..], cursor), |indent|) ==
          lines + Lines(ChildrenForest(cs, cursor), |indent|)
    {
      ChildrenNext(cs, i, cursor, |indent|);
      Assoc(r, ChildLines(cs[i], cursor, |indent|), Lines(ChildrenForest(cs[i + 1..], cursor), |indent|));
      r := VisitChild(cs[i], indent, cursor, r);
    }
  }

  method VisitChild(c: AriaChild, indent: string, cursor: bool, lines: seq<string>) returns (r: seq<string>)
    requires indent == Spaces(|indent|)
    ensures r == lines + ChildLines(c, cursor, |indent|)
    decreases c
  {
    match c
    case Text(text) =>
      r := lines;
      if text != "" {
        TextLine(indent, text);
        r := r + [indent + "- text: " + text];
      }
    case Child(node) =>
      r := Visit(node, indent, cursor, lines);
  }

  lemma {:induction false} Assoc(a: seq<string>, b: seq<string>, c: seq<string>)
    ensures a + b + c == a + (b + c)
  {
  }

  function ChildLines(c: AriaChild, cursor: bool, indent: nat): seq<string> {
    match c
    case Text(text) => if text == "" then [] else [Line(indent, "text: " + text)]
    case Child(node) => Lines(NodeForest(node, cursor, Nil), indent)
  }

  lemma {:induction false} ChildrenNext(cs: seq<AriaChild>, i: nat, cursor: bool, indent: nat)
    requires i < |cs|
    ensures Lines(ChildrenForest(cs[i..], cursor), indent)
         == ChildLines(cs[i], cursor, indent) + Lines(ChildrenForest(cs[i + 1..], cursor), indent)
  {
    var rest := ChildrenForest(cs[i + 1..], cursor);
    assert cs[i..][1..] == cs[i + 1..];
    if cs[i].Child? { LinesOfNode(cs[i].node, cursor, rest, indent); }
  }

  lemma {:induction false} KeyLine(indent: string, key: string, suffix: string)
    requires indent == Spaces(|indent|)
    ensures indent + "- " + key + suffix == Line(|indent|, key + suffix)
  {
  }

  lemma {:induction false} PropLine(indent: string, prop: (string, string))
    requires indent == Spaces(|indent|)
    ensures indent + "- /" + prop.0 + ": " + prop.1 == Line(|indent|, "/" + prop.0 + ": " + prop.1)
  {
  }

  lemma {:induction false} TextLine(indent: string, text: string)
    requires indent == Spaces(|indent|)
    ensures indent + "- text: " + text == Line(|indent|, "text: " + text)
  {
  }

  // ---- Indentation sees the tree ------------------------------------------

  function Indent(line: string): nat {
    if line != "" && line[0] == ' ' then 1 + Indent(line[1..]) else 0
  }

  function Indents(lines: seq<string>): (r: seq<nat>)
    ensures |r| == |lines| && forall i {:trigger r[i]} :: 0 <= i < |r| ==> r[i] == Indent(lines[i])
  {
    seq(|lines|, i requires 0 <= i < |lines| => Indent(lines[i]))
  }

  lemma {:induction false} IndentOfLine(n: nat, text: string)
    ensures Indent(Line(n, text)) == n
  {
    if n != 0 {
      IndentOfLine(n - 1, text);
      assert Line(n, text)[1..] == Line(n - 1, text);
    }
  }

  /** How many lines line `i` lies below. */
  function Depth(f: Forest, i: nat): nat
    requires i < Size(f)
  {
    var n := Size(f.kids);
    if i == 0 then 0 else if i <= n then 1 + Depth(f.kids, i - 1) else Depth(f.rest, i - 1 - n)
  }

  function TextOf(f: Forest, i: nat): string
    requires i < Size(f)
  {
    var n := Size(f.kids);
    if i == 0 then f.text else if i <= n then TextOf(f.kids, i - 1) else TextOf(f.rest, i - 1 - n)
  }

  /** Every line is two spaces per line above it, a dash, and its text. */
  lemma {:induction false} LineReads(f: Forest, indent: nat, i: nat)
    requires i < Size(f)
    ensures var deep := indent + 2 * Depth(f, i);
      && Lines(f, indent)[i] == seq(deep, _ => ' ') + "- " + TextOf(f, i)
      && Levels(f, indent)[i] == deep
  {
    var n := Size(f.kids);
    if 0 < i <= n {
      LineReads(f.kids, indent + 2, i - 1);
    } else if n < i {
      LineReads(f.rest, indent, i - 1 - n);
    }
  }

  /** Line `i` is less indented than everything after it up to and including `j`. */
  ghost predicate Covers(indents: seq<nat>, i: nat, j: nat) {
    i < j < |indents| && forall k :: i < k <= j ==> indents[i] < indents[k]
  }

  /** The indentation of every line, from the tree alone. */
  function Levels(f: Forest, indent: nat): (r: seq<nat>)
    ensures |r| == Size(f)
  {
    match f
    case Nil => []
    case Cons(_, kids, rest) => [indent] + Levels(kids, indent + 2) + Levels(rest, indent)
  }

  lemma {:induction false} LevelsDeep(f: Forest, indent: nat)
    ensures forall i :: 0 <= i < Size(f) ==> indent <= Levels(f, indent)[i]
  {
    if f.Cons? {
      LevelsDeep(f.kids, indent + 2);
      LevelsDeep(f.rest, indent);
    }
  }

  lemma {:induction false} IndentsAreLevels(f: Forest, indent: nat)
    ensures Indents(Lines(f, indent)) == Levels(f, indent)
  {
    if f.Cons? {
      IndentsAreLevels(f.kids, indent + 2);
      IndentsAreLevels(f.rest, indent);
      IndentOfLine(indent, f.text);
      IndentsConcat([Line(indent, f.text)], Lines(f.kids, indent + 2), Lines(f.rest, indent));
    }
  }

  lemma {:induction false} IndentsConcat(a: seq<string>, b: seq<string>, c: seq<string>)
    ensures Indents(a + b + c) == Indents(a) + Indents(b) + Indents(c)
  {
  }

  /** In a rendered tree the indentation test is tree ancestry. */
  lemma {:induction false} CoversIsAncestor(f: Forest, indent: nat, i: nat, j: nat)
    requires i < j < Size(f)
    ensures Covers(Levels(f, indent), i, j) <==> Ancestor(f, i, j)
  {
    var n := Size(f.kids);
    if i <= n {
      if j <= n && 0 < i { CoversIsAncestor(f.kids, indent + 2, i - 1, j - 1); }
      AncestorAbove(f, indent, i, j);
    } else {
      CoversIsAncestor(f.rest, indent, i - 1 - n, j - 1 - n);
      AncestorAfter(f, indent, i, j);
    }
  }

  lemma {:induction false} AncestorAbove(f: Forest, indent: nat, i: nat, j: nat)
    requires i < j < Size(f) && i <= Size(f.kids)
    requires 0 < i && j <= Size(f.kids) ==>
      (Covers(Levels(f.kids, indent + 2), i - 1, j - 1) <==> Ancestor(f.kids, i - 1, j - 1))
    ensures Covers(Levels(f, indent), i, j) <==> Ancestor(f, i, j)
  {
    var n, below, after := Size(f.kids), Levels(f.kids, indent + 2), Levels(f.rest, indent);
    LevelsDeep(f.kids, indent + 2);
    if n < j {
      CoversStops(indent, below, after, i, j);
      assert !Ancestor(f, i, j);
    } else if i == 0 {
      CoversBelow(indent, below, after, j);
      assert Ancestor(f, i, j);
    } else {
      CoversShift([indent], below, after, i - 1, j - 1);
      assert Ancestor(f, i, j) <==> Ancestor(f.kids, i - 1, j - 1);
    }
  }

  lemma {:induction false} AncestorAfter(f: Forest, indent: nat, i: nat, j: nat)
    requires i < j < Size(f) && Size(f.kids) < i
    requires var n := 1 + Size(f.kids); Covers(Levels(f.rest, indent), i - n, j - n) <==> Ancestor(f.rest, i - n, j - n)
    ensures Covers(Levels(f, indent), i, j) <==> Ancestor(f, i, j)
  {
    var n, before := 1 + Size(f.kids), [indent] + Levels(f.kids, indent + 2);
    assert Levels(f, indent) == before + Levels(f.rest, indent) && |before| == n;
    CoversTail(before, Levels(f.rest, indent), i - n, j - n);
    assert Ancestor(f, i, j) <==> Ancestor(f.rest, i - n, j - n);
  }

  /** Nothing reaches past the next line at its own level. */
  lemma {:induction false} CoversStops(indent: nat, below: seq<nat>, after: seq<nat>, i: nat, j: nat)
    requires i <= |below| < j <= |below| + |after| && after[0] == indent
    requires forall k :: 0 <= k < |below| ==> indent <= below[k]
    ensures !Covers([indent] + below + after, i, j)
  {
    var all := [indent] + below + after;
    assert all[|below| + 1] == after[0] && indent <= all[i];
  }

  lemma {:induction false} CoversBelow(indent: nat, below: seq<nat>, after: seq<nat>, j: nat)
    requires 0 < j <= |below| && forall k :: 0 <= k < |below| ==> indent < below[k]
    ensures Covers([indent] + below + after, 0, j)
  {
    assert forall k :: 0 < k <= j ==> ([indent] + below + after)[k] == below[k - 1];
  }

  lemma {:induction false} CoversTail(before: seq<nat>, after: seq<nat>, i: nat, j: nat)
    requires i < j < |after|
    ensures Covers(before + after, |before| + i, |before| + j) <==> Covers(after, i, j)
  {
    CoversShift(before, after, [], i, j);
    assert before + after + [] == before + after;
  }

  lemma {:induction false} CoversShift(a: seq<nat>, b: seq<nat>, c: seq<nat>, i: nat, j: nat)
    requires i < j < |b|
    ensures Covers(a + b + c, |a| + i, |a| + j) <==> Covers(b, i, j)
  {
    var all, n := a + b + c, |a|;
    assert forall k :: 0 <= k < |b| ==> all[n + k] == b[k];
    if Covers(all, n + i, n + j) {
      forall k | i < k <= j ensures b[i] < b[k] { assert all[n + i] < all[n + k]; }
    }
    if Covers(b, i, j) {
      forall k | n + i < k <= n + j ensures all[n + i] < all[k] { assert b[i] < b[k - n]; }
    }
  }

  // ---- Compaction ---------------------------------------------------------

  predicate StartsAt(s: string, pat: string, i: nat) { i + |pat| <= |s| && s[i..i + |pat|] == pat }

  predicate Contains(s: string, pat: string) { exists i :: 0 <= i <= |s| && StartsAt(s, pat, i) }

  function TrimStart(line: string): string {
    if line != "" && A.IsWhitespace(line[0]) then TrimStart(line[1..]) else line
  }

  predicate Actionable(line: string) { Contains(line, "[index=") || Contains(TrimStart(line), ": ") }

  lemma {:induction false} TrimKeepsColon(line: string)
    ensures Contains(TrimStart(line), ": ") <==> Contains(line, ": ")
  {
    if line != "" && A.IsWhitespace(line[0]) {
      var rest := line[1..];
      TrimKeepsColon(rest);
      forall i | 0 <= i <= |line| ensures StartsAt(line, ": ", i) <==> 0 < i && StartsAt(rest, ": ", i - 1) {
        if 0 < i {
          assert i + 2 <= |line| ==> rest[i - 1..i + 1] == line[i..i + 2];
        } else if 2 <= |line| {
          assert line[0..2][0] == line[0] != ':';
        }
      }
      if Contains(rest, ": ") {
        var i :| 0 <= i <= |rest| && StartsAt(rest, ": ", i);
        assert StartsAt(line, ": ", i + 1);
      }
    }
  }

  /** Actionable is what shows a reference number, or a colon and a space anywhere: the indentation
      never matters. */
  lemma {:induction false} ActionableIff(line: string)
    ensures Actionable(line) <==> exists i :: StartsAt(line, "[index=", i) || StartsAt(line, ": ", i)
  {
    TrimKeepsColon(line);
    if i: nat :| StartsAt(line, "[index=", i) { assert 0 <= i <= |line|; }
    if i: nat :| StartsAt(line, ": ", i) { assert 0 <= i <= |line|; }
  }

  /** A line is kept if it is actionable or, by indentation, above an actionable one. */
  ghost predicate KeptAt(lines: seq<string>, i: nat)
    requires i < |lines|
  {
    Actionable(lines[i]) || exists j :: ActionableAt(lines, j) && Covers(Indents(lines), i, j)
  }

  ghost predicate ActionableAt(lines: seq<string>, j: int) { 0 <= j < |lines| && Actionable(lines[j]) }

  function Select(lines: seq<string>, keep: seq<bool>): seq<string>
    requires |keep| == |lines|
  {
    if lines == [] then []
    else
      var n := |lines| - 1;
      Select(lines[..n], keep[..n]) + if keep[n] then [lines[n]] else []
  }

  /** Which lines are kept. */
  ghost function Keeps(lines: seq<string>): (keep: seq<bool>)
    ensures |keep| == |lines|
    ensures forall i {:trigger keep[i]} :: 0 <= i < |lines| ==> (keep[i] <==> KeptAt(lines, i))
  {
    seq(|lines|, i requires 0 <= i < |lines| => KeptAt(lines, i))
  }

  ghost function Compacted(lines: seq<string>): seq<string> { Select(lines, Keeps(lines)) }

  /** Kept on account of actionable lines before `n` only. */
  ghost predicate KeptBefore(lines: seq<string>, n: nat, i: nat)
    requires i < |lines|
  {
    (i < n && Actionable(lines[i])) || exists j :: j < n && ActionableAt(lines, j) && Covers(Indents(lines), i, j)
  }

  /** The backward scan from an actionable line: marks whatever is less indented than all
      that lies between. */
  method MarkAbove(indents: seq<nat>, i: nat, keep: array<bool>)
    requires i < |indents| == keep.Length
    modifies keep
    ensures forall k :: 0 <= k < keep.Length ==>
      (keep[k] <==> old(keep[k]) || k == i || Covers(indents, k, i))
  {
    keep[i] := true;
    var minIndent := indents[i];
    var j := i;
    while 0 < j
      invariant j <= i
      invariant IsMin(indents, j, i, minIndent)
      invariant forall k :: 0 <= k < keep.Length ==>
        (keep[k] <==> old(keep[k]) || k == i || (j <= k && Covers(indents, k, i)))
    {
      j := j - 1;
      CoversMin(indents, j, i, minIndent);
      if indents[j] < minIndent {
        keep[j] := true;
        minIndent := indents[j];
        if minIndent == 0 {
          CoversZero(indents, j, i);
          return;
        }
      }
    }
  }

  ghost predicate IsMin(indents: seq<nat>, a: nat, b: nat, m: nat) {
    && a <= b < |indents| && (forall k :: a <= k <= b ==> m <= indents[k])
    && exists k :: a <= k <= b && indents[k] == m
  }

  lemma {:induction false} CoversMin(indents: seq<nat>, j: nat, i: nat, m: nat)
    requires j < i < |indents| && IsMin(indents, j + 1, i, m)
    ensures Covers(indents, j, i) <==> indents[j] < m
    ensures IsMin(indents, j, i, if indents[j] < m then indents[j] else m)
  {
    var k :| j + 1 <= k <= i && indents[k] == m;
    if indents[j] < m { assert indents[j] == indents[j]; }
  }

  lemma {:induction false} CoversZero(indents: seq<nat>, j: nat, i: nat)
    requires j < i < |indents| && indents[j] == 0
    ensures forall k :: 0 <= k < j ==> !Covers(indents, k, i)
  {
  }

  /** The compact form of rendered lines. */
  method Compact(lines: seq<string>) returns (r: seq<string>)
    ensures r == Compacted(lines)
  {
    var indents := Indents(lines);
    var marks := new bool[|lines|](_ => false);
    for i := 0 to |lines|
      invariant forall k :: 0 <= k < |lines| ==> (marks[k] <==> KeptBefore(lines, i, k))
    {
      KeptNext(lines, i);
      if Actionable(lines[i]) {
        MarkAbove(indents, i, marks);
      }
    }
    ghost var keep := Keeps(lines);
    forall i | 0 <= i < |lines| ensures marks[i] == keep[i] { KeptAll(lines, i); }
    r := [];
    for n := 0 to |lines|
      invariant forall i :: 0 <= i < |lines| ==> marks[i] == keep[i]
      invariant r == Select(lines[..n], keep[..n])
    {
      assert lines[..n + 1][..n] == lines[..n] && keep[..n + 1][..n] == keep[..n];
      if marks[n] {
        r := r + [lines[n]];
      }
    }
    assert lines[..|lines|] == lines && keep[..|lines|] == keep;
  }

  /** What the actionable line `i` adds. */
  ghost predicate KeptBy(lines: seq<string>, i: nat, k: nat)
    requires i < |lines|
  {
    Actionable(lines[i]) && (k == i || Covers(Indents(lines), k, i))
  }

  lemma {:induction false} KeptNext(lines: seq<string>, i: nat)
    requires i < |lines|
    ensures forall k :: 0 <= k < |lines| ==>
      (KeptBefore(lines, i + 1, k) <==> KeptBefore(lines, i, k) || KeptBy(lines, i, k))
  {
    forall k | 0 <= k < |lines|
      ensures KeptBefore(lines, i + 1, k) <==> KeptBefore(lines, i, k) || KeptBy(lines, i, k)
    {
      if KeptBefore(lines, i + 1, k) { KeptForward(lines, i, k); }
      if KeptBefore(lines, i, k) || KeptBy(lines, i, k) { KeptBackward(lines, i, k); }
    }
  }

  lemma {:induction false} KeptForward(lines: seq<string>, i: nat, k: nat)
    requires i < |lines| && k < |lines| && KeptBefore(lines, i + 1, k)
    ensures KeptBefore(lines, i, k) || KeptBy(lines, i, k)
  {
    if !(k < i + 1 && Actionable(lines[k])) {
      var j :| j < i + 1 && ActionableAt(lines, j) && Covers(Indents(lines), k, j);
      assert j < i ==> KeptBefore(lines, i, k);
    }
  }

  lemma {:induction false} KeptBackward(lines: seq<string>, i: nat, k: nat)
    requires i < |lines| && k < |lines| && (KeptBefore(lines, i, k) || KeptBy(lines, i, k))
    ensures KeptBefore(lines, i + 1, k)
  {
    if KeptBefore(lines, i, k) {
      if !(k < i && Actionable(lines[k])) {
        var j :| j < i && ActionableAt(lines, j) && Covers(Indents(lines), k, j);
        assert j < i + 1;
      }
    } else {
      assert ActionableAt(lines, i);
    }
  }

  lemma {:induction false} KeptAll(lines: seq<string>, i: nat)
    requires i < |lines|
    ensures KeptBefore(lines, |lines|, i) <==> KeptAt(lines, i)
  {
  }

  /** On the lines of a tree: exactly the actionable lines and the headers of tree
      ancestors of actionable lines are kept, in order. */
  lemma {:induction false} CompactKeepsAncestors(f: Forest, indent: nat, i: nat)
    requires i < Size(f)
    ensures var lines := Lines(f, indent);
      KeptAt(lines, i) <==> Actionable(lines[i]) || exists j :: ActionableAt(lines, j) && Ancestor(f, i, j)
  {
    var lines := Lines(f, indent);
    IndentsAreLevels(f, indent);
    forall j | 0 <= j < |lines| ensures Covers(Indents(lines), i, j) <==> Ancestor(f, i, j) {
      if i < j { CoversIsAncestor(f, indent, i, j); } else { AncestorIsEarlier(f, i, j); }
    }
  }

  lemma {:induction false} AncestorIsEarlier(f: Forest, i: nat, j: nat)
    requires j <= i
    ensures !Ancestor(f, i, j)
  {
    if f.Cons? {
      var n := Size(f.kids);
      if 0 < i <= n && 1 <= j <= n {
        AncestorIsEarlier(f.kids, i - 1, j - 1);
      } else if n < i && n < j {
        AncestorIsEarlier(f.rest, i - 1 - n, j - 1 - n);
      }
    }
  }

  // ---- Compacting twice ---------------------------------------------------

  function Rank(keep: seq<bool>, i: nat): nat
    requires i <= |keep|
  {
    if i == 0 then 0 else Rank(keep, i - 1) + if keep[i - 1] then 1 else 0
  }

  lemma {:induction false} RankMonotone(keep: seq<bool>, i: nat, j: nat)
    requires i <= j <= |keep|
    ensures Rank(keep, i) <= Rank(keep, j)
    ensures i < j && keep[i] ==> Rank(keep, i) < Rank(keep, j)
    decreases j
  {
    if i < j { RankMonotone(keep, i, j - 1); }
  }

  lemma {:induction false} RankPrefix(keep: seq<bool>, n: nat, i: nat)
    requires i <= n <= |keep|
    ensures Rank(keep[..n], i) == Rank(keep, i)
  {
    if i != 0 { RankPrefix(keep, n, i - 1); }
  }

  lemma {:induction false} SelectLength(lines: seq<string>, keep: seq<bool>)
    requires |keep| == |lines|
    ensures |Select(lines, keep)| == Rank(keep, |keep|)
  {
    if lines != [] {
      var n := |lines| - 1;
      SelectLength(lines[..n], keep[..n]);
      RankPrefix(keep, n, n);
    }
  }

  /** The `p`-th selected line is some marked line of rank `p`. */
  lemma {:induction false} SelectedFrom(lines: seq<string>, keep: seq<bool>, p: nat) returns (i: nat)
    requires |keep| == |lines| && p < |Select(lines, keep)|
    ensures i < |lines| && keep[i] && Rank(keep, i) == p && Select(lines, keep)[p] == lines[i]
  {
    var n := |lines| - 1;
    SelectLength(lines[..n], keep[..n]);
    RankPrefix(keep, n, n);
    if p < |Select(lines[..n], keep[..n])| {
      i := SelectedFrom(lines[..n], keep[..n], p);
      RankPrefix(keep, n, i);
    } else {
      i := n;
    }
  }

  /** Every marked line is selected, at its rank. */
  lemma {:induction false} SelectedAt(lines: seq<string>, keep: seq<bool>, i: nat)
    requires |keep| == |lines| && i < |lines| && keep[i]
    ensures Rank(keep, i) < |Select(lines, keep)| && Select(lines, keep)[Rank(keep, i)] == lines[i]
  {
    SelectLength(lines, keep);
    RankMonotone(keep, i, |keep|);
    var k := SelectedFrom(lines, keep, Rank(keep, i));
    if k < i { RankMonotone(keep, k, i); } else if i < k { RankMonotone(keep, i, k); }
  }

  /** A line that covers another still covers it among the selected lines. */
  lemma {:induction false} SelectedCovers(lines: seq<string>, keep: seq<bool>, i: nat, j: nat)
    requires |keep| == |lines| && i < |lines| && j < |lines| && keep[i] && keep[j] && Covers(Indents(lines), i, j)
    ensures Covers(Indents(Select(lines, keep)), Rank(keep, i), Rank(keep, j))
  {
    var y := Select(lines, keep);
    SelectedAt(lines, keep, i);
    SelectedAt(lines, keep, j);
    RankMonotone(keep, i, j);
    forall p | Rank(keep, i) < p <= Rank(keep, j) ensures Indents(y)[Rank(keep, i)] < Indents(y)[p] {
      var k := SelectedFrom(lines, keep, p);
      if k <= i { RankMonotone(keep, k, i); }
      if j < k { RankMonotone(keep, j, k); }
      assert Indents(lines)[i] < Indents(lines)[k];
    }
  }

  /** Compacting the compact form keeps every line. */
  lemma {:induction false} CompactKeepsAll(lines: seq<string>, p: nat)
    requires p < |Compacted(lines)|
    ensures KeptAt(Compacted(lines), p)
  {
    var keep, y := Keeps(lines), Compacted(lines);
    var i := SelectedFrom(lines, keep, p);
    if !Actionable(lines[i]) {
      assert KeptAt(lines, i);
      var j :| ActionableAt(lines, j) && Covers(Indents(lines), i, j);
      assert KeptAt(lines, j);
      SelectedAt(lines, keep, j);
      SelectedCovers(lines, keep, i, j);
      assert ActionableAt(y, Rank(keep, j));
    }
  }

  lemma {:induction false} SelectEverything(lines: seq<string>, keep: seq<bool>)
    requires |keep| == |lines| && forall i :: 0 <= i < |keep| ==> keep[i]
    ensures Select(lines, keep) == lines
  {
    if lines != [] {
      var n := |lines| - 1;
      SelectEverything(lines[..n], keep[..n]);
      assert lines == lines[..n] + [lines[n]];
    }
  }

  /** Compacting is idempotent, on any lines. */
  lemma {:induction false} CompactIdempotent(lines: seq<string>)
    ensures Compacted(Compacted(lines)) == Compacted(lines)
  {
    var y := Compacted(lines);
    forall p | 0 <= p < |y| ensures Keeps(y)[p] { CompactKeepsAll(lines, p); }
    SelectEverything(y, Keeps(y));
  }

  /** The whole renderer: a fragment renders its children, any other root itself. */
  function RootForest(root: AriaNode): Forest {
    if root.role == "fragment" then ChildrenForest(root.children, true) else NodeForest(root, true, Nil)
  }

  method RenderAriaTree(root: AriaNode, compact: bool) returns (r: seq<string>)
    ensures !compact ==> r == Lines(RootForest(root), 0)
    ensures compact ==> r == Compacted(Lines(RootForest(root), 0))
  {
    if root.role == "fragment" {
      r := VisitChildren(root.children, "", true, []);
    } else {
      r := Visit(root, "", true, []);
    }
    assert r == Lines(RootForest(root), 0);
    if compact {
      r := Compact(r);
    }
  }
}
