/**
 Whitelist sanitising of an HTML tree: allowed elements are written with their allowed attributes,
 the others are dropped around their content. The output is given as a stream of tokens and as the
 text that spells them.
 */
module HtmlSanitizer {
  import opened Wrappers
  import opened Whitespace
  import opened LetterCase
  import opened Sequences

  datatype Attr = Attr(key: string, value: string)

  /** `Other` is every kind of node the writer ignores: comments and document types. */
  datatype Node =
    | Text(data: string)
    | Element(tag: string, attrs: seq<Attr>, children: seq<Node>)
    | Document(children: seq<Node>)
    | Other

  datatype Token =
    | TextToken(data: string)
    | Open(tag: string, attrs: seq<Attr>)
    | Close(tag: string)

  /** Allowed tags as given, allowed attribute names in lower case. */
  datatype Policy = Policy(tags: set<string>, attrs: set<string>)

  // ----- Attributes -----

  /** The part before the first question mark or hash. */
  function BeforeQuery(u: string): string {
    if u == "" || u[0] == '?' || u[0] == '#' then "" else [u[0]] + BeforeQuery(u[1..])
  }

  predicate IsScriptScheme(u: string) {
    "javascript:" <= u || "vbscript:" <= u || "data:" <= u
  }

  predicate SanitizeURL(u: string) {
    !IsScriptScheme(BeforeQuery(TrimSpace(ToLower(u))))
  }

  predicate KeepsAttr(policy: Policy, attr: Attr) {
    var key := ToLower(attr.key);
    key in policy.attrs && ((key == "href" || key == "src") ==> SanitizeURL(attr.value))
  }

  function KeptAttrs(policy: Policy, attrs: seq<Attr>): seq<Attr> {
    if attrs == [] then []
    else
      var last := attrs[|attrs| - 1];
      KeptAttrs(policy, attrs[..|attrs| - 1]) + (if KeepsAttr(policy, last) then [last] else [])
  }

  lemma {:induction false} PrefixSurvivesCut(u: string, scheme: string)
    requires forall i :: 0 <= i < |scheme| ==> scheme[i] != '?' && scheme[i] != '#'
    ensures scheme <= BeforeQuery(u) <==> scheme <= u
  {
    if scheme != "" && u != "" {
      PrefixSurvivesCut(u[1..], scheme[1..]);
      if scheme <= u {
        assert scheme[0] == u[0] && scheme[1..] <= u[1..];
        assert scheme == [scheme[0]] + scheme[1..];
      }
      if scheme <= BeforeQuery(u) {
        assert scheme[1..] <= BeforeQuery(u)[1..];
        assert scheme == [scheme[0]] + scheme[1..];
        assert u == [u[0]] + u[1..];
      }
    }
  }

  /** A URL is refused exactly when, trimmed and in lower case, it begins with a script scheme: cutting
      the query changes no verdict. */
  lemma SanitizeURLIgnoresQuery(u: string)
    ensures var v := TrimSpace(ToLower(u));
      SanitizeURL(u) <==> !("javascript:" <= v) && !("vbscript:" <= v) && !("data:" <= v)
  {
    var v := TrimSpace(ToLower(u));
    PrefixSurvivesCut(v, "javascript:");
    PrefixSurvivesCut(v, "vbscript:");
    PrefixSurvivesCut(v, "data:");
  }

  /** The attribute's name is allowed, and if it holds a URL that is no script. */
  ghost predicate Qualifies(policy: Policy, attr: Attr) {
    var key, v := ToLower(attr.key), TrimSpace(ToLower(attr.value));
    && key in policy.attrs
    && (key in {"href", "src"} ==> !("javascript:" <= v) && !("vbscript:" <= v) && !("data:" <= v))
  }

  lemma QualifiesIff(policy: Policy, attr: Attr)
    ensures KeepsAttr(policy, attr) <==> Qualifies(policy, attr)
  {
    SanitizeURLIgnoresQuery(attr.value);
    hide SanitizeURL;
  }

  lemma {:induction false} KeptAttrsAreKept(policy: Policy, attrs: seq<Attr>)
    ensures forall i :: 0 <= i < |KeptAttrs(policy, attrs)| ==> KeepsAttr(policy, KeptAttrs(policy, attrs)[i])
  {
    if attrs != [] {
      KeptAttrsAreKept(policy, attrs[..|attrs| - 1]);
    }
  }

  /** Nothing that qualifies is lost, nothing is added. */
  lemma {:induction false} KeptAttrsAreAllKept(policy: Policy, attrs: seq<Attr>, attr: Attr)
    ensures multiset(KeptAttrs(policy, attrs))[attr] == if Qualifies(policy, attr) then multiset(attrs)[attr] else 0
  {
    QualifiesIff(policy, attr);
    hide KeepsAttr, Qualifies;
    if attrs != [] {
      var n := |attrs| - 1;
      KeptAttrsAreAllKept(policy, attrs[..n], attr);
      assert attrs == attrs[..n] + [attrs[n]];
    }
  }

  lemma {:induction false} KeptAttrsOfKept(policy: Policy, attrs: seq<Attr>)
    requires forall i :: 0 <= i < |attrs| ==> KeepsAttr(policy, attrs[i])
    ensures KeptAttrs(policy, attrs) == attrs
  {
    if attrs != [] {
      KeptAttrsOfKept(policy, attrs[..|attrs| - 1]);
    }
  }

  // ----- The token stream -----

  function Sanitize(policy: Policy, node: Node): seq<Token> {
    match node
    case Text(data) => [TextToken(data)]
    case Element(tag, attrs, children) =>
      if tag in policy.tags
      then [Open(tag, KeptAttrs(policy, attrs))] + SanitizeAll(policy, children) + [Close(tag)]
      else SanitizeAll(policy, children)
    case Document(children) => SanitizeAll(policy, children)
    case Other => []
  }

  function SanitizeAll(policy: Policy, nodes: seq<Node>): seq<Token> {
    if nodes == [] then [] else Sanitize(policy, nodes[0]) + SanitizeAll(policy, nodes[1..])
  }

  // ----- The text of a stream -----

  /** Attribute values are escaped. */
  function EscapeChar(c: char): (escaped: string)
    ensures c !in {'<', '>', '&', '\'', '\"'} ==> escaped == [c]
    ensures c == '<' ==> escaped == "&lt;"
    ensures c == '>' ==> escaped == "&gt;"
    ensures c == '&' ==> escaped == "&amp;"
    ensures c == '\'' ==> escaped == "&#39;"
    ensures c == '\"' ==> escaped == "&#34;"
  {
    match c
    case '<' => "&lt;"
    case '>' => "&gt;"
    case '&' => "&amp;"
    case '\'' => "&#39;"
    case '\"' => "&#34;"
    case _ => [c]
  }

  function EscapeText(s: string): string {
    if s == "" then "" else EscapeChar(s[0]) + EscapeText(s[1..])
  }

  function RenderAttr(attr: Attr): string {
    " " + attr.key + "=\"" + EscapeText(attr.value) + "\""
  }

  function RenderAttrs(attrs: seq<Attr>): string {
    if attrs == [] then "" else RenderAttr(attrs[0]) + RenderAttrs(attrs[1..])
  }

  /** Text is written as it is. */
  function RenderToken(token: Token): string {
    match token
    case TextToken(data) => data
    case Open(tag, attrs) => "<" + tag + RenderAttrs(attrs) + ">"
    case Close(tag) => "</" + tag + ">"
  }

  function Render(tokens: seq<Token>): string {
    if tokens == [] then "" else RenderToken(tokens[0]) + Render(tokens[1..])
  }

  lemma {:induction false} RenderAttrsSnoc(attrs: seq<Attr>, attr: Attr)
    ensures RenderAttrs(attrs + [attr]) == RenderAttrs(attrs) + RenderAttr(attr)
  {
    if attrs == [] {
      assert [attr][1..] == [] && attrs + [attr] == [attr];
    } else {
      assert (attrs + [attr])[1..] == attrs[1..] + [attr];
      RenderAttrsSnoc(attrs[1..], attr);
    }
  }

  lemma {:induction false} RenderConcat(a: seq<Token>, b: seq<Token>)
    ensures Render(a + b) == Render(a) + Render(b)
  {
    if a == [] {
      assert a + b == b;
    } else {
      assert (a + b)[1..] == a[1..] + b;
      RenderConcat(a[1..], b);
    }
  }

  lemma RenderOne(token: Token)
    ensures Render([token]) == RenderToken(token)
  {
    assert [token][1..] == [];
  }

  lemma RenderElement(tag: string, attrs: seq<Attr>, inner: seq<Token>)
    ensures Render([Open(tag, attrs)] + inner + [Close(tag)]) ==
      "<" + tag + RenderAttrs(attrs) + ">" + Render(inner) + ("</" + tag + ">")
  {
    RenderConcat([Open(tag, attrs)] + inner, [Close(tag)]);
    RenderConcat([Open(tag, attrs)], inner);
    RenderOne(Open(tag, attrs));
    RenderOne(Close(tag));
  }

  class Buffer {
    var text: string

    constructor ()
      ensures text == ""
    {
      text := "";
    }

    method WriteString(s: string)
      modifies this
      ensures text == old(text) + s
    {
      text := text + s;
    }
  }

  /** The writer as it runs: depth first, siblings in order, into one shared buffer. */
  method SanitizeNode(node: Node, buf: Buffer, policy: Policy)
    modifies buf
    ensures buf.text == old(buf.text) + Render(Sanitize(policy, node))
    decreases node, 1
  {
    hide Render, RenderAttrs;
    match node
    case Text(data) =>
      RenderOne(TextToken(data));
      buf.WriteString(data);
    case Element(tag, attrs, children) =>
      if tag in policy.tags {
        var before := buf.text;
        buf.WriteString("<" + tag);
        WriteAttrs(attrs, buf, policy);
        buf.WriteString(">");
        SanitizeChildren(node, children, buf, policy);
        buf.WriteString("</" + tag + ">");
        RenderElement(tag, KeptAttrs(policy, attrs), SanitizeAll(policy, children));
      } else {
        SanitizeChildren(node, children, buf, policy);
      }
    case Document(children) =>
      SanitizeChildren(node, children, buf, policy);
    case Other =>
      RenderNothing();
  }

  lemma RenderNothing()
    ensures Render([]) == "" && RenderAttrs([]) == "" && forall policy :: KeptAttrs(policy, []) == []
  {
  }

  lemma KeptAttrsSnoc(policy: Policy, attrs: seq<Attr>, attr: Attr)
    ensures KeptAttrs(policy, attrs + [attr]) ==
      if KeepsAttr(policy, attr) then KeptAttrs(policy, attrs) + [attr] else KeptAttrs(policy, attrs)
  {
    assert (attrs + [attr])[..|attrs|] == attrs;
  }

  method WriteAttrs(attrs: seq<Attr>, buf: Buffer, policy: Policy)
    modifies buf
    ensures buf.text == old(buf.text) + RenderAttrs(KeptAttrs(policy, attrs))
  {
    hide RenderAttrs, KeptAttrs, SanitizeURL, ToLower;
    RenderNothing();
    for i := 0 to |attrs|
      invariant buf.text == old(buf.text) + RenderAttrs(KeptAttrs(policy, attrs[..i]))
    {
      ghost var kept := KeptAttrs(policy, attrs[..i]);
      assert attrs[..i + 1] == attrs[..i] + [attrs[i]];
      KeptAttrsSnoc(policy, attrs[..i], attrs[i]);
      var key := ToLower(attrs[i].key);
      if key !in policy.attrs {
        continue;
      }
      if (key == "href" || key == "src") && !SanitizeURL(attrs[i].value) {
        continue;
      }
      RenderAttrsSnoc(kept, attrs[i]);
      Regroup(old(buf.text), RenderAttrs(kept), RenderAttr(attrs[i]));
      buf.WriteString(" " + attrs[i].key + "=\"" + EscapeText(attrs[i].value) + "\"");
    }
    assert attrs[..|attrs|] == attrs;
  }

  method SanitizeChildren(parent: Node, children: seq<Node>, buf: Buffer, policy: Policy)
    requires forall i :: 0 <= i < |children| ==> children[i] < parent
    modifies buf
    ensures buf.text == old(buf.text) + Render(SanitizeAll(policy, children))
    decreases parent, 0
  {
    hide Render;
    ghost var whole := Render(SanitizeAll(policy, children));
    RenderNothing();
    for i := 0 to |children|
      invariant buf.text + Render(SanitizeAll(policy, children[i..])) == old(buf.text) + whole
    {
      ghost var before := buf.text;
      SanitizeNode(children[i], buf, policy);
      assert children[i..][1..] == children[i + 1..];
      assert SanitizeAll(policy, children[i..]) == Sanitize(policy, children[i]) + SanitizeAll(policy, children[i + 1..]);
      RenderConcat(Sanitize(policy, children[i]), SanitizeAll(policy, children[i + 1..]));
      Regroup(before, Render(Sanitize(policy, children[i])), Render(SanitizeAll(policy, children[i + 1..])));
    }
  }

  // ----- The forest a stream denotes -----

  /** What is left of a node: an allowed element with its kept attributes, or its content. */
  function Prune(policy: Policy, node: Node): seq<Node> {
    match node
    case Text(data) => [node]
    case Element(tag, attrs, children) =>
      if tag in policy.tags then [Element(tag, KeptAttrs(policy, attrs), PruneAll(policy, children))]
      else PruneAll(policy, children)
    case Document(children) => PruneAll(policy, children)
    case Other => []
  }

  function PruneAll(policy: Policy, nodes: seq<Node>): seq<Node> {
    if nodes == [] then [] else Prune(policy, nodes[0]) + PruneAll(policy, nodes[1..])
  }

  datatype Frame = Frame(tag: string, attrs: seq<Attr>, before: seq<Node>)

  /** Reads tokens with a stack of open elements; `siblings` are the nodes read in the innermost one.
      Nothing is read from a stream that is not well nested. */
  function Parse(tokens: seq<Token>, siblings: seq<Node>, stack: seq<Frame>): Option<seq<Node>>
    decreases |tokens|
  {
    if tokens == [] then
      if stack == [] then Some(siblings) else None
    else
      match tokens[0]
      case TextToken(data) => Parse(tokens[1..], siblings + [Text(data)], stack)
      case Open(tag, attrs) => Parse(tokens[1..], [], [Frame(tag, attrs, siblings)] + stack)
      case Close(tag) =>
        if stack == [] || stack[0].tag != tag then None
        else Parse(tokens[1..], stack[0].before + [Element(tag, stack[0].attrs, siblings)], stack[1..])
  }

  lemma {:induction false} NodeParses(policy: Policy, node: Node, rest: seq<Token>, siblings: seq<Node>, stack: seq<Frame>)
    ensures Parse(Sanitize(policy, node) + rest, siblings, stack) == Parse(rest, siblings + Prune(policy, node), stack)
    decreases node
  {
    match node
    case Text(data) =>
      assert (Sanitize(policy, node) + rest)[1..] == rest;
    case Element(tag, attrs, children) =>
      if tag in policy.tags {
        var inner := SanitizeAll(policy, children);
        var kept := KeptAttrs(policy, attrs);
        var closed := [Close(tag)] + rest;
        var frames := [Frame(tag, kept, siblings)] + stack;
        assert Sanitize(policy, node) + rest == [Open(tag, kept)] + (inner + closed);
        assert ([Open(tag, kept)] + (inner + closed))[1..] == inner + closed;
        AllParse(policy, children, closed, [], frames);
        assert [] + PruneAll(policy, children) == PruneAll(policy, children);
        assert closed[1..] == rest && frames[1..] == stack;
      } else {
        AllParse(policy, children, rest, siblings, stack);
      }
    case Document(children) =>
      AllParse(policy, children, rest, siblings, stack);
    case Other =>
      assert [] + rest == rest && siblings + [] == siblings;
  }

  lemma {:induction false} AllParse(policy: Policy, nodes: seq<Node>, rest: seq<Token>, siblings: seq<Node>, stack: seq<Frame>)
    ensures Parse(SanitizeAll(policy, nodes) + rest, siblings, stack) == Parse(rest, siblings + PruneAll(policy, nodes), stack)
    decreases nodes
  {
    if nodes == [] {
      assert [] + rest == rest && siblings + [] == siblings;
    } else {
      var first, others := Sanitize(policy, nodes[0]), SanitizeAll(policy, nodes[1..]);
      assert first + others + rest == first + (others + rest);
      NodeParses(policy, nodes[0], others + rest, siblings, stack);
      AllParse(policy, nodes[1..], rest, siblings + Prune(policy, nodes[0]), stack);
      assert siblings + Prune(policy, nodes[0]) + PruneAll(policy, nodes[1..])
          == siblings + (Prune(policy, nodes[0]) + PruneAll(policy, nodes[1..]));
    }
  }

  /** The output of any tree is well nested and denotes the pruned tree. */
  lemma OutputIsWellNested(policy: Policy, node: Node)
    ensures Parse(Sanitize(policy, node), [], []) == Some(Prune(policy, node))
  {
    NodeParses(policy, node, [], [], []);
    assert Sanitize(policy, node) + [] == Sanitize(policy, node);
    assert [] + Prune(policy, node) == Prune(policy, node);
  }

  lemma {:induction false} SanitizeAllConcat(policy: Policy, a: seq<Node>, b: seq<Node>)
    ensures SanitizeAll(policy, a + b) == SanitizeAll(policy, a) + SanitizeAll(policy, b)
    decreases |a|
  {
    if a == [] {
      assert a + b == b;
    } else {
      assert (a + b)[1..] == a[1..] + b;
      SanitizeAllConcat(policy, a[1..], b);
    }
  }

  lemma SanitizeSingle(policy: Policy, node: Node)
    ensures SanitizeAll(policy, [node]) == Sanitize(policy, node)
  {
    assert [node][1..] == [];
  }

  lemma {:induction false} PrunedSanitizes(policy: Policy, node: Node)
    ensures SanitizeAll(policy, Prune(policy, node)) == Sanitize(policy, node)
    decreases node
  {
    match node
    case Text(data) => SanitizeSingle(policy, node);
    case Element(tag, attrs, children) =>
      AllPrunedSanitizes(policy, children);
      if tag in policy.tags {
        KeptAttrsAreKept(policy, attrs);
        KeptAttrsOfKept(policy, KeptAttrs(policy, attrs));
        SanitizeSingle(policy, Prune(policy, node)[0]);
      }
    case Document(children) => AllPrunedSanitizes(policy, children);
    case Other =>
  }

  lemma {:induction false} AllPrunedSanitizes(policy: Policy, nodes: seq<Node>)
    ensures SanitizeAll(policy, PruneAll(policy, nodes)) == SanitizeAll(policy, nodes)
    decreases nodes
  {
    if nodes != [] {
      PrunedSanitizes(policy, nodes[0]);
      AllPrunedSanitizes(policy, nodes[1..]);
      SanitizeAllConcat(policy, Prune(policy, nodes[0]), PruneAll(policy, nodes[1..]));
    }
  }

  /** Reading an output back and sanitising what it denotes writes the same output. */
  lemma SanitizeTwice(policy: Policy, node: Node)
    ensures var read := Parse(Sanitize(policy, node), [], []);
      read.Some? && SanitizeAll(policy, read.value) == Sanitize(policy, node)
  {
    OutputIsWellNested(policy, node);
    PrunedSanitizes(policy, node);
  }

  // ----- What an output may hold -----

  ghost predicate TokenAllowed(policy: Policy, token: Token) {
    match token
    case TextToken(_) => true
    case Open(tag, attrs) => tag in policy.tags && forall i :: 0 <= i < |attrs| ==> Qualifies(policy, attrs[i])
    case Close(tag) => tag in policy.tags
  }

  ghost predicate TokensAllowed(policy: Policy, tokens: seq<Token>) {
    forall i :: 0 <= i < |tokens| ==> TokenAllowed(policy, tokens[i])
  }

  /** Only allowed tags are written, and on them only allowed attributes whose URLs are safe. */
  lemma {:induction false} OutputIsAllowed(policy: Policy, node: Node)
    ensures TokensAllowed(policy, Sanitize(policy, node))
    decreases node
  {
    match node
    case Text(_) =>
    case Element(tag, attrs, children) =>
      AllOutputIsAllowed(policy, children);
      KeptAttrsAreKept(policy, attrs);
      forall attr ensures KeepsAttr(policy, attr) <==> Qualifies(policy, attr) {
        QualifiesIff(policy, attr);
      }
      hide KeepsAttr, Qualifies;
    case Document(children) => AllOutputIsAllowed(policy, children);
    case Other =>
  }

  lemma {:induction false} AllOutputIsAllowed(policy: Policy, nodes: seq<Node>)
    ensures TokensAllowed(policy, SanitizeAll(policy, nodes))
    decreases nodes
  {
    if nodes != [] {
      OutputIsAllowed(policy, nodes[0]);
      AllOutputIsAllowed(policy, nodes[1..]);
    }
  }

  /** The text of a tree, in document order. */
  function Texts(node: Node): seq<string> {
    match node
    case Text(data) => [data]
    case Element(_, _, children) => TextsOfAll(children)
    case Document(children) => TextsOfAll(children)
    case Other => []
  }

  function TextsOfAll(nodes: seq<Node>): seq<string> {
    if nodes == [] then [] else Texts(nodes[0]) + TextsOfAll(nodes[1..])
  }

  function TextsWritten(tokens: seq<Token>): seq<string> {
    if tokens == [] then []
    else (if tokens[0].TextToken? then [tokens[0].data] else []) + TextsWritten(tokens[1..])
  }

  lemma {:induction false} TextsWrittenConcat(a: seq<Token>, b: seq<Token>)
    ensures TextsWritten(a + b) == TextsWritten(a) + TextsWritten(b)
  {
    if a == [] {
      assert a + b == b;
    } else {
      assert (a + b)[1..] == a[1..] + b;
      TextsWrittenConcat(a[1..], b);
    }
  }

  /** No text is lost, added or moved. */
  lemma {:induction false} OutputKeepsTexts(policy: Policy, node: Node)
    ensures TextsWritten(Sanitize(policy, node)) == Texts(node)
    decreases node
  {
    match node
    case Text(_) =>
      assert Sanitize(policy, node)[1..] == [];
    case Element(tag, attrs, children) =>
      AllOutputKeepsTexts(policy, children);
      if tag in policy.tags {
        var open, inner, close := [Open(tag, KeptAttrs(policy, attrs))], SanitizeAll(policy, children), [Close(tag)];
        TextsWrittenConcat(open + inner, close);
        TextsWrittenConcat(open, inner);
        assert open[1..] == [] && close[1..] == [];
      }
    case Document(children) => AllOutputKeepsTexts(policy, children);
    case Other =>
  }

  lemma {:induction false} AllOutputKeepsTexts(policy: Policy, nodes: seq<Node>)
    ensures TextsWritten(SanitizeAll(policy, nodes)) == TextsOfAll(nodes)
    decreases nodes
  {
    if nodes != [] {
      OutputKeepsTexts(policy, nodes[0]);
      AllOutputKeepsTexts(policy, nodes[1..]);
      TextsWrittenConcat(Sanitize(policy, nodes[0]), SanitizeAll(policy, nodes[1..]));
    }
  }

  /** The allowed elements of a tree, in document order, with the attributes they keep. */
  ghost function Elements(policy: Policy, node: Node): seq<(string, seq<Attr>)> {
    match node
    case Element(tag, attrs, children) =>
      (if tag in policy.tags then [(tag, KeptAttrs(policy, attrs))] else []) + ElementsOfAll(policy, children)
    case Document(children) => ElementsOfAll(policy, children)
    case _ => []
  }

  ghost function ElementsOfAll(policy: Policy, nodes: seq<Node>): seq<(string, seq<Attr>)> {
    if nodes == [] then [] else Elements(policy, nodes[0]) + ElementsOfAll(policy, nodes[1..])
  }

  ghost function Opened(tokens: seq<Token>): seq<(string, seq<Attr>)> {
    if tokens == [] then []
    else (if tokens[0].Open? then [(tokens[0].tag, tokens[0].attrs)] else []) + Opened(tokens[1..])
  }

  lemma {:induction false} OpenedConcat(a: seq<Token>, b: seq<Token>)
    ensures Opened(a + b) == Opened(a) + Opened(b)
  {
    if a == [] {
      assert a + b == b;
    } else {
      assert (a + b)[0] == a[0] && (a + b)[1..] == a[1..] + b;
      OpenedConcat(a[1..], b);
      Regroup(if a[0].Open? then [(a[0].tag, a[0].attrs)] else [], Opened(a[1..]), Opened(b));
    }
  }

  /** No allowed element is lost, added or moved. */
  lemma {:induction false} OutputKeepsElements(policy: Policy, node: Node)
    ensures Opened(Sanitize(policy, node)) == Elements(policy, node)
    decreases node
  {
    match node
    case Element(tag, attrs, children) =>
      AllOutputKeepsElements(policy, children);
      if tag in policy.tags {
        var open, inner, close := [Open(tag, KeptAttrs(policy, attrs))], SanitizeAll(policy, children), [Close(tag)];
        OpenedConcat(open + inner, close);
        OpenedConcat(open, inner);
        assert open[1..] == [] && close[1..] == [];
      }
    case Document(children) => AllOutputKeepsElements(policy, children);
    case Text(_) =>
      assert Sanitize(policy, node)[1..] == [];
    case Other =>
  }

  lemma {:induction false} AllOutputKeepsElements(policy: Policy, nodes: seq<Node>)
    ensures Opened(SanitizeAll(policy, nodes)) == ElementsOfAll(policy, nodes)
    decreases nodes
  {
    if nodes != [] {
      OutputKeepsElements(policy, nodes[0]);
      AllOutputKeepsElements(policy, nodes[1..]);
      OpenedConcat(Sanitize(policy, nodes[0]), SanitizeAll(policy, nodes[1..]));
    }
  }

  /** A tree of texts and allowed elements, with nothing on them that the policy refuses. */
  ghost predicate Clean(policy: Policy, node: Node) {
    match node
    case Text(_) => true
    case Element(tag, attrs, children) =>
      && tag in policy.tags && (forall i :: 0 <= i < |attrs| ==> Qualifies(policy, attrs[i]))
      && forall i :: 0 <= i < |children| ==> Clean(policy, children[i])
    case _ => false
  }

  /** A clean tree is what its output denotes: nothing in it is changed. */
  lemma CleanTreeIsUntouched(policy: Policy, node: Node)
    requires Clean(policy, node)
    ensures Parse(Sanitize(policy, node), [], []) == Some([node])
  {
    OutputIsWellNested(policy, node);
    CleanIsPruned(policy, node);
  }

  lemma {:induction false} CleanIsPruned(policy: Policy, node: Node)
    requires Clean(policy, node)
    ensures Prune(policy, node) == [node]
    decreases node
  {
    if node.Element? {
      forall i | 0 <= i < |node.attrs| ensures KeepsAttr(policy, node.attrs[i]) {
        QualifiesIff(policy, node.attrs[i]);
      }
      KeptAttrsOfKept(policy, node.attrs);
      CleanArePruned(policy, node.children);
    }
  }

  lemma {:induction false} CleanArePruned(policy: Policy, nodes: seq<Node>)
    requires forall i :: 0 <= i < |nodes| ==> Clean(policy, nodes[i])
    ensures PruneAll(policy, nodes) == nodes
    decreases nodes
  {
    if nodes != [] {
      CleanIsPruned(policy, nodes[0]);
      CleanArePruned(policy, nodes[1..]);
      assert [nodes[0]] + nodes[1..] == nodes;
    }
  }
}
