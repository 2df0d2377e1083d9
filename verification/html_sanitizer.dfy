/**
 * The preview sanitizer's rewrite rules over an abstract element tree:
 * elements with a blocked tag are removed with their whole subtree, then
 * every remaining element loses its event-handler attributes, its `style`
 * attribute (unless told to keep it) and any URL attribute holding a
 * `javascript:` URL. The result is the head's style elements followed by the
 * body's content.
 */
module HtmlSanitizer {
  import opened Wrappers
  import opened Seqs
  import opened Text

  // ---------------------------------------------------------------------------
  // The tree
  // ---------------------------------------------------------------------------

  datatype Attr = Attr(name: string, value: string)

  /** An element never carries two attributes of the same name. */
  predicate DistinctNames(attrs: seq<Attr>)
  {
    forall i, j :: 0 <= i < j < |attrs| ==> attrs[i].name != attrs[j].name
  }

  type AttrList = attrs: seq<Attr> | DistinctNames(attrs) witness []

  /** A parsed node; tag names are as the HTML parser reports them, in lower case. */
  datatype Node = Text(text: string) | Element(tag: string, attrs: AttrList, children: seq<Node>)

  /** The children of the parsed document's head and body. */
  datatype HtmlDocument = HtmlDocument(head: seq<Node>, body: seq<Node>)

  const BlockedTags: set<string> := {"script", "iframe", "object", "embed", "link", "meta", "base", "form"}

  const UrlAttributes: set<string> := {"href", "src", "xlink:href", "formaction"}

  // ---------------------------------------------------------------------------
  // `javascript:` URLs
  // ---------------------------------------------------------------------------

  const JavascriptScheme: string := "javascript:"

  /** The scheme, in any letter case, starts at index `k` of `value`. */
  predicate SchemeAt(value: string, k: nat)
  {
    k + |JavascriptScheme| <= |value| && ToLowerAscii(value[k..k + |JavascriptScheme|]) == JavascriptScheme
  }

  /**
   * The test of `/^\s*javascript:/i`: after the leading whitespace comes the
   * scheme in any letter case. Case-insensitive matching without the `u` flag
   * folds only ASCII letters onto the scheme's letters.
   */
  predicate IsJavascriptUrl(value: string)
  {
    SchemeAt(TrimStart(value), 0)
  }

  /** `TrimStart` drops exactly the maximal whitespace prefix. */
  lemma {:induction false} TrimStartSplit(s: string) returns (m: nat)
    ensures m <= |s| && TrimStart(s) == s[m..] && AllWhitespace(s[..m])
    ensures m == |s| || !IsJsWhitespace(s[m])
  {
    if s != [] && IsJsWhitespace(s[0]) {
      var m' := TrimStartSplit(s[1..]);
      m := m' + 1;
      assert s[1..][m'..] == s[m..];
      forall i | 0 <= i < m ensures IsJsWhitespace(s[..m][i]) {
        if i > 0 { assert s[..m][i] == s[1..][..m'][i - 1]; }
      }
    } else {
      m := 0;
    }
  }

  /** The definition agrees with the regular expression read literally: some whitespace prefix, then the scheme. */
  lemma JavascriptUrlIsRegexMatch(value: string)
    ensures IsJavascriptUrl(value) <==> exists k: nat :: k <= |value| && AllWhitespace(value[..k]) && SchemeAt(value, k)
  {
    var m := TrimStartSplit(value);
    assert forall k: nat :: SchemeAt(value[m..], k) <==> SchemeAt(value, m + k) by {
      forall k: nat ensures SchemeAt(value[m..], k) <==> SchemeAt(value, m + k) {
        if m + k + |JavascriptScheme| <= |value| {
          assert value[m..][k..k + |JavascriptScheme|] == value[m + k..m + k + |JavascriptScheme|];
        }
      }
    }
    if IsJavascriptUrl(value) {
      assert SchemeAt(value, m);
    }
    forall k: nat | k <= |value| && AllWhitespace(value[..k]) && SchemeAt(value, k) ensures IsJavascriptUrl(value) {
      var lowered := ToLowerAscii(value[k..k + |JavascriptScheme|]);
      assert lowered[0] == 'j';
      assert value[k] == value[k..k + |JavascriptScheme|][0];
      assert !IsJsWhitespace(value[k]);
      forall j | 0 <= j < k ensures IsJsWhitespace(value[j]) {
        assert value[..k][j] == value[j];
      }
      forall j | 0 <= j < m ensures IsJsWhitespace(value[j]) {
        assert value[..m][j] == value[j];
      }
      assert k == m;
    }
  }

  // ---------------------------------------------------------------------------
  // The attribute filter
  // ---------------------------------------------------------------------------

  /**
   * Whether the walk removes an attribute: an event handler, a `style`
   * attribute when styles are stripped, or a URL attribute whose value is a
   * `javascript:` URL. The name is compared in lower case.
   */
  predicate RemovesAttribute(attr: Attr, stripStyle: bool)
  {
    var name := ToLowerAscii(attr.name);
    StartsWith(name, "on") || (stripStyle && name == "style") || (name in UrlAttributes && IsJavascriptUrl(attr.value))
  }

  function KeepsAttribute(stripStyle: bool): Attr -> bool
  {
    (attr: Attr) => !RemovesAttribute(attr, stripStyle)
  }

  /** The attributes the walk leaves on an element, in their order. */
  function KeptAttributes(attrs: seq<Attr>, stripStyle: bool): seq<Attr>
  {
    Filter(attrs, KeepsAttribute(stripStyle))
  }

  /** The kept attributes still have distinct names. */
  lemma KeptNamesDistinct(attrs: seq<Attr>, stripStyle: bool)
    requires DistinctNames(attrs)
    ensures DistinctNames(KeptAttributes(attrs, stripStyle))
  {
    var name := (attr: Attr) => attr.name;
    FilterKeepsDistinct(attrs, KeepsAttribute(stripStyle), name);
  }

  /** An attribute is kept exactly when it was there and no rule removes it. */
  lemma KeptAttributesMembers(attrs: seq<Attr>, stripStyle: bool)
    ensures forall a :: a in KeptAttributes(attrs, stripStyle) <==> a in attrs && !RemovesAttribute(a, stripStyle)
  {
    FilterMembers(attrs, KeepsAttribute(stripStyle));
  }

  function OtherName(name: string): Attr -> bool
  {
    (attr: Attr) => attr.name != name
  }

  /** `removeAttribute(name)`: the attributes without the one of that name. */
  function RemoveAttribute(attrs: seq<Attr>, name: string): seq<Attr>
  {
    Filter(attrs, OtherName(name))
  }

  /**
   * The loop over a snapshot of an element's attributes: each one the rules
   * match is removed by name from the live list.
   */
  method FilterAttributes(attrs: AttrList, stripStyle: bool) returns (current: seq<Attr>)
    ensures current == KeptAttributes(attrs, stripStyle)
  {
    var snapshot := attrs;
    current := attrs;
    for i := 0 to |snapshot|
      invariant current == KeptAttributes(snapshot[..i], stripStyle) + snapshot[i..]
    {
      var attr := snapshot[i];
      var name := ToLowerAscii(attr.name);
      if StartsWith(name, "on") {
        RemoveFromSnapshot(snapshot, i, stripStyle);
        current := RemoveAttribute(current, attr.name);
        continue;
      }
      if stripStyle && name == "style" {
        RemoveFromSnapshot(snapshot, i, stripStyle);
        current := RemoveAttribute(current, attr.name);
        continue;
      }
      if name in UrlAttributes && IsJavascriptUrl(attr.value) {
        RemoveFromSnapshot(snapshot, i, stripStyle);
        current := RemoveAttribute(current, attr.name);
      } else {
        KeepInSnapshot(snapshot, i, stripStyle);
      }
    }
    assert snapshot[..|snapshot|] == snapshot;
  }

  /** Removing the snapshot's `i`-th name from the live list drops exactly that attribute. */
  lemma RemoveFromSnapshot(snapshot: AttrList, i: nat, stripStyle: bool)
    requires i < |snapshot| && RemovesAttribute(snapshot[i], stripStyle)
    ensures RemoveAttribute(KeptAttributes(snapshot[..i], stripStyle) + snapshot[i..], snapshot[i].name)
         == KeptAttributes(snapshot[..i + 1], stripStyle) + snapshot[i + 1..]
  {
    var x := snapshot[i];
    var front := KeptAttributes(snapshot[..i], stripStyle);
    var back := snapshot[i + 1..];
    forall a | a in front ensures a.name != x.name {
      FilterSource(snapshot[..i], KeepsAttribute(stripStyle), a);
      var k :| 0 <= k < i && snapshot[..i][k] == a;
      assert snapshot[k] == a;
    }
    forall a | a in back ensures a.name != x.name {
      var k :| 0 <= k < |back| && back[k] == a;
      assert snapshot[i + 1 + k] == a;
    }
    assert snapshot[i..] == [x] + back;
    RemoveOnly(front, x, back);
    DropFromSnapshot(snapshot, i, stripStyle);
  }

  /** An attribute the rules remove adds nothing to the kept part. */
  lemma DropFromSnapshot(snapshot: AttrList, i: nat, stripStyle: bool)
    requires i < |snapshot| && RemovesAttribute(snapshot[i], stripStyle)
    ensures KeptAttributes(snapshot[..i + 1], stripStyle) == KeptAttributes(snapshot[..i], stripStyle)
  {
    assert snapshot[..i + 1] == snapshot[..i] + [snapshot[i]];
    FilterSnoc(snapshot[..i], snapshot[i], KeepsAttribute(stripStyle));
  }

  /** An attribute the rules keep moves from the unvisited part to the kept part. */
  lemma KeepInSnapshot(snapshot: AttrList, i: nat, stripStyle: bool)
    requires i < |snapshot| && !RemovesAttribute(snapshot[i], stripStyle)
    ensures KeptAttributes(snapshot[..i], stripStyle) + snapshot[i..]
         == KeptAttributes(snapshot[..i + 1], stripStyle) + snapshot[i + 1..]
  {
    var x := snapshot[i];
    assert snapshot[..i + 1] == snapshot[..i] + [x];
    FilterSnoc(snapshot[..i], x, KeepsAttribute(stripStyle));
    assert snapshot[i..] == [x] + snapshot[i + 1..];
    AppendAssociative(KeptAttributes(snapshot[..i], stripStyle), [x], snapshot[i + 1..]);
  }

  /** Removing a name that only `x` carries leaves everything around `x`. */
  lemma RemoveOnly(front: seq<Attr>, x: Attr, back: seq<Attr>)
    requires forall a :: a in front ==> a.name != x.name
    requires forall a :: a in back ==> a.name != x.name
    ensures RemoveAttribute(front + ([x] + back), x.name) == front + back
  {
    var keep := OtherName(x.name);
    FilterAppend(front, [x] + back, keep);
    FilterAppend([x], back, keep);
    FilterAll(front, keep);
    FilterAll(back, keep);
    FilterSnoc([], x, keep);
    assert [] + [x] == [x];
    assert Filter([x], keep) == [];
    assert Filter([x] + back, keep) == back;
  }

  /** Event handlers go whatever the options. */
  lemma EventHandlersAlwaysRemoved(attr: Attr, stripStyle: bool)
    requires StartsWith(ToLowerAscii(attr.name), "on")
    ensures RemovesAttribute(attr, stripStyle)
  {
  }

  /** A `style` attribute goes exactly when styles are stripped. */
  lemma StyleRemovedIffStripped(value: string, stripStyle: bool)
    ensures RemovesAttribute(Attr("style", value), stripStyle) <==> stripStyle
  {
    assert ToLowerAscii("style") == "style";
  }

  /** A URL attribute goes exactly when its value is a `javascript:` URL. */
  lemma UrlAttributeRule(attr: Attr, stripStyle: bool)
    requires ToLowerAscii(attr.name) in UrlAttributes
    ensures RemovesAttribute(attr, stripStyle) <==> IsJavascriptUrl(attr.value)
  {
    var name := ToLowerAscii(attr.name);
    assert !StartsWith(name, "on") by {
      assert name[0] == 'h' || name[0] == 's' || name[0] == 'x' || name[0] == 'f';
    }
  }

  /** Any other attribute, such as `class`, stays. */
  lemma OtherAttributesKept(attr: Attr, stripStyle: bool)
    requires !StartsWith(ToLowerAscii(attr.name), "on") && ToLowerAscii(attr.name) != "style"
    requires ToLowerAscii(attr.name) !in UrlAttributes
    ensures !RemovesAttribute(attr, stripStyle)
  {
  }

  // ---------------------------------------------------------------------------
  // The two passes over the tree
  // ---------------------------------------------------------------------------

  /** The tree after every blocked element has been removed with its subtree. */
  function WithoutBlocked(nodes: seq<Node>): seq<Node>
    decreases nodes
  {
    if |nodes| == 0 then [] else WithoutBlocked(nodes[..|nodes| - 1]) + NodeWithoutBlocked(nodes[|nodes| - 1])
  }

  function NodeWithoutBlocked(node: Node): seq<Node>
    decreases node
  {
    match node
    case Text(_) => [node]
    case Element(tag, attrs, children) =>
      if tag in BlockedTags then [] else [Element(tag, attrs, WithoutBlocked(children))]
  }

  /** The first pass works node by node: on a sequence in two parts it prunes each part. */
  lemma {:induction false} WithoutBlockedAppend(a: seq<Node>, b: seq<Node>)
    ensures WithoutBlocked(a + b) == WithoutBlocked(a) + WithoutBlocked(b)
    decreases |b|
  {
    if |b| == 0 {
      assert a + b == a;
    } else {
      var init, last := b[..|b| - 1], b[|b| - 1];
      assert (a + b)[..|a + b| - 1] == a + init;
      WithoutBlockedAppend(a, init);
    }
  }

  /** The tree after the walk has filtered every element's attributes. */
  function FilteredNodes(nodes: seq<Node>, stripStyle: bool): (filtered: seq<Node>)
    ensures |filtered| == |nodes|
    decreases nodes
  {
    seq(|nodes|, i requires 0 <= i < |nodes| => FilteredNode(nodes[i], stripStyle))
  }

  function FilteredNode(node: Node, stripStyle: bool): Node
    decreases node
  {
    match node
    case Text(_) => node
    case Element(tag, attrs, children) =>
      KeptNamesDistinct(attrs, stripStyle);
      Element(tag, KeptAttributes(attrs, stripStyle), FilteredNodes(children, stripStyle))
  }

  /** Both passes, in the source's order. */
  function Sanitized(nodes: seq<Node>, stripStyle: bool): (sanitized: seq<Node>)
    ensures NoBlocked(sanitized) && CleanAttributes(sanitized, stripStyle)
  {
    WithoutBlockedHasNone(nodes);
    FilterKeepsNoBlocked(WithoutBlocked(nodes), stripStyle);
    FilteredIsClean(WithoutBlocked(nodes), stripStyle);
    FilteredNodes(WithoutBlocked(nodes), stripStyle)
  }

  /** `querySelectorAll(BLOCKED_TAGS)` followed by `remove()` on each match. */
  method RemoveBlockedElements(nodes: seq<Node>) returns (kept: seq<Node>)
    ensures kept == WithoutBlocked(nodes)
    decreases nodes
  {
    kept := [];
    for i := 0 to |nodes|
      invariant kept == WithoutBlocked(nodes[..i])
    {
      var node := nodes[i];
      assert nodes[..i + 1][..i] == nodes[..i];
      if node.Element? {
        if node.tag !in BlockedTags {
          var children := RemoveBlockedElements(node.children);
          kept := kept + [Element(node.tag, node.attrs, children)];
        }
      } else {
        kept := kept + [node];
      }
    }
    assert nodes[..|nodes|] == nodes;
  }

  /** The tree walk: every element in document order has its attributes filtered. */
  method WalkElements(nodes: seq<Node>, stripStyle: bool) returns (filtered: seq<Node>)
    ensures filtered == FilteredNodes(nodes, stripStyle)
    decreases nodes
  {
    filtered := [];
    for i := 0 to |nodes|
      invariant |filtered| == i
      invariant forall k :: 0 <= k < i ==> filtered[k] == FilteredNode(nodes[k], stripStyle)
    {
      var node := nodes[i];
      if node.Element? {
        var attrs := FilterAttributes(node.attrs, stripStyle);
        KeptNamesDistinct(node.attrs, stripStyle);
        var children := WalkElements(node.children, stripStyle);
        filtered := filtered + [Element(node.tag, attrs, children)];
      } else {
        filtered := filtered + [node];
      }
    }
  }

  // ---------------------------------------------------------------------------
  // What the passes guarantee
  // ---------------------------------------------------------------------------

  /** No element of the tree, at any depth, has a blocked tag. */
  predicate NoBlocked(nodes: seq<Node>)
    decreases nodes
  {
    forall i :: 0 <= i < |nodes| ==> NodeNoBlocked(nodes[i])
  }

  predicate NodeNoBlocked(node: Node)
    decreases node
  {
    node.Element? ==> node.tag !in BlockedTags && NoBlocked(node.children)
  }

  /** No element of the tree, at any depth, has an attribute the rules remove. */
  predicate CleanAttributes(nodes: seq<Node>, stripStyle: bool)
    decreases nodes
  {
    forall i :: 0 <= i < |nodes| ==> NodeCleanAttributes(nodes[i], stripStyle)
  }

  predicate NodeCleanAttributes(node: Node, stripStyle: bool)
    decreases node
  {
    node.Element? ==>
      (forall a :: a in node.attrs ==> !RemovesAttribute(a, stripStyle)) && CleanAttributes(node.children, stripStyle)
  }

  lemma NoBlockedAppend(a: seq<Node>, b: seq<Node>)
    requires NoBlocked(a) && NoBlocked(b)
    ensures NoBlocked(a + b)
  {
    forall i | 0 <= i < |a + b| ensures NodeNoBlocked((a + b)[i]) {
      if i >= |a| { assert (a + b)[i] == b[i - |a|]; }
    }
  }

  /** After the first pass no blocked element is left anywhere. */
  lemma {:induction false} WithoutBlockedHasNone(nodes: seq<Node>)
    ensures NoBlocked(WithoutBlocked(nodes))
    decreases nodes
  {
    if |nodes| > 0 {
      WithoutBlockedHasNone(nodes[..|nodes| - 1]);
      NodeWithoutBlockedHasNone(nodes[|nodes| - 1]);
      NoBlockedAppend(WithoutBlocked(nodes[..|nodes| - 1]), NodeWithoutBlocked(nodes[|nodes| - 1]));
    }
  }

  lemma {:induction false} NodeWithoutBlockedHasNone(node: Node)
    ensures NoBlocked(NodeWithoutBlocked(node))
    decreases node
  {
    if node.Element? && node.tag !in BlockedTags {
      WithoutBlockedHasNone(node.children);
    }
  }

  /** The walk changes no tag, so it cannot bring a blocked element back. */
  lemma {:induction false} FilterKeepsNoBlocked(nodes: seq<Node>, stripStyle: bool)
    requires NoBlocked(nodes)
    ensures NoBlocked(FilteredNodes(nodes, stripStyle))
    decreases nodes
  {
    forall i | 0 <= i < |nodes| ensures NodeNoBlocked(FilteredNodes(nodes, stripStyle)[i]) {
      if nodes[i].Element? {
        FilterKeepsNoBlocked(nodes[i].children, stripStyle);
      }
    }
  }

  /** After the walk no element carries an attribute the rules remove. */
  lemma {:induction false} FilteredIsClean(nodes: seq<Node>, stripStyle: bool)
    ensures CleanAttributes(FilteredNodes(nodes, stripStyle), stripStyle)
    decreases nodes
  {
    forall i | 0 <= i < |nodes| ensures NodeCleanAttributes(FilteredNodes(nodes, stripStyle)[i], stripStyle) {
      if nodes[i].Element? {
        FilteredIsClean(nodes[i].children, stripStyle);
        KeptAttributesMembers(nodes[i].attrs, stripStyle);
      }
    }
  }

  /** The sanitized tree has no blocked element and no removable attribute. */
  lemma SanitizedIsSafe(nodes: seq<Node>, stripStyle: bool)
    ensures NoBlocked(Sanitized(nodes, stripStyle))
    ensures CleanAttributes(Sanitized(nodes, stripStyle), stripStyle)
  {
    WithoutBlockedHasNone(nodes);
    FilterKeepsNoBlocked(WithoutBlocked(nodes), stripStyle);
    FilteredIsClean(WithoutBlocked(nodes), stripStyle);
  }

  /** The first pass leaves a tree without blocked elements as it is. */
  lemma {:induction false} WithoutBlockedFixpoint(nodes: seq<Node>)
    requires NoBlocked(nodes)
    ensures WithoutBlocked(nodes) == nodes
    decreases nodes
  {
    if |nodes| > 0 {
      var init, last := nodes[..|nodes| - 1], nodes[|nodes| - 1];
      WithoutBlockedFixpoint(init);
      if last.Element? {
        WithoutBlockedFixpoint(last.children);
      }
      assert nodes == init + [last];
    }
  }

  /** The walk leaves a tree with clean attributes as it is. */
  lemma {:induction false} FilteredFixpoint(nodes: seq<Node>, stripStyle: bool)
    requires CleanAttributes(nodes, stripStyle)
    ensures FilteredNodes(nodes, stripStyle) == nodes
    decreases nodes
  {
    forall i | 0 <= i < |nodes| ensures FilteredNodes(nodes, stripStyle)[i] == nodes[i] {
      if nodes[i].Element? {
        FilteredFixpoint(nodes[i].children, stripStyle);
        FilterAll(nodes[i].attrs, KeepsAttribute(stripStyle));
      }
    }
  }

  /** Sanitizing a sanitized tree changes nothing. */
  lemma SanitizeIsIdempotent(nodes: seq<Node>, stripStyle: bool)
    ensures Sanitized(Sanitized(nodes, stripStyle), stripStyle) == Sanitized(nodes, stripStyle)
  {
    var once := Sanitized(nodes, stripStyle);
    SanitizedIsSafe(nodes, stripStyle);
    WithoutBlockedFixpoint(once);
    FilteredFixpoint(once, stripStyle);
  }

  /** The tree with every attribute list emptied: its tags and text only. */
  function Shape(nodes: seq<Node>): seq<Node>
    decreases nodes
  {
    seq(|nodes|, i requires 0 <= i < |nodes| => NodeShape(nodes[i]))
  }

  function NodeShape(node: Node): Node
    decreases node
  {
    match node
    case Text(_) => node
    case Element(tag, _, children) => Element(tag, [], Shape(children))
  }

  /** The walk touches attributes only: every tag, text node and position is kept. */
  lemma {:induction false} FilterKeepsShape(nodes: seq<Node>, stripStyle: bool)
    ensures Shape(FilteredNodes(nodes, stripStyle)) == Shape(nodes)
    decreases nodes
  {
    forall i | 0 <= i < |nodes| ensures Shape(FilteredNodes(nodes, stripStyle))[i] == Shape(nodes)[i] {
      if nodes[i].Element? {
        FilterKeepsShape(nodes[i].children, stripStyle);
      }
    }
  }

  // ---------------------------------------------------------------------------
  // Output
  // ---------------------------------------------------------------------------

  /** The `style` elements among the nodes and their descendants, in document order. */
  function StyleElements(nodes: seq<Node>): seq<Node>
    decreases nodes
  {
    if |nodes| == 0 then [] else StyleElements(nodes[..|nodes| - 1]) + NodeStyleElements(nodes[|nodes| - 1])
  }

  function NodeStyleElements(node: Node): seq<Node>
    decreases node
  {
    match node
    case Text(_) => []
    case Element(tag, _, children) => (if tag == "style" then [node] else []) + StyleElements(children)
  }

  /** The nodes serialized one after the other: `innerHTML` of their parent, or joined `outerHTML`s. */
  function SerializeAll(nodes: seq<Node>, serialize: Node -> string): string
  {
    Join(seq(|nodes|, i requires 0 <= i < |nodes| => serialize(nodes[i])), "")
  }

  /** The preview: the head's style elements, then the body's content. */
  function PreviewHtml(doc: HtmlDocument, serialize: Node -> string): string
  {
    SerializeAll(StyleElements(doc.head), serialize) + SerializeAll(doc.body, serialize)
  }

  function SanitizedDocument(doc: HtmlDocument, stripStyle: bool): HtmlDocument
  {
    HtmlDocument(Sanitized(doc.head, stripStyle), Sanitized(doc.body, stripStyle))
  }

  /**
   * `sanitizePreviewHtml`: `stripStyleAttributes` defaults to true; `parser`
   * is absent when the environment has no HTML parser, in which case the
   * input comes back unchanged; `serialize` gives a node's `outerHTML`.
   */
  method SanitizePreviewHtml(html: string, stripStyleAttributes: Option<bool>,
                             parser: Option<string -> HtmlDocument>, serialize: Node -> string)
    returns (result: string)
    ensures parser.None? ==> result == html
    ensures parser.Some? ==>
              result == PreviewHtml(SanitizedDocument(parser.value(html), stripStyleAttributes.GetOr(true)), serialize)
  {
    var stripStyle := stripStyleAttributes.GetOr(true);
    if parser.None? {
      return html;
    }
    var doc := parser.value(html);
    var head := RemoveBlockedElements(doc.head);
    var body := RemoveBlockedElements(doc.body);
    head := WalkElements(head, stripStyle);
    body := WalkElements(body, stripStyle);
    var headStyles := SerializeAll(StyleElements(head), serialize);
    result := headStyles + SerializeAll(body, serialize);
  }

  /** The output starts with the sanitized head's style elements, serialized in order. */
  lemma HeadStylesFirst(doc: HtmlDocument, stripStyle: bool, serialize: Node -> string)
    ensures StartsWith(PreviewHtml(SanitizedDocument(doc, stripStyle), serialize),
                       SerializeAll(StyleElements(Sanitized(doc.head, stripStyle)), serialize))
  {
    var styles := SerializeAll(StyleElements(Sanitized(doc.head, stripStyle)), serialize);
    var rest := SerializeAll(Sanitized(doc.body, stripStyle), serialize);
    assert (styles + rest)[..|styles|] == styles;
  }
}
