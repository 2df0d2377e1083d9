/** The sanitizer's rules on the documents of the editor's own tests. */
module SanitizerExamples {
  import opened Seqs
  import opened Text
  import opened HtmlSanitizer

  /** Any value that starts with the scheme itself is a `javascript:` URL. */
  lemma SchemePrefixIsJavascript(rest: string)
    ensures IsJavascriptUrl(JavascriptScheme + rest)
  {
    var v := JavascriptScheme + rest;
    assert v[0] == 'j';
    assert TrimStart(v) == v;
    assert v[..|JavascriptScheme|] == JavascriptScheme;
    LowerOfLowercase(JavascriptScheme);
  }

  lemma RelativeUrlIsNotJavascript()
    ensures !IsJavascriptUrl("x")
  {
    assert TrimStart("x") == "x";
  }

  lemma ClassIsKept(stripStyle: bool)
    ensures !RemovesAttribute(Attr("class", "safe"), stripStyle)
  {
    LowerOfLowercase("class");
    assert !StartsWith("class", "on");
  }

  lemma OnclickIsRemoved(stripStyle: bool)
    ensures RemovesAttribute(Attr("onclick", "alert(1)"), stripStyle)
  {
    LowerOfLowercase("onclick");
    assert StartsWith("onclick", "on");
  }

  lemma OnerrorIsRemoved(stripStyle: bool)
    ensures RemovesAttribute(Attr("onerror", "alert(2)"), stripStyle)
  {
    LowerOfLowercase("onerror");
    assert StartsWith("onerror", "on");
  }

  lemma JavascriptHrefIsRemoved(stripStyle: bool)
    ensures RemovesAttribute(Attr("href", JavascriptScheme + "alert(1)"), stripStyle)
  {
    LowerOfLowercase("href");
    SchemePrefixIsJavascript("alert(1)");
  }

  lemma RelativeSrcIsKept(stripStyle: bool)
    ensures !RemovesAttribute(Attr("src", "x"), stripStyle)
  {
    LowerOfLowercase("src");
    RelativeUrlIsNotJavascript();
    assert !StartsWith("src", "on");
  }

  lemma StyleAttributeRule(stripStyle: bool)
    ensures RemovesAttribute(Attr("style", "color:red"), stripStyle) <==> stripStyle
  {
    StyleRemovedIffStripped("color:red", stripStyle);
  }
}

/** The sanitizer on the element trees of the editor's own tests. */
module SanitizerTreeExamples {
  import opened Seqs
  import opened HtmlSanitizer
  import opened SanitizerExamples

  const Script: Node := Element("script", [], [Text("alert(1)")])
  const Link: Node := Element("a", [Attr("href", JavascriptScheme + "alert(1)")], [Text("bad")])
  const Image: Node := Element("img", [Attr("src", "x"), Attr("onerror", "alert(2)")], [])
  const DivAttributes: seq<Attr> := [Attr("class", "safe"), Attr("style", "color:red"), Attr("onclick", "alert(1)")]
  const Div: Node := Element("div", DivAttributes, [Script, Link, Image])

  lemma SingleNodePruned(node: Node)
    ensures WithoutBlocked([node]) == NodeWithoutBlocked(node)
  {
    assert [node][..0] == [];
  }

  /** The script goes with its text; the link and the image stay as they are. */
  lemma ScriptPruned()
    ensures WithoutBlocked([Script, Link, Image]) == [Link, Image]
  {
    SingleNodePruned(Script);
    assert NoBlocked([Link, Image]) by {
      assert NodeNoBlocked(Link.children[0]);
      assert NoBlocked(Link.children);
    }
    WithoutBlockedFixpoint([Link, Image]);
    WithoutBlockedAppend([Script], [Link, Image]);
    assert [Script, Link, Image] == [Script] + [Link, Image];
  }

  lemma LinkFiltered()
    ensures FilteredNode(Link, false) == CleanLink
  {
    JavascriptHrefIsRemoved(false);
    FilterSingle(Attr("href", JavascriptScheme + "alert(1)"), KeepsAttribute(false));
    assert FilteredNodes(Link.children, false)[0] == Text("bad");
  }

  lemma FilterTwo<T>(a: T, b: T, keep: T -> bool)
    ensures Filter([a, b], keep) == (if keep(a) then [a] else []) + (if keep(b) then [b] else [])
  {
    FilterSnoc([a], b, keep);
    FilterSingle(a, keep);
    assert [a, b] == [a] + [b];
  }

  lemma FilterThree<T>(a: T, b: T, c: T, keep: T -> bool)
    ensures Filter([a, b, c], keep) == Filter([a, b], keep) + (if keep(c) then [c] else [])
  {
    FilterSnoc([a, b], c, keep);
    assert [a, b, c] == [a, b] + [c];
  }

  lemma ImageFiltered()
    ensures FilteredNode(Image, false) == CleanImage
  {
    RelativeSrcIsKept(false);
    OnerrorIsRemoved(false);
    FilterTwo(Attr("src", "x"), Attr("onerror", "alert(2)"), KeepsAttribute(false));
  }

  lemma DivAttributesFiltered()
    ensures KeptAttributes(DivAttributes, false) == [Attr("class", "safe"), Attr("style", "color:red")]
  {
    ClassIsKept(false);
    StyleAttributeRule(false);
    OnclickIsRemoved(false);
    FilterTwo(Attr("class", "safe"), Attr("style", "color:red"), KeepsAttribute(false));
    FilterThree(Attr("class", "safe"), Attr("style", "color:red"), Attr("onclick", "alert(1)"), KeepsAttribute(false));
  }

  const PrunedDiv: Node := Element("div", DivAttributes, [Link, Image])
  const CleanLink: Node := Element("a", [], [Text("bad")])
  const CleanImage: Node := Element("img", [Attr("src", "x")], [])
  const CleanDiv: Node := Element("div", [Attr("class", "safe"), Attr("style", "color:red")], [CleanLink, CleanImage])

  lemma DivPruned()
    ensures WithoutBlocked([Div]) == [PrunedDiv]
  {
    SingleNodePruned(Div);
    ScriptPruned();
  }

  lemma FilteredPair(a: Node, b: Node, stripStyle: bool)
    ensures FilteredNodes([a, b], stripStyle) == [FilteredNode(a, stripStyle), FilteredNode(b, stripStyle)]
  {
  }

  lemma PrunedDivFiltered()
    ensures FilteredNode(PrunedDiv, false) == CleanDiv
  {
    LinkFiltered();
    ImageFiltered();
    FilteredPair(Link, Image, false);
    DivAttributesFiltered();
  }

  /**
   * The custom block preview of the editor's tests, with styles kept: the
   * div keeps `class` and `style` and loses `onclick`; the script goes; the
   * `javascript:` link loses its `href` but keeps its text; the image keeps
   * `src` and loses `onerror`.
   */
  lemma CustomBlockPreviewExample()
    ensures Sanitized([Div], false) == [CleanDiv]
  {
    DivPruned();
    PrunedDivFiltered();
    assert FilteredNodes([PrunedDiv], false)[0] == FilteredNode(PrunedDiv, false);
  }

  /** An inline style smuggling a `javascript:` URL; the rule drops it by name, whatever its value. */
  const PayloadStyle: string := "color:red;background:url(javascript:alert(1))"

  const StyledParagraph: Node := Element("p", [Attr("style", PayloadStyle)], [Text("styled")])
  const PlainParagraph: Node := Element("p", [], [Text("styled")])

  lemma ParagraphPruned()
    ensures WithoutBlocked([StyledParagraph]) == [StyledParagraph]
  {
    assert NoBlocked([StyledParagraph]) by {
      assert NodeNoBlocked(StyledParagraph.children[0]);
    }
    WithoutBlockedFixpoint([StyledParagraph]);
  }

  lemma ParagraphFiltered()
    ensures FilteredNode(StyledParagraph, true) == PlainParagraph
  {
    StyleRemovedIffStripped(PayloadStyle, true);
    FilterSingle(Attr("style", PayloadStyle), KeepsAttribute(true));
    assert FilteredNodes(StyledParagraph.children, true)[0] == Text("styled");
  }

  /** An HTML block's paragraph with the default options loses its inline style but keeps its text. */
  lemma HtmlBlockStyleExample()
    ensures Sanitized([StyledParagraph], true) == [PlainParagraph]
  {
    ParagraphPruned();
    ParagraphFiltered();
    assert FilteredNodes([StyledParagraph], true)[0] == FilteredNode(StyledParagraph, true);
  }
}
