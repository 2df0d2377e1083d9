/**
 * The fixed email shell: a complete HTML document holding a centered,
 * table-based container whose width is either fixed or responsive, with the
 * rendered content placed in its single cell.
 */
module HtmlTemplates {
  import opened Wrappers
  import opened Text

  const Doctype: string := "<!doctype html>"

  /** Everything before the inner table, up to the indentation of its tag. */
  const Preamble: string := Doctype + PreambleBody

  const PreambleBody: string :=
    "\n"
    + "<html>\n"
    + "  <head>\n"
    + "    <meta charset=\"utf-8\" />\n"
    + "    <meta name=\"viewport\"" + " content=\"width=device-width, initial-scale=1\" />\n"
    + "    <title>Email</title>\n"
    + "  </head>\n"
    + "  <body" + " style=\"margin:0;padding:0;background-color:#f5f5f7;\">\n"
    + "    <table role=\"presentation\" width=\"100%\""
    + " cellspacing=\"0\" cellpadding=\"0\"" + " style=\"border-collapse:collapse;\">\n"
    + "      <tr>\n"
    + "        <td align=\"center\"" + " style=\"padding:24px 12px;\">\n"
    + "          "

  /** From the end of the inner table tag to the indentation of the content. */
  const CellOpening: string :=
    "\n"
    + "            <tr>\n"
    + "              <td style=\"padding:24px;\">\n"
    + "                "

  /** Everything after the content; there is no newline after the closing `html` tag. */
  const Closing: string :=
    "\n"
    + "              </td>\n"
    + "            </tr>\n"
    + "          </table>\n"
    + "        </td>\n"
    + "      </tr>\n"
    + "    </table>\n"
    + "  </body>\n"
    + "</html>"

  /** The opening tag of the inner container table. */
  function InnerTableTag(widthAttribute: string, widthStyles: string): string
  {
    "<table role=\"presentation\" width=\"" + widthAttribute
    + "\" cellspacing=\"0\" cellpadding=\"0\"" + " style=\"border-collapse:collapse;" + widthStyles
    + "background-color:#ffffff;\">"
  }

  /** `widthPx` written as a pixel length. */
  function Px(widthPx: int): string
  {
    IntToString(widthPx) + "px;"
  }

  /** The `width` attribute: the full width when responsive, otherwise the pixel count. */
  function WidthAttribute(widthPx: int, responsive: bool): (attr: string)
    ensures responsive ==> attr == "100%"
    ensures !responsive ==> attr == IntToString(widthPx) && IsDecimalInteger(attr)
  {
    if responsive then "100%" else IntToString(widthPx)
  }

  /** The optional minus sign followed by at least one digit, as a width is written. */
  predicate IsDecimalInteger(s: string)
  {
    var digits := if |s| > 0 && s[0] == '-' then s[1..] else s;
    |digits| > 0 && forall i :: 0 <= i < |digits| ==> IsDigit(digits[i])
  }

  /** The inline width styles: the maximum is always `widthPx`; the width is 100% or `widthPx`. */
  function WidthStyles(widthPx: int, responsive: bool): string
  {
    if responsive then "width:100%;max-width:" + Px(widthPx)
    else "width:" + Px(widthPx) + "max-width:" + Px(widthPx)
  }

  /** The shell text before the content for a width and a mode. */
  function Opening(widthPx: int, responsive: bool): string
  {
    Preamble + InnerTableTag(WidthAttribute(widthPx, responsive), WidthStyles(widthPx, responsive)) + CellOpening
  }

  /**
   * `wrapEmailHtml`: `responsive` is the `responsive` option, absent (or
   * null) meaning fixed width. The result is a whole document that begins
   * with the doctype, ends with the closing `html` tag and holds `content`
   * verbatim.
   */
  function WrapEmailHtml(content: string, widthPx: int, responsive: Option<bool>): (html: string)
    ensures Unframe(html, Opening(widthPx, responsive.GetOr(false)), Closing) == Some(content)
  {
    UnframeFrame(Opening(widthPx, responsive.GetOr(false)), content, Closing);
    Opening(widthPx, responsive.GetOr(false)) + content + Closing
  }

  /** A wrapped document begins with the doctype. */
  lemma WrapStartsWithDoctype(content: string, widthPx: int, responsive: Option<bool>)
    ensures StartsWith(WrapEmailHtml(content, widthPx, responsive), Doctype)
  {
    var opening := Opening(widthPx, responsive.GetOr(false));
    Layout(content, widthPx, responsive);
    OpeningStartsWithDoctype(widthPx, responsive.GetOr(false));
    StartsWithExtend(opening, content, Doctype);
    StartsWithExtend(opening + content, Closing, Doctype);
  }

  /** A wrapped document ends with the closing `html` tag. */
  lemma WrapEndsWithClosing(content: string, widthPx: int, responsive: Option<bool>)
    ensures var html := WrapEmailHtml(content, widthPx, responsive);
            |html| >= |Closing| && html[|html| - |Closing|..] == Closing
  {
    Layout(content, widthPx, responsive);
    EndsWithLast(Opening(widthPx, responsive.GetOr(false)) + content, Closing);
  }

  /** A wrapped document holds the content verbatim. */
  lemma WrapHoldsContent(content: string, widthPx: int, responsive: Option<bool>)
    ensures Contains(WrapEmailHtml(content, widthPx, responsive), content)
  {
    Layout(content, widthPx, responsive);
    ContainsMiddle(Opening(widthPx, responsive.GetOr(false)), content, Closing);
  }

  /** The wrapped document is the opening of its mode, the content and the closing. */
  lemma Layout(content: string, widthPx: int, responsive: Option<bool>)
    ensures WrapEmailHtml(content, widthPx, responsive) == Opening(widthPx, responsive.GetOr(false)) + content + Closing
  {
  }

  /** Every opening, whatever the width and mode, begins with the doctype. */
  lemma OpeningStartsWithDoctype(widthPx: int, responsive: bool)
    ensures StartsWith(Opening(widthPx, responsive), Doctype)
  {
    var tag := InnerTableTag(WidthAttribute(widthPx, responsive), WidthStyles(widthPx, responsive));
    StartsWithFirst(Doctype, PreambleBody);
    StartsWithExtend(Preamble, tag, Doctype);
    StartsWithExtend(Preamble + tag, CellOpening, Doctype);
  }

  lemma ContainsInOpening(before: string, sub: string, after: string, content: string, closing: string)
    ensures Contains(before + sub + after + content + closing, sub)
  {
    ContainsMiddle(before, sub, after);
    ContainsBefore(before + sub + after, content, sub);
    ContainsBefore(before + sub + after + content, closing, sub);
  }

  lemma StartsWithFirst(a: string, b: string)
    ensures StartsWith(a + b, a)
  {
    assert (a + b)[..|a|] == a;
  }

  lemma StartsWithExtend(a: string, b: string, p: string)
    requires StartsWith(a, p)
    ensures StartsWith(a + b, p)
  {
    assert (a + b)[..|p|] == a[..|p|];
  }

  /** The text between `opening` and `closing`, or `None` when `html` is not framed by them. */
  function Unframe(html: string, opening: string, closing: string): Option<string>
  {
    if |html| >= |opening| + |closing| && html[..|opening|] == opening && html[|html| - |closing|..] == closing
    then Some(html[|opening|..|html| - |closing|])
    else None
  }

  lemma UnframeFrame(opening: string, content: string, closing: string)
    ensures Unframe(opening + content + closing, opening, closing) == Some(content)
  {
    var s := opening + content + closing;
    assert s[..|opening|] == opening;
    assert s[|s| - |closing|..] == closing;
    assert s[|opening|..|s| - |closing|] == content;
  }

  lemma EndsWithLast(a: string, b: string)
    ensures |a + b| >= |b| && (a + b)[|a + b| - |b|..] == b
  {
  }

  /** Recovers the content from a wrapped document, or `None` when `html` is not one for this width and mode. */
  function UnwrapEmailHtml(html: string, widthPx: int, responsive: bool): Option<string>
  {
    Unframe(html, Opening(widthPx, responsive), Closing)
  }

  /** Unwrapping a wrapped document gives back exactly the content. */
  lemma UnwrapWrap(content: string, widthPx: int, responsive: Option<bool>)
    ensures UnwrapEmailHtml(WrapEmailHtml(content, widthPx, responsive), widthPx, responsive.GetOr(false)) == Some(content)
  {
    UnframeFrame(Opening(widthPx, responsive.GetOr(false)), content, Closing);
  }

  /** Different contents give different documents: the shell never loses or merges content. */
  lemma WrapIsInjective(c1: string, c2: string, widthPx: int, responsive: Option<bool>)
    requires WrapEmailHtml(c1, widthPx, responsive) == WrapEmailHtml(c2, widthPx, responsive)
    ensures c1 == c2
  {
    UnwrapWrap(c1, widthPx, responsive);
    UnwrapWrap(c2, widthPx, responsive);
  }

  /** Leaving the option out is the same as asking for a fixed width. */
  lemma DefaultIsFixedWidth(content: string, widthPx: int)
    ensures WrapEmailHtml(content, widthPx, None) == WrapEmailHtml(content, widthPx, Some(false))
  {
  }

  /**
   * The inner table carries the width as declared by the mode: fixed width
   * gives `width="N"` and `width:Npx;max-width:Npx;`, responsive gives
   * `width="100%"` and `width:100%;max-width:Npx;`.
   */
  lemma InnerTableWidths(content: string, widthPx: int)
    ensures Contains(WrapEmailHtml(content, widthPx, Some(false)),
                     InnerTableTag(IntToString(widthPx), "width:" + Px(widthPx) + "max-width:" + Px(widthPx)))
    ensures Contains(WrapEmailHtml(content, widthPx, Some(true)),
                     InnerTableTag("100%", "width:100%;max-width:" + Px(widthPx)))
  {
    TagInShell(content, widthPx, false);
    TagInShell(content, widthPx, true);
  }

  /** The inner table tag of a mode sits in the document of that mode. */
  lemma TagInShell(content: string, widthPx: int, responsive: bool)
    ensures Contains(WrapEmailHtml(content, widthPx, Some(responsive)),
                     InnerTableTag(WidthAttribute(widthPx, responsive), WidthStyles(widthPx, responsive)))
  {
    var tag := InnerTableTag(WidthAttribute(widthPx, responsive), WidthStyles(widthPx, responsive));
    Layout(content, widthPx, Some(responsive));
    ContainsInOpening(Preamble, tag, CellOpening, content, Closing);
  }
}
