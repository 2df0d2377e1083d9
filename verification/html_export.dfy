/**
 * Pre-export validation of a document: a document is exportable only when it
 * has at least one block and no block is in an unexportable state; otherwise
 * every problem is listed, block by block.
 */
module ExportValidation {
  import opened Wrappers
  import opened Types
  import opened Validation
  import opened Seqs
  import opened Text

  const EmptyDocumentError: string := "Document must contain at least one block."

  /** Every run's colour is absent or a hex colour. */
  predicate RunColorsValid(runs: seq<TextRun>)
  {
    forall i :: 0 <= i < |runs| ==> IsValidHexColor(runs[i].color)
  }

  /** What makes a block exportable, stated per variant independently of the messages. */
  predicate Exportable(block: Block, protocolOf: UrlProtocolOf)
  {
    match block
    case TextBlock(_, text, runs, _) => RunsWellFormed(text, runs) && RunColorsValid(runs)
    case ButtonBlock(_, _, url, _, textColor, backgroundColor, _) =>
      IsValidHttpUrl(url, protocolOf) && IsHexColorLiteral(textColor) && IsHexColorLiteral(backgroundColor)
    case ImageBlock(_, url, status, _) => IsValidHttpUrl(url, protocolOf) && status == Ready
    case HtmlBlock(_, _) => true
    case CustomBlock(_, _, _, _, _) => true
  }

  /** The messages for a text block: bad runs, then at most one colour error however many runs are bad. */
  function TextErrors(id: string, text: string, runs: seq<TextRun>): (errors: seq<string>)
    ensures errors == [] <==> RunsWellFormed(text, runs) && RunColorsValid(runs)
    ensures |errors| <= 2 && forall e :: e in errors ==> Contains(e, id)
    ensures multiset(errors)[Message("Invalid text color for block ", id, "")] <= 1
    ensures !RunsWellFormed(text, runs) <==> Message("Invalid text runs for block ", id, "") in errors
    ensures !RunColorsValid(runs) <==> Message("Invalid text color for block ", id, "") in errors
  {
    WordingsDiffer("Invalid text runs for block ", "Invalid text color for block ", 13, id, "", "");
    (if !RunsWellFormed(text, runs) then [Message("Invalid text runs for block ", id, "")] else [])
    + (if !RunColorsValid(runs) then [Message("Invalid text color for block ", id, "")] else [])
  }

  /** The messages for a button: a bad URL, then either colour being bad. */
  function ButtonErrors(id: string, url: string, textColor: string, backgroundColor: string, protocolOf: UrlProtocolOf)
    : (errors: seq<string>)
    ensures errors == [] <==> IsValidHttpUrl(url, protocolOf) && IsHexColorLiteral(textColor) && IsHexColorLiteral(backgroundColor)
    ensures |errors| <= 2 && forall e :: e in errors ==> Contains(e, id)
    ensures !IsHexColorLiteral(textColor) || !IsHexColorLiteral(backgroundColor) <==>
              Message("Invalid button colors for block ", id, "") in errors
    ensures !IsValidHttpUrl(url, protocolOf) <==> Message("Invalid button URL for block ", id, "") in errors
  {
    WordingsDiffer("Invalid button URL for block ", "Invalid button colors for block ", 15, id, "", "");
    (if !IsValidHttpUrl(url, protocolOf) then [Message("Invalid button URL for block ", id, "")] else [])
    + (if !IsValidHexColor(Some(textColor)) || !IsValidHexColor(Some(backgroundColor))
       then [Message("Invalid button colors for block ", id, "")] else [])
  }

  /** The messages for an image: a bad URL, then a status other than ready. */
  function ImageErrors(id: string, url: string, status: ImageStatus, protocolOf: UrlProtocolOf): (errors: seq<string>)
    ensures errors == [] <==> IsValidHttpUrl(url, protocolOf) && status == Ready
    ensures |errors| <= 2 && forall e :: e in errors ==> Contains(e, id)
    ensures status != Ready <==> Message("Image block ", id, " is not ready for export") in errors
    ensures !IsValidHttpUrl(url, protocolOf) <==> Message("Invalid image URL for block ", id, "") in errors
  {
    WordingsDiffer("Invalid image URL for block ", "Image block ", 1, id, "", " is not ready for export");
    (if !IsValidHttpUrl(url, protocolOf) then [Message("Invalid image URL for block ", id, "")] else [])
    + (if status != Ready then [Message("Image block ", id, " is not ready for export")] else [])
  }

  /** The message list `validateForExport` pushes for one block. */
  function BlockErrors(block: Block, protocolOf: UrlProtocolOf): (errors: seq<string>)
    ensures errors == [] <==> Exportable(block, protocolOf)
    ensures |errors| <= 2 && forall e :: e in errors ==> Contains(e, block.id)
  {
    match block
    case TextBlock(id, text, runs, _) => TextErrors(id, text, runs)
    case ButtonBlock(id, _, url, _, textColor, backgroundColor, _) => ButtonErrors(id, url, textColor, backgroundColor, protocolOf)
    case ImageBlock(id, url, status, _) => ImageErrors(id, url, status, protocolOf)
    case HtmlBlock(_, _) => []
    case CustomBlock(_, _, _, _, _) => []
  }

  /** An export message: a fixed wording around the block id, which it therefore names. */
  function Message(before: string, id: string, after: string): (message: string)
    ensures message == before + id + after
    ensures Contains(message, id)
  {
    ContainsMiddle(before, id, after);
    before + id + after
  }

  /** Two wordings that differ at index `i` give different messages, whatever the block id. */
  lemma WordingsDiffer(a: string, b: string, i: nat, id: string, after1: string, after2: string)
    requires i < |a| && i < |b| && a[i] != b[i]
    ensures Message(a, id, after1) != Message(b, id, after2)
  {
    assert Message(a, id, after1)[i] == a[i];
    assert Message(b, id, after2)[i] == b[i];
  }

  /** The per-block step of the export check, as a function for the fold. */
  function BlockCheck(protocolOf: UrlProtocolOf): Block -> seq<string>
  {
    (block: Block) => BlockErrors(block, protocolOf)
  }

  /** The whole list `validateForExport` returns: the emptiness error, then every block's errors in order. */
  function ExportErrors(doc: Document, protocolOf: UrlProtocolOf): (errors: seq<string>)
    ensures |doc.blocks| == 0 ==> errors == [EmptyDocumentError]
    ensures |doc.blocks| > 0 ==> |errors| <= 2 * |doc.blocks|
  {
    FlatMapBound(doc.blocks, BlockCheck(protocolOf), 2);
    (if |doc.blocks| == 0 then [EmptyDocumentError] else []) + FlatMap(doc.blocks, BlockCheck(protocolOf))
  }

  /**
   * `validateForExport`: one pass over the blocks, pushing each block's
   * messages onto the list.
   */
  method ValidateForExport(doc: Document, protocolOf: UrlProtocolOf) returns (errors: seq<string>)
    ensures errors == ExportErrors(doc, protocolOf)
  {
    errors := [];
    if |doc.blocks| == 0 {
      errors := errors + [EmptyDocumentError];
    }
    var header := errors;
    var blocks := doc.blocks;
    for i := 0 to |blocks|
      invariant errors == header + FlatMap(blocks[..i], BlockCheck(protocolOf))
    {
      var blockErrors := CheckBlock(blocks[i], protocolOf);
      FlatMapStep(header, blocks, i, BlockCheck(protocolOf));
      errors := errors + blockErrors;
    }
    assert blocks[..|blocks|] == blocks;
  }

  /** The body of the loop of `validateForExport` for one block. */
  method CheckBlock(block: Block, protocolOf: UrlProtocolOf) returns (errors: seq<string>)
    ensures errors == BlockErrors(block, protocolOf)
  {
    errors := [];
    if block.TextBlock? {
      errors := CheckTextBlock(block.id, block.text, block.runs);
    }
    if block.ButtonBlock? {
      if !IsValidHttpUrl(block.url, protocolOf) {
        errors := errors + [Message("Invalid button URL for block ", block.id, "")];
      }
      if !IsValidHexColor(Some(block.textColor)) || !IsValidHexColor(Some(block.backgroundColor)) {
        errors := errors + [Message("Invalid button colors for block ", block.id, "")];
      }
    }
    if block.ImageBlock? {
      if !IsValidHttpUrl(block.url, protocolOf) {
        errors := errors + [Message("Invalid image URL for block ", block.id, "")];
      }
      if block.status != Ready {
        errors := errors + [Message("Image block ", block.id, " is not ready for export")];
      }
    }
  }

  /** The text-block part of the loop: the run check, then a colour scan that stops at the first bad colour. */
  method CheckTextBlock(id: string, text: string, runs: seq<TextRun>) returns (errors: seq<string>)
    ensures errors == TextErrors(id, text, runs)
  {
    errors := [];
    var runsValid := AreTextRunsValid(text, runs);
    if !runsValid {
      errors := errors + [Message("Invalid text runs for block ", id, "")];
    }
    var afterRuns := errors;
    for j := 0 to |runs|
      invariant errors == afterRuns
      invariant forall k :: 0 <= k < j ==> IsValidHexColor(runs[k].color)
    {
      if !IsValidHexColor(runs[j].color) {
        errors := errors + [Message("Invalid text color for block ", id, "")];
        break;
      }
    }
  }

  /** A document can be exported exactly when it has blocks and every block is exportable. */
  lemma ExportErrorsEmptyIff(doc: Document, protocolOf: UrlProtocolOf)
    ensures ExportErrors(doc, protocolOf) == [] <==>
              |doc.blocks| > 0 && forall i :: 0 <= i < |doc.blocks| ==> Exportable(doc.blocks[i], protocolOf)
  {
    FlatMapEmpty(doc.blocks, BlockCheck(protocolOf));
  }

  /** A document without blocks reports exactly the emptiness error. */
  lemma EmptyDocumentErrors(doc: Document, protocolOf: UrlProtocolOf)
    requires doc.blocks == []
    ensures ExportErrors(doc, protocolOf) == [EmptyDocumentError]
  {
  }

  /** Every error of every block appears in the export error list. */
  lemma BlockErrorsReported(doc: Document, protocolOf: UrlProtocolOf, i: nat, e: string)
    requires i < |doc.blocks| && e in BlockErrors(doc.blocks[i], protocolOf)
    ensures e in ExportErrors(doc, protocolOf)
  {
    FlatMapIncludes(doc.blocks, BlockCheck(protocolOf), i, e);
  }

  /** Every export error is the emptiness error or names a block of the document. */
  lemma ExportErrorsNameBlocks(doc: Document, protocolOf: UrlProtocolOf, e: string)
    requires e in ExportErrors(doc, protocolOf)
    ensures e == EmptyDocumentError || exists i :: 0 <= i < |doc.blocks| && Contains(e, doc.blocks[i].id)
  {
    if e != EmptyDocumentError {
      FlatMapSource(doc.blocks, BlockCheck(protocolOf), e);
    }
  }

  /** HTML and custom blocks never contribute export errors. */
  lemma PassThroughBlocksHaveNoErrors(block: Block, protocolOf: UrlProtocolOf)
    requires block.HtmlBlock? || block.CustomBlock?
    ensures BlockErrors(block, protocolOf) == []
  {
  }
}

/**
 * The export itself: it fails with every validation problem listed, or wraps
 * the rendered blocks in the email shell.
 */
module HtmlExport {
  import opened Wrappers
  import opened Types
  import opened Validation
  import opened Text
  import opened ExportValidation
  import opened HtmlTemplates

  /** The concatenation of the rendered blocks, in document order. */
  function RenderedContent(blocks: seq<Block>, render: Block -> string): string
  {
    Join(Rendered(blocks, render), "")
  }

  /** `blocks.map(render)`. */
  function Rendered(blocks: seq<Block>, render: Block -> string): (html: seq<string>)
    ensures |html| == |blocks| && forall i :: 0 <= i < |blocks| ==> html[i] == render(blocks[i])
  {
    seq(|blocks|, i requires 0 <= i < |blocks| => render(blocks[i]))
  }

  /**
   * `exportHtml`: fails, with every error joined by "; ", when validation
   * finds anything; otherwise wraps the rendered blocks in the email shell at
   * the layout's width with the fixed-width default. `render` stands for the
   * block renderer.
   */
  function ExportHtml(doc: Document, protocolOf: UrlProtocolOf, render: Block -> string): (result: Result<string, string>)
    ensures result.Failure? <==> ExportErrors(doc, protocolOf) != []
    ensures result.Failure? ==> result.error == Join(ExportErrors(doc, protocolOf), "; ")
    ensures result.Success? ==>
              result.value == WrapEmailHtml(RenderedContent(doc.blocks, render), doc.layout.previewWidthPx, None)
  {
    var errors := ExportErrors(doc, protocolOf);
    if |errors| > 0 then Failure(Join(errors, "; "))
    else Success(WrapEmailHtml(RenderedContent(doc.blocks, render), doc.layout.previewWidthPx, None))
  }

  /** A failed export's message names every error that was found. */
  lemma FailureListsEveryError(doc: Document, protocolOf: UrlProtocolOf, render: Block -> string, i: nat)
    requires i < |ExportErrors(doc, protocolOf)|
    ensures ExportHtml(doc, protocolOf, render).Failure?
    ensures Contains(ExportHtml(doc, protocolOf, render).error, ExportErrors(doc, protocolOf)[i])
  {
    JoinContainsPart(ExportErrors(doc, protocolOf), "; ", i);
  }

  /** A successful export holds the rendering of every block. */
  lemma SuccessHoldsEveryBlock(doc: Document, protocolOf: UrlProtocolOf, render: Block -> string, i: nat)
    requires i < |doc.blocks| && ExportHtml(doc, protocolOf, render).Success?
    ensures Contains(ExportHtml(doc, protocolOf, render).value, render(doc.blocks[i]))
  {
    JoinContainsPart(Rendered(doc.blocks, render), "", i);
    WrapHoldsContent(RenderedContent(doc.blocks, render), doc.layout.previewWidthPx, None);
    ContainsTransitive(ExportHtml(doc, protocolOf, render).value, RenderedContent(doc.blocks, render), render(doc.blocks[i]));
  }

  /** A document holding a pending image cannot be exported, and the failure says why. */
  lemma PendingImageBlocksExport(doc: Document, protocolOf: UrlProtocolOf, render: Block -> string, i: nat)
    requires i < |doc.blocks| && doc.blocks[i].ImageBlock? && doc.blocks[i].status != Ready
    ensures ExportHtml(doc, protocolOf, render).Failure?
    ensures Contains(ExportHtml(doc, protocolOf, render).error,
                     "Image block " + doc.blocks[i].id + " is not ready for export")
  {
    var message := Message("Image block ", doc.blocks[i].id, " is not ready for export");
    BlockErrorsReported(doc, protocolOf, i, message);
    var errors := ExportErrors(doc, protocolOf);
    var k :| 0 <= k < |errors| && errors[k] == message;
    FailureListsEveryError(doc, protocolOf, render, k);
  }
}
