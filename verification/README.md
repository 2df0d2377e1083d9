# simple-vue-email-editor core, modelled in Dafny

This project models the core of the block-structured email editor library:

- **Document model.** A document has an id, an ordered sequence of blocks (text, button, image, raw HTML and custom blocks) and a layout. The layout's width is taken from a fixed mode-to-width table.
- **Document service.** It has pure operations that add, update, replace, delete and reorder blocks with splice semantics. It builds custom block instances with a layered, recursive deep merge of JSON-like values.
- **Value checks.** These cover HTTP(S) URLs, hex colours and the well-formedness of text runs.
- **Settings-schema validator.** Custom blocks use it. It folds over the fields of a schema and collects missing keys and coded errors.
- **Export gate.** It lists every problem before it refuses to export. The export wraps the rendered blocks in a fixed table-based email shell, whose width is fixed or responsive.
- **Preview sanitizer.** It applies its rewrite rules to an abstract element tree:
  - denylisted tags are removed with their subtrees;
  - `on*` attributes are removed;
  - the `style` attribute is removed unless the caller keeps it;
  - `javascript:` URL attributes are removed;
  - head `<style>` elements are emitted before the body.
- **Observable document store.** It holds the current document and a listener set.

Modules:

- `Types` (`types.dfy`): the data model.
- `Validation` (`validation.dfy`): the value checks.
- `CustomBlockValidation` (`custom_block_validation.dfy`): the settings-schema validator.
- `DocumentService` (`document_service.dfy`): the document service.
- `ExportValidation` and `HtmlExport` (`html_export.dfy`): the export gate and the export.
- `HtmlTemplates` (`html_templates.dfy`): the email shell.
- `HtmlSanitizer` (`html_sanitizer.dfy`): the sanitizer. `SanitizerExamples` and `SanitizerTreeExamples` (`html_sanitizer_examples.dfy`) run the sanitizer on the documents of the library's own tests.
- `Store` (`document_store.dfy`): the document store.
- Helpers:
  - `Wrappers`: `Option` and `Result`.
  - `Seqs`: `FlatMap`, which is the push-in-a-loop pattern, and `Filter`.
  - `Text`: decimal formatting, `join`, `trim`, ASCII lower-casing and substring search.

Each part takes the form of its source:

- Loops become methods with loop invariants, proved equal to a specification function. Properties are then proved about that function. This covers:
  - `areTextRunsValid`;
  - `validateSettingsSchema`;
  - `validateForExport`;
  - `deepMerge`;
  - `buildSchemaDefaults`;
  - the sanitizer's tree walk and attribute loop;
  - the store's `emit`.
- `reorderBlocks` is a method that splices twice.
- The store is a class whose methods update its fields.
- Pure code stays as functions.

Collaborators that the core only calls are parameters. These are:

- the URL parser, which gives the protocol or fails;
- the regular-expression engine, which says whether a pattern compiles and whether it matches;
- the block renderer;
- the custom-block registry lookup;
- the HTML parser and serializer.

Where the code and the written description of the library disagree, the model follows the code:

- **Missing values.** A required field whose value is a whitespace-only string is missing whatever the field's type. The description limits this to string-typed fields.
- **URL and colour checks.** They are part of the type check, with codes `url` and `color`. A failing URL or colour therefore stops the constraint checks of that field.
- **One type error per field.** A type error is the only error a field contributes. The description says that all checks of a field accumulate.
- **Text colours.** A text block reports at most one colour error, because the scan stops at the first bad colour.
- **Missing parser.** The sanitizer returns its input unchanged when the environment has no HTML parser.
- **Custom blocks.** The shown `src/core/types.ts` has no `custom` block variant and no settings-schema types. They are modelled from the object `createCustomBlockInstance` builds and from how the validator reads fields.

## Model

| member | source | states |
|---|---|---|
| Types.ValidLayoutWidths | src/core/types.ts:69-72 | The table maps mobile to 375 and desktop to 640. A valid layout has width 375 or 640, and 375 exactly when the mode is mobile. |
| Validation.IsValidHttpUrl | src/core/validation.ts:5-16 | The empty string is never valid. A value is valid iff it is non-empty and the parser reports protocol `http:` or `https:`. |
| Validation.HexDigitsThenEndIff | src/core/validation.ts:3 | The regex tail `[0-9a-fA-F]{n}$` matches iff the rest has exactly n characters, all hex digits. |
| Validation.IsValidHexColor | src/core/validation.ts:18-24 | A missing colour is valid. A string is valid iff it is `#` followed by exactly 3 or exactly 6 hex digits. |
| Validation.HexColorExamples | src/core/validation.ts:18-24 | `#fff`, `#A1b2C3` and a missing colour are valid. `#ffff`, `fff` and `#ggg` are not. |
| Validation.AreTextRunsValid | src/core/validation.ts:26-51 | The loop with early returns answers true iff every run lies in [0, text length] and is non-empty, and each run starts at or after the previous end. |
| Validation.RunExamples | src/core/validation.ts:26-51 | No runs are valid for any text. `[0,2),[2,5)` on "Hello" is valid and `[0,3),[2,5)` is not. |
| Text.IntToString | src/core/custom_block_validation.ts:75 | Interpolating an integer gives a string that starts with `-` iff the integer is negative. The rest is a non-empty run of decimal digits whose value is the integer's magnitude. |
| Text.NatToStringRoundTrip | src/core/custom_block_validation.ts:75 | Reading back the decimal spelling of a number gives the number, so the bound shown in a message is the field's bound. |
| Text.TrimEmptyIff | src/core/custom_block_validation.ts:16 | `s.trim().length === 0` holds exactly when s is made only of whitespace. |
| CustomBlockValidation.IsMissingValue | src/core/custom_block_validation.ts:6-20 | An optional field is never missing. A required field is missing iff its value is undefined, null or an all-whitespace string. |
| CustomBlockValidation.ValidateType | src/core/custom_block_validation.ts:22-67 | The error names the field. There is no error iff the value has the declared type and passes the URL, colour or option rule. Code `type` is used exactly for a wrong JavaScript type. The URL, colour and select failures carry their exact messages and codes. |
| CustomBlockValidation.BoundErrors | src/core/custom_block_validation.ts:72-86 | A `min` error exists iff a minimum exists and the size is below it. A `max` error exists iff a maximum exists and the size exceeds it. There are at most two errors. |
| CustomBlockValidation.PatternErrors | src/core/custom_block_validation.ts:88-105 | A `pattern` error exists iff a non-empty pattern is set and it either fails to compile or rejects the value. There is at most one, and it is data, not a fault. |
| CustomBlockValidation.ValidateStringConstraints | src/core/custom_block_validation.ts:69-108 | The length `min`/`max` and `pattern` errors are independent and each present exactly under its condition. No other code appears, and there are at most 3 errors, all about the field. |
| CustomBlockValidation.ValidateNumberConstraints | src/core/custom_block_validation.ts:110-130 | The numeric `min`/`max` errors are each present exactly under their condition. No other code appears, and there are at most 2 errors. |
| CustomBlockValidation.FieldErrors | src/core/custom_block_validation.ts:140-162 | A missing or absent value contributes no error. A type error is then the field's only error. Once the type check passes, the errors are exactly the string constraint errors for a string of a `STRING_TYPES` field, exactly the number constraint errors for a number of a `number` field, and otherwise none. All errors name the field. |
| CustomBlockValidation.CheckField | src/core/custom_block_validation.ts:140-162 | The loop body with its `continue`s contributes exactly the field's missing key and exactly its errors. |
| CustomBlockValidation.ValidateSettingsSchema | src/core/custom_block_validation.ts:132-170 | `missingFields` and `errors` are the per-field contributions in schema order. `ok` holds iff both are empty. |
| CustomBlockValidation.SchemaOrder | src/core/custom_block_validation.ts:139-163 | Validating a schema in two parts gives the parts' results one after the other, so results follow schema order. |
| CustomBlockValidation.MissingFieldsAreMissingKeys | src/core/custom_block_validation.ts:139-144 | A key is listed as missing iff some field with that key is missing. |
| CustomBlockValidation.OptionalSchemaHasNoMissing | src/core/custom_block_validation.ts:6-9 | A schema without required fields reports no missing field. |
| CustomBlockValidation.ErrorFieldsAreSchemaKeys | src/core/custom_block_validation.ts:139-163 | Every error names a key of the schema. |
| CustomBlockValidation.MissingFieldHasNoErrors | src/core/custom_block_validation.ts:141-144 | With unique keys, a missing field appears only in `missingFields` and no error names it. |
| CustomBlockValidation.OkIffEveryFieldPasses | src/core/custom_block_validation.ts:165-169 | The result is ok iff no field is missing and every field contributes no error. |
| CustomBlockValidation.HeadlineExamples | src/core/custom_block_validation.ts:139-154 | For the required `headline` field: absent and all-blank values are missing, "Hi" is not, and a number gives the single `type` error "Expected a string value." |
| DocumentService.CreateLayoutSettings | src/services/document_service.ts:12-17 | The layout has the given mode and that mode's table width. |
| DocumentService.CreateDocument | src/services/document_service.ts:19-25 | A new document has the given id, no blocks and the mobile layout at 375. |
| DocumentService.SetLayout | src/services/document_service.ts:27-32 | The layout is replaced wholesale. The id and blocks are unchanged. |
| DocumentService.SetPreviewMode | src/services/document_service.ts:36-38 | The layout becomes the mode with its table width. The id and blocks are unchanged. |
| DocumentService.AddBlock | src/services/document_service.ts:40-45 | The length grows by one, the old blocks are a prefix and the new block is last. |
| DocumentService.UpdateBlock | src/services/document_service.ts:107-120 | Length and positions are kept. A block with the id becomes `updater(block)` and every other block is unchanged. |
| DocumentService.UpdateAbsentIsIdentity | src/services/document_service.ts:107-120 | Updating an id that no block carries changes nothing. |
| DocumentService.ReplaceBlock | src/services/document_service.ts:122-124 | Every block with the id becomes `next`, and the others stay in place. |
| DocumentService.DeleteBlock | src/services/document_service.ts:126-131 | A block is in the result iff it was in the document and its id differs. The result is no longer than the original. |
| DocumentService.DeleteAbsentIsIdentity | src/services/document_service.ts:126-131 | Deleting an id that no block carries keeps the blocks as they were. |
| DocumentService.DeleteKeepsOrder | src/services/document_service.ts:126-131 | Deletion distributes over concatenation, so the kept blocks keep their original order. |
| DocumentService.DeleteUndoesAdd | src/services/document_service.ts:126-131 | Adding a block with a fresh id and then deleting that id gives the original document. |
| DocumentService.RemoveAt | src/services/document_service.ts:152 | `splice(i, 1)` leaves the sequence without its i-th element, the others shifted down. |
| DocumentService.ReorderBlocks | src/services/document_service.ts:133-162 | Equal or out-of-range indices return the document unchanged. Otherwise the block at `from` lands at `to`, the other blocks keep their relative order, and the multiset of blocks is kept. |
| DocumentService.MoveIsUnique | src/services/document_service.ts:152-156 | The move relation determines its result. |
| DocumentService.MoveExample | src/services/document_service.ts:152-156 | Moving index 0 to index 2 of [a, b, c, d] gives [b, c, a, d]. |
| DocumentService.Merged | src/services/document_service.ts:59-73 | An undefined override keeps the base. A defined non-object override replaces the base, and so does any override when either side is an array. Two objects merge per key: base-only keys are kept and override keys are merged recursively. |
| DocumentService.DeepMerge | src/services/document_service.ts:59-73 | The copy-then-write loop over the override's keys returns exactly `Merged`. |
| DocumentService.MergedSelf | src/services/document_service.ts:59-73 | Merging a value onto itself changes nothing. |
| DocumentService.MergedTwice | src/services/document_service.ts:59-73 | Merging the same overrides twice gives the same result as merging them once. |
| DocumentService.MergedOntoEmpty | src/services/document_service.ts:91-94 | Merging overrides onto the empty object gives the overrides. |
| DocumentService.BuildSchemaDefaults | src/services/document_service.ts:75-83 | The loop builds exactly the schema-defaults dictionary. |
| DocumentService.SchemaDefaultsLookup | src/services/document_service.ts:75-83 | A key has a default iff some field with that key declares one. Its value is that of the last field with the key that declares a default. |
| DocumentService.InstanceConfig | src/services/document_service.ts:90-94 | The layered configuration has exactly the keys of the schema defaults, `defaultConfig` and the overrides together. |
| DocumentService.ConfigPrecedence | src/services/document_service.ts:90-94 | A config key comes from any layer. An override beats `defaultConfig`, which beats the schema defaults. |
| DocumentService.CreateCustomBlockInstance | src/services/document_service.ts:85-105 | The block carries the id and definition id, and is read-only exactly in the missing-definition state. With a definition it is ready with the layered config. Without one, its config is exactly the overrides. |
| DocumentService.HeroExamples | src/services/document_service.ts:90-94 | For a hero block whose headline defaults to "Hello", an override "Hi" wins. `defaultConfig` wins when there is no override. |
| HtmlTemplates.WidthAttribute | src/rendering/html_templates.ts:7 | The width attribute is "100%" when responsive. Otherwise it is the decimal width. |
| HtmlTemplates.WrapEmailHtml | src/rendering/html_templates.ts:6-35 | The document is the opening for its width and mode (with `responsive` defaulting to false), the content, then the fixed closing. Stripping that opening and closing gives back exactly the content. |
| HtmlTemplates.OpeningStartsWithDoctype | src/rendering/html_templates.ts:12-23 | The text before the content begins with `<!doctype html>` for every width and mode. |
| HtmlTemplates.WrapStartsWithDoctype | src/rendering/html_templates.ts:12 | The wrapped document begins with `<!doctype html>`. |
| HtmlTemplates.WrapEndsWithClosing | src/rendering/html_templates.ts:26-34 | The wrapped document ends with the fixed closing text, which ends at `</html>` with no newline after it. |
| HtmlTemplates.WrapHoldsContent | src/rendering/html_templates.ts:26 | The content appears verbatim in the document. |
| HtmlTemplates.UnwrapWrap | src/rendering/html_templates.ts:12-34 | Stripping the width- and mode-dependent opening and the fixed closing gives back exactly the content. |
| HtmlTemplates.WrapIsInjective | src/rendering/html_templates.ts:12-34 | Different contents give different documents. |
| HtmlTemplates.DefaultIsFixedWidth | src/rendering/html_templates.ts:6 | Omitting `responsive` is the same as false. |
| HtmlTemplates.InnerTableWidths | src/rendering/html_templates.ts:7-23 | The fixed document holds the inner table with `width="N"` and `width:Npx;max-width:Npx;`. The responsive one holds it with `width="100%"` and `width:100%;max-width:Npx;`. |
| HtmlTemplates.TagInShell | src/rendering/html_templates.ts:23 | The inner table tag of a mode appears in the document of that mode. |
| ExportValidation.TextErrors | src/services/html_export.ts:14-25 | "Invalid text runs for block {id}" appears iff the runs are malformed. "Invalid text color for block {id}" appears iff some run's colour is invalid, and at most once however many runs are bad. There is no message iff the block is well formed, and every message names the block. |
| ExportValidation.ButtonErrors | src/services/html_export.ts:27-35 | "Invalid button URL for block {id}" appears iff the URL fails the check. "Invalid button colors for block {id}" appears iff either colour is invalid. There is no message iff the URL and both colours are valid. |
| ExportValidation.ImageErrors | src/services/html_export.ts:37-45 | "Invalid image URL for block {id}" appears iff the URL fails the check. "Image block {id} is not ready for export" appears iff the status is not ready. There is no message iff both checks pass. |
| ExportValidation.BlockErrors | src/services/html_export.ts:13-46 | A block has no message iff it is exportable by its variant's rules. It has at most two, each naming the block. |
| ExportValidation.ExportErrors | src/services/html_export.ts:6-49 | The list the validation returns: a document without blocks gets exactly the emptiness message, and a document with blocks gets at most two messages per block. |
| ExportValidation.ValidateForExport | src/services/html_export.ts:6-49 | The loop returns the emptiness error, if any, followed by every block's messages in block order. |
| ExportValidation.CheckBlock | src/services/html_export.ts:13-46 | One loop iteration pushes exactly the block's messages. |
| ExportValidation.CheckTextBlock | src/services/html_export.ts:14-25 | The run check and the colour scan with `break` push exactly the text block's messages. |
| ExportValidation.ExportErrorsEmptyIff | src/services/html_export.ts:6-49 | There are no errors iff the document has blocks and every block is exportable. |
| ExportValidation.EmptyDocumentErrors | src/services/html_export.ts:9-11 | A document without blocks gets exactly "Document must contain at least one block." |
| ExportValidation.BlockErrorsReported | src/services/html_export.ts:13-46 | Every message of every block is in the export error list. |
| ExportValidation.ExportErrorsNameBlocks | src/services/html_export.ts:16-44 | Every export error is the emptiness error or names a block of the document. |
| ExportValidation.PassThroughBlocksHaveNoErrors | src/services/html_export.ts:13-46 | HTML and custom blocks contribute no export error. |
| HtmlExport.Rendered | src/services/html_export.ts:57 | `blocks.map(render)` renders each block in place. |
| HtmlExport.ExportHtml | src/services/html_export.ts:51-59 | The export fails iff the error list is non-empty, with the errors joined by "; ". Otherwise it is the shell around the concatenated renderings at the layout's width, with the fixed-width default. |
| HtmlExport.FailureListsEveryError | src/services/html_export.ts:52-55 | A failed export's message contains every error found. |
| HtmlExport.SuccessHoldsEveryBlock | src/services/html_export.ts:57-58 | A successful export contains the rendering of every block. |
| HtmlExport.PendingImageBlocksExport | src/services/html_export.ts:42-44 | A document with an image that is not ready fails to export, and the message says that the image is not ready. |
| HtmlSanitizer.JavascriptUrlIsRegexMatch | src/rendering/html_sanitizer.ts:17 | A value is a `javascript:` URL iff some all-whitespace prefix is followed by the scheme in any ASCII letter case. |
| HtmlSanitizer.KeptAttributesMembers | src/rendering/html_sanitizer.ts:38-55 | An attribute is kept iff it was there and no rule removes it. |
| HtmlSanitizer.KeptNamesDistinct | src/rendering/html_sanitizer.ts:38-55 | Filtering keeps attribute names distinct. |
| HtmlSanitizer.FilterAttributes | src/rendering/html_sanitizer.ts:38-55 | The loop over a snapshot, removing by name from the live list, leaves exactly the attributes no rule removes, in order. |
| HtmlSanitizer.EventHandlersAlwaysRemoved | src/rendering/html_sanitizer.ts:42-45 | An attribute whose lower-cased name starts with `on` is removed whatever the options. |
| HtmlSanitizer.StyleRemovedIffStripped | src/rendering/html_sanitizer.ts:47-50 | `style` is removed exactly when styles are stripped. |
| HtmlSanitizer.UrlAttributeRule | src/rendering/html_sanitizer.ts:52-54 | A URL attribute is removed exactly when its value is a `javascript:` URL. |
| HtmlSanitizer.OtherAttributesKept | src/rendering/html_sanitizer.ts:38-55 | An attribute that is not `on*`, not `style` and not a URL attribute is kept. |
| HtmlSanitizer.FilteredNodes | src/rendering/html_sanitizer.ts:34-58 | The walk keeps the number of nodes at each level. |
| HtmlSanitizer.RemoveBlockedElements | src/rendering/html_sanitizer.ts:32 | Removing every blocked element with its subtree gives exactly the pruned tree. |
| HtmlSanitizer.WalkElements | src/rendering/html_sanitizer.ts:34-58 | The tree walk gives exactly the tree with every element's attributes filtered. |
| HtmlSanitizer.Sanitized | src/rendering/html_sanitizer.ts:32-58 | Both passes in order: the result has no blocked element at any depth and no attribute the rules remove. |
| HtmlSanitizer.WithoutBlockedHasNone | src/rendering/html_sanitizer.ts:5-14 | After pruning, no element at any depth has a blocked tag. |
| HtmlSanitizer.FilterKeepsNoBlocked | src/rendering/html_sanitizer.ts:34-58 | The walk cannot bring back a blocked element. |
| HtmlSanitizer.FilteredIsClean | src/rendering/html_sanitizer.ts:38-55 | After the walk, no element carries an attribute the rules remove. |
| HtmlSanitizer.SanitizedIsSafe | src/rendering/html_sanitizer.ts:32-58 | The sanitized tree has no blocked element and no removable attribute. |
| HtmlSanitizer.WithoutBlockedFixpoint | src/rendering/html_sanitizer.ts:32 | Pruning a tree without blocked elements changes nothing. |
| HtmlSanitizer.FilteredFixpoint | src/rendering/html_sanitizer.ts:34-58 | Walking a tree with clean attributes changes nothing. |
| HtmlSanitizer.SanitizeIsIdempotent | src/rendering/html_sanitizer.ts:32-58 | Sanitizing a sanitized tree changes nothing. |
| HtmlSanitizer.FilterKeepsShape | src/rendering/html_sanitizer.ts:34-58 | The walk changes attributes only: every tag, text node and position is kept. |
| HtmlSanitizer.SanitizePreviewHtml | src/rendering/html_sanitizer.ts:19-65 | Without a parser the input is returned unchanged. Otherwise the result is the sanitized head's style elements, then the sanitized body, with styles stripped by default. |
| HtmlSanitizer.HeadStylesFirst | src/rendering/html_sanitizer.ts:60-64 | The output begins with the serialized style elements of the sanitized head. |
| SanitizerExamples.SchemePrefixIsJavascript | src/rendering/html_sanitizer.ts:17 | Any value that begins with `javascript:` is a `javascript:` URL. |
| SanitizerExamples.RelativeUrlIsNotJavascript | tests/canvas_custom_block_sanitize.test.ts:13 | The relative URL `x` is not a `javascript:` URL. |
| SanitizerExamples.ClassIsKept | tests/canvas_custom_block_sanitize.test.ts:41 | `class="safe"` is kept. |
| SanitizerExamples.OnclickIsRemoved | tests/canvas_custom_block_sanitize.test.ts:36 | `onclick` is removed. |
| SanitizerExamples.OnerrorIsRemoved | tests/canvas_html_block_sanitize.test.ts:23 | `onerror` is removed. |
| SanitizerExamples.JavascriptHrefIsRemoved | tests/canvas_html_block_sanitize.test.ts:28-39 | `href="javascript:alert(1)"` is removed. |
| SanitizerExamples.RelativeSrcIsKept | tests/canvas_custom_block_sanitize.test.ts:13 | `src="x"` is kept. |
| SanitizerExamples.StyleAttributeRule | tests/canvas_custom_block_sanitize.test.ts:42 | `style="color:red"` is removed exactly when styles are stripped. |
| SanitizerTreeExamples.ScriptPruned | tests/canvas_custom_block_sanitize.test.ts:35 | The script goes with its text, while the link and the image stay. |
| SanitizerTreeExamples.LinkFiltered | tests/canvas_custom_block_sanitize.test.ts:39 | The `javascript:` link loses its `href` but keeps its text `bad`. |
| SanitizerTreeExamples.ImageFiltered | tests/canvas_custom_block_sanitize.test.ts:37 | The image loses `onerror` and keeps `src="x"`. |
| SanitizerTreeExamples.DivAttributesFiltered | tests/canvas_custom_block_sanitize.test.ts:36-42 | With styles kept, the div keeps `class` and `style` and loses `onclick`. |
| SanitizerTreeExamples.CustomBlockPreviewExample | tests/canvas_custom_block_sanitize.test.ts:34-42 | The custom block's preview tree sanitizes, with styles kept, to the div with `class` and `style`, the clean link and the clean image. |
| SanitizerTreeExamples.HtmlBlockStyleExample | tests/canvas_html_block_sanitize.test.ts:60-72 | With the default options, `<p style=…>styled</p>` becomes `<p>styled</p>`. |
| Store.Broadcast | src/core/document_store.ts:37-41 | One emission calls each listener once, in order, with the given document. |
| Store.BroadcastReachesSubscribers | src/core/document_store.ts:37-41 | A listener hears an emission iff it is subscribed, and no listener is called twice. |
| Store.WithoutRemovesOnlyListener | src/core/document_store.ts:32-34 | Unsubscribing removes exactly that listener and keeps the others distinct. |
| Store.UnsubscribedHearsNothing | src/core/document_store.ts:32-34 | After unsubscribing, an emission never reaches the listener. |
| Store.DocumentStore.constructor | src/core/document_store.ts:10-12 | The store holds the initial document, with no listeners and no calls made. |
| Store.DocumentStore.GetDocument | src/core/document_store.ts:14-16 | Returns the current document. |
| Store.DocumentStore.SetDocument | src/core/document_store.ts:18-21 | The current document becomes `next`, and every subscribed listener is then called with it, in order. |
| Store.DocumentStore.Update | src/core/document_store.ts:23-26 | The current document becomes `updater(previous)`, and every subscribed listener is then called with it. |
| Store.DocumentStore.Subscribe | src/core/document_store.ts:28-31 | The listener joins the set, or keeps its place if already there. It is called once with the current document. |
| Store.DocumentStore.Unsubscribe | src/core/document_store.ts:32-34 | The listener leaves the set, and the others stay in order. |
| Store.DocumentStore.Emit | src/core/document_store.ts:37-41 | The loop calls every listener in set order with the current document. |
| Store.CreateDocumentStore | src/core/document_store.ts:44-46 | A fresh store holding the document, with no listeners. |
| Store.SubscriptionLifecycle | src/core/document_store.ts:28-41 | One scenario on a fresh store: subscribe, set a second document, unsubscribe, set a third. The listener hears exactly the first document, then the second, and not the third. The general facts are the contracts of `Subscribe`, `SetDocument`, `Update` and `Unsubscribe`, with `UnsubscribedHearsNothing`. |

## Left out

- `createId` (src/services/document_service.ts:47-53): it reads `crypto`, the clock and `Math.random`, so the instance id is a parameter.
- `updateLayout` is an alias of `setLayout` and is not a separate member.
- The URL parser, the regular-expression engine, the block renderer, the custom-block registry, and the HTML parser and serializer are parameters. What they do is not part of this model. The registry, the `html_renderer` module, `json_import` and `json_export` are not part of this model.
- Numbers are integers:
  - there is no NaN and there are no fractions;
  - the `Number.isNaN` test of `validateType` and the non-integer test of `areTextRunsValid` always pass;
  - `${n}` is modelled for integers only.
- Text.IntToString: always writes plain decimal digits. JavaScript writes a number of magnitude 10^21 or more in exponent notation, such as `1e+21`; the model does not capture that.
- Strings are sequences of characters, not UTF-16 code units. `text.length` and `value.length` count characters.
- Validation.AreTextRunsValid: the `Array.isArray(runs)` test is not modelled, because runs are always a sequence here.
- `ToLowerAscii` lower-cases ASCII letters only. JavaScript's `toLowerCase` also maps non-ASCII letters, such as the Kelvin sign to `k`. For the `/i` test of `javascript:` the ASCII folding is exact, since that regular expression has no `u` flag.
- Configuration values are a closed datatype. Keys such as `__proto__` and prototype lookups are not modelled, and `config[key]` reads a missing key as `undefined`.
- HtmlSanitizer:
  - The attributes of the `html`, `head` and `body` elements themselves are not modelled, because the document has head and body children only.
  - Tag names are taken as the parser lower-cases them.
  - Tokenising and the parser's tree repair are not modelled.
  - The tree is a value. The model computes the new tree instead of removing elements and attributes in place, and so does not model aliasing.
  - The walk visits elements in document order; the order does not change the result, because each element is filtered on its own.
- HtmlSanitizer.SanitizeIsIdempotent: stated for the tree passes. Re-parsing the serialized output is the parser's business.
- Store: a listener is an identifier, and calling it is recorded in the `notified` log. A listener that subscribes, unsubscribes or changes the document while it is being called, and a listener that throws, are not modelled.
- DocumentService.ReorderBlocks: the `if (!moved)` guard never fires in the model, because the index is in range and every block is a value.
- `exportHtml` throws an `Error`; `HtmlExport.ExportHtml` returns a `Failure` holding the message instead.
