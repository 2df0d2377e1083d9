/**
 * The document data model of the email editor: layout, the closed union of
 * block variants, text runs, JSON-like configuration values and the settings
 * schema used by custom blocks.
 */
module Types {
  import opened Wrappers

  // ---------------------------------------------------------------------------
  // Layout
  // ---------------------------------------------------------------------------

  datatype PreviewMode = Mobile | Desktop

  /** The fixed mode-to-width table `PREVIEW_WIDTHS`. */
  function PreviewWidth(mode: PreviewMode): (px: nat)
  {
    match mode
    case Mobile => 375
    case Desktop => 640
  }

  datatype LayoutSettings = LayoutSettings(previewMode: PreviewMode, previewWidthPx: int)

  /** A layout is well formed when its width is the one the table gives for its mode. */
  predicate ValidLayout(layout: LayoutSettings)
  {
    layout.previewWidthPx == PreviewWidth(layout.previewMode)
  }

  /** The table maps mobile to 375 and desktop to 640, and no other width is ever valid. */
  lemma ValidLayoutWidths(layout: LayoutSettings)
    ensures ValidLayout(layout) ==> layout.previewWidthPx == 375 || layout.previewWidthPx == 640
    ensures PreviewWidth(Mobile) == 375 && PreviewWidth(Desktop) == 640
    ensures ValidLayout(layout) ==> (layout.previewMode == Mobile <==> layout.previewWidthPx == 375)
  {
  }

  // ---------------------------------------------------------------------------
  // Blocks
  // ---------------------------------------------------------------------------

  datatype BlockAlign = Left | Center | Right
  datatype ButtonShape = Square | Rounded | Pill
  datatype ImageStatus = Pending | Ready | Uploading | Error

  /** A styled range `[start, end)` of a text block; a colour of `null` is `None`. */
  datatype TextRun = TextRun(start: int, end: int, bold: bool, color: Option<string>)

  /** Display settings of an image; each of the three is independently optional. */
  datatype ImageDisplay = ImageDisplay(widthPx: Option<int>, heightPx: Option<int>, align: Option<BlockAlign>)

  datatype CustomBlockState = StateReady | MissingDefinition

  /**
   * A JSON-like value as custom-block configuration holds it. `Undefined`
   * stands for JavaScript's `undefined`, which differs from `Null`.
   */
  datatype Value =
    | Undefined
    | Null
    | Bool(b: bool)
    | Num(n: int)
    | Str(s: string)
    | Arr(items: seq<Value>)
    | Obj(fields: map<string, Value>)

  /** `record[key]`: a missing key reads as `undefined`. */
  function Lookup(fields: map<string, Value>, key: string): Value
  {
    if key in fields then fields[key] else Undefined
  }

  /** The closed union of block variants; every variant carries an `id`. */
  datatype Block =
    | TextBlock(id: string, text: string, runs: seq<TextRun>, align: Option<BlockAlign>)
    | ButtonBlock(id: string, labelText: string, url: string, shape: ButtonShape,
                  textColor: string, backgroundColor: string, align: Option<BlockAlign>)
    | ImageBlock(id: string, url: string, status: ImageStatus, display: ImageDisplay)
    | HtmlBlock(id: string, content: string)
    | CustomBlock(id: string, definitionId: string, config: map<string, Value>,
                  state: CustomBlockState, readOnly: bool)

  datatype Document = Document(id: string, blocks: seq<Block>, layout: LayoutSettings)

  // ---------------------------------------------------------------------------
  // Settings schemas of custom blocks
  // ---------------------------------------------------------------------------

  /** The declared type of a settings field; `UnknownField` is any other string. */
  datatype FieldType =
    | StringField | NumberField | BooleanField | SelectField
    | UrlField | HtmlField | RichTextField | ColorField
    | UnknownField(name: string)

  datatype SelectOption = SelectOption(optionLabel: string, value: Value)

  /**
   * One field of a settings schema. `defaultValue` is `Undefined` when the
   * field has no default; `options` is `None` when the field has none.
   */
  datatype SettingsField = SettingsField(
    key: string,
    fieldLabel: string,
    fieldType: FieldType,
    required: bool,
    defaultValue: Value,
    min: Option<int>,
    max: Option<int>,
    pattern: Option<string>,
    options: Option<seq<SelectOption>>)

  datatype SettingsSchema = SettingsSchema(fields: seq<SettingsField>)

  datatype ErrorCode = TypeCode | OptionsCode | UrlCode | ColorCode | MinCode | MaxCode | PatternCode

  datatype ValidationError = ValidationError(field: string, message: string, code: ErrorCode)

  datatype ValidationResult = ValidationResult(ok: bool, missingFields: seq<string>, errors: seq<ValidationError>)

  /** What the registry holds for a custom block type (its validator and renderer are not modelled). */
  datatype CustomBlockDefinition = CustomBlockDefinition(
    id: string,
    displayName: string,
    category: Option<string>,
    settingsSchema: SettingsSchema,
    defaultConfig: map<string, Value>)
}
