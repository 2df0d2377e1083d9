/**
 * The schema-driven settings validator of custom blocks: for each field of a
 * schema, in order, either the field is missing, or it is absent and optional,
 * or its value is type-checked and then (only if the type check passed)
 * checked against the field's length, range and pattern constraints.
 */
module CustomBlockValidation {
  import opened Wrappers
  import opened Types
  import opened Validation
  import opened Seqs
  import Text

  /**
   * The regular-expression engine: whether `new RegExp(pattern)` compiles,
   * and the result of `regex.test(value)` for a compiled pattern.
   */
  datatype RegexEngine = RegexEngine(compiles: string -> bool, test: (string, string) -> bool)

  /** `STRING_TYPES`: the field types whose values are strings with length constraints. */
  predicate IsStringType(t: FieldType)
  {
    t.StringField? || t.UrlField? || t.HtmlField? || t.RichTextField? || t.ColorField?
  }

  /** Some entry of `errors` carries `code`. */
  predicate HasCode(errors: seq<ValidationError>, code: ErrorCode)
  {
    exists i :: 0 <= i < |errors| && errors[i].code == code
  }

  lemma HasCodeAppend(a: seq<ValidationError>, b: seq<ValidationError>)
    ensures forall code :: HasCode(a + b, code) <==> HasCode(a, code) || HasCode(b, code)
    ensures forall key :: AllAbout(a, key) && AllAbout(b, key) ==> AllAbout(a + b, key)
  {
    forall code ensures HasCode(a + b, code) <==> HasCode(a, code) || HasCode(b, code) {
      if HasCode(b, code) {
        var i :| 0 <= i < |b| && b[i].code == code;
        assert (a + b)[|a| + i] == b[i];
      }
      if HasCode(a, code) {
        var i :| 0 <= i < |a| && a[i].code == code;
        assert (a + b)[i] == a[i];
      }
    }
  }

  /** Every entry of `errors` names the field `key`. */
  predicate AllAbout(errors: seq<ValidationError>, key: string)
  {
    forall i :: 0 <= i < |errors| ==> errors[i].field == key
  }

  // ---------------------------------------------------------------------------
  // Missingness
  // ---------------------------------------------------------------------------

  /**
   * `isMissingValue`: only a required field can be missing; it is missing when
   * its value is undefined or null, or a string that is empty after trimming.
   */
  function IsMissingValue(value: Value, field: SettingsField): (missing: bool)
    ensures !field.required ==> !missing
    ensures field.required && (value.Undefined? || value.Null?) ==> missing
    ensures value.Str? ==> (missing <==> field.required && Text.AllWhitespace(value.s))
    ensures missing ==> field.required && (value.Undefined? || value.Null? || value.Str?)
  {
    if !field.required then false
    else if value.Undefined? || value.Null? then true
    else if value.Str? then
      Text.TrimEmptyIff(value.s);
      |Text.Trim(value.s)| == 0
    else false
  }

  // ---------------------------------------------------------------------------
  // Type check
  // ---------------------------------------------------------------------------

  /** The JavaScript type a field of type `t` accepts; an unknown type accepts nothing. */
  predicate HasDeclaredType(value: Value, t: FieldType)
  {
    match t
    case StringField => value.Str?
    case HtmlField => value.Str?
    case RichTextField => value.Str?
    case UrlField => value.Str?
    case ColorField => value.Str?
    case NumberField => value.Num?
    case BooleanField => value.Bool?
    case SelectField => value.Str? || value.Num?
    case UnknownField(_) => false
  }

  /** `options.some((option) => option.value === value)`. */
  predicate AmongOptions(value: Value, options: seq<SelectOption>)
  {
    exists i :: 0 <= i < |options| && options[i].value == value
  }

  /** A value that passes the type check: the declared type, plus the URL, colour and option rules. */
  predicate PassesTypeCheck(value: Value, field: SettingsField, protocolOf: UrlProtocolOf)
  {
    && HasDeclaredType(value, field.fieldType)
    && (field.fieldType.UrlField? ==> IsValidHttpUrl(value.s, protocolOf))
    && (field.fieldType.ColorField? ==> IsValidHexColor(Some(value.s)))
    && (field.fieldType.SelectField? ==>
          field.options.Some? && field.options.value != [] && AmongOptions(value, field.options.value))
  }

  /** `validateType`: the single error the type check of a present value yields, if any. */
  function ValidateType(value: Value, field: SettingsField, protocolOf: UrlProtocolOf): (err: Option<ValidationError>)
    ensures err.Some? ==> err.value.field == field.key
    ensures err.None? <==> PassesTypeCheck(value, field, protocolOf)
    ensures (err.Some? && err.value.code == TypeCode) <==> !HasDeclaredType(value, field.fieldType)
    ensures (field.fieldType.UrlField? && value.Str? && !IsValidHttpUrl(value.s, protocolOf))
              ==> err == Some(ValidationError(field.key, "Invalid URL format.", UrlCode))
    ensures (field.fieldType.ColorField? && value.Str? && !IsValidHexColor(Some(value.s)))
              ==> err == Some(ValidationError(field.key, "Invalid color format.", ColorCode))
    ensures (field.fieldType.SelectField? && (value.Str? || value.Num?)
              && (field.options.None? || field.options.value == []))
              ==> err == Some(ValidationError(field.key, "Select options are missing.", OptionsCode))
    ensures (field.fieldType.SelectField? && (value.Str? || value.Num?)
              && field.options.Some? && field.options.value != [] && !AmongOptions(value, field.options.value))
              ==> err == Some(ValidationError(field.key, "Value is not in allowed options.", OptionsCode))
  {
    var key := field.key;
    match field.fieldType
    case StringField | HtmlField | RichTextField =>
      if value.Str? then None else Some(ValidationError(key, "Expected a string value.", TypeCode))
    case UrlField =>
      if !value.Str? then Some(ValidationError(key, "Expected a URL string.", TypeCode))
      else if IsValidHttpUrl(value.s, protocolOf) then None
      else Some(ValidationError(key, "Invalid URL format.", UrlCode))
    case ColorField =>
      if !value.Str? then Some(ValidationError(key, "Expected a color string.", TypeCode))
      else if IsValidHexColor(Some(value.s)) then None
      else Some(ValidationError(key, "Invalid color format.", ColorCode))
    case NumberField =>
      if value.Num? then None else Some(ValidationError(key, "Expected a number value.", TypeCode))
    case BooleanField =>
      if value.Bool? then None else Some(ValidationError(key, "Expected a boolean value.", TypeCode))
    case SelectField =>
      if !value.Str? && !value.Num? then Some(ValidationError(key, "Expected a select value.", TypeCode))
      else if field.options.None? || |field.options.value| == 0 then
        Some(ValidationError(key, "Select options are missing.", OptionsCode))
      else if AmongOptions(value, field.options.value) then None
      else Some(ValidationError(key, "Value is not in allowed options.", OptionsCode))
    case UnknownField(_) =>
      Some(ValidationError(key, "Unknown field type.", TypeCode))
  }

  // ---------------------------------------------------------------------------
  // Constraint checks
  // ---------------------------------------------------------------------------

  /** `if (field.pattern)`: a pattern is checked only when it is a non-empty string. */
  predicate HasPattern(field: SettingsField)
  {
    field.pattern.Some? && field.pattern.value != ""
  }

  /** The one-entry error list `[{field: key, message, code}]` when `cond` holds, else no error. */
  function ErrorIf(cond: bool, key: string, message: string, code: ErrorCode): (errors: seq<ValidationError>)
    ensures AllAbout(errors, key) && |errors| <= 1
    ensures forall c :: HasCode(errors, c) <==> cond && c == code
  {
    if cond then
      var errors := [ValidationError(key, message, code)];
      assert errors[0].code == code;
      errors
    else []
  }

  /**
   * The `min` and `max` errors, independent of each other, for a size (a
   * string's length or a number); `unit` ends the message.
   */
  function BoundErrors(size: int, field: SettingsField, unit: string): (errors: seq<ValidationError>)
    ensures AllAbout(errors, field.key) && |errors| <= 2
    ensures forall c :: HasCode(errors, c) <==>
              (c == MinCode && field.min.Some? && size < field.min.value)
              || (c == MaxCode && field.max.Some? && size > field.max.value)
  {
    var minErrors := ErrorIf(field.min.Some? && size < field.min.value, field.key,
      "Must be at least " + Text.IntToString(field.min.GetOr(0)) + unit, MinCode);
    var maxErrors := ErrorIf(field.max.Some? && size > field.max.value, field.key,
      "Must be at most " + Text.IntToString(field.max.GetOr(0)) + unit, MaxCode);
    HasCodeAppend(minErrors, maxErrors);
    minErrors + maxErrors
  }

  /** The `pattern` part of `validateStringConstraints`: a pattern that does not compile, or a value it rejects. */
  function PatternErrors(value: string, field: SettingsField, regex: RegexEngine): (errors: seq<ValidationError>)
    ensures AllAbout(errors, field.key) && |errors| <= 1
    ensures forall c :: HasCode(errors, c) <==>
              c == PatternCode && HasPattern(field) && (!regex.compiles(field.pattern.value) || !regex.test(field.pattern.value, value))
  {
    if !HasPattern(field) then []
    else if !regex.compiles(field.pattern.value)
    then ErrorIf(true, field.key, "Invalid pattern provided in schema.", PatternCode)
    else ErrorIf(!regex.test(field.pattern.value, value), field.key, "Does not match required pattern.", PatternCode)
  }

  /**
   * `validateStringConstraints`: independent `min`, `max` and `pattern` errors
   * on the value's length; a pattern that does not compile is itself a
   * `pattern` error, not a fault.
   */
  function ValidateStringConstraints(value: string, field: SettingsField, regex: RegexEngine): (errors: seq<ValidationError>)
    ensures AllAbout(errors, field.key)
    ensures forall c :: HasCode(errors, c) ==> c in {MinCode, MaxCode, PatternCode}
    ensures HasCode(errors, MinCode) <==> field.min.Some? && |value| < field.min.value
    ensures HasCode(errors, MaxCode) <==> field.max.Some? && |value| > field.max.value
    ensures HasCode(errors, PatternCode) <==>
              HasPattern(field) && (!regex.compiles(field.pattern.value) || !regex.test(field.pattern.value, value))
    ensures |errors| <= 3
  {
    var boundErrors := BoundErrors(|value|, field, " characters.");
    var patternErrors := PatternErrors(value, field, regex);
    HasCodeAppend(boundErrors, patternErrors);
    boundErrors + patternErrors
  }

  /** `validateNumberConstraints`: independent numeric `min` and `max` errors. */
  function ValidateNumberConstraints(value: int, field: SettingsField): (errors: seq<ValidationError>)
    ensures AllAbout(errors, field.key)
    ensures forall c :: HasCode(errors, c) ==> c in {MinCode, MaxCode}
    ensures HasCode(errors, MinCode) <==> field.min.Some? && value < field.min.value
    ensures HasCode(errors, MaxCode) <==> field.max.Some? && value > field.max.value
    ensures |errors| <= 2
  {
    BoundErrors(value, field, ".")
  }

  // ---------------------------------------------------------------------------
  // The whole schema
  // ---------------------------------------------------------------------------

  /**
   * What one field contributes to `errors`: nothing when it is missing or
   * absent; its type error alone when the type check fails; otherwise its
   * constraint errors.
   */
  function FieldErrors(field: SettingsField, value: Value, protocolOf: UrlProtocolOf, regex: RegexEngine)
    : (errors: seq<ValidationError>)
    ensures AllAbout(errors, field.key)
    ensures IsMissingValue(value, field) ==> errors == []
    ensures value.Undefined? || value.Null? ==> errors == []
    ensures (!IsMissingValue(value, field) && !value.Undefined? && !value.Null?
              && ValidateType(value, field, protocolOf).Some?)
              ==> errors == [ValidateType(value, field, protocolOf).value]
    ensures (!IsMissingValue(value, field) && !value.Undefined? && !value.Null?
              && ValidateType(value, field, protocolOf).None?)
              ==> && (value.Str? && IsStringType(field.fieldType) ==> errors == ValidateStringConstraints(value.s, field, regex))
                  && (value.Num? && field.fieldType.NumberField? ==> errors == ValidateNumberConstraints(value.n, field))
                  && (!(value.Str? && IsStringType(field.fieldType)) && !(value.Num? && field.fieldType.NumberField?)
                      ==> errors == [])
  {
    if IsMissingValue(value, field) then []
    else if value.Undefined? || value.Null? then []
    else
      match ValidateType(value, field, protocolOf)
      case Some(typeError) => [typeError]
      case None =>
        var stringErrors :=
          if value.Str? && IsStringType(field.fieldType) then ValidateStringConstraints(value.s, field, regex) else [];
        var numberErrors :=
          if value.Num? && field.fieldType.NumberField? then ValidateNumberConstraints(value.n, field) else [];
        stringErrors + numberErrors
  }

  /** What one field contributes to `missingFields`: its key when it is missing. */
  function MissingKey(config: map<string, Value>): SettingsField -> seq<string>
  {
    (field: SettingsField) => if IsMissingValue(Lookup(config, field.key), field) then [field.key] else []
  }

  /** What one field contributes to `errors`, reading its value from `config`. */
  function FieldCheck(config: map<string, Value>, protocolOf: UrlProtocolOf, regex: RegexEngine)
    : SettingsField -> seq<ValidationError>
  {
    (field: SettingsField) => FieldErrors(field, Lookup(config, field.key), protocolOf, regex)
  }

  /** The keys of the missing fields, in schema order. */
  function SchemaMissing(fields: seq<SettingsField>, config: map<string, Value>): seq<string>
  {
    FlatMap(fields, MissingKey(config))
  }

  /** The errors of all fields, field by field in schema order. */
  function SchemaErrors(fields: seq<SettingsField>, config: map<string, Value>, protocolOf: UrlProtocolOf, regex: RegexEngine)
    : seq<ValidationError>
  {
    FlatMap(fields, FieldCheck(config, protocolOf, regex))
  }

  /** `validateSettingsSchema`: one pass over the fields collecting missing keys and errors. */
  method ValidateSettingsSchema(schema: SettingsSchema, config: map<string, Value>, protocolOf: UrlProtocolOf, regex: RegexEngine)
    returns (result: ValidationResult)
    ensures result.missingFields == SchemaMissing(schema.fields, config)
    ensures result.errors == SchemaErrors(schema.fields, config, protocolOf, regex)
    ensures result.ok <==> result.missingFields == [] && result.errors == []
  {
    var fields := schema.fields;
    var missingFields: seq<string> := [];
    var errors: seq<ValidationError> := [];
    for i := 0 to |fields|
      invariant missingFields == SchemaMissing(fields[..i], config)
      invariant errors == SchemaErrors(fields[..i], config, protocolOf, regex)
    {
      var missingKeys, fieldErrors := CheckField(fields[i], config, protocolOf, regex);
      FlatMapAccumulate(fields, i, MissingKey(config), missingFields, missingKeys);
      FlatMapAccumulate(fields, i, FieldCheck(config, protocolOf, regex), errors, fieldErrors);
      missingFields := missingFields + missingKeys;
      errors := errors + fieldErrors;
    }
    assert fields[..|fields|] == fields;
    result := ValidationResult(missingFields == [] && errors == [], missingFields, errors);
  }

  /**
   * The body of the loop of `validateSettingsSchema` for one field: a missing
   * field is reported as missing and checked no further; an absent value is
   * skipped; a type error stops the checks of that field.
   */
  method CheckField(field: SettingsField, config: map<string, Value>, protocolOf: UrlProtocolOf, regex: RegexEngine)
    returns (missingKeys: seq<string>, errors: seq<ValidationError>)
    ensures missingKeys == MissingKey(config)(field)
    ensures errors == FieldCheck(config, protocolOf, regex)(field)
  {
    var value := Lookup(config, field.key);
    missingKeys := [];
    errors := [];
    if IsMissingValue(value, field) {
      missingKeys := [field.key];
      return;
    }
    if value.Undefined? || value.Null? {
      return;
    }
    var typeError := ValidateType(value, field, protocolOf);
    if typeError.Some? {
      errors := [typeError.value];
      return;
    }
    if value.Str? && IsStringType(field.fieldType) {
      errors := errors + ValidateStringConstraints(value.s, field, regex);
    }
    if value.Num? && field.fieldType.NumberField? {
      errors := errors + ValidateNumberConstraints(value.n, field);
    }
  }

  // ---------------------------------------------------------------------------
  // Properties of the fold
  // ---------------------------------------------------------------------------

  /** Validating a schema in two parts gives the two parts' results one after the other (schema order). */
  lemma SchemaOrder(front: seq<SettingsField>, back: seq<SettingsField>,
                    config: map<string, Value>, protocolOf: UrlProtocolOf, regex: RegexEngine)
    ensures SchemaMissing(front + back, config) == SchemaMissing(front, config) + SchemaMissing(back, config)
    ensures SchemaErrors(front + back, config, protocolOf, regex)
         == SchemaErrors(front, config, protocolOf, regex) + SchemaErrors(back, config, protocolOf, regex)
  {
    FlatMapAppend(front, back, MissingKey(config));
    FlatMapAppend(front, back, FieldCheck(config, protocolOf, regex));
  }

  /** A key is listed as missing exactly when some field with that key is missing. */
  lemma MissingFieldsAreMissingKeys(fields: seq<SettingsField>, config: map<string, Value>, k: string)
    ensures k in SchemaMissing(fields, config) <==>
              exists i :: 0 <= i < |fields| && fields[i].key == k && IsMissingValue(Lookup(config, k), fields[i])
  {
    if k in SchemaMissing(fields, config) {
      FlatMapSource(fields, MissingKey(config), k);
    }
    if i :| 0 <= i < |fields| && fields[i].key == k && IsMissingValue(Lookup(config, k), fields[i]) {
      FlatMapIncludes(fields, MissingKey(config), i, k);
    }
  }

  /** A schema without required fields never reports a missing field. */
  lemma OptionalSchemaHasNoMissing(fields: seq<SettingsField>, config: map<string, Value>)
    requires forall i :: 0 <= i < |fields| ==> !fields[i].required
    ensures SchemaMissing(fields, config) == []
  {
    FlatMapEmpty(fields, MissingKey(config));
  }

  /** Every error names a key of the schema. */
  lemma ErrorFieldsAreSchemaKeys(fields: seq<SettingsField>, config: map<string, Value>,
                                 protocolOf: UrlProtocolOf, regex: RegexEngine, e: ValidationError)
    requires e in SchemaErrors(fields, config, protocolOf, regex)
    ensures exists i :: 0 <= i < |fields| && fields[i].key == e.field
  {
    FlatMapSource(fields, FieldCheck(config, protocolOf, regex), e);
    var i :| 0 <= i < |fields| && e in FieldCheck(config, protocolOf, regex)(fields[i]);
    assert e.field == fields[i].key;
  }

  /** Keys of a schema are unique. */
  predicate UniqueKeys(fields: seq<SettingsField>)
  {
    forall i, j :: 0 <= i < j < |fields| ==> fields[i].key != fields[j].key
  }

  /** A missing field is reported only in `missingFields`: no error names it. */
  lemma MissingFieldHasNoErrors(fields: seq<SettingsField>, config: map<string, Value>,
                                protocolOf: UrlProtocolOf, regex: RegexEngine, j: nat, e: ValidationError)
    requires UniqueKeys(fields)
    requires j < |fields| && IsMissingValue(Lookup(config, fields[j].key), fields[j])
    requires e in SchemaErrors(fields, config, protocolOf, regex)
    ensures e.field != fields[j].key
  {
    FlatMapSource(fields, FieldCheck(config, protocolOf, regex), e);
    var i :| 0 <= i < |fields| && e in FieldCheck(config, protocolOf, regex)(fields[i]);
    assert e.field == fields[i].key;
    if i != j {
      assert fields[i].key != fields[j].key by {
        if i < j { assert fields[i].key != fields[j].key; } else { assert fields[j].key != fields[i].key; }
      }
    }
  }

  /** A result is `ok` exactly when no field is missing and every field passes its checks. */
  lemma OkIffEveryFieldPasses(fields: seq<SettingsField>, config: map<string, Value>,
                              protocolOf: UrlProtocolOf, regex: RegexEngine)
    ensures (SchemaMissing(fields, config) == [] && SchemaErrors(fields, config, protocolOf, regex) == [])
        <==> forall i :: 0 <= i < |fields| ==>
               !IsMissingValue(Lookup(config, fields[i].key), fields[i])
               && FieldErrors(fields[i], Lookup(config, fields[i].key), protocolOf, regex) == []
  {
    FlatMapEmpty(fields, MissingKey(config));
    FlatMapEmpty(fields, FieldCheck(config, protocolOf, regex));
  }

  /** The single required `headline` field of the sample hero block. */
  function HeadlineField(): SettingsField
  {
    SettingsField("headline", "Headline", StringField, true, Str("Hello"), None, None, None, None)
  }

  lemma HeadlineExamples(protocolOf: UrlProtocolOf, regex: RegexEngine)
    ensures SchemaMissing([HeadlineField()], map[]) == ["headline"]
    ensures SchemaMissing([HeadlineField()], map["headline" := Str("   ")]) == ["headline"]
    ensures SchemaMissing([HeadlineField()], map["headline" := Str("Hi")]) == []
    ensures SchemaErrors([HeadlineField()], map["headline" := Num(3)], protocolOf, regex)
         == [ValidationError("headline", "Expected a string value.", TypeCode)]
  {
    assert [HeadlineField()][..0] == [];
    assert Text.AllWhitespace("   ");
    assert !Text.AllWhitespace("Hi") by { assert !Text.IsJsWhitespace("Hi"[0]); }
  }
}
