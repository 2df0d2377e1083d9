/**
 * Non-mutating operations on documents: each takes a document and returns a
 * new one (or the same one when nothing changes). Also the instantiation of
 * custom blocks, whose configuration is a layered deep merge of schema
 * defaults, the definition's default configuration and caller overrides.
 */
module DocumentService {
  import opened Wrappers
  import opened Types
  import opened Seqs

  // ---------------------------------------------------------------------------
  // Layout
  // ---------------------------------------------------------------------------

  /** `createLayoutSettings`: the layout of a mode, its width taken from the table. */
  function CreateLayoutSettings(mode: PreviewMode): (layout: LayoutSettings)
    ensures layout.previewMode == mode && ValidLayout(layout)
  {
    LayoutSettings(mode, PreviewWidth(mode))
  }

  /** `createDocument`: no blocks and the mobile layout at 375 pixels. */
  function CreateDocument(id: string): (doc: Document)
    ensures doc.id == id && doc.blocks == []
    ensures doc.layout.previewMode == Mobile && doc.layout.previewWidthPx == 375 && ValidLayout(doc.layout)
  {
    Document(id, [], CreateLayoutSettings(Mobile))
  }

  /** `setLayout`: replaces the layout wholesale and keeps everything else. */
  function SetLayout(doc: Document, layout: LayoutSettings): (result: Document)
    ensures result.layout == layout
    ensures result.id == doc.id && result.blocks == doc.blocks
  {
    doc.(layout := layout)
  }

  /** `setPreviewMode`: the layout becomes the mode with its table width; id and blocks stay. */
  function SetPreviewMode(doc: Document, mode: PreviewMode): (result: Document)
    ensures result.layout.previewMode == mode && ValidLayout(result.layout)
    ensures result.id == doc.id && result.blocks == doc.blocks
  {
    SetLayout(doc, CreateLayoutSettings(mode))
  }

  // ---------------------------------------------------------------------------
  // Blocks
  // ---------------------------------------------------------------------------

  /** `addBlock`: appends; the old blocks are a prefix and the new block is last. */
  function AddBlock(doc: Document, block: Block): (result: Document)
    ensures |result.blocks| == |doc.blocks| + 1
    ensures result.blocks[..|doc.blocks|] == doc.blocks && result.blocks[|doc.blocks|] == block
    ensures result.id == doc.id && result.layout == doc.layout
  {
    doc.(blocks := doc.blocks + [block])
  }

  /** `updateBlock`: every block whose id matches becomes `updater(block)`; the rest stay in place. */
  function UpdateBlock(doc: Document, blockId: string, updater: Block -> Block): (result: Document)
    ensures |result.blocks| == |doc.blocks|
    ensures forall i :: 0 <= i < |doc.blocks| ==>
              result.blocks[i] == if doc.blocks[i].id == blockId then updater(doc.blocks[i]) else doc.blocks[i]
    ensures result.id == doc.id && result.layout == doc.layout
  {
    var blocks := doc.blocks;
    doc.(blocks := seq(|blocks|, i requires 0 <= i < |blocks| =>
                         if blocks[i].id == blockId then updater(blocks[i]) else blocks[i]))
  }

  /** Updating a block id that no block carries leaves the document as it was. */
  lemma UpdateAbsentIsIdentity(doc: Document, blockId: string, updater: Block -> Block)
    requires forall i :: 0 <= i < |doc.blocks| ==> doc.blocks[i].id != blockId
    ensures UpdateBlock(doc, blockId, updater) == doc
  {
    assert UpdateBlock(doc, blockId, updater).blocks == doc.blocks;
  }

  /** `replaceBlock`: `updateBlock` with an updater that ignores its argument. */
  function ReplaceBlock(doc: Document, blockId: string, next: Block): (result: Document)
    ensures |result.blocks| == |doc.blocks|
    ensures forall i :: 0 <= i < |doc.blocks| ==>
              result.blocks[i] == if doc.blocks[i].id == blockId then next else doc.blocks[i]
    ensures result.id == doc.id && result.layout == doc.layout
  {
    UpdateBlock(doc, blockId, _ => next)
  }

  /** The `filter` callback of `deleteBlock`: keep a block unless it carries the id. */
  function KeepUnless(blockId: string): Block -> seq<Block>
  {
    (block: Block) => if block.id != blockId then [block] else []
  }

  /** `deleteBlock`: the blocks whose id differs, in their original order. */
  function DeleteBlock(doc: Document, blockId: string): (result: Document)
    ensures forall b :: b in result.blocks <==> b in doc.blocks && b.id != blockId
    ensures |result.blocks| <= |doc.blocks|
    ensures result.id == doc.id && result.layout == doc.layout
  {
    var kept := FlatMap(doc.blocks, KeepUnless(blockId));
    forall b | b in kept ensures b in doc.blocks && b.id != blockId {
      FlatMapSource(doc.blocks, KeepUnless(blockId), b);
    }
    forall b | b in doc.blocks && b.id != blockId ensures b in kept {
      var i :| 0 <= i < |doc.blocks| && doc.blocks[i] == b;
      FlatMapIncludes(doc.blocks, KeepUnless(blockId), i, b);
    }
    KeptIsShorter(doc.blocks, blockId);
    doc.(blocks := kept)
  }

  lemma {:induction false} KeptIsShorter(blocks: seq<Block>, blockId: string)
    ensures |FlatMap(blocks, KeepUnless(blockId))| <= |blocks|
  {
    if |blocks| > 0 {
      KeptIsShorter(blocks[..|blocks| - 1], blockId);
    }
  }

  /** Deleting an id no block carries leaves the blocks as they were. */
  lemma {:induction false} DeleteAbsentIsIdentity(blocks: seq<Block>, blockId: string)
    requires forall i :: 0 <= i < |blocks| ==> blocks[i].id != blockId
    ensures FlatMap(blocks, KeepUnless(blockId)) == blocks
  {
    if |blocks| > 0 {
      var init := blocks[..|blocks| - 1];
      DeleteAbsentIsIdentity(init, blockId);
      assert blocks == init + [blocks[|blocks| - 1]];
    }
  }

  /** Order is kept: deleting from two parts deletes from each part in place. */
  lemma DeleteKeepsOrder(front: seq<Block>, back: seq<Block>, blockId: string)
    ensures FlatMap(front + back, KeepUnless(blockId))
         == FlatMap(front, KeepUnless(blockId)) + FlatMap(back, KeepUnless(blockId))
  {
    FlatMapAppend(front, back, KeepUnless(blockId));
  }

  /** Adding a block with a fresh id and deleting that id gives the original document back. */
  lemma DeleteUndoesAdd(doc: Document, block: Block)
    requires forall i :: 0 <= i < |doc.blocks| ==> doc.blocks[i].id != block.id
    ensures DeleteBlock(AddBlock(doc, block), block.id) == doc
  {
    FlatMapSnoc(doc.blocks, block, KeepUnless(block.id));
    DeleteAbsentIsIdentity(doc.blocks, block.id);
  }

  // ---------------------------------------------------------------------------
  // Reordering with splice semantics
  // ---------------------------------------------------------------------------

  /** The sequence without its element at `i`: `s.splice(i, 1)`'s effect on `s`. */
  function RemoveAt<T>(s: seq<T>, i: nat): (r: seq<T>)
    requires i < |s|
    ensures |r| == |s| - 1
    ensures forall k :: 0 <= k < |r| ==> r[k] == if k < i then s[k] else s[k + 1]
  {
    s[..i] + s[i + 1..]
  }

  /** `to` is `from`'s block moved to index `to`, the others keeping their relative order. */
  ghost predicate IsMove<T>(from: seq<T>, to: seq<T>, fromIndex: nat, toIndex: nat)
    requires fromIndex < |from| && toIndex < |from|
  {
    |to| == |from| && to[toIndex] == from[fromIndex] && RemoveAt(to, toIndex) == RemoveAt(from, fromIndex)
  }

  /**
   * `reorderBlocks`: nothing changes when the indices are equal or either is
   * out of range; otherwise the block at `fromIndex` is removed and reinserted
   * at `toIndex`, counted after the removal.
   */
  method ReorderBlocks(doc: Document, fromIndex: int, toIndex: int) returns (result: Document)
    ensures (fromIndex == toIndex || !(0 <= fromIndex < |doc.blocks|) || !(0 <= toIndex < |doc.blocks|))
              ==> result == doc
    ensures (fromIndex != toIndex && 0 <= fromIndex < |doc.blocks| && 0 <= toIndex < |doc.blocks|)
              ==> IsMove(doc.blocks, result.blocks, fromIndex, toIndex)
                  && multiset(result.blocks) == multiset(doc.blocks)
    ensures result.id == doc.id && result.layout == doc.layout
  {
    if fromIndex == toIndex {
      return doc;
    }
    var blocks := doc.blocks;
    if fromIndex < 0 || toIndex < 0 || fromIndex >= |blocks| || toIndex >= |blocks| {
      return doc;
    }
    var moved := blocks[fromIndex];
    blocks := blocks[..fromIndex] + blocks[fromIndex + 1..];
    blocks := blocks[..toIndex] + [moved] + blocks[toIndex..];
    result := doc.(blocks := blocks);
    assert RemoveAt(blocks, toIndex) == RemoveAt(doc.blocks, fromIndex);
    calc {
      multiset(doc.blocks);
      { assert doc.blocks == doc.blocks[..fromIndex] + [moved] + doc.blocks[fromIndex + 1..]; }
      multiset(RemoveAt(doc.blocks, fromIndex)) + multiset{moved};
      multiset(RemoveAt(blocks, toIndex)) + multiset{moved};
      { assert blocks == blocks[..toIndex] + [moved] + blocks[toIndex + 1..]; }
      multiset(blocks);
    }
  }

  /** The move relation determines its result: two moves of the same block to the same place agree. */
  lemma MoveIsUnique<T>(from: seq<T>, r1: seq<T>, r2: seq<T>, fromIndex: nat, toIndex: nat)
    requires fromIndex < |from| && toIndex < |from|
    requires IsMove(from, r1, fromIndex, toIndex) && IsMove(from, r2, fromIndex, toIndex)
    ensures r1 == r2
  {
    var rest := RemoveAt(from, fromIndex);
    forall k | 0 <= k < |r1| ensures r1[k] == r2[k] {
      if k < toIndex {
        assert r1[k] == RemoveAt(r1, toIndex)[k] == rest[k] == RemoveAt(r2, toIndex)[k] == r2[k];
      } else if k > toIndex {
        assert r1[k] == RemoveAt(r1, toIndex)[k - 1] == rest[k - 1] == RemoveAt(r2, toIndex)[k - 1] == r2[k];
      }
    }
  }

  /** Moving index 0 to index 2 of `[a, b, c, d]` gives `[b, c, a, d]`. */
  lemma MoveExample<T>(a: T, b: T, c: T, d: T, r: seq<T>)
    requires |r| == 4 && IsMove([a, b, c, d], r, 0, 2)
    ensures r == [b, c, a, d]
  {
    assert IsMove([a, b, c, d], [b, c, a, d], 0, 2) by {
      assert RemoveAt([b, c, a, d], 2) == [b, c, d] == RemoveAt([a, b, c, d], 0);
    }
    MoveIsUnique([a, b, c, d], r, [b, c, a, d], 0, 2);
  }

  // ---------------------------------------------------------------------------
  // Deep merge of configuration values
  // ---------------------------------------------------------------------------

  /** A value that replaces whatever lies beneath it in a merge: defined and not a plain object. */
  predicate Replaces(v: Value)
  {
    !v.Undefined? && !v.Obj?
  }

  /**
   * The value `deepMerge(base, overrides)` returns: if either side is an array
   * the override replaces the base (unless it is undefined); two plain objects
   * merge key by key, recursively, keeping base keys the override lacks; any
   * other override replaces the base unless it is undefined.
   */
  function Merged(base: Value, overrides: Value): (merged: Value)
    ensures overrides.Undefined? ==> merged == base
    ensures Replaces(overrides) ==> merged == overrides
    ensures !(base.Obj? && overrides.Obj?) ==> merged == if overrides.Undefined? then base else overrides
    ensures base.Obj? && overrides.Obj? ==>
              && merged.Obj?
              && merged.fields.Keys == base.fields.Keys + overrides.fields.Keys
              && (forall key :: key in base.fields && key !in overrides.fields ==> merged.fields[key] == base.fields[key])
              && (forall key :: key in overrides.fields ==>
                    merged.fields[key] == Merged(Lookup(base.fields, key), overrides.fields[key]))
    decreases overrides
  {
    if base.Arr? || overrides.Arr? then
      if overrides.Undefined? then base else overrides
    else if base.Obj? && overrides.Obj? then
      Obj(map key | key in base.fields.Keys + overrides.fields.Keys ::
            if key in overrides.fields then Merged(Lookup(base.fields, key), overrides.fields[key])
            else base.fields[key])
    else if overrides.Undefined? then base
    else overrides
  }

  /** `deepMerge`: copies the base object, then writes each override entry's merge into the copy. */
  method DeepMerge(base: Value, overrides: Value) returns (merged: Value)
    ensures merged == Merged(base, overrides)
    decreases overrides
  {
    if base.Arr? || overrides.Arr? {
      return if overrides.Undefined? then base else overrides;
    }
    if base.Obj? && overrides.Obj? {
      var fields := base.fields;
      var pending := overrides.fields.Keys;
      while pending != {}
        invariant pending <= overrides.fields.Keys
        invariant fields.Keys == base.fields.Keys + (overrides.fields.Keys - pending)
        invariant forall key :: key in fields ==>
                    fields[key] == if key in overrides.fields && key !in pending
                                   then Merged(Lookup(base.fields, key), overrides.fields[key])
                                   else base.fields[key]
        decreases pending
      {
        var key :| key in pending;
        var value := DeepMerge(Lookup(base.fields, key), overrides.fields[key]);
        fields := fields[key := value];
        pending := pending - {key};
      }
      return Obj(fields);
    }
    return if overrides.Undefined? then base else overrides;
  }

  /** Merging the same value onto itself changes nothing. */
  lemma {:induction false} MergedSelf(v: Value)
    ensures Merged(v, v) == v
    decreases v
  {
    if v.Obj? {
      forall key | key in v.fields ensures Merged(Lookup(v.fields, key), v.fields[key]) == v.fields[key] {
        MergedSelf(v.fields[key]);
      }
      assert Merged(v, v).fields == v.fields;
    }
  }

  /** Applying the same overrides a second time changes nothing. */
  lemma {:induction false} MergedTwice(base: Value, overrides: Value)
    ensures Merged(Merged(base, overrides), overrides) == Merged(base, overrides)
    decreases overrides
  {
    var once := Merged(base, overrides);
    if overrides.Undefined? {
    } else if base.Obj? && overrides.Obj? {
      forall key | key in overrides.fields
        ensures Merged(Lookup(once.fields, key), overrides.fields[key]) == once.fields[key]
      {
        MergedTwice(Lookup(base.fields, key), overrides.fields[key]);
      }
      assert Merged(once, overrides).fields == once.fields;
    } else {
      MergedSelf(overrides);
    }
  }

  /** Merging onto an empty object yields the overrides themselves. */
  lemma MergedOntoEmpty(overrides: map<string, Value>)
    ensures Merged(Obj(map[]), Obj(overrides)) == Obj(overrides)
  {
    var merged := Merged(Obj(map[]), Obj(overrides));
    forall key | key in overrides ensures merged.fields[key] == overrides[key] {
      assert merged.fields[key] == Merged(Undefined, overrides[key]);
    }
    assert merged.fields == overrides;
  }

  // ---------------------------------------------------------------------------
  // Custom block instances
  // ---------------------------------------------------------------------------

  /** Each field's `default`, keyed by field key, skipping fields without one (a later field wins). */
  function SchemaDefaults(fields: seq<SettingsField>): map<string, Value>
  {
    if |fields| == 0 then map[]
    else
      var last := fields[|fields| - 1];
      var defaults := SchemaDefaults(fields[..|fields| - 1]);
      if last.defaultValue.Undefined? then defaults else defaults[last.key := last.defaultValue]
  }

  /** `buildSchemaDefaults`: fills a dictionary from the schema's fields in one loop. */
  method BuildSchemaDefaults(definition: CustomBlockDefinition) returns (defaults: map<string, Value>)
    ensures defaults == SchemaDefaults(definition.settingsSchema.fields)
  {
    var fields := definition.settingsSchema.fields;
    defaults := map[];
    for i := 0 to |fields|
      invariant defaults == SchemaDefaults(fields[..i])
    {
      var field := fields[i];
      assert fields[..i + 1][..i] == fields[..i];
      if !field.defaultValue.Undefined? {
        defaults := defaults[field.key := field.defaultValue];
      }
    }
    assert fields[..|fields|] == fields;
  }

  /** A key has a schema default exactly when some field with that key declares one, and the last such field wins. */
  lemma {:induction false} SchemaDefaultsLookup(fields: seq<SettingsField>, key: string)
    ensures key in SchemaDefaults(fields) <==>
              exists i :: 0 <= i < |fields| && fields[i].key == key && !fields[i].defaultValue.Undefined?
    ensures key in SchemaDefaults(fields) ==>
              exists i :: 0 <= i < |fields| && fields[i].key == key && SchemaDefaults(fields)[key] == fields[i].defaultValue
                          && forall j :: i < j < |fields| && fields[j].key == key ==> fields[j].defaultValue.Undefined?
  {
    if |fields| > 0 {
      var init := fields[..|fields| - 1];
      var last := fields[|fields| - 1];
      SchemaDefaultsLookup(init, key);
      assert forall i :: 0 <= i < |init| ==> init[i] == fields[i];
      if key in SchemaDefaults(fields) && !(last.key == key && !last.defaultValue.Undefined?) {
        var i :| 0 <= i < |init| && init[i].key == key && SchemaDefaults(init)[key] == init[i].defaultValue
                 && forall j :: i < j < |init| && init[j].key == key ==> init[j].defaultValue.Undefined?;
        assert fields[i].key == key && SchemaDefaults(fields)[key] == fields[i].defaultValue;
      }
    }
  }

  /** The configuration of a ready instance: schema defaults, then `defaultConfig`, then the overrides. */
  function InstanceConfig(definition: CustomBlockDefinition, overrides: map<string, Value>): (config: map<string, Value>)
    ensures config.Keys == SchemaDefaults(definition.settingsSchema.fields).Keys + definition.defaultConfig.Keys + overrides.Keys
  {
    var baseConfig := Merged(Obj(SchemaDefaults(definition.settingsSchema.fields)), Obj(definition.defaultConfig));
    Merged(baseConfig, Obj(overrides)).fields
  }

  /**
   * Precedence: an override beats `defaultConfig`, which beats the schema
   * defaults; keys come from any of the three layers.
   */
  lemma ConfigPrecedence(definition: CustomBlockDefinition, overrides: map<string, Value>, key: string)
    ensures var config := InstanceConfig(definition, overrides);
            var defaults := SchemaDefaults(definition.settingsSchema.fields);
            var defaultConfig := definition.defaultConfig;
            && (key in config <==> key in defaults || key in defaultConfig || key in overrides)
            && (key in overrides && Replaces(overrides[key]) ==> config[key] == overrides[key])
            && (key !in overrides && key in defaultConfig && Replaces(defaultConfig[key]) ==> config[key] == defaultConfig[key])
            && (key !in overrides && key !in defaultConfig && key in defaults ==> config[key] == defaults[key])
  {
    var defaults := SchemaDefaults(definition.settingsSchema.fields);
    var baseConfig := Merged(Obj(defaults), Obj(definition.defaultConfig));
    assert baseConfig.Obj?;
    if key in definition.defaultConfig {
      assert baseConfig.fields[key] == Merged(Lookup(defaults, key), definition.defaultConfig[key]);
    }
  }

  /** The registry lookup `getCustomBlockDefinition`. */
  type Registry = string -> Option<CustomBlockDefinition>

  /**
   * `createCustomBlockInstance`: with a definition, a ready, editable block
   * whose configuration layers the overrides over the defaults; without one,
   * a read-only block in the missing-definition state holding the overrides.
   */
  method CreateCustomBlockInstance(definitionId: string, overrides: map<string, Value>, id: string, registry: Registry)
    returns (block: Block)
    ensures block.CustomBlock? && block.id == id && block.definitionId == definitionId
    ensures block.readOnly <==> block.state == MissingDefinition
    ensures registry(definitionId).Some? ==>
              block.state == StateReady && block.config == InstanceConfig(registry(definitionId).value, overrides)
    ensures registry(definitionId).None? ==> block.state == MissingDefinition && block.config == overrides
  {
    var definition := registry(definitionId);
    var baseConfig := Obj(map[]);
    if definition.Some? {
      var defaults := BuildSchemaDefaults(definition.value);
      baseConfig := DeepMerge(Obj(defaults), Obj(definition.value.defaultConfig));
    } else {
      MergedOntoEmpty(overrides);
    }
    var config := DeepMerge(baseConfig, Obj(overrides));
    var state := if definition.Some? then StateReady else MissingDefinition;
    block := CustomBlock(id, definitionId, config.fields, state, state == MissingDefinition);
  }

  /** The sample hero block: one `headline` field defaulting to "Hello". */
  function HeroDefinition(defaultConfig: map<string, Value>): CustomBlockDefinition
  {
    CustomBlockDefinition("hero", "Hero", Some("Marketing"), SettingsSchema([
      SettingsField("headline", "Headline", StringField, true, Str("Hello"), None, None, None, None)
    ]), defaultConfig)
  }

  lemma HeroExamples()
    ensures InstanceConfig(HeroDefinition(map[]), map["headline" := Str("Hi")])["headline"] == Str("Hi")
    ensures InstanceConfig(HeroDefinition(map["headline" := Str("Hello")]), map[])["headline"] == Str("Hello")
  {
    ConfigPrecedence(HeroDefinition(map[]), map["headline" := Str("Hi")], "headline");
    ConfigPrecedence(HeroDefinition(map["headline" := Str("Hello")]), map[], "headline");
  }
}
