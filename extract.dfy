/**
 * The entity extractor shared by both variants of the check: indexes of a
 * schema's models and of a model's fields, a model's block attributes, and
 * the lookup of an attribute by name.
 */
module Extract {
  import opened Wrappers
  import opened SchemaAst
  import opened OrderedMaps

  /** A model's declared name, the identity the older variant uses. */
  function DeclaredName(m: Model): string { m.name }

  /**
   * The map a loop over `blocks` builds when it calls `set(key(model), model)`
   * for every model block, in order.
   */
  function Index(blocks: seq<Block>, key: Model -> string): (m: OrderedMap<Model>)
    ensures m.Valid()
    ensures forall k :: k in m.values ==> key(m.values[k]) == k
  {
    if |blocks| == 0 then Empty()
    else
      var m := Index(blocks[..|blocks| - 1], key);
      match blocks[|blocks| - 1]
      case ModelBlock(model) => m.Set(key(model), model)
      case OtherBlock => m
  }

  /** A key is in the index exactly when some model block has that key. */
  lemma {:induction false} IndexHas(blocks: seq<Block>, key: Model -> string, k: string)
    ensures k in Index(blocks, key).values <==>
            exists i :: 0 <= i < |blocks| && blocks[i].ModelBlock? && key(blocks[i].model) == k
  {
    if |blocks| > 0 {
      var init := blocks[..|blocks| - 1];
      IndexHas(init, key, k);
      if k in Index(init, key).values {
        var i :| 0 <= i < |init| && init[i].ModelBlock? && key(init[i].model) == k;
        assert blocks[i] == init[i];
      }
      if exists i :: 0 <= i < |blocks| && blocks[i].ModelBlock? && key(blocks[i].model) == k {
        var i :| 0 <= i < |blocks| && blocks[i].ModelBlock? && key(blocks[i].model) == k;
        if i < |init| {
          assert init[i] == blocks[i];
        }
      }
    }
  }

  /**
   * When several model blocks share a key, the last of them is the one
   * stored, because `set` replaces the value of an existing key.
   */
  lemma {:induction false} IndexLastWins(blocks: seq<Block>, key: Model -> string, i: nat)
    requires i < |blocks| && blocks[i].ModelBlock?
    requires forall j :: i < j < |blocks| && blocks[j].ModelBlock? ==> key(blocks[j].model) != key(blocks[i].model)
    ensures key(blocks[i].model) in Index(blocks, key).values
    ensures Index(blocks, key).values[key(blocks[i].model)] == blocks[i].model
  {
    var init := blocks[..|blocks| - 1];
    if i < |blocks| - 1 {
      assert init[i] == blocks[i];
      IndexLastWins(init, key, i);
    }
  }

  /**
   * The keys are listed in the order in which they first occur among the
   * model blocks: the block that first has the `i`-th key comes before every
   * block that has the `j`-th key, for `i < j`.
   */
  lemma {:induction false} IndexKeysInFirstOccurrenceOrder(blocks: seq<Block>, key: Model -> string, i: nat, j: nat)
    requires i < j < |Index(blocks, key).keys|
    ensures exists p :: 0 <= p < |blocks| && blocks[p].ModelBlock? &&
                        key(blocks[p].model) == Index(blocks, key).keys[i] &&
                        forall q :: 0 <= q <= p && blocks[q].ModelBlock? ==>
                                    key(blocks[q].model) != Index(blocks, key).keys[j]
  {
    var init := blocks[..|blocks| - 1];
    var before := Index(init, key);
    var m := Index(blocks, key);
    if m.keys == before.keys {
      IndexKeysInFirstOccurrenceOrder(init, key, i, j);
      var p :| 0 <= p < |init| && init[p].ModelBlock? && key(init[p].model) == before.keys[i] &&
               forall q :: 0 <= q <= p && init[q].ModelBlock? ==> key(init[q].model) != before.keys[j];
      assert blocks[p] == init[p];
      forall q | 0 <= q <= p && blocks[q].ModelBlock? ensures key(blocks[q].model) != m.keys[j] {
        assert blocks[q] == init[q];
      }
    } else {
      var model := blocks[|blocks| - 1].model;
      assert m.keys == before.keys + [key(model)] && key(model) !in before.values;
      if j < |before.keys| {
        IndexKeysInFirstOccurrenceOrder(init, key, i, j);
        var p :| 0 <= p < |init| && init[p].ModelBlock? && key(init[p].model) == before.keys[i] &&
                 forall q :: 0 <= q <= p && init[q].ModelBlock? ==> key(init[q].model) != before.keys[j];
        assert blocks[p] == init[p];
        forall q | 0 <= q <= p && blocks[q].ModelBlock? ensures key(blocks[q].model) != m.keys[j] {
          assert blocks[q] == init[q];
        }
      } else {
        IndexHas(init, key, before.keys[i]);
        IndexHas(init, key, key(model));
        var p :| 0 <= p < |init| && init[p].ModelBlock? && key(init[p].model) == before.keys[i];
        assert blocks[p] == init[p];
        forall q | 0 <= q <= p && blocks[q].ModelBlock? ensures key(blocks[q].model) != m.keys[j] {
          assert blocks[q] == init[q];
        }
      }
    }
  }

  /** A schema's models keyed by declared name. */
  function Models(schema: Schema): (m: OrderedMap<Model>)
    ensures m.Valid()
  {
    Index(schema.list, DeclaredName)
  }

  /** `modelsFromSchema`, and the older variant's `tablesFromSchema`: models by declared name. */
  method ModelsFromSchema(schema: Schema) returns (models: OrderedMap<Model>)
    ensures models == Models(schema)
  {
    models := Empty();
    for i := 0 to |schema.list|
      invariant models == Index(schema.list[..i], DeclaredName)
    {
      assert schema.list[..i + 1][..i] == schema.list[..i];
      var block := schema.list[i];
      if block.ModelBlock? {
        models := models.Set(block.model.name, block.model);
      }
    }
    assert schema.list[..|schema.list|] == schema.list;
  }

  /** The map a loop over a model body builds with `set(field.name, field)`. */
  function FieldIndex(properties: seq<Property>): (m: OrderedMap<Field>)
    ensures m.Valid()
    ensures forall k :: k in m.values ==> m.values[k].name == k
  {
    if |properties| == 0 then Empty()
    else
      var m := FieldIndex(properties[..|properties| - 1]);
      match properties[|properties| - 1]
      case FieldProperty(field) => m.Set(field.name, field)
      case _ => m
  }

  /** A name is in the field index exactly when the body declares a field of that name. */
  lemma {:induction false} FieldIndexHas(properties: seq<Property>, k: string)
    ensures k in FieldIndex(properties).values <==>
            exists i :: 0 <= i < |properties| && properties[i].FieldProperty? && properties[i].field.name == k
  {
    if |properties| > 0 {
      var init := properties[..|properties| - 1];
      FieldIndexHas(init, k);
      if k in FieldIndex(init).values {
        var i :| 0 <= i < |init| && init[i].FieldProperty? && init[i].field.name == k;
        assert properties[i] == init[i];
      }
      if exists i :: 0 <= i < |properties| && properties[i].FieldProperty? && properties[i].field.name == k {
        var i :| 0 <= i < |properties| && properties[i].FieldProperty? && properties[i].field.name == k;
        if i < |init| {
          assert init[i] == properties[i];
        }
      }
    }
  }

  /**
   * The value stored under a name is the field object the body declares
   * under it, the last one when several share the name.
   */
  lemma {:induction false} FieldIndexLastWins(properties: seq<Property>, i: nat)
    requires i < |properties| && properties[i].FieldProperty?
    requires forall j :: i < j < |properties| && properties[j].FieldProperty? ==>
                         properties[j].field.name != properties[i].field.name
    ensures properties[i].field.name in FieldIndex(properties).values
    ensures FieldIndex(properties).values[properties[i].field.name] == properties[i].field
  {
    var init := properties[..|properties| - 1];
    if i < |properties| - 1 {
      assert init[i] == properties[i];
      FieldIndexLastWins(init, i);
    }
  }

  /** Every stored value is a field the body declares. */
  lemma {:induction false} FieldIndexDeclared(properties: seq<Property>, k: string)
    requires k in FieldIndex(properties).values
    ensures FieldProperty(FieldIndex(properties).values[k]) in properties
  {
    var init := properties[..|properties| - 1];
    var last := properties[|properties| - 1];
    if !(last.FieldProperty? && last.field.name == k) {
      FieldIndexDeclared(init, k);
      assert FieldProperty(FieldIndex(init).values[k]) in init;
    }
  }

  /**
   * The field names are listed in the order in which they first occur in the
   * body: the first field with the `i`-th name comes before every field with
   * the `j`-th name, for `i < j`.
   */
  lemma {:induction false} FieldIndexKeysInFirstOccurrenceOrder(properties: seq<Property>, i: nat, j: nat)
    requires i < j < |FieldIndex(properties).keys|
    ensures exists p :: 0 <= p < |properties| && properties[p].FieldProperty? &&
                        properties[p].field.name == FieldIndex(properties).keys[i] &&
                        forall q :: 0 <= q <= p && properties[q].FieldProperty? ==>
                                    properties[q].field.name != FieldIndex(properties).keys[j]
  {
    var init := properties[..|properties| - 1];
    var before := FieldIndex(init);
    var m := FieldIndex(properties);
    if m.keys == before.keys {
      FieldIndexKeysInFirstOccurrenceOrder(init, i, j);
      var p :| 0 <= p < |init| && init[p].FieldProperty? && init[p].field.name == before.keys[i] &&
               forall q :: 0 <= q <= p && init[q].FieldProperty? ==> init[q].field.name != before.keys[j];
      assert properties[p] == init[p];
      forall q | 0 <= q <= p && properties[q].FieldProperty? ensures properties[q].field.name != m.keys[j] {
        assert properties[q] == init[q];
      }
    } else {
      var field := properties[|properties| - 1].field;
      assert m.keys == before.keys + [field.name] && field.name !in before.values;
      if j < |before.keys| {
        FieldIndexKeysInFirstOccurrenceOrder(init, i, j);
        var p :| 0 <= p < |init| && init[p].FieldProperty? && init[p].field.name == before.keys[i] &&
                 forall q :: 0 <= q <= p && init[q].FieldProperty? ==> init[q].field.name != before.keys[j];
        assert properties[p] == init[p];
        forall q | 0 <= q <= p && properties[q].FieldProperty? ensures properties[q].field.name != m.keys[j] {
          assert properties[q] == init[q];
        }
      } else {
        FieldIndexHas(init, before.keys[i]);
        FieldIndexHas(init, field.name);
        var p :| 0 <= p < |init| && init[p].FieldProperty? && init[p].field.name == before.keys[i];
        assert properties[p] == init[p];
        forall q | 0 <= q <= p && properties[q].FieldProperty? ensures properties[q].field.name != m.keys[j] {
          assert properties[q] == init[q];
        }
      }
    }
  }

  /** `fieldsFromModel`: a model's fields by declared field name. */
  method FieldsFromModel(model: Model) returns (fields: OrderedMap<Field>)
    ensures fields == FieldIndex(model.properties)
  {
    fields := Empty();
    for i := 0 to |model.properties|
      invariant fields == FieldIndex(model.properties[..i])
    {
      assert model.properties[..i + 1][..i] == model.properties[..i];
      var prop := model.properties[i];
      if prop.FieldProperty? {
        fields := fields.Set(prop.field.name, prop.field);
      }
    }
    assert model.properties[..|model.properties|] == model.properties;
  }

  /** The block attributes of a model body, in source order. */
  function BlockAttributes(properties: seq<Property>): (r: seq<Attribute>)
    ensures forall a :: a in r <==> AttributeProperty(a) in properties
  {
    if |properties| == 0 then []
    else
      var init := properties[..|properties| - 1];
      var last := properties[|properties| - 1];
      assert properties == init + [last];
      BlockAttributes(init) + if last.AttributeProperty? then [last.attribute] else []
  }

  /** One property contributes its attribute when it is a block attribute, and nothing otherwise. */
  lemma BlockAttributesOne(p: Property)
    ensures BlockAttributes([p]) == if p.AttributeProperty? then [p.attribute] else []
  {
    assert [p][..0] == [];
  }

  /** The attributes of a concatenated body are those of each part, in order and with repeats. */
  lemma {:induction false} BlockAttributesAppend(xs: seq<Property>, ys: seq<Property>)
    ensures BlockAttributes(xs + ys) == BlockAttributes(xs) + BlockAttributes(ys)
  {
    if |ys| == 0 {
      assert xs + ys == xs;
    } else {
      var init := ys[..|ys| - 1];
      assert (xs + ys)[..|xs + ys| - 1] == xs + init;
      BlockAttributesAppend(xs, init);
    }
  }

  /** `attributesFromModel`: collects the block attributes by pushing onto an array. */
  method AttributesFromModel(model: Model) returns (attributes: seq<Attribute>)
    ensures attributes == BlockAttributes(model.properties)
  {
    attributes := [];
    for i := 0 to |model.properties|
      invariant attributes == BlockAttributes(model.properties[..i])
    {
      assert model.properties[..i + 1][..i] == model.properties[..i];
      var prop := model.properties[i];
      if prop.AttributeProperty? {
        attributes := attributes + [prop.attribute];
      }
    }
    assert model.properties[..|model.properties|] == model.properties;
  }

  /** `attributes.find(({ name }) => name === n)`: the first attribute called `n`. */
  function FindAttribute(attributes: seq<Attribute>, n: string): (r: Option<Attribute>)
    ensures r.None? <==> forall i :: 0 <= i < |attributes| ==> attributes[i].name != n
    ensures r.Some? ==> exists i :: 0 <= i < |attributes| && attributes[i] == r.value &&
                                    r.value.name == n &&
                                    forall j :: 0 <= j < i ==> attributes[j].name != n
  {
    if |attributes| == 0 then None
    else if attributes[0].name == n then Some(attributes[0])
    else
      var r := FindAttribute(attributes[1..], n);
      assert r.Some? ==> exists i :: 1 <= i < |attributes| && attributes[i] == r.value &&
                                     forall j :: 0 <= j < i ==> attributes[j].name != n by {
        if r.Some? {
          var i :| 0 <= i < |attributes[1..]| && attributes[1..][i] == r.value &&
                   forall j :: 0 <= j < i ==> attributes[1..][j].name != n;
          assert attributes[i + 1] == r.value;
          forall j | 0 <= j < i + 1 ensures attributes[j].name != n {
            if j > 0 { assert attributes[j] == attributes[1..][j - 1]; }
          }
        }
      }
      r
  }

  /** Whether the attribute list carries `ignore` (`@ignore` on a field, `@@ignore` on a model). */
  predicate HasIgnore(attributes: seq<Attribute>)
  {
    FindAttribute(attributes, "ignore").Some?
  }
}
