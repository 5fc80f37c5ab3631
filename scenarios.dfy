/**
 * The repository's test scenarios, stated over the abstract syntax the
 * parser produces for their schemas: string values keep their quotes,
 * `@relation(fields: [...], references: [...])` has non-string arguments,
 * and `Foo[]` is the plain type name `Foo` (list types are not modelled).
 */
module Scenarios {
  import opened Wrappers
  import opened SchemaAst
  import opened OrderedMaps
  import opened Extract
  import opened SchemaDiff
  import opened Sequences
  import opened SafetyPolicy
  import opened PrismaSafety
  import opened AssertSafeSchemaChange
  import opened Variants

  // ---------------------------------------------------------------------------
  // Fixtures.

  function Ignore(): Attribute { Attribute("ignore", []) }
  function MapName(v: string): Attribute { Attribute("map", [AttributeArgument(KeyValue("name", v))]) }
  function StringField(name: string, attributes: seq<Attribute>): Field { Field(name, TypeName("String"), attributes) }

  /** `qid String @id` */
  function Qid(): Field { StringField("qid", [Attribute("id", [])]) }
  /** `bar String @map(name: "bar")` */
  function Bar(): Field { StringField("bar", [MapName("\"bar\"")]) }
  /** `bar String @map(name: "bar") @ignore` */
  function IgnoredBar(): Field { StringField("bar", [MapName("\"bar\""), Ignore()]) }
  /** `baz String @map(name: "bar") @ignore` */
  function IgnoredBazMappedToBar(): Field { StringField("baz", [MapName("\"bar\""), Ignore()]) }
  /** `baz String @map(name: "baz")` */
  function Baz(): Field { StringField("baz", [MapName("\"baz\"")]) }
  /** `barQid String @map(name: "bar_qid")` */
  function BarQid(): Field { StringField("barQid", [MapName("\"bar_qid\"")]) }
  /** `bar Bar @relation(fields: [barQid], references: [qid])` */
  function BarRelation(): Field
  {
    Field("bar", TypeName("Bar"), [Attribute("relation", [AttributeArgument(OtherValue), AttributeArgument(OtherValue)])])
  }
  /** `foos Foo[]` */
  function Foos(): Field { Field("foos", TypeName("Foo"), []) }

  /** `model Foo { qid String @id  bar String @map(name: "bar") }` */
  function Foo(): Model { Model("Foo", [FieldProperty(Qid()), FieldProperty(Bar())]) }
  /** `model Foo { qid String @id }` */
  function FooQid(): Model { Model("Foo", [FieldProperty(Qid())]) }
  /** `model Foo { qid String @id  baz String @map(name: "bar") @ignore }` */
  function FooRenamedBar(): Model { Model("Foo", [FieldProperty(Qid()), FieldProperty(IgnoredBazMappedToBar())]) }
  /** `model Foo { qid String @id  bar String @map(name: "bar") @ignore }` */
  function FooIgnoredBar(): Model { Model("Foo", [FieldProperty(Qid()), FieldProperty(IgnoredBar())]) }
  /** `model Foo { bar String @map(name: "bar")  qid String @id }` */
  function FooSwapped(): Model { Model("Foo", [FieldProperty(Bar()), FieldProperty(Qid())]) }
  /** `model Foo { qid String @id  baz String @map(name: "baz") }` */
  function FooBaz(): Model { Model("Foo", [FieldProperty(Qid()), FieldProperty(Baz())]) }
  /** `model Foo { qid String @id  barQid ...  bar Bar @relation(...) }` */
  function FooWithRelation(): Model
  {
    Model("Foo", [FieldProperty(Qid()), FieldProperty(BarQid()), FieldProperty(BarRelation())])
  }
  /** `model Foo { qid String @id  barQid ... }` */
  function FooWithoutRelation(): Model { Model("Foo", [FieldProperty(Qid()), FieldProperty(BarQid())]) }
  /** `model Foo { ///no-tenant-field  qid String @id  bar ... }` */
  function FooDocComment(): Model
  {
    Model("Foo", [CommentProperty("///no-tenant-field"), FieldProperty(Qid()), FieldProperty(Bar())])
  }
  /** `model Foo { // TODO(P6M-266): ...  qid String @id  bar ... }` */
  function FooTodoComment(): Model
  {
    Model("Foo", [CommentProperty("// TODO(P6M-266): Make tenant QID non-nullable."),
                  FieldProperty(Qid()), FieldProperty(Bar())])
  }
  /** `model Bar { qid String @id }` */
  function BarQidModel(): Model { Model("Bar", [FieldProperty(Qid())]) }
  /** `model Bar { qid String @id  foos Foo[] }` */
  function BarWithFoos(): Model { Model("Bar", [FieldProperty(Qid()), FieldProperty(Foos())]) }
  /** `model Bar { qid String @id  @@ignore }` */
  function IgnoredBarModel(): Model { Model("Bar", [FieldProperty(Qid()), AttributeProperty(Ignore())]) }
  /** `model Foo { qid String @id  @@map(name: "foo") }` */
  function MappedFoo(): Model { Model("Foo", [FieldProperty(Qid()), AttributeProperty(MapName("\"foo\""))]) }
  /** `model Bar { qid String @id  @@map(name: "foo") }`: `Foo` renamed, same table. */
  function MappedBar(): Model { Model("Bar", [FieldProperty(Qid()), AttributeProperty(MapName("\"foo\""))]) }

  function One(m: Model): Schema { Schema([ModelBlock(m)]) }
  function Two(m: Model, n: Model): Schema { Schema([ModelBlock(m), ModelBlock(n)]) }

  /** Insertion-ordered maps with one, two and three keys. */
  function M1<V>(k: string, a: V): OrderedMap<V> { OrderedMap([k], map[k := a]) }
  function M2<V>(k1: string, a: V, k2: string, b: V): OrderedMap<V>
  {
    OrderedMap([k1, k2], map[k1 := a, k2 := b])
  }
  function M3<V>(k1: string, a: V, k2: string, b: V, k3: string, c: V): OrderedMap<V>
  {
    OrderedMap([k1, k2, k3], map[k1 := a, k2 := b, k3 := c])
  }

  // ---------------------------------------------------------------------------
  // Building the maps.

  lemma {:induction false} IndexOne(m: Model, key: Model -> string)
    ensures Index([ModelBlock(m)], key) == M1(key(m), m)
  {
    assert [ModelBlock(m)][..0] == [];
  }

  lemma {:induction false} IndexTwo(m: Model, n: Model, key: Model -> string)
    requires key(m) != key(n)
    ensures Index([ModelBlock(m), ModelBlock(n)], key) == M2(key(m), m, key(n), n)
  {
    assert [ModelBlock(m), ModelBlock(n)][..1] == [ModelBlock(m)];
    IndexOne(m, key);
  }

  lemma {:induction false} FieldsOne(x: Field)
    ensures FieldIndex([FieldProperty(x)]) == M1(x.name, x)
  {
    assert [FieldProperty(x)][..0] == [];
  }

  lemma {:induction false} FieldsTwo(x: Field, y: Field)
    requires x.name != y.name
    ensures FieldIndex([FieldProperty(x), FieldProperty(y)]) == M2(x.name, x, y.name, y)
  {
    assert [FieldProperty(x), FieldProperty(y)][..1] == [FieldProperty(x)];
    FieldsOne(x);
  }

  lemma {:induction false} FieldsThree(x: Field, y: Field, z: Field)
    requires x.name != y.name && x.name != z.name && y.name != z.name
    ensures FieldIndex([FieldProperty(x), FieldProperty(y), FieldProperty(z)]) == M3(x.name, x, y.name, y, z.name, z)
  {
    assert [FieldProperty(x), FieldProperty(y), FieldProperty(z)][..2] == [FieldProperty(x), FieldProperty(y)];
    FieldsTwo(x, y);
    assert NoDuplicates([x.name, y.name]) by {
      assert [x.name, y.name][..1] == [x.name];
      assert [x.name][..0] == [];
    }
  }

  /** A property that is not a field leaves the field index alone, wherever it stands. */
  lemma {:induction false} FieldsSkip(before: seq<Property>, p: Property, after: seq<Property>)
    requires !p.FieldProperty?
    ensures FieldIndex(before + [p] + after) == FieldIndex(before + after)
    decreases |after|
  {
    if |after| == 0 {
      assert before + [p] + after == before + [p];
      assert (before + [p])[..|before|] == before;
      assert before + after == before;
    } else {
      var init := after[..|after| - 1];
      FieldsSkip(before, p, init);
      assert (before + [p] + after)[..|before + [p] + after| - 1] == before + [p] + init;
      assert (before + after)[..|before + after| - 1] == before + init;
    }
  }

  // ---------------------------------------------------------------------------
  // Diffing the maps.

  lemma {:induction false} Filters1(k: string, s: set<string>)
    ensures Without([k], s) == if k in s then [] else [k]
    ensures Within([k], s) == if k in s then [k] else []
  {
    assert [k][..0] == [];
  }

  lemma {:induction false} Filters2(k1: string, k2: string, s: set<string>)
    ensures Without([k1, k2], s) == Without([k1], s) + if k2 in s then [] else [k2]
    ensures Within([k1, k2], s) == Within([k1], s) + if k2 in s then [k2] else []
  {
    assert [k1, k2][..1] == [k1];
  }

  lemma {:induction false} Filters3(k1: string, k2: string, k3: string, s: set<string>)
    ensures Without([k1, k2, k3], s) == Without([k1, k2], s) + if k3 in s then [] else [k3]
    ensures Within([k1, k2, k3], s) == Within([k1, k2], s) + if k3 in s then [k3] else []
  {
    assert [k1, k2, k3][..2] == [k1, k2];
  }

  lemma {:induction false} Lookups1<V>(m: map<string, V>, n: map<string, V>, k: string)
    requires k in m && k in n
    ensures ValuesAt(m, [k]) == [m[k]]
    ensures PairsAt(m, n, [k]) == [Pair(m[k], n[k])]
  {
  }

  lemma {:induction false} Lookups2<V>(m: map<string, V>, n: map<string, V>, k1: string, k2: string)
    requires k1 in m && k2 in m && k1 in n && k2 in n
    ensures ValuesAt(m, [k1, k2]) == [m[k1], m[k2]]
    ensures PairsAt(m, n, [k1, k2]) == [Pair(m[k1], n[k1]), Pair(m[k2], n[k2])]
  {
  }

  /** The diff read off its three key lists. */
  lemma {:induction false} DiffFromKeys<V>(prev: OrderedMap<V>, current: OrderedMap<V>,
                                           added: seq<string>, deleted: seq<string>, remaining: seq<string>)
    requires AddedKeys(prev, current) == added && DeletedKeys(prev, current) == deleted
    requires RemainingKeys(prev, current) == remaining
    ensures DiffOf(prev, current) == Diff(ValuesAt(current.values, added), ValuesAt(prev.values, deleted),
                                          PairsAt(prev.values, current.values, remaining))
  {
  }

  /** One key on each side, the same: one retained pair. */
  lemma DiffSame<V>(k: string, a: V, c: V)
    ensures DiffOf(M1(k, a), M1(k, c)) == Diff([], [], [Pair(a, c)])
  {
    var prev, current := M1(k, a), M1(k, c);
    assert prev.values.Keys == {k} && current.values.Keys == {k};
    Filters1(k, {k});
    DiffFromKeys(prev, current, [], [], [k]);
    Lookups1(prev.values, current.values, k);
  }

  /** One key on each side, different: one deletion and one addition. */
  lemma DiffRenamed<V>(k: string, a: V, k': string, c: V)
    requires k != k'
    ensures DiffOf(M1(k, a), M1(k', c)) == Diff([c], [a], [])
  {
    var prev, current := M1(k, a), M1(k', c);
    assert prev.values.Keys == {k} && current.values.Keys == {k'};
    Filters1(k, {k'});
    Filters1(k', {k});
    DiffFromKeys(prev, current, [k'], [k], []);
    Lookups1(prev.values, prev.values, k);
    Lookups1(current.values, current.values, k');
  }

  /** The second of two keys dropped. */
  lemma DiffDropSecond<V>(k1: string, a: V, k2: string, b: V, c: V)
    requires k1 != k2
    ensures DiffOf(M2(k1, a, k2, b), M1(k1, c)) == Diff([], [b], [Pair(a, c)])
  {
    var prev, current := M2(k1, a, k2, b), M1(k1, c);
    assert prev.values.Keys == {k1, k2} && current.values.Keys == {k1};
    Filters1(k1, {k1});
    Filters2(k1, k2, {k1});
    Filters1(k1, {k1, k2});
    DiffFromKeys(prev, current, [], [k2], [k1]);
    Lookups1(prev.values, prev.values, k2);
    Lookups1(prev.values, current.values, k1);
  }

  /** Both keys kept, in the same order. */
  lemma DiffKeepBoth<V>(k1: string, a: V, k2: string, b: V, c: V, d: V)
    requires k1 != k2
    ensures DiffOf(M2(k1, a, k2, b), M2(k1, c, k2, d)) == Diff([], [], [Pair(a, c), Pair(b, d)])
  {
    var prev, current := M2(k1, a, k2, b), M2(k1, c, k2, d);
    assert prev.values.Keys == {k1, k2} && current.values.Keys == {k1, k2};
    Filters1(k1, {k1, k2});
    Filters2(k1, k2, {k1, k2});
    DiffFromKeys(prev, current, [], [], [k1, k2]);
    Lookups2(prev.values, current.values, k1, k2);
  }

  /** Both keys kept, in swapped order. */
  lemma DiffSwapBoth<V>(k1: string, a: V, k2: string, b: V, c: V, d: V)
    requires k1 != k2
    ensures DiffOf(M2(k1, a, k2, b), M2(k2, d, k1, c)) == Diff([], [], [Pair(a, c), Pair(b, d)])
  {
    var prev, current := M2(k1, a, k2, b), M2(k2, d, k1, c);
    assert prev.values.Keys == {k1, k2} && current.values.Keys == {k1, k2};
    Filters1(k1, {k1, k2});
    Filters2(k1, k2, {k1, k2});
    Filters1(k2, {k1, k2});
    Filters2(k2, k1, {k1, k2});
    DiffFromKeys(prev, current, [], [], [k1, k2]);
    Lookups2(prev.values, current.values, k1, k2);
  }

  /** The second key replaced by a new one. */
  lemma DiffReplaceSecond<V>(k1: string, a: V, k2: string, b: V, c: V, k3: string, e: V)
    requires k1 != k2 && k1 != k3 && k2 != k3
    ensures DiffOf(M2(k1, a, k2, b), M2(k1, c, k3, e)) == Diff([e], [b], [Pair(a, c)])
  {
    var prev, current := M2(k1, a, k2, b), M2(k1, c, k3, e);
    assert prev.values.Keys == {k1, k2} && current.values.Keys == {k1, k3};
    Filters1(k1, {k1, k3});
    Filters2(k1, k2, {k1, k3});
    Filters1(k1, {k1, k2});
    Filters2(k1, k3, {k1, k2});
    DiffFromKeys(prev, current, [k3], [k2], [k1]);
    Lookups1(current.values, current.values, k3);
    Lookups1(prev.values, prev.values, k2);
    Lookups1(prev.values, current.values, k1);
  }

  /** The third of three keys dropped. */
  lemma DiffDropThird<V>(k1: string, a: V, k2: string, b: V, k3: string, x: V, c: V, d: V)
    requires k1 != k2 && k1 != k3 && k2 != k3
    ensures DiffOf(M3(k1, a, k2, b, k3, x), M2(k1, c, k2, d)) == Diff([], [x], [Pair(a, c), Pair(b, d)])
  {
    var prev, current := M3(k1, a, k2, b, k3, x), M2(k1, c, k2, d);
    assert AddedKeys(prev, current) == [] by {
      assert prev.values.Keys == {k1, k2, k3};
      Filters1(k1, {k1, k2, k3});
      Filters2(k1, k2, {k1, k2, k3});
    }
    assert DeletedKeys(prev, current) == [k3] && RemainingKeys(prev, current) == [k1, k2] by {
      assert current.values.Keys == {k1, k2};
      Filters1(k1, {k1, k2});
      Filters2(k1, k2, {k1, k2});
      Filters3(k1, k2, k3, {k1, k2});
    }
    DiffFromKeys(prev, current, [], [k3], [k1, k2]);
    Lookups1(prev.values, prev.values, k3);
    Lookups2(prev.values, current.values, k1, k2);
  }

  // ---------------------------------------------------------------------------
  // Issues of small diffs.

  lemma {:induction false} DeletedOnly(m: Model, pairs: seq<Pair<Model>>, cm: OrderedMap<Model>)
    requires RemainingIssues(pairs, cm) == []
    ensures Issues(Diff([], [m], pairs), cm) == DeletedModelIssues(m)
  {
    FlatMapSingleton(m, DeletedModelIssues);
  }

  lemma {:induction false} OnePair(p: Model, c: Model, cm: OrderedMap<Model>)
    ensures RemainingIssues([Pair(p, c)], cm) == PairIssues(Pair(p, c), cm)
    ensures Issues(Diff([], [], [Pair(p, c)]), cm) == PairIssues(Pair(p, c), cm)
  {
    FlatMapSingleton(Pair(p, c), (pair: Pair<Model>) => PairIssues(pair, cm));
  }

  lemma {:induction false} OneDeletedField(c: Model, f: Field, cm: OrderedMap<Model>)
    ensures FieldIssues(c, [f], cm) == DeletedFieldIssues(c, cm, f)
  {
    FlatMapSingleton(f, (field: Field) => DeletedFieldIssues(c, cm, field));
  }
  /** A single model kept under its declared name. */
  lemma {:induction false} KeptModel(p: Model, c: Model)
    requires p.name == c.name
    ensures SchemaIssues(One(p), One(c)) == PairIssues(Pair(p, c), M1(c.name, c))
  {
    IndexOne(p, DeclaredName);
    IndexOne(c, DeclaredName);
    DiffSame(p.name, p, c);
    OnePair(p, c, M1(c.name, c));
  }

  /** Two models of which the current schema keeps the first under its name. */
  lemma {:induction false} SecondModelDropped(p: Model, q: Model, c: Model)
    requires p.name == c.name && p.name != q.name
    requires PairIssues(Pair(p, c), M1(c.name, c)) == []
    ensures SchemaIssues(Two(p, q), One(c)) == DeletedModelIssues(q)
  {
    IndexTwo(p, q, DeclaredName);
    IndexOne(c, DeclaredName);
    DiffDropSecond(p.name, p, q.name, q, c);
    OnePair(p, c, M1(c.name, c));
    DeletedOnly(q, [Pair(p, c)], M1(c.name, c));
  }

  /**
   * A dropped model with one field and no block attribute, or with
   * `@@map(name: ...)`, raises its issue; one with `@@ignore` raises none.
   */
  lemma DroppedModelVerdicts(n: string, x: Field, v: string)
    ensures DeletedModelIssues(Model(n, [FieldProperty(x)])) == [SafetyIssue(n, None, DeletedTableMessage)]
    ensures DeletedModelIssues(Model(n, [FieldProperty(x), AttributeProperty(MapName(v))])) ==
            [SafetyIssue(n, None, DeletedTableMessage)]
    ensures DeletedModelIssues(Model(n, [FieldProperty(x), AttributeProperty(Ignore())])) == []
  {
    assert BlockAttributes([FieldProperty(x)]) == [];
    assert BlockAttributes([FieldProperty(x), AttributeProperty(MapName(v))]) == [MapName(v)];
    assert BlockAttributes([FieldProperty(x), AttributeProperty(Ignore())]) == [Ignore()];
  }

  /** `Foo` compared with itself loses no field. */
  lemma FooKeepsFields()
    ensures PairIssues(Pair(Foo(), Foo()), M1("Foo", Foo())) == []
  {
    FieldsTwo(Qid(), Bar());
    DiffKeepBoth("qid", Qid(), "bar", Bar(), Qid(), Bar());
  }

  // ---------------------------------------------------------------------------
  // Field diffs of small models.

  lemma DropSecondField(n: string, x: Field, y: Field, x': Field)
    requires x.name == x'.name && x.name != y.name
    ensures FieldDiff(Model(n, [FieldProperty(x), FieldProperty(y)]), Model(n, [FieldProperty(x')])).deleted == [y]
  {
    FieldsTwo(x, y);
    FieldsOne(x');
    DiffDropSecond(x.name, x, y.name, y, x');
  }

  lemma ReplaceSecondField(n: string, x: Field, y: Field, x': Field, z: Field)
    requires x.name == x'.name && x.name != y.name && x.name != z.name && y.name != z.name
    ensures FieldDiff(Model(n, [FieldProperty(x), FieldProperty(y)]),
                      Model(n, [FieldProperty(x'), FieldProperty(z)])).deleted == [y]
  {
    FieldsTwo(x, y);
    FieldsTwo(x', z);
    DiffReplaceSecond(x.name, x, y.name, y, x', z.name, z);
  }

  lemma SwapFields(n: string, x: Field, y: Field)
    requires x.name != y.name
    ensures FieldDiff(Model(n, [FieldProperty(x), FieldProperty(y)]),
                      Model(n, [FieldProperty(y), FieldProperty(x)])).deleted == []
  {
    FieldsTwo(x, y);
    FieldsTwo(y, x);
    DiffSwapBoth(x.name, x, y.name, y, x, y);
  }

  lemma DropThirdField(n: string, x: Field, y: Field, z: Field)
    requires x.name != y.name && x.name != z.name && y.name != z.name
    ensures FieldDiff(Model(n, [FieldProperty(x), FieldProperty(y), FieldProperty(z)]),
                      Model(n, [FieldProperty(x), FieldProperty(y)])).deleted == [z]
  {
    FieldsThree(x, y, z);
    FieldsTwo(x, y);
    DiffDropThird(x.name, x, y.name, y, z.name, z, x, y);
  }

  lemma {:induction false} LeadingCommentSkipped(t: string, rest: seq<Property>)
    ensures FieldIndex([CommentProperty(t)] + rest) == FieldIndex(rest)
  {
    FieldsSkip([], CommentProperty(t), rest);
    assert [] + [CommentProperty(t)] + rest == [CommentProperty(t)] + rest;
    assert [] + rest == rest;
  }

  lemma {:induction false} CommentedFields(t: string, x: Field, y: Field)
    requires x.name != y.name
    ensures FieldIndex([CommentProperty(t), FieldProperty(x), FieldProperty(y)]) == M2(x.name, x, y.name, y)
  {
    var fields := [FieldProperty(x), FieldProperty(y)];
    LeadingCommentSkipped(t, fields);
    assert [CommentProperty(t), FieldProperty(x), FieldProperty(y)] == [CommentProperty(t)] + fields;
    FieldsTwo(x, y);
  }

  lemma ChangeLeadingComment(n: string, t: string, t': string, x: Field, y: Field)
    requires x.name != y.name
    ensures FieldDiff(Model(n, [CommentProperty(t), FieldProperty(x), FieldProperty(y)]),
                      Model(n, [CommentProperty(t'), FieldProperty(x), FieldProperty(y)])).deleted == []
  {
    CommentedFields(t, x, y);
    CommentedFields(t', x, y);
    DiffKeepBoth(x.name, x, y.name, y, x, y);
  }

  /** A single model kept under its name that lost exactly one field. */
  lemma {:induction false} OneFieldDropped(p: Model, c: Model, f: Field)
    requires p.name == c.name
    requires FieldDiff(p, c).deleted == [f]
    ensures SchemaIssues(One(p), One(c)) == DeletedFieldIssues(c, M1(c.name, c), f)
  {
    KeptModel(p, c);
    OneDeletedField(c, f, M1(c.name, c));
  }

  /** A single model kept under its name that lost no field. */
  lemma {:induction false} NoFieldDropped(p: Model, c: Model)
    requires p.name == c.name
    requires FieldDiff(p, c).deleted == []
    ensures SchemaIssues(One(p), One(c)) == []
  {
    KeptModel(p, c);
  }

  /** A deleted `String` field is flagged exactly when it lacks `@ignore`, unless a model is called `String`. */
  lemma StringFieldVerdict(name: string, attributes: seq<Attribute>, cm: OrderedMap<Model>)
    requires "String" !in cm.values
    ensures FlaggedField(StringField(name, attributes), cm) <==> !HasIgnore(attributes)
  {
  }

  /** `bar` without `@ignore` is flagged, with `@ignore` it is not, in a schema of one model `Foo`. */
  lemma BarVerdicts(c: Model)
    ensures DeletedFieldIssues(c, M1("Foo", c), Bar()) == [FieldIssue(c, Bar())]
    ensures DeletedFieldIssues(c, M1("Foo", c), IgnoredBar()) == []
  {
    StringFieldVerdict("bar", [MapName("\"bar\"")], M1("Foo", c));
    StringFieldVerdict("bar", [MapName("\"bar\""), Ignore()], M1("Foo", c));
    assert !HasIgnore([MapName("\"bar\"")]);
    assert HasIgnore([MapName("\"bar\""), Ignore()]);
  }

  // ---------------------------------------------------------------------------
  // The scenarios, with models keyed by declared name.

  /** Deleting `bar`, which lacked `@ignore`, fails the check. */
  lemma DeletedFieldWithoutIgnore()
    ensures SchemaIssues(One(Foo()), One(FooQid())) == [SafetyIssue("Foo", Some("bar"), DeletedFieldMessage)]
  {
    DropSecondField("Foo", Qid(), Bar(), Qid());
    OneFieldDropped(Foo(), FooQid(), Bar());
    BarVerdicts(FooQid());
  }

  /** Renaming `bar` to `baz` deletes `bar`, which lacked `@ignore`: the new field's `@ignore` does not help. */
  lemma RenamedFieldWithoutIgnore()
    ensures SchemaIssues(One(Foo()), One(FooRenamedBar())) == [SafetyIssue("Foo", Some("bar"), DeletedFieldMessage)]
  {
    ReplaceSecondField("Foo", Qid(), Bar(), Qid(), IgnoredBazMappedToBar());
    OneFieldDropped(Foo(), FooRenamedBar(), Bar());
    BarVerdicts(FooRenamedBar());
  }

  /** Deleting model `Bar`, which lacked `@@ignore`, fails the check. */
  lemma DeletedModelWithoutIgnore()
    ensures SchemaIssues(Two(Foo(), BarQidModel()), One(Foo())) == [SafetyIssue("Bar", None, DeletedTableMessage)]
  {
    FooKeepsFields();
    SecondModelDropped(Foo(), BarQidModel(), Foo());
    DroppedModelVerdicts("Bar", Qid(), "");
  }

  /** Deleting a field marked `@ignore` passes. */
  lemma DeletedIgnoredField()
    ensures SchemaIssues(One(FooIgnoredBar()), One(FooQid())) == []
  {
    DropSecondField("Foo", Qid(), IgnoredBar(), Qid());
    OneFieldDropped(FooIgnoredBar(), FooQid(), IgnoredBar());
    BarVerdicts(FooQid());
  }

  /** Moving a field within its model passes. */
  lemma MovedField()
    ensures SchemaIssues(One(Foo()), One(FooSwapped())) == []
  {
    SwapFields("Foo", Qid(), Bar());
    NoFieldDropped(Foo(), FooSwapped());
  }

  /** Renaming a field that was marked `@ignore` passes. */
  lemma RenamedIgnoredField()
    ensures SchemaIssues(One(FooIgnoredBar()), One(FooBaz())) == []
  {
    ReplaceSecondField("Foo", Qid(), IgnoredBar(), Qid(), Baz());
    OneFieldDropped(FooIgnoredBar(), FooBaz(), IgnoredBar());
    BarVerdicts(FooBaz());
  }

  /** Two retained models, each keyed by its declared name. */
  lemma {:induction false} BothKept(p: Model, q: Model, c: Model, d: Model)
    requires p.name == c.name && q.name == d.name && p.name != q.name
    ensures SchemaIssues(Two(p, q), Two(c, d)) ==
            PairIssues(Pair(p, c), M2(c.name, c, d.name, d)) + PairIssues(Pair(q, d), M2(c.name, c, d.name, d))
  {
    var cm := M2(c.name, c, d.name, d);
    IndexTwo(p, q, DeclaredName);
    IndexTwo(c, d, DeclaredName);
    DiffKeepBoth(p.name, p, q.name, q, c, d);
    FlatMapTwo(Pair(p, c), Pair(q, d), (pair: Pair<Model>) => PairIssues(pair, cm));
  }

  /** Deleting both ends of a relation passes: each field's type names a current model. */
  lemma DeletedRelations()
    ensures SchemaIssues(Two(FooWithRelation(), BarWithFoos()), Two(FooWithoutRelation(), BarQidModel())) == []
  {
    var cm := M2("Foo", FooWithoutRelation(), "Bar", BarQidModel());
    BothKept(FooWithRelation(), BarWithFoos(), FooWithoutRelation(), BarQidModel());
    DropThirdField("Foo", Qid(), BarQid(), BarRelation());
    OneDeletedField(FooWithoutRelation(), BarRelation(), cm);
    assert IsFieldARelation(BarRelation(), cm);
    DropSecondField("Bar", Qid(), Foos(), Qid());
    OneDeletedField(BarQidModel(), Foos(), cm);
    assert IsFieldARelation(Foos(), cm);
  }

  /** Comments are neither fields nor attributes: changing them passes. */
  lemma ChangedComment()
    ensures SchemaIssues(One(FooDocComment()), One(FooTodoComment())) == []
  {
    ChangeLeadingComment("Foo", "///no-tenant-field", "// TODO(P6M-266): Make tenant QID non-nullable.", Qid(), Bar());
    NoFieldDropped(FooDocComment(), FooTodoComment());
  }

  /** Deleting model `Bar` marked `@@ignore` passes. */
  lemma DeletedIgnoredModel()
    ensures SchemaIssues(Two(Foo(), IgnoredBarModel()), One(Foo())) == []
  {
    FooKeepsFields();
    SecondModelDropped(Foo(), IgnoredBarModel(), Foo());
    DroppedModelVerdicts("Bar", Qid(), "");
  }

  /** Renaming model `Foo` to `Bar` while keeping `@@map(name: "foo")` deletes `Foo` when keyed by declared name. */
  lemma MappedRenameByName()
    ensures SchemaIssues(One(MappedFoo()), One(MappedBar())) == [SafetyIssue("Foo", None, DeletedTableMessage)]
  {
    IndexOne(MappedFoo(), DeclaredName);
    IndexOne(MappedBar(), DeclaredName);
    DiffRenamed("Foo", MappedFoo(), "Bar", MappedBar());
    DeletedOnly(MappedFoo(), [], M1("Bar", MappedBar()));
    DroppedModelVerdicts("Foo", Qid(), "\"foo\"");
  }

  // ---------------------------------------------------------------------------
  // The same scenarios with models keyed by table name.

  lemma {:induction false} UnmappedOne(p: Model, c: Model)
    requires MappedTableName(p).None? && MappedTableName(c).None?
    ensures SafetyIssues(One(p), One(c)) == SchemaIssues(One(p), One(c))
  {
    VariantsAgreeWithoutMap(One(p), One(c));
  }

  lemma {:induction false} UnmappedTwoOne(p: Model, q: Model, c: Model)
    requires MappedTableName(p).None? && MappedTableName(q).None? && MappedTableName(c).None?
    ensures SafetyIssues(Two(p, q), One(c)) == SchemaIssues(Two(p, q), One(c))
  {
    VariantsAgreeWithoutMap(Two(p, q), One(c));
  }

  lemma {:induction false} UnmappedTwoTwo(p: Model, q: Model, c: Model, d: Model)
    requires MappedTableName(p).None? && MappedTableName(q).None?
    requires MappedTableName(c).None? && MappedTableName(d).None?
    ensures SafetyIssues(Two(p, q), Two(c, d)) == SchemaIssues(Two(p, q), Two(c, d))
  {
    VariantsAgreeWithoutMap(Two(p, q), Two(c, d));
  }

  /** Models made of fields and comments, or with only `@@ignore`, map to no table name. */
  lemma UnmappedShapes(n: string, t: string, x: Field, y: Field, z: Field)
    ensures MappedTableName(Model(n, [FieldProperty(x)])).None?
    ensures MappedTableName(Model(n, [FieldProperty(x), FieldProperty(y)])).None?
    ensures MappedTableName(Model(n, [FieldProperty(x), FieldProperty(y), FieldProperty(z)])).None?
    ensures MappedTableName(Model(n, [CommentProperty(t), FieldProperty(x), FieldProperty(y)])).None?
    ensures MappedTableName(Model(n, [FieldProperty(x), AttributeProperty(Ignore())])).None?
  {
    assert BlockAttributes([FieldProperty(x)]) == [];
    assert BlockAttributes([FieldProperty(x), FieldProperty(y)]) == [];
    var three := [FieldProperty(x), FieldProperty(y), FieldProperty(z)];
    assert three[..2] == [FieldProperty(x), FieldProperty(y)];
    assert BlockAttributes(three) == [];
    var commented := [CommentProperty(t), FieldProperty(x), FieldProperty(y)];
    assert commented[..2][..1] == [CommentProperty(t)];
    assert BlockAttributes(commented[..2][..1]) == [];
    assert BlockAttributes(commented[..2]) == [];
    assert BlockAttributes(commented) == [];
    assert BlockAttributes([FieldProperty(x), AttributeProperty(Ignore())]) == [Ignore()];
  }

  /** Deleting `bar`, which lacked `@ignore`, lists one issue. */
  lemma ListsDeletedFieldWithoutIgnore()
    ensures SafetyIssues(One(Foo()), One(FooQid())) == [SafetyIssue("Foo", Some("bar"), DeletedFieldMessage)]
  {
    DeletedFieldWithoutIgnore();
    UnmappedShapes("Foo", "", Qid(), Bar(), Bar());
    UnmappedOne(Foo(), FooQid());
  }

  /** Renaming `bar` to `baz` lists one issue, for `bar`. */
  lemma ListsRenamedFieldWithoutIgnore()
    ensures SafetyIssues(One(Foo()), One(FooRenamedBar())) == [SafetyIssue("Foo", Some("bar"), DeletedFieldMessage)]
  {
    RenamedFieldWithoutIgnore();
    UnmappedShapes("Foo", "", Qid(), Bar(), Bar());
    UnmappedShapes("Foo", "", Qid(), IgnoredBazMappedToBar(), Bar());
    UnmappedOne(Foo(), FooRenamedBar());
  }

  /** Deleting model `Bar`, which lacked `@@ignore`, lists one issue. */
  lemma ListsDeletedModelWithoutIgnore()
    ensures SafetyIssues(Two(Foo(), BarQidModel()), One(Foo())) == [SafetyIssue("Bar", None, DeletedTableMessage)]
  {
    DeletedModelWithoutIgnore();
    UnmappedShapes("Foo", "", Qid(), Bar(), Bar());
    UnmappedShapes("Bar", "", Qid(), Bar(), Bar());
    UnmappedTwoOne(Foo(), BarQidModel(), Foo());
  }

  /** Deleting a field marked `@ignore` lists nothing. */
  lemma ListsNothingForDeletedIgnoredField()
    ensures SafetyIssues(One(FooIgnoredBar()), One(FooQid())) == []
  {
    DeletedIgnoredField();
    UnmappedShapes("Foo", "", Qid(), IgnoredBar(), Bar());
    UnmappedOne(FooIgnoredBar(), FooQid());
  }

  /** Moving a field within its model lists nothing. */
  lemma ListsNothingForMovedField()
    ensures SafetyIssues(One(Foo()), One(FooSwapped())) == []
  {
    MovedField();
    UnmappedShapes("Foo", "", Qid(), Bar(), Bar());
    UnmappedShapes("Foo", "", Bar(), Qid(), Bar());
    UnmappedOne(Foo(), FooSwapped());
  }

  /** Renaming a field that was marked `@ignore` lists nothing. */
  lemma ListsNothingForRenamedIgnoredField()
    ensures SafetyIssues(One(FooIgnoredBar()), One(FooBaz())) == []
  {
    RenamedIgnoredField();
    UnmappedShapes("Foo", "", Qid(), IgnoredBar(), Bar());
    UnmappedShapes("Foo", "", Qid(), Baz(), Bar());
    UnmappedOne(FooIgnoredBar(), FooBaz());
  }

  /** Deleting both ends of a relation lists nothing. */
  lemma ListsNothingForDeletedRelations()
    ensures SafetyIssues(Two(FooWithRelation(), BarWithFoos()), Two(FooWithoutRelation(), BarQidModel())) == []
  {
    DeletedRelations();
    UnmappedShapes("Foo", "", Qid(), BarQid(), BarRelation());
    UnmappedShapes("Bar", "", Qid(), Foos(), Foos());
    UnmappedTwoTwo(FooWithRelation(), BarWithFoos(), FooWithoutRelation(), BarQidModel());
  }

  /** Changing a comment lists nothing. */
  lemma ListsNothingForChangedComment()
    ensures SafetyIssues(One(FooDocComment()), One(FooTodoComment())) == []
  {
    ChangedComment();
    UnmappedShapes("Foo", "///no-tenant-field", Qid(), Bar(), Bar());
    UnmappedShapes("Foo", "// TODO(P6M-266): Make tenant QID non-nullable.", Qid(), Bar(), Bar());
    UnmappedOne(FooDocComment(), FooTodoComment());
  }

  /** Deleting model `Bar` marked `@@ignore` lists nothing. */
  lemma ListsNothingForDeletedIgnoredModel()
    ensures SafetyIssues(Two(Foo(), IgnoredBarModel()), One(Foo())) == []
  {
    DeletedIgnoredModel();
    UnmappedShapes("Foo", "", Qid(), Bar(), Bar());
    UnmappedShapes("Bar", "", Qid(), Bar(), Bar());
    UnmappedTwoOne(Foo(), IgnoredBarModel(), Foo());
  }

  lemma {:induction false} TrailingAttributeSkipped(x: Field, a: Attribute)
    ensures FieldIndex([FieldProperty(x), AttributeProperty(a)]) == M1(x.name, x)
  {
    FieldsSkip([FieldProperty(x)], AttributeProperty(a), []);
    assert [FieldProperty(x)] + [AttributeProperty(a)] + [] == [FieldProperty(x), AttributeProperty(a)];
    assert [FieldProperty(x)] + [] == [FieldProperty(x)];
    FieldsOne(x);
  }

  /**
   * Renaming model `Foo` to `Bar` while keeping `@@map(name: "foo")` lists
   * nothing: both models map to the same table and keep their fields.
   */
  lemma ListsNothingForMappedRename()
    ensures SafetyIssues(One(MappedFoo()), One(MappedBar())) == []
  {
    var t := "\"foo\"";
    assert BlockAttributes(MappedFoo().properties) == [MapName(t)];
    assert BlockAttributes(MappedBar().properties) == [MapName(t)];
    assert TableName(MappedFoo()) == t && TableName(MappedBar()) == t;
    IndexOne(MappedFoo(), TableName);
    IndexOne(MappedBar(), TableName);
    DiffSame(t, MappedFoo(), MappedBar());
    OnePair(MappedFoo(), MappedBar(), Models(One(MappedBar())));
    TrailingAttributeSkipped(Qid(), MapName(t));
    DiffSame("qid", Qid(), Qid());
  }
}
