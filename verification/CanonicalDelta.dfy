/**
 The canonical list of direct facts between two states of one document: it
 carries the whole difference, in one order.
 */
module CanonicalDelta {
  import opened Model
  import opened Ordered

  // ---- Document states ----

  datatype NumberFormat = NumberFormat(decimals: nat, kind: FormatKind, thousandsSeparator: bool)
  datatype FormatKind = Plain | Currency(code: string) | Percent

  datatype FieldConstraint =
    | Unconstrained
    | TextLiteralSet(values: seq<string>)
    | NumberInclusiveRange(min: Number, max: Number)

  datatype FieldState = FieldState(
    key: string, displayName: Option<string>, fieldType: FieldType, required: bool, constraint: FieldConstraint,
    numberFormat: Option<NumberFormat>
  )

  datatype SchemaState = SchemaState(
    key: string, displayName: Option<string>, fields: map<FieldId, FieldState>, fieldOrder: Option<seq<FieldId>>
  )

  type DefinitionId = nat
  type DocumentId = nat

  // The bindings of a saved keyed grouped sum: columns by role.
  datatype Definition = Definition(orders: seq<ColumnRef>, products: seq<ColumnRef>)

  // Schemas, fields, entities and definitions are stored under their own ids.
  datatype DocumentState = DocumentState(
    id: DocumentId,
    title: string,
    schemas: map<SchemaId, SchemaState>,
    entities: map<EntityId, Entity>,
    definitions: map<DefinitionId, Definition>
  )

  // ---- Facts ----

  datatype Fact =
    | DocumentTitleChanged(document: DocumentId, oldText: string, newText: string)
    | SchemaCreated(schema: SchemaId, schemaState: SchemaState)
    | SchemaDeleted(schema: SchemaId, schemaState: SchemaState)
    | SchemaKeyChanged(schema: SchemaId, oldText: string, newText: string)
    | SchemaDisplayNameChanged(schema: SchemaId, oldName: Option<string>, newName: Option<string>)
    | SchemaFieldOrderChanged(schema: SchemaId, oldOrder: Option<seq<FieldId>>, newOrder: Option<seq<FieldId>>)
    | FieldCreated(schema: SchemaId, field: FieldId, fieldState: FieldState)
    | FieldDeleted(schema: SchemaId, field: FieldId, fieldState: FieldState)
    | FieldKeyChanged(schema: SchemaId, field: FieldId, oldText: string, newText: string)
    | FieldTypeChanged(schema: SchemaId, field: FieldId, oldType: FieldType, newType: FieldType)
    | FieldRequirednessChanged(schema: SchemaId, field: FieldId, oldRequired: bool, newRequired: bool)
    | FieldConstraintChanged(schema: SchemaId, field: FieldId, oldConstraint: FieldConstraint, newConstraint: FieldConstraint)
    | FieldDisplayNameChanged(schema: SchemaId, field: FieldId, oldName: Option<string>, newName: Option<string>)
    | FieldNumberFormatChanged(schema: SchemaId, field: FieldId, oldFormat: Option<NumberFormat>, newFormat: Option<NumberFormat>)
    | EntityCreated(entity: EntityId, entityState: Entity)
    | EntityDeleted(entity: EntityId, entityState: Entity)
    | EntityKeyChanged(entity: EntityId, oldText: string, newText: string)
    | EntitySchemaChanged(entity: EntityId, oldSchema: SchemaId, newSchema: SchemaId)
    | ValueCreated(entity: EntityId, schema: SchemaId, field: FieldId, newValue: Value)
    | ValueChanged(entity: EntityId, schema: SchemaId, field: FieldId, oldValue: Value, newValue: Value)
    | ValueCleared(entity: EntityId, schema: SchemaId, field: FieldId, oldValue: Value)
    | DefinitionCreated(definition: DefinitionId, newDefinition: Definition)
    | DefinitionDeleted(definition: DefinitionId, oldDefinition: Definition)
    | DefinitionChanged(definition: DefinitionId, oldDefinition: Definition, newDefinition: Definition)

  // What a fact is about, and how.
  datatype Slot =
    | TitleSlot(document: DocumentId)
    | SchemaSlot(schema: SchemaId, kind: nat)
    | FieldSlot(schema: SchemaId, field: FieldId, kind: nat)
    | EntitySlot(entity: EntityId, kind: nat)
    | ValueSlot(entity: EntityId, schema: SchemaId, field: FieldId, kind: nat)
    | DefinitionSlot(definition: DefinitionId, kind: nat)

  function SlotOf(fact: Fact): Slot {
    match fact
    case DocumentTitleChanged(document, _, _) => TitleSlot(document)
    case SchemaCreated(schema, _) => SchemaSlot(schema, 0)
    case SchemaDeleted(schema, _) => SchemaSlot(schema, 1)
    case SchemaKeyChanged(schema, _, _) => SchemaSlot(schema, 2)
    case SchemaDisplayNameChanged(schema, _, _) => SchemaSlot(schema, 3)
    case SchemaFieldOrderChanged(schema, _, _) => SchemaSlot(schema, 4)
    case FieldCreated(schema, field, _) => FieldSlot(schema, field, 0)
    case FieldDeleted(schema, field, _) => FieldSlot(schema, field, 1)
    case FieldKeyChanged(schema, field, _, _) => FieldSlot(schema, field, 2)
    case FieldTypeChanged(schema, field, _, _) => FieldSlot(schema, field, 3)
    case FieldRequirednessChanged(schema, field, _, _) => FieldSlot(schema, field, 4)
    case FieldConstraintChanged(schema, field, _, _) => FieldSlot(schema, field, 5)
    case FieldDisplayNameChanged(schema, field, _, _) => FieldSlot(schema, field, 6)
    case FieldNumberFormatChanged(schema, field, _, _) => FieldSlot(schema, field, 7)
    case EntityCreated(entity, _) => EntitySlot(entity, 0)
    case EntityDeleted(entity, _) => EntitySlot(entity, 1)
    case EntityKeyChanged(entity, _, _) => EntitySlot(entity, 2)
    case EntitySchemaChanged(entity, _, _) => EntitySlot(entity, 3)
    case ValueCreated(entity, schema, field, _) => ValueSlot(entity, schema, field, 0)
    case ValueChanged(entity, schema, field, _, _) => ValueSlot(entity, schema, field, 1)
    case ValueCleared(entity, schema, field, _) => ValueSlot(entity, schema, field, 2)
    case DefinitionCreated(definition, _) => DefinitionSlot(definition, 0)
    case DefinitionDeleted(definition, _) => DefinitionSlot(definition, 1)
    case DefinitionChanged(definition, _, _) => DefinitionSlot(definition, 2)
  }

  // The category, the ids and the kind a fact is sorted by.
  datatype OrderingKey = OrderingKey(category: nat, ids: seq<nat>, kind: nat)

  function KeyOf(slot: Slot): OrderingKey {
    match slot
    case TitleSlot(document) => OrderingKey(0, [document], 0)
    case SchemaSlot(schema, kind) => OrderingKey(1, [schema], kind)
    case FieldSlot(schema, field, kind) => OrderingKey(2, [schema, field], kind)
    case EntitySlot(entity, kind) => OrderingKey(3, [entity], kind)
    case ValueSlot(entity, schema, field, kind) => OrderingKey(4, [entity, schema, field], kind)
    case DefinitionSlot(definition, kind) => OrderingKey(5, [definition], kind)
  }

  // ordering_key.
  function FactKey(fact: Fact): OrderingKey {
    KeyOf(SlotOf(fact))
  }

  lemma KeyNamesSlot(a: Slot, b: Slot)
    requires KeyOf(a) == KeyOf(b)
    ensures a == b
  {
    assert KeyOf(a).ids[0] == KeyOf(b).ids[0];
    if a.FieldSlot? || a.ValueSlot? { assert KeyOf(a).ids[1] == KeyOf(b).ids[1]; }
    if a.ValueSlot? { assert KeyOf(a).ids[2] == KeyOf(b).ids[2]; }
  }

  // ---- Which facts hold between two states ----

  function Get<K, V>(m: map<K, V>, k: K): Option<V> {
    if k in m then Some(m[k]) else None
  }

  predicate InBoth<K, V>(before: map<K, V>, after: map<K, V>, k: K) {
    k in before && k in after
  }

  predicate FieldInBoth(before: DocumentState, after: DocumentState, s: SchemaId, f: FieldId) {
    InBoth(before.schemas, after.schemas, s) && InBoth(before.schemas[s].fields, after.schemas[s].fields, f)
  }

  // Stored values are keyed by entity, schema and field, and compared for a row
  // that is on both sides.
  function ValueAt(here: DocumentState, there: DocumentState, e: EntityId, s: SchemaId, f: FieldId): Option<Value> {
    if InBoth(here.entities, there.entities, e) && here.entities[e].schema == s then Get(here.entities[e].fields, f) else None
  }

  ghost predicate IsFact(before: DocumentState, after: DocumentState, fact: Fact) {
    match fact
    case DocumentTitleChanged(d, x, y) => x != y && d == before.id && x == before.title && y == after.title
    case SchemaCreated(s, y) => s !in before.schemas && Get(after.schemas, s) == Some(y)
    case SchemaDeleted(s, x) => Get(before.schemas, s) == Some(x) && s !in after.schemas
    case SchemaKeyChanged(s, x, y) =>
      x != y && InBoth(before.schemas, after.schemas, s) && x == before.schemas[s].key && y == after.schemas[s].key
    case SchemaDisplayNameChanged(s, x, y) =>
      && x != y && InBoth(before.schemas, after.schemas, s)
      && x == before.schemas[s].displayName && y == after.schemas[s].displayName
    case SchemaFieldOrderChanged(s, x, y) =>
      x != y && InBoth(before.schemas, after.schemas, s) && x == before.schemas[s].fieldOrder && y == after.schemas[s].fieldOrder
    case FieldCreated(s, f, y) =>
      && InBoth(before.schemas, after.schemas, s)
      && f !in before.schemas[s].fields && Get(after.schemas[s].fields, f) == Some(y)
    case FieldDeleted(s, f, x) =>
      && InBoth(before.schemas, after.schemas, s)
      && Get(before.schemas[s].fields, f) == Some(x) && f !in after.schemas[s].fields
    case FieldKeyChanged(s, f, x, y) =>
      && x != y && FieldInBoth(before, after, s, f)
      && x == before.schemas[s].fields[f].key && y == after.schemas[s].fields[f].key
    case FieldTypeChanged(s, f, x, y) =>
      && x != y && FieldInBoth(before, after, s, f)
      && x == before.schemas[s].fields[f].fieldType && y == after.schemas[s].fields[f].fieldType
    case FieldRequirednessChanged(s, f, x, y) =>
      && x != y && FieldInBoth(before, after, s, f)
      && x == before.schemas[s].fields[f].required && y == after.schemas[s].fields[f].required
    case FieldConstraintChanged(s, f, x, y) =>
      && x != y && FieldInBoth(before, after, s, f)
      && x == before.schemas[s].fields[f].constraint && y == after.schemas[s].fields[f].constraint
    case FieldDisplayNameChanged(s, f, x, y) =>
      && x != y && FieldInBoth(before, after, s, f)
      && x == before.schemas[s].fields[f].displayName && y == after.schemas[s].fields[f].displayName
    case FieldNumberFormatChanged(s, f, x, y) =>
      && x != y && FieldInBoth(before, after, s, f)
      && x == before.schemas[s].fields[f].numberFormat && y == after.schemas[s].fields[f].numberFormat
    case EntityCreated(e, y) => e !in before.entities && Get(after.entities, e) == Some(y)
    case EntityDeleted(e, x) => Get(before.entities, e) == Some(x) && e !in after.entities
    case EntityKeyChanged(e, x, y) =>
      x != y && InBoth(before.entities, after.entities, e) && x == before.entities[e].key && y == after.entities[e].key
    case EntitySchemaChanged(e, x, y) =>
      x != y && InBoth(before.entities, after.entities, e) && x == before.entities[e].schema && y == after.entities[e].schema
    case ValueCreated(e, s, f, y) =>
      ValueAt(before, after, e, s, f) == None && ValueAt(after, before, e, s, f) == Some(y)
    case ValueChanged(e, s, f, x, y) =>
      x != y && ValueAt(before, after, e, s, f) == Some(x) && ValueAt(after, before, e, s, f) == Some(y)
    case ValueCleared(e, s, f, x) =>
      ValueAt(before, after, e, s, f) == Some(x) && ValueAt(after, before, e, s, f) == None
    case DefinitionCreated(d, y) => d !in before.definitions && Get(after.definitions, d) == Some(y)
    case DefinitionDeleted(d, x) => Get(before.definitions, d) == Some(x) && d !in after.definitions
    case DefinitionChanged(d, x, y) =>
      x != y && Get(before.definitions, d) == Some(x) && Get(after.definitions, d) == Some(y)
  }

  // A slot holds at most one fact.
  lemma SlotHasOneFact(before: DocumentState, after: DocumentState, f: Fact, g: Fact)
    requires IsFact(before, after, f) && IsFact(before, after, g) && SlotOf(f) == SlotOf(g)
    ensures f == g
  {
    if f.DocumentTitleChanged? {
      OneTitleFact(before, after, f, g);
    } else if f.SchemaCreated? || f.SchemaDeleted? {
      OneSchemaPresenceFact(before, after, f, g);
    } else if f.SchemaKeyChanged? || f.SchemaDisplayNameChanged? || f.SchemaFieldOrderChanged? {
      OneSchemaFact(before, after, f, g);
    } else if f.FieldCreated? || f.FieldDeleted? {
      OneFieldPresenceFact(before, after, f, g);
    } else if f.FieldKeyChanged? || f.FieldTypeChanged? || f.FieldDisplayNameChanged? {
      OneFieldIdentityFact(before, after, f, g);
    } else if f.FieldRequirednessChanged? || f.FieldConstraintChanged? || f.FieldNumberFormatChanged? {
      OneFieldRuleFact(before, after, f, g);
    } else if f.EntityCreated? || f.EntityDeleted? || f.EntityKeyChanged? || f.EntitySchemaChanged? {
      OneEntityFact(before, after, f, g);
    } else if f.ValueCreated? || f.ValueChanged? || f.ValueCleared? {
      OneValueFact(before, after, f, g);
    } else {
      OneDefinitionFact(before, after, f, g);
    }
  }

  lemma OneTitleFact(before: DocumentState, after: DocumentState, f: Fact, g: Fact)
    requires IsFact(before, after, f) && IsFact(before, after, g) && SlotOf(f) == SlotOf(g)
    requires f.DocumentTitleChanged?
    ensures f == g
  {
  }

  lemma OneSchemaPresenceFact(before: DocumentState, after: DocumentState, f: Fact, g: Fact)
    requires IsFact(before, after, f) && IsFact(before, after, g) && SlotOf(f) == SlotOf(g)
    requires f.SchemaCreated? || f.SchemaDeleted?
    ensures f == g
  {
  }

  lemma OneSchemaFact(before: DocumentState, after: DocumentState, f: Fact, g: Fact)
    requires IsFact(before, after, f) && IsFact(before, after, g) && SlotOf(f) == SlotOf(g)
    requires f.SchemaKeyChanged? || f.SchemaDisplayNameChanged? || f.SchemaFieldOrderChanged?
    ensures f == g
  {
  }

  lemma OneFieldPresenceFact(before: DocumentState, after: DocumentState, f: Fact, g: Fact)
    requires IsFact(before, after, f) && IsFact(before, after, g) && SlotOf(f) == SlotOf(g)
    requires f.FieldCreated? || f.FieldDeleted?
    ensures f == g
  {
  }

  lemma OneFieldIdentityFact(before: DocumentState, after: DocumentState, f: Fact, g: Fact)
    requires IsFact(before, after, f) && IsFact(before, after, g) && SlotOf(f) == SlotOf(g)
    requires f.FieldKeyChanged? || f.FieldTypeChanged? || f.FieldDisplayNameChanged?
    ensures f == g
  {
  }

  lemma OneFieldRuleFact(before: DocumentState, after: DocumentState, f: Fact, g: Fact)
    requires IsFact(before, after, f) && IsFact(before, after, g) && SlotOf(f) == SlotOf(g)
    requires f.FieldRequirednessChanged? || f.FieldConstraintChanged? || f.FieldNumberFormatChanged?
    ensures f == g
  {
  }

  lemma OneEntityFact(before: DocumentState, after: DocumentState, f: Fact, g: Fact)
    requires IsFact(before, after, f) && IsFact(before, after, g) && SlotOf(f) == SlotOf(g)
    requires f.EntityCreated? || f.EntityDeleted? || f.EntityKeyChanged? || f.EntitySchemaChanged?
    ensures f == g
  {
  }

  lemma OneValueFact(before: DocumentState, after: DocumentState, f: Fact, g: Fact)
    requires IsFact(before, after, f) && IsFact(before, after, g) && SlotOf(f) == SlotOf(g)
    requires f.ValueCreated? || f.ValueChanged? || f.ValueCleared?
    ensures f == g
  {
  }

  lemma OneDefinitionFact(before: DocumentState, after: DocumentState, f: Fact, g: Fact)
    requires IsFact(before, after, f) && IsFact(before, after, g) && SlotOf(f) == SlotOf(g)
    requires f.DefinitionCreated? || f.DefinitionDeleted? || f.DefinitionChanged?
    ensures f == g
  {
  }

  // ---- The facts carry the whole difference ----

  // Every fact of one pair is a fact of the other.
  ghost predicate FactsWithin(before: DocumentState, one: DocumentState, other: DocumentState) {
    forall fact :: IsFact(before, one, fact) ==> IsFact(before, other, fact)
  }

  // `other` has every change `one` has.
  ghost predicate Follows<T>(was: T, one: T, other: T) {
    one != was ==> other == one
  }

  lemma FollowsField(before: DocumentState, one: DocumentState, other: DocumentState, s: SchemaId, f: FieldId)
    requires FactsWithin(before, one, other)
    requires InBoth(before.schemas, one.schemas, s) && InBoth(before.schemas, other.schemas, s)
    requires FieldInBoth(before, one, s, f) && FieldInBoth(before, other, s, f)
    ensures var x, y, z := before.schemas[s].fields[f], one.schemas[s].fields[f], other.schemas[s].fields[f];
      && Follows(x.key, y.key, z.key) && Follows(x.fieldType, y.fieldType, z.fieldType)
      && Follows(x.required, y.required, z.required) && Follows(x.constraint, y.constraint, z.constraint)
      && Follows(x.displayName, y.displayName, z.displayName) && Follows(x.numberFormat, y.numberFormat, z.numberFormat)
  {
    var x, y := before.schemas[s].fields[f], one.schemas[s].fields[f];
    if x.key != y.key { assert IsFact(before, one, FieldKeyChanged(s, f, x.key, y.key)); }
    if x.fieldType != y.fieldType { assert IsFact(before, one, FieldTypeChanged(s, f, x.fieldType, y.fieldType)); }
    if x.required != y.required { assert IsFact(before, one, FieldRequirednessChanged(s, f, x.required, y.required)); }
    if x.constraint != y.constraint { assert IsFact(before, one, FieldConstraintChanged(s, f, x.constraint, y.constraint)); }
    if x.displayName != y.displayName { assert IsFact(before, one, FieldDisplayNameChanged(s, f, x.displayName, y.displayName)); }
    if x.numberFormat != y.numberFormat { assert IsFact(before, one, FieldNumberFormatChanged(s, f, x.numberFormat, y.numberFormat)); }
  }

  lemma FollowsFieldPresence(before: DocumentState, one: DocumentState, other: DocumentState, s: SchemaId, f: FieldId)
    requires FactsWithin(before, one, other)
    requires InBoth(before.schemas, one.schemas, s) && InBoth(before.schemas, other.schemas, s)
    ensures var x, y, z := Get(before.schemas[s].fields, f), Get(one.schemas[s].fields, f), Get(other.schemas[s].fields, f);
      && (x.None? && y.Some? ==> z == y)
      && (x.Some? && y.None? ==> z == y)
  {
    var x, y := Get(before.schemas[s].fields, f), Get(one.schemas[s].fields, f);
    if x.None? && y.Some? { assert IsFact(before, one, FieldCreated(s, f, y.value)); }
    if x.Some? && y.None? { assert IsFact(before, one, FieldDeleted(s, f, x.value)); }
  }

  lemma SameField(before: DocumentState, one: DocumentState, other: DocumentState, s: SchemaId, f: FieldId)
    requires FactsWithin(before, one, other) && FactsWithin(before, other, one)
    requires InBoth(before.schemas, one.schemas, s) && InBoth(before.schemas, other.schemas, s)
    ensures Get(one.schemas[s].fields, f) == Get(other.schemas[s].fields, f)
  {
    FollowsFieldPresence(before, one, other, s, f);
    FollowsFieldPresence(before, other, one, s, f);
    if FieldInBoth(before, one, s, f) && FieldInBoth(before, other, s, f) {
      FollowsField(before, one, other, s, f);
      FollowsField(before, other, one, s, f);
    }
  }

  lemma FollowsSchema(before: DocumentState, one: DocumentState, other: DocumentState, s: SchemaId)
    requires FactsWithin(before, one, other)
    ensures var x, y, z := Get(before.schemas, s), Get(one.schemas, s), Get(other.schemas, s);
      && (x.None? && y.Some? ==> z == y)
      && (x.Some? && y.None? ==> z == y)
      && (x.Some? && y.Some? && z.Some? ==>
            && Follows(x.value.key, y.value.key, z.value.key)
            && Follows(x.value.displayName, y.value.displayName, z.value.displayName)
            && Follows(x.value.fieldOrder, y.value.fieldOrder, z.value.fieldOrder))
  {
    var x, y := Get(before.schemas, s), Get(one.schemas, s);
    if x.None? && y.Some? { assert IsFact(before, one, SchemaCreated(s, y.value)); }
    if x.Some? && y.None? { assert IsFact(before, one, SchemaDeleted(s, x.value)); }
    if x.Some? && y.Some? {
      var p, q := x.value, y.value;
      if p.key != q.key { assert IsFact(before, one, SchemaKeyChanged(s, p.key, q.key)); }
      if p.displayName != q.displayName { assert IsFact(before, one, SchemaDisplayNameChanged(s, p.displayName, q.displayName)); }
      if p.fieldOrder != q.fieldOrder { assert IsFact(before, one, SchemaFieldOrderChanged(s, p.fieldOrder, q.fieldOrder)); }
    }
  }

  lemma SameSchema(before: DocumentState, one: DocumentState, other: DocumentState, s: SchemaId)
    requires FactsWithin(before, one, other) && FactsWithin(before, other, one)
    ensures Get(one.schemas, s) == Get(other.schemas, s)
  {
    FollowsSchema(before, one, other, s);
    FollowsSchema(before, other, one, s);
    if InBoth(before.schemas, one.schemas, s) && InBoth(before.schemas, other.schemas, s) {
      forall f ensures Get(one.schemas[s].fields, f) == Get(other.schemas[s].fields, f) {
        SameField(before, one, other, s, f);
      }
      SameMap(one.schemas[s].fields, other.schemas[s].fields);
    }
  }

  lemma SameMap<K, V>(a: map<K, V>, b: map<K, V>)
    requires forall k :: Get(a, k) == Get(b, k)
    ensures a == b
  {
    forall k ensures k in a <==> k in b { assert Get(a, k) == Get(b, k); }
    forall k | k in a ensures a[k] == b[k] { assert Get(a, k) == Get(b, k); }
  }

  lemma FollowsEntity(before: DocumentState, one: DocumentState, other: DocumentState, e: EntityId)
    requires FactsWithin(before, one, other)
    ensures var x, y, z := Get(before.entities, e), Get(one.entities, e), Get(other.entities, e);
      && (x.None? && y.Some? ==> z == y)
      && (x.Some? && y.None? ==> z == y)
      && (x.Some? && y.Some? && z.Some? ==>
            Follows(x.value.key, y.value.key, z.value.key) && Follows(x.value.schema, y.value.schema, z.value.schema))
  {
    var x, y := Get(before.entities, e), Get(one.entities, e);
    if x.None? && y.Some? { assert IsFact(before, one, EntityCreated(e, y.value)); }
    if x.Some? && y.None? { assert IsFact(before, one, EntityDeleted(e, x.value)); }
    if x.Some? && y.Some? {
      if x.value.key != y.value.key { assert IsFact(before, one, EntityKeyChanged(e, x.value.key, y.value.key)); }
      if x.value.schema != y.value.schema { assert IsFact(before, one, EntitySchemaChanged(e, x.value.schema, y.value.schema)); }
    }
  }

  lemma FollowsValue(before: DocumentState, one: DocumentState, other: DocumentState, e: EntityId, s: SchemaId, f: FieldId)
    requires FactsWithin(before, one, other)
    requires InBoth(before.entities, one.entities, e) && InBoth(before.entities, other.entities, e)
    ensures Follows(ValueAt(before, one, e, s, f), ValueAt(one, before, e, s, f), ValueAt(other, before, e, s, f))
  {
    var x, y := ValueAt(before, one, e, s, f), ValueAt(one, before, e, s, f);
    if x.None? && y.Some? { assert IsFact(before, one, ValueCreated(e, s, f, y.value)); }
    if x.Some? && y.None? { assert IsFact(before, one, ValueCleared(e, s, f, x.value)); }
    if x.Some? && y.Some? && x != y { assert IsFact(before, one, ValueChanged(e, s, f, x.value, y.value)); }
  }

  lemma SameEntity(before: DocumentState, one: DocumentState, other: DocumentState, e: EntityId)
    requires FactsWithin(before, one, other) && FactsWithin(before, other, one)
    ensures Get(one.entities, e) == Get(other.entities, e)
  {
    FollowsEntity(before, one, other, e);
    FollowsEntity(before, other, one, e);
    if InBoth(before.entities, one.entities, e) && InBoth(before.entities, other.entities, e) {
      var s := one.entities[e].schema;
      forall f ensures Get(one.entities[e].fields, f) == Get(other.entities[e].fields, f) {
        FollowsValue(before, one, other, e, s, f);
        FollowsValue(before, other, one, e, s, f);
      }
      SameMap(one.entities[e].fields, other.entities[e].fields);
    }
  }

  lemma FollowsDefinition(before: DocumentState, one: DocumentState, other: DocumentState, d: DefinitionId)
    requires FactsWithin(before, one, other)
    ensures Follows(Get(before.definitions, d), Get(one.definitions, d), Get(other.definitions, d))
  {
    var x, y := Get(before.definitions, d), Get(one.definitions, d);
    if x.None? && y.Some? { assert IsFact(before, one, DefinitionCreated(d, y.value)); }
    if x.Some? && y.None? { assert IsFact(before, one, DefinitionDeleted(d, x.value)); }
    if x.Some? && y.Some? && x != y { assert IsFact(before, one, DefinitionChanged(d, x.value, y.value)); }
  }

  lemma FollowsTitle(before: DocumentState, one: DocumentState, other: DocumentState)
    requires FactsWithin(before, one, other)
    ensures Follows(before.title, one.title, other.title)
  {
    if before.title != one.title {
      assert IsFact(before, one, DocumentTitleChanged(before.id, before.title, one.title));
    }
  }

  // The facts determine the after state from the before state.
  lemma FactsDetermineAfter(before: DocumentState, one: DocumentState, other: DocumentState)
    requires before.id == one.id == other.id
    requires FactsWithin(before, one, other) && FactsWithin(before, other, one)
    ensures one == other
  {
    FollowsTitle(before, one, other);
    FollowsTitle(before, other, one);
    forall s ensures Get(one.schemas, s) == Get(other.schemas, s) { SameSchema(before, one, other, s); }
    SameMap(one.schemas, other.schemas);
    forall e ensures Get(one.entities, e) == Get(other.entities, e) { SameEntity(before, one, other, e); }
    SameMap(one.entities, other.entities);
    forall d ensures Get(one.definitions, d) == Get(other.definitions, d) {
      FollowsDefinition(before, one, other, d);
      FollowsDefinition(before, other, one, d);
    }
    SameMap(one.definitions, other.definitions);
  }

  // The same change, seen from the other side.
  function Flip(fact: Fact): Fact {
    match fact
    case DocumentTitleChanged(d, x, y) => DocumentTitleChanged(d, y, x)
    case SchemaCreated(s, y) => SchemaDeleted(s, y)
    case SchemaDeleted(s, x) => SchemaCreated(s, x)
    case SchemaKeyChanged(s, x, y) => SchemaKeyChanged(s, y, x)
    case SchemaDisplayNameChanged(s, x, y) => SchemaDisplayNameChanged(s, y, x)
    case SchemaFieldOrderChanged(s, x, y) => SchemaFieldOrderChanged(s, y, x)
    case FieldCreated(s, f, y) => FieldDeleted(s, f, y)
    case FieldDeleted(s, f, x) => FieldCreated(s, f, x)
    case FieldKeyChanged(s, f, x, y) => FieldKeyChanged(s, f, y, x)
    case FieldTypeChanged(s, f, x, y) => FieldTypeChanged(s, f, y, x)
    case FieldRequirednessChanged(s, f, x, y) => FieldRequirednessChanged(s, f, y, x)
    case FieldConstraintChanged(s, f, x, y) => FieldConstraintChanged(s, f, y, x)
    case FieldDisplayNameChanged(s, f, x, y) => FieldDisplayNameChanged(s, f, y, x)
    case FieldNumberFormatChanged(s, f, x, y) => FieldNumberFormatChanged(s, f, y, x)
    case EntityCreated(e, y) => EntityDeleted(e, y)
    case EntityDeleted(e, x) => EntityCreated(e, x)
    case EntityKeyChanged(e, x, y) => EntityKeyChanged(e, y, x)
    case EntitySchemaChanged(e, x, y) => EntitySchemaChanged(e, y, x)
    case ValueCreated(e, s, f, y) => ValueCleared(e, s, f, y)
    case ValueChanged(e, s, f, x, y) => ValueChanged(e, s, f, y, x)
    case ValueCleared(e, s, f, x) => ValueCreated(e, s, f, x)
    case DefinitionCreated(d, y) => DefinitionDeleted(d, y)
    case DefinitionDeleted(d, x) => DefinitionCreated(d, x)
    case DefinitionChanged(d, x, y) => DefinitionChanged(d, y, x)
  }

  lemma FlippedFact(before: DocumentState, after: DocumentState, fact: Fact)
    requires before.id == after.id
    ensures IsFact(before, after, fact) <==> IsFact(after, before, Flip(fact))
    ensures Flip(Flip(fact)) == fact
  {
  }

  // ---- The canonical list ----

  predicate IdsLess(a: seq<nat>, b: seq<nat>) {
    b != [] && (a == [] || a[0] < b[0] || (a[0] == b[0] && IdsLess(a[1..], b[1..])))
  }

  predicate KeyLess(a: OrderingKey, b: OrderingKey) {
    || a.category < b.category
    || (a.category == b.category && (IdsLess(a.ids, b.ids) || (a.ids == b.ids && a.kind < b.kind)))
  }

  lemma {:induction false} IdsOrder(a: seq<nat>, b: seq<nat>, c: seq<nat>)
    ensures a == b || IdsLess(a, b) || IdsLess(b, a)
    ensures IdsLess(a, b) && IdsLess(b, c) ==> IdsLess(a, c)
    ensures !IdsLess(a, a)
  {
    if a != [] {
      IdsOrder(a[1..], if b == [] then [] else b[1..], if c == [] then [] else c[1..]);
      if b != [] && a[0] == b[0] && a[1..] == b[1..] {
        assert a == [a[0]] + a[1..] && b == [b[0]] + b[1..];
      }
    }
  }

  lemma KeyOrder(a: OrderingKey, b: OrderingKey, c: OrderingKey)
    ensures a == b || KeyLess(a, b) || KeyLess(b, a)
    ensures KeyLess(a, b) && KeyLess(b, c) ==> KeyLess(a, c)
    ensures !KeyLess(a, a)
  {
    IdsOrder(a.ids, b.ids, c.ids);
    IdsOrder(a.ids, a.ids, a.ids);
  }

  ghost predicate StrictlyIncreasing(facts: seq<Fact>) {
    forall i, j :: 0 <= i < j < |facts| ==> KeyLess(FactKey(facts[i]), FactKey(facts[j]))
  }

  ghost predicate IsDelta(before: DocumentState, after: DocumentState, facts: seq<Fact>) {
    StrictlyIncreasing(facts) && forall fact :: fact in facts <==> IsFact(before, after, fact)
  }

  // One list of facts, one after state.
  lemma DeltaDeterminesAfter(before: DocumentState, one: DocumentState, other: DocumentState, facts: seq<Fact>)
    requires before.id == one.id == other.id && IsDelta(before, one, facts) && IsDelta(before, other, facts)
    ensures one == other
  {
    FactsDetermineAfter(before, one, other);
  }

  // One list of facts, one before state.
  lemma DeltaDeterminesBefore(one: DocumentState, other: DocumentState, after: DocumentState, facts: seq<Fact>)
    requires after.id == one.id == other.id && IsDelta(one, after, facts) && IsDelta(other, after, facts)
    ensures one == other
  {
    forall fact ensures IsFact(after, one, fact) <==> IsFact(after, other, fact) {
      FlippedFact(after, one, fact);
      FlippedFact(after, other, fact);
      assert IsFact(one, after, Flip(fact)) <==> IsFact(other, after, Flip(fact));
    }
    FactsDetermineAfter(after, one, other);
  }

  lemma NothingChanged(state: DocumentState, fact: Fact)
    ensures !IsFact(state, state, fact)
  {
  }

  // No facts, no difference.
  lemma EmptyDeltaMeansEqual(before: DocumentState, after: DocumentState, facts: seq<Fact>)
    requires before.id == after.id && IsDelta(before, after, facts)
    ensures facts == [] <==> before == after
  {
    forall fact ensures !IsFact(before, before, fact) { NothingChanged(before, fact); }
    if facts == [] {
      FactsDetermineAfter(before, after, before);
    }
    assert facts != [] ==> facts[0] in facts;
  }

  // The canonical list is unique.
  lemma {:induction false} IncreasingFactsAreUnique(a: seq<Fact>, b: seq<Fact>)
    requires StrictlyIncreasing(a) && StrictlyIncreasing(b) && forall fact :: fact in a <==> fact in b
    ensures a == b
  {
    assert b != [] ==> b[0] in b;
    if a != [] {
      assert a[0] in a && a[0] in b;
      assert b != [] && b[0] in b && b[0] in a;
      FirstIsLeast(a, b[0]);
      FirstIsLeast(b, a[0]);
      KeyOrder(FactKey(a[0]), FactKey(b[0]), FactKey(a[0]));
      assert a == [a[0]] + a[1..] && b == [b[0]] + b[1..];
      forall fact ensures fact in a[1..] <==> fact in b[1..] {
        FirstIsNotLater(a, fact);
        FirstIsNotLater(b, fact);
        assert fact in a <==> fact == a[0] || fact in a[1..];
        assert fact in b <==> fact == b[0] || fact in b[1..];
      }
      IncreasingFactsAreUnique(a[1..], b[1..]);
    }
  }

  lemma FirstIsLeast(facts: seq<Fact>, fact: Fact)
    requires StrictlyIncreasing(facts) && fact in facts
    ensures facts[0] == fact || KeyLess(FactKey(facts[0]), FactKey(fact))
  {
    var i :| 0 <= i < |facts| && facts[i] == fact;
  }

  lemma FirstIsNotLater(facts: seq<Fact>, fact: Fact)
    requires StrictlyIncreasing(facts) && facts != []
    ensures fact in facts[1..] ==> fact != facts[0]
  {
    if fact in facts[1..] {
      var i :| 0 <= i < |facts[1..]| && facts[1..][i] == fact;
      assert facts[i + 1] == fact;
      KeyOrder(FactKey(fact), FactKey(fact), FactKey(fact));
    }
  }

  // Insert in key order, as a sort would place it.
  function Insert(sorted: seq<Fact>, fact: Fact): seq<Fact> {
    if sorted == [] || KeyLess(FactKey(fact), FactKey(sorted[0])) then [fact] + sorted
    else [sorted[0]] + Insert(sorted[1..], fact)
  }

  function Sort(facts: seq<Fact>): seq<Fact> {
    if facts == [] then [] else Insert(Sort(facts[1..]), facts[0])
  }

  lemma {:induction false} InsertKeeps(sorted: seq<Fact>, fact: Fact)
    ensures forall g :: g in Insert(sorted, fact) <==> g == fact || g in sorted
  {
    if sorted != [] && !KeyLess(FactKey(fact), FactKey(sorted[0])) {
      InsertKeeps(sorted[1..], fact);
      assert sorted == [sorted[0]] + sorted[1..];
    }
  }

  lemma {:induction false} InsertIsIncreasing(sorted: seq<Fact>, fact: Fact)
    requires StrictlyIncreasing(sorted) && forall g :: g in sorted ==> FactKey(g) != FactKey(fact)
    ensures StrictlyIncreasing(Insert(sorted, fact))
  {
    if sorted != [] {
      assert sorted[0] in sorted && forall g :: g in sorted[1..] ==> g in sorted;
      KeyOrder(FactKey(fact), FactKey(sorted[0]), FactKey(fact));
      if KeyLess(FactKey(fact), FactKey(sorted[0])) {
        forall i | 0 <= i < |sorted| ensures KeyLess(FactKey(fact), FactKey(sorted[i])) {
          KeyOrder(FactKey(fact), FactKey(sorted[0]), FactKey(sorted[i]));
        }
      } else {
        InsertIsIncreasing(sorted[1..], fact);
        InsertKeeps(sorted[1..], fact);
        var rest := Insert(sorted[1..], fact);
        forall i | 0 <= i < |rest| ensures KeyLess(FactKey(sorted[0]), FactKey(rest[i])) {
          assert rest[i] in rest;
          if rest[i] in sorted[1..] {
            var j :| 0 <= j < |sorted[1..]| && sorted[1..][j] == rest[i];
            assert sorted[j + 1] == rest[i];
          }
        }
      }
    }
  }

  ghost predicate KeysDiffer(facts: seq<Fact>) {
    forall i, j :: 0 <= i < j < |facts| ==> FactKey(facts[i]) != FactKey(facts[j])
  }

  // Sorting facts with different keys gives a strictly increasing list of the
  // same facts.
  lemma {:induction false} SortIsIncreasing(facts: seq<Fact>)
    requires KeysDiffer(facts)
    ensures StrictlyIncreasing(Sort(facts))
    ensures forall g :: g in Sort(facts) <==> g in facts
  {
    if facts != [] {
      SortIsIncreasing(facts[1..]);
      InsertKeeps(Sort(facts[1..]), facts[0]);
      forall g | g in Sort(facts[1..]) ensures FactKey(g) != FactKey(facts[0]) {
        var i :| 0 <= i < |facts[1..]| && facts[1..][i] == g;
        assert facts[i + 1] == g;
      }
      InsertIsIncreasing(Sort(facts[1..]), facts[0]);
      assert facts == [facts[0]] + facts[1..];
    }
  }

  // ---- The comparison ----

  // The facts found so far: every fact in these slots, each once.
  ghost predicate Lists(before: DocumentState, after: DocumentState, facts: seq<Fact>, slots: iset<Slot>) {
    && KeysDiffer(facts)
    && forall fact :: fact in facts <==> IsFact(before, after, fact) && SlotOf(fact) in slots
  }

  // The one fact its slot could hold.
  ghost predicate IsCandidate(before: DocumentState, after: DocumentState, fact: Fact) {
    forall g :: IsFact(before, after, g) && SlotOf(g) == SlotOf(fact) ==> g == fact
  }

  lemma FactIsCandidate(before: DocumentState, after: DocumentState, fact: Fact)
    requires IsFact(before, after, fact)
    ensures IsCandidate(before, after, fact)
  {
    forall g | IsFact(before, after, g) && SlotOf(g) == SlotOf(fact) ensures g == fact {
      SlotHasOneFact(before, after, fact, g);
    }
  }

  // Add a slot's fact when there is one.
  method Push(
    ghost before: DocumentState, ghost after: DocumentState, found: seq<Fact>, ghost slots: iset<Slot>, fact: Fact, changed: bool
  ) returns (facts: seq<Fact>, ghost now: iset<Slot>)
    requires Lists(before, after, found, slots) && SlotOf(fact) !in slots
    requires IsCandidate(before, after, fact) && (changed <==> IsFact(before, after, fact))
    ensures Lists(before, after, facts, now) && now == slots + iset{SlotOf(fact)}
  {
    facts, now := found, slots + iset{SlotOf(fact)};
    if changed {
      forall i | 0 <= i < |facts| ensures FactKey(facts[i]) != FactKey(fact) {
        assert facts[i] in facts;
        if FactKey(facts[i]) == FactKey(fact) { KeyNamesSlot(SlotOf(facts[i]), SlotOf(fact)); }
      }
      facts := facts + [fact];
    }
  }

  // Slots without a fact may be added freely.
  lemma Widen(before: DocumentState, after: DocumentState, facts: seq<Fact>, slots: iset<Slot>, more: iset<Slot>)
    requires Lists(before, after, facts, slots) && slots <= more
    requires forall g :: IsFact(before, after, g) && SlotOf(g) in more ==> SlotOf(g) in slots
    ensures Lists(before, after, facts, more)
  {
  }

  ghost function FieldSlots(s: SchemaId, fields: set<FieldId>): iset<Slot> {
    iset x: Slot | x.FieldSlot? && x.schema == s && x.field in fields
  }

  ghost function SchemaSlots(schemas: set<SchemaId>): iset<Slot> {
    iset x: Slot | (x.SchemaSlot? || x.FieldSlot?) && x.schema in schemas
  }

  ghost function ValueSlots(e: EntityId, fields: set<FieldId>): iset<Slot> {
    iset x: Slot | x.ValueSlot? && x.entity == e && x.field in fields
  }

  ghost function EntitySlots(entities: set<EntityId>): iset<Slot> {
    iset x: Slot | (x.EntitySlot? || x.ValueSlot?) && x.entity in entities
  }

  ghost function DefinitionSlots(definitions: set<DefinitionId>): iset<Slot> {
    iset x: Slot | x.DefinitionSlot? && x.definition in definitions
  }

  lemma FieldIdentityCandidates(before: DocumentState, after: DocumentState, s: SchemaId, f: FieldId)
    requires FieldInBoth(before, after, s, f)
    ensures var x, y := before.schemas[s].fields[f], after.schemas[s].fields[f];
      && IsCandidate(before, after, FieldKeyChanged(s, f, x.key, y.key))
      && IsCandidate(before, after, FieldDisplayNameChanged(s, f, x.displayName, y.displayName))
      && IsCandidate(before, after, FieldTypeChanged(s, f, x.fieldType, y.fieldType))
  {
  }

  lemma FieldRuleCandidates(before: DocumentState, after: DocumentState, s: SchemaId, f: FieldId)
    requires FieldInBoth(before, after, s, f)
    ensures var x, y := before.schemas[s].fields[f], after.schemas[s].fields[f];
      && IsCandidate(before, after, FieldRequirednessChanged(s, f, x.required, y.required))
      && IsCandidate(before, after, FieldNumberFormatChanged(s, f, x.numberFormat, y.numberFormat))
      && IsCandidate(before, after, FieldConstraintChanged(s, f, x.constraint, y.constraint))
  {
  }

  // The key, display name and type of a field on both sides.
  method CompareFieldIdentity(
    before: DocumentState, after: DocumentState, s: SchemaId, f: FieldId, found: seq<Fact>, ghost slots: iset<Slot>
  ) returns (facts: seq<Fact>, ghost now: iset<Slot>)
    requires FieldInBoth(before, after, s, f) && Lists(before, after, found, slots) && slots !! FieldSlots(s, {f})
    ensures Lists(before, after, facts, now)
    ensures now == slots + iset{FieldSlot(s, f, 2)} + iset{FieldSlot(s, f, 6)} + iset{FieldSlot(s, f, 3)}
  {
    var x, y := before.schemas[s].fields[f], after.schemas[s].fields[f];
    FieldIdentityCandidates(before, after, s, f);
    facts, now := Push(before, after, found, slots, FieldKeyChanged(s, f, x.key, y.key), x.key != y.key);
    facts, now := Push(before, after, facts, now, FieldDisplayNameChanged(s, f, x.displayName, y.displayName),
                       x.displayName != y.displayName);
    facts, now := Push(before, after, facts, now, FieldTypeChanged(s, f, x.fieldType, y.fieldType), x.fieldType != y.fieldType);
  }

  // Its requiredness, number format and constraint.
  method CompareFieldRules(
    before: DocumentState, after: DocumentState, s: SchemaId, f: FieldId, found: seq<Fact>, ghost slots: iset<Slot>
  ) returns (facts: seq<Fact>, ghost now: iset<Slot>)
    requires FieldInBoth(before, after, s, f) && Lists(before, after, found, slots)
    requires FieldSlot(s, f, 4) !in slots && FieldSlot(s, f, 7) !in slots && FieldSlot(s, f, 5) !in slots
    ensures Lists(before, after, facts, now)
    ensures now == slots + iset{FieldSlot(s, f, 4)} + iset{FieldSlot(s, f, 7)} + iset{FieldSlot(s, f, 5)}
  {
    var x, y := before.schemas[s].fields[f], after.schemas[s].fields[f];
    FieldRuleCandidates(before, after, s, f);
    facts, now := Push(before, after, found, slots, FieldRequirednessChanged(s, f, x.required, y.required), x.required != y.required);
    facts, now := Push(before, after, facts, now, FieldNumberFormatChanged(s, f, x.numberFormat, y.numberFormat),
                       x.numberFormat != y.numberFormat);
    facts, now := Push(before, after, facts, now, FieldConstraintChanged(s, f, x.constraint, y.constraint),
                       x.constraint != y.constraint);
  }

  method CompareField(
    before: DocumentState, after: DocumentState, s: SchemaId, f: FieldId, found: seq<Fact>, ghost slots: iset<Slot>
  ) returns (facts: seq<Fact>)
    requires InBoth(before.schemas, after.schemas, s) && (f in before.schemas[s].fields || f in after.schemas[s].fields)
    requires Lists(before, after, found, slots) && slots !! FieldSlots(s, {f})
    ensures Lists(before, after, facts, slots + FieldSlots(s, {f}))
  {
    var olds, news := before.schemas[s].fields, after.schemas[s].fields;
    ghost var now;
    if f !in olds {
      FactIsCandidate(before, after, FieldCreated(s, f, news[f]));
      facts, now := Push(before, after, found, slots, FieldCreated(s, f, news[f]), true);
    } else if f !in news {
      FactIsCandidate(before, after, FieldDeleted(s, f, olds[f]));
      facts, now := Push(before, after, found, slots, FieldDeleted(s, f, olds[f]), true);
    } else {
      facts, now := CompareFieldIdentity(before, after, s, f, found, slots);
      facts, now := CompareFieldRules(before, after, s, f, facts, now);
    }
    Widen(before, after, facts, now, slots + FieldSlots(s, {f}));
  }

  lemma SchemaCandidates(before: DocumentState, after: DocumentState, s: SchemaId)
    requires InBoth(before.schemas, after.schemas, s)
    ensures var x, y := before.schemas[s], after.schemas[s];
      && IsCandidate(before, after, SchemaKeyChanged(s, x.key, y.key))
      && IsCandidate(before, after, SchemaDisplayNameChanged(s, x.displayName, y.displayName))
      && IsCandidate(before, after, SchemaFieldOrderChanged(s, x.fieldOrder, y.fieldOrder))
  {
  }

  // compare_schema.
  method CompareSchema(before: DocumentState, after: DocumentState, s: SchemaId, found: seq<Fact>, ghost slots: iset<Slot>)
      returns (facts: seq<Fact>)
    requires InBoth(before.schemas, after.schemas, s)
    requires Lists(before, after, found, slots) && slots !! SchemaSlots({s})
    ensures Lists(before, after, facts, slots + SchemaSlots({s}))
  {
    var x, y := before.schemas[s], after.schemas[s];
    ghost var now;
    SchemaCandidates(before, after, s);
    facts, now := Push(before, after, found, slots, SchemaKeyChanged(s, x.key, y.key), x.key != y.key);
    facts, now := Push(before, after, facts, now, SchemaDisplayNameChanged(s, x.displayName, y.displayName),
                       x.displayName != y.displayName);
    facts, now := Push(before, after, facts, now, SchemaFieldOrderChanged(s, x.fieldOrder, y.fieldOrder),
                       x.fieldOrder != y.fieldOrder);
    var fields := x.fields.Keys + y.fields.Keys;
    facts := CompareFields(before, after, s, fields, facts, now);
    Widen(before, after, facts, now + FieldSlots(s, fields), slots + SchemaSlots({s}));
  }

  method CompareFields(
    before: DocumentState, after: DocumentState, s: SchemaId, fields: set<FieldId>, found: seq<Fact>, ghost slots: iset<Slot>
  ) returns (facts: seq<Fact>)
    requires InBoth(before.schemas, after.schemas, s)
    requires fields == before.schemas[s].fields.Keys + after.schemas[s].fields.Keys
    requires Lists(before, after, found, slots) && slots !! FieldSlots(s, fields)
    ensures Lists(before, after, facts, slots + FieldSlots(s, fields))
  {
    facts := found;
    var work := fields;
    assert slots + FieldSlots(s, {}) == slots;
    while work != {}
      invariant work <= fields && Lists(before, after, facts, slots + FieldSlots(s, fields - work))
    {
      var field := Least(work);
      ghost var done := slots + FieldSlots(s, fields - work);
      facts := CompareField(before, after, s, field, facts, done);
      work := work - {field};
      assert done + FieldSlots(s, {field}) == slots + FieldSlots(s, fields - work);
    }
    assert fields - {} == fields;
  }

  lemma EntityCandidates(before: DocumentState, after: DocumentState, e: EntityId)
    requires InBoth(before.entities, after.entities, e)
    ensures var x, y := before.entities[e], after.entities[e];
      && IsCandidate(before, after, EntityKeyChanged(e, x.key, y.key))
      && IsCandidate(before, after, EntitySchemaChanged(e, x.schema, y.schema))
  {
  }

  // One stored value: a row that changed schema clears it and creates it anew.
  method CompareValue(
    before: DocumentState, after: DocumentState, e: EntityId, f: FieldId, found: seq<Fact>, ghost slots: iset<Slot>
  ) returns (facts: seq<Fact>)
    requires InBoth(before.entities, after.entities, e)
    requires Lists(before, after, found, slots) && slots !! ValueSlots(e, {f})
    ensures Lists(before, after, facts, slots + ValueSlots(e, {f}))
  {
    var x, y := before.entities[e], after.entities[e];
    if f !in x.fields && f in y.fields {
      facts := PushValue(before, after, e, f, found, slots, ValueCreated(e, y.schema, f, y.fields[f]));
    } else if f in x.fields && f !in y.fields {
      facts := PushValue(before, after, e, f, found, slots, ValueCleared(e, x.schema, f, x.fields[f]));
    } else if f in x.fields && f in y.fields && x.fields[f] != y.fields[f] && x.schema == y.schema {
      facts := PushValue(before, after, e, f, found, slots, ValueChanged(e, x.schema, f, x.fields[f], y.fields[f]));
    } else if f in x.fields && f in y.fields && x.schema != y.schema {
      facts := MoveValue(before, after, e, f, found, slots);
    } else {
      facts := found;
      Widen(before, after, facts, slots, slots + ValueSlots(e, {f}));
    }
  }

  // The only fact about one value of one row.
  method PushValue(
    before: DocumentState, after: DocumentState, e: EntityId, f: FieldId, found: seq<Fact>, ghost slots: iset<Slot>, fact: Fact
  ) returns (facts: seq<Fact>)
    requires Lists(before, after, found, slots) && slots !! ValueSlots(e, {f})
    requires IsFact(before, after, fact) && SlotOf(fact) in ValueSlots(e, {f})
    requires forall g :: IsFact(before, after, g) && SlotOf(g) in ValueSlots(e, {f}) ==> SlotOf(g) == SlotOf(fact)
    ensures Lists(before, after, facts, slots + ValueSlots(e, {f}))
  {
    ghost var now;
    FactIsCandidate(before, after, fact);
    facts, now := Push(before, after, found, slots, fact, true);
    Widen(before, after, facts, now, slots + ValueSlots(e, {f}));
  }

  method MoveValue(
    before: DocumentState, after: DocumentState, e: EntityId, f: FieldId, found: seq<Fact>, ghost slots: iset<Slot>
  ) returns (facts: seq<Fact>)
    requires InBoth(before.entities, after.entities, e) && before.entities[e].schema != after.entities[e].schema
    requires f in before.entities[e].fields && f in after.entities[e].fields
    requires Lists(before, after, found, slots) && slots !! ValueSlots(e, {f})
    ensures Lists(before, after, facts, slots + ValueSlots(e, {f}))
  {
    var x, y := before.entities[e], after.entities[e];
    var cleared := ValueCleared(e, x.schema, f, x.fields[f]);
    var created := ValueCreated(e, y.schema, f, y.fields[f]);
    ghost var now;
    FactIsCandidate(before, after, cleared);
    facts, now := Push(before, after, found, slots, cleared, true);
    FactIsCandidate(before, after, created);
    facts, now := Push(before, after, facts, now, created, true);
    Widen(before, after, facts, now, slots + ValueSlots(e, {f}));
  }

  // compare_entity.
  method CompareEntity(before: DocumentState, after: DocumentState, e: EntityId, found: seq<Fact>, ghost slots: iset<Slot>)
      returns (facts: seq<Fact>)
    requires InBoth(before.entities, after.entities, e)
    requires Lists(before, after, found, slots) && slots !! EntitySlots({e})
    ensures Lists(before, after, facts, slots + EntitySlots({e}))
  {
    ghost var now;
    facts, now := CompareRow(before, after, e, found, slots);
    var fields := before.entities[e].fields.Keys + after.entities[e].fields.Keys;
    facts := CompareValues(before, after, e, fields, facts, now);
    WidenEntity(before, after, e, fields, facts, now, slots);
  }

  lemma WidenEntity(
    before: DocumentState, after: DocumentState, e: EntityId, fields: set<FieldId>, facts: seq<Fact>, now: iset<Slot>, slots: iset<Slot>
  )
    requires InBoth(before.entities, after.entities, e)
    requires fields == before.entities[e].fields.Keys + after.entities[e].fields.Keys
    requires now == slots + iset{EntitySlot(e, 2)} + iset{EntitySlot(e, 3)}
    requires Lists(before, after, facts, now + ValueSlots(e, fields))
    ensures Lists(before, after, facts, slots + EntitySlots({e}))
  {
    forall g | IsFact(before, after, g) && SlotOf(g) in EntitySlots({e}) ensures SlotOf(g) in now + ValueSlots(e, fields) {
    }
    Widen(before, after, facts, now + ValueSlots(e, fields), slots + EntitySlots({e}));
  }

  // The key and the schema of a row.
  method CompareRow(before: DocumentState, after: DocumentState, e: EntityId, found: seq<Fact>, ghost slots: iset<Slot>)
      returns (facts: seq<Fact>, ghost now: iset<Slot>)
    requires InBoth(before.entities, after.entities, e)
    requires Lists(before, after, found, slots) && slots !! EntitySlots({e})
    ensures Lists(before, after, facts, now) && now == slots + iset{EntitySlot(e, 2)} + iset{EntitySlot(e, 3)}
  {
    var x, y := before.entities[e], after.entities[e];
    EntityCandidates(before, after, e);
    facts, now := Push(before, after, found, slots, EntityKeyChanged(e, x.key, y.key), x.key != y.key);
    facts, now := Push(before, after, facts, now, EntitySchemaChanged(e, x.schema, y.schema), x.schema != y.schema);
  }

  method CompareValues(
    before: DocumentState, after: DocumentState, e: EntityId, fields: set<FieldId>, found: seq<Fact>, ghost slots: iset<Slot>
  ) returns (facts: seq<Fact>)
    requires InBoth(before.entities, after.entities, e)
    requires Lists(before, after, found, slots) && slots !! ValueSlots(e, fields)
    ensures Lists(before, after, facts, slots + ValueSlots(e, fields))
  {
    facts := found;
    var work := fields;
    assert slots + ValueSlots(e, {}) == slots;
    while work != {}
      invariant work <= fields && Lists(before, after, facts, slots + ValueSlots(e, fields - work))
    {
      var field := Least(work);
      ghost var done := slots + ValueSlots(e, fields - work);
      facts := CompareValue(before, after, e, field, facts, done);
      work := work - {field};
      assert done + ValueSlots(e, {field}) == slots + ValueSlots(e, fields - work);
    }
    assert fields - {} == fields;
  }

  method CompareSchemas(before: DocumentState, after: DocumentState, found: seq<Fact>, ghost slots: iset<Slot>)
      returns (facts: seq<Fact>, ghost all: set<SchemaId>)
    requires Lists(before, after, found, slots) && slots !! SchemaSlots(before.schemas.Keys + after.schemas.Keys)
    ensures all == before.schemas.Keys + after.schemas.Keys
    ensures Lists(before, after, facts, slots + SchemaSlots(all))
  {
    facts := found;
    var schemas := before.schemas.Keys + after.schemas.Keys;
    var work := schemas;
    assert slots + SchemaSlots({}) == slots;
    while work != {}
      invariant work <= schemas && Lists(before, after, facts, slots + SchemaSlots(schemas - work))
    {
      var schema := Least(work);
      ghost var done := slots + SchemaSlots(schemas - work);
      facts := CompareOneSchema(before, after, schema, facts, done);
      work := work - {schema};
      assert done + SchemaSlots({schema}) == slots + SchemaSlots(schemas - work);
    }
    all := schemas;
    assert schemas - {} == schemas;
  }

  method CompareOneSchema(before: DocumentState, after: DocumentState, s: SchemaId, found: seq<Fact>, ghost slots: iset<Slot>)
      returns (facts: seq<Fact>)
    requires s in before.schemas || s in after.schemas
    requires Lists(before, after, found, slots) && slots !! SchemaSlots({s})
    ensures Lists(before, after, facts, slots + SchemaSlots({s}))
  {
    if s in before.schemas && s in after.schemas {
      facts := CompareSchema(before, after, s, found, slots);
    } else {
      var fact := if s in after.schemas then SchemaCreated(s, after.schemas[s]) else SchemaDeleted(s, before.schemas[s]);
      FactIsCandidate(before, after, fact);
      ghost var now;
      facts, now := Push(before, after, found, slots, fact, true);
      Widen(before, after, facts, now, slots + SchemaSlots({s}));
    }
  }

  method CompareOneEntity(before: DocumentState, after: DocumentState, e: EntityId, found: seq<Fact>, ghost slots: iset<Slot>)
      returns (facts: seq<Fact>)
    requires e in before.entities || e in after.entities
    requires Lists(before, after, found, slots) && slots !! EntitySlots({e})
    ensures Lists(before, after, facts, slots + EntitySlots({e}))
  {
    if e in before.entities && e in after.entities {
      facts := CompareEntity(before, after, e, found, slots);
    } else {
      var fact := if e in after.entities then EntityCreated(e, after.entities[e]) else EntityDeleted(e, before.entities[e]);
      FactIsCandidate(before, after, fact);
      ghost var now;
      facts, now := Push(before, after, found, slots, fact, true);
      Widen(before, after, facts, now, slots + EntitySlots({e}));
    }
  }

  method CompareEntities(before: DocumentState, after: DocumentState, found: seq<Fact>, ghost slots: iset<Slot>)
      returns (facts: seq<Fact>, ghost all: set<EntityId>)
    requires Lists(before, after, found, slots) && slots !! EntitySlots(before.entities.Keys + after.entities.Keys)
    ensures all == before.entities.Keys + after.entities.Keys
    ensures Lists(before, after, facts, slots + EntitySlots(all))
  {
    facts := found;
    var entities := before.entities.Keys + after.entities.Keys;
    var work := entities;
    assert slots + EntitySlots({}) == slots;
    while work != {}
      invariant work <= entities && Lists(before, after, facts, slots + EntitySlots(entities - work))
    {
      var entity := Least(work);
      ghost var done := slots + EntitySlots(entities - work);
      facts := CompareOneEntity(before, after, entity, facts, done);
      work := work - {entity};
      assert done + EntitySlots({entity}) == slots + EntitySlots(entities - work);
    }
    all := entities;
    assert entities - {} == entities;
  }

  method CompareOneDefinition(before: DocumentState, after: DocumentState, d: DefinitionId, found: seq<Fact>, ghost slots: iset<Slot>)
      returns (facts: seq<Fact>)
    requires d in before.definitions || d in after.definitions
    requires Lists(before, after, found, slots) && slots !! DefinitionSlots({d})
    ensures Lists(before, after, facts, slots + DefinitionSlots({d}))
  {
    var olds, news := before.definitions, after.definitions;
    facts := found;
    ghost var now := slots;
    if d !in olds || d !in news || olds[d] != news[d] {
      var fact :=
        if d !in olds then DefinitionCreated(d, news[d])
        else if d !in news then DefinitionDeleted(d, olds[d])
        else DefinitionChanged(d, olds[d], news[d]);
      FactIsCandidate(before, after, fact);
      facts, now := Push(before, after, found, slots, fact, true);
    }
    Widen(before, after, facts, now, slots + DefinitionSlots({d}));
  }

  // compare_saved_definitions.
  method CompareSavedDefinitions(before: DocumentState, after: DocumentState, found: seq<Fact>, ghost slots: iset<Slot>)
      returns (facts: seq<Fact>, ghost all: set<DefinitionId>)
    requires Lists(before, after, found, slots) && slots !! DefinitionSlots(before.definitions.Keys + after.definitions.Keys)
    ensures all == before.definitions.Keys + after.definitions.Keys
    ensures Lists(before, after, facts, slots + DefinitionSlots(all))
  {
    facts := found;
    var definitions := before.definitions.Keys + after.definitions.Keys;
    var work := definitions;
    assert slots + DefinitionSlots({}) == slots;
    while work != {}
      invariant work <= definitions && Lists(before, after, facts, slots + DefinitionSlots(definitions - work))
    {
      var definition := Least(work);
      ghost var done := slots + DefinitionSlots(definitions - work);
      facts := CompareOneDefinition(before, after, definition, facts, done);
      work := work - {definition};
      assert done + DefinitionSlots({definition}) == slots + DefinitionSlots(definitions - work);
    }
    all := definitions;
    assert definitions - {} == definitions;
  }

  ghost function AllSlots(before: DocumentState, after: DocumentState): iset<Slot> {
    iset{TitleSlot(before.id)} + SchemaSlots(before.schemas.Keys + after.schemas.Keys)
    + EntitySlots(before.entities.Keys + after.entities.Keys) + DefinitionSlots(before.definitions.Keys + after.definitions.Keys)
  }

  lemma FactsAreInAllSlots(before: DocumentState, after: DocumentState, fact: Fact)
    requires IsFact(before, after, fact)
    ensures SlotOf(fact) in AllSlots(before, after)
  {
  }

  lemma ListedInAllSlots(before: DocumentState, after: DocumentState, facts: seq<Fact>)
    requires Lists(before, after, facts, AllSlots(before, after))
    ensures IsDelta(before, after, Sort(facts))
  {
    SortIsIncreasing(facts);
    forall fact | IsFact(before, after, fact) ensures SlotOf(fact) in AllSlots(before, after) {
      FactsAreInAllSlots(before, after, fact);
    }
  }

  lemma TitleIsCandidate(before: DocumentState, after: DocumentState)
    ensures IsCandidate(before, after, DocumentTitleChanged(before.id, before.title, after.title))
    ensures Lists(before, after, [], iset{})
  {
  }

  // The facts of two states of one document, in canonical order.
  method CompareStates(before: DocumentState, after: DocumentState) returns (facts: seq<Fact>)
    requires before.id == after.id
    ensures IsDelta(before, after, facts)
  {
    var title := DocumentTitleChanged(before.id, before.title, after.title);
    TitleIsCandidate(before, after);
    ghost var now, schemas, entities, definitions;
    facts, now := Push(before, after, [], iset{}, title, before.title != after.title);
    facts, schemas := CompareSchemas(before, after, facts, now);
    facts, entities := CompareEntities(before, after, facts, now + SchemaSlots(schemas));
    facts, definitions := CompareSavedDefinitions(before, after, facts, now + SchemaSlots(schemas) + EntitySlots(entities));
    assert now + SchemaSlots(schemas) + EntitySlots(entities) + DefinitionSlots(definitions) == AllSlots(before, after);
    ListedInAllSlots(before, after, facts);
    facts := Sort(facts);
  }

  // ---- Admission ----

  datatype Side = Before | After

  datatype DeltaResult =
    | Delta(facts: seq<Fact>)
    | UnsupportedContract(contract: string)
    | DocumentIdMismatch(before: DocumentId, after: DocumentId)
    | InvalidInput(side: Side)
    | NotCalculated(side: Side)
    | InvalidDefinitions(side: Side)

  const SEMANTIC_DELTA_V2 := "tachiko.semantic-delta/v2"

  // Whether a state validates, and what it calculates to, is decided elsewhere.
  datatype Validation<!C> = Validation(
    core: DocumentState -> bool,
    constraints: (DocumentState, C) -> bool,
    definitions: DocumentState -> bool
  )

  // The two states with their calculations, where they have one.
  datatype Comparison<C> = Comparison(before: DocumentState, after: DocumentState, calculated: Option<C>, recalculated: Option<C>)
  {
    function State(side: Side): DocumentState {
      if side.Before? then before else after
    }

    function Calculation(side: Side): Option<C> {
      if side.Before? then calculated else recalculated
    }
  }

  // What is checked of both states, one stage after the other.
  datatype Stage = CoreStage | CalculationStage | ConstraintStage | DefinitionStage

  function Position(stage: Stage): nat {
    match stage
    case CoreStage => 0
    case CalculationStage => 1
    case ConstraintStage => 2
    case DefinitionStage => 3
  }

  predicate Passes<C>(v: Validation<C>, c: Comparison<C>, stage: Stage, side: Side) {
    match stage
    case CoreStage => v.core(c.State(side))
    case CalculationStage => c.Calculation(side).Some?
    case ConstraintStage => c.Calculation(side).Some? && v.constraints(c.State(side), c.Calculation(side).value)
    case DefinitionStage => v.definitions(c.State(side))
  }

  predicate PassesBoth<C>(v: Validation<C>, c: Comparison<C>, stage: Stage) {
    Passes(v, c, stage, Before) && Passes(v, c, stage, After)
  }

  // A side is refused at a stage when it fails there, both sides passed every
  // earlier stage, and the side before it passed this one.
  ghost predicate RefusedAt<C>(v: Validation<C>, c: Comparison<C>, stage: Stage, side: Side) {
    && !Passes(v, c, stage, side)
    && (side.After? ==> Passes(v, c, stage, Before))
    && forall earlier: Stage :: Position(earlier) < Position(stage) ==> PassesBoth(v, c, earlier)
  }

  function Refusal(stage: Stage, side: Side): DeltaResult {
    match stage
    case CoreStage => InvalidInput(side)
    case CalculationStage => NotCalculated(side)
    case ConstraintStage => InvalidInput(side)
    case DefinitionStage => InvalidDefinitions(side)
  }

  ghost predicate Refuses<C>(v: Validation<C>, c: Comparison<C>, r: DeltaResult) {
    exists stage, side :: RefusedAt(v, c, stage, side) && r == Refusal(stage, side)
  }

  // What a comparison answers: the first failed check, or the canonical facts.
  ghost predicate Answers<C>(v: Validation<C>, contract: string, c: Comparison<C>, r: DeltaResult) {
    if contract != SEMANTIC_DELTA_V2 then r == UnsupportedContract(contract)
    else if c.before.id != c.after.id then r == DocumentIdMismatch(c.before.id, c.after.id)
    else if r.Delta? then (forall stage :: PassesBoth(v, c, stage)) && IsDelta(c.before, c.after, r.facts)
    else Refuses(v, c, r)
  }

  lemma RefusedOnce<C>(v: Validation<C>, c: Comparison<C>, stage: Stage, side: Side, stage': Stage, side': Side)
    requires RefusedAt(v, c, stage, side) && RefusedAt(v, c, stage', side')
    ensures stage == stage' && side == side'
  {
    assert Position(stage) < Position(stage') ==> PassesBoth(v, c, stage);
    assert Position(stage') < Position(stage) ==> PassesBoth(v, c, stage');
  }

  lemma RefusalIsUnique<C>(v: Validation<C>, c: Comparison<C>, r: DeltaResult, r': DeltaResult)
    requires Refuses(v, c, r) && Refuses(v, c, r')
    ensures r == r'
  {
    var stage, side :| RefusedAt(v, c, stage, side) && r == Refusal(stage, side);
    var stage', side' :| RefusedAt(v, c, stage', side') && r' == Refusal(stage', side');
    RefusedOnce(v, c, stage, side, stage', side');
  }

  lemma RefusalIsFailure<C>(v: Validation<C>, c: Comparison<C>, r: DeltaResult)
    ensures Refuses(v, c, r) ==> exists stage :: !PassesBoth(v, c, stage)
  {
    if stage, side :| RefusedAt(v, c, stage, side) && r == Refusal(stage, side) {
      assert !PassesBoth(v, c, stage);
    }
  }

  // There is one answer.
  lemma AnswerIsUnique<C>(v: Validation<C>, contract: string, c: Comparison<C>, r: DeltaResult, r': DeltaResult)
    requires Answers(v, contract, c, r) && Answers(v, contract, c, r')
    ensures r == r'
  {
    RefusalIsFailure(v, c, r);
    RefusalIsFailure(v, c, r');
    if contract == SEMANTIC_DELTA_V2 && c.before.id == c.after.id {
      if r.Delta? {
        assert forall fact :: fact in r.facts <==> fact in r'.facts;
        IncreasingFactsAreUnique(r.facts, r'.facts);
      } else {
        RefusalIsUnique(v, c, r, r');
      }
    }
  }

  // admit_delta_inputs: the selector, the ids and the core of each state.
  method AdmitDeltaInputs<C>(contract: string, v: Validation<C>, c: Comparison<C>) returns (refusal: Option<DeltaResult>)
    ensures refusal.Some? ==> Answers(v, contract, c, refusal.value)
    ensures refusal == None ==> contract == SEMANTIC_DELTA_V2 && c.before.id == c.after.id && PassesBoth(v, c, CoreStage)
  {
    if contract != SEMANTIC_DELTA_V2 {
      return Some(UnsupportedContract(contract));
    }
    if c.before.id != c.after.id {
      return Some(DocumentIdMismatch(c.before.id, c.after.id));
    }
    if !v.core(c.before) {
      assert RefusedAt(v, c, CoreStage, Before);
      return Some(InvalidInput(Before));
    }
    if !v.core(c.after) {
      assert RefusedAt(v, c, CoreStage, After);
      return Some(InvalidInput(After));
    }
    return None;
  }

  // compare_admitted_documents: the complete constraints of both states, then
  // the saved definitions of both, then the facts.
  method CompareAdmittedDocuments<C>(v: Validation<C>, c: Comparison<C>, calculated: C, recalculated: C) returns (r: DeltaResult)
    requires c.before.id == c.after.id && PassesBoth(v, c, CoreStage)
    requires c.calculated == Some(calculated) && c.recalculated == Some(recalculated)
    ensures Answers(v, SEMANTIC_DELTA_V2, c, r)
  {
    assert PassesBoth(v, c, CalculationStage);
    if !v.constraints(c.before, calculated) {
      assert RefusedAt(v, c, ConstraintStage, Before);
      return InvalidInput(Before);
    }
    if !v.constraints(c.after, recalculated) {
      assert RefusedAt(v, c, ConstraintStage, After);
      return InvalidInput(After);
    }
    assert PassesBoth(v, c, ConstraintStage);
    if !v.definitions(c.before) {
      assert RefusedAt(v, c, DefinitionStage, Before);
      return InvalidDefinitions(Before);
    }
    if !v.definitions(c.after) {
      assert RefusedAt(v, c, DefinitionStage, After);
      return InvalidDefinitions(After);
    }
    var facts := CompareStates(c.before, c.after);
    r := Delta(facts);
  }

  // canonical_delta: the states are calculated once their cores are admitted.
  method CanonicalDeltaOf<C>(
    contract: string, v: Validation<C>, calculate: DocumentState -> Option<C>, before: DocumentState, after: DocumentState
  ) returns (r: DeltaResult)
    ensures Answers(v, contract, Comparison(before, after, calculate(before), calculate(after)), r)
    ensures r.Delta? ==> (r.facts == [] <==> before == after)
  {
    var c := Comparison(before, after, calculate(before), calculate(after));
    var refusal := AdmitDeltaInputs(contract, v, c);
    if refusal.Some? {
      r := refusal.value;
    } else if c.calculated == None {
      assert RefusedAt(v, c, CalculationStage, Before);
      r := NotCalculated(Before);
    } else if c.recalculated == None {
      assert RefusedAt(v, c, CalculationStage, After);
      r := NotCalculated(After);
    } else {
      r := CompareAdmittedDocuments(v, c, c.calculated.value, c.recalculated.value);
    }
    if r.Delta? {
      EmptyDeltaMeansEqual(before, after, r.facts);
    }
  }

  // canonical_delta_with_calculations: for the calculations canonical_delta would
  // make, the same question, so the same answer.
  method CanonicalDeltaWithCalculations<C>(
    contract: string, v: Validation<C>, before: DocumentState, after: DocumentState, calculated: C, recalculated: C
  ) returns (r: DeltaResult)
    ensures Answers(v, contract, Comparison(before, after, Some(calculated), Some(recalculated)), r)
    ensures r.Delta? ==> (r.facts == [] <==> before == after)
  {
    var c := Comparison(before, after, Some(calculated), Some(recalculated));
    var refusal := AdmitDeltaInputs(contract, v, c);
    if refusal.Some? {
      r := refusal.value;
    } else {
      r := CompareAdmittedDocuments(v, c, calculated, recalculated);
    }
    if r.Delta? {
      EmptyDeltaMeansEqual(before, after, r.facts);
    }
  }
}
