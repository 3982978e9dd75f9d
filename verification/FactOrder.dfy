/** The order of a canonical list, said about the facts themselves. */
module FactOrders {
  import opened Model
  import opened CanonicalDelta

  predicate AboutSchema(f: Fact) {
    f.SchemaCreated? || f.SchemaDeleted? || f.SchemaKeyChanged? || f.SchemaDisplayNameChanged? || f.SchemaFieldOrderChanged?
  }

  predicate AboutField(f: Fact) {
    || f.FieldCreated? || f.FieldDeleted? || f.FieldKeyChanged? || f.FieldTypeChanged? || f.FieldRequirednessChanged?
    || f.FieldConstraintChanged? || f.FieldDisplayNameChanged? || f.FieldNumberFormatChanged?
  }

  predicate AboutEntity(f: Fact) {
    f.EntityCreated? || f.EntityDeleted? || f.EntityKeyChanged? || f.EntitySchemaChanged?
  }

  predicate AboutValue(f: Fact) {
    f.ValueCreated? || f.ValueChanged? || f.ValueCleared?
  }

  predicate AboutDefinition(f: Fact) {
    f.DefinitionCreated? || f.DefinitionDeleted? || f.DefinitionChanged?
  }

  // Titles, then schemas, fields, entities, values and definitions.
  function Place(f: Fact): nat {
    if f.DocumentTitleChanged? then 0 else if AboutSchema(f) then 1 else if AboutField(f) then 2
    else if AboutEntity(f) then 3 else if AboutValue(f) then 4 else 5
  }

  // Two facts of one subject about different things.
  predicate EarlierThing(f: Fact, g: Fact) {
    || (f.DocumentTitleChanged? && g.DocumentTitleChanged? && f.document < g.document)
    || (AboutSchema(f) && AboutSchema(g) && f.schema < g.schema)
    || (AboutField(f) && AboutField(g) && (f.schema < g.schema || (f.schema == g.schema && f.field < g.field)))
    || (AboutEntity(f) && AboutEntity(g) && f.entity < g.entity)
    || (AboutValue(f) && AboutValue(g) && EarlierCell(f.entity, f.schema, f.field, g.entity, g.schema, g.field))
    || (AboutDefinition(f) && AboutDefinition(g) && f.definition < g.definition)
  }

  predicate EarlierCell(e: EntityId, s: SchemaId, k: FieldId, e': EntityId, s': SchemaId, k': FieldId) {
    e < e' || (e == e' && (s < s' || (s == s' && k < k')))
  }

  predicate SameThing(f: Fact, g: Fact) {
    || (f.DocumentTitleChanged? && g.DocumentTitleChanged? && f.document == g.document)
    || (AboutSchema(f) && AboutSchema(g) && f.schema == g.schema)
    || (AboutField(f) && AboutField(g) && f.schema == g.schema && f.field == g.field)
    || (AboutEntity(f) && AboutEntity(g) && f.entity == g.entity)
    || (AboutValue(f) && AboutValue(g) && f.entity == g.entity && f.schema == g.schema && f.field == g.field)
    || (AboutDefinition(f) && AboutDefinition(g) && f.definition == g.definition)
  }

  predicate Creates(f: Fact) {
    f.SchemaCreated? || f.FieldCreated? || f.EntityCreated? || f.ValueCreated? || f.DefinitionCreated?
  }

  predicate Deletes(f: Fact) {
    f.SchemaDeleted? || f.FieldDeleted? || f.EntityDeleted? || f.DefinitionDeleted?
  }

  predicate Changes(f: Fact) {
    !Creates(f) && !Deletes(f)
  }

  // Two changes of one thing.
  predicate EarlierChange(f: Fact, g: Fact) {
    || (f.SchemaKeyChanged? && (g.SchemaDisplayNameChanged? || g.SchemaFieldOrderChanged?))
    || (f.SchemaDisplayNameChanged? && g.SchemaFieldOrderChanged?)
    || (AboutField(f) && AboutField(g) && Changes(f) && Changes(g) && EarlierFieldChange(f, g))
    || (f.EntityKeyChanged? && g.EntitySchemaChanged?)
    || (f.ValueChanged? && g.ValueCleared?)
  }

  predicate EarlierFieldChange(f: Fact, g: Fact) {
    || (f.FieldKeyChanged? && !g.FieldKeyChanged?)
    || (f.FieldTypeChanged? && !g.FieldKeyChanged? && !g.FieldTypeChanged?)
    || (f.FieldRequirednessChanged? && (g.FieldConstraintChanged? || g.FieldDisplayNameChanged? || g.FieldNumberFormatChanged?))
    || (f.FieldConstraintChanged? && (g.FieldDisplayNameChanged? || g.FieldNumberFormatChanged?))
    || (f.FieldDisplayNameChanged? && g.FieldNumberFormatChanged?)
  }

  // Creations before deletions before changes, and changes in their own order.
  predicate EarlierStep(f: Fact, g: Fact) {
    (Creates(f) && !Creates(g)) || (Deletes(f) && Changes(g)) || EarlierChange(f, g)
  }

  // By subject, then by the thing the facts are about, then by what they do.
  predicate ListedBefore(f: Fact, g: Fact) {
    || Place(f) < Place(g)
    || (Place(f) == Place(g) && (EarlierThing(f, g) || (SameThing(f, g) && EarlierStep(f, g))))
  }

  lemma OneId(a: nat, b: nat)
    ensures IdsLess([a], [b]) <==> a < b
    ensures [a] == [b] <==> a == b
  {
    assert [a][0] == a && [b][0] == b;
  }

  lemma {:induction false} OneMoreId(a: nat, b: nat, more: seq<nat>, more': seq<nat>)
    ensures IdsLess([a] + more, [b] + more') <==> a < b || (a == b && IdsLess(more, more'))
    ensures [a] + more == [b] + more' <==> a == b && more == more'
  {
    var s, t := [a] + more, [b] + more';
    assert s[1..] == more && t[1..] == more' && s[0] == a && t[0] == b;
  }

  lemma TwoIds(a: nat, b: nat, a': nat, b': nat)
    ensures IdsLess([a, b], [a', b']) <==> a < a' || (a == a' && b < b')
    ensures [a, b] == [a', b'] <==> a == a' && b == b'
  {
    OneId(b, b');
    OneMoreId(a, a', [b], [b']);
    assert [a] + [b] == [a, b] && [a'] + [b'] == [a', b'];
  }

  lemma ThreeIds(a: nat, b: nat, c: nat, a': nat, b': nat, c': nat)
    ensures IdsLess([a, b, c], [a', b', c']) <==> EarlierCell(a, b, c, a', b', c')
    ensures [a, b, c] == [a', b', c'] <==> a == a' && b == b' && c == c'
  {
    TwoIds(b, c, b', c');
    OneMoreId(a, a', [b, c], [b', c']);
    assert [a] + [b, c] == [a, b, c] && [a'] + [b', c'] == [a', b', c'];
  }

  lemma CategoryIsPlace(f: Fact)
    ensures FactKey(f).category == Place(f)
  {
  }

  lemma SchemaFacts(f: Fact, g: Fact)
    requires AboutSchema(f) && AboutSchema(g)
    ensures KeyLess(FactKey(f), FactKey(g)) <==> ListedBefore(f, g)
  {
    assert FactKey(f).ids == [f.schema] && FactKey(g).ids == [g.schema];
    OneId(f.schema, g.schema);
  }

  lemma FieldIds(f: Fact)
    requires AboutField(f)
    ensures FactKey(f).ids == [f.schema, f.field]
  {
  }

  lemma FieldKinds(f: Fact, g: Fact)
    requires AboutField(f) && AboutField(g)
    ensures FactKey(f).kind < FactKey(g).kind <==> EarlierStep(f, g)
  {
  }

  lemma FieldFacts(f: Fact, g: Fact, a: OrderingKey, b: OrderingKey)
    requires AboutField(f) && AboutField(g) && a.category == b.category
    requires a.ids == [f.schema, f.field] && b.ids == [g.schema, g.field]
    requires a.kind < b.kind <==> EarlierStep(f, g)
    ensures KeyLess(a, b) <==> ListedBefore(f, g)
  {
    TwoIds(f.schema, f.field, g.schema, g.field);
    OnlyAField(f);
    OnlyAField(g);
  }

  lemma OnlyAField(f: Fact)
    requires AboutField(f)
    ensures !f.DocumentTitleChanged? && !AboutSchema(f) && !AboutEntity(f) && !AboutValue(f) && !AboutDefinition(f)
  {
  }

  lemma EntityFacts(f: Fact, g: Fact)
    requires AboutEntity(f) && AboutEntity(g)
    ensures KeyLess(FactKey(f), FactKey(g)) <==> ListedBefore(f, g)
  {
    assert FactKey(f).ids == [f.entity] && FactKey(g).ids == [g.entity];
    OneId(f.entity, g.entity);
  }

  lemma ValueFacts(f: Fact, g: Fact)
    requires AboutValue(f) && AboutValue(g)
    ensures KeyLess(FactKey(f), FactKey(g)) <==> ListedBefore(f, g)
  {
    assert FactKey(f).ids == [f.entity, f.schema, f.field] && FactKey(g).ids == [g.entity, g.schema, g.field];
    ThreeIds(f.entity, f.schema, f.field, g.entity, g.schema, g.field);
  }

  lemma DefinitionFacts(f: Fact, g: Fact)
    requires AboutDefinition(f) && AboutDefinition(g)
    ensures KeyLess(FactKey(f), FactKey(g)) <==> ListedBefore(f, g)
  {
    assert FactKey(f).ids == [f.definition] && FactKey(g).ids == [g.definition];
    OneId(f.definition, g.definition);
  }

  lemma TitleFacts(f: Fact, g: Fact)
    requires f.DocumentTitleChanged? && g.DocumentTitleChanged?
    ensures KeyLess(FactKey(f), FactKey(g)) <==> ListedBefore(f, g)
  {
    OneId(f.document, g.document);
  }

  // One fact is sorted before another just when it is listed before it.
  lemma KeysFollowFacts(f: Fact, g: Fact)
    ensures KeyLess(FactKey(f), FactKey(g)) <==> ListedBefore(f, g)
  {
    CategoryIsPlace(f);
    CategoryIsPlace(g);
    if Place(f) == Place(g) {
      SameSubject(f, g);
    }
  }

  lemma SameSubject(f: Fact, g: Fact)
    requires Place(f) == Place(g)
    ensures KeyLess(FactKey(f), FactKey(g)) <==> ListedBefore(f, g)
  {
    if AboutSchema(f) {
      SchemaFacts(f, g);
    } else if AboutField(f) {
      FieldIds(f);
      FieldIds(g);
      FieldKinds(f, g);
      FieldFacts(f, g, FactKey(f), FactKey(g));
    } else if AboutEntity(f) {
      EntityFacts(f, g);
    } else if AboutValue(f) {
      ValueFacts(f, g);
    } else if AboutDefinition(f) {
      DefinitionFacts(f, g);
    } else {
      TitleFacts(f, g);
    }
  }

  // A canonical list has every fact before the facts listed after it.
  lemma FactsInOrder(before: DocumentState, after: DocumentState, facts: seq<Fact>, i: nat, j: nat)
    requires IsDelta(before, after, facts) && i < |facts| && j < |facts|
    ensures i < j <==> ListedBefore(facts[i], facts[j])
  {
    KeysFollowFacts(facts[i], facts[j]);
    KeyOrder(FactKey(facts[i]), FactKey(facts[j]), FactKey(facts[i]));
  }
}
