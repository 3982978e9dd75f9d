/** Cells and columns in the ascending order a BTreeMap keyed by them has. */
module FieldOrder {
  import opened Model
  import opened Ordered

  predicate AtMost(a: FieldRef, b: FieldRef) {
    a.entity < b.entity || (a.entity == b.entity && a.field <= b.field)
  }

  function EntitiesOf(cells: set<FieldRef>): set<EntityId> {
    set c | c in cells :: c.entity
  }

  function FieldsOf(cells: set<FieldRef>, entity: EntityId): set<FieldId> {
    set c | c in cells && c.entity == entity :: c.field
  }

  lemma SomeEntity(cells: set<FieldRef>)
    requires cells != {}
    ensures EntitiesOf(cells) != {}
  {
    var c :| c in cells;
    assert c.entity in EntitiesOf(cells);
  }

  lemma SomeField(cells: set<FieldRef>, entity: EntityId)
    requires entity in EntitiesOf(cells)
    ensures FieldsOf(cells, entity) != {}
  {
    var c :| c in cells && c.entity == entity;
    assert c.field in FieldsOf(cells, entity);
  }

  // The first cell in order.
  function LeastCell(cells: set<FieldRef>): (least: FieldRef)
    requires cells != {}
    ensures least in cells && forall c :: c in cells ==> AtMost(least, c)
  {
    SomeEntity(cells);
    var entity := Least(EntitiesOf(cells));
    SomeField(cells, entity);
    var field := Least(FieldsOf(cells, entity));
    assert forall c :: c in cells ==> c.entity in EntitiesOf(cells);
    assert forall c :: c in cells && c.entity == entity ==> c.field in FieldsOf(cells, entity);
    FieldRef(entity, field)
  }

  predicate ColumnAtMost(a: ColumnRef, b: ColumnRef) {
    a.schema < b.schema || (a.schema == b.schema && a.field <= b.field)
  }

  // The first column in order: columns sort as cells of their schema do.
  function LeastColumn(columns: set<ColumnRef>): (least: ColumnRef)
    requires columns != {}
    ensures least in columns && forall k :: k in columns ==> ColumnAtMost(least, k)
  {
    var cells := set k | k in columns :: FieldRef(k.schema, k.field);
    assert forall k :: k in columns ==> FieldRef(k.schema, k.field) in cells;
    assert cells != {} by { var k :| k in columns; assert FieldRef(k.schema, k.field) in cells; }
    var least := LeastCell(cells);
    ColumnRef(least.entity, least.field)
  }
}
