/** The values the ERD pipeline passes around: figura/scripts/erd-model.mjs builds
    them, erd-split.mjs and erd-d2.mjs read them. */
module ErdTypes {
  import opened Optional
  import opened Names

  datatype Column = Column(
    name: Name, typ: string, primaryKey: bool, unique: bool, nullable: bool, references: seq<Name>)

  datatype Table = Table(name: Name, domain: Option<Name>, columns: seq<Column>)

  datatype End = End(table: Name, column: Name)

  datatype Relation = Relation(source: End, target: End, cardinality: string)

  datatype Model = Model(tables: seq<Table>, relations: seq<Relation>)

  function TableNames(tables: seq<Table>): set<Name> {
    set i | 0 <= i < |tables| :: tables[i].name
  }

  // A Map from table name to table holds one entry a table only when names are distinct.
  predicate DistinctTables(tables: seq<Table>) {
    forall i, j | 0 <= i < j < |tables| :: tables[i].name != tables[j].name
  }

  predicate HasColumn(table: Table, column: Name) {
    exists i :: 0 <= i < |table.columns| && table.columns[i].name == column
  }

  predicate EndExists(tables: seq<Table>, end: End) {
    exists i :: 0 <= i < |tables| && tables[i].name == end.table && HasColumn(tables[i], end.column)
  }

  // What a model without problems promises the splitter and the drawing.
  predicate Closed(model: Model) {
    DistinctTables(model.tables)
    && forall r | r in model.relations :: EndExists(model.tables, r.source) && EndExists(model.tables, r.target)
  }

  predicate EndsDeclared(model: Model) {
    forall r | r in model.relations :: r.source.table in TableNames(model.tables) && r.target.table in TableNames(model.tables)
  }

  lemma ClosedEndsDeclared(model: Model)
    requires Closed(model)
    ensures EndsDeclared(model)
  {
  }
}
