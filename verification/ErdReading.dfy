/** figura/scripts/erd-d2.mjs, read back: a reader of diagram source takes the lines one by
    one. What it finds in a diagram, in terms of the columns and the flags alone. */
module ErdReading {
  import opened Optional
  import opened Names
  import opened ErdTypes
  import opened ErdModel
  import opened ErdDraw

  // A table box at its path, with its rows.
  datatype Box = Box(path: Path, rows: seq<Column>)

  // What is open, and what was closed so far.
  datatype Reader = Reader(domain: Option<Name>, table: Option<Box>, boxes: seq<Box>, edges: seq<Relation>)

  const AT_START := Reader(None, None, [], [])

  // Domains hold tables, tables hold rows of their own, and edges stand outside of both.
  function ReadLine(r: Reader, line: Line): Option<Reader> {
    match line
    case DomainOpen(d) => if r.domain.None? && r.table.None? then Some(r.(domain := Some(d))) else None
    case DomainClose => if r.domain.Some? && r.table.None? then Some(r.(domain := None)) else None
    case TableOpen(t) => if r.table.None? then Some(r.(table := Some(Box(Path(r.domain, t), [])))) else None
    case Row(owner, column) =>
      if r.table.Some? && r.table.value.path.table == owner
      then Some(r.(table := Some(Box(r.table.value.path, r.table.value.rows + [column]))))
      else None
    case TableClose => if r.table.Some? then Some(r.(table := None, boxes := r.boxes + [r.table.value])) else None
    case Edge(relation, _, _) => if r.domain.None? && r.table.None? then Some(r.(edges := r.edges + [relation])) else None
  }

  // None for lines that are out of place.
  function Read(r: Reader, lines: seq<Line>): Option<Reader> {
    if lines == [] then Some(r)
    else
      var front := Read(r, lines[..|lines| - 1]);
      if front.None? then None else ReadLine(front.value, lines[|lines| - 1])
  }

  lemma {:induction false} ReadBoth(r: Reader, a: seq<Line>, mid: Reader, b: seq<Line>)
    requires Read(r, a) == Some(mid)
    ensures Read(r, a + b) == Read(mid, b)
  {
    if b == [] {
      assert a + b == a;
    } else {
      ReadBoth(r, a, mid, b[..|b| - 1]);
      LastOfConcat(a, b);
    }
  }

  lemma ReadOne(r: Reader, line: Line)
    ensures Read(r, [line]) == ReadLine(r, line)
  {
    assert [line][..0] == [];
  }

  // ----- which columns are shown

  // A relation end is always shown. Any other column is shown unless only key columns are
  // wanted and it is none, or service columns are hidden and it has the name of one.
  predicate Shown(relations: seq<Relation>, table: Name, column: Column, options: Options) {
    var key := ColumnKey(End(table, column.name));
    || (exists r :: r in relations && (ColumnKey(r.source) == key || ColumnKey(r.target) == key))
    || ((!options.keyColumns || column.primaryKey || column.unique || column.references != [])
        && (!options.hideServiceColumns
            || (column.name != "created_at" && column.name != "updated_at" && column.name != "deleted_at"
                && column.name != "createdAt" && column.name != "updatedAt" && column.name != "deletedAt")))
  }

  // The columns shown, in the order of the table.
  ghost function ShownColumns(relations: seq<Relation>, table: Name, columns: seq<Column>, options: Options): seq<Column> {
    if columns == [] then []
    else
      var last := |columns| - 1;
      ShownColumns(relations, table, columns[..last], options)
      + if Shown(relations, table, columns[last], options) then [columns[last]] else []
  }

  lemma VisibleIsShown(relations: seq<Relation>, table: Name, column: Column, options: Options)
    ensures IsVisible(table, column, RelationEndColumns(relations), options) <==> Shown(relations, table, column, options)
  {
  }

  lemma {:induction false} ShownColumnsHold(relations: seq<Relation>, table: Name, columns: seq<Column>, options: Options, column: Column)
    ensures column in ShownColumns(relations, table, columns, options)
            <==> column in columns && Shown(relations, table, column, options)
  {
    if columns != [] {
      var last := |columns| - 1;
      ShownColumnsHold(relations, table, columns[..last], options, column);
      assert columns == columns[..last] + [columns[last]];
    }
  }

  // ----- reading tables

  ghost function BoxOf(relations: seq<Relation>, table: Table, options: Options): Box {
    Box(PathOf(table), ShownColumns(relations, table.name, table.columns, options))
  }

  ghost function Boxes(relations: seq<Relation>, tables: seq<Table>, options: Options): seq<Box> {
    seq(|tables|, i requires 0 <= i < |tables| => BoxOf(relations, tables[i], options))
  }

  // One column more, where the columns before were read.
  lemma NextRowIsRead(r: Reader, path: Path, before: seq<Line>, shown: seq<Column>, column: Column)
    requires Read(r, before) == Some(r.(table := Some(Box(path, shown))))
    ensures Read(r, before + [Row(path.table, column)]) == Some(r.(table := Some(Box(path, shown + [column]))))
  {
    var mid := r.(table := Some(Box(path, shown)));
    ReadBoth(r, before, mid, [Row(path.table, column)]);
    ReadOne(mid, Row(path.table, column));
  }

  lemma RowsUnfold(table: Name, relations: seq<Relation>, columns: seq<Column>, options: Options)
    requires columns != []
    ensures var n := |columns| - 1;
            var ends := RelationEndColumns(relations);
            var shows := Shown(relations, table, columns[n], options);
            && Rows(table, columns, ends, options)
               == (if shows then Rows(table, columns[..n], ends, options) + [Row(table, columns[n])] else Rows(table, columns[..n], ends, options))
            && ShownColumns(relations, table, columns, options)
               == (if shows then ShownColumns(relations, table, columns[..n], options) + [columns[n]]
                   else ShownColumns(relations, table, columns[..n], options))
  {
    var n := |columns| - 1;
    VisibleIsShown(relations, table, columns[n], options);
    assert Rows(table, columns[..n], RelationEndColumns(relations), options) + [] == Rows(table, columns[..n], RelationEndColumns(relations), options);
    assert ShownColumns(relations, table, columns[..n], options) + [] == ShownColumns(relations, table, columns[..n], options);
  }

  lemma {:induction false} RowsAreRead(r: Reader, path: Path, relations: seq<Relation>, columns: seq<Column>, options: Options)
    requires r.table == Some(Box(path, []))
    ensures Read(r, Rows(path.table, columns, RelationEndColumns(relations), options))
            == Some(r.(table := Some(Box(path, ShownColumns(relations, path.table, columns, options)))))
  {
    if columns != [] {
      var n := |columns| - 1;
      RowsAreRead(r, path, relations, columns[..n], options);
      RowsUnfold(path.table, relations, columns, options);
      NextRowIsRead(r, path, Rows(path.table, columns[..n], RelationEndColumns(relations), options),
                    ShownColumns(relations, path.table, columns[..n], options), columns[n]);
    }
  }

  lemma TableIsRead(r: Reader, table: Table, relations: seq<Relation>, options: Options)
    requires r.table.None? && r.domain == table.domain
    ensures Read(r, TableLines(table, RelationEndColumns(relations), options))
            == Some(r.(boxes := r.boxes + [BoxOf(relations, table, options)]))
  {
    var ends := RelationEndColumns(relations);
    var rows := Rows(table.name, table.columns, ends, options);
    var entered := r.(table := Some(Box(PathOf(table), [])));
    var filled := r.(table := Some(BoxOf(relations, table, options)));
    ReadOne(r, TableOpen(table.name));
    RowsAreRead(entered, PathOf(table), relations, table.columns, options);
    ReadBoth(r, [TableOpen(table.name)], entered, rows);
    ReadBoth(r, [TableOpen(table.name)] + rows, filled, [TableClose]);
    ReadOne(filled, TableClose);
  }

  lemma BoxesPush(relations: seq<Relation>, tables: seq<Table>, options: Options)
    requires tables != []
    ensures Boxes(relations, tables, options)
            == Boxes(relations, tables[..|tables| - 1], options) + [BoxOf(relations, tables[|tables| - 1], options)]
  {
  }

  lemma {:induction false} TablesAreRead(r: Reader, tables: seq<Table>, relations: seq<Relation>, options: Options)
    requires r.table.None? && forall i | 0 <= i < |tables| :: tables[i].domain == r.domain
    ensures Read(r, AllTableLines(tables, RelationEndColumns(relations), options))
            == Some(r.(boxes := r.boxes + Boxes(relations, tables, options)))
  {
    if tables != [] {
      var last := |tables| - 1;
      var ends := RelationEndColumns(relations);
      var mid := r.(boxes := r.boxes + Boxes(relations, tables[..last], options));
      TablesAreRead(r, tables[..last], relations, options);
      TableIsRead(mid, tables[last], relations, options);
      ReadBoth(r, AllTableLines(tables[..last], ends, options), mid, TableLines(tables[last], ends, options));
      BoxesPush(relations, tables, options);
      Regrouped(r.boxes, Boxes(relations, tables[..last], options), [BoxOf(relations, tables[last], options)]);
    } else {
      assert r.boxes + Boxes(relations, tables, options) == r.boxes;
    }
  }

  lemma Regrouped<T>(a: seq<T>, b: seq<T>, c: seq<T>)
    ensures a + (b + c) == a + b + c
  {
  }

  // ----- reading domains

  // The tables in the order of the diagram.
  ghost function ByDomains(domains: seq<Name>, tables: seq<Table>): seq<Table> {
    if domains == [] then []
    else var last := |domains| - 1; ByDomains(domains[..last], tables) + InDomain(tables, Some(domains[last]))
  }

  lemma DomainIsRead(r: Reader, domain: Name, tables: seq<Table>, relations: seq<Relation>, options: Options)
    requires r.table.None? && r.domain.None?
    ensures Read(r, DomainLines(domain, tables, RelationEndColumns(relations), options))
            == Some(r.(boxes := r.boxes + Boxes(relations, InDomain(tables, Some(domain)), options)))
  {
    var inside := InDomain(tables, Some(domain));
    var lines := AllTableLines(inside, RelationEndColumns(relations), options);
    var entered := r.(domain := Some(domain));
    var filled := entered.(boxes := r.boxes + Boxes(relations, inside, options));
    InDomainIsInside(tables, Some(domain));
    ReadOne(r, DomainOpen(domain));
    TablesAreRead(entered, inside, relations, options);
    ReadBoth(r, [DomainOpen(domain)], entered, lines);
    ReadBoth(r, [DomainOpen(domain)] + lines, filled, [DomainClose]);
    ReadOne(filled, DomainClose);
  }

  lemma BoxesConcat(relations: seq<Relation>, a: seq<Table>, b: seq<Table>, options: Options)
    ensures Boxes(relations, a + b, options) == Boxes(relations, a, options) + Boxes(relations, b, options)
  {
  }

  lemma {:induction false} DomainsAreRead(r: Reader, domains: seq<Name>, tables: seq<Table>, relations: seq<Relation>, options: Options)
    requires r.table.None? && r.domain.None?
    ensures Read(r, AllDomainLines(domains, tables, RelationEndColumns(relations), options))
            == Some(r.(boxes := r.boxes + Boxes(relations, ByDomains(domains, tables), options)))
  {
    if domains != [] {
      var last := |domains| - 1;
      var ends := RelationEndColumns(relations);
      var mid := r.(boxes := r.boxes + Boxes(relations, ByDomains(domains[..last], tables), options));
      DomainsAreRead(r, domains[..last], tables, relations, options);
      DomainIsRead(mid, domains[last], tables, relations, options);
      ReadBoth(r, AllDomainLines(domains[..last], tables, ends, options), mid, DomainLines(domains[last], tables, ends, options));
      BoxesConcat(relations, ByDomains(domains[..last], tables), InDomain(tables, Some(domains[last])), options);
      Regrouped(r.boxes, Boxes(relations, ByDomains(domains[..last], tables), options),
                Boxes(relations, InDomain(tables, Some(domains[last])), options));
    } else {
      assert r.boxes + Boxes(relations, ByDomains(domains, tables), options) == r.boxes;
    }
  }

  lemma {:induction false} EdgesAreRead(r: Reader, tables: seq<Table>, relations: seq<Relation>)
    requires r.table.None? && r.domain.None?
    ensures Read(r, EdgeLines(tables, relations)) == Some(r.(edges := r.edges + relations))
  {
    if relations != [] {
      var front, last := relations[..|relations| - 1], relations[|relations| - 1];
      var mid := r.(edges := r.edges + front);
      EdgesAreRead(r, tables, front);
      EdgeLinesPush(tables, relations);
      ReadBoth(r, EdgeLines(tables, front), mid, [EdgeLine(tables, last)]);
      ReadOne(mid, EdgeLine(tables, last));
      assert relations == front + [last];
      Regrouped(r.edges, front, [last]);
    } else {
      assert r.edges + [] == r.edges;
    }
  }

  // The tables of a part in the order of its diagram.
  ghost function InDiagramOrder(model: Model, part: seq<Name>): seq<Table> {
    var tables := PartTables(model, part);
    ByDomains(Sort(DomainNames(tables)), tables) + InDomain(tables, None)
  }

  lemma ReadThree(r: Reader, a: seq<Line>, one: Reader, b: seq<Line>, two: Reader, c: seq<Line>, three: Reader)
    requires Read(r, a) == Some(one) && Read(one, b) == Some(two) && Read(two, c) == Some(three)
    ensures Read(r, a + b + c) == Some(three)
  {
    ReadBoth(r, a, one, b);
    ReadBoth(r, a + b, two, c);
  }

  // A reader outside of all domains and tables that has found these boxes and edges.
  function Outside(boxes: seq<Box>, edges: seq<Relation>): Reader {
    Reader(None, None, boxes, edges)
  }

  lemma DomainsOfDiagram(tables: seq<Table>, relations: seq<Relation>, options: Options)
    ensures var domains := Sort(DomainNames(tables));
            Read(AT_START, AllDomainLines(domains, tables, RelationEndColumns(relations), options))
            == Some(Outside(Boxes(relations, ByDomains(domains, tables), options), []))
  {
    var domains := Sort(DomainNames(tables));
    DomainsAreRead(AT_START, domains, tables, relations, options);
    assert [] + Boxes(relations, ByDomains(domains, tables), options) == Boxes(relations, ByDomains(domains, tables), options);
  }

  lemma OutsideOfDiagram(tables: seq<Table>, inDomains: seq<Table>, relations: seq<Relation>, options: Options)
    ensures Read(Outside(Boxes(relations, inDomains, options), []), AllTableLines(InDomain(tables, None), RelationEndColumns(relations), options))
            == Some(Outside(Boxes(relations, inDomains + InDomain(tables, None), options), []))
  {
    InDomainIsInside(tables, None);
    TablesAreRead(Outside(Boxes(relations, inDomains, options), []), InDomain(tables, None), relations, options);
    BoxesConcat(relations, inDomains, InDomain(tables, None), options);
  }

  lemma EdgesOfPart(boxes: seq<Box>, tables: seq<Table>, relations: seq<Relation>)
    ensures Read(Outside(boxes, []), EdgeLines(tables, relations)) == Some(Outside(boxes, relations))
  {
    EdgesAreRead(Outside(boxes, []), tables, relations);
    assert [] + relations == relations;
  }

  lemma DrawingIsReadAs(model: Model, part: seq<Name>, options: Options)
    ensures Read(AT_START, Drawing(model, part, options))
            == Some(Outside(Boxes(model.relations, InDiagramOrder(model, part), options),
                            SortBy(RelationSortKey, Inside(model.relations, Elements(part)))))
  {
    var tables := PartTables(model, part);
    var ends := RelationEndColumns(model.relations);
    var domains := Sort(DomainNames(tables));
    var edges := SortBy(RelationSortKey, Inside(model.relations, Elements(part)));
    var one := Outside(Boxes(model.relations, ByDomains(domains, tables), options), []);
    var boxes := Boxes(model.relations, InDiagramOrder(model, part), options);
    DomainsOfDiagram(tables, model.relations, options);
    OutsideOfDiagram(tables, ByDomains(domains, tables), model.relations, options);
    EdgesOfPart(boxes, model.tables, edges);
    ReadThree(AT_START, AllDomainLines(domains, tables, ends, options), one, AllTableLines(InDomain(tables, None), ends, options),
              Outside(boxes, []), EdgeLines(model.tables, edges), Outside(boxes, edges));
  }

  // ----- the order of the tables

  // Domains by name, then what lies outside of all; within a domain tables by name.
  predicate PathBefore(a: Path, b: Path) {
    match (a.domain, b.domain)
    case (Some(d), Some(e)) => Less(d, e) || (d == e && Less(a.table, b.table))
    case (Some(_), None) => true
    case (None, Some(_)) => false
    case (None, None) => Less(a.table, b.table)
  }

  ghost predicate PathsAscend(tables: seq<Table>) {
    forall i, j | 0 <= i < j < |tables| :: PathBefore(PathOf(tables[i]), PathOf(tables[j]))
  }

  ghost predicate NamesAscend(tables: seq<Table>) {
    forall i, j | 0 <= i < j < |tables| :: Less(tables[i].name, tables[j].name)
  }

  lemma PartNamesAscend(model: Model, part: seq<Name>)
    requires DistinctTables(model.tables)
    ensures NamesAscend(PartTables(model, part))
  {
    var kept := KeptTables(model.tables, Elements(part));
    KeptTablesAreThoseNamed(model.tables, Elements(part));
    SortByKeeps(NameOf, kept);
    SortedAreDistinct(kept);
  }

  lemma {:induction false} InDomainHasOnly(tables: seq<Table>, domain: Option<Name>)
    ensures forall table | table in InDomain(tables, domain) :: table in tables && table.domain == domain
  {
    if tables != [] {
      InDomainHasOnly(tables[..|tables| - 1], domain);
    }
  }

  lemma {:induction false} InDomainAscends(tables: seq<Table>, domain: Option<Name>)
    requires NamesAscend(tables)
    ensures NamesAscend(InDomain(tables, domain))
  {
    if tables != [] {
      var front, last := tables[..|tables| - 1], tables[|tables| - 1];
      InDomainAscends(front, domain);
      InDomainHasOnly(front, domain);
      assert forall i | 0 <= i < |front| :: Less(front[i].name, last.name);
    }
  }

  lemma AscendConcat(a: seq<Table>, b: seq<Table>)
    requires PathsAscend(a) && PathsAscend(b)
    requires forall s, t | s in a && t in b :: PathBefore(PathOf(s), PathOf(t))
    ensures PathsAscend(a + b)
  {
    var both := a + b;
    forall i, j | 0 <= i < j < |both| ensures PathBefore(PathOf(both[i]), PathOf(both[j])) {
      if i < |a| <= j {
        assert both[i] in a && both[j] in b;
      }
    }
  }

  lemma GroupAscends(tables: seq<Table>, domain: Option<Name>)
    requires NamesAscend(tables)
    ensures PathsAscend(InDomain(tables, domain))
  {
    InDomainAscends(tables, domain);
    InDomainIsInside(tables, domain);
  }

  lemma {:induction false} ByDomainsHas(domains: seq<Name>, tables: seq<Table>, table: Table)
    ensures table in ByDomains(domains, tables) ==> table in tables && table.domain.Some? && table.domain.value in domains
  {
    if domains != [] {
      var last := |domains| - 1;
      ByDomainsHas(domains[..last], tables, table);
      InDomainHasOnly(tables, Some(domains[last]));
      assert domains == domains[..last] + [domains[last]];
    }
  }

  lemma {:induction false} ByDomainsAscends(domains: seq<Name>, tables: seq<Table>)
    requires NamesAscend(tables) && Increasing(domains)
    ensures PathsAscend(ByDomains(domains, tables))
  {
    if domains != [] {
      var front, last := domains[..|domains| - 1], domains[|domains| - 1];
      ByDomainsAscends(front, tables);
      GroupAscends(tables, Some(last));
      InDomainHasOnly(tables, Some(last));
      forall s, t | s in ByDomains(front, tables) && t in InDomain(tables, Some(last)) ensures PathBefore(PathOf(s), PathOf(t)) {
        ByDomainsHas(front, tables, s);
      }
      AscendConcat(ByDomains(front, tables), InDomain(tables, Some(last)));
    }
  }

  lemma DiagramOrderAscends(model: Model, part: seq<Name>)
    requires DistinctTables(model.tables)
    ensures PathsAscend(InDiagramOrder(model, part))
  {
    var tables := PartTables(model, part);
    var domains := Sort(DomainNames(tables));
    PartNamesAscend(model, part);
    ByDomainsAscends(domains, tables);
    GroupAscends(tables, None);
    InDomainHasOnly(tables, None);
    forall s, t | s in ByDomains(domains, tables) && t in InDomain(tables, None) ensures PathBefore(PathOf(s), PathOf(t)) {
      ByDomainsHas(domains, tables, s);
    }
    AscendConcat(ByDomains(domains, tables), InDomain(tables, None));
  }

  lemma {:induction false} ByDomainsHolds(domains: seq<Name>, tables: seq<Table>, table: Table)
    requires table in tables && table.domain.Some? && table.domain.value in domains
    ensures table in ByDomains(domains, tables)
  {
    var front, last := domains[..|domains| - 1], domains[|domains| - 1];
    if table.domain.value == last {
      var k :| 0 <= k < |tables| && tables[k] == table;
      InDomainHolds(tables, k);
    } else {
      assert domains == front + [last];
      ByDomainsHolds(front, tables, table);
    }
  }

  lemma DiagramOrderHolds(model: Model, part: seq<Name>, table: Table)
    ensures table in InDiagramOrder(model, part) <==> table in model.tables && table.name in part
  {
    var tables := PartTables(model, part);
    var domains := Sort(DomainNames(tables));
    PartTablesHold(model, part, table);
    ByDomainsHas(domains, tables, table);
    InDomainHasOnly(tables, None);
    if table in tables {
      var k :| 0 <= k < |tables| && tables[k] == table;
      InDomainHolds(tables, k);
      if table.domain.Some? {
        assert table.domain.value in DomainNames(tables) && table.domain.value in Elements(domains);
        ByDomainsHolds(domains, tables, table);
      }
    }
  }

  // ----- what a reader finds

  // One box for every table of the part, by domain and then by name, with the columns
  // shown in the order of the table.
  ghost predicate BoxesAre(boxes: seq<Box>, model: Model, part: seq<Name>, options: Options) {
    && (forall table | table in model.tables && table.name in part :: BoxOf(model.relations, table, options) in boxes)
    && (forall box | box in boxes :: IsBoxOfPart(box, model, part, options))
    && (forall i, j | 0 <= i < j < |boxes| :: PathBefore(boxes[i].path, boxes[j].path))
  }

  ghost predicate IsBoxOfPart(box: Box, model: Model, part: seq<Name>, options: Options) {
    exists table :: table in model.tables && table.name in part && box == BoxOf(model.relations, table, options)
  }

  ghost predicate EdgesAscend(edges: seq<Relation>) {
    forall i, j | 0 <= i < j < |edges| ::
      AtMost(ColumnKey(edges[i].source) + ">" + ColumnKey(edges[i].target), ColumnKey(edges[j].source) + ">" + ColumnKey(edges[j].target))
  }

  lemma BoxIsThere(relations: seq<Relation>, tables: seq<Table>, options: Options, table: Table)
    requires table in tables
    ensures BoxOf(relations, table, options) in Boxes(relations, tables, options)
  {
    var k :| 0 <= k < |tables| && tables[k] == table;
    assert Boxes(relations, tables, options)[k] == BoxOf(relations, table, options);
  }

  lemma BoxesOfDiagram(model: Model, part: seq<Name>, options: Options)
    requires DistinctTables(model.tables)
    ensures BoxesAre(Boxes(model.relations, InDiagramOrder(model, part), options), model, part, options)
  {
    var tables := InDiagramOrder(model, part);
    DiagramOrderAscends(model, part);
    forall table | table in model.tables && table.name in part
      ensures BoxOf(model.relations, table, options) in Boxes(model.relations, tables, options)
    {
      DiagramOrderHolds(model, part, table);
      BoxIsThere(model.relations, tables, options, table);
    }
    forall box | box in Boxes(model.relations, tables, options) ensures IsBoxOfPart(box, model, part, options) {
      var k :| 0 <= k < |tables| && Boxes(model.relations, tables, options)[k] == box;
      DiagramOrderHolds(model, part, tables[k]);
    }
  }

  lemma EdgesOfDiagram(relations: seq<Relation>)
    ensures EdgesAscend(SortBy(RelationSortKey, relations))
  {
    SortByKeeps(RelationSortKey, relations);
  }

  // A diagram is well formed, closes all it opens, and is read back as one box for every
  // table of the part, with its shown columns, and the relations inside the part.
  lemma DrawingIsRead(model: Model, part: seq<Name>, options: Options) returns (boxes: seq<Box>, edges: seq<Relation>)
    requires DistinctTables(model.tables)
    ensures Read(AT_START, Drawing(model, part, options)) == Some(Outside(boxes, edges))
    ensures BoxesAre(boxes, model, part, options) && EdgesAscend(edges)
    ensures forall r :: multiset(edges)[r] ==
              if r.source.table in part && r.target.table in part && r.source.table != r.target.table then multiset(model.relations)[r] else 0
  {
    boxes := Boxes(model.relations, InDiagramOrder(model, part), options);
    edges := SortBy(RelationSortKey, Inside(model.relations, Elements(part)));
    DrawingIsReadAs(model, part, options);
    BoxesOfDiagram(model, part, options);
    EdgesOfDiagram(Inside(model.relations, Elements(part)));
    SortByKeeps(RelationSortKey, Inside(model.relations, Elements(part)));
    forall r ensures multiset(edges)[r] ==
              if r.source.table in part && r.target.table in part && r.source.table != r.target.table then multiset(model.relations)[r] else 0
    {
      InsideHolds(model.relations, Elements(part), r);
    }
  }

  // ----- rows, wherever they stand

  lemma {:induction false} RowIsShown(tables: seq<Table>, relations: seq<Relation>, options: Options, owner: Name, column: Column)
    requires Row(owner, column) in AllTableLines(tables, RelationEndColumns(relations), options)
    ensures exists table :: table in tables && table.name == owner && column in table.columns && Shown(relations, owner, column, options)
  {
    var front, last := tables[..|tables| - 1], tables[|tables| - 1];
    var ends := RelationEndColumns(relations);
    if Row(owner, column) in AllTableLines(front, ends, options) {
      RowIsShown(front, relations, options, owner, column);
    } else {
      assert Row(owner, column) in Rows(last.name, last.columns, ends, options);
      RowsAreOwn(last.name, last.columns, ends, options);
      RowsAreVisible(last.name, last.columns, ends, options, column);
      VisibleIsShown(relations, last.name, column, options);
      assert last in tables;
    }
  }

  lemma {:induction false} RowsAreOwn(table: Name, columns: seq<Column>, ends: set<string>, options: Options)
    ensures forall line | line in Rows(table, columns, ends, options) :: line.Row? && line.owner == table
  {
    if columns != [] {
      RowsAreOwn(table, columns[..|columns| - 1], ends, options);
    }
  }

  lemma {:induction false} DomainLineIs(domains: seq<Name>, tables: seq<Table>, ends: set<string>, options: Options, line: Line)
    requires line in AllDomainLines(domains, tables, ends, options)
    ensures exists d :: d in domains && line in DomainLines(d, tables, ends, options)
  {
    var front, last := domains[..|domains| - 1], domains[|domains| - 1];
    assert last in domains;
    if line in AllDomainLines(front, tables, ends, options) {
      DomainLineIs(front, tables, ends, options, line);
    }
  }

  lemma RowOfDrawing(model: Model, part: seq<Name>, options: Options, owner: Name, column: Column)
    requires Row(owner, column) in Drawing(model, part, options)
    ensures exists table :: table in model.tables && table.name in part && table.name == owner
                            && column in table.columns && Shown(model.relations, owner, column, options)
  {
    var tables := PartTables(model, part);
    var ends := RelationEndColumns(model.relations);
    var domains := Sort(DomainNames(tables));
    var row := Row(owner, column);
    var group: seq<Table>;
    if row in AllTableLines(InDomain(tables, None), ends, options) {
      group := InDomain(tables, None);
      InDomainHasOnly(tables, None);
    } else {
      assert row in AllDomainLines(domains, tables, ends, options);
      DomainLineIs(domains, tables, ends, options, row);
      var d :| d in domains && row in DomainLines(d, tables, ends, options);
      group := InDomain(tables, Some(d));
      InDomainHasOnly(tables, Some(d));
    }
    RowIsShown(group, model.relations, options, owner, column);
    var table :| table in group && table.name == owner && column in table.columns && Shown(model.relations, owner, column, options);
    PartTablesHold(model, part, table);
  }

  // A column of a table of the part is a row of its diagram exactly when it is shown.
  lemma ColumnIsRowIff(model: Model, part: seq<Name>, options: Options, table: Table, column: Column)
    requires DistinctTables(model.tables) && table in model.tables && table.name in part
    ensures Row(table.name, column) in Drawing(model, part, options)
            <==> column in table.columns && Shown(model.relations, table.name, column, options)
  {
    if Row(table.name, column) in Drawing(model, part, options) {
      RowOfDrawing(model, part, options, table.name, column);
      var other :| other in model.tables && other.name == table.name && column in other.columns;
      NamesakesAreOne(model.tables, other, table);
    }
    if column in table.columns && Shown(model.relations, table.name, column, options) {
      VisibleIsShown(model.relations, table.name, column, options);
      VisibleColumnIsRow(model, part, options, table, column);
    }
  }
}
