/** figura/scripts/erd-d2.mjs: the diagram source of one part, as the lines it writes,
    and what a whole plan of diagrams draws. */
module ErdDraw {
  import opened Optional
  import opened Names
  import opened ErdTypes
  import opened ErdComponents
  import opened ErdModel
  import opened ErdGrowth
  import opened ErdSplitLaws

  datatype Options = Options(hideServiceColumns: bool, keyColumns: bool)

  // `domain.table`, or `table` outside of all domains.
  datatype Path = Path(domain: Option<Name>, table: Name)

  datatype Line =
    | DomainOpen(domain: Name)
    | DomainClose
    | TableOpen(table: Name)
    | Row(owner: Name, column: Column)
    | TableClose
    | Edge(relation: Relation, source: Path, target: Path)

  const SERVICE_COLUMNS: set<Name> := {"created_at", "updated_at", "deleted_at", "createdAt", "updatedAt", "deletedAt"}

  predicate IsKeyColumn(column: Column) {
    column.primaryKey || column.unique || |column.references| > 0
  }

  predicate IsSelfReference(relation: Relation) {
    relation.source.table == relation.target.table
  }

  function RelationEndColumns(relations: seq<Relation>): set<string> {
    (set r | r in relations :: ColumnKey(r.source)) + (set r | r in relations :: ColumnKey(r.target))
  }

  predicate IsVisible(table: Name, column: Column, ends: set<string>, options: Options) {
    ColumnKey(End(table, column.name)) in ends
    || (!(options.keyColumns && !IsKeyColumn(column))
        && !(options.hideServiceColumns && column.name in SERVICE_COLUMNS))
  }

  function Rows(table: Name, columns: seq<Column>, ends: set<string>, options: Options): seq<Line> {
    if columns == [] then []
    else
      var last := |columns| - 1;
      Rows(table, columns[..last], ends, options)
      + if IsVisible(table, columns[last], ends, options) then [Row(table, columns[last])] else []
  }

  function TableLines(table: Table, ends: set<string>, options: Options): seq<Line> {
    [TableOpen(table.name)] + Rows(table.name, table.columns, ends, options) + [TableClose]
  }

  function AllTableLines(tables: seq<Table>, ends: set<string>, options: Options): seq<Line> {
    if tables == [] then []
    else var last := |tables| - 1; AllTableLines(tables[..last], ends, options) + TableLines(tables[last], ends, options)
  }

  function InDomain(tables: seq<Table>, domain: Option<Name>): seq<Table> {
    if tables == [] then []
    else var last := |tables| - 1; InDomain(tables[..last], domain) + if tables[last].domain == domain then [tables[last]] else []
  }

  function DomainLines(domain: Name, tables: seq<Table>, ends: set<string>, options: Options): seq<Line> {
    [DomainOpen(domain)] + AllTableLines(InDomain(tables, Some(domain)), ends, options) + [DomainClose]
  }

  function AllDomainLines(domains: seq<Name>, tables: seq<Table>, ends: set<string>, options: Options): seq<Line> {
    if domains == [] then []
    else
      var last := |domains| - 1;
      AllDomainLines(domains[..last], tables, ends, options) + DomainLines(domains[last], tables, ends, options)
  }

  // ----- sorting

  // byName
  function NameOf(table: Table): Name {
    table.name
  }

  function RelationSortKey(relation: Relation): string {
    ColumnKey(relation.source) + ">" + ColumnKey(relation.target)
  }

  // ----- one diagram

  predicate IsInside(relation: Relation, part: set<Name>) {
    relation.source.table in part && relation.target.table in part && !IsSelfReference(relation)
  }

  function Inside(relations: seq<Relation>, part: set<Name>): seq<Relation> {
    if relations == [] then []
    else var last := |relations| - 1; Inside(relations[..last], part) + if IsInside(relations[last], part) then [relations[last]] else []
  }

  // `tableKey(tableByName.get(name))`: a Map keeps the last table of a name.
  function TableKey(tables: seq<Table>, name: Name): Path {
    if tables == [] then Path(None, name)
    else
      var last := |tables| - 1;
      if tables[last].name == name then Path(tables[last].domain, name) else TableKey(tables[..last], name)
  }

  function EdgeLine(tables: seq<Table>, relation: Relation): Line {
    Edge(relation, TableKey(tables, relation.source.table), TableKey(tables, relation.target.table))
  }

  function EdgeLines(tables: seq<Table>, relations: seq<Relation>): seq<Line> {
    seq(|relations|, i requires 0 <= i < |relations| => EdgeLine(tables, relations[i]))
  }

  function DomainNames(tables: seq<Table>): set<Name> {
    set i | 0 <= i < |tables| && tables[i].domain.Some? :: tables[i].domain.value
  }

  function PartTables(model: Model, part: seq<Name>): seq<Table> {
    SortBy(NameOf, KeptTables(model.tables, Elements(part)))
  }

  function Drawing(model: Model, part: seq<Name>, options: Options): seq<Line> {
    var tables := PartTables(model, part);
    var ends := RelationEndColumns(model.relations);
    AllDomainLines(Sort(DomainNames(tables)), tables, ends, options)
    + AllTableLines(InDomain(tables, None), ends, options)
    + EdgeLines(model.tables, SortBy(RelationSortKey, Inside(model.relations, Elements(part))))
  }

  method PushTables(lines0: seq<Line>, tables: seq<Table>, ends: set<string>, options: Options) returns (lines: seq<Line>)
    ensures lines == lines0 + AllTableLines(tables, ends, options)
  {
    lines := lines0;
    for i := 0 to |tables|
      invariant lines == lines0 + AllTableLines(tables[..i], ends, options)
    {
      assert tables[..i + 1][..i] == tables[..i];
      lines := lines + TableLines(tables[i], ends, options);
    }
    assert tables[..|tables|] == tables;
  }

  method PushDomains(domains: seq<Name>, tables: seq<Table>, ends: set<string>, options: Options) returns (lines: seq<Line>)
    ensures lines == AllDomainLines(domains, tables, ends, options)
  {
    lines := [];
    for i := 0 to |domains|
      invariant lines == AllDomainLines(domains[..i], tables, ends, options)
    {
      assert domains[..i + 1][..i] == domains[..i];
      var before := lines;
      lines := PushTables(lines + [DomainOpen(domains[i])], InDomain(tables, Some(domains[i])), ends, options);
      lines := lines + [DomainClose];
      assert lines == before + DomainLines(domains[i], tables, ends, options);
    }
    assert domains[..|domains|] == domains;
  }

  method PushEdges(lines0: seq<Line>, tables: seq<Table>, relations: seq<Relation>) returns (lines: seq<Line>)
    ensures lines == lines0 + EdgeLines(tables, relations)
  {
    lines := lines0;
    for i := 0 to |relations|
      invariant lines == lines0 + EdgeLines(tables, relations[..i])
    {
      lines := lines + [EdgeLine(tables, relations[i])];
    }
  }

  // A relation between tables the model does not declare has no table key.
  method ErdD2(model: Model, partTableNames: seq<Name>, options: Options) returns (lines: seq<Line>)
    requires EndsDeclared(model)
    ensures lines == Drawing(model, partTableNames, options)
  {
    var tables := PartTables(model, partTableNames);
    var ends := RelationEndColumns(model.relations);
    lines := PushDomains(Sort(DomainNames(tables)), tables, ends, options);
    lines := PushTables(lines, InDomain(tables, None), ends, options);
    lines := PushEdges(lines, model.tables, SortBy(RelationSortKey, Inside(model.relations, Elements(partTableNames))));
  }

  // ----- what the lines draw

  ghost function EdgeOf(line: Line): multiset<Relation> {
    if line.Edge? then multiset{line.relation} else multiset{}
  }

  ghost function EdgesOf(lines: seq<Line>): multiset<Relation> {
    if lines == [] then multiset{} else EdgesOf(lines[..|lines| - 1]) + EdgeOf(lines[|lines| - 1])
  }

  // The domain open behind the lines, with `within` open before them.
  ghost function OpenDomain(within: Option<Name>, lines: seq<Line>): Option<Name> {
    if lines == [] then within
    else
      match lines[|lines| - 1]
      case DomainOpen(domain) => Some(domain)
      case DomainClose => None
      case _ => OpenDomain(within, lines[..|lines| - 1])
  }

  ghost function PathBy(within: Option<Name>, line: Line): multiset<Path> {
    if line.TableOpen? then multiset{Path(within, line.table)} else multiset{}
  }

  // The tables the lines open, each in the domain that is open there.
  ghost function OpenedIn(within: Option<Name>, lines: seq<Line>): multiset<Path> {
    if lines == [] then multiset{}
    else
      var front := lines[..|lines| - 1];
      OpenedIn(within, front) + PathBy(OpenDomain(within, front), lines[|lines| - 1])
  }

  lemma LastOfConcat(a: seq<Line>, b: seq<Line>)
    requires b != []
    ensures a + b != [] && (a + b)[..|a + b| - 1] == a + b[..|b| - 1] && (a + b)[|a + b| - 1] == b[|b| - 1]
  {
  }

  lemma {:induction false} EdgesConcat(a: seq<Line>, b: seq<Line>)
    ensures EdgesOf(a + b) == EdgesOf(a) + EdgesOf(b)
  {
    if b == [] {
      assert a + b == a;
    } else {
      EdgesConcat(a, b[..|b| - 1]);
      LastOfConcat(a, b);
    }
  }

  lemma {:induction false} DomainConcat(within: Option<Name>, a: seq<Line>, b: seq<Line>)
    ensures OpenDomain(within, a + b) == OpenDomain(OpenDomain(within, a), b)
  {
    if b == [] {
      assert a + b == a;
    } else {
      DomainConcat(within, a, b[..|b| - 1]);
      LastOfConcat(a, b);
    }
  }

  lemma {:induction false} OpenedConcat(within: Option<Name>, a: seq<Line>, b: seq<Line>)
    ensures OpenedIn(within, a + b) == OpenedIn(within, a) + OpenedIn(OpenDomain(within, a), b)
  {
    if b == [] {
      assert a + b == a;
    } else {
      var front := b[..|b| - 1];
      OpenedConcat(within, a, front);
      DomainConcat(within, a, front);
      LastOfConcat(a, b);
    }
  }

  // What a stretch of lines draws: edges, tables at their paths, the domain it leaves open.
  ghost predicate Draws(within: Option<Name>, lines: seq<Line>, edges: multiset<Relation>, paths: multiset<Path>, after: Option<Name>) {
    EdgesOf(lines) == edges && OpenedIn(within, lines) == paths && OpenDomain(within, lines) == after
  }

  lemma DrawnConcat(
    within: Option<Name>, a: seq<Line>, mid: Option<Name>, b: seq<Line>, after: Option<Name>,
    edgesA: multiset<Relation>, edgesB: multiset<Relation>, pathsA: multiset<Path>, pathsB: multiset<Path>)
    requires Draws(within, a, edgesA, pathsA, mid) && Draws(mid, b, edgesB, pathsB, after)
    ensures Draws(within, a + b, edgesA + edgesB, pathsA + pathsB, after)
  {
    EdgesConcat(a, b);
    OpenedConcat(within, a, b);
    DomainConcat(within, a, b);
  }

  lemma DrawnOne(within: Option<Name>, line: Line)
    ensures Draws(within, [line], EdgeOf(line), PathBy(within, line),
                  if line.DomainOpen? then Some(line.domain) else if line.DomainClose? then None else within)
  {
    assert [line][..0] == [];
  }

  lemma {:induction false} RowsDrawNothing(within: Option<Name>, table: Name, columns: seq<Column>, ends: set<string>, options: Options)
    ensures Draws(within, Rows(table, columns, ends, options), multiset{}, multiset{}, within)
  {
    if columns != [] {
      var last := |columns| - 1;
      var before, row := Rows(table, columns[..last], ends, options), Row(table, columns[last]);
      RowsDrawNothing(within, table, columns[..last], ends, options);
      if IsVisible(table, columns[last], ends, options) {
        DrawnOne(within, row);
        DrawnConcat(within, before, within, [row], within, multiset{}, multiset{}, multiset{}, multiset{});
        assert Rows(table, columns, ends, options) == before + [row];
      } else {
        assert Rows(table, columns, ends, options) == before;
      }
    }
  }

  lemma {:induction false} RowsAreVisible(table: Name, columns: seq<Column>, ends: set<string>, options: Options, column: Column)
    ensures column in columns && IsVisible(table, column, ends, options)
            <==> Row(table, column) in Rows(table, columns, ends, options)
  {
    if columns != [] {
      var last := |columns| - 1;
      RowsAreVisible(table, columns[..last], ends, options, column);
      assert columns == columns[..last] + [columns[last]];
    }
  }

  lemma TableDraws(within: Option<Name>, table: Table, ends: set<string>, options: Options)
    ensures Draws(within, TableLines(table, ends, options), multiset{}, multiset{Path(within, table.name)}, within)
  {
    var first, rows := [TableOpen(table.name)], Rows(table.name, table.columns, ends, options);
    RowsDrawNothing(within, table.name, table.columns, ends, options);
    DrawnOne(within, TableOpen(table.name));
    DrawnOne(within, TableClose);
    DrawnConcat(within, first, within, rows, within, multiset{}, multiset{}, multiset{Path(within, table.name)}, multiset{});
    DrawnConcat(within, first + rows, within, [TableClose], within, multiset{}, multiset{}, multiset{Path(within, table.name)}, multiset{});
  }

  ghost function PathOf(table: Table): Path {
    Path(table.domain, table.name)
  }

  ghost function PathsOf(tables: seq<Table>): multiset<Path> {
    if tables == [] then multiset{} else var last := |tables| - 1; PathsOf(tables[..last]) + multiset{PathOf(tables[last])}
  }

  lemma {:induction false} TablesDraw(within: Option<Name>, tables: seq<Table>, ends: set<string>, options: Options)
    requires forall i | 0 <= i < |tables| :: tables[i].domain == within
    ensures Draws(within, AllTableLines(tables, ends, options), multiset{}, PathsOf(tables), within)
  {
    if tables != [] {
      var last := |tables| - 1;
      TablesDraw(within, tables[..last], ends, options);
      TableDraws(within, tables[last], ends, options);
      DrawnConcat(within, AllTableLines(tables[..last], ends, options), within, TableLines(tables[last], ends, options), within,
                  multiset{}, multiset{}, PathsOf(tables[..last]), multiset{PathOf(tables[last])});
    }
  }

  lemma {:induction false} InDomainIsInside(tables: seq<Table>, domain: Option<Name>)
    ensures forall i | 0 <= i < |InDomain(tables, domain)| :: InDomain(tables, domain)[i].domain == domain
  {
    if tables != [] {
      InDomainIsInside(tables[..|tables| - 1], domain);
    }
  }

  lemma DomainDraws(domain: Name, tables: seq<Table>, ends: set<string>, options: Options)
    ensures Draws(None, DomainLines(domain, tables, ends, options), multiset{}, PathsOf(InDomain(tables, Some(domain))), None)
  {
    var first, inside, d := [DomainOpen(domain)], AllTableLines(InDomain(tables, Some(domain)), ends, options), Some(domain);
    var paths := PathsOf(InDomain(tables, d));
    InDomainIsInside(tables, d);
    TablesDraw(d, InDomain(tables, d), ends, options);
    DrawnOne(None, DomainOpen(domain));
    DrawnOne(d, DomainClose);
    DrawnConcat(None, first, d, inside, d, multiset{}, multiset{}, multiset{}, paths);
    DrawnConcat(None, first + inside, d, [DomainClose], None, multiset{}, multiset{}, paths, multiset{});
  }

  // The paths of the tables whose domain is among the given ones.
  ghost function PathsAmong(tables: seq<Table>, domains: set<Option<Name>>): multiset<Path> {
    if tables == [] then multiset{}
    else
      var last := |tables| - 1;
      PathsAmong(tables[..last], domains) + if tables[last].domain in domains then multiset{PathOf(tables[last])} else multiset{}
  }

  lemma {:induction false} PathsAmongSplit(tables: seq<Table>, a: set<Option<Name>>, b: set<Option<Name>>)
    requires a !! b
    ensures PathsAmong(tables, a + b) == PathsAmong(tables, a) + PathsAmong(tables, b)
  {
    if tables != [] {
      PathsAmongSplit(tables[..|tables| - 1], a, b);
    }
  }

  lemma {:induction false} PathsAmongOne(tables: seq<Table>, domain: Option<Name>)
    ensures PathsAmong(tables, {domain}) == PathsOf(InDomain(tables, domain))
  {
    if tables != [] {
      var last := |tables| - 1;
      PathsAmongOne(tables[..last], domain);
      if tables[last].domain == domain {
        PathsOfPush(InDomain(tables[..last], domain), tables[last]);
      } else {
        assert InDomain(tables, domain) == InDomain(tables[..last], domain);
      }
    }
  }

  lemma PathsOfPush(tables: seq<Table>, table: Table)
    ensures PathsOf(tables + [table]) == PathsOf(tables) + multiset{PathOf(table)}
  {
    assert (tables + [table])[..|tables|] == tables;
  }

  lemma {:induction false} PathsAmongAll(tables: seq<Table>, domains: set<Option<Name>>)
    requires forall i | 0 <= i < |tables| :: tables[i].domain in domains
    ensures PathsAmong(tables, domains) == PathsOf(tables)
  {
    if tables != [] {
      PathsAmongAll(tables[..|tables| - 1], domains);
    }
  }

  ghost function SomeOf(domains: seq<Name>): set<Option<Name>> {
    set d | d in domains :: Some(d)
  }

  lemma SomeOfGrows(domains: seq<Name>)
    requires domains != [] && Distinct(domains)
    ensures var last := |domains| - 1;
            SomeOf(domains) == SomeOf(domains[..last]) + {Some(domains[last])} && SomeOf(domains[..last]) !! {Some(domains[last])}
  {
    var last := |domains| - 1;
    assert domains == domains[..last] + [domains[last]];
    assert domains[last] !in domains[..last];
  }

  lemma DomainPathsGrow(domains: seq<Name>, tables: seq<Table>)
    requires domains != [] && Distinct(domains)
    ensures var last := |domains| - 1;
            PathsAmong(tables, SomeOf(domains)) == PathsAmong(tables, SomeOf(domains[..last])) + PathsOf(InDomain(tables, Some(domains[last])))
  {
    var last := |domains| - 1;
    SomeOfGrows(domains);
    PathsAmongOne(tables, Some(domains[last]));
    PathsAmongSplit(tables, SomeOf(domains[..last]), {Some(domains[last])});
  }

  lemma {:induction false} DomainsDraw(domains: seq<Name>, tables: seq<Table>, ends: set<string>, options: Options)
    requires Distinct(domains)
    ensures Draws(None, AllDomainLines(domains, tables, ends, options), multiset{}, PathsAmong(tables, SomeOf(domains)), None)
  {
    if domains == [] {
      NoPathsAmongNone(tables);
      assert SomeOf(domains) == {};
    } else {
      var last := |domains| - 1;
      DomainsDraw(domains[..last], tables, ends, options);
      DomainDraws(domains[last], tables, ends, options);
      DrawnConcat(None, AllDomainLines(domains[..last], tables, ends, options), None, DomainLines(domains[last], tables, ends, options), None,
                  multiset{}, multiset{}, PathsAmong(tables, SomeOf(domains[..last])), PathsOf(InDomain(tables, Some(domains[last]))));
      DomainPathsGrow(domains, tables);
    }
  }

  lemma {:induction false} NoPathsAmongNone(tables: seq<Table>)
    ensures PathsAmong(tables, {}) == multiset{}
  {
    if tables != [] {
      NoPathsAmongNone(tables[..|tables| - 1]);
    }
  }

  lemma EdgeLinesPush(tables: seq<Table>, relations: seq<Relation>)
    requires relations != []
    ensures EdgeLines(tables, relations) == EdgeLines(tables, relations[..|relations| - 1]) + [EdgeLine(tables, relations[|relations| - 1])]
    ensures multiset(relations) == multiset(relations[..|relations| - 1]) + multiset{relations[|relations| - 1]}
  {
    assert relations == relations[..|relations| - 1] + [relations[|relations| - 1]];
  }

  lemma {:induction false} EdgeLinesDraw(tables: seq<Table>, relations: seq<Relation>)
    ensures Draws(None, EdgeLines(tables, relations), multiset(relations), multiset{}, None)
  {
    if relations != [] {
      var front, last := relations[..|relations| - 1], relations[|relations| - 1];
      EdgeLinesDraw(tables, front);
      EdgeLinesPush(tables, relations);
      DrawnOne(None, EdgeLine(tables, last));
      DrawnConcat(None, EdgeLines(tables, front), None, [EdgeLine(tables, last)], None,
                  multiset(front), multiset{last}, multiset{}, multiset{});
    }
  }

  lemma EveryDomainIsListed(tables: seq<Table>, domains: seq<Name>)
    requires Elements(domains) == DomainNames(tables)
    ensures PathsAmong(tables, SomeOf(domains)) + PathsOf(InDomain(tables, None)) == PathsOf(tables)
  {
    PathsAmongOne(tables, None);
    PathsAmongSplit(tables, SomeOf(domains), {None});
    forall i | 0 <= i < |tables| ensures tables[i].domain in SomeOf(domains) + {None} {
      if tables[i].domain.Some? {
        assert tables[i].domain.value in DomainNames(tables);
        assert tables[i].domain.value in Elements(domains);
      }
    }
    PathsAmongAll(tables, SomeOf(domains) + {None});
  }

  // A diagram opens its tables one for one, each in its own domain or outside of all, and
  // draws exactly the relations inside the part that are no self references.
  lemma DrawingDraws(model: Model, part: seq<Name>, options: Options)
    ensures Draws(None, Drawing(model, part, options),
                  multiset(Inside(model.relations, Elements(part))), PathsOf(PartTables(model, part)), None)
  {
    var tables := PartTables(model, part);
    var ends := RelationEndColumns(model.relations);
    var domains := Sort(DomainNames(tables));
    var edges := SortBy(RelationSortKey, Inside(model.relations, Elements(part)));
    var a, b := AllDomainLines(domains, tables, ends, options), AllTableLines(InDomain(tables, None), ends, options);
    var inDomains, outside := PathsAmong(tables, SomeOf(domains)), PathsOf(InDomain(tables, None));
    IncreasingIsDistinct(domains);
    DomainsDraw(domains, tables, ends, options);
    InDomainIsInside(tables, None);
    TablesDraw(None, InDomain(tables, None), ends, options);
    EdgeLinesDraw(model.tables, edges);
    SortByKeeps(RelationSortKey, Inside(model.relations, Elements(part)));
    DrawnConcat(None, a, None, b, None, multiset{}, multiset{}, inDomains, outside);
    EveryDomainIsListed(tables, domains);
    DrawnConcat(None, a + b, None, EdgeLines(model.tables, edges), None, multiset{}, multiset(edges), PathsOf(tables), multiset{});
  }

  // ----- the tables of the part, each at its own path

  // Where the tables of the part belong.
  ghost function PartPaths(model: Model, part: seq<Name>): set<Path> {
    set table | table in model.tables && table.name in part :: PathOf(table)
  }

  lemma {:induction false} PathCount(tables: seq<Table>, path: Path)
    requires DistinctTables(tables)
    ensures PathsOf(tables)[path] == if exists table :: table in tables && PathOf(table) == path then 1 else 0
  {
    if tables != [] {
      var front, last := tables[..|tables| - 1], tables[|tables| - 1];
      PathCount(front, path);
      assert tables == front + [last];
      if PathOf(last) == path {
        assert forall table | table in front :: table.name != last.name;
      }
    }
  }

  lemma SortedAreDistinct(tables: seq<Table>)
    requires DistinctTables(tables)
    ensures DistinctTables(SortBy(NameOf, tables))
  {
    var sorted := SortBy(NameOf, tables);
    SortByKeeps(NameOf, tables);
    forall i, j | 0 <= i < j < |sorted| ensures sorted[i].name != sorted[j].name {
      if sorted[i].name == sorted[j].name {
        NamesakesAreOne(tables, sorted[i], sorted[j]);
        TwiceInSequence(sorted, i, j);
        OnceInDistinct(tables, sorted[i]);
      }
    }
  }

  lemma NamesakesAreOne(tables: seq<Table>, a: Table, b: Table)
    requires DistinctTables(tables) && a in multiset(tables) && b in multiset(tables) && a.name == b.name
    ensures a == b
  {
    var i :| 0 <= i < |tables| && tables[i] == a;
    var j :| 0 <= j < |tables| && tables[j] == b;
  }

  lemma TwiceInSequence(tables: seq<Table>, i: nat, j: nat)
    requires i < j < |tables| && tables[i] == tables[j]
    ensures multiset(tables)[tables[i]] >= 2
  {
    assert tables == tables[..j] + tables[j..];
    assert tables[j..] == [tables[j]] + tables[j + 1..];
    assert tables[i] in tables[..j];
    assert multiset(tables[..j])[tables[i]] >= 1 && multiset(tables[j..])[tables[j]] >= 1;
  }

  lemma {:induction false} OnceInDistinct(tables: seq<Table>, table: Table)
    requires DistinctTables(tables)
    ensures multiset(tables)[table] <= 1
  {
    if tables != [] {
      var front, last := tables[..|tables| - 1], tables[|tables| - 1];
      OnceInDistinct(front, table);
      assert tables == front + [last];
      if table == last {
        assert last !in front;
        assert last !in multiset(front);
      }
    }
  }

  lemma PathOfPart(model: Model, part: seq<Name>, path: Path)
    requires DistinctTables(model.tables)
    ensures PathsOf(PartTables(model, part))[path] == if path in PartPaths(model, part) then 1 else 0
  {
    var tables := PartTables(model, part);
    KeptTablesAreThoseNamed(model.tables, Elements(part));
    SortedAreDistinct(KeptTables(model.tables, Elements(part)));
    PathCount(tables, path);
    forall table ensures table in tables <==> table in model.tables && table.name in part {
      PartTablesHold(model, part, table);
    }
  }

  // A diagram of a closed model opens exactly the tables of its part, each once and each
  // between the lines that open and close its own domain, or outside of all domains.
  lemma PartIsOpenedOnce(model: Model, part: seq<Name>, options: Options)
    requires DistinctTables(model.tables)
    ensures OpenedIn(None, Drawing(model, part, options)) == multiset(PartPaths(model, part))
    ensures Elements(part) <= TableNames(model.tables) ==> (set path | path in PartPaths(model, part) :: path.table) == Elements(part)
  {
    DrawingDraws(model, part, options);
    forall path ensures PathsOf(PartTables(model, part))[path] == multiset(PartPaths(model, part))[path] {
      PathOfPart(model, part, path);
    }
    forall name | name in part && Elements(part) <= TableNames(model.tables)
      ensures exists path :: path in PartPaths(model, part) && path.table == name
    {
      assert name in Elements(part);
      var i :| 0 <= i < |model.tables| && model.tables[i].name == name;
      assert PathOf(model.tables[i]) in PartPaths(model, part);
    }
  }

  lemma {:induction false} TableKeyIsPath(tables: seq<Table>, table: Table)
    requires DistinctTables(tables) && table in tables
    ensures TableKey(tables, table.name) == PathOf(table)
  {
    var front, last := tables[..|tables| - 1], tables[|tables| - 1];
    assert tables == front + [last];
    if table.name == last.name {
      NamesakesAreOne(tables, table, last);
    } else {
      TableKeyIsPath(front, table);
    }
  }

  lemma TableKeyIsOpened(model: Model, part: seq<Name>, options: Options, name: Name)
    requires DistinctTables(model.tables) && name in TableNames(model.tables) && name in part
    ensures TableKey(model.tables, name).table == name
    ensures TableKey(model.tables, name) in OpenedIn(None, Drawing(model, part, options))
  {
    var i :| 0 <= i < |model.tables| && model.tables[i].name == name;
    TableKeyIsPath(model.tables, model.tables[i]);
    PartIsOpenedOnce(model, part, options);
    assert PathOf(model.tables[i]) in PartPaths(model, part);
  }

  // ----- rows of a diagram

  lemma {:induction false} RowOfTable(tables: seq<Table>, ends: set<string>, options: Options, k: nat, column: Column)
    requires k < |tables| && column in tables[k].columns && IsVisible(tables[k].name, column, ends, options)
    ensures Row(tables[k].name, column) in AllTableLines(tables, ends, options)
  {
    var last := |tables| - 1;
    if k < last {
      RowOfTable(tables[..last], ends, options, k, column);
    } else {
      RowsAreVisible(tables[k].name, tables[k].columns, ends, options, column);
    }
  }

  lemma {:induction false} InDomainHolds(tables: seq<Table>, k: nat)
    requires k < |tables|
    ensures tables[k] in InDomain(tables, tables[k].domain)
  {
    var last := |tables| - 1;
    if k < last {
      InDomainHolds(tables[..last], k);
    }
  }

  lemma {:induction false} LineOfDomain(domains: seq<Name>, tables: seq<Table>, ends: set<string>, options: Options, d: Name, line: Line)
    requires d in domains && line in DomainLines(d, tables, ends, options)
    ensures line in AllDomainLines(domains, tables, ends, options)
  {
    var last := |domains| - 1;
    if d != domains[last] {
      assert domains == domains[..last] + [domains[last]];
      LineOfDomain(domains[..last], tables, ends, options, d, line);
    }
  }

  // Every visible column of every table of the part is a row of its diagram.
  lemma VisibleColumnIsRow(model: Model, part: seq<Name>, options: Options, table: Table, column: Column)
    requires table in model.tables && table.name in part && column in table.columns
    requires IsVisible(table.name, column, RelationEndColumns(model.relations), options)
    ensures Row(table.name, column) in Drawing(model, part, options)
  {
    var tables := PartTables(model, part);
    var ends := RelationEndColumns(model.relations);
    PartTablesHold(model, part, table);
    var k :| 0 <= k < |tables| && tables[k] == table;
    InDomainHolds(tables, k);
    var group := InDomain(tables, table.domain);
    var g :| 0 <= g < |group| && group[g] == table;
    RowOfTable(group, ends, options, g, column);
    if table.domain.Some? {
      var d := table.domain.value;
      assert d in DomainNames(tables);
      assert d in Elements(Sort(DomainNames(tables)));
      LineOfDomain(Sort(DomainNames(tables)), tables, ends, options, d, Row(table.name, column));
    }
  }

  lemma PartTablesHold(model: Model, part: seq<Name>, table: Table)
    ensures table in PartTables(model, part) <==> table in model.tables && table.name in part
  {
    var kept := KeptTables(model.tables, Elements(part));
    SortByKeeps(NameOf, kept);
    KeptTablesAreThoseNamed(model.tables, Elements(part));
    assert table in PartTables(model, part) <==> table in multiset(PartTables(model, part));
    assert table in kept <==> table in multiset(kept);
  }

  lemma {:induction false} InsideHolds(relations: seq<Relation>, part: set<Name>, r: Relation)
    ensures multiset(Inside(relations, part))[r] == if IsInside(r, part) then multiset(relations)[r] else 0
  {
    if relations != [] {
      var last := |relations| - 1;
      InsideHolds(relations[..last], part, r);
      assert relations == relations[..last] + [relations[last]];
    }
  }

  ghost predicate HasRow(lines: seq<Line>, end: End) {
    exists column: Column :: column.name == end.column && Row(end.table, column) in lines
  }

  // A relation end is a row of every diagram that holds its table, under every
  // combination of the column flags.
  lemma RelationEndIsRow(model: Model, part: seq<Name>, options: Options, end: End)
    requires EndExists(model.tables, end) && end.table in part
    requires exists r :: r in model.relations && (r.source == end || r.target == end)
    ensures HasRow(Drawing(model, part, options), end)
  {
    var i :| 0 <= i < |model.tables| && model.tables[i].name == end.table && HasColumn(model.tables[i], end.column);
    var j :| 0 <= j < |model.tables[i].columns| && model.tables[i].columns[j].name == end.column;
    var column := model.tables[i].columns[j];
    assert ColumnKey(end) in RelationEndColumns(model.relations);
    VisibleColumnIsRow(model, part, options, model.tables[i], column);
  }

  // ----- the whole plan

  lemma {:induction false} FlatCounts(parts: seq<seq<Name>>, k: nat, t: Name)
    requires k < |parts| && t in parts[k]
    ensures Flat(parts)[t] >= 1
  {
    if k > 0 {
      FlatCounts(parts[1..], k - 1, t);
    } else {
      assert t in multiset(parts[0]);
    }
  }

  lemma {:induction false} TwoPartsCountTwice(parts: seq<seq<Name>>, j: nat, k: nat, t: Name)
    requires j < k < |parts| && t in parts[j] && t in parts[k]
    ensures Flat(parts)[t] >= 2
  {
    if j > 0 {
      TwoPartsCountTwice(parts[1..], j - 1, k - 1, t);
    } else {
      assert t in multiset(parts[0]);
      FlatCounts(parts[1..], k - 1, t);
    }
  }

  lemma PartsAreDisjoint(model: Model, measure: Measure, j: nat, k: nat, t: Name)
    requires EndsDeclared(model)
    requires j < |PartsOf(SplitSteps(model, measure))| && k < |PartsOf(SplitSteps(model, measure))|
    requires t in PartsOf(SplitSteps(model, measure))[j] && t in PartsOf(SplitSteps(model, measure))[k]
    ensures j == k
  {
    var parts := PartsOf(SplitSteps(model, measure));
    SplitIsSound(model, measure);
    assert Flat(parts)[t] <= Placed(SplitSteps(model, measure))[t] <= 1;
    if j < k { TwoPartsCountTwice(parts, j, k, t); }
    if k < j { TwoPartsCountTwice(parts, k, j, t); }
  }

  ghost predicate Shares(part: seq<Name>, r: Relation) {
    r.source.table in part && r.target.table in part
  }

  // Across the plan a relation that is no self reference is drawn as often as the model
  // lists it in the one diagram whose part holds both its tables, and in no other; a
  // self reference is drawn nowhere.
  lemma RelationIsDrawnOnce(model: Model, measure: Measure, options: Options, r: Relation, k: nat)
    requires EndsDeclared(model) && k < |PartsOf(SplitSteps(model, measure))|
    ensures var parts := PartsOf(SplitSteps(model, measure));
            && EdgesOf(Drawing(model, parts[k], options))[r]
               == (if Shares(parts[k], r) && !IsSelfReference(r) then multiset(model.relations)[r] else 0)
            && (Shares(parts[k], r) ==> forall j | 0 <= j < |parts| && j != k :: !Shares(parts[j], r))
  {
    var parts := PartsOf(SplitSteps(model, measure));
    DrawingDraws(model, parts[k], options);
    InsideHolds(model.relations, Elements(parts[k]), r);
    if Shares(parts[k], r) {
      forall j | 0 <= j < |parts| && j != k ensures !Shares(parts[j], r) {
        if Shares(parts[j], r) {
          PartsAreDisjoint(model, measure, j, k, r.source.table);
        }
      }
    }
  }

  lemma {:induction false} EdgeIsCounted(lines: seq<Line>, line: Line)
    requires line in lines && line.Edge?
    ensures EdgesOf(lines)[line.relation] > 0
  {
    var front, last := lines[..|lines| - 1], lines[|lines| - 1];
    assert lines == front + [last];
    if line != last {
      EdgeIsCounted(front, line);
    }
  }

  // Only the last lines of a diagram are edges.
  lemma EdgesAreEdgeLines(model: Model, part: seq<Name>, options: Options, line: Line)
    requires line in Drawing(model, part, options) && line.Edge?
    ensures line == EdgeLine(model.tables, line.relation)
    ensures EdgesOf(Drawing(model, part, options))[line.relation] > 0
  {
    var tables := PartTables(model, part);
    var ends := RelationEndColumns(model.relations);
    var domains := Sort(DomainNames(tables));
    var a, b := AllDomainLines(domains, tables, ends, options), AllTableLines(InDomain(tables, None), ends, options);
    IncreasingIsDistinct(domains);
    DomainsDraw(domains, tables, ends, options);
    InDomainIsInside(tables, None);
    TablesDraw(None, InDomain(tables, None), ends, options);
    if line in a {
      EdgeIsCounted(a, line);
    } else if line in b {
      EdgeIsCounted(b, line);
    } else {
      assert line in EdgeLines(model.tables, SortBy(RelationSortKey, Inside(model.relations, Elements(part))));
    }
    EdgeIsCounted(Drawing(model, part, options), line);
  }

  // Each end of an edge names the table of its relation by the path at which the diagram
  // opens that table, and its column by a row of the diagram.
  lemma EdgesEndAtRows(model: Model, part: seq<Name>, options: Options, line: Line)
    requires Closed(model) && line in Drawing(model, part, options) && line.Edge?
    ensures IsInside(line.relation, Elements(part)) && line.relation in model.relations
    ensures line.source.table == line.relation.source.table && line.source in OpenedIn(None, Drawing(model, part, options))
    ensures line.target.table == line.relation.target.table && line.target in OpenedIn(None, Drawing(model, part, options))
    ensures HasRow(Drawing(model, part, options), line.relation.source)
    ensures HasRow(Drawing(model, part, options), line.relation.target)
  {
    var r := line.relation;
    EdgesAreEdgeLines(model, part, options, line);
    DrawingDraws(model, part, options);
    InsideHolds(model.relations, Elements(part), r);
    assert r in multiset(model.relations) && r in model.relations;
    TableKeyIsOpened(model, part, options, r.source.table);
    TableKeyIsOpened(model, part, options, r.target.table);
    RelationEndIsRow(model, part, options, r.source);
    RelationEndIsRow(model, part, options, r.target);
  }
}
