/** figura/scripts/erd-d2.mjs, erdD2: domains and tables outside all domains are written as
    keys of one level. When they are different keys. */
module ErdTopLevel {
  import opened Optional
  import opened Names
  import opened ErdTypes
  import opened ErdDraw

  // The domains the lines open, with repeats.
  ghost function DomainsOpened(lines: seq<Line>): multiset<Name> {
    if lines == [] then multiset{}
    else
      var last := lines[|lines| - 1];
      DomainsOpened(lines[..|lines| - 1]) + if last.DomainOpen? then multiset{last.domain} else multiset{}
  }

  // How often a name is written outside all domains: as a domain, or as a table.
  ghost function TopLevelCount(lines: seq<Line>, name: Name): nat {
    DomainsOpened(lines)[name] + OpenedIn(None, lines)[Path(None, name)]
  }

  lemma {:induction false} DomainsOpenedConcat(a: seq<Line>, b: seq<Line>)
    ensures DomainsOpened(a + b) == DomainsOpened(a) + DomainsOpened(b)
  {
    if b == [] {
      assert a + b == a;
    } else {
      DomainsOpenedConcat(a, b[..|b| - 1]);
      LastOfConcat(a, b);
    }
  }

  lemma {:induction false} NoDomainOpened(lines: seq<Line>)
    requires forall line | line in lines :: !line.DomainOpen?
    ensures DomainsOpened(lines) == multiset{}
  {
    if lines != [] {
      NoDomainOpened(lines[..|lines| - 1]);
    }
  }

  lemma {:induction false} RowsOpenNone(table: Name, columns: seq<Column>, ends: set<string>, options: Options)
    ensures forall line | line in Rows(table, columns, ends, options) :: !line.DomainOpen?
  {
    if columns != [] {
      RowsOpenNone(table, columns[..|columns| - 1], ends, options);
    }
  }

  lemma {:induction false} TablesOpenNone(tables: seq<Table>, ends: set<string>, options: Options)
    ensures forall line | line in AllTableLines(tables, ends, options) :: !line.DomainOpen?
  {
    if tables != [] {
      var last := |tables| - 1;
      TablesOpenNone(tables[..last], ends, options);
      RowsOpenNone(tables[last].name, tables[last].columns, ends, options);
    }
  }

  lemma DomainIsOpened(domain: Name, tables: seq<Table>, ends: set<string>, options: Options)
    ensures DomainsOpened(DomainLines(domain, tables, ends, options)) == multiset{domain}
  {
    var first, inside, last := [DomainOpen(domain)], AllTableLines(InDomain(tables, Some(domain)), ends, options), [DomainClose];
    TablesOpenNone(InDomain(tables, Some(domain)), ends, options);
    NoDomainOpened(inside);
    NoDomainOpened(last);
    assert DomainsOpened(first) == multiset{domain} by {
      assert first[..0] == [] && DomainsOpened([]) == multiset{};
    }
    DomainsOpenedConcat(first, inside);
    DomainsOpenedConcat(first + inside, last);
  }

  lemma LastDomain(domains: seq<Name>, tables: seq<Table>, ends: set<string>, options: Options)
    requires domains != []
    ensures var front, last := domains[..|domains| - 1], domains[|domains| - 1];
            AllDomainLines(domains, tables, ends, options)
            == AllDomainLines(front, tables, ends, options) + DomainLines(last, tables, ends, options)
            && multiset(domains) == multiset(front) + multiset{last}
  {
    assert domains == domains[..|domains| - 1] + [domains[|domains| - 1]];
  }

  lemma {:induction false} EachIsOpened(domains: seq<Name>, tables: seq<Table>, ends: set<string>, options: Options)
    ensures DomainsOpened(AllDomainLines(domains, tables, ends, options)) == multiset(domains)
  {
    if domains != [] {
      var front, last := domains[..|domains| - 1], domains[|domains| - 1];
      LastDomain(domains, tables, ends, options);
      EachIsOpened(front, tables, ends, options);
      DomainIsOpened(last, tables, ends, options);
      DomainsOpenedConcat(AllDomainLines(front, tables, ends, options), DomainLines(last, tables, ends, options));
    }
  }

  // A diagram opens each domain of its tables once.
  lemma DomainsAreOpenedOnce(model: Model, part: seq<Name>, options: Options)
    ensures DomainsOpened(Drawing(model, part, options)) == multiset(DomainNames(PartTables(model, part)))
  {
    var tables := PartTables(model, part);
    var ends := RelationEndColumns(model.relations);
    var domains := Sort(DomainNames(tables));
    var a, b := AllDomainLines(domains, tables, ends, options), AllTableLines(InDomain(tables, None), ends, options);
    var c := EdgeLines(model.tables, SortBy(RelationSortKey, Inside(model.relations, Elements(part))));
    EachIsOpened(domains, tables, ends, options);
    TablesOpenNone(InDomain(tables, None), ends, options);
    NoDomainOpened(b);
    NoDomainOpened(c);
    DomainsOpenedConcat(a, b);
    DomainsOpenedConcat(a + b, c);
    SortedAsMultiset(DomainNames(tables));
  }

  lemma SortedAsMultiset(names: set<Name>)
    ensures multiset(Sort(names)) == multiset(names)
  {
    var sorted := Sort(names);
    IncreasingIsDistinct(sorted);
    forall name ensures multiset(sorted)[name] == multiset(names)[name] {
      OnceInList(sorted, name);
      assert name in sorted <==> name in Elements(sorted);
    }
  }

  lemma {:induction false} OnceInList(list: seq<Name>, name: Name)
    requires forall i, j | 0 <= i < j < |list| :: list[i] != list[j]
    ensures multiset(list)[name] == if name in list then 1 else 0
  {
    if list != [] {
      var front, last := list[..|list| - 1], list[|list| - 1];
      OnceInList(front, name);
      assert list == front + [last];
    }
  }

  // A table of the part outside all domains has the name of a domain of the part.
  ghost predicate NamedLikeDomain(model: Model, part: seq<Name>, table: Table, other: Table) {
    table in model.tables && table.name in part && other in model.tables && other.name in part
    && table.domain == None && other.domain == Some(table.name)
  }

  lemma DomainOfPart(model: Model, part: seq<Name>, name: Name)
    ensures name in DomainNames(PartTables(model, part))
            <==> exists other :: other in model.tables && other.name in part && other.domain == Some(name)
  {
    var tables := PartTables(model, part);
    if name in DomainNames(tables) {
      var i :| 0 <= i < |tables| && tables[i].domain.Some? && tables[i].domain.value == name;
      PartTablesHold(model, part, tables[i]);
      assert tables[i].domain == Some(name);
    }
    if other :| other in model.tables && other.name in part && other.domain == Some(name) {
      PartTablesHold(model, part, other);
      var i :| 0 <= i < |tables| && tables[i] == other;
    }
  }

  ghost predicate NamesBoth(model: Model, part: seq<Name>, name: Name) {
    exists table, other :: NamedLikeDomain(model, part, table, other) && table.name == name
  }

  lemma NameIsOnce(model: Model, part: seq<Name>, options: Options, name: Name)
    requires DistinctTables(model.tables)
    ensures TopLevelCount(Drawing(model, part, options), name) <= 1 <==> !NamesBoth(model, part, name)
  {
    PartIsOpenedOnce(model, part, options);
    DomainsAreOpenedOnce(model, part, options);
    TopLevelOfName(model, part, name);
  }

  // The keys of the top level of a diagram are all different exactly when no table outside
  // all domains has the name of a domain; where one has, both share one key.
  lemma TopLevelIsDistinctIff(model: Model, part: seq<Name>, options: Options)
    requires DistinctTables(model.tables)
    ensures (forall name :: TopLevelCount(Drawing(model, part, options), name) <= 1)
            <==> !exists table, other :: NamedLikeDomain(model, part, table, other)
  {
    forall name ensures TopLevelCount(Drawing(model, part, options), name) <= 1 <==> !NamesBoth(model, part, name) {
      NameIsOnce(model, part, options, name);
    }
    forall table, other | NamedLikeDomain(model, part, table, other) ensures NamesBoth(model, part, table.name) {
    }
  }

  lemma TopLevelOfName(model: Model, part: seq<Name>, name: Name)
    ensures Path(None, name) in PartPaths(model, part) && name in DomainNames(PartTables(model, part))
            <==> NamesBoth(model, part, name)
  {
    DomainOfPart(model, part, name);
    if Path(None, name) in PartPaths(model, part) && name in DomainNames(PartTables(model, part)) {
      var table :| table in model.tables && table.name in part && PathOf(table) == Path(None, name);
      var other :| other in model.tables && other.name in part && other.domain == Some(name);
      assert NamedLikeDomain(model, part, table, other);
    }
    if table, other :| NamedLikeDomain(model, part, table, other) && table.name == name {
      assert PathOf(table) == Path(None, name);
    }
  }
}
