/** figura/scripts/erd-source-typeorm.mjs: what join columns, junction tables and unique
    indexes do to the columns of the entities. */
module TypeormJoins {
  import opened Optional
  import opened ErdTypes
  import opened ErdModel
  import opened TypeormEntities

  datatype RelationOf = RelationOf(member: Member, decorator: Decorator)

  datatype Entity = Entity(
    className: string,
    tableName: string,
    columns: seq<EntityColumn>,
    implicitColumns: seq<RawColumn>,
    relationMembers: seq<RelationOf>,
    joinColumnsOfProperty: map<string, seq<string>>,
    classDecorators: seq<Decorator>,
    members: seq<Member>)

  datatype Link = Link(source: End, target: End)

  function RawColumns(columns: seq<EntityColumn>): (raw: seq<RawColumn>)
    ensures |raw| == |columns| && forall i | 0 <= i < |raw| :: raw[i] == columns[i].column
  {
    seq(|columns|, i requires 0 <= i < |columns| => columns[i].column)
  }

  function AllColumns(entity: Entity): seq<RawColumn> {
    RawColumns(entity.columns) + entity.implicitColumns
  }

  predicate HasNamed(columns: seq<RawColumn>, name: string) {
    exists i :: 0 <= i < |columns| && columns[i].name == name
  }

  // ----- growing columns

  predicate GrowsColumn(before: RawColumn, after: RawColumn) {
    after == before.(unique := after.unique) && (before.unique ==> after.unique)
  }

  // Columns stay where they are, new ones come last, and no column stops being unique.
  predicate GrowsColumns(before: seq<RawColumn>, after: seq<RawColumn>) {
    |before| <= |after| && forall i | 0 <= i < |before| :: GrowsColumn(before[i], after[i])
  }

  predicate GrowsEntity(before: Entity, after: Entity) {
    && after == before.(columns := after.columns, implicitColumns := after.implicitColumns, joinColumnsOfProperty := after.joinColumnsOfProperty)
    && |after.columns| == |before.columns|
    && (forall i | 0 <= i < |before.columns| :: after.columns[i].propertyName == before.columns[i].propertyName)
    && GrowsColumns(AllColumns(before), AllColumns(after))
  }

  predicate GrowsEntities(before: seq<Entity>, after: seq<Entity>) {
    |before| == |after| && forall i | 0 <= i < |before| :: GrowsEntity(before[i], after[i])
  }

  lemma GrowsColumnsTransitive(a: seq<RawColumn>, b: seq<RawColumn>, c: seq<RawColumn>)
    requires GrowsColumns(a, b) && GrowsColumns(b, c)
    ensures GrowsColumns(a, c)
  {
    forall i | 0 <= i < |a| ensures GrowsColumn(a[i], c[i]) {
      assert GrowsColumn(a[i], b[i]) && GrowsColumn(b[i], c[i]);
    }
  }

  lemma GrowsEntityTransitive(a: Entity, b: Entity, c: Entity)
    requires GrowsEntity(a, b) && GrowsEntity(b, c)
    ensures GrowsEntity(a, c)
  {
    GrowsColumnsTransitive(AllColumns(a), AllColumns(b), AllColumns(c));
  }

  lemma GrowsEntitiesTransitive(a: seq<Entity>, b: seq<Entity>, c: seq<Entity>)
    requires GrowsEntities(a, b) && GrowsEntities(b, c)
    ensures GrowsEntities(a, c)
  {
    forall i | 0 <= i < |a| ensures GrowsEntity(a[i], c[i]) {
      GrowsEntityTransitive(a[i], b[i], c[i]);
    }
  }

  predicate FirstIsUnique(columns: seq<RawColumn>, name: string) {
    var first := FirstNamed(columns, name);
    first.Some? && columns[first.value].unique
  }

  // What a relation or an index found about a column stays true.
  lemma GrowthKeepsFirst(before: seq<RawColumn>, after: seq<RawColumn>, name: string)
    requires GrowsColumns(before, after) && HasNamed(before, name)
    ensures HasNamed(after, name) && FirstNamed(after, name) == FirstNamed(before, name)
    ensures FirstIsUnique(before, name) ==> FirstIsUnique(after, name)
  {
    var i := FirstNamed(before, name).value;
    assert GrowsColumn(before[i], after[i]);
    forall k | 0 <= k < i ensures after[k].name != name {
      assert GrowsColumn(before[k], after[k]);
    }
    FirstIsThere(after, name, i);
  }

  lemma FirstIsThere(columns: seq<RawColumn>, name: string, i: nat)
    requires i < |columns| && columns[i].name == name && forall k | 0 <= k < i :: columns[k].name != name
    ensures FirstNamed(columns, name) == Some(i)
  {
    var first := FirstNamed(columns, name).value;
    assert !(first < i) && !(i < first);
  }

  // ----- marking a column unique

  function MarkedUnique(entity: Entity, name: string): Entity {
    match FirstNamed(AllColumns(entity), name)
    case None => entity
    case Some(i) =>
      if i < |entity.columns| then
        entity.(columns := entity.columns[i := entity.columns[i].(column := entity.columns[i].column.(unique := true))])
      else
        var k := i - |entity.columns|;
        entity.(implicitColumns := entity.implicitColumns[k := entity.implicitColumns[k].(unique := true)])
  }

  lemma MarkedColumns(entity: Entity, name: string)
    ensures var columns, marked := AllColumns(entity), AllColumns(MarkedUnique(entity, name));
            match FirstNamed(columns, name)
            case None => marked == columns
            case Some(i) => marked == columns[i := columns[i].(unique := true)]
    ensures GrowsEntity(entity, MarkedUnique(entity, name))
  {
    var columns, marked := AllColumns(entity), AllColumns(MarkedUnique(entity, name));
    match FirstNamed(columns, name)
    case None =>
    case Some(i) =>
      assert marked == columns[i := columns[i].(unique := true)];
  }

  // Only the first column of the name becomes unique.
  lemma MarkedIsUnique(entity: Entity, name: string, other: string)
    ensures FirstIsUnique(AllColumns(MarkedUnique(entity, name)), other)
            <==> FirstIsUnique(AllColumns(entity), other) || (other == name && HasNamed(AllColumns(entity), name))
  {
    var columns, marked := AllColumns(entity), AllColumns(MarkedUnique(entity, name));
    MarkedColumns(entity, name);
    if HasNamed(columns, other) {
      GrowthKeepsFirst(columns, marked, other);
    } else {
      assert forall i | 0 <= i < |columns| :: marked[i].name == columns[i].name;
    }
  }

  // ----- join columns

  predicate IsOfProperty(column: EntityColumn, property: Value) {
    Text(column.propertyName) == property
  }

  // The first column of a property.
  function FindProperty(columns: seq<EntityColumn>, property: Value): (found: Option<EntityColumn>)
    ensures found == None <==> forall i | 0 <= i < |columns| :: !IsOfProperty(columns[i], property)
    ensures found.Some? ==> IsFirstOf(columns, property, found.value)
  {
    if columns == [] then None
    else if IsOfProperty(columns[0], property) then Some(columns[0])
    else
      var found := FindProperty(columns[1..], property);
      assert found.Some? ==> IsFirstOf(columns, property, found.value) by {
        if found.Some? { FirstOfRest(columns, property, found.value); }
      }
      found
  }

  predicate IsFirstOf(columns: seq<EntityColumn>, property: Value, column: EntityColumn) {
    exists i :: 0 <= i < |columns| && columns[i] == column && IsOfProperty(column, property)
                && forall k | 0 <= k < i :: !IsOfProperty(columns[k], property)
  }

  lemma FirstOfRest(columns: seq<EntityColumn>, property: Value, column: EntityColumn)
    requires columns != [] && !IsOfProperty(columns[0], property) && IsFirstOf(columns[1..], property, column)
    ensures IsFirstOf(columns, property, column)
  {
    var rest := columns[1..];
    var i :| 0 <= i < |rest| && rest[i] == column && IsOfProperty(column, property) && forall k | 0 <= k < i :: !IsOfProperty(rest[k], property);
    assert columns[i + 1] == column;
    forall k | 0 <= k < i + 1 ensures !IsOfProperty(columns[k], property) {
      if k > 0 { assert columns[k] == rest[k - 1]; }
    }
  }

  function PrimaryColumns(columns: seq<EntityColumn>): (primary: seq<EntityColumn>)
    ensures forall c :: c in primary <==> c in columns && c.column.primaryKey
  {
    if columns == [] then []
    else
      var last := columns[|columns| - 1];
      assert columns == columns[..|columns| - 1] + [last];
      PrimaryColumns(columns[..|columns| - 1]) + if last.column.primaryKey then [last] else []
  }

  function ReferencedName(specification: Value): Option<Value> {
    OptionOf(Some(specification), "referencedColumnName")
  }

  predicate NameTheirColumns(specifications: seq<Value>) {
    specifications != [] && forall i | 0 <= i < |specifications| :: ReferencedName(specifications[i]).Some?
  }

  // Where every specification names a column: the first column of each property named,
  // None when some is not there. Otherwise the primary key, None when there is none.
  function ReferencedColumns(entity: Entity, specifications: seq<Value>): (referenced: Option<seq<EntityColumn>>)
    ensures referenced.Some? ==> referenced.value != [] && forall c | c in referenced.value :: c in entity.columns
    ensures NameTheirColumns(specifications) ==> NamesThem(entity.columns, specifications, referenced)
    ensures !NameTheirColumns(specifications) ==> IsPrimaryKey(entity.columns, referenced)
  {
    if NameTheirColumns(specifications) then
      var named := NamedColumns(entity.columns, specifications);
      assert named.Some? ==> AllInside(entity.columns, named.value) by {
        if named.Some? { NamedAreInside(entity.columns, specifications, named.value); }
      }
      named
    else
      var primary := PrimaryColumns(entity.columns);
      if primary == [] then None else Some(primary)
  }

  predicate AllInside(columns: seq<EntityColumn>, some: seq<EntityColumn>) {
    forall c | c in some :: c in columns
  }

  lemma NamedAreInside(columns: seq<EntityColumn>, specifications: seq<Value>, named: seq<EntityColumn>)
    requires NameTheirColumns(specifications) && NamesThem(columns, specifications, Some(named))
    ensures AllInside(columns, named)
  {
    forall c | c in named ensures c in columns {
      var i :| 0 <= i < |named| && named[i] == c;
      assert IsFirstOf(columns, ReferencedName(specifications[i]).value, named[i]);
    }
  }

  predicate NamesThem(columns: seq<EntityColumn>, specifications: seq<Value>, referenced: Option<seq<EntityColumn>>)
    requires NameTheirColumns(specifications)
  {
    match referenced
    case None => exists i :: 0 <= i < |specifications| && IsUnknown(columns, ReferencedName(specifications[i]).value)
    case Some(named) => |named| == |specifications|
                        && forall i | 0 <= i < |named| :: IsFirstOf(columns, ReferencedName(specifications[i]).value, named[i])
  }

  predicate IsUnknown(columns: seq<EntityColumn>, property: Value) {
    forall k | 0 <= k < |columns| :: !IsOfProperty(columns[k], property)
  }

  predicate IsPrimaryKey(columns: seq<EntityColumn>, referenced: Option<seq<EntityColumn>>) {
    match referenced
    case None => forall c | c in columns :: !c.column.primaryKey
    case Some(primary) => primary == PrimaryColumns(columns)
  }

  function NamedColumns(columns: seq<EntityColumn>, specifications: seq<Value>): (named: Option<seq<EntityColumn>>)
    requires NameTheirColumns(specifications)
    ensures NamesThem(columns, specifications, named)
  {
    var n := |specifications| - 1;
    var last := FindProperty(columns, ReferencedName(specifications[n]).value);
    if last == None then assert IsUnknown(columns, ReferencedName(specifications[n]).value); None
    else if n == 0 then Some([last.value])
    else
      var before := NamedColumns(columns, specifications[..n]);
      OneMoreNamed(columns, specifications, before, last.value);
      match before
      case None => None
      case Some(found) => Some(found + [last.value])
  }

  lemma OneMoreNamed(columns: seq<EntityColumn>, specifications: seq<Value>, before: Option<seq<EntityColumn>>, last: EntityColumn)
    requires NameTheirColumns(specifications) && |specifications| > 1
    requires NameTheirColumns(specifications[..|specifications| - 1]) && NamesThem(columns, specifications[..|specifications| - 1], before)
    requires IsFirstOf(columns, ReferencedName(specifications[|specifications| - 1]).value, last)
    ensures NamesThem(columns, specifications, if before == None then None else Some(before.value + [last]))
  {
    var n := |specifications| - 1;
    var front := specifications[..n];
    match before
    case None =>
      var i :| 0 <= i < |front| && IsUnknown(columns, ReferencedName(front[i]).value);
      assert front[i] == specifications[i];
    case Some(found) =>
      forall i | 0 <= i < n + 1 ensures IsFirstOf(columns, ReferencedName(specifications[i]).value, (found + [last])[i]) {
        if i < n { assert front[i] == specifications[i]; }
      }
  }

  function Specification(specifications: seq<Value>, i: nat): Option<Value> {
    if i < |specifications| then Some(specifications[i]) else None
  }

  // One join column: the column of that name, added when the entity has none.
  function JoinedOne(entity: Entity, name: string, typ: string, nullable: bool, unique: bool): Entity {
    var known :=
      if HasNamed(AllColumns(entity), name) then entity
      else entity.(implicitColumns := entity.implicitColumns + [RawColumn(name, typ, false, false, nullable)]);
    if unique then MarkedUnique(known, name) else known
  }

  function JoinedAll(entity: Entity, names: seq<string>, referenced: seq<EntityColumn>, nullable: bool, unique: bool): Entity
    requires |names| == |referenced|
  {
    if names == [] then entity
    else
      var n := |names| - 1;
      JoinedOne(JoinedAll(entity, names[..n], referenced[..n], nullable, unique), names[n], referenced[n].column.typ, nullable, unique)
  }

  lemma JoinedOneGrows(entity: Entity, name: string, typ: string, nullable: bool, unique: bool)
    ensures var joined := JoinedOne(entity, name, typ, nullable, unique);
            && GrowsEntity(entity, joined) && HasNamed(AllColumns(joined), name)
            && (unique ==> FirstIsUnique(AllColumns(joined), name))
  {
    var column := RawColumn(name, typ, false, false, nullable);
    var added := entity.(implicitColumns := entity.implicitColumns + [column]);
    AddedColumn(entity, column);
    var known := if HasNamed(AllColumns(entity), name) then entity else added;
    if unique {
      MarkedColumns(known, name);
      MarkedIsUnique(known, name, name);
      GrowsEntityTransitive(entity, known, MarkedUnique(known, name));
      GrowthKeepsFirst(AllColumns(known), AllColumns(MarkedUnique(known, name)), name);
    }
  }

  lemma AddedColumn(entity: Entity, column: RawColumn)
    ensures var added := entity.(implicitColumns := entity.implicitColumns + [column]);
            AllColumns(added) == AllColumns(entity) + [column] && GrowsEntity(entity, added) && HasNamed(AllColumns(added), column.name)
  {
    var added := entity.(implicitColumns := entity.implicitColumns + [column]);
    assert AllColumns(added) == AllColumns(entity) + [column];
    assert AllColumns(added)[|AllColumns(entity)|] == column;
  }

  // Every join column is there afterwards, and unique where the relation is one-to-one.
  lemma {:induction false} JoinedAllGrows(entity: Entity, names: seq<string>, referenced: seq<EntityColumn>, nullable: bool, unique: bool)
    requires |names| == |referenced|
    ensures var joined := JoinedAll(entity, names, referenced, nullable, unique);
            GrowsEntity(entity, joined) && NamesAreJoined(joined, names, unique)
  {
    if names != [] {
      var n := |names| - 1;
      var before := JoinedAll(entity, names[..n], referenced[..n], nullable, unique);
      var joined := JoinedAll(entity, names, referenced, nullable, unique);
      JoinedAllGrows(entity, names[..n], referenced[..n], nullable, unique);
      JoinedOneGrows(before, names[n], referenced[n].column.typ, nullable, unique);
      GrowsEntityTransitive(entity, before, joined);
      OneMoreJoined(before, joined, names, unique);
    }
  }

  lemma OneMoreJoined(before: Entity, joined: Entity, names: seq<string>, unique: bool)
    requires names != [] && GrowsEntity(before, joined)
    requires NamesAreJoined(before, names[..|names| - 1], unique) && NameIsJoined(joined, names[|names| - 1], unique)
    ensures NamesAreJoined(joined, names, unique)
  {
    forall i | 0 <= i < |names| - 1 ensures NameIsJoined(joined, names[i], unique) {
      assert NameIsJoined(before, names[..|names| - 1][i], unique);
      GrowthKeepsFirst(AllColumns(before), AllColumns(joined), names[i]);
    }
  }

  predicate NameIsJoined(entity: Entity, name: string, unique: bool) {
    HasNamed(AllColumns(entity), name) && (unique ==> FirstIsUnique(AllColumns(entity), name))
  }

  predicate NamesAreJoined(entity: Entity, names: seq<string>, unique: bool) {
    forall i | 0 <= i < |names| :: NameIsJoined(entity, names[i], unique)
  }

  function JoinNames(member: Member, specifications: seq<Value>, referenced: seq<EntityColumn>, spelling: Spelling): seq<string> {
    seq(|referenced|, i requires 0 <= i < |referenced| =>
      NameOption(Specification(specifications, i), "name", spelling.camelCase(member.name + "_" + referenced[i].propertyName)))
  }

  function JoinLinks(tableName: string, names: seq<string>, targetName: string, referenced: seq<EntityColumn>): seq<Link>
    requires |names| == |referenced|
  {
    seq(|names|, i requires 0 <= i < |names| => Link(End(tableName, names[i]), End(targetName, referenced[i].column.name)))
  }

  // ----- how join columns are called and what they are

  // The i-th specification gives a name of its own.
  predicate GivesName(specifications: seq<Value>, i: nat) {
    i < |specifications| && specifications[i].Object? && "name" in specifications[i].entries && specifications[i].entries["name"].Text?
  }

  predicate IsSpelled(name: string, specifications: seq<Value>, i: nat, otherwise: string) {
    name == if GivesName(specifications, i) then specifications[i].entries["name"].text else otherwise
  }

  // A join column is called as its specification says, or after the member and the property.
  lemma JoinNamesAreSpelled(member: Member, specifications: seq<Value>, referenced: seq<EntityColumn>, spelling: Spelling)
    ensures var names := JoinNames(member, specifications, referenced, spelling);
            |names| == |referenced|
            && forall i: nat | i < |names| ::
                 IsSpelled(names[i], specifications, i, spelling.camelCase(member.name + "_" + referenced[i].propertyName))
  {
  }

  // No name before is the same.
  predicate IsFirstName(names: seq<string>, i: nat) {
    i < |names| && forall k | 0 <= k < i :: names[k] != names[i]
  }

  // What is added for the i-th name: a column of the type of the one it refers to, no key.
  predicate IsAdded(column: RawColumn, names: seq<string>, referenced: seq<EntityColumn>, i: nat, nullable: bool, unique: bool) {
    i < |names| && i < |referenced| && column == RawColumn(names[i], referenced[i].column.typ, false, unique, nullable)
  }

  // The columns after joining are those there were and one new for every name not there yet.
  ghost predicate AddsJoined(before: seq<RawColumn>, after: seq<RawColumn>, names: seq<string>, referenced: seq<EntityColumn>,
                             nullable: bool, unique: bool) {
    && GrowsColumns(before, after)
    && NewAreAdded(before, after, names, referenced, nullable, unique)
    && NewAreDistinct(before, after)
    && (forall i: nat | IsFirstName(names, i) && !HasNamed(before, names[i]) :: HasNamed(after[|before|..], names[i]))
    && OldBecomeUnique(before, after, names, unique)
  }

  ghost predicate NewAreAdded(before: seq<RawColumn>, after: seq<RawColumn>, names: seq<string>, referenced: seq<EntityColumn>,
                              nullable: bool, unique: bool) {
    forall q | |before| <= q < |after| ::
      !HasNamed(before, after[q].name) && IsAddedForFirst(after[q], names, referenced, nullable, unique)
  }

  predicate NewAreDistinct(before: seq<RawColumn>, after: seq<RawColumn>) {
    forall q, r | |before| <= q < r < |after| :: after[q].name != after[r].name
  }

  predicate OldBecomeUnique(before: seq<RawColumn>, after: seq<RawColumn>, names: seq<string>, unique: bool)
    requires |before| <= |after|
  {
    forall q | 0 <= q < |before| :: after[q].unique ==> before[q].unique || (unique && before[q].name in names)
  }

  ghost predicate IsAddedForFirst(column: RawColumn, names: seq<string>, referenced: seq<EntityColumn>, nullable: bool, unique: bool) {
    exists i: nat :: IsFirstName(names, i) && IsAdded(column, names, referenced, i, nullable, unique)
  }

  lemma AddedForFirstStays(column: RawColumn, names: seq<string>, referenced: seq<EntityColumn>, nullable: bool, unique: bool)
    requires |names| == |referenced| && names != []
    requires IsAddedForFirst(column, names[..|names| - 1], referenced[..|names| - 1], nullable, unique)
    ensures IsAddedForFirst(column, names, referenced, nullable, unique) && column.name in names[..|names| - 1]
  {
    var n := |names| - 1;
    var i: nat :| IsFirstName(names[..n], i) && IsAdded(column, names[..n], referenced[..n], i, nullable, unique);
    assert names[..n][i] == names[i] && referenced[..n][i] == referenced[i];
    assert forall k | 0 <= k < i :: names[..n][k] == names[k];
    assert IsFirstName(names, i) && IsAdded(column, names, referenced, i, nullable, unique);
  }

  // What one more name does to the columns, whatever they are.
  predicate AddsOne(mid: seq<RawColumn>, after: seq<RawColumn>, name: string, typ: string, nullable: bool, unique: bool) {
    && GrowsColumns(mid, after)
    && (if HasNamed(mid, name) then |after| == |mid|
        else |after| == |mid| + 1 && after[|mid|] == RawColumn(name, typ, false, unique, nullable))
    && (forall q | 0 <= q < |mid| :: after[q].unique ==> mid[q].unique || (unique && mid[q].name == name))
  }

  lemma JoinedOneAdds(entity: Entity, name: string, typ: string, nullable: bool, unique: bool)
    ensures AddsOne(AllColumns(entity), AllColumns(JoinedOne(entity, name, typ, nullable, unique)), name, typ, nullable, unique)
  {
    var before := AllColumns(entity);
    var column := RawColumn(name, typ, false, false, nullable);
    var added := entity.(implicitColumns := entity.implicitColumns + [column]);
    AddedColumn(entity, column);
    var known := if HasNamed(before, name) then entity else added;
    assert AllColumns(known) == if HasNamed(before, name) then before else before + [column];
    MarkedColumns(known, name);
    if unique {
      MarkedAddsOne(before, AllColumns(known), AllColumns(MarkedUnique(known, name)), name, typ, nullable);
    }
  }

  lemma MarkedAddsOne(before: seq<RawColumn>, known: seq<RawColumn>, after: seq<RawColumn>, name: string, typ: string, nullable: bool)
    requires known == if HasNamed(before, name) then before else before + [RawColumn(name, typ, false, false, nullable)]
    requires match FirstNamed(known, name) case None => after == known case Some(i) => after == known[i := known[i].(unique := true)]
    ensures AddsOne(before, after, name, typ, nullable, true)
  {
    if !HasNamed(before, name) {
      FirstIsThere(known, name, |before|);
    }
  }

  lemma AddedStaysAdded(before: seq<RawColumn>, mid: seq<RawColumn>, after: seq<RawColumn>, names: seq<string>,
                        referenced: seq<EntityColumn>, nullable: bool, unique: bool)
    requires |names| == |referenced| && names != [] && |before| <= |mid|
    requires NewAreAdded(before, mid, names[..|names| - 1], referenced[..|names| - 1], nullable, unique)
    requires AddsOne(mid, after, names[|names| - 1], referenced[|names| - 1].column.typ, nullable, unique)
    ensures forall q | |before| <= q < |mid| :: after[q] == mid[q]
    ensures NewAreAdded(before, after[..|mid|], names, referenced, nullable, unique)
  {
    forall q | |before| <= q < |mid|
      ensures after[q] == mid[q] && !HasNamed(before, after[q].name) && IsAddedForFirst(after[q], names, referenced, nullable, unique)
    {
      AddedForFirstStays(mid[q], names, referenced, nullable, unique);
      assert GrowsColumn(mid[q], after[q]);
    }
  }

  lemma LastIsAdded(before: seq<RawColumn>, mid: seq<RawColumn>, after: seq<RawColumn>, names: seq<string>,
                    referenced: seq<EntityColumn>, nullable: bool, unique: bool)
    requires |names| == |referenced| && names != [] && GrowsColumns(before, mid)
    requires forall k | 0 <= k < |names| - 1 :: HasNamed(mid, names[k])
    requires AddsOne(mid, after, names[|names| - 1], referenced[|names| - 1].column.typ, nullable, unique)
    requires !HasNamed(mid, names[|names| - 1])
    ensures var n := |mid|;
            !HasNamed(before, after[n].name) && IsAddedForFirst(after[n], names, referenced, nullable, unique)
            && forall q | 0 <= q < n :: after[q].name != after[n].name
  {
    var n := |names| - 1;
    assert IsFirstName(names, n) && IsAdded(after[|mid|], names, referenced, n, nullable, unique);
    if HasNamed(before, names[n]) {
      GrowthKeepsFirst(before, mid, names[n]);
    }
    assert forall q | 0 <= q < |mid| :: GrowsColumn(mid[q], after[q]);
  }

  lemma OldUniqueStays(before: seq<RawColumn>, mid: seq<RawColumn>, after: seq<RawColumn>, names: seq<string>,
                       typ: string, nullable: bool, unique: bool)
    requires names != [] && GrowsColumns(before, mid) && OldBecomeUnique(before, mid, names[..|names| - 1], unique)
    requires AddsOne(mid, after, names[|names| - 1], typ, nullable, unique)
    ensures OldBecomeUnique(before, after, names, unique)
  {
    forall q | 0 <= q < |before| && after[q].unique ensures before[q].unique || (unique && before[q].name in names) {
      assert GrowsColumn(before[q], mid[q]);
    }
  }

  lemma NamesAreThere(before: seq<RawColumn>, after: seq<RawColumn>, name: string)
    requires GrowsColumns(before, after) && HasNamed(after, name) && !HasNamed(before, name)
    ensures HasNamed(after[|before|..], name)
  {
    assert forall i | 0 <= i < |before| :: GrowsColumn(before[i], after[i]);
    var i :| 0 <= i < |after| && after[i].name == name;
    assert after[|before|..][i - |before|] == after[i];
  }

  lemma NewWithLast(before: seq<RawColumn>, mid: seq<RawColumn>, after: seq<RawColumn>, names: seq<string>,
                    referenced: seq<EntityColumn>, nullable: bool, unique: bool)
    requires |names| == |referenced| && names != [] && GrowsColumns(before, mid)
    requires NewAreAdded(before, mid, names[..|names| - 1], referenced[..|names| - 1], nullable, unique) && NewAreDistinct(before, mid)
    requires forall k | 0 <= k < |names| - 1 :: HasNamed(mid, names[k])
    requires AddsOne(mid, after, names[|names| - 1], referenced[|names| - 1].column.typ, nullable, unique)
    ensures NewAreAdded(before, after, names, referenced, nullable, unique) && NewAreDistinct(before, after)
  {
    AddedStaysAdded(before, mid, after, names, referenced, nullable, unique);
    if !HasNamed(mid, names[|names| - 1]) {
      LastIsAdded(before, mid, after, names, referenced, nullable, unique);
    }
    forall q | |before| <= q < |after| ensures !HasNamed(before, after[q].name) && IsAddedForFirst(after[q], names, referenced, nullable, unique) {
      if q < |mid| { assert after[..|mid|][q] == after[q]; }
    }
  }

  lemma OneMoreAdded(before: seq<RawColumn>, mid: seq<RawColumn>, after: seq<RawColumn>, names: seq<string>,
                     referenced: seq<EntityColumn>, nullable: bool, unique: bool)
    requires |names| == |referenced| && names != []
    requires AddsJoined(before, mid, names[..|names| - 1], referenced[..|names| - 1], nullable, unique)
    requires forall k | 0 <= k < |names| - 1 :: HasNamed(mid, names[k])
    requires AddsOne(mid, after, names[|names| - 1], referenced[|names| - 1].column.typ, nullable, unique)
    requires forall k | 0 <= k < |names| :: HasNamed(after, names[k])
    ensures AddsJoined(before, after, names, referenced, nullable, unique)
  {
    GrowsColumnsTransitive(before, mid, after);
    NewWithLast(before, mid, after, names, referenced, nullable, unique);
    forall i: nat | IsFirstName(names, i) && !HasNamed(before, names[i]) ensures HasNamed(after[|before|..], names[i]) {
      NamesAreThere(before, after, names[i]);
    }
    OldUniqueStays(before, mid, after, names, referenced[|names| - 1].column.typ, nullable, unique);
  }

  // Joining adds one column for every name that is not there yet, of the type of the first
  // column it refers to, and changes nothing else but unique.
  lemma {:induction false} JoinedAllAdds(entity: Entity, names: seq<string>, referenced: seq<EntityColumn>, nullable: bool, unique: bool)
    requires |names| == |referenced|
    ensures AddsJoined(AllColumns(entity), AllColumns(JoinedAll(entity, names, referenced, nullable, unique)), names, referenced, nullable, unique)
  {
    if names != [] {
      var n := |names| - 1;
      var mid := JoinedAll(entity, names[..n], referenced[..n], nullable, unique);
      var joined := JoinedAll(entity, names, referenced, nullable, unique);
      JoinedAllAdds(entity, names[..n], referenced[..n], nullable, unique);
      JoinedAllGrows(entity, names[..n], referenced[..n], nullable, unique);
      JoinedAllGrows(entity, names, referenced, nullable, unique);
      JoinedOneAdds(mid, names[n], referenced[n].column.typ, nullable, unique);
      forall k | 0 <= k < n ensures HasNamed(AllColumns(mid), names[k]) {
        assert NameIsJoined(mid, names[..n][k], unique);
      }
      OneMoreAdded(AllColumns(entity), AllColumns(mid), AllColumns(joined), names, referenced, nullable, unique);
    }
  }

  // ----- junction tables

  function JunctionName(end: Entity, specifications: seq<Value>, referenced: seq<EntityColumn>, spelling: Spelling, i: nat): string
    requires i < |referenced|
  {
    NameOption(Specification(specifications, i), "name", spelling.camelCase(end.tableName + "_" + referenced[i].column.name))
  }

  function JunctionColumns(end: Entity, specifications: seq<Value>, referenced: seq<EntityColumn>, spelling: Spelling): seq<RawColumn> {
    seq(|referenced|, i requires 0 <= i < |referenced| =>
      RawColumn(JunctionName(end, specifications, referenced, spelling, i), referenced[i].column.typ, true, false, false))
  }

  function JunctionLinks(tableName: string, end: Entity, specifications: seq<Value>,
                        referenced: seq<EntityColumn>, spelling: Spelling): seq<Link> {
    seq(|referenced|, i requires 0 <= i < |referenced| =>
      Link(End(tableName, JunctionName(end, specifications, referenced, spelling, i)), End(end.tableName, referenced[i].column.name)))
  }

  // A junction table holds at least one column for either end, all of them key columns.
  predicate IsJunction(table: RawTable) {
    |table.columns| >= 2 && forall i | 0 <= i < |table.columns| :: table.columns[i].primaryKey && !table.columns[i].unique
  }

  lemma {:induction false} AllKeys(columns: seq<RawColumn>)
    requires forall i | 0 <= i < |columns| :: columns[i].primaryKey
    ensures PrimaryKeys(columns) == |columns|
  {
    if columns != [] {
      AllKeys(columns[..|columns| - 1]);
    }
  }

  lemma JunctionIsManyToOne(table: RawTable, name: string)
    requires IsJunction(table)
    ensures ForeignKeyCardinality(table.columns, name) == MANY_TO_ONE
  {
    AllKeys(table.columns);
  }

  // ----- unique indexes

  function PropertyColumns(columns: seq<EntityColumn>, property: string): seq<string> {
    if columns == [] then []
    else
      PropertyColumns(columns[..|columns| - 1], property)
      + if columns[|columns| - 1].propertyName == property then [columns[|columns| - 1].column.name] else []
  }

  function ColumnsOfProperty(entity: Entity, property: string): seq<string> {
    if property in entity.joinColumnsOfProperty then entity.joinColumnsOfProperty[property]
    else PropertyColumns(entity.columns, property)
  }

  function ColumnsOfProperties(entity: Entity, properties: seq<string>): seq<string> {
    if properties == [] then []
    else ColumnsOfProperties(entity, properties[..|properties| - 1]) + ColumnsOfProperty(entity, properties[|properties| - 1])
  }

  function MarkedSingle(entity: Entity, properties: seq<string>): Entity {
    var names := ColumnsOfProperties(entity, properties);
    if |names| == 1 then MarkedUnique(entity, names[0]) else entity
  }

  predicate IsUniqueMember(member: Member) {
    exists i :: 0 <= i < |member.decorators| && member.decorators[i].name == "Index" && IsUniqueIndex(member.decorators[i])
  }

  function MemberIndexes(members: seq<Member>): seq<seq<string>> {
    if members == [] then []
    else
      var last, before := members[|members| - 1], MemberIndexes(members[..|members| - 1]);
      if IsUniqueMember(last) then before + [[last.name]] else before
  }

  predicate IsSingleIndex(decorator: Decorator) {
    IsUniqueIndex(decorator)
    && IndexedFieldNames(decorator.arguments).Some? && |IndexedFieldNames(decorator.arguments).value| == 1
  }

  function ClassIndexes(decorators: seq<Decorator>): seq<seq<string>> {
    if decorators == [] then []
    else
      var last, before := decorators[|decorators| - 1], ClassIndexes(decorators[..|decorators| - 1]);
      if IsSingleIndex(last) then before + [IndexedFieldNames(last.arguments).value] else before
  }

  // The properties of every unique index over one property, in the order they are marked.
  function UniqueIndexes(entity: Entity): seq<seq<string>> {
    MemberIndexes(entity.members) + ClassIndexes(entity.classDecorators)
  }

  function MarkedAll(entity: Entity, indexes: seq<seq<string>>): Entity {
    if indexes == [] then entity
    else MarkedSingle(MarkedAll(entity, indexes[..|indexes| - 1]), indexes[|indexes| - 1])
  }

  lemma MarkingKeepsProperties(entity: Entity, name: string, properties: seq<string>)
    ensures ColumnsOfProperties(MarkedUnique(entity, name), properties) == ColumnsOfProperties(entity, properties)
  {
    var marked := MarkedUnique(entity, name);
    assert |marked.columns| == |entity.columns|;
    forall property ensures ColumnsOfProperty(marked, property) == ColumnsOfProperty(entity, property) {
      SamePropertyColumns(entity.columns, marked.columns, property);
    }
    SameColumnsOfProperties(entity, marked, properties);
  }

  lemma {:induction false} SamePropertyColumns(a: seq<EntityColumn>, b: seq<EntityColumn>, property: string)
    requires |a| == |b| && forall i | 0 <= i < |a| :: a[i].propertyName == b[i].propertyName && a[i].column.name == b[i].column.name
    ensures PropertyColumns(a, property) == PropertyColumns(b, property)
  {
    if a != [] {
      SamePropertyColumns(a[..|a| - 1], b[..|b| - 1], property);
    }
  }

  lemma {:induction false} SameColumnsOfProperties(a: Entity, b: Entity, properties: seq<string>)
    requires forall property :: ColumnsOfProperty(a, property) == ColumnsOfProperty(b, property)
    ensures ColumnsOfProperties(a, properties) == ColumnsOfProperties(b, properties)
  {
    if properties != [] {
      SameColumnsOfProperties(a, b, properties[..|properties| - 1]);
    }
  }

  // The index stands for this column and no other.
  ghost predicate Marks(entity: Entity, index: seq<string>, name: string) {
    ColumnsOfProperties(entity, index) == [name]
  }

  ghost predicate IsMarked(entity: Entity, indexes: seq<seq<string>>, name: string) {
    exists i :: 0 <= i < |indexes| && Marks(entity, indexes[i], name)
  }

  lemma MarkedByLast(entity: Entity, indexes: seq<seq<string>>, name: string)
    requires indexes != []
    ensures var n := |indexes| - 1;
            IsMarked(entity, indexes, name) <==> IsMarked(entity, indexes[..n], name) || Marks(entity, indexes[n], name)
  {
    var n := |indexes| - 1;
    assert forall i | 0 <= i < n :: indexes[..n][i] == indexes[i];
  }

  ghost predicate SameProperties(a: Entity, b: Entity) {
    forall properties :: ColumnsOfProperties(a, properties) == ColumnsOfProperties(b, properties)
  }

  // The entity grew, kept its columns, and of one name the first column is unique exactly
  // when it was or is marked.
  ghost predicate MarkedFor(before: Entity, after: Entity, name: string, marked: bool) {
    && GrowsEntity(before, after) && SameProperties(before, after) && |AllColumns(after)| == |AllColumns(before)|
    && (FirstIsUnique(AllColumns(after), name)
        <==> FirstIsUnique(AllColumns(before), name) || (HasNamed(AllColumns(before), name) && marked))
  }

  lemma MarkedTwice(a: Entity, b: Entity, c: Entity, name: string, first: bool, second: bool)
    requires MarkedFor(a, b, name, first) && MarkedFor(b, c, name, second)
    ensures MarkedFor(a, c, name, first || second)
  {
    GrowsEntityTransitive(a, b, c);
    SameNames(a, b, name);
  }

  lemma MarkedNothing(entity: Entity, name: string)
    ensures MarkedFor(entity, entity, name, false)
  {
  }

  // A column is unique afterwards exactly when it was before or some single index means it;
  // nothing else about the entity changes.
  lemma {:induction false} MarkedAllIsExact(entity: Entity, indexes: seq<seq<string>>, name: string)
    ensures MarkedFor(entity, MarkedAll(entity, indexes), name, IsMarked(entity, indexes, name))
  {
    if indexes == [] {
      MarkedNothing(entity, name);
    } else {
      var n := |indexes| - 1;
      var before := MarkedAll(entity, indexes[..n]);
      MarkedAllIsExact(entity, indexes[..n], name);
      MarkedSingleIsExact(before, indexes[n], name);
      assert Marks(before, indexes[n], name) <==> Marks(entity, indexes[n], name);
      MarkedTwice(entity, before, MarkedAll(entity, indexes), name, IsMarked(entity, indexes[..n], name), Marks(entity, indexes[n], name));
      MarkedByLast(entity, indexes, name);
    }
  }

  lemma SameNames(before: Entity, after: Entity, name: string)
    requires GrowsEntity(before, after) && |AllColumns(after)| == |AllColumns(before)|
    ensures HasNamed(AllColumns(after), name) <==> HasNamed(AllColumns(before), name)
  {
    var a, b := AllColumns(before), AllColumns(after);
    assert forall i | 0 <= i < |a| :: GrowsColumn(a[i], b[i]);
  }

  lemma MarkedSingleIsExact(entity: Entity, index: seq<string>, name: string)
    ensures MarkedFor(entity, MarkedSingle(entity, index), name, Marks(entity, index, name))
  {
    var names := ColumnsOfProperties(entity, index);
    if |names| == 1 {
      MarkedColumns(entity, names[0]);
      MarkedIsUnique(entity, names[0], name);
      assert names == [names[0]];
      forall properties ensures ColumnsOfProperties(MarkedUnique(entity, names[0]), properties) == ColumnsOfProperties(entity, properties) {
        MarkingKeepsProperties(entity, names[0], properties);
      }
    } else {
      MarkedNothing(entity, name);
    }
  }
}
