/** figura/scripts/erd-source-typeorm.mjs: the schema word by word. Where its relations
    start and end, how its join columns and junction tables are called, what type they have,
    and where each of them comes from. */
module TypeormNames {
  import opened ErdTypes
  import opened ErdModel
  import opened TypeormEntities
  import opened TypeormJoins
  import opened TypeormResolution
  import opened TypeormDrafts
  import opened TypeormSchema

  // ----- the columns of the entities

  // A relation member that leads to join columns of its own entity.
  ghost predicate IsJoined(entities: seq<Entity>, e: nat, r: RelationOf)
    requires e < |entities|
  {
    IsDrawn(entities, e, r) && r.decorator.name != "ManyToMany"
  }

  ghost predicate IsJoinName(entities: seq<Entity>, e: nat, r: RelationOf, i: nat, name: string, spelling: Spelling)
    requires e < |entities|
  {
    IsJoined(entities, e, r)
    && var referenced := JoinReferenced(entities, r, DrawnTarget(entities, e, r));
       i < |referenced|
       && IsSpelled(name, JoinSpecificationsOf(r.member), i, spelling.camelCase(r.member.name + "_" + referenced[i].propertyName))
  }

  // The i-th join column of a relation member: its name, its type, and no key.
  ghost predicate IsJoinColumn(entities: seq<Entity>, e: nat, r: RelationOf, i: nat, column: RawColumn, spelling: Spelling)
    requires e < |entities|
  {
    IsJoinName(entities, e, r, i, column.name, spelling)
    && column.typ == JoinReferenced(entities, r, DrawnTarget(entities, e, r))[i].column.typ
    && !column.primaryKey && (column.nullable <==> !SaysNotNull(r.decorator))
  }

  ghost predicate IsSomeJoinColumn(entities: seq<Entity>, e: nat, relations: seq<RelationOf>, column: RawColumn, spelling: Spelling)
    requires e < |entities|
  {
    exists k, i: nat :: 0 <= k < |relations| && IsJoinColumn(entities, e, relations[k], i, column, spelling)
  }

  ghost predicate IsSomeOneToOne(entities: seq<Entity>, e: nat, relations: seq<RelationOf>, name: string, spelling: Spelling)
    requires e < |entities|
  {
    exists k, i: nat :: 0 <= k < |relations| && relations[k].decorator.name == "OneToOne"
                        && IsJoinName(entities, e, relations[k], i, name, spelling)
  }

  // Every column that was not read is a join column, and only one-to-one relations make
  // columns unique.
  ghost predicate ColumnsComeFrom(entities: seq<Entity>, e: nat, relations: seq<RelationOf>, before: seq<RawColumn>, after: seq<RawColumn>,
                                  spelling: Spelling)
    requires e < |entities|
  {
    && GrowsColumns(before, after)
    && (forall q | |before| <= q < |after| :: IsSomeJoinColumn(entities, e, relations, after[q], spelling))
    && (forall q | 0 <= q < |after| && after[q].unique ::
          (q < |before| && before[q].unique) || IsSomeOneToOne(entities, e, relations, after[q].name, spelling))
  }

  lemma ComesFromMore(entities: seq<Entity>, e: nat, relations: seq<RelationOf>, before: seq<RawColumn>, after: seq<RawColumn>,
                      spelling: Spelling)
    requires e < |entities| && relations != []
    requires ColumnsComeFrom(entities, e, relations[..|relations| - 1], before, after, spelling)
    ensures ColumnsComeFrom(entities, e, relations, before, after, spelling)
  {
    forall q | |before| <= q < |after| ensures IsSomeJoinColumn(entities, e, relations, after[q], spelling) {
      JoinColumnOfMore(entities, e, relations, after[q], spelling);
    }
    forall q | 0 <= q < |after| && after[q].unique
      ensures (q < |before| && before[q].unique) || IsSomeOneToOne(entities, e, relations, after[q].name, spelling)
    {
      OneToOneOfMore(entities, e, relations, after[q].name, spelling);
    }
  }

  lemma JoinColumnOfMore(entities: seq<Entity>, e: nat, relations: seq<RelationOf>, column: RawColumn, spelling: Spelling)
    requires e < |entities| && relations != []
    ensures IsSomeJoinColumn(entities, e, relations[..|relations| - 1], column, spelling)
            ==> IsSomeJoinColumn(entities, e, relations, column, spelling)
  {
    var front := relations[..|relations| - 1];
    if IsSomeJoinColumn(entities, e, front, column, spelling) {
      var k, i: nat :| 0 <= k < |front| && IsJoinColumn(entities, e, front[k], i, column, spelling);
      assert relations[k] == front[k];
    }
  }

  lemma OneToOneOfMore(entities: seq<Entity>, e: nat, relations: seq<RelationOf>, name: string, spelling: Spelling)
    requires e < |entities| && relations != []
    ensures IsSomeOneToOne(entities, e, relations[..|relations| - 1], name, spelling) ==> IsSomeOneToOne(entities, e, relations, name, spelling)
  {
    var front := relations[..|relations| - 1];
    if IsSomeOneToOne(entities, e, front, name, spelling) {
      var k, i: nat :| 0 <= k < |front| && front[k].decorator.name == "OneToOne" && IsJoinName(entities, e, front[k], i, name, spelling);
      assert relations[k] == front[k];
    }
  }

  // What one relation adds, given the names of its links.
  lemma AddedIsJoinColumn(entities: seq<Entity>, e: nat, r: RelationOf, names: seq<string>, column: RawColumn, spelling: Spelling) returns (i: nat)
    requires e < |entities| && IsJoined(entities, e, r)
    requires var t := DrawnTarget(entities, e, r);
             names == SourceColumns(JoinedLinks(entities, e, r, t, JoinReferenced(entities, r, t), spelling))
             && IsAddedForFirst(column, names, JoinReferenced(entities, r, t), !SaysNotNull(r.decorator), r.decorator.name == "OneToOne")
    ensures IsJoinColumn(entities, e, r, i, column, spelling) && (column.unique <==> r.decorator.name == "OneToOne")
  {
    var t := DrawnTarget(entities, e, r);
    var referenced := JoinReferenced(entities, r, t);
    JoinedLinksAreSpelled(entities, e, r, t, referenced, spelling);
    i :| IsFirstName(names, i) && IsAdded(column, names, referenced, i, !SaysNotNull(r.decorator), r.decorator.name == "OneToOne");
  }

  lemma NamedIsJoinName(entities: seq<Entity>, e: nat, r: RelationOf, names: seq<string>, name: string, spelling: Spelling) returns (i: nat)
    requires e < |entities| && IsJoined(entities, e, r) && name in names
    requires var t := DrawnTarget(entities, e, r);
             names == SourceColumns(JoinedLinks(entities, e, r, t, JoinReferenced(entities, r, t), spelling))
    ensures IsJoinName(entities, e, r, i, name, spelling)
  {
    var t := DrawnTarget(entities, e, r);
    JoinedLinksAreSpelled(entities, e, r, t, JoinReferenced(entities, r, t), spelling);
    i :| i < |names| && names[i] == name;
  }

  lemma OneMoreComesFrom(entities: seq<Entity>, e: nat, relations: seq<RelationOf>, before: seq<RawColumn>, mid: seq<RawColumn>,
                         after: seq<RawColumn>, names: seq<string>, spelling: Spelling)
    requires e < |entities| && relations != [] && IsJoined(entities, e, relations[|relations| - 1])
    requires ColumnsComeFrom(entities, e, relations, before, mid, spelling)
    requires var r := relations[|relations| - 1];
             var t := DrawnTarget(entities, e, r);
             names == SourceColumns(JoinedLinks(entities, e, r, t, JoinReferenced(entities, r, t), spelling))
             && ColumnsAreJoined(mid, after, names, r, JoinReferenced(entities, r, t))
    ensures ColumnsComeFrom(entities, e, relations, before, after, spelling)
  {
    var r := relations[|relations| - 1];
    GrowsColumnsTransitive(before, mid, after);
    forall q | |before| <= q < |after| ensures IsSomeJoinColumn(entities, e, relations, after[q], spelling) {
      if q < |mid| {
        GrownIsSomeJoinColumn(entities, e, relations, mid[q], after[q], spelling);
      } else {
        var i := AddedIsJoinColumn(entities, e, r, names, after[q], spelling);
      }
    }
    forall q | 0 <= q < |after| && after[q].unique
      ensures (q < |before| && before[q].unique) || IsSomeOneToOne(entities, e, relations, after[q].name, spelling)
    {
      if q < |mid| {
        assert GrowsColumn(mid[q], after[q]);
        if !mid[q].unique {
          var i := NamedIsJoinName(entities, e, r, names, mid[q].name, spelling);
        }
      } else {
        var i := AddedIsJoinColumn(entities, e, r, names, after[q], spelling);
      }
    }
  }

  lemma GrownIsSomeJoinColumn(entities: seq<Entity>, e: nat, relations: seq<RelationOf>, before: RawColumn, after: RawColumn, spelling: Spelling)
    requires e < |entities| && GrowsColumn(before, after) && IsSomeJoinColumn(entities, e, relations, before, spelling)
    ensures IsSomeJoinColumn(entities, e, relations, after, spelling)
  {
    var k, i: nat :| 0 <= k < |relations| && IsJoinColumn(entities, e, relations[k], i, before, spelling);
    assert IsJoinColumn(entities, e, relations[k], i, after, spelling);
  }

  lemma {:induction false} EntityColumnsComeFrom(entities: seq<Entity>, e: nat, relations: seq<RelationOf>, entity: Entity, spelling: Spelling)
    requires e < |entities|
    ensures ColumnsComeFrom(entities, e, relations, AllColumns(entity), AllColumns(EntityAfter(entities, e, relations, entity, spelling)), spelling)
  {
    if relations != [] {
      var front, r := relations[..|relations| - 1], relations[|relations| - 1];
      var mid := EntityAfter(entities, e, front, entity, spelling);
      EntityColumnsComeFrom(entities, e, front, entity, spelling);
      ComesFromMore(entities, e, relations, AllColumns(entity), AllColumns(mid), spelling);
      if IsJoined(entities, e, r) {
        var t := DrawnTarget(entities, e, r);
        var referenced := JoinReferenced(entities, r, t);
        JoinedColumnsAre(entities, e, r, t, referenced, mid, spelling);
        OneMoreComesFrom(entities, e, relations, AllColumns(entity), AllColumns(mid),
                         AllColumns(EntityWith(entities, e, r, mid, spelling)),
                         SourceColumns(JoinedLinks(entities, e, r, t, referenced, spelling)), spelling);
      }
    }
  }

  // Of every entity of a schema, each column behind those it was read with is the join
  // column of one of its relation members.
  lemma ColumnsAreReadOrJoined(classes: seq<ClassDeclaration>, entities: seq<Entity>, origins: seq<Origin>, warnings: set<Note>,
                               spelling: Spelling, e: nat, q: nat)
    requires IsResult(classes, entities, origins, warnings, spelling) && e < |entities|
    ensures var read := InitialEntities(classes, ByName(classes), spelling);
            |AllColumns(read[e])| <= q < |AllColumns(entities[e])| ==>
              IsSomeJoinColumn(read, e, read[e].relationMembers, AllColumns(entities[e])[q], spelling)
  {
    var read := InitialEntities(classes, ByName(classes), spelling);
    var joined := JoinedEntities(classes, spelling)[e];
    if |AllColumns(read[e])| <= q < |AllColumns(entities[e])| {
      EntityColumnsComeFrom(read, e, read[e].relationMembers, read[e], spelling);
      MarkedAllIsExact(joined, UniqueIndexes(joined), "");
      assert GrowsColumn(AllColumns(joined)[q], AllColumns(entities[e])[q]);
      GrownIsSomeJoinColumn(read, e, read[e].relationMembers, AllColumns(joined)[q], AllColumns(entities[e])[q], spelling);
    }
  }

  // ----- the columns a property means

  // A joined member of that name.
  ghost predicate SetsProperty(entities: seq<Entity>, e: nat, r: RelationOf, property: string)
    requires e < |entities|
  {
    IsJoined(entities, e, r) && r.member.name == property
  }

  ghost predicate IsLastJoined(entities: seq<Entity>, e: nat, relations: seq<RelationOf>, k: nat, property: string)
    requires e < |entities|
  {
    && k < |relations| && SetsProperty(entities, e, relations[k], property)
    && NoneBehind(entities, e, relations, k, property)
  }

  ghost predicate NoneJoined(entities: seq<Entity>, e: nat, relations: seq<RelationOf>, property: string)
    requires e < |entities|
  {
    forall l | 0 <= l < |relations| :: !SetsProperty(entities, e, relations[l], property)
  }

  lemma JoinedSetsProperty(entities: seq<Entity>, e: nat, r: RelationOf, entity: Entity, spelling: Spelling)
    requires e < |entities|
    ensures var after := EntityWith(entities, e, r, entity, spelling).joinColumnsOfProperty;
            after == if IsJoined(entities, e, r)
                     then entity.joinColumnsOfProperty[r.member.name := SourceColumns(DraftOne(entities, e, r, spelling).links)]
                     else entity.joinColumnsOfProperty
  {
    if IsJoined(entities, e, r) {
      var t := DrawnTarget(entities, e, r);
      var referenced := JoinReferenced(entities, r, t);
      var names := JoinNames(r.member, JoinSpecificationsOf(r.member), referenced, spelling);
      JoinedAllKeepsRest(entity, names, referenced, IsNullable(r.decorator), r.decorator.name == "OneToOne");
      assert SourceColumns(DraftOne(entities, e, r, spelling).links) == names;
    }
  }

  lemma LastIsLastJoined(entities: seq<Entity>, e: nat, relations: seq<RelationOf>, k: nat, property: string)
    requires e < |entities| && relations != [] && SetsProperty(entities, e, relations[|relations| - 1], property)
    ensures (IsLastJoined(entities, e, relations, k, property) <==> k == |relations| - 1) && !NoneJoined(entities, e, relations, property)
  {
  }

  // None of the relations behind k sets the property.
  ghost predicate NoneBehind(entities: seq<Entity>, e: nat, relations: seq<RelationOf>, k: nat, property: string)
    requires e < |entities|
  {
    forall l | k < l < |relations| :: !SetsProperty(entities, e, relations[l], property)
  }

  lemma NoneBehindInFront(entities: seq<Entity>, e: nat, relations: seq<RelationOf>, k: nat, property: string)
    requires e < |entities| && relations != [] && !SetsProperty(entities, e, relations[|relations| - 1], property)
    ensures NoneBehind(entities, e, relations, k, property) <==> NoneBehind(entities, e, relations[..|relations| - 1], k, property)
  {
    var front := relations[..|relations| - 1];
    assert forall l | 0 <= l < |front| :: front[l] == relations[l];
  }

  lemma LastJoinedInFront(entities: seq<Entity>, e: nat, relations: seq<RelationOf>, k: nat, property: string)
    requires e < |entities| && relations != [] && !SetsProperty(entities, e, relations[|relations| - 1], property)
    ensures IsLastJoined(entities, e, relations, k, property) <==> IsLastJoined(entities, e, relations[..|relations| - 1], k, property)
  {
    NoneBehindInFront(entities, e, relations, k, property);
  }

  lemma NoneJoinedInFront(entities: seq<Entity>, e: nat, relations: seq<RelationOf>, property: string)
    requires e < |entities| && relations != [] && !SetsProperty(entities, e, relations[|relations| - 1], property)
    ensures NoneJoined(entities, e, relations, property) <==> NoneJoined(entities, e, relations[..|relations| - 1], property)
  {
    var front := relations[..|relations| - 1];
    assert forall l | 0 <= l < |front| :: front[l] == relations[l];
  }

  // A property of a joined member means the join columns of the last member of that name.
  ghost predicate MeansJoins(entities: seq<Entity>, e: nat, relations: seq<RelationOf>, before: map<string, seq<string>>,
                             after: map<string, seq<string>>, property: string, spelling: Spelling)
    requires e < |entities|
  {
    && (NoneJoined(entities, e, relations, property) ==>
          (property in after <==> property in before) && (property in after ==> after[property] == before[property]))
    && (forall k: nat | IsLastJoined(entities, e, relations, k, property) ::
          property in after && after[property] == SourceColumns(DraftOne(entities, e, relations[k], spelling).links))
  }

  lemma {:induction false} PropertyMeansJoins(entities: seq<Entity>, e: nat, relations: seq<RelationOf>, entity: Entity, spelling: Spelling,
                                              property: string)
    requires e < |entities|
    ensures MeansJoins(entities, e, relations, entity.joinColumnsOfProperty,
                       EntityAfter(entities, e, relations, entity, spelling).joinColumnsOfProperty, property, spelling)
  {
    if relations != [] {
      var n := |relations| - 1;
      var front, r := relations[..n], relations[n];
      var mid := EntityAfter(entities, e, front, entity, spelling);
      PropertyMeansJoins(entities, e, front, entity, spelling, property);
      JoinedSetsProperty(entities, e, r, mid, spelling);
      OneMoreMeant(entities, e, relations, entity.joinColumnsOfProperty, mid.joinColumnsOfProperty,
                   EntityWith(entities, e, r, mid, spelling).joinColumnsOfProperty, property, spelling);
    }
  }

  lemma OneMoreMeant(entities: seq<Entity>, e: nat, relations: seq<RelationOf>, before: map<string, seq<string>>,
                     mid: map<string, seq<string>>, after: map<string, seq<string>>, property: string, spelling: Spelling)
    requires e < |entities| && relations != []
    requires MeansJoins(entities, e, relations[..|relations| - 1], before, mid, property, spelling)
    requires var r := relations[|relations| - 1];
             after == if IsJoined(entities, e, r) then mid[r.member.name := SourceColumns(DraftOne(entities, e, r, spelling).links)] else mid
    ensures MeansJoins(entities, e, relations, before, after, property, spelling)
  {
    var n := |relations| - 1;
    if SetsProperty(entities, e, relations[|relations| - 1], property) {
      forall k: nat ensures IsLastJoined(entities, e, relations, k, property) <==> k == n {
        LastIsLastJoined(entities, e, relations, k, property);
      }
      LastIsLastJoined(entities, e, relations, n, property);
    } else {
      NoneJoinedInFront(entities, e, relations, property);
      forall k: nat | IsLastJoined(entities, e, relations, k, property)
        ensures property in after && after[property] == SourceColumns(DraftOne(entities, e, relations[k], spelling).links)
      {
        LastJoinedInFront(entities, e, relations, k, property);
        assert relations[..n][k] == relations[k];
      }
    }
  }

  // The one column of a property that was read.
  ghost predicate IsOnlyColumnOf(columns: seq<EntityColumn>, property: string, name: string) {
    exists i :: 0 <= i < |columns| && columns[i].propertyName == property && columns[i].column.name == name
                && forall j | 0 <= j < |columns| && j != i :: columns[j].propertyName != property
  }

  lemma {:induction false} NoColumnOf(columns: seq<EntityColumn>, property: string)
    ensures PropertyColumns(columns, property) == [] <==> forall i | 0 <= i < |columns| :: columns[i].propertyName != property
  {
    if columns != [] {
      var n := |columns| - 1;
      NoColumnOf(columns[..n], property);
      assert forall i | 0 <= i < n :: columns[..n][i] == columns[i];
      if columns[n].propertyName == property {
        assert |PropertyColumns(columns, property)| == |PropertyColumns(columns[..n], property)| + 1;
      } else {
        assert PropertyColumns(columns, property) == PropertyColumns(columns[..n], property);
      }
    }
  }

  lemma {:induction false} OnlyColumnIff(columns: seq<EntityColumn>, property: string, name: string)
    ensures PropertyColumns(columns, property) == [name] <==> IsOnlyColumnOf(columns, property, name)
  {
    if columns != [] {
      var n := |columns| - 1;
      var front := columns[..n];
      OnlyColumnIff(front, property, name);
      NoColumnOf(front, property);
      assert forall i | 0 <= i < n :: front[i] == columns[i];
      if columns[n].propertyName == property {
        assert PropertyColumns(columns, property) == PropertyColumns(front, property) + [columns[n].column.name];
        OneColumnLast(PropertyColumns(front, property), columns[n].column.name, name);
        OnlyColumnLast(columns, property, name);
      } else {
        assert PropertyColumns(columns, property) == PropertyColumns(front, property);
        OnlyColumnInFront(columns, property, name);
      }
    }
  }

  lemma OneColumnLast(front: seq<string>, last: string, name: string)
    ensures front + [last] == [name] <==> front == [] && last == name
  {
    if front + [last] == [name] {
      assert |front + [last]| == 1;
      assert (front + [last])[0] == name;
    }
  }

  lemma OnlyColumnLast(columns: seq<EntityColumn>, property: string, name: string)
    requires columns != [] && columns[|columns| - 1].propertyName == property
    ensures IsOnlyColumnOf(columns, property, name)
            <==> columns[|columns| - 1].column.name == name && forall i | 0 <= i < |columns| - 1 :: columns[i].propertyName != property
  {
    var n := |columns| - 1;
    if IsOnlyColumnOf(columns, property, name) {
      var i :| 0 <= i < |columns| && columns[i].propertyName == property && columns[i].column.name == name
               && forall j | 0 <= j < |columns| && j != i :: columns[j].propertyName != property;
      assert i == n;
    }
    if columns[n].column.name == name && forall i | 0 <= i < n :: columns[i].propertyName != property {
      assert columns[n].propertyName == property;
    }
  }

  lemma OnlyColumnInFront(columns: seq<EntityColumn>, property: string, name: string)
    requires columns != [] && columns[|columns| - 1].propertyName != property
    ensures IsOnlyColumnOf(columns, property, name) <==> IsOnlyColumnOf(columns[..|columns| - 1], property, name)
  {
    var n := |columns| - 1;
    var front := columns[..n];
    assert forall i | 0 <= i < n :: front[i] == columns[i];
    if IsOnlyColumnOf(front, property, name) {
      var i :| 0 <= i < |front| && front[i].propertyName == property && front[i].column.name == name
               && forall j | 0 <= j < |front| && j != i :: front[j].propertyName != property;
      assert columns[i].propertyName == property && forall j | 0 <= j < |columns| && j != i :: columns[j].propertyName != property;
    }
    if IsOnlyColumnOf(columns, property, name) {
      var i :| 0 <= i < |columns| && columns[i].propertyName == property && columns[i].column.name == name
               && forall j | 0 <= j < |columns| && j != i :: columns[j].propertyName != property;
      assert i < n && front[i].propertyName == property;
    }
  }

  // A unique index over one property marks its only join column, or without join columns
  // its only column; it marks nothing where there are several.
  lemma IndexMarks(entity: Entity, property: string, name: string)
    ensures Marks(entity, [property], name)
            <==> if property in entity.joinColumnsOfProperty then entity.joinColumnsOfProperty[property] == [name]
                 else IsOnlyColumnOf(entity.columns, property, name)
  {
    assert [property][..0] == [];
    assert ColumnsOfProperties(entity, []) == [];
    assert ColumnsOfProperties(entity, [property]) == [] + ColumnsOfProperty(entity, property);
    assert [] + ColumnsOfProperty(entity, property) == ColumnsOfProperty(entity, property);
    OnlyColumnIff(entity.columns, property, name);
  }

  // ----- the relations

  // A draft holds another from place l of the links and place j of the junction tables on.
  predicate HoldsAt(draft: Draft, l: nat, j: nat, part: Draft) {
    && l + |part.links| <= |draft.links| && draft.links[l..l + |part.links|] == part.links
    && j + |part.junctions| <= |draft.junctions| && draft.junctions[j..j + |part.junctions|] == part.junctions
  }

  ghost predicate Holds(draft: Draft, part: Draft) {
    exists l: nat, j: nat :: HoldsAt(draft, l, j, part)
  }

  lemma HeldInFront(a: Draft, b: Draft, part: Draft)
    requires Holds(a, part)
    ensures Holds(Plus(a, b), part)
  {
    var l: nat, j: nat :| HoldsAt(a, l, j, part);
    assert (a.links + b.links)[l..l + |part.links|] == a.links[l..l + |part.links|];
    assert (a.junctions + b.junctions)[j..j + |part.junctions|] == a.junctions[j..j + |part.junctions|];
    assert HoldsAt(Plus(a, b), l, j, part);
  }

  lemma HeldBehind(a: Draft, b: Draft, part: Draft)
    requires Holds(b, part)
    ensures Holds(Plus(a, b), part)
  {
    var l: nat, j: nat :| HoldsAt(b, l, j, part);
    assert (a.links + b.links)[|a.links| + l..|a.links| + l + |part.links|] == b.links[l..l + |part.links|];
    assert (a.junctions + b.junctions)[|a.junctions| + j..|a.junctions| + j + |part.junctions|] == b.junctions[j..j + |part.junctions|];
    assert HoldsAt(Plus(a, b), |a.links| + l, |a.junctions| + j, part);
  }

  lemma HoldsItself(draft: Draft)
    ensures Holds(draft, draft)
  {
    assert HoldsAt(draft, 0, 0, draft);
  }

  lemma DraftOfUnfolds(entities: seq<Entity>, e: nat, relations: seq<RelationOf>, spelling: Spelling)
    requires e < |entities| && relations != []
    ensures var n := |relations| - 1;
            DraftOf(entities, e, relations, spelling)
            == Plus(DraftOf(entities, e, relations[..n], spelling), DraftOne(entities, e, relations[n], spelling))
  {
  }

  lemma LaterRelationHolds(entities: seq<Entity>, e: nat, relations: seq<RelationOf>, part: Draft, spelling: Spelling)
    requires e < |entities| && relations != [] && Holds(DraftOf(entities, e, relations[..|relations| - 1], spelling), part)
    ensures Holds(DraftOf(entities, e, relations, spelling), part)
  {
    var n := |relations| - 1;
    DraftOfUnfolds(entities, e, relations, spelling);
    HeldInFront(DraftOf(entities, e, relations[..n], spelling), DraftOne(entities, e, relations[n], spelling), part);
  }

  lemma LastRelationHolds(entities: seq<Entity>, e: nat, relations: seq<RelationOf>, spelling: Spelling)
    requires e < |entities| && relations != []
    ensures Holds(DraftOf(entities, e, relations, spelling), DraftOne(entities, e, relations[|relations| - 1], spelling))
  {
    var n := |relations| - 1;
    DraftOfUnfolds(entities, e, relations, spelling);
    HoldsItself(DraftOne(entities, e, relations[n], spelling));
    HeldBehind(DraftOf(entities, e, relations[..n], spelling), DraftOne(entities, e, relations[n], spelling),
               DraftOne(entities, e, relations[n], spelling));
  }

  lemma {:induction false} RelationIsDrafted(entities: seq<Entity>, e: nat, relations: seq<RelationOf>, k: nat, spelling: Spelling)
    requires e < |entities| && k < |relations|
    ensures Holds(DraftOf(entities, e, relations, spelling), DraftOne(entities, e, relations[k], spelling))
    decreases |relations|
  {
    if k < |relations| - 1 {
      RelationIsDrafted(entities, e, relations[..|relations| - 1], k, spelling);
      LaterRelationHolds(entities, e, relations, DraftOne(entities, e, relations[k], spelling), spelling);
    } else {
      LastRelationHolds(entities, e, relations, spelling);
    }
  }

  lemma DraftUpToUnfolds(entities: seq<Entity>, upTo: nat, spelling: Spelling)
    requires 0 < upTo <= |entities|
    ensures DraftUpTo(entities, upTo, spelling)
            == Plus(DraftUpTo(entities, upTo - 1, spelling), DraftOf(entities, upTo - 1, entities[upTo - 1].relationMembers, spelling))
  {
  }

  lemma LaterHolds(entities: seq<Entity>, upTo: nat, part: Draft, spelling: Spelling)
    requires 0 < upTo <= |entities| && Holds(DraftUpTo(entities, upTo - 1, spelling), part)
    ensures Holds(DraftUpTo(entities, upTo, spelling), part)
  {
    DraftUpToUnfolds(entities, upTo, spelling);
    HeldInFront(DraftUpTo(entities, upTo - 1, spelling), DraftOf(entities, upTo - 1, entities[upTo - 1].relationMembers, spelling), part);
  }

  lemma LastHolds(entities: seq<Entity>, upTo: nat, part: Draft, spelling: Spelling)
    requires 0 < upTo <= |entities| && Holds(DraftOf(entities, upTo - 1, entities[upTo - 1].relationMembers, spelling), part)
    ensures Holds(DraftUpTo(entities, upTo, spelling), part)
  {
    DraftUpToUnfolds(entities, upTo, spelling);
    HeldBehind(DraftUpTo(entities, upTo - 1, spelling), DraftOf(entities, upTo - 1, entities[upTo - 1].relationMembers, spelling), part);
  }

  lemma {:induction false} EntityIsDrafted(entities: seq<Entity>, upTo: nat, e: nat, k: nat, spelling: Spelling)
    requires e < upTo <= |entities| && k < |entities[e].relationMembers|
    ensures Holds(DraftUpTo(entities, upTo, spelling), DraftOne(entities, e, entities[e].relationMembers[k], spelling))
    decreases upTo
  {
    var part := DraftOne(entities, e, entities[e].relationMembers[k], spelling);
    if e < upTo - 1 {
      EntityIsDrafted(entities, upTo - 1, e, k, spelling);
      LaterHolds(entities, upTo, part, spelling);
    } else {
      RelationIsDrafted(entities, e, entities[e].relationMembers, k, spelling);
      LastHolds(entities, upTo, part, spelling);
    }
  }

  function Ends(relation: Relation): Link {
    Link(relation.source, relation.target)
  }

  function Links(relations: seq<Relation>): seq<Link> {
    seq(|relations|, i requires 0 <= i < |relations| => Ends(relations[i]))
  }

  lemma LinksOfPart(schema: Schema, draft: Draft, l: nat, links: seq<Link>)
    requires |schema.relations| == |draft.links| && l + |links| <= |draft.links| && draft.links[l..l + |links|] == links
    requires forall k | 0 <= k < |draft.links| ::
               schema.relations[k].source == draft.links[k].source && schema.relations[k].target == draft.links[k].target
    ensures Links(schema.relations[l..l + |links|]) == links
  {
    forall i | 0 <= i < |links| ensures Ends(schema.relations[l + i]) == links[i] {
      assert draft.links[l..l + |links|][i] == draft.links[l + i];
    }
  }

  ghost predicate JoinsAre(links: seq<Link>, entities: seq<Entity>, e: nat, r: RelationOf, t: nat, referenced: seq<EntityColumn>,
                           spelling: Spelling)
    requires e < |entities| && t < |entities|
  {
    |links| == |referenced| && forall i: nat | i < |links| :: JoinIsSpelled(links[i], entities, e, r, t, referenced, i, spelling)
  }

  // The relations of the schema from l to m, and the junction table j.
  ghost predicate SchemaHolds(schema: Schema, entities: seq<Entity>, part: Draft, l: nat, j: nat) {
    && l + |part.links| <= |schema.relations| && Links(schema.relations[l..l + |part.links|]) == part.links
    && |entities| + j + |part.junctions| <= |schema.tables|
    && schema.tables[|entities| + j..|entities| + j + |part.junctions|] == part.junctions
  }

  // The entities as the classes give them, and the schema that comes of them.
  ghost predicate IsSchemaOf(classes: seq<ClassDeclaration>, read: seq<Entity>, schema: Schema, entities: seq<Entity>, spelling: Spelling) {
    && LineagesEnd(classes) && read == InitialEntities(classes, ByName(classes), spelling)
    && IsDrafted(schema, entities, DraftOfClasses(classes, spelling))
  }

  lemma PartIsThere(read: seq<Entity>, draft: Draft, schema: Schema, entities: seq<Entity>, part: Draft) returns (l: nat, j: nat)
    requires IsDrafted(schema, entities, draft) && Holds(draft, part)
    ensures SchemaHolds(schema, entities, part, l, j)
  {
    l, j :| HoldsAt(draft, l, j, part);
    LinksOfPart(schema, draft, l, part.links);
    TablesOfPart(entities, draft.junctions, j, part.junctions);
  }

  lemma RelationIsThere(classes: seq<ClassDeclaration>, read: seq<Entity>, schema: Schema, entities: seq<Entity>, spelling: Spelling,
                        e: nat, r: RelationOf, part: Draft) returns (l: nat, j: nat)
    requires IsSchemaOf(classes, read, schema, entities, spelling) && e < |read| && r in read[e].relationMembers
    requires part == DraftOne(read, e, r, spelling)
    ensures SchemaHolds(schema, entities, part, l, j)
  {
    var k: nat :| k < |read[e].relationMembers| && read[e].relationMembers[k] == r;
    EntityIsDrafted(read, |read|, e, k, spelling);
    l, j := PartIsThere(read, DraftUpTo(read, |read|, spelling), schema, entities, part);
  }

  lemma TablesOfPart(entities: seq<Entity>, junctions: seq<RawTable>, j: nat, part: seq<RawTable>)
    requires j + |part| <= |junctions| && junctions[j..j + |part|] == part
    ensures |TablesOf(entities, junctions)| == |entities| + |junctions|
    ensures TablesOf(entities, junctions)[|entities| + j..|entities| + j + |part|] == part
  {
  }

  lemma JoinPart(read: seq<Entity>, e: nat, r: RelationOf, spelling: Spelling)
    requires e < |read| && IsJoined(read, e, r)
    ensures var t := DrawnTarget(read, e, r);
            JoinsAre(DraftOne(read, e, r, spelling).links, read, e, r, t, JoinReferenced(read, r, t), spelling)
  {
    var t := DrawnTarget(read, e, r);
    JoinedLinksAreSpelled(read, e, r, t, JoinReferenced(read, r, t), spelling);
  }

  // Every joined member has its relations in the schema, one behind the other: the i-th one
  // starts at the column its join specification names, or at the one called after member
  // and property, and ends at the i-th column it refers to.
  lemma JoinsAreSpelled(classes: seq<ClassDeclaration>, read: seq<Entity>, schema: Schema, entities: seq<Entity>, spelling: Spelling,
                        e: nat, r: RelationOf) returns (l: nat, m: nat)
    requires IsSchemaOf(classes, read, schema, entities, spelling) && e < |read| && r in read[e].relationMembers && IsJoined(read, e, r)
    ensures l <= m <= |schema.relations|
    ensures var t := DrawnTarget(read, e, r);
            JoinsAre(Links(schema.relations[l..m]), read, e, r, t, JoinReferenced(read, r, t), spelling)
  {
    var part := DraftOne(read, e, r, spelling);
    JoinPart(read, e, r, spelling);
    var j;
    l, j := RelationIsThere(classes, read, schema, entities, spelling, e, r, part);
    m := l + |part.links|;
  }

  // The junction table and the links of one many-to-many member.
  ghost predicate JunctionOfMember(table: RawTable, links: seq<Link>, read: seq<Entity>, e: nat, r: RelationOf, spelling: Spelling)
    requires e < |read| && IsDrawn(read, e, r) && r.decorator.name == "ManyToMany"
  {
    var t := DrawnTarget(read, e, r);
    JunctionIs(table, links, read[e], r.member, read[t], ReferencedColumns(read[e], OwnSpecifications(r.member)).value,
               ReferencedColumns(read[t], InverseSpecifications(r.member)).value, spelling)
  }

  lemma JunctionPart(read: seq<Entity>, e: nat, r: RelationOf, spelling: Spelling, table: RawTable, links: seq<Link>)
    requires e < |read| && IsDrawn(read, e, r) && r.decorator.name == "ManyToMany" && DraftOne(read, e, r, spelling) == Draft(links, [table])
    ensures JunctionOfMember(table, links, read, e, r, spelling)
  {
    JunctionIsSpelled(read, e, r, DrawnTarget(read, e, r), spelling);
    assert [table][0] == table;
  }

  lemma OneJunction(read: seq<Entity>, e: nat, r: RelationOf, spelling: Spelling)
    requires e < |read| && IsDrawn(read, e, r) && r.decorator.name == "ManyToMany"
    ensures |DraftOne(read, e, r, spelling).junctions| == 1
  {
  }

  lemma OneJunctionThere(schema: Schema, entities: seq<Entity>, part: Draft, l: nat, j: nat)
    requires SchemaHolds(schema, entities, part, l, j) && |part.junctions| == 1
    ensures |entities| + j < |schema.tables| && schema.tables[|entities| + j] == part.junctions[0]
  {
    assert schema.tables[|entities| + j..|entities| + j + 1][0] == schema.tables[|entities| + j];
  }

  // Relations l to m and table j are those of the many-to-many member.
  ghost predicate HasJunction(schema: Schema, entities: seq<Entity>, read: seq<Entity>, e: nat, r: RelationOf, spelling: Spelling,
                              l: nat, m: nat, j: nat)
    requires e < |read| && IsDrawn(read, e, r) && r.decorator.name == "ManyToMany"
  {
    l <= m <= |schema.relations| && |entities| <= j < |schema.tables|
    && JunctionOfMember(schema.tables[j], Links(schema.relations[l..m]), read, e, r, spelling)
  }

  lemma JunctionThere(read: seq<Entity>, schema: Schema, entities: seq<Entity>, spelling: Spelling, e: nat, r: RelationOf, part: Draft,
                      first: nat, junction: nat) returns (l: nat, m: nat, j: nat)
    requires e < |read| && IsDrawn(read, e, r) && r.decorator.name == "ManyToMany" && part == DraftOne(read, e, r, spelling)
    requires SchemaHolds(schema, entities, part, first, junction)
    ensures HasJunction(schema, entities, read, e, r, spelling, l, m, j)
  {
    OneJunction(read, e, r, spelling);
    OneJunctionThere(schema, entities, part, first, junction);
    l, m, j := first, first + |part.links|, |entities| + junction;
    assert part.junctions == [schema.tables[j]] && part.links == Links(schema.relations[l..m]);
    JunctionPart(read, e, r, spelling, schema.tables[j], Links(schema.relations[l..m]));
  }

  // Every drawn many-to-many member has its junction table behind the tables of the
  // entities, and its relations to both ends one behind the other.
  lemma JunctionsAreSpelled(classes: seq<ClassDeclaration>, read: seq<Entity>, schema: Schema, entities: seq<Entity>, spelling: Spelling,
                            e: nat, r: RelationOf) returns (l: nat, m: nat, j: nat)
    requires IsSchemaOf(classes, read, schema, entities, spelling) && e < |read| && r in read[e].relationMembers
    requires IsDrawn(read, e, r) && r.decorator.name == "ManyToMany"
    ensures HasJunction(schema, entities, read, e, r, spelling, l, m, j)
  {
    var part := DraftOne(read, e, r, spelling);
    var first, junction := RelationIsThere(classes, read, schema, entities, spelling, e, r, part);
    l, m, j := JunctionThere(read, schema, entities, spelling, e, r, part, first, junction);
  }
}
