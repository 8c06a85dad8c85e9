/** figura/scripts/erd-source-typeorm.mjs: what each relation decorator contributes to the
    schema, in terms of the entities as they were read, and how it is called. */
module TypeormDrafts {
  import opened Optional
  import opened ErdTypes
  import opened ErdModel
  import opened TypeormEntities
  import opened TypeormJoins
  import opened TypeormResolution

  // The relations and junction tables that come of some relation decorators.
  datatype Draft = Draft(links: seq<Link>, junctions: seq<RawTable>)

  const NOTHING := Draft([], [])

  function Plus(a: Draft, b: Draft): Draft {
    Draft(a.links + b.links, a.junctions + b.junctions)
  }

  // The entity a drawn relation goes to.
  function DrawnTarget(entities: seq<Entity>, e: nat, relation: RelationOf): (t: nat)
    requires e < |entities| && IsDrawn(entities, e, relation)
    ensures t < |entities| && IsTarget(entities, relation, t) && !ColumnsAreMissing(entities, e, relation, t)
  {
    TargetOf(entities, RelationTargetName(Argument(relation.decorator.arguments, 0))).value
  }

  function DraftOne(entities: seq<Entity>, e: nat, relation: RelationOf, spelling: Spelling): Draft
    requires e < |entities|
  {
    if !IsDrawn(entities, e, relation) then NOTHING
    else
      var t := DrawnTarget(entities, e, relation);
      if relation.decorator.name == "ManyToMany"
      then Draft(JunctionLinksAt(entities, e, relation, t, spelling), [JunctionAt(entities, e, relation, t, spelling)])
      else Draft(JoinedLinks(entities, e, relation, t, JoinReferenced(entities, relation, t), spelling), [])
  }

  // An entity with the join columns of one relation.
  function EntityWith(entities: seq<Entity>, e: nat, relation: RelationOf, entity: Entity, spelling: Spelling): Entity
    requires e < |entities|
  {
    if !IsDrawn(entities, e, relation) || relation.decorator.name == "ManyToMany" then entity
    else Joined(entity, relation, JoinReferenced(entities, relation, DrawnTarget(entities, e, relation)), spelling)
  }

  // ----- growth changes nothing of it

  // The same columns as far as a relation to them goes.
  predicate SameShape(a: seq<EntityColumn>, b: seq<EntityColumn>) {
    |a| == |b|
    && forall i | 0 <= i < |a| ::
         a[i].propertyName == b[i].propertyName && a[i].column.name == b[i].column.name && a[i].column.typ == b[i].column.typ
  }

  lemma GrownColumn(before: Entity, after: Entity, q: nat)
    requires GrowsEntity(before, after) && q < |before.columns|
    ensures var a, b := before.columns[q], after.columns[q];
            a.propertyName == b.propertyName && a.column.name == b.column.name && a.column.typ == b.column.typ
            && a.column.primaryKey == b.column.primaryKey
  {
    assert GrowsColumn(AllColumns(before)[q], AllColumns(after)[q]);
  }

  predicate SameKeys(a: seq<EntityColumn>, b: seq<EntityColumn>) {
    SameShape(a, b) && forall i | 0 <= i < |a| :: a[i].column.primaryKey == b[i].column.primaryKey
  }

  lemma ShapeConcat(a: seq<EntityColumn>, b: seq<EntityColumn>, x: seq<EntityColumn>, y: seq<EntityColumn>)
    requires SameShape(a, b) && SameShape(x, y)
    ensures SameShape(a + x, b + y)
  {
  }

  function KeyOnly(column: EntityColumn): seq<EntityColumn> {
    if column.column.primaryKey then [column] else []
  }

  lemma PrimaryUnfolds(columns: seq<EntityColumn>)
    requires columns != []
    ensures PrimaryColumns(columns) == PrimaryColumns(columns[..|columns| - 1]) + KeyOnly(columns[|columns| - 1])
  {
  }

  lemma {:induction false} PrimaryShape(a: seq<EntityColumn>, b: seq<EntityColumn>)
    requires SameKeys(a, b)
    ensures SameShape(PrimaryColumns(a), PrimaryColumns(b))
  {
    if a != [] {
      var n := |a| - 1;
      PrimaryShape(a[..n], b[..n]);
      PrimaryUnfolds(a);
      PrimaryUnfolds(b);
      ShapeConcat(PrimaryColumns(a[..n]), PrimaryColumns(b[..n]), KeyOnly(a[n]), KeyOnly(b[n]));
    }
  }

  lemma FirstHasShape(a: seq<EntityColumn>, b: seq<EntityColumn>, property: Value, x: EntityColumn, y: EntityColumn)
    requires SameShape(a, b) && IsFirstOf(a, property, x) && IsFirstOf(b, property, y)
    ensures SameShape([x], [y])
  {
    var i :| 0 <= i < |a| && a[i] == x && IsOfProperty(x, property) && forall k | 0 <= k < i :: !IsOfProperty(a[k], property);
    var j :| 0 <= j < |b| && b[j] == y && IsOfProperty(y, property) && forall k | 0 <= k < j :: !IsOfProperty(b[k], property);
    assert IsOfProperty(b[i], property) && IsOfProperty(a[j], property);
    assert i == j;
  }

  lemma NamedShape(before: Entity, after: Entity, specifications: seq<Value>, a: seq<EntityColumn>, b: seq<EntityColumn>)
    requires SameShape(before.columns, after.columns) && NameTheirColumns(specifications)
    requires NamesThem(before.columns, specifications, Some(a)) && NamesThem(after.columns, specifications, Some(b))
    ensures SameShape(a, b)
  {
    forall i | 0 <= i < |a|
      ensures a[i].propertyName == b[i].propertyName && a[i].column.name == b[i].column.name && a[i].column.typ == b[i].column.typ
    {
      FirstHasShape(before.columns, after.columns, ReferencedName(specifications[i]).value, a[i], b[i]);
      assert [a[i]][0] == a[i] && [b[i]][0] == b[i];
    }
  }

  lemma ReferencedShape(before: Entity, after: Entity, specifications: seq<Value>)
    requires GrowsEntity(before, after)
    requires ReferencedColumns(before, specifications).Some? && ReferencedColumns(after, specifications).Some?
    ensures SameShape(ReferencedColumns(before, specifications).value, ReferencedColumns(after, specifications).value)
  {
    forall q | 0 <= q < |before.columns|
      ensures before.columns[q].propertyName == after.columns[q].propertyName && before.columns[q].column.name == after.columns[q].column.name
              && before.columns[q].column.typ == after.columns[q].column.typ
              && before.columns[q].column.primaryKey == after.columns[q].column.primaryKey
    {
      GrownColumn(before, after, q);
    }
    if NameTheirColumns(specifications) {
      NamedShape(before, after, specifications, ReferencedColumns(before, specifications).value, ReferencedColumns(after, specifications).value);
    } else {
      PrimaryShape(before.columns, after.columns);
    }
  }

  lemma {:induction false} JoinedAllByShape(entity: Entity, names: seq<string>, a: seq<EntityColumn>, b: seq<EntityColumn>,
                                            nullable: bool, unique: bool)
    requires SameShape(a, b) && |names| == |a|
    ensures JoinedAll(entity, names, a, nullable, unique) == JoinedAll(entity, names, b, nullable, unique)
  {
    if names != [] {
      var n := |names| - 1;
      JoinedAllByShape(entity, names[..n], a[..n], b[..n], nullable, unique);
    }
  }

  lemma JoinNamesByShape(member: Member, specifications: seq<Value>, a: seq<EntityColumn>, b: seq<EntityColumn>, spelling: Spelling)
    requires SameShape(a, b)
    ensures JoinNames(member, specifications, a, spelling) == JoinNames(member, specifications, b, spelling)
  {
  }

  lemma JoinedByShape(entity: Entity, relation: RelationOf, a: seq<EntityColumn>, b: seq<EntityColumn>, spelling: Spelling)
    requires SameShape(a, b)
    ensures Joined(entity, relation, a, spelling) == Joined(entity, relation, b, spelling)
  {
    var specifications := JoinSpecificationsOf(relation.member);
    JoinNamesByShape(relation.member, specifications, a, b, spelling);
    JoinedAllByShape(entity, JoinNames(relation.member, specifications, a, spelling), a, b,
                     IsNullable(relation.decorator), relation.decorator.name == "OneToOne");
  }

  lemma JoinLinksByShape(tableName: string, names: seq<string>, targetName: string, a: seq<EntityColumn>, b: seq<EntityColumn>)
    requires SameShape(a, b) && |names| == |a|
    ensures JoinLinks(tableName, names, targetName, a) == JoinLinks(tableName, names, targetName, b)
  {
  }

  lemma JunctionByShape(x: Entity, y: Entity, specifications: seq<Value>, a: seq<EntityColumn>, b: seq<EntityColumn>, spelling: Spelling,
                        tableName: string)
    requires SameShape(a, b) && x.tableName == y.tableName
    ensures JunctionColumns(x, specifications, a, spelling) == JunctionColumns(y, specifications, b, spelling)
    ensures JunctionLinks(tableName, x, specifications, a, spelling) == JunctionLinks(tableName, y, specifications, b, spelling)
  {
    assert forall i: nat | i < |a| :: JunctionName(x, specifications, a, spelling, i) == JunctionName(y, specifications, b, spelling, i);
  }

  lemma JoinDraftStays(before: seq<Entity>, after: seq<Entity>, e: nat, relation: RelationOf, t: nat, spelling: Spelling)
    requires GrowsEntities(before, after) && e < |before| && t < |before|
    requires !JoinIsMissing(before, relation, t) && !JoinIsMissing(after, relation, t)
    ensures SameShape(JoinReferenced(before, relation, t), JoinReferenced(after, relation, t))
    ensures JoinedLinks(before, e, relation, t, JoinReferenced(before, relation, t), spelling)
            == JoinedLinks(after, e, relation, t, JoinReferenced(after, relation, t), spelling)
  {
    assert GrowsEntity(before[e], after[e]) && GrowsEntity(before[t], after[t]);
    var specifications := JoinSpecificationsOf(relation.member);
    var a, b := JoinReferenced(before, relation, t), JoinReferenced(after, relation, t);
    ReferencedShape(before[t], after[t], specifications);
    JoinNamesByShape(relation.member, specifications, a, b, spelling);
    JoinLinksByShape(before[e].tableName, JoinNames(relation.member, specifications, a, spelling), before[t].tableName, a, b);
  }

  lemma JunctionDraftStays(before: seq<Entity>, after: seq<Entity>, e: nat, relation: RelationOf, t: nat, spelling: Spelling)
    requires GrowsEntities(before, after) && e < |before| && t < |before|
    requires !JunctionIsMissing(before, e, relation, t) && !JunctionIsMissing(after, e, relation, t)
    ensures JunctionAt(before, e, relation, t, spelling) == JunctionAt(after, e, relation, t, spelling)
    ensures JunctionLinksAt(before, e, relation, t, spelling) == JunctionLinksAt(after, e, relation, t, spelling)
  {
    assert GrowsEntity(before[e], after[e]) && GrowsEntity(before[t], after[t]);
    var member := relation.member;
    var tableName := JunctionTableName(before[e], member, before[t], spelling);
    ReferencedShape(before[e], after[e], OwnSpecifications(member));
    ReferencedShape(before[t], after[t], InverseSpecifications(member));
    JunctionByShape(before[e], after[e], OwnSpecifications(member), ReferencedColumns(before[e], OwnSpecifications(member)).value,
                    ReferencedColumns(after[e], OwnSpecifications(member)).value, spelling, tableName);
    JunctionByShape(before[t], after[t], InverseSpecifications(member), ReferencedColumns(before[t], InverseSpecifications(member)).value,
                    ReferencedColumns(after[t], InverseSpecifications(member)).value, spelling, tableName);
  }

  // What a relation contributes does not depend on when it is resolved.
  lemma DraftStays(before: seq<Entity>, after: seq<Entity>, e: nat, relation: RelationOf, entity: Entity, spelling: Spelling)
    requires GrowsEntities(before, after) && e < |before|
    ensures DraftOne(after, e, relation, spelling) == DraftOne(before, e, relation, spelling)
    ensures EntityWith(after, e, relation, entity, spelling) == EntityWith(before, e, relation, entity, spelling)
  {
    RelationNotesStay(before, after, e, relation);
    TargetSurvivesGrowth(before, after, RelationTargetName(Argument(relation.decorator.arguments, 0)));
    if IsDrawn(before, e, relation) {
      var t := DrawnTarget(before, e, relation);
      assert DrawnTarget(after, e, relation) == t;
      if relation.decorator.name == "ManyToMany" {
        JunctionDraftStays(before, after, e, relation, t, spelling);
      } else {
        JoinDraftStays(before, after, e, relation, t, spelling);
        JoinedByShape(entity, relation, JoinReferenced(before, relation, t), JoinReferenced(after, relation, t), spelling);
      }
    }
  }

  // ----- what the decorators say, word by word

  // One object, or a list of objects.
  lemma {:induction false} ObjectsAreAll(values: seq<Value>)
    requires forall i | 0 <= i < |values| :: values[i].Object?
    ensures Objects(values) == values
  {
    if values != [] {
      ObjectsAreAll(values[..|values| - 1]);
    }
  }

  // The text that the specifications stand in.
  ghost predicate AreSpecified(specifications: seq<Value>, written: Option<Value>) {
    && (written.Some? && written.value.Object? ==> specifications == [written.value])
    && (written.Some? && written.value.List? && (forall i | 0 <= i < |written.value.values| :: written.value.values[i].Object?)
        ==> specifications == written.value.values)
    && (written.None? || (!written.value.Object? && !written.value.List?) ==> specifications == [])
  }

  lemma SpecificationsAreWritten(written: Option<Value>)
    ensures AreSpecified(JoinSpecifications(written), written)
  {
    if written.Some? && written.value.List? && forall i | 0 <= i < |written.value.values| :: written.value.values[i].Object? {
      ObjectsAreAll(written.value.values);
    }
  }

  // The first decorator of that name.
  predicate IsFirstDecorator(member: Member, d: nat, name: string) {
    d < |member.decorators| && member.decorators[d].name == name && forall k | 0 <= k < d :: member.decorators[k].name != name
  }

  lemma {:induction false} FirstDecorator(decorators: seq<Decorator>, name: string, d: nat)
    requires d < |decorators| && decorators[d].name == name && forall k | 0 <= k < d :: decorators[k].name != name
    ensures DecoratorAmong(decorators, {name}) == Some(decorators[d])
  {
    if d > 0 {
      FirstDecorator(decorators[1..], name, d - 1);
    }
  }

  // @JoinColumn says it in its first argument.
  lemma JoinColumnSpecifies(member: Member, d: nat)
    requires IsFirstDecorator(member, d, "JoinColumn")
    ensures var arguments := member.decorators[d].arguments;
            AreSpecified(JoinSpecificationsOf(member), if arguments == [] then None else Some(arguments[0]))
  {
    FirstDecorator(member.decorators, "JoinColumn", d);
    SpecificationsAreWritten(Argument(DecoratorArguments(member, "JoinColumn"), 0));
  }

  // @JoinTable says it under two keys for either half, the plural one first.
  lemma JoinTableSpecifies(member: Member, d: nat, entries: map<string, Value>)
    requires IsFirstDecorator(member, d, "JoinTable") && member.decorators[d].arguments == [Object(entries)]
    requires forall key | key in entries :: !entries[key].Undefined?
    ensures AreSpecified(OwnSpecifications(member),
              if "joinColumns" in entries then Some(entries["joinColumns"])
              else if "joinColumn" in entries then Some(entries["joinColumn"]) else None)
    ensures AreSpecified(InverseSpecifications(member),
              if "inverseJoinColumns" in entries then Some(entries["inverseJoinColumns"])
              else if "inverseJoinColumn" in entries then Some(entries["inverseJoinColumn"]) else None)
  {
    FirstDecorator(member.decorators, "JoinTable", d);
    assert JoinTableOf(member) == Some(Object(entries));
    var options := JoinTableOf(member);
    SpecificationsAreWritten(if OptionOf(options, "joinColumns").Some? then OptionOf(options, "joinColumns") else OptionOf(options, "joinColumn"));
    SpecificationsAreWritten(if OptionOf(options, "inverseJoinColumns").Some? then OptionOf(options, "inverseJoinColumns")
                             else OptionOf(options, "inverseJoinColumn"));
  }

  // Behind the target, the first object among the arguments has `nullable: false`.
  predicate SaysNotNull(decorator: Decorator) {
    exists k :: 1 <= k < |decorator.arguments| && IsFirstObject(decorator.arguments, k)
      && "nullable" in decorator.arguments[k].entries && decorator.arguments[k].entries["nullable"] == Flag(false)
  }

  predicate IsFirstObject(arguments: seq<Value>, k: int) {
    1 <= k < |arguments| && arguments[k].Object? && forall m | 1 <= m < k :: !arguments[m].Object?
  }

  lemma {:induction false} FirstObject(arguments: seq<Value>)
    ensures match ObjectArgument(arguments)
            case None => forall k | 0 <= k < |arguments| :: !arguments[k].Object?
            case Some(value) => exists k :: 0 <= k < |arguments| && arguments[k] == value && value.Object?
                                            && forall m | 0 <= m < k :: !arguments[m].Object?
  {
    if arguments != [] && !arguments[0].Object? {
      FirstObject(arguments[1..]);
      var rest := ObjectArgument(arguments[1..]);
      if rest.Some? {
        var k :| 0 <= k < |arguments[1..]| && arguments[1..][k] == rest.value && forall m | 0 <= m < k :: !arguments[1..][m].Object?;
        assert arguments[k + 1] == rest.value;
        assert forall m | 1 <= m < k + 1 :: arguments[m] == arguments[1..][m - 1];
      } else {
        assert forall m | 1 <= m < |arguments| :: arguments[m] == arguments[1..][m - 1];
      }
    }
  }

  lemma NullableUnlessSaid(decorator: Decorator)
    ensures IsNullable(decorator) <==> !SaysNotNull(decorator)
  {
    if decorator.arguments != [] {
      var rest := decorator.arguments[1..];
      FirstObject(rest);
      assert forall m | 1 <= m < |decorator.arguments| :: decorator.arguments[m] == rest[m - 1];
      var options := ObjectArgument(rest);
      if options.Some? {
        var k :| 0 <= k < |rest| && rest[k] == options.value && forall m | 0 <= m < k :: !rest[m].Object?;
        assert IsFirstObject(decorator.arguments, k + 1);
        assert forall j | IsFirstObject(decorator.arguments, j) :: j == k + 1 by {
          forall j | IsFirstObject(decorator.arguments, j) ensures j == k + 1 {
            assert !(j < k + 1) && !(k + 1 < j);
          }
        }
      }
    }
  }

  // ----- how relations and junction columns are called

  // The i-th relation of a joined member starts at the column its specification names, or
  // at one called after the member and the property, and ends at the i-th column found.
  ghost predicate JoinIsSpelled(link: Link, entities: seq<Entity>, e: nat, relation: RelationOf, t: nat, referenced: seq<EntityColumn>, i: nat,
                                spelling: Spelling)
    requires e < |entities| && t < |entities| && i < |referenced|
  {
    && link.source.table == entities[e].tableName
    && IsSpelled(link.source.column, JoinSpecificationsOf(relation.member), i,
                 spelling.camelCase(relation.member.name + "_" + referenced[i].propertyName))
    && link.target == End(entities[t].tableName, referenced[i].column.name)
  }

  lemma JoinedLinksAreSpelled(entities: seq<Entity>, e: nat, relation: RelationOf, t: nat, referenced: seq<EntityColumn>, spelling: Spelling)
    requires e < |entities| && t < |entities|
    ensures var links := JoinedLinks(entities, e, relation, t, referenced, spelling);
            |links| == |referenced|
            && forall i: nat | i < |links| :: JoinIsSpelled(links[i], entities, e, relation, t, referenced, i, spelling)
  {
    JoinNamesAreSpelled(relation.member, JoinSpecificationsOf(relation.member), referenced, spelling);
  }

  // Of a half of a junction table the i-th column is called as its specification says, or
  // after the table and the column it refers to; it is a key column of the same type.
  ghost predicate HalfIsSpelled(column: RawColumn, link: Link, tableName: string, end: Entity, specifications: seq<Value>,
                                referenced: seq<EntityColumn>, i: nat, spelling: Spelling)
    requires i < |referenced|
  {
    && IsSpelled(column.name, specifications, i, spelling.camelCase(end.tableName + "_" + referenced[i].column.name))
    && column == RawColumn(column.name, referenced[i].column.typ, true, false, false)
    && link == Link(End(tableName, column.name), End(end.tableName, referenced[i].column.name))
  }

  ghost predicate HalfIs(columns: seq<RawColumn>, links: seq<Link>, tableName: string, end: Entity, specifications: seq<Value>,
                         referenced: seq<EntityColumn>, spelling: Spelling) {
    && |columns| == |links| == |referenced|
    && forall i: nat | i < |referenced| :: HalfIsSpelled(columns[i], links[i], tableName, end, specifications, referenced, i, spelling)
  }

  // The table has its own name or one called after both tables and the member; the own
  // half comes first.
  ghost predicate JunctionIs(table: RawTable, links: seq<Link>, entity: Entity, member: Member, target: Entity,
                             own: seq<EntityColumn>, inverse: seq<EntityColumn>, spelling: Spelling) {
    && |table.columns| == |links| == |own| + |inverse|
    && HalfIs(table.columns[..|own|], links[..|own|], table.name, entity, OwnSpecifications(member), own, spelling)
    && HalfIs(table.columns[|own|..], links[|own|..], table.name, target, InverseSpecifications(member), inverse, spelling)
    && IsSpelled(table.name, if JoinTableOf(member).Some? then [JoinTableOf(member).value] else [], 0,
                 spelling.snakeCase(entity.tableName + "_" + member.name + "_" + target.tableName))
  }

  lemma HalfHolds(end: Entity, specifications: seq<Value>, referenced: seq<EntityColumn>, spelling: Spelling, tableName: string)
    ensures HalfIs(JunctionColumns(end, specifications, referenced, spelling), JunctionLinks(tableName, end, specifications, referenced, spelling),
                   tableName, end, specifications, referenced, spelling)
  {
  }

  lemma JunctionIsSpelled(entities: seq<Entity>, e: nat, relation: RelationOf, t: nat, spelling: Spelling)
    requires e < |entities| && t < |entities| && !JunctionIsMissing(entities, e, relation, t)
    ensures JunctionIs(JunctionAt(entities, e, relation, t, spelling), JunctionLinksAt(entities, e, relation, t, spelling),
                       entities[e], relation.member, entities[t],
                       ReferencedColumns(entities[e], OwnSpecifications(relation.member)).value,
                       ReferencedColumns(entities[t], InverseSpecifications(relation.member)).value, spelling)
  {
    var member := relation.member;
    var own := ReferencedColumns(entities[e], OwnSpecifications(member)).value;
    var inverse := ReferencedColumns(entities[t], InverseSpecifications(member)).value;
    var tableName := JunctionTableName(entities[e], member, entities[t], spelling);
    var table, links := JunctionAt(entities, e, relation, t, spelling), JunctionLinksAt(entities, e, relation, t, spelling);
    HalfHolds(entities[e], OwnSpecifications(member), own, spelling, tableName);
    HalfHolds(entities[t], InverseSpecifications(member), inverse, spelling, tableName);
    assert table.columns[..|own|] == JunctionColumns(entities[e], OwnSpecifications(member), own, spelling);
    assert table.columns[|own|..] == JunctionColumns(entities[t], InverseSpecifications(member), inverse, spelling);
    assert links[..|own|] == JunctionLinks(tableName, entities[e], OwnSpecifications(member), own, spelling);
    assert links[|own|..] == JunctionLinks(tableName, entities[t], InverseSpecifications(member), inverse, spelling);
  }

  // The columns joined for one relation: those its links start at and that were not there,
  // each of the type of the column it refers to, nullable unless the decorator says not.
  ghost predicate ColumnsAreJoined(before: seq<RawColumn>, after: seq<RawColumn>, names: seq<string>, relation: RelationOf,
                                   referenced: seq<EntityColumn>) {
    AddsJoined(before, after, names, referenced, !SaysNotNull(relation.decorator), relation.decorator.name == "OneToOne")
  }

  function SourceColumns(links: seq<Link>): (names: seq<string>)
    ensures |names| == |links| && forall i | 0 <= i < |links| :: names[i] == links[i].source.column
  {
    seq(|links|, i requires 0 <= i < |links| => links[i].source.column)
  }

  lemma JoinedColumnsAre(entities: seq<Entity>, e: nat, relation: RelationOf, t: nat, referenced: seq<EntityColumn>, entity: Entity,
                         spelling: Spelling)
    requires e < |entities| && t < |entities|
    ensures ColumnsAreJoined(AllColumns(entity), AllColumns(Joined(entity, relation, referenced, spelling)),
                             SourceColumns(JoinedLinks(entities, e, relation, t, referenced, spelling)), relation, referenced)
  {
    var names := JoinNames(relation.member, JoinSpecificationsOf(relation.member), referenced, spelling);
    NullableUnlessSaid(relation.decorator);
    JoinedAllAdds(entity, names, referenced, IsNullable(relation.decorator), relation.decorator.name == "OneToOne");
    assert SourceColumns(JoinedLinks(entities, e, relation, t, referenced, spelling)) == names;
  }
}
