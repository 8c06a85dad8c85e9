/** figura/scripts/erd-source-typeorm.mjs: what resolving one relation decorator means for
    the entities, the relations, the junction tables and the warning. */
module TypeormResolution {
  import opened Optional
  import opened ErdTypes
  import opened ErdModel
  import opened TypeormEntities
  import opened TypeormJoins

  // Why a member is named in the warning.
  datatype Why =
    | UnsupportedDecorator(name: string)
    | UnreadColumn(decorator: string)
    | NoColumn(decorator: string, target: string)
    | NoTarget(decorator: string, named: Option<string>)

  datatype Note =
    | ClassNote(className: string, decorator: string)
    | ParentNote(className: string, parent: string)
    | MemberNote(className: string, memberName: string, why: Why)

  ghost predicate IsNamed(skipped: set<Note>, member: Member) {
    exists why :: MemberNote(member.className, member.name, why) in skipped
  }

  // Where a relation comes from.
  datatype Origin =
    | JoinOrigin(entity: nat, relation: RelationOf, target: nat)
    | JunctionOrigin(entity: nat, relation: RelationOf, target: nat, junction: nat, inverse: bool)

  // ----- first pass: entities

  function ByName(classes: seq<ClassDeclaration>): ClassMap {
    if classes == [] then map[]
    else
      var last := classes[|classes| - 1];
      var before := ByName(classes[..|classes| - 1]);
      if last.name in before then before else before[last.name := last]
  }

  function EntityTableName(declaration: ClassDeclaration, spelling: Spelling): string {
    var arguments := match DecoratorAmong(declaration.decorators, {"Entity"}) { case None => [] case Some(d) => d.arguments };
    match Argument(arguments, 0)
    case Some(Text(text)) => text
    case first => NameOption(first, "name", spelling.snakeCase(declaration.name))
  }

  // What one member adds to the columns, the relations and the warning.
  function ColumnOf(tableName: string, member: Member, spelling: Spelling): seq<EntityColumn> {
    match RoleOf(member)
    case ColumnMember(decorator) =>
      var column := MemberColumn(tableName, member, decorator, spelling);
      if column.Some? then [column.value] else []
    case _ => []
  }

  function RelationsOfMember(member: Member): seq<RelationOf> {
    match RoleOf(member)
    case RelationMember(decorator) => [RelationOf(member, decorator)]
    case _ => []
  }

  function NotesOfMember(tableName: string, member: Member, spelling: Spelling): set<Note> {
    match RoleOf(member)
    case Unsupported(decorator) => {MemberNote(member.className, member.name, UnsupportedDecorator(decorator.name))}
    case ColumnMember(decorator) =>
      if MemberColumn(tableName, member, decorator, spelling) == None
      then {MemberNote(member.className, member.name, UnreadColumn(decorator.name))} else {}
    case _ => {}
  }

  function ColumnsOf(tableName: string, members: seq<Member>, spelling: Spelling): seq<EntityColumn> {
    if members == [] then []
    else ColumnsOf(tableName, members[..|members| - 1], spelling) + ColumnOf(tableName, members[|members| - 1], spelling)
  }

  function RelationsOf(members: seq<Member>): seq<RelationOf> {
    if members == [] then [] else RelationsOf(members[..|members| - 1]) + RelationsOfMember(members[|members| - 1])
  }

  function MemberNotes(tableName: string, members: seq<Member>, spelling: Spelling): set<Note> {
    if members == [] then {}
    else MemberNotes(tableName, members[..|members| - 1], spelling) + NotesOfMember(tableName, members[|members| - 1], spelling)
  }

  function ClassDecorators(ancestry: seq<ClassDeclaration>): seq<Decorator> {
    if ancestry == [] then [] else ClassDecorators(ancestry[..|ancestry| - 1]) + ancestry[|ancestry| - 1].decorators
  }

  function EntityOf(declaration: ClassDeclaration, ancestry: seq<ClassDeclaration>, spelling: Spelling): Entity {
    var members := MergedMembers(ancestry);
    var tableName := EntityTableName(declaration, spelling);
    Entity(declaration.name, tableName, ColumnsOf(tableName, members, spelling), [], RelationsOf(members), map[], ClassDecorators(ancestry), members)
  }

  // Where the columns come from: the member and the decorator read.
  ghost function ColumnSource(tableName: string, member: Member, spelling: Spelling): seq<(Member, Decorator)> {
    match RoleOf(member)
    case ColumnMember(decorator) => if MemberColumn(tableName, member, decorator, spelling).Some? then [(member, decorator)] else []
    case _ => []
  }

  ghost function ColumnSources(tableName: string, members: seq<Member>, spelling: Spelling): seq<(Member, Decorator)> {
    if members == [] then []
    else ColumnSources(tableName, members[..|members| - 1], spelling) + ColumnSource(tableName, members[|members| - 1], spelling)
  }

  // The columns are what the sources say, one for one.
  lemma {:induction false} SourcesAreRead(tableName: string, members: seq<Member>, spelling: Spelling)
    ensures var sources, columns := ColumnSources(tableName, members, spelling), ColumnsOf(tableName, members, spelling);
            |sources| == |columns|
            && forall i | 0 <= i < |sources| :: MemberColumn(tableName, sources[i].0, sources[i].1, spelling) == Some(columns[i])
  {
    if members != [] {
      SourcesAreRead(tableName, members[..|members| - 1], spelling);
    }
  }

  lemma {:induction false} SourcesHold(tableName: string, members: seq<Member>, spelling: Spelling, m: Member, d: Decorator)
    ensures (m, d) in ColumnSources(tableName, members, spelling)
            <==> m in members && RoleOf(m) == ColumnMember(d) && MemberColumn(tableName, m, d, spelling).Some?
  {
    if members != [] {
      var n := |members| - 1;
      SourcesHold(tableName, members[..n], spelling, m, d);
      assert members == members[..n] + [members[n]];
    }
  }

  lemma {:induction false} RelationsHold(members: seq<Member>, m: Member, d: Decorator)
    ensures RelationOf(m, d) in RelationsOf(members) <==> m in members && RoleOf(m) == RelationMember(d)
  {
    if members != [] {
      var n := |members| - 1;
      RelationsHold(members[..n], m, d);
      assert members == members[..n] + [members[n]];
    }
  }

  lemma {:induction false} MemberNotesHold(tableName: string, members: seq<Member>, spelling: Spelling, note: Note)
    ensures note in MemberNotes(tableName, members, spelling) <==> exists m :: m in members && note in NotesOfMember(tableName, m, spelling)
  {
    if members != [] {
      var n := |members| - 1;
      MemberNotesHold(tableName, members[..n], spelling, note);
      assert members == members[..n] + [members[n]];
    }
  }

  // The class, or the ancestor of it, whose parent the parser did not find.
  function ParentNotes(top: ClassDeclaration, byName: ClassMap): set<Note> {
    if ParentIsMissing(top, byName) then {ParentNote(top.name, top.parent.value)} else {}
  }

  // ----- second pass: relations

  // entityByName: later entities win, by table name and by class name.
  function TargetOf(entities: seq<Entity>, name: Option<string>): (target: Option<nat>)
    ensures target.Some? ==> target.value < |entities|
                             && (name == Some(entities[target.value].tableName) || name == Some(entities[target.value].className))
    ensures target == None <==> forall i | 0 <= i < |entities| :: name != Some(entities[i].tableName) && name != Some(entities[i].className)
  {
    if entities == [] then None
    else
      var last := |entities| - 1;
      if name == Some(entities[last].tableName) || name == Some(entities[last].className) then Some(last)
      else TargetOf(entities[..last], name)
  }

  lemma {:induction false} TargetSurvivesGrowth(before: seq<Entity>, after: seq<Entity>, name: Option<string>)
    requires GrowsEntities(before, after)
    ensures TargetOf(after, name) == TargetOf(before, name)
  {
    if before != [] {
      var last := |before| - 1;
      assert GrowsEntity(before[last], after[last]);
      TargetSurvivesGrowth(before[..last], after[..last], name);
    }
  }

  // The entity a relation decorator names.
  predicate IsTarget(entities: seq<Entity>, relation: RelationOf, t: nat) {
    TargetOf(entities, RelationTargetName(Argument(relation.decorator.arguments, 0))) == Some(t)
  }

  // What a relation names exists, on the tables its origin tells.
  ghost predicate OriginHolds(entities: seq<Entity>, junctions: seq<RawTable>, link: Link, origin: Origin) {
    origin.entity < |entities| && origin.target < |entities| && IsTarget(entities, origin.relation, origin.target)
    && match origin
       case JoinOrigin(e, relation, t) =>
         && link.source.table == entities[e].tableName && HasNamed(AllColumns(entities[e]), link.source.column)
         && link.target.table == entities[t].tableName && HasNamed(AllColumns(entities[t]), link.target.column)
         && (relation.decorator.name == "OneToOne" ==> FirstIsUnique(AllColumns(entities[e]), link.source.column))
       case JunctionOrigin(e, relation, t, j, inverse) =>
         && j < |junctions| && IsJunction(junctions[j])
         && link.source.table == junctions[j].name && HasNamed(junctions[j].columns, link.source.column)
         && EndsAt(entities[if inverse then t else e], link.target)
  }

  predicate EndsAt(entity: Entity, end: End) {
    end.table == entity.tableName && HasNamed(AllColumns(entity), end.column)
  }

  ghost predicate AllHold(entities: seq<Entity>, junctions: seq<RawTable>, links: seq<Link>, origins: seq<Origin>) {
    |origins| == |links| && forall k | 0 <= k < |links| :: OriginHolds(entities, junctions, links[k], origins[k])
  }

  lemma GrowthKeepsOrigin(before: seq<Entity>, after: seq<Entity>, junctions: seq<RawTable>,
                        more: seq<RawTable>, link: Link, origin: Origin)
    requires GrowsEntities(before, after) && OriginHolds(before, junctions, link, origin)
    ensures OriginHolds(after, junctions + more, link, origin)
  {
    var e, t := origin.entity, origin.target;
    assert GrowsEntity(before[e], after[e]) && GrowsEntity(before[t], after[t]);
    TargetSurvivesGrowth(before, after, RelationTargetName(Argument(origin.relation.decorator.arguments, 0)));
    match origin
    case JoinOrigin(_, _, _) =>
      GrowthKeepsFirst(AllColumns(before[e]), AllColumns(after[e]), link.source.column);
      GrowthKeepsFirst(AllColumns(before[t]), AllColumns(after[t]), link.target.column);
    case JunctionOrigin(_, _, _, j, _) =>
      assert (junctions + more)[j] == junctions[j];
      GrowthKeepsEnd(before[e], after[e], link.target);
      GrowthKeepsEnd(before[t], after[t], link.target);
  }

  lemma GrowthKeepsEnd(before: Entity, after: Entity, end: End)
    requires GrowsEntity(before, after)
    ensures EndsAt(before, end) ==> EndsAt(after, end)
  {
    if EndsAt(before, end) {
      GrowthKeepsFirst(AllColumns(before), AllColumns(after), end.column);
    }
  }

  lemma AllHoldLater(before: seq<Entity>, after: seq<Entity>, junctions: seq<RawTable>, more: seq<RawTable>,
                     links: seq<Link>, origins: seq<Origin>,
                     newLinks: seq<Link>, newOrigins: seq<Origin>)
    requires GrowsEntities(before, after) && AllHold(before, junctions, links, origins)
    requires AllHold(after, junctions + more, newLinks, newOrigins)
    ensures AllHold(after, junctions + more, links + newLinks, origins + newOrigins)
  {
    forall k | 0 <= k < |links + newLinks|
      ensures OriginHolds(after, junctions + more, (links + newLinks)[k], (origins + newOrigins)[k])
    {
      if k < |links| {
        GrowthKeepsOrigin(before, after, junctions, more, links[k], origins[k]);
      } else {
        assert OriginHolds(after, junctions + more, newLinks[k - |links|], newOrigins[k - |links|]);
      }
    }
  }

  // ----- join columns

  predicate IsNullable(decorator: Decorator) {
    decorator.arguments == [] || OptionOf(ObjectArgument(decorator.arguments[1..]), "nullable") != Some(Flag(false))
  }

  function JoinSpecificationsOf(member: Member): seq<Value> {
    JoinSpecifications(Argument(DecoratorArguments(member, "JoinColumn"), 0))
  }

  function Repeated<T>(value: T, n: nat): (r: seq<T>)
    ensures |r| == n && forall i | 0 <= i < n :: r[i] == value
  {
    seq(n, i => value)
  }

  predicate JoinIsMissing(entities: seq<Entity>, relation: RelationOf, t: nat)
    requires t < |entities|
  {
    ReferencedColumns(entities[t], JoinSpecificationsOf(relation.member)) == None
  }

  function JoinReferenced(entities: seq<Entity>, relation: RelationOf, t: nat): (referenced: seq<EntityColumn>)
    requires t < |entities| && !JoinIsMissing(entities, relation, t)
    ensures referenced != [] && forall c | c in referenced :: c in entities[t].columns
  {
    ReferencedColumns(entities[t], JoinSpecificationsOf(relation.member)).value
  }

  // The entity with the join columns of one relation.
  function Joined(entity: Entity, relation: RelationOf, referenced: seq<EntityColumn>, spelling: Spelling): Entity {
    var names := JoinNames(relation.member, JoinSpecificationsOf(relation.member), referenced, spelling);
    JoinedAll(entity, names, referenced, IsNullable(relation.decorator), relation.decorator.name == "OneToOne")
      .(joinColumnsOfProperty := entity.joinColumnsOfProperty[relation.member.name := names])
  }

  function JoinedLinks(entities: seq<Entity>, e: nat, relation: RelationOf, t: nat,
                       referenced: seq<EntityColumn>, spelling: Spelling): seq<Link>
    requires e < |entities| && t < |entities|
  {
    var names := JoinNames(relation.member, JoinSpecificationsOf(relation.member), referenced, spelling);
    JoinLinks(entities[e].tableName, names, entities[t].tableName, referenced)
  }

  lemma {:induction false} JoinedAllKeepsRest(entity: Entity, names: seq<string>,
                        referenced: seq<EntityColumn>, nullable: bool, unique: bool)
    requires |names| == |referenced|
    ensures JoinedAll(entity, names, referenced, nullable, unique).joinColumnsOfProperty == entity.joinColumnsOfProperty
  {
    if names != [] {
      JoinedAllKeepsRest(entity, names[..|names| - 1], referenced[..|names| - 1], nullable, unique);
    }
  }

  lemma JoinedHolds(entities: seq<Entity>, e: nat, relation: RelationOf, t: nat, referenced: seq<EntityColumn>,
                    spelling: Spelling, junctions: seq<RawTable>)
    requires e < |entities| && t < |entities| && forall c | c in referenced :: c in entities[t].columns
    requires IsTarget(entities, relation, t)
    ensures var after := entities[e := Joined(entities[e], relation, referenced, spelling)];
            && GrowsEntities(entities, after)
            && AllHold(after, junctions, JoinedLinks(entities, e, relation, t, referenced, spelling),
                       Repeated(JoinOrigin(e, relation, t), |referenced|))
  {
    var names := JoinNames(relation.member, JoinSpecificationsOf(relation.member), referenced, spelling);
    var nullable, unique := IsNullable(relation.decorator), relation.decorator.name == "OneToOne";
    var after := entities[e := Joined(entities[e], relation, referenced, spelling)];
    var links := JoinedLinks(entities, e, relation, t, referenced, spelling);
    JoinedAllGrows(entities[e], names, referenced, nullable, unique);
    GrowsEntitiesAt(entities, after, e);
    TargetSurvivesGrowth(entities, after, RelationTargetName(Argument(relation.decorator.arguments, 0)));
    forall k | 0 <= k < |links| ensures OriginHolds(after, junctions, links[k], JoinOrigin(e, relation, t)) {
      assert NameIsJoined(JoinedAll(entities[e], names, referenced, nullable, unique), names[k], unique);
      assert referenced[k] in referenced;
      EntityColumnIsColumn(entities[t], referenced[k]);
      GrowthKeepsFirst(AllColumns(entities[t]), AllColumns(after[t]), referenced[k].column.name);
    }
  }

  lemma GrowsEntitiesAt(before: seq<Entity>, after: seq<Entity>, e: nat)
    requires e < |before| == |after| && after == before[e := after[e]] && GrowsEntity(before[e], after[e])
    ensures GrowsEntities(before, after)
  {
    forall i | 0 <= i < |before| ensures GrowsEntity(before[i], after[i]) {
      GrowsReflexive(before[i]);
    }
  }

  lemma GrowsReflexive(entity: Entity)
    ensures GrowsEntity(entity, entity)
  {
  }

  lemma EntityColumnIsColumn(entity: Entity, column: EntityColumn)
    requires column in entity.columns
    ensures HasNamed(AllColumns(entity), column.column.name)
  {
    var i :| 0 <= i < |entity.columns| && entity.columns[i] == column;
    assert AllColumns(entity)[i] == column.column;
  }

  // ----- junction tables

  function JoinTableOf(member: Member): Option<Value> {
    ObjectArgument(DecoratorArguments(member, "JoinTable"))
  }

  function EndSpecifications(member: Member, plural: string, singular: string): seq<Value> {
    var options := JoinTableOf(member);
    JoinSpecifications(if OptionOf(options, plural).Some? then OptionOf(options, plural) else OptionOf(options, singular))
  }

  function OwnSpecifications(member: Member): seq<Value> {
    EndSpecifications(member, "joinColumns", "joinColumn")
  }

  function InverseSpecifications(member: Member): seq<Value> {
    EndSpecifications(member, "inverseJoinColumns", "inverseJoinColumn")
  }

  function JunctionTableName(entity: Entity, member: Member, target: Entity, spelling: Spelling): string {
    NameOption(JoinTableOf(member), "name", spelling.snakeCase(entity.tableName + "_" + member.name + "_" + target.tableName))
  }

  function JunctionOf(entity: Entity, member: Member, target: Entity, own: seq<EntityColumn>,
                      inverse: seq<EntityColumn>, spelling: Spelling): RawTable {
    RawTable(JunctionTableName(entity, member, target, spelling), "",
             JunctionColumns(entity, OwnSpecifications(member), own, spelling)
             + JunctionColumns(target, InverseSpecifications(member), inverse, spelling))
  }

  function LinksOfJunction(entity: Entity, member: Member, target: Entity, own: seq<EntityColumn>,
                        inverse: seq<EntityColumn>, spelling: Spelling): seq<Link> {
    var tableName := JunctionTableName(entity, member, target, spelling);
    JunctionLinks(tableName, entity, OwnSpecifications(member), own, spelling)
    + JunctionLinks(tableName, target, InverseSpecifications(member), inverse, spelling)
  }

  // The own half of the links, then the inverse half.
  function JunctionOrigins(e: nat, relation: RelationOf, t: nat, junction: nat, own: nat, inverse: nat): (origins: seq<Origin>)
    ensures |origins| == own + inverse
    ensures forall k | 0 <= k < |origins| :: origins[k] == JunctionOrigin(e, relation, t, junction, k >= own)
  {
    Repeated(JunctionOrigin(e, relation, t, junction, false), own) + Repeated(JunctionOrigin(e, relation, t, junction, true), inverse)
  }

  lemma JunctionEndHolds(end: Entity, specifications: seq<Value>, referenced: seq<EntityColumn>,
                        spelling: Spelling, tableName: string, i: nat)
    requires i < |referenced| && referenced[i] in end.columns
    ensures var link := JunctionLinks(tableName, end, specifications, referenced, spelling)[i];
            && link.source == End(tableName, JunctionColumns(end, specifications, referenced, spelling)[i].name)
            && EndsAt(end, link.target)
  {
    EntityColumnIsColumn(end, referenced[i]);
  }

  lemma JunctionLinkHolds(entities: seq<Entity>, junctions: seq<RawTable>, table: RawTable, link: Link, origin: Origin, column: nat)
    requires origin.JunctionOrigin? && origin.entity < |entities| && origin.target < |entities|
    requires IsTarget(entities, origin.relation, origin.target) && origin.junction == |junctions| && IsJunction(table)
    requires link.source.table == table.name && column < |table.columns| && table.columns[column].name == link.source.column
    requires EndsAt(entities[if origin.inverse then origin.target else origin.entity], link.target)
    ensures OriginHolds(entities, junctions + [table], link, origin)
  {
    assert (junctions + [table])[|junctions|] == table;
  }

  lemma JunctionHolds(entities: seq<Entity>, e: nat, relation: RelationOf, t: nat, own: seq<EntityColumn>, inverse: seq<EntityColumn>,
                      spelling: Spelling, junctions: seq<RawTable>)
    requires e < |entities| && t < |entities| && own != [] && inverse != [] && IsTarget(entities, relation, t)
    requires (forall c | c in own :: c in entities[e].columns) && forall c | c in inverse :: c in entities[t].columns
    ensures var table := JunctionOf(entities[e], relation.member, entities[t], own, inverse, spelling);
            var links := LinksOfJunction(entities[e], relation.member, entities[t], own, inverse, spelling);
            AllHold(entities, junctions + [table], links, JunctionOrigins(e, relation, t, |junctions|, |own|, |inverse|))
  {
    var member := relation.member;
    var table := JunctionOf(entities[e], member, entities[t], own, inverse, spelling);
    var links := LinksOfJunction(entities[e], member, entities[t], own, inverse, spelling);
    assert IsJunction(table);
    forall k | 0 <= k < |links|
      ensures OriginHolds(entities, junctions + [table], links[k], JunctionOrigin(e, relation, t, |junctions|, k >= |own|))
    {
      if k < |own| {
        assert own[k] in own;
        JunctionEndHolds(entities[e], OwnSpecifications(member), own, spelling, table.name, k);
      } else {
        assert inverse[k - |own|] in inverse;
        JunctionEndHolds(entities[t], InverseSpecifications(member), inverse, spelling, table.name, k - |own|);
      }
      JunctionLinkHolds(entities, junctions, table, links[k], JunctionOrigin(e, relation, t, |junctions|, k >= |own|), k);
    }
  }

  predicate JunctionIsMissing(entities: seq<Entity>, e: nat, relation: RelationOf, t: nat)
    requires e < |entities| && t < |entities|
  {
    ReferencedColumns(entities[e], OwnSpecifications(relation.member)) == None
    || ReferencedColumns(entities[t], InverseSpecifications(relation.member)) == None
  }

  function JunctionAt(entities: seq<Entity>, e: nat, relation: RelationOf, t: nat, spelling: Spelling): RawTable
    requires e < |entities| && t < |entities| && !JunctionIsMissing(entities, e, relation, t)
  {
    var own := ReferencedColumns(entities[e], OwnSpecifications(relation.member)).value;
    var inverse := ReferencedColumns(entities[t], InverseSpecifications(relation.member)).value;
    JunctionOf(entities[e], relation.member, entities[t], own, inverse, spelling)
  }

  function JunctionLinksAt(entities: seq<Entity>, e: nat, relation: RelationOf, t: nat, spelling: Spelling): (links: seq<Link>)
    requires e < |entities| && t < |entities| && !JunctionIsMissing(entities, e, relation, t)
    ensures links != []
  {
    var own := ReferencedColumns(entities[e], OwnSpecifications(relation.member)).value;
    var inverse := ReferencedColumns(entities[t], InverseSpecifications(relation.member)).value;
    LinksOfJunction(entities[e], relation.member, entities[t], own, inverse, spelling)
  }

  function JunctionOriginsAt(entities: seq<Entity>, e: nat, relation: RelationOf, t: nat, junction: nat): (origins: seq<Origin>)
    requires e < |entities| && t < |entities| && !JunctionIsMissing(entities, e, relation, t)
    ensures origins != [] && forall k | 0 <= k < |origins| :: origins[k].entity == e && origins[k].relation == relation
  {
    var own := ReferencedColumns(entities[e], OwnSpecifications(relation.member)).value;
    var inverse := ReferencedColumns(entities[t], InverseSpecifications(relation.member)).value;
    JunctionOrigins(e, relation, t, junction, |own|, |inverse|)
  }

  lemma JunctionAtHolds(entities: seq<Entity>, e: nat, relation: RelationOf, t: nat, spelling: Spelling, junctions: seq<RawTable>)
    requires e < |entities| && t < |entities| && !JunctionIsMissing(entities, e, relation, t) && IsTarget(entities, relation, t)
    ensures var links := JunctionLinksAt(entities, e, relation, t, spelling);
            AllHold(entities, junctions + [JunctionAt(entities, e, relation, t, spelling)], links,
                    JunctionOriginsAt(entities, e, relation, t, |junctions|))
  {
    var own := ReferencedColumns(entities[e], OwnSpecifications(relation.member)).value;
    var inverse := ReferencedColumns(entities[t], InverseSpecifications(relation.member)).value;
    JunctionHolds(entities, e, relation, t, own, inverse, spelling, junctions);
  }

  lemma EntitiesGrowReflexive(entities: seq<Entity>)
    ensures GrowsEntities(entities, entities)
  {
    forall i | 0 <= i < |entities| ensures GrowsEntity(entities[i], entities[i]) {
      GrowsReflexive(entities[i]);
    }
  }

  // ----- what a resolved relation leaves behind

  // What the warning says of a relation: an owning one has no target, or a column it needs
  // was not found.
  function RelationNotes(entities: seq<Entity>, e: nat, relation: RelationOf): set<Note>
    requires e < |entities|
  {
    var member, decorator := relation.member, relation.decorator;
    var targetName := RelationTargetName(Argument(decorator.arguments, 0));
    if !IsOwner(member, decorator) then {}
    else
      match TargetOf(entities, targetName)
      case None => {MemberNote(member.className, member.name, NoTarget(decorator.name, targetName))}
      case Some(t) =>
        if ColumnsAreMissing(entities, e, relation, t)
        then {MemberNote(member.className, member.name, NoColumn(decorator.name, entities[t].className))} else {}
  }

  predicate ColumnsAreMissing(entities: seq<Entity>, e: nat, relation: RelationOf, t: nat)
    requires e < |entities| && t < |entities|
  {
    if relation.decorator.name == "ManyToMany" then JunctionIsMissing(entities, e, relation, t) else JoinIsMissing(entities, relation, t)
  }

  predicate IsDrawn(entities: seq<Entity>, e: nat, relation: RelationOf)
    requires e < |entities|
  {
    IsOwner(relation.member, relation.decorator) && RelationNotes(entities, e, relation) == {}
  }

  // An owned relation with a target is noted or drawn by its columns.
  lemma TargetDecides(entities: seq<Entity>, e: nat, relation: RelationOf, t: nat)
    requires e < |entities| && t < |entities| && IsTarget(entities, relation, t) && IsOwner(relation.member, relation.decorator)
    ensures var note := MemberNote(relation.member.className, relation.member.name, NoColumn(relation.decorator.name, entities[t].className));
            var missing := ColumnsAreMissing(entities, e, relation, t);
            RelationNotes(entities, e, relation) == (if missing then {note} else {})
            && DrawnOne(entities, e, relation) == (if missing then {} else {(e, relation)})
            && (IsDrawn(entities, e, relation) <==> !missing)
  {
  }

  // The relations that links were made for, with their entities.
  ghost function Drawn(origins: seq<Origin>): set<(nat, RelationOf)> {
    set o | o in origins :: (o.entity, o.relation)
  }

  ghost function DrawnOne(entities: seq<Entity>, e: nat, relation: RelationOf): set<(nat, RelationOf)>
    requires e < |entities|
  {
    if IsDrawn(entities, e, relation) then {(e, relation)} else {}
  }

  lemma DrawnGrows(origins: seq<Origin>, more: seq<Origin>, e: nat, relation: RelationOf)
    requires more != [] && forall k | 0 <= k < |more| :: more[k].entity == e && more[k].relation == relation
    ensures Drawn(origins + more) == Drawn(origins) + {(e, relation)}
  {
    var all := origins + more;
    assert forall o :: o in all <==> o in origins || o in more;
    assert more[0] in more;
    forall pair | pair in Drawn(all) ensures pair in Drawn(origins) + {(e, relation)} {
      var o :| o in all && pair == (o.entity, o.relation);
      if o in more {
        var k :| 0 <= k < |more| && more[k] == o;
      }
    }
  }

  // Growing columns change nothing about which columns are found.
  lemma FoundStays(before: Entity, after: Entity, specifications: seq<Value>)
    requires GrowsEntity(before, after)
    ensures ReferencedColumns(after, specifications) == None <==> ReferencedColumns(before, specifications) == None
  {
    if NameTheirColumns(specifications) {
      forall property ensures IsUnknown(after.columns, property) <==> IsUnknown(before.columns, property) {
      }
      NoneIffUnknown(before, specifications);
      NoneIffUnknown(after, specifications);
    } else {
      KeysStay(before, after);
      NoneIffNoKey(before, specifications);
      NoneIffNoKey(after, specifications);
    }
  }

  lemma NoneIffUnknown(entity: Entity, specifications: seq<Value>)
    requires NameTheirColumns(specifications)
    ensures ReferencedColumns(entity, specifications) == None
            <==> exists i :: 0 <= i < |specifications| && IsUnknown(entity.columns, ReferencedName(specifications[i]).value)
  {
    var referenced := ReferencedColumns(entity, specifications);
    if referenced.Some? {
      forall i | 0 <= i < |specifications| ensures !IsUnknown(entity.columns, ReferencedName(specifications[i]).value) {
        assert IsFirstOf(entity.columns, ReferencedName(specifications[i]).value, referenced.value[i]);
      }
    }
  }

  ghost predicate HasKey(entity: Entity) {
    exists i :: 0 <= i < |entity.columns| && entity.columns[i].column.primaryKey
  }

  lemma NoneIffNoKey(entity: Entity, specifications: seq<Value>)
    requires !NameTheirColumns(specifications)
    ensures ReferencedColumns(entity, specifications) == None <==> !HasKey(entity)
  {
    if HasKey(entity) {
      var i :| 0 <= i < |entity.columns| && entity.columns[i].column.primaryKey;
      assert entity.columns[i] in PrimaryColumns(entity.columns);
    }
    var primary := PrimaryColumns(entity.columns);
    if primary != [] {
      assert primary[0] in primary;
      var i :| 0 <= i < |entity.columns| && entity.columns[i] == primary[0];
    }
  }

  lemma KeysStay(before: Entity, after: Entity)
    requires GrowsEntity(before, after)
    ensures HasKey(after) <==> HasKey(before)
  {
    forall i | 0 <= i < |before.columns| ensures after.columns[i].column.primaryKey == before.columns[i].column.primaryKey {
      assert GrowsColumn(AllColumns(before)[i], AllColumns(after)[i]);
    }
  }

  lemma MissingStays(before: seq<Entity>, after: seq<Entity>, e: nat, relation: RelationOf, t: nat)
    requires GrowsEntities(before, after) && e < |before| && t < |before|
    ensures ColumnsAreMissing(after, e, relation, t) <==> ColumnsAreMissing(before, e, relation, t)
  {
    assert GrowsEntity(before[e], after[e]) && GrowsEntity(before[t], after[t]);
    FoundStays(before[t], after[t], JoinSpecificationsOf(relation.member));
    FoundStays(before[e], after[e], OwnSpecifications(relation.member));
    FoundStays(before[t], after[t], InverseSpecifications(relation.member));
  }

  // So what the warning says of a relation does not depend on when it is resolved.
  lemma RelationNotesStay(before: seq<Entity>, after: seq<Entity>, e: nat, relation: RelationOf)
    requires GrowsEntities(before, after) && e < |before|
    ensures RelationNotes(after, e, relation) == RelationNotes(before, e, relation)
    ensures DrawnOne(after, e, relation) == DrawnOne(before, e, relation)
  {
    var targetName := RelationTargetName(Argument(relation.decorator.arguments, 0));
    TargetSurvivesGrowth(before, after, targetName);
    var target := TargetOf(before, targetName);
    if target.Some? {
      assert GrowsEntity(before[target.value], after[target.value]);
      MissingStays(before, after, e, relation, target.value);
    }
  }
}
