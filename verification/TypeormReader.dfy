/** figura/scripts/erd-source-typeorm.mjs: readTypeormSchema and the helpers that change
    its entities, relations, junction tables and warnings. */
module TypeormReader {
  import opened Optional
  import opened ErdTypes
  import opened ErdModel
  import opened TypeormEntities
  import opened TypeormJoins
  import opened TypeormResolution
  import opened TypeormDrafts

  class Reader {
    const spelling: Spelling
    var entities: seq<Entity>
    var relations: seq<Link>
    var junctionTables: seq<RawTable>
    var skipped: set<Note>
    ghost var origins: seq<Origin>

    ghost predicate Valid()
      reads this
    {
      AllHold(entities, junctionTables, relations, origins)
    }

    constructor (spelling: Spelling)
      ensures Valid() && this.spelling == spelling
      ensures entities == [] && relations == [] && junctionTables == [] && skipped == {}
    {
      this.spelling := spelling;
      entities, relations, junctionTables, skipped, origins := [], [], [], {}, [];
    }

    // Since then, the relations, junction tables and columns of one relation came to be.
    ghost predicate Contributes(before: seq<Entity>, e: nat, relation: RelationOf, links: seq<Link>, junctions: seq<RawTable>)
      requires e < |before|
      reads this
    {
      var draft := DraftOne(before, e, relation, spelling);
      && relations == links + draft.links && junctionTables == junctions + draft.junctions
      && entities == before[e := EntityWith(before, e, relation, before[e], spelling)]
    }

    method Lineage(declaration: ClassDeclaration, byName: ClassMap) returns (ancestry: seq<ClassDeclaration>)
      requires ChainEnds(declaration, byName)
      modifies `skipped
      ensures ancestry == Ancestry(declaration, byName)
      ensures skipped == old(skipped) + ParentNotes(ancestry[0], byName)
      decreases Height(declaration, byName)
    {
      if declaration.parent == None || declaration.parent.value == ACTIVE_RECORD_BASE {
        return [declaration];
      }
      if declaration.parent.value !in byName {
        skipped := skipped + {ParentNote(declaration.name, declaration.parent.value)};
        return [declaration];
      }
      var parent := byName[declaration.parent.value];
      assert ParentOf(declaration, byName) == Some(parent);
      ParentIsLower(declaration, byName);
      var before := Lineage(parent, byName);
      return before + [declaration];
    }

    method ReadMember(tableName: string, member: Member) returns (columns: seq<EntityColumn>, relationMembers: seq<RelationOf>)
      modifies `skipped
      ensures columns == ColumnOf(tableName, member, spelling) && relationMembers == RelationsOfMember(member)
      ensures skipped == old(skipped) + NotesOfMember(tableName, member, spelling)
    {
      columns, relationMembers := [], [];
      match RoleOf(member) {
        case Unsupported(decorator) =>
          skipped := skipped + {MemberNote(member.className, member.name, UnsupportedDecorator(decorator.name))};
        case ColumnMember(decorator) =>
          var column := MemberColumn(tableName, member, decorator, spelling);
          if column.Some? {
            columns := [column.value];
          } else {
            skipped := skipped + {MemberNote(member.className, member.name, UnreadColumn(decorator.name))};
          }
        case RelationMember(decorator) =>
          relationMembers := [RelationOf(member, decorator)];
        case Plain =>
      }
    }

    // The loop of entityWithColumns over the members.
    method ReadMembers(tableName: string, members: seq<Member>) returns (columns: seq<EntityColumn>, relationMembers: seq<RelationOf>)
      modifies `skipped
      ensures columns == ColumnsOf(tableName, members, spelling) && relationMembers == RelationsOf(members)
      ensures skipped == old(skipped) + MemberNotes(tableName, members, spelling)
    {
      columns, relationMembers := [], [];
      for i := 0 to |members|
        invariant columns == ColumnsOf(tableName, members[..i], spelling)
        invariant relationMembers == RelationsOf(members[..i])
        invariant skipped == old(skipped) + MemberNotes(tableName, members[..i], spelling)
      {
        assert members[..i + 1][..i] == members[..i];
        var moreColumns, moreRelations := ReadMember(tableName, members[i]);
        columns, relationMembers := columns + moreColumns, relationMembers + moreRelations;
      }
      assert members[..|members|] == members;
    }

    method EntityWithColumns(declaration: ClassDeclaration, byName: ClassMap) returns (entity: Entity)
      requires ChainEnds(declaration, byName)
      modifies `skipped
      ensures entity == EntityOf(declaration, Ancestry(declaration, byName), spelling)
      ensures skipped == old(skipped) + ParentNotes(Ancestry(declaration, byName)[0], byName)
                         + MemberNotes(entity.tableName, entity.members, spelling)
    {
      var ancestry := Lineage(declaration, byName);
      var tableName := EntityTableName(declaration, spelling);
      var members := MergedMembers(ancestry);
      var columns, relationMembers := ReadMembers(tableName, members);
      return Entity(declaration.name, tableName, columns, [], relationMembers, map[], ClassDecorators(ancestry), members);
    }

    // The loop of addJoinColumns over the referenced columns.
    method JoinEach(e: nat, names: seq<string>, targetName: string, referenced: seq<EntityColumn>, nullable: bool, oneToOne: bool)
      requires e < |entities| && |names| == |referenced|
      modifies `entities, `relations
      ensures entities == old(entities)[e := JoinedAll(old(entities)[e], names, referenced, nullable, oneToOne)]
      ensures relations == old(relations) + JoinLinks(old(entities)[e].tableName, names, targetName, referenced)
    {
      ghost var links := JoinLinks(entities[e].tableName, names, targetName, referenced);
      var tableName := entities[e].tableName;
      for i := 0 to |referenced|
        invariant |entities| == |old(entities)|
        invariant entities == old(entities)[e := JoinedAll(old(entities)[e], names[..i], referenced[..i], nullable, oneToOne)]
        invariant relations == old(relations) + links[..i]
      {
        var entity := entities[e];
        assert names[..i + 1][..i] == names[..i] && referenced[..i + 1][..i] == referenced[..i];
        assert links[..i + 1] == links[..i] + [links[i]];
        if !HasNamed(AllColumns(entity), names[i]) {
          entity := entity.(implicitColumns := entity.implicitColumns + [RawColumn(names[i], referenced[i].column.typ, false, false, nullable)]);
        }
        if oneToOne {
          entity := MarkedUnique(entity, names[i]);
        }
        entities := entities[e := entity];
        relations := relations + [Link(End(tableName, names[i]), End(targetName, referenced[i].column.name))];
      }
      assert names[..|names|] == names && referenced[..|referenced|] == referenced && links[..|links|] == links;
    }

    method AddJoinColumns(e: nat, relation: RelationOf, t: nat)
      requires e < |entities| && t < |entities|
      modifies `entities, `relations, `skipped, `origins
      ensures JoinIsMissing(old(entities), relation, t) ==>
                && entities == old(entities) && relations == old(relations) && origins == old(origins)
                && skipped == old(skipped)
                   + {MemberNote(relation.member.className, relation.member.name, NoColumn(relation.decorator.name, old(entities)[t].className))}
      ensures !JoinIsMissing(old(entities), relation, t) ==>
                var referenced := JoinReferenced(old(entities), relation, t);
                && entities == old(entities)[e := Joined(old(entities)[e], relation, referenced, spelling)]
                && relations == old(relations) + JoinedLinks(old(entities), e, relation, t, referenced, spelling)
                && origins == old(origins) + Repeated(JoinOrigin(e, relation, t), |referenced|)
                && skipped == old(skipped)
      ensures !JoinIsMissing(old(entities), relation, t) ==>
                var referenced := JoinReferenced(old(entities), relation, t);
                var added := relations[|old(relations)|..];
                && |added| == |referenced|
                && (forall i: nat | i < |added| :: JoinIsSpelled(added[i], old(entities), e, relation, t, referenced, i, spelling))
                && ColumnsAreJoined(AllColumns(old(entities)[e]), AllColumns(entities[e]), SourceColumns(added), relation, referenced)
    {
      var member, decorator := relation.member, relation.decorator;
      var specifications := JoinSpecificationsOf(member);
      var found := ReferencedColumns(entities[t], specifications);
      if found == None {
        skipped := skipped + {MemberNote(member.className, member.name, NoColumn(decorator.name, entities[t].className))};
        return;
      }
      var names := JoinNames(member, specifications, found.value, spelling);
      ghost var before := entities[e];
      JoinEach(e, names, entities[t].tableName, found.value, IsNullable(decorator), decorator.name == "OneToOne");
      JoinedAllKeepsRest(before, names, found.value, IsNullable(decorator), decorator.name == "OneToOne");
      entities := entities[e := entities[e].(joinColumnsOfProperty := entities[e].joinColumnsOfProperty[member.name := names])];
      origins := origins + Repeated(JoinOrigin(e, relation, t), |found.value|);
      JoinedLinksAreSpelled(old(entities), e, relation, t, found.value, spelling);
      JoinedColumnsAre(old(entities), e, relation, t, found.value, before, spelling);
      assert relations[|old(relations)|..] == JoinedLinks(old(entities), e, relation, t, found.value, spelling);
    }

    method JunctionTable(e: nat, relation: RelationOf, t: nat) returns (table: Option<RawTable>)
      requires e < |entities| && t < |entities|
      modifies `relations, `skipped, `origins
      ensures table == None <==> JunctionIsMissing(entities, e, relation, t)
      ensures table == None ==>
                && relations == old(relations) && origins == old(origins)
                && skipped == old(skipped)
                   + {MemberNote(relation.member.className, relation.member.name, NoColumn(relation.decorator.name, entities[t].className))}
      ensures table.Some? ==>
                && table.value == JunctionAt(entities, e, relation, t, spelling)
                && relations == old(relations) + JunctionLinksAt(entities, e, relation, t, spelling)
                && origins == old(origins)
                   + JunctionOriginsAt(entities, e, relation, t, |junctionTables|)
                && skipped == old(skipped)
      ensures table.Some? ==>
                JunctionIs(table.value, relations[|old(relations)|..], entities[e], relation.member, entities[t],
                           ReferencedColumns(entities[e], OwnSpecifications(relation.member)).value,
                           ReferencedColumns(entities[t], InverseSpecifications(relation.member)).value, spelling)
    {
      var member := relation.member;
      var entity, target := entities[e], entities[t];
      var own, inverse := ReferencedColumns(entity, OwnSpecifications(member)), ReferencedColumns(target, InverseSpecifications(member));
      if own == None || inverse == None {
        skipped := skipped + {MemberNote(member.className, member.name, NoColumn(relation.decorator.name, target.className))};
        return None;
      }
      var tableName := JunctionTableName(entity, member, target, spelling);
      var links := JunctionLinks(tableName, entity, OwnSpecifications(member), own.value, spelling);
      links := links + JunctionLinks(tableName, target, InverseSpecifications(member), inverse.value, spelling);
      relations := relations + links;
      origins := origins + JunctionOrigins(e, relation, t, |junctionTables|, |own.value|, |inverse.value|);
      JunctionIsSpelled(entities, e, relation, t, spelling);
      assert relations[|old(relations)|..] == JunctionLinksAt(entities, e, relation, t, spelling);
      var columns := JunctionColumns(entity, OwnSpecifications(member), own.value, spelling);
      return Some(RawTable(tableName, "", columns + JunctionColumns(target, InverseSpecifications(member), inverse.value, spelling)));
    }

    // The body of the loop over the relations of an entity.
    method ResolveRelation(e: nat, relation: RelationOf)
      requires Valid() && e < |entities|
      modifies this
      ensures Valid() && GrowsEntities(old(entities), entities)
      ensures skipped == old(skipped) + RelationNotes(old(entities), e, relation)
      ensures Drawn(origins) == Drawn(old(origins)) + DrawnOne(old(entities), e, relation)
      ensures Contributes(old(entities), e, relation, old(relations), old(junctionTables))
    {
      EntitiesGrowReflexive(entities);
      var member, decorator := relation.member, relation.decorator;
      if !IsOwner(member, decorator) {
        return;
      }
      var targetName := RelationTargetName(Argument(decorator.arguments, 0));
      var target := TargetOf(entities, targetName);
      if target == None {
        skipped := skipped + {MemberNote(member.className, member.name, NoTarget(decorator.name, targetName))};
      } else if decorator.name == "ManyToMany" {
        ResolveJunction(e, relation, target.value);
      } else {
        ResolveJoin(e, relation, target.value);
      }
    }

    method ResolveJunction(e: nat, relation: RelationOf, t: nat)
      requires Valid() && e < |entities| && t < |entities| && IsTarget(entities, relation, t)
      requires IsOwner(relation.member, relation.decorator) && relation.decorator.name == "ManyToMany"
      modifies this
      ensures Valid() && entities == old(entities)
      ensures skipped == old(skipped) + RelationNotes(old(entities), e, relation)
      ensures Drawn(origins) == Drawn(old(origins)) + DrawnOne(old(entities), e, relation)
      ensures Contributes(old(entities), e, relation, old(relations), old(junctionTables))
    {
      ghost var links, tags := relations, origins;
      var table := JunctionTable(e, relation, t);
      TargetDecides(entities, e, relation, t);
      if table.Some? {
        ghost var more := JunctionOriginsAt(entities, e, relation, t, |junctionTables|);
        JunctionAtHolds(entities, e, relation, t, spelling, junctionTables);
        EntitiesGrowReflexive(entities);
        AllHoldLater(entities, entities, junctionTables, [table.value], links, tags, JunctionLinksAt(entities, e, relation, t, spelling), more);
        DrawnGrows(tags, more, e, relation);
        junctionTables := junctionTables + [table.value];
      }
    }

    method ResolveJoin(e: nat, relation: RelationOf, t: nat)
      requires Valid() && e < |entities| && t < |entities| && IsTarget(entities, relation, t)
      requires IsOwner(relation.member, relation.decorator) && relation.decorator.name != "ManyToMany"
      modifies this
      ensures Valid() && GrowsEntities(old(entities), entities) && junctionTables == old(junctionTables)
      ensures skipped == old(skipped) + RelationNotes(old(entities), e, relation)
      ensures Drawn(origins) == Drawn(old(origins)) + DrawnOne(old(entities), e, relation)
      ensures Contributes(old(entities), e, relation, old(relations), old(junctionTables))
    {
      ghost var before, links, tags := entities, relations, origins;
      AddJoinColumns(e, relation, t);
      TargetDecides(before, e, relation, t);
      if JoinIsMissing(before, relation, t) {
        EntitiesGrowReflexive(entities);
      } else {
        ghost var referenced := JoinReferenced(before, relation, t);
        ghost var more := Repeated(JoinOrigin(e, relation, t), |referenced|);
        JoinedHolds(before, e, relation, t, referenced, spelling, junctionTables);
        assert junctionTables + [] == junctionTables;
        AllHoldLater(before, entities, junctionTables, [], links, tags, JoinedLinks(before, e, relation, t, referenced, spelling), more);
        DrawnGrows(tags, more, e, relation);
      }
    }

    method MarkUniqueColumns(e: nat)
      requires e < |entities|
      modifies `entities
      ensures entities == old(entities)[e := MarkedAll(old(entities)[e], UniqueIndexes(old(entities)[e]))]
    {
      var entity := MarkMembers(entities[e], entities[e].members);
      entity := MarkByClass(entities[e], entity, entities[e].classDecorators);
      entities := entities[e := entity];
    }
  }

  // The loop of markUniqueColumns over the members.
  method MarkMembers(before: Entity, members: seq<Member>) returns (entity: Entity)
    ensures entity == MarkedAll(before, MemberIndexes(members))
  {
    entity := before;
    for i := 0 to |members|
      invariant entity == MarkedAll(before, MemberIndexes(members[..i]))
    {
      assert members[..i + 1][..i] == members[..i];
      if IsUniqueMember(members[i]) {
        OneMoreIndex(before, MemberIndexes(members[..i]), [members[i].name]);
        entity := MarkedSingle(entity, [members[i].name]);
      }
    }
    assert members[..|members|] == members;
  }

  // The loop of markUniqueColumns over the decorators of the class and its ancestors.
  method MarkByClass(ghost before: Entity, marked: Entity, decorators: seq<Decorator>) returns (entity: Entity)
    requires marked == MarkedAll(before, MemberIndexes(before.members))
    ensures entity == MarkedAll(before, MemberIndexes(before.members) + ClassIndexes(decorators))
  {
    entity := marked;
    ghost var ofMembers := MemberIndexes(before.members);
    assert ofMembers + ClassIndexes([]) == ofMembers;
    for i := 0 to |decorators|
      invariant entity == MarkedAll(before, ofMembers + ClassIndexes(decorators[..i]))
    {
      assert decorators[..i + 1][..i] == decorators[..i];
      if IsUniqueIndex(decorators[i]) {
        var fields := IndexedFieldNames(decorators[i].arguments);
        if fields.Some? && |fields.value| == 1 {
          OneMoreIndex(before, ofMembers + ClassIndexes(decorators[..i]), fields.value);
          assert ofMembers + (ClassIndexes(decorators[..i]) + [fields.value]) == (ofMembers + ClassIndexes(decorators[..i])) + [fields.value];
          entity := MarkedSingle(entity, fields.value);
        }
      }
    }
    assert decorators[..|decorators|] == decorators;
  }

  lemma OneMoreIndex(entity: Entity, indexes: seq<seq<string>>, index: seq<string>)
    ensures MarkedAll(entity, indexes + [index]) == MarkedSingle(MarkedAll(entity, indexes), index)
  {
    assert (indexes + [index])[..|indexes|] == indexes;
  }
}
