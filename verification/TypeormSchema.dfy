/** figura/scripts/erd-source-typeorm.mjs: readTypeormSchema, from parsed class
    declarations to the schema and the warning. */
module TypeormSchema {
  import opened Optional
  import opened ErdTypes
  import opened ErdModel
  import opened TypeormEntities
  import opened TypeormJoins
  import opened TypeormResolution
  import opened TypeormDrafts
  import opened TypeormReader

  predicate IsEntityClass(declaration: ClassDeclaration) {
    DecoratorAmong(declaration.decorators, {"Entity"}).Some?
  }

  function EntityClasses(classes: seq<ClassDeclaration>): seq<ClassDeclaration> {
    if classes == [] then []
    else
      var last, before := classes[|classes| - 1], EntityClasses(classes[..|classes| - 1]);
      if IsEntityClass(last) then before + [last] else before
  }

  lemma {:induction false} EntityClassesAreThose(classes: seq<ClassDeclaration>)
    ensures forall c :: c in EntityClasses(classes) <==> c in classes && IsEntityClass(c)
  {
    if classes != [] {
      EntityClassesAreThose(classes[..|classes| - 1]);
      assert classes == classes[..|classes| - 1] + [classes[|classes| - 1]];
    }
  }

  // For every entity class the calls of lineage end.
  ghost predicate LineagesEnd(classes: seq<ClassDeclaration>) {
    forall c | c in classes && IsEntityClass(c) :: ChainEnds(c, ByName(classes))
  }

  // The first class of a name is the one the name means.
  lemma {:induction false} FirstOfItsName(classes: seq<ClassDeclaration>, i: nat)
    requires i < |classes| && forall k | 0 <= k < i :: classes[k].name != classes[i].name
    ensures classes[i].name in ByName(classes) && ByName(classes)[classes[i].name] == classes[i]
    decreases |classes|
  {
    var n := |classes| - 1;
    if i < n {
      FirstOfItsName(classes[..n], i);
    } else {
      NotNamedBefore(classes[..n], classes[n].name);
    }
  }

  lemma {:induction false} NotNamedBefore(classes: seq<ClassDeclaration>, name: string)
    requires forall k | 0 <= k < |classes| :: classes[k].name != name
    ensures name !in ByName(classes)
  {
    if classes != [] {
      NotNamedBefore(classes[..|classes| - 1], name);
    }
  }

  // An entity class written `class User extends base.User` before any other User: the
  // parent keeps the last name, and reading its lineage never ends.
  lemma QualifiedNamesakeNeverEnds(classes: seq<ClassDeclaration>, i: nat)
    requires i < |classes| && IsEntityClass(classes[i]) && forall k | 0 <= k < i :: classes[k].name != classes[i].name
    requires classes[i].parent == Some(classes[i].name) && classes[i].name != ACTIVE_RECORD_BASE
    ensures !LineagesEnd(classes)
  {
    FirstOfItsName(classes, i);
    OwnParentNeverEnds(classes[i], ByName(classes));
    assert classes[i] in classes;
  }

  // ----- first pass

  function ClassNotes(classes: seq<ClassDeclaration>): set<Note> {
    if classes == [] then {}
    else
      var last := classes[|classes| - 1];
      var unsupported := DecoratorAmong(last.decorators, UNSUPPORTED_CLASS_DECORATORS);
      ClassNotes(classes[..|classes| - 1]) + if unsupported.Some? then {ClassNote(last.name, unsupported.value.name)} else {}
  }

  method NoteUnsupportedClasses(reader: Reader, classes: seq<ClassDeclaration>)
    modifies reader`skipped
    ensures reader.skipped == old(reader.skipped) + ClassNotes(classes)
  {
    for i := 0 to |classes|
      invariant reader.skipped == old(reader.skipped) + ClassNotes(classes[..i])
    {
      assert classes[..i + 1][..i] == classes[..i];
      var unsupported := DecoratorAmong(classes[i].decorators, UNSUPPORTED_CLASS_DECORATORS);
      if unsupported.Some? {
        reader.skipped := reader.skipped + {ClassNote(classes[i].name, unsupported.value.name)};
      }
    }
    assert classes[..|classes|] == classes;
  }

  // The entities as the classes and their ancestors give them, before relations are resolved.
  ghost function InitialEntities(classes: seq<ClassDeclaration>, byName: ClassMap, spelling: Spelling): (entities: seq<Entity>)
    requires forall c | c in classes && IsEntityClass(c) :: ChainEnds(c, byName)
  {
    if classes == [] then []
    else
      var last, before := classes[|classes| - 1], InitialEntities(classes[..|classes| - 1], byName, spelling);
      if IsEntityClass(last) then before + [EntityOf(last, Ancestry(last, byName), spelling)] else before
  }

  // Where the top of a chain extends an unknown class, the warning says so.
  ghost function AllParentNotes(classes: seq<ClassDeclaration>, byName: ClassMap): set<Note>
    requires forall c | c in classes && IsEntityClass(c) :: ChainEnds(c, byName)
  {
    if classes == [] then {}
    else
      var last := classes[|classes| - 1];
      AllParentNotes(classes[..|classes| - 1], byName)
      + if IsEntityClass(last) then ParentNotes(Ancestry(last, byName)[0], byName) else {}
  }

  ghost function AllMemberNotes(entities: seq<Entity>, spelling: Spelling): set<Note> {
    if entities == [] then {}
    else
      var last := entities[|entities| - 1];
      AllMemberNotes(entities[..|entities| - 1], spelling) + MemberNotes(last.tableName, last.members, spelling)
  }

  lemma {:induction false} InitialCount(classes: seq<ClassDeclaration>, byName: ClassMap, spelling: Spelling)
    requires forall c | c in classes && IsEntityClass(c) :: ChainEnds(c, byName)
    ensures |InitialEntities(classes, byName, spelling)| == |EntityClasses(classes)|
  {
    if classes != [] {
      InitialCount(classes[..|classes| - 1], byName, spelling);
    }
  }

  // What was read of the first classes.
  ghost predicate ReadUpTo(reader: Reader, classes: seq<ClassDeclaration>, byName: ClassMap, noted: set<Note>, i: nat)
    requires i <= |classes| && forall c | c in classes && IsEntityClass(c) :: ChainEnds(c, byName)
    reads reader
  {
    && reader.relations == [] && reader.origins == [] && reader.junctionTables == []
    && reader.entities == InitialEntities(classes[..i], byName, reader.spelling)
    && reader.skipped == noted + AllParentNotes(classes[..i], byName) + AllMemberNotes(reader.entities, reader.spelling)
  }

  lemma ReadOneMore(classes: seq<ClassDeclaration>, byName: ClassMap, spelling: Spelling, i: nat)
    requires i < |classes| && forall c | c in classes && IsEntityClass(c) :: ChainEnds(c, byName)
    ensures var before, after := InitialEntities(classes[..i], byName, spelling), InitialEntities(classes[..i + 1], byName, spelling);
            if IsEntityClass(classes[i]) then
              var entity := EntityOf(classes[i], Ancestry(classes[i], byName), spelling);
              && after == before + [entity]
              && AllMemberNotes(after, spelling) == AllMemberNotes(before, spelling) + MemberNotes(entity.tableName, entity.members, spelling)
              && AllParentNotes(classes[..i + 1], byName)
                 == AllParentNotes(classes[..i], byName) + ParentNotes(Ancestry(classes[i], byName)[0], byName)
            else after == before && AllParentNotes(classes[..i + 1], byName) == AllParentNotes(classes[..i], byName)
  {
    assert classes[..i + 1][..i] == classes[..i];
    var before := InitialEntities(classes[..i], byName, spelling);
    if IsEntityClass(classes[i]) {
      assert (before + [EntityOf(classes[i], Ancestry(classes[i], byName), spelling)])[..|before|] == before;
    }
  }

  method ReadNext(reader: Reader, classes: seq<ClassDeclaration>, byName: ClassMap, ghost noted: set<Note>, i: nat)
    requires i < |classes| && forall c | c in classes && IsEntityClass(c) :: ChainEnds(c, byName)
    requires ReadUpTo(reader, classes, byName, noted, i)
    modifies reader
    ensures ReadUpTo(reader, classes, byName, noted, i + 1)
  {
    ReadOneMore(classes, byName, reader.spelling, i);
    if IsEntityClass(classes[i]) {
      ghost var before := reader.skipped;
      var entity := reader.EntityWithColumns(classes[i], byName);
      ghost var parents, members := ParentNotes(Ancestry(classes[i], byName)[0], byName), MemberNotes(entity.tableName, entity.members, reader.spelling);
      assert reader.skipped == before + parents + members;
      NotesRegroup(noted, AllParentNotes(classes[..i], byName), AllMemberNotes(reader.entities, reader.spelling), parents, members);
      reader.entities := reader.entities + [entity];
    }
  }

  lemma NotesRegroup(noted: set<Note>, a: set<Note>, b: set<Note>, c: set<Note>, d: set<Note>)
    ensures noted + a + b + c + d == noted + (a + c) + (b + d)
  {
  }

  method ReadEntities(reader: Reader, classes: seq<ClassDeclaration>)
    requires LineagesEnd(classes)
    requires reader.Valid() && reader.entities == [] && reader.relations == [] && reader.junctionTables == [] && reader.origins == []
    modifies reader
    ensures reader.Valid() && reader.entities == InitialEntities(classes, ByName(classes), reader.spelling)
    ensures reader.origins == [] && reader.relations == [] && reader.junctionTables == []
    ensures reader.skipped == old(reader.skipped) + AllParentNotes(classes, ByName(classes)) + AllMemberNotes(reader.entities, reader.spelling)
  {
    var byName := ByName(classes);
    for i := 0 to |classes|
      invariant ReadUpTo(reader, classes, byName, old(reader.skipped), i)
    {
      ReadNext(reader, classes, byName, old(reader.skipped), i);
    }
    assert classes[..|classes|] == classes;
  }

  // ----- second pass

  ghost function NotesOf(entities: seq<Entity>, e: nat, relations: seq<RelationOf>): set<Note>
    requires e < |entities|
  {
    if relations == [] then {}
    else NotesOf(entities, e, relations[..|relations| - 1]) + RelationNotes(entities, e, relations[|relations| - 1])
  }

  ghost function DrawnOf(entities: seq<Entity>, e: nat, relations: seq<RelationOf>): set<(nat, RelationOf)>
    requires e < |entities|
  {
    if relations == [] then {}
    else DrawnOf(entities, e, relations[..|relations| - 1]) + DrawnOne(entities, e, relations[|relations| - 1])
  }

  ghost function UnionUpTo<T>(sets: nat -> set<T>, n: nat): set<T> {
    if n == 0 then {} else UnionUpTo(sets, n - 1) + sets(n - 1)
  }

  ghost function NotesOfEntity(entities: seq<Entity>, e: nat): set<Note> {
    if e < |entities| then NotesOf(entities, e, entities[e].relationMembers) else {}
  }

  ghost function DrawnOfEntity(entities: seq<Entity>, e: nat): set<(nat, RelationOf)> {
    if e < |entities| then DrawnOf(entities, e, entities[e].relationMembers) else {}
  }

  ghost function NotesByEntity(entities: seq<Entity>): nat -> set<Note> {
    (e: nat) => NotesOfEntity(entities, e)
  }

  ghost function DrawnByEntity(entities: seq<Entity>): nat -> set<(nat, RelationOf)> {
    (e: nat) => DrawnOfEntity(entities, e)
  }

  ghost function AllRelationNotes(entities: seq<Entity>, upTo: nat): set<Note> {
    UnionUpTo(NotesByEntity(entities), upTo)
  }

  ghost function AllDrawn(entities: seq<Entity>, upTo: nat): set<(nat, RelationOf)> {
    UnionUpTo(DrawnByEntity(entities), upTo)
  }

  lemma {:induction false} SameUnion<T>(f: nat -> set<T>, g: nat -> set<T>, n: nat)
    requires forall e: nat | e < n :: f(e) == g(e)
    ensures UnionUpTo(f, n) == UnionUpTo(g, n)
  {
    if n > 0 {
      SameUnion(f, g, n - 1);
    }
  }

  lemma {:induction false} UnionHolds<T>(sets: nat -> set<T>, n: nat, x: T)
    ensures x in UnionUpTo(sets, n) <==> exists e: nat :: e < n && x in sets(e)
  {
    if n > 0 {
      UnionHolds(sets, n - 1, x);
    }
  }

  lemma {:induction false} NotesOfStay(before: seq<Entity>, after: seq<Entity>, e: nat, relations: seq<RelationOf>)
    requires GrowsEntities(before, after) && e < |before|
    ensures NotesOf(after, e, relations) == NotesOf(before, e, relations) && DrawnOf(after, e, relations) == DrawnOf(before, e, relations)
  {
    if relations != [] {
      NotesOfStay(before, after, e, relations[..|relations| - 1]);
      RelationNotesStay(before, after, e, relations[|relations| - 1]);
    }
  }

  lemma SameRelationMembers(before: seq<Entity>, after: seq<Entity>, e: nat)
    requires GrowsEntities(before, after) && e < |before|
    ensures after[e].relationMembers == before[e].relationMembers
  {
    assert GrowsEntity(before[e], after[e]);
  }

  lemma EntityNotesStay(before: seq<Entity>, after: seq<Entity>, e: nat)
    requires GrowsEntities(before, after)
    ensures NotesOfEntity(after, e) == NotesOfEntity(before, e) && DrawnOfEntity(after, e) == DrawnOfEntity(before, e)
  {
    if e < |before| {
      SameRelationMembers(before, after, e);
      NotesOfStay(before, after, e, before[e].relationMembers);
    }
  }

  lemma AllNotesStay(before: seq<Entity>, after: seq<Entity>, upTo: nat)
    requires GrowsEntities(before, after)
    ensures AllRelationNotes(after, upTo) == AllRelationNotes(before, upTo) && AllDrawn(after, upTo) == AllDrawn(before, upTo)
  {
    forall e: nat ensures NotesByEntity(after)(e) == NotesByEntity(before)(e) && DrawnByEntity(after)(e) == DrawnByEntity(before)(e) {
      EntityNotesStay(before, after, e);
    }
    SameUnion(NotesByEntity(after), NotesByEntity(before), upTo);
    SameUnion(DrawnByEntity(after), DrawnByEntity(before), upTo);
  }

  lemma {:induction false} MemberNotesStay(before: seq<Entity>, after: seq<Entity>, spelling: Spelling)
    requires GrowsEntities(before, after)
    ensures AllMemberNotes(after, spelling) == AllMemberNotes(before, spelling)
  {
    if before != [] {
      var n := |before| - 1;
      assert GrowsEntity(before[n], after[n]);
      MemberNotesStay(before[..n], after[..n], spelling);
    }
  }

  // The relations and junction tables of some relation decorators of one entity.
  ghost function DraftOf(entities: seq<Entity>, e: nat, relations: seq<RelationOf>, spelling: Spelling): Draft
    requires e < |entities|
  {
    if relations == [] then NOTHING
    else Plus(DraftOf(entities, e, relations[..|relations| - 1], spelling), DraftOne(entities, e, relations[|relations| - 1], spelling))
  }

  // The entity with their join columns.
  ghost function EntityAfter(entities: seq<Entity>, e: nat, relations: seq<RelationOf>, entity: Entity, spelling: Spelling): Entity
    requires e < |entities|
  {
    if relations == [] then entity
    else
      EntityWith(entities, e, relations[|relations| - 1], EntityAfter(entities, e, relations[..|relations| - 1], entity, spelling), spelling)
  }

  ghost function DraftUpTo(entities: seq<Entity>, upTo: nat, spelling: Spelling): Draft
    requires upTo <= |entities|
  {
    if upTo == 0 then NOTHING
    else Plus(DraftUpTo(entities, upTo - 1, spelling), DraftOf(entities, upTo - 1, entities[upTo - 1].relationMembers, spelling))
  }

  ghost function ResolvedUpTo(entities: seq<Entity>, upTo: nat, spelling: Spelling): (resolved: seq<Entity>)
    requires upTo <= |entities|
    ensures |resolved| == |entities|
    ensures forall e: nat | e < |entities| ::
              resolved[e] == if e < upTo then EntityAfter(entities, e, entities[e].relationMembers, entities[e], spelling) else entities[e]
  {
    seq(|entities|, (e: nat) requires e < |entities| =>
      if e < upTo then EntityAfter(entities, e, entities[e].relationMembers, entities[e], spelling) else entities[e])
  }

  // How far the loops are: what was noted, drawn, drafted and joined.
  datatype Progress = Progress(noted: set<Note>, drawn: set<(nat, RelationOf)>, draft: Draft, entities: seq<Entity>)

  ghost predicate Resolved(reader: Reader, start: seq<Entity>, p: Progress)
    reads reader
  {
    && reader.Valid() && GrowsEntities(start, reader.entities) && reader.skipped == p.noted && Drawn(reader.origins) == p.drawn
    && reader.relations == p.draft.links && reader.junctionTables == p.draft.junctions && reader.entities == p.entities
  }

  ghost function WithOne(p: Progress, start: seq<Entity>, e: nat, relation: RelationOf, spelling: Spelling): Progress
    requires e < |start| == |p.entities|
  {
    Progress(p.noted + RelationNotes(start, e, relation), p.drawn + DrawnOne(start, e, relation),
             Plus(p.draft, DraftOne(start, e, relation, spelling)),
             p.entities[e := EntityWith(start, e, relation, p.entities[e], spelling)])
  }

  ghost function WithAll(p: Progress, start: seq<Entity>, e: nat, relations: seq<RelationOf>, spelling: Spelling): Progress
    requires e < |start| == |p.entities|
  {
    Progress(p.noted + NotesOf(start, e, relations), p.drawn + DrawnOf(start, e, relations),
             Plus(p.draft, DraftOf(start, e, relations, spelling)),
             p.entities[e := EntityAfter(start, e, relations, p.entities[e], spelling)])
  }

  ghost function UpTo(start: seq<Entity>, noted: set<Note>, e: nat, spelling: Spelling): Progress
    requires e <= |start|
  {
    Progress(noted + AllRelationNotes(start, e), AllDrawn(start, e), DraftUpTo(start, e, spelling), ResolvedUpTo(start, e, spelling))
  }

  method ResolveNext(reader: Reader, e: nat, relation: RelationOf, ghost start: seq<Entity>, ghost p: Progress)
    requires e < |start| == |p.entities| && Resolved(reader, start, p)
    modifies reader
    ensures Resolved(reader, start, WithOne(p, start, e, relation, reader.spelling))
  {
    ghost var entities := reader.entities;
    RelationNotesStay(start, entities, e, relation);
    DraftStays(start, entities, e, relation, entities[e], reader.spelling);
    reader.ResolveRelation(e, relation);
    GrowsEntitiesTransitive(start, entities, reader.entities);
  }

  method ResolveEntity(reader: Reader, e: nat, ghost start: seq<Entity>, ghost p: Progress)
    requires e < |start| == |p.entities| && Resolved(reader, start, p)
    modifies reader
    ensures Resolved(reader, start, WithAll(p, start, e, start[e].relationMembers, reader.spelling))
  {
    SameRelationMembers(start, reader.entities, e);
    var relations := reader.entities[e].relationMembers;
    NoneResolved(start, e, p, reader.spelling);
    for k := 0 to |relations|
      invariant Resolved(reader, start, WithAll(p, start, e, relations[..k], reader.spelling))
    {
      OneMoreRelation(start, e, relations, k, p, reader.spelling);
      ResolveNext(reader, e, relations[k], start, WithAll(p, start, e, relations[..k], reader.spelling));
    }
    assert relations[..|relations|] == relations;
  }

  lemma NoneResolved(start: seq<Entity>, e: nat, p: Progress, spelling: Spelling)
    requires e < |start| == |p.entities|
    ensures WithAll(p, start, e, [], spelling) == p
  {
    assert p.entities[e := p.entities[e]] == p.entities;
  }

  lemma MoreNotes(start: seq<Entity>, e: nat, relations: seq<RelationOf>, k: nat, noted: set<Note>, drawn: set<(nat, RelationOf)>)
    requires e < |start| && k < |relations|
    ensures noted + NotesOf(start, e, relations[..k]) + RelationNotes(start, e, relations[k]) == noted + NotesOf(start, e, relations[..k + 1])
    ensures drawn + DrawnOf(start, e, relations[..k]) + DrawnOne(start, e, relations[k]) == drawn + DrawnOf(start, e, relations[..k + 1])
  {
    assert relations[..k + 1][..k] == relations[..k];
  }

  lemma PlusAgain(a: Draft, b: Draft, c: Draft)
    ensures Plus(Plus(a, b), c) == Plus(a, Plus(b, c))
  {
    assert a.links + b.links + c.links == a.links + (b.links + c.links);
    assert a.junctions + b.junctions + c.junctions == a.junctions + (b.junctions + c.junctions);
  }

  lemma MoreDrafted(start: seq<Entity>, e: nat, relations: seq<RelationOf>, k: nat, draft: Draft, entity: Entity, spelling: Spelling)
    requires e < |start| && k < |relations|
    ensures Plus(Plus(draft, DraftOf(start, e, relations[..k], spelling)), DraftOne(start, e, relations[k], spelling))
            == Plus(draft, DraftOf(start, e, relations[..k + 1], spelling))
    ensures EntityWith(start, e, relations[k], EntityAfter(start, e, relations[..k], entity, spelling), spelling)
            == EntityAfter(start, e, relations[..k + 1], entity, spelling)
  {
    assert relations[..k + 1][..k] == relations[..k];
    PlusAgain(draft, DraftOf(start, e, relations[..k], spelling), DraftOne(start, e, relations[k], spelling));
  }

  lemma OneMoreRelation(start: seq<Entity>, e: nat, relations: seq<RelationOf>, k: nat, p: Progress, spelling: Spelling)
    requires e < |start| == |p.entities| && k < |relations|
    ensures WithOne(WithAll(p, start, e, relations[..k], spelling), start, e, relations[k], spelling)
            == WithAll(p, start, e, relations[..k + 1], spelling)
  {
    MoreNotes(start, e, relations, k, p.noted, p.drawn);
    MoreDrafted(start, e, relations, k, p.draft, p.entities[e], spelling);
  }

  method ResolveOne(reader: Reader, e: nat, ghost start: seq<Entity>, ghost noted: set<Note>)
    requires e < |start| && Resolved(reader, start, UpTo(start, noted, e, reader.spelling))
    modifies reader
    ensures Resolved(reader, start, UpTo(start, noted, e + 1, reader.spelling))
  {
    OneMoreEntity(start, e, noted, reader.spelling);
    ResolveEntity(reader, e, start, UpTo(start, noted, e, reader.spelling));
  }

  method ResolveAll(reader: Reader, ghost start: seq<Entity>, ghost noted: set<Note>)
    requires start == reader.entities && Resolved(reader, start, UpTo(start, noted, 0, reader.spelling))
    modifies reader
    ensures Resolved(reader, start, UpTo(start, noted, |start|, reader.spelling))
  {
    for e := 0 to |reader.entities|
      invariant Resolved(reader, start, UpTo(start, noted, e, reader.spelling))
    {
      ResolveOne(reader, e, start, noted);
    }
  }

  method ResolveRelations(reader: Reader)
    requires reader.Valid() && reader.origins == [] && reader.relations == [] && reader.junctionTables == []
    modifies reader
    ensures reader.Valid() && GrowsEntities(old(reader.entities), reader.entities)
    ensures reader.skipped == old(reader.skipped) + AllRelationNotes(reader.entities, |reader.entities|)
    ensures Drawn(reader.origins) == AllDrawn(reader.entities, |reader.entities|)
    ensures Draft(reader.relations, reader.junctionTables) == DraftUpTo(old(reader.entities), |reader.entities|, reader.spelling)
    ensures reader.entities == ResolvedUpTo(old(reader.entities), |reader.entities|, reader.spelling)
  {
    ghost var start := reader.entities;
    EntitiesGrowReflexive(start);
    assert AllRelationNotes(start, 0) == {} && AllDrawn(start, 0) == {};
    assert ResolvedUpTo(start, 0, reader.spelling) == start;
    ResolveAll(reader, start, reader.skipped);
    AllNotesStay(start, reader.entities, |start|);
  }

  lemma OneMoreUnion<T>(sets: nat -> set<T>, n: nat)
    ensures UnionUpTo(sets, n + 1) == UnionUpTo(sets, n) + sets(n)
  {
  }

  lemma MoreEntityNotes(start: seq<Entity>, e: nat, noted: set<Note>)
    ensures noted + AllRelationNotes(start, e) + NotesOfEntity(start, e) == noted + AllRelationNotes(start, e + 1)
    ensures AllDrawn(start, e) + DrawnOfEntity(start, e) == AllDrawn(start, e + 1)
  {
    OneMoreUnion(NotesByEntity(start), e);
    OneMoreUnion(DrawnByEntity(start), e);
  }

  lemma OneMoreResolved(start: seq<Entity>, e: nat, spelling: Spelling)
    requires e < |start|
    ensures var resolved := ResolvedUpTo(start, e, spelling);
            resolved[e := EntityAfter(start, e, start[e].relationMembers, resolved[e], spelling)] == ResolvedUpTo(start, e + 1, spelling)
  {
  }

  lemma OneMoreDraft(start: seq<Entity>, e: nat, spelling: Spelling)
    requires e < |start|
    ensures Plus(DraftUpTo(start, e, spelling), DraftOf(start, e, start[e].relationMembers, spelling)) == DraftUpTo(start, e + 1, spelling)
  {
  }

  lemma OneMoreEntity(start: seq<Entity>, e: nat, noted: set<Note>, spelling: Spelling)
    requires e < |start|
    ensures WithAll(UpTo(start, noted, e, spelling), start, e, start[e].relationMembers, spelling) == UpTo(start, noted, e + 1, spelling)
  {
    MoreEntityNotes(start, e, noted);
    OneMoreResolved(start, e, spelling);
    OneMoreDraft(start, e, spelling);
  }

  // ----- third pass

  ghost predicate AllMarked(before: seq<Entity>, after: seq<Entity>, upTo: nat) {
    upTo <= |before| == |after|
    && (forall e | 0 <= e < upTo :: after[e] == MarkedAll(before[e], UniqueIndexes(before[e])))
    && (forall e | upTo <= e < |before| :: after[e] == before[e])
  }

  lemma MarkedGrows(before: seq<Entity>, after: seq<Entity>)
    requires AllMarked(before, after, |before|)
    ensures GrowsEntities(before, after)
  {
    forall e | 0 <= e < |before| ensures GrowsEntity(before[e], after[e]) {
      MarkedAllIsExact(before[e], UniqueIndexes(before[e]), "");
    }
  }

  method MarkUnique(reader: Reader)
    requires reader.Valid()
    modifies reader`entities
    ensures reader.Valid() && AllMarked(old(reader.entities), reader.entities, |reader.entities|)
    ensures GrowsEntities(old(reader.entities), reader.entities)
  {
    ghost var before := reader.entities;
    for e := 0 to |reader.entities|
      invariant AllMarked(before, reader.entities, e)
    {
      reader.MarkUniqueColumns(e);
    }
    MarkedGrows(before, reader.entities);
    AllHoldLater(before, reader.entities, reader.junctionTables, [], reader.relations, reader.origins, [], []);
    assert reader.relations + [] == reader.relations && reader.origins + [] == reader.origins && reader.junctionTables + [] == reader.junctionTables;
  }

  // ----- the schema

  function TableOf(entity: Entity): RawTable {
    RawTable(entity.tableName, "", AllColumns(entity))
  }

  function TablesOf(entities: seq<Entity>, junctions: seq<RawTable>): seq<RawTable> {
    seq(|entities|, i requires 0 <= i < |entities| => TableOf(entities[i])) + junctions
  }

  // columnsOfTable: of tables with one name the last one stays in the map.
  function LastTable(tables: seq<RawTable>, name: string): (last: Option<nat>)
    ensures last.Some? ==> last.value < |tables| && tables[last.value].name == name
                           && forall i | last.value < i < |tables| :: tables[i].name != name
    ensures last == None <==> forall i | 0 <= i < |tables| :: tables[i].name != name
  {
    if tables == [] then None
    else if tables[|tables| - 1].name == name then Some(|tables| - 1)
    else LastTable(tables[..|tables| - 1], name)
  }

  // The table a relation leaves is there, so its columns can be looked up.
  predicate SourceIsThere(tables: seq<RawTable>, link: Link) {
    LastTable(tables, link.source.table).Some?
  }

  function WithCardinality(tables: seq<RawTable>, link: Link): Relation
    requires SourceIsThere(tables, link)
  {
    Relation(link.source, link.target, ForeignKeyCardinality(tables[LastTable(tables, link.source.table).value].columns, link.source.column))
  }

  predicate DistinctNames(tables: seq<RawTable>) {
    forall i, j | 0 <= i < j < |tables| :: tables[i].name != tables[j].name
  }

  lemma EntityEndIsThere(entities: seq<Entity>, junctions: seq<RawTable>, e: nat, end: End)
    requires e < |entities| && EndsAt(entities[e], end)
    ensures SchemaHas(TablesOf(entities, junctions), end)
    ensures DistinctNames(TablesOf(entities, junctions)) ==> LastTable(TablesOf(entities, junctions), end.table) == Some(e)
  {
    var tables := TablesOf(entities, junctions);
    assert tables[e] == TableOf(entities[e]);
    var j :| 0 <= j < |tables[e].columns| && tables[e].columns[j].name == end.column;
    OnlyTable(tables, e);
  }

  lemma JunctionEndIsThere(entities: seq<Entity>, junctions: seq<RawTable>, j: nat, end: End)
    requires j < |junctions| && end.table == junctions[j].name && HasNamed(junctions[j].columns, end.column)
    ensures SchemaHas(TablesOf(entities, junctions), end)
    ensures DistinctNames(TablesOf(entities, junctions)) ==> LastTable(TablesOf(entities, junctions), end.table) == Some(|entities| + j)
  {
    var tables := TablesOf(entities, junctions);
    assert tables[|entities| + j] == junctions[j];
    var c :| 0 <= c < |junctions[j].columns| && junctions[j].columns[c].name == end.column;
    assert tables[|entities| + j].columns[c].name == end.column;
    OnlyTable(tables, |entities| + j);
  }

  lemma OnlyTable(tables: seq<RawTable>, i: nat)
    requires i < |tables|
    ensures DistinctNames(tables) ==> LastTable(tables, tables[i].name) == Some(i)
  {
    var last := LastTable(tables, tables[i].name);
    assert last.Some?;
    if DistinctNames(tables) {
      assert !(last.value < i) && !(i < last.value);
    }
  }

  // A one-to-one relation stays one, and both halves of a many-to-many are many-to-one.
  ghost predicate CardinalityFits(cardinality: string, origin: Origin) {
    match origin
    case JoinOrigin(_, relation, _) => relation.decorator.name == "OneToOne" ==> cardinality == ONE_TO_ONE
    case JunctionOrigin(_, _, _, _, _) => cardinality == MANY_TO_ONE
  }

  // A join goes from the entity to the target its decorator names; of a junction the own
  // half goes to the entity and the inverse half to the target.
  ghost predicate EndsFit(entities: seq<Entity>, relation: Relation, origin: Origin) {
    && origin.entity < |entities| && origin.target < |entities| && IsTarget(entities, origin.relation, origin.target)
    && match origin
       case JoinOrigin(e, _, t) => relation.source.table == entities[e].tableName && relation.target.table == entities[t].tableName
       case JunctionOrigin(e, _, t, _, inverse) => relation.target.table == entities[if inverse then t else e].tableName
  }

  ghost predicate LinkIsSound(entities: seq<Entity>, tables: seq<RawTable>, link: Link, origin: Origin) {
    && SourceIsThere(tables, link) && SoundRelation(tables, WithCardinality(tables, link))
    && EndsFit(entities, WithCardinality(tables, link), origin)
    && (DistinctNames(tables) ==> CardinalityFits(WithCardinality(tables, link).cardinality, origin))
  }

  lemma JoinIsSound(entities: seq<Entity>, junctions: seq<RawTable>, link: Link, origin: Origin)
    requires OriginHolds(entities, junctions, link, origin) && origin.JoinOrigin?
    ensures LinkIsSound(entities, TablesOf(entities, junctions), link, origin)
  {
    var tables := TablesOf(entities, junctions);
    EntityEndIsThere(entities, junctions, origin.entity, link.source);
    EntityEndIsThere(entities, junctions, origin.target, link.target);
    var source := LastTable(tables, link.source.table).value;
    CardinalityIsKey(tables[source].columns, link.source.column);
    assert tables[origin.entity] == TableOf(entities[origin.entity]);
  }

  lemma JunctionSourceFits(entities: seq<Entity>, junctions: seq<RawTable>, j: nat, link: Link)
    requires j < |junctions| && IsJunction(junctions[j])
    requires link.source.table == junctions[j].name && HasNamed(junctions[j].columns, link.source.column)
    ensures var tables := TablesOf(entities, junctions);
            && SchemaHas(tables, link.source) && SourceIsThere(tables, link)
            && (DistinctNames(tables) ==> WithCardinality(tables, link).cardinality == MANY_TO_ONE)
  {
    JunctionEndIsThere(entities, junctions, j, link.source);
    assert TablesOf(entities, junctions)[|entities| + j] == junctions[j];
    JunctionIsManyToOne(junctions[j], link.source.column);
  }

  lemma JunctionIsSound(entities: seq<Entity>, junctions: seq<RawTable>, link: Link, origin: Origin)
    requires OriginHolds(entities, junctions, link, origin) && origin.JunctionOrigin?
    ensures LinkIsSound(entities, TablesOf(entities, junctions), link, origin)
  {
    var tables := TablesOf(entities, junctions);
    JunctionSourceFits(entities, junctions, origin.junction, link);
    var end := if origin.inverse then origin.target else origin.entity;
    EntityEndIsThere(entities, junctions, end, link.target);
    CardinalityIsKey(tables[LastTable(tables, link.source.table).value].columns, link.source.column);
  }

  predicate SourcesAreThere(tables: seq<RawTable>, links: seq<Link>) {
    forall k | 0 <= k < |links| :: SourceIsThere(tables, links[k])
  }

  function RelationsWithCardinality(tables: seq<RawTable>, links: seq<Link>): seq<Relation>
    requires SourcesAreThere(tables, links)
  {
    seq(|links|, k requires 0 <= k < |links| && SourceIsThere(tables, links[k]) => WithCardinality(tables, links[k]))
  }

  lemma AllLinksAreSound(entities: seq<Entity>, junctions: seq<RawTable>, links: seq<Link>, origins: seq<Origin>)
    requires AllHold(entities, junctions, links, origins)
    ensures SourcesAreThere(TablesOf(entities, junctions), links)
    ensures forall k | 0 <= k < |links| :: LinkIsSound(entities, TablesOf(entities, junctions), links[k], origins[k])
  {
    forall k | 0 <= k < |links| ensures LinkIsSound(entities, TablesOf(entities, junctions), links[k], origins[k]) {
      assert OriginHolds(entities, junctions, links[k], origins[k]);
      match origins[k]
      case JoinOrigin(_, _, _) => JoinIsSound(entities, junctions, links[k], origins[k]);
      case JunctionOrigin(_, _, _, _, _) => JunctionIsSound(entities, junctions, links[k], origins[k]);
    }
  }

  // The relations of the schema, one for every link.
  ghost predicate RelationsFit(schema: Schema, entities: seq<Entity>, origins: seq<Origin>) {
    |origins| == |schema.relations|
    && (forall k | 0 <= k < |origins| :: EndsFit(entities, schema.relations[k], origins[k]))
    && (DistinctNames(schema.tables) ==> forall k | 0 <= k < |origins| :: CardinalityFits(schema.relations[k].cardinality, origins[k]))
  }

  lemma SchemaIsClosed(entities: seq<Entity>, junctions: seq<RawTable>, links: seq<Link>, origins: seq<Origin>)
    requires AllHold(entities, junctions, links, origins)
    requires SourcesAreThere(TablesOf(entities, junctions), links)
    requires forall k | 0 <= k < |links| :: LinkIsSound(entities, TablesOf(entities, junctions), links[k], origins[k])
    ensures var tables := TablesOf(entities, junctions);
            var schema := Schema(tables, RelationsWithCardinality(tables, links));
            && (forall i | 0 <= i < |schema.relations| :: SoundRelation(schema.tables, schema.relations[i]))
            && RelationsFit(schema, entities, origins)
  {
    var tables := TablesOf(entities, junctions);
    var relations := RelationsWithCardinality(tables, links);
    forall k | 0 <= k < |links|
      ensures SoundRelation(tables, relations[k]) && EndsFit(entities, relations[k], origins[k])
              && (DistinctNames(tables) ==> CardinalityFits(relations[k].cardinality, origins[k]))
    {
      assert LinkIsSound(entities, tables, links[k], origins[k]);
    }
  }

  // What the warning names: unsupported class decorators, unknown parents, and the members
  // and relations the entities could not use.
  ghost function WarningsOf(classes: seq<ClassDeclaration>, entities: seq<Entity>, spelling: Spelling): set<Note>
    requires LineagesEnd(classes)
  {
    ClassNotes(classes) + AllParentNotes(classes, ByName(classes)) + AllMemberNotes(entities, spelling)
    + AllRelationNotes(entities, |entities|)
  }

  // The entities of the classes with the join columns of all their relations.
  ghost function JoinedEntities(classes: seq<ClassDeclaration>, spelling: Spelling): seq<Entity>
    requires LineagesEnd(classes)
  {
    var read := InitialEntities(classes, ByName(classes), spelling);
    ResolvedUpTo(read, |read|, spelling)
  }

  ghost function DraftOfClasses(classes: seq<ClassDeclaration>, spelling: Spelling): Draft
    requires LineagesEnd(classes)
  {
    var read := InitialEntities(classes, ByName(classes), spelling);
    DraftUpTo(read, |read|, spelling)
  }

  // The tables are those of the entities and then the junction tables, the relations run
  // between the ends of the links.
  ghost predicate IsDrafted(schema: Schema, entities: seq<Entity>, draft: Draft) {
    && schema.tables == TablesOf(entities, draft.junctions) && |schema.relations| == |draft.links|
    && forall k | 0 <= k < |draft.links| ::
         schema.relations[k].source == draft.links[k].source && schema.relations[k].target == draft.links[k].target
  }

  // The entities are those of the entity classes with their join columns added and then
  // marked, the relations come from exactly the owning relation members that resolve, and
  // the warning is the one above.
  ghost predicate IsResult(classes: seq<ClassDeclaration>, entities: seq<Entity>, origins: seq<Origin>, warnings: set<Note>, spelling: Spelling) {
    && LineagesEnd(classes) && GrowsEntities(InitialEntities(classes, ByName(classes), spelling), entities)
    && Drawn(origins) == AllDrawn(entities, |entities|)
    && AllMarked(JoinedEntities(classes, spelling), entities, |entities|)
    && warnings == WarningsOf(classes, entities, spelling)
  }

  // The three passes over the entities.
  method ReadAndResolve(reader: Reader, classes: seq<ClassDeclaration>)
    requires LineagesEnd(classes)
    requires reader.Valid() && reader.entities == [] && reader.relations == [] && reader.junctionTables == [] && reader.skipped == {}
    modifies reader
    ensures reader.Valid() && IsResult(classes, reader.entities, reader.origins, reader.skipped, reader.spelling)
    ensures Draft(reader.relations, reader.junctionTables) == DraftOfClasses(classes, reader.spelling)
  {
    NoteUnsupportedClasses(reader, classes);
    ReadEntities(reader, classes);
    ghost var read := reader.entities;
    ResolveRelations(reader);
    ghost var resolved := reader.entities;
    MemberNotesStay(read, resolved, reader.spelling);
    MarkUnique(reader);
    MemberNotesStay(resolved, reader.entities, reader.spelling);
    AllNotesStay(resolved, reader.entities, |resolved|);
    GrowsEntitiesTransitive(read, resolved, reader.entities);
  }

  // Every relation of the schema names a table and a column of it at both ends, so only
  // the tables themselves can make the schema unsound.
  method ReadTypeormSchema(classes: seq<ClassDeclaration>, spelling: Spelling)
    returns (schema: Schema, warnings: set<Note>, ghost entities: seq<Entity>, ghost origins: seq<Origin>)
    requires LineagesEnd(classes)
    ensures forall i | 0 <= i < |schema.relations| :: SoundRelation(schema.tables, schema.relations[i])
    ensures SoundSchema(schema) <==> SoundTables(schema.tables)
    ensures |entities| == |EntityClasses(classes)| <= |schema.tables|
    ensures forall i | 0 <= i < |entities| :: schema.tables[i] == TableOf(entities[i])
    ensures RelationsFit(schema, entities, origins)
    ensures IsResult(classes, entities, origins, warnings, spelling)
    ensures IsDrafted(schema, entities, DraftOfClasses(classes, spelling))
  {
    var reader := new Reader(spelling);
    ReadAndResolve(reader, classes);
    InitialCount(classes, ByName(classes), spelling);
    AllLinksAreSound(reader.entities, reader.junctionTables, reader.relations, reader.origins);
    SchemaIsClosed(reader.entities, reader.junctionTables, reader.relations, reader.origins);
    var tables := TablesOf(reader.entities, reader.junctionTables);
    schema := Schema(tables, RelationsWithCardinality(tables, reader.relations));
    warnings, entities, origins := reader.skipped, reader.entities, reader.origins;
  }
}
