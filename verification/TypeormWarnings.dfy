/** figura/scripts/erd-source-typeorm.mjs: what becomes of every decorator of every member.
    Of several on one member entityWithColumns reads one; this is what the others come to. */
module TypeormWarnings {
  import opened Optional
  import opened TypeormEntities
  import opened TypeormJoins
  import opened TypeormResolution
  import opened TypeormSchema

  // ----- the entities after all passes

  // The entity relates what its members say: relation members in order, and one column for
  // every column member read, grown by nothing but unique.
  ghost predicate AsRead(entity: Entity, spelling: Spelling) {
    && entity.relationMembers == RelationsOf(entity.members)
    && |entity.columns| == |ColumnSources(entity.tableName, entity.members, spelling)|
    && forall i | 0 <= i < |entity.columns| :: ColumnIsRead(entity, spelling, i)
  }

  ghost predicate ColumnIsRead(entity: Entity, spelling: Spelling, i: nat)
    requires i < |entity.columns| == |ColumnSources(entity.tableName, entity.members, spelling)|
  {
    var source := ColumnSources(entity.tableName, entity.members, spelling)[i];
    var read := MemberColumn(entity.tableName, source.0, source.1, spelling);
    read.Some? && entity.columns[i].propertyName == read.value.propertyName && GrowsColumn(read.value.column, entity.columns[i].column)
  }

  ghost predicate AllAsRead(entities: seq<Entity>, spelling: Spelling) {
    forall e | 0 <= e < |entities| :: AsRead(entities[e], spelling)
  }

  lemma EntityIsAsRead(declaration: ClassDeclaration, ancestry: seq<ClassDeclaration>, spelling: Spelling)
    ensures AsRead(EntityOf(declaration, ancestry, spelling), spelling)
  {
    var entity := EntityOf(declaration, ancestry, spelling);
    SourcesAreRead(entity.tableName, entity.members, spelling);
    forall i | 0 <= i < |entity.columns| ensures ColumnIsRead(entity, spelling, i) {
    }
  }

  lemma {:induction false} InitialAsRead(classes: seq<ClassDeclaration>, byName: ClassMap, spelling: Spelling)
    requires forall c | c in classes && IsEntityClass(c) :: ChainEnds(c, byName)
    ensures AllAsRead(InitialEntities(classes, byName, spelling), spelling)
  {
    if classes != [] {
      var last := classes[|classes| - 1];
      InitialAsRead(classes[..|classes| - 1], byName, spelling);
      if IsEntityClass(last) {
        EntityIsAsRead(last, Ancestry(last, byName), spelling);
      }
    }
  }

  lemma GrownAsRead(before: Entity, after: Entity, spelling: Spelling)
    requires AsRead(before, spelling) && GrowsEntity(before, after)
    ensures AsRead(after, spelling)
  {
    forall i | 0 <= i < |after.columns| ensures ColumnIsRead(after, spelling, i) {
      assert ColumnIsRead(before, spelling, i);
      assert GrowsColumn(AllColumns(before)[i], AllColumns(after)[i]);
    }
  }

  // So are the entities ReadTypeormSchema returns.
  lemma EntitiesAreAsRead(classes: seq<ClassDeclaration>, entities: seq<Entity>, spelling: Spelling)
    requires LineagesEnd(classes) && GrowsEntities(InitialEntities(classes, ByName(classes), spelling), entities)
    ensures AllAsRead(entities, spelling)
  {
    var initial := InitialEntities(classes, ByName(classes), spelling);
    InitialAsRead(classes, ByName(classes), spelling);
    forall e | 0 <= e < |entities| ensures AsRead(entities[e], spelling) {
      assert GrowsEntity(initial[e], entities[e]);
      GrownAsRead(initial[e], entities[e], spelling);
    }
  }

  // ----- which members the warning names

  predicate SameName(a: Member, b: Member) {
    a.className == b.className && a.name == b.name
  }

  // Of this member itself: an unsupported decorator, a column the parser cannot tell, an
  // owning relation without its target or columns.
  ghost predicate IsNoted(entities: seq<Entity>, spelling: Spelling, e: nat, m: Member)
    requires e < |entities|
  {
    match RoleOf(m)
    case Unsupported(_) => true
    case ColumnMember(d) => MemberColumn(entities[e].tableName, m, d, spelling) == None
    case RelationMember(d) => IsOwner(m, d) && !IsDrawn(entities, e, RelationOf(m, d))
    case Plain => false
  }

  // Members are named by class and name, which several may share.
  ghost predicate NotedUnderName(entities: seq<Entity>, spelling: Spelling, e: nat, other: Member, m: Member) {
    e < |entities| && other in entities[e].members && SameName(other, m) && IsNoted(entities, spelling, e, other)
  }

  ghost predicate NotedByMember(entities: seq<Entity>, spelling: Spelling, e: nat, note: Note) {
    e < |entities| && note in MemberNotes(entities[e].tableName, entities[e].members, spelling)
  }

  lemma SameInFront(entities: seq<Entity>, spelling: Spelling, e: nat, note: Note)
    requires e + 1 < |entities|
    ensures NotedByMember(entities[..|entities| - 1], spelling, e, note) <==> NotedByMember(entities, spelling, e, note)
  {
    assert entities[..|entities| - 1][e] == entities[e];
  }

  lemma {:induction false} MemberNoteHolds(entities: seq<Entity>, spelling: Spelling, note: Note)
    ensures note in AllMemberNotes(entities, spelling) <==> exists e :: NotedByMember(entities, spelling, e, note)
  {
    if entities != [] {
      var n := |entities| - 1;
      MemberNoteHolds(entities[..n], spelling, note);
      forall e: nat | e < n ensures NotedByMember(entities[..n], spelling, e, note) <==> NotedByMember(entities, spelling, e, note) {
        SameInFront(entities, spelling, e, note);
      }
      assert NotedByMember(entities, spelling, n, note) <==> note in MemberNotes(entities[n].tableName, entities[n].members, spelling);
    }
  }

  lemma {:induction false} NotesOfHold(entities: seq<Entity>, e: nat, relations: seq<RelationOf>, note: Note)
    requires e < |entities|
    ensures note in NotesOf(entities, e, relations) <==> exists r :: r in relations && note in RelationNotes(entities, e, r)
  {
    if relations != [] {
      var n := |relations| - 1;
      NotesOfHold(entities, e, relations[..n], note);
      assert relations == relations[..n] + [relations[n]];
    }
  }

  ghost predicate NotedByRelation(entities: seq<Entity>, e: nat, r: RelationOf, note: Note) {
    e < |entities| && r in entities[e].relationMembers && note in RelationNotes(entities, e, r)
  }

  lemma EntityNoteHolds(entities: seq<Entity>, e: nat, note: Note)
    requires e < |entities|
    ensures note in NotesOf(entities, e, entities[e].relationMembers) <==> exists r :: NotedByRelation(entities, e, r, note)
  {
    NotesOfHold(entities, e, entities[e].relationMembers, note);
    if r :| r in entities[e].relationMembers && note in RelationNotes(entities, e, r) {
      assert NotedByRelation(entities, e, r, note);
    }
    if r :| NotedByRelation(entities, e, r, note) {
      assert r in entities[e].relationMembers;
    }
  }

  ghost predicate SomeRelationNotes(entities: seq<Entity>, e: nat, note: Note) {
    exists r :: NotedByRelation(entities, e, r, note)
  }

  lemma RelationNoteHolds(entities: seq<Entity>, note: Note)
    ensures note in AllRelationNotes(entities, |entities|) <==> exists e: nat, r :: NotedByRelation(entities, e, r, note)
  {
    UnionHolds(NotesByEntity(entities), |entities|, note);
    forall e: nat | e < |entities| ensures note in NotesByEntity(entities)(e) <==> SomeRelationNotes(entities, e, note) {
      EntityNoteHolds(entities, e, note);
    }
    forall e: nat, r | NotedByRelation(entities, e, r, note) ensures SomeRelationNotes(entities, e, note) {
    }
    if e: nat :| e < |entities| && SomeRelationNotes(entities, e, note) {
      var r :| NotedByRelation(entities, e, r, note);
    }
  }

  lemma {:induction false} NoMemberInClassNotes(classes: seq<ClassDeclaration>, note: Note)
    requires note.MemberNote?
    ensures note !in ClassNotes(classes)
  {
    if classes != [] {
      NoMemberInClassNotes(classes[..|classes| - 1], note);
    }
  }

  lemma {:induction false} NoMemberInParentNotes(classes: seq<ClassDeclaration>, byName: ClassMap, note: Note)
    requires note.MemberNote? && forall c | c in classes && IsEntityClass(c) :: ChainEnds(c, byName)
    ensures note !in AllParentNotes(classes, byName)
  {
    if classes != [] {
      NoMemberInParentNotes(classes[..|classes| - 1], byName, note);
    }
  }

  // A note under the name of a member comes from a member of that name.
  lemma MemberNoteComesFrom(entities: seq<Entity>, spelling: Spelling, m: Member, note: Note) returns (e: nat, other: Member)
    requires note in AllMemberNotes(entities, spelling) && note.MemberNote? && note.className == m.className && note.memberName == m.name
    ensures NotedUnderName(entities, spelling, e, other, m)
  {
    MemberNoteHolds(entities, spelling, note);
    e :| NotedByMember(entities, spelling, e, note);
    MemberNotesHold(entities[e].tableName, entities[e].members, spelling, note);
    other :| other in entities[e].members && note in NotesOfMember(entities[e].tableName, other, spelling);
  }

  lemma RelationNoteComesFrom(entities: seq<Entity>, spelling: Spelling, m: Member, note: Note) returns (e: nat, other: Member)
    requires AllAsRead(entities, spelling)
    requires note in AllRelationNotes(entities, |entities|) && note.MemberNote? && note.className == m.className && note.memberName == m.name
    ensures NotedUnderName(entities, spelling, e, other, m)
  {
    var r: RelationOf;
    RelationNoteHolds(entities, note);
    e, r :| NotedByRelation(entities, e, r, note);
    other := r.member;
    RelationNamesMember(entities, spelling, e, r, m, note);
  }

  lemma RelationNamesMember(entities: seq<Entity>, spelling: Spelling, e: nat, r: RelationOf, m: Member, note: Note)
    requires AllAsRead(entities, spelling) && NotedByRelation(entities, e, r, note)
    requires note.MemberNote? && note.className == m.className && note.memberName == m.name
    ensures NotedUnderName(entities, spelling, e, r.member, m)
  {
    assert AsRead(entities[e], spelling);
    RelationsHold(entities[e].members, r.member, r.decorator);
    assert r == RelationOf(r.member, r.decorator);
  }

  lemma NoteComesFrom(classes: seq<ClassDeclaration>, entities: seq<Entity>, spelling: Spelling, m: Member, note: Note)
      returns (e: nat, other: Member)
    requires LineagesEnd(classes) && AllAsRead(entities, spelling)
    requires note in WarningsOf(classes, entities, spelling) && note.MemberNote? && note.className == m.className && note.memberName == m.name
    ensures NotedUnderName(entities, spelling, e, other, m)
  {
    NoMemberInClassNotes(classes, note);
    NoMemberInParentNotes(classes, ByName(classes), note);
    if note in AllMemberNotes(entities, spelling) {
      e, other := MemberNoteComesFrom(entities, spelling, m, note);
    } else {
      e, other := RelationNoteComesFrom(entities, spelling, m, note);
    }
  }

  lemma NotedRelationIsNamed(entities: seq<Entity>, spelling: Spelling, e: nat, m: Member) returns (why: Why)
    requires AllAsRead(entities, spelling) && RoleOf(m).RelationMember?
    requires e < |entities| && m in entities[e].members && IsNoted(entities, spelling, e, m)
    ensures MemberNote(m.className, m.name, why) in AllRelationNotes(entities, |entities|)
  {
    var r := RelationOf(m, RoleOf(m).decorator);
    assert AsRead(entities[e], spelling);
    RelationsHold(entities[e].members, m, r.decorator);
    var note :| note in RelationNotes(entities, e, r);
    RelationNoteHolds(entities, note);
    assert NotedByRelation(entities, e, r, note);
    why := note.why;
  }

  lemma NotedMemberIsNamed(entities: seq<Entity>, spelling: Spelling, e: nat, m: Member) returns (why: Why)
    requires !RoleOf(m).RelationMember? && e < |entities| && m in entities[e].members && IsNoted(entities, spelling, e, m)
    ensures MemberNote(m.className, m.name, why) in AllMemberNotes(entities, spelling)
  {
    var name := RoleOf(m).decorator.name;
    why := if RoleOf(m).Unsupported? then UnsupportedDecorator(name) else UnreadColumn(name);
    var note := MemberNote(m.className, m.name, why);
    assert note in NotesOfMember(entities[e].tableName, m, spelling);
    MemberNotesHold(entities[e].tableName, entities[e].members, spelling, note);
    MemberNoteHolds(entities, spelling, note);
    assert NotedByMember(entities, spelling, e, note);
  }

  lemma NotedIsNamed(classes: seq<ClassDeclaration>, entities: seq<Entity>, spelling: Spelling, e: nat, m: Member)
    requires LineagesEnd(classes) && AllAsRead(entities, spelling)
    requires e < |entities| && m in entities[e].members && IsNoted(entities, spelling, e, m)
    ensures IsNamed(WarningsOf(classes, entities, spelling), m)
  {
    if RoleOf(m).RelationMember? {
      var why := NotedRelationIsNamed(entities, spelling, e, m);
      assert MemberNote(m.className, m.name, why) in WarningsOf(classes, entities, spelling);
    } else {
      var why := NotedMemberIsNamed(entities, spelling, e, m);
      assert MemberNote(m.className, m.name, why) in WarningsOf(classes, entities, spelling);
    }
  }

  // The warning names a member exactly when a member of its class and name is noted.
  lemma NamedIff(classes: seq<ClassDeclaration>, entities: seq<Entity>, spelling: Spelling, m: Member)
    requires LineagesEnd(classes) && AllAsRead(entities, spelling)
    ensures IsNamed(WarningsOf(classes, entities, spelling), m) <==> exists e, other :: NotedUnderName(entities, spelling, e, other, m)
  {
    var warnings := WarningsOf(classes, entities, spelling);
    if IsNamed(warnings, m) {
      var why :| MemberNote(m.className, m.name, why) in warnings;
      var e, other := NoteComesFrom(classes, entities, spelling, m, MemberNote(m.className, m.name, why));
    }
    forall e, other | NotedUnderName(entities, spelling, e, other, m) ensures IsNamed(warnings, m) {
      NotedIsNamed(classes, entities, spelling, e, other);
      var why :| MemberNote(other.className, other.name, why) in warnings;
      assert MemberNote(m.className, m.name, why) in warnings;
    }
  }

  // ----- which relations are drawn

  lemma {:induction false} DrawnOfHolds(entities: seq<Entity>, e: nat, relations: seq<RelationOf>, pair: (nat, RelationOf))
    requires e < |entities|
    ensures pair in DrawnOf(entities, e, relations) <==> pair.0 == e && pair.1 in relations && IsDrawn(entities, e, pair.1)
  {
    if relations != [] {
      var n := |relations| - 1;
      DrawnOfHolds(entities, e, relations[..n], pair);
      assert relations == relations[..n] + [relations[n]];
    }
  }

  ghost predicate IsDrawnMember(entities: seq<Entity>, e: nat, r: RelationOf) {
    e < |entities| && r in entities[e].relationMembers && IsDrawn(entities, e, r)
  }

  lemma DrawnOfEntityHolds(entities: seq<Entity>, n: nat, e: nat, r: RelationOf)
    requires n < |entities|
    ensures (e, r) in DrawnOfEntity(entities, n) <==> e == n && IsDrawnMember(entities, e, r)
  {
    DrawnOfHolds(entities, n, entities[n].relationMembers, (e, r));
  }

  lemma DrawnHolds(entities: seq<Entity>, e: nat, r: RelationOf)
    ensures (e, r) in AllDrawn(entities, |entities|) <==> IsDrawnMember(entities, e, r)
  {
    UnionHolds(DrawnByEntity(entities), |entities|, (e, r));
    forall n: nat | n < |entities| ensures (e, r) in DrawnByEntity(entities)(n) <==> e == n && IsDrawnMember(entities, e, r) {
      DrawnOfEntityHolds(entities, n, e, r);
    }
    if IsDrawnMember(entities, e, r) {
      assert (e, r) in DrawnByEntity(entities)(e);
    }
  }

  // ----- decorators

  // A decorator that asks for a column, or for a relation this side carries.
  predicate Asks(m: Member, d: Decorator) {
    d in m.decorators && (d.name in COLUMN_DECORATORS || (d.name in RELATION_DECORATORS && IsOwner(m, d)))
  }

  ghost predicate FirstAmong(decorators: seq<Decorator>, names: set<string>, d: Decorator) {
    exists i :: 0 <= i < |decorators| && decorators[i] == d && d.name in names && forall k | 0 <= k < i :: decorators[k].name !in names
  }

  ghost predicate NoneAmong(decorators: seq<Decorator>, names: set<string>) {
    forall i | 0 <= i < |decorators| :: decorators[i].name !in names
  }

  // The one decorator of the member that is read: the first column decorator, or the first
  // relation decorator where there is none; neither beside an unsupported one.
  ghost predicate IsPicked(m: Member, d: Decorator) {
    NoneAmong(m.decorators, UNSUPPORTED_MEMBER_DECORATORS)
    && (FirstAmong(m.decorators, COLUMN_DECORATORS, d)
        || (NoneAmong(m.decorators, COLUMN_DECORATORS) && FirstAmong(m.decorators, RELATION_DECORATORS, d)))
  }

  lemma {:induction false} AmongIsFirst(decorators: seq<Decorator>, names: set<string>, d: Decorator)
    ensures DecoratorAmong(decorators, names) == Some(d) <==> FirstAmong(decorators, names, d)
    ensures DecoratorAmong(decorators, names) == None <==> NoneAmong(decorators, names)
  {
    if decorators != [] && decorators[0].name !in names {
      var rest := decorators[1..];
      AmongIsFirst(rest, names, d);
      if FirstAmong(rest, names, d) {
        var i :| 0 <= i < |rest| && rest[i] == d && d.name in names && forall k | 0 <= k < i :: rest[k].name !in names;
        assert decorators[i + 1] == d;
        assert forall k | 0 <= k < i + 1 :: decorators[k].name !in names;
      }
      if FirstAmong(decorators, names, d) {
        var i :| 0 <= i < |decorators| && decorators[i] == d && d.name in names && forall k | 0 <= k < i :: decorators[k].name !in names;
        assert rest[i - 1] == d;
        assert forall k | 0 <= k < i - 1 :: rest[k].name !in names;
      }
    }
  }

  lemma PickedIsRole(m: Member, d: Decorator)
    ensures IsPicked(m, d) <==> RoleOf(m) == ColumnMember(d) || RoleOf(m) == RelationMember(d)
    ensures RoleOf(m) == ColumnMember(d) ==> d.name in COLUMN_DECORATORS
    ensures RoleOf(m) == RelationMember(d) ==> d.name in RELATION_DECORATORS
  {
    AmongIsFirst(m.decorators, UNSUPPORTED_MEMBER_DECORATORS, d);
    AmongIsFirst(m.decorators, COLUMN_DECORATORS, d);
    AmongIsFirst(m.decorators, RELATION_DECORATORS, d);
  }

  // Neither a column nor a relation comes from the decorator, and the warning does not name
  // its member.
  ghost predicate IsLost(entities: seq<Entity>, origins: seq<Origin>, warnings: set<Note>, spelling: Spelling, e: nat, m: Member, d: Decorator)
    requires e < |entities|
  {
    && (m, d) !in ColumnSources(entities[e].tableName, entities[e].members, spelling)
    && (e, RelationOf(m, d)) !in Drawn(origins)
    && !IsNamed(warnings, m)
  }

  // A decorator that asks for a column or a relation is lost exactly when another one of
  // its member is read in its place and no member of its class and name is noted.
  lemma DecoratorIsLostIff(classes: seq<ClassDeclaration>, entities: seq<Entity>, origins: seq<Origin>, warnings: set<Note>,
                        spelling: Spelling, e: nat, m: Member, d: Decorator)
    requires IsResult(classes, entities, origins, warnings, spelling)
    requires e < |entities| && m in entities[e].members && Asks(m, d)
    ensures IsLost(entities, origins, warnings, spelling, e, m, d)
            <==> !IsPicked(m, d) && !exists k, other :: NotedUnderName(entities, spelling, k, other, m)
  {
    EntitiesAreAsRead(classes, entities, spelling);
    assert AsRead(entities[e], spelling);
    NamedIff(classes, entities, spelling, m);
    PickedIsRole(m, d);
    SourcesHold(entities[e].tableName, entities[e].members, spelling, m, d);
    RelationsHold(entities[e].members, m, d);
    DrawnHolds(entities, e, RelationOf(m, d));
    if IsPicked(m, d) && IsNoted(entities, spelling, e, m) {
      assert NotedUnderName(entities, spelling, e, m, m);
    }
  }

  // Another decorator is read in its place: a column decorator whose column the parser can
  // tell, or an earlier relation decorator that is drawn or lies on the other side.
  ghost predicate ReadBeside(entities: seq<Entity>, spelling: Spelling, e: nat, m: Member, d: Decorator)
    requires e < |entities|
  {
    NoneAmong(m.decorators, UNSUPPORTED_MEMBER_DECORATORS)
    && exists other :: other != d && (ColumnBeside(entities, spelling, e, m, other) || RelationBeside(entities, e, m, other))
  }

  ghost predicate ColumnBeside(entities: seq<Entity>, spelling: Spelling, e: nat, m: Member, other: Decorator)
    requires e < |entities|
  {
    FirstAmong(m.decorators, COLUMN_DECORATORS, other) && MemberColumn(entities[e].tableName, m, other, spelling).Some?
  }

  ghost predicate RelationBeside(entities: seq<Entity>, e: nat, m: Member, other: Decorator)
    requires e < |entities|
  {
    NoneAmong(m.decorators, COLUMN_DECORATORS) && FirstAmong(m.decorators, RELATION_DECORATORS, other)
    && (IsOwner(m, other) ==> IsDrawn(entities, e, RelationOf(m, other)))
  }

  // No other member, of this entity or another, has the class and name of this one.
  ghost predicate NameIsItsOwn(entities: seq<Entity>, e: nat, m: Member) {
    forall k, other | 0 <= k < |entities| && other in entities[k].members && SameName(other, m) :: k == e && other == m
  }

  // Where the name of the member is its own the decorators beside it decide.
  lemma LostIffReadBeside(classes: seq<ClassDeclaration>, entities: seq<Entity>, origins: seq<Origin>, warnings: set<Note>,
                        spelling: Spelling, e: nat, m: Member, d: Decorator)
    requires IsResult(classes, entities, origins, warnings, spelling)
    requires e < |entities| && m in entities[e].members && Asks(m, d) && NameIsItsOwn(entities, e, m)
    ensures IsLost(entities, origins, warnings, spelling, e, m, d) <==> ReadBeside(entities, spelling, e, m, d)
  {
    DecoratorIsLostIff(classes, entities, origins, warnings, spelling, e, m, d);
    if IsNoted(entities, spelling, e, m) {
      assert NotedUnderName(entities, spelling, e, m, m);
    }
    NotedUnlessRead(entities, spelling, e, m, d);
  }

  lemma FirstIsAmong(decorators: seq<Decorator>, names: set<string>, d: Decorator)
    requires FirstAmong(decorators, names, d)
    ensures !NoneAmong(decorators, names)
  {
    AmongIsFirst(decorators, names, d);
  }

  lemma RoleIsPicked(m: Member, d: Decorator)
    requires IsPicked(m, d)
    ensures forall other | IsPicked(m, other) :: other == d
    ensures FirstAmong(m.decorators, COLUMN_DECORATORS, d) <==> RoleOf(m) == ColumnMember(d)
    ensures !FirstAmong(m.decorators, COLUMN_DECORATORS, d) <==> RoleOf(m) == RelationMember(d)
  {
    forall other | IsPicked(m, other) ensures other == d {
      PickedIsRole(m, d);
      PickedIsRole(m, other);
    }
    PickedIsRole(m, d);
    AmongIsFirst(m.decorators, UNSUPPORTED_MEMBER_DECORATORS, d);
    AmongIsFirst(m.decorators, COLUMN_DECORATORS, d);
  }

  // The decorator read beside is the one picked, and its member is not noted.
  lemma BesideIsPicked(entities: seq<Entity>, spelling: Spelling, e: nat, m: Member, other: Decorator)
    requires e < |entities|
    ensures NoneAmong(m.decorators, UNSUPPORTED_MEMBER_DECORATORS)
            && (ColumnBeside(entities, spelling, e, m, other) || RelationBeside(entities, e, m, other))
            <==> IsPicked(m, other) && !IsNoted(entities, spelling, e, m)
  {
    if IsPicked(m, other) {
      RoleIsPicked(m, other);
      if FirstAmong(m.decorators, COLUMN_DECORATORS, other) {
        FirstIsAmong(m.decorators, COLUMN_DECORATORS, other);
      }
    }
  }

  lemma NotedUnlessRead(entities: seq<Entity>, spelling: Spelling, e: nat, m: Member, d: Decorator)
    requires e < |entities| && Asks(m, d)
    ensures ReadBeside(entities, spelling, e, m, d) <==> !IsPicked(m, d) && !IsNoted(entities, spelling, e, m)
  {
    if ReadBeside(entities, spelling, e, m, d) {
      var other :| other != d && (ColumnBeside(entities, spelling, e, m, other) || RelationBeside(entities, e, m, other));
      BesideIsPicked(entities, spelling, e, m, other);
      RoleIsPicked(m, other);
    }
    if !IsPicked(m, d) && !IsNoted(entities, spelling, e, m) {
      var other := SomeIsPicked(entities, spelling, e, m, d);
      BesideIsPicked(entities, spelling, e, m, other);
    }
  }

  lemma SomeIsPicked(entities: seq<Entity>, spelling: Spelling, e: nat, m: Member, d: Decorator) returns (other: Decorator)
    requires e < |entities| && Asks(m, d) && !IsNoted(entities, spelling, e, m)
    ensures IsPicked(m, other)
  {
    AmongIsFirst(m.decorators, COLUMN_DECORATORS, d);
    AmongIsFirst(m.decorators, RELATION_DECORATORS, d);
    AmongHolds(m.decorators, COLUMN_DECORATORS, d);
    AmongHolds(m.decorators, RELATION_DECORATORS, d);
    other := RoleOf(m).decorator;
    PickedIsRole(m, other);
  }

  lemma AmongHolds(decorators: seq<Decorator>, names: set<string>, d: Decorator)
    requires d in decorators
    ensures d.name in names ==> DecoratorAmong(decorators, names).Some?
  {
    var i :| 0 <= i < |decorators| && decorators[i] == d;
  }

  // `@PrimaryColumn() @ManyToOne(() => User) id: string`: a column, and no relation.
  lemma KeyHidesItsRelation(classes: seq<ClassDeclaration>, entities: seq<Entity>, origins: seq<Origin>, warnings: set<Note>,
                        spelling: Spelling, e: nat, m: Member)
    requires IsResult(classes, entities, origins, warnings, spelling)
    requires e < |entities| && m in entities[e].members && NameIsItsOwn(entities, e, m)
    requires m.decorators == [Decorator("PrimaryColumn", []), Decorator("ManyToOne", [Arrow(Some("User"), [])])]
    requires spelling.typeOf(entities[e].tableName, m, m.decorators[0]).Some?
    ensures IsLost(entities, origins, warnings, spelling, e, m, m.decorators[1])
  {
    var key, relation := m.decorators[0], m.decorators[1];
    KeyAndRelation(m, key, relation);
    assert ColumnBeside(entities, spelling, e, m, key);
    assert ReadBeside(entities, spelling, e, m, relation);
    LostIffReadBeside(classes, entities, origins, warnings, spelling, e, m, relation);
  }

  lemma KeyAndRelation(m: Member, key: Decorator, relation: Decorator)
    requires m.decorators == [key, relation] && key == Decorator("PrimaryColumn", []) && relation == Decorator("ManyToOne", [Arrow(Some("User"), [])])
    ensures key != relation && Asks(m, relation)
    ensures NoneAmong(m.decorators, UNSUPPORTED_MEMBER_DECORATORS) && FirstAmong(m.decorators, COLUMN_DECORATORS, key)
  {
    assert key.name[0] == 'P' && relation.name[0] == 'M';
    assert m.decorators[1] == relation && m.decorators[0] == key;
    assert key.name !in UNSUPPORTED_MEMBER_DECORATORS && relation.name !in UNSUPPORTED_MEMBER_DECORATORS;
  }
}
