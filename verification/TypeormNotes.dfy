/** figura/scripts/erd-source-typeorm.mjs: the warning, note by note. Each is there exactly
    when the classes give cause for it. */
module TypeormNotes {
  import opened Optional
  import opened TypeormEntities
  import opened TypeormJoins
  import opened TypeormResolution
  import opened TypeormDecorators
  import opened TypeormSchema
  import opened TypeormWarnings

  // The first of these decorators on a class.
  ghost predicate IsUnsupportedClass(c: ClassDeclaration, decorator: string) {
    exists d :: FirstAmong(c.decorators, {"TableInheritance", "ChildEntity", "Tree"}, d) && d.name == decorator
  }

  predicate NamesNoClass(classes: seq<ClassDeclaration>, name: string) {
    forall i | 0 <= i < |classes| :: classes[i].name != name
  }

  // Going up from an entity class one comes to a class whose parent was not found.
  ghost predicate LosesParent(classes: seq<ClassDeclaration>, c: ClassDeclaration, n: nat, name: string, parent: string) {
    var top := Up(c, ByName(classes), n);
    && IsEntityClass(c) && top.Some? && top.value.name == name && top.value.parent == Some(parent)
    && parent != "BaseEntity" && NamesNoClass(classes, parent)
  }

  // Why a member is noted.
  ghost predicate IsWhy(entities: seq<Entity>, spelling: Spelling, e: nat, m: Member, why: Why)
    requires e < |entities|
  {
    match why
    case UnsupportedDecorator(name) => RoleOf(m).Unsupported? && RoleOf(m).decorator.name == name
    case UnreadColumn(name) =>
      RoleOf(m).ColumnMember? && RoleOf(m).decorator.name == name
      && MemberColumn(entities[e].tableName, m, RoleOf(m).decorator, spelling) == None
    case NoTarget(name, named) =>
      RoleOf(m).RelationMember? && RoleOf(m).decorator.name == name && IsOwner(m, RoleOf(m).decorator)
      && named == NameGiven(RoleOf(m).decorator) && forall t: nat :: !IsMeant(entities, named, t)
    case NoColumn(name, target) =>
      RoleOf(m).RelationMember? && RoleOf(m).decorator.name == name && IsOwner(m, RoleOf(m).decorator)
      && exists t: nat :: LacksColumns(entities, e, RelationOf(m, RoleOf(m).decorator), t, target)
  }

  // The relation leads to this entity, and a column it needs was not found.
  ghost predicate LacksColumns(entities: seq<Entity>, e: nat, r: RelationOf, t: nat, target: string)
    requires e < |entities|
  {
    IsMeant(entities, NameGiven(r.decorator), t) && entities[t].className == target && ColumnsAreMissing(entities, e, r, t)
  }

  ghost predicate IsMemberNote(entities: seq<Entity>, spelling: Spelling, e: nat, m: Member, note: Note) {
    && e < |entities| && m in entities[e].members && note.MemberNote? && note.className == m.className && note.memberName == m.name
    && IsWhy(entities, spelling, e, m, note.why)
  }

  ghost predicate HasCause(classes: seq<ClassDeclaration>, entities: seq<Entity>, spelling: Spelling, note: Note) {
    match note
    case ClassNote(name, decorator) => exists c :: c in classes && c.name == name && IsUnsupportedClass(c, decorator)
    case ParentNote(name, parent) => exists c, n: nat :: c in classes && LosesParent(classes, c, n, name, parent)
    case MemberNote(_, _, _) => exists e: nat, m :: IsMemberNote(entities, spelling, e, m, note)
  }

  // ----- classes

  lemma ClassNoteOfOne(c: ClassDeclaration, note: Note)
    ensures var unsupported := DecoratorAmong(c.decorators, UNSUPPORTED_CLASS_DECORATORS);
            (unsupported.Some? && note == ClassNote(c.name, unsupported.value.name))
            <==> note.ClassNote? && note.className == c.name && IsUnsupportedClass(c, note.decorator)
  {
    var unsupported := DecoratorAmong(c.decorators, UNSUPPORTED_CLASS_DECORATORS);
    assert UNSUPPORTED_CLASS_DECORATORS == {"TableInheritance", "ChildEntity", "Tree"};
    forall d ensures unsupported == Some(d) <==> FirstAmong(c.decorators, UNSUPPORTED_CLASS_DECORATORS, d) {
      AmongIsFirst(c.decorators, UNSUPPORTED_CLASS_DECORATORS, d);
    }
    if unsupported.Some? {
      assert FirstAmong(c.decorators, UNSUPPORTED_CLASS_DECORATORS, unsupported.value);
    }
  }

  lemma {:induction false} ClassNotesAre(classes: seq<ClassDeclaration>, note: Note)
    ensures note in ClassNotes(classes)
            <==> note.ClassNote? && exists c :: c in classes && c.name == note.className && IsUnsupportedClass(c, note.decorator)
  {
    if classes != [] {
      var n := |classes| - 1;
      ClassNotesAre(classes[..n], note);
      ClassNoteOfOne(classes[n], note);
      assert classes == classes[..n] + [classes[n]];
    }
  }

  // ----- parents

  lemma {:induction false} NamedClasses(classes: seq<ClassDeclaration>, name: string)
    ensures name in ByName(classes) <==> !NamesNoClass(classes, name)
  {
    if classes != [] {
      NamedClasses(classes[..|classes| - 1], name);
      assert classes == classes[..|classes| - 1] + [classes[|classes| - 1]];
    }
  }

  // The top of a chain is the class without a known parent, and there is only one.
  lemma {:induction false} TopIsUp(declaration: ClassDeclaration, byName: ClassMap) returns (n: nat)
    requires ChainEnds(declaration, byName)
    ensures Up(declaration, byName, n) == Some(Ancestry(declaration, byName)[0])
    decreases Height(declaration, byName)
  {
    var parent := ParentOf(declaration, byName);
    if parent.Some? {
      ParentIsLower(declaration, byName);
      n := TopIsUp(parent.value, byName);
      n := n + 1;
    } else {
      n := 0;
    }
  }

  lemma {:induction false} OnlyTopLosesParent(declaration: ClassDeclaration, byName: ClassMap, n: nat)
    requires ChainEnds(declaration, byName) && Up(declaration, byName, n).Some? && ParentOf(Up(declaration, byName, n).value, byName) == None
    ensures Up(declaration, byName, n).value == Ancestry(declaration, byName)[0]
    decreases n
  {
    if n > 0 {
      var parent := ParentOf(declaration, byName).value;
      ParentIsLower(declaration, byName);
      OnlyTopLosesParent(parent, byName, n - 1);
    }
  }

  lemma ParentNoteOfOne(classes: seq<ClassDeclaration>, c: ClassDeclaration, note: Note)
    requires IsEntityClass(c) && ChainEnds(c, ByName(classes))
    ensures note in ParentNotes(Ancestry(c, ByName(classes))[0], ByName(classes))
            <==> note.ParentNote? && exists n: nat :: LosesParent(classes, c, n, note.className, note.parent)
  {
    var byName := ByName(classes);
    var top := Ancestry(c, byName)[0];
    var height := TopIsUp(c, byName);
    if top.parent.Some? {
      NamedClasses(classes, top.parent.value);
    }
    if note in ParentNotes(top, byName) {
      assert LosesParent(classes, c, height, note.className, note.parent);
    }
    if note.ParentNote? && exists n: nat :: LosesParent(classes, c, n, note.className, note.parent) {
      var n: nat :| LosesParent(classes, c, n, note.className, note.parent);
      NamedClasses(classes, note.parent);
      OnlyTopLosesParent(c, byName, n);
    }
  }

  ghost predicate SomeLosesParent(classes: seq<ClassDeclaration>, some: seq<ClassDeclaration>, note: Note) {
    note.ParentNote? && exists c, n: nat :: c in some && LosesParent(classes, c, n, note.className, note.parent)
  }

  lemma {:induction false} ParentNotesAre(classes: seq<ClassDeclaration>, some: seq<ClassDeclaration>, note: Note)
    requires forall c | c in some && IsEntityClass(c) :: ChainEnds(c, ByName(classes))
    ensures note in AllParentNotes(some, ByName(classes)) <==> SomeLosesParent(classes, some, note)
  {
    if some != [] {
      var k := |some| - 1;
      ParentNotesAre(classes, some[..k], note);
      assert some == some[..k] + [some[k]];
      if IsEntityClass(some[k]) {
        ParentNoteOfOne(classes, some[k], note);
      }
    }
  }

  // ----- members

  lemma MemberNoteOfOne(entities: seq<Entity>, spelling: Spelling, e: nat, m: Member, note: Note)
    requires e < |entities| && m in entities[e].members
    ensures note in NotesOfMember(entities[e].tableName, m, spelling)
            <==> IsMemberNote(entities, spelling, e, m, note) && (note.why.UnsupportedDecorator? || note.why.UnreadColumn?)
  {
  }

  lemma RelationNoteOfOne(entities: seq<Entity>, spelling: Spelling, e: nat, m: Member, note: Note)
    requires e < |entities| && m in entities[e].members && RoleOf(m).RelationMember?
    ensures note in RelationNotes(entities, e, RelationOf(m, RoleOf(m).decorator))
            <==> IsMemberNote(entities, spelling, e, m, note)
  {
    var d := RoleOf(m).decorator;
    var r := RelationOf(m, d);
    forall t: nat ensures TargetOf(entities, NameGiven(d)) == Some(t) <==> IsMeant(entities, NameGiven(d), t) {
      LastIsMeant(entities, NameGiven(d), t);
    }
    assert RelationTargetName(Argument(d.arguments, 0)) == NameGiven(d);
    var target := TargetOf(entities, NameGiven(d));
    if target.Some? {
      assert IsMeant(entities, NameGiven(d), target.value);
      assert LacksColumns(entities, e, r, target.value, entities[target.value].className) <==> ColumnsAreMissing(entities, e, r, target.value);
    }
  }

  // The note is one of those that reading the members adds.
  ghost predicate IsReadNote(entities: seq<Entity>, spelling: Spelling, e: nat, m: Member, note: Note) {
    IsMemberNote(entities, spelling, e, m, note) && (note.why.UnsupportedDecorator? || note.why.UnreadColumn?)
  }

  lemma NotesOfEntityAre(entities: seq<Entity>, spelling: Spelling, e: nat, note: Note)
    ensures NotedByMember(entities, spelling, e, note) <==> exists m :: IsReadNote(entities, spelling, e, m, note)
  {
    if e < |entities| {
      MemberNotesHold(entities[e].tableName, entities[e].members, spelling, note);
      forall m | m in entities[e].members
        ensures note in NotesOfMember(entities[e].tableName, m, spelling) <==> IsReadNote(entities, spelling, e, m, note)
      {
        MemberNoteOfOne(entities, spelling, e, m, note);
      }
    }
  }

  lemma NotesOfMembersAre(entities: seq<Entity>, spelling: Spelling, note: Note)
    ensures note in AllMemberNotes(entities, spelling) <==> exists e: nat, m :: IsReadNote(entities, spelling, e, m, note)
  {
    MemberNoteHolds(entities, spelling, note);
    if e :| NotedByMember(entities, spelling, e, note) {
      NotesOfEntityAre(entities, spelling, e, note);
      var m :| IsReadNote(entities, spelling, e, m, note);
    }
    if e: nat, m :| IsReadNote(entities, spelling, e, m, note) {
      NotesOfEntityAre(entities, spelling, e, note);
    }
  }

  lemma NotesOfRelationsAre(entities: seq<Entity>, spelling: Spelling, note: Note)
    requires AllAsRead(entities, spelling)
    ensures note in AllRelationNotes(entities, |entities|)
            <==> exists e: nat, m :: IsMemberNote(entities, spelling, e, m, note) && (note.why.NoTarget? || note.why.NoColumn?)
  {
    RelationNoteHolds(entities, note);
    forall e: nat, r | NotedByRelation(entities, e, r, note)
      ensures IsMemberNote(entities, spelling, e, r.member, note) && (note.why.NoTarget? || note.why.NoColumn?)
    {
      assert AsRead(entities[e], spelling);
      RelationsHold(entities[e].members, r.member, r.decorator);
      assert r == RelationOf(r.member, r.decorator);
      RelationNoteOfOne(entities, spelling, e, r.member, note);
    }
    forall e: nat, m | IsMemberNote(entities, spelling, e, m, note) && (note.why.NoTarget? || note.why.NoColumn?)
      ensures NotedByRelation(entities, e, RelationOf(m, RoleOf(m).decorator), note)
    {
      assert AsRead(entities[e], spelling);
      RelationsHold(entities[e].members, m, RoleOf(m).decorator);
      RelationNoteOfOne(entities, spelling, e, m, note);
    }
  }

  lemma MemberCauses(entities: seq<Entity>, spelling: Spelling, note: Note)
    requires AllAsRead(entities, spelling)
    ensures note in AllMemberNotes(entities, spelling) + AllRelationNotes(entities, |entities|)
            <==> exists e: nat, m :: IsMemberNote(entities, spelling, e, m, note)
  {
    NotesOfMembersAre(entities, spelling, note);
    NotesOfRelationsAre(entities, spelling, note);
    if e: nat, m :| IsReadNote(entities, spelling, e, m, note) {
      assert IsMemberNote(entities, spelling, e, m, note);
    }
    if e: nat, m :| IsMemberNote(entities, spelling, e, m, note) {
      assert IsReadNote(entities, spelling, e, m, note) || note.why.NoTarget? || note.why.NoColumn?;
    }
  }

  lemma NotesByOrigin(classes: seq<ClassDeclaration>, entities: seq<Entity>, spelling: Spelling, note: Note)
    requires LineagesEnd(classes)
    ensures note in WarningsOf(classes, entities, spelling)
            <==> note in ClassNotes(classes) || note in AllParentNotes(classes, ByName(classes))
                 || note in AllMemberNotes(entities, spelling) + AllRelationNotes(entities, |entities|)
  {
  }

  // A note stands in the warning exactly when there is cause for it.
  lemma NoteIff(classes: seq<ClassDeclaration>, entities: seq<Entity>, spelling: Spelling, note: Note)
    requires LineagesEnd(classes) && AllAsRead(entities, spelling)
    ensures note in WarningsOf(classes, entities, spelling) <==> HasCause(classes, entities, spelling, note)
  {
    NotesByOrigin(classes, entities, spelling, note);
    ClassNotesAre(classes, note);
    ParentNotesAre(classes, classes, note);
    MemberCauses(entities, spelling, note);
    assert note.MemberNote? || !exists e: nat, m :: IsMemberNote(entities, spelling, e, m, note);
  }

  // ----- roles and ancestors, name by name

  ghost predicate IsUnsupportedMember(m: Member, d: Decorator) {
    FirstAmong(m.decorators, {"VersionColumn", "ViewColumn", "ObjectIdColumn", "TreeParent", "TreeChildren", "TreeLevelColumn"}, d)
  }

  ghost predicate IsColumnDecorator(m: Member, d: Decorator) {
    FirstAmong(m.decorators,
               {"PrimaryGeneratedColumn", "PrimaryColumn", "Column", "CreateDateColumn", "UpdateDateColumn", "DeleteDateColumn"}, d)
  }

  ghost predicate IsRelationDecorator(m: Member, d: Decorator) {
    FirstAmong(m.decorators, {"ManyToOne", "OneToOne", "ManyToMany"}, d)
  }

  // The first unsupported decorator decides, then the first of a column, then the first of
  // a relation.
  lemma RoleIsWritten(m: Member)
    ensures forall d :: RoleOf(m) == Unsupported(d) <==> IsUnsupportedMember(m, d)
    ensures forall d :: RoleOf(m) == ColumnMember(d) <==> IsColumnDecorator(m, d) && forall u :: !IsUnsupportedMember(m, u)
    ensures forall d :: RoleOf(m) == RelationMember(d)
                        <==> IsRelationDecorator(m, d) && forall u :: !IsUnsupportedMember(m, u) && !IsColumnDecorator(m, u)
  {
    forall d
      ensures DecoratorAmong(m.decorators, UNSUPPORTED_MEMBER_DECORATORS) == Some(d) <==> IsUnsupportedMember(m, d)
      ensures DecoratorAmong(m.decorators, COLUMN_DECORATORS) == Some(d) <==> IsColumnDecorator(m, d)
      ensures DecoratorAmong(m.decorators, RELATION_DECORATORS) == Some(d) <==> IsRelationDecorator(m, d)
    {
      AmongIsFirst(m.decorators, UNSUPPORTED_MEMBER_DECORATORS, d);
      AmongIsFirst(m.decorators, COLUMN_DECORATORS, d);
      AmongIsFirst(m.decorators, RELATION_DECORATORS, d);
    }
    var unsupported := DecoratorAmong(m.decorators, UNSUPPORTED_MEMBER_DECORATORS);
    var column := DecoratorAmong(m.decorators, COLUMN_DECORATORS);
    assert unsupported.Some? ==> IsUnsupportedMember(m, unsupported.value);
    assert column.Some? ==> IsColumnDecorator(m, column.value);
  }

  // The class extends the first class of that name, unless that is the base of all.
  ghost predicate ExtendsClass(classes: seq<ClassDeclaration>, c: ClassDeclaration, parent: ClassDeclaration) {
    c.parent == Some(parent.name) && parent.name != "BaseEntity"
    && exists i: nat :: i < |classes| && classes[i] == parent && forall k | 0 <= k < i :: classes[k].name != parent.name
  }

  ghost predicate ExtendsNone(classes: seq<ClassDeclaration>, c: ClassDeclaration) {
    c.parent == None || c.parent == Some("BaseEntity") || NamesNoClass(classes, c.parent.value)
  }

  lemma ParentIsWritten(classes: seq<ClassDeclaration>, c: ClassDeclaration)
    ensures match ParentOf(c, ByName(classes))
            case None => ExtendsNone(classes, c)
            case Some(parent) => ExtendsClass(classes, c, parent)
  {
    if c.parent.Some? {
      NamedClasses(classes, c.parent.value);
      if !NamesNoClass(classes, c.parent.value) {
        var i := FirstNamed(classes, c.parent.value);
        FirstOfItsName(classes, i);
      }
    }
  }

  lemma {:induction false} FirstNamed(classes: seq<ClassDeclaration>, name: string) returns (i: nat)
    requires !NamesNoClass(classes, name)
    ensures i < |classes| && classes[i].name == name && forall k | 0 <= k < i :: classes[k].name != name
  {
    if classes[0].name == name {
      i := 0;
    } else {
      assert forall k | 0 < k < |classes| :: classes[1..][k - 1] == classes[k];
      i := FirstNamed(classes[1..], name);
      i := i + 1;
    }
  }

  // The ancestry of an entity class: from the oldest class that extends no known one down
  // to the class itself, each extending the one before it.
  lemma AncestryIsWritten(classes: seq<ClassDeclaration>, c: ClassDeclaration)
    requires ChainEnds(c, ByName(classes))
    ensures var ancestry := Ancestry(c, ByName(classes));
            && ancestry[|ancestry| - 1] == c && ExtendsNone(classes, ancestry[0])
            && forall i | 0 < i < |ancestry| :: ExtendsClass(classes, ancestry[i], ancestry[i - 1])
  {
    var ancestry := Ancestry(c, ByName(classes));
    AncestryIsChain(c, ByName(classes));
    ParentIsWritten(classes, ancestry[0]);
    forall i | 0 < i < |ancestry| ensures ExtendsClass(classes, ancestry[i], ancestry[i - 1]) {
      ParentIsWritten(classes, ancestry[i]);
    }
  }
}
