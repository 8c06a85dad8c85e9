/** figura/scripts/erd-source-typeorm.mjs: what decorators and their options say, word by
    word: columns, owners and targets of relations, table names, unique indexes, and the
    order of inherited members. */
module TypeormDecorators {
  import opened Optional
  import opened TypeormEntities
  import opened TypeormJoins
  import opened TypeormResolution
  import opened TypeormDrafts

  // The first object among the arguments has this value under the key.
  ghost predicate Says(arguments: seq<Value>, key: string, value: Value) {
    exists k: nat :: SaysAt(arguments, k, key, value)
  }

  predicate SaysAt(arguments: seq<Value>, k: nat, key: string, value: Value) {
    && k < |arguments| && arguments[k].Object? && (forall m | 0 <= m < k :: !arguments[m].Object?)
    && key in arguments[k].entries && arguments[k].entries[key] == value
  }

  lemma OptionSays(arguments: seq<Value>, key: string, value: Value)
    requires value != Undefined
    ensures OptionOf(ObjectArgument(arguments), key) == Some(value) <==> Says(arguments, key, value)
  {
    FirstObject(arguments);
    var options := ObjectArgument(arguments);
    if options.Some? {
      var k: nat :| k < |arguments| && arguments[k] == options.value && forall m | 0 <= m < k :: !arguments[m].Object?;
      assert SaysAt(arguments, k, key, value) <==> OptionOf(options, key) == Some(value);
      forall j: nat | SaysAt(arguments, j, key, value) ensures j == k {
        assert !(j < k) && !(k < j);
      }
    }
  }

  // The text under `name`, or the other name where there is no text.
  ghost predicate IsCalled(name: string, arguments: seq<Value>, otherwise: string) {
    && (forall text | Says(arguments, "name", Text(text)) :: name == text)
    && ((forall text :: !Says(arguments, "name", Text(text))) ==> name == otherwise)
  }

  lemma NameSaid(arguments: seq<Value>, otherwise: string)
    ensures IsCalled(NameOption(ObjectArgument(arguments), "name", otherwise), arguments, otherwise)
  {
    var said := OptionOf(ObjectArgument(arguments), "name");
    forall text ensures said == Some(Text(text)) <==> Says(arguments, "name", Text(text)) {
      OptionSays(arguments, "name", Text(text));
    }
  }

  // ----- columns

  ghost predicate IsColumnOf(found: Option<EntityColumn>, member: Member, decorator: Decorator, typ: Option<string>)
  {
    var arguments := decorator.arguments;
    if (arguments != [] && arguments[0].Arrow?) || typ == None then found == None
    else
      && found.Some? && found.value.propertyName == member.name && found.value.column.typ == typ.value
      && IsCalled(found.value.column.name, arguments, member.name)
      && (found.value.column.unique <==> Says(arguments, "unique", Flag(true)))
      && (found.value.column.primaryKey
          <==> decorator.name == "PrimaryGeneratedColumn" || decorator.name == "PrimaryColumn"
               || (decorator.name != "DeleteDateColumn" && Says(arguments, "primary", Flag(true))))
      && (found.value.column.nullable
          <==> decorator.name == "DeleteDateColumn"
               || (decorator.name != "PrimaryGeneratedColumn" && decorator.name != "PrimaryColumn" && Says(arguments, "nullable", Flag(true))))
  }

  // A column is called and typed as its decorator says; primary and delete-date columns
  // know by themselves whether they are keys and nullable.
  lemma ColumnIsAsDecorated(tableName: string, member: Member, decorator: Decorator, spelling: Spelling)
    ensures IsColumnOf(MemberColumn(tableName, member, decorator, spelling), member, decorator,
                       if decorator.name == "PrimaryGeneratedColumn" then Some(spelling.generatedType(decorator))
                       else spelling.typeOf(tableName, member, decorator))
  {
    NameSaid(decorator.arguments, member.name);
    OptionSays(decorator.arguments, "unique", Flag(true));
    OptionSays(decorator.arguments, "primary", Flag(true));
    OptionSays(decorator.arguments, "nullable", Flag(true));
    assert "DeleteDateColumn"[0] != "PrimaryColumn"[0] && "DeleteDateColumn"[0] != "PrimaryGeneratedColumn"[0];
  }

  // ----- relations

  predicate HasNamedDecorator(member: Member, name: string) {
    exists d :: 0 <= d < |member.decorators| && member.decorators[d].name == name
  }

  // Many-to-one relations own their column; the others own one, or a junction table, where
  // the member says so.
  lemma OwnerIff(member: Member, decorator: Decorator)
    ensures IsOwner(member, decorator)
            <==> decorator.name == "ManyToOne"
                 || (decorator.name == "OneToOne" && HasNamedDecorator(member, "JoinColumn"))
                 || (decorator.name == "ManyToMany" && HasNamedDecorator(member, "JoinTable"))
  {
  }

  // The target is named by a text, or by the first identifier behind an arrow; of entities
  // with that table or class name the last one is meant.
  ghost predicate IsMeant(entities: seq<Entity>, name: Option<string>, t: nat) {
    && t < |entities| && name.Some? && (name.value == entities[t].tableName || name.value == entities[t].className)
    && forall i | t < i < |entities| :: name.value != entities[i].tableName && name.value != entities[i].className
  }

  ghost function NameGiven(decorator: Decorator): Option<string> {
    if decorator.arguments == [] then None
    else if decorator.arguments[0].Text? then Some(decorator.arguments[0].text)
    else if decorator.arguments[0].Arrow? then decorator.arguments[0].first
    else None
  }

  lemma MeantInFront(entities: seq<Entity>, name: Option<string>, t: nat)
    requires entities != []
    ensures var n := |entities| - 1;
            if name == Some(entities[n].tableName) || name == Some(entities[n].className) then IsMeant(entities, name, t) <==> t == n
            else IsMeant(entities, name, t) <==> IsMeant(entities[..n], name, t)
  {
    var n := |entities| - 1;
    assert forall i | 0 <= i < n :: entities[..n][i] == entities[i];
  }

  lemma {:induction false} LastIsMeant(entities: seq<Entity>, name: Option<string>, t: nat)
    ensures TargetOf(entities, name) == Some(t) <==> IsMeant(entities, name, t)
  {
    if entities != [] {
      LastIsMeant(entities[..|entities| - 1], name, t);
      MeantInFront(entities, name, t);
    }
  }

  lemma TargetIsMeant(entities: seq<Entity>, relation: RelationOf, t: nat)
    ensures IsTarget(entities, relation, t) <==> IsMeant(entities, NameGiven(relation.decorator), t)
  {
    LastIsMeant(entities, NameGiven(relation.decorator), t);
  }

  // ----- table names

  // @Entity('users') or @Entity({ name: 'users' }); any other entity is called after its
  // class.
  lemma EntityIsCalled(declaration: ClassDeclaration, spelling: Spelling, d: nat)
    requires d < |declaration.decorators| && declaration.decorators[d].name == "Entity"
    requires forall k | 0 <= k < d :: declaration.decorators[k].name != "Entity"
    ensures var arguments := declaration.decorators[d].arguments;
            var name := EntityTableName(declaration, spelling);
            if arguments != [] && arguments[0].Text? then name == arguments[0].text
            else IsCalled(name, if arguments == [] then [] else arguments[..1], spelling.snakeCase(declaration.name))
  {
    var arguments := declaration.decorators[d].arguments;
    FirstDecorator(declaration.decorators, "Entity", d);
    if arguments != [] {
      NameSaid(arguments[..1], spelling.snakeCase(declaration.name));
      assert arguments[..1][1..] == [];
      OnlyArgument(arguments[0]);
      assert arguments[..1] == [arguments[0]];
    } else {
      NameSaid([], spelling.snakeCase(declaration.name));
    }
  }

  lemma OnlyArgument(value: Value)
    ensures ObjectArgument([value]) == if value.Object? then Some(value) else None
  {
    assert [value][1..] == [];
  }

  // ----- unique indexes

  ghost predicate MakesUnique(decorator: Decorator) {
    decorator.name == "Unique"
    || (decorator.name == "Index" && Says(decorator.arguments, "unique", Flag(true))
        && forall value :: Says(decorator.arguments, "where", value) ==> value == Undefined)
  }

  lemma MakesUniqueIff(decorator: Decorator)
    ensures IsUniqueIndex(decorator) <==> MakesUnique(decorator)
  {
    OptionSays(decorator.arguments, "unique", Flag(true));
    var said := OptionOf(ObjectArgument(decorator.arguments), "where");
    forall value | value != Undefined ensures said == Some(value) <==> Says(decorator.arguments, "where", value) {
      OptionSays(decorator.arguments, "where", value);
    }
    if said.Some? {
      assert Says(decorator.arguments, "where", said.value);
    }
  }

  // The one property named by the first list or arrow among the arguments.
  ghost predicate IndexesOnly(arguments: seq<Value>, field: string) {
    exists k: nat :: IndexesAt(arguments, k, field)
  }

  ghost predicate IndexesAt(arguments: seq<Value>, k: nat, field: string) {
    && k < |arguments| && (forall m | 0 <= m < k :: !arguments[m].List? && !arguments[m].Arrow?)
    && ((arguments[k].Arrow? && arguments[k].fields == [field]) || (arguments[k].List? && OnlyText(arguments[k].values, field)))
  }

  // The list holds this text and no other.
  ghost predicate OnlyText(values: seq<Value>, field: string) {
    exists i :: 0 <= i < |values| && values[i] == Text(field) && forall j | 0 <= j < |values| && j != i :: !values[j].Text?
  }

  lemma {:induction false} NoTexts(values: seq<Value>)
    ensures TextFields(values) == [] <==> forall i | 0 <= i < |values| :: !values[i].Text?
  {
    if values != [] {
      var n := |values| - 1;
      NoTexts(values[..n]);
      assert forall i | 0 <= i < n :: values[..n][i] == values[i];
      if values[n].Text? {
        assert |TextFields(values)| == |TextFields(values[..n])| + 1;
      } else {
        assert TextFields(values) == TextFields(values[..n]);
      }
    }
  }

  lemma {:induction false} OneTextIff(values: seq<Value>, field: string)
    ensures TextFields(values) == [field] <==> OnlyText(values, field)
  {
    if values != [] {
      var n := |values| - 1;
      var front := values[..n];
      OneTextIff(front, field);
      NoTexts(front);
      assert forall i | 0 <= i < n :: front[i] == values[i];
      if values[n].Text? {
        OneTextLast(TextFields(front), values[n].text, field);
        OnlyTextLast(values, field);
      } else {
        assert TextFields(values) == TextFields(front);
        OnlyTextInFront(values, field);
      }
    }
  }

  lemma OneTextLast(front: seq<string>, last: string, field: string)
    ensures front + [last] == [field] <==> front == [] && last == field
  {
    if front + [last] == [field] {
      assert |front + [last]| == 1;
      assert (front + [last])[0] == field;
    }
  }

  lemma OnlyTextLast(values: seq<Value>, field: string)
    requires values != [] && values[|values| - 1].Text?
    ensures OnlyText(values, field)
            <==> values[|values| - 1].text == field && forall i | 0 <= i < |values| - 1 :: !values[i].Text?
  {
    var n := |values| - 1;
    if OnlyText(values, field) {
      var i :| 0 <= i < |values| && values[i] == Text(field) && forall j | 0 <= j < |values| && j != i :: !values[j].Text?;
      assert i == n;
    }
    if values[n].text == field && forall i | 0 <= i < n :: !values[i].Text? {
      assert values[n] == Text(field);
    }
  }

  lemma OnlyTextInFront(values: seq<Value>, field: string)
    requires values != [] && !values[|values| - 1].Text?
    ensures OnlyText(values, field) <==> OnlyText(values[..|values| - 1], field)
  {
    var n := |values| - 1;
    var front := values[..n];
    assert forall i | 0 <= i < n :: front[i] == values[i];
    if OnlyText(front, field) {
      var i :| 0 <= i < |front| && front[i] == Text(field) && forall j | 0 <= j < |front| && j != i :: !front[j].Text?;
      assert values[i] == Text(field) && forall j | 0 <= j < |values| && j != i :: !values[j].Text?;
    }
    if OnlyText(values, field) {
      var i :| 0 <= i < |values| && values[i] == Text(field) && forall j | 0 <= j < |values| && j != i :: !values[j].Text?;
      assert i < n && front[i] == Text(field);
    }
  }

  lemma {:induction false} OneFieldIff(arguments: seq<Value>, field: string)
    ensures IndexedFieldNames(arguments) == Some([field]) <==> IndexesOnly(arguments, field)
  {
    if arguments != [] {
      var rest := arguments[1..];
      if arguments[0].List? {
        OneTextIff(arguments[0].values, field);
        assert IndexesAt(arguments, 0, field) <==> OnlyText(arguments[0].values, field);
      } else if arguments[0].Arrow? {
        assert IndexesAt(arguments, 0, field) <==> arguments[0].fields == [field];
      } else {
        OneFieldIff(rest, field);
        forall k: nat ensures IndexesAt(arguments, k + 1, field) <==> IndexesAt(rest, k, field) {
          assert forall m | 1 <= m < k + 1 && m < |arguments| :: arguments[m] == rest[m - 1];
        }
        if k: nat :| IndexesAt(arguments, k, field) {
          assert k > 0 && IndexesAt(rest, k - 1, field);
        }
      }
    }
  }

  // A member with a unique @Index, or a class with @Unique or a unique @Index of one field.
  ghost predicate MeansUnique(entity: Entity, field: string) {
    || (exists i :: 0 <= i < |entity.members| && entity.members[i].name == field && HasUniqueIndex(entity.members[i]))
    || (exists i :: 0 <= i < |entity.classDecorators| && MakesUnique(entity.classDecorators[i])
                    && IndexesOnly(entity.classDecorators[i].arguments, field))
  }

  ghost predicate HasUniqueIndex(member: Member) {
    exists i :: 0 <= i < |member.decorators| && member.decorators[i].name == "Index" && MakesUnique(member.decorators[i])
  }

  lemma UniqueMemberIff(member: Member)
    ensures IsUniqueMember(member) <==> HasUniqueIndex(member)
  {
    forall i | 0 <= i < |member.decorators| ensures IsUniqueIndex(member.decorators[i]) <==> MakesUnique(member.decorators[i]) {
      MakesUniqueIff(member.decorators[i]);
    }
  }

  lemma {:induction false} MemberIndexesAre(members: seq<Member>, field: string)
    ensures [field] in MemberIndexes(members) <==> exists i :: 0 <= i < |members| && members[i].name == field && HasUniqueIndex(members[i])
    ensures forall index | index in MemberIndexes(members) :: |index| == 1
  {
    if members != [] {
      var n := |members| - 1;
      MemberIndexesAre(members[..n], field);
      UniqueMemberIff(members[n]);
      assert forall i | 0 <= i < n :: members[..n][i] == members[i];
      assert [members[n].name] == [field] <==> members[n].name == field by {
        assert [members[n].name][0] == members[n].name;
      }
    }
  }

  lemma {:induction false} ClassIndexesAre(decorators: seq<Decorator>, field: string)
    ensures [field] in ClassIndexes(decorators)
            <==> exists i :: 0 <= i < |decorators| && MakesUnique(decorators[i]) && IndexesOnly(decorators[i].arguments, field)
    ensures forall index | index in ClassIndexes(decorators) :: |index| == 1
  {
    if decorators != [] {
      var n := |decorators| - 1;
      ClassIndexesAre(decorators[..n], field);
      MakesUniqueIff(decorators[n]);
      OneFieldIff(decorators[n].arguments, field);
      assert forall i | 0 <= i < n :: decorators[..n][i] == decorators[i];
    }
  }

  // The unique indexes that mark columns are those over one property, and they are all.
  lemma UniqueIndexesAre(entity: Entity, field: string)
    ensures [field] in UniqueIndexes(entity) <==> MeansUnique(entity, field)
    ensures forall index | index in UniqueIndexes(entity) :: |index| == 1
  {
    MemberIndexesAre(entity.members, field);
    ClassIndexesAre(entity.classDecorators, field);
  }

  // ----- inherited members

  // The members whose names no class below declares again.
  ghost function KeptBelow(members: seq<Member>, below: seq<ClassDeclaration>): seq<Member> {
    if members == [] then []
    else
      var n := |members| - 1;
      var front := KeptBelow(members[..n], below);
      if exists k :: 0 <= k < |below| && Declares(below[k], members[n].name) then front else front + [members[n]]
  }

  // From the oldest class down, what each keeps.
  ghost function KeptFrom(ancestry: seq<ClassDeclaration>, n: nat): seq<Member>
    requires n <= |ancestry|
  {
    if n == 0 then [] else KeptFrom(ancestry, n - 1) + KeptBelow(ancestry[n - 1].members, ancestry[n..])
  }

  lemma {:induction false} NotOverriddenConcat(a: seq<Member>, b: seq<Member>, declaration: ClassDeclaration)
    ensures NotOverridden(a + b, declaration) == NotOverridden(a, declaration) + NotOverridden(b, declaration)
  {
    if b == [] {
      assert a + b == a;
    } else {
      var n := |b| - 1;
      assert (a + b)[..|a + b| - 1] == a + b[..n];
      NotOverriddenConcat(a, b[..n], declaration);
    }
  }

  lemma NotOverriddenPush(members: seq<Member>, m: Member, declaration: ClassDeclaration)
    ensures NotOverridden(members + [m], declaration)
            == NotOverridden(members, declaration) + if Declares(declaration, m.name) then [] else [m]
  {
    assert (members + [m])[..|members|] == members;
  }

  lemma {:induction false} OneMoreBelow(members: seq<Member>, below: seq<ClassDeclaration>, last: ClassDeclaration)
    ensures NotOverridden(KeptBelow(members, below), last) == KeptBelow(members, below + [last])
  {
    if members != [] {
      var n := |members| - 1;
      var all := below + [last];
      OneMoreBelow(members[..n], below, last);
      assert (exists k :: 0 <= k < |all| && Declares(all[k], members[n].name))
             <==> (exists k :: 0 <= k < |below| && Declares(below[k], members[n].name)) || Declares(last, members[n].name) by {
        assert all[|below|] == last;
        assert forall k | 0 <= k < |below| :: all[k] == below[k];
      }
      NotOverriddenPush(KeptBelow(members[..n], below), members[n], last);
    }
  }

  lemma KeptOfClass(ancestry: seq<ClassDeclaration>, n: nat)
    requires 0 < n < |ancestry|
    ensures var front, last := ancestry[..|ancestry| - 1], ancestry[|ancestry| - 1];
            NotOverridden(KeptBelow(front[n - 1].members, front[n..]), last) == KeptBelow(ancestry[n - 1].members, ancestry[n..])
  {
    var front, last := ancestry[..|ancestry| - 1], ancestry[|ancestry| - 1];
    OneMoreBelow(front[n - 1].members, front[n..], last);
    assert front[n..] + [last] == ancestry[n..];
  }

  lemma {:induction false} LastOverrides(ancestry: seq<ClassDeclaration>, n: nat)
    requires n < |ancestry|
    ensures NotOverridden(KeptFrom(ancestry[..|ancestry| - 1], n), ancestry[|ancestry| - 1]) == KeptFrom(ancestry, n)
  {
    if n > 0 {
      var front, last := ancestry[..|ancestry| - 1], ancestry[|ancestry| - 1];
      LastOverrides(ancestry, n - 1);
      NotOverriddenConcat(KeptFrom(front, n - 1), KeptBelow(front[n - 1].members, front[n..]), last);
      KeptOfClass(ancestry, n);
    }
  }

  lemma {:induction false} NoneBelow(members: seq<Member>)
    ensures KeptBelow(members, []) == members
  {
    if members != [] {
      NoneBelow(members[..|members| - 1]);
    }
  }

  // The members of an entity: class by class from the oldest, each without the members that
  // a class below declares again.
  lemma {:induction false} MembersInOrder(ancestry: seq<ClassDeclaration>)
    ensures MergedMembers(ancestry) == KeptFrom(ancestry, |ancestry|)
  {
    if ancestry != [] {
      var n := |ancestry| - 1;
      MembersInOrder(ancestry[..n]);
      LastOverrides(ancestry, n);
      NoneBelow(ancestry[n].members);
      assert ancestry[n + 1..] == [];
    }
  }

  lemma {:induction false} ClassDecoratorsHold(ancestry: seq<ClassDeclaration>, d: Decorator)
    ensures d in ClassDecorators(ancestry) <==> exists i :: 0 <= i < |ancestry| && d in ancestry[i].decorators
  {
    if ancestry != [] {
      var n := |ancestry| - 1;
      ClassDecoratorsHold(ancestry[..n], d);
      assert forall i | 0 <= i < n :: ancestry[..n][i] == ancestry[i];
    }
  }

  // An entity has the name of its class, the members of its chain, and the decorators of
  // all classes of it.
  lemma EntityIsDeclared(declaration: ClassDeclaration, ancestry: seq<ClassDeclaration>, spelling: Spelling)
    ensures var entity := EntityOf(declaration, ancestry, spelling);
            && entity.className == declaration.name && entity.tableName == EntityTableName(declaration, spelling)
            && entity.members == KeptFrom(ancestry, |ancestry|) && entity.implicitColumns == [] && entity.joinColumnsOfProperty == map[]
            && forall d :: d in entity.classDecorators <==> exists i :: 0 <= i < |ancestry| && d in ancestry[i].decorators
  {
    MembersInOrder(ancestry);
    forall d ensures d in ClassDecorators(ancestry) <==> exists i :: 0 <= i < |ancestry| && d in ancestry[i].decorators {
      ClassDecoratorsHold(ancestry, d);
    }
  }
}
