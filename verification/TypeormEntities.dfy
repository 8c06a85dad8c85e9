/** figura/scripts/erd-source-typeorm.mjs: parsed entity classes, their inheritance and
    what one decorated member says about a column or a relation. */
module TypeormEntities {
  import opened Optional
  import opened Names
  import opened ErdModel

  // What tokenValue makes of an argument. Of an arrow only the identifiers matter: the
  // first one of its body, and those that follow a dot.
  datatype Value =
    | Text(text: string)
    | Number(digits: string, negative: bool)
    | Flag(on: bool)
    | Null
    | Undefined
    | Identifier(name: string)
    | Arrow(first: Option<string>, fields: seq<string>)
    | Object(entries: map<string, Value>)
    | List(values: seq<Value>)
    | Other

  datatype Decorator = Decorator(name: string, arguments: seq<Value>)

  datatype Member = Member(name: string, className: string, decorators: seq<Decorator>, typeTokens: seq<string>)

  datatype ClassDeclaration = ClassDeclaration(name: string, parent: Option<string>, decorators: seq<Decorator>, members: seq<Member>)

  // The spelling of types and of default names.
  datatype Spelling = Spelling(
    typeOf: (string, Member, Decorator) -> Option<string>,
    generatedType: Decorator -> string,
    camelCase: string -> string,
    snakeCase: string -> string)

  const ACTIVE_RECORD_BASE := "BaseEntity"
  const COLUMN_DECORATORS :=
    {"PrimaryGeneratedColumn", "PrimaryColumn", "Column", "CreateDateColumn", "UpdateDateColumn", "DeleteDateColumn"}
  const RELATION_DECORATORS := {"ManyToOne", "OneToOne", "ManyToMany"}
  const UNSUPPORTED_MEMBER_DECORATORS := {"VersionColumn", "ViewColumn", "ObjectIdColumn", "TreeParent", "TreeChildren", "TreeLevelColumn"}
  const UNSUPPORTED_CLASS_DECORATORS := {"TableInheritance", "ChildEntity", "Tree"}

  // ----- reading arguments

  function OptionOf(options: Option<Value>, key: string): Option<Value> {
    if options.Some? && options.value.Object? && key in options.value.entries && !options.value.entries[key].Undefined?
    then Some(options.value.entries[key]) else None
  }

  function NameOption(options: Option<Value>, key: string, otherwise: string): string {
    match OptionOf(options, key)
    case Some(Text(text)) => text
    case _ => otherwise
  }

  function IsOn(options: Option<Value>, key: string): bool {
    OptionOf(options, key) == Some(Flag(true))
  }

  function Argument(arguments: seq<Value>, i: nat): Option<Value> {
    if i < |arguments| then Some(arguments[i]) else None
  }

  function ObjectArgument(arguments: seq<Value>): Option<Value> {
    if arguments == [] then None
    else if arguments[0].Object? then Some(arguments[0])
    else ObjectArgument(arguments[1..])
  }

  // The first decorator whose name is one of these.
  function DecoratorAmong(decorators: seq<Decorator>, names: set<string>): (found: Option<Decorator>)
    ensures found.Some? <==> exists i :: 0 <= i < |decorators| && decorators[i].name in names
    ensures found.Some? ==> found.value in decorators && found.value.name in names
  {
    if decorators == [] then None
    else if decorators[0].name in names then Some(decorators[0])
    else DecoratorAmong(decorators[1..], names)
  }

  // ----- inheritance

  type ClassMap = map<string, ClassDeclaration>

  // The class a declaration extends, where the parser found it.
  function ParentOf(declaration: ClassDeclaration, byName: ClassMap): Option<ClassDeclaration> {
    if declaration.parent.Some? && declaration.parent.value != ACTIVE_RECORD_BASE && declaration.parent.value in byName
    then Some(byName[declaration.parent.value]) else None
  }

  predicate ParentIsMissing(declaration: ClassDeclaration, byName: ClassMap) {
    declaration.parent.Some? && declaration.parent.value != ACTIVE_RECORD_BASE && declaration.parent.value !in byName
  }

  // The class n parents up: the one the n-th nested call of lineage is about.
  ghost function Up(declaration: ClassDeclaration, byName: ClassMap, n: nat): Option<ClassDeclaration>
    decreases n
  {
    if n == 0 then Some(declaration)
    else
      match ParentOf(declaration, byName)
      case None => None
      case Some(parent) => Up(parent, byName, n - 1)
  }

  // Some call makes no further one.
  ghost predicate ChainEnds(declaration: ClassDeclaration, byName: ClassMap) {
    exists n: nat :: Up(declaration, byName, n) == None
  }

  ghost predicate IsHeight(declaration: ClassDeclaration, byName: ClassMap, h: nat) {
    Up(declaration, byName, h) == None && forall k | 0 <= k < h :: Up(declaration, byName, k).Some?
  }

  lemma {:induction false} LeastEnd(declaration: ClassDeclaration, byName: ClassMap, n: nat) returns (h: nat)
    requires Up(declaration, byName, n) == None
    ensures IsHeight(declaration, byName, h)
    decreases n
  {
    if k :| 0 <= k < n && Up(declaration, byName, k) == None {
      h := LeastEnd(declaration, byName, k);
    } else {
      h := n;
    }
  }

  ghost function Height(declaration: ClassDeclaration, byName: ClassMap): (h: nat)
    requires ChainEnds(declaration, byName)
    ensures IsHeight(declaration, byName, h)
  {
    assert exists h: nat :: IsHeight(declaration, byName, h) by {
      var n: nat :| Up(declaration, byName, n) == None;
      var h := LeastEnd(declaration, byName, n);
    }
    var h: nat :| IsHeight(declaration, byName, h);
    h
  }

  lemma ParentIsLower(declaration: ClassDeclaration, byName: ClassMap)
    requires ChainEnds(declaration, byName) && ParentOf(declaration, byName).Some?
    ensures var parent := ParentOf(declaration, byName).value;
            ChainEnds(parent, byName) && Height(parent, byName) < Height(declaration, byName)
  {
    var parent, h := ParentOf(declaration, byName).value, Height(declaration, byName);
    assert Up(declaration, byName, 0).Some?;
    assert Up(parent, byName, h - 1) == Up(declaration, byName, h);
  }

  function Ancestry(declaration: ClassDeclaration, byName: ClassMap): (ancestry: seq<ClassDeclaration>)
    requires ChainEnds(declaration, byName)
    ensures ancestry != []
    decreases Height(declaration, byName)
  {
    match ParentOf(declaration, byName)
    case None => [declaration]
    case Some(parent) =>
      ParentIsLower(declaration, byName);
      Ancestry(parent, byName) + [declaration]
  }

  // From the oldest class down to the declaration itself, each extending the one before.
  lemma {:induction false} AncestryIsChain(declaration: ClassDeclaration, byName: ClassMap)
    requires ChainEnds(declaration, byName)
    ensures var ancestry := Ancestry(declaration, byName);
            && ancestry[|ancestry| - 1] == declaration && ParentOf(ancestry[0], byName) == None
            && forall i | 0 < i < |ancestry| :: ParentOf(ancestry[i], byName) == Some(ancestry[i - 1])
    decreases Height(declaration, byName)
  {
    var parent := ParentOf(declaration, byName);
    if parent.Some? {
      ParentIsLower(declaration, byName);
      AncestryIsChain(parent.value, byName);
    }
  }

  // ----- when lineage returns

  // Going up, no class is met twice.
  ghost predicate NoClassTwice(declaration: ClassDeclaration, byName: ClassMap) {
    forall i: nat, j: nat | i < j && Up(declaration, byName, i).Some? :: Up(declaration, byName, j) != Up(declaration, byName, i)
  }

  lemma {:induction false} UpFurther(declaration: ClassDeclaration, byName: ClassMap, m: nat, n: nat)
    ensures Up(declaration, byName, m + n)
            == if Up(declaration, byName, m).Some? then Up(Up(declaration, byName, m).value, byName, n) else None
    decreases m
  {
    if m > 0 && ParentOf(declaration, byName).Some? {
      UpFurther(ParentOf(declaration, byName).value, byName, m - 1, n);
    }
  }

  // A class met again is met for ever.
  lemma {:induction false} CircleGoesOn(declaration: ClassDeclaration, byName: ClassMap, i: nat, j: nat, n: nat)
    requires i < j && Up(declaration, byName, i).Some? && Up(declaration, byName, j) == Up(declaration, byName, i)
    ensures Up(declaration, byName, n).Some?
    decreases n
  {
    if n > j {
      UpFurther(declaration, byName, j, n - j);
      UpFurther(declaration, byName, i, n - j);
      CircleGoesOn(declaration, byName, i, j, n - (j - i));
    } else {
      UpFurther(declaration, byName, n, j - n);
    }
  }

  // The classes met on the way up, the first one aside.
  ghost function Met(declaration: ClassDeclaration, byName: ClassMap, n: nat): set<ClassDeclaration> {
    if n == 0 then {}
    else Met(declaration, byName, n - 1) + if Up(declaration, byName, n).Some? then {Up(declaration, byName, n).value} else {}
  }

  lemma {:induction false} MetAreNamed(declaration: ClassDeclaration, byName: ClassMap, n: nat)
    ensures Met(declaration, byName, n) <= byName.Values
  {
    if n > 0 {
      MetAreNamed(declaration, byName, n - 1);
      UpFurther(declaration, byName, n - 1, 1);
    }
  }

  lemma {:induction false} MetHolds(declaration: ClassDeclaration, byName: ClassMap, n: nat, c: ClassDeclaration)
    requires c in Met(declaration, byName, n)
    ensures exists k :: 0 < k <= n && Up(declaration, byName, k) == Some(c)
  {
    if c in Met(declaration, byName, n - 1) {
      MetHolds(declaration, byName, n - 1, c);
    }
  }

  lemma {:induction false} MetAreMany(declaration: ClassDeclaration, byName: ClassMap, n: nat)
    requires NoClassTwice(declaration, byName) && forall k | 0 <= k <= n :: Up(declaration, byName, k).Some?
    ensures |Met(declaration, byName, n)| == n
  {
    if n > 0 {
      MetAreMany(declaration, byName, n - 1);
      var c := Up(declaration, byName, n).value;
      if c in Met(declaration, byName, n - 1) {
        MetHolds(declaration, byName, n - 1, c);
      }
    }
  }

  // The calls end exactly when no class is met twice, and then after as many as there are
  // names.
  lemma ChainEndsIff(declaration: ClassDeclaration, byName: ClassMap)
    ensures ChainEnds(declaration, byName) <==> NoClassTwice(declaration, byName)
    ensures ChainEnds(declaration, byName) <==> Up(declaration, byName, |byName.Values| + 1) == None
  {
    var most := |byName.Values| + 1;
    if NoClassTwice(declaration, byName) && Up(declaration, byName, most).Some? {
      forall k | 0 <= k <= most ensures Up(declaration, byName, k).Some? {
        UpFurther(declaration, byName, k, most - k);
      }
      MetAreMany(declaration, byName, most);
      MetAreNamed(declaration, byName, most);
      SubsetIsNotLarger(Met(declaration, byName, most), byName.Values);
    }
    if !NoClassTwice(declaration, byName) {
      var i: nat, j: nat :| i < j && Up(declaration, byName, i).Some? && Up(declaration, byName, j) == Up(declaration, byName, i);
      forall n: nat ensures Up(declaration, byName, n).Some? {
        CircleGoesOn(declaration, byName, i, j, n);
      }
    }
  }

  // `class User extends base.User`: the parent keeps the last name only, so where the class
  // is the first of its name it is its own parent.
  lemma OwnParentNeverEnds(declaration: ClassDeclaration, byName: ClassMap)
    requires declaration.parent == Some(declaration.name) && declaration.name != ACTIVE_RECORD_BASE
    requires declaration.name in byName && byName[declaration.name] == declaration
    ensures !ChainEnds(declaration, byName)
  {
    assert Up(declaration, byName, 1) == Up(declaration, byName, 0) by {
      assert ParentOf(declaration, byName) == Some(declaration);
    }
    ChainEndsIff(declaration, byName);
  }

  predicate Declares(declaration: ClassDeclaration, name: string) {
    exists i :: 0 <= i < |declaration.members| && declaration.members[i].name == name
  }

  function NotOverridden(members: seq<Member>, declaration: ClassDeclaration): seq<Member> {
    if members == [] then []
    else
      NotOverridden(members[..|members| - 1], declaration)
      + if Declares(declaration, members[|members| - 1].name) then [] else [members[|members| - 1]]
  }

  function MergedMembers(ancestry: seq<ClassDeclaration>): seq<Member> {
    if ancestry == [] then []
    else
      var last := ancestry[|ancestry| - 1];
      NotOverridden(MergedMembers(ancestry[..|ancestry| - 1]), last) + last.members
  }

  lemma {:induction false} NotOverriddenKeeps(members: seq<Member>, declaration: ClassDeclaration, m: Member)
    ensures m in NotOverridden(members, declaration) <==> m in members && !Declares(declaration, m.name)
  {
    if members != [] {
      NotOverriddenKeeps(members[..|members| - 1], declaration, m);
      assert members == members[..|members| - 1] + [members[|members| - 1]];
    }
  }

  // The member is declared by class i of the chain and by no class below it.
  ghost predicate LastDeclaredAt(ancestry: seq<ClassDeclaration>, i: nat, m: Member) {
    i < |ancestry| && m in ancestry[i].members && forall j | i < j < |ancestry| :: !Declares(ancestry[j], m.name)
  }

  lemma LastDeclaredGrows(ancestry: seq<ClassDeclaration>, i: nat, m: Member)
    requires i + 1 < |ancestry|
    ensures LastDeclaredAt(ancestry, i, m)
            <==> LastDeclaredAt(ancestry[..|ancestry| - 1], i, m) && !Declares(ancestry[|ancestry| - 1], m.name)
  {
    var n := |ancestry| - 1;
    var before := ancestry[..n];
    assert forall j | 0 <= j < n :: before[j] == ancestry[j];
    if LastDeclaredAt(before, i, m) && !Declares(ancestry[n], m.name) {
      forall j | i < j < |ancestry| ensures !Declares(ancestry[j], m.name) {
        if j < n { assert !Declares(before[j], m.name); }
      }
    }
  }

  ghost predicate SomeLastDeclares(ancestry: seq<ClassDeclaration>, m: Member) {
    exists i: nat :: LastDeclaredAt(ancestry, i, m)
  }

  lemma SomeLastDeclaresGrows(ancestry: seq<ClassDeclaration>, m: Member)
    requires ancestry != []
    ensures var n := |ancestry| - 1;
            SomeLastDeclares(ancestry, m)
            <==> m in ancestry[n].members || (SomeLastDeclares(ancestry[..n], m) && !Declares(ancestry[n], m.name))
  {
    var n := |ancestry| - 1;
    if SomeLastDeclares(ancestry, m) {
      var i: nat :| LastDeclaredAt(ancestry, i, m);
      if i < n { LastDeclaredGrows(ancestry, i, m); }
    }
    if m in ancestry[n].members {
      assert LastDeclaredAt(ancestry, n, m);
    }
    if SomeLastDeclares(ancestry[..n], m) && !Declares(ancestry[n], m.name) {
      var i: nat :| LastDeclaredAt(ancestry[..n], i, m);
      LastDeclaredGrows(ancestry, i, m);
    }
  }

  // A member counts as long as no class further down declares the name again.
  lemma {:induction false} MergedIffLastDeclared(ancestry: seq<ClassDeclaration>, m: Member)
    ensures m in MergedMembers(ancestry) <==> exists i :: LastDeclaredAt(ancestry, i, m)
  {
    if ancestry != [] {
      var n := |ancestry| - 1;
      MergedIffLastDeclared(ancestry[..n], m);
      NotOverriddenKeeps(MergedMembers(ancestry[..n]), ancestry[n], m);
      SomeLastDeclaresGrows(ancestry, m);
    }
  }

  // ----- the columns of an entity

  datatype EntityColumn = EntityColumn(propertyName: string, column: RawColumn)

  // The unsupported decorator wins over a column decorator, that one over a relation.
  datatype Role = Unsupported(decorator: Decorator) | ColumnMember(decorator: Decorator) | RelationMember(decorator: Decorator) | Plain

  function RoleOf(member: Member): Role {
    var unsupported := DecoratorAmong(member.decorators, UNSUPPORTED_MEMBER_DECORATORS);
    var column := DecoratorAmong(member.decorators, COLUMN_DECORATORS);
    var relation := DecoratorAmong(member.decorators, RELATION_DECORATORS);
    if unsupported.Some? then Unsupported(unsupported.value)
    else if column.Some? then ColumnMember(column.value)
    else if relation.Some? then RelationMember(relation.value)
    else Plain
  }

  // None: the parser cannot tell the column.
  function MemberColumn(tableName: string, member: Member, decorator: Decorator, spelling: Spelling): Option<EntityColumn> {
    var first := Argument(decorator.arguments, 0);
    var options := ObjectArgument(decorator.arguments);
    var name := NameOption(options, "name", member.name);
    var unique := IsOn(options, "unique");
    if first.Some? && first.value.Arrow? then None
    else if decorator.name == "PrimaryGeneratedColumn" then
      Some(EntityColumn(member.name, RawColumn(name, spelling.generatedType(decorator), true, unique, false)))
    else
      match spelling.typeOf(tableName, member, decorator)
      case None => None
      case Some(typ) =>
        if decorator.name == "PrimaryColumn" then Some(EntityColumn(member.name, RawColumn(name, typ, true, unique, false)))
        else if decorator.name == "DeleteDateColumn" then Some(EntityColumn(member.name, RawColumn(name, typ, false, unique, true)))
        else Some(EntityColumn(member.name, RawColumn(name, typ, IsOn(options, "primary"), unique, IsOn(options, "nullable"))))
  }

  // ----- relations

  function RelationTargetName(value: Option<Value>): Option<string> {
    match value
    case Some(Text(text)) => Some(text)
    case Some(Arrow(first, _)) => first
    case _ => None
  }

  function Objects(values: seq<Value>): seq<Value> {
    if values == [] then []
    else Objects(values[..|values| - 1]) + if values[|values| - 1].Object? then [values[|values| - 1]] else []
  }

  function JoinSpecifications(value: Option<Value>): seq<Value> {
    match value
    case Some(List(values)) => Objects(values)
    case Some(Object(entries)) => [Object(entries)]
    case _ => []
  }

  function HasDecorator(member: Member, name: string): bool {
    DecoratorAmong(member.decorators, {name}).Some?
  }

  function DecoratorArguments(member: Member, name: string): seq<Value> {
    match DecoratorAmong(member.decorators, {name})
    case None => []
    case Some(decorator) => decorator.arguments
  }

  // The side of a relation that carries its column or its junction table.
  predicate IsOwner(member: Member, decorator: Decorator) {
    decorator.name == "ManyToOne"
    || (decorator.name == "OneToOne" && HasDecorator(member, "JoinColumn"))
    || (decorator.name == "ManyToMany" && HasDecorator(member, "JoinTable"))
  }

  // ----- unique indexes

  function TextFields(values: seq<Value>): seq<string> {
    if values == [] then []
    else TextFields(values[..|values| - 1]) + match values[|values| - 1] { case Text(text) => [text] case _ => [] }
  }

  function IndexedFieldNames(values: seq<Value>): Option<seq<string>> {
    if values == [] then None
    else
      match values[0]
      case List(fields) => Some(TextFields(fields))
      case Arrow(_, fields) => Some(fields)
      case _ => IndexedFieldNames(values[1..])
  }

  predicate IsUniqueIndex(decorator: Decorator) {
    decorator.name == "Unique"
    || (decorator.name == "Index" && IsOn(ObjectArgument(decorator.arguments), "unique")
        && OptionOf(ObjectArgument(decorator.arguments), "where") == None)
  }
}
