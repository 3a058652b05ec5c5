/**
  The generator of store and fetch code for a TL schema. Instead of program text it yields
  small programs (`StoreStmt`, `FetchStmt`); a failed assertion of the generator is `None`.
 */
module TlGenerator {
  import opened Options

  // ---------------------------------------------------------------- schemas

  datatype Name =
    | Sharp | True | Bool | Int | Long | Double | String | Int32 | Int53 | Int64
    | Int128 | Int256 | Int512 | Bytes | SecureString | SecureBytes | Vector
    | User(name: string)

  /** A type expression; `t` is the index of its type in the schema. */
  datatype Tree =
    | Type(t: nat, bare: bool, children: seq<Tree>)
    | NatConst
    | VarNum
    | VarType
    | Array(items: seq<Tree>)

  /** A field. `varNum` names the variable a `#` field defines; `guard` the variable and bit
      that tell whether the field is there. */
  datatype Arg = Arg(optVar: bool, excl: bool, varNum: Option<nat>, guard: Option<(nat, nat)>, tree: Tree)

  /** The bit pattern of a constructor identifier. */
  type Id = x: int | 0 <= x < 0x1_0000_0000

  datatype Combinator = Combinator(id: Id, varCount: nat, args: seq<Arg>, result: Tree)

  datatype TypeInfo = TypeInfo(
    name: Name, arity: nat, complex: bool, defaultConstructor: bool, simpleConstructors: nat,
    constructors: seq<Combinator>)

  type Schema = seq<TypeInfo>

  // ---------------------------------------------------------------- what can be generated

  predicate IsBuiltInSimple(name: Name) {
    !name.Sharp? && !name.Vector? && !name.User?
  }

  predicate IsTypeBare(info: TypeInfo) {
    info.simpleConstructors <= 1 || (IsBuiltInSimple(info.name) && info.name != Bool) || info.name == Vector
  }

  predicate IsTypeSupported(schema: Schema, tree: Tree)
    decreases tree, 0
  {
    match tree
    case Type(t, _, children) =>
      t < |schema| && !schema[t].complex && forall i :: 0 <= i < |children| ==> IsChildSupported(schema, children[i])
    case _ => false
  }

  predicate IsChildSupported(schema: Schema, tree: Tree)
    decreases tree, 1
  {
    match tree
    case Type(_, _, _) => IsTypeSupported(schema, tree)
    case VarType => false
    case _ => true
  }

  predicate IsArgSupported(schema: Schema, tree: Tree) {
    match tree
    case Type(_, _, _) => IsTypeSupported(schema, tree)
    case Array(items) => forall i :: 0 <= i < |items| ==> IsTypeSupported(schema, items[i])
    case _ => false
  }

  predicate IsCombinatorSupported(schema: Schema, c: Combinator) {
    (forall i :: 0 <= i < |c.args| ==> IsArgSupported(schema, c.args[i].tree)) && IsTypeSupported(schema, c.result)
  }

  /** `u` is the type expression itself or stands somewhere inside it. */
  ghost predicate Inside(tree: Tree, u: Tree)
    decreases tree
  {
    u == tree || (tree.Type? && exists i :: 0 <= i < |tree.children| && Inside(tree.children[i], u))
  }

  /** No type variable, and no type that is unknown or complex. */
  predicate NodeOk(schema: Schema, u: Tree) {
    !u.VarType? && (u.Type? ==> u.t < |schema| && !schema[u.t].complex)
  }

  /** A type expression is supported exactly when everything inside it is, at any depth. */
  lemma {:induction false} TypeSupportedIff(schema: Schema, tree: Tree)
    ensures IsTypeSupported(schema, tree) <==> tree.Type? && forall u :: Inside(tree, u) ==> NodeOk(schema, u)
    decreases tree
  {
    if tree.Type? {
      forall i | 0 <= i < |tree.children|
        ensures IsChildSupported(schema, tree.children[i]) <==> forall u :: Inside(tree.children[i], u) ==> NodeOk(schema, u)
      {
        TypeSupportedIff(schema, tree.children[i]);
        assert Inside(tree.children[i], tree.children[i]);
      }
      assert Inside(tree, tree);
      forall i, u | 0 <= i < |tree.children| && Inside(tree.children[i], u) ensures Inside(tree, u) {}
    }
  }

  /** The type expressions of a combinator: its fields', array elements in place of arrays, and
      its result. */
  ghost predicate TreeOf(c: Combinator, tree: Tree) {
    || tree == c.result
    || (exists i :: 0 <= i < |c.args| && c.args[i].tree == tree && !tree.Array?)
    || (exists i :: 0 <= i < |c.args| && c.args[i].tree.Array? && tree in c.args[i].tree.items)
  }

  lemma CombinatorSupportedIff(schema: Schema, c: Combinator)
    ensures IsCombinatorSupported(schema, c) <==> forall tree :: TreeOf(c, tree) ==> IsTypeSupported(schema, tree)
  {
    hide IsTypeSupported;
    if forall tree :: TreeOf(c, tree) ==> IsTypeSupported(schema, tree) {
      forall i | 0 <= i < |c.args| ensures IsArgSupported(schema, c.args[i].tree) {
        var tree := c.args[i].tree;
        if tree.Array? {
          forall j | 0 <= j < |tree.items| ensures IsTypeSupported(schema, tree.items[j]) {
            assert TreeOf(c, tree.items[j]);
          }
        } else {
          assert TreeOf(c, tree);
          IsTypeNode(schema, tree);
        }
      }
      assert TreeOf(c, c.result);
    }
  }

  lemma IsTypeNode(schema: Schema, tree: Tree)
    ensures IsTypeSupported(schema, tree) ==> tree.Type?
  {
  }

  /** The first supported constructor from position `j` on. */
  function FirstSupported(schema: Schema, cs: seq<Combinator>, j: nat): (r: Option<nat>)
    ensures r.Some? ==> j <= r.value < |cs| && IsCombinatorSupported(schema, cs[r.value])
    ensures forall k :: j <= k < |cs| && IsCombinatorSupported(schema, cs[k]) ==> r.Some? && r.value <= k
    decreases |cs| - j
  {
    if j >= |cs| then None
    else if IsCombinatorSupported(schema, cs[j]) then Some(j)
    else FirstSupported(schema, cs, j + 1)
  }

  // ---------------------------------------------------------------- the target language

  datatype StoreClass =
    | StoreBinary(width: nat)
    | StoreBool
    | StoreText
    | StoreVector(elem: StoreClass)
    | StoreObject(t: nat)
    | StoreBoxed(inner: StoreClass, id: Id)
    | StoreBoxedUnknown(inner: StoreClass)

  datatype FetchClass =
    | FetchBinary(width: nat)
    | FetchBool
    | FetchText
    | FetchVector(elem: FetchClass)
    | FetchObject(t: nat)
    | FetchBoxed(inner: FetchClass, id: nat)

  /** What the store function does for one field: nothing for a flag, otherwise write the field
      if its guard is set. A `#` field is first combined with the flags kept in `bits`. */
  datatype StoreStmt =
    | StoreNothing
    | StoreFlags(guard: Option<(nat, nat)>, varNum: nat, bits: seq<(nat, nat)>)
    | StoreField(guard: Option<(nat, nat)>, cls: StoreClass)

  datatype FetchStmt =
    | FetchBit(varNum: nat, bit: nat)
    | FetchFlags(guard: Option<(nat, nat)>, varNum: nat)
    | FetchField(guard: Option<(nat, nat)>, cls: FetchClass)

  // ---------------------------------------------------------------- classes of a type

  /** The size of the C++ type that holds a number. */
  function Width(name: Name): Option<nat> {
    match name
    case Sharp => Some(4)
    case Int => Some(4)
    case Int32 => Some(4)
    case Long => Some(8)
    case Int53 => Some(8)
    case Int64 => Some(8)
    case Double => Some(8)
    case Int128 => Some(16)
    case Int256 => Some(32)
    case Int512 => Some(64)
    case _ => None
  }

  predicate IsText(name: Name) {
    name == String || name == Bytes || name == SecureString || name == SecureBytes
  }

  /** `gen_store_class_name`. */
  function StoreClassOf(schema: Schema, tree: Tree): Option<StoreClass>
    decreases tree, 0
  {
    if !tree.Type? || tree.t >= |schema| then None
    else
      var info := schema[tree.t];
      if Width(info.name).Some? then Some(StoreBinary(Width(info.name).value))
      else if info.name == Bool then Some(StoreBool)
      else if info.name == True then None
      else if IsText(info.name) then Some(StoreText)
      else if info.name == Vector then
        if info.arity != 1 || |tree.children| != 1 then None
        else
          var child := FullStoreClass(schema, tree.children[0]);
          if child.None? then None else Some(StoreVector(child.value))
      else if tree.children != [] then None
      else Some(StoreObject(tree.t))
  }

  /** `gen_full_store_class_name`. */
  function FullStoreClass(schema: Schema, tree: Tree): Option<StoreClass>
    decreases tree, 1
  {
    if !tree.Type? || tree.t >= |schema| || schema[tree.t].defaultConstructor then None
    else
      var info := schema[tree.t];
      var plain := StoreClassOf(schema, tree);
      if plain.None? then None
      else if tree.bare || info.name == Sharp || info.name == Bool then plain
      else if info.name == Vector then
        if info.constructors == [] then None else Some(StoreBoxed(plain.value, info.constructors[0].id))
      else if !IsTypeBare(info) then Some(StoreBoxedUnknown(plain.value))
      else
        var c := FirstSupported(schema, info.constructors, 0);
        if c.None? then None else Some(StoreBoxed(plain.value, info.constructors[c.value].id))
  }

  /** `gen_fetch_class_name`; the parse library has no class for the type `True`. */
  function FetchClassOf(schema: Schema, tree: Tree): Option<FetchClass>
    decreases tree, 0
  {
    if !tree.Type? || tree.t >= |schema| then None
    else
      var info := schema[tree.t];
      match info.name
      case Sharp => Some(FetchBinary(4))
      case Int32 => Some(FetchBinary(4))
      case Int53 => Some(FetchBinary(8))
      case Int64 => Some(FetchBinary(8))
      case True => None
      case Bool => Some(FetchBool)
      case Int => Some(FetchBinary(4))
      case Long => Some(FetchBinary(8))
      case Double => Some(FetchBinary(8))
      case Int128 => Some(FetchBinary(16))
      case Int256 => Some(FetchBinary(32))
      case Int512 => Some(FetchBinary(64))
      case String => Some(FetchText)
      case Bytes => Some(FetchText)
      case SecureString => Some(FetchText)
      case SecureBytes => Some(FetchText)
      case Vector =>
        if info.arity != 1 || |tree.children| != 1 then None
        else
          var child := FullFetchClass(schema, tree.children[0]);
          if child.None? then None else Some(FetchVector(child.value))
      case User(_) =>
        if tree.children != [] then None else Some(FetchObject(tree.t))
  }

  /** The loop over the constructors: the identifier of the only one that counts, 0 if there is
      none; a second one fails an assertion. */
  function ExpectedId(schema: Schema, info: TypeInfo, j: nat): (r: Option<nat>)
    requires j <= |info.constructors|
  {
    if j == 0 then Some(0)
    else
      var before := ExpectedId(schema, info, j - 1);
      var c := info.constructors[j - 1];
      if before.None? then None
      else if info.name == Vector || IsCombinatorSupported(schema, c) then
        if before.value != 0 || c.id == 0 then None else Some(c.id)
      else before
  }

  /** `gen_full_fetch_class_name`. */
  function FullFetchClass(schema: Schema, tree: Tree): Option<FetchClass>
    decreases tree, 1
  {
    if !tree.Type? || tree.t >= |schema| || schema[tree.t].defaultConstructor then None
    else
      var info := schema[tree.t];
      if tree.bare && !IsTypeBare(info) then None
      else
        var id := if !tree.bare && IsTypeBare(info) then ExpectedId(schema, info, |info.constructors|) else Some(0);
        var plain := FetchClassOf(schema, tree);
        if id.None? || plain.None? then None
        else if id.value == 0 then plain
        else Some(FetchBoxed(plain.value, id.value))
  }

  // ---------------------------------------------------------------- fields

  predicate IsTrueType(schema: Schema, tree: Tree) {
    tree.Type? && tree.t < |schema| && schema[tree.t].name == True
  }

  predicate IsSharp(schema: Schema, tree: Tree) {
    tree.Type? && tree.t < |schema| && schema[tree.t].name == Sharp
  }

  /** The guard variable exists and is already known. */
  predicate GuardKnown(guard: Option<(nat, nat)>, stored: seq<bool>) {
    guard.Some? ==> guard.value.0 < |stored| && stored[guard.value.0]
  }

  /** The flags kept in variable `n`: fields of type `True` and their bits, from field `j` on. */
  function FlagsOf(schema: Schema, args: seq<Arg>, n: nat, j: nat): (bits: seq<(nat, nat)>)
    ensures forall b :: b in bits <==> j <= b.0 < |args| && IsFlagOf(schema, args[b.0], n, b.1)
    decreases |args| - j
  {
    if j >= |args| then []
    else
      var a := args[j];
      var tail := FlagsOf(schema, args, n, j + 1);
      if a.guard.Some? && IsFlagOf(schema, a, n, a.guard.value.1) then [(j, a.guard.value.1)] + tail else tail
  }

  predicate IsFlagOf(schema: Schema, a: Arg, n: nat, bit: nat) {
    a.guard == Some((n, bit)) && IsTrueType(schema, a.tree) && !a.optVar
  }

  /** `gen_field_store`: the statement, and the variables known after it. */
  function FieldStore(schema: Schema, args: seq<Arg>, k: nat, stored: seq<bool>): (r: Option<(StoreStmt, seq<bool>)>)
    requires k < |args|
    ensures r.Some? ==> |r.value.1| == |stored|
  {
    var a := args[k];
    if a.tree.VarType? || a.excl || a.optVar || !GuardKnown(a.guard, stored) then None
    else if a.guard.Some? && a.varNum.None? && IsTrueType(schema, a.tree) then Some((StoreNothing, stored))
    else
      var cls := FullStoreClass(schema, a.tree);
      if cls.None? then None
      else if a.varNum.None? then Some((StoreField(a.guard, cls.value), stored))
      else
        var n := a.varNum.value;
        if !IsSharp(schema, a.tree) || n >= |stored| || stored[n] then None
        else Some((StoreFlags(a.guard, n, FlagsOf(schema, args, n, 0)), stored[n := true]))
  }

  /** `gen_field_fetch`. */
  function FieldFetch(schema: Schema, args: seq<Arg>, k: nat, stored: seq<bool>): (r: Option<(FetchStmt, seq<bool>)>)
    requires k < |args|
    ensures r.Some? ==> |r.value.1| == |stored|
  {
    var a := args[k];
    if a.tree.VarType? || a.excl || a.optVar || !GuardKnown(a.guard, stored) then None
    else if a.guard.Some? && a.varNum.None? && IsTrueType(schema, a.tree) && a.tree.bare then
      if !IsTypeBare(schema[a.tree.t]) then None
      else Some((FetchBit(a.guard.value.0, a.guard.value.1), stored))
    else
      var cls := FullFetchClass(schema, a.tree);
      if cls.None? then None
      else if a.varNum.None? then Some((FetchField(a.guard, cls.value), stored))
      else
        var n := a.varNum.value;
        if !IsSharp(schema, a.tree) || n >= |stored| || stored[n] then None
        else Some((FetchFlags(a.guard, n), stored[n := true]))
  }

  function AllUnknown(n: nat): (s: seq<bool>)
    ensures |s| == n
  {
    seq(n, _ => false)
  }

  /** The statements of the first `k` fields, and the variables known after them. */
  function StorePrefix(schema: Schema, c: Combinator, k: nat): (r: Option<(seq<StoreStmt>, seq<bool>)>)
    requires k <= |c.args|
    ensures r.Some? ==> |r.value.0| == k && |r.value.1| == c.varCount
  {
    if k == 0 then Some(([], AllUnknown(c.varCount)))
    else
      var before := StorePrefix(schema, c, k - 1);
      if before.None? then None
      else
        var one := FieldStore(schema, c.args, k - 1, before.value.1);
        if one.None? then None else Some((before.value.0 + [one.value.0], one.value.1))
  }

  function FetchPrefix(schema: Schema, c: Combinator, k: nat): (r: Option<(seq<FetchStmt>, seq<bool>)>)
    requires k <= |c.args|
    ensures r.Some? ==> |r.value.0| == k && |r.value.1| == c.varCount
  {
    if k == 0 then Some(([], AllUnknown(c.varCount)))
    else
      var before := FetchPrefix(schema, c, k - 1);
      if before.None? then None
      else
        var one := FieldFetch(schema, c.args, k - 1, before.value.1);
        if one.None? then None else Some((before.value.0 + [one.value.0], one.value.1))
  }

  /** The store function of a constructor; at the end every variable must be known. */
  function StoreProgram(schema: Schema, c: Combinator): (r: Option<seq<StoreStmt>>)
    ensures r.Some? ==> |r.value| == |c.args|
  {
    var p := StorePrefix(schema, c, |c.args|);
    if p.None? || false in p.value.1 then None else Some(p.value.0)
  }

  function FetchProgram(schema: Schema, c: Combinator): (r: Option<seq<FetchStmt>>)
    ensures r.Some? ==> |r.value| == |c.args|
  {
    var p := FetchPrefix(schema, c, |c.args|);
    if p.None? || false in p.value.1 then None else Some(p.value.0)
  }

  // ---------------------------------------------------------------- the two halves agree

  /** `simple_constructors` counts the supported constructors. */
  function SupportedCount(schema: Schema, cs: seq<Combinator>): nat {
    if cs == [] then 0
    else SupportedCount(schema, cs[..|cs| - 1]) + if IsCombinatorSupported(schema, cs[|cs| - 1]) then 1 else 0
  }

  /** A schema as the front end delivers it: for types that are neither built-in templates nor
      complex the count is right, `#` has no constructors, `Bool` has two, others at least one. */
  ghost predicate WellFormed(schema: Schema) {
    forall t :: 0 <= t < |schema| ==> WellFormedType(schema, schema[t])
  }

  ghost predicate WellFormedType(schema: Schema, info: TypeInfo) {
    info.name != Vector && !info.complex ==>
      && info.simpleConstructors == SupportedCount(schema, info.constructors)
      && (info.name == Sharp ==> info.constructors == [])
      && (info.name == Bool ==> info.simpleConstructors == 2)
      && (info.name.User? ==> info.simpleConstructors > 0)
  }

  /** The same shape on the wire: the same widths, the same boxing, the same identifiers; an
      object of unknown constructor is fetched by the class that looks at the identifier. */
  predicate Agree(schema: Schema, s: StoreClass, f: FetchClass) {
    match s
    case StoreBinary(width) => f == FetchBinary(width)
    case StoreBool => f == FetchBool
    case StoreText => f == FetchText
    case StoreVector(elem) => f.FetchVector? && Agree(schema, elem, f.elem)
    case StoreObject(t) => f == FetchObject(t) && IsGenerated(schema, t) && schema[t].simpleConstructors == 1
    case StoreBoxed(inner, id) => f.FetchBoxed? && f.id == id && Agree(schema, inner, f.inner)
    case StoreBoxedUnknown(inner) =>
      && inner.StoreObject? && f == FetchObject(inner.t)
      && IsGenerated(schema, inner.t) && schema[inner.t].simpleConstructors > 1
  }

  /** Classes are generated for the type's constructors. */
  predicate IsGenerated(schema: Schema, t: nat) {
    t < |schema| && schema[t].name.User? && !schema[t].complex
  }

  lemma {:induction false} CountZero(schema: Schema, info: TypeInfo, j: nat)
    requires j <= |info.constructors| && info.name != Vector
    ensures SupportedCount(schema, info.constructors[..j]) == 0 ==> ExpectedId(schema, info, j) == Some(0)
    ensures SupportedCount(schema, info.constructors[..j]) == 0 <==>
      forall k :: 0 <= k < j ==> !IsCombinatorSupported(schema, info.constructors[k])
  {
    hide IsCombinatorSupported;
    if j > 0 {
      CountZero(schema, info, j - 1);
      assert info.constructors[..j][..j - 1] == info.constructors[..j - 1];
    }
  }

  /** What the fetch half expects, when it expects anything, is the first supported constructor. */
  lemma {:induction false} ExpectedIsFirst(schema: Schema, info: TypeInfo, j: nat)
    requires j <= |info.constructors| && info.name != Vector
    requires ExpectedId(schema, info, j).Some?
    ensures var first := FirstSupported(schema, info.constructors, 0);
      ExpectedId(schema, info, j).value
        == if first.Some? && first.value < j then info.constructors[first.value].id else 0
    ensures var first := FirstSupported(schema, info.constructors, 0);
      first.Some? && first.value < j ==> ExpectedId(schema, info, j).value != 0
  {
    hide IsCombinatorSupported;
    if j > 0 {
      ExpectedIsFirst(schema, info, j - 1);
    }
  }

  lemma VectorId(schema: Schema, info: TypeInfo)
    requires info.name == Vector && info.constructors != []
    requires ExpectedId(schema, info, |info.constructors|).Some?
    ensures ExpectedId(schema, info, |info.constructors|).value == info.constructors[0].id != 0
  {
    hide IsCombinatorSupported;
    VectorCount(schema, info, |info.constructors|);
  }

  lemma {:induction false} VectorCount(schema: Schema, info: TypeInfo, j: nat)
    requires info.name == Vector && 0 < j <= |info.constructors|
    requires ExpectedId(schema, info, j).Some?
    ensures j == 1 && ExpectedId(schema, info, j).value == info.constructors[0].id != 0
  {
    hide IsCombinatorSupported;
    if j > 1 {
      VectorCount(schema, info, j - 1);
    } else {
      assert ExpectedId(schema, info, 0) == Some(0);
    }
  }

  lemma CountFacts(schema: Schema, info: TypeInfo)
    requires info.name != Vector && !info.complex && WellFormedType(schema, info)
    ensures var first := FirstSupported(schema, info.constructors, 0);
      first.Some? <==> info.simpleConstructors > 0
  {
    hide IsCombinatorSupported;
    CountZero(schema, info, |info.constructors|);
    assert info.constructors[..|info.constructors|] == info.constructors;
  }

  lemma VectorParts(schema: Schema, tree: Tree)
    requires StoreClassOf(schema, tree).Some? && FetchClassOf(schema, tree).Some?
    requires schema[tree.t].name == Vector
    ensures |tree.children| == 1
    ensures var child := tree.children[0];
      && child.Type? && FullStoreClass(schema, child).Some? && FullFetchClass(schema, child).Some?
      && StoreClassOf(schema, tree) == Some(StoreVector(FullStoreClass(schema, child).value))
      && FetchClassOf(schema, tree) == Some(FetchVector(FullFetchClass(schema, child).value))
  {
    assert FullStoreClass(schema, tree.children[0]).Some?;
  }

  lemma PlainHalves(schema: Schema, tree: Tree)
    requires tree.Type? && tree.t < |schema| && schema[tree.t].name != Vector
    requires StoreClassOf(schema, tree).Some? && FetchClassOf(schema, tree).Some?
    ensures var s, f := StoreClassOf(schema, tree).value, FetchClassOf(schema, tree).value;
      if schema[tree.t].name.User? then s == StoreObject(tree.t) && f == FetchObject(tree.t)
      else Agree(schema, s, f) && !s.StoreObject? && !s.StoreVector?
  {
  }

  /** Whenever both halves can be generated, they choose the same boxing and the same constructor
      identifiers, all the way down. */
  lemma {:induction false} HalvesAgree(schema: Schema, tree: Tree)
    requires WellFormed(schema) && IsTypeSupported(schema, tree)
    requires FullStoreClass(schema, tree).Some? && FullFetchClass(schema, tree).Some?
    ensures Agree(schema, FullStoreClass(schema, tree).value, FullFetchClass(schema, tree).value)
    decreases tree
  {
    hide IsCombinatorSupported;
    hide StoreClassOf;
    hide FetchClassOf;
    var info := schema[tree.t];
    assert WellFormedType(schema, info);
    if info.name == Vector {
      VectorParts(schema, tree);
      assert IsChildSupported(schema, tree.children[0]);
      HalvesAgree(schema, tree.children[0]);
      if !tree.bare {
        VectorId(schema, info);
      }
    } else {
      PlainHalves(schema, tree);
      CountFacts(schema, info);
      if !tree.bare && IsTypeBare(info) {
        ExpectedIsFirst(schema, info, |info.constructors|);
      }
    }
  }

  // ---------------------------------------------------------------- the two programs agree

  /** The field among the first `k` that defines variable `n`. */
  function Definer(args: seq<Arg>, n: nat, k: nat): (r: Option<nat>)
    requires k <= |args|
    ensures r.Some? ==> r.value < k && args[r.value].varNum == Some(n)
  {
    if k == 0 then None
    else if args[k - 1].varNum == Some(n) then Some(k - 1)
    else Definer(args, n, k - 1)
  }

  predicate IsFlag(schema: Schema, a: Arg) {
    a.guard.Some? && a.varNum.None? && IsTrueType(schema, a.tree)
  }

  /** One field's statements fit each other and the field. */
  predicate StmtsAgree(schema: Schema, args: seq<Arg>, k: nat, s: StoreStmt, f: FetchStmt)
    requires k < |args|
  {
    var a := args[k];
    && !a.optVar
    && match s
       case StoreNothing => IsFlag(schema, a) && f == FetchBit(a.guard.value.0, a.guard.value.1)
       case StoreFlags(guard, n, bits) =>
         && f == FetchFlags(guard, n) && a.varNum == Some(n) && guard == a.guard
         && bits == FlagsOf(schema, args, n, 0) && IsSharp(schema, a.tree)
       case StoreField(guard, cls) =>
         && !IsFlag(schema, a) && a.varNum.None? && guard == a.guard
         && f.FetchField? && f.guard == guard && Agree(schema, cls, f.cls)
  }

  /** Every variable is defined once, and before the fields it guards. */
  ghost predicate Regular(args: seq<Arg>, k: nat, varCount: nat)
    requires k <= |args|
  {
    forall j :: 0 <= j < k ==> RegularAt(args, j, varCount)
  }

  predicate RegularAt(args: seq<Arg>, j: nat, varCount: nat)
    requires j < |args|
  {
    && (args[j].varNum.Some? ==> args[j].varNum.value < varCount && Definer(args, args[j].varNum.value, j).None?)
    && (args[j].guard.Some? ==> Definer(args, args[j].guard.value.0, j).Some?)
  }

  lemma NoTrueClass(schema: Schema, tree: Tree)
    requires IsTrueType(schema, tree)
    ensures FullFetchClass(schema, tree).None?
  {
    assert FetchClassOf(schema, tree).None?;
  }

  lemma FieldAgrees(schema: Schema, args: seq<Arg>, k: nat, stored: seq<bool>)
    requires k < |args| && WellFormed(schema) && IsArgSupported(schema, args[k].tree)
    requires FieldStore(schema, args, k, stored).Some? && FieldFetch(schema, args, k, stored).Some?
    ensures FieldStore(schema, args, k, stored).value.1 == FieldFetch(schema, args, k, stored).value.1
    ensures StmtsAgree(schema, args, k,
      FieldStore(schema, args, k, stored).value.0, FieldFetch(schema, args, k, stored).value.0)
  {
    var a := args[k];
    if !IsFlag(schema, a) {
      HalvesAgree(schema, a.tree);
    } else if !a.tree.bare {
      NoTrueClass(schema, a.tree);
    }
  }

  lemma {:induction false} PrefixesAgree(schema: Schema, c: Combinator, k: nat)
    requires WellFormed(schema) && IsCombinatorSupported(schema, c) && k <= |c.args|
    requires StorePrefix(schema, c, k).Some? && FetchPrefix(schema, c, k).Some?
    ensures var (ss, stored) := StorePrefix(schema, c, k).value;
      && stored == FetchPrefix(schema, c, k).value.1
      && (forall n: nat :: n < |stored| ==> (stored[n] <==> Definer(c.args, n, k).Some?))
    ensures Regular(c.args, k, c.varCount)
    ensures forall j :: 0 <= j < k ==> StmtsAgree(schema, c.args, j,
      StorePrefix(schema, c, k).value.0[j], FetchPrefix(schema, c, k).value.0[j])
  {
    hide FieldStore;
    hide FieldFetch;
    hide StmtsAgree;
    hide RegularAt;
    if k > 0 {
      PrefixesAgree(schema, c, k - 1);
      var (ss, stored) := StorePrefix(schema, c, k - 1).value;
      assert IsArgSupported(schema, c.args[k - 1].tree);
      FieldAgrees(schema, c.args, k - 1, stored);
      FieldMarks(schema, c.args, k - 1, stored, c.varCount);
    }
  }

  lemma FieldMarks(schema: Schema, args: seq<Arg>, k: nat, stored: seq<bool>, varCount: nat)
    requires k < |args| && FieldStore(schema, args, k, stored).Some? && |stored| == varCount
    requires forall n: nat :: n < |stored| ==> (stored[n] <==> Definer(args, n, k).Some?)
    ensures var after := FieldStore(schema, args, k, stored).value.1;
      forall n: nat :: n < |after| ==> (after[n] <==> Definer(args, n, k + 1).Some?)
    ensures RegularAt(args, k, varCount)
  {
  }

  /** If both halves of a supported constructor can be generated, they agree field by field, and
      every variable is defined once and before its first use. */
  lemma ProgramsAgree(schema: Schema, c: Combinator)
    requires WellFormed(schema) && IsCombinatorSupported(schema, c)
    requires StoreProgram(schema, c).Some? && FetchProgram(schema, c).Some?
    ensures Regular(c.args, |c.args|, c.varCount)
    ensures forall j :: 0 <= j < |c.args| ==>
      StmtsAgree(schema, c.args, j, StoreProgram(schema, c).value[j], FetchProgram(schema, c).value[j])
  {
    PrefixesAgree(schema, c, |c.args|);
  }

  /** In any store half, `#` field `k` is combined with exactly the fields of type `True`, bare or
      boxed, that are conditional on its variable. */
  lemma StoredFlags(schema: Schema, c: Combinator, k: nat, i: nat, bit: nat)
    requires StoreProgram(schema, c).Some? && k < |c.args| && c.args[k].varNum.Some? && i < |c.args|
    ensures var stmt, n := StoreProgram(schema, c).value[k], c.args[k].varNum.value;
      stmt.StoreFlags? && stmt.varNum == n
      && ((i, bit) in stmt.bits <==>
            && c.args[i].guard == Some((n, bit)) && c.args[i].tree.Type? && c.args[i].tree.t < |schema|
            && schema[c.args[i].tree.t].name == True)
  {
    PrefixFlags(schema, c, |c.args|, k);
    PrefixPlain(schema, c, |c.args|, i);
  }

  lemma {:induction false} PrefixFlags(schema: Schema, c: Combinator, j: nat, k: nat)
    requires k < j <= |c.args| && StorePrefix(schema, c, j).Some? && c.args[k].varNum.Some?
    ensures StorePrefix(schema, c, j).value.0[k]
      == StoreFlags(c.args[k].guard, c.args[k].varNum.value, FlagsOf(schema, c.args, c.args[k].varNum.value, 0))
  {
    hide FullStoreClass;
    hide FlagsOf;
    if k < j - 1 {
      PrefixFlags(schema, c, j - 1, k);
    }
  }

  lemma {:induction false} PrefixPlain(schema: Schema, c: Combinator, j: nat, i: nat)
    requires i < j <= |c.args| && StorePrefix(schema, c, j).Some?
    ensures !c.args[i].optVar
  {
    hide FullStoreClass;
    hide FlagsOf;
    if i < j - 1 {
      PrefixPlain(schema, c, j - 1, i);
    }
  }

  /** A conditional flag whose type is boxed is skipped by the store half and has no fetch half. */
  lemma BoxedFlagHasNoFetch(schema: Schema, c: Combinator, k: nat)
    requires k < |c.args| && IsFlag(schema, c.args[k]) && !c.args[k].tree.bare
    ensures FetchProgram(schema, c).None?
  {
    NoFetchFrom(schema, c, k, |c.args|);
  }

  lemma {:induction false} NoFetchFrom(schema: Schema, c: Combinator, k: nat, j: nat)
    requires k < j <= |c.args| && IsFlag(schema, c.args[k]) && !c.args[k].tree.bare
    ensures FetchPrefix(schema, c, j).None?
  {
    if j > k + 1 {
      NoFetchFrom(schema, c, k, j - 1);
    } else {
      NoTrueClass(schema, c.args[k].tree);
    }
  }

  // ---------------------------------------------------------------- when the fetch half exists

  /** The fetch half looks at this constructor for the identifier of a boxed value. */
  predicate Considered(schema: Schema, info: TypeInfo, j: nat)
    requires j < |info.constructors|
  {
    info.name == Vector || IsCombinatorSupported(schema, info.constructors[j])
  }

  /** At most one of the first `n` constructors is considered, and its identifier is not 0. */
  predicate AtMostOneId(schema: Schema, info: TypeInfo, n: nat)
    requires n <= |info.constructors|
  {
    && (forall j :: 0 <= j < n && Considered(schema, info, j) ==> info.constructors[j].id != 0)
    && (forall i, j :: 0 <= i < j < n && Considered(schema, info, i) ==> !Considered(schema, info, j))
  }

  /** Bare only where the type can be, one identifier where the box needs it, and so inside
      vectors. */
  predicate Fetchable(schema: Schema, tree: Tree) {
    tree.Type? && tree.t < |schema| &&
    var info := schema[tree.t];
    && (tree.bare ==> IsTypeBare(info))
    && (!tree.bare && IsTypeBare(info) ==> AtMostOneId(schema, info, |info.constructors|))
    && (info.name == Vector ==> tree.children != [] && Fetchable(schema, tree.children[0]))
  }

  lemma {:induction false} ExpectedIdIff(schema: Schema, info: TypeInfo, n: nat)
    requires n <= |info.constructors|
    ensures ExpectedId(schema, info, n).Some? <==> AtMostOneId(schema, info, n)
    ensures ExpectedId(schema, info, n).Some? ==>
      (ExpectedId(schema, info, n).value != 0 <==> exists j :: 0 <= j < n && Considered(schema, info, j))
  {
    hide IsCombinatorSupported;
    if n > 0 {
      ExpectedIdIff(schema, info, n - 1);
      if !Considered(schema, info, n - 1) {
        assert AtMostOneId(schema, info, n) <==> AtMostOneId(schema, info, n - 1);
      } else if ExpectedId(schema, info, n - 1) == Some(0) {
        assert forall j :: 0 <= j < n - 1 ==> !Considered(schema, info, j);
      }
    }
  }

  lemma {:induction false} FetchClassIff(schema: Schema, tree: Tree)
    requires FullStoreClass(schema, tree).Some?
    ensures FullFetchClass(schema, tree).Some? <==> Fetchable(schema, tree)
    decreases tree
  {
    hide IsCombinatorSupported;
    hide AtMostOneId;
    var info := schema[tree.t];
    ExpectedIdIff(schema, info, |info.constructors|);
    if info.name == Vector {
      assert FullStoreClass(schema, tree.children[0]).Some?;
      FetchClassIff(schema, tree.children[0]);
    }
  }

  /** A flag must be bare; any other field must be of a fetchable type. */
  predicate HasFetch(schema: Schema, a: Arg) {
    if IsFlag(schema, a) then a.tree.bare else Fetchable(schema, a.tree)
  }

  lemma FieldFetchIff(schema: Schema, args: seq<Arg>, k: nat, stored: seq<bool>)
    requires k < |args| && FieldStore(schema, args, k, stored).Some?
    ensures FieldFetch(schema, args, k, stored).Some? <==> HasFetch(schema, args[k])
    ensures FieldFetch(schema, args, k, stored).Some? ==>
      FieldFetch(schema, args, k, stored).value.1 == FieldStore(schema, args, k, stored).value.1
  {
    hide Fetchable;
    var a := args[k];
    if !IsFlag(schema, a) {
      FetchClassIff(schema, a.tree);
    } else if !a.tree.bare {
      NoTrueClass(schema, a.tree);
    }
  }

  lemma {:induction false} FetchPrefixIff(schema: Schema, c: Combinator, k: nat)
    requires k <= |c.args| && StorePrefix(schema, c, k).Some?
    ensures FetchPrefix(schema, c, k).Some? <==> forall j :: 0 <= j < k ==> HasFetch(schema, c.args[j])
    ensures FetchPrefix(schema, c, k).Some? ==> FetchPrefix(schema, c, k).value.1 == StorePrefix(schema, c, k).value.1
  {
    hide FieldStore;
    hide FieldFetch;
    hide HasFetch;
    if k > 0 {
      FetchPrefixIff(schema, c, k - 1);
      FieldFetchIff(schema, c.args, k - 1, StorePrefix(schema, c, k - 1).value.1);
    }
  }

  /** A constructor that can be stored can be fetched exactly when each of its flags is bare and
      each other field's type is fetchable. */
  lemma FetchExistsIff(schema: Schema, c: Combinator)
    requires StoreProgram(schema, c).Some?
    ensures FetchProgram(schema, c).Some? <==> forall k :: 0 <= k < |c.args| ==> HasFetch(schema, c.args[k])
  {
    FetchPrefixIff(schema, c, |c.args|);
  }
}
