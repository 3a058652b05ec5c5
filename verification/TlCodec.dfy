/**
  Running the generated programs: what they write for a value, and what they read back. `None`
  is a run that fails: a value the C++ type cannot hold, an aborted store, a parser error.
 */
module TlCodec {
  import opened Options
  import opened Bytes
  import opened TlStrings
  import opened Bits
  import opened TlGenerator

  const BOOL_FALSE: nat := 0xbc799737
  const BOOL_TRUE: nat := 0x997275b5
  const MAX_ITEMS: nat := 0x8000_0000
  const NEGATIVE: nat := 0x8000_0000

  /** Values of the generated C++ types; a number is its bit pattern, an object knows its
      constructor, a reference can be null. */
  datatype Value =
    | Number(n: nat)
    | Truth(b: bool)
    | Text(text: seq<byte>)
    | List(items: seq<Value>)
    | Object(t: nat, c: nat, fields: seq<Value>)
    | Null

  // ---------------------------------------------------------------- flags

  /** The `#` field combined with the flags among the other fields. */
  function Fold(word: nat, bits: seq<(nat, nat)>, fields: seq<Value>): nat
    requires forall b :: b in bits ==> b.0 < |fields|
  {
    if bits == [] then word
    else
      assert bits[0] in bits;
      var rest := Fold(word, bits[1..], fields);
      if fields[bits[0].0] == Truth(true) then SetBit(rest, bits[0].1) else rest
  }

  predicate Off(guard: Option<(nat, nat)>, vars: seq<nat>) {
    guard.Some? && (guard.value.0 >= |vars| || !Bit(vars[guard.value.0], guard.value.1))
  }

  predicate FlagsTyped(fields: seq<Value>, bits: seq<(nat, nat)>) {
    forall b :: b in bits ==> b.0 < |fields| && fields[b.0].Truth?
  }

  // ---------------------------------------------------------------- store

  function Join(head: Option<seq<byte>>, tail: Option<seq<byte>>): Option<seq<byte>> {
    if head.None? || tail.None? then None else Some(head.value + tail.value)
  }

  /** The object is one of a supported constructor of its type. */
  predicate IsObject(schema: Schema, v: Value) {
    && v.Object? && v.t < |schema| && v.c < |schema[v.t].constructors|
    && IsCombinatorSupported(schema, schema[v.t].constructors[v.c])
    && |v.fields| == |schema[v.t].constructors[v.c].args|
  }

  function Constructor(schema: Schema, v: Value): Combinator
    requires IsObject(schema, v)
  {
    schema[v.t].constructors[v.c]
  }

  function StoreValue(schema: Schema, cls: StoreClass, v: Value): Option<seq<byte>>
    decreases v, 1, cls
  {
    match cls
    case StoreBinary(width) => if v.Number? && v.n < Pow256(width) then Some(Le(v.n, width)) else None
    case StoreBool => if v.Truth? then Some(Le(if v.b then BOOL_TRUE else BOOL_FALSE, 4)) else None
    case StoreText => if v.Text? then StoreString(v.text) else None
    case StoreVector(elem) =>
      if !v.List? || |v.items| >= MAX_ITEMS then None
      else Join(Some(Le(|v.items|, 4)), StoreItems(schema, elem, v.items))
    case StoreObject(t) =>
      if !IsObject(schema, v) || v.t != t then None
      else
        var program := StoreProgram(schema, Constructor(schema, v));
        if program.None? then None
        else StoreFields(schema, program.value, v.fields, 0, Zeros(Constructor(schema, v).varCount))
    case StoreBoxed(inner, id) => Join(Some(Le(id, 4)), StoreValue(schema, inner, v))
    case StoreBoxedUnknown(inner) =>
      if !IsObject(schema, v) then None
      else Join(Some(Le(Constructor(schema, v).id, 4)), StoreValue(schema, inner, v))
  }

  function StoreItems(schema: Schema, elem: StoreClass, items: seq<Value>): Option<seq<byte>>
    decreases items, 0
  {
    if items == [] then Some([])
    else Join(StoreValue(schema, elem, items[0]), StoreItems(schema, elem, items[1..]))
  }

  /** The statements from field `k` on. */
  function StoreFields(schema: Schema, program: seq<StoreStmt>, fields: seq<Value>, k: nat, vars: seq<nat>)
    : Option<seq<byte>>
    requires k <= |fields| == |program|
    decreases fields, 0, |fields| - k
  {
    if k == |fields| then Some([])
    else
      match program[k]
      case StoreNothing => StoreFields(schema, program, fields, k + 1, vars)
      case StoreFlags(guard, n, bits) =>
        if Off(guard, vars) then StoreFields(schema, program, fields, k + 1, vars)
        else if n >= |vars| || !fields[k].Number? || !FlagsTyped(fields, bits) then None
        else
          var word := Fold(fields[k].n, bits, fields);
          if word >= Pow256(4) then None
          else Join(Some(Le(word, 4)), StoreFields(schema, program, fields, k + 1, vars[n := word]))
      case StoreField(guard, cls) =>
        if Off(guard, vars) then StoreFields(schema, program, fields, k + 1, vars)
        else Join(StoreValue(schema, cls, fields[k]), StoreFields(schema, program, fields, k + 1, vars))
  }

  // ---------------------------------------------------------------- fetch

  function FindId(schema: Schema, cs: seq<Combinator>, id: nat, j: nat): (r: Option<nat>)
    ensures r.Some? ==> j <= r.value < |cs| && IsCombinatorSupported(schema, cs[r.value]) && cs[r.value].id == id
    ensures r.None? ==> forall k :: j <= k < |cs| ==> !(IsCombinatorSupported(schema, cs[k]) && cs[k].id == id)
    decreases |cs| - j
  {
    if j >= |cs| then None
    else if IsCombinatorSupported(schema, cs[j]) && cs[j].id == id then Some(j)
    else FindId(schema, cs, id, j + 1)
  }

  /** What a field that is not there is set to. */
  function Default(schema: Schema, tree: Tree): Value {
    if !tree.Type? || tree.t >= |schema| then Null
    else
      var name := schema[tree.t].name;
      if Width(name).Some? then Number(0)
      else if name == Bool || name == True then Truth(false)
      else if IsText(name) then Text([])
      else if name == Vector then List([])
      else Null
  }

  /** The value read and the bytes that follow it. `fuel` bounds the nesting of objects. */
  function FetchValue(schema: Schema, fuel: nat, cls: FetchClass, s: seq<byte>): Option<(Value, seq<byte>)>
    decreases fuel, 0, cls, 0
  {
    match cls
    case FetchBinary(width) =>
      var r := Take(s, width);
      if r.None? then None else Some((Number(r.value.0), r.value.1))
    case FetchBool =>
      var r := Take(s, 4);
      if r.None? || (r.value.0 != BOOL_TRUE && r.value.0 != BOOL_FALSE) then None
      else Some((Truth(r.value.0 == BOOL_TRUE), r.value.1))
    case FetchText =>
      var r := FetchString(s);
      if r.None? then None else Some((Text(r.value.0), r.value.1))
    case FetchVector(elem) =>
      var r := Take(s, 4);
      if r.None? || |r.value.1| < r.value.0 then None
      else
        var items := FetchItems(schema, fuel, elem, r.value.0, r.value.1);
        if items.None? then None else Some((List(items.value.0), items.value.1))
    case FetchObject(t) =>
      if fuel == 0 || t >= |schema| then None
      else if schema[t].simpleConstructors == 1 then
        var c := FirstSupported(schema, schema[t].constructors, 0);
        if c.None? then None else FetchConstructor(schema, fuel - 1, t, c.value, s)
      else
        var id := Take(s, 4);
        if id.None? then None
        else
          var c := FindId(schema, schema[t].constructors, id.value.0, 0);
          if c.None? then None else FetchConstructor(schema, fuel - 1, t, c.value, id.value.1)
    case FetchBoxed(inner, id) =>
      var r := Take(s, 4);
      if r.None? || r.value.0 != id then None else FetchValue(schema, fuel, inner, r.value.1)
  }

  function FetchItems(schema: Schema, fuel: nat, elem: FetchClass, n: nat, s: seq<byte>): Option<(seq<Value>, seq<byte>)>
    decreases fuel, 0, elem, n + 1
  {
    if n == 0 then Some(([], s))
    else
      var first := FetchValue(schema, fuel, elem, s);
      if first.None? then None
      else
        var rest := FetchItems(schema, fuel, elem, n - 1, first.value.1);
        if rest.None? then None else Some(([first.value.0] + rest.value.0, rest.value.1))
  }

  function FetchConstructor(schema: Schema, fuel: nat, t: nat, c: nat, s: seq<byte>): Option<(Value, seq<byte>)>
    requires t < |schema| && c < |schema[t].constructors|
    decreases fuel, 2
  {
    var comb := schema[t].constructors[c];
    var program := FetchProgram(schema, comb);
    if program.None? then None
    else
      var r := FetchFields(schema, fuel, comb.args, program.value, 0, Zeros(comb.varCount), s);
      if r.None? then None else Some((Object(t, c, r.value.0), r.value.1))
  }

  /** The statements from field `k` on. */
  function FetchFields(
    schema: Schema, fuel: nat, args: seq<Arg>, program: seq<FetchStmt>, k: nat, vars: seq<nat>, s: seq<byte>)
    : Option<(seq<Value>, seq<byte>)>
    requires k <= |args| == |program|
    decreases fuel, 1, |args| - k
  {
    if k == |args| then Some(([], s))
    else
      var one := FetchOne(schema, fuel, args, program[k], k, vars, s);
      if one.None? then None
      else
        var (value, vars', s') := one.value;
        var rest := FetchFields(schema, fuel, args, program, k + 1, vars', s');
        if rest.None? then None else Some(([value] + rest.value.0, rest.value.1))
  }

  function FetchOne(schema: Schema, fuel: nat, args: seq<Arg>, stmt: FetchStmt, k: nat, vars: seq<nat>, s: seq<byte>)
    : Option<(Value, seq<nat>, seq<byte>)>
    requires k < |args|
    decreases fuel, 1, 0
  {
    match stmt
    case FetchBit(n, bit) => Some((Truth(!Off(Some((n, bit)), vars)), vars, s))
    case FetchFlags(guard, n) =>
      if n >= |vars| then None
      else if Off(guard, vars) then Some((Number(0), vars[n := 0], s))
      else
        var r := Take(s, 4);
        if r.None? || r.value.0 >= NEGATIVE then None
        else Some((Number(r.value.0), vars[n := r.value.0], r.value.1))
    case FetchField(guard, cls) =>
      if Off(guard, vars) then Some((Default(schema, args[k].tree), vars, s))
      else
        var r := FetchValue(schema, fuel, cls, s);
        if r.None? then None else Some((r.value.0, vars, r.value.1))
  }

  // ---------------------------------------------------------------- what comes back

  /** The value of the variable that field `k` defines. */
  function Word(schema: Schema, args: seq<Arg>, fields: seq<Value>, k: nat): nat
    requires k < |args| == |fields|
  {
    if args[k].varNum.Some? && fields[k].Number? then
      Fold(fields[k].n, FlagsOf(schema, args, args[k].varNum.value, 0), fields)
    else 0
  }

  function WordOf(schema: Schema, args: seq<Arg>, fields: seq<Value>, n: nat): nat
    requires |args| == |fields|
  {
    var d := Definer(args, n, |args|);
    if d.None? then 0 else Word(schema, args, fields, d.value)
  }

  /** The field's bit is set in the word of its variable. */
  predicate Present(schema: Schema, args: seq<Arg>, fields: seq<Value>, k: nat)
    requires k < |args| == |fields|
  {
    args[k].guard.Some? ==> Bit(WordOf(schema, args, fields, args[k].guard.value.0), args[k].guard.value.1)
  }

  /** A value with all flags combined into their words and absent fields set to defaults. */
  function Canon(schema: Schema, v: Value): Value
    decreases v, 1
  {
    match v
    case List(items) => List(CanonItems(schema, items))
    case Object(t, c, fields) =>
      if !IsObject(schema, v) then v else Object(t, c, CanonFields(schema, Constructor(schema, v).args, fields, 0))
    case _ => v
  }

  function CanonItems(schema: Schema, items: seq<Value>): (r: seq<Value>)
    ensures |r| == |items|
    decreases items, 0
  {
    if items == [] then [] else [Canon(schema, items[0])] + CanonItems(schema, items[1..])
  }

  function CanonFields(schema: Schema, args: seq<Arg>, fields: seq<Value>, k: nat): (r: seq<Value>)
    requires k <= |args| == |fields|
    ensures |r| == |fields| - k
    ensures forall i :: 0 <= i < |r| ==> r[i] == CanonField(schema, args, fields, k + i)
    decreases fields, 1, |fields| - k
  {
    if k == |args| then []
    else [CanonField(schema, args, fields, k)] + CanonFields(schema, args, fields, k + 1)
  }

  function CanonField(schema: Schema, args: seq<Arg>, fields: seq<Value>, k: nat): Value
    requires k < |args| == |fields|
    decreases fields, 0, 0
  {
    if IsFlag(schema, args[k]) then Truth(Present(schema, args, fields, k))
    else if args[k].varNum.Some? then Number(Word(schema, args, fields, k))
    else if !Present(schema, args, fields, k) then Default(schema, args[k].tree)
    else Canon(schema, fields[k])
  }
}
