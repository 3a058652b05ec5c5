/** Fetch undoes store, for every schema the generator accepts and every value that can be stored. */
module TlRoundTrip {
  import opened Options
  import opened Bytes
  import opened TlStrings
  import opened Bits
  import opened TlGenerator
  import opened TlCodec

  // ---------------------------------------------------------------- what is assumed of a schema

  /** No `#` field is itself conditional. */
  predicate PlainArgs(args: seq<Arg>) {
    forall k :: 0 <= k < |args| ==> args[k].varNum.None? || args[k].guard.None?
  }

  /** The constructor's class compiles: both halves can be generated. */
  predicate IsReady(schema: Schema, c: Combinator) {
    IsCombinatorSupported(schema, c) ==>
      PlainArgs(c.args) && StoreProgram(schema, c).Some? && FetchProgram(schema, c).Some?
  }

  predicate DistinctIds(schema: Schema, cs: seq<Combinator>) {
    forall i, j :: 0 <= i < j < |cs| && IsCombinatorSupported(schema, cs[i]) && IsCombinatorSupported(schema, cs[j])
      ==> cs[i].id != cs[j].id
  }

  ghost predicate Ready(schema: Schema) {
    && WellFormed(schema)
    && forall t :: 0 <= t < |schema| ==> ReadyType(schema, schema[t])
  }

  ghost predicate ReadyType(schema: Schema, info: TypeInfo) {
    && DistinctIds(schema, info.constructors)
    && forall c :: 0 <= c < |info.constructors| ==> IsReady(schema, info.constructors[c])
  }

  // ---------------------------------------------------------------- which values survive

  /** Nesting of objects. */
  function Depth(v: Value): nat {
    match v
    case Object(_, _, fields) => 1 + DepthAll(fields)
    case List(items) => DepthAll(items)
    case _ => 0
  }

  function DepthAll(vs: seq<Value>): nat {
    if vs == [] then 0
    else
      var first, rest := Depth(vs[0]), DepthAll(vs[1..]);
      if first > rest then first else rest
  }

  lemma {:induction false} DepthAt(vs: seq<Value>, k: nat)
    requires k < |vs|
    ensures Depth(vs[k]) <= DepthAll(vs)
  {
    if k > 0 {
      DepthAt(vs[1..], k - 1);
    }
  }

  /** The two things the parser rejects: a vector with more elements than bytes left (`after` is
      what follows the value), and a flag word whose top bit makes it negative. */
  predicate Readable(schema: Schema, cls: StoreClass, v: Value, after: nat)
    requires StoreValue(schema, cls, v).Some?
    decreases v, 1, cls
  {
    match cls
    case StoreVector(elem) =>
      && |v.items| <= |StoreItems(schema, elem, v.items).value| + after
      && ReadableItems(schema, elem, v.items, after)
    case StoreObject(_) =>
      var c := Constructor(schema, v);
      ReadableFields(schema, StoreProgram(schema, c).value, v.fields, 0, Zeros(c.varCount), after)
    case StoreBoxed(inner, _) => Readable(schema, inner, v, after)
    case StoreBoxedUnknown(inner) => Readable(schema, inner, v, after)
    case _ => true
  }

  predicate ReadableItems(schema: Schema, elem: StoreClass, items: seq<Value>, after: nat)
    requires StoreItems(schema, elem, items).Some?
    decreases items, 0
  {
    items == [] || (
      && Readable(schema, elem, items[0], |StoreItems(schema, elem, items[1..]).value| + after)
      && ReadableItems(schema, elem, items[1..], after))
  }

  predicate ReadableFields(schema: Schema, program: seq<StoreStmt>, fields: seq<Value>, k: nat, vars: seq<nat>, after: nat)
    requires k <= |fields| == |program| && StoreFields(schema, program, fields, k, vars).Some?
    decreases fields, 0, |fields| - k
  {
    k == |fields| ||
    match program[k]
    case StoreNothing => ReadableFields(schema, program, fields, k + 1, vars, after)
    case StoreFlags(guard, n, bits) =>
      if Off(guard, vars) then ReadableFields(schema, program, fields, k + 1, vars, after)
      else
        var word := Fold(fields[k].n, bits, fields);
        word < NEGATIVE && ReadableFields(schema, program, fields, k + 1, vars[n := word], after)
    case StoreField(guard, cls) =>
      && (Off(guard, vars) || Readable(schema, cls, fields[k],
            |StoreFields(schema, program, fields, k + 1, vars).value| + after))
      && ReadableFields(schema, program, fields, k + 1, vars, after)
  }

  // ---------------------------------------------------------------- small steps

  lemma {:induction false} CountIsOne(schema: Schema, cs: seq<Combinator>, c: nat)
    requires c < |cs| && IsCombinatorSupported(schema, cs[c])
    ensures SupportedCount(schema, cs) > 0
    ensures SupportedCount(schema, cs) == 1 ==>
      forall k :: 0 <= k < |cs| && IsCombinatorSupported(schema, cs[k]) ==> k == c
  {
    hide IsCombinatorSupported;
    var n := |cs| - 1;
    if c < n {
      CountIsOne(schema, cs[..n], c);
    } else {
      forall k | 0 <= k < n && IsCombinatorSupported(schema, cs[k]) ensures SupportedCount(schema, cs) > 1 {
        CountIsOne(schema, cs[..n], k);
      }
    }
  }

  /** The class that looks for the constructor finds the one that was stored. */
  lemma FindsConstructor(schema: Schema, v: Value)
    requires Ready(schema) && IsObject(schema, v) && IsGenerated(schema, v.t)
    ensures schema[v.t].simpleConstructors == 1 ==> FirstSupported(schema, schema[v.t].constructors, 0) == Some(v.c)
    ensures FindId(schema, schema[v.t].constructors, Constructor(schema, v).id, 0) == Some(v.c)
  {
    hide IsCombinatorSupported;
    var info := schema[v.t];
    assert WellFormedType(schema, info) && ReadyType(schema, info);
    CountIsOne(schema, info.constructors, v.c);
  }

  lemma {:induction false} DefinerStable(args: seq<Arg>, n: nat, k: nat, varCount: nat)
    requires k <= |args| && Regular(args, |args|, varCount) && Definer(args, n, k).Some?
    ensures Definer(args, n, |args|) == Definer(args, n, k)
    ensures n < varCount
    decreases |args| - k
  {
    if k < |args| {
      assert RegularAt(args, k, varCount);
      DefinerStable(args, n, k + 1, varCount);
    } else {
      assert RegularAt(args, Definer(args, n, k).value, varCount);
    }
  }

  // ---------------------------------------------------------------- variables during a run

  /** The variables defined before field `k` hold their words. */
  ghost predicate Known(schema: Schema, args: seq<Arg>, fields: seq<Value>, k: nat, vars: seq<nat>)
    requires k <= |args| == |fields|
  {
    forall n: nat :: n < |vars| && Definer(args, n, k).Some? ==> vars[n] == WordOf(schema, args, fields, n)
  }

  lemma GuardMatches(schema: Schema, args: seq<Arg>, fields: seq<Value>, k: nat, vars: seq<nat>)
    requires k < |args| == |fields| && Regular(args, |args|, |vars|) && Known(schema, args, fields, k, vars)
    ensures Off(args[k].guard, vars) <==> !Present(schema, args, fields, k)
    ensures args[k].guard.Some? ==> args[k].guard.value.0 < |vars|
  {
    assert RegularAt(args, k, |vars|);
    if args[k].guard.Some? {
      DefinerStable(args, args[k].guard.value.0, k, |vars|);
    }
  }

  lemma StillKnown(schema: Schema, args: seq<Arg>, fields: seq<Value>, k: nat, vars: seq<nat>)
    requires k < |args| == |fields| && Known(schema, args, fields, k, vars) && args[k].varNum.None?
    ensures Known(schema, args, fields, k + 1, vars)
  {
    hide WordOf;
  }

  lemma NowKnown(schema: Schema, args: seq<Arg>, fields: seq<Value>, k: nat, vars: seq<nat>)
    requires k < |args| == |fields| && Known(schema, args, fields, k, vars) && args[k].varNum.Some?
    requires Regular(args, |args|, |vars|)
    ensures var n := args[k].varNum.value;
      && n < |vars| && WordOf(schema, args, fields, n) == Word(schema, args, fields, k)
      && Known(schema, args, fields, k + 1, vars[n := Word(schema, args, fields, k)])
  {
    var n := args[k].varNum.value;
    assert RegularAt(args, k, |vars|);
    DefinerStable(args, n, k + 1, |vars|);
    assert WordOf(schema, args, fields, n) == Word(schema, args, fields, k);
    hide WordOf;
    hide Word;
  }

  /** Everything known about a constructor's two programs. */
  ghost predicate Paired(schema: Schema, args: seq<Arg>, sp: seq<StoreStmt>, fp: seq<FetchStmt>, varCount: nat) {
    && |args| == |sp| == |fp| && PlainArgs(args) && Regular(args, |args|, varCount)
    && forall j :: 0 <= j < |args| ==> StmtsAgree(schema, args, j, sp[j], fp[j])
  }

  lemma ConstructorPaired(schema: Schema, v: Value)
    requires Ready(schema) && IsObject(schema, v)
    ensures var c := Constructor(schema, v);
      && StoreProgram(schema, c).Some? && FetchProgram(schema, c).Some?
      && Paired(schema, c.args, StoreProgram(schema, c).value, FetchProgram(schema, c).value, c.varCount)
  {
    hide IsCombinatorSupported;
    assert ReadyType(schema, schema[v.t]);
    var c := Constructor(schema, v);
    assert IsReady(schema, c);
    ProgramsAgree(schema, c);
  }

  // ---------------------------------------------------------------- the round trip

  /** Fetching what was stored gives the value with its flags combined and its absent fields set
      to defaults, and leaves what follows; it fails exactly when the value is not readable. */
  lemma {:induction false} FetchUndoesStore(
    schema: Schema, sc: StoreClass, fc: FetchClass, v: Value, fuel: nat, rest: seq<byte>)
    requires Ready(schema) && Agree(schema, sc, fc) && fuel >= Depth(v)
    requires StoreValue(schema, sc, v).Some?
    ensures FetchValue(schema, fuel, fc, StoreValue(schema, sc, v).value + rest)
      == if Readable(schema, sc, v, |rest|) then Some((Canon(schema, v), rest)) else None
    decreases v, 1, sc, 1
  {
    hide StoreProgram;
    hide IsCombinatorSupported;
    match sc
    case StoreVector(elem) =>
      VectorBack(schema, elem, fc.elem, v, fuel, rest);
    case StoreObject(t) =>
      hide FetchConstructor;
      ObjectBack(schema, v, fuel, rest);
      FindsConstructor(schema, v);
    case StoreBoxed(inner, id) =>
      BoxedBack(schema, inner, fc.inner, id, v, fuel, rest);
    case StoreBoxedUnknown(inner) =>
      UnknownBack(schema, v, fuel, rest);
    case _ =>
      LeafBack(schema, sc, fc, v, fuel, rest);
  }

  lemma LeafBack(schema: Schema, sc: StoreClass, fc: FetchClass, v: Value, fuel: nat, rest: seq<byte>)
    requires sc.StoreBinary? || sc.StoreBool? || sc.StoreText?
    requires Agree(schema, sc, fc) && StoreValue(schema, sc, v).Some?
    ensures FetchValue(schema, fuel, fc, StoreValue(schema, sc, v).value + rest) == Some((v, rest))
  {
    hide Le;
    hide FromLe;
    hide Take;
    hide FetchString;
    match sc
    case StoreBinary(width) => TakeBack(v.n, width, rest);
    case StoreBool => TakeWord(if v.b then BOOL_TRUE else BOOL_FALSE, rest);
    case StoreText => StringRoundTrip(v.text, rest);
  }

  /** The four bytes of each truth value. */
  lemma BoolBytes(schema: Schema, b: bool)
    ensures StoreValue(schema, StoreBool, Truth(b)) == Some(if b then [0xb5, 0x75, 0x72, 0x99] else [0x37, 0x97, 0x79, 0xbc])
  {
    FourBytes(if b then BOOL_TRUE else BOOL_FALSE);
    hide Le;
  }

  lemma {:induction false} BoxedBack(
    schema: Schema, inner: StoreClass, finner: FetchClass, id: Id, v: Value, fuel: nat, rest: seq<byte>)
    requires Ready(schema) && Agree(schema, inner, finner) && fuel >= Depth(v)
    requires StoreValue(schema, inner, v).Some?
    ensures FetchValue(schema, fuel, FetchBoxed(finner, id), Le(id, 4) + StoreValue(schema, inner, v).value + rest)
      == if Readable(schema, inner, v, |rest|) then Some((Canon(schema, v), rest)) else None
    decreases v, 1, StoreBoxed(inner, id), 0
  {
    hide Le;
    hide FromLe;
    hide Take;
    hide StoreValue;
    hide Agree;
    hide IsCombinatorSupported;
    var bytes := StoreValue(schema, inner, v).value;
    TakeWord(id, bytes + rest);
    assert Le(id, 4) + bytes + rest == Le(id, 4) + (bytes + rest);
    FetchUndoesStore(schema, inner, finner, v, fuel, rest);
  }

  lemma {:induction false} UnknownBack(schema: Schema, v: Value, fuel: nat, rest: seq<byte>)
    requires Ready(schema) && IsObject(schema, v) && fuel >= Depth(v)
    requires IsGenerated(schema, v.t) && schema[v.t].simpleConstructors > 1
    requires StoreValue(schema, StoreObject(v.t), v).Some?
    ensures FetchValue(schema, fuel, FetchObject(v.t),
        Le(Constructor(schema, v).id, 4) + StoreValue(schema, StoreObject(v.t), v).value + rest)
      == if Readable(schema, StoreObject(v.t), v, |rest|) then Some((Canon(schema, v), rest)) else None
    decreases v, 1, StoreObject(v.t), 0
  {
    hide Le;
    hide FromLe;
    hide Take;
    hide StoreValue;
    hide FetchConstructor;
    hide IsCombinatorSupported;
    var bytes := StoreValue(schema, StoreObject(v.t), v).value;
    var id := Constructor(schema, v).id;
    TakeWord(id, bytes + rest);
    assert Le(id, 4) + bytes + rest == Le(id, 4) + (bytes + rest);
    FindsConstructor(schema, v);
    ObjectBack(schema, v, fuel, rest);
  }

  lemma {:induction false} VectorBack(
    schema: Schema, elem: StoreClass, felem: FetchClass, v: Value, fuel: nat, rest: seq<byte>)
    requires Ready(schema) && Agree(schema, elem, felem) && fuel >= Depth(v)
    requires StoreValue(schema, StoreVector(elem), v).Some?
    ensures FetchValue(schema, fuel, FetchVector(felem), StoreValue(schema, StoreVector(elem), v).value + rest)
      == if Readable(schema, StoreVector(elem), v, |rest|) then Some((Canon(schema, v), rest)) else None
    decreases v, 0, elem
  {
    hide Le;
    hide FromLe;
    hide Take;
    var bytes := StoreItems(schema, elem, v.items).value;
    var n := |v.items|;
    TakeWord(n, bytes + rest);
    assert Le(n, 4) + bytes + rest == Le(n, 4) + (bytes + rest);
    ItemsBack(schema, elem, felem, v.items, fuel, rest);
  }

  lemma {:induction false} ItemsBack(
    schema: Schema, elem: StoreClass, felem: FetchClass, items: seq<Value>, fuel: nat, rest: seq<byte>)
    requires Ready(schema) && Agree(schema, elem, felem) && fuel >= DepthAll(items)
    requires StoreItems(schema, elem, items).Some?
    ensures FetchItems(schema, fuel, felem, |items|, StoreItems(schema, elem, items).value + rest)
      == if ReadableItems(schema, elem, items, |rest|) then Some((CanonItems(schema, items), rest)) else None
    decreases items, 0
  {
    hide StoreValue;
    hide FetchValue;
    hide Readable;
    hide Agree;
    hide IsCombinatorSupported;
    if items == [] {
      assert StoreItems(schema, elem, items).value + rest == rest;
    } else {
      var tail := items[1..];
      var first, others := StoreValue(schema, elem, items[0]).value, StoreItems(schema, elem, tail).value;
      assert first + others + rest == first + (others + rest);
      FetchUndoesStore(schema, elem, felem, items[0], fuel, others + rest);
      ItemsBack(schema, elem, felem, tail, fuel, rest);
    }
  }

  lemma {:induction false} ObjectBack(schema: Schema, v: Value, fuel: nat, rest: seq<byte>)
    requires Ready(schema) && IsObject(schema, v) && fuel >= Depth(v)
    requires StoreValue(schema, StoreObject(v.t), v).Some?
    ensures FetchConstructor(schema, fuel - 1, v.t, v.c, StoreValue(schema, StoreObject(v.t), v).value + rest)
      == if Readable(schema, StoreObject(v.t), v, |rest|) then Some((Canon(schema, v), rest)) else None
    decreases v, 0
  {
    hide IsCombinatorSupported;
    hide StoreProgram;
    hide FetchProgram;
    var c := Constructor(schema, v);
    ConstructorPaired(schema, v);
    var vars: seq<nat> := Zeros(c.varCount);
    FieldsBack(schema, c.args, StoreProgram(schema, c).value, FetchProgram(schema, c).value,
      v.fields, 0, vars, fuel - 1, rest);
  }

  /** The same for the statements from field `k` on. */
  lemma {:induction false} FieldsBack(
    schema: Schema, args: seq<Arg>, sp: seq<StoreStmt>, fp: seq<FetchStmt>,
    fields: seq<Value>, k: nat, vars: seq<nat>, fuel: nat, rest: seq<byte>)
    requires Ready(schema) && Paired(schema, args, sp, fp, |vars|) && fuel >= DepthAll(fields)
    requires k <= |args| == |fields| && Known(schema, args, fields, k, vars)
    requires StoreFields(schema, sp, fields, k, vars).Some?
    ensures FetchFields(schema, fuel, args, fp, k, vars, StoreFields(schema, sp, fields, k, vars).value + rest)
      == if ReadableFields(schema, sp, fields, k, vars, |rest|) then Some((CanonFields(schema, args, fields, k), rest))
         else None
    decreases fields, 0, |fields| - k
  {
    hide FlagsOf;
    hide Off;
    hide Fold;
    hide RegularAt;
    hide WordOf;
    hide Canon;
    hide Default;
    hide Le;
    hide FromLe;
    hide Take;
    hide Agree;
    hide StoreValue;
    hide FetchValue;
    hide Readable;
    hide IsCombinatorSupported;
    if k == |args| {
      assert StoreFields(schema, sp, fields, k, vars).value + rest == rest;
    } else {
      assert StmtsAgree(schema, args, k, sp[k], fp[k]);
      GuardMatches(schema, args, fields, k, vars);
      match sp[k]
      case StoreNothing =>
        assert args[k].guard == Some((fp[k].varNum, fp[k].bit));
        StillKnown(schema, args, fields, k, vars);
        FieldsBack(schema, args, sp, fp, fields, k + 1, vars, fuel, rest);
      case StoreFlags(guard, n, bits) =>
        var word := Fold(fields[k].n, bits, fields);
        NowKnown(schema, args, fields, k, vars);
        var tail := StoreFields(schema, sp, fields, k + 1, vars[n := word]).value;
        Widths();
        TakeWord(word, tail + rest);
        assert Le(word, 4) + tail + rest == Le(word, 4) + (tail + rest);
        FieldsBack(schema, args, sp, fp, fields, k + 1, vars[n := word], fuel, rest);
      case StoreField(guard, cls) =>
        StillKnown(schema, args, fields, k, vars);
        FieldsBack(schema, args, sp, fp, fields, k + 1, vars, fuel, rest);
        if !Off(guard, vars) {
          var first := StoreValue(schema, cls, fields[k]).value;
          var tail := StoreFields(schema, sp, fields, k + 1, vars).value;
          assert first + tail + rest == first + (tail + rest);
          DepthAt(fields, k);
          FetchUndoesStore(schema, cls, fp[k].cls, fields[k], fuel, tail + rest);
        }
    }
  }

  // ---------------------------------------------------------------- storing again

  /** Combining flags that are in the word already changes nothing. */
  lemma {:induction false} FoldAgain(word: nat, bits: seq<(nat, nat)>, fields: seq<Value>)
    requires forall b :: b in bits ==> b.0 < |fields| && (fields[b.0] == Truth(true) ==> Bit(word, b.1))
    ensures Fold(word, bits, fields) == word
  {
    if bits != [] {
      assert bits[0] in bits;
      FoldAgain(word, bits[1..], fields);
      if fields[bits[0].0] == Truth(true) {
        SetBitAgain(word, bits[0].1);
      }
    }
  }

  /** The flags of a variable, in the value that comes back, are the bits of its word. */
  lemma FlagsAreBits(
    schema: Schema, args: seq<Arg>, sp: seq<StoreStmt>, fp: seq<FetchStmt>, varCount: nat,
    fields: seq<Value>, k: nat, n: nat)
    requires Paired(schema, args, sp, fp, varCount) && k < |args| == |fields| && args[k].varNum == Some(n)
    ensures var bits := FlagsOf(schema, args, n, 0);
      var canon := CanonFields(schema, args, fields, 0);
      var word := Word(schema, args, fields, k);
      && FlagsTyped(canon, bits)
      && forall b :: b in bits ==> b.0 < |canon| && (canon[b.0] == Truth(true) ==> Bit(word, b.1))
  {
    hide IsCombinatorSupported;
    hide Agree;
    var bits := FlagsOf(schema, args, n, 0);
    var canon := CanonFields(schema, args, fields, 0);
    assert RegularAt(args, k, varCount);
    DefinerStable(args, n, k + 1, varCount);
    forall b | b in bits
      ensures b.0 < |canon| && canon[b.0] == Truth(Bit(Word(schema, args, fields, k), b.1))
    {
      assert StmtsAgree(schema, args, b.0, sp[b.0], fp[b.0]);
      assert IsFlag(schema, args[b.0]);
      assert canon[b.0] == CanonField(schema, args, fields, b.0);
    }
  }

  /** Storing what was fetched writes the same bytes again. */
  lemma {:induction false} StoreAgain(schema: Schema, sc: StoreClass, fc: FetchClass, v: Value)
    requires Ready(schema) && Agree(schema, sc, fc) && StoreValue(schema, sc, v).Some?
    ensures StoreValue(schema, sc, Canon(schema, v)) == StoreValue(schema, sc, v)
    decreases v, 1, sc
  {
    hide Le;
    hide IsCombinatorSupported;
    hide StoreProgram;
    match sc
    case StoreVector(elem) => ItemsAgain(schema, elem, fc.elem, v.items);
    case StoreObject(t) => ObjectAgain(schema, v);
    case StoreBoxed(inner, _) => StoreAgain(schema, inner, fc.inner, v);
    case StoreBoxedUnknown(inner) => ObjectAgain(schema, v);
    case _ =>
  }

  lemma {:induction false} ItemsAgain(schema: Schema, elem: StoreClass, felem: FetchClass, items: seq<Value>)
    requires Ready(schema) && Agree(schema, elem, felem) && StoreItems(schema, elem, items).Some?
    ensures StoreItems(schema, elem, CanonItems(schema, items)) == StoreItems(schema, elem, items)
    decreases items, 0
  {
    hide StoreValue;
    hide Agree;
    hide IsCombinatorSupported;
    if items != [] {
      var tail := items[1..];
      StoreAgain(schema, elem, felem, items[0]);
      ItemsAgain(schema, elem, felem, tail);
      assert CanonItems(schema, items)[1..] == CanonItems(schema, tail);
    }
  }

  lemma {:induction false} ObjectAgain(schema: Schema, v: Value)
    requires Ready(schema) && IsObject(schema, v) && StoreValue(schema, StoreObject(v.t), v).Some?
    ensures IsObject(schema, Canon(schema, v)) && Canon(schema, v).t == v.t && Canon(schema, v).c == v.c
    ensures StoreValue(schema, StoreObject(v.t), Canon(schema, v)) == StoreValue(schema, StoreObject(v.t), v)
    decreases v, 0
  {
    hide IsCombinatorSupported;
    hide StoreProgram;
    hide FetchProgram;
    var c := Constructor(schema, v);
    ConstructorPaired(schema, v);
    FieldsAgain(schema, c.args, StoreProgram(schema, c).value, FetchProgram(schema, c).value,
      v.fields, 0, Zeros(c.varCount));
  }

  lemma {:induction false} FieldsAgain(
    schema: Schema, args: seq<Arg>, sp: seq<StoreStmt>, fp: seq<FetchStmt>, fields: seq<Value>, k: nat, vars: seq<nat>)
    requires Ready(schema) && Paired(schema, args, sp, fp, |vars|)
    requires k <= |args| == |fields| && Known(schema, args, fields, k, vars)
    requires StoreFields(schema, sp, fields, k, vars).Some?
    ensures StoreFields(schema, sp, CanonFields(schema, args, fields, 0), k, vars)
      == StoreFields(schema, sp, fields, k, vars)
    decreases fields, 0, |fields| - k
  {
    hide FlagsOf;
    hide Off;
    hide Fold;
    hide RegularAt;
    hide WordOf;
    hide Canon;
    hide Default;
    hide Le;
    hide Agree;
    hide StoreValue;
    hide IsCombinatorSupported;
    if k < |args| {
      var canon := CanonFields(schema, args, fields, 0);
      assert canon[k] == CanonField(schema, args, fields, k);
      assert StmtsAgree(schema, args, k, sp[k], fp[k]);
      GuardMatches(schema, args, fields, k, vars);
      match sp[k]
      case StoreNothing =>
        StillKnown(schema, args, fields, k, vars);
        FieldsAgain(schema, args, sp, fp, fields, k + 1, vars);
      case StoreFlags(guard, n, bits) =>
        var word := Fold(fields[k].n, bits, fields);
        NowKnown(schema, args, fields, k, vars);
        FlagsAreBits(schema, args, sp, fp, |vars|, fields, k, n);
        FoldAgain(word, bits, canon);
        FieldsAgain(schema, args, sp, fp, fields, k + 1, vars[n := word]);
      case StoreField(guard, cls) =>
        StillKnown(schema, args, fields, k, vars);
        FieldsAgain(schema, args, sp, fp, fields, k + 1, vars);
        if !Off(guard, vars) {
          StoreAgain(schema, cls, fp[k].cls, fields[k]);
        }
    }
  }

  // ---------------------------------------------------------------- what an object comes back as

  /** Each bit of the combined word is set in the given one or stands for a flag that is true. */
  lemma {:induction false} FoldBits(word: nat, bits: seq<(nat, nat)>, fields: seq<Value>, j: nat)
    requires forall b :: b in bits ==> b.0 < |fields|
    ensures Bit(Fold(word, bits, fields), j)
      <==> Bit(word, j) || exists b :: b in bits && b.1 == j && fields[b.0] == Truth(true)
  {
    hide Bit;
    if bits != [] {
      assert bits[0] in bits;
      var rest := Fold(word, bits[1..], fields);
      FoldBits(word, bits[1..], fields, j);
      BitOfSetBit(rest, bits[0].1, j);
    }
  }

  /** A true flag of the object stands for bit `j` of variable `n`. */
  ghost predicate HasFlag(schema: Schema, args: seq<Arg>, fields: seq<Value>, n: nat, j: nat)
    requires |args| == |fields|
  {
    exists i :: 0 <= i < |args| && IsFlag(schema, args[i]) && args[i].guard == Some((n, j)) && fields[i] == Truth(true)
  }

  /** The empty value of what a class reads: zero, false, no text, no elements, no object. */
  function EmptyValue(cls: FetchClass): Value {
    match cls
    case FetchBinary(_) => Number(0)
    case FetchBool => Truth(false)
    case FetchText => Text([])
    case FetchVector(_) => List([])
    case FetchObject(_) => Null
    case FetchBoxed(inner, _) => EmptyValue(inner)
  }

  lemma DefaultIsEmpty(schema: Schema, tree: Tree)
    requires FullFetchClass(schema, tree).Some?
    ensures Default(schema, tree) == EmptyValue(FullFetchClass(schema, tree).value)
  {
  }

  /** What field `k` of the object comes back as: a flag word combined with the true flags, a flag
      as its bit of the word that comes back, any other field as itself or, if its bit is not set
      in the word, empty. */
  ghost predicate ComesBack(schema: Schema, args: seq<Arg>, fields: seq<Value>, back: seq<Value>, k: nat)
    requires k < |args| == |fields| == |back|
  {
    var a := args[k];
    if a.varNum.Some? then
      && fields[k].Number? && back[k].Number?
      && forall j: nat :: Bit(back[k].n, j) <==> Bit(fields[k].n, j) || HasFlag(schema, args, fields, a.varNum.value, j)
    else
      && (a.guard.Some? ==> WordBefore(args, back, k))
      && var set_ := a.guard.Some? ==> Bit(back[Definer(args, a.guard.value.0, k).value].n, a.guard.value.1);
         if IsFlag(schema, a) then back[k] == Truth(set_)
         else if set_ then back[k] == Canon(schema, fields[k])
         else FullFetchClass(schema, a.tree).Some? && back[k] == EmptyValue(FullFetchClass(schema, a.tree).value)
  }

  /** The variable that guards the field is a number that stands before it. */
  predicate WordBefore(args: seq<Arg>, back: seq<Value>, k: nat)
    requires k < |args| == |back| && args[k].guard.Some?
  {
    var d := Definer(args, args[k].guard.value.0, k);
    d.Some? && back[d.value].Number?
  }

  lemma {:induction false} StoredNumber(
    schema: Schema, args: seq<Arg>, sp: seq<StoreStmt>, fp: seq<FetchStmt>,
    fields: seq<Value>, j: nat, vars: seq<nat>, k: nat)
    requires Paired(schema, args, sp, fp, |vars|) && j <= k < |args| == |fields|
    requires StoreFields(schema, sp, fields, j, vars).Some? && args[k].varNum.Some?
    ensures fields[k].Number?
    decreases k - j
  {
    hide IsCombinatorSupported;
    hide StoreValue;
    hide Agree;
    hide FlagsOf;
    hide Fold;
    assert StmtsAgree(schema, args, j, sp[j], fp[j]);
    if j < k {
      var vars' := if sp[j].StoreFlags? then vars[sp[j].varNum := Fold(fields[j].n, sp[j].bits, fields)] else vars;
      StoredNumber(schema, args, sp, fp, fields, j + 1, vars', k);
    }
  }

  lemma WordComesBack(
    schema: Schema, args: seq<Arg>, sp: seq<StoreStmt>, fp: seq<FetchStmt>, varCount: nat, fields: seq<Value>, k: nat)
    requires Paired(schema, args, sp, fp, varCount) && k < |args| == |fields|
    requires args[k].varNum.Some? && fields[k].Number?
    ensures ComesBack(schema, args, fields, CanonFields(schema, args, fields, 0), k)
  {
    hide IsCombinatorSupported;
    hide Agree;
    hide Canon;
    hide Bit;
    var n := args[k].varNum.value;
    var bits := FlagsOf(schema, args, n, 0);
    assert CanonFields(schema, args, fields, 0)[k] == CanonField(schema, args, fields, k);
    assert StmtsAgree(schema, args, k, sp[k], fp[k]);
    forall j: nat
      ensures Bit(Word(schema, args, fields, k), j) <==> Bit(fields[k].n, j) || HasFlag(schema, args, fields, n, j)
    {
      FoldBits(fields[k].n, bits, fields, j);
      hide Fold;
      forall b | b in bits ensures IsFlag(schema, args[b.0]) {
        assert StmtsAgree(schema, args, b.0, sp[b.0], fp[b.0]);
      }
      if HasFlag(schema, args, fields, n, j) {
        var i :| 0 <= i < |args| && IsFlag(schema, args[i]) && args[i].guard == Some((n, j)) && fields[i] == Truth(true);
        assert StmtsAgree(schema, args, i, sp[i], fp[i]);
        assert (i, j) in bits;
      }
    }
  }

  lemma OtherComesBack(
    schema: Schema, args: seq<Arg>, sp: seq<StoreStmt>, fp: seq<FetchStmt>, varCount: nat, fields: seq<Value>, k: nat)
    requires Paired(schema, args, sp, fp, varCount) && k < |args| == |fields| && args[k].varNum.None?
    requires !IsFlag(schema, args[k]) ==> FullFetchClass(schema, args[k].tree).Some?
    requires forall i :: 0 <= i < |args| && args[i].varNum.Some? ==> fields[i].Number?
    ensures ComesBack(schema, args, fields, CanonFields(schema, args, fields, 0), k)
  {
    hide IsCombinatorSupported;
    hide Agree;
    hide Canon;
    hide Bit;
    hide Fold;
    hide Default;
    hide EmptyValue;
    hide FullFetchClass;
    var back := CanonFields(schema, args, fields, 0);
    assert back[k] == CanonField(schema, args, fields, k);
    assert StmtsAgree(schema, args, k, sp[k], fp[k]) && RegularAt(args, k, varCount);
    if args[k].guard.Some? {
      var n := args[k].guard.value.0;
      var d := Definer(args, n, k).value;
      DefinerStable(args, n, k, varCount);
      assert StmtsAgree(schema, args, d, sp[d], fp[d]);
      assert back[d] == CanonField(schema, args, fields, d) == Number(Word(schema, args, fields, d));
    }
    if !IsFlag(schema, args[k]) {
      DefaultIsEmpty(schema, args[k].tree);
    }
  }

  lemma {:induction false} FieldClasses(schema: Schema, c: Combinator, k: nat, j: nat)
    requires j < k <= |c.args| && FetchPrefix(schema, c, k).Some? && !IsFlag(schema, c.args[j])
    ensures FullFetchClass(schema, c.args[j].tree).Some?
  {
    hide FullFetchClass;
    if j < k - 1 {
      FieldClasses(schema, c, k - 1, j);
    }
  }

  /** The object that comes back, field by field and without naming the functions that make it. */
  lemma ObjectComesBack(schema: Schema, v: Value, fuel: nat, rest: seq<byte>)
    requires Ready(schema) && IsObject(schema, v) && fuel >= Depth(v)
    requires StoreValue(schema, StoreObject(v.t), v).Some? && Readable(schema, StoreObject(v.t), v, |rest|)
    ensures var args := Constructor(schema, v).args;
      var r := FetchConstructor(schema, fuel - 1, v.t, v.c, StoreValue(schema, StoreObject(v.t), v).value + rest);
      && r.Some? && r.value.1 == rest
      && r.value.0.Object? && r.value.0.t == v.t && r.value.0.c == v.c && |r.value.0.fields| == |args|
      && forall k :: 0 <= k < |args| ==> ComesBack(schema, args, v.fields, r.value.0.fields, k)
  {
    hide IsCombinatorSupported;
    hide StoreProgram;
    hide FetchProgram;
    hide FetchConstructor;
    hide ComesBack;
    hide StoreFields;
    hide Readable;
    var c := Constructor(schema, v);
    ConstructorPaired(schema, v);
    ObjectBack(schema, v, fuel, rest);
    var sp, fp := StoreProgram(schema, c).value, FetchProgram(schema, c).value;
    forall k | 0 <= k < |c.args| && c.args[k].varNum.Some? ensures v.fields[k].Number? {
      StoredNumber(schema, c.args, sp, fp, v.fields, 0, Zeros(c.varCount), k);
    }
    forall k | 0 <= k < |c.args| ensures ComesBack(schema, c.args, v.fields, CanonFields(schema, c.args, v.fields, 0), k) {
      if c.args[k].varNum.Some? {
        WordComesBack(schema, c.args, sp, fp, c.varCount, v.fields, k);
      } else {
        if !IsFlag(schema, c.args[k]) {
          ProgramPrefix(schema, c);
          FieldClasses(schema, c, |c.args|, k);
        }
        OtherComesBack(schema, c.args, sp, fp, c.varCount, v.fields, k);
      }
    }
  }

  lemma ProgramPrefix(schema: Schema, c: Combinator)
    requires FetchProgram(schema, c).Some?
    ensures FetchPrefix(schema, c, |c.args|).Some?
  {
  }

  /** So no flag that is true is lost. */
  lemma TrueFlagsSurvive(schema: Schema, v: Value, fuel: nat, rest: seq<byte>, k: nat)
    requires Ready(schema) && IsObject(schema, v) && fuel >= Depth(v)
    requires StoreValue(schema, StoreObject(v.t), v).Some? && Readable(schema, StoreObject(v.t), v, |rest|)
    requires k < |v.fields| && IsFlag(schema, Constructor(schema, v).args[k]) && v.fields[k] == Truth(true)
    ensures var r := FetchConstructor(schema, fuel - 1, v.t, v.c, StoreValue(schema, StoreObject(v.t), v).value + rest);
      r.Some? && r.value.0.Object? && |r.value.0.fields| == |v.fields| && r.value.0.fields[k] == Truth(true)
  {
    hide IsCombinatorSupported;
    hide StoreProgram;
    hide FetchProgram;
    hide FetchConstructor;
    hide StoreValue;
    hide Readable;
    hide Bit;
    ObjectComesBack(schema, v, fuel, rest);
    var args := Constructor(schema, v).args;
    var back := FetchConstructor(schema, fuel - 1, v.t, v.c, StoreValue(schema, StoreObject(v.t), v).value + rest)
      .value.0.fields;
    var (n, bit) := args[k].guard.value;
    assert ComesBack(schema, args, v.fields, back, k);
    var d := Definer(args, n, k).value;
    assert ComesBack(schema, args, v.fields, back, d);
    assert HasFlag(schema, args, v.fields, n, bit);
  }

  // ---------------------------------------------------------------- consequences

  /** The whole of it for a type expression: whatever the store half writes for it, the fetch half
      reads back, and storing the result writes the same bytes. */
  lemma TypeRoundTrip(schema: Schema, tree: Tree, v: Value, fuel: nat, rest: seq<byte>)
    requires Ready(schema) && IsTypeSupported(schema, tree) && fuel >= Depth(v)
    requires FullStoreClass(schema, tree).Some? && FullFetchClass(schema, tree).Some?
    requires var sc := FullStoreClass(schema, tree).value;
      StoreValue(schema, sc, v).Some? && Readable(schema, sc, v, |rest|)
    ensures var sc, fc := FullStoreClass(schema, tree).value, FullFetchClass(schema, tree).value;
      && FetchValue(schema, fuel, fc, StoreValue(schema, sc, v).value + rest) == Some((Canon(schema, v), rest))
      && StoreValue(schema, sc, Canon(schema, v)) == StoreValue(schema, sc, v)
  {
    HalvesAgree(schema, tree);
    var sc, fc := FullStoreClass(schema, tree).value, FullFetchClass(schema, tree).value;
    FetchUndoesStore(schema, sc, fc, v, fuel, rest);
    StoreAgain(schema, sc, fc, v);
  }

  /** A boxed value begins with the identifier of its own constructor, whether the type has one
      constructor or several. */
  lemma BoxedBeginsWithId(schema: Schema, tree: Tree, v: Value)
    requires Ready(schema) && IsTypeSupported(schema, tree) && !tree.bare && schema[tree.t].name.User?
    requires FullStoreClass(schema, tree).Some? && StoreValue(schema, FullStoreClass(schema, tree).value, v).Some?
    ensures var s := StoreValue(schema, FullStoreClass(schema, tree).value, v).value;
      IsObject(schema, v) && |s| >= 4 && s[..4] == Le(Constructor(schema, v).id, 4)
  {
    hide IsCombinatorSupported;
    hide StoreProgram;
    hide StoreFields;
    hide Le;
    assert WellFormedType(schema, schema[tree.t]);
    FindsConstructor(schema, v);
    hide Ready;
    hide WellFormedType;
    hide FindId;
  }

  /** A vector whose elements take no bytes cannot be read back when nothing follows it. */
  lemma EmptyElementsAreLost(schema: Schema, sc: StoreClass, fc: FetchClass, v: Value, fuel: nat)
    requires Ready(schema) && Agree(schema, sc, fc) && fuel >= Depth(v) && sc.StoreVector?
    requires StoreValue(schema, sc, v).Some? && v.items != [] && StoreItems(schema, sc.elem, v.items) == Some([])
    ensures FetchValue(schema, fuel, fc, StoreValue(schema, sc, v).value).None?
  {
    FetchUndoesStore(schema, sc, fc, v, fuel, []);
    assert StoreValue(schema, sc, v).value + [] == StoreValue(schema, sc, v).value;
  }

  /** A flag word with its top bit set cannot be read back, wherever it stands in the object. */
  lemma NegativeFlagsAreLost(schema: Schema, v: Value, k: nat, fuel: nat, rest: seq<byte>)
    requires Ready(schema) && IsObject(schema, v) && fuel >= Depth(v)
    requires StoreValue(schema, StoreObject(v.t), v).Some?
    requires k < |v.fields| && Constructor(schema, v).args[k].varNum.Some?
    requires Word(schema, Constructor(schema, v).args, v.fields, k) >= NEGATIVE
    ensures FetchConstructor(schema, fuel - 1, v.t, v.c, StoreValue(schema, StoreObject(v.t), v).value + rest).None?
  {
    hide IsCombinatorSupported;
    hide StoreProgram;
    hide FetchProgram;
    hide FetchConstructor;
    var c := Constructor(schema, v);
    ConstructorPaired(schema, v);
    ObjectBack(schema, v, fuel, rest);
    NegativeUnreadable(schema, c.args, StoreProgram(schema, c).value, FetchProgram(schema, c).value,
      v.fields, 0, Zeros(c.varCount), k, |rest|);
  }

  lemma {:induction false} NegativeUnreadable(
    schema: Schema, args: seq<Arg>, sp: seq<StoreStmt>, fp: seq<FetchStmt>,
    fields: seq<Value>, j: nat, vars: seq<nat>, k: nat, after: nat)
    requires Paired(schema, args, sp, fp, |vars|) && j <= k < |args| == |fields|
    requires StoreFields(schema, sp, fields, j, vars).Some?
    requires args[k].varNum.Some? && Word(schema, args, fields, k) >= NEGATIVE
    ensures !ReadableFields(schema, sp, fields, j, vars, after)
    decreases k - j
  {
    hide IsCombinatorSupported;
    hide StoreValue;
    hide Readable;
    hide Agree;
    assert StmtsAgree(schema, args, j, sp[j], fp[j]);
    if j < k {
      var vars' := if sp[j].StoreFlags? then vars[sp[j].varNum := Fold(fields[j].n, sp[j].bits, fields)] else vars;
      NegativeUnreadable(schema, args, sp, fp, fields, j + 1, vars', k, after);
    }
  }

  /** Elements of at least one byte each always satisfy the parser's length test. */
  lemma {:induction false} SolidVectorsAreReadable(schema: Schema, elem: StoreClass, items: seq<Value>)
    requires StoreItems(schema, elem, items).Some?
    requires forall v :: v in items ==> StoreValue(schema, elem, v).Some? ==> StoreValue(schema, elem, v).value != []
    ensures |items| <= |StoreItems(schema, elem, items).value|
    decreases items
  {
    hide StoreValue;
    if items != [] {
      assert items[0] in items;
      SolidVectorsAreReadable(schema, elem, items[1..]);
    }
  }
}
