/**
  Storing what was fetched, for arbitrary input: whatever bytes the fetch half accepts are those
  the store half writes for the value, up to the several forms a text can have.
 */
module TlReread {
  import opened Options
  import opened Bytes
  import opened Bits
  import opened TlStrings
  import opened TlGenerator
  import opened TlCodec
  import opened TlRoundTrip

  // ---------------------------------------------------------------- texts in their own form

  /** Every text among the bytes read is in the form in which it is stored. */
  predicate Tight(schema: Schema, fuel: nat, cls: FetchClass, s: seq<byte>)
    requires FetchValue(schema, fuel, cls, s).Some?
    decreases fuel, 0, cls, 0
  {
    match cls
    case FetchText =>
      var (text, rest) := FetchString(s).value;
      StoreString(text).Some? && StoreString(text).value + rest == s
    case FetchVector(elem) => TightItems(schema, fuel, elem, Take(s, 4).value.0, Take(s, 4).value.1)
    case FetchObject(t) =>
      if schema[t].simpleConstructors == 1 then
        TightConstructor(schema, fuel - 1, t, FirstSupported(schema, schema[t].constructors, 0).value, s)
      else
        var (id, tail) := Take(s, 4).value;
        TightConstructor(schema, fuel - 1, t, FindId(schema, schema[t].constructors, id, 0).value, tail)
    case FetchBoxed(inner, _) => Tight(schema, fuel, inner, Take(s, 4).value.1)
    case _ => true
  }

  predicate TightItems(schema: Schema, fuel: nat, elem: FetchClass, n: nat, s: seq<byte>)
    requires FetchItems(schema, fuel, elem, n, s).Some?
    decreases fuel, 0, elem, n + 1
  {
    n == 0 || (
      && Tight(schema, fuel, elem, s)
      && TightItems(schema, fuel, elem, n - 1, FetchValue(schema, fuel, elem, s).value.1))
  }

  predicate TightConstructor(schema: Schema, fuel: nat, t: nat, c: nat, s: seq<byte>)
    requires t < |schema| && c < |schema[t].constructors| && FetchConstructor(schema, fuel, t, c, s).Some?
    decreases fuel, 2
  {
    var comb := schema[t].constructors[c];
    TightFields(schema, fuel, comb.args, FetchProgram(schema, comb).value, 0, Zeros(comb.varCount), s)
  }

  predicate TightFields(
    schema: Schema, fuel: nat, args: seq<Arg>, program: seq<FetchStmt>, k: nat, vars: seq<nat>, s: seq<byte>)
    requires k <= |args| == |program| && FetchFields(schema, fuel, args, program, k, vars, s).Some?
    decreases fuel, 1, |args| - k
  {
    k == |args| ||
    var (_, vars', s') := FetchOne(schema, fuel, args, program[k], k, vars, s).value;
    && (program[k].FetchField? && !Off(program[k].guard, vars) ==> Tight(schema, fuel, program[k].cls, s))
    && TightFields(schema, fuel, args, program, k + 1, vars', s')
  }

  // ---------------------------------------------------------------- small steps

  predicate IsSuffix(rest: seq<byte>, s: seq<byte>) {
    |rest| <= |s| && s[|s| - |rest|..] == rest
  }

  lemma SuffixTrans(a: seq<byte>, b: seq<byte>, c: seq<byte>)
    requires IsSuffix(a, b) && IsSuffix(b, c)
    ensures IsSuffix(a, c)
  {
    assert b[|b| - |a|..] == c[|c| - |b|..][|b| - |a|..];
  }

  /** Two parts that take no more room than what they were read from make it up exactly when each
      does. */
  lemma BothParts(a: seq<byte>, b: seq<byte>, rest: seq<byte>, middle: seq<byte>, s: seq<byte>)
    requires IsSuffix(middle, s) && |a| + |middle| <= |s| && |b| + |rest| <= |middle|
    ensures |a + b| + |rest| <= |s|
    ensures a + b + rest == s <==> a + middle == s && b + rest == middle
  {
    assert a + b + rest == a + (b + rest);
    if a + b + rest == s {
      assert s[|a|..] == b + rest;
    }
  }

  lemma WordTaken(s: seq<byte>)
    requires |s| >= 4
    ensures var (n, tail) := Take(s, 4).value;
      n < 0x1_0000_0000 && Le(n, 4) + tail == s && IsSuffix(tail, s) && |tail| + 4 == |s|
  {
    WritesBack(s[..4]);
    Widths();
    assert s == s[..4] + s[4..];
  }

  // ---------------------------------------------------------------- values

  /** The value can be stored and is canonical; its bytes take no more room than those read, and
      are the same just when `tight` says so. */
  ghost predicate Rewritten(schema: Schema, sc: StoreClass, v: Value, rest: seq<byte>, s: seq<byte>, tight: bool) {
    && StoreValue(schema, sc, v).Some? && Canon(schema, v) == v && IsSuffix(rest, s)
    && |StoreValue(schema, sc, v).value| + |rest| <= |s|
    && (StoreValue(schema, sc, v).value + rest == s <==> tight)
  }

  /** Whatever the fetch half accepts, from any bytes at all, the store half can write; it writes
      the bytes that were read exactly when every text among them was in its stored form. */
  lemma {:induction false} StoreUndoesFetch(schema: Schema, sc: StoreClass, fc: FetchClass, fuel: nat, s: seq<byte>)
    requires Ready(schema) && Agree(schema, sc, fc) && |s| < MAX_ITEMS
    requires FetchValue(schema, fuel, fc, s).Some?
    ensures var (v, rest) := FetchValue(schema, fuel, fc, s).value;
      Rewritten(schema, sc, v, rest, s, Tight(schema, fuel, fc, s))
    decreases fuel, 0, fc, 1
  {
    hide StoreProgram;
    hide IsCombinatorSupported;
    hide Le;
    hide FromLe;
    match fc
    case FetchVector(elem) => VectorReread(schema, sc.elem, elem, fuel, s);
    case FetchObject(t) => ObjectReread(schema, sc, t, fuel, s);
    case FetchBoxed(inner, id) => BoxedReread(schema, sc.inner, inner, id, fuel, s);
    case _ => LeafReread(schema, sc, fc, fuel, s);
  }

  lemma LeafReread(schema: Schema, sc: StoreClass, fc: FetchClass, fuel: nat, s: seq<byte>)
    requires fc.FetchBinary? || fc.FetchBool? || fc.FetchText?
    requires Agree(schema, sc, fc) && |s| < MAX_ITEMS && FetchValue(schema, fuel, fc, s).Some?
    ensures var (v, rest) := FetchValue(schema, fuel, fc, s).value;
      Rewritten(schema, sc, v, rest, s, Tight(schema, fuel, fc, s))
  {
    hide Le;
    hide FromLe;
    hide FetchString;
    hide StoreString;
    match fc
    case FetchBinary(width) =>
      WritesBack(s[..width]);
      assert s == s[..width] + s[width..];
    case FetchBool => WordTaken(s);
    case FetchText => var _ := FetchedText(s);
  }

  lemma {:induction false} BoxedReread(
    schema: Schema, inner: StoreClass, finner: FetchClass, id: Id, fuel: nat, s: seq<byte>)
    requires Ready(schema) && Agree(schema, inner, finner) && |s| < MAX_ITEMS
    requires FetchValue(schema, fuel, FetchBoxed(finner, id), s).Some?
    ensures var (v, rest) := FetchValue(schema, fuel, FetchBoxed(finner, id), s).value;
      Rewritten(schema, StoreBoxed(inner, id), v, rest, s, Tight(schema, fuel, FetchBoxed(finner, id), s))
    decreases fuel, 0, FetchBoxed(finner, id), 0
  {
    hide StoreString;
    hide FetchString;
    hide FindId;
    hide FirstSupported;
    hide IsCombinatorSupported;
    hide StoreProgram;
    hide CanonField;
    hide Le;
    hide FromLe;
    WordTaken(s);
    var tail := Take(s, 4).value.1;
    StoreUndoesFetch(schema, inner, finner, fuel, tail);
    var (v, rest) := FetchValue(schema, fuel, finner, tail).value;
    hide FetchValue;
    hide Agree;
    SuffixTrans(rest, tail, s);
    BothParts(Le(id, 4), StoreValue(schema, inner, v).value, rest, tail, s);
  }

  lemma {:induction false} VectorReread(schema: Schema, elem: StoreClass, felem: FetchClass, fuel: nat, s: seq<byte>)
    requires Ready(schema) && Agree(schema, elem, felem) && |s| < MAX_ITEMS
    requires FetchValue(schema, fuel, FetchVector(felem), s).Some?
    ensures var (v, rest) := FetchValue(schema, fuel, FetchVector(felem), s).value;
      Rewritten(schema, StoreVector(elem), v, rest, s, Tight(schema, fuel, FetchVector(felem), s))
    decreases fuel, 0, FetchVector(felem), 0
  {
    hide StoreString;
    hide FetchString;
    hide FindId;
    hide FirstSupported;
    hide IsCombinatorSupported;
    hide StoreProgram;
    hide CanonField;
    hide Le;
    hide FromLe;
    hide TightItems;
    hide CanonItems;
    hide StoreItems;
    hide FetchItems;
    hide Ready;
    hide IsObject;
    WordTaken(s);
    var (n, tail) := Take(s, 4).value;
    ItemsReread(schema, elem, felem, n, fuel, tail);
    var (items, rest) := FetchItems(schema, fuel, felem, n, tail).value;
    SuffixTrans(rest, tail, s);
    BothParts(Le(n, 4), StoreItems(schema, elem, items).value, rest, tail, s);
  }

  lemma {:induction false} ItemsReread(
    schema: Schema, elem: StoreClass, felem: FetchClass, n: nat, fuel: nat, s: seq<byte>)
    requires Ready(schema) && Agree(schema, elem, felem) && |s| < MAX_ITEMS
    requires FetchItems(schema, fuel, felem, n, s).Some?
    ensures var (items, rest) := FetchItems(schema, fuel, felem, n, s).value;
      && |items| == n && StoreItems(schema, elem, items).Some? && CanonItems(schema, items) == items
      && IsSuffix(rest, s) && |StoreItems(schema, elem, items).value| + |rest| <= |s|
      && (StoreItems(schema, elem, items).value + rest == s <==> TightItems(schema, fuel, felem, n, s))
    decreases fuel, 0, felem, n + 2
  {
    hide StoreValue;
    hide FetchValue;
    hide Tight;
    hide Canon;
    hide Agree;
    if n == 0 {
      assert [] + s == s;
    } else {
      StoreUndoesFetch(schema, elem, felem, fuel, s);
      var (first, middle) := FetchValue(schema, fuel, felem, s).value;
      ItemsReread(schema, elem, felem, n - 1, fuel, middle);
      var (others, rest) := FetchItems(schema, fuel, felem, n - 1, middle).value;
      assert ([first] + others)[1..] == others;
      SuffixTrans(rest, middle, s);
      BothParts(StoreValue(schema, elem, first).value, StoreItems(schema, elem, others).value, rest, middle, s);
    }
  }

  lemma {:induction false} ObjectReread(schema: Schema, sc: StoreClass, t: nat, fuel: nat, s: seq<byte>)
    requires Ready(schema) && Agree(schema, sc, FetchObject(t)) && |s| < MAX_ITEMS
    requires FetchValue(schema, fuel, FetchObject(t), s).Some?
    ensures var (v, rest) := FetchValue(schema, fuel, FetchObject(t), s).value;
      Rewritten(schema, sc, v, rest, s, Tight(schema, fuel, FetchObject(t), s))
    decreases fuel, 0, FetchObject(t), 0
  {
    hide StoreString;
    hide FetchString;
    hide Le;
    hide FromLe;
    hide IsCombinatorSupported;
    hide StoreProgram;
    hide FetchProgram;
    hide FetchConstructor;
    if schema[t].simpleConstructors == 1 {
      ConstructorReread(schema, t, FirstSupported(schema, schema[t].constructors, 0).value, fuel - 1, s);
    } else {
      WordTaken(s);
      var (id, tail) := Take(s, 4).value;
      var c := FindId(schema, schema[t].constructors, id, 0).value;
      ConstructorReread(schema, t, c, fuel - 1, tail);
      var (v, rest) := FetchConstructor(schema, fuel - 1, t, c, tail).value;
      SuffixTrans(rest, tail, s);
      BothParts(Le(id, 4), StoreValue(schema, StoreObject(t), v).value, rest, tail, s);
    }
  }

  lemma {:induction false} ConstructorReread(schema: Schema, t: nat, c: nat, fuel: nat, s: seq<byte>)
    requires Ready(schema) && t < |schema| && c < |schema[t].constructors| && |s| < MAX_ITEMS
    requires IsCombinatorSupported(schema, schema[t].constructors[c])
    requires FetchConstructor(schema, fuel, t, c, s).Some?
    ensures var (v, rest) := FetchConstructor(schema, fuel, t, c, s).value;
      && IsObject(schema, v) && v.t == t && v.c == c
      && Rewritten(schema, StoreObject(t), v, rest, s, TightConstructor(schema, fuel, t, c, s))
    decreases fuel, 3
  {
    hide IsCombinatorSupported;
    hide StoreProgram;
    hide FetchProgram;
    hide FetchFields;
    hide StoreFields;
    hide TightFields;
    hide StmtsAgree;
    hide FlagFits;
    var (v, rest) := FetchConstructor(schema, fuel, t, c, s).value;
    var comb := schema[t].constructors[c];
    var vars: seq<nat> := Zeros(comb.varCount);
    FetchedCount(schema, fuel, comb.args, FetchProgram(schema, comb).value, 0, vars, s);
    ConstructorPaired(schema, v);
    var sp, fp := StoreProgram(schema, comb).value, FetchProgram(schema, comb).value;
    FetchedFlags(schema, comb.args, sp, fp, v.fields, 0, vars, fuel, s);
    WordsSettle(schema, comb.args, sp, fp, comb.varCount, v.fields);
    assert v.fields[0..] == v.fields;
    FieldsReread(schema, comb.args, sp, fp, v.fields, 0, vars, fuel, s);
    assert CanonFields(schema, comb.args, v.fields, 0) == v.fields;
  }

  lemma {:induction false} FetchedCount(
    schema: Schema, fuel: nat, args: seq<Arg>, fp: seq<FetchStmt>, k: nat, vars: seq<nat>, s: seq<byte>)
    requires k <= |args| == |fp| && FetchFields(schema, fuel, args, fp, k, vars, s).Some?
    ensures |FetchFields(schema, fuel, args, fp, k, vars, s).value.0| == |args| - k
    decreases |args| - k
  {
    hide FetchOne;
    if k < |args| {
      var (_, vars', s') := FetchOne(schema, fuel, args, fp[k], k, vars, s).value;
      FetchedCount(schema, fuel, args, fp, k + 1, vars', s');
    }
  }

  // ---------------------------------------------------------------- flags

  /** The variables defined before field `k` hold the numbers of their fields. */
  ghost predicate Held(args: seq<Arg>, fields: seq<Value>, k: nat, vars: seq<nat>)
    requires k <= |args| == |fields|
  {
    forall n: nat :: n < |vars| && Definer(args, n, k).Some? ==> fields[Definer(args, n, k).value] == Number(vars[n])
  }

  /** A `#` field holds a number that is not negative, a flag the bit of its number. */
  ghost predicate FlagFits(schema: Schema, args: seq<Arg>, fields: seq<Value>, i: nat)
    requires i < |args| == |fields|
  {
    && (args[i].varNum.Some? ==> fields[i].Number? && fields[i].n < NEGATIVE)
    && (IsFlag(schema, args[i]) ==>
          var d := Definer(args, args[i].guard.value.0, |args|);
          d.Some? && fields[d.value].Number? && fields[i] == Truth(Bit(fields[d.value].n, args[i].guard.value.1)))
  }

  lemma {:induction false} FetchedFlags(
    schema: Schema, args: seq<Arg>, sp: seq<StoreStmt>, fp: seq<FetchStmt>,
    fields: seq<Value>, k: nat, vars: seq<nat>, fuel: nat, s: seq<byte>)
    requires Paired(schema, args, sp, fp, |vars|) && k <= |args| == |fields| && Held(args, fields, k, vars)
    requires var r := FetchFields(schema, fuel, args, fp, k, vars, s); r.Some? && r.value.0 == fields[k..]
    ensures forall i :: k <= i < |args| ==> FlagFits(schema, args, fields, i)
    decreases |args| - k
  {
    hide Agree;
    hide FetchValue;
    hide FlagsOf;
    hide Default;
    hide Bit;
    hide Take;
    if k < |args| {
      assert StmtsAgree(schema, args, k, sp[k], fp[k]) && RegularAt(args, k, |vars|);
      var (value, vars', s') := FetchOne(schema, fuel, args, fp[k], k, vars, s).value;
      assert value == fields[k] && FetchFields(schema, fuel, args, fp, k + 1, vars', s').value.0 == fields[k + 1..];
      if IsFlag(schema, args[k]) {
        DefinerStable(args, args[k].guard.value.0, k, |vars|);
      }
      FetchedFlags(schema, args, sp, fp, fields, k + 1, vars', fuel, s');
    }
  }

  /** The flags fetched are in their words already. */
  lemma WordsSettle(
    schema: Schema, args: seq<Arg>, sp: seq<StoreStmt>, fp: seq<FetchStmt>, varCount: nat, fields: seq<Value>)
    requires Paired(schema, args, sp, fp, varCount) && |args| == |fields|
    requires forall i :: 0 <= i < |args| ==> FlagFits(schema, args, fields, i)
    ensures forall k :: 0 <= k < |args| && args[k].varNum.Some? ==>
      && FlagsTyped(fields, FlagsOf(schema, args, args[k].varNum.value, 0))
      && fields[k] == Number(Word(schema, args, fields, k)) && fields[k].n < NEGATIVE
  {
    hide Agree;
    forall k | 0 <= k < |args| && args[k].varNum.Some?
      ensures FlagsTyped(fields, FlagsOf(schema, args, args[k].varNum.value, 0))
      ensures fields[k] == Number(Word(schema, args, fields, k)) && fields[k].n < NEGATIVE
    {
      var n := args[k].varNum.value;
      var bits := FlagsOf(schema, args, n, 0);
      assert FlagFits(schema, args, fields, k) && RegularAt(args, k, varCount);
      DefinerStable(args, n, k + 1, varCount);
      forall b | b in bits ensures fields[b.0] == Truth(Bit(fields[k].n, b.1)) {
        assert StmtsAgree(schema, args, b.0, sp[b.0], fp[b.0]) && FlagFits(schema, args, fields, b.0);
        assert IsFlag(schema, args[b.0]);
      }
      FoldAgain(fields[k].n, bits, fields);
    }
  }

  // ---------------------------------------------------------------- fields

  ghost predicate Settled(schema: Schema, args: seq<Arg>, fields: seq<Value>)
    requires |args| == |fields|
  {
    forall k :: 0 <= k < |args| && args[k].varNum.Some? ==>
      && FlagsTyped(fields, FlagsOf(schema, args, args[k].varNum.value, 0))
      && fields[k] == Number(Word(schema, args, fields, k)) && fields[k].n < NEGATIVE
  }

  /** The fields from `k` on, fetched with the variables `vars`, can be stored, and so forth. */
  ghost predicate FieldsRewritten(
    schema: Schema, args: seq<Arg>, sp: seq<StoreStmt>, fp: seq<FetchStmt>,
    fields: seq<Value>, k: nat, vars: seq<nat>, fuel: nat, s: seq<byte>)
    requires k <= |args| == |fields| == |sp| == |fp|
  {
    FetchFields(schema, fuel, args, fp, k, vars, s).Some? &&
    var rest := FetchFields(schema, fuel, args, fp, k, vars, s).value.1;
    && StoreFields(schema, sp, fields, k, vars).Some? && IsSuffix(rest, s)
    && |StoreFields(schema, sp, fields, k, vars).value| + |rest| <= |s|
    && (StoreFields(schema, sp, fields, k, vars).value + rest == s <==> TightFields(schema, fuel, args, fp, k, vars, s))
  }

  lemma NothingStep(
    schema: Schema, args: seq<Arg>, sp: seq<StoreStmt>, fp: seq<FetchStmt>,
    fields: seq<Value>, k: nat, vars: seq<nat>, fuel: nat, s: seq<byte>)
    requires k < |args| == |fields| == |sp| == |fp| && FetchFields(schema, fuel, args, fp, k, vars, s).Some?
    requires (sp[k].StoreNothing? && fp[k].FetchBit?)
      || (sp[k].StoreField? && fp[k].FetchField? && fp[k].guard == sp[k].guard && Off(sp[k].guard, vars))
    requires FieldsRewritten(schema, args, sp, fp, fields, k + 1, vars, fuel, s)
    ensures FieldsRewritten(schema, args, sp, fp, fields, k, vars, fuel, s)
  {
    hide Off;
    hide Default;
    hide IsSuffix;
    hide FetchValue;
    hide StoreValue;
    hide Tight;
  }

  lemma FlagsStep(
    schema: Schema, args: seq<Arg>, sp: seq<StoreStmt>, fp: seq<FetchStmt>,
    fields: seq<Value>, k: nat, vars: seq<nat>, fuel: nat, s: seq<byte>)
    requires k < |args| == |fields| == |sp| == |fp| && FetchFields(schema, fuel, args, fp, k, vars, s).Some?
    requires sp[k].StoreFlags? && fp[k] == FetchFlags(None, sp[k].varNum) && sp[k].guard == None
    requires FlagsTyped(fields, sp[k].bits) && |s| >= 4
    requires fields[k] == Number(Take(s, 4).value.0)
    requires Fold(fields[k].n, sp[k].bits, fields) == fields[k].n < NEGATIVE && sp[k].varNum < |vars|
    requires var vars', s' := vars[sp[k].varNum := fields[k].n], Take(s, 4).value.1;
      FieldsRewritten(schema, args, sp, fp, fields, k + 1, vars', fuel, s')
    ensures FieldsRewritten(schema, args, sp, fp, fields, k, vars, fuel, s)
  {
    hide Fold;
    hide FetchValue;
    hide StoreValue;
    hide Tight;
    hide Le;
    hide FromLe;
    Widths();
    WordTaken(s);
    var vars', s' := vars[sp[k].varNum := fields[k].n], Take(s, 4).value.1;
    var rest := FetchFields(schema, fuel, args, fp, k + 1, vars', s').value.1;
    var tail := StoreFields(schema, sp, fields, k + 1, vars').value;
    SuffixTrans(rest, s', s);
    BothParts(Le(fields[k].n, 4), tail, rest, s', s);
  }

  lemma FieldStep(
    schema: Schema, args: seq<Arg>, sp: seq<StoreStmt>, fp: seq<FetchStmt>,
    fields: seq<Value>, k: nat, vars: seq<nat>, fuel: nat, s: seq<byte>)
    requires k < |args| == |fields| == |sp| == |fp| && FetchFields(schema, fuel, args, fp, k, vars, s).Some?
    requires sp[k].StoreField? && fp[k].FetchField? && fp[k].guard == sp[k].guard && !Off(sp[k].guard, vars)
    requires FetchValue(schema, fuel, fp[k].cls, s).Some? && fields[k] == FetchValue(schema, fuel, fp[k].cls, s).value.0
    requires var s' := FetchValue(schema, fuel, fp[k].cls, s).value.1;
      && Rewritten(schema, sp[k].cls, fields[k], s', s, Tight(schema, fuel, fp[k].cls, s))
      && FieldsRewritten(schema, args, sp, fp, fields, k + 1, vars, fuel, s')
    ensures FieldsRewritten(schema, args, sp, fp, fields, k, vars, fuel, s)
  {
    hide FetchValue;
    hide StoreValue;
    hide Tight;
    hide Off;
    hide Canon;
    var s' := FetchValue(schema, fuel, fp[k].cls, s).value.1;
    var rest := FetchFields(schema, fuel, args, fp, k + 1, vars, s').value.1;
    var tail := StoreFields(schema, sp, fields, k + 1, vars).value;
    SuffixTrans(rest, s', s);
    BothParts(StoreValue(schema, sp[k].cls, fields[k]).value, tail, rest, s', s);
  }

  lemma {:induction false} FieldsReread(
    schema: Schema, args: seq<Arg>, sp: seq<StoreStmt>, fp: seq<FetchStmt>,
    fields: seq<Value>, k: nat, vars: seq<nat>, fuel: nat, s: seq<byte>)
    requires Ready(schema) && Paired(schema, args, sp, fp, |vars|) && |s| < MAX_ITEMS
    requires k <= |args| == |fields| && Known(schema, args, fields, k, vars) && Settled(schema, args, fields)
    requires var r := FetchFields(schema, fuel, args, fp, k, vars, s); r.Some? && r.value.0 == fields[k..]
    ensures FieldsRewritten(schema, args, sp, fp, fields, k, vars, fuel, s)
    ensures forall i :: k <= i < |args| ==> CanonField(schema, args, fields, i) == fields[i]
    decreases fuel, 1, |args| - k, 1
  {
    hide FlagsOf;
    hide Off;
    hide Fold;
    hide RegularAt;
    hide WordOf;
    hide Canon;
    hide Default;
    hide Le;
    hide FromLe;
    hide Agree;
    hide StoreValue;
    hide FetchValue;
    hide Tight;
    hide IsCombinatorSupported;
    if k == |args| {
      assert [] + s == s;
    } else {
      assert StmtsAgree(schema, args, k, sp[k], fp[k]);
      GuardMatches(schema, args, fields, k, vars);
      var (value, vars', s') := FetchOne(schema, fuel, args, fp[k], k, vars, s).value;
      assert value == fields[k] && FetchFields(schema, fuel, args, fp, k + 1, vars', s').value.0 == fields[k + 1..];
      hide StoreFields;
      hide FetchFields;
      hide TightFields;
      hide FieldsRewritten;
      match sp[k]
      case StoreNothing =>
        StillKnown(schema, args, fields, k, vars);
        FieldsReread(schema, args, sp, fp, fields, k + 1, vars, fuel, s);
        NothingStep(schema, args, sp, fp, fields, k, vars, fuel, s);
      case StoreFlags(guard, n, bits) =>
        NowKnown(schema, args, fields, k, vars);
        WordTaken(s);
        FieldsReread(schema, args, sp, fp, fields, k + 1, vars', fuel, s');
        FlagsStep(schema, args, sp, fp, fields, k, vars, fuel, s);
      case StoreField(guard, cls) =>
        StillKnown(schema, args, fields, k, vars);
        if Off(guard, vars) {
          FieldsReread(schema, args, sp, fp, fields, k + 1, vars, fuel, s);
          NothingStep(schema, args, sp, fp, fields, k, vars, fuel, s);
        } else {
          StoreUndoesFetch(schema, cls, fp[k].cls, fuel, s);
          FieldsReread(schema, args, sp, fp, fields, k + 1, vars, fuel, s');
          FieldStep(schema, args, sp, fp, fields, k, vars, fuel, s);
        }
    }
  }
}
