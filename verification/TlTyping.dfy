/** Which values the store half writes: exactly those of the C++ type, with fields that fit. */
module TlTyping {
  import opened Options
  import opened Bytes
  import opened Bits
  import opened TlStrings
  import opened TlGenerator
  import opened TlCodec
  import opened TlRoundTrip

  /** The value fits the class: numbers their width, texts below 2^32 bytes, vectors below 2^31
      elements, objects a supported constructor of the type and all their fields. */
  predicate Fits(schema: Schema, cls: StoreClass, v: Value)
    decreases v, 1, cls
  {
    match cls
    case StoreBinary(width) => v.Number? && v.n < Pow256(width)
    case StoreBool => v.Truth?
    case StoreText => v.Text? && |v.text| < 0x1_0000_0000
    case StoreVector(elem) =>
      v.List? && |v.items| < 0x8000_0000 && forall i :: 0 <= i < |v.items| ==> Fits(schema, elem, v.items[i])
    case StoreObject(t) =>
      && IsObject(schema, v) && v.t == t
      && forall k :: 0 <= k < |v.fields| ==> FieldFits(schema, Constructor(schema, v).args, v.fields, k)
    case StoreBoxed(inner, _) => Fits(schema, inner, v)
    case StoreBoxedUnknown(inner) => IsObject(schema, v) && Fits(schema, inner, v)
  }

  /** A word fits its 32 bits, a flag is a truth value, any other field fits its class unless its
      bit is not set. */
  predicate FieldFits(schema: Schema, args: seq<Arg>, fields: seq<Value>, k: nat)
    requires k < |args| == |fields|
    decreases fields, 0
  {
    if args[k].varNum.Some? then fields[k].Number? && Word(schema, args, fields, k) < 0x1_0000_0000
    else if IsFlag(schema, args[k]) then fields[k].Truth?
    else Present(schema, args, fields, k) ==>
      FullStoreClass(schema, args[k].tree).Some? && Fits(schema, FullStoreClass(schema, args[k].tree).value, fields[k])
  }

  /** A value can be stored exactly when it fits. */
  lemma {:induction false} StoredIff(schema: Schema, sc: StoreClass, fc: FetchClass, v: Value)
    requires Ready(schema) && Agree(schema, sc, fc)
    ensures StoreValue(schema, sc, v).Some? <==> Fits(schema, sc, v)
    decreases v, 1, sc
  {
    hide IsCombinatorSupported;
    hide StoreProgram;
    hide Le;
    match sc
    case StoreVector(elem) =>
      if v.List? {
        ItemsStoredIff(schema, elem, fc.elem, v.items);
      }
    case StoreObject(t) => ObjectStoredIff(schema, t, v);
    case StoreBoxed(inner, _) => StoredIff(schema, inner, fc.inner, v);
    case StoreBoxedUnknown(inner) => ObjectStoredIff(schema, inner.t, v);
    case _ =>
  }

  lemma {:induction false} ItemsStoredIff(schema: Schema, elem: StoreClass, felem: FetchClass, items: seq<Value>)
    requires Ready(schema) && Agree(schema, elem, felem)
    ensures StoreItems(schema, elem, items).Some? <==> forall i :: 0 <= i < |items| ==> Fits(schema, elem, items[i])
    decreases items, 0
  {
    hide StoreValue;
    hide Fits;
    hide Agree;
    if items != [] {
      var tail := items[1..];
      StoredIff(schema, elem, felem, items[0]);
      ItemsStoredIff(schema, elem, felem, tail);
      assert (forall i :: 0 <= i < |items| ==> Fits(schema, elem, items[i]))
        <==> Fits(schema, elem, items[0]) && forall i :: 0 <= i < |tail| ==> Fits(schema, elem, tail[i]) by {
        forall i | 0 <= i < |tail| ensures tail[i] == items[i + 1] {}
        assert forall i :: 1 <= i < |items| ==> items[i] == tail[i - 1];
      }
    }
  }

  lemma {:induction false} ObjectStoredIff(schema: Schema, t: nat, v: Value)
    requires Ready(schema)
    ensures StoreValue(schema, StoreObject(t), v).Some? <==> Fits(schema, StoreObject(t), v)
    decreases v, 0
  {
    hide IsCombinatorSupported;
    hide StoreProgram;
    hide FetchProgram;
    if IsObject(schema, v) && v.t == t {
      var c := Constructor(schema, v);
      ConstructorPaired(schema, v);
      var sp, fp := StoreProgram(schema, c).value, FetchProgram(schema, c).value;
      forall k | 0 <= k < |sp| && sp[k].StoreField? ensures FullStoreClass(schema, c.args[k].tree) == Some(sp[k].cls) {
        FieldClass(schema, c, k);
      }
      FieldsStoredIff(schema, c.args, sp, fp, v.fields, 0, Zeros(c.varCount));
      AllFit(schema, c.args, sp, fp, c.varCount, v.fields);
      if FitFrom(schema, c.args, v.fields, 0) {
        assert forall k :: 0 <= k < |v.fields| ==> FieldFits(schema, c.args, v.fields, k);
      } else {
        assert exists k :: 0 <= k < |v.fields| && !FieldFits(schema, c.args, v.fields, k);
      }
    }
  }

  lemma FieldClass(schema: Schema, c: Combinator, k: nat)
    requires StoreProgram(schema, c).Some? && k < |c.args| && StoreProgram(schema, c).value[k].StoreField?
    ensures FullStoreClass(schema, c.args[k].tree) == Some(StoreProgram(schema, c).value[k].cls)
  {
    PrefixClass(schema, c, |c.args|, k);
  }

  lemma {:induction false} PrefixClass(schema: Schema, c: Combinator, k: nat, j: nat)
    requires j < k <= |c.args| && StorePrefix(schema, c, k).Some? && StorePrefix(schema, c, k).value.0[j].StoreField?
    ensures FullStoreClass(schema, c.args[j].tree) == Some(StorePrefix(schema, c, k).value.0[j].cls)
  {
    hide FullStoreClass;
    if j < k - 1 {
      PrefixClass(schema, c, k - 1, j);
    }
  }

  ghost predicate ClassesOf(schema: Schema, args: seq<Arg>, sp: seq<StoreStmt>) {
    |args| == |sp| && forall k :: 0 <= k < |sp| && sp[k].StoreField? ==>
      FullStoreClass(schema, args[k].tree) == Some(sp[k].cls)
  }

  /** The field is checked from statement `k` on: a flag where its word is written. */
  predicate CheckedFrom(schema: Schema, args: seq<Arg>, i: nat, k: nat)
    requires i < |args|
  {
    if IsFlag(schema, args[i]) then
      var d := Definer(args, args[i].guard.value.0, |args|);
      d.Some? && d.value >= k
    else i >= k
  }

  ghost predicate FitFrom(schema: Schema, args: seq<Arg>, fields: seq<Value>, k: nat)
    requires |args| == |fields|
  {
    forall i :: 0 <= i < |args| && CheckedFrom(schema, args, i, k) ==> FieldFits(schema, args, fields, i)
  }

  /** Statement `k` checks its own field, and the flags kept in the variable it defines. */
  lemma FitStep(
    schema: Schema, args: seq<Arg>, sp: seq<StoreStmt>, fp: seq<FetchStmt>, varCount: nat, fields: seq<Value>, k: nat)
    requires Paired(schema, args, sp, fp, varCount) && k < |args| == |fields|
    ensures FitFrom(schema, args, fields, k) <==>
      && FitFrom(schema, args, fields, k + 1)
      && (!IsFlag(schema, args[k]) ==> FieldFits(schema, args, fields, k))
      && (args[k].varNum.Some? ==> FlagsTyped(fields, FlagsOf(schema, args, args[k].varNum.value, 0)))
  {
    hide IsCombinatorSupported;
    hide Agree;
    hide Fits;
    hide Present;
    hide Word;
    assert StmtsAgree(schema, args, k, sp[k], fp[k]) && RegularAt(args, k, varCount);
    forall i | 0 <= i < |args| && IsFlag(schema, args[i]) ensures FieldFits(schema, args, fields, i) <==> fields[i].Truth? {}
    if args[k].varNum.Some? {
      var n := args[k].varNum.value;
      var bits := FlagsOf(schema, args, n, 0);
      DefinerStable(args, n, k + 1, varCount);
      forall b | b in bits ensures CheckedFrom(schema, args, b.0, k) && !CheckedFrom(schema, args, b.0, k + 1)
        && IsFlag(schema, args[b.0])
      {
        assert StmtsAgree(schema, args, b.0, sp[b.0], fp[b.0]);
      }
      forall i | 0 <= i < |args| && IsFlag(schema, args[i])
        && CheckedFrom(schema, args, i, k) && !CheckedFrom(schema, args, i, k + 1)
        ensures (i, args[i].guard.value.1) in bits
      {
        assert StmtsAgree(schema, args, i, sp[i], fp[i]);
      }
    }
  }

  /** What one statement adds to the rest. */
  lemma StatementStores(schema: Schema, sp: seq<StoreStmt>, fields: seq<Value>, k: nat, vars: seq<nat>)
    requires k < |fields| == |sp|
    ensures sp[k].StoreNothing? ==>
      (StoreFields(schema, sp, fields, k, vars).Some? <==> StoreFields(schema, sp, fields, k + 1, vars).Some?)
    ensures sp[k].StoreField? ==>
      (StoreFields(schema, sp, fields, k, vars).Some? <==>
        && (Off(sp[k].guard, vars) || StoreValue(schema, sp[k].cls, fields[k]).Some?)
        && StoreFields(schema, sp, fields, k + 1, vars).Some?)
    ensures sp[k].StoreFlags? && sp[k].guard.None? && sp[k].varNum < |vars| ==>
      (StoreFields(schema, sp, fields, k, vars).Some? <==>
        && fields[k].Number? && FlagsTyped(fields, sp[k].bits)
        && Fold(fields[k].n, sp[k].bits, fields) < 0x1_0000_0000
        && StoreFields(schema, sp, fields, k + 1, vars[sp[k].varNum := Fold(fields[k].n, sp[k].bits, fields)]).Some?)
  {
    hide Bit;
    hide Fold;
    hide Le;
    hide StoreValue;
    hide FlagsTyped;
    Widths();
  }

  lemma {:induction false} FieldsStoredIff(
    schema: Schema, args: seq<Arg>, sp: seq<StoreStmt>, fp: seq<FetchStmt>, fields: seq<Value>, k: nat, vars: seq<nat>)
    requires Ready(schema) && Paired(schema, args, sp, fp, |vars|) && ClassesOf(schema, args, sp)
    requires k <= |args| == |fields| && Known(schema, args, fields, k, vars)
    ensures StoreFields(schema, sp, fields, k, vars).Some? <==> FitFrom(schema, args, fields, k)
    decreases fields, 0, |fields| - k
  {
    hide FlagsOf;
    hide Off;
    hide Fold;
    hide RegularAt;
    hide WordOf;
    hide Fits;
    hide Le;
    hide Agree;
    hide StoreValue;
    hide IsCombinatorSupported;
    hide FitFrom;
    hide Ready;
    hide FlagsTyped;
    hide Definer;
    hide FullStoreClass;
    if k == |args| {
      NothingLeft(schema, args, fields);
    } else {
      assert StmtsAgree(schema, args, k, sp[k], fp[k]);
      GuardMatches(schema, args, fields, k, vars);
      FitStep(schema, args, sp, fp, |vars|, fields, k);
      StatementStores(schema, sp, fields, k, vars);
      hide StoreFields;
      if args[k].varNum.Some? {
        NowKnown(schema, args, fields, k, vars);
        hide Known;
        FieldsStoredIff(schema, args, sp, fp, fields, k + 1, vars[args[k].varNum.value := Word(schema, args, fields, k)]);
      } else {
        StillKnown(schema, args, fields, k, vars);
        hide Known;
        FieldsStoredIff(schema, args, sp, fp, fields, k + 1, vars);
        if !IsFlag(schema, args[k]) {
          StoredIff(schema, sp[k].cls, fp[k].cls, fields[k]);
        }
      }
    }
  }

  lemma NothingLeft(schema: Schema, args: seq<Arg>, fields: seq<Value>)
    requires |args| == |fields|
    ensures FitFrom(schema, args, fields, |args|)
  {
  }

  lemma AllFit(
    schema: Schema, args: seq<Arg>, sp: seq<StoreStmt>, fp: seq<FetchStmt>, varCount: nat, fields: seq<Value>)
    requires Paired(schema, args, sp, fp, varCount) && |args| == |fields|
    ensures FitFrom(schema, args, fields, 0) <==> forall k :: 0 <= k < |args| ==> FieldFits(schema, args, fields, k)
  {
    forall i | 0 <= i < |args| ensures CheckedFrom(schema, args, i, 0) {
      assert RegularAt(args, i, varCount);
      if args[i].guard.Some? {
        DefinerStable(args, args[i].guard.value.0, i, varCount);
      }
    }
    if FitFrom(schema, args, fields, 0) {
      forall k | 0 <= k < |args| ensures FieldFits(schema, args, fields, k) {
        assert CheckedFrom(schema, args, k, 0);
      }
      assert forall k :: 0 <= k < |args| ==> FieldFits(schema, args, fields, k);
    } else {
      assert exists k :: 0 <= k < |args| && !FieldFits(schema, args, fields, k);
    }
  }
}
