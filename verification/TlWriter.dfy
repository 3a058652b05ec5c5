/** The generator as it runs: one pass over the fields, marking in place which variables are known. */
module TlWriter {
  import opened Options
  import opened TlGenerator

  /** The loop over the other fields: flags kept in variable `n`, in the order of the fields. */
  method CollectFlags(schema: Schema, args: seq<Arg>, n: nat) returns (bits: seq<(nat, nat)>)
    ensures bits == FlagsOf(schema, args, n, 0)
  {
    bits := [];
    for j := 0 to |args|
      invariant bits + FlagsOf(schema, args, n, j) == FlagsOf(schema, args, n, 0)
    {
      var other := args[j];
      if other.guard.Some? && IsFlagOf(schema, other, n, other.guard.value.1) {
        var flag: (nat, nat) := (j, other.guard.value.1);
        bits := bits + [flag];
      }
    }
    assert FlagsOf(schema, args, n, |args|) == [];
  }

  method FieldStoreInPlace(schema: Schema, args: seq<Arg>, k: nat, stored: array<bool>) returns (r: Option<StoreStmt>)
    requires k < |args|
    modifies stored
    ensures var spec := FieldStore(schema, args, k, old(stored[..]));
      if spec.None? then r.None? else r == Some(spec.value.0) && stored[..] == spec.value.1
  {
    hide FullStoreClass;
    hide FullFetchClass;
    hide FlagsOf;
    var a := args[k];
    if a.tree.VarType? || a.excl || a.optVar {
      return None;
    }
    if a.guard.Some? {
      if a.guard.value.0 >= stored.Length || !stored[a.guard.value.0] {
        return None;
      }
      if a.varNum.None? && IsTrueType(schema, a.tree) {
        return Some(StoreNothing);
      }
    }
    var cls := FullStoreClass(schema, a.tree);
    if cls.None? {
      return None;
    }
    if a.varNum.None? {
      return Some(StoreField(a.guard, cls.value));
    }
    var n := a.varNum.value;
    if !IsSharp(schema, a.tree) || n >= stored.Length || stored[n] {
      return None;
    }
    var bits := CollectFlags(schema, args, n);
    stored[n] := true;
    return Some(StoreFlags(a.guard, n, bits));
  }

  method FieldFetchInPlace(schema: Schema, args: seq<Arg>, k: nat, stored: array<bool>) returns (r: Option<FetchStmt>)
    requires k < |args|
    modifies stored
    ensures var spec := FieldFetch(schema, args, k, old(stored[..]));
      if spec.None? then r.None? else r == Some(spec.value.0) && stored[..] == spec.value.1
  {
    hide FullStoreClass;
    hide FullFetchClass;
    hide FlagsOf;
    var a := args[k];
    if a.tree.VarType? || a.excl || a.optVar {
      return None;
    }
    if a.guard.Some? {
      if a.guard.value.0 >= stored.Length || !stored[a.guard.value.0] {
        return None;
      }
      if a.varNum.None? && IsTrueType(schema, a.tree) && a.tree.bare {
        if !IsTypeBare(schema[a.tree.t]) {
          return None;
        }
        return Some(FetchBit(a.guard.value.0, a.guard.value.1));
      }
    }
    var cls := FullFetchClass(schema, a.tree);
    if cls.None? {
      return None;
    }
    if a.varNum.None? {
      return Some(FetchField(a.guard, cls.value));
    }
    var n := a.varNum.value;
    if !IsSharp(schema, a.tree) || n >= stored.Length || stored[n] {
      return None;
    }
    stored[n] := true;
    return Some(FetchFlags(a.guard, n));
  }

  /** The assertion at the end of each function: every variable is known. */
  method AllStored(stored: array<bool>) returns (ok: bool)
    ensures ok <==> false !in stored[..]
  {
    for i := 0 to stored.Length
      invariant false !in stored[..i]
    {
      if !stored[i] {
        assert stored[..][i] == false;
        return false;
      }
    }
    return true;
  }

  method WriteConstructorStore(schema: Schema, c: Combinator) returns (program: Option<seq<StoreStmt>>)
    ensures program == StoreProgram(schema, c)
  {
    hide FieldStore;
    hide FieldFetch;
    var stored := new bool[c.varCount](_ => false);
    var stmts := [];
    assert stored[..] == AllUnknown(c.varCount);
    for k := 0 to |c.args|
      invariant StorePrefix(schema, c, k) == Some((stmts, stored[..]))
    {
      var one := FieldStoreInPlace(schema, c.args, k, stored);
      if one.None? {
        NoStore(schema, c, k + 1, |c.args|);
        return None;
      }
      stmts := stmts + [one.value];
    }
    var ok := AllStored(stored);
    return if ok then Some(stmts) else None;
  }

  method WriteConstructorFetch(schema: Schema, c: Combinator) returns (program: Option<seq<FetchStmt>>)
    ensures program == FetchProgram(schema, c)
  {
    hide FieldStore;
    hide FieldFetch;
    var stored := new bool[c.varCount](_ => false);
    var stmts := [];
    assert stored[..] == AllUnknown(c.varCount);
    for k := 0 to |c.args|
      invariant FetchPrefix(schema, c, k) == Some((stmts, stored[..]))
    {
      var one := FieldFetchInPlace(schema, c.args, k, stored);
      if one.None? {
        NoFetch(schema, c, k + 1, |c.args|);
        return None;
      }
      stmts := stmts + [one.value];
    }
    var ok := AllStored(stored);
    return if ok then Some(stmts) else None;
  }

  lemma {:induction false} NoStore(schema: Schema, c: Combinator, i: nat, j: nat)
    requires i <= j <= |c.args| && StorePrefix(schema, c, i).None?
    ensures StorePrefix(schema, c, j).None?
  {
    hide FieldStore;
    hide FieldFetch;
    if i < j {
      NoStore(schema, c, i, j - 1);
    }
  }

  lemma {:induction false} NoFetch(schema: Schema, c: Combinator, i: nat, j: nat)
    requires i <= j <= |c.args| && FetchPrefix(schema, c, i).None?
    ensures FetchPrefix(schema, c, j).None?
  {
    hide FieldStore;
    hide FieldFetch;
    if i < j {
      NoFetch(schema, c, i, j - 1);
    }
  }
}
