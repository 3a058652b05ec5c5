/** A small schema that satisfies everything the round trip assumes. */
module TlSample {
  import opened Bytes
  import opened Options
  import opened TlCodec
  import opened Bits
  import opened TlGenerator
  import opened TlRoundTrip

  const SHARP: nat := 0
  const INT: nat := 1
  const TRUE: nat := 2
  const VECTOR: nat := 3
  const NOTE: nat := 4

  function Plain(t: nat, bare: bool): Tree { Type(t, bare, []) }

  function Field(tree: Tree): Arg { Arg(false, false, None, None, tree) }

  /** `note#5 flags:# silent:flags.0?true count:flags.1?int sizes:Vector<int> next:flags.2?Note = Note;` */
  function NoteArgs(): seq<Arg> {
    [Arg(false, false, Some(0), None, Plain(SHARP, false)),
     Arg(false, false, None, Some((0, 0)), Plain(TRUE, true)),
     Arg(false, false, None, Some((0, 1)), Plain(INT, true)),
     Field(Type(VECTOR, false, [Plain(INT, true)])),
     Arg(false, false, None, Some((0, 2)), Plain(NOTE, false))]
  }

  function Ctor(id: Id, result: nat): Combinator { Combinator(id, 0, [], Plain(result, false)) }

  /** `#`, `int`, `true`, the vector template, and `Note`. */
  function Sample(): Schema {
    [TypeInfo(Sharp, 0, false, false, 0, []),
     TypeInfo(Int, 0, false, false, 1, [Ctor(0xa8509bda, INT)]),
     TypeInfo(True, 0, false, false, 1, [Ctor(0x3fedd339, TRUE)]),
     TypeInfo(Vector, 1, false, false, 0, [Combinator(0x1cb5c415, 1, [Field(VarType)], Plain(VECTOR, false))]),
     TypeInfo(User("Note"), 0, false, false, 1, [Combinator(5, 1, NoteArgs(), Plain(NOTE, false))])]
  }

  lemma PlainSupported(t: nat, bare: bool)
    requires t < 5
    ensures IsTypeSupported(Sample(), Plain(t, bare))
  {
  }

  lemma CtorSupported(id: Id, t: nat)
    requires t < 5
    ensures IsCombinatorSupported(Sample(), Ctor(id, t))
  {
    PlainSupported(t, false);
  }

  lemma NoteSupported()
    ensures IsCombinatorSupported(Sample(), Combinator(5, 1, NoteArgs(), Plain(NOTE, false)))
  {
    PlainSupported(SHARP, false);
    PlainSupported(TRUE, true);
    PlainSupported(INT, true);
    PlainSupported(NOTE, false);
    assert IsChildSupported(Sample(), Plain(INT, true));
    assert IsTypeSupported(Sample(), Type(VECTOR, false, [Plain(INT, true)]));
  }

  lemma TemplateUnsupported()
    ensures !IsCombinatorSupported(Sample(), Combinator(0x1cb5c415, 1, [Field(VarType)], Plain(VECTOR, false)))
  {
    assert !IsArgSupported(Sample(), [Field(VarType)][0].tree);
  }

  lemma CountOne(c: Combinator)
    ensures SupportedCount(Sample(), [c]) == if IsCombinatorSupported(Sample(), c) then 1 else 0
  {
    hide IsCombinatorSupported;
    assert [c][..0] == [];
  }

  lemma SampleWellFormed()
    ensures WellFormed(Sample())
  {
    CtorSupported(0xa8509bda, INT);
    CtorSupported(0x3fedd339, TRUE);
    NoteSupported();
    CountOne(Ctor(0xa8509bda, INT));
    CountOne(Ctor(0x3fedd339, TRUE));
    CountOne(Combinator(5, 1, NoteArgs(), Plain(NOTE, false)));
    hide IsCombinatorSupported;
    forall t | 0 <= t < 5 ensures WellFormedType(Sample(), Sample()[t]) {
    }
  }

  // ---------------------------------------------------------------- the two programs

  function NoteCtor(): Combinator { Combinator(5, 1, NoteArgs(), Plain(NOTE, false)) }

  lemma IntClasses()
    ensures FullStoreClass(Sample(), Plain(INT, true)) == Some(StoreBinary(4))
    ensures FullFetchClass(Sample(), Plain(INT, true)) == Some(FetchBinary(4))
  {
  }

  lemma SharpClasses()
    ensures FullStoreClass(Sample(), Plain(SHARP, false)) == Some(StoreBinary(4))
    ensures FullFetchClass(Sample(), Plain(SHARP, false)) == Some(FetchBinary(4))
  {
  }

  lemma VectorClasses()
    ensures var tree := Type(VECTOR, false, [Plain(INT, true)]);
      && FullStoreClass(Sample(), tree) == Some(StoreBoxed(StoreVector(StoreBinary(4)), 0x1cb5c415))
      && FullFetchClass(Sample(), tree) == Some(FetchBoxed(FetchVector(FetchBinary(4)), 0x1cb5c415))
  {
    var tree := Type(VECTOR, false, [Plain(INT, true)]);
    IntClasses();
    assert StoreClassOf(Sample(), tree) == Some(StoreVector(StoreBinary(4)));
    assert FetchClassOf(Sample(), tree) == Some(FetchVector(FetchBinary(4)));
    hide IsCombinatorSupported;
    assert ExpectedId(Sample(), Sample()[VECTOR], 0) == Some(0);
    assert ExpectedId(Sample(), Sample()[VECTOR], 1) == Some(0x1cb5c415);
  }

  lemma NoteClasses()
    ensures FullStoreClass(Sample(), Plain(NOTE, false)) == Some(StoreBoxed(StoreObject(NOTE), 5))
    ensures FullFetchClass(Sample(), Plain(NOTE, false)) == Some(FetchBoxed(FetchObject(NOTE), 5))
  {
    NoteSupported();
    hide IsCombinatorSupported;
    assert FirstSupported(Sample(), Sample()[NOTE].constructors, 0) == Some(0);
    assert ExpectedId(Sample(), Sample()[NOTE], 0) == Some(0);
    assert ExpectedId(Sample(), Sample()[NOTE], 1) == Some(5);
  }

  lemma NoteFlags()
    ensures FlagsOf(Sample(), NoteArgs(), 0, 0) == [(1, 0)]
  {
    assert FlagsOf(Sample(), NoteArgs(), 0, 5) == [];
    assert FlagsOf(Sample(), NoteArgs(), 0, 4) == [];
    assert FlagsOf(Sample(), NoteArgs(), 0, 3) == [];
    assert FlagsOf(Sample(), NoteArgs(), 0, 2) == [];
    assert FlagsOf(Sample(), NoteArgs(), 0, 1) == [(1, 0)];
  }

  lemma NoteFields()
    ensures FieldStore(Sample(), NoteArgs(), 0, [false]) == Some((StoreFlags(None, 0, [(1, 0)]), [true]))
    ensures FieldStore(Sample(), NoteArgs(), 1, [true]) == Some((StoreNothing, [true]))
    ensures FieldStore(Sample(), NoteArgs(), 2, [true]) == Some((StoreField(Some((0, 1)), StoreBinary(4)), [true]))
    ensures FieldFetch(Sample(), NoteArgs(), 0, [false]) == Some((FetchFlags(None, 0), [true]))
    ensures FieldFetch(Sample(), NoteArgs(), 1, [true]) == Some((FetchBit(0, 0), [true]))
    ensures FieldFetch(Sample(), NoteArgs(), 2, [true]) == Some((FetchField(Some((0, 1)), FetchBinary(4)), [true]))
  {
    IntClasses();
    SharpClasses();
    NoteFlags();
    hide FullStoreClass;
    hide FullFetchClass;
    hide FlagsOf;
    assert [false][0 := true] == [true];
  }

  lemma NoteBoxedFields()
    ensures FieldStore(Sample(), NoteArgs(), 3, [true])
      == Some((StoreField(None, StoreBoxed(StoreVector(StoreBinary(4)), 0x1cb5c415)), [true]))
    ensures FieldStore(Sample(), NoteArgs(), 4, [true])
      == Some((StoreField(Some((0, 2)), StoreBoxed(StoreObject(NOTE), 5)), [true]))
    ensures FieldFetch(Sample(), NoteArgs(), 3, [true])
      == Some((FetchField(None, FetchBoxed(FetchVector(FetchBinary(4)), 0x1cb5c415)), [true]))
    ensures FieldFetch(Sample(), NoteArgs(), 4, [true])
      == Some((FetchField(Some((0, 2)), FetchBoxed(FetchObject(NOTE), 5)), [true]))
  {
    VectorClasses();
    NoteClasses();
    hide FullStoreClass;
    hide FullFetchClass;
  }

  /** What the generator makes of the sample constructor. */
  function NoteStore(): seq<StoreStmt> {
    [StoreFlags(None, 0, [(1, 0)]),
     StoreNothing,
     StoreField(Some((0, 1)), StoreBinary(4)),
     StoreField(None, StoreBoxed(StoreVector(StoreBinary(4)), 0x1cb5c415)),
     StoreField(Some((0, 2)), StoreBoxed(StoreObject(NOTE), 5))]
  }

  function NoteFetch(): seq<FetchStmt> {
    [FetchFlags(None, 0),
     FetchBit(0, 0),
     FetchField(Some((0, 1)), FetchBinary(4)),
     FetchField(None, FetchBoxed(FetchVector(FetchBinary(4)), 0x1cb5c415)),
     FetchField(Some((0, 2)), FetchBoxed(FetchObject(NOTE), 5))]
  }

  lemma NoteStoreField(k: nat)
    requires k < 5
    ensures FieldStore(Sample(), NoteArgs(), k, [k > 0]) == Some((NoteStore()[k], [true]))
  {
    NoteFields();
    NoteBoxedFields();
    hide FieldStore;
  }

  lemma {:induction false} NoteStorePrefixes(k: nat)
    requires k <= 5
    ensures StorePrefix(Sample(), NoteCtor(), k) == Some((NoteStore()[..k], [k > 0]))
  {
    hide FieldStore;
    if k == 0 {
      assert AllUnknown(1) == [false];
    } else {
      NoteStorePrefixes(k - 1);
      NoteStoreField(k - 1);
      hide NoteArgs;
      assert NoteStore()[..k] == NoteStore()[..k - 1] + [NoteStore()[k - 1]];
    }
  }

  lemma NoteFetchField(k: nat)
    requires k < 5
    ensures FieldFetch(Sample(), NoteArgs(), k, [k > 0]) == Some((NoteFetch()[k], [true]))
  {
    NoteFields();
    NoteBoxedFields();
    hide FieldFetch;
  }

  lemma {:induction false} NoteFetchPrefixes(k: nat)
    requires k <= 5
    ensures FetchPrefix(Sample(), NoteCtor(), k) == Some((NoteFetch()[..k], [k > 0]))
  {
    hide FieldFetch;
    if k == 0 {
      assert AllUnknown(1) == [false];
    } else {
      NoteFetchPrefixes(k - 1);
      NoteFetchField(k - 1);
      hide NoteArgs;
      assert NoteFetch()[..k] == NoteFetch()[..k - 1] + [NoteFetch()[k - 1]];
    }
  }

  /** Both halves of the sample constructor. */
  lemma NotePrograms()
    ensures StoreProgram(Sample(), NoteCtor()) == Some(NoteStore())
    ensures FetchProgram(Sample(), NoteCtor()) == Some(NoteFetch())
  {
    NoteStorePrefixes(5);
    NoteFetchPrefixes(5);
    hide StorePrefix;
    hide FetchPrefix;
    assert NoteStore()[..5] == NoteStore() && NoteFetch()[..5] == NoteFetch();
  }

  lemma EmptyPrograms(id: Id, t: nat)
    ensures StoreProgram(Sample(), Ctor(id, t)) == Some([]) && FetchProgram(Sample(), Ctor(id, t)) == Some([])
  {
    assert AllUnknown(0) == [];
  }

  /** So the assumptions of the round trip can be met by a schema with flags, a conditional
      number, a boxed vector and a conditional nested object. */
  lemma SampleIsReady()
    ensures Ready(Sample())
  {
    SampleWellFormed();
    hide WellFormed;
    hide ReadyType;
    NumbersAreReady();
    NotesAreReady();
    forall t | 0 <= t < 5 ensures ReadyType(Sample(), Sample()[t]) {
    }
  }

  lemma NumbersAreReady()
    ensures ReadyType(Sample(), Sample()[SHARP]) && ReadyType(Sample(), Sample()[INT])
    ensures ReadyType(Sample(), Sample()[TRUE]) && ReadyType(Sample(), Sample()[VECTOR])
  {
    TemplateUnsupported();
    EmptyPrograms(0xa8509bda, INT);
    EmptyPrograms(0x3fedd339, TRUE);
    hide IsCombinatorSupported;
    hide StoreProgram;
    hide FetchProgram;
  }

  lemma NotesAreReady()
    ensures ReadyType(Sample(), Sample()[NOTE])
  {
    NotePrograms();
    hide IsCombinatorSupported;
    hide StoreProgram;
    hide FetchProgram;
  }

  // ---------------------------------------------------------------- what is lost

  /** A note whose flag word has its top bit set and nothing else. */
  function NegativeNote(): Value {
    Object(NOTE, 0, [Number(NEGATIVE), Truth(false), Number(0), List([]), Null])
  }

  lemma NegativeBits()
    ensures !Bit(NEGATIVE, 1) && !Bit(NEGATIVE, 2)
  {
    assert !Bit(NEGATIVE / 2, 0);
    assert !Bit(NEGATIVE / 4, 0);
    assert !Bit(NEGATIVE / 2, 1);
  }

  lemma NegativeFold()
    ensures Fold(NEGATIVE, [(1, 0)], NegativeNote().fields) == NEGATIVE
  {
    var bits: seq<(nat, nat)> := [(1, 0)];
    assert bits[1..] == [];
  }

  lemma EmptyVectorStored()
    ensures StoreValue(Sample(), StoreBoxed(StoreVector(StoreBinary(4)), 0x1cb5c415), List([])).Some?
  {
    hide Le;
    assert StoreValue(Sample(), StoreVector(StoreBinary(4)), List([])).Some?;
  }

  lemma NegativeNoteStored()
    ensures StoreFields(Sample(), NoteStore(), NegativeNote().fields, 0, [0]).Some?
  {
    var fields, vars := NegativeNote().fields, [NEGATIVE];
    NegativeBits();
    NegativeFold();
    EmptyVectorStored();
    Widths();
    hide Bit;
    hide Fold;
    hide StoreValue;
    hide Le;
    assert StoreFields(Sample(), NoteStore(), fields, 5, vars).Some?;
    assert StoreFields(Sample(), NoteStore(), fields, 4, vars).Some?;
    assert StoreFields(Sample(), NoteStore(), fields, 3, vars).Some?;
    assert StoreFields(Sample(), NoteStore(), fields, 2, vars).Some?;
    assert StoreFields(Sample(), NoteStore(), fields, 1, vars).Some?;
    assert [0][0 := NEGATIVE] == vars;
  }

  lemma NegativeNoteIsObject()
    ensures IsObject(Sample(), NegativeNote()) && Constructor(Sample(), NegativeNote()) == NoteCtor()
  {
    NoteSupported();
    hide IsCombinatorSupported;
  }

  lemma ObjectStores(schema: Schema, v: Value, program: seq<StoreStmt>, vars: seq<nat>)
    requires IsObject(schema, v) && StoreProgram(schema, Constructor(schema, v)) == Some(program)
    requires |program| == |v.fields| && vars == Zeros(Constructor(schema, v).varCount)
    requires StoreFields(schema, program, v.fields, 0, vars).Some?
    ensures StoreValue(schema, StoreObject(v.t), v).Some?
  {
  }

  lemma NegativeNoteStores()
    ensures StoreValue(Sample(), StoreObject(NOTE), NegativeNote()).Some?
  {
    NegativeNoteIsObject();
    NotePrograms();
    NegativeNoteStored();
    hide StoreValue;
    hide IsObject;
    hide StoreFields;
    hide StoreProgram;
    var vars: seq<nat> := [0];
    assert Zeros(1) == vars;
    assert NoteCtor().varCount == 1;
    ObjectStores(Sample(), NegativeNote(), NoteStore(), vars);
  }

  lemma NegativeWord()
    ensures Word(Sample(), NoteArgs(), NegativeNote().fields, 0) == NEGATIVE
  {
    NegativeFold();
    NoteFlags();
    hide Fold;
    hide FlagsOf;
  }

  /** A value that is stored and cannot be fetched back, because of its flag word. */
  lemma NegativeNoteIsLost(fuel: nat, rest: seq<byte>)
    requires fuel >= Depth(NegativeNote())
    ensures fuel > 0 && StoreValue(Sample(), StoreObject(NOTE), NegativeNote()).Some?
    ensures FetchConstructor(Sample(), fuel - 1, NOTE, 0,
      StoreValue(Sample(), StoreObject(NOTE), NegativeNote()).value + rest).None?
  {
    SampleIsReady();
    NegativeNoteIsObject();
    NegativeNoteStores();
    NegativeWord();
    hide IsCombinatorSupported;
    hide StoreValue;
    hide FetchConstructor;
    hide Ready;
    hide Word;
    NegativeFlagsAreLost(Sample(), NegativeNote(), 0, fuel, rest);
  }

  // ---------------------------------------------------------------- elements without bytes

  /** `unit#7 = Unit;` */
  function UnitCtor(): Combinator { Combinator(7, 0, [], Plain(0, false)) }

  function UnitSchema(): Schema { [TypeInfo(User("Unit"), 0, false, false, 1, [UnitCtor()])] }

  lemma UnitIsReady()
    ensures IsCombinatorSupported(UnitSchema(), UnitCtor())
    ensures StoreProgram(UnitSchema(), UnitCtor()) == Some([])
    ensures Ready(UnitSchema())
  {
    var schema, c := UnitSchema(), UnitCtor();
    assert IsTypeSupported(schema, Plain(0, false));
    assert AllUnknown(0) == [];
    assert SupportedCount(schema, [c]) == 1 by {
      assert [c][..0] == [];
    }
    assert WellFormedType(schema, schema[0]);
  }

  lemma ItemsOfOne(schema: Schema, cls: StoreClass, items: seq<Value>)
    requires |items| == 1 && StoreValue(schema, cls, items[0]) == Some([])
    ensures StoreItems(schema, cls, items) == Some([])
  {
    hide StoreValue;
    assert items[1..] == [];
    assert StoreItems(schema, cls, []) == Some([]);
    var none: seq<byte> := [];
    assert none + none == none;
  }

  /** A vector of one unit is stored and cannot be fetched back, because its element is empty. */
  lemma UnitVectorIsLost(fuel: nat)
    requires fuel > 0
    ensures var schema, v := UnitSchema(), List([Object(0, 0, [])]);
      && StoreValue(schema, StoreVector(StoreObject(0)), v).Some?
      && FetchValue(schema, fuel, FetchVector(FetchObject(0)),
           StoreValue(schema, StoreVector(StoreObject(0)), v).value).None?
  {
    var schema, unit := UnitSchema(), Object(0, 0, []);
    var items := [unit];
    UnitIsReady();
    hide Le;
    hide IsCombinatorSupported;
    hide StoreProgram;
    assert StoreValue(schema, StoreObject(0), unit) == Some([]);
    ItemsOfOne(schema, StoreObject(0), items);
    assert Depth(unit) == 1 && DepthAll(items) == 1;
    hide Ready;
    hide FetchValue;
    EmptyElementsAreLost(schema, StoreVector(StoreObject(0)), FetchVector(FetchObject(0)), List(items), fuel);
  }

  // ---------------------------------------------------------------- a flag of boxed type

  /** `flagged#8 flags:# on:flags.0?True = Flagged;` */
  function FlaggedCtor(): Combinator {
    Combinator(8, 1,
      [Arg(false, false, Some(0), None, Plain(0, false)),
       Arg(false, false, None, Some((0, 0)), Plain(1, false))],
      Plain(2, false))
  }

  function FlaggedSchema(): Schema {
    [TypeInfo(Sharp, 0, false, false, 0, []),
     TypeInfo(True, 0, false, false, 1, [Ctor(0x3fedd339, 1)]),
     TypeInfo(User("Flagged"), 0, false, false, 1, [FlaggedCtor()])]
  }

  /** A constructor the generator supports, with a store half and no fetch half. */
  lemma FlaggedHasNoFetch()
    ensures IsCombinatorSupported(FlaggedSchema(), FlaggedCtor())
    ensures StoreProgram(FlaggedSchema(), FlaggedCtor()).Some?
    ensures FetchProgram(FlaggedSchema(), FlaggedCtor()).None?
  {
    var schema, c := FlaggedSchema(), FlaggedCtor();
    assert IsTypeSupported(schema, Plain(0, false)) && IsTypeSupported(schema, Plain(1, false));
    assert IsTypeSupported(schema, Plain(2, false));
    assert FullStoreClass(schema, Plain(0, false)) == Some(StoreBinary(4));
    hide FullStoreClass;
    hide FlagsOf;
    assert AllUnknown(1) == [false] && [false][0 := true] == [true];
    assert FieldStore(schema, c.args, 0, [false]).Some? && FieldStore(schema, c.args, 0, [false]).value.1 == [true];
    assert FieldStore(schema, c.args, 1, [true]) == Some((StoreNothing, [true]));
    assert StorePrefix(schema, c, 0) == Some(([], [false]));
    assert StorePrefix(schema, c, 1).Some? && StorePrefix(schema, c, 1).value.1 == [true];
    assert StorePrefix(schema, c, 2).Some? && StorePrefix(schema, c, 2).value.1 == [true];
    assert !HasFetch(schema, c.args[1]);
    FetchExistsIff(schema, c);
  }
}
