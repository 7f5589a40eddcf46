/**
 One compilation pass over an entity's fields (`emitBody`): the scalar getter
 and setter of every field's chain, in field order, then the batch getter and
 the batch setter of the whole field set, all sharing one memo table; the
 published tables map each field to its getter and setter.
 */
module Compiler {
  import opened Wrappers
  import opened Chains
  import opened Objects
  import opened Memo
  import opened Runtime
  import opened ScalarEmitter
  import opened Planner
  import opened BatchGetter
  import opened BatchSetter

  /**
   What a pass publishes: the generated functions, the per-field getter and
   setter tables (`$fastGetters`, `$fastSetters`) and the two batch accessors.
   */
  datatype Accessors = Accessors(
    code: seq<Code>,
    getters: map<Field, Id>,
    setters: map<Field, Id>,
    batchGetter: Id,
    batchSetter: Id)

  /** The getter and then the setter of each field's chain, in field order. */
  function EmitScalars(g: Gen, fs: FieldSet): (r: Gen)
    requires NonEmptyChains(fs)
    ensures Extends(g, r)
    ensures forall e | e in fs :: GetKey(e.chain) in r.scope && SetKey(e.chain) in r.scope
    ensures forall k | k in r.scope && k !in g.scope :: k.GetKey? || k.SetKey?
    decreases |fs|
  {
    if fs == [] then g
    else
      assert fs[0] in fs;
      var getter := EmitGetter(g, fs[0].chain);
      var setter := EmitSetter(getter.gen, fs[0].chain);
      assert forall e | e in fs[1..] :: e in fs;
      var r := EmitScalars(setter.gen, fs[1..]);
      ExtendsTransitive(g, getter.gen, setter.gen);
      ExtendsTransitive(g, setter.gen, r);
      r
  }

  /** In a field set with unique names, entries with the same field are the same entry. */
  lemma FieldDetermines(fs: FieldSet)
    requires UniqueFields(fs)
    ensures forall e1, e2 | e1 in fs && e2 in fs && e1.field == e2.field :: e1 == e2
  {
    forall e1, e2 | e1 in fs && e2 in fs && e1.field == e2.field
      ensures e1 == e2
    {
      EntryOfField(fs, e1, e2);
    }
  }

  /** The state after the scalar accessors and both batch accessors. */
  function EmitAll(fs: FieldSet, isA: IsA): (g: Gen)
    requires WellFormed(fs) && HierarchyOrder(isA)
    ensures forall e | e in fs :: GetKey(e.chain) in g.scope && SetKey(e.chain) in g.scope
    ensures BatchGetKey([]) in g.scope && BatchSetKey([]) in g.scope
  {
    var scalars := EmitScalars(Start, fs);
    var bget := EmitBatchGetter(scalars, [], fs, isA);
    var bset := EmitBatchSetter(bget.gen, [], fs, isA);
    ExtendsTransitive(scalars, bget.gen, bset.gen);
    bset.gen
  }

  /** `$fastGetters`: each field's getter, as the memo table names it. */
  function GetterTable(scope: map<Key, Id>, fs: FieldSet): (t: map<Field, Id>)
    requires UniqueFields(fs)
    requires forall e | e in fs :: GetKey(e.chain) in scope
    ensures t.Keys == Fields(fs)
    ensures forall e | e in fs :: t[e.field] == scope[GetKey(e.chain)]
  {
    FieldDetermines(fs);
    map e | e in fs :: e.field := scope[GetKey(e.chain)]
  }

  /** `$fastSetters`: each field's setter, as the memo table names it. */
  function SetterTable(scope: map<Key, Id>, fs: FieldSet): (t: map<Field, Id>)
    requires UniqueFields(fs)
    requires forall e | e in fs :: SetKey(e.chain) in scope
    ensures t.Keys == Fields(fs)
    ensures forall e | e in fs :: t[e.field] == scope[SetKey(e.chain)]
  {
    FieldDetermines(fs);
    map e | e in fs :: e.field := scope[SetKey(e.chain)]
  }

  /** `emitBody`: every accessor of the entity, and the tables naming them. */
  function EmitBody(fs: FieldSet, isA: IsA): (a: Accessors)
    requires WellFormed(fs) && HierarchyOrder(isA)
    ensures a.getters.Keys == Fields(fs) && a.setters.Keys == Fields(fs)
  {
    var g := EmitAll(fs, isA);
    Accessors(
      g.code,
      GetterTable(g.scope, fs),
      SetterTable(g.scope, fs),
      g.scope[BatchGetKey([])],
      g.scope[BatchSetKey([])])
  }

  // ---------------------------------------------------------------------------
  // Soundness of a pass
  // ---------------------------------------------------------------------------

  lemma {:induction false} EmitScalarsValid(g: Gen, fs: FieldSet)
    requires Valid(g) && NonEmptyChains(fs)
    ensures Valid(EmitScalars(g, fs))
    decreases |fs|
  {
    if fs != [] {
      assert fs[0] in fs;
      EmitGetterSound(g, fs[0].chain);
      var getter := EmitGetter(g, fs[0].chain);
      EmitSetterSound(getter.gen, fs[0].chain);
      var setter := EmitSetter(getter.gen, fs[0].chain);
      assert forall e | e in fs[1..] :: e in fs;
      EmitScalarsValid(setter.gen, fs[1..]);
    }
  }

  /** A scalar accessor emitted earlier still does what its key promises in a later state. */
  lemma ScalarLater(earlier: Gen, later: Gen, k: Key)
    requires Valid(earlier) && Extends(earlier, later) && k in earlier.scope
    ensures later.scope[k] < |later.code| && Implements(later.code, k, later.scope[k])
  {
    ExtendsCode(earlier, later);
    ImplementsExtend(earlier.code, later.code[|earlier.code|..], k, earlier.scope[k]);
  }

  /** Every field's getter and setter, looked up at the end of the pass, follow its chain. */
  lemma ScalarsSound(fs: FieldSet, isA: IsA)
    requires WellFormed(fs) && HierarchyOrder(isA)
    ensures var g := EmitAll(fs, isA);
      forall e | e in fs ::
        && g.scope[GetKey(e.chain)] < |g.code| && Implements(g.code, GetKey(e.chain), g.scope[GetKey(e.chain)])
        && g.scope[SetKey(e.chain)] < |g.code| && Implements(g.code, SetKey(e.chain), g.scope[SetKey(e.chain)])
  {
    var scalars := EmitScalars(Start, fs);
    StartValid();
    EmitScalarsValid(Start, fs);
    var bget := EmitBatchGetter(scalars, [], fs, isA);
    var bset := EmitBatchSetter(bget.gen, [], fs, isA);
    ExtendsTransitive(scalars, bget.gen, bset.gen);
    var g := bset.gen;
    forall e | e in fs
      ensures g.scope[GetKey(e.chain)] < |g.code| && Implements(g.code, GetKey(e.chain), g.scope[GetKey(e.chain)])
      ensures g.scope[SetKey(e.chain)] < |g.code| && Implements(g.code, SetKey(e.chain), g.scope[SetKey(e.chain)])
    {
      ScalarLater(scalars, g, GetKey(e.chain));
      ScalarLater(scalars, g, SetKey(e.chain));
    }
  }

  /** The scalar accessors leave the memo table free of batch accessors. */
  lemma ScalarsNoBatch(fs: FieldSet, kind: BatchKind)
    requires NonEmptyChains(fs)
    ensures NoBatchBelow(EmitScalars(Start, fs).scope, [], kind)
  {
  }

  /** The batch getter of the pass, looked up at its end, returns exactly the requested fields. */
  lemma BatchGetterSound(fs: FieldSet, isA: IsA)
    requires WellFormed(fs) && HierarchyOrder(isA)
    ensures var g := EmitAll(fs, isA);
      g.scope[BatchGetKey([])] < |g.code| && GetterImplements(g.code, g.scope[BatchGetKey([])], fs)
  {
    var scalars := EmitScalars(Start, fs);
    StartValid();
    EmitScalarsValid(Start, fs);
    ScalarsNoBatch(fs, Getters);
    EmitBatchGetterSound(scalars, [], fs, isA);
    var bget := EmitBatchGetter(scalars, [], fs, isA);
    var bset := EmitBatchSetter(bget.gen, [], fs, isA);
    GetterImplementsLater(bget.gen, bset.gen, bget.id, fs);
  }

  /** The batch setter of the pass, looked up at its end, assigns exactly the defined fields. */
  lemma BatchSetterSound(fs: FieldSet, isA: IsA)
    requires WellFormed(fs) && HierarchyOrder(isA)
    ensures var g := EmitAll(fs, isA);
      g.scope[BatchSetKey([])] < |g.code| && SetterImplements(g.code, g.scope[BatchSetKey([])], fs)
  {
    var scalars := EmitScalars(Start, fs);
    StartValid();
    EmitScalarsValid(Start, fs);
    ScalarsNoBatch(fs, Getters);
    EmitBatchGetterSound(scalars, [], fs, isA);
    var bget := EmitBatchGetter(scalars, [], fs, isA);
    assert NoBatchBelow(bget.gen.scope, [], Setters) by {
      ScalarsNoBatch(fs, Setters);
    }
    EmitBatchSetterSound(bget.gen, [], fs, isA);
  }

  /** The published getter table names, for a field, a getter following its chain. */
  lemma GetterSound(fs: FieldSet, isA: IsA, e: Entry)
    requires WellFormed(fs) && HierarchyOrder(isA) && e in fs
    ensures var a := EmitBody(fs, isA);
      forall v :: RunGet(a.code, a.getters[e.field], v) == GetPath(v, Names(e.chain))
  {
    ScalarsSound(fs, isA);
  }

  /** The published setter table names, for a field, a setter assigning along its chain. */
  lemma SetterSound(fs: FieldSet, isA: IsA, e: Entry)
    requires WellFormed(fs) && HierarchyOrder(isA) && e in fs
    ensures var a := EmitBody(fs, isA);
      forall v, x :: RunSet(a.code, a.setters[e.field], v, x) == SetPath(v, e.chain, x)
  {
    ScalarsSound(fs, isA);
  }

  /**
   The accessors of a pass do what they promise: every field's getter follows
   its chain, every setter assigns along it, the batch getter returns exactly
   the requested fields and the batch setter assigns exactly the defined
   ones (whenever no defined field lies inside another).
   */
  lemma EmitBodySound(fs: FieldSet, isA: IsA)
    requires WellFormed(fs) && HierarchyOrder(isA)
    ensures var a := EmitBody(fs, isA);
      && (forall e, v | e in fs :: RunGet(a.code, a.getters[e.field], v) == GetPath(v, Names(e.chain)))
      && (forall e, v, x | e in fs :: RunSet(a.code, a.setters[e.field], v, x) == SetPath(v, e.chain, x))
      && GetterImplements(a.code, a.batchGetter, fs)
      && SetterImplements(a.code, a.batchSetter, fs)
  {
    var a := EmitBody(fs, isA);
    forall e | e in fs
      ensures forall v :: RunGet(a.code, a.getters[e.field], v) == GetPath(v, Names(e.chain))
      ensures forall v, x :: RunSet(a.code, a.setters[e.field], v, x) == SetPath(v, e.chain, x)
    {
      GetterSound(fs, isA, e);
      SetterSound(fs, isA, e);
    }
    BatchGetterSound(fs, isA);
    BatchSetterSound(fs, isA);
  }

  // ---------------------------------------------------------------------------
  // Consequences for callers
  // ---------------------------------------------------------------------------

  /** The batch getter returns the reference result: each requested field, at the end of its chain. */
  lemma BatchGetIsReference(fs: FieldSet, isA: IsA, v: Value, req: set<Field>)
    requires WellFormed(fs) && HierarchyOrder(isA)
    ensures var a := EmitBody(fs, isA);
      RunBatchGet(a.code, a.batchGetter, v, req) == ReferenceGet(fs, v, req)
  {
    BatchGetterSound(fs, isA);
    var a := EmitBody(fs, isA);
    GetterOkIsReference(fs, v, req, RunBatchGet(a.code, a.batchGetter, v, req));
  }

  /**
   Called with or without `$definedFields`, the batch setter assigns exactly
   the defined fields: what a field's own getter then reads is the value
   supplied for it (null when it was marked defined but not supplied).
   */
  lemma GetAfterBatchSet(fs: FieldSet, isA: IsA, v: Value, vals: map<Field, Value>, defined: Option<set<Field>>)
    requires WellFormed(fs) && HierarchyOrder(isA)
    requires Prepared(fs, DefinedFields(vals, defined), v) && PrefixFreeOn(fs, DefinedFields(vals, defined))
    ensures var a := EmitBody(fs, isA); var r := CallBatchSet(a.code, a.batchSetter, v, vals, defined);
      && Assigns(fs, DefinedFields(vals, defined), vals, v, r)
      && forall e | e in fs && e.field in DefinedFields(vals, defined) ::
           RunGet(a.code, a.getters[e.field], r) == ValueOf(vals, e.field)
  {
    EmitBodySound(fs, isA);
  }

  /** Reading back through the batch getter what the batch setter assigned. */
  lemma BatchGetAfterBatchSet(fs: FieldSet, isA: IsA, v: Value, vals: map<Field, Value>, sel: set<Field>, req: set<Field>)
    requires WellFormed(fs) && HierarchyOrder(isA)
    requires Prepared(fs, sel, v) && PrefixFreeOn(fs, sel)
    ensures var a := EmitBody(fs, isA);
      var m := RunBatchGet(a.code, a.batchGetter, RunBatchSet(a.code, a.batchSetter, v, vals, sel), req);
      && m.Keys == Fields(fs) * req
      && forall f | f in m && f in sel :: m[f] == ValueOf(vals, f)
  {
    EmitBodySound(fs, isA);
    var a := EmitBody(fs, isA);
    var r := RunBatchSet(a.code, a.batchSetter, v, vals, sel);
    BatchGetIsReference(fs, isA, r, req);
  }

  /** Reading back through a field's getter what its setter assigned. */
  lemma GetAfterScalarSet(fs: FieldSet, isA: IsA, e: Entry, v: Value, x: Value)
    requires WellFormed(fs) && HierarchyOrder(isA)
    requires e in fs && Navigable(v, Names(e.chain))
    ensures var a := EmitBody(fs, isA);
      RunGet(a.code, a.getters[e.field], RunSet(a.code, a.setters[e.field], v, x)) == x
  {
    GetterSound(fs, isA, e);
    SetterSound(fs, isA, e);
    GetAfterSet(v, e.chain, x);
  }
}
