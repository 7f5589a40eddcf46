/**
 Batch getters (`emitBatchGetter`): one generated function that returns the
 values of every requested field of a field set, walking each embedded
 object once.
 */
module BatchGetter {
  import opened Wrappers
  import opened Chains
  import opened Objects
  import opened Memo
  import opened Runtime
  import opened Planner

  // ---------------------------------------------------------------------------
  // What a batch getter must return
  // ---------------------------------------------------------------------------

  /** `x` is what following the chain of field `f` of `fs` from `v` yields. */
  ghost predicate Correct(fs: FieldSet, v: Value, f: Field, x: Value)
  {
    exists e | e in fs :: e.field == f && x == GetPath(v, Names(e.chain))
  }

  /** Every returned field is requested and carries the value at the end of its chain. */
  ghost predicate GetSound(fs: FieldSet, v: Value, req: set<Field>, m: map<Field, Value>)
  {
    forall f | f in m :: f in req && Correct(fs, v, f, m[f])
  }

  /** Every requested field of the set is returned. */
  ghost predicate GetComplete(fs: FieldSet, req: set<Field>, m: map<Field, Value>)
  {
    forall e | e in fs && e.field in req :: e.field in m
  }

  ghost predicate GetterOk(fs: FieldSet, v: Value, req: set<Field>, m: map<Field, Value>)
  {
    GetSound(fs, v, req, m) && GetComplete(fs, req, m)
  }

  /** The generated function `id` returns exactly the requested fields of `fs`, for every record. */
  ghost predicate GetterImplements(code: seq<Code>, id: Id, fs: FieldSet)
  {
    forall v, req :: GetterOk(fs, v, req, RunBatchGet(code, id, v, req))
  }

  /** The reference result: each requested field of the set, mapped to the value its chain leads to. */
  function ReferenceGet(fs: FieldSet, v: Value, req: set<Field>): (m: map<Field, Value>)
    requires UniqueFields(fs)
    ensures m.Keys == Fields(fs) * req
  {
    map e | e in fs && e.field in req :: e.field := GetPath(v, Names(e.chain))
  }

  /** For a field set with unique names the specification pins the result down completely. */
  lemma GetterOkIsReference(fs: FieldSet, v: Value, req: set<Field>, m: map<Field, Value>)
    requires UniqueFields(fs)
    requires GetterOk(fs, v, req, m)
    ensures m == ReferenceGet(fs, v, req)
  {
    var r := ReferenceGet(fs, v, req);
    forall f | f in m
      ensures f in r && m[f] == r[f]
    {
      var e :| e in fs && e.field == f && m[f] == GetPath(v, Names(e.chain));
      assert f in Fields(fs);
      var e' :| e' in fs && e'.field == f && e'.field in req && r[f] == GetPath(v, Names(e'.chain));
      EntryOfField(fs, e, e');
    }
    forall f | f in r
      ensures f in m
    {
      var e :| e in fs && e.field == f;
    }
    assert m.Keys == r.Keys;
  }

  /** Generating more functions keeps what a batch getter does. */
  lemma GetterImplementsExtend(code: seq<Code>, more: seq<Code>, id: Id, fs: FieldSet)
    requires id < |code| && GetterImplements(code, id, fs)
    ensures GetterImplements(code + more, id, fs)
  {
    forall v, req
      ensures GetterOk(fs, v, req, RunBatchGet(code + more, id, v, req))
    {
      RunBatchGetExtend(code, more, id, v, req);
    }
  }

  // ---------------------------------------------------------------------------
  // The parts of a batch getter
  // ---------------------------------------------------------------------------

  /** Reading a direct field yields the value its single-step chain leads to. */
  lemma {:induction false} ReadDirectOk(fs: FieldSet, v: Value, req: set<Field>, slots: seq<Slot>, values: map<Field, Value>)
    requires GetSound(fs, v, req, values)
    requires forall s | s in slots :: exists e | e in fs :: e.field == s.field && Names(e.chain) == [s.prop]
    ensures GetSound(fs, v, req, ReadDirect(v, req, slots, values))
    ensures forall f | f in values :: f in ReadDirect(v, req, slots, values)
    ensures forall s | s in slots && s.field in req :: s.field in ReadDirect(v, req, slots, values)
    decreases |slots|
  {
    if slots != [] {
      var s := slots[0];
      var values' := if s.field in req then values[s.field := Read(v, s.prop)] else values;
      if s.field in req {
        var e :| e in fs && e.field == s.field && Names(e.chain) == [s.prop];
        assert [s.prop][1..] == [];
        assert GetPath(v, [s.prop]) == Read(v, s.prop);
      }
      assert forall s' | s' in slots[1..] :: s' in slots;
      ReadDirectOk(fs, v, req, slots[1..], values');
    }
  }

  /** Marking the fields of an absent embedded object null is correct for them. */
  lemma {:induction false} NullFillOk(fs: FieldSet, v: Value, req: set<Field>, fields: seq<Field>, values: map<Field, Value>)
    requires GetSound(fs, v, req, values)
    requires forall f | f in fields && f in req :: Correct(fs, v, f, Null)
    ensures GetSound(fs, v, req, NullFill(req, fields, values))
    ensures forall f | f in values :: f in NullFill(req, fields, values)
    ensures forall f | f in fields && f in req :: f in NullFill(req, fields, values)
    decreases |fields|
  {
    if fields != [] {
      var values' := if fields[0] in req then values[fields[0] := Null] else values;
      assert forall f | f in fields[1..] :: f in fields;
      NullFillOk(fs, v, req, fields[1..], values');
    }
  }

  /**
   A code group serves the members of a plan group: its fields are theirs,
   its sub-getter returns them off the embedded object, and each member
   extended by the group's property is a field of `fs`.
   */
  ghost predicate Serves(code: seq<Code>, id: Id, fs: FieldSet, gg: GetGroup, members: FieldSet)
  {
    && gg.sub < id
    && (forall f :: f in gg.fields <==> f in Fields(members))
    && GetterImplements(code, gg.sub, members)
    && Below(fs, gg.prop, members)
  }

  /** Following a path that starts with `p` is following the rest from property `p`. */
  lemma GetPathCons(v: Value, p: Name, rest: seq<Name>)
    ensures GetPath(v, [p] + rest) == GetPath(Read(v, p), rest)
  {
    assert ([p] + rest)[1..] == rest;
  }

  /** One group: skipped, filled with nulls, or merged from its sub-getter. */
  lemma GetGroupOk(code: seq<Code>, id: Id, fs: FieldSet, v: Value, req: set<Field>,
                   gg: GetGroup, members: FieldSet, values: map<Field, Value>)
    requires Serves(code, id, fs, gg, members)
    requires GetSound(fs, v, req, values)
    ensures var values' :=
        if !AnyIn(gg.fields, req) then values
        else
          var sub := Read(v, gg.prop);
          if sub.Null? then NullFill(req, gg.fields, values)
          else if gg.sub < id then RunBatchGet(code, gg.sub, sub, req) + values
          else values;
      && GetSound(fs, v, req, values')
      && (forall f | f in values :: f in values')
      && (forall m | m in members && m.field in req :: m.field in values')
  {
    var sub := Read(v, gg.prop);
    if AnyIn(gg.fields, req) {
      if sub.Null? {
        AbsentGroupOk(fs, v, req, gg, members, values);
      } else {
        MergedGroupOk(fs, v, req, gg, members, RunBatchGet(code, gg.sub, sub, req), values);
      }
    } else {
      forall m | m in members
        ensures m.field !in req
      {
        assert m.field in gg.fields;
      }
    }
  }

  /** Each member of a group is an original field reached through the group's property. */
  ghost predicate Below(fs: FieldSet, prop: Name, members: FieldSet)
  {
    forall m | m in members ::
      |m.chain| >= 1 && exists e | e in fs :: e.field == m.field && Names(e.chain) == [prop] + Names(m.chain)
  }

  /** An absent embedded object: its requested fields are null, which is what their chains yield. */
  lemma AbsentGroupOk(fs: FieldSet, v: Value, req: set<Field>, gg: GetGroup, members: FieldSet, values: map<Field, Value>)
    requires forall f :: f in gg.fields <==> f in Fields(members)
    requires Below(fs, gg.prop, members)
    requires Read(v, gg.prop).Null?
    requires GetSound(fs, v, req, values)
    ensures GetSound(fs, v, req, NullFill(req, gg.fields, values))
    ensures forall f | f in values :: f in NullFill(req, gg.fields, values)
    ensures forall m | m in members && m.field in req :: m.field in NullFill(req, gg.fields, values)
  {
    forall f | f in gg.fields && f in req
      ensures Correct(fs, v, f, Null)
    {
      var m :| m in members && m.field == f;
      var e :| e in fs && e.field == m.field && Names(e.chain) == [gg.prop] + Names(m.chain);
      GetPathCons(v, gg.prop, Names(m.chain));
      GetPathAbsent(Read(v, gg.prop), Names(m.chain));
    }
    NullFillOk(fs, v, req, gg.fields, values);
  }

  /** A present embedded object: what its getter returns is correct for the enclosing fields. */
  lemma MergedGroupOk(fs: FieldSet, v: Value, req: set<Field>, gg: GetGroup, members: FieldSet,
                      x: map<Field, Value>, values: map<Field, Value>)
    requires Below(fs, gg.prop, members)
    requires GetterOk(members, Read(v, gg.prop), req, x)
    requires GetSound(fs, v, req, values)
    ensures GetSound(fs, v, req, x + values)
    ensures forall f | f in values :: f in x + values
    ensures forall m | m in members && m.field in req :: m.field in x + values
  {
    var sub := Read(v, gg.prop);
    forall f | f in x
      ensures Correct(fs, v, f, x[f])
    {
      var m :| m in members && m.field == f && x[f] == GetPath(sub, Names(m.chain));
      var e :| e in fs && e.field == m.field && Names(e.chain) == [gg.prop] + Names(m.chain);
      GetPathCons(v, gg.prop, Names(m.chain));
    }
  }

  /** All remaining groups, in order. */
  lemma {:induction false} GetGroupsOk(code: seq<Code>, id: Id, fs: FieldSet, v: Value, req: set<Field>,
                                       groups: seq<GetGroup>, plan: seq<FieldSet>, values: map<Field, Value>)
    requires |plan| == |groups|
    requires forall j | 0 <= j < |groups| :: Serves(code, id, fs, groups[j], plan[j])
    requires GetSound(fs, v, req, values)
    ensures GetSound(fs, v, req, GetGroups(code, id, v, req, groups, values))
    ensures forall f | f in values :: f in GetGroups(code, id, v, req, groups, values)
    ensures forall j, m | 0 <= j < |plan| && m in plan[j] && m.field in req ::
              m.field in GetGroups(code, id, v, req, groups, values)
    decreases |groups|
  {
    if groups != [] {
      var gg := groups[0];
      var values' :=
        if !AnyIn(gg.fields, req) then values
        else
          var sub := Read(v, gg.prop);
          if sub.Null? then NullFill(req, gg.fields, values)
          else if gg.sub < id then RunBatchGet(code, gg.sub, sub, req) + values
          else values;
      GetGroupOk(code, id, fs, v, req, gg, plan[0], values);
      assert forall j | 0 <= j < |groups| - 1 :: groups[1..][j] == groups[j + 1] && plan[1..][j] == plan[j + 1];
      GetGroupsOk(code, id, fs, v, req, groups[1..], plan[1..], values');
      var r := GetGroups(code, id, v, req, groups, values);
      forall j, m | 0 <= j < |plan| && m in plan[j] && m.field in req
        ensures m.field in r
      {
        if j > 0 {
          assert plan[j] == plan[1..][j - 1];
        }
      }
    }
  }

  // ---------------------------------------------------------------------------
  // The emitted batch getter
  // ---------------------------------------------------------------------------

  /**
   The batch getter generated for a non-empty field set, given the ids of the
   batch getters generated for its groups: the wildcard group's getter seeds
   the result, the direct fields are read, the other groups are visited in order.
   */
  function BatchGetterFor(fs: FieldSet, isA: IsA, ids: seq<Id>): (f: Code)
    requires WellFormed(fs) && fs != [] && HierarchyOrder(isA)
    requires |ids| == |Plan(fs, isA).groups|
    ensures f.BatchGetterCode?
  {
    var sp := Plan(fs, isA);
    var wild := WildStep(Childmost(fs, isA));
    var w := GroupIndex(sp.groups, wild);
    var kept := KeptIndices(sp.groups, wild, 0);
    PlanDirect(fs, isA);
    BatchGetterCode(
      if w < |sp.groups| then Some(ids[w]) else None,
      DirectSlots(sp.direct),
      seq(|kept|, k requires 0 <= k < |kept| =>
        GetGroup(sp.groups[kept[k]].first.name, FieldList(sp.groups[kept[k]].members), ids[kept[k]])))
  }

  /** The result starts out with exactly what the wildcard group's getter returns, which is correct for `fs`. */
  lemma SeedOk(code: seq<Code>, id: Id, fs: FieldSet, isA: IsA, ids: seq<Id>, v: Value, req: set<Field>)
    requires WellFormed(fs) && fs != [] && HierarchyOrder(isA)
    requires |ids| == |Plan(fs, isA).groups|
    requires forall j | 0 <= j < |ids| :: ids[j] < id && GetterImplements(code, ids[j], Plan(fs, isA).groups[j].members)
    ensures var sp := Plan(fs, isA);
      var w := GroupIndex(sp.groups, WildStep(Childmost(fs, isA)));
      var seeded := if w < |sp.groups| then RunBatchGet(code, ids[w], v, req) else map[];
      && GetSound(fs, v, req, seeded)
      && (w < |sp.groups| ==> forall m | m in sp.groups[w].members && m.field in req :: m.field in seeded)
  {
    var sp := Plan(fs, isA);
    var w := GroupIndex(sp.groups, WildStep(Childmost(fs, isA)));
    if w < |sp.groups| {
      PlanGroups(fs, isA);
      assert sp.groups[w] in sp.groups;
      var seeded := RunBatchGet(code, ids[w], v, req);
      assert GetterOk(sp.groups[w].members, v, req, seeded);
      forall f | f in seeded
        ensures Correct(fs, v, f, seeded[f])
      {
        var e :| e in sp.groups[w].members && e.field == f && seeded[f] == GetPath(v, Names(e.chain));
      }
    }
  }

  /** The direct slots read original single-step fields. */
  lemma DirectSlotsOk(fs: FieldSet, isA: IsA)
    requires WellFormed(fs) && fs != [] && HierarchyOrder(isA)
    ensures var sp := Plan(fs, isA);
      NonEmptyChains(sp.direct) &&
      forall s | s in DirectSlots(sp.direct) :: exists e | e in fs :: e.field == s.field && Names(e.chain) == [s.prop]
  {
    var sp := Plan(fs, isA);
    PlanDirect(fs, isA);
    forall s | s in DirectSlots(sp.direct)
      ensures exists e | e in fs :: e.field == s.field && Names(e.chain) == [s.prop]
    {
      var i :| 0 <= i < |sp.direct| && DirectSlots(sp.direct)[i] == s;
      var d := sp.direct[i];
      assert d in sp.direct;
      assert Names(d.chain) == [s.prop];
    }
  }

  /** The plan groups behind the code groups, position by position. */
  function KeptMembers(fs: FieldSet, isA: IsA): seq<FieldSet>
    requires WellFormed(fs) && fs != [] && HierarchyOrder(isA)
  {
    var sp := Plan(fs, isA);
    var kept := KeptIndices(sp.groups, WildStep(Childmost(fs, isA)), 0);
    seq(|kept|, k requires 0 <= k < |kept| => sp.groups[kept[k]].members)
  }

  /** Every code group serves its plan group. */
  lemma GroupsServe(code: seq<Code>, id: Id, fs: FieldSet, isA: IsA, ids: seq<Id>)
    requires WellFormed(fs) && fs != [] && HierarchyOrder(isA)
    requires |ids| == |Plan(fs, isA).groups|
    requires forall j | 0 <= j < |ids| :: ids[j] < id && GetterImplements(code, ids[j], Plan(fs, isA).groups[j].members)
    ensures var groups := BatchGetterFor(fs, isA, ids).getGroups; var plan := KeptMembers(fs, isA);
      |plan| == |groups| && forall k | 0 <= k < |groups| :: Serves(code, id, fs, groups[k], plan[k])
  {
    var sp := Plan(fs, isA);
    var wild := WildStep(Childmost(fs, isA));
    var kept := KeptIndices(sp.groups, wild, 0);
    var groups := BatchGetterFor(fs, isA, ids).getGroups;
    var plan := KeptMembers(fs, isA);
    PlanGroups(fs, isA);
    forall k | 0 <= k < |groups|
      ensures Serves(code, id, fs, groups[k], plan[k])
    {
      var g := sp.groups[kept[k]];
      assert g in sp.groups;
      assert g.first != wild;
      forall m | m in g.members
        ensures exists e | e in fs :: e.field == m.field && Names(e.chain) == [g.first.name] + Names(m.chain)
      {
        var e := Entry(m.field, [g.first] + m.chain);
        assert e in fs;
        NamesAppend([g.first], m.chain);
      }
    }
  }

  /** Every requested field of `fs` is reached by the seed, a direct slot or a kept group. */
  ghost predicate Reached(fs: FieldSet, isA: IsA, f: Field)
    requires WellFormed(fs) && fs != [] && HierarchyOrder(isA)
  {
    var sp := Plan(fs, isA);
    var w := GroupIndex(sp.groups, WildStep(Childmost(fs, isA)));
    var plan := KeptMembers(fs, isA);
    PlanDirect(fs, isA);
    || (exists s | s in DirectSlots(sp.direct) :: s.field == f)
    || (w < |sp.groups| && exists m | m in sp.groups[w].members :: m.field == f)
    || (exists k, m | 0 <= k < |plan| && m in plan[k] :: m.field == f)
  }

  lemma ReachDirect(fs: FieldSet, isA: IsA, e: Entry)
    requires WellFormed(fs) && fs != [] && HierarchyOrder(isA)
    requires e in Plan(fs, isA).direct
    ensures Reached(fs, isA, e.field)
  {
    var sp := Plan(fs, isA);
    PlanDirect(fs, isA);
    var i :| 0 <= i < |sp.direct| && sp.direct[i] == e;
    assert DirectSlots(sp.direct)[i] in DirectSlots(sp.direct);
  }

  lemma ReachWild(fs: FieldSet, isA: IsA, e: Entry, g: Group)
    requires WellFormed(fs) && fs != [] && HierarchyOrder(isA)
    requires g in Plan(fs, isA).groups && g.first == WildStep(Childmost(fs, isA)) && e in g.members
    ensures Reached(fs, isA, e.field)
  {
    var sp := Plan(fs, isA);
    var w := GroupIndex(sp.groups, g.first);
    ExtractShape(MarkParentChains(fs, isA)) by {
      MarkKeepsFields(fs, isA);
    }
    var j :| 0 <= j < |sp.groups| && sp.groups[j] == g;
    assert w == j;
  }

  lemma ReachGroup(fs: FieldSet, isA: IsA, e: Entry, g: Group)
    requires WellFormed(fs) && fs != [] && HierarchyOrder(isA)
    requires e in fs && |e.chain| > 1
    requires g in Plan(fs, isA).groups && g.first == e.chain[0] && Entry(e.field, e.chain[1..]) in g.members
    ensures Reached(fs, isA, e.field)
  {
    var sp := Plan(fs, isA);
    var wild := WildStep(Childmost(fs, isA));
    var kept := KeptIndices(sp.groups, wild, 0);
    var plan := KeptMembers(fs, isA);
    var j :| 0 <= j < |sp.groups| && sp.groups[j] == g;
    assert e.chain[0].name != Wildcard;
    assert j in kept;
    var k :| 0 <= k < |kept| && kept[k] == j;
    assert Entry(e.field, e.chain[1..]) in plan[k];
  }

  lemma PlanReachesAll(fs: FieldSet, isA: IsA, e: Entry)
    requires WellFormed(fs) && fs != [] && HierarchyOrder(isA)
    requires e in fs
    ensures Reached(fs, isA, e.field)
  {
    var sp := Plan(fs, isA);
    var ch := Childmost(fs, isA);
    PlanComplete(fs, isA);
    if |e.chain| == 1 && e.chain[0].owner == ch && e in sp.direct {
      ReachDirect(fs, isA, e);
    } else if e.chain[0].owner != ch {
      var g :| g in sp.groups && g.first == WildStep(ch) && e in g.members;
      ReachWild(fs, isA, e, g);
    } else {
      var g :| g in sp.groups && g.first == e.chain[0] && Entry(e.field, e.chain[1..]) in g.members;
      ReachGroup(fs, isA, e, g);
    }
  }

  /** The batch getter built from a plan returns exactly the requested fields, given sub-getters that do. */
  lemma NewBatchGetterOk(code: seq<Code>, id: Id, fs: FieldSet, isA: IsA, ids: seq<Id>, v: Value, req: set<Field>)
    requires WellFormed(fs) && fs != [] && HierarchyOrder(isA)
    requires |ids| == |Plan(fs, isA).groups|
    requires id < |code| && code[id] == BatchGetterFor(fs, isA, ids)
    requires forall j | 0 <= j < |ids| :: ids[j] < id && GetterImplements(code, ids[j], Plan(fs, isA).groups[j].members)
    ensures GetterOk(fs, v, req, RunBatchGet(code, id, v, req))
  {
    var sp := Plan(fs, isA);
    var w := GroupIndex(sp.groups, WildStep(Childmost(fs, isA)));
    var f := code[id];
    var seeded := if w < |sp.groups| then RunBatchGet(code, ids[w], v, req) else map[];
    SeedOk(code, id, fs, isA, ids, v, req);
    DirectSlotsOk(fs, isA);
    ReadDirectOk(fs, v, req, f.direct, seeded);
    var direct := ReadDirect(v, req, f.direct, seeded);
    GroupsServe(code, id, fs, isA, ids);
    GetGroupsOk(code, id, fs, v, req, f.getGroups, KeptMembers(fs, isA), direct);
    var r := GetGroups(code, id, v, req, f.getGroups, direct);
    assert r == RunBatchGet(code, id, v, req);
    forall e | e in fs && e.field in req
      ensures e.field in r
    {
      PlanReachesAll(fs, isA, e);
    }
  }

  // ---------------------------------------------------------------------------
  // emitBatchGetter
  // ---------------------------------------------------------------------------

  /**
   `emitBatchGetter`: the batch getter for the fields `fs` below `prefix`,
   memoised by prefix. An empty field set gets a getter returning nothing;
   otherwise the groups' getters are emitted first, in group order, and then
   the getter itself.
   */
  function EmitBatchGetter(g: Gen, prefix: Chain, fs: FieldSet, isA: IsA): (r: Emitted)
    requires WellFormed(fs) && HierarchyOrder(isA)
    ensures BatchGetKey(prefix) in g.scope ==> r == Emitted(g, g.scope[BatchGetKey(prefix)])
    ensures BatchGetKey(prefix) in r.gen.scope && r.gen.scope[BatchGetKey(prefix)] == r.id
    ensures Extends(g, r.gen)
    ensures forall k | k in r.gen.scope && k !in g.scope :: k.BatchGetKey? && IsPrefix(prefix, k.prefix)
    decreases MaxLen(fs), Fields(fs), 1, 0
  {
    var key := BatchGetKey(prefix);
    if key in g.scope then Emitted(g, g.scope[key])
    else if fs == [] then Emitted(Record(g, key, BatchGetterCode(None, [], [])), |g.code|)
    else
      PlanGroupsSmaller(fs, isA);
      var subs := EmitGroupGetters(g, prefix, Plan(fs, isA).groups, isA, fs);
      var r := Emitted(Record(subs.gen, key, BatchGetterFor(fs, isA, subs.ids)), |subs.gen.code|);
      ExtendsTransitive(g, subs.gen, r.gen);
      r
  }

  /** The getters of the groups, in order, each below `prefix` extended by the group's first step. */
  function EmitGroupGetters(g: Gen, prefix: Chain, groups: seq<Group>, isA: IsA, ghost fs: FieldSet): (r: EmittedAll)
    requires HierarchyOrder(isA)
    requires forall grp | grp in groups :: WellFormed(grp.members) && Smaller(grp.members, fs)
    ensures |r.ids| == |groups|
    ensures Extends(g, r.gen)
    ensures forall k | k in r.gen.scope && k !in g.scope ::
              k.BatchGetKey? && IsPrefix(prefix, k.prefix) && |k.prefix| > |prefix|
    decreases MaxLen(fs), Fields(fs), 0, |groups|
  {
    if groups == [] then EmittedAll(g, [])
    else
      assert groups[0] in groups;
      assert Smaller(groups[0].members, fs);
      assert MaxLen(groups[0].members) < MaxLen(fs)
          || (MaxLen(groups[0].members) == MaxLen(fs) && Fields(groups[0].members) < Fields(fs));
      var sub := EmitBatchGetter(g, prefix + [groups[0].first], groups[0].members, isA);
      assert forall grp | grp in groups[1..] :: grp in groups;
      var rest := EmitGroupGetters(sub.gen, prefix, groups[1..], isA, fs);
      ExtendsTransitive(g, sub.gen, rest.gen);
      PrefixOfLonger(prefix, groups[0].first);
      EmittedAll(rest.gen, [sub.id] + rest.ids)
  }

  /** Anything extending `prefix + [s]` extends `prefix` and is longer. */
  lemma PrefixOfLonger(prefix: Chain, s: Step)
    ensures forall p: Chain | IsPrefix(prefix + [s], p) :: IsPrefix(prefix, p) && |p| > |prefix|
  {
    forall p: Chain | IsPrefix(prefix + [s], p)
      ensures IsPrefix(prefix, p) && |p| > |prefix|
    {
      assert p[..|prefix|] == (prefix + [s])[..|prefix|];
    }
  }

  /** No batch accessor of the given kind is memoised at `prefix` or below it. */
  ghost predicate NoBatchBelow(scope: map<Key, Id>, prefix: Chain, kind: BatchKind)
  {
    forall k | k in scope && IsBatchKey(k, kind) :: !IsPrefix(prefix, k.prefix)
  }

  /**
   Emitting the batch getter for `fs` into a memo table that has nothing at
   or below `prefix` yields a getter returning exactly the requested fields
   of `fs`, and keeps the bookkeeping invariant.
   */
  lemma {:induction false} EmitBatchGetterSound(g: Gen, prefix: Chain, fs: FieldSet, isA: IsA)
    requires Consistent(g) && WellFormed(fs) && HierarchyOrder(isA)
    requires NoBatchBelow(g.scope, prefix, Getters)
    ensures var r := EmitBatchGetter(g, prefix, fs, isA);
      Consistent(r.gen) && r.id < |r.gen.code| && GetterImplements(r.gen.code, r.id, fs)
    decreases MaxLen(fs), Fields(fs), 1, 0
  {
    var key := BatchGetKey(prefix);
    assert IsPrefix(prefix, prefix);
    assert key !in g.scope;
    if fs == [] {
      EmptyGetterOk(g, key);
    } else {
      PlanGroupsSmaller(fs, isA);
      var groups := Plan(fs, isA).groups;
      GroupsFresh(g, prefix, fs, isA, Getters);
      EmitGroupGettersSound(g, prefix, groups, isA, fs);
      var subs := EmitGroupGetters(g, prefix, groups, isA, fs);
      FinishGetter(subs.gen, key, fs, isA, subs.ids);
    }
  }

  /** The getter of an empty field set returns nothing, which is all it is asked for. */
  lemma EmptyGetterOk(g: Gen, key: Key)
    requires Consistent(g) && key.BatchGetKey? && key !in g.scope
    ensures var r := Record(g, key, BatchGetterCode(None, [], []));
      Consistent(r) && GetterImplements(r.code, |g.code|, [])
  {
    var f := BatchGetterCode(None, [], []);
    RecordKeepsConsistent(g, key, f);
    var r := Record(g, key, f);
    forall v, req
      ensures GetterOk([], v, req, RunBatchGet(r.code, |g.code|, v, req))
    {
      EmptyRunsEmpty(r.code, |g.code|, v, req);
    }
  }

  lemma EmptyRunsEmpty(code: seq<Code>, id: Id, v: Value, req: set<Field>)
    requires id < |code| && code[id] == BatchGetterCode(None, [], [])
    ensures RunBatchGet(code, id, v, req) == map[]
  {
  }

  /** The groups of a plan have distinct first steps, and nothing is memoised below any of them. */
  lemma GroupsFresh(g: Gen, prefix: Chain, fs: FieldSet, isA: IsA, kind: BatchKind)
    requires WellFormed(fs) && fs != [] && HierarchyOrder(isA)
    requires NoBatchBelow(g.scope, prefix, kind)
    ensures var groups := Plan(fs, isA).groups;
      && (forall i, j | 0 <= i < j < |groups| :: groups[i].first != groups[j].first)
      && (forall grp | grp in groups :: NoBatchBelow(g.scope, prefix + [grp.first], kind))
  {
    ExtractShape(MarkParentChains(fs, isA)) by {
      MarkKeepsFields(fs, isA);
    }
    forall grp | grp in Plan(fs, isA).groups
      ensures NoBatchBelow(g.scope, prefix + [grp.first], kind)
    {
      PrefixOfLonger(prefix, grp.first);
    }
  }

  /** Recording the batch getter of a plan, once its groups' getters exist, gives a correct getter. */
  lemma FinishGetter(g: Gen, key: Key, fs: FieldSet, isA: IsA, ids: seq<Id>)
    requires Consistent(g) && key.BatchGetKey? && key !in g.scope
    requires WellFormed(fs) && fs != [] && HierarchyOrder(isA)
    requires |ids| == |Plan(fs, isA).groups|
    requires forall j | 0 <= j < |ids| :: ids[j] < |g.code| && GetterImplements(g.code, ids[j], Plan(fs, isA).groups[j].members)
    ensures var r := Record(g, key, BatchGetterFor(fs, isA, ids));
      Consistent(r) && GetterImplements(r.code, |g.code|, fs)
  {
    var groups := Plan(fs, isA).groups;
    var f := BatchGetterFor(fs, isA, ids);
    RecordKeepsConsistent(g, key, f);
    var r := Record(g, key, f);
    forall j | 0 <= j < |ids|
      ensures GetterImplements(r.code, ids[j], groups[j].members)
    {
      GetterImplementsExtend(g.code, [f], ids[j], groups[j].members);
    }
    forall v, req
      ensures GetterOk(fs, v, req, RunBatchGet(r.code, |g.code|, v, req))
    {
      NewBatchGetterOk(r.code, |g.code|, fs, isA, ids, v, req);
    }
  }

  /** A group's emission adds nothing below the prefixes of the groups after it. */
  lemma SiblingStaysFresh(g: Gen, later: Gen, prefix: Chain, s0: Step, s: Step, kind: BatchKind)
    requires s0 != s
    requires NoBatchBelow(g.scope, prefix + [s], kind)
    requires forall k | k in later.scope && k !in g.scope :: IsBatchKey(k, kind) && IsPrefix(prefix + [s0], k.prefix)
    requires forall k | k in g.scope :: k in later.scope
    ensures NoBatchBelow(later.scope, prefix + [s], kind)
  {
    forall k | k in later.scope && IsBatchKey(k, kind)
      ensures !IsPrefix(prefix + [s], k.prefix)
    {
      if k !in g.scope {
        assert k.prefix[|prefix|] == (prefix + [s0])[|prefix|] == s0;
        assert (prefix + [s])[|prefix|] == s;
      }
    }
  }

  /** A batch getter keeps what it does in every later state. */
  lemma GetterImplementsLater(earlier: Gen, later: Gen, id: Id, fs: FieldSet)
    requires Extends(earlier, later)
    requires id < |earlier.code| && GetterImplements(earlier.code, id, fs)
    ensures id < |later.code| && GetterImplements(later.code, id, fs)
  {
    ExtendsCode(earlier, later);
    GetterImplementsExtend(earlier.code, later.code[|earlier.code|..], id, fs);
  }

  lemma ConsImplements(code: seq<Code>, id0: Id, ids: seq<Id>, groups: seq<Group>)
    requires groups != [] && |ids| == |groups| - 1
    requires id0 < |code| && GetterImplements(code, id0, groups[0].members)
    requires forall j | 0 <= j < |ids| :: ids[j] < |code| && GetterImplements(code, ids[j], groups[1..][j].members)
    ensures forall j | 0 <= j < |groups| ::
              ([id0] + ids)[j] < |code| && GetterImplements(code, ([id0] + ids)[j], groups[j].members)
  {
    forall j | 0 <= j < |groups|
      ensures ([id0] + ids)[j] < |code| && GetterImplements(code, ([id0] + ids)[j], groups[j].members)
    {
      if j > 0 {
        assert ([id0] + ids)[j] == ids[j - 1] && groups[j] == groups[1..][j - 1];
      }
    }
  }

  /** After the first group's emission, nothing is memoised below the other groups' prefixes. */
  lemma TailFresh(g: Gen, later: Gen, prefix: Chain, groups: seq<Group>, kind: BatchKind)
    requires groups != []
    requires forall i, j | 0 <= i < j < |groups| :: groups[i].first != groups[j].first
    requires forall grp | grp in groups :: NoBatchBelow(g.scope, prefix + [grp.first], kind)
    requires forall k | k in later.scope && k !in g.scope :: IsBatchKey(k, kind) && IsPrefix(prefix + [groups[0].first], k.prefix)
    requires forall k | k in g.scope :: k in later.scope
    ensures forall grp | grp in groups[1..] :: NoBatchBelow(later.scope, prefix + [grp.first], kind)
  {
    forall grp | grp in groups[1..]
      ensures NoBatchBelow(later.scope, prefix + [grp.first], kind)
    {
      var j :| 0 <= j < |groups[1..]| && groups[1..][j] == grp;
      assert groups[j + 1] == grp;
      SiblingStaysFresh(g, later, prefix, groups[0].first, grp.first, kind);
    }
  }

  /** The groups after the first keep the shape requirements. */
  lemma TailShape(groups: seq<Group>, fs: FieldSet)
    requires groups != []
    requires forall grp | grp in groups :: WellFormed(grp.members) && Smaller(grp.members, fs)
    requires forall i, j | 0 <= i < j < |groups| :: groups[i].first != groups[j].first
    ensures forall grp | grp in groups[1..] :: WellFormed(grp.members) && Smaller(grp.members, fs)
    ensures forall i, j | 0 <= i < j < |groups[1..]| :: groups[1..][i].first != groups[1..][j].first
  {
    assert forall grp | grp in groups[1..] :: grp in groups;
    forall i, j | 0 <= i < j < |groups[1..]|
      ensures groups[1..][i].first != groups[1..][j].first
    {
      assert groups[1..][i] == groups[i + 1] && groups[1..][j] == groups[j + 1];
    }
  }

  lemma {:induction false} EmitGroupGettersSound(g: Gen, prefix: Chain, groups: seq<Group>, isA: IsA, fs: FieldSet)
    requires Consistent(g) && HierarchyOrder(isA)
    requires forall grp | grp in groups :: WellFormed(grp.members) && Smaller(grp.members, fs)
    requires forall i, j | 0 <= i < j < |groups| :: groups[i].first != groups[j].first
    requires forall grp | grp in groups :: NoBatchBelow(g.scope, prefix + [grp.first], Getters)
    ensures var r := EmitGroupGetters(g, prefix, groups, isA, fs);
      && Consistent(r.gen)
      && forall j | 0 <= j < |groups| ::
           r.ids[j] < |r.gen.code| && GetterImplements(r.gen.code, r.ids[j], groups[j].members)
    decreases MaxLen(fs), Fields(fs), 0, |groups|
  {
    if groups != [] {
      assert groups[0] in groups;
      assert Smaller(groups[0].members, fs);
      assert MaxLen(groups[0].members) < MaxLen(fs)
          || (MaxLen(groups[0].members) == MaxLen(fs) && Fields(groups[0].members) < Fields(fs));
      var p0 := prefix + [groups[0].first];
      EmitBatchGetterSound(g, p0, groups[0].members, isA);
      var sub := EmitBatchGetter(g, p0, groups[0].members, isA);
      var tail := groups[1..];
      TailFresh(g, sub.gen, prefix, groups, Getters);
      TailShape(groups, fs);
      EmitGroupGettersSound(sub.gen, prefix, tail, isA, fs);
      var rest := EmitGroupGetters(sub.gen, prefix, tail, isA, fs);
      GetterImplementsLater(sub.gen, rest.gen, sub.id, groups[0].members);
      ConsImplements(rest.gen.code, sub.id, rest.ids, groups);
      assert EmitGroupGetters(g, prefix, groups, isA, fs) == EmittedAll(rest.gen, [sub.id] + rest.ids);
    }
  }
}
