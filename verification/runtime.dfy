/**
 Interpreters for the generated functions: what calling the function with a
 given id does to a record. A function only ever calls functions generated
 before it (smaller ids); a reference to anything else is treated as a no-op,
 which never arises for tables the compiler builds.
 */
module Runtime {
  import opened Wrappers
  import opened Chains
  import opened Objects
  import opened Memo

  /**
   A generated getter: without a previous hop it reads its property off the
   record; otherwise it calls the previous hop's getter, returns null when that
   yields null, and reads its property off the intermediate object.
   */
  function RunGet(code: seq<Code>, id: Id, v: Value): Value
    decreases id
  {
    if id >= |code| || !code[id].GetterCode? then Null
    else
      match code[id].prev
      case None => Read(v, code[id].prop)
      case Some(p) =>
        if p >= id then Null
        else
          var previous := RunGet(code, p, v);
          if previous.Null? then Null else Read(previous, code[id].prop)
  }

  /**
   A generated setter: without a previous hop it assigns its property on the
   record. Otherwise it asks the previous hop's getter for the intermediate
   object; when that is null it instantiates an empty object of its class and
   stores it through the previous hop's setter, and then assigns its property
   on the intermediate object. The intermediate object lives inside the record,
   so assigning on it is storing the changed object back through the previous
   hop's setter.
   */
  function RunSet(code: seq<Code>, id: Id, v: Value, x: Value): Value
    decreases id
  {
    if id >= |code| || !code[id].SetterCode? then v
    else
      match code[id].prefix
      case None => Write(v, code[id].prop, x)
      case Some(PrefixPair(getter, setter)) =>
        if getter >= id || setter >= id then v
        else
          var previous := RunGet(code, getter, v);
          RunSet(code, setter, v, Write(OrEmpty(previous, code[id].alloc), code[id].prop, x))
  }

  /** Generating more functions never changes what an already generated getter does. */
  lemma {:induction false} RunGetExtend(code: seq<Code>, more: seq<Code>, id: Id, v: Value)
    requires id < |code|
    ensures RunGet(code + more, id, v) == RunGet(code, id, v)
    decreases id
  {
    assert (code + more)[id] == code[id];
    if code[id].GetterCode? && code[id].prev.Some? && code[id].prev.value < id {
      RunGetExtend(code, more, code[id].prev.value, v);
    }
  }

  /** Generating more functions never changes what an already generated setter does. */
  lemma {:induction false} RunSetExtend(code: seq<Code>, more: seq<Code>, id: Id, v: Value, x: Value)
    requires id < |code|
    ensures RunSet(code + more, id, v, x) == RunSet(code, id, v, x)
    decreases id
  {
    assert (code + more)[id] == code[id];
    var f := code[id];
    if f.SetterCode? && f.prefix.Some? && f.prefix.value.getter < id && f.prefix.value.setter < id {
      RunGetExtend(code, more, f.prefix.value.getter, v);
      var previous := RunGet(code, f.prefix.value.getter, v);
      RunSetExtend(code, more, f.prefix.value.setter, v, Write(OrEmpty(previous, f.alloc), f.prop, x));
    }
  }

  // ---------------------------------------------------------------------------
  // Batch getters
  // ---------------------------------------------------------------------------

  /** Whether any of `fields` is requested (`isset($fields[a]) || isset($fields[b]) || …`). */
  predicate AnyIn(fields: seq<Field>, req: set<Field>)
  {
    exists f | f in fields :: f in req
  }

  /** The direct fields: each requested one is read off the object (`$values[f] = $object->p`). */
  function ReadDirect(v: Value, req: set<Field>, slots: seq<Slot>, values: map<Field, Value>): map<Field, Value>
    decreases |slots|
  {
    if slots == [] then values
    else
      var s := slots[0];
      ReadDirect(v, req, slots[1..], if s.field in req then values[s.field := Read(v, s.prop)] else values)
  }

  /** Each requested field of a group whose embedded object is absent reads as null. */
  function NullFill(req: set<Field>, fields: seq<Field>, values: map<Field, Value>): map<Field, Value>
    decreases |fields|
  {
    if fields == [] then values
    else NullFill(req, fields[1..], if fields[0] in req then values[fields[0] := Null] else values)
  }

  /**
   A generated batch getter: start from what the wildcard group's getter
   returns for the same object, read the direct fields, then for every other
   group with a requested field read the embedded object and either merge what
   its batch getter returns (earlier entries win, as with `+=`) or report its
   requested fields as null.
   */
  function RunBatchGet(code: seq<Code>, id: Id, v: Value, req: set<Field>): map<Field, Value>
    decreases id, 1, 0
  {
    if id >= |code| || !code[id].BatchGetterCode? then map[]
    else
      var f := code[id];
      var seeded :=
        match f.seed
        case None => map[]
        case Some(s) => if s < id then RunBatchGet(code, s, v, req) else map[];
      GetGroups(code, id, v, req, f.getGroups, ReadDirect(v, req, f.direct, seeded))
  }

  function GetGroups(code: seq<Code>, id: Id, v: Value, req: set<Field>, groups: seq<GetGroup>, values: map<Field, Value>)
    : map<Field, Value>
    decreases id, 0, |groups|
  {
    if groups == [] then values
    else
      var g := groups[0];
      var values' :=
        if !AnyIn(g.fields, req) then values
        else
          var sub := Read(v, g.prop);
          if sub.Null? then NullFill(req, g.fields, values)
          else if g.sub < id then RunBatchGet(code, g.sub, sub, req) + values
          else values;
      GetGroups(code, id, v, req, groups[1..], values')
  }

  /** Generating more functions never changes what an already generated batch getter does. */
  lemma {:induction false} RunBatchGetExtend(code: seq<Code>, more: seq<Code>, id: Id, v: Value, req: set<Field>)
    requires id < |code|
    ensures RunBatchGet(code + more, id, v, req) == RunBatchGet(code, id, v, req)
    decreases id, 1, 0
  {
    assert (code + more)[id] == code[id];
    var f := code[id];
    if f.BatchGetterCode? {
      if f.seed.Some? && f.seed.value < id {
        RunBatchGetExtend(code, more, f.seed.value, v, req);
      }
      var seeded :=
        match f.seed
        case None => map[]
        case Some(s) => if s < id then RunBatchGet(code, s, v, req) else map[];
      GetGroupsExtend(code, more, id, v, req, f.getGroups, ReadDirect(v, req, f.direct, seeded));
    }
  }

  lemma {:induction false} GetGroupsExtend(code: seq<Code>, more: seq<Code>, id: Id, v: Value, req: set<Field>,
                                           groups: seq<GetGroup>, values: map<Field, Value>)
    requires id < |code|
    ensures GetGroups(code + more, id, v, req, groups, values) == GetGroups(code, id, v, req, groups, values)
    decreases id, 0, |groups|
  {
    if groups != [] {
      var g := groups[0];
      var sub := Read(v, g.prop);
      if AnyIn(g.fields, req) && !sub.Null? && g.sub < id {
        RunBatchGetExtend(code, more, g.sub, sub, req);
      }
      var values' :=
        if !AnyIn(g.fields, req) then values
        else if sub.Null? then NullFill(req, g.fields, values)
        else if g.sub < id then RunBatchGet(code, g.sub, sub, req) + values
        else values;
      GetGroupsExtend(code, more, id, v, req, groups[1..], values');
    }
  }

  // ---------------------------------------------------------------------------
  // Batch setters
  // ---------------------------------------------------------------------------

  /** The value supplied for a field; a field marked defined but not supplied reads as null. */
  function ValueOf(vals: map<Field, Value>, f: Field): Value
  {
    if f in vals then vals[f] else Null
  }

  /** The fields a batch setter assigns: the ones given, or by default every supplied field. */
  function DefinedFields(vals: map<Field, Value>, defined: Option<set<Field>>): set<Field>
  {
    match defined
    case None => vals.Keys
    case Some(d) => d
  }

  /** The direct fields: each defined one is assigned on the object (`$object->p = $fields[f]`). */
  function WriteDirect(v: Value, vals: map<Field, Value>, defined: set<Field>, slots: seq<Slot>): Value
    decreases |slots|
  {
    if slots == [] then v
    else
      var s := slots[0];
      WriteDirect(if s.field in defined then Write(v, s.prop, ValueOf(vals, s.field)) else v, vals, defined, slots[1..])
  }

  /**
   A generated batch setter, once the defined fields are settled: let the
   wildcard group's setter assign on the same object, assign the direct fields,
   then for every other group with a defined field fetch the embedded object,
   instantiate and store an empty one of the group's class when it is absent,
   and let the group's setter assign on it (which changes it inside the record).
   */
  function RunBatchSet(code: seq<Code>, id: Id, v: Value, vals: map<Field, Value>, defined: set<Field>): Value
    decreases id, 1, 0
  {
    if id >= |code| || !code[id].BatchSetterCode? then v
    else
      var f := code[id];
      var seeded :=
        match f.seed
        case None => v
        case Some(s) => if s < id then RunBatchSet(code, s, v, vals, defined) else v;
      SetGroups(code, id, vals, defined, f.setGroups, WriteDirect(seeded, vals, defined, f.direct))
  }

  function SetGroups(code: seq<Code>, id: Id, vals: map<Field, Value>, defined: set<Field>, groups: seq<SetGroup>, v: Value)
    : Value
    decreases id, 0, |groups|
  {
    if groups == [] then v
    else
      var g := groups[0];
      var v' :=
        if !AnyIn(g.fields, defined) || g.sub >= id then v
        else Write(v, g.prop, RunBatchSet(code, g.sub, OrEmpty(Read(v, g.prop), g.alloc), vals, defined));
      SetGroups(code, id, vals, defined, groups[1..], v')
  }

  /** Calling a generated batch setter: `$definedFields` defaults to the keys of `$fields`. */
  function CallBatchSet(code: seq<Code>, id: Id, v: Value, vals: map<Field, Value>, defined: Option<set<Field>>): Value
  {
    RunBatchSet(code, id, v, vals, DefinedFields(vals, defined))
  }

  /** Generating more functions never changes what an already generated batch setter does. */
  lemma {:induction false} RunBatchSetExtend(code: seq<Code>, more: seq<Code>, id: Id, v: Value,
                                             vals: map<Field, Value>, defined: set<Field>)
    requires id < |code|
    ensures RunBatchSet(code + more, id, v, vals, defined) == RunBatchSet(code, id, v, vals, defined)
    decreases id, 1, 0
  {
    assert (code + more)[id] == code[id];
    var f := code[id];
    if f.BatchSetterCode? {
      if f.seed.Some? && f.seed.value < id {
        RunBatchSetExtend(code, more, f.seed.value, v, vals, defined);
      }
      var seeded :=
        match f.seed
        case None => v
        case Some(s) => if s < id then RunBatchSet(code, s, v, vals, defined) else v;
      SetGroupsExtend(code, more, id, vals, defined, f.setGroups, WriteDirect(seeded, vals, defined, f.direct));
    }
  }

  lemma {:induction false} SetGroupsExtend(code: seq<Code>, more: seq<Code>, id: Id, vals: map<Field, Value>,
                                           defined: set<Field>, groups: seq<SetGroup>, v: Value)
    requires id < |code|
    ensures SetGroups(code + more, id, vals, defined, groups, v) == SetGroups(code, id, vals, defined, groups, v)
    decreases id, 0, |groups|
  {
    if groups != [] {
      var g := groups[0];
      var sub := OrEmpty(Read(v, g.prop), g.alloc);
      if AnyIn(g.fields, defined) && g.sub < id {
        RunBatchSetExtend(code, more, g.sub, sub, vals, defined);
      }
      var v' :=
        if !AnyIn(g.fields, defined) || g.sub >= id then v
        else Write(v, g.prop, RunBatchSet(code, g.sub, sub, vals, defined));
      SetGroupsExtend(code, more, id, vals, defined, groups[1..], v');
    }
  }
}
