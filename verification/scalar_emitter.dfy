/**
 Emission of single-field getters and setters (`emitGetter`, `emitSetter`).

 Both consult the memo table first. On a miss they emit, or reuse, the
 functions for the chain without its last step and then one new function for
 the whole chain, so that fields whose chains share a prefix share the
 functions generated for it.
 */
module ScalarEmitter {
  import opened Wrappers
  import opened Chains
  import opened Objects
  import opened Memo
  import opened Runtime

  /** The chain without its last step. */
  function Init(c: Chain): Chain
    requires |c| >= 1
  {
    c[..|c| - 1]
  }

  predicate IsNonEmptyPrefix(p: Chain, c: Chain)
  {
    1 <= |p| <= |c| && p == c[..|p|]
  }

  /**
   Every scalar key in the table comes with the keys of its shorter prefixes:
   a getter with the getters of every shorter prefix, a setter with both the
   getter and the setter of every shorter prefix.
   */
  predicate PrefixClosed(scope: map<Key, Id>)
  {
    && (forall k | k in scope && (k.GetKey? || k.SetKey?) :: |k.chain| >= 1)
    && (forall k, i | k in scope && k.GetKey? && 1 <= i < |k.chain| :: GetKey(k.chain[..i]) in scope)
    && (forall k, i | k in scope && k.SetKey? && 1 <= i < |k.chain| ::
          GetKey(k.chain[..i]) in scope && SetKey(k.chain[..i]) in scope)
  }

  /** The function at `id` does what key `k` promises for every record and value. */
  ghost predicate Implements(code: seq<Code>, k: Key, id: Id)
  {
    match k
    case GetKey(c) => forall v :: RunGet(code, id, v) == GetPath(v, Names(c))
    case SetKey(c) => |c| >= 1 && forall v, x :: RunSet(code, id, v, x) == SetPath(v, c, x)
    case BatchGetKey(_) => true
    case BatchSetKey(_) => true
  }

  /** The invariant of a compilation pass as far as scalar accessors are concerned. */
  ghost predicate Valid(g: Gen)
  {
    && Consistent(g)
    && PrefixClosed(g.scope)
    && AllImplemented(g)
  }

  /** Every memo entry points at a generated function that does what its key promises. */
  ghost predicate AllImplemented(g: Gen)
  {
    forall k | k in g.scope :: g.scope[k] < |g.code| && Implements(g.code, k, g.scope[k])
  }

  lemma StartValid()
    ensures Valid(Start)
  {
  }

  /** The function emitted for the getter key of `c`, given the previous hop's getter. */
  function GetterFor(c: Chain, prev: Option<Id>): Code
    requires |c| >= 1
  {
    GetterCode(prev, c[|c| - 1].name)
  }

  function EmitGetter(g: Gen, c: Chain): (r: Emitted)
    requires |c| >= 1
    ensures GetKey(c) in g.scope ==> r == Emitted(g, g.scope[GetKey(c)])
    ensures GetKey(c) in r.gen.scope && r.gen.scope[GetKey(c)] == r.id
    ensures Extends(g, r.gen)
    ensures forall k | k in r.gen.scope && k !in g.scope :: k.GetKey? && IsNonEmptyPrefix(k.chain, c)
    decreases |c|
  {
    var key := GetKey(c);
    if key in g.scope then Emitted(g, g.scope[key])
    else if |c| == 1 then
      Emitted(Record(g, key, GetterFor(c, None)), |g.code|)
    else
      var prev := EmitGetter(g, Init(c));
      var r := Emitted(Record(prev.gen, key, GetterFor(c, Some(prev.id))), |prev.gen.code|);
      InitPrefixes(c);
      ExtendsTransitive(g, prev.gen, r.gen);
      r
  }

  /** Emitting a getter keeps the bookkeeping invariant. */
  lemma {:induction false} EmitGetterConsistent(g: Gen, c: Chain)
    requires |c| >= 1 && Consistent(g)
    ensures Consistent(EmitGetter(g, c).gen)
    decreases |c|
  {
    var key := GetKey(c);
    if key !in g.scope {
      if |c| == 1 {
        RecordKeepsConsistent(g, key, GetterFor(c, None));
      } else {
        var prev := EmitGetter(g, Init(c));
        EmitGetterConsistent(g, Init(c));
        RecordKeepsConsistent(prev.gen, key, GetterFor(c, Some(prev.id)));
      }
    }
  }

  /** Adding a scalar key whose shorter prefixes are all present keeps the table prefix-closed. */
  lemma AddKeepsPrefixClosed(scope: map<Key, Id>, k: Key, id: Id)
    requires PrefixClosed(scope)
    requires k.GetKey? || k.SetKey?
    requires |k.chain| >= 1
    requires forall i | 1 <= i < |k.chain| :: GetKey(k.chain[..i]) in scope
    requires k.SetKey? ==> forall i | 1 <= i < |k.chain| :: SetKey(k.chain[..i]) in scope
    ensures PrefixClosed(scope[k := id])
  {
  }

  /** Emitting a getter keeps the memo table prefix-closed. */
  lemma {:induction false} EmitGetterPrefixClosed(g: Gen, c: Chain)
    requires |c| >= 1 && PrefixClosed(g.scope)
    ensures PrefixClosed(EmitGetter(g, c).gen.scope)
    decreases |c|
  {
    var key := GetKey(c);
    if key !in g.scope {
      if |c| == 1 {
        AddKeepsPrefixClosed(g.scope, key, |g.code|);
      } else {
        var prev := EmitGetter(g, Init(c));
        EmitGetterPrefixClosed(g, Init(c));
        var sc := prev.gen.scope;
        forall i | 1 <= i < |c|
          ensures GetKey(c[..i]) in sc
        {
          if i < |c| - 1 {
            assert c[..i] == Init(c)[..i];
          } else {
            assert c[..i] == Init(c);
          }
        }
        AddKeepsPrefixClosed(sc, key, |prev.gen.code|);
      }
    }
  }

  /** The function emitted for the setter key of `c`, given the previous hop's getter and setter. */
  function SetterFor(c: Chain, prefix: Option<PrefixPair>): Code
    requires |c| >= 1
  {
    SetterCode(prefix, c[|c| - 1].owner, c[|c| - 1].name)
  }

  function EmitSetter(g: Gen, c: Chain): (r: Emitted)
    requires |c| >= 1
    ensures SetKey(c) in g.scope ==> r == Emitted(g, g.scope[SetKey(c)])
    ensures SetKey(c) in r.gen.scope && r.gen.scope[SetKey(c)] == r.id
    ensures Extends(g, r.gen)
    ensures forall k | k in r.gen.scope && k !in g.scope ::
              || (k.GetKey? && IsNonEmptyPrefix(k.chain, c) && |k.chain| < |c|)
              || (k.SetKey? && IsNonEmptyPrefix(k.chain, c))
    decreases |c|
  {
    var key := SetKey(c);
    if key in g.scope then Emitted(g, g.scope[key])
    else if |c| == 1 then
      Emitted(Record(g, key, SetterFor(c, None)), |g.code|)
    else
      var getter := EmitGetter(g, Init(c));
      var setter := EmitSetter(getter.gen, Init(c));
      var r := Emitted(Record(setter.gen, key, SetterFor(c, Some(PrefixPair(getter.id, setter.id)))), |setter.gen.code|);
      SetterNewKeys(g, getter.gen, setter.gen, r.gen, c);
      r
  }

  /** A non-empty prefix of a chain without its last step is a shorter non-empty prefix of the chain. */
  lemma InitPrefixes(c: Chain)
    requires |c| >= 1
    ensures forall p | IsNonEmptyPrefix(p, Init(c)) :: IsNonEmptyPrefix(p, c) && |p| < |c|
  {
  }

  /** The keys a setter emission adds: getters of shorter prefixes and setters of prefixes. */
  lemma SetterNewKeys(g: Gen, afterGetter: Gen, afterSetter: Gen, last: Gen, c: Chain)
    requires |c| >= 2
    requires Extends(g, afterGetter) && Extends(afterGetter, afterSetter) && Extends(afterSetter, last)
    requires forall k | k in afterGetter.scope && k !in g.scope :: k.GetKey? && IsNonEmptyPrefix(k.chain, Init(c))
    requires forall k | k in afterSetter.scope && k !in afterGetter.scope ::
               || (k.GetKey? && IsNonEmptyPrefix(k.chain, Init(c)) && |k.chain| < |Init(c)|)
               || (k.SetKey? && IsNonEmptyPrefix(k.chain, Init(c)))
    requires last.scope.Keys == afterSetter.scope.Keys + {SetKey(c)}
    ensures Extends(g, last)
    ensures forall k | k in last.scope && k !in g.scope ::
              || (k.GetKey? && IsNonEmptyPrefix(k.chain, c) && |k.chain| < |c|)
              || (k.SetKey? && IsNonEmptyPrefix(k.chain, c))
  {
    InitPrefixes(c);
    ExtendsTransitive(g, afterGetter, afterSetter);
    ExtendsTransitive(g, afterSetter, last);
    assert IsNonEmptyPrefix(c, c);
  }

  /** Emitting a setter keeps the bookkeeping invariant. */
  lemma {:induction false} EmitSetterConsistent(g: Gen, c: Chain)
    requires |c| >= 1 && Consistent(g)
    ensures Consistent(EmitSetter(g, c).gen)
    decreases |c|
  {
    var key := SetKey(c);
    if key !in g.scope {
      if |c| == 1 {
        RecordKeepsConsistent(g, key, SetterFor(c, None));
      } else {
        var getter := EmitGetter(g, Init(c));
        EmitGetterConsistent(g, Init(c));
        var setter := EmitSetter(getter.gen, Init(c));
        EmitSetterConsistent(getter.gen, Init(c));
        RecordKeepsConsistent(setter.gen, key, SetterFor(c, Some(PrefixPair(getter.id, setter.id))));
      }
    }
  }

  /** In a prefix-closed table holding both accessors of `Init(c)`, both accessors of every shorter prefix of `c` are present. */
  lemma SetterPrefixesPresent(sc: map<Key, Id>, c: Chain)
    requires |c| >= 2 && PrefixClosed(sc)
    requires GetKey(Init(c)) in sc && SetKey(Init(c)) in sc
    ensures forall i | 1 <= i < |c| :: GetKey(c[..i]) in sc && SetKey(c[..i]) in sc
  {
    forall i | 1 <= i < |c|
      ensures GetKey(c[..i]) in sc && SetKey(c[..i]) in sc
    {
      if i < |c| - 1 {
        assert c[..i] == Init(c)[..i];
      } else {
        assert c[..i] == Init(c);
      }
    }
  }

  /** Emitting a setter keeps the memo table prefix-closed. */
  lemma {:induction false} EmitSetterPrefixClosed(g: Gen, c: Chain)
    requires |c| >= 1 && PrefixClosed(g.scope)
    ensures PrefixClosed(EmitSetter(g, c).gen.scope)
    decreases |c|
  {
    var key := SetKey(c);
    if key !in g.scope {
      if |c| == 1 {
        AddKeepsPrefixClosed(g.scope, key, |g.code|);
      } else {
        var getter := EmitGetter(g, Init(c));
        EmitGetterPrefixClosed(g, Init(c));
        var setter := EmitSetter(getter.gen, Init(c));
        EmitSetterPrefixClosed(getter.gen, Init(c));
        var sc := setter.gen.scope;
        assert GetKey(Init(c)) in sc && SetKey(Init(c)) in sc;
        SetterPrefixesPresent(sc, c);
        AddKeepsPrefixClosed(sc, key, |setter.gen.code|);
      }
    }
  }

  // ---------------------------------------------------------------------------
  // The generated scalar accessors do what their keys promise
  // ---------------------------------------------------------------------------

  lemma ImplementsExtend(code: seq<Code>, more: seq<Code>, k: Key, id: Id)
    requires id < |code| && Implements(code, k, id)
    ensures Implements(code + more, k, id)
  {
    match k
    case GetKey(c) =>
      forall v
        ensures RunGet(code + more, id, v) == GetPath(v, Names(c))
      {
        RunGetExtend(code, more, id, v);
      }
    case SetKey(c) =>
      forall v, x
        ensures RunSet(code + more, id, v, x) == SetPath(v, c, x)
      {
        RunSetExtend(code, more, id, v, x);
      }
    case BatchGetKey(_) =>
    case BatchSetKey(_) =>
  }

  /** Recording a function that implements its key keeps every entry implemented. */
  lemma RecordKeepsImplemented(g: Gen, k: Key, f: Code)
    requires k !in g.scope && AllImplemented(g)
    requires Implements(g.code + [f], k, |g.code|)
    ensures AllImplemented(Record(g, k, f))
  {
    forall k1 | k1 in g.scope
      ensures Implements(g.code + [f], k1, g.scope[k1])
    {
      ImplementsExtend(g.code, [f], k1, g.scope[k1]);
    }
  }

  /** A new getter that calls a correct getter for the chain's prefix is correct for the chain. */
  lemma NewGetterImplements(code: seq<Code>, c: Chain, prev: Option<Id>)
    requires |c| >= 1 && (|c| == 1 <==> prev.None?)
    requires prev.Some? ==> prev.value < |code| && Implements(code, GetKey(Init(c)), prev.value)
    ensures Implements(code + [GetterFor(c, prev)], GetKey(c), |code|)
  {
    var f := GetterFor(c, prev);
    var last := c[|c| - 1];
    assert c == Init(c) + [last];
    NamesAppend(Init(c), [last]);
    assert Names(c) == Names(Init(c)) + [last.name];
    forall v
      ensures RunGet(code + [f], |code|, v) == GetPath(v, Names(c))
    {
      GetPathSnoc(v, Names(Init(c)), last.name);
      assert (code + [f])[|code|] == f;
      if |c| == 1 {
        assert Names(Init(c)) == [];
      } else {
        RunGetExtend(code, [f], prev.value, v);
        assert RunGet(code, prev.value, v) == GetPath(v, Names(Init(c)));
      }
    }
  }

  /** A new setter that calls a correct getter and setter for the chain's prefix is correct for the chain. */
  lemma NewSetterImplements(code: seq<Code>, c: Chain, prefix: Option<PrefixPair>)
    requires |c| >= 1 && (|c| == 1 <==> prefix.None?)
    requires prefix.Some? ==>
      && prefix.value.getter < |code| && Implements(code, GetKey(Init(c)), prefix.value.getter)
      && prefix.value.setter < |code| && Implements(code, SetKey(Init(c)), prefix.value.setter)
    ensures Implements(code + [SetterFor(c, prefix)], SetKey(c), |code|)
  {
    var f := SetterFor(c, prefix);
    var last := c[|c| - 1];
    assert c == Init(c) + [last];
    forall v, x
      ensures RunSet(code + [f], |code|, v, x) == SetPath(v, c, x)
    {
      if |c| > 1 {
        var pg := prefix.value.getter;
        var ps := prefix.value.setter;
        RunGetExtend(code, [f], pg, v);
        var previous := RunGet(code, pg, v);
        RunSetExtend(code, [f], ps, v, Write(OrEmpty(previous, last.owner), last.name, x));
        SetPathSnoc(v, Init(c), last, x);
      }
    }
  }

  /** Emitting a getter keeps every memo entry implemented. */
  lemma {:induction false} EmitGetterImplemented(g: Gen, c: Chain)
    requires |c| >= 1 && AllImplemented(g)
    ensures AllImplemented(EmitGetter(g, c).gen)
    decreases |c|
  {
    var key := GetKey(c);
    if key !in g.scope {
      if |c| == 1 {
        NewGetterImplements(g.code, c, None);
        RecordKeepsImplemented(g, key, GetterFor(c, None));
      } else {
        var prev := EmitGetter(g, Init(c));
        EmitGetterImplemented(g, Init(c));
        NewGetterImplements(prev.gen.code, c, Some(prev.id));
        RecordKeepsImplemented(prev.gen, key, GetterFor(c, Some(prev.id)));
      }
    }
  }

  /** Emitting a setter keeps every memo entry implemented. */
  lemma {:induction false} EmitSetterImplemented(g: Gen, c: Chain)
    requires |c| >= 1 && AllImplemented(g)
    ensures AllImplemented(EmitSetter(g, c).gen)
    decreases |c|
  {
    var key := SetKey(c);
    if key !in g.scope {
      if |c| == 1 {
        NewSetterImplements(g.code, c, None);
        RecordKeepsImplemented(g, key, SetterFor(c, None));
      } else {
        var getter := EmitGetter(g, Init(c));
        EmitGetterImplemented(g, Init(c));
        var setter := EmitSetter(getter.gen, Init(c));
        EmitSetterImplemented(getter.gen, Init(c));
        var prefix := PrefixPair(getter.id, setter.id);
        assert setter.gen.scope[GetKey(Init(c))] == getter.id;
        NewSetterImplements(setter.gen.code, c, Some(prefix));
        RecordKeepsImplemented(setter.gen, key, SetterFor(c, Some(prefix)));
      }
    }
  }

  /** The getter emitted for a chain reads exactly what following the chain reads. */
  lemma EmitGetterSound(g: Gen, c: Chain)
    requires |c| >= 1 && Valid(g)
    ensures Valid(EmitGetter(g, c).gen)
    ensures forall v :: RunGet(EmitGetter(g, c).gen.code, EmitGetter(g, c).id, v) == GetPath(v, Names(c))
  {
    EmitGetterConsistent(g, c);
    EmitGetterPrefixClosed(g, c);
    EmitGetterImplemented(g, c);
    var r := EmitGetter(g, c);
    assert Implements(r.gen.code, GetKey(c), r.id);
  }

  /** The setter emitted for a chain assigns exactly as assigning along the chain does. */
  lemma EmitSetterSound(g: Gen, c: Chain)
    requires |c| >= 1 && Valid(g)
    ensures Valid(EmitSetter(g, c).gen)
    ensures forall v, x :: RunSet(EmitSetter(g, c).gen.code, EmitSetter(g, c).id, v, x) == SetPath(v, c, x)
  {
    EmitSetterConsistent(g, c);
    EmitSetterPrefixClosed(g, c);
    EmitSetterImplemented(g, c);
    var r := EmitSetter(g, c);
    assert Implements(r.gen.code, SetKey(c), r.id);
  }
}
