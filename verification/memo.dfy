/**
 The memo table (`$scope` in the compiler) and the table of generated functions.

 The compiler keys its memo table by strings: `"get\0"` or `"set\0"` followed by
 the serialised chain for scalar accessors, and `"bget"` or `"bset"`, followed by
 `"\0"` and the serialised prefix chain unless that prefix is empty, for batch
 accessors. `KeyStringInjective` shows that distinct keys give distinct strings
 when no name contains the separator, so the model keys the table by the
 structured `Key` itself.

 A generated function is identified by its position in the code table. The
 compiler numbers each function with `count($scope)` at the moment it is
 emitted, and every emission adds exactly one memo entry, so that number is
 the count of functions emitted before it: its position.
 */
module Memo {
  import opened Wrappers
  import opened Chains

  type Id = nat

  datatype Key =
    | GetKey(chain: Chain)
    | SetKey(chain: Chain)
    | BatchGetKey(prefix: Chain)
    | BatchSetKey(prefix: Chain)

  function KeyString(k: Key): string
  {
    match k
    case GetKey(c) => "get" + [Nul] + SerializeChain(c)
    case SetKey(c) => "set" + [Nul] + SerializeChain(c)
    case BatchGetKey(p) => if p == [] then "bget" else "bget" + [Nul] + SerializeChain(p)
    case BatchSetKey(p) => if p == [] then "bset" else "bset" + [Nul] + SerializeChain(p)
  }

  function KeyChain(k: Key): Chain
  {
    match k
    case GetKey(c) => c
    case SetKey(c) => c
    case BatchGetKey(p) => p
    case BatchSetKey(p) => p
  }

  /** Distinct memo keys never collide as strings when names are free of the separator. */
  lemma KeyStringInjective(k1: Key, k2: Key)
    requires NulFreeChain(KeyChain(k1)) && NulFreeChain(KeyChain(k2))
    requires KeyString(k1) == KeyString(k2)
    ensures k1 == k2
  {
    var s1 := KeyString(k1);
    var s2 := KeyString(k2);
    assert s1[0] == s2[0];
    if k1.GetKey? || k1.SetKey? {
      assert k2.GetKey? || k2.SetKey?;
      assert s1[0] == s2[0];
      assert k1.GetKey? <==> k2.GetKey?;
      assert s1[4..] == SerializeChain(KeyChain(k1));
      assert s2[4..] == SerializeChain(KeyChain(k2));
      SerializeChainInjective(KeyChain(k1), KeyChain(k2));
    } else {
      assert k2.BatchGetKey? || k2.BatchSetKey?;
      assert s1[1] == s2[1];
      assert k1.BatchGetKey? <==> k2.BatchGetKey?;
      var p1 := KeyChain(k1);
      var p2 := KeyChain(k2);
      if p1 == [] || p2 == [] {
        assert |s1| == |s2|;
        if p1 != [] {
          assert false;
        }
        if p2 != [] {
          assert false;
        }
      } else {
        assert s1[5..] == SerializeChain(p1);
        assert s2[5..] == SerializeChain(p2);
        SerializeChainInjective(p1, p2);
      }
    }
  }

  /** The two kinds of batch accessor; each kind is memoised by prefix. */
  datatype BatchKind = Getters | Setters

  predicate IsBatchKey(k: Key, kind: BatchKind)
  {
    match kind
    case Getters => k.BatchGetKey?
    case Setters => k.BatchSetKey?
  }

  /** A direct field of a batch accessor: the field and the property it lives in. */
  datatype Slot = Slot(field: Field, prop: Name)

  /**
   A compound group of a batch getter: the property holding the embedded
   object, the fields served through it and the batch getter applied to it.
   */
  datatype GetGroup = GetGroup(prop: Name, fields: seq<Field>, sub: Id)

  /**
   A compound group of a batch setter: as for a getter, plus the class
   instantiated when the embedded object is absent.
   */
  datatype SetGroup = SetGroup(prop: Name, fields: seq<Field>, alloc: Class, sub: Id)

  /** The ids of the getter and setter generated for the chain without its last step. */
  datatype PrefixPair = PrefixPair(getter: Id, setter: Id)

  /** One generated function. */
  datatype Code =
    | GetterCode(prev: Option<Id>, prop: Name)
    | SetterCode(prefix: Option<PrefixPair>, alloc: Class, prop: Name)
    | BatchGetterCode(seed: Option<Id>, direct: seq<Slot>, getGroups: seq<GetGroup>)
    | BatchSetterCode(seed: Option<Id>, direct: seq<Slot>, setGroups: seq<SetGroup>)

  /** The state threaded through one compilation pass. */
  datatype Gen = Gen(scope: map<Key, Id>, code: seq<Code>)

  /** What an emitter hands back: the new state and the id of the requested function. */
  datatype Emitted = Emitted(gen: Gen, id: Id)

  /** What a group emitter hands back: the new state and one id per group. */
  datatype EmittedAll = EmittedAll(gen: Gen, ids: seq<Id>)

  /** The state a compilation pass starts from. */
  const Start: Gen := Gen(map[], [])

  /** `later` keeps every memo entry and every generated function of `earlier`. */
  predicate Extends(earlier: Gen, later: Gen)
  {
    && (forall k | k in earlier.scope :: k in later.scope && later.scope[k] == earlier.scope[k])
    && |earlier.code| <= |later.code|
    && earlier.code == later.code[..|earlier.code|]
  }

  lemma ExtendsTransitive(a: Gen, b: Gen, c: Gen)
    requires Extends(a, b) && Extends(b, c)
    ensures Extends(a, c)
  {
    assert b.code[..|a.code|] == c.code[..|a.code|];
  }

  /** A later state's code is the earlier code followed by what was generated since. */
  lemma ExtendsCode(earlier: Gen, later: Gen)
    requires Extends(earlier, later)
    ensures later.code == earlier.code + later.code[|earlier.code|..]
  {
    assert later.code == later.code[..|earlier.code|] + later.code[|earlier.code|..];
  }

  /** The kind of function a memo key promises. */
  predicate KindMatches(k: Key, f: Code)
  {
    match k
    case GetKey(_) => f.GetterCode?
    case SetKey(_) => f.SetterCode?
    case BatchGetKey(_) => f.BatchGetterCode?
    case BatchSetKey(_) => f.BatchSetterCode?
  }

  /**
   The bookkeeping invariant of a pass: one memo entry per generated function,
   every entry pointing at a distinct function of the promised kind.
   */
  predicate Consistent(g: Gen)
  {
    && |g.scope| == |g.code|
    && (forall k | k in g.scope :: g.scope[k] < |g.code| && KindMatches(k, g.code[g.scope[k]]))
    && (forall k1, k2 | k1 in g.scope && k2 in g.scope && k1 != k2 :: g.scope[k1] != g.scope[k2])
  }

  /** Emitting a new function for an unused key keeps the bookkeeping invariant. */
  lemma {:induction false} RecordKeepsConsistent(g: Gen, k: Key, f: Code)
    requires Consistent(g) && k !in g.scope && KindMatches(k, f)
    ensures Consistent(Record(g, k, f))
  {
    var r := Record(g, k, f);
    assert |r.scope| == |g.scope| + 1;
    forall k1 | k1 in r.scope
      ensures r.scope[k1] < |r.code| && KindMatches(k1, r.code[r.scope[k1]])
    {
      if k1 != k {
        assert r.code[r.scope[k1]] == g.code[g.scope[k1]];
      }
    }
  }

  /** Appends a generated function and binds `k` to it (`$scope[$key] = $id`). */
  function Record(g: Gen, k: Key, f: Code): (r: Gen)
    requires k !in g.scope
    ensures Extends(g, r)
    ensures r.scope.Keys == g.scope.Keys + {k} && |r.code| == |g.code| + 1
    ensures r.scope[k] == |g.code| && r.code[|g.code|] == f
  {
    Gen(g.scope[k := |g.code|], g.code + [f])
  }
}
