/**
 Field chains: the flattened access paths the accessor compiler works on.

 A mapped property is either a plain property declared on some class, or an
 embedded property composed of the property holding the embedded object and
 the property inside it. Both flatten into a non-empty sequence of steps
 `(owner class, property name)` leading from the root record to the slot.
 */
module Chains {

  type Class = string
  type Name = string
  type Field = string

  /** Property name of the synthetic step prepended by hierarchy normalisation. */
  const Wildcard: Name := "*"

  /** The separator the compiler uses when it turns chains into strings. */
  const Nul: char := '\0'

  datatype Step = Step(owner: Class, name: Name)

  type Chain = seq<Step>

  /** The metadata description of one mapped property. */
  datatype Property =
    | Plain(declaringClass: Class, name: Name)
    | Embedded(parent: Property, child: Property)

  /** Number of plain properties a description is built from. */
  function LeafCount(p: Property): nat
  {
    match p
    case Plain(_, _) => 1
    case Embedded(a, b) => LeafCount(a) + LeafCount(b)
  }

  /** True iff `s` names one of the plain properties `p` is built from. */
  predicate HasLeaf(p: Property, s: Step)
  {
    match p
    case Plain(c, n) => s == Step(c, n)
    case Embedded(a, b) => HasLeaf(a, s) || HasLeaf(b, s)
  }

  /** The left-most plain property of a description: where its chain starts. */
  function FirstLeaf(p: Property): Step
  {
    match p
    case Plain(c, n) => Step(c, n)
    case Embedded(a, _) => FirstLeaf(a)
  }

  /** The chain of a property: one step per plain property, parent before child. */
  function PropertyChain(p: Property): (c: Chain)
    ensures |c| == LeafCount(p) >= 1
    ensures c[0] == FirstLeaf(p)
    ensures forall i | 0 <= i < |c| :: HasLeaf(p, c[i])
    ensures forall s | HasLeaf(p, s) :: s in c
  {
    match p
    case Plain(c, n) => [Step(c, n)]
    case Embedded(a, b) => PropertyChain(a) + PropertyChain(b)
  }

  /** The names along a chain: what is actually read when the chain is followed. */
  function Names(c: Chain): (r: seq<Name>)
    ensures |r| == |c|
    ensures forall i | 0 <= i < |c| :: r[i] == c[i].name
  {
    if c == [] then [] else [c[0].name] + Names(c[1..])
  }

  lemma NamesAppend(a: Chain, b: Chain)
    ensures Names(a + b) == Names(a) + Names(b)
  {
  }

  // ---------------------------------------------------------------------------
  // Field sets
  // ---------------------------------------------------------------------------

  /** One mapped field of the record and its chain. */
  datatype Entry = Entry(field: Field, chain: Chain)

  /** An ordered field -> chain table (field names are unique in a well-formed one). */
  type FieldSet = seq<Entry>

  function Fields(fs: FieldSet): set<Field>
  {
    set e | e in fs :: e.field
  }

  predicate UniqueFields(fs: FieldSet)
  {
    forall i, j | 0 <= i < j < |fs| :: fs[i].field != fs[j].field
  }

  predicate NoWildcard(c: Chain)
  {
    forall i | 0 <= i < |c| :: c[i].name != Wildcard
  }

  /**
   A field set as metadata produces it: unique field names, non-empty chains,
   and no property called `*` (which is not a legal property name).
   */
  predicate WellFormed(fs: FieldSet)
  {
    && UniqueFields(fs)
    && forall e | e in fs :: |e.chain| >= 1 && NoWildcard(e.chain)
  }

  /** In a field set with unique names, an entry is determined by its field. */
  lemma EntryOfField(fs: FieldSet, e1: Entry, e2: Entry)
    requires UniqueFields(fs)
    requires e1 in fs && e2 in fs && e1.field == e2.field
    ensures e1 == e2
  {
    var i :| 0 <= i < |fs| && fs[i] == e1;
    var j :| 0 <= j < |fs| && fs[j] == e2;
    if i < j || j < i {
      assert false;
    }
  }

  /** The metadata of one field, before resolution. */
  datatype Descriptor = Descriptor(field: Field, property: Property)

  predicate LeavesAvoidWildcard(p: Property)
  {
    match p
    case Plain(_, n) => n != Wildcard
    case Embedded(a, b) => LeavesAvoidWildcard(a) && LeavesAvoidWildcard(b)
  }

  lemma {:induction false} ChainAvoidsWildcard(p: Property)
    requires LeavesAvoidWildcard(p)
    ensures NoWildcard(PropertyChain(p))
  {
    match p
    case Plain(_, _) =>
    case Embedded(a, b) =>
      ChainAvoidsWildcard(a);
      ChainAvoidsWildcard(b);
      var c := PropertyChain(p);
      forall i | 0 <= i < |c|
        ensures c[i].name != Wildcard
      {
        if i < |PropertyChain(a)| {
          assert c[i] == PropertyChain(a)[i];
        } else {
          assert c[i] == PropertyChain(b)[i - |PropertyChain(a)|];
        }
      }
  }

  /** Resolves every field's description into its chain, keeping the order. */
  function PropertyChains(ds: seq<Descriptor>): (fs: FieldSet)
    ensures |fs| == |ds|
    ensures forall i | 0 <= i < |ds| ::
              && fs[i].field == ds[i].field
              && |fs[i].chain| == LeafCount(ds[i].property) >= 1
              && fs[i].chain[0] == FirstLeaf(ds[i].property)
  {
    seq(|ds|, i requires 0 <= i < |ds| => Entry(ds[i].field, PropertyChain(ds[i].property)))
  }

  /** Descriptors with distinct field names and legal property names give a well-formed field set. */
  lemma PropertyChainsWellFormed(ds: seq<Descriptor>)
    requires forall i, j | 0 <= i < j < |ds| :: ds[i].field != ds[j].field
    requires forall i | 0 <= i < |ds| :: LeavesAvoidWildcard(ds[i].property)
    ensures WellFormed(PropertyChains(ds))
  {
    var fs := PropertyChains(ds);
    forall e | e in fs
      ensures NoWildcard(e.chain)
    {
      var i :| 0 <= i < |fs| && fs[i] == e;
      ChainAvoidsWildcard(ds[i].property);
    }
  }

  // ---------------------------------------------------------------------------
  // Serialisation of chains
  // ---------------------------------------------------------------------------

  /** The class and property names of a chain, in order (`array_merge(...$chain)`). */
  function Flatten(c: Chain): (r: seq<string>)
    ensures |r| == 2 * |c|
  {
    if c == [] then [] else [c[0].owner, c[0].name] + Flatten(c[1..])
  }

  /** Joins strings with the NUL separator (`implode("\0", …)`). */
  function Implode(parts: seq<string>): string
  {
    if |parts| == 0 then ""
    else if |parts| == 1 then parts[0]
    else parts[0] + [Nul] + Implode(parts[1..])
  }

  function SerializeChain(c: Chain): string
  {
    Implode(Flatten(c))
  }

  predicate NulFreeChain(c: Chain)
  {
    forall i | 0 <= i < |c| :: Nul !in c[i].owner && Nul !in c[i].name
  }

  lemma SplitAtNul(x: string, y: string, x': string, y': string)
    requires Nul !in x && Nul !in x'
    requires x + [Nul] + y == x' + [Nul] + y'
    ensures x == x' && y == y'
  {
    var s := x + [Nul] + y;
    assert s[|x|] == Nul && s[|x'|] == Nul;
    assert forall k | 0 <= k < |x| :: s[k] == x[k];
    assert forall k | 0 <= k < |x'| :: s[k] == x'[k];
    assert |x| == |x'|;
    assert x == s[..|x|] == x';
    assert y == s[|x| + 1..] == y';
  }

  /** With at least two parts, the first separator sits right after the first part. */
  lemma ImplodeSeparator(p: seq<string>)
    requires |p| >= 2
    ensures |Implode(p)| > |p[0]| && Implode(p)[|p[0]|] == Nul
  {
  }

  lemma {:induction false} ImplodeInjective(p: seq<string>, q: seq<string>)
    requires |p| >= 1 && |q| >= 1
    requires forall i | 0 <= i < |p| :: Nul !in p[i]
    requires forall i | 0 <= i < |q| :: Nul !in q[i]
    requires Implode(p) == Implode(q)
    ensures p == q
    decreases |p|
  {
    if |p| >= 2 {
      ImplodeSeparator(p);
    }
    if |q| >= 2 {
      ImplodeSeparator(q);
    }
    if |p| == 1 && |q| == 1 {
    } else if |p| == 1 {
      assert false;
    } else if |q| == 1 {
      assert false;
    } else {
      SplitAtNul(p[0], Implode(p[1..]), q[0], Implode(q[1..]));
      ImplodeInjective(p[1..], q[1..]);
      assert p == [p[0]] + p[1..];
      assert q == [q[0]] + q[1..];
    }
  }

  lemma {:induction false} FlattenNulFree(c: Chain)
    requires NulFreeChain(c)
    ensures forall i | 0 <= i < |Flatten(c)| :: Nul !in Flatten(c)[i]
  {
    if c != [] {
      FlattenNulFree(c[1..]);
      var r := Flatten(c);
      forall i | 0 <= i < |r|
        ensures Nul !in r[i]
      {
        if i >= 2 {
          assert r[i] == Flatten(c[1..])[i - 2];
        }
      }
    }
  }

  lemma {:induction false} FlattenInjective(a: Chain, b: Chain)
    requires Flatten(a) == Flatten(b)
    ensures a == b
  {
    if a != [] {
      var fa := Flatten(a);
      assert fa[0] == a[0].owner && fa[1] == a[0].name;
      assert fa[0] == b[0].owner && fa[1] == b[0].name;
      assert Flatten(a[1..]) == fa[2..] == Flatten(b[1..]);
      FlattenInjective(a[1..], b[1..]);
      assert a == [a[0]] + a[1..];
      assert b == [b[0]] + b[1..];
    }
  }

  /**
   Distinct chains serialise to distinct strings as long as no class or
   property name contains the separator.
   */
  lemma SerializeChainInjective(a: Chain, b: Chain)
    requires NulFreeChain(a) && NulFreeChain(b)
    requires SerializeChain(a) == SerializeChain(b)
    ensures a == b
  {
    FlattenNulFree(a);
    FlattenNulFree(b);
    if a == [] && b != [] {
      assert false;
    } else if a != [] && b == [] {
      assert false;
    } else if a != [] {
      ImplodeInjective(Flatten(a), Flatten(b));
      FlattenInjective(a, b);
    }
  }
}
