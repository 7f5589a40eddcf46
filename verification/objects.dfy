/**
 The abstract heap the generated accessors run against.

 A record and the embedded objects it owns form a tree: every embedded
 object is held by exactly one property of exactly one parent, so an object
 is modelled as a value and changing an object held somewhere inside a
 record is modelled as writing the changed object back along its path.

 Reading a property that was never assigned, or reading off something that
 is not an object, yields `Null` (an uninitialised untyped property reads as
 null); assigning a property of something that is not an object changes
 nothing.
 */
module Objects {
  import opened Chains

  datatype Value = Null | Scalar(n: int) | Object(obj: Obj)

  datatype Obj = Obj(cls: Class, props: map<Name, Value>)

  /** A default, field-less instance, as created without running a constructor. */
  function Empty(cls: Class): Obj
  {
    Obj(cls, map[])
  }

  function Read(v: Value, n: Name): Value
  {
    if v.Object? && n in v.obj.props then v.obj.props[n] else Null
  }

  function Write(v: Value, n: Name, x: Value): (r: Value)
    ensures v.Object? ==> r.Object? && r.obj.cls == v.obj.cls && Read(r, n) == x
    ensures forall m | m != n :: Read(r, m) == Read(v, m)
    ensures !v.Object? ==> r == v
  {
    if v.Object? then Object(v.obj.(props := v.obj.props[n := x])) else v
  }

  /** Follows a path of property names, one read per step. */
  function GetPath(v: Value, path: seq<Name>): Value
    decreases |path|
  {
    if path == [] then v else GetPath(Read(v, path[0]), path[1..])
  }

  /** The object an embedded step lands on: the one present, or a fresh one of class `cls`. */
  function OrEmpty(w: Value, cls: Class): Value
  {
    if w.Null? then Object(Empty(cls)) else w
  }

  /**
   Reference meaning of assigning `x` at the end of chain `c`, walking from the
   root: an absent intermediate object is created empty, with the class of the
   owner of the next step, before the walk continues into it.
   */
  function SetPath(v: Value, c: Chain, x: Value): Value
    requires |c| >= 1
    decreases |c|
  {
    if |c| == 1 then Write(v, c[0].name, x)
    else Write(v, c[0].name, SetPath(OrEmpty(Read(v, c[0].name), c[1].owner), c[1..], x))
  }

  /**
   A path along which assignment can proceed: the start is an object and every
   intermediate is either absent or an object (never a scalar).
   */
  predicate Navigable(v: Value, path: seq<Name>)
    decreases |path|
  {
    && v.Object?
    && (|path| > 1 ==> (Read(v, path[0]).Null? || Navigable(Read(v, path[0]), path[1..])))
  }

  // ---------------------------------------------------------------------------
  // Facts about the reference semantics
  // ---------------------------------------------------------------------------

  lemma {:induction false} GetPathAppend(v: Value, p: seq<Name>, q: seq<Name>)
    ensures GetPath(v, p + q) == GetPath(GetPath(v, p), q)
    decreases |p|
  {
    if p != [] {
      assert (p + q)[1..] == p[1..] + q;
      GetPathAppend(Read(v, p[0]), p[1..], q);
    } else {
      assert p + q == q;
    }
  }

  /** Reading one step past a path is reading off the value the path leads to. */
  lemma GetPathSnoc(v: Value, p: seq<Name>, n: Name)
    ensures GetPath(v, p + [n]) == Read(GetPath(v, p), n)
  {
    GetPathAppend(v, p, [n]);
  }

  /** Absence propagates: nothing is found below an absent or empty object. */
  lemma {:induction false} GetPathAbsent(v: Value, path: seq<Name>)
    requires v.Null? || v.Scalar? || (v.Object? && v.obj.props == map[])
    requires |path| >= 1
    ensures GetPath(v, path) == Null
    decreases |path|
  {
    if |path| > 1 {
      GetPathAbsent(Read(v, path[0]), path[1..]);
    }
  }

  /** As soon as some intermediate hop is absent, the whole path reads as absent. */
  lemma NullPropagates(v: Value, path: seq<Name>, k: nat)
    requires k < |path|
    requires GetPath(v, path[..k]).Null?
    ensures GetPath(v, path) == Null
  {
    assert path == path[..k] + path[k..];
    GetPathAppend(v, path[..k], path[k..]);
    GetPathAbsent(GetPath(v, path[..k]), path[k..]);
  }

  /**
   Assignment along a chain, seen from its last step: make sure the object at
   the prefix exists (created with the owner class of the last step), assign
   the last property on it, and put it back at the prefix.
   */
  lemma {:induction false} SetPathSnoc(v: Value, p: Chain, last: Step, x: Value)
    requires |p| >= 1
    ensures SetPath(v, p + [last], x)
         == SetPath(v, p, Write(OrEmpty(GetPath(v, Names(p)), last.owner), last.name, x))
    decreases |p|
  {
    var c := p + [last];
    var w := Read(v, p[0].name);
    if |p| == 1 {
      assert c[1..] == [last];
    } else {
      var b := OrEmpty(w, p[1].owner);
      assert c[1] == p[1];
      assert c[1..] == p[1..] + [last];
      SetPathSnoc(b, p[1..], last, x);
      assert Names(p)[1..] == Names(p[1..]);
      if w.Null? {
        GetPathAbsent(b, Names(p[1..]));
        GetPathAbsent(w, Names(p[1..]));
      }
    }
  }

  /** Get-after-set: a value assigned along a navigable chain is read back. */
  lemma {:induction false} GetAfterSet(v: Value, c: Chain, x: Value)
    requires |c| >= 1
    requires Navigable(v, Names(c))
    ensures GetPath(SetPath(v, c, x), Names(c)) == x
    decreases |c|
  {
    if |c| > 1 {
      var w := Read(v, c[0].name);
      var b := OrEmpty(w, c[1].owner);
      assert Names(c)[1..] == Names(c[1..]);
      GetAfterSet(b, c[1..], x);
    }
  }

  /** Assignment along a chain leaves an object at every intermediate hop. */
  lemma {:induction false} SetAllocatesIntermediates(v: Value, c: Chain, x: Value, k: nat)
    requires 1 <= k < |c|
    requires Navigable(v, Names(c))
    ensures GetPath(SetPath(v, c, x), Names(c)[..k]).Object?
    decreases |c|
  {
    var w := Read(v, c[0].name);
    var b := OrEmpty(w, c[1].owner);
    var r := SetPath(v, c, x);
    assert Names(c)[..k] == [c[0].name] + Names(c[1..])[..k - 1];
    if k > 1 {
      SetAllocatesIntermediates(b, c[1..], x, k - 1);
    } else {
      assert Names(c[1..])[..0] == [];
      assert Navigable(b, Names(c[1..]));
    }
  }

  /** Assignment along a chain keeps the class of every intermediate object that already existed. */
  lemma {:induction false} SetKeepsClasses(v: Value, c: Chain, x: Value, k: nat)
    requires k < |c|
    requires GetPath(v, Names(c)[..k]).Object?
    ensures GetPath(SetPath(v, c, x), Names(c)[..k]).Object?
    ensures GetPath(SetPath(v, c, x), Names(c)[..k]).obj.cls == GetPath(v, Names(c)[..k]).obj.cls
    decreases |c|
  {
    if k > 0 {
      var w := Read(v, c[0].name);
      var b := OrEmpty(w, c[1].owner);
      var rest := Names(c[1..])[..k - 1];
      assert Names(c)[..k] == [c[0].name] + rest;
      assert ([c[0].name] + rest)[1..] == rest;
      if k > 1 && !w.Object? {
        GetPathAbsent(w, rest);
      }
      SetKeepsClasses(b, c[1..], x, k - 1);
    }
  }

  /**
   Assignment along a chain only changes what lies along that chain: every
   path that neither extends nor is extended by the chain's names reads as before.
   */
  lemma {:induction false} SetPathFrame(v: Value, c: Chain, x: Value, q: seq<Name>)
    requires |c| >= 1
    requires !IsPrefix(q, Names(c)) && !IsPrefix(Names(c), q)
    ensures GetPath(SetPath(v, c, x), q) == GetPath(v, q)
    decreases |c|
  {
    assert q != [];
    if q[0] == c[0].name {
      assert |c| > 1 && |q| > 1;
      var w := Read(v, c[0].name);
      var b := OrEmpty(w, c[1].owner);
      assert Names(c)[1..] == Names(c[1..]);
      assert !IsPrefix(q[1..], Names(c[1..]));
      assert !IsPrefix(Names(c[1..]), q[1..]);
      SetPathFrame(b, c[1..], x, q[1..]);
      if w.Null? {
        GetPathAbsent(b, q[1..]);
        GetPathAbsent(w, q[1..]);
      }
    }
  }

  /**
   Navigability, hop by hop: the start is an object and no proper non-empty
   prefix of the path leads to a scalar.
   */
  lemma {:induction false} NavigableByPrefixes(v: Value, path: seq<Name>)
    ensures Navigable(v, path) <==> v.Object? && forall k | 1 <= k < |path| :: !GetPath(v, path[..k]).Scalar?
    decreases |path|
  {
    if |path| > 1 && v.Object? {
      var w := Read(v, path[0]);
      forall k | 1 <= k < |path|
        ensures GetPath(v, path[..k]) == GetPath(w, path[1..][..k - 1])
      {
        assert path[..k][1..] == path[1..][..k - 1];
      }
      assert path[1..][..0] == [];
      assert GetPath(v, path[..1]) == w;
      if w.Null? {
        forall j | 1 <= j < |path| - 1
          ensures GetPath(w, path[1..][..j]) == Null
        {
          GetPathAbsent(w, path[1..][..j]);
        }
        assert Navigable(v, path);
      } else if w.Scalar? {
        assert !Navigable(v, path);
      } else {
        NavigableByPrefixes(w, path[1..]);
        assert Navigable(v, path) <==> Navigable(w, path[1..]);
        forall j | 1 <= j < |path| - 1
          ensures GetPath(w, path[1..][..j]) == GetPath(v, path[..j + 1])
        {
        }
      }
    }
  }

  predicate IsPrefix<T(==)>(a: seq<T>, b: seq<T>)
  {
    |a| <= |b| && a == b[..|a|]
  }
}
