/**
 Batch setters (`emitBatchSetter`): one generated function that assigns any
 subset of the fields of a record from a field -> value table.

 The plan is the batch getter's: the wildcard group's setter assigns on the
 same object, the direct fields are assigned on the object, and every other
 group with a defined field fetches its embedded object, instantiates an
 empty one of the group's most derived class when it is absent, and lets the
 group's setter assign on it.

 What a batch setter promises is stated as `Assigns`: every selected field
 reads back as the value supplied for it, every hop towards a selected field
 holds an object, and every path that neither leads to nor runs through a
 selected field's slot reads as before. Those three facts compose: pieces
 that each assign some fields, run one after the other, assign them all.
 */
module BatchSetter {
  import opened Wrappers
  import opened Chains
  import opened Objects
  import opened Memo
  import opened Runtime
  import opened Planner
  import opened BatchGetter

  // ---------------------------------------------------------------------------
  // What a batch setter must do
  // ---------------------------------------------------------------------------

  /**
   No two selected fields of `fs` have chains of which one is, name by name,
   a prefix of the other: no selected field is stored inside the slot of
   another selected field. A field set may map an embedded property and its
   leaves; a call just must not define both.
   */
  predicate PrefixFreeOn(fs: FieldSet, sel: set<Field>)
  {
    forall e1, e2 {:trigger IsPrefix(Names(e1.chain), Names(e2.chain))}
      | e1 in fs && e2 in fs && e1.field in sel && e2.field in sel && e1.field != e2.field ::
      !IsPrefix(Names(e1.chain), Names(e2.chain))
  }

  /** Fewer selected fields stay prefix-free. */
  lemma PrefixFreeOnSub(fs: FieldSet, a: set<Field>, b: set<Field>)
    requires a <= b && PrefixFreeOn(fs, b)
    ensures PrefixFreeOn(fs, a)
  {
  }

  /** Path `q` neither leads to, nor runs through, nor runs below the slot of a selected field. */
  ghost predicate Untouched(fs: FieldSet, sel: set<Field>, q: seq<Name>)
  {
    forall e | e in fs && e.field in sel :: !IsPrefix(q, Names(e.chain)) && !IsPrefix(Names(e.chain), q)
  }

  /** Assignment can proceed along the chain of every selected field of an object. */
  ghost predicate Prepared(fs: FieldSet, sel: set<Field>, v: Value)
  {
    && v.Object?
    && forall e | e in fs && e.field in sel :: Navigable(v, Names(e.chain))
  }

  /**
   `r` is `v` with the selected fields of `fs` assigned from `vals`: it is an
   object of the same class, each selected field reads back as its value,
   every hop towards a selected field holds an object (of its old class when
   one was there), and every untouched path reads as in `v`.
   */
  ghost predicate Assigns(fs: FieldSet, sel: set<Field>, vals: map<Field, Value>, v: Value, r: Value)
  {
    && (v.Object? ==> r.Object? && r.obj.cls == v.obj.cls)
    && (forall e | e in fs && e.field in sel :: GetPath(r, Names(e.chain)) == ValueOf(vals, e.field))
    && (forall e, k | e in fs && e.field in sel && 0 <= k < |e.chain| :: GetPath(r, Names(e.chain)[..k]).Object?)
    && (forall e, k | e in fs && e.field in sel && 0 <= k < |e.chain| && GetPath(v, Names(e.chain)[..k]).Object? ::
          GetPath(r, Names(e.chain)[..k]).obj.cls == GetPath(v, Names(e.chain)[..k]).obj.cls)
    && (forall q | Untouched(fs, sel, q) :: GetPath(r, q) == GetPath(v, q))
  }

  /**
   The generated function `id` assigns exactly the defined fields of `fs`, on
   every prepared object, whenever no defined field lies inside another.
   */
  ghost predicate SetterImplements(code: seq<Code>, id: Id, fs: FieldSet)
  {
    forall v, vals, sel | Prepared(fs, sel, v) && PrefixFreeOn(fs, sel) ::
      Assigns(fs, sel, vals, v, RunBatchSet(code, id, v, vals, sel))
  }

  /** Generating more functions keeps what a batch setter does. */
  lemma SetterImplementsExtend(code: seq<Code>, more: seq<Code>, id: Id, fs: FieldSet)
    requires id < |code| && SetterImplements(code, id, fs)
    ensures SetterImplements(code + more, id, fs)
  {
    forall v, vals, sel | Prepared(fs, sel, v) && PrefixFreeOn(fs, sel)
      ensures Assigns(fs, sel, vals, v, RunBatchSet(code + more, id, v, vals, sel))
    {
      RunBatchSetExtend(code, more, id, v, vals, sel);
    }
  }

  /**
   The scalar setter meets the batch setter's specification for its one
   field. `Assigns` does not fix the class of an object it instantiates, so
   this does not say the two setters build the same objects.
   */
  lemma ScalarSetAssigns(fs: FieldSet, e: Entry, vals: map<Field, Value>, v: Value)
    requires UniqueFields(fs) && e in fs && |e.chain| >= 1
    requires Prepared(fs, {e.field}, v)
    ensures Assigns(fs, {e.field}, vals, v, SetPath(v, e.chain, ValueOf(vals, e.field)))
  {
    var x := ValueOf(vals, e.field);
    var r := SetPath(v, e.chain, x);
    forall d | d in fs && d.field in {e.field}
      ensures d == e
    {
      EntryOfField(fs, d, e);
    }
    GetAfterSet(v, e.chain, x);
    ScalarSetShape(v, e.chain, x);
    forall k | 0 <= k < |e.chain|
      ensures GetPath(r, Names(e.chain)[..k]).Object?
    {
      if k > 0 {
        SetAllocatesIntermediates(v, e.chain, x, k);
      }
    }
    forall k | 0 <= k < |e.chain| && GetPath(v, Names(e.chain)[..k]).Object?
      ensures GetPath(r, Names(e.chain)[..k]).obj.cls == GetPath(v, Names(e.chain)[..k]).obj.cls
    {
      SetKeepsClasses(v, e.chain, x, k);
    }
    forall q | Untouched(fs, {e.field}, q)
      ensures GetPath(r, q) == GetPath(v, q)
    {
      SetPathFrame(v, e.chain, x, q);
    }
  }

  /** Assigning along a chain of an object leaves an object of the same class. */
  lemma ScalarSetShape(v: Value, c: Chain, x: Value)
    requires |c| >= 1 && v.Object?
    ensures SetPath(v, c, x).Object? && SetPath(v, c, x).obj.cls == v.obj.cls
  {
  }

  // ---------------------------------------------------------------------------
  // Composition
  // ---------------------------------------------------------------------------

  /**
   A proper prefix of one field's chain that meets the chain of another field,
   both of a prefix-free selection, is a proper prefix of that chain too.
   */
  lemma ProperPrefixMeets(fs: FieldSet, all: set<Field>, e: Entry, d: Entry, p: seq<Name>)
    requires UniqueFields(fs) && PrefixFreeOn(fs, all)
    requires e in fs && d in fs && e.field in all && d.field in all
    requires |p| < |e.chain| && p == Names(e.chain)[..|p|]
    requires IsPrefix(p, Names(d.chain)) || IsPrefix(Names(d.chain), p)
    ensures |p| < |d.chain| && p == Names(d.chain)[..|p|]
  {
    if IsPrefix(Names(d.chain), p) {
      assert IsPrefix(Names(d.chain), Names(e.chain));
      if d.field == e.field {
        EntryOfField(fs, d, e);
      }
      assert false;
    }
  }

  /** The chain of a field not selected is untouched by a selection it is prefix-free with. */
  lemma OtherFieldUntouched(fs: FieldSet, sel: set<Field>, e: Entry)
    requires PrefixFreeOn(fs, sel + {e.field}) && e in fs && e.field !in sel
    ensures Untouched(fs, sel, Names(e.chain))
  {
  }

  /** Nothing selected: nothing changes. */
  lemma AssignsNothing(fs: FieldSet, vals: map<Field, Value>, v: Value)
    ensures Assigns(fs, {}, vals, v, v)
  {
  }

  /** Only the selected entries matter: two selections picking the same entries of `fs` are interchangeable. */
  lemma Reselect(fs: FieldSet, a: set<Field>, b: set<Field>, vals: map<Field, Value>, v: Value, r: Value)
    requires forall e | e in fs :: e.field in a <==> e.field in b
    requires Assigns(fs, a, vals, v, r)
    ensures Assigns(fs, b, vals, v, r)
  {
    forall q | Untouched(fs, b, q)
      ensures Untouched(fs, a, q)
    {
    }
  }

  /** What one piece assigns does not spoil navigability for the pieces after it. */
  lemma KeepsPrepared(fs: FieldSet, done: set<Field>, next: set<Field>, vals: map<Field, Value>, v: Value, cur: Value)
    requires UniqueFields(fs) && PrefixFreeOn(fs, done + next)
    requires Prepared(fs, next, v)
    requires Assigns(fs, done, vals, v, cur)
    ensures Prepared(fs, next, cur)
  {
    forall e | e in fs && e.field in next
      ensures Navigable(cur, Names(e.chain))
    {
      var path := Names(e.chain);
      NavigableByPrefixes(v, path);
      forall k | 1 <= k < |path|
        ensures !GetPath(cur, path[..k]).Scalar?
      {
        PrefixFreeOnSub(fs, done + {e.field}, done + next);
        HopKept(fs, done, vals, v, cur, e, k);
      }
      NavigableByPrefixes(cur, path);
    }
  }

  /** One hop towards a field: either untouched, or a hop towards an assigned field. */
  lemma HopKept(fs: FieldSet, done: set<Field>, vals: map<Field, Value>, v: Value, cur: Value, e: Entry, k: nat)
    requires UniqueFields(fs) && PrefixFreeOn(fs, done + {e.field})
    requires Assigns(fs, done, vals, v, cur)
    requires e in fs && 1 <= k < |e.chain|
    requires !GetPath(v, Names(e.chain)[..k]).Scalar?
    ensures !GetPath(cur, Names(e.chain)[..k]).Scalar?
  {
    var p := Names(e.chain)[..k];
    if !Untouched(fs, done, p) {
      var d :| d in fs && d.field in done && (IsPrefix(p, Names(d.chain)) || IsPrefix(Names(d.chain), p));
      ProperPrefixMeets(fs, done + {e.field}, e, d, p);
      assert GetPath(cur, Names(d.chain)[..k]).Object?;
    }
  }

  /** Two pieces run one after the other assign the fields of both. */
  lemma Compose(fs: FieldSet, a: set<Field>, b: set<Field>, vals: map<Field, Value>, v0: Value, v1: Value, v2: Value)
    requires UniqueFields(fs) && PrefixFreeOn(fs, a + b)
    requires Assigns(fs, a, vals, v0, v1)
    requires Assigns(fs, b, vals, v1, v2)
    ensures Assigns(fs, a + b, vals, v0, v2)
  {
    forall e | e in fs && e.field in a && e.field !in b
      ensures GetPath(v2, Names(e.chain)) == ValueOf(vals, e.field)
    {
      PrefixFreeOnSub(fs, b + {e.field}, a + b);
      OtherFieldUntouched(fs, b, e);
    }
    forall e, k | e in fs && e.field in a && e.field !in b && 0 <= k < |e.chain|
      ensures GetPath(v2, Names(e.chain)[..k]).Object?
    {
      PrefixFreeOnSub(fs, b + {e.field}, a + b);
      HopStaysObject(fs, b, vals, v1, v2, e, k);
    }
    forall e, k | e in fs && e.field in a + b && 0 <= k < |e.chain| && GetPath(v0, Names(e.chain)[..k]).Object?
      ensures GetPath(v2, Names(e.chain)[..k]).obj.cls == GetPath(v0, Names(e.chain)[..k]).obj.cls
    {
      PrefixFreeOnSub(fs, a + {e.field}, a + b);
      PrefixFreeOnSub(fs, b + {e.field}, a + b);
      HopClassKept(fs, a, vals, v0, v1, e, k);
      HopClassKept(fs, b, vals, v1, v2, e, k);
    }
    forall q | Untouched(fs, a + b, q)
      ensures GetPath(v2, q) == GetPath(v0, q)
    {
      assert Untouched(fs, a, q) && Untouched(fs, b, q);
    }
  }

  /** Any hop towards a field of the set that held an object still holds one of the same class after a piece. */
  lemma HopClassKept(fs: FieldSet, sel: set<Field>, vals: map<Field, Value>, v: Value, r: Value, e: Entry, k: nat)
    requires UniqueFields(fs) && PrefixFreeOn(fs, sel + {e.field})
    requires Assigns(fs, sel, vals, v, r)
    requires e in fs && 0 <= k < |e.chain|
    requires GetPath(v, Names(e.chain)[..k]).Object?
    ensures GetPath(r, Names(e.chain)[..k]).Object?
    ensures GetPath(r, Names(e.chain)[..k]).obj.cls == GetPath(v, Names(e.chain)[..k]).obj.cls
  {
    var p := Names(e.chain)[..k];
    if !Untouched(fs, sel, p) {
      var d :| d in fs && d.field in sel && (IsPrefix(p, Names(d.chain)) || IsPrefix(Names(d.chain), p));
      ProperPrefixMeets(fs, sel + {e.field}, e, d, p);
      assert GetPath(r, Names(d.chain)[..k]).Object?;
    }
  }

  /** A hop towards a field assigned earlier still holds an object after a later piece. */
  lemma HopStaysObject(fs: FieldSet, b: set<Field>, vals: map<Field, Value>, v1: Value, v2: Value, e: Entry, k: nat)
    requires UniqueFields(fs) && PrefixFreeOn(fs, b + {e.field})
    requires Assigns(fs, b, vals, v1, v2)
    requires e in fs && 0 <= k < |e.chain|
    requires GetPath(v1, Names(e.chain)[..k]).Object?
    ensures GetPath(v2, Names(e.chain)[..k]).Object?
  {
    var p := Names(e.chain)[..k];
    if !Untouched(fs, b, p) {
      var d :| d in fs && d.field in b && (IsPrefix(p, Names(d.chain)) || IsPrefix(Names(d.chain), p));
      ProperPrefixMeets(fs, b + {e.field}, e, d, p);
      assert GetPath(v2, Names(d.chain)[..k]).Object?;
    }
  }

  // ---------------------------------------------------------------------------
  // The pieces of a batch setter
  // ---------------------------------------------------------------------------

  /** The fields of some direct slots. */
  function SlotFields(slots: seq<Slot>): (r: set<Field>)
    ensures forall s | s in slots :: s.field in r
    ensures forall f | f in r :: exists s | s in slots :: s.field == f
  {
    set s | s in slots :: s.field
  }

  /** A direct slot assigns an original single-step field. */
  ghost predicate SlotOf(fs: FieldSet, s: Slot)
  {
    exists e | e in fs :: e.field == s.field && Names(e.chain) == [s.prop]
  }

  /** Assigning one direct field on an object. */
  lemma DirectWriteAssigns(fs: FieldSet, s: Slot, vals: map<Field, Value>, v: Value)
    requires UniqueFields(fs) && SlotOf(fs, s) && v.Object?
    ensures Assigns(fs, {s.field}, vals, v, Write(v, s.prop, ValueOf(vals, s.field)))
  {
    var e :| e in fs && e.field == s.field && Names(e.chain) == [s.prop];
    var r := Write(v, s.prop, ValueOf(vals, s.field));
    forall d | d in fs && d.field in {s.field}
      ensures d == e
    {
      EntryOfField(fs, d, e);
    }
    assert GetPath(r, [s.prop]) == Read(r, s.prop);
    forall q | Untouched(fs, {s.field}, q)
      ensures GetPath(r, q) == GetPath(v, q)
    {
      assert IsPrefix([], [s.prop]);
      assert q[0] != s.prop;
    }
  }

  /** The direct fields, in order: each defined one is assigned. */
  lemma {:induction false} WriteDirectAssigns(fs: FieldSet, vals: map<Field, Value>, sel: set<Field>, slots: seq<Slot>, v: Value)
    requires UniqueFields(fs) && PrefixFreeOn(fs, sel) && v.Object?
    requires forall s | s in slots :: SlotOf(fs, s)
    ensures Assigns(fs, SlotFields(slots) * sel, vals, v, WriteDirect(v, vals, sel, slots))
    decreases |slots|
  {
    if slots == [] {
      AssignsNothing(fs, vals, v);
    } else {
      var s := slots[0];
      var v' := if s.field in sel then Write(v, s.prop, ValueOf(vals, s.field)) else v;
      if s.field in sel {
        DirectWriteAssigns(fs, s, vals, v);
      } else {
        AssignsNothing(fs, vals, v);
      }
      var first: set<Field> := if s.field in sel then {s.field} else {};
      assert Assigns(fs, first, vals, v, v');
      WriteDirectAssigns(fs, vals, sel, slots[1..], v');
      PrefixFreeOnSub(fs, first + SlotFields(slots[1..]) * sel, sel);
      Compose(fs, first, SlotFields(slots[1..]) * sel, vals, v, v', WriteDirect(v', vals, sel, slots[1..]));
      SlotFieldsCons(slots, sel);
    }
  }

  lemma SlotFieldsCons(slots: seq<Slot>, sel: set<Field>)
    requires slots != []
    ensures (if slots[0].field in sel then {slots[0].field} else {}) + SlotFields(slots[1..]) * sel
            == SlotFields(slots) * sel
  {
    assert slots == [slots[0]] + slots[1..];
  }

  /** A setter for a subset of the entries of `fs` assigns those entries as entries of `fs`. */
  lemma SubsetAssigns(fs: FieldSet, sub: FieldSet, sel: set<Field>, vals: map<Field, Value>, v: Value, r: Value)
    requires UniqueFields(fs)
    requires forall m | m in sub :: m in fs
    requires Assigns(sub, sel, vals, v, r)
    ensures Assigns(fs, Fields(sub) * sel, vals, v, r)
  {
    forall e | e in fs && e.field in Fields(sub) * sel
      ensures e in sub
    {
      var m :| m in sub && m.field == e.field;
      EntryOfField(fs, m, e);
    }
    forall q | Untouched(fs, Fields(sub) * sel, q)
      ensures Untouched(sub, sel, q)
    {
    }
  }

  /** The entries of `fs` a group assigns are those of its members, one property further out. */
  lemma Lifted(fs: FieldSet, prop: Name, members: FieldSet, e: Entry) returns (m: Entry)
    requires UniqueFields(fs) && Below(fs, prop, members)
    requires e in fs && e.field in Fields(members)
    ensures m in members && m.field == e.field && |m.chain| >= 1
    ensures Names(e.chain) == [prop] + Names(m.chain)
  {
    m :| m in members && m.field == e.field;
    var e' :| e' in fs && e'.field == m.field && Names(e'.chain) == [prop] + Names(m.chain);
    EntryOfField(fs, e, e');
  }

  /** The object a group's setter runs on is prepared for the group's members. */
  lemma GroupPrepared(fs: FieldSet, sel: set<Field>, prop: Name, alloc: Class, members: FieldSet, cur: Value)
    requires UniqueFields(fs) && Below(fs, prop, members)
    requires Prepared(fs, Fields(members) * sel, cur)
    requires Fields(members) * sel != {}
    ensures Prepared(members, sel, OrEmpty(Read(cur, prop), alloc))
  {
    var w := Read(cur, prop);
    var sub := OrEmpty(w, alloc);
    forall m | m in members && m.field in sel
      ensures Navigable(sub, Names(m.chain))
    {
      var e :| e in fs && e.field == m.field && Names(e.chain) == [prop] + Names(m.chain);
      assert Navigable(cur, [prop] + Names(m.chain));
      assert ([prop] + Names(m.chain))[1..] == Names(m.chain);
      if w.Null? {
        EmptyNavigable(alloc, Names(m.chain));
      }
    }
    var f :| f in Fields(members) * sel;
    var m :| m in members && m.field == f;
    var e :| e in fs && e.field == m.field && Names(e.chain) == [prop] + Names(m.chain);
    assert Navigable(cur, [prop] + Names(m.chain));
  }

  /** Every path can be navigated from a fresh empty object. */
  lemma EmptyNavigable(cls: Class, path: seq<Name>)
    ensures Navigable(Object(Empty(cls)), path)
  {
  }

  /**
   One group: the embedded object is fetched (or created empty), the group's
   setter assigns its members on it, and it is stored back.
   */
  lemma GroupAssigns(fs: FieldSet, sel: set<Field>, vals: map<Field, Value>, prop: Name, alloc: Class,
                     members: FieldSet, cur: Value, s: Value)
    requires UniqueFields(fs) && Below(fs, prop, members)
    requires Prepared(fs, Fields(members) * sel, cur)
    requires Fields(members) * sel != {}
    requires Assigns(members, sel, vals, OrEmpty(Read(cur, prop), alloc), s)
    ensures Assigns(fs, Fields(members) * sel, vals, cur, Write(cur, prop, s))
  {
    var sel' := Fields(members) * sel;
    var r := Write(cur, prop, s);
    forall e | e in fs && e.field in sel'
      ensures GetPath(r, Names(e.chain)) == ValueOf(vals, e.field)
      ensures forall k | 0 <= k < |e.chain| :: GetPath(r, Names(e.chain)[..k]).Object?
    {
      GroupEntry(fs, sel, vals, prop, alloc, members, cur, s, e);
    }
    forall e, k | e in fs && e.field in sel' && 0 <= k < |e.chain| && GetPath(cur, Names(e.chain)[..k]).Object?
      ensures GetPath(r, Names(e.chain)[..k]).obj.cls == GetPath(cur, Names(e.chain)[..k]).obj.cls
    {
      GroupKeepsClass(fs, sel, vals, prop, alloc, members, cur, s, e, k);
    }
    GroupFrame(fs, sel, vals, prop, alloc, members, cur, s);
  }

  /** One group assigns each of its defined fields and leaves an object on every hop towards it. */
  lemma GroupEntry(fs: FieldSet, sel: set<Field>, vals: map<Field, Value>, prop: Name, alloc: Class,
                   members: FieldSet, cur: Value, s: Value, e: Entry)
    requires UniqueFields(fs) && Below(fs, prop, members)
    requires cur.Object?
    requires Assigns(members, sel, vals, OrEmpty(Read(cur, prop), alloc), s)
    requires e in fs && e.field in Fields(members) * sel
    ensures GetPath(Write(cur, prop, s), Names(e.chain)) == ValueOf(vals, e.field)
    ensures forall k | 0 <= k < |e.chain| :: GetPath(Write(cur, prop, s), Names(e.chain)[..k]).Object?
  {
    var r := Write(cur, prop, s);
    var m := Lifted(fs, prop, members, e);
    GetPathCons(r, prop, Names(m.chain));
    forall k | 0 <= k < |e.chain|
      ensures GetPath(r, Names(e.chain)[..k]).Object?
    {
      if k > 0 {
        assert Names(e.chain)[..k] == [prop] + Names(m.chain)[..k - 1];
        GetPathCons(r, prop, Names(m.chain)[..k - 1]);
      }
    }
  }

  /** One group keeps the class of an object that was already on a hop towards one of its defined fields. */
  lemma GroupKeepsClass(fs: FieldSet, sel: set<Field>, vals: map<Field, Value>, prop: Name, alloc: Class,
                        members: FieldSet, cur: Value, s: Value, e: Entry, k: nat)
    requires UniqueFields(fs) && Below(fs, prop, members)
    requires Assigns(members, sel, vals, OrEmpty(Read(cur, prop), alloc), s)
    requires e in fs && e.field in Fields(members) * sel && k < |e.chain|
    requires GetPath(cur, Names(e.chain)[..k]).Object?
    ensures GetPath(Write(cur, prop, s), Names(e.chain)[..k]).Object?
    ensures GetPath(Write(cur, prop, s), Names(e.chain)[..k]).obj.cls == GetPath(cur, Names(e.chain)[..k]).obj.cls
  {
    var r := Write(cur, prop, s);
    var m := Lifted(fs, prop, members, e);
    if k > 0 {
      var rest := Names(m.chain)[..k - 1];
      assert Names(e.chain)[..k] == [prop] + rest;
      GetPathCons(r, prop, rest);
      GetPathCons(cur, prop, rest);
      if k > 1 && !Read(cur, prop).Object? {
        GetPathAbsent(Read(cur, prop), rest);
      }
    }
  }

  /** The frame part of one group. */
  lemma GroupFrame(fs: FieldSet, sel: set<Field>, vals: map<Field, Value>, prop: Name, alloc: Class,
                   members: FieldSet, cur: Value, s: Value)
    requires UniqueFields(fs) && Below(fs, prop, members)
    requires Fields(members) * sel != {}
    requires Assigns(members, sel, vals, OrEmpty(Read(cur, prop), alloc), s)
    ensures forall q | Untouched(fs, Fields(members) * sel, q) :: GetPath(Write(cur, prop, s), q) == GetPath(cur, q)
  {
    var f :| f in Fields(members) * sel;
    var m0 :| m0 in members && m0.field == f;
    var e0 :| e0 in fs && e0.field == m0.field && Names(e0.chain) == [prop] + Names(m0.chain);
    forall q | Untouched(fs, Fields(members) * sel, q)
      ensures GetPath(Write(cur, prop, s), q) == GetPath(cur, q)
    {
      GroupFrameAt(fs, sel, vals, prop, alloc, members, cur, s, e0, q);
    }
  }

  lemma GroupFrameAt(fs: FieldSet, sel: set<Field>, vals: map<Field, Value>, prop: Name, alloc: Class,
                     members: FieldSet, cur: Value, s: Value, e0: Entry, q: seq<Name>)
    requires Below(fs, prop, members)
    requires OrEmpty(Read(cur, prop), alloc).Object? ==> s.Object?
    requires forall q' | Untouched(members, sel, q') :: GetPath(s, q') == GetPath(OrEmpty(Read(cur, prop), alloc), q')
    requires e0 in fs && e0.field in Fields(members) * sel && |e0.chain| >= 2 && Names(e0.chain)[0] == prop
    requires Untouched(fs, Fields(members) * sel, q)
    ensures GetPath(Write(cur, prop, s), q) == GetPath(cur, q)
  {
    var r := Write(cur, prop, s);
    var w := Read(cur, prop);
    assert IsPrefix([], Names(e0.chain));
    assert q != [];
    assert q == [q[0]] + q[1..];
    GetPathCons(r, q[0], q[1..]);
    GetPathCons(cur, q[0], q[1..]);
    if q[0] == prop {
      var q' := q[1..];
      assert IsPrefix([prop], Names(e0.chain));
      assert q' != [];
      UntouchedBelow(fs, sel, prop, members, q');
      if w.Null? {
        GetPathAbsent(OrEmpty(w, alloc), q');
        GetPathAbsent(w, q');
      }
    }
  }

  /** A path below the group's property untouched by the group is untouched by its members. */
  lemma UntouchedBelow(fs: FieldSet, sel: set<Field>, prop: Name, members: FieldSet, q': seq<Name>)
    requires Below(fs, prop, members)
    requires Untouched(fs, Fields(members) * sel, [prop] + q')
    ensures Untouched(members, sel, q')
  {
    forall m | m in members && m.field in sel
      ensures !IsPrefix(q', Names(m.chain)) && !IsPrefix(Names(m.chain), q')
    {
      var e :| e in fs && e.field == m.field && Names(e.chain) == [prop] + Names(m.chain);
      assert !IsPrefix([prop] + q', [prop] + Names(m.chain));
      assert !IsPrefix([prop] + Names(m.chain), [prop] + q');
    }
  }

  /** The fields of a sequence of groups' members. */
  function PlanFields(plan: seq<FieldSet>): (r: set<Field>)
    ensures forall j, m | 0 <= j < |plan| && m in plan[j] :: m.field in r
  {
    if plan == [] then {} else Fields(plan[0]) + PlanFields(plan[1..])
  }

  /**
   A code group serves the members of a plan group: its fields are theirs,
   its sub-setter assigns them on the embedded object, and each member
   extended by the group's property is a field of `fs`.
   */
  ghost predicate SetServes(code: seq<Code>, id: Id, fs: FieldSet, sg: SetGroup, members: FieldSet)
  {
    && sg.sub < id
    && (forall f :: f in sg.fields <==> f in Fields(members))
    && SetterImplements(code, sg.sub, members)
    && Below(fs, sg.prop, members)
  }

  /** One group, after pieces that assigned `done` on `v0` gave `cur`. */
  lemma SetGroupOk(code: seq<Code>, id: Id, fs: FieldSet, sel: set<Field>, vals: map<Field, Value>,
                   sg: SetGroup, members: FieldSet, v0: Value, cur: Value, done: set<Field>)
    requires UniqueFields(fs) && PrefixFreeOn(fs, sel) && done <= sel
    requires SetServes(code, id, fs, sg, members)
    requires Prepared(fs, sel, v0) && Assigns(fs, done, vals, v0, cur)
    ensures var next :=
        if !AnyIn(sg.fields, sel) || sg.sub >= id then cur
        else Write(cur, sg.prop, RunBatchSet(code, sg.sub, OrEmpty(Read(cur, sg.prop), sg.alloc), vals, sel));
      Assigns(fs, done + Fields(members) * sel, vals, v0, next)
  {
    var sel' := Fields(members) * sel;
    if AnyIn(sg.fields, sel) {
      var f :| f in sg.fields && f in sel;
      assert f in sel';
      PrefixFreeOnSub(fs, done + sel', sel);
      KeepsPrepared(fs, done, sel', vals, v0, cur);
      GroupPrepared(fs, sel, sg.prop, sg.alloc, members, cur);
      BelowPrefixFree(fs, sel, sg.prop, members);
      var sub := OrEmpty(Read(cur, sg.prop), sg.alloc);
      var x := RunBatchSet(code, sg.sub, sub, vals, sel);
      assert Assigns(members, sel, vals, sub, x);
      GroupAssigns(fs, sel, vals, sg.prop, sg.alloc, members, cur, x);
      Compose(fs, done, sel', vals, v0, cur, Write(cur, sg.prop, x));
    } else {
      assert forall f | f in sel' :: f in sg.fields;
      assert done + sel' == done;
    }
  }

  /** All remaining groups, in order. */
  lemma {:induction false} SetGroupsOk(code: seq<Code>, id: Id, fs: FieldSet, sel: set<Field>, vals: map<Field, Value>,
                                       groups: seq<SetGroup>, plan: seq<FieldSet>, v0: Value, cur: Value, done: set<Field>)
    requires UniqueFields(fs) && PrefixFreeOn(fs, sel) && done <= sel
    requires |plan| == |groups|
    requires forall j | 0 <= j < |groups| :: SetServes(code, id, fs, groups[j], plan[j])
    requires Prepared(fs, sel, v0) && Assigns(fs, done, vals, v0, cur)
    ensures Assigns(fs, done + PlanFields(plan) * sel, vals, v0, SetGroups(code, id, vals, sel, groups, cur))
    decreases |groups|
  {
    if groups == [] {
      assert PlanFields(plan) == {};
    } else {
      var sg := groups[0];
      var next :=
        if !AnyIn(sg.fields, sel) || sg.sub >= id then cur
        else Write(cur, sg.prop, RunBatchSet(code, sg.sub, OrEmpty(Read(cur, sg.prop), sg.alloc), vals, sel));
      SetGroupOk(code, id, fs, sel, vals, sg, plan[0], v0, cur, done);
      assert forall j | 0 <= j < |groups| - 1 :: groups[1..][j] == groups[j + 1] && plan[1..][j] == plan[j + 1];
      SetGroupsOk(code, id, fs, sel, vals, groups[1..], plan[1..], v0, next, done + Fields(plan[0]) * sel);
      var r := SetGroups(code, id, vals, sel, groups[1..], next);
      assert SetGroups(code, id, vals, sel, groups, cur) == r;
      PlanFieldsCons(fs, plan, sel, done, vals, v0, r);
    }
  }

  /** The fields a run of groups assigns, one group at a time. */
  lemma PlanFieldsCons(fs: FieldSet, plan: seq<FieldSet>, sel: set<Field>, done: set<Field>,
                       vals: map<Field, Value>, v0: Value, r: Value)
    requires plan != []
    requires Assigns(fs, done + Fields(plan[0]) * sel + PlanFields(plan[1..]) * sel, vals, v0, r)
    ensures Assigns(fs, done + PlanFields(plan) * sel, vals, v0, r)
  {
    assert done + Fields(plan[0]) * sel + PlanFields(plan[1..]) * sel == done + PlanFields(plan) * sel;
  }

  // ---------------------------------------------------------------------------
  // The emitted batch setter
  // ---------------------------------------------------------------------------

  /**
   The class a group's setter instantiates for an absent embedded object: the
   first owner of the group's members once they are normalised against the
   class hierarchy, which is their most derived owner.
   */
  function AllocClass(members: FieldSet, isA: IsA): (c: Class)
    requires NonEmptyChains(members) && members != [] && HierarchyOrder(isA)
    ensures c == Childmost(members, isA)
    ensures c in FirstOwners(members)
  {
    MarkParentChains(members, isA)[0].chain[0].owner
  }

  /**
   The batch setter generated for a non-empty field set, given the ids of the
   batch setters generated for its groups: the wildcard group's setter runs
   first on the same object, the direct fields are assigned, the other groups
   are visited in order.
   */
  function BatchSetterFor(fs: FieldSet, isA: IsA, ids: seq<Id>): (f: Code)
    requires WellFormed(fs) && fs != [] && HierarchyOrder(isA)
    requires |ids| == |Plan(fs, isA).groups|
    ensures f.BatchSetterCode?
  {
    var sp := Plan(fs, isA);
    var wild := WildStep(Childmost(fs, isA));
    var w := GroupIndex(sp.groups, wild);
    var kept := KeptIndices(sp.groups, wild, 0);
    PlanDirect(fs, isA);
    PlanGroupsSmaller(fs, isA);
    BatchSetterCode(
      if w < |sp.groups| then Some(ids[w]) else None,
      DirectSlots(sp.direct),
      seq(|kept|, k requires 0 <= k < |kept| =>
        var grp := sp.groups[kept[k]];
        assert grp in sp.groups;
        SetGroup(grp.first.name, FieldList(grp.members), AllocClass(grp.members, isA), ids[kept[k]])))
  }

  /** The fields of the wildcard group of the plan of `fs`, if it has one. */
  function WildFields(fs: FieldSet, isA: IsA): set<Field>
    requires WellFormed(fs) && fs != [] && HierarchyOrder(isA)
  {
    var sp := Plan(fs, isA);
    var w := GroupIndex(sp.groups, WildStep(Childmost(fs, isA)));
    if w < |sp.groups| then Fields(sp.groups[w].members) else {}
  }

  /** What the batch setter has made of `v` once its seed ran. */
  function Seeded(code: seq<Code>, fs: FieldSet, isA: IsA, ids: seq<Id>, v: Value, vals: map<Field, Value>, sel: set<Field>): Value
    requires WellFormed(fs) && fs != [] && HierarchyOrder(isA)
    requires |ids| == |Plan(fs, isA).groups|
  {
    var sp := Plan(fs, isA);
    var w := GroupIndex(sp.groups, WildStep(Childmost(fs, isA)));
    if w < |sp.groups| then RunBatchSet(code, ids[w], v, vals, sel) else v
  }

  /** The wildcard group's setter, run first on the same object, assigns its members as fields of `fs`. */
  lemma SetSeedOk(code: seq<Code>, id: Id, fs: FieldSet, isA: IsA, ids: seq<Id>, v: Value, vals: map<Field, Value>, sel: set<Field>)
    requires WellFormed(fs) && fs != [] && HierarchyOrder(isA)
    requires |ids| == |Plan(fs, isA).groups|
    requires forall j | 0 <= j < |ids| :: ids[j] < id && SetterImplements(code, ids[j], Plan(fs, isA).groups[j].members)
    requires Prepared(fs, sel, v) && PrefixFreeOn(fs, sel)
    ensures Assigns(fs, WildFields(fs, isA) * sel, vals, v, Seeded(code, fs, isA, ids, v, vals, sel))
  {
    var sp := Plan(fs, isA);
    var w := GroupIndex(sp.groups, WildStep(Childmost(fs, isA)));
    if w < |sp.groups| {
      PlanGroups(fs, isA);
      var members := sp.groups[w].members;
      assert sp.groups[w] in sp.groups;
      assert forall m | m in members :: m in fs;
      assert Prepared(members, sel, v);
      assert PrefixFreeOn(members, sel);
      SubsetAssigns(fs, members, sel, vals, v, RunBatchSet(code, ids[w], v, vals, sel));
    } else {
      assert WildFields(fs, isA) * sel == {};
      AssignsNothing(fs, vals, v);
    }
  }

  /** The seed and then the direct fields. */
  lemma SeedAndDirectOk(code: seq<Code>, id: Id, fs: FieldSet, isA: IsA, ids: seq<Id>, v: Value, vals: map<Field, Value>, sel: set<Field>)
    requires WellFormed(fs) && fs != [] && HierarchyOrder(isA)
    requires |ids| == |Plan(fs, isA).groups|
    requires forall j | 0 <= j < |ids| :: ids[j] < id && SetterImplements(code, ids[j], Plan(fs, isA).groups[j].members)
    requires Prepared(fs, sel, v) && PrefixFreeOn(fs, sel)
    ensures var direct := BatchSetterFor(fs, isA, ids).direct;
      Assigns(fs, WildFields(fs, isA) * sel + SlotFields(direct) * sel, vals, v,
              WriteDirect(Seeded(code, fs, isA, ids, v, vals, sel), vals, sel, direct))
  {
    var slots := BatchSetterFor(fs, isA, ids).direct;
    var seeded := Seeded(code, fs, isA, ids, v, vals, sel);
    SetSeedOk(code, id, fs, isA, ids, v, vals, sel);
    DirectSlotsOk(fs, isA);
    assert forall s | s in slots :: SlotOf(fs, s);
    ThenDirect(fs, WildFields(fs, isA) * sel, vals, sel, slots, v, seeded);
  }

  /** Direct writes after a piece that assigned `wild`: both are assigned. */
  lemma ThenDirect(fs: FieldSet, wild: set<Field>, vals: map<Field, Value>, sel: set<Field>, slots: seq<Slot>, v: Value, seeded: Value)
    requires UniqueFields(fs) && PrefixFreeOn(fs, sel) && wild <= sel && v.Object?
    requires forall s | s in slots :: SlotOf(fs, s)
    requires Assigns(fs, wild, vals, v, seeded)
    ensures Assigns(fs, wild + SlotFields(slots) * sel, vals, v, WriteDirect(seeded, vals, sel, slots))
  {
    WriteDirectAssigns(fs, vals, sel, slots, seeded);
    PrefixFreeOnSub(fs, wild + SlotFields(slots) * sel, sel);
    Compose(fs, wild, SlotFields(slots) * sel, vals, v, seeded, WriteDirect(seeded, vals, sel, slots));
  }

  /** Every code group serves its plan group. */
  lemma SetGroupsServe(code: seq<Code>, id: Id, fs: FieldSet, isA: IsA, ids: seq<Id>)
    requires WellFormed(fs) && fs != [] && HierarchyOrder(isA)
    requires |ids| == |Plan(fs, isA).groups|
    requires forall j | 0 <= j < |ids| :: ids[j] < id && SetterImplements(code, ids[j], Plan(fs, isA).groups[j].members)
    ensures var groups := BatchSetterFor(fs, isA, ids).setGroups; var plan := KeptMembers(fs, isA);
      |plan| == |groups| && forall k | 0 <= k < |groups| :: SetServes(code, id, fs, groups[k], plan[k])
  {
    var sp := Plan(fs, isA);
    var wild := WildStep(Childmost(fs, isA));
    var kept := KeptIndices(sp.groups, wild, 0);
    var groups := BatchSetterFor(fs, isA, ids).setGroups;
    var plan := KeptMembers(fs, isA);
    PlanGroups(fs, isA);
    forall k | 0 <= k < |groups|
      ensures SetServes(code, id, fs, groups[k], plan[k])
    {
      var g := sp.groups[kept[k]];
      assert g in sp.groups;
      assert g.first != wild;
      forall m | m in g.members
        ensures exists e | e in fs :: e.field == m.field && Names(e.chain) == [g.first.name] + Names(m.chain)
      {
        var e := Entry(m.field, [g.first] + m.chain);
        assert e in fs;
        NamesAppend([g.first], m.chain);
      }
    }
  }

  /** Each field of `fs` is assigned by the seed, a direct slot or a kept group. */
  lemma FieldCovered(fs: FieldSet, isA: IsA, ids: seq<Id>, e: Entry)
    requires WellFormed(fs) && fs != [] && HierarchyOrder(isA)
    requires |ids| == |Plan(fs, isA).groups|
    requires e in fs
    ensures || e.field in WildFields(fs, isA)
            || e.field in SlotFields(BatchSetterFor(fs, isA, ids).direct)
            || e.field in PlanFields(KeptMembers(fs, isA))
  {
    var sp := Plan(fs, isA);
    PlanReachesAll(fs, isA, e);
    PlanDirect(fs, isA);
    assert BatchSetterFor(fs, isA, ids).direct == DirectSlots(sp.direct);
  }

  /** Selecting from three sets that together cover every field of `fs` selects exactly the selected fields. */
  lemma SelectCovered(fs: FieldSet, w: set<Field>, d: set<Field>, p: set<Field>, sel: set<Field>)
    requires forall e | e in fs :: e.field in w || e.field in d || e.field in p
    ensures forall e | e in fs :: e.field in w * sel + d * sel + p * sel <==> e.field in sel
  {
  }

  /** Between them, the seed, the direct slots and the kept groups cover every field of `fs`. */
  lemma SetCovered(fs: FieldSet, isA: IsA, ids: seq<Id>)
    requires WellFormed(fs) && fs != [] && HierarchyOrder(isA)
    requires |ids| == |Plan(fs, isA).groups|
    ensures forall e | e in fs ::
      || e.field in WildFields(fs, isA)
      || e.field in SlotFields(BatchSetterFor(fs, isA, ids).direct)
      || e.field in PlanFields(KeptMembers(fs, isA))
  {
    forall e | e in fs {
      FieldCovered(fs, isA, ids, e);
    }
  }

  /** The batch setter built from a plan assigns exactly the defined fields, given sub-setters that do. */
  lemma NewBatchSetterOk(code: seq<Code>, id: Id, fs: FieldSet, isA: IsA, ids: seq<Id>,
                         v: Value, vals: map<Field, Value>, sel: set<Field>)
    requires WellFormed(fs) && fs != [] && HierarchyOrder(isA)
    requires |ids| == |Plan(fs, isA).groups|
    requires id < |code| && code[id] == BatchSetterFor(fs, isA, ids)
    requires forall j | 0 <= j < |ids| :: ids[j] < id && SetterImplements(code, ids[j], Plan(fs, isA).groups[j].members)
    requires Prepared(fs, sel, v) && PrefixFreeOn(fs, sel)
    ensures Assigns(fs, sel, vals, v, RunBatchSet(code, id, v, vals, sel))
  {
    var f := code[id];
    StepsAssign(code, id, fs, isA, ids, v, vals, sel);
    var r := SetGroups(code, id, vals, sel, f.setGroups, WriteDirect(Seeded(code, fs, isA, ids, v, vals, sel), vals, sel, f.direct));
    assert r == RunBatchSet(code, id, v, vals, sel);
    AllCovered(fs, isA, ids, sel, vals, v, r);
  }

  /** The seed, the direct writes and the kept groups, in that order, each assign their share. */
  lemma StepsAssign(code: seq<Code>, id: Id, fs: FieldSet, isA: IsA, ids: seq<Id>,
                    v: Value, vals: map<Field, Value>, sel: set<Field>)
    requires WellFormed(fs) && fs != [] && HierarchyOrder(isA)
    requires |ids| == |Plan(fs, isA).groups|
    requires id < |code| && code[id] == BatchSetterFor(fs, isA, ids)
    requires forall j | 0 <= j < |ids| :: ids[j] < id && SetterImplements(code, ids[j], Plan(fs, isA).groups[j].members)
    requires Prepared(fs, sel, v) && PrefixFreeOn(fs, sel)
    ensures var f := code[id];
      Assigns(fs, WildFields(fs, isA) * sel + SlotFields(f.direct) * sel + PlanFields(KeptMembers(fs, isA)) * sel, vals, v,
              SetGroups(code, id, vals, sel, f.setGroups, WriteDirect(Seeded(code, fs, isA, ids, v, vals, sel), vals, sel, f.direct)))
  {
    var f := code[id];
    var direct := WriteDirect(Seeded(code, fs, isA, ids, v, vals, sel), vals, sel, f.direct);
    var done := WildFields(fs, isA) * sel + SlotFields(f.direct) * sel;
    SeedAndDirectOk(code, id, fs, isA, ids, v, vals, sel);
    SetGroupsServe(code, id, fs, isA, ids);
    SetGroupsOk(code, id, fs, sel, vals, f.setGroups, KeptMembers(fs, isA), v, direct, done);
  }

  /** What the seed, the direct slots and the kept groups assign together is every selected field. */
  lemma AllCovered(fs: FieldSet, isA: IsA, ids: seq<Id>, sel: set<Field>, vals: map<Field, Value>, v: Value, r: Value)
    requires WellFormed(fs) && fs != [] && HierarchyOrder(isA)
    requires |ids| == |Plan(fs, isA).groups|
    requires Assigns(fs, WildFields(fs, isA) * sel + SlotFields(BatchSetterFor(fs, isA, ids).direct) * sel
                         + PlanFields(KeptMembers(fs, isA)) * sel, vals, v, r)
    ensures Assigns(fs, sel, vals, v, r)
  {
    var direct := BatchSetterFor(fs, isA, ids).direct;
    var plan := KeptMembers(fs, isA);
    SetCovered(fs, isA, ids);
    SelectCovered(fs, WildFields(fs, isA), SlotFields(direct), PlanFields(plan), sel);
    Reselect(fs, WildFields(fs, isA) * sel + SlotFields(direct) * sel + PlanFields(plan) * sel, sel, vals, v, r);
  }

  /** The members of a group, one property below fields of `fs`, inherit prefix-freeness on a selection. */
  lemma BelowPrefixFree(fs: FieldSet, sel: set<Field>, prop: Name, members: FieldSet)
    requires PrefixFreeOn(fs, sel) && Below(fs, prop, members)
    ensures PrefixFreeOn(members, sel)
  {
    forall m1, m2 | m1 in members && m2 in members && m1.field in sel && m2.field in sel && m1.field != m2.field
      ensures !IsPrefix(Names(m1.chain), Names(m2.chain))
    {
      var e1 :| e1 in fs && e1.field == m1.field && Names(e1.chain) == [prop] + Names(m1.chain);
      var e2 :| e2 in fs && e2.field == m2.field && Names(e2.chain) == [prop] + Names(m2.chain);
      assert !IsPrefix(Names(e1.chain), Names(e2.chain));
    }
  }

  // ---------------------------------------------------------------------------
  // emitBatchSetter
  // ---------------------------------------------------------------------------

  /**
   `emitBatchSetter`: the batch setter for the fields `fs` below `prefix`,
   memoised by prefix. An empty field set gets a setter doing nothing;
   otherwise the groups' setters are emitted first, in group order, and then
   the setter itself.
   */
  function EmitBatchSetter(g: Gen, prefix: Chain, fs: FieldSet, isA: IsA): (r: Emitted)
    requires WellFormed(fs) && HierarchyOrder(isA)
    ensures BatchSetKey(prefix) in g.scope ==> r == Emitted(g, g.scope[BatchSetKey(prefix)])
    ensures BatchSetKey(prefix) in r.gen.scope && r.gen.scope[BatchSetKey(prefix)] == r.id
    ensures Extends(g, r.gen)
    ensures forall k | k in r.gen.scope && k !in g.scope :: k.BatchSetKey? && IsPrefix(prefix, k.prefix)
    decreases MaxLen(fs), Fields(fs), 1, 0
  {
    var key := BatchSetKey(prefix);
    if key in g.scope then Emitted(g, g.scope[key])
    else if fs == [] then Emitted(Record(g, key, BatchSetterCode(None, [], [])), |g.code|)
    else
      PlanGroupsSmaller(fs, isA);
      var subs := EmitGroupSetters(g, prefix, Plan(fs, isA).groups, isA, fs);
      var r := Emitted(Record(subs.gen, key, BatchSetterFor(fs, isA, subs.ids)), |subs.gen.code|);
      ExtendsTransitive(g, subs.gen, r.gen);
      r
  }

  /** The setters of the groups, in order, each below `prefix` extended by the group's first step. */
  function EmitGroupSetters(g: Gen, prefix: Chain, groups: seq<Group>, isA: IsA, ghost fs: FieldSet): (r: EmittedAll)
    requires HierarchyOrder(isA)
    requires forall grp | grp in groups :: WellFormed(grp.members) && Smaller(grp.members, fs)
    ensures |r.ids| == |groups|
    ensures Extends(g, r.gen)
    ensures forall k | k in r.gen.scope && k !in g.scope ::
              k.BatchSetKey? && IsPrefix(prefix, k.prefix) && |k.prefix| > |prefix|
    decreases MaxLen(fs), Fields(fs), 0, |groups|
  {
    if groups == [] then EmittedAll(g, [])
    else
      assert groups[0] in groups;
      assert Smaller(groups[0].members, fs);
      assert MaxLen(groups[0].members) < MaxLen(fs)
          || (MaxLen(groups[0].members) == MaxLen(fs) && Fields(groups[0].members) < Fields(fs));
      var sub := EmitBatchSetter(g, prefix + [groups[0].first], groups[0].members, isA);
      assert forall grp | grp in groups[1..] :: grp in groups;
      var rest := EmitGroupSetters(sub.gen, prefix, groups[1..], isA, fs);
      ExtendsTransitive(g, sub.gen, rest.gen);
      PrefixOfLonger(prefix, groups[0].first);
      EmittedAll(rest.gen, [sub.id] + rest.ids)
  }

  /**
   Emitting the batch setter for `fs` into a memo table that has nothing at or
   below `prefix` yields a setter assigning exactly the defined fields of
   `fs`, and keeps the bookkeeping invariant.
   */
  lemma {:induction false} EmitBatchSetterSound(g: Gen, prefix: Chain, fs: FieldSet, isA: IsA)
    requires Consistent(g) && WellFormed(fs) && HierarchyOrder(isA)
    requires NoBatchBelow(g.scope, prefix, Setters)
    ensures var r := EmitBatchSetter(g, prefix, fs, isA);
      Consistent(r.gen) && r.id < |r.gen.code| && SetterImplements(r.gen.code, r.id, fs)
    decreases MaxLen(fs), Fields(fs), 1, 0
  {
    var key := BatchSetKey(prefix);
    assert IsPrefix(prefix, prefix);
    assert key !in g.scope;
    if fs == [] {
      EmptySetterOk(g, key);
    } else {
      PlanGroupsSmaller(fs, isA);
      var groups := Plan(fs, isA).groups;
      GroupsFresh(g, prefix, fs, isA, Setters);
      EmitGroupSettersSound(g, prefix, groups, isA, fs);
      var subs := EmitGroupSetters(g, prefix, groups, isA, fs);
      FinishSetter(subs.gen, key, fs, isA, subs.ids);
    }
  }

  /** The setter of an empty field set changes nothing, which is all it is asked to do. */
  lemma EmptySetterOk(g: Gen, key: Key)
    requires Consistent(g) && key.BatchSetKey? && key !in g.scope
    ensures var r := Record(g, key, BatchSetterCode(None, [], []));
      Consistent(r) && SetterImplements(r.code, |g.code|, [])
  {
    var f := BatchSetterCode(None, [], []);
    RecordKeepsConsistent(g, key, f);
    var r := Record(g, key, f);
    forall v, vals, sel | Prepared([], sel, v) && PrefixFreeOn([], sel)
      ensures Assigns([], sel, vals, v, RunBatchSet(r.code, |g.code|, v, vals, sel))
    {
      EmptySetsNothing(r.code, |g.code|, v, vals, sel);
      AssignsNothing([], vals, v);
    }
  }

  lemma EmptySetsNothing(code: seq<Code>, id: Id, v: Value, vals: map<Field, Value>, sel: set<Field>)
    requires id < |code| && code[id] == BatchSetterCode(None, [], [])
    ensures RunBatchSet(code, id, v, vals, sel) == v
  {
  }

  /** Recording the batch setter of a plan, once its groups' setters exist, gives a correct setter. */
  lemma FinishSetter(g: Gen, key: Key, fs: FieldSet, isA: IsA, ids: seq<Id>)
    requires Consistent(g) && key.BatchSetKey? && key !in g.scope
    requires WellFormed(fs) && fs != [] && HierarchyOrder(isA)
    requires |ids| == |Plan(fs, isA).groups|
    requires forall j | 0 <= j < |ids| :: ids[j] < |g.code| && SetterImplements(g.code, ids[j], Plan(fs, isA).groups[j].members)
    ensures var r := Record(g, key, BatchSetterFor(fs, isA, ids));
      Consistent(r) && SetterImplements(r.code, |g.code|, fs)
  {
    var groups := Plan(fs, isA).groups;
    var f := BatchSetterFor(fs, isA, ids);
    RecordKeepsConsistent(g, key, f);
    var r := Record(g, key, f);
    forall j | 0 <= j < |ids|
      ensures SetterImplements(r.code, ids[j], groups[j].members)
    {
      SetterImplementsExtend(g.code, [f], ids[j], groups[j].members);
    }
    forall v, vals, sel | Prepared(fs, sel, v) && PrefixFreeOn(fs, sel)
      ensures Assigns(fs, sel, vals, v, RunBatchSet(r.code, |g.code|, v, vals, sel))
    {
      NewBatchSetterOk(r.code, |g.code|, fs, isA, ids, v, vals, sel);
    }
  }

  /** A batch setter keeps what it does in every later state. */
  lemma SetterImplementsLater(earlier: Gen, later: Gen, id: Id, fs: FieldSet)
    requires Extends(earlier, later)
    requires id < |earlier.code| && SetterImplements(earlier.code, id, fs)
    ensures id < |later.code| && SetterImplements(later.code, id, fs)
  {
    ExtendsCode(earlier, later);
    SetterImplementsExtend(earlier.code, later.code[|earlier.code|..], id, fs);
  }

  lemma ConsSetterImplements(code: seq<Code>, id0: Id, ids: seq<Id>, groups: seq<Group>)
    requires groups != [] && |ids| == |groups| - 1
    requires id0 < |code| && SetterImplements(code, id0, groups[0].members)
    requires forall j | 0 <= j < |ids| :: ids[j] < |code| && SetterImplements(code, ids[j], groups[1..][j].members)
    ensures forall j | 0 <= j < |groups| ::
              ([id0] + ids)[j] < |code| && SetterImplements(code, ([id0] + ids)[j], groups[j].members)
  {
    forall j | 0 <= j < |groups|
      ensures ([id0] + ids)[j] < |code| && SetterImplements(code, ([id0] + ids)[j], groups[j].members)
    {
      if j > 0 {
        assert ([id0] + ids)[j] == ids[j - 1] && groups[j] == groups[1..][j - 1];
      }
    }
  }

  lemma {:induction false} EmitGroupSettersSound(g: Gen, prefix: Chain, groups: seq<Group>, isA: IsA, fs: FieldSet)
    requires Consistent(g) && HierarchyOrder(isA)
    requires forall grp | grp in groups :: WellFormed(grp.members) && Smaller(grp.members, fs)
    requires forall i, j | 0 <= i < j < |groups| :: groups[i].first != groups[j].first
    requires forall grp | grp in groups :: NoBatchBelow(g.scope, prefix + [grp.first], Setters)
    ensures var r := EmitGroupSetters(g, prefix, groups, isA, fs);
      && Consistent(r.gen)
      && forall j | 0 <= j < |groups| ::
           r.ids[j] < |r.gen.code| && SetterImplements(r.gen.code, r.ids[j], groups[j].members)
    decreases MaxLen(fs), Fields(fs), 0, |groups|
  {
    if groups != [] {
      assert groups[0] in groups;
      assert Smaller(groups[0].members, fs);
      assert MaxLen(groups[0].members) < MaxLen(fs)
          || (MaxLen(groups[0].members) == MaxLen(fs) && Fields(groups[0].members) < Fields(fs));
      var p0 := prefix + [groups[0].first];
      EmitBatchSetterSound(g, p0, groups[0].members, isA);
      var sub := EmitBatchSetter(g, p0, groups[0].members, isA);
      var tail := groups[1..];
      TailFresh(g, sub.gen, prefix, groups, Setters);
      TailShape(groups, fs);
      assert forall grp | grp in tail :: grp in groups;
      EmitGroupSettersSound(sub.gen, prefix, tail, isA, fs);
      var rest := EmitGroupSetters(sub.gen, prefix, tail, isA, fs);
      SetterImplementsLater(sub.gen, rest.gen, sub.id, groups[0].members);
      ConsSetterImplements(rest.gen.code, sub.id, rest.ids, groups);
      assert EmitGroupSetters(g, prefix, groups, isA, fs) == EmittedAll(rest.gen, [sub.id] + rest.ids);
    }
  }
}
