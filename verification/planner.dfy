/**
 Planning a batch accessor: hierarchy normalisation (`markParentChains`) and
 the split of a field set into direct fields and compound groups
 (`extractCompoundChains`).
 */
module Planner {
  import opened Chains
  import opened Memo

  /** `isA(a, b)`: class `a` is `b` or one of its descendants (PHP's `is_a`). */
  type IsA = (Class, Class) -> bool

  /** `a` is a strict descendant of `b`. */
  predicate StrictSub(isA: IsA, a: Class, b: Class)
  {
    a != b && isA(a, b)
  }

  /** The class hierarchy is a partial order: `is_a` is transitive and has no cycles. */
  ghost predicate HierarchyOrder(isA: IsA)
  {
    && (forall a, b, c :: isA(a, b) && isA(b, c) ==> isA(a, c))
    && (forall a, b :: a != b && isA(a, b) ==> !isA(b, a))
  }

  predicate Distinct<T(==)>(s: seq<T>)
  {
    forall i, j | 0 <= i < j < |s| :: s[i] != s[j]
  }

  predicate NonEmptyChains(fs: FieldSet)
  {
    forall e | e in fs :: |e.chain| >= 1
  }

  /** The owner class of the first step of every chain. */
  function FirstOwners(fs: FieldSet): set<Class>
    requires NonEmptyChains(fs)
  {
    set e | e in fs :: e.chain[0].owner
  }

  /** The distinct first-step owners, in order of first appearance (the keys of `$classes`). */
  function Owners(fs: FieldSet): (r: seq<Class>)
    requires NonEmptyChains(fs)
    ensures Distinct(r)
    ensures forall c :: c in r <==> c in FirstOwners(fs)
    decreases |fs|
  {
    if fs == [] then []
    else
      var front := fs[..|fs| - 1];
      assert forall e | e in front :: e in fs;
      var r := Owners(front);
      var o := fs[|fs| - 1].chain[0].owner;
      assert forall e | e in fs :: e in front || e == fs[|fs| - 1];
      if o in r then r else r + [o]
  }

  /**
   The elimination pass: walking the owners in order, drop an owner when some
   owner not dropped yet is a strict descendant of it.
   */
  function Eliminate(classes: seq<Class>, isA: IsA, i: nat, alive: set<Class>): set<Class>
    decreases |classes| - i
  {
    if i >= |classes| then alive
    else Eliminate(classes, isA, i + 1, DropIfParent(isA, classes[i], alive))
  }

  /** Drops `c` when a class still alive strictly descends from it. */
  function DropIfParent(isA: IsA, c: Class, alive: set<Class>): set<Class>
  {
    if exists c2 | c2 in alive :: StrictSub(isA, c2, c) then alive - {c} else alive
  }

  /** The owners left after elimination, in order. */
  function Survivors(classes: seq<Class>, alive: set<Class>): (r: seq<Class>)
    ensures forall c :: c in r <==> c in classes && c in alive
    ensures r != [] ==> exists k | 0 <= k < |classes| :: classes[k] == r[0] && forall j | 0 <= j < k :: classes[j] !in alive
  {
    if classes == [] then []
    else if classes[0] in alive then [classes[0]] + Survivors(classes[1..], alive)
    else
      var r := Survivors(classes[1..], alive);
      if r != [] then
        var k :| 0 <= k < |classes[1..]| && classes[1..][k] == r[0] && forall j | 0 <= j < k :: classes[1..][j] !in alive;
        assert classes[k + 1] == r[0] && forall j | 0 <= j < k + 1 :: classes[j] !in alive;
        r
      else r
  }

  /** `c` has no strict descendant among `classes`. */
  predicate Minimal(isA: IsA, classes: seq<Class>, c: Class)
  {
    forall w | w in classes :: !StrictSub(isA, w, c)
  }

  /** What holds of `alive` when elimination has reached position `i`. */
  ghost predicate EliminationState(classes: seq<Class>, isA: IsA, i: nat, alive: set<Class>)
  {
    && Distinct(classes) && i <= |classes|
    && (forall c | c in alive :: c in classes)
    && (forall j | i <= j < |classes| :: classes[j] in alive)
    && (forall c | c in classes && c !in alive :: exists w | w in alive :: StrictSub(isA, w, c))
    && (forall j, w | 0 <= j < i && classes[j] in alive && w in alive :: !StrictSub(isA, w, classes[j]))
  }

  /** At the end of the pass, the owners still alive are exactly the minimal ones. */
  lemma EliminationDone(classes: seq<Class>, isA: IsA, alive: set<Class>)
    requires HierarchyOrder(isA)
    requires EliminationState(classes, isA, |classes|, alive)
    ensures forall c :: c in alive <==> c in classes && Minimal(isA, classes, c)
  {
    forall c | c in classes
      ensures c in alive <==> Minimal(isA, classes, c)
    {
      if c in alive {
        var j :| 0 <= j < |classes| && classes[j] == c;
        forall w | w in classes
          ensures !StrictSub(isA, w, c)
        {
          if w !in alive && StrictSub(isA, w, c) {
            var u :| u in alive && StrictSub(isA, u, w);
            SubTrans(isA, u, w, c);
          }
        }
      } else {
        var w :| w in alive && StrictSub(isA, w, c);
        assert w in classes;
      }
    }
  }

  /** One step of the pass keeps the elimination state. */
  lemma EliminationStep(classes: seq<Class>, isA: IsA, i: nat, alive: set<Class>)
    requires HierarchyOrder(isA)
    requires i < |classes| && EliminationState(classes, isA, i, alive)
    ensures EliminationState(classes, isA, i + 1, DropIfParent(isA, classes[i], alive))
  {
    var c := classes[i];
    if exists c2 | c2 in alive :: StrictSub(isA, c2, c) {
      var c2 :| c2 in alive && StrictSub(isA, c2, c);
      var alive' := alive - {c};
      forall r | r in classes && r !in alive'
        ensures exists w | w in alive' :: StrictSub(isA, w, r)
      {
        if r == c {
          assert c2 in alive';
        } else {
          var w :| w in alive && StrictSub(isA, w, r);
          if w == c {
            SubTrans(isA, c2, c, r);
            assert c2 in alive';
          } else {
            assert w in alive';
          }
        }
      }
    }
  }

  /**
   Elimination keeps exactly the owners that have no strict descendant among
   the owners, provided `is_a` is a partial order.
   */
  lemma {:induction false} EliminateKeepsMinimal(classes: seq<Class>, isA: IsA, i: nat, alive: set<Class>)
    requires HierarchyOrder(isA)
    requires EliminationState(classes, isA, i, alive)
    ensures forall c :: c in Eliminate(classes, isA, i, alive) <==> c in classes && Minimal(isA, classes, c)
    decreases |classes| - i
  {
    if i == |classes| {
      EliminationDone(classes, isA, alive);
    } else {
      EliminationStep(classes, isA, i, alive);
      EliminateKeepsMinimal(classes, isA, i + 1, DropIfParent(isA, classes[i], alive));
    }
  }

  /** Descent is transitive and strict. */
  lemma SubTrans(isA: IsA, a: Class, b: Class, c: Class)
    requires HierarchyOrder(isA)
    requires StrictSub(isA, a, b) && StrictSub(isA, b, c)
    ensures StrictSub(isA, a, c)
  {
  }

  /** A non-empty list of owners has an owner with no strict descendant among them. */
  lemma {:induction false} MinimalExists(classes: seq<Class>, isA: IsA)
    requires HierarchyOrder(isA)
    requires classes != []
    ensures exists c | c in classes :: Minimal(isA, classes, c)
    decreases |classes|
  {
    var h := classes[0];
    if |classes| == 1 {
      assert Minimal(isA, classes, h);
    } else {
      var t := classes[1..];
      MinimalExists(t, isA);
      var m :| m in t && Minimal(isA, t, m);
      assert forall w | w in classes :: w == h || w in t;
      if StrictSub(isA, h, m) {
        forall w | w in classes
          ensures !StrictSub(isA, w, h)
        {
          if StrictSub(isA, w, h) {
            SubTrans(isA, w, h, m);
          }
        }
        assert Minimal(isA, classes, h);
      } else {
        assert Minimal(isA, classes, m);
      }
    }
  }
  // ---------------------------------------------------------------------------
  // markParentChains
  // ---------------------------------------------------------------------------

  /**
   The owner the elimination pass picks (`$childmostClass`): the first owner,
   in order of appearance, that no other owner descends from.
   */
  function Childmost(fs: FieldSet, isA: IsA): (ch: Class)
    requires NonEmptyChains(fs) && fs != []
    requires HierarchyOrder(isA)
    ensures ch in FirstOwners(fs)
    ensures Minimal(isA, Owners(fs), ch)
    ensures exists k | 0 <= k < |Owners(fs)| :: Owners(fs)[k] == ch && forall j | 0 <= j < k :: !Minimal(isA, Owners(fs), Owners(fs)[j])
  {
    var classes := Owners(fs);
    var all := set c | c in classes;
    FirstSurvivor(fs, isA);
    Survivors(classes, Eliminate(classes, isA, 0, all))[0]
  }

  /** The survivors of elimination are the minimal owners, and there is at least one. */
  lemma FirstSurvivor(fs: FieldSet, isA: IsA)
    requires NonEmptyChains(fs) && fs != []
    requires HierarchyOrder(isA)
    ensures var classes := Owners(fs);
      var alive := Eliminate(classes, isA, 0, set c | c in classes);
      && Survivors(classes, alive) != []
      && (forall c :: c in alive <==> c in classes && Minimal(isA, classes, c))
  {
    var classes := Owners(fs);
    assert fs[0].chain[0].owner in FirstOwners(fs);
    var all := set c | c in classes;
    EliminateKeepsMinimal(classes, isA, 0, all);
    MinimalExists(classes, isA);
  }

  /** When one owner descends from all the others, that owner is the one picked. */
  lemma ChildmostIsMostDerived(fs: FieldSet, isA: IsA, d: Class)
    requires NonEmptyChains(fs) && fs != []
    requires HierarchyOrder(isA)
    requires d in FirstOwners(fs)
    requires forall o | o in FirstOwners(fs) :: isA(d, o)
    ensures Childmost(fs, isA) == d
  {
    var ch := Childmost(fs, isA);
    assert d in Owners(fs);
    assert !StrictSub(isA, d, ch);
  }

  /** Prefixes a chain with the wildcard step of `ch` unless it already starts at `ch`. */
  function MarkWith(fs: FieldSet, ch: Class): (r: FieldSet)
    requires NonEmptyChains(fs)
    ensures |r| == |fs|
  {
    seq(|fs|, i requires 0 <= i < |fs| =>
      if fs[i].chain[0].owner == ch then fs[i]
      else Entry(fs[i].field, [Step(ch, Wildcard)] + fs[i].chain))
  }

  /**
   `markParentChains`: rewrites the chains so that all start at the childmost
   owner; a chain starting at another class gets the wildcard step of the
   childmost owner in front. With a single owner nothing changes.
   */
  function MarkParentChains(fs: FieldSet, isA: IsA): (r: FieldSet)
    requires NonEmptyChains(fs)
    requires HierarchyOrder(isA)
    ensures |r| == |fs| && NonEmptyChains(r)
    ensures |Owners(fs)| <= 1 ==> r == fs
    ensures fs != [] ==> forall i | 0 <= i < |r| ::
              && r[i].field == fs[i].field
              && r[i].chain[0].owner == Childmost(fs, isA)
              && (fs[i].chain[0].owner == Childmost(fs, isA) ==> r[i] == fs[i])
              && (fs[i].chain[0].owner != Childmost(fs, isA) ==> r[i].chain == [Step(Childmost(fs, isA), Wildcard)] + fs[i].chain)
  {
    if |Owners(fs)| <= 1 then
      SingleOwner(fs, isA);
      fs
    else
      MarkWith(fs, Childmost(fs, isA))
  }

  /** With a single owner, every chain starts at the childmost owner already. */
  lemma SingleOwner(fs: FieldSet, isA: IsA)
    requires NonEmptyChains(fs) && |Owners(fs)| <= 1
    requires HierarchyOrder(isA)
    ensures fs != [] ==> forall i | 0 <= i < |fs| :: fs[i].chain[0].owner == Childmost(fs, isA)
  {
    if fs != [] {
      var ch := Childmost(fs, isA);
      forall i | 0 <= i < |fs|
        ensures fs[i].chain[0].owner == ch
      {
        assert fs[i] in fs;
        assert fs[i].chain[0].owner in Owners(fs);
        assert ch in Owners(fs);
      }
    }
  }

  /** Hierarchy normalisation keeps the field names and their uniqueness. */
  lemma MarkKeepsFields(fs: FieldSet, isA: IsA)
    requires WellFormed(fs)
    requires HierarchyOrder(isA)
    ensures Fields(MarkParentChains(fs, isA)) == Fields(fs)
    ensures UniqueFields(MarkParentChains(fs, isA))
  {
    var r := MarkParentChains(fs, isA);
    if fs != [] {
      forall f | f in Fields(fs)
        ensures f in Fields(r)
      {
        var i :| 0 <= i < |fs| && fs[i].field == f;
        assert r[i] in r;
      }
      forall f | f in Fields(r)
        ensures f in Fields(fs)
      {
        var i :| 0 <= i < |r| && r[i].field == f;
        assert fs[i] in fs;
      }
    }
  }

  /**
   Membership view of hierarchy normalisation with childmost owner `ch`:
   every entry of the result is an original entry starting at `ch`, or the
   wildcard step of `ch` in front of an original entry starting elsewhere.
   */
  lemma MarkMembers(fs: FieldSet, isA: IsA)
    requires NonEmptyChains(fs) && fs != []
    requires HierarchyOrder(isA)
    ensures var r := MarkParentChains(fs, isA); var ch := Childmost(fs, isA);
      && (forall e | e in r ::
            || (e in fs && e.chain[0].owner == ch)
            || (|e.chain| >= 2 && e.chain[0] == Step(ch, Wildcard) && e.chain[1].owner != ch
                && Entry(e.field, e.chain[1..]) in fs))
      && (forall e | e in fs ::
            || (e.chain[0].owner == ch && e in r)
            || (e.chain[0].owner != ch && Entry(e.field, [Step(ch, Wildcard)] + e.chain) in r))
  {
    var r := MarkParentChains(fs, isA);
    var ch := Childmost(fs, isA);
    forall e | e in r
      ensures || (e in fs && e.chain[0].owner == ch)
              || (|e.chain| >= 2 && e.chain[0] == Step(ch, Wildcard) && e.chain[1].owner != ch
                  && Entry(e.field, e.chain[1..]) in fs)
    {
      var i :| 0 <= i < |r| && r[i] == e;
      if fs[i].chain[0].owner != ch {
        assert e.chain[1..] == fs[i].chain;
        assert Entry(e.field, e.chain[1..]) == fs[i];
      }
    }
    forall e | e in fs
      ensures || (e.chain[0].owner == ch && e in r)
              || (e.chain[0].owner != ch && Entry(e.field, [Step(ch, Wildcard)] + e.chain) in r)
    {
      var i :| 0 <= i < |fs| && fs[i] == e;
      assert r[i] in r;
    }
  }
  // ---------------------------------------------------------------------------
  // extractCompoundChains
  // ---------------------------------------------------------------------------

  /** Fields whose chains share a first step, with that step removed from their chains. */
  datatype Group = Group(first: Step, members: FieldSet)

  /** The single-step fields, and the compound groups in order of first appearance. */
  datatype Split = Split(direct: FieldSet, groups: seq<Group>)

  /** Position of the group for first step `s`, or `|groups|` when there is none yet. */
  function GroupIndex(groups: seq<Group>, s: Step): (k: nat)
    ensures k <= |groups|
    ensures k < |groups| ==> groups[k].first == s
    ensures forall j | 0 <= j < k :: groups[j].first != s
  {
    if groups == [] then 0
    else if groups[0].first == s then 0
    else 1 + GroupIndex(groups[1..], s)
  }

  /** Files one field: a compound chain joins (or opens) the group of its first step. */
  function AddEntry(sp: Split, e: Entry): Split
    requires |e.chain| >= 1
  {
    if |e.chain| > 1 then
      var k := GroupIndex(sp.groups, e.chain[0]);
      var m := Entry(e.field, e.chain[1..]);
      if k == |sp.groups| then sp.(groups := sp.groups + [Group(e.chain[0], [m])])
      else sp.(groups := sp.groups[k := sp.groups[k].(members := sp.groups[k].members + [m])])
    else sp.(direct := sp.direct + [e])
  }

  /**
   `extractCompoundChains`: walking the fields in order, keeps single-step
   fields as direct fields and moves every compound field into the group of
   its first step.
   */
  function ExtractCompoundChains(fs: FieldSet): Split
    requires NonEmptyChains(fs)
    decreases |fs|
  {
    if fs == [] then Split([], [])
    else
      assert forall e | e in fs[..|fs| - 1] :: e in fs;
      AddEntry(ExtractCompoundChains(fs[..|fs| - 1]), fs[|fs| - 1])
  }

  /** Every direct field and every group member comes from the field set. */
  ghost predicate SplitSound(fs: FieldSet, sp: Split)
  {
    && (forall e | e in sp.direct :: e in fs && |e.chain| == 1)
    && (forall g, m | g in sp.groups && m in g.members ::
          |m.chain| >= 1 && Entry(m.field, [g.first] + m.chain) in fs)
  }

  /** Every field of the field set is a direct field or a member of the group of its first step. */
  ghost predicate SplitComplete(fs: FieldSet, sp: Split)
    requires NonEmptyChains(fs)
  {
    && (forall e | e in fs && |e.chain| == 1 :: e in sp.direct)
    && (forall e | e in fs && |e.chain| > 1 ::
          exists g | g in sp.groups :: g.first == e.chain[0] && Entry(e.field, e.chain[1..]) in g.members)
  }

  /** Groups have distinct first steps, are non-empty, and field names stay unique. */
  ghost predicate SplitShape(sp: Split)
  {
    && (forall i, j | 0 <= i < j < |sp.groups| :: sp.groups[i].first != sp.groups[j].first)
    && (forall g | g in sp.groups :: g.members != [] && UniqueFields(g.members))
    && UniqueFields(sp.direct)
  }

  lemma AddEntrySound(fs: FieldSet, sp: Split, e: Entry)
    requires |e.chain| >= 1
    requires SplitSound(fs, sp)
    ensures SplitSound(fs + [e], AddEntry(sp, e))
  {
    var fs' := fs + [e];
    var sp' := AddEntry(sp, e);
    assert forall x | x in fs :: x in fs';
    if |e.chain| > 1 {
      var k := GroupIndex(sp.groups, e.chain[0]);
      var m := Entry(e.field, e.chain[1..]);
      assert [e.chain[0]] + m.chain == e.chain;
      forall g, m' | g in sp'.groups && m' in g.members
        ensures |m'.chain| >= 1 && Entry(m'.field, [g.first] + m'.chain) in fs'
      {
        var i :| 0 <= i < |sp'.groups| && sp'.groups[i] == g;
        if i < |sp.groups| && i != k {
          assert g == sp.groups[i];
        } else if i == k && k < |sp.groups| {
          assert g.members == sp.groups[k].members + [m];
          if m' != m {
            assert m' in sp.groups[k].members;
          }
        }
      }
    }
  }

  lemma AddEntryComplete(fs: FieldSet, sp: Split, e: Entry)
    requires NonEmptyChains(fs) && |e.chain| >= 1
    requires SplitComplete(fs, sp)
    ensures SplitComplete(fs + [e], AddEntry(sp, e))
  {
    var fs' := fs + [e];
    var sp' := AddEntry(sp, e);
    assert forall x | x in fs' :: x in fs || x == e;
    if |e.chain| > 1 {
      var k := GroupIndex(sp.groups, e.chain[0]);
      var m := Entry(e.field, e.chain[1..]);
      // an old group keeps its members, possibly with `m` appended
      forall g | g in sp.groups
        ensures exists g' | g' in sp'.groups :: g'.first == g.first && forall x | x in g.members :: x in g'.members
      {
        var i :| 0 <= i < |sp.groups| && sp.groups[i] == g;
        assert sp'.groups[i] in sp'.groups;
      }
      assert exists g' | g' in sp'.groups :: g'.first == e.chain[0] && m in g'.members by {
        if k == |sp.groups| {
          assert sp'.groups[k] in sp'.groups;
        } else {
          assert sp'.groups[k] in sp'.groups;
          assert sp'.groups[k].members == sp.groups[k].members + [m];
        }
      }
    }
  }

  lemma AddEntryShape(fs: FieldSet, sp: Split, e: Entry)
    requires |e.chain| >= 1
    requires SplitSound(fs, sp) && SplitShape(sp)
    requires e.field !in Fields(fs)
    ensures SplitShape(AddEntry(sp, e))
  {
    var sp' := AddEntry(sp, e);
    if |e.chain| > 1 {
      var k := GroupIndex(sp.groups, e.chain[0]);
      var m := Entry(e.field, e.chain[1..]);
      if k < |sp.groups| {
        var g := sp.groups[k];
        forall x | x in g.members
          ensures x.field != m.field
        {
          assert Entry(x.field, [g.first] + x.chain) in fs;
        }
        assert UniqueFields(g.members + [m]);
        forall g' | g' in sp'.groups
          ensures g'.members != [] && UniqueFields(g'.members)
        {
          var i :| 0 <= i < |sp'.groups| && sp'.groups[i] == g';
          if i != k {
            assert g' == sp.groups[i];
          }
        }
      }
    } else {
      forall x | x in sp.direct
        ensures x.field != e.field
      {
        assert x in fs;
      }
    }
  }

  lemma {:induction false} ExtractSound(fs: FieldSet)
    requires NonEmptyChains(fs)
    ensures SplitSound(fs, ExtractCompoundChains(fs))
    decreases |fs|
  {
    if fs != [] {
      var front := fs[..|fs| - 1];
      assert fs == front + [fs[|fs| - 1]];
      assert forall x | x in front :: x in fs;
      ExtractSound(front);
      AddEntrySound(front, ExtractCompoundChains(front), fs[|fs| - 1]);
    }
  }

  lemma {:induction false} ExtractComplete(fs: FieldSet)
    requires NonEmptyChains(fs)
    ensures SplitComplete(fs, ExtractCompoundChains(fs))
    decreases |fs|
  {
    if fs != [] {
      var front := fs[..|fs| - 1];
      assert fs == front + [fs[|fs| - 1]];
      assert forall x | x in front :: x in fs;
      ExtractComplete(front);
      AddEntryComplete(front, ExtractCompoundChains(front), fs[|fs| - 1]);
    }
  }

  /** The last field of a field set with unique names is not among the others. */
  lemma LastFieldFresh(fs: FieldSet)
    requires fs != [] && UniqueFields(fs)
    ensures fs[|fs| - 1].field !in Fields(fs[..|fs| - 1])
  {
    var front := fs[..|fs| - 1];
    forall x | x in front
      ensures x.field != fs[|fs| - 1].field
    {
      var i :| 0 <= i < |front| && front[i] == x;
    }
  }

  lemma {:induction false} ExtractShape(fs: FieldSet)
    requires NonEmptyChains(fs) && UniqueFields(fs)
    ensures SplitShape(ExtractCompoundChains(fs))
    decreases |fs|
  {
    if fs != [] {
      var front := fs[..|fs| - 1];
      assert forall x | x in front :: x in fs;
      ExtractShape(front);
      ExtractSound(front);
      LastFieldFresh(fs);
      AddEntryShape(front, ExtractCompoundChains(front), fs[|fs| - 1]);
    }
  }

  /** The split files every field exactly where its chain says, and nowhere else. */
  lemma ExtractSpec(fs: FieldSet)
    requires NonEmptyChains(fs) && UniqueFields(fs)
    ensures SplitSound(fs, ExtractCompoundChains(fs))
    ensures SplitComplete(fs, ExtractCompoundChains(fs))
    ensures SplitShape(ExtractCompoundChains(fs))
  {
    ExtractSound(fs);
    ExtractComplete(fs);
    ExtractShape(fs);
  }
  // ---------------------------------------------------------------------------
  // The plan of one batch accessor level
  // ---------------------------------------------------------------------------

  /** Normalise the hierarchy, then split into direct fields and groups. */
  function Plan(fs: FieldSet, isA: IsA): Split
    requires NonEmptyChains(fs)
    requires HierarchyOrder(isA)
  {
    ExtractCompoundChains(MarkParentChains(fs, isA))
  }

  /** The synthetic first step of the group that collects fields owned by ancestors. */
  function WildStep(ch: Class): Step
  {
    Step(ch, Wildcard)
  }

  /** Every direct field of the plan is an original single-step field of the childmost owner. */
  lemma PlanDirect(fs: FieldSet, isA: IsA)
    requires WellFormed(fs) && fs != []
    requires HierarchyOrder(isA)
    ensures forall e | e in Plan(fs, isA).direct ::
              e in fs && |e.chain| == 1 && e.chain[0].owner == Childmost(fs, isA)
  {
    var marked := MarkParentChains(fs, isA);
    MarkMembers(fs, isA);
    ExtractSound(marked);
  }

  /**
   Every group of the plan is either the wildcard group, whose members are
   original fields of other owners, or the group of a first step of the
   childmost owner, whose members are original fields with that step removed.
   */
  lemma PlanGroups(fs: FieldSet, isA: IsA)
    requires WellFormed(fs) && fs != []
    requires HierarchyOrder(isA)
    ensures var ch := Childmost(fs, isA);
      forall g | g in Plan(fs, isA).groups ::
        || (g.first == WildStep(ch) && forall m | m in g.members :: m in fs && m.chain[0].owner != ch)
        || (g.first.owner == ch && g.first.name != Wildcard
            && forall m | m in g.members :: |m.chain| >= 1 && Entry(m.field, [g.first] + m.chain) in fs)
  {
    var ch := Childmost(fs, isA);
    var marked := MarkParentChains(fs, isA);
    MarkMembers(fs, isA);
    ExtractSound(marked);
    ExtractShape(marked) by {
      MarkKeepsFields(fs, isA);
    }
    var sp := Plan(fs, isA);
    forall g | g in sp.groups
      ensures || (g.first == WildStep(ch) && forall m | m in g.members :: m in fs && m.chain[0].owner != ch)
              || (g.first.owner == ch && g.first.name != Wildcard
                  && forall m | m in g.members :: |m.chain| >= 1 && Entry(m.field, [g.first] + m.chain) in fs)
    {
      var m0 := g.members[0];
      var e0 := Entry(m0.field, [g.first] + m0.chain);
      assert e0 in marked;
      if g.first == WildStep(ch) {
        forall m | m in g.members
          ensures m in fs && m.chain[0].owner != ch
        {
          var e := Entry(m.field, [g.first] + m.chain);
          assert e in marked;
          assert e.chain[1..] == m.chain;
        }
      } else {
        assert g.first.owner == ch;
        forall m | m in g.members
          ensures |m.chain| >= 1 && Entry(m.field, [g.first] + m.chain) in fs
        {
          var e := Entry(m.field, [g.first] + m.chain);
          assert e in marked;
        }
      }
    }
  }

  /** Every original field lands in the plan: as a direct field, in the wildcard group, or in the group of its first step. */
  lemma PlanComplete(fs: FieldSet, isA: IsA)
    requires WellFormed(fs) && fs != []
    requires HierarchyOrder(isA)
    ensures var ch := Childmost(fs, isA); var sp := Plan(fs, isA);
      forall e | e in fs ::
        || (|e.chain| == 1 && e.chain[0].owner == ch && e in sp.direct)
        || (e.chain[0].owner != ch && exists g | g in sp.groups :: g.first == WildStep(ch) && e in g.members)
        || (|e.chain| > 1 && e.chain[0].owner == ch
            && exists g | g in sp.groups :: g.first == e.chain[0] && Entry(e.field, e.chain[1..]) in g.members)
  {
    var ch := Childmost(fs, isA);
    var marked := MarkParentChains(fs, isA);
    MarkMembers(fs, isA);
    ExtractComplete(marked);
    forall e | e in fs
      ensures e.chain[0].owner != ch ==> exists g | g in Plan(fs, isA).groups :: g.first == WildStep(ch) && e in g.members
    {
      if e.chain[0].owner != ch {
        var e' := Entry(e.field, [WildStep(ch)] + e.chain);
        assert e' in marked;
        assert e'.chain[1..] == e.chain;
      }
    }
  }

  /** Longest chain length of a field set. */
  function MaxLen(fs: FieldSet): (r: nat)
    ensures forall e | e in fs :: |e.chain| <= r
    ensures fs != [] ==> exists e | e in fs :: |e.chain| == r
  {
    if fs == [] then 0
    else
      var t := MaxLen(fs[1..]);
      assert forall e | e in fs :: e == fs[0] || e in fs[1..];
      if |fs[0].chain| >= t then |fs[0].chain| else t
  }

  /**
   Recursion into a group works on a smaller problem: its chains are shorter,
   or (for the wildcard group) no longer but over strictly fewer fields.
   */
  predicate Smaller(sub: FieldSet, fs: FieldSet)
  {
    MaxLen(sub) < MaxLen(fs) || (MaxLen(sub) <= MaxLen(fs) && Fields(sub) < Fields(fs))
  }

  /** The wildcard group holds original fields only, and misses those of the childmost owner. */
  lemma WildGroupSmaller(fs: FieldSet, ch: Class, g: Group)
    requires WellFormed(fs) && ch in FirstOwners(fs)
    requires UniqueFields(g.members)
    requires forall m | m in g.members :: m in fs && m.chain[0].owner != ch
    ensures WellFormed(g.members) && Smaller(g.members, fs)
  {
    var e0 :| e0 in fs && e0.chain[0].owner == ch;
    assert e0.field !in Fields(g.members);
    assert Fields(g.members) <= Fields(fs);
  }

  /** A group of a real first step holds original chains with that step removed. */
  lemma StepGroupSmaller(fs: FieldSet, g: Group)
    requires WellFormed(fs)
    requires g.members != [] && UniqueFields(g.members)
    requires forall m | m in g.members :: |m.chain| >= 1 && Entry(m.field, [g.first] + m.chain) in fs
    ensures WellFormed(g.members) && Smaller(g.members, fs)
  {
    forall m | m in g.members
      ensures |m.chain| < MaxLen(fs) && NoWildcard(m.chain)
    {
      var e := Entry(m.field, [g.first] + m.chain);
      assert e in fs;
      forall i | 0 <= i < |m.chain|
        ensures m.chain[i].name != Wildcard
      {
        assert m.chain[i] == e.chain[i + 1];
      }
    }
  }

  /** Every group of the plan is a well-formed, smaller field set. */
  lemma PlanGroupsSmaller(fs: FieldSet, isA: IsA)
    requires WellFormed(fs) && fs != []
    requires HierarchyOrder(isA)
    ensures forall g | g in Plan(fs, isA).groups :: g.members != [] && WellFormed(g.members) && Smaller(g.members, fs)
  {
    var ch := Childmost(fs, isA);
    var marked := MarkParentChains(fs, isA);
    PlanGroups(fs, isA);
    ExtractShape(marked) by {
      MarkKeepsFields(fs, isA);
    }
    forall g | g in Plan(fs, isA).groups
      ensures WellFormed(g.members) && Smaller(g.members, fs)
    {
      if g.first == WildStep(ch) {
        WildGroupSmaller(fs, ch, g);
      } else {
        StepGroupSmaller(fs, g);
      }
    }
  }

  // ---------------------------------------------------------------------------
  // Shared by both batch emitters
  // ---------------------------------------------------------------------------

  /** The field names of a field set, in order (`array_keys`). */
  function FieldList(fs: FieldSet): (r: seq<Field>)
    ensures |r| == |fs|
    ensures forall f :: f in r <==> f in Fields(fs)
  {
    var r := seq(|fs|, i requires 0 <= i < |fs| => fs[i].field);
    assert forall f | f in Fields(fs) :: f in r by {
      forall f | f in Fields(fs)
        ensures f in r
      {
        var e :| e in fs && e.field == f;
        var i :| 0 <= i < |fs| && fs[i] == e;
        assert r[i] == f;
      }
    }
    r
  }

  /** The direct fields as slots: field name and the property read or assigned. */
  function DirectSlots(direct: FieldSet): (r: seq<Slot>)
    requires NonEmptyChains(direct)
  {
    seq(|direct|, i requires 0 <= i < |direct| => Slot(direct[i].field, direct[i].chain[0].name))
  }

  /**
   Positions of the groups other than the one with first step `skip`, in order
   (the groups still in `$compoundChains` once the wildcard group is unset).
   */
  function KeptIndices(groups: seq<Group>, skip: Step, from: nat): (r: seq<nat>)
    ensures forall k | 0 <= k < |r| :: from <= r[k] < |groups| && groups[r[k]].first != skip
    ensures forall j | from <= j < |groups| && groups[j].first != skip :: j in r
    decreases |groups| - from
  {
    if from >= |groups| then []
    else (if groups[from].first != skip then [from] else []) + KeptIndices(groups, skip, from + 1)
  }
}
