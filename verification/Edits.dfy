// What a list of structured edits does to a tree, in either direction, and the
// facts that let edits of one child be reasoned about at that child alone.
module Edits {
  import opened Collections
  import opened NbtValue
  import opened NbtPath
  import opened Comparer

  /** The tree after some edits, and how many of them were refused. */
  datatype Outcome = Outcome(tree: Nbt, conflicts: nat)

  function From(reverse: bool, op: Op): Option<Nbt> {
    if reverse then op.value else op.base
  }

  function To(reverse: bool, op: Op): Option<Nbt> {
    if reverse then op.base else op.value
  }

  /** One guarded edit: refused unless the node holds what the edit expects. An
      edit that applies nowhere (`Set` or `Remove` gives `None`) changes nothing
      and is not refused. */
  function Edit(reverse: bool, t: Nbt, op: Op): Outcome {
    if Get(t, op.segs) != From(reverse, op) then Outcome(t, 1)
    else match To(reverse, op)
      case Some(v) =>
        if op.segs == [] then Outcome(v, 0)
        else (match Set(t, op.segs, v) case Some(t') => Outcome(t', 0) case None => Outcome(t, 0))
      case None =>
        if op.segs == [] then Outcome(t, 1)
        else (match Remove(t, op.segs) case Some(t') => Outcome(t', 0) case None => Outcome(t, 0))
  }

  function Run(reverse: bool, t: Nbt, ops: seq<Op>): Outcome
    decreases |ops|
  {
    if ops == [] then Outcome(t, 0)
    else
      var first := Edit(reverse, t, ops[0]);
      var rest := Run(reverse, first.tree, ops[1..]);
      Outcome(rest.tree, first.conflicts + rest.conflicts)
  }

  lemma {:induction false} RunAppend(reverse: bool, t: Nbt, x: seq<Op>, y: seq<Op>)
    ensures var r := Run(reverse, t, x);
            var s := Run(reverse, r.tree, y);
            Run(reverse, t, x + y) == Outcome(s.tree, r.conflicts + s.conflicts)
    decreases |x|
  {
    if x == [] {
      assert x + y == y;
    } else {
      HeadTail(x, y);
      RunAppend(reverse, Edit(reverse, t, x[0]).tree, x[1..], y);
    }
  }

  /** A whole-node edit has a value on both sides. */
  predicate OpOk(op: Op) {
    op.segs == [] ==> op.base.Some? && op.value.Some?
  }

  predicate OpsOk(ops: seq<Op>) {
    forall i :: 0 <= i < |ops| ==> OpOk(ops[i])
  }

  /** The edits stay away from the fields `fields` of the compound they start at. */
  predicate Avoids(ops: seq<Op>, fields: set<string>) {
    forall i :: 0 <= i < |ops| ==> ops[i].segs != [] && ops[i].segs[0].Key? && ops[i].segs[0].k !in fields
  }

  function IdentityFields(v: Nbt): set<string> {
    FieldsAbove(RuleOf(v)) + FieldsOf(RuleOf(v))
  }

  lemma EditKeepsFields(reverse: bool, t: Nbt, op: Op, fields: set<string>)
    requires t.Compound?
    requires op.segs != [] && op.segs[0].Key? && op.segs[0].k !in fields
    ensures var r := Edit(reverse, t, op).tree; r.Compound? && AgreeOn(t.m, r.m, fields)
  {}

  lemma {:induction false} RunKeepsFields(reverse: bool, t: Nbt, ops: seq<Op>, fields: set<string>)
    requires t.Compound? && Avoids(ops, fields)
    ensures var r := Run(reverse, t, ops).tree; r.Compound? && AgreeOn(t.m, r.m, fields)
    decreases |ops|
  {
    if ops != [] {
      EditKeepsFields(reverse, t, ops[0], fields);
      RunKeepsFields(reverse, Edit(reverse, t, ops[0]).tree, ops[1..], fields);
    }
  }

  /** Edits that stay away from the identity fields keep the identity. */
  lemma RunKeepsIdentity(reverse: bool, t: Nbt, ops: seq<Op>)
    requires t.Compound? && Avoids(ops, IdentityFields(t))
    ensures var r := Run(reverse, t, ops).tree;
            r.Compound? && IdentityKey(r) == IdentityKey(t) && RuleOf(r) == RuleOf(t)
  {
    RunKeepsFields(reverse, t, ops, IdentityFields(t));
    IdentityStable(t, Run(reverse, t, ops).tree);
  }

  // ---- edits below one child ----

  lemma ReplaceSame(t: Nbt, seg: Seg)
    requires Step(t, seg).Some?
    ensures ReplaceChild(t, seg, Step(t, seg).value) == t
  {
    match seg {
      case Key(k) => assert t.m[k := t.m[k]] == t.m;
      case Index(n) => assert t.items[n := t.items[n]] == t.items;
      case Ident(id) => var n := Locate(t.items, id); assert t.items[n := t.items[n]] == t.items;
    }
  }

  lemma EditUnder(reverse: bool, t: Nbt, seg: Seg, op: Op)
    requires Step(t, seg).Some? && OpOk(op)
    ensures var e := Edit(reverse, Step(t, seg).value, op);
            Edit(reverse, t, LiftOp(seg, op)) == Outcome(ReplaceChild(t, seg, e.tree), e.conflicts)
  {
    var lifted := LiftOp(seg, op);
    assert lifted.segs[0] == seg && lifted.segs[1..] == op.segs;
    assert Get(t, lifted.segs) == Get(Step(t, seg).value, op.segs);
    ReplaceSame(t, seg);
  }

  lemma StepReplaced(t: Nbt, seg: Seg, child: Nbt)
    requires Step(t, seg).Some?
    requires seg.Ident? ==> IdentityKey(child) == Some(seg.id)
    ensures var r := ReplaceChild(t, seg, child);
            Step(r, seg) == Some(child) && forall c :: ReplaceChild(r, seg, c) == ReplaceChild(t, seg, c)
  {
    var r := ReplaceChild(t, seg, child);
    match seg {
      case Key(k) =>
        forall c ensures ReplaceChild(r, seg, c) == ReplaceChild(t, seg, c) {
          assert t.m[k := child][k := c] == t.m[k := c];
        }
      case Index(n) =>
        forall c ensures ReplaceChild(r, seg, c) == ReplaceChild(t, seg, c) {
          assert t.items[n := child][n := c] == t.items[n := c];
        }
      case Ident(id) =>
        var n := Locate(t.items, id);
        LocateReplaced(t.items, id, child);
        forall c ensures ReplaceChild(r, seg, c) == ReplaceChild(t, seg, c) {
          assert t.items[n := child][n := c] == t.items[n := c];
        }
    }
  }

  lemma LocateReplaced(items: seq<Nbt>, id: string, child: Nbt)
    requires HasId(items, id) && IdentityKey(child) == Some(id)
    ensures Locate(items[Locate(items, id) := child], id) == Locate(items, id)
  {
    var n := Locate(items, id);
    var m := Locate(items[n := child], id);
    assert items[n := child][n] == child;
    assert forall i :: 0 <= i < n ==> items[n := child][i] == items[i];
  }

  /** Edits addressed below one child change that child alone, exactly as they
      change it when run on their own. */
  lemma {:induction false} RunUnder(reverse: bool, t: Nbt, seg: Seg, ops: seq<Op>)
    requires Step(t, seg).Some? && OpsOk(ops)
    requires seg.Ident? ==>
      var child := Step(t, seg).value;
      child.Compound? && Avoids(ops, IdentityFields(child)) && IdentityKey(child) == Some(seg.id)
    ensures var r := Run(reverse, Step(t, seg).value, ops);
            Run(reverse, t, Lift(seg, ops)) == Outcome(ReplaceChild(t, seg, r.tree), r.conflicts)
    decreases |ops|
  {
    var child := Step(t, seg).value;
    if ops == [] {
      ReplaceSame(t, seg);
    } else {
      var e := Edit(reverse, child, ops[0]);
      EditUnder(reverse, t, seg, ops[0]);
      if seg.Ident? {
        EditKeepsFields(reverse, child, ops[0], IdentityFields(child));
        IdentityStable(child, e.tree);
      }
      StepReplaced(t, seg, e.tree);
      RunUnder(reverse, ReplaceChild(t, seg, e.tree), seg, ops[1..]);
      assert Lift(seg, ops)[1..] == Lift(seg, ops[1..]);
    }
  }

  // ---- shape of the walk's edits ----

  lemma {:induction false} LiftOk(seg: Seg, ops: seq<Op>)
    ensures OpsOk(Lift(seg, ops))
    ensures forall i :: 0 <= i < |Lift(seg, ops)| ==> Lift(seg, ops)[i].segs != [] && Lift(seg, ops)[i].segs[0] == seg
  {
    if ops != [] {
      LiftOk(seg, ops[1..]);
    }
  }

  lemma OpsOkAppend(x: seq<Op>, y: seq<Op>)
    requires OpsOk(x) && OpsOk(y)
    ensures OpsOk(x + y)
  {}

  lemma {:induction false} KeyOpsShape(ord: Order, path: string, a: Nbt, b: Nbt, keys: seq<string>)
    requires a.Compound? && b.Compound?
    requires forall k :: k in keys ==> k in a.m
    ensures OpsOk(KeyOps(ord, path, a, b, keys))
    decreases |keys|
  {
    if keys != [] {
      var k := keys[0];
      if k in b.m { LiftOk(Key(k), Walk(ord, Extend(path, Key(k)), a.m[k], b.m[k])); }
      KeyOpsShape(ord, path, a, b, keys[1..]);
      OpsOkAppend(KeyStep(ord, path, a, b, k), KeyOps(ord, path, a, b, keys[1..]));
    }
  }

  lemma {:induction false} IndexOpsShape(ord: Order, path: string, a: Nbt, b: Nbt, i: nat)
    requires a.List? && b.List?
    ensures OpsOk(IndexOps(ord, path, a, b, i))
    decreases |a.items| - i
  {
    if i < Min(|a.items|, |b.items|) {
      LiftOk(Index(i), Walk(ord, Extend(path, Index(i)), a.items[i], b.items[i]));
      IndexOpsShape(ord, path, a, b, i + 1);
      OpsOkAppend(IndexStep(ord, path, a, b, i), IndexOps(ord, path, a, b, i + 1));
    }
  }

  lemma ElementStepShape(ord: Order, path: string, a: Nbt, b: Nbt, i: nat)
    requires a.List? && b.List? && Keyable(a.items) && Keyable(b.items) && i < |a.items|
    ensures OpsOk(ElementStep(ord, path, a, b, i))
  {
    var id := IdAt(a.items, i);
    if HasId(b.items, id) {
      LiftOk(Ident(id), Walk(ord, Extend(path, Ident(id)), a.items[i], ById(b.items, id)));
    }
  }

  lemma {:induction false} ElementOpsShape(ord: Order, path: string, a: Nbt, b: Nbt, i: nat)
    requires a.List? && b.List? && Keyable(a.items) && Keyable(b.items)
    ensures OpsOk(ElementOps(ord, path, a, b, i))
    decreases |a.items| - i
  {
    if i < |a.items| {
      ElementStepShape(ord, path, a, b, i);
      ElementOpsShape(ord, path, a, b, i + 1);
      OpsOkAppend(ElementStep(ord, path, a, b, i), ElementOps(ord, path, a, b, i + 1));
    }
  }

  lemma {:induction ids} AddedElementOpsShape(lb: seq<Nbt>, ids: seq<string>)
    requires Keyable(lb) && forall id :: id in ids ==> id in Ids(lb)
    ensures OpsOk(AddedElementOps(lb, ids))
  {}

  lemma {:induction keys} AddedKeyOpsShape(mb: map<string, Nbt>, keys: seq<string>)
    requires forall k :: k in keys ==> k in mb
    ensures OpsOk(AddedKeyOps(mb, keys))
  {}

  lemma {:induction i} TailOpsShape(items: seq<Nbt>, i: nat)
    ensures OpsOk(RemovedTailOps(items, i)) && OpsOk(AddedTailOps(items, i))
    decreases |items| - i
  {}

  /** Every edit of a walk either has a non-empty path or a value on both sides. */
  lemma WalkOpsOk(ord: Order, path: string, a: Nbt, b: Nbt)
    ensures OpsOk(Walk(ord, path, a, b))
  {
    if TagId(a) == TagId(b) {
      match a {
        case Compound(ma) =>
          KeyOpsShape(ord, path, a, b, ord(path, ma));
          AddedKeyOpsShape(b.m, Sorted(b.m.Keys - ma.Keys));
        case List(la) =>
          if Keyable(la) && Keyable(b.items) {
            ElementOpsShape(ord, path, a, b, 0);
            AddedElementOpsShape(b.items, Sorted(Ids(b.items) - Ids(la)));
          } else {
            var common := Min(|la|, |b.items|);
            IndexOpsShape(ord, path, a, b, 0);
            TailOpsShape(la, common);
            TailOpsShape(b.items, common);
          }
        case _ =>
      }
    }
  }

  // ---- equal trees ----

  lemma {:induction false} KeyOpsEqual(ord: Order, path: string, a: Nbt, keys: seq<string>)
    requires a.Compound? && forall k :: k in keys ==> k in a.m
    ensures KeyOps(ord, path, a, a, keys) == []
    decreases a, 0, |keys|
  {
    if keys != [] {
      WalkEqual(ord, Extend(path, Key(keys[0])), a.m[keys[0]]);
      KeyOpsEqual(ord, path, a, keys[1..]);
    }
  }

  lemma {:induction false} IndexOpsEqual(ord: Order, path: string, a: Nbt, i: nat)
    requires a.List?
    ensures IndexOps(ord, path, a, a, i) == []
    decreases a, 0, |a.items| - i
  {
    if i < |a.items| {
      WalkEqual(ord, Extend(path, Index(i)), a.items[i]);
      IndexOpsEqual(ord, path, a, i + 1);
    }
  }

  lemma {:induction false} ElementOpsEqual(ord: Order, path: string, a: Nbt, i: nat)
    requires a.List? && Keyable(a.items)
    ensures ElementOps(ord, path, a, a, i) == []
    decreases a, 0, |a.items| - i
  {
    if i < |a.items| {
      var id := IdAt(a.items, i);
      LocateUnique(a.items, i);
      WalkEqual(ord, Extend(path, Ident(id)), a.items[i]);
      assert ElementStep(ord, path, a, a, i) == Lift(Ident(id), []);
      ElementOpsEqual(ord, path, a, i + 1);
    }
  }

  lemma SortedNothing(s: set<string>)
    ensures Sorted(s - s) == []
  {
    assert s - s == {};
  }

  /** Nothing is emitted for a tree compared with itself. */
  lemma {:induction false} WalkEqual(ord: Order, path: string, a: Nbt)
    ensures Walk(ord, path, a, a) == []
    decreases a, 1, 0
  {
    match a {
      case Compound(ma) =>
        KeyOpsEqual(ord, path, a, ord(path, ma));
        SortedNothing(ma.Keys);
      case List(la) =>
        if Keyable(la) {
          ElementOpsEqual(ord, path, a, 0);
          SortedNothing(Ids(la));
        } else {
          IndexOpsEqual(ord, path, a, 0);
        }
      case _ =>
    }
  }

  lemma {:induction false} KeyOpsAvoid(ord: Order, path: string, a: Nbt, b: Nbt, keys: seq<string>, fields: set<string>)
    requires a.Compound? && b.Compound? && AgreeOn(a.m, b.m, fields)
    requires forall k :: k in keys ==> k in a.m
    ensures Avoids(KeyOps(ord, path, a, b, keys), fields)
    decreases |keys|
  {
    if keys != [] {
      var k := keys[0];
      KeyOpsAvoid(ord, path, a, b, keys[1..], fields);
      if k in fields {
        assert Lookup(a.m, k) == Lookup(b.m, k);
        WalkEqual(ord, Extend(path, Key(k)), a.m[k]);
        assert KeyStep(ord, path, a, b, k) == [];
      } else if k in b.m {
        LiftOk(Key(k), Walk(ord, Extend(path, Key(k)), a.m[k], b.m[k]));
      }
    }
  }

  lemma {:induction keys} AddedKeyOpsAvoid(ma: map<string, Nbt>, mb: map<string, Nbt>, keys: seq<string>,
        fields: set<string>)
    requires AgreeOn(ma, mb, fields)
    requires forall k :: k in keys ==> k in mb && k !in ma
    ensures Avoids(AddedKeyOps(mb, keys), fields)
  {
    if keys != [] {
      assert keys[0] in fields ==> Lookup(ma, keys[0]) == Lookup(mb, keys[0]);
      AddedKeyOpsAvoid(ma, mb, keys[1..], fields);
    }
  }

  /** The walk emits nothing under a field on which two compounds agree. */
  lemma WalkAvoids(ord: Order, path: string, a: Nbt, b: Nbt, fields: set<string>)
    requires a.Compound? && b.Compound? && AgreeOn(a.m, b.m, fields)
    ensures Avoids(Walk(ord, path, a, b), fields)
  {
    KeyOpsAvoid(ord, path, a, b, ord(path, a.m), fields);
    AddedKeyOpsAvoid(a.m, b.m, Sorted(b.m.Keys - a.m.Keys), fields);
  }

  // ---- what a set stores can be looked up ----

  /** Every element the set puts in place of one found by identity has that identity. */
  predicate StaysFindable(t: Nbt, segs: seq<Seg>, v: Nbt)
    requires segs != [] && Set(t, segs, v).Some?
  {
    if |segs| == 1 then segs[0].Ident? ==> IdentityKey(v) == Some(segs[0].id)
    else
      var child := Step(t, segs[0]).value;
      (segs[0].Ident? ==> IdentityKey(Set(child, segs[1..], v).value) == Some(segs[0].id)) &&
          StaysFindable(child, segs[1..], v)
  }

  /** After a successful set the path leads to the new value, as long as the
      identities on the way survive it; on paths without identities always. */
  lemma {:induction false} SetThenGet(t: Nbt, segs: seq<Seg>, v: Nbt)
    requires segs != [] && Set(t, segs, v).Some? && StaysFindable(t, segs, v)
    ensures Get(Set(t, segs, v).value, segs) == Some(v)
    decreases |segs|
  {
    hide IdentityKey;
    if |segs| == 1 {
      GetOne(Set(t, segs, v).value, segs[0]);
      assert segs == [segs[0]];
      if segs[0].Ident? { StepReplaced(t, segs[0], v); }
    } else {
      var child := Step(t, segs[0]).value;
      SetThenGet(child, segs[1..], v);
      StepReplaced(t, segs[0], Set(child, segs[1..], v).value);
    }
  }
}
