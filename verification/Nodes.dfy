// What the edits of one matched pair of nodes do to the node they are run on,
// in terms of what the edits of the matched children do to the children.
module Nodes {
  import opened Collections
  import opened NbtValue
  import opened NbtPath
  import opened Comparer
  import opened Edits

  /** The edits of the pair `(x, y)`, found one step below `path`, run on `c`. */
  function Sub(reverse: bool, ord: Order, path: string, seg: Seg, x: Nbt, y: Nbt, c: Nbt): Outcome {
    Run(reverse, c, Walk(ord, Extend(path, seg), x, y))
  }

  // ---- compounds ----

  /** What `m` must hold under `k` for the edits of `k` to be run on it. */
  predicate KeyReady(reverse: bool, a: map<string, Nbt>, b: map<string, Nbt>, m: map<string, Nbt>, k: string) {
    if k in a && k in b then k in m
    else Lookup(m, k) == (if reverse then Lookup(b, k) else Lookup(a, k))
  }

  /** What the edits of `k` leave under `k`. */
  function KeyResult(reverse: bool, ord: Order, path: string, a: map<string, Nbt>, b: map<string, Nbt>,
                     m: map<string, Nbt>, k: string): Option<Nbt>
    requires KeyReady(reverse, a, b, m, k)
  {
    if k in a && k in b then Some(Sub(reverse, ord, path, Key(k), a[k], b[k], m[k]).tree)
    else if reverse then Lookup(a, k) else Lookup(b, k)
  }

  function KeyConflicts(reverse: bool, ord: Order, path: string, a: map<string, Nbt>, b: map<string, Nbt>,
                        m: map<string, Nbt>, k: string): nat
    requires KeyReady(reverse, a, b, m, k)
  {
    if k in a && k in b then Sub(reverse, ord, path, Key(k), a[k], b[k], m[k]).conflicts else 0
  }

  /** `m` with what the edits of `k` leave under `k`. */
  function WithKey(m: map<string, Nbt>, k: string, v: Option<Nbt>): map<string, Nbt> {
    match v case Some(x) => m[k := x] case None => m - {k}
  }

  lemma RunOne(reverse: bool, t: Nbt, op: Op)
    ensures Run(reverse, t, [op]) == Edit(reverse, t, op)
    ensures |op.segs| == 1 ==> Get(t, op.segs) == Step(t, op.segs[0])
  {
    assert [op][1..] == [];
    if |op.segs| == 1 {
      GetOne(t, op.segs[0]);
      assert op.segs == [op.segs[0]];
    }
  }

  lemma KeyStepRun(reverse: bool, ord: Order, path: string, a: Nbt, b: Nbt, m: map<string, Nbt>, k: string)
    requires a.Compound? && b.Compound? && k in a.m && KeyReady(reverse, a.m, b.m, m, k)
    ensures Run(reverse, Compound(m), KeyStep(ord, path, a, b, k))
         == Outcome(Compound(WithKey(m, k, KeyResult(reverse, ord, path, a.m, b.m, m, k))),
                    KeyConflicts(reverse, ord, path, a.m, b.m, m, k))
  {
    if k in b.m {
      var ops := Walk(ord, Extend(path, Key(k)), a.m[k], b.m[k]);
      WalkOpsOk(ord, Extend(path, Key(k)), a.m[k], b.m[k]);
      RunUnder(reverse, Compound(m), Key(k), ops);
    } else {
      RunOne(reverse, Compound(m), Op([Key(k)], Some(a.m[k]), None));
    }
  }

  /** `r` is `m` after the edits of each key in `keys`. */
  ghost predicate KeysRun(reverse: bool, ord: Order, path: string, a: map<string, Nbt>, b: map<string, Nbt>,
                          m: map<string, Nbt>, keys: seq<string>, r: Outcome)
    requires forall k :: k in keys ==> KeyReady(reverse, a, b, m, k)
  {
    && r.tree.Compound?
    && (forall k :: k in keys ==> Lookup(r.tree.m, k) == KeyResult(reverse, ord, path, a, b, m, k))
    && (forall k :: k !in keys ==> Lookup(r.tree.m, k) == Lookup(m, k))
    && (r.conflicts == 0 <==> forall k :: k in keys ==> KeyConflicts(reverse, ord, path, a, b, m, k) == 0)
  }

  lemma KeysRunThen(reverse: bool, ord: Order, path: string, a: map<string, Nbt>, b: map<string, Nbt>,
                    m: map<string, Nbt>, keys: seq<string>, r: Outcome)
    requires keys != [] && Distinct(keys)
    requires forall k :: k in keys ==> KeyReady(reverse, a, b, m, k)
    requires var m1 := WithKey(m, keys[0], KeyResult(reverse, ord, path, a, b, m, keys[0]));
             && (forall k :: k in keys[1..] ==> KeyReady(reverse, a, b, m1, k))
             && KeysRun(reverse, ord, path, a, b, m1, keys[1..], r)
    ensures KeysRun(reverse, ord, path, a, b, m, keys,
                    Outcome(r.tree, KeyConflicts(reverse, ord, path, a, b, m, keys[0]) + r.conflicts))
  {
    hide KeyResult, KeyConflicts, KeyReady;
    var k, rest := keys[0], keys[1..];
    var m1 := WithKey(m, k, KeyResult(reverse, ord, path, a, b, m, k));
    forall x | x in rest
      ensures KeyResult(reverse, ord, path, a, b, m1, x) == KeyResult(reverse, ord, path, a, b, m, x)
      ensures KeyConflicts(reverse, ord, path, a, b, m1, x) == KeyConflicts(reverse, ord, path, a, b, m, x)
    {
      KeyLocal(reverse, ord, path, a, b, m, m1, x);
    }
    forall x | x in keys ensures Lookup(r.tree.m, x) == KeyResult(reverse, ord, path, a, b, m, x) {
      if x !in rest { assert x == k && Lookup(r.tree.m, x) == Lookup(m1, x); }
    }
    forall x | x !in keys ensures Lookup(r.tree.m, x) == Lookup(m, x) {
      assert x != k && x !in rest && Lookup(r.tree.m, x) == Lookup(m1, x);
    }
    assert forall x :: x in keys <==> x == k || x in rest;
  }

  lemma KeyLocal(reverse: bool, ord: Order, path: string, a: map<string, Nbt>, b: map<string, Nbt>, m: map<string, Nbt>,
                 m1: map<string, Nbt>, k: string)
    requires Lookup(m, k) == Lookup(m1, k)
    ensures KeyReady(reverse, a, b, m, k) <==> KeyReady(reverse, a, b, m1, k)
    ensures KeyReady(reverse, a, b, m, k) ==>
              && KeyResult(reverse, ord, path, a, b, m1, k) == KeyResult(reverse, ord, path, a, b, m, k)
              && KeyConflicts(reverse, ord, path, a, b, m1, k) == KeyConflicts(reverse, ord, path, a, b, m, k)
  {}

  lemma StillReady(reverse: bool, ord: Order, path: string, a: map<string, Nbt>, b: map<string, Nbt>,
                   m: map<string, Nbt>, keys: seq<string>)
    requires keys != [] && Distinct(keys)
    requires forall k :: k in keys ==> KeyReady(reverse, a, b, m, k)
    ensures var m1 := WithKey(m, keys[0], KeyResult(reverse, ord, path, a, b, m, keys[0]));
            forall k :: k in keys[1..] ==> KeyReady(reverse, a, b, m1, k)
  {
    var m1 := WithKey(m, keys[0], KeyResult(reverse, ord, path, a, b, m, keys[0]));
    forall k | k in keys[1..] ensures KeyReady(reverse, a, b, m1, k) {
      assert k in keys && k != keys[0] && KeyReady(reverse, a, b, m, k);
    }
  }

  lemma {:induction false} KeyOpsRun(reverse: bool, ord: Order, path: string, a: Nbt, b: Nbt, m: map<string, Nbt>,
                                     keys: seq<string>)
    requires a.Compound? && b.Compound? && Distinct(keys)
    requires forall k :: k in keys ==> k in a.m && KeyReady(reverse, a.m, b.m, m, k)
    ensures KeysRun(reverse, ord, path, a.m, b.m, m, keys, Run(reverse, Compound(m), KeyOps(ord, path, a, b, keys)))
    decreases |keys|
  {
    hide Walk, Edit, Sub;
    if keys != [] {
      var k, rest := keys[0], keys[1..];
      KeyStepRun(reverse, ord, path, a, b, m, k);
      var m1 := WithKey(m, k, KeyResult(reverse, ord, path, a.m, b.m, m, k));
      StillReady(reverse, ord, path, a.m, b.m, m, keys);
      KeyOpsRun(reverse, ord, path, a, b, m1, rest);
      KeysRunThen(reverse, ord, path, a.m, b.m, m, keys, Run(reverse, Compound(m1), KeyOps(ord, path, a, b, rest)));
      RunAppend(reverse, Compound(m), KeyStep(ord, path, a, b, k), KeyOps(ord, path, a, b, rest));
    }
  }

  lemma AddedKeyRun(reverse: bool, ord: Order, path: string, a: Nbt, b: Nbt, m: map<string, Nbt>, k: string)
    requires a.Compound? && b.Compound? && k in b.m && k !in a.m && KeyReady(reverse, a.m, b.m, m, k)
    ensures Run(reverse, Compound(m), [Op([Key(k)], None, Some(b.m[k]))])
         == Outcome(Compound(WithKey(m, k, KeyResult(reverse, ord, path, a.m, b.m, m, k))), 0)
  {
    RunOne(reverse, Compound(m), Op([Key(k)], None, Some(b.m[k])));
  }

  lemma {:induction false} AddedKeyOpsRun(reverse: bool, ord: Order, path: string, a: Nbt, b: Nbt, m: map<string, Nbt>,
        keys: seq<string>)
    requires a.Compound? && b.Compound? && Distinct(keys)
    requires forall k :: k in keys ==> k in b.m && k !in a.m && KeyReady(reverse, a.m, b.m, m, k)
    ensures KeysRun(reverse, ord, path, a.m, b.m, m, keys, Run(reverse, Compound(m), AddedKeyOps(b.m, keys)))
    decreases |keys|
  {
    hide Walk, Edit, Sub;
    if keys != [] {
      var k, rest := keys[0], keys[1..];
      AddedKeyRun(reverse, ord, path, a, b, m, k);
      var m1 := WithKey(m, k, KeyResult(reverse, ord, path, a.m, b.m, m, k));
      StillReady(reverse, ord, path, a.m, b.m, m, keys);
      AddedKeyOpsRun(reverse, ord, path, a, b, m1, rest);
      KeysRunThen(reverse, ord, path, a.m, b.m, m, keys, Run(reverse, Compound(m1), AddedKeyOps(b.m, rest)));
      RunAppend(reverse, Compound(m), [Op([Key(k)], None, Some(b.m[k]))], AddedKeyOps(b.m, rest));
    }
  }

  lemma KeysRunTwice(reverse: bool, ord: Order, path: string, a: map<string, Nbt>, b: map<string, Nbt>,
                     m: map<string, Nbt>,
                     keys: seq<string>, r1: Outcome, added: seq<string>, r2: Outcome)
    requires forall k :: KeyReady(reverse, a, b, m, k)
    requires forall k :: k in keys <==> k in a
    requires forall k :: k in added <==> k in b && k !in a
    requires KeysRun(reverse, ord, path, a, b, m, keys, r1)
    requires forall k :: k in added ==> KeyReady(reverse, a, b, r1.tree.m, k)
    requires KeysRun(reverse, ord, path, a, b, r1.tree.m, added, r2)
    ensures forall k :: Lookup(r2.tree.m, k) == KeyResult(reverse, ord, path, a, b, m, k)
    ensures r1.conflicts + r2.conflicts == 0 <==> forall k :: KeyConflicts(reverse, ord, path, a, b, m, k) == 0
  {
    forall k ensures Lookup(r2.tree.m, k) == KeyResult(reverse, ord, path, a, b, m, k) {
      if k in added {
        assert KeyResult(reverse, ord, path, a, b, r1.tree.m, k) == KeyResult(reverse, ord, path, a, b, m, k);
      } else if k in keys {
        assert Lookup(r2.tree.m, k) == Lookup(r1.tree.m, k);
      } else {
        assert Lookup(r2.tree.m, k) == Lookup(r1.tree.m, k) == Lookup(m, k);
        assert KeyReady(reverse, a, b, m, k);
      }
    }
    assert forall k :: k in added ==> KeyConflicts(reverse, ord, path, a, b, r1.tree.m, k) == 0;
    assert forall k :: k !in keys ==> KeyConflicts(reverse, ord, path, a, b, m, k) == 0;
  }

  /** The edits of a compound pair act on each key on its own, whatever the order. */
  lemma CompoundNode(reverse: bool, ord: Order, path: string, a: Nbt, b: Nbt, m: map<string, Nbt>)
    requires a.Compound? && b.Compound?
    requires forall k :: KeyReady(reverse, a.m, b.m, m, k)
    ensures var r := Run(reverse, Compound(m), CompoundOps(ord, path, a, b));
            && r.tree.Compound?
            && (forall k :: Lookup(r.tree.m, k) == KeyResult(reverse, ord, path, a.m, b.m, m, k))
            && (r.conflicts == 0 <==> forall k :: KeyConflicts(reverse, ord, path, a.m, b.m, m, k) == 0)
  {
    var keys, added := ord(path, a.m), Sorted(b.m.Keys - a.m.Keys);
    KeyOpsRun(reverse, ord, path, a, b, m, keys);
    var r1 := Run(reverse, Compound(m), KeyOps(ord, path, a, b, keys));
    forall k | k in added ensures KeyReady(reverse, a.m, b.m, r1.tree.m, k) {
      assert KeyReady(reverse, a.m, b.m, m, k);
      assert Lookup(r1.tree.m, k) == Lookup(m, k);
    }
    AddedKeyOpsRun(reverse, ord, path, a, b, r1.tree.m, added);
    var r2 := Run(reverse, r1.tree, AddedKeyOps(b.m, added));
    KeysRunTwice(reverse, ord, path, a.m, b.m, m, keys, r1, added, r2);
    RunAppend(reverse, Compound(m), KeyOps(ord, path, a, b, keys), AddedKeyOps(b.m, added));
  }

  // ---- lists matched by index ----

  /** `r` is `c` after the edits of each common index from `i` on. */
  ghost predicate IndicesRun(reverse: bool, ord: Order, path: string, la: seq<Nbt>, lb: seq<Nbt>, c: seq<Nbt>, i: nat,
                             r: Outcome)
    requires |c| >= Min(|la|, |lb|)
  {
    var common := Min(|la|, |lb|);
    && r.tree.List? && |r.tree.items| == |c|
    && (forall j :: i <= j < common ==> r.tree.items[j] == Sub(reverse, ord, path, Index(j), la[j], lb[j], c[j]).tree)
    && (forall j :: 0 <= j < |c| && (j < i || common <= j) ==> r.tree.items[j] == c[j])
    && (r.conflicts == 0 <==> forall j :: i <= j < common ==>
        Sub(reverse, ord, path, Index(j), la[j], lb[j], c[j]).conflicts == 0)
  }

  lemma IndicesRunThen(reverse: bool, ord: Order, path: string, la: seq<Nbt>, lb: seq<Nbt>, c: seq<Nbt>, i: nat,
                       first: Outcome, r: Outcome)
    requires i < Min(|la|, |lb|) <= |c| && first == Sub(reverse, ord, path, Index(i), la[i], lb[i], c[i])
    requires IndicesRun(reverse, ord, path, la, lb, c[i := first.tree], i + 1, r)
    ensures IndicesRun(reverse, ord, path, la, lb, c, i, Outcome(r.tree, first.conflicts + r.conflicts))
  {
    hide Sub;
    var c1 := c[i := first.tree];
    assert forall j :: 0 <= j < |c| && j != i ==> c1[j] == c[j];
    assert r.tree.items[i] == c1[i] == first.tree;
  }

  lemma NoIndicesRun(reverse: bool, ord: Order, path: string, a: Nbt, b: Nbt, c: seq<Nbt>, i: nat)
    requires a.List? && b.List? && |c| >= Min(|a.items|, |b.items|) && i >= Min(|a.items|, |b.items|)
    ensures IndicesRun(reverse, ord, path, a.items, b.items, c, i, Run(reverse, List(c), IndexOps(ord, path, a, b, i)))
  {
    hide Walk, Edit, Sub;
  }

  lemma IndexStepRun(reverse: bool, ord: Order, path: string, a: Nbt, b: Nbt, c: seq<Nbt>, i: nat)
    requires a.List? && b.List? && i < Min(|a.items|, |b.items|) <= |c|
    ensures var first := Sub(reverse, ord, path, Index(i), a.items[i], b.items[i], c[i]);
            Run(reverse, List(c), IndexStep(ord, path, a, b, i)) == Outcome(List(c[i := first.tree]), first.conflicts)
  {
    hide Walk, Edit, Run;
    WalkOpsOk(ord, Extend(path, Index(i)), a.items[i], b.items[i]);
    RunUnder(reverse, List(c), Index(i), Walk(ord, Extend(path, Index(i)), a.items[i], b.items[i]));
  }

  lemma {:induction false} IndexOpsRun(reverse: bool, ord: Order, path: string, a: Nbt, b: Nbt, c: seq<Nbt>, i: nat)
    requires a.List? && b.List? && |c| >= Min(|a.items|, |b.items|)
    ensures IndicesRun(reverse, ord, path, a.items, b.items, c, i, Run(reverse, List(c), IndexOps(ord, path, a, b, i)))
    decreases |a.items| - i
  {
    hide Walk, Edit, Run, IndicesRun, IndexStep, Sub;
    if i >= Min(|a.items|, |b.items|) {
      NoIndicesRun(reverse, ord, path, a, b, c, i);
    } else {
      var first := Sub(reverse, ord, path, Index(i), a.items[i], b.items[i], c[i]);
      IndexStepRun(reverse, ord, path, a, b, c, i);
      var c1 := c[i := first.tree];
      IndexOpsRun(reverse, ord, path, a, b, c1, i + 1);
      IndicesRunThen(reverse, ord, path, a.items, b.items, c, i, first,
                     Run(reverse, List(c1), IndexOps(ord, path, a, b, i + 1)));
      RunAppend(reverse, List(c), IndexStep(ord, path, a, b, i), IndexOps(ord, path, a, b, i + 1));
    }
  }

  /** Setting the index just past the end appends. */
  lemma GrowOne(reverse: bool, c: seq<Nbt>, x: Nbt)
    ensures Edit(reverse, List(c),
          Op([Index(|c|)], if reverse then Some(x) else None, if reverse then None else Some(x)))
         == Outcome(List(c + [x]), 0)
  {
    RunOne(reverse, List(c), Op([Index(|c|)], if reverse then Some(x) else None, if reverse then None else Some(x)));
  }

  /** Adding a tail element by element appends it, however long it is. */
  lemma {:induction false} GrowTail(reverse: bool, c: seq<Nbt>, target: seq<Nbt>, ops: seq<Op>)
    requires |c| <= |target|
    requires ops == if reverse then RemovedTailOps(target, |c|) else AddedTailOps(target, |c|)
    ensures Run(reverse, List(c), ops) == Outcome(List(c + target[|c|..]), 0)
    decreases |target| - |c|
  {
    if |c| == |target| {
      assert c + target[|c|..] == c;
    } else {
      var c1 := c + [target[|c|]];
      GrowOne(reverse, c, target[|c|]);
      GrowTail(reverse, c1, target, ops[1..]);
      assert c1 + target[|c1|..] == c + target[|c|..];
    }
  }

  /** Cutting a tail element by element, in ascending index order: each cut
      shifts the rest, so the last index is out of range unless it is the first. */
  lemma {:induction false} CutTooShort(reverse: bool, c: seq<Nbt>, source: seq<Nbt>, i: nat, ops: seq<Op>)
    requires i < |source| && |c| < |source|
    requires ops == if reverse then AddedTailOps(source, i) else RemovedTailOps(source, i)
    ensures Run(reverse, List(c), ops).conflicts > 0
    decreases |source| - i
  {
    var e := Edit(reverse, List(c), ops[0]);
    RunOne(reverse, List(c), ops[0]);
    assert e.tree.List? && |e.tree.items| < |source|;
    if i + 1 < |source| {
      CutTooShort(reverse, e.tree.items, source, i + 1, ops[1..]);
    }
  }

  lemma CutTail(reverse: bool, c: seq<Nbt>, source: seq<Nbt>, common: nat, ops: seq<Op>)
    requires common <= |source| == |c| && c[common..] == source[common..]
    requires ops == if reverse then AddedTailOps(source, common) else RemovedTailOps(source, common)
    ensures |source| <= common + 1 ==> Run(reverse, List(c), ops) == Outcome(List(c[..common]), 0)
    ensures |source| > common + 1 ==> Run(reverse, List(c), ops).conflicts > 0
  {
    if common == |source| {
      assert c[..common] == c;
    } else {
      assert c[common] == c[common..][0] == source[common..][0];
      var e := Edit(reverse, List(c), ops[0]);
      RunOne(reverse, List(c), ops[0]);
      assert e == Outcome(List(c[..common] + c[common + 1..]), 0);
      if |source| == common + 1 {
        assert c[..common] + c[common + 1..] == c[..common];
        RunOne(reverse, List(c), ops[0]);
        assert ops == [ops[0]];
      } else {
        CutTooShort(reverse, e.tree.items, source, common + 1, ops[1..]);
      }
    }
  }

  lemma NothingPadded(x: seq<Op>)
    ensures x + [] == x && [] + x == x
  {}

  lemma TailGrows(reverse: bool, c: seq<Nbt>, la: seq<Nbt>, lb: seq<Nbt>)
    requires var source, target := if reverse then lb else la, if reverse then la else lb;
             |c| == |source| <= |target|
    ensures var target := if reverse then la else lb;
            Run(reverse, List(c), RemovedTailOps(la, Min(|la|, |lb|)) + AddedTailOps(lb, Min(|la|, |lb|)))
            == Outcome(List(c + target[|c|..]), 0)
  {
    if reverse {
      NothingPadded(RemovedTailOps(la, |c|));
      GrowTail(true, c, la, RemovedTailOps(la, |c|));
    } else {
      NothingPadded(AddedTailOps(lb, |c|));
      GrowTail(false, c, lb, AddedTailOps(lb, |c|));
    }
  }

  lemma TailShrinks(reverse: bool, c: seq<Nbt>, la: seq<Nbt>, lb: seq<Nbt>)
    requires var source, target := if reverse then lb else la, if reverse then la else lb;
             |c| == |source| > |target| && c[|target|..] == source[|target|..]
    ensures var source, target := if reverse then lb else la, if reverse then la else lb;
            var r := Run(reverse, List(c), RemovedTailOps(la, Min(|la|, |lb|)) + AddedTailOps(lb, Min(|la|, |lb|)));
            if |source| == |target| + 1 then r == Outcome(List(c[..|target|]), 0) else r.conflicts > 0
  {
    if reverse {
      NothingPadded(AddedTailOps(lb, |la|));
      CutTail(true, c, lb, |la|, AddedTailOps(lb, |la|));
    } else {
      NothingPadded(RemovedTailOps(la, |lb|));
      CutTail(false, c, la, |lb|, RemovedTailOps(la, |lb|));
    }
  }

  /** What the edits of an index-aligned pair make of a list `c` as long as the
      source, when `target` is the other side. */
  ghost predicate AlignedRun(reverse: bool, ord: Order, path: string, la: seq<Nbt>, lb: seq<Nbt>, c: seq<Nbt>,
                             r: Outcome)
    requires |c| == if reverse then |lb| else |la|
  {
    var target := if reverse then la else lb;
    var common := Min(|la|, |lb|);
    && (r.conflicts == 0 <==>
        && |c| <= |target| + 1
        && forall j :: 0 <= j < common ==> Sub(reverse, ord, path, Index(j), la[j], lb[j], c[j]).conflicts == 0)
    && (|c| <= |target| + 1 ==>
        && r.tree.List? && |r.tree.items| == |target|
        && (forall j :: 0 <= j < common ==>
            r.tree.items[j] == Sub(reverse, ord, path, Index(j), la[j], lb[j], c[j]).tree)
        && (forall j :: common <= j < |target| ==> r.tree.items[j] == target[j]))
  }

  lemma AlignedFinish(reverse: bool, ord: Order, path: string, la: seq<Nbt>, lb: seq<Nbt>, c: seq<Nbt>, r1: Outcome,
                      r2: Outcome)
    requires |c| == if reverse then |lb| else |la|
    requires IndicesRun(reverse, ord, path, la, lb, c, 0, r1)
    requires var target := if reverse then la else lb;
             var c1 := r1.tree.items;
             if |c| <= |target| then r2 == Outcome(List(c1 + target[|c|..]), 0)
             else if |c| == |target| + 1 then r2 == Outcome(List(c1[..|target|]), 0)
             else r2.conflicts > 0
    ensures AlignedRun(reverse, ord, path, la, lb, c, Outcome(r2.tree, r1.conflicts + r2.conflicts))
  {
    hide Sub;
    var target := if reverse then la else lb;
    var common := Min(|la|, |lb|);
    var c1 := r1.tree.items;
    if |c| <= |target| {
      var items := c1 + target[|c|..];
      assert forall j :: 0 <= j < common ==> items[j] == c1[j];
      assert forall j :: common <= j < |target| ==> items[j] == target[j];
    } else if |c| == |target| + 1 {
      assert forall j :: 0 <= j < common ==> c1[..|target|][j] == c1[j];
    }
  }

  /** The edits of an index-aligned pair: common elements change on their own;
      the tail can grow by any number but shrink by at most one element. */
  lemma AlignedNode(reverse: bool, ord: Order, path: string, a: Nbt, b: Nbt, c: seq<Nbt>)
    requires a.List? && b.List?
    requires var source := if reverse then b.items else a.items;
             var common := Min(|a.items|, |b.items|);
             |c| == |source| && c[common..] == source[common..]
    ensures AlignedRun(reverse, ord, path, a.items, b.items, c, Run(reverse, List(c), AlignedOps(ord, path, a, b)))
  {
    hide Sub, Walk, IdentityKey, Run, IndexOps, RemovedTailOps, AddedTailOps, AlignedRun;
    var source, target := if reverse then b.items else a.items, if reverse then a.items else b.items;
    var common := Min(|a.items|, |b.items|);
    var head, tail := IndexOps(ord, path, a, b, 0), RemovedTailOps(a.items, common) + AddedTailOps(b.items, common);
    IndexOpsRun(reverse, ord, path, a, b, c, 0);
    RunAppend(reverse, List(c), head, tail);
    var r1 := Run(reverse, List(c), head);
    assert r1.tree.items[common..] == c[common..];
    if |source| <= |target| {
      TailGrows(reverse, r1.tree.items, a.items, b.items);
    } else {
      TailShrinks(reverse, r1.tree.items, a.items, b.items);
    }
    AlignedFinish(reverse, ord, path, a.items, b.items, c, r1, Run(reverse, r1.tree, tail));
  }
}
