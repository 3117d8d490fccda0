// Walking the two trees the other way round gives the mirrored edits.
module Mirror {
  import opened Collections
  import opened NbtValue
  import opened NbtPath
  import opened Comparer

  /** The same edit seen from the other side: additions become removals. */
  function MirrorOp(op: Op): Op {
    Op(op.segs, op.value, op.base)
  }

  function MapOps<T>(f: Op -> T, ops: seq<Op>): seq<T> {
    if ops == [] then [] else [f(ops[0])] + MapOps(f, ops[1..])
  }

  function Mirrored(ops: seq<Op>): seq<Op> {
    MapOps(MirrorOp, ops)
  }

  lemma {:induction false} MapAppend<T>(f: Op -> T, x: seq<Op>, y: seq<Op>)
    ensures MapOps(f, x + y) == MapOps(f, x) + MapOps(f, y)
    decreases |x|
  {
    if x == [] {
      assert x + y == y;
    } else {
      HeadTail(x, y);
      MapAppend(f, x[1..], y);
      Assoc([f(x[0])], MapOps(f, x[1..]), MapOps(f, y));
    }
  }

  /** Mapping a rearrangement gives a rearrangement. */
  lemma {:induction false} MapRearranged<T>(f: Op -> T, x: seq<Op>, y: seq<Op>)
    requires multiset(x) == multiset(y)
    ensures multiset(MapOps(f, x)) == multiset(MapOps(f, y))
    decreases |x|
  {
    if x == [] {
      assert |multiset(y)| == 0;
    } else {
      assert x[0] in multiset(y);
      var j :| 0 <= j < |y| && y[j] == x[0];
      var l, r := y[..j], y[j + 1..];
      assert y == l + ([y[j]] + r);
      assert x == [x[0]] + x[1..];
      assert multiset(x[1..]) == multiset(x) - multiset{x[0]};
      assert multiset(l + r) == multiset(y) - multiset{x[0]};
      MapRearranged(f, x[1..], l + r);
      MapAround(f, l, y[j], r);
    }
  }

  lemma MapAround<T>(f: Op -> T, l: seq<Op>, o: Op, r: seq<Op>)
    ensures multiset(MapOps(f, l + ([o] + r))) == multiset{f(o)} + multiset(MapOps(f, l + r))
  {
    MapAppend(f, l, r);
    MapAppend(f, l, [o] + r);
    MapAppend(f, [o], r);
    assert [o][1..] == [];
  }

  lemma {:induction false} LiftIsMap(seg: Seg, ops: seq<Op>)
    ensures Lift(seg, ops) == MapOps(op => LiftOp(seg, op), ops)
    decreases |ops|
  {
    if ops != [] { LiftIsMap(seg, ops[1..]); }
  }

  lemma {:induction false} MirrorLift(seg: Seg, ops: seq<Op>)
    ensures Mirrored(Lift(seg, ops)) == Lift(seg, Mirrored(ops))
    decreases |ops|
  {
    if ops != [] {
      MirrorLift(seg, ops[1..]);
      assert Lift(seg, ops)[1..] == Lift(seg, ops[1..]);
      assert Mirrored(ops)[1..] == Mirrored(ops[1..]);
    }
  }

  // ---- sums over keys, whatever the order ----

  function SumOver(f: string -> seq<Op>, keys: seq<string>): multiset<Op> {
    if keys == [] then multiset{} else multiset(f(keys[0])) + SumOver(f, keys[1..])
  }

  lemma {:induction false} SumAppend(f: string -> seq<Op>, x: seq<string>, y: seq<string>)
    ensures SumOver(f, x + y) == SumOver(f, x) + SumOver(f, y)
    decreases |x|
  {
    if x == [] {
      assert x + y == y;
    } else {
      HeadTail(x, y);
      SumAppend(f, x[1..], y);
    }
  }

  lemma HasMember(y: seq<string>)
    requires y != []
    ensures exists k :: k in y
  {
    assert y[0] in y;
  }

  /** Taking one element out of a sequence without repetitions. */
  lemma TakeOut(x: seq<string>, y: seq<string>, l: seq<string>, r: seq<string>)
    requires x != [] && Distinct(x) && Distinct(y) && y == l + ([x[0]] + r)
    requires forall k :: k in x <==> k in y
    ensures Distinct(x[1..]) && Distinct(l + r) && forall k :: k in x[1..] <==> k in l + r
  {
    forall i, j | 0 <= i < j < |l + r| ensures (l + r)[i] != (l + r)[j] {
      assert (l + r)[i] == y[if i < |l| then i else i + 1];
      assert (l + r)[j] == y[if j < |l| then j else j + 1];
    }
    assert x[0] !in l && x[0] !in r by {
      assert y[|l|] == x[0];
      assert forall i :: 0 <= i < |l| ==> y[i] == l[i];
      assert forall i :: 0 <= i < |r| ==> y[|l| + 1 + i] == r[i];
    }
    assert forall k :: k in x <==> k == x[0] || k in x[1..];
    assert x[0] !in x[1..];
    assert forall k :: k in y <==> k in l || k == x[0] || k in r;
  }

  lemma {:induction false} SumRearranged(f: string -> seq<Op>, x: seq<string>, y: seq<string>)
    requires Distinct(x) && Distinct(y) && forall k :: k in x <==> k in y
    ensures SumOver(f, x) == SumOver(f, y)
    decreases |x|
  {
    if x == [] {
      if y != [] { HasMember(y); }
    } else {
      assert x[0] in y;
      var j :| 0 <= j < |y| && y[j] == x[0];
      var l, r := y[..j], y[j + 1..];
      assert y == l + ([y[j]] + r);
      TakeOut(x, y, l, r);
      SumRearranged(f, x[1..], l + r);
      SumAround(f, l, y[j], r);
    }
  }

  lemma SumAround(f: string -> seq<Op>, l: seq<string>, k: string, r: seq<string>)
    ensures SumOver(f, l + ([k] + r)) == multiset(f(k)) + SumOver(f, l + r)
  {
    SumAppend(f, l, r);
    SumAppend(f, l, [k] + r);
    SumAppend(f, [k], r);
    assert [k][1..] == [];
  }

  lemma {:induction false} SumSame(f: string -> seq<Op>, g: string -> seq<Op>, keys: seq<string>)
    requires forall k :: k in keys ==> multiset(f(k)) == multiset(g(k))
    ensures SumOver(f, keys) == SumOver(g, keys)
    decreases |keys|
  {
    if keys != [] {
      assert keys[0] in keys;
      SumSame(f, g, keys[1..]);
    }
  }

  /** Two enumerations of the same keys, with the same edits under every key. */
  lemma SumsAgree(f: string -> seq<Op>, g: string -> seq<Op>, x: seq<string>, y: seq<string>)
    requires Distinct(x) && Distinct(y) && forall k :: k in x <==> k in y
    requires forall k :: k in x ==> multiset(f(k)) == multiset(g(k))
    ensures SumOver(f, x) == SumOver(g, y)
  {
    SumRearranged(f, x, y);
    SumSame(f, g, y);
  }

  lemma DisjointDistinct(x: seq<string>, y: seq<string>)
    requires Distinct(x) && Distinct(y) && forall k :: k in x ==> k !in y
    ensures Distinct(x + y)
  {
    forall i, j | 0 <= i < j < |x + y| ensures (x + y)[i] != (x + y)[j] {
      if i < |x| <= j { assert x[i] in x && y[j - |x|] in y; }
    }
  }

  // ---- compounds ----

  /** The edits under one key of either compound. */
  function KeyPiece(ord: Order, path: string, a: Nbt, b: Nbt, k: string): seq<Op>
    requires a.Compound? && b.Compound?
  {
    if k in a.m then KeyStep(ord, path, a, b, k)
    else if k in b.m then [Op([Key(k)], None, Some(b.m[k]))]
    else []
  }

  lemma {:induction false} KeyOpsSum(ord: Order, path: string, a: Nbt, b: Nbt, keys: seq<string>)
    requires a.Compound? && b.Compound? && forall k :: k in keys ==> k in a.m
    ensures multiset(KeyOps(ord, path, a, b, keys)) == SumOver(k => KeyPiece(ord, path, a, b, k), keys)
    ensures multiset(Mirrored(KeyOps(ord, path, a, b, keys))) ==
          SumOver(k => Mirrored(KeyPiece(ord, path, a, b, k)), keys)
    decreases |keys|
  {
    hide Walk, MapOps;
    if keys != [] {
      KeyOpsSum(ord, path, a, b, keys[1..]);
      MapAppend(MirrorOp, KeyStep(ord, path, a, b, keys[0]), KeyOps(ord, path, a, b, keys[1..]));
    } else {
      MapNothing();
    }
  }

  lemma MapNothing()
    ensures Mirrored([]) == []
  {}

  lemma {:induction false} AddedKeyOpsSum(ord: Order, path: string, a: Nbt, b: Nbt, keys: seq<string>)
    requires a.Compound? && b.Compound? && forall k :: k in keys ==> k in b.m && k !in a.m
    ensures multiset(AddedKeyOps(b.m, keys)) == SumOver(k => KeyPiece(ord, path, a, b, k), keys)
    ensures multiset(Mirrored(AddedKeyOps(b.m, keys))) == SumOver(k => Mirrored(KeyPiece(ord, path, a, b, k)), keys)
    decreases |keys|
  {
    hide Walk, MapOps;
    if keys != [] {
      AddedKeyOpsSum(ord, path, a, b, keys[1..]);
      MapAppend(MirrorOp, [Op([Key(keys[0])], None, Some(b.m[keys[0]]))], AddedKeyOps(b.m, keys[1..]));
    } else {
      MapNothing();
    }
  }

  lemma MirrorOne(seg: Seg, base: Option<Nbt>, value: Option<Nbt>)
    ensures Mirrored([Op([seg], base, value)]) == [Op([seg], value, base)]
  {
    MirrorSingle(Op([seg], base, value));
  }

  lemma MirrorSingle(op: Op)
    ensures Mirrored([op]) == [MirrorOp(op)]
  {
    var rest := [op][1..];
    assert rest == [] && MapOps(MirrorOp, rest) == [];
    assert MapOps(MirrorOp, [op]) == [MirrorOp([op][0])] + MapOps(MirrorOp, rest);
  }

  /** Every key of either compound, in the order the walk emits them. */
  function EmittedKeys(ord: Order, path: string, a: Nbt, b: Nbt): seq<string>
    requires a.Compound? && b.Compound?
  {
    ord(path, a.m) + Sorted(b.m.Keys - a.m.Keys)
  }

  lemma CompoundSum(ord: Order, path: string, a: Nbt, b: Nbt)
    requires a.Compound? && b.Compound?
    ensures Distinct(EmittedKeys(ord, path, a, b))
    ensures forall k :: k in EmittedKeys(ord, path, a, b) <==> k in a.m || k in b.m
    ensures multiset(CompoundOps(ord, path, a, b)) ==
          SumOver(k => KeyPiece(ord, path, a, b, k), EmittedKeys(ord, path, a, b))
    ensures multiset(Mirrored(CompoundOps(ord, path, a, b)))
         == SumOver(k => Mirrored(KeyPiece(ord, path, a, b, k)), EmittedKeys(ord, path, a, b))
  {
    hide Walk, MapOps;
    var keys, added := ord(path, a.m), Sorted(b.m.Keys - a.m.Keys);
    DisjointDistinct(keys, added);
    KeyOpsSum(ord, path, a, b, keys);
    AddedKeyOpsSum(ord, path, a, b, added);
    SumAppend(k => KeyPiece(ord, path, a, b, k), keys, added);
    SumAppend(k => Mirrored(KeyPiece(ord, path, a, b, k)), keys, added);
    MapAppend(MirrorOp, KeyOps(ord, path, a, b, keys), AddedKeyOps(b.m, added));
  }

  /** Mirrored edits of a child are mirrored under its parent. */
  lemma MirrorUnder(seg: Seg, x: seq<Op>, y: seq<Op>)
    requires multiset(x) == multiset(Mirrored(y))
    ensures multiset(Lift(seg, x)) == multiset(Mirrored(Lift(seg, y)))
  {
    MirrorLift(seg, y);
    LiftIsMap(seg, x);
    LiftIsMap(seg, Mirrored(y));
    MapRearranged(op => LiftOp(seg, op), x, Mirrored(y));
  }

  lemma CompoundMirror(ordA: Order, ordB: Order, path: string, a: Nbt, b: Nbt)
    requires a.Compound? && b.Compound?
    requires forall k :: k in a.m && k in b.m ==>
               multiset(Walk(ordB, Extend(path, Key(k)), b.m[k], a.m[k])) ==
                   multiset(Mirrored(Walk(ordA, Extend(path, Key(k)), a.m[k], b.m[k])))
    ensures multiset(CompoundOps(ordB, path, b, a)) == multiset(Mirrored(CompoundOps(ordA, path, a, b)))
  {
    hide Walk, MapOps, Lift;
    CompoundSum(ordA, path, a, b);
    CompoundSum(ordB, path, b, a);
    forall k | k in EmittedKeys(ordB, path, b, a)
      ensures multiset(KeyPiece(ordB, path, b, a, k)) == multiset(Mirrored(KeyPiece(ordA, path, a, b, k)))
    {
      if k in a.m && k in b.m {
        MirrorUnder(Key(k), Walk(ordB, Extend(path, Key(k)), b.m[k], a.m[k]),
                    Walk(ordA, Extend(path, Key(k)), a.m[k], b.m[k]));
      } else if k in a.m {
        MirrorOne(Key(k), Some(a.m[k]), None);
      } else {
        MirrorOne(Key(k), None, Some(b.m[k]));
      }
    }
    SumsAgree(k => KeyPiece(ordB, path, b, a, k), k => Mirrored(KeyPiece(ordA, path, a, b, k)),
              EmittedKeys(ordB, path, b, a), EmittedKeys(ordA, path, a, b));
  }

  // ---- lists matched by index ----

  lemma {:induction false} IndexOpsMirror(ordA: Order, ordB: Order, path: string, a: Nbt, b: Nbt, i: nat)
    requires a.List? && b.List?
    requires forall j :: 0 <= j < Min(|a.items|, |b.items|) ==>
               multiset(Walk(ordB, Extend(path, Index(j)), b.items[j], a.items[j])) ==
                   multiset(Mirrored(Walk(ordA, Extend(path, Index(j)), a.items[j], b.items[j])))
    ensures multiset(IndexOps(ordB, path, b, a, i)) == multiset(Mirrored(IndexOps(ordA, path, a, b, i)))
    decreases |a.items| - i
  {
    hide Walk, MapOps, Lift;
    if i < Min(|a.items|, |b.items|) {
      IndexOpsMirror(ordA, ordB, path, a, b, i + 1);
      MirrorUnder(Index(i), Walk(ordB, Extend(path, Index(i)), b.items[i], a.items[i]),
                  Walk(ordA, Extend(path, Index(i)), a.items[i], b.items[i]));
      MapAppend(MirrorOp, IndexStep(ordA, path, a, b, i), IndexOps(ordA, path, a, b, i + 1));
    } else {
      MapNothing();
    }
  }

  lemma {:induction false} TailOpsMirror(items: seq<Nbt>, i: nat)
    ensures Mirrored(RemovedTailOps(items, i)) == AddedTailOps(items, i)
    ensures Mirrored(AddedTailOps(items, i)) == RemovedTailOps(items, i)
    decreases |items| - i
  {
    if i < |items| {
      TailOpsMirror(items, i + 1);
      assert RemovedTailOps(items, i)[1..] == RemovedTailOps(items, i + 1);
      assert AddedTailOps(items, i)[1..] == AddedTailOps(items, i + 1);
    }
  }

  lemma AlignedMirror(ordA: Order, ordB: Order, path: string, a: Nbt, b: Nbt)
    requires a.List? && b.List?
    requires forall j :: 0 <= j < Min(|a.items|, |b.items|) ==>
               multiset(Walk(ordB, Extend(path, Index(j)), b.items[j], a.items[j])) ==
                   multiset(Mirrored(Walk(ordA, Extend(path, Index(j)), a.items[j], b.items[j])))
    ensures multiset(AlignedOps(ordB, path, b, a)) == multiset(Mirrored(AlignedOps(ordA, path, a, b)))
  {
    hide Walk, MapOps, Lift;
    var common := Min(|a.items|, |b.items|);
    var removed, added := RemovedTailOps(a.items, common), AddedTailOps(b.items, common);
    IndexOpsMirror(ordA, ordB, path, a, b, 0);
    TailOpsMirror(a.items, common);
    TailOpsMirror(b.items, common);
    MapAppend(MirrorOp, removed, added);
    MapAppend(MirrorOp, IndexOps(ordA, path, a, b, 0), removed + added);
  }

  // ---- lists matched by identity ----

  /** The edits under one identity of either list. */
  function IdPiece(ord: Order, path: string, a: Nbt, b: Nbt, id: string): seq<Op>
    requires a.List? && b.List?
  {
    if HasId(a.items, id) then
      if HasId(b.items, id)
          then Lift(Ident(id), Walk(ord, Extend(path, Ident(id)), ById(a.items, id), ById(b.items, id)))
      else [Op([Ident(id)], Some(ById(a.items, id)), None)]
    else if HasId(b.items, id) then [Op([Ident(id)], None, Some(ById(b.items, id)))]
    else []
  }

  function IdsInOrder(items: seq<Nbt>, i: nat): seq<string>
    requires Keyable(items)
    decreases |items| - i
  {
    if i >= |items| then [] else [IdAt(items, i)] + IdsInOrder(items, i + 1)
  }

  lemma {:induction false} IdsInOrderDistinct(items: seq<Nbt>, i: nat)
    requires Keyable(items)
    ensures Distinct(IdsInOrder(items, i))
    ensures forall id :: id in IdsInOrder(items, i) <==> HasId(items, id) && i <= Locate(items, id)
    decreases |items| - i
  {
    hide IdentityKey, Keyable, Locate;
    if i < |items| {
      IdsInOrderDistinct(items, i + 1);
      LocateUnique(items, i);
      forall id ensures id in IdsInOrder(items, i) <==> HasId(items, id) && i <= Locate(items, id) {
        if HasId(items, id) && i == Locate(items, id) { assert IdAt(items, i) == id; }
      }
    }
  }

  lemma {:induction false} ElementOpsSum(ord: Order, path: string, a: Nbt, b: Nbt, i: nat)
    requires a.List? && b.List? && Keyable(a.items) && Keyable(b.items)
    ensures multiset(ElementOps(ord, path, a, b, i)) ==
          SumOver(id => IdPiece(ord, path, a, b, id), IdsInOrder(a.items, i))
    ensures multiset(Mirrored(ElementOps(ord, path, a, b, i))) ==
          SumOver(id => Mirrored(IdPiece(ord, path, a, b, id)), IdsInOrder(a.items, i))
    decreases |a.items| - i
  {
    hide Walk, MapOps, IdentityKey, Keyable, Locate, Lift;
    if i < |a.items| {
      LocateUnique(a.items, i);
      ElementOpsSum(ord, path, a, b, i + 1);
      assert ElementStep(ord, path, a, b, i) == IdPiece(ord, path, a, b, IdAt(a.items, i));
      assert IdsInOrder(a.items, i)[1..] == IdsInOrder(a.items, i + 1);
      MapAppend(MirrorOp, ElementStep(ord, path, a, b, i), ElementOps(ord, path, a, b, i + 1));
    } else {
      MapNothing();
    }
  }

  lemma {:induction false} AddedElementOpsSum(ord: Order, path: string, a: Nbt, b: Nbt, ids: seq<string>)
    requires a.List? && b.List? && Keyable(b.items)
    requires forall id :: id in ids ==> id in Ids(b.items) && HasId(b.items, id) && !HasId(a.items, id)
    ensures multiset(AddedElementOps(b.items, ids)) == SumOver(id => IdPiece(ord, path, a, b, id), ids)
    ensures multiset(Mirrored(AddedElementOps(b.items, ids))) ==
          SumOver(id => Mirrored(IdPiece(ord, path, a, b, id)), ids)
    decreases |ids|
  {
    hide Walk, MapOps, IdentityKey, Keyable, Locate, Lift;
    if ids != [] {
      AddedElementOpsSum(ord, path, a, b, ids[1..]);
      MapAppend(MirrorOp, [Op([Ident(ids[0])], None, Some(ById(b.items, ids[0])))], AddedElementOps(b.items, ids[1..]));
    } else {
      MapNothing();
    }
  }

  function EmittedIds(a: Nbt, b: Nbt): seq<string>
    requires a.List? && b.List? && Keyable(a.items) && Keyable(b.items)
  {
    IdsInOrder(a.items, 0) + Sorted(Ids(b.items) - Ids(a.items))
  }

  lemma KeyedSum(ord: Order, path: string, a: Nbt, b: Nbt)
    requires a.List? && b.List? && Keyable(a.items) && Keyable(b.items)
    ensures Distinct(EmittedIds(a, b))
    ensures forall id :: id in EmittedIds(a, b) <==> HasId(a.items, id) || HasId(b.items, id)
    ensures multiset(KeyedOps(ord, path, a, b)) == SumOver(id => IdPiece(ord, path, a, b, id), EmittedIds(a, b))
    ensures multiset(Mirrored(KeyedOps(ord, path, a, b))) ==
          SumOver(id => Mirrored(IdPiece(ord, path, a, b, id)), EmittedIds(a, b))
  {
    hide Walk, MapOps, IdentityKey, Keyable, Locate, Lift;
    var ids, added := IdsInOrder(a.items, 0), Sorted(Ids(b.items) - Ids(a.items));
    IdsInOrderDistinct(a.items, 0);
    forall id ensures (id in Ids(a.items) <==> HasId(a.items, id)) && (id in Ids(b.items) <==> HasId(b.items, id)) {
      IdsAreLocated(a.items, id);
      IdsAreLocated(b.items, id);
    }
    DisjointDistinct(ids, added);
    ElementOpsSum(ord, path, a, b, 0);
    AddedElementOpsSum(ord, path, a, b, added);
    SumAppend(id => IdPiece(ord, path, a, b, id), ids, added);
    SumAppend(id => Mirrored(IdPiece(ord, path, a, b, id)), ids, added);
    MapAppend(MirrorOp, ElementOps(ord, path, a, b, 0), AddedElementOps(b.items, added));
  }

  lemma KeyedMirror(ordA: Order, ordB: Order, path: string, a: Nbt, b: Nbt)
    requires a.List? && b.List? && Keyable(a.items) && Keyable(b.items)
    requires forall id :: HasId(a.items, id) && HasId(b.items, id) ==>
               multiset(Walk(ordB, Extend(path, Ident(id)), ById(b.items, id), ById(a.items, id)))
               == multiset(Mirrored(Walk(ordA, Extend(path, Ident(id)), ById(a.items, id), ById(b.items, id))))
    ensures multiset(KeyedOps(ordB, path, b, a)) == multiset(Mirrored(KeyedOps(ordA, path, a, b)))
  {
    hide Walk, MapOps, IdentityKey, Keyable, Locate, Lift;
    KeyedSum(ordA, path, a, b);
    KeyedSum(ordB, path, b, a);
    forall id | id in EmittedIds(b, a)
      ensures multiset(IdPiece(ordB, path, b, a, id)) == multiset(Mirrored(IdPiece(ordA, path, a, b, id)))
    {
      if HasId(a.items, id) && HasId(b.items, id) {
        MirrorUnder(Ident(id), Walk(ordB, Extend(path, Ident(id)), ById(b.items, id), ById(a.items, id)),
                    Walk(ordA, Extend(path, Ident(id)), ById(a.items, id), ById(b.items, id)));
      } else if HasId(a.items, id) {
        MirrorOne(Ident(id), Some(ById(a.items, id)), None);
      } else {
        MirrorOne(Ident(id), None, Some(ById(b.items, id)));
      }
    }
    SumsAgree(id => IdPiece(ordB, path, b, a, id), id => Mirrored(IdPiece(ordA, path, a, b, id)),
              EmittedIds(b, a), EmittedIds(a, b));
  }

  /** The walk from `b` to `a` emits the mirrored edits of the walk from `a` to
      `b`, at the same paths, up to the order of emission. */
  lemma {:induction false} WalkMirror(ordA: Order, ordB: Order, path: string, a: Nbt, b: Nbt)
    ensures multiset(Walk(ordB, path, b, a)) == multiset(Mirrored(Walk(ordA, path, a, b)))
    decreases a
  {
    hide IdentityKey, Keyable, Locate;
    if TagId(a) != TagId(b) {
      MirrorSingle(Op([], Some(a), Some(b)));
    } else {
      match a {
        case Compound(_) =>
          forall k | k in a.m && k in b.m
            ensures multiset(Walk(ordB, Extend(path, Key(k)), b.m[k], a.m[k])) ==
                  multiset(Mirrored(Walk(ordA, Extend(path, Key(k)), a.m[k], b.m[k])))
          {
            WalkMirror(ordA, ordB, Extend(path, Key(k)), a.m[k], b.m[k]);
          }
          CompoundMirror(ordA, ordB, path, a, b);
        case List(la) =>
          var lb := b.items;
          if Keyable(la) && Keyable(lb) {
            forall id | HasId(la, id) && HasId(lb, id)
              ensures multiset(Walk(ordB, Extend(path, Ident(id)), ById(lb, id), ById(la, id)))
                   == multiset(Mirrored(Walk(ordA, Extend(path, Ident(id)), ById(la, id), ById(lb, id))))
            {
              WalkMirror(ordA, ordB, Extend(path, Ident(id)), ById(la, id), ById(lb, id));
            }
            KeyedMirror(ordA, ordB, path, a, b);
          } else {
            forall j | 0 <= j < Min(|la|, |lb|)
              ensures multiset(Walk(ordB, Extend(path, Index(j)), lb[j], la[j])) ==
                    multiset(Mirrored(Walk(ordA, Extend(path, Index(j)), la[j], lb[j])))
            {
              WalkMirror(ordA, ordB, Extend(path, Index(j)), la[j], lb[j]);
            }
            AlignedMirror(ordA, ordB, path, a, b);
          }
        case _ =>
          MirrorSingle(Op([], Some(a), Some(b)));
          MapNothing();
      }
    }
  }
}
