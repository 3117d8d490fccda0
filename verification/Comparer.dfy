// The tree walk (crates/diff/src/comparer.rs) and the sink that records its
// decisions as patch operations (crates/patch/src/op_sink.rs).
module Comparer {
  import opened Collections
  import opened NbtValue
  import opened NbtPath

  /** One edit: at the node reached by `segs` the value is `base` before and
      `value` after, either of them possibly absent. */
  datatype Op = Op(segs: seq<Seg>, base: Option<Nbt>, value: Option<Nbt>)

  /** The same edit as stored in a patch, addressed by text. */
  datatype PatchOp = PatchOp(path: string, base: Option<Nbt>, value: Option<Nbt>)

  ghost predicate Enumerates(keys: seq<string>, s: set<string>) {
    Distinct(keys) && forall k :: k in keys <==> k in s
  }

  /** The order in which the compound at a path yields its keys. */
  type Order = f: (string, map<string, Nbt>) -> seq<string> |
    forall path, m :: Enumerates(f(path, m), m.Keys)
    witness (path: string, m: map<string, Nbt>) => Sorted(m.Keys)

  // ---- lists ----

  /** Every element has an identity and no two share one. */
  predicate Keyable(items: seq<Nbt>) {
    && items != []
    && (forall i :: 0 <= i < |items| ==> IdentityKey(items[i]).Some?)
    && (forall i, j :: 0 <= i < j < |items| ==> IdentityKey(items[i]) != IdentityKey(items[j]))
  }

  function IdAt(items: seq<Nbt>, i: nat): string
    requires Keyable(items) && i < |items|
  {
    IdentityKey(items[i]).value
  }

  /** The identities of the elements of a keyable list. */
  function Ids(items: seq<Nbt>): set<string>
    requires Keyable(items)
  {
    set i | 0 <= i < |items| :: IdAt(items, i)
  }

  predicate HasId(items: seq<Nbt>, id: string) {
    Locate(items, id) < |items|
  }

  function ById(items: seq<Nbt>, id: string): Nbt
    requires HasId(items, id)
  {
    items[Locate(items, id)]
  }

  lemma LocateUnique(items: seq<Nbt>, i: nat)
    requires Keyable(items) && i < |items|
    ensures Locate(items, IdAt(items, i)) == i
  {}

  lemma IdsAreLocated(items: seq<Nbt>, id: string)
    requires Keyable(items)
    ensures id in Ids(items) <==> HasId(items, id)
  {
    if HasId(items, id) { assert IdAt(items, Locate(items, id)) == id; }
  }

  function Min(a: nat, b: nat): nat {
    if a < b then a else b
  }

  // ---- the walk ----

  function LiftOp(seg: Seg, op: Op): Op {
    op.(segs := [seg] + op.segs)
  }

  function Lift(seg: Seg, ops: seq<Op>): seq<Op> {
    if ops == [] then [] else [LiftOp(seg, ops[0])] + Lift(seg, ops[1..])
  }

  /** The edits that turn `a` into `b`, addressed from `a`'s own node; `path` is
      the text of the path that leads there. */
  function Walk(ord: Order, path: string, a: Nbt, b: Nbt): seq<Op>
    decreases a, 2, 0
  {
    if TagId(a) != TagId(b) then [Op([], Some(a), Some(b))]
    else match a
      case Compound(_) => CompoundOps(ord, path, a, b)
      case List(la) =>
        if Keyable(la) && Keyable(b.items) then KeyedOps(ord, path, a, b) else AlignedOps(ord, path, a, b)
      case _ => if a != b then [Op([], Some(a), Some(b))] else []
  }

  function CompoundOps(ord: Order, path: string, a: Nbt, b: Nbt): seq<Op>
    requires a.Compound? && b.Compound?
    decreases a, 1, |ord(path, a.m)| + 1
  {
    KeyOps(ord, path, a, b, ord(path, a.m)) + AddedKeyOps(b.m, Sorted(b.m.Keys - a.m.Keys))
  }

  /** Matching by identity. */
  function KeyedOps(ord: Order, path: string, a: Nbt, b: Nbt): seq<Op>
    requires a.List? && b.List? && Keyable(a.items) && Keyable(b.items)
    decreases a, 1, |a.items| + 1
  {
    ElementOps(ord, path, a, b, 0) + AddedElementOps(b.items, Sorted(Ids(b.items) - Ids(a.items)))
  }

  /** Matching by index. */
  function AlignedOps(ord: Order, path: string, a: Nbt, b: Nbt): seq<Op>
    requires a.List? && b.List?
    decreases a, 1, |a.items| + 1
  {
    var common := Min(|a.items|, |b.items|);
    IndexOps(ord, path, a, b, 0) + (RemovedTailOps(a.items, common) + AddedTailOps(b.items, common))
  }

  /** The edits of one entry of compound `a`. */
  function KeyStep(ord: Order, path: string, a: Nbt, b: Nbt, k: string): seq<Op>
    requires a.Compound? && b.Compound? && k in a.m
    decreases a, 0, 0
  {
    if k in b.m then Lift(Key(k), Walk(ord, Extend(path, Key(k)), a.m[k], b.m[k]))
    else [Op([Key(k)], Some(a.m[k]), None)]
  }

  /** The edits of the entries of compound `a` under `keys`. */
  function KeyOps(ord: Order, path: string, a: Nbt, b: Nbt, keys: seq<string>): seq<Op>
    requires a.Compound? && b.Compound?
    requires forall k :: k in keys ==> k in a.m
    decreases a, 1, |keys|
  {
    if keys == [] then []
    else KeyStep(ord, path, a, b, keys[0]) + KeyOps(ord, path, a, b, keys[1..])
  }

  function AddedKeyOps(mb: map<string, Nbt>, keys: seq<string>): seq<Op>
    requires forall k :: k in keys ==> k in mb
  {
    if keys == [] then []
    else [Op([Key(keys[0])], None, Some(mb[keys[0]]))] + AddedKeyOps(mb, keys[1..])
  }

  /** The edits of one element both lists have. */
  function IndexStep(ord: Order, path: string, a: Nbt, b: Nbt, i: nat): seq<Op>
    requires a.List? && b.List? && i < |a.items| && i < |b.items|
    decreases a, 0, 0
  {
    Lift(Index(i), Walk(ord, Extend(path, Index(i)), a.items[i], b.items[i]))
  }

  /** The edits of the elements both lists have, from index `i`. */
  function IndexOps(ord: Order, path: string, a: Nbt, b: Nbt, i: nat): seq<Op>
    requires a.List? && b.List?
    decreases a, 1, Min(|a.items|, |b.items|) - i
  {
    if i >= Min(|a.items|, |b.items|) then []
    else IndexStep(ord, path, a, b, i) + IndexOps(ord, path, a, b, i + 1)
  }

  function RemovedTailOps(la: seq<Nbt>, i: nat): seq<Op>
    decreases |la| - i
  {
    if i >= |la| then [] else [Op([Index(i)], Some(la[i]), None)] + RemovedTailOps(la, i + 1)
  }

  function AddedTailOps(lb: seq<Nbt>, i: nat): seq<Op>
    decreases |lb| - i
  {
    if i >= |lb| then [] else [Op([Index(i)], None, Some(lb[i]))] + AddedTailOps(lb, i + 1)
  }

  /** The edits of one element of `a`, matched by identity. */
  function ElementStep(ord: Order, path: string, a: Nbt, b: Nbt, i: nat): seq<Op>
    requires a.List? && b.List? && Keyable(a.items) && Keyable(b.items) && i < |a.items|
    decreases a, 0, 0
  {
    var id := IdAt(a.items, i);
    if HasId(b.items, id) then Lift(Ident(id), Walk(ord, Extend(path, Ident(id)), a.items[i], ById(b.items, id)))
    else [Op([Ident(id)], Some(a.items[i]), None)]
  }

  /** The edits of the elements of `a`, from index `i`. */
  function ElementOps(ord: Order, path: string, a: Nbt, b: Nbt, i: nat): seq<Op>
    requires a.List? && b.List? && Keyable(a.items) && Keyable(b.items)
    decreases a, 1, |a.items| - i
  {
    if i >= |a.items| then []
    else ElementStep(ord, path, a, b, i) + ElementOps(ord, path, a, b, i + 1)
  }

  function AddedElementOps(lb: seq<Nbt>, ids: seq<string>): seq<Op>
    requires Keyable(lb)
    requires forall id :: id in ids ==> id in Ids(lb)
  {
    if ids == [] then []
    else
      IdsAreLocated(lb, ids[0]);
      [Op([Ident(ids[0])], None, Some(ById(lb, ids[0])))] + AddedElementOps(lb, ids[1..])
  }

  // ---- text addresses ----

  function PrintOp(path: string, op: Op): PatchOp {
    PatchOp(Print(path, op.segs), op.base, op.value)
  }

  function PrintOps(path: string, ops: seq<Op>): seq<PatchOp> {
    if ops == [] then [] else [PrintOp(path, ops[0])] + PrintOps(path, ops[1..])
  }

  lemma {:induction false} PrintOpsAppend(path: string, x: seq<Op>, y: seq<Op>)
    ensures PrintOps(path, x + y) == PrintOps(path, x) + PrintOps(path, y)
  {
    if x == [] {
      assert x + y == y;
    } else {
      HeadTail(x, y);
      PrintOpsAppend(path, x[1..], y);
      Assoc([PrintOp(path, x[0])], PrintOps(path, x[1..]), PrintOps(path, y));
    }
  }

  lemma PrintOne(path: string, seg: Seg, base: Option<Nbt>, value: Option<Nbt>)
    ensures PrintOps(path, [Op([seg], base, value)]) == [PatchOp(Extend(path, seg), base, value)]
  {
    var op := Op([seg], base, value);
    assert [op][1..] == [] && op.segs[1..] == [];
    assert Print(path, op.segs) == Print(Extend(path, seg), []);
  }

  lemma {:induction false} PrintLift(path: string, seg: Seg, ops: seq<Op>)
    ensures PrintOps(path, Lift(seg, ops)) == PrintOps(Extend(path, seg), ops)
  {
    if ops != [] {
      PrintLift(path, seg, ops[1..]);
      var op := LiftOp(seg, ops[0]);
      assert op.segs[1..] == ops[0].segs;
    }
  }

  /** `DiffSink` recording every decision of the walk as a patch operation. */
  class OpSink {
    var ops: seq<PatchOp>

    constructor ()
      ensures ops == []
    {
      ops := [];
    }

    method Added(path: string, value: Nbt)
      modifies this
      ensures ops == old(ops) + [PatchOp(path, None, Some(value))]
    {
      ops := ops + [PatchOp(path, None, Some(value))];
    }

    method Removed(path: string, value: Nbt)
      modifies this
      ensures ops == old(ops) + [PatchOp(path, Some(value), None)]
    {
      ops := ops + [PatchOp(path, Some(value), None)];
    }

    /** `modified`, to which `type_changed` and `array_changed` defer. */
    method Modified(path: string, a: Nbt, b: Nbt)
      modifies this
      ensures ops == old(ops) + [PatchOp(path, Some(a), Some(b))]
    {
      ops := ops + [PatchOp(path, Some(a), Some(b))];
    }
  }

  /** Identity keys of every element, or `None` if one lacks a key or two collide. */
  method ListKeys(items: seq<Nbt>) returns (r: Option<seq<string>>)
    ensures r.Some? <==> Keyable(items)
    ensures r.Some? ==> |r.value| == |items| && forall i :: 0 <= i < |items| ==> r.value[i] == IdAt(items, i)
  {
    hide IdentityKey;
    if items == [] { return None; }
    var keys: seq<string> := [];
    var seen: set<string> := {};
    for n := 0 to |items|
      invariant |keys| == n
      invariant forall i :: 0 <= i < n ==> IdentityKey(items[i]) == Some(keys[i])
      invariant forall i, j :: 0 <= i < j < n ==> IdentityKey(items[i]) != IdentityKey(items[j])
      invariant forall k :: k in seen <==> k in keys
    {
      var k := IdentityKey(items[n]);
      if k.None? { return None; }
      if k.value in seen {
        ghost var i :| 0 <= i < n && keys[i] == k.value;
        assert IdentityKey(items[i]) == IdentityKey(items[n]);
        return None;
      }
      seen := seen + {k.value};
      keys := keys + [k.value];
    }
    r := Some(keys);
  }

  method Compare(ord: Order, path: string, a: Nbt, b: Nbt, sink: OpSink)
    modifies sink
    ensures sink.ops == old(sink.ops) + PrintOps(path, Walk(ord, path, a, b))
    decreases a, 2, 0
  {
    if TagId(a) != TagId(b) {
      sink.Modified(path, a, b);
      return;
    }
    match a {
      case Compound(ma) => CompareCompound(ord, path, a, b, sink);
      case List(la) => CompareList(ord, path, a, b, sink);
      case _ =>
        if a != b {
          sink.Modified(path, a, b);
        }
    }
  }

  method CompareCompound(ord: Order, path: string, a: Nbt, b: Nbt, sink: OpSink)
    requires a.Compound? && b.Compound?
    modifies sink
    ensures sink.ops == old(sink.ops) + PrintOps(path, CompoundOps(ord, path, a, b))
    decreases a, 1, 0
  {
    var keys := ord(path, a.m);
    ghost var all, done := KeyOps(ord, path, a, b, keys), [];
    for i := 0 to |keys|
      invariant done + KeyOps(ord, path, a, b, keys[i..]) == all
      invariant sink.ops == old(sink.ops) + PrintOps(path, done)
    {
      var k := keys[i];
      assert keys[i..][1..] == keys[i + 1..];
      CompareEntry(ord, path, a, b, k, sink);
      OneMore(old(sink.ops), path, done, KeyStep(ord, path, a, b, k), KeyOps(ord, path, a, b, keys[i + 1..]));
      done := done + KeyStep(ord, path, a, b, k);
    }
    assert keys[|keys|..] == [];
    var added := Sorted(b.m.Keys - a.m.Keys);
    LastOne(old(sink.ops), path, done, all, AddedKeyOps(b.m, added));
    AddKeys(path, b.m, added, sink);
  }

  method CompareEntry(ord: Order, path: string, a: Nbt, b: Nbt, k: string, sink: OpSink)
    requires a.Compound? && b.Compound? && k in a.m
    modifies sink
    ensures sink.ops == old(sink.ops) + PrintOps(path, KeyStep(ord, path, a, b, k))
    decreases a, 0, 0
  {
    var child := Extend(path, Key(k));
    if k in b.m {
      PrintLift(path, Key(k), Walk(ord, child, a.m[k], b.m[k]));
      Compare(ord, child, a.m[k], b.m[k], sink);
    } else {
      PrintOne(path, Key(k), Some(a.m[k]), None);
      sink.Removed(child, a.m[k]);
    }
  }

  method AddKeys(path: string, mb: map<string, Nbt>, added: seq<string>, sink: OpSink)
    requires forall k :: k in added ==> k in mb
    modifies sink
    ensures sink.ops == old(sink.ops) + PrintOps(path, AddedKeyOps(mb, added))
  {
    ghost var done: seq<Op> := [];
    for n := 0 to |added|
      invariant done + AddedKeyOps(mb, added[n..]) == AddedKeyOps(mb, added)
      invariant sink.ops == old(sink.ops) + PrintOps(path, done)
    {
      var k := added[n];
      assert added[n..][1..] == added[n + 1..];
      sink.Added(Extend(path, Key(k)), mb[k]);
      ghost var step := [Op([Key(k)], None, Some(mb[k]))];
      PrintOne(path, Key(k), None, Some(mb[k]));
      OneMore(old(sink.ops), path, done, step, AddedKeyOps(mb, added[n + 1..]));
      done := done + step;
    }
    LastOne(old(sink.ops), path, done, AddedKeyOps(mb, added), []);
  }

  /** Bookkeeping of the loops below: `done` is what they have emitted since
      `before`, `rest` is what is still to come. */
  lemma OneMore(before: seq<PatchOp>, path: string, done: seq<Op>, step: seq<Op>, rest: seq<Op>)
    ensures (done + step) + rest == done + (step + rest)
    ensures before + PrintOps(path, done + step) == (before + PrintOps(path, done)) + PrintOps(path, step)
  {
    PrintOpsAppend(path, done, step);
    Assoc(done, step, rest);
    Assoc(before, PrintOps(path, done), PrintOps(path, step));
  }

  lemma LastOne(before: seq<PatchOp>, path: string, done: seq<Op>, all: seq<Op>, more: seq<Op>)
    requires done + [] == all
    ensures done == all
    ensures before + PrintOps(path, all + more) == (before + PrintOps(path, all)) + PrintOps(path, more)
  {
    assert done + [] == done;
    OneMore(before, path, all, more, []);
  }

  method CompareList(ord: Order, path: string, a: Nbt, b: Nbt, sink: OpSink)
    requires a.List? && b.List?
    modifies sink
    ensures sink.ops == old(sink.ops) + PrintOps(path,
              if Keyable(a.items) && Keyable(b.items) then KeyedOps(ord, path, a, b) else AlignedOps(ord, path, a, b))
    decreases a, 1, 1
  {
    hide IdentityKey, Keyable, Locate, Lift, Print;
    var ka := ListKeys(a.items);
    if ka.Some? {
      var kb := ListKeys(b.items);
      if kb.Some? {
        CompareKeyed(ord, path, a, ka.value, b, kb.value, sink);
        return;
      }
    }
    var common := Min(|a.items|, |b.items|);
    ghost var all, done := IndexOps(ord, path, a, b, 0), [];
    for i := 0 to common
      invariant done + IndexOps(ord, path, a, b, i) == all
      invariant sink.ops == old(sink.ops) + PrintOps(path, done)
    {
      var child := Extend(path, Index(i));
      PrintLift(path, Index(i), Walk(ord, child, a.items[i], b.items[i]));
      Compare(ord, child, a.items[i], b.items[i], sink);
      OneMore(old(sink.ops), path, done, IndexStep(ord, path, a, b, i), IndexOps(ord, path, a, b, i + 1));
      done := done + IndexStep(ord, path, a, b, i);
    }
    LastOne(old(sink.ops), path, done, all, RemovedTailOps(a.items, common) + AddedTailOps(b.items, common));
    CompareTails(path, a.items, b.items, common, sink);
  }

  method CompareTails(path: string, la: seq<Nbt>, lb: seq<Nbt>, common: nat, sink: OpSink)
    requires common <= |la| && common <= |lb|
    modifies sink
    ensures sink.ops == old(sink.ops) + PrintOps(path, RemovedTailOps(la, common) + AddedTailOps(lb, common))
  {
    assert RemovedTailOps(la, common) + [] == RemovedTailOps(la, common);
    LastOne(old(sink.ops), path, RemovedTailOps(la, common), RemovedTailOps(la, common), AddedTailOps(lb, common));
    RemoveTail(path, la, common, sink);
    AddTail(path, lb, common, sink);
  }

  method RemoveTail(path: string, la: seq<Nbt>, common: nat, sink: OpSink)
    requires common <= |la|
    modifies sink
    ensures sink.ops == old(sink.ops) + PrintOps(path, RemovedTailOps(la, common))
  {
    ghost var done: seq<Op> := [];
    for i := common to |la|
      invariant done + RemovedTailOps(la, i) == RemovedTailOps(la, common)
      invariant sink.ops == old(sink.ops) + PrintOps(path, done)
    {
      sink.Removed(Extend(path, Index(i)), la[i]);
      ghost var step := [Op([Index(i)], Some(la[i]), None)];
      PrintOne(path, Index(i), Some(la[i]), None);
      OneMore(old(sink.ops), path, done, step, RemovedTailOps(la, i + 1));
      done := done + step;
    }
    LastOne(old(sink.ops), path, done, RemovedTailOps(la, common), []);
  }

  method AddTail(path: string, lb: seq<Nbt>, common: nat, sink: OpSink)
    requires common <= |lb|
    modifies sink
    ensures sink.ops == old(sink.ops) + PrintOps(path, AddedTailOps(lb, common))
  {
    ghost var done: seq<Op> := [];
    for i := common to |lb|
      invariant done + AddedTailOps(lb, i) == AddedTailOps(lb, common)
      invariant sink.ops == old(sink.ops) + PrintOps(path, done)
    {
      sink.Added(Extend(path, Index(i)), lb[i]);
      ghost var step := [Op([Index(i)], None, Some(lb[i]))];
      PrintOne(path, Index(i), None, Some(lb[i]));
      OneMore(old(sink.ops), path, done, step, AddedTailOps(lb, i + 1));
      done := done + step;
    }
    LastOne(old(sink.ops), path, done, AddedTailOps(lb, common), []);
  }

  predicate KeysOf(keys: seq<string>, items: seq<Nbt>) {
    Keyable(items) && |keys| == |items| && forall i :: 0 <= i < |keys| ==> keys[i] == IdAt(items, i)
  }

  /** Which identities of `b` are still unmatched after the first `n` of `a`. */
  ghost predicate Unmatched(bIndex: map<string, nat>, ka: seq<string>, n: nat, kb: seq<string>)
    requires n <= |ka|
  {
    && (forall k :: k in bIndex <==> k in kb && k !in ka[..n])
    && (forall k :: k in bIndex ==> bIndex[k] < |kb| && kb[bIndex[k]] == k)
  }

  /** Matching by identity: `bIndex` starts as every identity of `b` and loses
      each one that `a` also has; what is left was added. */
  method CompareKeyed(ord: Order, path: string, a: Nbt, ka: seq<string>, b: Nbt, kb: seq<string>, sink: OpSink)
    requires a.List? && b.List? && KeysOf(ka, a.items) && KeysOf(kb, b.items)
    modifies sink
    ensures sink.ops == old(sink.ops) + PrintOps(path, KeyedOps(ord, path, a, b))
    decreases a, 1, 0
  {
    var bIndex: map<string, nat> := map[];
    for j := 0 to |kb|
      invariant forall k :: k in bIndex <==> k in kb[..j]
      invariant forall k :: k in bIndex ==> bIndex[k] < j && kb[bIndex[k]] == k
    {
      bIndex := bIndex[kb[j] := j];
    }
    assert kb[..|kb|] == kb;
    ghost var all, done := ElementOps(ord, path, a, b, 0), [];
    for i := 0 to |ka|
      invariant done + ElementOps(ord, path, a, b, i) == all
      invariant sink.ops == old(sink.ops) + PrintOps(path, done)
      invariant Unmatched(bIndex, ka, i, kb)
    {
      bIndex := CompareElement(ord, path, a, ka, b, kb, i, bIndex, sink);
      OneMore(old(sink.ops), path, done, ElementStep(ord, path, a, b, i), ElementOps(ord, path, a, b, i + 1));
      done := done + ElementStep(ord, path, a, b, i);
    }
    LeftoverIds(a.items, ka, b.items, kb, bIndex);
    var added := Sorted(bIndex.Keys);
    LastOne(old(sink.ops), path, done, all, AddedElementOps(b.items, added));
    AddElements(path, b.items, kb, bIndex, added, sink);
  }

  method CompareElement(ord: Order, path: string, a: Nbt, ka: seq<string>, b: Nbt, kb: seq<string>, i: nat,
                        bIndex: map<string, nat>, sink: OpSink)
    returns (left: map<string, nat>)
    requires a.List? && b.List? && KeysOf(ka, a.items) && KeysOf(kb, b.items)
    requires i < |ka| && Unmatched(bIndex, ka, i, kb)
    modifies sink
    ensures sink.ops == old(sink.ops) + PrintOps(path, ElementStep(ord, path, a, b, i))
    ensures Unmatched(left, ka, i + 1, kb)
    decreases a, 0, 0
  {
    var k := ka[i];
    var child := Extend(path, Ident(k));
    StillThere(a.items, ka, i, b.items, kb, bIndex);
    MatchedOne(bIndex, ka, i, kb);
    left := bIndex - {k};
    if k in bIndex {
      var j := bIndex[k];
      PrintLift(path, Ident(k), Walk(ord, child, a.items[i], b.items[j]));
      Compare(ord, child, a.items[i], b.items[j], sink);
    } else {
      PrintOne(path, Ident(k), Some(a.items[i]), None);
      sink.Removed(child, a.items[i]);
    }
  }

  method AddElements(path: string, lb: seq<Nbt>, kb: seq<string>, bIndex: map<string, nat>, added: seq<string>,
                     sink: OpSink)
    requires KeysOf(kb, lb)
    requires forall k :: k in bIndex ==> bIndex[k] < |kb| && kb[bIndex[k]] == k
    requires forall k :: k in added ==> k in bIndex && k in Ids(lb)
    modifies sink
    ensures sink.ops == old(sink.ops) + PrintOps(path, AddedElementOps(lb, added))
  {
    ghost var done: seq<Op> := [];
    for n := 0 to |added|
      invariant done + AddedElementOps(lb, added[n..]) == AddedElementOps(lb, added)
      invariant sink.ops == old(sink.ops) + PrintOps(path, done)
    {
      var k := added[n];
      LocateUnique(lb, bIndex[k]);
      assert added[n..][1..] == added[n + 1..];
      sink.Added(Extend(path, Ident(k)), lb[bIndex[k]]);
      ghost var step := [Op([Ident(k)], None, Some(lb[bIndex[k]]))];
      PrintOne(path, Ident(k), None, Some(lb[bIndex[k]]));
      OneMore(old(sink.ops), path, done, step, AddedElementOps(lb, added[n + 1..]));
      done := done + step;
    }
    LastOne(old(sink.ops), path, done, AddedElementOps(lb, added), []);
  }

  lemma MatchedOne(bIndex: map<string, nat>, ka: seq<string>, i: nat, kb: seq<string>)
    requires i < |ka| && Unmatched(bIndex, ka, i, kb)
    ensures Unmatched(bIndex - {ka[i]}, ka, i + 1, kb)
  {
    assert ka[..i + 1] == ka[..i] + [ka[i]];
  }

  lemma StillThere(la: seq<Nbt>, ka: seq<string>, i: nat, lb: seq<Nbt>, kb: seq<string>, bIndex: map<string, nat>)
    requires KeysOf(ka, la) && KeysOf(kb, lb) && i < |ka|
    requires Unmatched(bIndex, ka, i, kb)
    ensures ka[i] !in ka[..i]
    ensures ka[i] in bIndex <==> HasId(lb, ka[i])
    ensures ka[i] in bIndex ==> ById(lb, ka[i]) == lb[bIndex[ka[i]]]
  {
    if ka[i] in bIndex { LocateUnique(lb, bIndex[ka[i]]); }
    if HasId(lb, ka[i]) { assert kb[Locate(lb, ka[i])] == ka[i]; }
  }

  lemma LeftoverIds(la: seq<Nbt>, ka: seq<string>, lb: seq<Nbt>, kb: seq<string>, left: map<string, nat>)
    requires KeysOf(ka, la) && KeysOf(kb, lb) && Unmatched(left, ka, |ka|, kb)
    ensures left.Keys == Ids(lb) - Ids(la)
  {
    assert ka[..|ka|] == ka;
    assert forall k :: k in ka <==> k in Ids(la);
    assert forall k :: k in kb <==> k in Ids(lb);
  }
}
