// What a reader of the bucket makes of it: the index built from the listed packs
// (ensure_index in crates/repo/src/bucket.rs), and when it can be built at all.
module Readers {
  import opened Batching
  import opened Bucket
  import opened Closure
  import opened Collections
  import opened Objects
  import Wire

  /** The index built from the listed packs, in list order. */
  function IndexOf(s: Shared, list: seq<string>): map<string, string> {
    if list == [] then map[]
    else
      var built, pack := IndexOf(s, list[..|list| - 1]), list[|list| - 1];
      if PackStored(s, pack) then Indexed(built, BodyIn(s, pack), pack) else built
  }

  lemma {:induction false} IndexedKnows(built: map<string, string>, body: Body, pack: string, id: string)
    ensures id in Indexed(built, body, pack) <==> id in built || Holds(body, id)
  {
    if body != [] {
      var init := body[..|body| - 1];
      IndexedKnows(built, init, pack, id);
      HoldsAdd(init, body[|body| - 1]);
      assert body == init + [body[|body| - 1]];
    }
  }

  /** The index knows exactly what the listed packs hold. */
  lemma {:induction false} IndexKnows(s: Shared, list: seq<string>, id: string)
    ensures id in IndexOf(s, list) <==> exists pack :: pack in list && PackHolds(s, pack, id)
  {
    if list != [] {
      var init, pack := list[..|list| - 1], list[|list| - 1];
      IndexKnows(s, init, id);
      if PackStored(s, pack) { IndexedKnows(IndexOf(s, init), BodyIn(s, pack), pack, id); }
      assert forall p :: p in list <==> p in init || p == pack;
      if id in IndexOf(s, list) && id !in IndexOf(s, init) { assert PackHolds(s, pack, id); }
      forall p | p in list && PackHolds(s, p, id) ensures id in IndexOf(s, list) {
        if p in init { assert id in IndexOf(s, init); }
      }
    }
  }

  lemma {:induction false} IndexIsTrue(s: Shared, list: seq<string>)
    requires forall p :: p in list ==> p in Listed(s)
    ensures IndexTrue(s, IndexOf(s, list))
  {
    if list != [] {
      var init, pack := list[..|list| - 1], list[|list| - 1];
      IndexIsTrue(s, init);
      if PackStored(s, pack) {
        var body := BodyIn(s, pack);
        forall i | 0 <= i < |body| ensures PackHolds(s, pack, body[i].0) { assert Holds(body, body[i].0); }
        InIndexed(s, IndexOf(s, init), body, pack);
      }
    }
  }

  // ---- when the index can be built ----

  /** Every listed pack can be parsed. */
  predicate Readable(w: World, s: Shared) {
    forall p :: p in Listed(s) && PackStored(s, p) ==> Parses(w, BodyIn(s, p))
  }

  /** The list is not overlong and every listed pack can be parsed. */
  predicate ReaderAccepts(w: World, s: Shared) {
    |Listed(s)| <= MAX_PACKS && Readable(w, s)
  }

  /** A bucket no reader accepts will never be accepted again. */
  lemma RefusedForever(w: World, run: seq<System>, i: nat, j: nat)
    requires PackInjective(w) && IsRun(w, run) && i <= j < |run|
    requires !ReaderAccepts(w, run[i].shared)
    ensures !ReaderAccepts(w, run[j].shared)
  {
    hide IsRun, Parses;
    RunGrows(w, run, i, j);
    StaysRefused(w, run[i].shared, run[j].shared);
  }

  lemma StaysRefused(w: World, s: Shared, t: Shared)
    requires Grows(s, t)
    ensures ReaderAccepts(w, t) ==> ReaderAccepts(w, s)
  {
    hide Parses;
    forall p | p in Listed(s) && PackStored(s, p) && ReaderAccepts(w, t) ensures Parses(w, BodyIn(s, p)) {
      assert p in Listed(t) && BodyIn(t, p) == BodyIn(s, p);
    }
  }

  // ---- the weight of what is uploaded ----

  lemma {:induction false} BuiltWeighs(size: Content -> nat, objects: Body)
    ensures PackWeight(size, Built(objects)) <= PackWeight(size, objects)
  {
    if objects != [] {
      var init, last := objects[..|objects| - 1], objects[|objects| - 1];
      BuiltWeighs(size, init);
      assert (Built(init) + [last])[..|Built(init)|] == Built(init);
    }
  }

  lemma {:induction false} BodyWeighs(size: Content -> nat, local: Store, ids: seq<string>)
    requires forall id :: id in ids ==> id in local
    ensures PackWeight(size, BodyOf(local, ids)) == Weight(SizeIn(size, local), ids)
  {
    if ids != [] {
      var init := ids[..|ids| - 1];
      BodyWeighs(size, local, init);
      assert BodyOf(local, ids)[..|ids| - 1] == BodyOf(local, init);
    }
  }

  /** Objects with different ids are packed as they come. */
  lemma {:induction false} BuiltDistinct(local: Store, ids: seq<string>)
    requires Distinct(ids) && forall id :: id in ids ==> id in local
    ensures Built(BodyOf(local, ids)) == BodyOf(local, ids)
  {
    if ids != [] {
      var init := ids[..|ids| - 1];
      BuiltDistinct(local, init);
      assert BodyOf(local, ids)[..|ids| - 1] == BodyOf(local, init);
      assert BodyOf(local, ids) == BodyOf(local, init) + [BodyOf(local, ids)[|ids| - 1]];
    }
  }

  /** A batch of distinct objects of an honest store makes a pack that can be
      parsed exactly when it is within the cap. */
  lemma BatchParses(w: World, local: Store, ids: seq<string>)
    requires Addressed(w.hash, local) && forall id :: id in ids ==> id in local
    ensures Weight(SizeIn(w.size, local), ids) <= Wire.MAX_PACK_TOTAL ==> Parses(w, Built(BodyOf(local, ids)))
    ensures Distinct(ids) ==>
              (Parses(w, Built(BodyOf(local, ids))) <==> Weight(SizeIn(w.size, local), ids) <= Wire.MAX_PACK_TOTAL)
  {
    hide Built, PackWeight, Weight, Distinct;
    BuiltNamed(w, BodyOf(local, ids));
    BuiltWeighs(w.size, BodyOf(local, ids));
    BodyWeighs(w.size, local, ids);
    if Distinct(ids) { BuiltDistinct(local, ids); }
  }

  // ---- runs that push no oversized object ----

  /** No object of the push is over the size that is safe for every batch. */
  predicate Light(w: World, p: Push) {
    forall id :: id in p.ids && id in p.local ==> w.size(p.local[id]) <= SAFE_OBJECT
  }

  ghost predicate LightRun(w: World, run: seq<System>) {
    forall i, c :: 0 <= i < |run| && 0 <= c < |run[i].clients| && !run[i].clients[c].phase.Idle? ==>
      Light(w, run[i].clients[c].push)
  }

  ghost predicate AllParse(w: World, s: Shared) {
    forall p :: PackStored(s, p) ==> Parses(w, BodyIn(s, p))
  }

  lemma FirstBatchFits(w: World, p: Push, rest: seq<string>, n: nat)
    requires FirstBatch(SizeIn(w.size, p.local), rest, n) && Light(w, p) && forall id :: id in rest ==> id in p.ids
    ensures Weight(SizeIn(w.size, p.local), rest[..n]) <= Wire.MAX_PACK_TOTAL
  {
    var batch := rest[..n];
    assert batch[..|batch| - 1] == rest[..n - 1];
    assert rest[n - 1] in rest;
    FilledFits(SizeIn(w.size, p.local), batch);
  }

  /** A step of a client with a light push leaves every stored pack fit to be parsed. */
  lemma MoveParses(w: World, s: Shared, c: Client, t: Shared, d: Client)
    requires ClientInv(w, s, c) && ClientMoves(w, s, c, t, d) && AllParse(w, s)
    requires c.phase.Idle? || Light(w, c.push)
    ensures AllParse(w, t)
  {
    hide Parses, Available, Light, Indexed;
    if c.phase.Uploading? && c.phase.rest != [] && Step(w, s, c, t, d) {
      var rest := c.phase.rest;
      var n: nat :| FirstBatch(SizeIn(w.size, c.push.local), rest, n) && UploadStep(w, s, c, t, d, rest, n);
      FirstBatchFits(w, c.push, rest, n);
      BatchParses(w, c.push.local, rest[..n]);
      forall p | PackStored(t, p) ensures Parses(w, BodyIn(t, p)) {
        if p != w.packHash(Built(BodyOf(c.push.local, rest[..n]))) { assert PackStored(s, p); }
      }
    } else {
      forall p | PackStored(t, p)
        ensures Parses(w, BodyIn(t, p))
      {
        assert PackStored(s, p) && BodyIn(t, p) == BodyIn(s, p);
      }
    }
  }

  lemma {:induction false} LightRunParses(w: World, run: seq<System>, i: nat)
    requires PackInjective(w) && IsRun(w, run) && LightRun(w, run) && i < |run|
    ensures AllParse(w, run[i].shared)
  {
    hide AllParse, Light, SharedInv, ClientInv, ClientMoves;
    if i == 0 {
      NothingStored(w);
    } else {
      LightRunParses(w, run, i - 1);
      RunKeeps(w, run, i - 1);
      var a, b := run[i - 1], run[i - 1 + 1];
      assert Next(w, a, b);
      if c: nat :| c < |a.clients| && |b.clients| == |a.clients| && b.clients == a.clients[c := b.clients[c]]
                   && ClientMoves(w, a.shared, a.clients[c], b.shared, b.clients[c])
      {
        MoveParses(w, a.shared, a.clients[c], b.shared, b.clients[c]);
      }
    }
  }

  lemma NothingStored(w: World)
    ensures AllParse(w, NEW)
  {}

  /** As long as no push holds an object over the safe size, every reader can build
      its index in every state of every run, until the list grows past its bound;
      and the index then leads to everything every branch depends on. */
  lemma ReadersFindBranches(w: World, run: seq<System>, i: nat)
    requires PackInjective(w) && IsRun(w, run) && LightRun(w, run) && i < |run|
    ensures var s := run[i].shared;
            && (ReaderAccepts(w, s) <==> |Listed(s)| <= MAX_PACKS)
            && forall b, tip, id :: RefAt(s, b, tip) && InClosure(w.hash, UNCUT, tip, id) ==>
                 id in IndexOf(s, Listed(s)) && PackHolds(s, IndexOf(s, Listed(s))[id], id)
  {
    hide InClosure, IndexOf, Parses, PackHolds;
    LightRunParses(w, run, i);
    RunKeeps(w, run, i);
    var s := run[i].shared;
    IndexIsTrue(s, Listed(s));
    forall b, tip, id | RefAt(s, b, tip) && InClosure(w.hash, UNCUT, tip, id) ensures id in IndexOf(s, Listed(s)) {
      assert Available(s, id);
      IndexKnows(s, Listed(s), id);
    }
  }
}
