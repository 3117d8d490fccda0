// How a push cuts the missing objects into batches (crates/repo/src/remote.rs),
// and which batches a reader takes (crates/repo/src/wirepack.rs).
module Batching {
  import opened Collections
  import Wire

  const PUSH_BATCH_RAW_BYTES := 128 * 1024 * 1024

  function Weight(size: string -> nat, ids: seq<string>): nat {
    if ids == [] then 0 else Weight(size, ids[..|ids| - 1]) + size(ids[|ids| - 1])
  }

  /** The batches sent so far and the one being filled. */
  function Cut(size: string -> nat, ids: seq<string>): (seq<seq<string>>, seq<string>) {
    if ids == [] then ([], [])
    else
      var (sent, batch) := Cut(size, ids[..|ids| - 1]);
      var more := batch + [ids[|ids| - 1]];
      if Weight(size, more) >= PUSH_BATCH_RAW_BYTES then (sent + [more], []) else (sent, more)
  }

  function Batches(size: string -> nat, ids: seq<string>): seq<seq<string>> {
    var (sent, batch) := Cut(size, ids);
    if batch == [] then sent else sent + [batch]
  }

  function Joined(batches: seq<seq<string>>): seq<string> {
    if batches == [] then [] else Joined(batches[..|batches| - 1]) + batches[|batches| - 1]
  }

  /** Full except for its last object: without it the batch was below the threshold. */
  predicate Filled(size: string -> nat, batch: seq<string>) {
    batch != [] && Weight(size, batch[..|batch| - 1]) < PUSH_BATCH_RAW_BYTES
  }

  lemma CutNothing(size: string -> nat)
    ensures Cut(size, []) == ([], []) && Weight(size, []) == 0
  {}

  lemma WeightAdd(size: string -> nat, ids: seq<string>, id: string)
    ensures Weight(size, ids + [id]) == Weight(size, ids) + size(id)
  {
    assert (ids + [id])[..|ids|] == ids;
  }

  lemma CutAdd(size: string -> nat, ids: seq<string>, id: string)
    ensures var (sent, batch) := Cut(size, ids);
            Cut(size, ids + [id]) ==
            if Weight(size, batch + [id]) >= PUSH_BATCH_RAW_BYTES then (sent + [batch + [id]], [])
                else (sent, batch + [id])
  {
    hide Weight;
    assert (ids + [id])[..|ids|] == ids;
  }

  lemma CutStep(size: string -> nat, ids: seq<string>, i: nat)
    requires i < |ids|
    ensures ids[..i + 1] == ids[..i] + [ids[i]]
    ensures var (sent, batch) := Cut(size, ids[..i]);
            && Weight(size, batch + [ids[i]]) == Weight(size, batch) + size(ids[i])
            && Cut(size, ids[..i + 1]) ==
               if Weight(size, batch + [ids[i]]) >= PUSH_BATCH_RAW_BYTES
               then (sent + [batch + [ids[i]]], [])
               else (sent, batch + [ids[i]])
    ensures Weight(size, []) == 0
  {
    hide Cut;
    CutAdd(size, ids[..i], ids[i]);
    WeightAdd(size, Cut(size, ids[..i]).1, ids[i]);
  }

  lemma {:induction false} CutJoins(size: string -> nat, ids: seq<string>)
    ensures Joined(Cut(size, ids).0) + Cut(size, ids).1 == ids
    ensures Weight(size, Cut(size, ids).1) < PUSH_BATCH_RAW_BYTES
    ensures forall i :: 0 <= i < |Cut(size, ids).0| ==> Filled(size, Cut(size, ids).0[i])
  {
    if ids != [] {
      var init, id := ids[..|ids| - 1], ids[|ids| - 1];
      CutJoins(size, init);
      var (sent, batch) := Cut(size, init);
      var more := batch + [id];
      assert more[..|more| - 1] == batch;
      Assoc(Joined(sent), batch, [id]);
      assert ids == init + [id];
      if Weight(size, more) >= PUSH_BATCH_RAW_BYTES {
        assert (sent + [more])[..|sent|] == sent;
      }
    }
  }

  /** The batches are the missing list cut up, none is empty, and each stays below
      the threshold until its last object. */
  lemma BatchesJoin(size: string -> nat, ids: seq<string>)
    ensures Joined(Batches(size, ids)) == ids
    ensures forall i :: 0 <= i < |Batches(size, ids)| ==> Filled(size, Batches(size, ids)[i])
  {
    CutJoins(size, ids);
    var (sent, batch) := Cut(size, ids);
    if batch != [] {
      assert (sent + [batch])[..|sent|] == sent;
      LighterInit(size, batch);
    } else {
      assert Joined(sent) + batch == Joined(sent);
    }
  }

  lemma LighterInit(size: string -> nat, batch: seq<string>)
    requires batch != []
    ensures Weight(size, batch[..|batch| - 1]) <= Weight(size, batch)
  {}

  lemma {:induction false} InJoined(batches: seq<seq<string>>, i: nat, id: string)
    requires i < |batches| && id in batches[i]
    ensures id in Joined(batches)
  {
    if i < |batches| - 1 { InJoined(batches[..|batches| - 1], i, id); }
  }

  /** Pieces of a list without repetitions have none. */
  lemma {:induction false} DistinctPieces(batches: seq<seq<string>>, i: nat)
    requires Distinct(Joined(batches)) && i < |batches|
    ensures Distinct(batches[i])
  {
    var init, last := batches[..|batches| - 1], batches[|batches| - 1];
    var joined := Joined(init);
    if i < |init| {
      assert forall k :: 0 <= k < |joined| ==> Joined(batches)[k] == joined[k];
      DistinctPieces(init, i);
    } else {
      assert forall k :: 0 <= k < |last| ==> Joined(batches)[|joined| + k] == last[k];
    }
  }

  // ---- the batches one after the other ----

  /** The first `n` of the ids are the next batch: the shortest prefix that reaches
      the threshold, or everything. */
  ghost predicate FirstBatch(size: string -> nat, ids: seq<string>, n: nat) {
    && 0 < n <= |ids|
    && (forall k :: 0 <= k < n ==> Weight(size, ids[..k]) < PUSH_BATCH_RAW_BYTES)
    && (n < |ids| ==> Weight(size, ids[..n]) >= PUSH_BATCH_RAW_BYTES)
  }

  lemma {:induction false} CutBelow(size: string -> nat, ids: seq<string>)
    requires forall k :: 0 <= k <= |ids| ==> Weight(size, ids[..k]) < PUSH_BATCH_RAW_BYTES
    ensures Cut(size, ids) == ([], ids)
  {
    hide Weight, Cut;
    if ids == [] {
      CutNothing(size);
    } else {
      var init, id := ids[..|ids| - 1], ids[|ids| - 1];
      forall k | 0 <= k <= |init|
        ensures Weight(size, init[..k]) < PUSH_BATCH_RAW_BYTES
      {
        assert init[..k] == ids[..k];
      }
      CutBelow(size, init);
      CutAdd(size, init, id);
      assert init + [id] == ids && ids[..|ids|] == ids;
    }
  }

  /** After a full batch the cutting starts afresh. */
  lemma {:induction false} CutAfter(size: string -> nat, a: seq<string>, b: seq<string>)
    requires Cut(size, a).1 == []
    ensures Cut(size, a + b) == (Cut(size, a).0 + Cut(size, b).0, Cut(size, b).1)
  {
    hide Weight, Cut;
    if b == [] {
      CutNothing(size);
      assert a + b == a && Cut(size, a).0 + [] == Cut(size, a).0;
    } else {
      var init, id := b[..|b| - 1], b[|b| - 1];
      CutAfter(size, a, init);
      assert a + b == (a + init) + [id] && b == init + [id];
      CutAdd(size, a + init, id);
      CutAdd(size, init, id);
      var (sent, batch) := Cut(size, init);
      Assoc(Cut(size, a).0, sent, [batch + [id]]);
    }
  }

  /** The batches are the first batch and the batches of the rest. */
  lemma FirstBatchCuts(size: string -> nat, ids: seq<string>, n: nat)
    requires FirstBatch(size, ids, n)
    ensures Batches(size, ids) == [ids[..n]] + Batches(size, ids[n..])
  {
    hide Weight, Cut;
    var init := ids[..n - 1];
    forall k | 0 <= k <= |init| ensures Weight(size, init[..k]) < PUSH_BATCH_RAW_BYTES { assert init[..k] == ids[..k]; }
    CutBelow(size, init);
    CutAdd(size, init, ids[n - 1]);
    assert init + [ids[n - 1]] == ids[..n];
    assert ids == ids[..n] + ids[n..];
    if Weight(size, ids[..n]) >= PUSH_BATCH_RAW_BYTES {
      CutAfter(size, ids[..n], ids[n..]);
    } else {
      CutNothing(size);
      assert ids[n..] == [] && ids[..n] == ids;
    }
  }

  lemma FirstBatchExists(size: string -> nat, ids: seq<string>) returns (n: nat)
    requires ids != []
    ensures FirstBatch(size, ids, n)
  {
    n := 1;
    assert ids[..0] == [];
    while n < |ids| && Weight(size, ids[..n]) < PUSH_BATCH_RAW_BYTES
      invariant 0 < n <= |ids|
      invariant forall k :: 0 <= k < n ==> Weight(size, ids[..k]) < PUSH_BATCH_RAW_BYTES
    {
      n := n + 1;
    }
  }

  // ---- which batches a reader takes ----

  /** The heaviest object a push can hold without ever making a batch over the cap. */
  const SAFE_OBJECT := Wire.MAX_PACK_TOTAL - (PUSH_BATCH_RAW_BYTES - 1)

  /** A batch of objects up to that size stays within the reader's cap. */
  lemma FilledFits(size: string -> nat, batch: seq<string>)
    requires Filled(size, batch) && size(batch[|batch| - 1]) <= SAFE_OBJECT
    ensures Weight(size, batch) <= Wire.MAX_PACK_TOTAL
  {}

  ghost predicate AllFit(size: string -> nat, ids: seq<string>) {
    forall i :: 0 <= i < |Batches(size, ids)| ==> Weight(size, Batches(size, ids)[i]) <= Wire.MAX_PACK_TOTAL
  }

  lemma BatchesFit(size: string -> nat, ids: seq<string>)
    requires forall id :: id in ids ==> size(id) <= SAFE_OBJECT
    ensures AllFit(size, ids)
  {
    hide Batches, Weight, Joined;
    BatchesJoin(size, ids);
    forall i | 0 <= i < |Batches(size, ids)| ensures Weight(size, Batches(size, ids)[i]) <= Wire.MAX_PACK_TOTAL {
      var batch := Batches(size, ids)[i];
      InJoined(Batches(size, ids), i, batch[|batch| - 1]);
      FilledFits(size, batch);
    }
  }

  /** Two objects, the first just below the threshold, make one batch. */
  lemma TwoInOne(size: string -> nat, a: string, b: string)
    requires size(a) < PUSH_BATCH_RAW_BYTES <= size(a) + size(b)
    ensures Batches(size, [a, b]) == [[a, b]] && Weight(size, [a, b]) == size(a) + size(b)
  {
    assert [a] == [] + [a] && [a, b] == [a] + [b];
    CutNothing(size);
    CutAdd(size, [], a);
    WeightAdd(size, [], a);
    CutAdd(size, [a], b);
    WeightAdd(size, [a], b);
  }

  /** An object size is safe for every push exactly up to that bound. */
  lemma SafeSize(limit: nat)
    ensures (forall size: string -> nat, ids :: (forall id :: id in ids ==> size(id) <= limit) ==> AllFit(size, ids))
            <==> limit <= SAFE_OBJECT
    ensures SAFE_OBJECT == 384 * 1024 * 1024 + 1
  {
    if limit <= SAFE_OBJECT {
      forall size: string -> nat, ids | forall id :: id in ids ==> size(id) <= limit ensures AllFit(size, ids) {
        BatchesFit(size, ids);
      }
    } else {
      hide AllFit;
      OverSafeSize(limit);
    }
  }

  lemma OverSafeSize(limit: nat)
    requires limit > SAFE_OBJECT
    ensures exists size: string -> nat, ids :: (forall id :: id in ids ==> size(id) <= limit) && !AllFit(size, ids)
  {
    hide Batches, Weight;
    var size: string -> nat := (id: string) => if id == "a" then PUSH_BATCH_RAW_BYTES - 1 else limit;
    TwoInOne(size, "a", "b");
    assert Batches(size, ["a", "b"])[0] == ["a", "b"];
    assert !AllFit(size, ["a", "b"]);
  }

  // ---- the weight of a set of objects ----

  lemma {:induction false} WeightWithout(size: string -> nat, ids: seq<string>, i: nat)
    requires i < |ids|
    ensures Weight(size, ids) == Weight(size, ids[..i] + ids[i + 1..]) + size(ids[i])
    decreases |ids|
  {
    var last := |ids| - 1;
    if i < last {
      WeightWithout(size, ids[..last], i);
      var without := ids[..i] + ids[i + 1..];
      assert without[|without| - 1] == ids[last];
      assert without[..|without| - 1] == ids[..last][..i] + ids[..last][i + 1..];
      assert ids[..last][i] == ids[i];
    } else {
      assert ids[..i] + ids[i + 1..] == ids[..last];
    }
  }

  /** The weight of a set of objects does not depend on their order. */
  lemma {:induction false} WeightOfSame(size: string -> nat, a: seq<string>, b: seq<string>)
    requires Distinct(a) && Distinct(b) && forall id :: id in a <==> id in b
    ensures Weight(size, a) == Weight(size, b)
  {
    if a == [] {
      assert forall i :: 0 <= i < |b| ==> b[i] in b;
    } else {
      var init, id := a[..|a| - 1], a[|a| - 1];
      assert id in a && id in b;
      var i :| 0 <= i < |b| && b[i] == id;
      WeightWithout(size, b, i);
      var rest := b[..i] + b[i + 1..];
      forall x ensures x in init <==> x in rest {
        assert x in a <==> x in init || x == id;
        assert x in b <==> x in rest || x == id by { assert b == b[..i] + [b[i]] + b[i + 1..]; }
      }
      WeightOfSame(size, init, rest);
    }
  }

  // ---- a batch as a wire pack ----

  function WireObjects(bytes: string -> Wire.Data, ids: seq<string>): seq<Wire.Object> {
    seq(|ids|, i requires 0 <= i < |ids| => (ids[i], bytes(ids[i])))
  }

  lemma {:induction false} FirstOfObjects(bytes: string -> Wire.Data, ids: seq<string>)
    ensures forall id :: id in Wire.FirstOf(WireObjects(bytes, ids)) <==> id in ids
    ensures forall id :: id in ids ==> Wire.FirstOf(WireObjects(bytes, ids))[id] == bytes(id)
  {
    if ids != [] {
      var init := ids[..|ids| - 1];
      FirstOfObjects(bytes, init);
      assert WireObjects(bytes, ids)[..|ids| - 1] == WireObjects(bytes, init);
      assert ids == init + [ids[|ids| - 1]];
    }
  }

  lemma {:induction false} ListingWeighs(bytes: string -> Wire.Data, m: map<string, Wire.Data>, ids: seq<string>)
    requires forall id :: id in ids ==> id in m && m[id] == bytes(id)
    ensures Wire.Sizes(Wire.Listing(m, ids)) == Weight(id => |bytes(id)|, ids)
  {
    if ids != [] {
      var init, id := ids[..|ids| - 1], ids[|ids| - 1];
      ListingWeighs(bytes, m, init);
      Wire.SizesAdd(Wire.Listing(m, init), id, m[id]);
    }
  }

  lemma {:induction false} InListing(m: map<string, Wire.Data>, ids: seq<string>, id: string, d: Wire.Data)
    requires forall x :: x in ids ==> x in m
    ensures (id, d) in Wire.Listing(m, ids) <==> id in ids && d == m[id]
  {
    if ids != [] {
      InListing(m, ids[..|ids| - 1], id, d);
      assert ids == ids[..|ids| - 1] + [ids[|ids| - 1]];
    }
  }

  /** The reader of the wire pack of a batch of distinct, honest objects takes it
      exactly when the batch is within the cap, and then gets all of it. */
  lemma BatchAccepted(c: Wire.Codec, bytes: string -> Wire.Data, ids: seq<string>, body: Wire.Data)
    requires Wire.Faithful(c) && Distinct(ids) && forall id :: id in ids ==> c.hash(bytes(id)) == id
    requires var (pack, idx) := Wire.Packed(c, WireObjects(bytes, ids));
             body == Wire.Framed(c, pack, idx) && |c.text(idx)| < 0x1_0000_0000
    ensures Wire.Unframed(c, body).Some?
    ensures var (pack, idx) := Wire.Unframed(c, body).value;
            var got := Wire.Delivered(c, pack, idx, Sorted(idx.Keys));
            && (got.Some? <==> Weight(id => |bytes(id)|, ids) <= Wire.MAX_PACK_TOTAL)
            && (got.Some? ==> forall id, d :: (id, d) in got.value <==> id in ids && d == bytes(id))
  {
    hide Sorted, Wire.Framed, Wire.Packed, Wire.Delivered, Wire.Unframed, Weight, Wire.FirstOf, Wire.Listing,
         Wire.Sizes;
    var m := Wire.FirstOf(WireObjects(bytes, ids));
    Wire.WireRoundTrip(c, WireObjects(bytes, ids), body);
    FirstOfObjects(bytes, ids);
    assert forall id :: id in m.Keys <==> id in ids;
    var order := Sorted(m.Keys);
    WeightOfSame(id => |bytes(id)|, ids, order);
    ListingWeighs(bytes, m, order);
    forall id, d
      ensures (id, d) in Wire.Listing(m, order) <==> id in ids && d == bytes(id)
    {
      InListing(m, order, id, d);
    }
  }
}
