// What a push does to the bucket when nobody comes between its operations, and
// that it is then a run of the protocol's steps (crates/repo/src/bucket.rs, push
// in crates/repo/src/remote.rs).
module Alone {
  import opened Batching
  import opened Bucket
  import opened Closure
  import opened Collections
  import opened Objects
  import opened Reachability
  import opened Readers
  import Wire

  /** The bucket with the pack listed. */
  function Appended(s: Shared, pack: string): Shared {
    if pack in Listed(s) then s else AfterPut(s, PackList, ListBlob(Listed(s) + [pack]))
  }

  predicate AllHere(local: Store, ids: seq<string>) {
    forall id :: id in ids ==> id in local
  }

  predicate BatchesHere(local: Store, batches: seq<seq<string>>) {
    forall i :: 0 <= i < |batches| ==> AllHere(local, batches[i])
  }

  /** The bucket with the objects uploaded as one pack and listed. */
  function Uploaded(w: World, s: Shared, objects: Body): Shared {
    var body := Built(objects);
    if objects == [] then s else Appended(AfterPut(s, Pack(w.packHash(body)), PackBlob(body)), w.packHash(body))
  }

  function Sent(w: World, s: Shared, local: Store, batch: seq<string>): Shared
    requires AllHere(local, batch)
  {
    Uploaded(w, s, BodyOf(local, batch))
  }

  function SentAll(w: World, s: Shared, local: Store, batches: seq<seq<string>>): Shared
    requires BatchesHere(local, batches)
  {
    if batches == [] then s
    else Sent(w, SentAll(w, s, local, batches[..|batches| - 1]), local, batches[|batches| - 1])
  }

  /** The bucket with the branch at the tip, and some default branch. */
  function Branched(s: Shared, branch: string, tip: string): (t: Shared)
    ensures RefAt(t, branch, tip)
    ensures Head in t.blobs && t.blobs[Head].blob == if Head in s.blobs then s.blobs[Head].blob else HeadBlob(branch)
  {
    var u := AfterPut(s, Ref(branch), RefBlob(tip));
    if Head in s.blobs then u else AfterPut(u, Head, HeadBlob(branch))
  }

  // ---- what it keeps ----

  lemma AppendedKeeps(w: World, s: Shared, pack: string)
    requires SharedInv(w, s) && PackStored(s, pack)
    ensures SharedInv(w, Appended(s, pack)) && Grows(s, Appended(s, pack))
    ensures pack in Listed(Appended(s, pack))
  {
    if pack in Listed(s) {
      GrowsSelf(s);
    } else {
      AppendKeeps(w, s, pack, Appended(s, pack));
    }
  }

  /** The bucket after an upload: the one pack more, found by every reader. */
  lemma UploadedKeeps(w: World, s: Shared, objects: Body)
    requires PackInjective(w) && SharedInv(w, s) && Named(w, objects)
    ensures SharedInv(w, Uploaded(w, s, objects)) && Grows(s, Uploaded(w, s, objects))
    ensures forall id :: Holds(objects, id) ==> Available(Uploaded(w, s, objects), id)
  {
    hide SharedInv, Grows, Available, PackHolds, Appended;
    var body, t := Built(objects), Uploaded(w, s, objects);
    if objects == [] {
      GrowsSelf(s);
    } else {
      var pack := w.packHash(body);
      var u := AfterPut(s, Pack(pack), PackBlob(body));
      BuiltNamed(w, objects);
      BuiltHolds(objects);
      PutPackKeeps(w, s, body, u);
      AppendedKeeps(w, u, pack);
      GrowsTrans(s, u, t);
      forall id | Holds(objects, id) ensures Available(t, id) {
        PackHasIt(u, pack, id);
        PackStays(u, t, pack, id);
        ListedAvailable(t, pack, id);
      }
    }
  }

  lemma PackHasIt(s: Shared, pack: string, id: string)
    requires PackStored(s, pack) && Holds(BodyIn(s, pack), id)
    ensures PackHolds(s, pack, id)
  {}

  lemma BodyHonest(w: World, local: Store, ids: seq<string>)
    requires Addressed(w.hash, local) && AllHere(local, ids)
    ensures Named(w, BodyOf(local, ids))
    ensures forall id :: Holds(BodyOf(local, ids), id) <==> id in ids
  {
    forall id ensures Holds(BodyOf(local, ids), id) <==> id in ids {
      if id in ids {
        var i :| 0 <= i < |ids| && ids[i] == id;
        assert BodyOf(local, ids)[i].0 == id;
      }
    }
  }

  lemma SentKeeps(w: World, s: Shared, local: Store, batch: seq<string>)
    requires PackInjective(w) && SharedInv(w, s) && Addressed(w.hash, local) && AllHere(local, batch)
    ensures SharedInv(w, Sent(w, s, local, batch)) && Grows(s, Sent(w, s, local, batch))
    ensures forall id :: id in batch ==> Available(Sent(w, s, local, batch), id)
  {
    hide SharedInv, Grows, Available, Holds;
    BodyHonest(w, local, batch);
    UploadedKeeps(w, s, BodyOf(local, batch));
  }

  // ---- whether readers still accept the bucket ----

  lemma AppendedReadable(w: World, s: Shared, body: Body)
    requires SharedInv(w, s) && PackInjective(w)
    ensures var t := Appended(AfterPut(s, Pack(w.packHash(body)), PackBlob(body)), w.packHash(body));
            Readable(w, t) <==> Readable(w, s) && Parses(w, body)
  {
    hide Parses, Genuine, RefsComplete, HeadExists;
    var pack := w.packHash(body);
    var u := AfterPut(s, Pack(pack), PackBlob(body));
    var t := Appended(u, pack);
    assert forall p :: p in Listed(t) <==> p in Listed(s) || p == pack;
    assert PackStored(t, pack) && BodyIn(t, pack) == body;
    forall p | PackStored(s, p) ensures PackStored(t, p) && BodyIn(t, p) == BodyIn(s, p) {}
    if Readable(w, t) {
      assert Parses(w, BodyIn(t, pack));
      forall p | p in Listed(s) && PackStored(s, p) ensures Parses(w, BodyIn(s, p)) { assert Parses(w, BodyIn(t, p)); }
    }
    if Readable(w, s) && Parses(w, body) {
      forall p | p in Listed(t) && PackStored(t, p) ensures Parses(w, BodyIn(t, p)) {
        if p != pack { assert PackStored(s, p); }
      }
    }
  }

  /** After a batch of distinct objects readers can parse every listed pack exactly
      when they could before and the batch is within the cap. */
  lemma SentReadable(w: World, s: Shared, local: Store, batch: seq<string>)
    requires PackInjective(w) && SharedInv(w, s) && Addressed(w.hash, local) && AllHere(local, batch)
    requires batch != [] && Distinct(batch)
    ensures Readable(w, Sent(w, s, local, batch)) <==>
            Readable(w, s) && Weight(SizeIn(w.size, local), batch) <= Wire.MAX_PACK_TOTAL
  {
    hide Readable, Parses, Built, SharedInv, Appended, Weight;
    BatchParses(w, local, batch);
    AppendedReadable(w, s, Built(BodyOf(local, batch)));
  }

  /** The same for a list of batches, with what it keeps. */
  lemma {:induction false} SentAllReadable(w: World, s: Shared, local: Store, batches: seq<seq<string>>)
    requires PackInjective(w) && SharedInv(w, s) && Addressed(w.hash, local) && BatchesHere(local, batches)
    requires forall i :: 0 <= i < |batches| ==> batches[i] != [] && Distinct(batches[i])
    ensures SharedInv(w, SentAll(w, s, local, batches))
    ensures Readable(w, SentAll(w, s, local, batches)) <==>
            Readable(w, s) && forall i :: 0 <= i < |batches| ==>
                Weight(SizeIn(w.size, local), batches[i]) <= Wire.MAX_PACK_TOTAL
  {
    hide Readable, SharedInv, Sent, Weight, AllHere, Distinct;
    if batches != [] {
      var init, last := batches[..|batches| - 1], batches[|batches| - 1];
      SentAllReadable(w, s, local, init);
      SentKeeps(w, SentAll(w, s, local, init), local, last);
      SentReadable(w, SentAll(w, s, local, init), local, last);
    }
  }

  /** Moving a branch changes nothing for the readers of packs. */
  lemma BranchedReadable(w: World, s: Shared, branch: string, tip: string)
    ensures Listed(Branched(s, branch, tip)) == Listed(s)
    ensures Readable(w, Branched(s, branch, tip)) <==> Readable(w, s)
  {
    hide Parses;
    var t := Branched(s, branch, tip);
    assert forall p :: PackStored(t, p) <==> PackStored(s, p);
    assert forall p :: PackStored(s, p) ==> BodyIn(t, p) == BodyIn(s, p);
  }

  /** A push where readers are lost: an object of 100 MiB leaves the batch open, the
      next one of 450 MiB ends up in the same pack, and no reader can build its
      index from then on, whatever else it came for. */
  lemma HeavyPush(w: World, s: Shared, local: Store, a: string, b: string)
    requires PackInjective(w) && SharedInv(w, s) && Addressed(w.hash, local)
    requires a != b && a in local && b in local
    requires w.size(local[a]) == 100 * 1024 * 1024 && w.size(local[b]) == 450 * 1024 * 1024
    ensures Batches(SizeIn(w.size, local), [a, b]) == [[a, b]]
    ensures SharedInv(w, Sent(w, s, local, [a, b])) && !ReaderAccepts(w, Sent(w, s, local, [a, b]))
  {
    hide Readable, Batches, Weight, SharedInv, Sent;
    TwoInOne(SizeIn(w.size, local), a, b);
    SentKeeps(w, s, local, [a, b]);
    SentReadable(w, s, local, [a, b]);
  }

  // ---- the same as a run of the protocol ----

  /** A client's steps with nobody between them. */
  ghost predicate Stepping(w: World, path: seq<(Shared, Client)>) {
    && path != []
    && forall i :: 0 <= i < |path| - 1 ==> Step(w, path[i].0, path[i].1, path[i + 1].0, path[i + 1].1)
  }

  ghost predicate StepsAlong(w: World, path: seq<(Shared, Client)>, s: Shared, c: Client, t: Shared, d: Client) {
    Stepping(w, path) && path[0] == (s, c) && path[|path| - 1] == (t, d)
  }

  ghost predicate Steps(w: World, s: Shared, c: Client, t: Shared, d: Client) {
    exists path :: StepsAlong(w, path, s, c, t, d)
  }

  lemma StepsSelf(w: World, s: Shared, c: Client)
    ensures Steps(w, s, c, s, c)
  {
    assert StepsAlong(w, [(s, c)], s, c, s, c);
  }

  lemma StepsThen(w: World, s: Shared, c: Client, t: Shared, d: Client, u: Shared, e: Client)
    requires Steps(w, s, c, t, d) && Step(w, t, d, u, e)
    ensures Steps(w, s, c, u, e)
  {
    hide Step;
    var path :| StepsAlong(w, path, s, c, t, d);
    var longer := path + [(u, e)];
    forall i | 0 <= i < |longer| - 1 ensures Step(w, longer[i].0, longer[i].1, longer[i + 1].0, longer[i + 1].1) {
      if i < |path| - 1 { assert longer[i] == path[i] && longer[i + 1] == path[i + 1]; }
    }
    assert StepsAlong(w, longer, s, c, u, e);
  }

  lemma StepsTrans(w: World, s: Shared, c: Client, t: Shared, d: Client, u: Shared, e: Client)
    requires Steps(w, s, c, t, d) && Steps(w, t, d, u, e)
    ensures Steps(w, s, c, u, e)
  {
    hide Step;
    var p: seq<(Shared, Client)> :| StepsAlong(w, p, s, c, t, d);
    var q: seq<(Shared, Client)> :| StepsAlong(w, q, t, d, u, e);
    var r := p + q[1..];
    forall i | 0 <= i < |r| - 1 ensures Step(w, r[i].0, r[i].1, r[i + 1].0, r[i + 1].1) {
      if i >= |p| - 1 { assert r[i] == q[i - (|p| - 1)] && r[i + 1] == q[i + 1 - (|p| - 1)]; }
    }
    assert StepsAlong(w, r, s, c, u, e);
  }

  /** A client in another phase. */
  function In(c: Client, phase: Phase): Client {
    c.(phase := phase)
  }

  lemma {:induction false} PackSteps(w: World, s: Shared, c: Client, n: nat)
    requires c.phase.ReadingList? && ReaderAccepts(w, s) && n <= |Listed(s)|
    ensures Steps(w, s, c, s, In(c, ReadingPacks(Listed(s), n, IndexOf(s, Listed(s)[..n]))))
  {
    hide Steps, Parses;
    var list := Listed(s);
    if n == 0 {
      StepsSelf(w, s, c);
      StepsThen(w, s, c, s, c, s, In(c, ReadingPacks(list, 0, map[])));
    } else {
      PackSteps(w, s, c, n - 1);
      assert list[..n][..n - 1] == list[..n - 1];
      assert list[n - 1] in list;
      StepsThen(w, s, c, s, In(c, ReadingPacks(list, n - 1, IndexOf(s, list[..n - 1]))),
                s, In(c, ReadingPacks(list, n, IndexOf(s, list[..n]))));
    }
  }

  /** The client with its index built and everything missing before it. */
  function Started(c: Client, index: map<string, string>): Client {
    Client(Some(index), c.push, Uploading(Missing(c.push.ids, index)))
  }

  lemma IndexSteps(w: World, s: Shared, c: Client)
    requires c.phase.ReadingList? && ReaderAccepts(w, s)
    ensures Steps(w, s, c, s, Started(c, IndexOf(s, Listed(s))))
  {
    hide Steps, IndexOf, Missing, ReaderAccepts;
    var list := Listed(s);
    PackSteps(w, s, c, |list|);
    assert list[..|list|] == list;
    StepsThen(w, s, c, s, In(c, ReadingPacks(list, |list|, IndexOf(s, list))), s, Started(c, IndexOf(s, list)));
  }

  lemma AppendSteps(w: World, s: Shared, c: Client)
    requires c.phase.Appending? && c.phase.tries == 0
    ensures Steps(w, s, c, Appended(s, c.phase.pack), Client(None, c.push, Uploading(c.phase.rest)))
  {
    hide Steps;
    var rest, pack := c.phase.rest, c.phase.pack;
    var done := Client(None, c.push, Uploading(rest));
    StepsSelf(w, s, c);
    if pack in Listed(s) {
      StepsThen(w, s, c, s, c, s, done);
    } else {
      var swapping := In(c, Swapping(rest, pack, Listed(s), Tag(s, PackList), 0));
      StepsThen(w, s, c, s, c, s, swapping);
      StepsThen(w, s, c, s, swapping, Appended(s, pack), done);
    }
  }

  lemma BatchSteps(w: World, s: Shared, c: Client, n: nat)
    requires c.phase.Uploading? && FirstBatch(SizeIn(w.size, c.push.local), c.phase.rest, n)
    requires AllHere(c.push.local, c.phase.rest[..n])
    ensures Steps(w, s, c, Sent(w, s, c.push.local, c.phase.rest[..n]),
          Client(None, c.push, Uploading(c.phase.rest[n..])))
  {
    hide Steps, Built, FirstBatch;
    var rest, local := c.phase.rest, c.push.local;
    assert 0 < n <= |rest| by { BatchBounds(SizeIn(w.size, local), rest, n); }
    var body := Built(BodyOf(local, rest[..n]));
    var t := AfterPut(s, Pack(w.packHash(body)), PackBlob(body));
    var d := In(c, Appending(rest[n..], w.packHash(body), 0));
    StepsSelf(w, s, c);
    assert UploadStep(w, s, c, t, d, rest, n);
    StepsThen(w, s, c, s, c, t, d);
    AppendSteps(w, t, d);
    StepsTrans(w, s, c, t, d, Appended(t, w.packHash(body)), Client(None, c.push, Uploading(rest[n..])));
  }

  lemma BatchBounds(size: string -> nat, ids: seq<string>, n: nat)
    requires FirstBatch(size, ids, n)
    ensures 0 < n <= |ids|
  {}

  /** Sending the first batch and then the others is sending them all. */
  lemma {:induction false} SentAllFront(w: World, s: Shared, local: Store, batch: seq<string>,
                                        batches: seq<seq<string>>)
    requires AllHere(local, batch) && BatchesHere(local, batches) && BatchesHere(local, [batch] + batches)
    ensures SentAll(w, s, local, [batch] + batches) == SentAll(w, Sent(w, s, local, batch), local, batches)
  {
    hide Sent, AllHere;
    var all := [batch] + batches;
    if batches == [] {
      assert all[..|all| - 1] == [];
    } else {
      var init := batches[..|batches| - 1];
      assert all[..|all| - 1] == [batch] + init;
      SentAllFront(w, s, local, batch, init);
    }
  }

  lemma {:induction false} UploadSteps(w: World, s: Shared, c: Client)
    requires c.phase.Uploading? && AllHere(c.push.local, c.phase.rest)
    requires BatchesHere(c.push.local, Batches(SizeIn(w.size, c.push.local), c.phase.rest))
    ensures var sent := SentAll(w, s, c.push.local, Batches(SizeIn(w.size, c.push.local), c.phase.rest));
            Steps(w, s, c, sent, Client(if c.phase.rest == [] then c.index else None, c.push, Uploading([])))
    decreases |c.phase.rest|
  {
    hide Steps, Sent, Batches, FirstBatch;
    var rest, local := c.phase.rest, c.push.local;
    var size := SizeIn(w.size, local);
    if rest == [] {
      assert Batches(size, []) == [] by { NoBatches(size); }
      StepsSelf(w, s, c);
    } else {
      var n := FirstBatchExists(size, rest);
      BatchBounds(size, rest, n);
      FirstBatchCuts(size, rest, n);
      var after := Batches(size, rest[n..]);
      assert forall i :: 0 <= i < |after| ==> after[i] == Batches(size, rest)[i + 1];
      var d := Client(None, c.push, Uploading(rest[n..]));
      BatchSteps(w, s, c, n);
      UploadSteps(w, Sent(w, s, local, rest[..n]), d);
      SentAllFront(w, s, local, rest[..n], after);
      StepsTrans(w, s, c, Sent(w, s, local, rest[..n]), d, SentAll(w, s, local, Batches(size, rest)),
                 Client(None, c.push, Uploading([])));
    }
  }

  lemma NoBatches(size: string -> nat)
    ensures Batches(size, []) == []
  {}

  lemma FinishSteps(w: World, s: Shared, c: Client)
    requires c.phase == Uploading([])
    ensures Steps(w, s, c, Branched(s, c.push.branch, c.push.tip), In(c, Idle))
  {
    hide Steps;
    var branch, tip := c.push.branch, c.push.tip;
    var u := AfterPut(s, Ref(branch), RefBlob(tip));
    var swap := In(c, SwappingRef(Tag(s, Ref(branch))));
    StepsSelf(w, s, c);
    StepsThen(w, s, c, s, c, s, In(c, ReadingRef));
    StepsThen(w, s, c, s, In(c, ReadingRef), s, swap);
    StepsThen(w, s, c, s, swap, u, In(c, ReadingHead));
    if Head in u.blobs {
      StepsThen(w, s, c, u, In(c, ReadingHead), u, In(c, Idle));
    } else {
      StepsThen(w, s, c, u, In(c, ReadingHead), u, In(c, WritingHead));
      StepsThen(w, s, c, u, In(c, WritingHead), Branched(s, branch, tip), In(c, Idle));
    }
  }

  /** The index a push consults: the cached one, or one built from the listed packs. */
  function IndexUsed(s: Shared, cached: Option<map<string, string>>): map<string, string> {
    if cached.Some? then cached.value else IndexOf(s, Listed(s))
  }

  function Todo(s: Shared, cached: Option<map<string, string>>, p: Push): seq<string> {
    Missing(p.ids, IndexUsed(s, cached))
  }

  /** What an uninterrupted push makes of the bucket. */
  function Pushed(w: World, s: Shared, cached: Option<map<string, string>>, p: Push): Shared
    requires BatchesHere(p.local, Batches(SizeIn(w.size, p.local), Todo(s, cached, p)))
  {
    Branched(SentAll(w, s, p.local, Batches(SizeIn(w.size, p.local), Todo(s, cached, p))), p.branch, p.tip)
  }

  lemma BatchesAreHere(size: string -> nat, local: Store, ids: seq<string>)
    requires AllHere(local, ids)
    ensures BatchesHere(local, Batches(size, ids))
  {
    hide Batches;
    BatchesJoin(size, ids);
    forall i, id | 0 <= i < |Batches(size, ids)| && id in Batches(size, ids)[i] ensures id in local {
      InJoined(Batches(size, ids), i, id);
    }
  }

  lemma TodoHere(w: World, s: Shared, cached: Option<map<string, string>>, p: Push)
    requires Ready(w, p)
    ensures AllHere(p.local, Todo(s, cached, p))
    ensures BatchesHere(p.local, Batches(SizeIn(w.size, p.local), Todo(s, cached, p)))
  {
    hide Batches;
    forall id | id in Todo(s, cached, p) ensures id in p.local { InMissing(p.ids, IndexUsed(s, cached), id); }
    BatchesAreHere(SizeIn(w.size, p.local), p.local, Todo(s, cached, p));
  }

  /** An uninterrupted push is a run of the protocol's steps, from a client at rest
      with the cached index to a client at rest. */
  lemma PushIsRun(w: World, s: Shared, cached: Option<map<string, string>>, idle: Push, p: Push)
    requires Ready(w, p) && (cached.Some? || ReaderAccepts(w, s))
    ensures BatchesHere(p.local, Batches(SizeIn(w.size, p.local), Todo(s, cached, p)))
    ensures exists index :: Steps(w, s, Client(cached, idle, Idle), Pushed(w, s, cached, p), Client(index, p, Idle))
  {
    hide Steps, Ready, IndexOf, Missing, ReaderAccepts, Batches, SentAll, Branched, BatchesHere, AllHere;
    var c := Client(cached, idle, Idle);
    var todo := Todo(s, cached, p);
    TodoHere(w, s, cached, p);
    StepsSelf(w, s, c);
    var d := Client(Some(IndexUsed(s, cached)), p, Uploading(todo));
    if cached.Some? {
      StepsThen(w, s, c, s, c, s, d);
    } else {
      var reading := Client(None, p, ReadingList);
      StepsThen(w, s, c, s, c, s, reading);
      IndexSteps(w, s, reading);
      StepsTrans(w, s, c, s, reading, s, d);
    }
    UploadSteps(w, s, d);
    var t := SentAll(w, s, p.local, Batches(SizeIn(w.size, p.local), todo));
    var e := Client(if todo == [] then d.index else None, p, Uploading([]));
    StepsTrans(w, s, c, s, d, t, e);
    FinishSteps(w, t, e);
    StepsTrans(w, s, c, t, e, Pushed(w, s, cached, p), In(e, Idle));
  }

  /** From a store that holds everything the tip depends on, the ids of the walk
      over it make a client of the protocol ready to push. */
  lemma ReachableIsReady(w: World, local: Store, branch: string, tip: string)
    requires Complete(w.hash, UNCUT, local, tip) && Harmless(local, UNCUT, [tip])
    ensures Ready(w, WalkedPush(branch, tip, local))
    ensures Distinct(Walked(local, UNCUT, [tip])) && AllHere(local, Walked(local, UNCUT, [tip]))
    ensures forall id :: id in Walked(local, UNCUT, [tip]) <==> InClosure(w.hash, UNCUT, tip, id)
    ensures Addressed(w.hash, local)
  {
    hide InClosure, Walked, Kept, Harmless;
    WalkedSound(local, UNCUT, [tip]);
    WalkedExact(local, UNCUT, [tip]);
    forall id ensures Kept(local, UNCUT, [tip], id) <==> InClosure(w.hash, UNCUT, tip, id) {
      ReachableIsClosure(w.hash, UNCUT, local, tip, id);
    }
  }

  /** The push of what the walk from the tip puts out. */
  ghost function WalkedPush(branch: string, tip: string, local: Store): Push {
    Push(branch, tip, local, Walked(local, UNCUT, [tip]))
  }
}
