// The serverless push protocol (crates/repo/src/bucket.rs, push in
// crates/repo/src/remote.rs): any number of clients interleave single bucket
// operations on one bucket.
module Bucket {
  import opened Batching
  import opened Closure
  import opened Collections
  import opened Objects
  import Wire

  datatype Key = Head | Ref(branch: string) | Pack(id: string) | PackList

  type Body = seq<(string, Content)>

  datatype Blob = HeadBlob(branch: string) | RefBlob(tip: string) | PackBlob(body: Body) | ListBlob(ids: seq<string>)

  datatype Stored = Stored(blob: Blob, etag: nat)

  /** The bucket: blobs with entity tags, and the counter tags are drawn from. */
  datatype Shared = Shared(blobs: map<Key, Stored>, counter: nat)

  const NEW := Shared(map[], 0)

  function Tag(s: Shared, k: Key): Option<nat> {
    if k in s.blobs then Some(s.blobs[k].etag) else None
  }

  function AfterPut(s: Shared, k: Key, b: Blob): Shared {
    Shared(s.blobs[k := Stored(b, s.counter + 1)], s.counter + 1)
  }

  function TryPut(s: Shared, k: Key, b: Blob, expected: Option<nat>): (Shared, bool) {
    if Tag(s, k) == expected then (AfterPut(s, k, b), true) else (s, false)
  }

  /** The in-process bucket. */
  class InMemoryBucket {
    var blobs: map<Key, Stored>
    var counter: nat

    function State(): Shared
      reads this
    {
      Shared(blobs, counter)
    }

    constructor ()
      ensures State() == NEW
    {
      blobs, counter := map[], 0;
    }

    method Get(k: Key) returns (r: Option<Stored>)
      ensures r.Some? <==> k in State().blobs
      ensures r.Some? ==> r.value == State().blobs[k]
    {
      r := if k in blobs then Some(blobs[k]) else None;
    }

    method Put(k: Key, b: Blob)
      modifies this
      ensures State() == AfterPut(old(State()), k, b)
    {
      counter := counter + 1;
      blobs := blobs[k := Stored(b, counter)];
    }

    method PutIfMatch(k: Key, b: Blob, expected: Option<nat>) returns (done: bool)
      modifies this
      ensures (State(), done) == TryPut(old(State()), k, b, expected)
    {
      var current := if k in blobs then Some(blobs[k].etag) else None;
      if current != expected {
        return false;
      }
      counter := counter + 1;
      blobs := blobs[k := Stored(b, counter)];
      return true;
    }
  }

  // ---- the protocol ----

  /** The pack ids of the pack list, none before the first push. */
  function Listed(s: Shared): seq<string> {
    if PackList in s.blobs && s.blobs[PackList].blob.ListBlob? then s.blobs[PackList].blob.ids else []
  }

  predicate Holds(body: Body, id: string) {
    exists i :: 0 <= i < |body| && body[i].0 == id
  }

  predicate PackStored(s: Shared, pack: string) {
    Pack(pack) in s.blobs && s.blobs[Pack(pack)].blob.PackBlob?
  }

  function BodyIn(s: Shared, pack: string): Body
    requires PackStored(s, pack)
  {
    s.blobs[Pack(pack)].blob.body
  }

  predicate PackHolds(s: Shared, pack: string, id: string) {
    PackStored(s, pack) && Holds(BodyIn(s, pack), id)
  }

  predicate RefAt(s: Shared, branch: string, tip: string) {
    Ref(branch) in s.blobs && s.blobs[Ref(branch)].blob == RefBlob(tip)
  }

  /** A reader of the bucket can find the object. */
  predicate Available(s: Shared, id: string) {
    exists pack :: pack in Listed(s) && PackHolds(s, pack, id)
  }

  /** A push under way: the branch, its tip, what the local store holds and the
      ids reachable from the tip. */
  datatype Push = Push(branch: string, tip: string, local: Store, ids: seq<string>)

  datatype Phase =
    | Idle
    | ReadingList
    | ReadingPacks(list: seq<string>, next: nat, built: map<string, string>)
    | Uploading(rest: seq<string>)
    | Appending(rest: seq<string>, pack: string, tries: nat)
    | Swapping(rest: seq<string>, pack: string, seen: seq<string>, etag: Option<nat>, tries: nat)
    | ReadingRef
    | SwappingRef(refTag: Option<nat>)
    | ReadingHead
    | WritingHead

  datatype Client = Client(index: Option<map<string, string>>, push: Push, phase: Phase)

  const TRIES := 20
  const MAX_PACKS := 1_000_000

  /** `missing`: the ids the index does not know, in order. */
  function Missing(ids: seq<string>, index: map<string, string>): seq<string> {
    if ids == [] then []
    else (if ids[0] in index then [] else [ids[0]]) + Missing(ids[1..], index)
  }

  function BodyOf(local: Store, ids: seq<string>): Body
    requires forall id :: id in ids ==> id in local
  {
    seq(|ids|, i requires 0 <= i < |ids| => (ids[i], local[ids[i]]))
  }

  /** The body `wirepack::build` makes of the objects: each id once, with its first content. */
  function Built(objects: Body): Body {
    if objects == [] then []
    else
      var body, last := Built(objects[..|objects| - 1]), objects[|objects| - 1];
      if Holds(body, last.0) then body else body + [last]
  }

  function PackWeight(size: Content -> nat, body: Body): nat {
    if body == [] then 0 else PackWeight(size, body[..|body| - 1]) + size(body[|body| - 1].1)
  }

  /** The hash of an object, the hash that names a pack, and the length of an object. */
  datatype World = World(hash: Content -> string, packHash: Body -> string, size: Content -> nat)

  /** Every object has its id as hash. */
  predicate Named(w: World, body: Body) {
    forall i :: 0 <= i < |body| ==> w.hash(body[i].1) == body[i].0
  }

  /** Whether `wirepack::parse` accepts a downloaded pack: together the objects are
      within the cap, and each is what its id says. */
  predicate Parses(w: World, body: Body) {
    PackWeight(w.size, body) <= Wire.MAX_PACK_TOTAL && Named(w, body)
  }

  /** The objects of a pack, entered under its name. */
  function Indexed(built: map<string, string>, body: Body, pack: string): map<string, string> {
    if body == [] then built else Indexed(built, body[..|body| - 1], pack)[body[|body| - 1].0 := pack]
  }

  /** A push may start from a local repository that holds the whole closure of the
      tip and lists exactly that. */
  ghost predicate Ready(w: World, p: Push) {
    && Addressed(w.hash, p.local)
    && (forall id :: id in p.ids ==> id in p.local)
    && (forall id :: InClosure(w.hash, UNCUT, p.tip, id) ==> id in p.ids)
  }

  /** One step of one client, which does at most one operation on the bucket. */
  ghost predicate Step(w: World, s: Shared, c: Client, t: Shared, d: Client) {
    match c.phase
    case Idle =>
      && t == s && Ready(w, d.push) && d.index == c.index
      && d.phase == if c.index.Some? then Uploading(Missing(d.push.ids, c.index.value)) else ReadingList
    case ReadingList =>
      && t == s && d.push == c.push
      && if |Listed(s)| > MAX_PACKS then d == c.(phase := Idle) else d == c.(phase := ReadingPacks(Listed(s), 0, map[]))
    case ReadingPacks(list, next, built) =>
      && t == s && d.push == c.push
      && if next >= |list| then
           d == c.(index := Some(built), phase := Uploading(Missing(c.push.ids, built)))
         else if PackStored(s, list[next]) then
           if Parses(w, BodyIn(s, list[next])) then
             d == c.(phase := ReadingPacks(list, next + 1, Indexed(built, BodyIn(s, list[next]), list[next])))
           else
             d == c.(phase := Idle)
         else
           d == c.(phase := ReadingPacks(list, next + 1, built))
    case Uploading(rest) =>
      if rest == [] then t == s && d == c.(phase := ReadingRef)
      else
        exists n: nat :: FirstBatch(SizeIn(w.size, c.push.local), rest, n) && UploadStep(w, s, c, t, d, rest, n)
    case Appending(rest, pack, tries) =>
      && t == s
      && if tries >= TRIES then d == c.(phase := Idle)
         else if pack in Listed(s) then d == c.(index := None, phase := Uploading(rest))
         else d == c.(phase := Swapping(rest, pack, Listed(s), Tag(s, PackList), tries))
    case Swapping(rest, pack, seen, etag, tries) =>
      var (u, done) := TryPut(s, PackList, ListBlob(seen + [pack]), etag);
      && t == u
      && d == if done then c.(index := None, phase := Uploading(rest))
          else c.(phase := Appending(rest, pack, tries + 1))
    case ReadingRef =>
      t == s && d == c.(phase := SwappingRef(Tag(s, Ref(c.push.branch))))
    case SwappingRef(refTag) =>
      var (u, done) := TryPut(s, Ref(c.push.branch), RefBlob(c.push.tip), refTag);
      t == u && d == c.(phase := if done then ReadingHead else Idle)
    case ReadingHead =>
      t == s && d == c.(phase := if Head in s.blobs then Idle else WritingHead)
    case WritingHead =>
      t == AfterPut(s, Head, HeadBlob(c.push.branch)) && d == c.(phase := Idle)
  }

  /** Uploads a pack of the first `n` ids, named by its content. */
  ghost predicate UploadStep(w: World, s: Shared, c: Client, t: Shared, d: Client, rest: seq<string>, n: nat)
    requires 0 < n <= |rest|
  {
    && (forall id :: id in rest[..n] ==> id in c.push.local)
    && var body := Built(BodyOf(c.push.local, rest[..n]));
       && t == AfterPut(s, Pack(w.packHash(body)), PackBlob(body))
       && d == c.(phase := Appending(rest[n..], w.packHash(body), 0))
  }

  /** A client may also die or give up at any point; its memory goes with it. */
  ghost predicate ClientMoves(w: World, s: Shared, c: Client, t: Shared, d: Client) {
    Step(w, s, c, t, d) || (t == s && d == c.(index := None, phase := Idle))
  }

  datatype System = System(shared: Shared, clients: seq<Client>)

  /** Some client moves; new clients may join, idle and knowing nothing. */
  ghost predicate Next(w: World, a: System, b: System) {
    || (exists i :: 0 <= i < |a.clients| && |b.clients| == |a.clients| && b.clients == a.clients[i := b.clients[i]]
                    && ClientMoves(w, a.shared, a.clients[i], b.shared, b.clients[i]))
    || (exists c: Client :: c.index.None? && c.phase.Idle? && b == System(a.shared, a.clients + [c]))
  }

  // ---- what every step keeps ----

  /** Different packs have different names. */
  ghost predicate PackInjective(w: World) {
    forall a, b :: w.packHash(a) == w.packHash(b) ==> a == b
  }

  ghost predicate WellFormed(w: World, s: Shared) {
    && (PackList in s.blobs ==> s.blobs[PackList].blob.ListBlob?)
    && (forall k :: k in s.blobs ==> s.blobs[k].etag <= s.counter)
    && (forall p :: Pack(p) in s.blobs ==> PackStored(s, p) && w.packHash(BodyIn(s, p)) == p)
    && (forall b :: Ref(b) in s.blobs ==> s.blobs[Ref(b)].blob.RefBlob?)
    && (Head in s.blobs ==> s.blobs[Head].blob.HeadBlob?)
  }

  /** Every object of every pack is stored under its own hash. */
  ghost predicate Genuine(w: World, s: Shared) {
    forall p :: PackStored(s, p) ==> Named(w, BodyIn(s, p))
  }

  ghost predicate ListedStored(s: Shared) {
    forall p :: p in Listed(s) ==> Pack(p) in s.blobs
  }

  /** Everything a branch depends on can be found by a reader. */
  ghost predicate RefsComplete(w: World, s: Shared) {
    forall b, tip, id :: RefAt(s, b, tip) && InClosure(w.hash, UNCUT, tip, id) ==> Available(s, id)
  }

  ghost predicate HeadExists(s: Shared) {
    Head in s.blobs && s.blobs[Head].blob.HeadBlob? ==> Ref(s.blobs[Head].blob.branch) in s.blobs
  }

  ghost predicate SharedInv(w: World, s: Shared) {
    WellFormed(w, s) && Genuine(w, s) && ListedStored(s) && RefsComplete(w, s) && HeadExists(s)
  }

  ghost predicate IndexTrue(s: Shared, index: map<string, string>) {
    forall id :: id in index ==> index[id] in Listed(s) && PackHolds(s, index[id], id)
  }

  /** Every object of the push is findable, or still to be uploaded. */
  ghost predicate Covered(s: Shared, p: Push, rest: seq<string>) {
    forall id :: id in p.ids ==> Available(s, id) || id in rest
  }

  ghost predicate CoveredWith(s: Shared, p: Push, rest: seq<string>, pack: string) {
    PackStored(s, pack) && forall id :: id in p.ids ==> Available(s, id) || id in rest || PackHolds(s, pack, id)
  }

  /** What a client knows, against the bucket as it is now. */
  ghost predicate ClientInv(w: World, s: Shared, c: Client) {
    && (c.index.Some? ==> IndexTrue(s, c.index.value))
    && (!c.phase.Idle? ==> Ready(w, c.push))
    && match c.phase
       case Idle => true
       case ReadingList => true
       case ReadingPacks(list, next, built) => list <= Listed(s) && next <= |list| && IndexTrue(s, built)
       case Uploading(rest) => Covered(s, c.push, rest) && (forall id :: id in rest ==> id in c.push.ids)
       case Appending(rest, pack, _) => CoveredWith(s, c.push, rest, pack) &&
           (forall id :: id in rest ==> id in c.push.ids)
       case Swapping(rest, pack, seen, etag, _) =>
         && CoveredWith(s, c.push, rest, pack) && (forall id :: id in rest ==> id in c.push.ids)
         && (etag.Some? ==> etag.value <= s.counter)
         && (Tag(s, PackList) == etag ==> Listed(s) == seen)
       case ReadingRef => Covered(s, c.push, [])
       case SwappingRef(_) => Covered(s, c.push, [])
       case ReadingHead => Ref(c.push.branch) in s.blobs
       case WritingHead => Ref(c.push.branch) in s.blobs
  }

  /** How the bucket may change: the pack list is only appended to, packs are
      never lost or altered, refs are never removed, tags are never reused. */
  ghost predicate Grows(s: Shared, t: Shared) {
    && Listed(s) <= Listed(t)
    && s.counter <= t.counter
    && (forall p :: PackStored(s, p) ==> PackStored(t, p) && BodyIn(t, p) == BodyIn(s, p))
    && (forall b :: Ref(b) in s.blobs ==> Ref(b) in t.blobs)
    && (PackList in s.blobs ==> PackList in t.blobs)
    && (PackList in t.blobs && t.blobs[PackList].etag <= s.counter ==>
        PackList in s.blobs && t.blobs[PackList] == s.blobs[PackList])
  }

  lemma StaysAvailable(s: Shared, t: Shared, id: string)
    requires Grows(s, t) && Available(s, id)
    ensures Available(t, id)
  {
    var p :| p in Listed(s) && PackHolds(s, p, id);
    assert p in Listed(t) && PackHolds(t, p, id);
  }

  lemma StaysTrue(s: Shared, t: Shared, index: map<string, string>)
    requires Grows(s, t) && IndexTrue(s, index)
    ensures IndexTrue(t, index)
  {}

  /** What a client knows survives whatever the others do. */
  lemma ClientStable(w: World, s: Shared, t: Shared, c: Client)
    requires Grows(s, t) && ClientInv(w, s, c)
    ensures ClientInv(w, t, c)
  {
    hide Ready, Available, PackHolds, IndexTrue;
    if c.index.Some? { StaysTrue(s, t, c.index.value); }
    if c.phase.ReadingPacks? { StaysTrue(s, t, c.phase.built); }
    forall id | Available(s, id) ensures Available(t, id) { StaysAvailable(s, t, id); }
    if c.phase.Appending? || c.phase.Swapping? {
      forall id | PackHolds(s, c.phase.pack, id)
        ensures PackHolds(t, c.phase.pack, id)
      {
        PackStays(s, t, c.phase.pack, id);
      }
      PackKept(s, t, c.phase.pack);
    }
  }

  lemma PackStays(s: Shared, t: Shared, p: string, id: string)
    requires Grows(s, t) && PackHolds(s, p, id)
    ensures PackHolds(t, p, id)
  {}

  lemma PackKept(s: Shared, t: Shared, p: string)
    requires Grows(s, t) && PackStored(s, p)
    ensures PackStored(t, p)
  {}

  /** Building a pack loses no id and invents no object. */
  lemma {:induction false} BuiltHolds(objects: Body)
    ensures forall id :: Holds(Built(objects), id) <==> Holds(objects, id)
    ensures forall o :: o in Built(objects) ==> o in objects
  {
    if objects != [] {
      var init, last := objects[..|objects| - 1], objects[|objects| - 1];
      BuiltHolds(init);
      HoldsAdd(init, last);
      HoldsAdd(Built(init), last);
      assert objects == init + [last];
    }
  }

  lemma BuiltNamed(w: World, objects: Body)
    requires Named(w, objects)
    ensures Named(w, Built(objects))
  {
    hide Built;
    BuiltHolds(objects);
    forall i | 0 <= i < |Built(objects)| ensures w.hash(Built(objects)[i].1) == Built(objects)[i].0 {
      assert Built(objects)[i] in objects;
    }
  }

  lemma HoldsAdd(body: Body, o: (string, Content))
    ensures forall id :: Holds(body + [o], id) <==> Holds(body, id) || id == o.0
  {
    forall id ensures Holds(body + [o], id) <==> Holds(body, id) || id == o.0 {
      assert (body + [o])[|body|] == o;
      if Holds(body, id) {
        var i :| 0 <= i < |body| && body[i].0 == id;
        assert (body + [o])[i].0 == id;
      }
    }
  }

  lemma {:induction false} InMissing(ids: seq<string>, index: map<string, string>, id: string)
    ensures id in Missing(ids, index) <==> id in ids && id !in index
  {
    if ids != [] {
      InMissing(ids[1..], index, id);
      assert ids == [ids[0]] + ids[1..];
    }
  }

  lemma {:induction false} InIndexed(s: Shared, built: map<string, string>, body: Body, pack: string)
    requires IndexTrue(s, built) && pack in Listed(s)
    requires forall i :: 0 <= i < |body| ==> PackHolds(s, pack, body[i].0)
    ensures IndexTrue(s, Indexed(built, body, pack))
  {
    hide PackHolds;
    if body != [] { InIndexed(s, built, body[..|body| - 1], pack); }
  }

  // ---- each kind of write ----

  lemma RefsStayComplete(w: World, s: Shared, t: Shared)
    requires RefsComplete(w, s) && Grows(s, t)
    requires forall b :: Ref(b) in t.blobs ==> Ref(b) in s.blobs && t.blobs[Ref(b)] == s.blobs[Ref(b)]
    ensures RefsComplete(w, t)
  {
    hide Available, Grows, InClosure;
    forall b, tip, id | RefAt(t, b, tip) && InClosure(w.hash, UNCUT, tip, id) ensures Available(t, id) {
      assert RefAt(s, b, tip);
      StaysAvailable(s, t, id);
    }
  }

  lemma PutPackKeeps(w: World, s: Shared, body: Body, t: Shared)
    requires PackInjective(w) && SharedInv(w, s)
    requires Named(w, body)
    requires t == AfterPut(s, Pack(w.packHash(body)), PackBlob(body))
    ensures SharedInv(w, t) && Grows(s, t)
    ensures Listed(t) == Listed(s) && PackStored(t, w.packHash(body)) && BodyIn(t, w.packHash(body)) == body
  {
    hide RefsComplete, Available;
    RefsStayComplete(w, s, t);
  }

  lemma AppendKeeps(w: World, s: Shared, pack: string, t: Shared)
    requires SharedInv(w, s) && PackStored(s, pack)
    requires t == AfterPut(s, PackList, ListBlob(Listed(s) + [pack]))
    ensures SharedInv(w, t) && Grows(s, t)
    ensures Listed(t) == Listed(s) + [pack]
  {
    hide RefsComplete, Available;
    RefsStayComplete(w, s, t);
  }

  lemma PutRefKeeps(w: World, s: Shared, branch: string, tip: string, t: Shared)
    requires SharedInv(w, s)
    requires forall id :: InClosure(w.hash, UNCUT, tip, id) ==> Available(s, id)
    requires t == AfterPut(s, Ref(branch), RefBlob(tip))
    ensures SharedInv(w, t) && Grows(s, t)
  {
    hide Available, InClosure;
    forall b, x, id | RefAt(t, b, x) && InClosure(w.hash, UNCUT, x, id) ensures Available(t, id) {
      if b == branch { assert InClosure(w.hash, UNCUT, tip, id); } else { assert RefAt(s, b, x); }
      assert Available(s, id);
      StaysAvailable(s, t, id);
    }
  }

  lemma PutHeadKeeps(w: World, s: Shared, branch: string, t: Shared)
    requires SharedInv(w, s) && Ref(branch) in s.blobs
    requires t == AfterPut(s, Head, HeadBlob(branch))
    ensures SharedInv(w, t) && Grows(s, t)
  {
    hide RefsComplete, Available;
    RefsStayComplete(w, s, t);
  }

  // ---- each phase ----

  /** What a step must leave true. */
  ghost predicate Safe(w: World, s: Shared, t: Shared, d: Client) {
    SharedInv(w, t) && Grows(s, t) && ClientInv(w, t, d)
  }

  lemma GrowsSelf(s: Shared)
    ensures Grows(s, s)
  {}

  lemma CoveredStart(s: Shared, p: Push, index: map<string, string>)
    requires IndexTrue(s, index)
    ensures Covered(s, p, Missing(p.ids, index))
    ensures forall id :: id in Missing(p.ids, index) ==> id in p.ids
  {
    forall id ensures id in Missing(p.ids, index) <==> id in p.ids && id !in index { InMissing(p.ids, index, id); }
    forall id | id in index ensures Available(s, id) { assert PackHolds(s, index[id], id); }
  }

  lemma StartKeeps(w: World, s: Shared, c: Client, t: Shared, d: Client)
    requires SharedInv(w, s) && ClientInv(w, s, c) && Step(w, s, c, t, d) && c.phase.Idle?
    ensures Safe(w, s, t, d)
  {
    hide SharedInv, Ready, Missing, IndexTrue, Covered;
    GrowsSelf(s);
    if c.index.Some? { CoveredStart(s, d.push, c.index.value); }
  }

  lemma IndexKeeps(w: World, s: Shared, c: Client, t: Shared, d: Client)
    requires SharedInv(w, s) && ClientInv(w, s, c) && Step(w, s, c, t, d)
    requires c.phase.ReadingList? || c.phase.ReadingPacks?
    ensures Safe(w, s, t, d)
  {
    hide SharedInv, Ready, Missing, Covered, Indexed;
    GrowsSelf(s);
    if c.phase.ReadingPacks? {
      var list, next, built := c.phase.list, c.phase.next, c.phase.built;
      if next >= |list| {
        CoveredStart(s, c.push, built);
      } else if PackStored(s, list[next]) {
        var body := BodyIn(s, list[next]);
        assert list[next] in Listed(s);
        forall i | 0 <= i < |body| ensures PackHolds(s, list[next], body[i].0) { assert Holds(body, body[i].0); }
        InIndexed(s, built, body, list[next]);
      }
    }
  }

  lemma UploadKeeps(w: World, s: Shared, c: Client, t: Shared, d: Client)
    requires PackInjective(w)
    requires SharedInv(w, s) && ClientInv(w, s, c) && Step(w, s, c, t, d) && c.phase.Uploading?
    ensures Safe(w, s, t, d)
  {
    hide SharedInv, Available;
    var rest := c.phase.rest;
    if rest == [] {
      GrowsSelf(s);
    } else {
      var n: nat :| FirstBatch(SizeIn(w.size, c.push.local), rest, n) && UploadStep(w, s, c, t, d, rest, n);
      var objects := BodyOf(c.push.local, rest[..n]);
      var body := Built(objects);
      BuiltHolds(objects);
      BuiltNamed(w, objects);
      PutPackKeeps(w, s, body, t);
      forall id | id in c.push.ids ensures Available(t, id) || id in rest[n..] || PackHolds(t, w.packHash(body), id) {
        if Available(s, id) {
          StaysAvailable(s, t, id);
        } else if id !in rest[n..] {
          assert rest == rest[..n] + rest[n..] && id in rest;
          var i :| 0 <= i < n && rest[..n][i] == id;
          assert objects[i].0 == id;
          assert Holds(objects, id);
        }
      }
      forall id | id in rest[n..] ensures id in c.push.ids { assert id in rest; }
      if c.index.Some? { StaysTrue(s, t, c.index.value); }
    }
  }

  lemma AppendingKeeps(w: World, s: Shared, c: Client, t: Shared, d: Client)
    requires SharedInv(w, s) && ClientInv(w, s, c) && Step(w, s, c, t, d) && c.phase.Appending?
    ensures Safe(w, s, t, d)
  {
    hide Ready, IndexTrue, PackHolds;
    GrowsSelf(s);
    if c.phase.pack in Listed(s) {
      forall id | PackHolds(s, c.phase.pack, id) ensures Available(s, id) {}
    }
  }

  lemma SwappingKeeps(w: World, s: Shared, c: Client, t: Shared, d: Client)
    requires SharedInv(w, s) && ClientInv(w, s, c) && Step(w, s, c, t, d) && c.phase.Swapping?
    ensures Safe(w, s, t, d)
  {
    hide SharedInv, Ready, IndexTrue, PackHolds, Available;
    var rest, pack := c.phase.rest, c.phase.pack;
    if Tag(s, PackList) == c.phase.etag {
      AppendKeeps(w, s, pack, t);
      forall id | id in c.push.ids ensures Available(t, id) || id in rest {
        if Available(s, id) {
          StaysAvailable(s, t, id);
        } else if id !in rest {
          PackStays(s, t, pack, id);
          ListedAvailable(t, pack, id);
        }
      }
    } else {
      GrowsSelf(s);
    }
  }

  lemma ListedAvailable(s: Shared, pack: string, id: string)
    requires pack in Listed(s) && PackHolds(s, pack, id)
    ensures Available(s, id)
  {}

  lemma RefKeeps(w: World, s: Shared, c: Client, t: Shared, d: Client)
    requires SharedInv(w, s) && ClientInv(w, s, c) && Step(w, s, c, t, d)
    requires c.phase.ReadingRef? || c.phase.SwappingRef? || c.phase.ReadingHead? || c.phase.WritingHead?
    ensures Safe(w, s, t, d)
  {
    hide SharedInv, IndexTrue, Available, InClosure;
    GrowsSelf(s);
    if c.phase.SwappingRef? && Tag(s, Ref(c.push.branch)) == c.phase.refTag {
      PutRefKeeps(w, s, c.push.branch, c.push.tip, t);
    } else if c.phase.WritingHead? {
      PutHeadKeeps(w, s, c.push.branch, t);
    }
    if c.index.Some? { StaysTrue(s, t, c.index.value); }
  }

  lemma MoveKeeps(w: World, s: Shared, c: Client, t: Shared, d: Client)
    requires PackInjective(w)
    requires SharedInv(w, s) && ClientInv(w, s, c) && ClientMoves(w, s, c, t, d)
    ensures Safe(w, s, t, d)
  {
    if Step(w, s, c, t, d) {
      hide SharedInv, ClientInv, Grows, Step;
      match c.phase
      case Idle => StartKeeps(w, s, c, t, d);
      case ReadingList => IndexKeeps(w, s, c, t, d);
      case ReadingPacks(_, _, _) => IndexKeeps(w, s, c, t, d);
      case Uploading(_) => UploadKeeps(w, s, c, t, d);
      case Appending(_, _, _) => AppendingKeeps(w, s, c, t, d);
      case Swapping(_, _, _, _, _) => SwappingKeeps(w, s, c, t, d);
      case _ => RefKeeps(w, s, c, t, d);
    } else {
      GrowsSelf(s);
    }
  }

  // ---- every run ----

  ghost predicate Inv(w: World, a: System) {
    SharedInv(w, a.shared) && forall i :: 0 <= i < |a.clients| ==> ClientInv(w, a.shared, a.clients[i])
  }

  /** Any step of any client keeps the invariant, and the bucket only grows. */
  lemma NextKeeps(w: World, a: System, b: System)
    requires PackInjective(w) && Inv(w, a) && Next(w, a, b)
    ensures Inv(w, b) && Grows(a.shared, b.shared)
  {
    hide SharedInv, ClientInv, Grows, ClientMoves;
    if c: Client :| c.index.None? && c.phase.Idle? && b == System(a.shared, a.clients + [c]) {
      GrowsSelf(a.shared);
      NewcomerKnowsNothing(w, a.shared, c);
    } else {
      var i :| 0 <= i < |a.clients| && |b.clients| == |a.clients| && b.clients == a.clients[i := b.clients[i]]
               && ClientMoves(w, a.shared, a.clients[i], b.shared, b.clients[i]);
      MoveKeeps(w, a.shared, a.clients[i], b.shared, b.clients[i]);
      forall j | 0 <= j < |b.clients| ensures ClientInv(w, b.shared, b.clients[j]) {
        if j != i { ClientStable(w, a.shared, b.shared, a.clients[j]); }
      }
    }
  }

  lemma NewcomerKnowsNothing(w: World, s: Shared, c: Client)
    requires c.index.None? && c.phase.Idle?
    ensures ClientInv(w, s, c)
  {}

  ghost predicate IsRun(w: World, run: seq<System>) {
    && run != [] && run[0] == System(NEW, [])
    && forall i :: 0 <= i < |run| - 1 ==> Next(w, run[i], run[i + 1])
  }

  lemma {:induction false} RunKeeps(w: World, run: seq<System>, i: nat)
    requires PackInjective(w) && IsRun(w, run) && i < |run|
    ensures Inv(w, run[i])
  {
    hide Next;
    if i > 0 {
      RunKeeps(w, run, i - 1);
      assert Next(w, run[i - 1], run[i - 1 + 1]);
      NextKeeps(w, run[i - 1], run[i]);
    }
  }

  /** From one moment of a run to a later one the bucket only grows: the pack list
      is appended to and the packs and refs stay. */
  lemma {:induction false} RunGrows(w: World, run: seq<System>, i: nat, j: nat)
    requires PackInjective(w) && IsRun(w, run) && i <= j < |run|
    ensures Grows(run[i].shared, run[j].shared)
    ensures Listed(run[i].shared) <= Listed(run[j].shared)
  {
    hide Next, Inv;
    if i < j {
      RunGrows(w, run, i, j - 1);
      RunKeeps(w, run, j - 1);
      assert Next(w, run[j - 1], run[j - 1 + 1]);
      NextKeeps(w, run[j - 1], run[j]);
      GrowsTrans(run[i].shared, run[j - 1].shared, run[j].shared);
    } else {
      GrowsSelf(run[i].shared);
    }
  }

  lemma GrowsTrans(s: Shared, t: Shared, u: Shared)
    requires Grows(s, t) && Grows(t, u)
    ensures Grows(s, u)
  {
    assert forall i :: 0 <= i < |Listed(s)| ==> Listed(u)[i] == Listed(t)[i];
  }

  /** An object of the listed pack `p` has the id and that id as its hash. */
  predicate ListedObject(w: World, s: Shared, p: string, k: nat, id: string) {
    && p in Listed(s) && PackStored(s, p)
    && k < |BodyIn(s, p)| && BodyIn(s, p)[k].0 == id && w.hash(BodyIn(s, p)[k].1) == id
  }

  /** The protocol's promise, in every state of every run: each branch's whole
      closure is in the listed packs, with the right content; the listed packs are
      there; and HEAD, once written, names a branch. */
  lemma PushesAreSafe(w: World, run: seq<System>, i: nat)
    requires PackInjective(w) && IsRun(w, run) && i < |run|
    ensures var s := run[i].shared;
            && (forall b, tip, id :: RefAt(s, b, tip) && InClosure(w.hash, UNCUT, tip, id) ==>
                 exists p, k :: ListedObject(w, s, p, k, id))
            && (forall p :: p in Listed(s) ==> PackStored(s, p))
            && (Head in s.blobs ==> s.blobs[Head].blob.HeadBlob? && Ref(s.blobs[Head].blob.branch) in s.blobs)
  {
    hide InClosure;
    RunKeeps(w, run, i);
    var s := run[i].shared;
    forall b, tip, id | RefAt(s, b, tip) && InClosure(w.hash, UNCUT, tip, id)
      ensures exists p, k :: ListedObject(w, s, p, k, id)
    {
      assert Available(s, id);
      var p :| p in Listed(s) && PackHolds(s, p, id);
      var k :| 0 <= k < |BodyIn(s, p)| && BodyIn(s, p)[k].0 == id;
      assert Genuine(w, s);
      assert ListedObject(w, s, p, k, id);
    }
  }

  /** What a client remembers is true of the bucket at every moment. */
  lemma IndexesStayTrue(w: World, run: seq<System>, i: nat, c: nat)
    requires PackInjective(w) && IsRun(w, run) && i < |run| && c < |run[i].clients|
    requires run[i].clients[c].index.Some?
    ensures forall id :: id in run[i].clients[c].index.value ==> Available(run[i].shared, id)
  {
    hide SharedInv;
    RunKeeps(w, run, i);
    assert ClientInv(w, run[i].shared, run[i].clients[c]);
  }

  // ---- branches move by compare-and-swap only ----

  /** Tags are drawn from a counter that only grows, and keys are never removed. */
  ghost predicate Ticks(s: Shared, t: Shared) {
    && s.counter <= t.counter
    && (forall k :: k in s.blobs ==> k in t.blobs)
    && (forall k :: k in t.blobs && t.blobs[k].etag <= s.counter ==> k in s.blobs && t.blobs[k] == s.blobs[k])
    && (forall k :: k in s.blobs ==> s.blobs[k].etag <= s.counter)
    && (forall k :: k in t.blobs ==> t.blobs[k].etag <= t.counter)
  }

  lemma PutTicks(s: Shared, k: Key, b: Blob)
    requires forall x :: x in s.blobs ==> s.blobs[x].etag <= s.counter
    ensures Ticks(s, AfterPut(s, k, b))
  {}

  lemma TicksSelf(s: Shared)
    requires forall x :: x in s.blobs ==> s.blobs[x].etag <= s.counter
    ensures Ticks(s, s)
  {}

  lemma TicksTrans(s: Shared, t: Shared, u: Shared)
    requires Ticks(s, t) && Ticks(t, u)
    ensures Ticks(s, u)
  {}

  lemma MoveTicks(w: World, s: Shared, c: Client, t: Shared, d: Client)
    requires ClientMoves(w, s, c, t, d) && forall x :: x in s.blobs ==> s.blobs[x].etag <= s.counter
    ensures Ticks(s, t)
  {
    hide Ticks, FirstBatch, Ready, Missing, Built, Indexed, Parses, PackStored, Listed;
    TicksSelf(s);
    forall k, b { PutTicks(s, k, b); }
  }

  lemma {:induction false} RunTicks(w: World, run: seq<System>, i: nat, j: nat)
    requires PackInjective(w) && IsRun(w, run) && i <= j < |run|
    ensures Ticks(run[i].shared, run[j].shared)
  {
    hide Ticks, ClientMoves, Inv, SharedInv, ClientInv;
    RunKeeps(w, run, i);
    EtagsBounded(w, run[i]);
    TicksSelf(run[i].shared);
    if i < j {
      RunTicks(w, run, i, j - 1);
      RunKeeps(w, run, j - 1);
      EtagsBounded(w, run[j - 1]);
      var a, b := run[j - 1], run[j - 1 + 1];
      assert Next(w, a, b);
      TicksSelf(a.shared);
      if n :| 0 <= n < |a.clients| && |b.clients| == |a.clients| && ClientMoves(w, a.shared, a.clients[n], b.shared,
          b.clients[n]) {
        MoveTicks(w, a.shared, a.clients[n], b.shared, b.clients[n]);
      }
      TicksTrans(run[i].shared, a.shared, b.shared);
    }
  }

  lemma EtagsBounded(w: World, a: System)
    requires Inv(w, a)
    ensures forall k :: k in a.shared.blobs ==> a.shared.blobs[k].etag <= a.shared.counter
  {
    hide ClientInv, Genuine, ListedStored, RefsComplete, HeadExists;
  }

  /** What is stored under the key, if anything. */
  function Blobbed(s: Shared, k: Key): Option<Stored> {
    if k in s.blobs then Some(s.blobs[k]) else None
  }

  lemma SameTag(s: Shared, t: Shared, u: Shared, k: Key)
    requires Ticks(s, t) && Ticks(t, u) && Tag(s, k) == Tag(u, k)
    ensures Blobbed(t, k) == Blobbed(s, k)
  {}

  /** A branch changes only when a client that holds the branch's present tag swaps
      in the tip it pushes. */
  lemma BranchMoves(w: World, a: System, b: System, branch: string) returns (n: nat)
    requires Next(w, a, b) && Blobbed(b.shared, Ref(branch)) != Blobbed(a.shared, Ref(branch))
    ensures n < |a.clients|
    ensures a.clients[n].phase == SwappingRef(Tag(a.shared, Ref(branch))) && a.clients[n].push.branch == branch
    ensures RefAt(b.shared, branch, a.clients[n].push.tip)
  {
    hide ClientMoves, RefAt;
    var i :| 0 <= i < |a.clients| && |b.clients| == |a.clients| && ClientMoves(w, a.shared, a.clients[i], b.shared,
        b.clients[i]);
    n := i;
    BranchMove(w, a.shared, a.clients[i], b.shared, b.clients[i], branch);
  }

  lemma BranchMove(w: World, s: Shared, c: Client, t: Shared, d: Client, branch: string)
    requires ClientMoves(w, s, c, t, d) && Blobbed(t, Ref(branch)) != Blobbed(s, Ref(branch))
    ensures c.phase == SwappingRef(Tag(s, Ref(branch))) && c.push.branch == branch
    ensures RefAt(t, branch, c.push.tip)
  {
    hide FirstBatch, Ready, Missing, Built, Indexed, Parses, Listed, PackStored, BodyOf;
    assert Step(w, s, c, t, d);
    match c.phase
    case Uploading(rest) =>
    case SwappingRef(refTag) =>
    case _ =>
  }

  /** A push that succeeds has overwritten what it had read: from the moment client
      `n` reads its branch to the moment it swaps its tip in, the branch stands
      still, so no other push to the branch is lost. */
  lemma BranchUpdatesAreSeen(w: World, run: seq<System>, n: nat, i: nat, next: nat, j: nat, last: nat)
    requires PackInjective(w) && IsRun(w, run) && next == i + 1 <= j && last == j + 1 < |run|
    requires forall k :: i <= k <= last ==> n < |run[k].clients|
    requires run[i].clients[n].phase.ReadingRef?
    requires run[next].clients[n] ==
          run[i].clients[n].(phase := SwappingRef(Tag(run[i].shared, Ref(run[i].clients[n].push.branch))))
    requires forall k :: next <= k <= j ==> run[k].clients[n] == run[next].clients[n]
    requires run[last].clients[n].phase.ReadingHead?
    ensures var p := run[i].clients[n].push;
            && (forall k :: i <= k <= j ==>
                  Blobbed(run[k].shared, Ref(p.branch)) == Blobbed(run[i].shared, Ref(p.branch)))
            && RefAt(run[last].shared, p.branch, p.tip)
  {
    hide Ticks;
    var p := run[i].clients[n].push;
    assert Next(w, run[j], run[j + 1]);
    SwapSucceeds(w, run[j], run[last], n);
    forall k | i <= k <= j
      ensures Blobbed(run[k].shared, Ref(p.branch)) == Blobbed(run[i].shared, Ref(p.branch))
    {
      RunTicks(w, run, i, k);
      RunTicks(w, run, k, j);
      SameTag(run[i].shared, run[k].shared, run[j].shared, Ref(p.branch));
    }
  }

  lemma SwapSucceeds(w: World, a: System, b: System, n: nat)
    requires Next(w, a, b) && n < |a.clients| && n < |b.clients|
    requires a.clients[n].phase.SwappingRef? && b.clients[n].phase.ReadingHead?
    ensures a.clients[n].phase.refTag == Tag(a.shared, Ref(a.clients[n].push.branch))
    ensures RefAt(b.shared, a.clients[n].push.branch, a.clients[n].push.tip)
  {
    hide FirstBatch, Ready, Missing, Built, Indexed, Parses;
    if i :| 0 <= i < |a.clients| && |b.clients| == |a.clients| && b.clients == a.clients[i := b.clients[i]]
            && ClientMoves(w, a.shared, a.clients[i], b.shared, b.clients[i]) {
      assert i == n;
    }
  }

  // ---- no pack is listed twice ----

  /** No pack is listed twice, and no client is about to list one again. */
  ghost predicate ListedOnce(a: System) {
    && Distinct(Listed(a.shared))
    && forall i :: 0 <= i < |a.clients| && a.clients[i].phase.Swapping? ==>
         a.clients[i].phase.pack !in a.clients[i].phase.seen
  }

  lemma MoveListsOnce(w: World, s: Shared, c: Client, t: Shared, d: Client)
    requires ClientMoves(w, s, c, t, d) && WellFormed(w, s) && ClientInv(w, s, c) && Distinct(Listed(s))
    requires c.phase.Swapping? ==> c.phase.pack !in c.phase.seen
    ensures Distinct(Listed(t)) && (d.phase.Swapping? ==> d.phase.pack !in d.phase.seen)
  {
    hide FirstBatch, Ready, Missing, Built, Indexed, Parses, CoveredWith, Covered, IndexTrue, BodyOf;
    if Step(w, s, c, t, d) {
      match c.phase
      case Swapping(rest, pack, seen, etag, tries) =>
        if Tag(s, PackList) == etag { assert Listed(t) == seen + [pack]; }
      case Uploading(rest) => assert Listed(t) == Listed(s);
      case _ => assert Listed(t) == Listed(s);
    }
  }

  /** In every state of every run the list of packs names each pack once. */
  lemma {:induction false} PacksListedOnce(w: World, run: seq<System>, i: nat)
    requires PackInjective(w) && IsRun(w, run) && i < |run|
    ensures ListedOnce(run[i])
  {
    hide ClientMoves, ClientInv, Genuine, ListedStored, RefsComplete, HeadExists, Listed, WellFormed;
    if i == 0 {
      NothingListed();
    } else {
      PacksListedOnce(w, run, i - 1);
      RunKeeps(w, run, i - 1);
      var a, b := run[i - 1], run[i - 1 + 1];
      assert Next(w, a, b);
      if n :| 0 <= n < |a.clients| && |b.clients| == |a.clients| && b.clients == a.clients[n := b.clients[n]]
              && ClientMoves(w, a.shared, a.clients[n], b.shared, b.clients[n]) {
        MoveListsOnce(w, a.shared, a.clients[n], b.shared, b.clients[n]);
      }
    }
  }

  lemma NothingListed()
    ensures Listed(NEW) == []
  {}
}
