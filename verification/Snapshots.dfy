// Region snapshots and the chunk cache (crates/repo/src/snapshot.rs,
// crates/repo/src/chunk_cache.rs).
module Snapshots {
  import opened Collections
  import opened Bytes
  import opened NbtValue
  import opened Region

  type Data = seq<byte>

  /** Decoding a chunk payload, the canonical bytes of a value, and the content hash. */
  datatype Codec = Codec(decode: (Scheme, Data) -> Option<Nbt>, canonical: Nbt -> Data, hash: Data -> string)

  ghost predicate Sound(c: Codec) {
    forall a, b :: c.hash(a) == c.hash(b) ==> a == b
  }

  /** The scheme byte and the hash of the raw payload. */
  datatype Key = Key(scheme: byte, payloadHash: string)

  function KeyOf(c: Codec, scheme: Scheme, payload: Data): Key {
    Key(ToByte(scheme), c.hash(payload))
  }

  lemma KeyInjective(c: Codec, s: Scheme, p: Data, t: Scheme, q: Data)
    requires Sound(c) && KeyOf(c, s, p) == KeyOf(c, t, q)
    ensures s == t && p == q
  {}

  /** The id a chunk is stored under, unless it does not decode. */
  function IdOf(c: Codec, scheme: Scheme, payload: Data): Option<string> {
    match c.decode(scheme, payload)
    case Some(v) => Some(c.hash(c.canonical(v)))
    case None => None
  }

  ghost predicate Backed(c: Codec, k: Key, id: string) {
    exists s, p :: KeyOf(c, s, p) == k && IdOf(c, s, p) == Some(id)
  }

  /** Every entry maps a payload's key to the id of its decoded canonical bytes. */
  ghost predicate Coherent(c: Codec, m: map<Key, string>) {
    forall k :: k in m ==> Backed(c, k, m[k])
  }

  /** A hit gives the id decoding would give. */
  lemma HitIsRight(c: Codec, m: map<Key, string>, s: Scheme, p: Data)
    requires Sound(c) && Coherent(c, m) && KeyOf(c, s, p) in m
    ensures IdOf(c, s, p) == Some(m[KeyOf(c, s, p)])
  {
    assert Backed(c, KeyOf(c, s, p), m[KeyOf(c, s, p)]);
    var t, q :| KeyOf(c, t, q) == KeyOf(c, s, p) && IdOf(c, t, q) == Some(m[KeyOf(c, s, p)]);
    KeyInjective(c, s, p, t, q);
  }

  class ChunkCache {
    var entries: map<Key, string>
    var dirty: bool

    constructor (loaded: map<Key, string>)
      ensures entries == loaded && !dirty
    {
      entries, dirty := loaded, false;
    }

    method Get(k: Key) returns (id: Option<string>)
      ensures id == if k in entries then Some(entries[k]) else None
    {
      id := if k in entries then Some(entries[k]) else None;
    }

    method Set(k: Key, id: string)
      modifies this
      ensures entries == old(entries)[k := id] && dirty
    {
      entries := entries[k := id];
      dirty := true;
    }
  }

  /** Where new objects go: nowhere, or into a pack beside the existing store. */
  class PackSink {
    const store: map<string, Data>
    var pack: map<string, Data>

    predicate Has(id: string)
      reads this
    {
      id in store || id in pack
    }

    /** The object an id is stored under, read from the store first. */
    function Object(id: string): Option<Data>
      reads this
    {
      if id in store then Some(store[id]) else if id in pack then Some(pack[id]) else None
    }

    /** `push_packed`: no-op if already in this pack. */
    method PushPacked(id: string, content: Data)
      modifies this
      ensures pack == if id in old(pack) then old(pack) else old(pack)[id := content]
    {
      if id !in pack {
        pack := pack[id := content];
      }
    }
  }

  /** Every object lies under the hash of its bytes. */
  ghost predicate Filed(c: Codec, m: map<string, Data>) {
    forall x :: x in m ==> c.hash(m[x]) == x
  }

  /** The pack has only grown, by objects the store does not have. */
  ghost predicate Grown(store: map<string, Data>, before: map<string, Data>, after: map<string, Data>) {
    && (forall x :: x in before ==> x in after && after[x] == before[x])
    && (forall x :: x in after && x !in before ==> x !in store)
  }

  /** What is filed under the hash of some bytes is those bytes. */
  lemma FiledIs(c: Codec, sink: PackSink, content: Data)
    requires Sound(c) && Filed(c, sink.store) && Filed(c, sink.pack) && sink.Has(c.hash(content))
    ensures sink.Object(c.hash(content)) == Some(content)
  {}

  /** `put`: hashes, and in pack mode adds what the store lacks. */
  method Put(c: Codec, content: Data, sink: PackSink?) returns (id: string)
    modifies sink
    ensures id == c.hash(content)
    ensures sink != null ==>
              sink.pack == if id in sink.store || id in old(sink.pack) then old(sink.pack)
                  else old(sink.pack)[id := content]
    ensures sink != null && old(Filed(c, sink.pack)) ==> Filed(c, sink.pack)
    ensures sink != null ==> sink.Has(id)
    ensures sink != null ==> forall x :: old(sink.Has(x)) ==> sink.Has(x)
    ensures sink != null ==> forall x :: sink.Has(x) ==> old(sink.Has(x)) || x == id
  {
    id := c.hash(content);
    if sink != null {
      if id !in sink.store {
        sink.PushPacked(id, content);
      }
    }
  }

  /** What a snapshot of the region's chunks is without any cache: ids by position,
      or none at all when some chunk does not decode. */
  function Plain(c: Codec, chunks: seq<RawChunk>): Option<map<Pos, string>> {
    if chunks == [] then Some(map[])
    else
      var ch := chunks[|chunks| - 1];
      match (Plain(c, chunks[..|chunks| - 1]), IdOf(c, ch.scheme, ch.payload))
      case (Some(m), Some(id)) => Some(m[ch.pos := id])
      case _ => None
  }

  lemma {:induction false} PlainStops(c: Codec, chunks: seq<RawChunk>, n: nat)
    requires n <= |chunks| && Plain(c, chunks[..n]).None?
    ensures Plain(c, chunks).None?
    decreases |chunks|
  {
    if n == |chunks| {
      assert chunks[..n] == chunks;
    } else {
      var init := chunks[..|chunks| - 1];
      assert init[..n] == chunks[..n];
      PlainStops(c, init, n);
    }
  }

  predicate AllTrusted(c: Codec, chunks: seq<RawChunk>, entries: map<Key, string>, sink: PackSink?) {
    forall i :: 0 <= i < |chunks| ==> Trusted(entries, sink, KeyOf(c, chunks[i].scheme, chunks[i].payload))
  }

  /** The cache has gained an entry for every chunk, and no others. */
  ghost predicate Remembers(c: Codec, chunks: seq<RawChunk>, before: map<Key, string>, after: map<Key, string>) {
    forall k :: k in after <==>
      k in before || exists i :: 0 <= i < |chunks| && KeyOf(c, chunks[i].scheme, chunks[i].payload) == k
  }

  lemma RemembersNothing(c: Codec, m: map<Key, string>)
    ensures Remembers(c, [], m, m)
  {}

  lemma RemembersNext(c: Codec, chunks: seq<RawChunk>, ch: RawChunk, before: map<Key, string>, m: map<Key, string>,
                      id: string)
    requires Remembers(c, chunks, before, m)
    ensures Remembers(c, chunks + [ch], before, m[KeyOf(c, ch.scheme, ch.payload) := id])
  {
    hide KeyOf;
    var more := chunks + [ch];
    assert more[|chunks|] == ch;
    assert forall i :: 0 <= i < |chunks| ==> more[i] == chunks[i];
  }

  /** `try_chunks` over the chunks of a readable region, in whatever order they come.
      With any coherent cache the result is the same as without one, the blob
      fallback included, and the cache stays coherent. In pack mode every id of the
      result is in the store or the new pack. */
  method TryChunks(c: Codec, chunks: seq<RawChunk>, cache: ChunkCache?,
                   sink: PackSink?) returns (r: Option<map<Pos, string>>)
    requires Sound(c)
    requires cache != null ==> Coherent(c, cache.entries)
    modifies cache, sink
    ensures r == Plain(c, chunks)
    ensures cache != null ==> Coherent(c, cache.entries)
    ensures cache != null ==> forall k :: k in old(cache.entries) ==>
          k in cache.entries && cache.entries[k] == old(cache.entries)[k]
    ensures cache != null && r.Some? ==> Remembers(c, chunks, old(cache.entries), cache.entries)
    ensures cache != null && AllTrusted(c, chunks, old(cache.entries), sink) ==>
              cache.entries == old(cache.entries) && cache.dirty == old(cache.dirty)
    ensures sink != null && r.Some? ==> forall p :: p in r.value ==> sink.Has(r.value[p])
    ensures sink != null ==> Grown(sink.store, old(sink.pack), sink.pack)
    ensures sink != null && old(Filed(c, sink.pack)) ==> Filed(c, sink.pack)
  {
    hide Sound, Coherent, IdOf, KeyOf, Filed, Remembers, AllTrusted, Keeping, Grown;
    var found: map<Pos, string> := map[];
    ghost var before, clean := if cache != null then cache.entries else map[], cache != null && !cache.dirty;
    KeepingNothing(c, chunks, sink, before, clean);
    PackSelf(sink);
    for i := 0 to |chunks|
      invariant Plain(c, chunks[..i]) == Some(found)
      invariant cache != null ==> Keeping(c, chunks, i, sink, before, clean, cache.entries, !cache.dirty)
      invariant sink != null ==> forall p :: p in found ==> sink.Has(found[p])
      invariant sink != null ==> Grown(sink.store, old(sink.pack), sink.pack)
      invariant sink != null && old(Filed(c, sink.pack)) ==> Filed(c, sink.pack)
    {
      var rc := chunks[i];
      assert chunks[..i + 1][..i] == chunks[..i];
      ghost var entries, pure := if cache != null then cache.entries else map[], cache != null && !cache.dirty;
      ghost var pack := if sink != null then sink.pack else map[];
      if cache != null { KeepingMeans(c, chunks, i, sink, before, clean, entries, pure); }
      var id := ChunkId(c, rc, cache, sink);
      if sink != null { GrownTrans(sink.store, old(sink.pack), pack, sink.pack); }
      if id.None? {
        PlainStops(c, chunks, i + 1);
        return None;
      }
      found := found[rc.pos := id.value];
      if cache != null {
        KeepingNext(c, chunks, i, i + 1, sink, before, clean, entries, pure, id.value, cache.entries, !cache.dirty);
      }
    }
    assert chunks[..|chunks|] == chunks;
    if cache != null { KeepingMeans(c, chunks, |chunks|, sink, before, clean, cache.entries, !cache.dirty); }
    return Some(found);
  }

  /** The cache after the first `n` chunks. */
  ghost predicate Keeping(c: Codec, chunks: seq<RawChunk>, n: nat, sink: PackSink?, before: map<Key, string>,
                          clean: bool, entries: map<Key, string>, pure: bool)
    requires n <= |chunks|
  {
    && Coherent(c, entries)
    && (forall k :: k in before ==> k in entries && entries[k] == before[k])
    && Remembers(c, chunks[..n], before, entries)
    && (AllTrusted(c, chunks, before, sink) ==> entries == before && pure == clean)
  }

  lemma KeepingNothing(c: Codec, chunks: seq<RawChunk>, sink: PackSink?, before: map<Key, string>, clean: bool)
    ensures Coherent(c, before) ==> Keeping(c, chunks, 0, sink, before, clean, before, clean)
  {
    RemembersNothing(c, before);
  }

  lemma KeepingMeans(c: Codec, chunks: seq<RawChunk>, n: nat, sink: PackSink?, before: map<Key, string>, clean: bool,
                     entries: map<Key, string>, pure: bool)
    requires n <= |chunks| && Keeping(c, chunks, n, sink, before, clean, entries, pure)
    ensures Coherent(c, entries) && Remembers(c, chunks[..n], before, entries)
    ensures forall k :: k in before ==> k in entries && entries[k] == before[k]
    ensures AllTrusted(c, chunks, before, sink) ==> entries == before && pure == clean
  {}

  lemma KeepingNext(c: Codec, chunks: seq<RawChunk>, n: nat, next: nat, sink: PackSink?, before: map<Key, string>,
                    clean: bool, entries: map<Key, string>, pure: bool, id: string, after: map<Key, string>, now: bool)
    requires n < |chunks| && next == n + 1 && Keeping(c, chunks, n, sink, before, clean, entries, pure)
    requires var key := KeyOf(c, chunks[n].scheme, chunks[n].payload);
             && after == entries[key := id] && now == (pure && Trusted(entries, sink, key))
    requires Sound(c) && Coherent(c, after) && IdOf(c, chunks[n].scheme, chunks[n].payload) == Some(id)
    ensures Keeping(c, chunks, next, sink, before, clean, after, now)
  {
    hide Coherent, Remembers, KeyOf, IdOf, Sound;
    var key := KeyOf(c, chunks[n].scheme, chunks[n].payload);
    RemembersNext(c, chunks[..n], chunks[n], before, entries, id);
    assert chunks[..next] == chunks[..n] + [chunks[n]];
    if key in entries { HitIsRight(c, entries, chunks[n].scheme, chunks[n].payload); }
    if AllTrusted(c, chunks, before, sink) { assert Trusted(before, sink, key); }
  }

  lemma PackSelf(sink: PackSink?)
    ensures sink != null ==> Grown(sink.store, sink.pack, sink.pack)
  {}

  lemma GrownTrans(store: map<string, Data>, a: map<string, Data>, b: map<string, Data>, d: map<string, Data>)
    requires Grown(store, a, b) && Grown(store, b, d)
    ensures Grown(store, a, d)
  {}

  /** A hit is trusted when its object is in the store, or nothing is stored. */
  predicate Trusted(entries: map<Key, string>, sink: PackSink?, key: Key) {
    key in entries && (sink != null ==> entries[key] in sink.store)
  }

  /** One chunk: a trusted hit, or decode, store and remember. */
  method ChunkId(c: Codec, rc: RawChunk, cache: ChunkCache?, sink: PackSink?) returns (id: Option<string>)
    requires Sound(c)
    requires cache != null ==> Coherent(c, cache.entries)
    modifies cache, sink
    ensures id == IdOf(c, rc.scheme, rc.payload)
    ensures cache != null ==> Coherent(c, cache.entries)
    ensures cache != null ==> forall k :: k in old(cache.entries) ==>
          k in cache.entries && cache.entries[k] == old(cache.entries)[k]
    ensures cache != null ==>
              var key := KeyOf(c, rc.scheme, rc.payload);
              && cache.entries == (if id.Some? then old(cache.entries)[key := id.value] else old(cache.entries))
              && cache.dirty == (old(cache.dirty) || (id.Some? && !Trusted(old(cache.entries), sink, key)))
    ensures sink != null ==> forall x :: old(sink.Has(x)) ==> sink.Has(x)
    ensures sink != null && id.Some? ==> sink.Has(id.value)
    ensures sink != null ==>
              match c.decode(rc.scheme, rc.payload)
              case None => sink.pack == old(sink.pack)
              case Some(v) =>
                var x := c.hash(c.canonical(v));
                sink.pack == if x in sink.store || x in old(sink.pack) then old(sink.pack)
                    else old(sink.pack)[x := c.canonical(v)]
    ensures sink != null ==> Grown(sink.store, old(sink.pack), sink.pack)
    ensures sink != null && old(Filed(c, sink.pack)) ==> Filed(c, sink.pack)
  {
    hide Sound, Coherent, KeyOf, Filed;
    var key := KeyOf(c, rc.scheme, rc.payload);
    if cache != null {
      var hit := cache.Get(key);
      if hit.Some? {
        HitIsRight(c, cache.entries, rc.scheme, rc.payload);
        if sink == null || hit.value in sink.store {
          return hit;
        }
      }
    }
    var value := c.decode(rc.scheme, rc.payload);
    if value.None? {
      return None;
    }
    var canon := c.canonical(value.value);
    var stored := Put(c, canon, sink);
    if cache != null {
      Remembered(c, cache.entries, rc.scheme, rc.payload, stored);
      cache.Set(key, stored);
    }
    return Some(stored);
  }

  lemma Remembered(c: Codec, m: map<Key, string>, s: Scheme, p: Data, id: string)
    requires Sound(c) && Coherent(c, m) && IdOf(c, s, p) == Some(id)
    ensures Coherent(c, m[KeyOf(c, s, p) := id])
    ensures KeyOf(c, s, p) in m ==> m[KeyOf(c, s, p)] == id
  {
    hide IdOf, KeyOf;
    var k := KeyOf(c, s, p);
    if k in m { HitIsRight(c, m, s, p); }
    assert Backed(c, k, id);
  }

  predicate HasPosition(chunks: seq<RawChunk>, p: Pos) {
    exists i :: 0 <= i < |chunks| && chunks[i].pos == p
  }

  predicate DistinctPositions(chunks: seq<RawChunk>) {
    forall i, j :: 0 <= i < j < |chunks| ==> chunks[i].pos != chunks[j].pos
  }

  /** The map has the id of every chunk, and nothing else. */
  ghost predicate Maps(c: Codec, chunks: seq<RawChunk>, m: map<Pos, string>) {
    && (forall i :: 0 <= i < |chunks| ==>
        chunks[i].pos in m && Some(m[chunks[i].pos]) == IdOf(c, chunks[i].scheme, chunks[i].payload))
    && (forall p :: p in m ==> HasPosition(chunks, p))
  }

  lemma MapsNext(c: Codec, chunks: seq<RawChunk>, m: map<Pos, string>, ch: RawChunk, id: string)
    requires Maps(c, chunks, m) && DistinctPositions(chunks + [ch]) && IdOf(c, ch.scheme, ch.payload) == Some(id)
    ensures Maps(c, chunks + [ch], m[ch.pos := id])
  {
    hide IdOf;
    var more := chunks + [ch];
    assert more[|chunks|] == ch;
    forall i | 0 <= i < |chunks| ensures more[i] == chunks[i] && chunks[i].pos != ch.pos {}
    forall p | p in m[ch.pos := id] ensures HasPosition(more, p) {
      if p != ch.pos {
        var i :| 0 <= i < |chunks| && chunks[i].pos == p;
        assert more[i].pos == p;
      }
    }
  }

  /** What the plain snapshot holds, for distinct positions: the id of every chunk,
      unless some chunk does not decode. */
  lemma {:induction false} PlainExact(c: Codec, chunks: seq<RawChunk>)
    requires DistinctPositions(chunks)
    ensures Plain(c, chunks).Some? <==>
              forall i :: 0 <= i < |chunks| ==> IdOf(c, chunks[i].scheme, chunks[i].payload).Some?
    ensures Plain(c, chunks).Some? ==> Maps(c, chunks, Plain(c, chunks).value)
  {
    hide IdOf, Maps;
    if chunks != [] {
      var init, last := chunks[..|chunks| - 1], chunks[|chunks| - 1];
      PlainExact(c, init);
      assert chunks == init + [last];
      if Plain(c, chunks).Some? {
        MapsNext(c, init, Plain(c, init).value, last, IdOf(c, last.scheme, last.payload).value);
      }
    } else {
      MapsNone(c);
    }
  }

  lemma MapsNone(c: Codec)
    ensures Maps(c, [], map[])
  {}

  // ---- a whole region file ----

  datatype Kind = RegionKind(ids: map<Pos, string>) | BlobKind(id: string)

  /** The ids of a region's chunks, unless some chunk does not decode. */
  function RegionIds(c: Codec, m: map<Pos, RawChunk>): Option<map<Pos, string>> {
    if forall p :: p in m ==> IdOf(c, m[p].scheme, m[p].payload).Some?
    then Some(map p | p in m :: IdOf(c, m[p].scheme, m[p].payload).value)
    else None
  }

  /** What a region file is snapshot as: its chunks' ids, or one blob when it cannot
      be read or a chunk cannot be decoded. */
  function KindOf(c: Codec, bytes: Data, beside: Beside, r: Pos): Kind {
    var parsed := if |bytes| < 2 * SECTOR then Ok(map[]) else ReadSlots(bytes, beside, r, 1024);
    match parsed
    case Err => BlobKind(c.hash(bytes))
    case Ok(m) => match RegionIds(c, m) case Some(ids) => RegionKind(ids) case None => BlobKind(c.hash(bytes))
  }

  /** An enumeration of the chunks of a region. */
  ghost predicate Lists(chunks: seq<RawChunk>, m: map<Pos, RawChunk>) {
    && DistinctPositions(chunks)
    && (forall i :: 0 <= i < |chunks| ==> chunks[i].pos in m && m[chunks[i].pos] == chunks[i])
    && (forall p :: p in m ==> HasPosition(chunks, p))
  }

  /** The order in which the chunks are visited does not matter. */
  lemma PlainIsRegionIds(c: Codec, chunks: seq<RawChunk>, m: map<Pos, RawChunk>)
    requires Lists(chunks, m)
    ensures Plain(c, chunks) == RegionIds(c, m)
  {
    hide IdOf, Plain;
    PlainExact(c, chunks);
    forall p | p in m ensures exists i :: 0 <= i < |chunks| && chunks[i].pos == p && m[p] == chunks[i] {
      assert HasPosition(chunks, p);
      var i :| 0 <= i < |chunks| && chunks[i].pos == p;
    }
    if Plain(c, chunks).Some? {
      MapsAreIds(c, chunks, m, Plain(c, chunks).value);
    } else {
      var i :| 0 <= i < |chunks| && IdOf(c, chunks[i].scheme, chunks[i].payload).None?;
      assert chunks[i].pos in m && IdOf(c, m[chunks[i].pos].scheme, m[chunks[i].pos].payload).None?;
    }
  }

  lemma MapsAreIds(c: Codec, chunks: seq<RawChunk>, m: map<Pos, RawChunk>, ids: map<Pos, string>)
    requires Lists(chunks, m) && Maps(c, chunks, ids)
    ensures RegionIds(c, m) == Some(ids)
  {
    hide IdOf;
    forall p | p in m ensures p in ids && IdOf(c, m[p].scheme, m[p].payload) == Some(ids[p]) {
      assert HasPosition(chunks, p);
      var i :| 0 <= i < |chunks| && chunks[i].pos == p;
    }
    forall p | p in ids ensures p in m {
      assert HasPosition(chunks, p);
      var i :| 0 <= i < |chunks| && chunks[i].pos == p;
    }
    assert RegionIds(c, m).value == ids;
  }

  lemma {:induction false} ReadUnderPosition(bytes: Data, beside: Beside, r: Pos, n: nat)
    requires |bytes| >= 2 * SECTOR && n <= 1024 && ReadSlots(bytes, beside, r, n).Ok?
    ensures forall p :: p in ReadSlots(bytes, beside, r, n).value ==> ReadSlots(bytes, beside, r, n).value[p].pos == p
  {
    hide ReadSlot;
    if n > 0 { ReadUnderPosition(bytes, beside, r, n - 1); }
  }

  /** The region file holds a chunk at the position, which decodes to the value. */
  ghost predicate DecodesTo(c: Codec, bytes: Data, beside: Beside, r: Pos, p: Pos, v: Nbt) {
    && |bytes| >= 2 * SECTOR
    && exists i, ch ::
      0 <= i < 1024 && HeldAt(bytes, beside, r, i, ch) && ch.pos == p && c.decode(ch.scheme, ch.payload) == Some(v)
  }

  /** The file is no readable region: some place leads to a file that must not be
      read, or holds a chunk that does not decode. */
  ghost predicate Undecodable(c: Codec, bytes: Data, beside: Beside, r: Pos) {
    && |bytes| >= 2 * SECTOR
    && exists i :: 0 <= i < 1024 && (Refused(bytes, beside, r, i) || Opaque(c, bytes, beside, r, i))
  }

  ghost predicate Opaque(c: Codec, bytes: Data, beside: Beside, r: Pos, i: nat)
    requires |bytes| >= 2 * SECTOR && i < 1024
  {
    exists ch :: HeldAt(bytes, beside, r, i, ch) && c.decode(ch.scheme, ch.payload).None?
  }

  /** The map has the hash of the canonical bytes of every chunk the file holds, and
      nothing else. */
  ghost predicate HashesOf(c: Codec, bytes: Data, beside: Beside, r: Pos, ids: map<Pos, string>) {
    && (forall p, v :: DecodesTo(c, bytes, beside, r, p, v) ==> p in ids && ids[p] == c.hash(c.canonical(v)))
    && (forall p :: p in ids ==> exists v :: DecodesTo(c, bytes, beside, r, p, v) && ids[p] == c.hash(c.canonical(v)))
  }

  /** A region file is one blob exactly when it is no readable region; otherwise it
      has an id for every chunk it holds, the hash of the decoded chunk's canonical
      bytes. */
  lemma KindExact(c: Codec, bytes: Data, beside: Beside, r: Pos)
    ensures Undecodable(c, bytes, beside, r) ==> KindOf(c, bytes, beside, r) == BlobKind(c.hash(bytes))
    ensures !Undecodable(c, bytes, beside, r) ==>
              var kind := KindOf(c, bytes, beside, r);
              kind.RegionKind? && HashesOf(c, bytes, beside, r, kind.ids)
  {
    hide ReadSlots, HeldAt, Refused;
    if |bytes| >= 2 * SECTOR {
      SlotsMean(bytes, beside, r, 1024);
      match ReadSlots(bytes, beside, r, 1024) {
        case Err =>
        case Ok(m) =>
          forall p | p in m
            ensures exists i :: 0 <= i < 1024 && HeldAt(bytes, beside, r, i, m[p]) && m[p].pos == p
          {}
          ReadableKind(c, bytes, beside, r, m);
      }
    }
  }

  lemma ReadableKind(c: Codec, bytes: Data, beside: Beside, r: Pos, m: map<Pos, RawChunk>)
    requires |bytes| >= 2 * SECTOR && HoldsTo(bytes, beside, r, 1024, Ok(m))
    ensures RegionIds(c, m).None? <==> Undecodable(c, bytes, beside, r)
    ensures RegionIds(c, m).Some? ==> HashesOf(c, bytes, beside, r, RegionIds(c, m).value)
  {
    hide HeldAt, Refused;
    if RegionIds(c, m).None? {
      var p :| p in m && IdOf(c, m[p].scheme, m[p].payload).None?;
      var i :| 0 <= i < 1024 && HeldAt(bytes, beside, r, i, m[p]);
      assert Opaque(c, bytes, beside, r, i);
    } else {
      var ids := RegionIds(c, m).value;
      forall p, v | DecodesTo(c, bytes, beside, r, p, v) ensures p in ids && ids[p] == c.hash(c.canonical(v)) {}
      forall p | p in ids ensures exists v :: DecodesTo(c, bytes, beside, r, p, v) && ids[p] == c.hash(c.canonical(v)) {
        var v := c.decode(m[p].scheme, m[p].payload).value;
        assert DecodesTo(c, bytes, beside, r, p, v);
      }
    }
  }

  /** What the ids of a snapshot are stored with: the canonical bytes of the decoded
      chunks, or the file as it is. */
  ghost predicate Backs(c: Codec, sink: PackSink, bytes: Data, beside: Beside, r: Pos, kind: Kind)
    reads sink
  {
    match kind
    case RegionKind(ids) =>
      forall p :: p in ids ==>
        exists v :: DecodesTo(c, bytes, beside, r, p, v) && sink.Object(ids[p]) == Some(c.canonical(v))
    case BlobKind(id) => sink.Object(id) == Some(bytes)
  }

  lemma FiledBacks(c: Codec, sink: PackSink, bytes: Data, beside: Beside, r: Pos, kind: Kind)
    requires Sound(c) && Filed(c, sink.store) && Filed(c, sink.pack) && kind == KindOf(c, bytes, beside, r)
    requires match kind
             case RegionKind(ids) => forall p :: p in ids ==> sink.Has(ids[p])
             case BlobKind(id) => sink.Has(id)
    ensures Backs(c, sink, bytes, beside, r, kind)
  {
    hide DecodesTo, Undecodable, Filed, Sound;
    KindExact(c, bytes, beside, r);
    BlobIsFile(c, bytes, beside, r);
    match kind
    case BlobKind(id) => FiledIs(c, sink, bytes);
    case RegionKind(ids) =>
      forall p | p in ids
        ensures exists v :: DecodesTo(c, bytes, beside, r, p, v) && sink.Object(ids[p]) == Some(c.canonical(v))
      {
        var v :| DecodesTo(c, bytes, beside, r, p, v) && ids[p] == c.hash(c.canonical(v));
        FiledIs(c, sink, c.canonical(v));
      }
  }

  lemma BlobIsFile(c: Codec, bytes: Data, beside: Beside, r: Pos)
    ensures KindOf(c, bytes, beside, r).BlobKind? ==> KindOf(c, bytes, beside, r).id == c.hash(bytes)
  {
    hide ReadSlots;
  }

  /** Snapshots a region file. Neither a coherent cache nor the order in which the
      chunks are visited shows in the result. In pack mode every id it names is in
      the store or the new pack, under the bytes it is the hash of, if store and
      pack were filed by hash before; the pack only grows and stays filed. */
  method SnapshotRegion(c: Codec, bytes: Data, beside: Beside, r: Pos, cache: ChunkCache?,
                        sink: PackSink?) returns (kind: Kind)
    requires Sound(c)
    requires cache != null ==> Coherent(c, cache.entries)
    modifies cache, sink
    ensures kind == KindOf(c, bytes, beside, r)
    ensures cache != null ==> Coherent(c, cache.entries)
    ensures sink != null ==>
              match kind
              case RegionKind(ids) => forall p :: p in ids ==> sink.Has(ids[p])
              case BlobKind(id) => sink.Has(id)
    ensures sink != null ==> Grown(sink.store, old(sink.pack), sink.pack)
    ensures sink != null && old(Filed(c, sink.pack)) ==> Filed(c, sink.pack)
    ensures sink != null && Filed(c, sink.store) && old(Filed(c, sink.pack)) ==>
              Backs(c, sink, bytes, beside, r, kind)
  {
    hide Sound, Coherent, ReadSlots, RegionIds, Plain, Filed, Backs, HoldsTo;
    var region := Parse(bytes, beside, r);
    if region.Ok? {
      if |bytes| >= 2 * SECTOR { ReadUnderPosition(bytes, beside, r, 1024); }
      var chunks := Enumerate(region.value);
      PlainIsRegionIds(c, chunks, region.value);
      var ids := TryChunks(c, chunks, cache, sink);
      if ids.Some? {
        kind := RegionKind(ids.value);
        if sink != null && Filed(c, sink.store) && old(Filed(c, sink.pack)) {
          FiledBacks(c, sink, bytes, beside, r, kind);
        }
        return;
      }
    }
    var id := Put(c, bytes, sink);
    kind := BlobKind(id);
    if sink != null && Filed(c, sink.store) && old(Filed(c, sink.pack)) {
      FiledBacks(c, sink, bytes, beside, r, kind);
    }
  }

  /** The chunks of a region in some order. */
  method Enumerate(m: map<Pos, RawChunk>) returns (chunks: seq<RawChunk>)
    requires forall p :: p in m ==> m[p].pos == p
    ensures Lists(chunks, m)
  {
    chunks := [];
    var todo := m.Keys;
    while todo != {}
      invariant todo <= m.Keys
      invariant DistinctPositions(chunks)
      invariant forall i :: 0 <= i < |chunks| ==>
                  chunks[i].pos in m && m[chunks[i].pos] == chunks[i] && chunks[i].pos !in todo
      invariant forall p :: p in m && p !in todo ==> HasPosition(chunks, p)
      decreases |todo|
    {
      var p :| p in todo;
      ghost var before := chunks;
      chunks := chunks + [m[p]];
      todo := todo - {p};
      assert chunks[|before|].pos == p;
      forall q | q in m && q !in todo ensures HasPosition(chunks, q) {
        if q != p {
          assert HasPosition(before, q);
          var i :| 0 <= i < |before| && before[i].pos == q;
          assert chunks[i].pos == q;
        }
      }
    }
  }
}
