// What the object store holds (crates/repo/src/manifest.rs) and how it is read
// (crates/repo/src/repository.rs, crates/repo/src/fsck.rs).
module Objects {
  import opened Collections

  /** A snapshot of a world: chunk ids by region file and position, file ids by path. */
  datatype Manifest = Manifest(
    regions: map<string, map<string, string>>,
    nbt: map<string, string>,
    blobs: map<string, string>,
    emptyDirs: seq<string>)

  const EMPTY := Manifest(map[], map[], map[], [])

  datatype Commit = Commit(tree: string, parents: seq<string>, message: string, author: string, time: string)

  /** The content of an object: its bytes, and what each parser makes of them. A
      commit's JSON is also readable as an (empty) manifest, since every manifest
      field has a default; the text of a commit or manifest is represented by
      the parsed value. `tag` is the target of an annotated tag. */
  datatype Content = Content(raw: string, tag: Option<string>, commit: Option<Commit>, manifest: Option<Manifest>)

  function CommitContent(c: Commit): Content {
    Content("", None, Some(c), Some(EMPTY))
  }

  function ManifestContent(m: Manifest): Content {
    Content("", None, None, Some(m))
  }

  type Store = map<string, Content>

  /** The lengths of stored objects. */
  function SizeIn(size: Content -> nat, s: Store): string -> nat {
    (id: string) => if id in s then size(s[id]) else 0
  }

  ghost predicate Injective(hash: Content -> string) {
    forall a, b :: hash(a) == hash(b) ==> a == b
  }

  /** Every object is stored under the hash of its content. */
  ghost predicate Addressed(hash: Content -> string, s: Store) {
    forall id :: id in s ==> hash(s[id]) == id
  }

  function At<T>(m: map<string, T>, k: string): Option<T> {
    if k in m then Some(m[k]) else None
  }

  function ReadTag(s: Store, id: string): Option<string> {
    if id in s then s[id].tag else None
  }

  function ReadCommit(s: Store, id: string): Option<Commit> {
    if id in s then s[id].commit else None
  }

  function ReadManifest(s: Store, id: string): Option<Manifest> {
    if id in s then s[id].manifest else None
  }

  /** `parents_of`: cut off at the shallow boundary, an error for an unreadable commit. */
  function ParentsOf(s: Store, shallow: set<string>, id: string): Result<seq<string>> {
    if id in shallow then Ok([])
    else
      match ReadCommit(s, id)
      case Some(c) => Ok(c.parents)
      case None => Err
  }

  // ---- the entries of a manifest ----

  /** One place a manifest can hold an object id at. */
  datatype Slot = Chunk(rel: string, pos: string) | Loose(path: string) | Blob(path: string)

  function Chunks(m: Manifest, rel: string): map<string, string> {
    if rel in m.regions then m.regions[rel] else map[]
  }

  function Entry(m: Manifest, slot: Slot): Option<string> {
    match slot
    case Chunk(rel, pos) => At(Chunks(m, rel), pos)
    case Loose(path) => At(m.nbt, path)
    case Blob(path) => At(m.blobs, path)
  }

  // ---- the order of entries ----

  function KindRank(slot: Slot): nat {
    match slot case Chunk(_, _) => 0 case Loose(_) => 1 case Blob(_) => 2
  }

  function Folder(slot: Slot): string {
    if slot.Chunk? then slot.rel else ""
  }

  function Place(slot: Slot): string {
    match slot case Chunk(_, pos) => pos case Loose(path) => path case Blob(path) => path
  }

  predicate StrictlyBelow(x: string, y: string) {
    Below(x, y) && x != y
  }

  /** Chunks by region and position, then loose files, then other files by path. */
  predicate Precedes(x: Slot, y: Slot) {
    || KindRank(x) < KindRank(y)
    || (KindRank(x) == KindRank(y) && (StrictlyBelow(Folder(x), Folder(y))
                                       || (Folder(x) == Folder(y) && StrictlyBelow(Place(x), Place(y)))))
  }

  predicate InOrder(slots: seq<Slot>) {
    forall i, j :: 0 <= i < j < |slots| ==> Precedes(slots[i], slots[j])
  }

  predicate AllPrecede(x: seq<Slot>, y: seq<Slot>) {
    forall i, j :: 0 <= i < |x| && 0 <= j < |y| ==> Precedes(x[i], y[j])
  }

  datatype Kind = ChunkIn(rel: string) | LooseFile | BlobFile

  function SlotIn(kind: Kind, k: string): Slot {
    match kind case ChunkIn(rel) => Chunk(rel, k) case LooseFile => Loose(k) case BlobFile => Blob(k)
  }

  lemma InOrderAppend(a: seq<Slot>, b: seq<Slot>)
    requires InOrder(a) && InOrder(b) && AllPrecede(a, b)
    ensures InOrder(a + b)
  {
    hide Precedes;
  }

  lemma NoSlots()
    ensures InOrder([])
  {}

  lemma KindsPrecede(c: seq<Slot>, n: seq<Slot>, d: seq<Slot>)
    requires forall slot :: slot in c ==> slot.Chunk?
    requires forall slot :: slot in n ==> slot.Loose?
    requires forall slot :: slot in d ==> slot.Blob?
    ensures AllPrecede(c, n) && AllPrecede(c + n, d)
  {
    forall i, j | 0 <= i < |c + n| && 0 <= j < |d| ensures Precedes((c + n)[i], d[j]) {
      assert (c + n)[i] in c + n && d[j] in d;
    }
  }

  lemma LaterRegion(rels: seq<string>, earlier: seq<Slot>, here: seq<Slot>, r: string)
    requires rels != [] && r == rels[|rels| - 1] && Ascending(rels) && Distinct(rels)
    requires forall slot :: slot in earlier ==> slot.Chunk? && slot.rel in rels[..|rels| - 1]
    requires forall slot :: slot in here ==> slot.Chunk? && slot.rel == r
    ensures AllPrecede(earlier, here)
  {
    forall i, j | 0 <= i < |earlier| && 0 <= j < |here| ensures Precedes(earlier[i], here[j]) {
      assert earlier[i] in earlier && here[j] in here;
      var n :| 0 <= n < |rels| - 1 && rels[..|rels| - 1][n] == earlier[i].rel;
      assert rels[n] == earlier[i].rel;
    }
  }

  /** The values of a map in key order. */
  function Values(m: map<string, string>, keys: seq<string>): (r: seq<string>)
    requires forall k :: k in keys ==> k in m
    ensures forall x :: x in r <==> exists k :: k in keys && m[k] == x
  {
    if keys == [] then []
    else
      var r := Values(m, keys[..|keys| - 1]) + [m[keys[|keys| - 1]]];
      assert forall k :: k in keys <==> k in keys[..|keys| - 1] || k == keys[|keys| - 1];
      r
  }

  function RegionValues(m: map<string, map<string, string>>, rels: seq<string>): seq<string>
    requires forall rel :: rel in rels ==> rel in m
  {
    if rels == [] then []
    else
      var last := m[rels[|rels| - 1]];
      RegionValues(m, rels[..|rels| - 1]) + Values(last, Sorted(last.Keys))
  }

  /** `manifest_ids`: every leaf id, chunks first. */
  function ManifestIds(m: Manifest): seq<string> {
    RegionValues(m.regions, Sorted(m.regions.Keys)) + Values(m.nbt, Sorted(m.nbt.Keys)) +
        Values(m.blobs, Sorted(m.blobs.Keys))
  }

  lemma {:induction false} InRegionValues(m: map<string, map<string, string>>, rels: seq<string>, id: string)
    requires forall rel :: rel in rels ==> rel in m
    ensures id in RegionValues(m, rels) <==> exists rel, pos :: rel in rels && pos in m[rel] && m[rel][pos] == id
  {
    if rels != [] {
      var init, r := rels[..|rels| - 1], rels[|rels| - 1];
      InRegionValues(m, init, id);
      assert forall x :: x in rels <==> x in init || x == r;
    }
  }

  /** A manifest's ids are exactly what its entries hold. */
  lemma InManifestIds(m: Manifest, id: string)
    ensures id in ManifestIds(m) <==> exists slot :: Entry(m, slot) == Some(id)
  {
    hide Sorted, Distinct, Ascending, RegionValues, Values;
    InRegionValues(m.regions, Sorted(m.regions.Keys), id);
    var a := RegionValues(m.regions, Sorted(m.regions.Keys));
    var b := Values(m.nbt, Sorted(m.nbt.Keys));
    var c := Values(m.blobs, Sorted(m.blobs.Keys));
    if id in a {
      var rel, pos :| rel in m.regions && pos in m.regions[rel] && m.regions[rel][pos] == id;
      assert Entry(m, Chunk(rel, pos)) == Some(id);
    }
    if id in b {
      var k :| k in m.nbt && m.nbt[k] == id;
      assert Entry(m, Loose(k)) == Some(id);
    }
    if id in c {
      var k :| k in m.blobs && m.blobs[k] == id;
      assert Entry(m, Blob(k)) == Some(id);
    }
    forall slot | Entry(m, slot) == Some(id) ensures id in ManifestIds(m) {
      match slot
      case Chunk(rel, pos) => assert id in a;
      case Loose(path) => assert id in b;
      case Blob(path) => assert id in c;
    }
  }

  /** `ids` is what the entries `slots` hold, one by one. */
  ghost predicate HeldBy(m: Manifest, slots: seq<Slot>, ids: seq<string>) {
    |slots| == |ids| && forall i :: 0 <= i < |slots| ==> Entry(m, slots[i]) == Some(ids[i])
  }

  lemma HeldAppend(m: Manifest, a: seq<Slot>, x: seq<string>, b: seq<Slot>, y: seq<string>)
    requires HeldBy(m, a, x) && HeldBy(m, b, y)
    ensures HeldBy(m, a + b, x + y)
  {
    hide Entry;
  }

  lemma {:induction false} ValueSlots(m: Manifest, entries: map<string, string>, keys: seq<string>, kind: Kind)
    returns (slots: seq<Slot>)
    requires Ascending(keys) && Distinct(keys) && forall k :: k in keys ==> k in entries
    requires forall k :: k in keys ==> Entry(m, SlotIn(kind, k)) == Some(entries[k])
    ensures HeldBy(m, slots, Values(entries, keys)) && InOrder(slots)
    ensures forall slot :: slot in slots <==> exists k :: k in keys && slot == SlotIn(kind, k)
  {
    if keys == [] {
      slots := [];
    } else {
      var init, k := keys[..|keys| - 1], keys[|keys| - 1];
      var earlier := ValueSlots(m, entries, init, kind);
      assert forall x :: x in keys <==> x in init || x == k;
      var last := SlotIn(kind, k);
      slots := earlier + [last];
      forall i | 0 <= i < |earlier| ensures Precedes(earlier[i], last) {
        assert earlier[i] in earlier;
        var x :| x in init && earlier[i] == SlotIn(kind, x);
        var n :| 0 <= n < |init| && init[n] == x;
        assert keys[n] == x && n < |keys| - 1;
      }
      InOrderAppend(earlier, [last]);
      HeldAppend(m, earlier, Values(entries, init), [last], [entries[k]]);
    }
  }

  lemma {:induction false} RegionSlots(m: Manifest, rels: seq<string>) returns (slots: seq<Slot>)
    requires Ascending(rels) && Distinct(rels) && forall rel :: rel in rels ==> rel in m.regions
    ensures HeldBy(m, slots, RegionValues(m.regions, rels)) && InOrder(slots)
    ensures forall slot :: slot in slots <==> slot.Chunk? && slot.rel in rels && Entry(m, slot).Some?
  {
    hide InOrder, AllPrecede, HeldBy, Values;
    if rels == [] {
      slots := [];
      NoSlots();
      NothingHeldBy(m);
    } else {
      var init, r := rels[..|rels| - 1], rels[|rels| - 1];
      var earlier := RegionSlots(m, init);
      assert forall x :: x in rels <==> x in init || x == r;
      var here := ValueSlots(m, m.regions[r], Sorted(m.regions[r].Keys), ChunkIn(r));
      forall slot ensures slot in here <==> slot.Chunk? && slot.rel == r && Entry(m, slot).Some? {
        if slot.Chunk? && slot.rel == r { assert slot == SlotIn(ChunkIn(r), slot.pos); }
      }
      LaterRegion(rels, earlier, here, r);
      InOrderAppend(earlier, here);
      HeldAppend(m, earlier, RegionValues(m.regions, init), here, Values(m.regions[r], Sorted(m.regions[r].Keys)));
      slots := earlier + here;
    }
  }

  lemma NothingHeldBy(m: Manifest)
    ensures HeldBy(m, [], [])
  {}

  /** The ids are those of all entries, one for each, chunks before loose files
      before other files and in order of region, position and path. */
  lemma IdsInOrder(m: Manifest) returns (slots: seq<Slot>)
    ensures HeldBy(m, slots, ManifestIds(m)) && InOrder(slots)
    ensures forall slot :: slot in slots <==> Entry(m, slot).Some?
  {
    hide Sorted, Distinct, Ascending, RegionValues, Values, InOrder, AllPrecede, HeldBy;
    var c := RegionSlots(m, Sorted(m.regions.Keys));
    var n := ValueSlots(m, m.nbt, Sorted(m.nbt.Keys), LooseFile);
    var d := ValueSlots(m, m.blobs, Sorted(m.blobs.Keys), BlobFile);
    KindsPrecede(c, n, d);
    InOrderAppend(c, n);
    InOrderAppend(c + n, d);
    var x, y := RegionValues(m.regions, Sorted(m.regions.Keys)), Values(m.nbt, Sorted(m.nbt.Keys));
    HeldAppend(m, c, x, n, y);
    HeldAppend(m, c + n, x + y, d, Values(m.blobs, Sorted(m.blobs.Keys)));
    slots := c + n + d;
    forall slot ensures slot in slots <==> Entry(m, slot).Some? {
      match slot
      case Chunk(rel, pos) =>
      case Loose(path) => assert slot == SlotIn(LooseFile, path);
      case Blob(path) => assert slot == SlotIn(BlobFile, path);
    }
  }

  /** The loops of `manifest_ids`. */
  method CollectIds(m: Manifest) returns (ids: seq<string>)
    ensures ids == ManifestIds(m)
  {
    hide Sorted, Distinct, Ascending;
    var rels := Sorted(m.regions.Keys);
    ids := [];
    for i := 0 to |rels|
      invariant ids == RegionValues(m.regions, rels[..i])
    {
      assert rels[..i + 1][..i] == rels[..i];
      var chunks := CollectValues(m.regions[rels[i]]);
      ids := ids + chunks;
    }
    assert rels[..|rels|] == rels;
    var loose := CollectValues(m.nbt);
    var blobs := CollectValues(m.blobs);
    ids := ids + loose + blobs;
  }

  method CollectValues(m: map<string, string>) returns (ids: seq<string>)
    ensures ids == Values(m, Sorted(m.Keys))
  {
    hide Distinct, Ascending;
    var keys := Sorted(m.Keys);
    ids := [];
    for i := 0 to |keys|
      invariant ids == Values(m, keys[..i])
    {
      assert keys[..i + 1][..i] == keys[..i];
      ids := ids + [m[keys[i]]];
    }
    assert keys[..|keys|] == keys;
  }
}
