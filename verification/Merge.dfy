// The three-way merge of manifests (crates/repo/src/merge.rs).
module Merge {
  import opened Collections
  import opened Objects

  /** `three_way`: what becomes of one entry. */
  function ThreeWay(base: Option<string>, ours: Option<string>, theirs: Option<string>): Result<Option<string>> {
    if ours == theirs then Ok(ours)
    else if ours == base then Ok(theirs)
    else if theirs == base then Ok(ours)
    else Err
  }

  function Decide(b: map<string, string>, o: map<string, string>, t: map<string, string>,
                  k: string): Result<Option<string>> {
    ThreeWay(At(b, k), At(o, k), At(t, k))
  }

  function Keys3<T>(b: map<string, T>, o: map<string, T>, t: map<string, T>): set<string> {
    b.Keys + o.Keys + t.Keys
  }

  /** The entries among `keys` that survive. */
  function Kept(b: map<string, string>, o: map<string, string>, t: map<string, string>,
                keys: set<string>): map<string, string> {
    map k | k in keys && Decide(b, o, t, k).Ok? && Decide(b, o, t, k).value.Some? :: Decide(b, o, t, k).value.value
  }

  function Combined(b: map<string, string>, o: map<string, string>, t: map<string, string>): map<string, string> {
    Kept(b, o, t, Keys3(b, o, t))
  }

  /** The labelled keys both sides changed differently, in order. */
  function Clashes(b: map<string, string>, o: map<string, string>, t: map<string, string>, keys: seq<string>,
                   lead: string): seq<string> {
    if keys == [] then []
    else
      var k := keys[|keys| - 1];
      Clashes(b, o, t, keys[..|keys| - 1], lead) + (if Decide(b, o, t, k).Err? then [lead + k] else [])
  }

  function Elements(s: seq<string>): set<string> {
    set x | x in s
  }

  lemma ElementsSorted(s: set<string>)
    ensures Elements(Sorted(s)) == s
  {
    hide Sorted, Distinct, Ascending;
  }

  lemma KeptNone(b: map<string, string>, o: map<string, string>, t: map<string, string>)
    ensures Kept(b, o, t, {}) == map[]
  {}

  lemma RegionsNone(b: Manifest, o: Manifest, t: Manifest)
    ensures Regions3(b, o, t, {}) == map[]
  {}

  lemma KeptAdd(b: map<string, string>, o: map<string, string>, t: map<string, string>, keys: set<string>, k: string)
    requires k !in keys
    ensures Kept(b, o, t, keys + {k}) ==
            match Decide(b, o, t, k) case Ok(Some(h)) => Kept(b, o, t, keys)[k := h] case _ => Kept(b, o, t, keys)
  {
    hide Decide;
  }

  /** `merge_map`, and the same loop over the chunks of one region. */
  method MergeMap(b: map<string, string>, o: map<string, string>, t: map<string, string>, lead: string,
                  found: seq<string>)
    returns (out: map<string, string>, conflicts: seq<string>)
    ensures out == Combined(b, o, t)
    ensures conflicts == found + Clashes(b, o, t, Sorted(Keys3(b, o, t)), lead)
  {
    hide Sorted, Least, Distinct, Ascending, Decide, Kept;
    var keys := Sorted(Keys3(b, o, t));
    out, conflicts := map[], found;
    ghost var done: set<string> := {};
    KeptNone(b, o, t);
    for i := 0 to |keys|
      invariant done == Elements(keys[..i])
      invariant out == Kept(b, o, t, done)
      invariant conflicts == found + Clashes(b, o, t, keys[..i], lead)
    {
      DistinctPrefix(keys, i);
      KeptAdd(b, o, t, done, keys[i]);
      assert keys[..i + 1][..i] == keys[..i];
      done := done + {keys[i]};
      match Decide(b, o, t, keys[i]) {
        case Ok(Some(h)) => out := out[keys[i] := h];
        case Ok(None) =>
        case Err => conflicts := conflicts + [lead + keys[i]];
      }
    }
    assert keys[..|keys|] == keys;
    ElementsSorted(Keys3(b, o, t));
  }

  function Label(rel: string): string {
    rel + " chunk "
  }

  function Region3(b: Manifest, o: Manifest, t: Manifest, rel: string): map<string, string> {
    Combined(Chunks(b, rel), Chunks(o, rel), Chunks(t, rel))
  }

  function Rels(b: Manifest, o: Manifest, t: Manifest): set<string> {
    Keys3(b.regions, o.regions, t.regions)
  }

  function Regions3(b: Manifest, o: Manifest, t: Manifest, rels: set<string>): map<string, map<string, string>> {
    map rel | rel in rels && Region3(b, o, t, rel) != map[] :: Region3(b, o, t, rel)
  }

  function ChunkClashes(b: Manifest, o: Manifest, t: Manifest, rels: seq<string>): seq<string> {
    if rels == [] then []
    else
      var rel := rels[|rels| - 1];
      ChunkClashes(b, o, t, rels[..|rels| - 1])
      + Clashes(Chunks(b, rel), Chunks(o, rel), Chunks(t, rel),
          Sorted(Keys3(Chunks(b, rel), Chunks(o, rel), Chunks(t, rel))), Label(rel))
  }

  function Merged(b: Manifest, o: Manifest, t: Manifest): Manifest {
    Manifest(Regions3(b, o, t, Rels(b, o, t)), Combined(b.nbt, o.nbt, t.nbt), Combined(b.blobs, o.blobs, t.blobs),
             Sorted((set d | d in o.emptyDirs) + (set d | d in t.emptyDirs)))
  }

  function Conflicts(b: Manifest, o: Manifest, t: Manifest): seq<string> {
    ChunkClashes(b, o, t, Sorted(Rels(b, o, t)))
    + Clashes(b.nbt, o.nbt, t.nbt, Sorted(Keys3(b.nbt, o.nbt, t.nbt)), "")
    + Clashes(b.blobs, o.blobs, t.blobs, Sorted(Keys3(b.blobs, o.blobs, t.blobs)), "")
  }

  lemma RegionsAdd(b: Manifest, o: Manifest, t: Manifest, rels: set<string>, rel: string)
    requires rel !in rels
    ensures Regions3(b, o, t, rels + {rel}) ==
            if Region3(b, o, t, rel) != map[] then Regions3(b, o, t, rels)[rel := Region3(b, o, t, rel)]
                else Regions3(b, o, t, rels)
  {
    hide Region3;
  }

  /** The directories of `m` are those of `o` and of `t` together, each once and in order. */
  ghost predicate DirsJoined(m: Manifest, o: Manifest, t: Manifest) {
    && Ascending(m.emptyDirs)
    && Distinct(m.emptyDirs)
    && forall d :: d in m.emptyDirs <==> d in o.emptyDirs || d in t.emptyDirs
  }

  /** No region is recorded without chunks. */
  predicate NoHollow(m: Manifest) {
    forall rel :: rel in m.regions ==> m.regions[rel] != map[]
  }

  lemma MergedShape(b: Manifest, o: Manifest, t: Manifest)
    ensures DirsJoined(Merged(b, o, t), o, t)
    ensures NoHollow(Merged(b, o, t))
  {
    hide Region3, Combined;
  }

  /** `three_way_manifest`. */
  method ThreeWayManifest(b: Manifest, o: Manifest, t: Manifest) returns (merged: Manifest, conflicts: seq<string>)
    ensures merged == Merged(b, o, t)
    ensures conflicts == Conflicts(b, o, t)
    ensures DirsJoined(merged, o, t)
    ensures NoHollow(merged)
  {
    MergedShape(b, o, t);
    hide Sorted, Least, Distinct, Ascending, Combined, Clashes, Regions3, DirsJoined, NoHollow;
    var regions: map<string, map<string, string>> := map[];
    conflicts := [];
    var rels := Sorted(Rels(b, o, t));
    ghost var done: set<string> := {};
    RegionsNone(b, o, t);
    for i := 0 to |rels|
      invariant done == Elements(rels[..i])
      invariant regions == Regions3(b, o, t, done)
      invariant conflicts == ChunkClashes(b, o, t, rels[..i])
    {
      DistinctPrefix(rels, i);
      RegionsAdd(b, o, t, done, rels[i]);
      assert rels[..i + 1][..i] == rels[..i];
      done := done + {rels[i]};
      var chunks;
      chunks, conflicts := MergeMap(Chunks(b, rels[i]), Chunks(o, rels[i]), Chunks(t, rels[i]), Label(rels[i]),
          conflicts);
      if chunks != map[] {
        regions := regions[rels[i] := chunks];
      }
    }
    assert rels[..|rels|] == rels;
    ElementsSorted(Rels(b, o, t));
    var nbt, blobs;
    nbt, conflicts := MergeMap(b.nbt, o.nbt, t.nbt, "", conflicts);
    blobs, conflicts := MergeMap(b.blobs, o.blobs, t.blobs, "", conflicts);
    merged := Manifest(regions, nbt, blobs, Sorted((set d | d in o.emptyDirs) + (set d | d in t.emptyDirs)));
  }

  // ---- what the merge means, entry by entry ----

  /** What the merge decides for one entry. */
  function SlotMerge(b: Manifest, o: Manifest, t: Manifest, slot: Slot): Result<Option<string>> {
    ThreeWay(Entry(b, slot), Entry(o, slot), Entry(t, slot))
  }

  /** The merged manifest holds at every entry what the three-way rule decides,
      and nothing at an entry in conflict. */
  lemma MergedEntry(b: Manifest, o: Manifest, t: Manifest, slot: Slot)
    ensures Entry(Merged(b, o, t), slot) == match SlotMerge(b, o, t, slot) case Ok(v) => v case Err => None
  {
    hide Sorted, Combined, ThreeWay;
    match slot
    case Chunk(rel, pos) => CombinedAt(Chunks(b, rel), Chunks(o, rel), Chunks(t, rel), pos);
      RegionAt(b, o, t, rel);
    case Loose(path) => CombinedAt(b.nbt, o.nbt, t.nbt, path);
    case Blob(path) => CombinedAt(b.blobs, o.blobs, t.blobs, path);
  }

  lemma CombinedAt(b: map<string, string>, o: map<string, string>, t: map<string, string>, k: string)
    ensures At(Combined(b, o, t), k) == match Decide(b, o, t, k) case Ok(v) => v case Err => None
  {}

  /** A region left without chunks is dropped, which loses nothing. */
  lemma RegionAt(b: Manifest, o: Manifest, t: Manifest, rel: string)
    ensures Chunks(Merged(b, o, t), rel) == Region3(b, o, t, rel)
  {
    hide Sorted;
    if rel !in Rels(b, o, t) {
      assert Combined(map[], map[], map[]) == map[];
    }
  }

  ghost predicate Clean(b: Manifest, o: Manifest, t: Manifest) {
    forall slot :: SlotMerge(b, o, t, slot).Ok?
  }

  lemma {:induction false} InClashes(b: map<string, string>, o: map<string, string>, t: map<string, string>,
                                     keys: seq<string>, lead: string, name: string)
    ensures name in Clashes(b, o, t, keys, lead) <==>
              exists k :: k in keys && Decide(b, o, t, k).Err? && lead + k == name
  {
    if keys != [] {
      var init, k := keys[..|keys| - 1], keys[|keys| - 1];
      InClashes(b, o, t, init, lead, name);
      assert forall x :: x in keys <==> x in init || x == k;
    }
  }

  lemma {:induction false} InChunkClashes(b: Manifest, o: Manifest, t: Manifest, rels: seq<string>, name: string)
    ensures name in ChunkClashes(b, o, t, rels) <==>
            exists rel, pos :: rel in rels && SlotMerge(b, o, t, Chunk(rel, pos)).Err? && Label(rel) + pos == name
  {
    hide Sorted, Distinct, Ascending, Clashes;
    if rels != [] {
      var init, r := rels[..|rels| - 1], rels[|rels| - 1];
      InChunkClashes(b, o, t, init, name);
      var cb, co, ct := Chunks(b, r), Chunks(o, r), Chunks(t, r);
      InClashes(cb, co, ct, Sorted(Keys3(cb, co, ct)), Label(r), name);
      assert forall x :: x in rels <==> x in init || x == r;
      forall pos | SlotMerge(b, o, t, Chunk(r, pos)).Err?
        ensures pos in Sorted(Keys3(cb, co, ct)) && Decide(cb, co, ct, pos).Err?
      {}
    }
  }

  /** How a conflict at an entry is reported. */
  function NameOf(slot: Slot): string {
    match slot
    case Chunk(rel, pos) => Label(rel) + pos
    case Loose(path) => path
    case Blob(path) => path
  }

  lemma InMapClashes(b: map<string, string>, o: map<string, string>, t: map<string, string>, name: string)
    ensures name in Clashes(b, o, t, Sorted(Keys3(b, o, t)), "") <==> Decide(b, o, t, name).Err?
  {
    hide Sorted, Distinct, Ascending;
    InClashes(b, o, t, Sorted(Keys3(b, o, t)), "", name);
    assert forall k: string :: "" + k == k;
  }

  /** Exactly the entries both sides changed differently are reported. */
  lemma InConflicts(b: Manifest, o: Manifest, t: Manifest, name: string)
    ensures name in Conflicts(b, o, t) <==> exists slot :: SlotMerge(b, o, t, slot).Err? && NameOf(slot) == name
  {
    hide Sorted, Distinct, Ascending, ChunkClashes, Clashes, ThreeWay;
    InChunkClashes(b, o, t, Sorted(Rels(b, o, t)), name);
    InMapClashes(b.nbt, o.nbt, t.nbt, name);
    InMapClashes(b.blobs, o.blobs, t.blobs, name);
    var chunk := ChunkClashes(b, o, t, Sorted(Rels(b, o, t)));
    if name in chunk {
      var rel, pos :| SlotMerge(b, o, t, Chunk(rel, pos)).Err? && Label(rel) + pos == name;
      assert NameOf(Chunk(rel, pos)) == name;
    }
    if Decide(b.nbt, o.nbt, t.nbt, name).Err? {
      assert SlotMerge(b, o, t, Loose(name)).Err? && NameOf(Loose(name)) == name;
    }
    if Decide(b.blobs, o.blobs, t.blobs, name).Err? {
      assert SlotMerge(b, o, t, Blob(name)).Err? && NameOf(Blob(name)) == name;
    }
    forall slot | SlotMerge(b, o, t, slot).Err? && NameOf(slot) == name ensures name in Conflicts(b, o, t) {
      if slot.Chunk? {
        ConflictRel(b, o, t, slot.rel, slot.pos);
        assert name in chunk;
      }
    }
  }

  lemma ConflictRel(b: Manifest, o: Manifest, t: Manifest, rel: string, pos: string)
    requires SlotMerge(b, o, t, Chunk(rel, pos)).Err?
    ensures rel in Sorted(Rels(b, o, t))
  {
    hide Sorted, Distinct, Ascending;
  }

  lemma NoConflicts(b: Manifest, o: Manifest, t: Manifest)
    ensures Conflicts(b, o, t) == [] <==> Clean(b, o, t)
  {
    if Conflicts(b, o, t) != [] {
      var name := Conflicts(b, o, t)[0];
      InConflicts(b, o, t, name);
      var slot :| SlotMerge(b, o, t, slot).Err? && NameOf(slot) == name;
    } else {
      forall slot ensures SlotMerge(b, o, t, slot).Ok? {
        InConflicts(b, o, t, NameOf(slot));
      }
    }
  }

  // ---- the order of the report ----

  /** `names` are the reports of `slots`, one by one. */
  predicate Report(slots: seq<Slot>, names: seq<string>) {
    |slots| == |names| && forall i :: 0 <= i < |slots| ==> NameOf(slots[i]) == names[i]
  }

  lemma ReportAppend(a: seq<Slot>, b: seq<Slot>, x: seq<string>, y: seq<string>)
    requires Report(a, x) && Report(b, y) && InOrder(a) && InOrder(b) && AllPrecede(a, b)
    ensures Report(a + b, x + y) && InOrder(a + b)
  {
    hide Precedes;
  }

  function Lead(kind: Kind): string {
    match kind case ChunkIn(rel) => Label(rel) case LooseFile => "" case BlobFile => ""
  }

  /** The slots of one map in conflict, in the order of `keys`. */
  lemma {:induction false} ClashSlots(b: map<string, string>, o: map<string, string>, t: map<string, string>,
                                      keys: seq<string>, kind: Kind) returns (slots: seq<Slot>)
    requires Ascending(keys) && Distinct(keys)
    ensures Report(slots, Clashes(b, o, t, keys, Lead(kind))) && InOrder(slots)
    ensures forall slot :: slot in slots <==>
              exists k :: k in keys && Decide(b, o, t, k).Err? && slot == SlotIn(kind, k)
  {
    hide Decide;
    if keys == [] {
      slots := [];
    } else {
      var init, k := keys[..|keys| - 1], keys[|keys| - 1];
      var earlier := ClashSlots(b, o, t, init, kind);
      assert forall x :: x in keys <==> x in init || x == k;
      slots := earlier;
      if Decide(b, o, t, k).Err? {
        slots := earlier + [SlotIn(kind, k)];
        forall i | 0 <= i < |earlier| ensures Precedes(earlier[i], SlotIn(kind, k)) {
          assert earlier[i] in earlier;
          var x :| x in init && earlier[i] == SlotIn(kind, x);
          var n :| 0 <= n < |init| && init[n] == x;
          assert keys[n] == x && n < |keys| - 1;
        }
        assert NameOf(SlotIn(kind, k)) == Lead(kind) + k;
        ReportAppend(earlier, [SlotIn(kind, k)], Clashes(b, o, t, init, Lead(kind)), [Lead(kind) + k]);
      }
    }
  }

  lemma MapClashSlots(b: map<string, string>, o: map<string, string>, t: map<string, string>, kind: Kind)
    returns (slots: seq<Slot>)
    ensures Report(slots, Clashes(b, o, t, Sorted(Keys3(b, o, t)), Lead(kind))) && InOrder(slots)
    ensures forall slot :: slot in slots <==> exists k :: Decide(b, o, t, k).Err? && slot == SlotIn(kind, k)
  {
    hide Sorted, Distinct, Ascending, Clashes, InOrder, Report;
    slots := ClashSlots(b, o, t, Sorted(Keys3(b, o, t)), kind);
    forall k | Decide(b, o, t, k).Err? ensures k in Sorted(Keys3(b, o, t)) {}
  }

  lemma NothingReported()
    ensures Report([], []) && InOrder([])
  {}

  lemma {:induction false} ChunkClashSlots(b: Manifest, o: Manifest, t: Manifest, rels: seq<string>)
    returns (slots: seq<Slot>)
    requires Ascending(rels) && Distinct(rels)
    ensures Report(slots, ChunkClashes(b, o, t, rels)) && InOrder(slots)
    ensures forall slot :: slot in slots <==> slot.Chunk? && slot.rel in rels && SlotMerge(b, o, t, slot).Err?
  {
    hide Sorted, Report, InOrder, AllPrecede, Clashes;
    if rels == [] {
      slots := [];
      assert Report(slots, []) && InOrder(slots) by { NothingReported(); }
    } else {
      var init, r := rels[..|rels| - 1], rels[|rels| - 1];
      var earlier := ChunkClashSlots(b, o, t, init);
      var cb, co, ct := Chunks(b, r), Chunks(o, r), Chunks(t, r);
      var here := MapClashSlots(cb, co, ct, ChunkIn(r));
      assert forall x :: x in rels <==> x in init || x == r;
      slots := earlier + here;
      LaterRegion(rels, earlier, here, r);
      ReportAppend(earlier, here, ChunkClashes(b, o, t, init),
          Clashes(cb, co, ct, Sorted(Keys3(cb, co, ct)), Label(r)));
      forall slot ensures slot in here <==> slot.Chunk? && slot.rel == r && SlotMerge(b, o, t, slot).Err? {
        if slot.Chunk? && slot.rel == r {
          assert slot == SlotIn(ChunkIn(r), slot.pos);
          assert SlotMerge(b, o, t, slot) == Decide(cb, co, ct, slot.pos);
        }
      }
    }
  }

  /** The report names the entries in conflict, each once, chunks before loose files
      before other files and in order of region, position and path. */
  lemma ReportInOrder(b: Manifest, o: Manifest, t: Manifest) returns (slots: seq<Slot>)
    ensures Report(slots, Conflicts(b, o, t)) && InOrder(slots)
    ensures forall slot :: slot in slots <==> SlotMerge(b, o, t, slot).Err?
  {
    hide Sorted, Distinct, Ascending, Clashes, ChunkClashes, InOrder, Report, AllPrecede;
    var c := ChunkClashSlots(b, o, t, Sorted(Rels(b, o, t)));
    var n := MapClashSlots(b.nbt, o.nbt, t.nbt, LooseFile);
    var d := MapClashSlots(b.blobs, o.blobs, t.blobs, BlobFile);
    slots := c + n + d;
    KindsPrecede(c, n, d);
    var cs := ChunkClashes(b, o, t, Sorted(Rels(b, o, t)));
    var ns := Clashes(b.nbt, o.nbt, t.nbt, Sorted(Keys3(b.nbt, o.nbt, t.nbt)), "");
    ReportAppend(c, n, cs, ns);
    ReportAppend(c + n, d, cs + ns, Clashes(b.blobs, o.blobs, t.blobs, Sorted(Keys3(b.blobs, o.blobs, t.blobs)), ""));
    forall slot ensures slot in slots <==> SlotMerge(b, o, t, slot).Err? {
      match slot
      case Chunk(rel, pos) => if SlotMerge(b, o, t, slot).Err? { ConflictRel(b, o, t, rel, pos); }
      case Loose(path) => assert slot in n <==> Decide(b.nbt, o.nbt, t.nbt, path).Err? by {
          assert slot == SlotIn(LooseFile, path); }
      case Blob(path) => assert slot in d <==> Decide(b.blobs, o.blobs, t.blobs, path).Err? by {
          assert slot == SlotIn(BlobFile, path); }
    }
  }

  // ---- swapping the two sides ----

  lemma {:induction false} ClashesSwap(b: map<string, string>, o: map<string, string>, t: map<string, string>,
                                       keys: seq<string>, lead: string)
    ensures Clashes(b, o, t, keys, lead) == Clashes(b, t, o, keys, lead)
  {
    if keys != [] { ClashesSwap(b, o, t, keys[..|keys| - 1], lead); }
  }

  lemma {:induction false} ChunkClashesSwap(b: Manifest, o: Manifest, t: Manifest, rels: seq<string>)
    ensures ChunkClashes(b, o, t, rels) == ChunkClashes(b, t, o, rels)
  {
    if rels != [] {
      ChunkClashesSwap(b, o, t, rels[..|rels| - 1]);
      var r := rels[|rels| - 1];
      var cb, co, ct := Chunks(b, r), Chunks(o, r), Chunks(t, r);
      assert Keys3(cb, co, ct) == Keys3(cb, ct, co);
      ClashesSwap(cb, co, ct, Sorted(Keys3(cb, co, ct)), Label(r));
    }
  }

  lemma CombinedSwap(b: map<string, string>, o: map<string, string>, t: map<string, string>)
    ensures Combined(b, o, t) == Combined(b, t, o)
    ensures Keys3(b, o, t) == Keys3(b, t, o)
  {
    assert Keys3(b, o, t) == Keys3(b, t, o);
    KeptSwap(b, o, t, Keys3(b, o, t));
  }

  lemma KeptSwap(b: map<string, string>, o: map<string, string>, t: map<string, string>, keys: set<string>)
    ensures Kept(b, o, t, keys) == Kept(b, t, o, keys)
  {
    forall k ensures Decide(b, o, t, k) == Decide(b, t, o, k) {}
    hide Decide;
  }

  lemma RegionsSwap(b: Manifest, o: Manifest, t: Manifest)
    ensures Rels(b, o, t) == Rels(b, t, o)
    ensures Regions3(b, o, t, Rels(b, o, t)) == Regions3(b, t, o, Rels(b, t, o))
  {
    hide Combined;
    forall rel ensures Region3(b, o, t, rel) == Region3(b, t, o, rel) {
      CombinedSwap(Chunks(b, rel), Chunks(o, rel), Chunks(t, rel));
    }
  }

  /** The merge does not depend on which side is called ours: same manifest, same
      conflicts in the same order. */
  lemma MergeSwap(b: Manifest, o: Manifest, t: Manifest)
    ensures Merged(b, o, t) == Merged(b, t, o)
    ensures Conflicts(b, o, t) == Conflicts(b, t, o)
  {
    hide Sorted, Combined, Regions3, Clashes, ChunkClashes, Keys3;
    CombinedSwap(b.nbt, o.nbt, t.nbt);
    CombinedSwap(b.blobs, o.blobs, t.blobs);
    RegionsSwap(b, o, t);
    ClashesSwap(b.nbt, o.nbt, t.nbt, Sorted(Keys3(b.nbt, o.nbt, t.nbt)), "");
    ClashesSwap(b.blobs, o.blobs, t.blobs, Sorted(Keys3(b.blobs, o.blobs, t.blobs)), "");
    ChunkClashesSwap(b, o, t, Sorted(Rels(b, o, t)));
    assert (set d | d in o.emptyDirs) + (set d | d in t.emptyDirs) == (set d | d in t.emptyDirs) +
        (set d | d in o.emptyDirs);
  }
}
