// Whole region entries of a patch: extracted chunk by chunk
// (crates/patch/src/extract.rs) and applied chunk by chunk.
module RegionPatches {
  import opened Apply
  import opened Collections
  import opened Comparer
  import opened Edits
  import opened NbtValue
  import opened Replay
  import opened Silence
  import opened Undo

  type Chunks = map<(int, int), Nbt>
  type Orders = ((int, int)) -> Order

  /** The operations extracted for one chunk position. */
  function SlotOps(ord: Order, a: Option<Nbt>, b: Option<Nbt>): seq<PatchOp> {
    match (a, b)
    case (Some(x), Some(y)) => NodeOps(ord, x, y)
    case (Some(x), None) => [PatchOp([], Some(x), None)]
    case (None, Some(y)) => [PatchOp([], None, Some(y))]
    case (None, None) => []
  }

  /** A patch of region `a` into region `b`: one entry per position whose chunks
      differ, in any order. */
  ghost predicate Extracted(ords: Orders, a: Chunks, b: Chunks, patches: seq<ChunkPatch>) {
    && (forall i, j :: 0 <= i < j < |patches| ==> patches[i].pos != patches[j].pos)
    && (forall i :: 0 <= i < |patches| ==>
          patches[i].ops == SlotOps(ords(patches[i].pos), SlotAt(a, patches[i].pos), SlotAt(b, patches[i].pos)))
    && (forall pos :: SlotOps(ords(pos), SlotAt(a, pos), SlotAt(b, pos)) != [] ==>
        exists i :: 0 <= i < |patches| && patches[i].pos == pos)
  }

  /** The status an entry is extracted with. */
  function StatusOf(a: Option<Chunks>, b: Option<Chunks>): Status {
    if a.None? then Added else if b.None? then Removed else Modified
  }

  /** The operations of a position can be run on the slot: some chunk where both
      sides have one, otherwise exactly what the operations expect. */
  predicate Fits(reverse: bool, a: Option<Nbt>, b: Option<Nbt>, slot: Option<Nbt>) {
    if a.Some? && b.Some? then slot.Some? else slot == if reverse then b else a
  }

  /** What a position holds after its operations, and how many were refused. */
  function SlotResult(reverse: bool, ord: Order, a: Option<Nbt>, b: Option<Nbt>, slot: Option<Nbt>): (Option<Nbt>, nat)
    requires Fits(reverse, a, b, slot)
  {
    match (a, b)
    case (Some(x), Some(y)) =>
      var r := Run(reverse, slot.value, Walk(ord, [], x, y));
      (Some(r.tree), r.conflicts)
    case _ => (if reverse then a else b, 0)
  }

  ghost predicate Travels(a: Option<Nbt>, b: Option<Nbt>) {
    a.Some? && b.Some? ==> Printable(a.value, b.value) && StableIds(a.value, b.value)
  }

  lemma SlotRun(reverse: bool, ord: Order, a: Option<Nbt>, b: Option<Nbt>, slot: Option<Nbt>, n: nat, cs: seq<string>,
                ctx: string)
    requires Travels(a, b) && Fits(reverse, a, b, slot)
    ensures var r := AfterOps(State(slot, n, cs), SlotOps(ord, a, b), reverse, false, ctx);
            var s := SlotResult(reverse, ord, a, b, slot);
            r.Ok? && r.value.slot == s.0 && |r.value.conflicts| == |cs| + s.1
  {
    hide Walk, Run, StableIds, Printable;
    match (a, b) {
      case (Some(x), Some(y)) =>
        WalkOpsOk(ord, [], x, y);
        WalkReadable(ord, [], x, y);
        OpsMeanRun(slot.value, Walk(ord, [], x, y), n, cs, reverse, ctx);
      case (Some(x), None) => assert SlotOps(ord, a, b)[1..] == [];
      case (None, Some(y)) => assert SlotOps(ord, a, b)[1..] == [];
      case (None, None) =>
    }
  }

  function SourceChunks(reverse: bool, a: Chunks, b: Chunks): Chunks {
    if reverse then b else a
  }

  predicate FitsAt(reverse: bool, a: Chunks, b: Chunks, start: Chunks, pos: (int, int)) {
    Fits(reverse, SlotAt(a, pos), SlotAt(b, pos), SlotAt(start, pos))
  }

  function ResultAt(reverse: bool, ords: Orders, a: Chunks, b: Chunks, start: Chunks,
                    pos: (int, int)): (Option<Nbt>, nat)
    requires FitsAt(reverse, a, b, start, pos)
  {
    SlotResult(reverse, ords(pos), SlotAt(a, pos), SlotAt(b, pos), SlotAt(start, pos))
  }

  predicate Names(ps: seq<ChunkPatch>, pos: (int, int)) {
    exists i :: 0 <= i < |ps| && ps[i].pos == pos
  }

  /** `r` is the region state `st` after the patches `ps`, position by position. */
  ghost predicate PatchedBy(reverse: bool, ords: Orders, a: Chunks, b: Chunks, ps: seq<ChunkPatch>, st: Region,
                            r: Region)
    requires forall pos :: Names(ps, pos) ==> FitsAt(reverse, a, b, st.chunks, pos)
  {
    && (forall pos :: Names(ps, pos) ==> SlotAt(r.chunks, pos) == ResultAt(reverse, ords, a, b, st.chunks, pos).0)
    && (forall pos :: !Names(ps, pos) ==> SlotAt(r.chunks, pos) == SlotAt(st.chunks, pos))
    && |r.conflicts| >= |st.conflicts|
    && (|r.conflicts| == |st.conflicts| <==> forall pos :: Names(ps, pos) ==>
        ResultAt(reverse, ords, a, b, st.chunks, pos).1 == 0)
  }

  /** The patches come from the pair of regions, one per position. */
  ghost predicate FromPair(ords: Orders, a: Chunks, b: Chunks, ps: seq<ChunkPatch>) {
    && (forall i, j :: 0 <= i < j < |ps| ==> ps[i].pos != ps[j].pos)
    && (forall i :: 0 <= i < |ps| ==> ps[i].ops == SlotOps(ords(ps[i].pos), SlotAt(a, ps[i].pos), SlotAt(b, ps[i].pos)))
    && (forall pos :: Travels(SlotAt(a, pos), SlotAt(b, pos)))
  }

  lemma FromPairTail(ords: Orders, a: Chunks, b: Chunks, ps: seq<ChunkPatch>)
    requires FromPair(ords, a, b, ps) && ps != []
    ensures FromPair(ords, a, b, ps[1..]) && !Names(ps[1..], ps[0].pos)
    ensures forall pos :: Names(ps, pos) <==> pos == ps[0].pos || Names(ps[1..], pos)
  {
    hide SlotOps, Travels;
    var rest := ps[1..];
    forall i | 0 <= i < |rest| ensures rest[i] == ps[i + 1] {}
    forall pos ensures Names(ps, pos) <==> pos == ps[0].pos || Names(rest, pos) {
      if Names(rest, pos) {
        var i :| 0 <= i < |rest| && rest[i].pos == pos;
        assert ps[i + 1].pos == pos;
      }
      if Names(ps, pos) && pos != ps[0].pos {
        var i :| 0 <= i < |ps| && ps[i].pos == pos;
        assert rest[i - 1].pos == pos;
      }
    }
  }

  lemma {:induction false} ChunksRun(reverse: bool, ords: Orders, a: Chunks, b: Chunks, ps: seq<ChunkPatch>, st: Region,
                                     file: string)
    requires FromPair(ords, a, b, ps) && forall pos :: Names(ps, pos) ==> FitsAt(reverse, a, b, st.chunks, pos)
    ensures var r := AfterChunks(st, ps, reverse, false, file);
            r.Ok? && PatchedBy(reverse, ords, a, b, ps, st, r.value)
    decreases |ps|
  {
    hide SlotResult, SlotOps, Travels, AfterOps, Fits, PatchedBy;
    if ps == [] {
      NothingPatched(reverse, ords, a, b, st);
    } else {
      var pos, rest := ps[0].pos, ps[1..];
      FromPairTail(ords, a, b, ps);
      assert Names(ps, pos) && FitsAt(reverse, a, b, st.chunks, pos);
      SlotRun(reverse, ords(pos), SlotAt(a, pos), SlotAt(b, pos), SlotAt(st.chunks, pos), st.applied, st.conflicts,
              ChunkContext(file, pos));
      var s := AfterOps(State(SlotAt(st.chunks, pos), st.applied, st.conflicts), ps[0].ops, reverse, false,
          ChunkContext(file, pos)).value;
      var next := Region(PutSlot(st.chunks, pos, s.slot), s.applied, s.conflicts);
      forall x | x != pos ensures SlotAt(next.chunks, x) == SlotAt(st.chunks, x) {}
      ChunksRun(reverse, ords, a, b, rest, next, file);
      PatchedThen(reverse, ords, a, b, ps, st, next, AfterChunks(next, rest, reverse, false, file).value);
    }
  }

  lemma NothingPatched(reverse: bool, ords: Orders, a: Chunks, b: Chunks, st: Region)
    ensures PatchedBy(reverse, ords, a, b, [], st, st)
  {}

  /** The first patch and then the rest. */
  lemma PatchedThen(reverse: bool, ords: Orders, a: Chunks, b: Chunks, ps: seq<ChunkPatch>, st: Region, next: Region,
                    r: Region)
    requires FromPair(ords, a, b, ps) && ps != []
    requires forall pos :: Names(ps, pos) ==> FitsAt(reverse, a, b, st.chunks, pos)
    requires FitsAt(reverse, a, b, st.chunks, ps[0].pos)
    requires SlotAt(next.chunks, ps[0].pos) == ResultAt(reverse, ords, a, b, st.chunks, ps[0].pos).0
    requires |next.conflicts| == |st.conflicts| + ResultAt(reverse, ords, a, b, st.chunks, ps[0].pos).1
    requires forall x :: x != ps[0].pos ==> SlotAt(next.chunks, x) == SlotAt(st.chunks, x)
    requires forall pos :: Names(ps[1..], pos) ==> FitsAt(reverse, a, b, next.chunks, pos)
    requires PatchedBy(reverse, ords, a, b, ps[1..], next, r)
    ensures PatchedBy(reverse, ords, a, b, ps, st, r)
  {
    hide SlotResult, Fits, FromPair, Names, SlotAt;
    FromPairTail(ords, a, b, ps);
    var rest := ps[1..];
    forall pos | Names(rest, pos)
      ensures pos != ps[0].pos
      ensures ResultAt(reverse, ords, a, b, next.chunks, pos) == ResultAt(reverse, ords, a, b, st.chunks, pos)
    {}
  }

  /** The two regions hold chunks at the same positions, silent pairwise. */
  ghost predicate SameRegion(x: Chunks, y: Chunks) {
    x.Keys == y.Keys && forall pos :: pos in x.Keys ==> Silent(x[pos], y[pos])
  }

  /** After the patches of a pair every position, named or not, holds its result. */
  lemma AllResults(reverse: bool, ords: Orders, a: Chunks, b: Chunks, ps: seq<ChunkPatch>, st: Region, file: string)
    requires Extracted(ords, a, b, ps) && forall pos :: Travels(SlotAt(a, pos), SlotAt(b, pos))
    requires forall pos :: FitsAt(reverse, a, b, st.chunks, pos)
    ensures var r := AfterChunks(st, ps, reverse, false, file);
            && r.Ok?
            && (forall pos :: SlotAt(r.value.chunks, pos) == ResultAt(reverse, ords, a, b, st.chunks, pos).0)
            && |r.value.conflicts| >= |st.conflicts|
            && (|r.value.conflicts| == |st.conflicts| <==>
                forall pos :: ResultAt(reverse, ords, a, b, st.chunks, pos).1 == 0)
  {
    hide SlotOps, Travels, Fits, SlotResult, AfterOps, AfterChunks;
    ChunksRun(reverse, ords, a, b, ps, st, file);
    var r := AfterChunks(st, ps, reverse, false, file).value;
    forall pos | !Names(ps, pos)
      ensures ResultAt(reverse, ords, a, b, st.chunks, pos) == (SlotAt(st.chunks, pos), 0)
    {
      assert SlotOps(ords(pos), SlotAt(a, pos), SlotAt(b, pos)) == [];
      assert FitsAt(reverse, a, b, st.chunks, pos);
      SlotUntouched(reverse, ords(pos), SlotAt(a, pos), SlotAt(b, pos), SlotAt(st.chunks, pos));
    }
  }

  lemma SlotUntouched(reverse: bool, ord: Order, a: Option<Nbt>, b: Option<Nbt>, slot: Option<Nbt>)
    requires SlotOps(ord, a, b) == [] && Fits(reverse, a, b, slot)
    ensures SlotResult(reverse, ord, a, b, slot) == (slot, 0)
  {
    if a.Some? && b.Some? { PrintOpsLength([], Walk(ord, [], a.value, b.value)); }
  }

  /** A region's chunks patched in either direction: no conflict and the other
      region exactly when each chunk both regions have can be replayed; chunks that
      only one has are added and removed whole. */
  lemma RegionReplay(ords: Orders, a: Chunks, b: Chunks, patches: seq<ChunkPatch>, reverse: bool, file: string)
    requires Extracted(ords, a, b, patches) && forall pos :: Travels(SlotAt(a, pos), SlotAt(b, pos))
    ensures var source, target := SourceChunks(reverse, a, b), SourceChunks(!reverse, a, b);
            var r := AfterChunks(Region(source, 0, []), patches, reverse, false, file);
            r.Ok? &&
            (r.value.conflicts == [] && SameRegion(r.value.chunks, target) <==>
               forall pos :: pos in a && pos in b ==> Replayable(source[pos], target[pos]))
  {
    hide SlotOps, AfterOps, AfterChunks, Silent, Replayable, Run, Walk;
    var source, target := SourceChunks(reverse, a, b), SourceChunks(!reverse, a, b);
    forall pos ensures FitsAt(reverse, a, b, source, pos) {}
    AllResults(reverse, ords, a, b, patches, Region(source, 0, []), file);
    var r := AfterChunks(Region(source, 0, []), patches, reverse, false, file).value;
    forall pos
      ensures Delivered(reverse, ords, a, b, target, r.chunks, pos) <==>
                (pos in a && pos in b ==> Replayable(source[pos], target[pos]))
    {
      if pos in a && pos in b {
        assert Travels(SlotAt(a, pos), SlotAt(b, pos));
        ReplayExact(reverse, ords(pos), [], a[pos], b[pos]);
      } else if pos in target {
        SilentReflexive(target[pos]);
      }
    }
    RegionDelivered(reverse, ords, a, b, r.chunks);
  }

  /** Position `pos` was refused nothing, and `m` holds there what the target does. */
  ghost predicate Delivered(reverse: bool, ords: Orders, a: Chunks, b: Chunks, target: Chunks, m: Chunks,
                            pos: (int, int))
    requires FitsAt(reverse, a, b, SourceChunks(reverse, a, b), pos)
  {
    && ResultAt(reverse, ords, a, b, SourceChunks(reverse, a, b), pos).1 == 0
    && (pos in m <==> pos in target)
    && (pos in target ==> Silent(m[pos], target[pos]))
  }

  lemma RegionDelivered(reverse: bool, ords: Orders, a: Chunks, b: Chunks, m: Chunks)
    requires forall pos :: FitsAt(reverse, a, b, SourceChunks(reverse, a, b), pos)
    ensures var target := SourceChunks(!reverse, a, b);
            (forall pos :: ResultAt(reverse, ords, a, b, SourceChunks(reverse, a, b), pos).1 == 0) &&
                SameRegion(m, target)
            <==> forall pos :: Delivered(reverse, ords, a, b, target, m, pos)
  {
    hide Silent, FitsAt, ResultAt;
    var source, target := SourceChunks(reverse, a, b), SourceChunks(!reverse, a, b);
    if forall pos :: Delivered(reverse, ords, a, b, target, m, pos) {
      forall pos ensures pos in m <==> pos in target { assert Delivered(reverse, ords, a, b, target, m, pos); }
      assert m.Keys == target.Keys;
      forall pos
        ensures ResultAt(reverse, ords, a, b, source, pos).1 == 0
      {
        assert Delivered(reverse, ords, a, b, target, m, pos);
      }
      forall pos | pos in m.Keys
        ensures Silent(m[pos], target[pos])
      {
        assert Delivered(reverse, ords, a, b, target, m, pos);
      }
    } else if (forall pos :: ResultAt(reverse, ords, a, b, source, pos).1 == 0) && SameRegion(m, target) {
      forall pos ensures Delivered(reverse, ords, a, b, target, m, pos) {
        assert pos in m.Keys <==> pos in target.Keys;
      }
    }
  }

  // ---- whole region files ----

  /** Both absent, or both there with silent chunks. */
  ghost predicate SameFile(x: Option<Chunks>, y: Option<Chunks>) {
    match (x, y)
    case (Some(m), Some(n)) => SameRegion(m, n)
    case (None, None) => true
    case _ => false
  }

  /** A region entry, whatever its status, applied in either direction: it reports
      no conflict and turns the one file into the other, added and deleted files
      included, exactly when each chunk both files have can be replayed. */
  lemma FileReplay(ords: Orders, a: Option<Chunks>, b: Option<Chunks>, patches: seq<ChunkPatch>, reverse: bool,
                   path: string)
    requires a.Some? || b.Some?
    requires Extracted(ords, Held(a), Held(b), patches)
    requires forall pos :: Travels(SlotAt(Held(a), pos), SlotAt(Held(b), pos))
    ensures var source, target := if reverse then b else a, if reverse then a else b;
            var r := AfterRegion(Filed(source, 0, []), StatusOf(a, b), patches, reverse, false, path);
            r.Ok? &&
            (r.value.conflicts == [] && SameFile(r.value.file, target) <==>
               forall pos :: pos in Held(a) && pos in Held(b) ==> Replayable(Held(source)[pos], Held(target)[pos]))
  {
    hide Extracted, AfterChunks, Replayable, Travels;
    RegionReplay(ords, Held(a), Held(b), patches, reverse, path);
  }

  /** A region entry applied and then applied in reverse gives back exactly the file
      it started from, with no conflict either way, exactly when for each chunk both
      files have both directions can be replayed. */
  lemma FileUndo(ords: Orders, a: Option<Chunks>, b: Option<Chunks>, patches: seq<ChunkPatch>, path: string)
    requires a.Some? || b.Some?
    requires Extracted(ords, Held(a), Held(b), patches)
    requires forall pos :: Travels(SlotAt(Held(a), pos), SlotAt(Held(b), pos))
    ensures var there := AfterRegion(Filed(a, 0, []), StatusOf(a, b), patches, false, false, path);
            && there.Ok? &&
            var back := AfterRegion(Filed(there.value.file, 0, []), StatusOf(a, b), patches, true, false, path);
            && back.Ok?
            && (there.value.conflicts == [] && back.value.conflicts == [] && back.value.file == a <==>
                  forall pos :: pos in Held(a) && pos in Held(b) ==> TwoSided(Held(a)[pos], Held(b)[pos]))
  {
    hide Extracted, AfterChunks, TwoSided, Travels;
    if a.Some? && b.Some? {
      RegionUndo(ords, a.value, b.value, patches, path);
    } else if a.None? {
      AddedWhole(ords, map[], b.value, patches, false, path);
    } else {
      AddedWhole(ords, a.value, map[], patches, true, path);
    }
  }

  /** Where only one side has chunks, travelling to it gives exactly its chunks. */
  lemma AddedWhole(ords: Orders, a: Chunks, b: Chunks, patches: seq<ChunkPatch>, reverse: bool, file: string)
    requires Extracted(ords, a, b, patches) && forall pos :: Travels(SlotAt(a, pos), SlotAt(b, pos))
    requires SourceChunks(reverse, a, b) == map[]
    ensures var r := AfterChunks(Region(map[], 0, []), patches, reverse, false, file);
            r.Ok? && r.value.conflicts == [] && r.value.chunks == SourceChunks(!reverse, a, b)
  {
    hide Extracted, AfterChunks, Travels;
    forall pos ensures FitsAt(reverse, a, b, map[], pos) {}
    AllResults(reverse, ords, a, b, patches, Region(map[], 0, []), file);
    SameMaps(AfterChunks(Region(map[], 0, []), patches, reverse, false, file).value.chunks,
             SourceChunks(!reverse, a, b));
  }

  lemma SameMaps(x: Chunks, y: Chunks)
    ensures x == y <==> forall pos :: SlotAt(x, pos) == SlotAt(y, pos)
  {
    if forall pos :: SlotAt(x, pos) == SlotAt(y, pos) {
      forall pos
        ensures (pos in x <==> pos in y) && (pos in x ==> x[pos] == y[pos])
      {
        assert SlotAt(x, pos) == SlotAt(y, pos);
      }
    }
  }

  lemma RegionUndo(ords: Orders, a: Chunks, b: Chunks, patches: seq<ChunkPatch>, file: string)
    requires Extracted(ords, a, b, patches) && forall pos :: Travels(SlotAt(a, pos), SlotAt(b, pos))
    ensures var there := AfterChunks(Region(a, 0, []), patches, false, false, file);
            && there.Ok? &&
            var back := AfterChunks(Region(there.value.chunks, 0, []), patches, true, false, file);
            && back.Ok?
            && (there.value.conflicts == [] && back.value.conflicts == [] && back.value.chunks == a <==>
                  forall pos :: pos in a && pos in b ==> TwoSided(a[pos], b[pos]))
  {
    hide Extracted, AfterChunks, TwoSided, Run, Walk, Travels;
    forall pos ensures FitsAt(false, a, b, a, pos) {}
    AllResults(false, ords, a, b, patches, Region(a, 0, []), file);
    var there := AfterChunks(Region(a, 0, []), patches, false, false, file).value;
    forall pos ensures FitsAt(true, a, b, there.chunks, pos) {
      assert SlotAt(there.chunks, pos) == ResultAt(false, ords, a, b, a, pos).0;
    }
    AllResults(true, ords, a, b, patches, Region(there.chunks, 0, []), file);
    var back := AfterChunks(Region(there.chunks, 0, []), patches, true, false, file).value;
    forall pos
      ensures Returned(ords, a, b, there.chunks, back.chunks, pos) <==>
                (pos in a && pos in b ==> TwoSided(a[pos], b[pos]))
    {
      assert SlotAt(there.chunks, pos) == ResultAt(false, ords, a, b, a, pos).0;
      assert SlotAt(back.chunks, pos) == ResultAt(true, ords, a, b, there.chunks, pos).0;
      SlotReturned(ords(pos), SlotAt(a, pos), SlotAt(b, pos));
      assert Travels(SlotAt(a, pos), SlotAt(b, pos));
    }
    SameMaps(back.chunks, a);
    RegionReturned(ords, a, b, there.chunks, back.chunks);
  }

  /** Nothing was refused at the position on either way, and its chunk is back. */
  ghost predicate Returned(ords: Orders, a: Chunks, b: Chunks, there: Chunks, back: Chunks, pos: (int, int))
    requires FitsAt(false, a, b, a, pos) && FitsAt(true, a, b, there, pos)
  {
    ResultAt(false, ords, a, b, a, pos).1 == 0 && ResultAt(true, ords, a, b, there, pos).1 == 0 &&
        SlotAt(back, pos) == SlotAt(a, pos)
  }

  lemma RegionReturned(ords: Orders, a: Chunks, b: Chunks, there: Chunks, back: Chunks)
    requires forall pos :: FitsAt(false, a, b, a, pos) && FitsAt(true, a, b, there, pos)
    ensures (forall pos :: ResultAt(false, ords, a, b, a, pos).1 == 0) &&
            (forall pos :: ResultAt(true, ords, a, b, there, pos).1 == 0)
            && (forall pos :: SlotAt(back, pos) == SlotAt(a, pos))
       <==> forall pos :: Returned(ords, a, b, there, back, pos)
  {
    hide FitsAt, ResultAt, SlotAt;
    if forall pos :: Returned(ords, a, b, there, back, pos) {
      forall pos ensures ResultAt(false, ords, a, b, a, pos).1 == 0 { assert Returned(ords, a, b, there, back, pos); }
      forall pos
        ensures ResultAt(true, ords, a, b, there, pos).1 == 0
      {
        assert Returned(ords, a, b, there, back, pos);
      }
      forall pos ensures SlotAt(back, pos) == SlotAt(a, pos) { assert Returned(ords, a, b, there, back, pos); }
    }
  }

  lemma SlotReturned(ord: Order, a: Option<Nbt>, b: Option<Nbt>)
    requires Travels(a, b)
    ensures a.Some? && b.Some? ==>
              var there := Run(false, a.value, Walk(ord, [], a.value, b.value));
              var back := Run(true, there.tree, Walk(ord, [], a.value, b.value));
              (there.conflicts == 0 && back.conflicts == 0 && back.tree == a.value <==> TwoSided(a.value, b.value))
  {
    if a.Some? && b.Some? { UndoExact(ord, [], a.value, b.value); }
  }
}
