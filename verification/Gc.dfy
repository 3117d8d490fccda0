// Garbage collection (crates/repo/src/gc.rs, crates/repo/src/pack.rs): the
// reachable objects are gathered in one pack, then everything else is deleted,
// file by file.
module Gc {
  import opened Collections
  import opened Objects
  import opened Reachability

  /** The bodies in a pack file, in order. */
  type Pack = seq<Content>

  /** Where in its pack an object lies. */
  type PackIndex = map<string, nat>

  /** The object directory: pack files and index files by pack id, and loose files. */
  datatype Disk = Disk(packs: map<string, Pack>, indexes: map<string, PackIndex>, loose: map<string, Content>)

  datatype Names = Names(hash: Content -> string, packHash: Pack -> string)

  ghost predicate Unambiguous(n: Names) {
    Injective(n.hash) && forall a, b :: n.packHash(a) == n.packHash(b) ==> a == b
  }

  /** An index describes the pack its name is the hash of, present or not. */
  ghost predicate IndexFits(n: Names, id: string, index: PackIndex) {
    forall pack: Pack, x :: n.packHash(pack) == id && x in index ==> index[x] < |pack| && n.hash(pack[index[x]]) == x
  }

  /** Every file is named by its content. */
  ghost predicate Sound(n: Names, d: Disk) {
    && Unambiguous(n)
    && (forall p :: p in d.packs ==> n.packHash(d.packs[p]) == p)
    && (forall p :: p in d.indexes ==> IndexFits(n, p, d.indexes[p]))
    && (forall id :: id in d.loose ==> n.hash(d.loose[id]) == id)
  }

  /** A pack is readable when both its files are there. */
  predicate PackHas(d: Disk, p: string, id: string) {
    p in d.packs && p in d.indexes && id in d.indexes[p]
  }

  function PacksWith(d: Disk, id: string): set<string> {
    set p | p in d.packs && PackHas(d, p, id)
  }

  predicate Exists(d: Disk, id: string) {
    PacksWith(d, id) != {} || id in d.loose
  }

  /** Packs are asked before loose files. Which of several packs is asked first
      does not matter, since copies agree; here it is the one with the least id. */
  function Read(d: Disk, id: string): Option<Content> {
    if PacksWith(d, id) != {} then
      var p := Least(PacksWith(d, id));
      if d.indexes[p][id] < |d.packs[p]| then Some(d.packs[p][d.indexes[p][id]]) else None
    else if id in d.loose then Some(d.loose[id]) else None
  }

  function Ids(d: Disk): set<string> {
    (set p, id | p in d.packs && p in d.indexes && id in d.indexes[p] :: id) + (set id | id in d.loose)
  }

  /** The objects by id. */
  function View(d: Disk): Store {
    map id | id in Ids(d) && Read(d, id).Some? :: Read(d, id).value
  }

  /** What is stored can be read, and is what its id stands for. */
  lemma ReadSound(n: Names, d: Disk, id: string)
    requires Sound(n, d)
    ensures Exists(d, id) <==> Read(d, id).Some?
    ensures Read(d, id).Some? ==> n.hash(Read(d, id).value) == id
    ensures Exists(d, id) <==> id in Ids(d)
    ensures Exists(d, id) <==> id in View(d)
  {
    if PacksWith(d, id) != {} { ReadFromPack(n, d, id); }
    hide IndexFits, IsLeast, Unambiguous;
    if id in Ids(d) && id !in d.loose {
      var p :| p in d.packs && p in d.indexes && id in d.indexes[p];
      assert p in PacksWith(d, id);
    }
  }

  lemma ReadFromPack(n: Names, d: Disk, id: string)
    requires Sound(n, d) && PacksWith(d, id) != {}
    ensures Read(d, id).Some? && n.hash(Read(d, id).value) == id && id in Ids(d)
  {
    hide IsLeast;
    var p := Least(PacksWith(d, id));
    LeastIn(PacksWith(d, id));
    assert PackHas(d, p, id);
    assert IndexFits(n, p, d.indexes[p]);
    assert n.packHash(d.packs[p]) == p;
  }

  lemma LeastIn(s: set<string>)
    requires s != {}
    ensures Least(s) in s
  {}

  /** Reading the same id from two sound disks gives the same content. */
  lemma ReadAgrees(n: Names, d: Disk, e: Disk, id: string)
    requires Sound(n, d) && Sound(n, e) && Exists(d, id) && Exists(e, id)
    ensures Read(d, id) == Read(e, id)
  {
    hide Read, Exists;
    ReadSound(n, d, id);
    ReadSound(n, e, id);
  }

  lemma SupportsReads(n: Names, d: Disk, e: Disk, need: set<string>, id: string)
    requires Sound(n, d) && Exists(d, id) && Supports(n, e, need) && id in need
    ensures Read(e, id) == Read(d, id)
  {
    ReadAgrees(n, d, e, id);
  }

  ghost predicate Supports(n: Names, d: Disk, need: set<string>) {
    Sound(n, d) && forall id :: id in need ==> Exists(d, id)
  }

  /** The new pack is complete and holds everything needed. */
  predicate Stands(d: Disk, pack: Option<string>, need: set<string>) {
    match pack
    case None => need == {}
    case Some(p) => p in d.packs && p in d.indexes && d.indexes[p].Keys == need
  }

  lemma StandsSupports(n: Names, d: Disk, pack: Option<string>, need: set<string>)
    requires Sound(n, d) && Stands(d, pack, need)
    ensures Supports(n, d, need)
  {
    forall id | id in need
      ensures Exists(d, id)
    {
      assert PackHas(d, pack.value, id) && pack.value in PacksWith(d, id);
    }
  }

  // ---- the new pack ----

  /** The writer's pack and index: each id once. */
  function Written(s: Store, ids: seq<string>): (Pack, PackIndex) {
    if ids == [] then ([], map[])
    else
      var (pack, index) := Written(s, ids[..|ids| - 1]);
      var id := ids[|ids| - 1];
      if id in s && id !in index then (pack + [s[id]], index[id := |pack|]) else (pack, index)
  }

  lemma {:induction false} WrittenHolds(n: Names, s: Store, ids: seq<string>)
    requires Addressed(n.hash, s)
    ensures forall id :: id in Written(s, ids).1 <==> id in ids && id in s
    ensures forall id :: id in Written(s, ids).1 ==>
              Written(s, ids).1[id] < |Written(s, ids).0| && n.hash(Written(s, ids).0[Written(s, ids).1[id]]) == id
  {
    if ids != [] {
      WrittenHolds(n, s, ids[..|ids| - 1]);
      assert ids == ids[..|ids| - 1] + [ids[|ids| - 1]];
    }
  }

  lemma WrittenFits(n: Names, s: Store, ids: seq<string>)
    requires Unambiguous(n) && Addressed(n.hash, s)
    ensures IndexFits(n, n.packHash(Written(s, ids).0), Written(s, ids).1)
  {
    hide Written;
    WrittenHolds(n, s, ids);
    forall pack: Pack, x | n.packHash(pack) == n.packHash(Written(s, ids).0) && x in Written(s, ids).1
      ensures Written(s, ids).1[x] < |pack| && n.hash(pack[Written(s, ids).1[x]]) == x
    {
      assert pack == Written(s, ids).0;
    }
  }

  // ---- each deletion and write ----

  /** Naming the new pack file: if the name was taken it was the same file. */
  lemma PackNamed(n: Names, d: Disk, need: set<string>, pack: Pack, e: Disk)
    requires Supports(n, d, need) && e == d.(packs := d.packs[n.packHash(pack) := pack])
    ensures Supports(n, e, need)
  {
    hide IndexFits;
    forall id | id in need ensures Exists(e, id) {
      if p :| p in PacksWith(d, id) { assert PackHas(e, p, id) && p in PacksWith(e, id); }
    }
  }

  lemma IndexWritten(n: Names, d: Disk, p: string, index: PackIndex, e: Disk)
    requires Sound(n, d) && p in d.packs && IndexFits(n, p, index)
    requires e == d.(indexes := d.indexes[p := index])
    ensures Sound(n, e) && Stands(e, Some(p), index.Keys)
  {
    hide IndexFits;
  }

  /** Deleting another pack, first the pack and then its index. */
  lemma Dropped(n: Names, d: Disk, p: string, newPack: Option<string>, need: set<string>)
    requires Sound(n, d) && Stands(d, newPack, need) && newPack != Some(p)
    ensures var e := d.(packs := d.packs - {p});
            var f := e.(indexes := e.indexes - {p});
            Supports(n, e, need) && Supports(n, f, need) && Sound(n, f) && Stands(f, newPack, need)
  {
    hide IndexFits, Exists, Unambiguous;
    var e := d.(packs := d.packs - {p});
    var f := e.(indexes := e.indexes - {p});
    StandsSupports(n, e, newPack, need);
    StandsSupports(n, f, newPack, need);
  }

  /** The refs a repository keeps: HEAD's commit, branches and tags. */
  datatype Refs = Refs(head: Option<string>, branches: map<string, string>, tags: map<string, string>)

  /** `tips`: HEAD, then the branches, then the tags. */
  function TipsOf(refs: Refs): (tips: seq<string>)
    ensures forall h :: h in tips <==> refs.head == Some(h) || h in refs.branches.Values || h in refs.tags.Values
  {
    (if refs.head.Some? then [refs.head.value] else [])
    + Values(refs.branches, Sorted(refs.branches.Keys)) + Values(refs.tags, Sorted(refs.tags.Keys))
  }

  method Tips(refs: Refs) returns (tips: seq<string>)
    ensures tips == TipsOf(refs)
  {
    tips := if refs.head.Some? then [refs.head.value] else [];
    var branches := CollectValues(refs.branches);
    var tags := CollectValues(refs.tags);
    tips := tips + branches + tags;
  }

  class ObjectDir {
    var disk: Disk
    const names: Names
    ghost var trail: seq<Disk>

    /** Everything the directory has looked like since the trail was this long. */
    ghost predicate SafeSince(start: nat, need: set<string>)
      reads this
    {
      && start <= |trail|
      && forall i :: start <= i < |trail| ==> Supports(names, trail[i], need)
    }

    method SetPack(p: string, pack: Pack)
      modifies this
      ensures disk == old(disk).(packs := old(disk).packs[p := pack]) && trail == old(trail) + [disk]
    {
      disk := disk.(packs := disk.packs[p := pack]);
      trail := trail + [disk];
    }

    method SetIndex(p: string, index: PackIndex)
      modifies this
      ensures disk == old(disk).(indexes := old(disk).indexes[p := index]) && trail == old(trail) + [disk]
    {
      disk := disk.(indexes := disk.indexes[p := index]);
      trail := trail + [disk];
    }

    method RemovePack(p: string)
      modifies this
      ensures disk == old(disk).(packs := old(disk).packs - {p}) && trail == old(trail) + [disk]
    {
      disk := disk.(packs := disk.packs - {p});
      trail := trail + [disk];
    }

    method RemoveIndex(p: string)
      modifies this
      ensures disk == old(disk).(indexes := old(disk).indexes - {p}) && trail == old(trail) + [disk]
    {
      disk := disk.(indexes := disk.indexes - {p});
      trail := trail + [disk];
    }

    method RemoveLoose(id: string)
      modifies this
      ensures disk == old(disk).(loose := old(disk).loose - {id}) && trail == old(trail) + [disk]
    {
      disk := disk.(loose := disk.loose - {id});
      trail := trail + [disk];
    }

    /** The pack of `ids` under construction; nothing on disk changes yet. */
    method WritePack(s: Store, ids: seq<string>) returns (pack: Pack, index: PackIndex)
      ensures (pack, index) == Written(s, ids)
    {
      pack, index := [], map[];
      for i := 0 to |ids|
        invariant (pack, index) == Written(s, ids[..i])
      {
        assert ids[..i + 1][..i] == ids[..i];
        if ids[i] in s && ids[i] !in index {
          index := index[ids[i] := |pack|];
          pack := pack + [s[ids[i]]];
        }
      }
      assert ids[..|ids|] == ids;
    }

    /** Writes the new pack, file by file, before anything is deleted. */
    method Consolidate(s: Store, ids: seq<string>, ghost need: set<string>) returns (newPack: Option<string>)
      requires Sound(names, disk) && Addressed(names.hash, s)
      requires forall id :: id in need <==> id in ids && id in s
      requires forall id :: id in need ==> Exists(disk, id)
      modifies this
      ensures old(trail) <= trail && SafeSince(|old(trail)|, need) && Sound(names, disk)
      ensures Stands(disk, newPack, need)
      ensures newPack.None? <==> need == {}
      ensures disk.loose == old(disk).loose
      ensures disk.packs.Keys == old(disk).packs.Keys + if newPack.Some? then {newPack.value} else {}
    {
      hide Sound, Exists, Written, IndexFits, Addressed;
      var pack, index := WritePack(s, ids);
      WrittenHolds(names, s, ids);
      assert index.Keys == need;
      assert index == map[] <==> index.Keys == {};
      if index == map[] {
        return None;
      }
      SoundNames(names, disk);
      WrittenFits(names, s, ids);
      var p := names.packHash(pack);
      PackNamed(names, disk, need, pack, disk.(packs := disk.packs[p := pack]));
      SetPack(p, pack);
      IndexWritten(names, disk, p, index, disk.(indexes := disk.indexes[p := index]));
      SetIndex(p, index);
      StandsSupports(names, disk, Some(p), need);
      return Some(p);
    }

    /** Deletes the old packs, file by file. */
    method DropPacks(former: set<string>, newPack: Option<string>, ghost need: set<string>)
      requires Sound(names, disk) && Stands(disk, newPack, need)
      modifies this
      ensures old(trail) <= trail && SafeSince(|old(trail)|, need) && Sound(names, disk)
      ensures Stands(disk, newPack, need)
      ensures disk.loose == old(disk).loose
      ensures disk.packs.Keys == old(disk).packs.Keys - (former - (if newPack.Some? then {newPack.value} else {}))
    {
      hide IndexFits, Unambiguous, Exists, Sound, Stands, Supports;
      var todo := former;
      while todo != {}
        invariant todo <= former
        invariant old(trail) <= trail && SafeSince(|old(trail)|, need) && Sound(names, disk)
        invariant Stands(disk, newPack, need)
        invariant disk.loose == old(disk).loose
        invariant disk.packs.Keys ==
              old(disk).packs.Keys - ((former - todo) - (if newPack.Some? then {newPack.value} else {}))
        decreases |todo|
      {
        var p :| p in todo;
        todo := todo - {p};
        if newPack != Some(p) {
          Dropped(names, disk, p, newPack, need);
          RemovePack(p);
          RemoveIndex(p);
        }
      }
    }

    /** Deletes the loose files. */
    method DropLoose(newPack: Option<string>, ghost need: set<string>)
      requires Sound(names, disk) && Stands(disk, newPack, need)
      modifies this
      ensures old(trail) <= trail && SafeSince(|old(trail)|, need) && Sound(names, disk)
      ensures Stands(disk, newPack, need)
      ensures disk.loose == map[] && disk.packs == old(disk).packs
    {
      hide IndexFits, Unambiguous, Exists;
      var todo := disk.loose.Keys;
      while todo != {}
        invariant old(trail) <= trail && SafeSince(|old(trail)|, need) && Sound(names, disk)
        invariant Stands(disk, newPack, need)
        invariant disk.loose.Keys == todo && disk.packs == old(disk).packs
        decreases |todo|
      {
        var id :| id in todo;
        todo := todo - {id};
        RemoveLoose(id);
        StandsSupports(names, disk, newPack, need);
      }
    }

    /** The ids to keep: what the walk from the refs puts out, and what the staging
        index names and the directory has. */
    method Gather(shallow: set<string>, refs: Refs, index: Option<Manifest>) returns (keep: seq<string>)
      requires Sound(names, disk)
      ensures forall id :: id in keep && id in View(disk) <==>
                Exists(disk, id) && Gathered(View(disk), shallow, TipsOf(refs), index, id)
      ensures |keep| == |GatheredIds(View(disk), shallow, TipsOf(refs), index)|
    {
      hide Gathered, GatheredIds, Read, Exists, Distinct, Sound, View, ManifestIds, TipsOf, Sorted, Values, Walked;
      var tips := Tips(refs);
      var store := View(disk);
      forall id ensures Exists(disk, id) <==> id in store { ReadSound(names, disk, id); }
      keep := Reachable(store, shallow, tips);
      WalkedSound(store, shallow, tips);
      if index.Some? {
        var ids := CollectIds(index.value);
        keep := AddStaged(store, keep, ids);
      }
      GatheredKeep(store, shallow, tips, index, keep);
      CountKept(store, shallow, tips, index, keep);
    }

    /** Puts what is needed of `ids` into one new pack and deletes everything else. */
    method Repack(s: Store, ids: seq<string>, ghost need: set<string>)
      requires Sound(names, disk) && Addressed(names.hash, s)
      requires forall id :: id in need <==> id in ids && id in s
      requires forall id :: id in need ==> Exists(disk, id)
      modifies this
      ensures old(trail) <= trail && SafeSince(|old(trail)|, need)
      ensures Sound(names, disk) && Ids(disk) == need
      ensures disk.loose == map[] && |disk.packs.Keys| == if need == {} then 0 else 1
    {
      hide Exists, Sound, Supports, Stands, Ids, Addressed;
      var oldPacks := disk.packs.Keys;
      var newPack := Consolidate(s, ids, need);
      DropPacks(oldPacks, newPack, need);
      OnePack(oldPacks, newPack, disk.packs.Keys);
      DropLoose(newPack, need);
      OnlyTheNewPack(disk, newPack, need);
    }

    /** Collects garbage: what the walk from the refs puts out and the staging index
        names is kept, in one new pack if it is anything. Every state the directory
        goes through still has all of it, with unchanged content, and the last one
        has nothing else. The report counts what is kept, stored or not, and what
        the directory has fewer of than before. */
    method Collect(shallow: set<string>, refs: Refs,
                   index: Option<Manifest>) returns (kept: nat, pruned: nat, ghost need: set<string>)
      requires Sound(names, disk)
      modifies this
      ensures forall id :: id in need <==>
                Exists(old(disk), id) && Gathered(View(old(disk)), shallow, TipsOf(refs), index, id)
      ensures old(trail) <= trail && SafeSince(|old(trail)|, need)
      ensures forall i, id :: |old(trail)| <= i < |trail| && id in need ==> Read(trail[i], id) == Read(old(disk), id)
      ensures Sound(names, disk) && Ids(disk) == need
      ensures disk.loose == map[] && |disk.packs.Keys| == if need == {} then 0 else 1
      ensures kept == |GatheredIds(View(old(disk)), shallow, TipsOf(refs), index)|
      ensures pruned == if kept <= |Ids(old(disk))| then |Ids(old(disk))| - kept else 0
      ensures kept == |need| ==> |Ids(old(disk))| == |Ids(disk)| + pruned
    {
      hide Gathered, GatheredIds, Read, Exists, Distinct, Sound, View, Supports, Stands, Ids, TipsOf, Walked;
      var store := View(disk);
      forall id ensures Exists(disk, id) <==> id in store { ReadSound(names, disk, id); }
      ViewAddressed(names, disk);
      var totalBefore := |Ids(disk)|;
      var keep := Gather(shallow, refs, index);
      need := set id | id in keep && id in store;
      Repack(store, keep, need);
      forall i, id | |old(trail)| <= i < |trail| && id in need ensures Read(trail[i], id) == Read(old(disk), id) {
        SupportsReads(names, old(disk), trail[i], need, id);
      }
      NeedStored(names, old(disk), need);
      kept := |keep|;
      pruned := if totalBefore >= kept then totalBefore - kept else 0;
    }

    /** Adds the stored ids of the staging index that are not kept already. */
    method AddStaged(s: Store, start: seq<string>, ids: seq<string>) returns (keep: seq<string>)
      requires Distinct(start)
      ensures forall id :: id in keep <==> id in start || (id in ids && id in s)
      ensures Distinct(keep)
    {
      keep := start;
      for i := 0 to |ids|
        invariant Distinct(keep)
        invariant forall id :: id in keep <==> id in start || (id in ids[..i] && id in s)
      {
        assert ids[..i + 1] == ids[..i] + [ids[i]];
        if ids[i] in s && ids[i] !in keep {
          keep := keep + [ids[i]];
        }
      }
      assert ids[..|ids|] == ids;
    }
  }

  /** Put out by the walk from the tips, or named by the staging index. */
  ghost predicate Gathered(s: Store, shallow: set<string>, tips: seq<string>, index: Option<Manifest>, id: string) {
    id in Walked(s, shallow, tips) || (index.Some? && id in ManifestIds(index.value))
  }

  /** The ids a collection keeps: what the walk puts out, and what the staging index
      names and the store has. */
  ghost function GatheredIds(s: Store, shallow: set<string>, tips: seq<string>, index: Option<Manifest>): set<string> {
    (set id | id in Walked(s, shallow, tips))
    + if index.Some? then set id | id in ManifestIds(index.value) && id in s else {}
  }

  lemma OnePack(former: set<string>, newPack: Option<string>, left: set<string>)
    requires var added := if newPack.Some? then {newPack.value} else {}; left == former + added - (former - added)
    ensures left == if newPack.Some? then {newPack.value} else {}
  {}

  lemma {:induction false} CountDistinct(ids: seq<string>)
    requires Distinct(ids)
    ensures |set id | id in ids| == |ids|
  {
    if ids != [] {
      var init, last := ids[..|ids| - 1], ids[|ids| - 1];
      CountDistinct(init);
      assert ids == init + [last] && last !in init;
      assert (set id | id in ids) == (set id | id in init) + {last};
    }
  }

  lemma CountKept(s: Store, shallow: set<string>, tips: seq<string>, index: Option<Manifest>, keep: seq<string>)
    requires Distinct(keep)
    requires forall id :: id in keep <==>
               id in Walked(s, shallow, tips) || (index.Some? && id in ManifestIds(index.value) && id in s)
    ensures |GatheredIds(s, shallow, tips, index)| == |keep|
  {
    hide Walked, ManifestIds;
    CountDistinct(keep);
    assert GatheredIds(s, shallow, tips, index) == set id | id in keep;
  }

  lemma NeedStored(n: Names, d: Disk, need: set<string>)
    requires forall id :: id in need ==> Exists(d, id)
    ensures need <= Ids(d) && |need| <= |Ids(d)|
  {
    assert forall id :: id in need ==> id in Ids(d);
    SubsetCount(need, Ids(d));
  }

  lemma SubsetCount(a: set<string>, b: set<string>)
    requires a <= b
    ensures |a| <= |b|
  {
    assert b == a + (b - a);
  }

  lemma GatheredKeep(s: Store, shallow: set<string>, tips: seq<string>, index: Option<Manifest>, keep: seq<string>)
    requires forall id :: id in keep <==>
               id in Walked(s, shallow, tips) || (index.Some? && id in ManifestIds(index.value) && id in s)
    ensures forall id :: id in keep && id in s <==> id in s && Gathered(s, shallow, tips, index, id)
  {
    hide Walked;
  }

  /** Reachable from the tips or named by the staging index. */
  ghost predicate Wanted(s: Store, shallow: set<string>, tips: seq<string>, index: Option<Manifest>, id: string) {
    Reachability.Kept(s, shallow, tips, id) || (index.Some? && id in ManifestIds(index.value))
  }

  /** Only what is wanted is gathered; everything stored that is wanted is, if ids
      met both as history and as tree or leaf lead nowhere. */
  lemma GatheredIsWanted(s: Store, shallow: set<string>, tips: seq<string>, index: Option<Manifest>)
    ensures forall id :: Gathered(s, shallow, tips, index, id) ==> Wanted(s, shallow, tips, index, id)
    ensures Harmless(s, shallow, tips) ==>
              forall id :: id in s ==> (Gathered(s, shallow, tips, index, id) <==> Wanted(s, shallow, tips, index, id))
  {
    hide Reachability.Kept, Walked, Harmless;
    WalkedSound(s, shallow, tips);
    if Harmless(s, shallow, tips) { WalkedExact(s, shallow, tips); }
  }

  /** Where collection deletes reachable history: the grandparent of a tip that
      names its parent as its tree as well. */
  lemma ParentAsTreeLost(s: Store, k: string, p: string, q: string)
    requires k in s && p in s && q in s && k != p && q != p && q != k
    requires IsCommit(s, k) && s[k].commit.value.tree == p && s[k].commit.value.parents == [p]
    requires IsCommit(s, p) && s[p].commit.value.parents == [q]
    requires ReadManifest(s, p) == Some(EMPTY)
    ensures Wanted(s, {}, [k], None, q) && !Gathered(s, {}, [k], None, q)
  {
    hide Reachability.Kept, Walked;
    ParentAsTree(s, k, p, q);
  }

  lemma ViewAddressed(n: Names, d: Disk)
    requires Sound(n, d)
    ensures Addressed(n.hash, View(d))
  {
    hide Read;
    forall id | id in View(d) ensures n.hash(View(d)[id]) == id { ReadSound(n, d, id); }
  }

  lemma SoundNames(n: Names, d: Disk)
    requires Sound(n, d)
    ensures Unambiguous(n)
  {}

  lemma OnlyTheNewPack(d: Disk, newPack: Option<string>, need: set<string>)
    requires Stands(d, newPack, need) && d.loose == map[]
    requires forall p :: p in d.packs ==> newPack == Some(p)
    ensures Ids(d) == need
  {}
}
