// One client's side of the bucket protocol (crates/repo/src/bucket.rs), and the
// push that drives it (crates/repo/src/remote.rs). Before each operation on the
// bucket another client may act.
module Pushing {
  import opened Alone
  import opened Batching
  import opened Bucket
  import opened Closure
  import opened Collections
  import opened Objects
  import opened Reachability
  import opened Readers
  import opened Refs
  import Wire

  /** What others do to the bucket, one entry before each of our operations. */
  type Rivals = seq<Shared -> Shared>

  /** The bucket our next operation meets. */
  function Met(s: Shared, rivals: Rivals): Shared {
    if rivals == [] then s else rivals[0](s)
  }

  function Later(rivals: Rivals): Rivals {
    if rivals == [] then [] else rivals[1..]
  }

  /** What is left of the others after some of our operations. */
  ghost predicate Left(rivals: Rivals, start: nat, rest: Rivals) {
    start <= |rivals| && rest == rivals[start..]
  }

  ghost predicate Rest(rivals: Rivals, rest: Rivals) {
    exists start :: Left(rivals, start, rest)
  }

  lemma RestSelf(rivals: Rivals)
    ensures Rest(rivals, rivals)
  {
    assert Left(rivals, 0, rivals);
  }

  lemma RestLater(rivals: Rivals, rest: Rivals)
    requires Rest(rivals, rest)
    ensures Rest(rivals, Later(rest))
  {
    var start: nat :| Left(rivals, start, rest);
    if rest != [] { assert Left(rivals, start + 1, Later(rest)); }
  }

  lemma RestTrans(a: Rivals, b: Rivals, c: Rivals)
    requires Rest(a, b) && Rest(b, c)
    ensures Rest(a, c)
  {
    var i: nat :| Left(a, i, b);
    var j: nat :| Left(b, j, c);
    assert Left(a, i + j, c);
  }

  /** Others leave the pack list and this branch alone. */
  ghost predicate Unrelated(rivals: Rivals, branch: string) {
    forall i, s :: 0 <= i < |rivals| ==>
      Tag(rivals[i](s), PackList) == Tag(s, PackList) && Tag(rivals[i](s), Ref(branch)) == Tag(s, Ref(branch))
  }

  lemma NobodyUnrelated(branch: string)
    ensures Unrelated([], branch)
  {}

  lemma UnrelatedRest(rivals: Rivals, rest: Rivals, branch: string)
    requires Unrelated(rivals, branch) && Rest(rivals, rest)
    ensures Unrelated(rest, branch)
  {
    var start: nat :| Left(rivals, start, rest);
    assert forall i :: 0 <= i < |rest| ==> rest[i] == rivals[start + i];
  }

  lemma UnrelatedMet(s: Shared, rivals: Rivals, branch: string)
    requires Unrelated(rivals, branch)
    ensures Tag(Met(s, rivals), PackList) == Tag(s, PackList) && Tag(Met(s, rivals), Ref(branch)) == Tag(s, Ref(branch))
    ensures Unrelated(Later(rivals), branch)
  {
    RestSelf(rivals);
    RestLater(rivals, rivals);
    UnrelatedRest(rivals, Later(rivals), branch);
  }

  /** Nobody who leaves the pack list and the branch alone can make us lose a swap. */
  lemma UnrelatedLosesNothing(s: Shared, rivals: Rivals, branch: string, tip: string, pack: string, n: nat)
    requires Unrelated(rivals, branch) && n > 0
    ensures !AlwaysOvertaken(s, rivals, pack, n)
    ensures Branching(s, rivals, branch, tip).3
  {
    hide Unrelated;
    UnrelatedMet(s, rivals, branch);
    UnrelatedMet(Met(s, rivals), Later(rivals), branch);
  }

  /** What the protocol's steps were proved to keep. */
  ghost predicate Lawful(w: World, f: Shared -> Shared) {
    forall s :: SharedInv(w, s) ==> SharedInv(w, f(s)) && Grows(s, f(s))
  }

  /** Others keep the protocol. */
  ghost predicate Friendly(w: World, rivals: Rivals) {
    forall i :: 0 <= i < |rivals| ==> Lawful(w, rivals[i])
  }

  lemma MetKeeps(w: World, s: Shared, rivals: Rivals)
    requires SharedInv(w, s) && Friendly(w, rivals)
    ensures SharedInv(w, Met(s, rivals)) && Grows(s, Met(s, rivals)) && Friendly(w, Later(rivals))
  {
    hide SharedInv, Grows;
    if rivals == [] {
      GrowsSelf(s);
    } else {
      assert Lawful(w, rivals[0]);
      LaterFriendly(w, rivals);
    }
  }

  lemma LaterFriendly(w: World, rivals: Rivals)
    requires Friendly(w, rivals)
    ensures Friendly(w, Later(rivals))
  {
    hide Lawful;
    if rivals != [] {
      assert forall i :: 0 <= i < |rivals| - 1 ==> rivals[1..][i] == rivals[i + 1];
    }
  }

  /** The bucket `t` comes after `s`: nobody else is there and nothing happened, or
      everybody keeps the protocol. */
  ghost predicate Follows(w: World, s: Shared, t: Shared, rivals: Rivals) {
    || (rivals == [] && t == s)
    || (SharedInv(w, s) && SharedInv(w, t) && Grows(s, t) && Friendly(w, rivals))
  }

  lemma FollowsMet(w: World, s: Shared, t: Shared, rivals: Rivals)
    requires Follows(w, s, t, rivals)
    ensures Follows(w, s, Met(t, rivals), Later(rivals))
  {
    hide SharedInv, Grows, Friendly;
    if SharedInv(w, s) && SharedInv(w, t) && Grows(s, t) && Friendly(w, rivals) {
      MetKeeps(w, t, rivals);
      GrowsTrans(s, t, Met(t, rivals));
    }
  }

  lemma FollowsSelf(w: World, s: Shared, t: Shared, rivals: Rivals)
    requires Follows(w, s, t, rivals)
    ensures Follows(w, t, t, rivals)
  {
    hide SharedInv;
    GrowsSelf(t);
  }

  lemma FollowsTrans(w: World, s: Shared, t: Shared, u: Shared, rivals: Rivals)
    requires (Follows(w, s, t, rivals) || t == s) && Follows(w, t, u, rivals)
    ensures Follows(w, s, u, rivals)
  {
    hide SharedInv, Grows;
    if Grows(s, t) && Grows(t, u) { GrowsTrans(s, t, u); }
  }

  /** A listed pack is the same whenever it is read. */
  lemma SamePack(w: World, s: Shared, t: Shared, rivals: Rivals, p: string)
    requires Follows(w, s, t, rivals) && p in Listed(s)
    ensures PackStored(s, p) <==> PackStored(t, p)
    ensures PackStored(s, p) ==> BodyIn(t, p) == BodyIn(s, p)
  {}

  // ---- the retry loop ----

  /** The first `n` tries of appending a pack to the list, each a read and a swap:
      the bucket and the others afterwards, and whether the pack is listed. */
  function Trying(s: Shared, rivals: Rivals, pack: string, n: nat): (Shared, Rivals, bool)
    decreases n
  {
    if n == 0 then (s, rivals, false)
    else
      var seen := Met(s, rivals);
      if pack in Listed(seen) then (seen, Later(rivals), true)
      else
        var now := Met(seen, Later(rivals));
        var (after, done) := TryPut(now, PackList, ListBlob(Listed(seen) + [pack]), Tag(seen, PackList));
        if done then (after, Later(Later(rivals)), true) else Trying(after, Later(Later(rivals)), pack, n - 1)
  }

  lemma NotTrying(pack: string)
    ensures forall s, rivals :: Trying(s, rivals, pack, 0) == (s, rivals, false)
  {}

  lemma TryOnce(s: Shared, rivals: Rivals, pack: string, n: nat)
    requires n > 0
    ensures var seen := Met(s, rivals);
            var now := Met(seen, Later(rivals));
            var (after, done) := TryPut(now, PackList, ListBlob(Listed(seen) + [pack]), Tag(seen, PackList));
            Trying(s, rivals, pack, n) ==
            if pack in Listed(seen) then (seen, Later(rivals), true)
            else if done then (after, Later(Later(rivals)), true)
            else Trying(after, Later(Later(rivals)), pack, n - 1)
  {
    hide Met, Later, TryPut;
  }

  /** Each of `n` tries reads a list without the pack and is overtaken before its swap. */
  predicate AlwaysOvertaken(s: Shared, rivals: Rivals, pack: string, n: nat)
    decreases n
  {
    n == 0 ||
    var seen := Met(s, rivals);
    var now := Met(seen, Later(rivals));
    && pack !in Listed(seen)
    && Tag(now, PackList) != Tag(seen, PackList)
    && AlwaysOvertaken(now, Later(Later(rivals)), pack, n - 1)
  }

  /** Appending fails exactly when every try is overtaken, which takes another
      client's write for each; otherwise the pack is listed, and whatever others
      listed stays listed. */
  lemma {:induction false} TryingMeans(w: World, s: Shared, rivals: Rivals, pack: string, n: nat)
    requires SharedInv(w, s) && Friendly(w, rivals) && PackStored(s, pack)
    ensures var (t, later, ok) := Trying(s, rivals, pack, n);
            && (ok <==> !AlwaysOvertaken(s, rivals, pack, n))
            && (ok ==> pack in Listed(t))
            && (!ok ==> |rivals| >= 2 * n && t.counter >= s.counter + n)
            && SharedInv(w, t) && Grows(s, t) && Friendly(w, later) && Rest(rivals, later)
    decreases n
  {
    hide SharedInv, Friendly, Grows, Rest, Trying, Met, Later;
    RestSelf(rivals);
    RestLater(rivals, rivals);
    RestLater(rivals, Later(rivals));
    if n == 0 {
      GrowsSelf(s);
      NotTrying(pack);
    } else {
      TryOnce(s, rivals, pack, n);
      var seen, now := Met(s, rivals), Met(Met(s, rivals), Later(rivals));
      MetKeeps(w, s, rivals);
      MetKeeps(w, seen, Later(rivals));
      GrowsTrans(s, seen, now);
      PackKept(s, seen, pack);
      PackKept(s, now, pack);
      if pack !in Listed(seen) {
        SameList(w, seen, now);
        if Tag(now, PackList) == Tag(seen, PackList) {
          AppendKeeps(w, now, pack, AfterPut(now, PackList, ListBlob(Listed(now) + [pack])));
          GrowsTrans(s, now, AfterPut(now, PackList, ListBlob(Listed(now) + [pack])));
        } else {
          Overtaken(seen, rivals);
          TryingMeans(w, now, Later(Later(rivals)), pack, n - 1);
          RestTrans(rivals, Later(Later(rivals)), Trying(now, Later(Later(rivals)), pack, n - 1).1);
          GrowsTrans(s, now, Trying(now, Later(Later(rivals)), pack, n - 1).0);
          CounterGrows(s, seen);
        }
      }
    }
  }

  lemma Overtaken(seen: Shared, rivals: Rivals)
    requires Tag(Met(seen, Later(rivals)), PackList) != Tag(seen, PackList)
    ensures |rivals| == |Later(Later(rivals))| + 2
  {}

  /** A list whose tag is unchanged is unchanged; a changed tag is a new one. */
  lemma SameList(w: World, s: Shared, t: Shared)
    requires SharedInv(w, s) && Grows(s, t)
    ensures Tag(s, PackList) == Tag(t, PackList) ==> Listed(s) == Listed(t)
    ensures SharedInv(w, t) && Tag(s, PackList) != Tag(t, PackList) ==> t.counter > s.counter
  {}

  lemma CounterGrows(s: Shared, t: Shared)
    requires Grows(s, t)
    ensures s.counter <= t.counter
  {}

  // ---- moving the branch ----

  /** Reading the ref, swapping it and recording a default branch: the bucket right
      after the swap, the bucket at the end, the others afterwards, and whether the
      swap was made. */
  function Branching(s: Shared, rivals: Rivals, branch: string, tip: string): (Shared, Shared, Rivals, bool) {
    var seen := Met(s, rivals);
    var now := Met(seen, Later(rivals));
    var (after, done) := TryPut(now, Ref(branch), RefBlob(tip), Tag(seen, Ref(branch)));
    var third := Later(Later(rivals));
    if !done then (after, after, third, false)
    else
      var reading := Met(after, third);
      if Head in reading.blobs then (after, reading, Later(third), true)
      else
        var writing := Met(reading, Later(third));
        (after, AfterPut(writing, Head, HeadBlob(branch)), Later(Later(third)), true)
  }

  /** The branch moves exactly when nobody moved it between the read and the swap;
      at that moment it is at the tip, and every bucket before and after keeps the
      protocol. */
  lemma BranchingMeans(w: World, s: Shared, rivals: Rivals, branch: string, tip: string)
    requires SharedInv(w, s) && Friendly(w, rivals)
    requires forall id :: InClosure(w.hash, UNCUT, tip, id) ==> Available(s, id)
    ensures var (at, t, later, done) := Branching(s, rivals, branch, tip);
            && (done <==> Tag(Met(s, rivals), Ref(branch)) == Tag(Met(Met(s, rivals), Later(rivals)), Ref(branch)))
            && (done ==> RefAt(at, branch, tip) && Ref(branch) in t.blobs && Head in t.blobs)
            && SharedInv(w, at) && SharedInv(w, t) && Friendly(w, later)
            && Grows(s, at) && Grows(at, t) && Rest(rivals, later)
  {
    hide SharedInv, Friendly, Grows, InClosure, Available, Rest;
    RestSelf(rivals);
    RestLater(rivals, rivals);
    RestLater(rivals, Later(rivals));
    RestLater(rivals, Later(Later(rivals)));
    RestLater(rivals, Later(Later(Later(rivals))));
    var seen, now := Met(s, rivals), Met(Met(s, rivals), Later(rivals));
    var third := Later(Later(rivals));
    MetKeeps(w, s, rivals);
    MetKeeps(w, seen, Later(rivals));
    GrowsTrans(s, seen, now);
    var (after, done) := TryPut(now, Ref(branch), RefBlob(tip), Tag(seen, Ref(branch)));
    GrowsSelf(now);
    if done {
      forall id | InClosure(w.hash, UNCUT, tip, id) ensures Available(now, id) { StaysAvailable(s, now, id); }
      PutRefKeeps(w, now, branch, tip, after);
      GrowsTrans(s, now, after);
      var reading := Met(after, third);
      MetKeeps(w, after, third);
      RefStays(after, reading, branch);
      if Head !in reading.blobs {
        var writing := Met(reading, Later(third));
        MetKeeps(w, reading, Later(third));
        GrowsTrans(after, reading, writing);
        RefStays(reading, writing, branch);
        PutHeadKeeps(w, writing, branch, AfterPut(writing, Head, HeadBlob(branch)));
        GrowsTrans(after, writing, AfterPut(writing, Head, HeadBlob(branch)));
      }
    }
  }

  lemma RefStays(s: Shared, t: Shared, branch: string)
    requires Grows(s, t) && Ref(branch) in s.blobs
    ensures Ref(branch) in t.blobs
  {}

  // ---- the client ----

  class BucketTransport {
    const bucket: InMemoryBucket
    const world: World
    var index: Option<map<string, string>>
    var rivals: Rivals

    constructor (bucket: InMemoryBucket, world: World, rivals: Rivals)
      ensures this.bucket == bucket && this.world == world && index == None && this.rivals == rivals
    {
      this.bucket, this.world, this.index, this.rivals := bucket, world, None, rivals;
    }

    /** The bucket is ours alone, or everybody keeps the protocol. */
    ghost predicate Orderly()
      reads this, bucket
    {
      Follows(world, bucket.State(), bucket.State(), rivals)
    }

    /** The bucket and everybody who writes to it keep the protocol. */
    ghost predicate Safe()
      reads this, bucket
    {
      PackInjective(world) && SharedInv(world, bucket.State()) && Friendly(world, rivals)
    }

    /** Another client's turn. */
    method Wait()
      modifies this`rivals, bucket
      ensures bucket.State() == Met(old(bucket.State()), old(rivals)) && rivals == Later(old(rivals))
    {
      if rivals != [] {
        var t := rivals[0](bucket.State());
        bucket.blobs, bucket.counter := t.blobs, t.counter;
        rivals := rivals[1..];
      }
    }

    /** Builds the index of the bucket as it is when the list is read, or reuses it;
        refuses an overlong list and a listed pack that cannot be parsed. */
    method EnsureIndex() returns (ok: bool, ghost at: Shared)
      requires Orderly()
      modifies this, bucket
      ensures Follows(world, old(bucket.State()), at, rivals) && Follows(world, at, bucket.State(), rivals)
      ensures Rest(old(rivals), rivals)
      ensures old(rivals) == [] ==> old(bucket.State()) == at == bucket.State()
      ensures ok <==> old(index).Some? || ReaderAccepts(world, at)
      ensures index == if old(index).None? && ok then Some(IndexOf(at, Listed(at))) else old(index)
    {
      hide Follows, Parses, Indexed, IndexOf, Rest;
      ghost var start, others := bucket.State(), rivals;
      RestSelf(rivals);
      RestLater(rivals, rivals);
      at := start;
      if index.Some? {
        return true, at;
      }
      var built: map<string, string> := map[];
      FollowsMet(world, start, start, rivals);
      Wait();
      at := bucket.State();
      FollowsSelf(world, start, at, rivals);
      var stored := bucket.Get(PackList);
      if stored.Some? && stored.value.blob.ListBlob? {
        var list := stored.value.blob.ids;
        if |list| > MAX_PACKS {
          return false, at;
        }
        IndexNothing(at);
        assert list[..0] == [];
        for i := 0 to |list|
          invariant built == IndexOf(at, list[..i])
          invariant index == old(index)
          invariant Follows(world, start, at, rivals) && Follows(world, at, bucket.State(), rivals)
          invariant Rest(others, rivals)
          invariant others == [] ==> rivals == [] && start == at == bucket.State()
          invariant forall p :: p in list[..i] && PackStored(at, p) ==> Parses(world, BodyIn(at, p))
        {
          assert list[..i + 1][..i] == list[..i] && list[i] in Listed(at);
          FollowsMet(world, at, bucket.State(), rivals);
          FollowsLater(world, start, at, rivals);
          RestLater(others, rivals);
          Wait();
          SamePack(world, at, bucket.State(), rivals, list[i]);
          var pack := bucket.Get(Pack(list[i]));
          if pack.Some? && pack.value.blob.PackBlob? {
            if !Parses(world, pack.value.blob.body) {
              return false, at;
            }
            built := AddPack(built, pack.value.blob.body, list[i]);
          }
          IndexStep(at, list, i);
        }
        assert list[..|list|] == list;
      } else {
        IndexNothing(at);
      }
      index := Some(built);
      return true, at;
    }

    static method AddPack(start: map<string, string>, body: Body, pack: string) returns (built: map<string, string>)
      ensures built == Indexed(start, body, pack)
    {
      built := start;
      for i := 0 to |body|
        invariant built == Indexed(start, body[..i], pack)
      {
        assert body[..i + 1][..i] == body[..i];
        built := built[body[i].0 := pack];
      }
      assert body[..|body|] == body;
    }

    /** The ids the bucket lacks, in order. */
    method MissingOf(ids: seq<string>) returns (r: Result<seq<string>>, ghost at: Shared)
      requires Orderly()
      modifies this, bucket
      ensures Follows(world, old(bucket.State()), at, rivals) && Follows(world, at, bucket.State(), rivals)
      ensures Rest(old(rivals), rivals)
      ensures old(rivals) == [] ==> old(bucket.State()) == at == bucket.State()
      ensures r.Ok? <==> old(index).Some? || ReaderAccepts(world, at)
      ensures r.Ok? ==> index == Some(IndexUsed(at, old(index))) && r.value == Missing(ids, IndexUsed(at, old(index)))
      ensures r.Err? ==> index == old(index)
    {
      hide Follows, ReaderAccepts, IndexOf, Rest;
      var ok;
      ok, at := EnsureIndex();
      if !ok {
        return Err, at;
      }
      var missing := [];
      ghost var built, s, others := index, bucket.State(), rivals;
      for i := 0 to |ids|
        invariant index.Some? && index == built && bucket.State() == s && rivals == others
        invariant missing + Missing(ids[i..], index.value) == Missing(ids, index.value)
      {
        assert ids[i..][1..] == ids[i + 1..];
        Assoc(missing, if ids[i] in index.value then [] else [ids[i]], Missing(ids[i + 1..], index.value));
        if ids[i] !in index.value {
          missing := missing + [ids[i]];
        }
      }
      return Ok(missing), at;
    }

    /** Appends a pack to the list, retrying a lost swap up to twenty times. */
    method AppendToManifest(pack: string) returns (ok: bool)
      modifies this`rivals, bucket
      ensures (bucket.State(), rivals, ok) == Trying(old(bucket.State()), old(rivals), pack, TRIES)
    {
      hide Trying;
      NotTrying(pack);
      for tries := 0 to TRIES
        invariant Trying(old(bucket.State()), old(rivals), pack, TRIES) ==
              Trying(bucket.State(), rivals, pack, TRIES - tries)
      {
        TryOnce(bucket.State(), rivals, pack, TRIES - tries);
        Wait();
        var stored := bucket.Get(PackList);
        var seen := if stored.Some? && stored.value.blob.ListBlob? then stored.value.blob.ids else [];
        var etag := if stored.Some? then Some(stored.value.etag) else None;
        if pack in seen {
          return true;
        }
        Wait();
        var done := bucket.PutIfMatch(PackList, ListBlob(seen + [pack]), etag);
        if done {
          return true;
        }
      }
      return false;
    }

    /** Uploads the objects as one pack and lists it; a pack that could not be listed
        stays behind unlisted. */
    method PutObjects(objects: Body) returns (ok: bool)
      requires Safe() && Named(world, objects)
      modifies this, bucket
      ensures Safe() && Grows(old(bucket.State()), bucket.State()) && Rest(old(rivals), rivals)
      ensures ok ==> forall i :: 0 <= i < |objects| ==> Available(bucket.State(), objects[i].0)
      ensures objects == [] ==> ok
      ensures objects != [] ==>
                var pack := world.packHash(Built(objects));
                var put := AfterPut(Met(old(bucket.State()), old(rivals)), Pack(pack), PackBlob(Built(objects)));
                && PackStored(bucket.State(), pack)
                && (ok <==> !AlwaysOvertaken(put, Later(old(rivals)), pack, TRIES))
      ensures |old(rivals)| <= 2 * TRIES ==> ok
      ensures index == if objects == [] || !ok then old(index) else None
      ensures old(rivals) == [] ==> ok && bucket.State() == Uploaded(world, old(bucket.State()), objects)
    {
      hide SharedInv, Friendly, Grows, Available, PackInjective, Built, Trying, AlwaysOvertaken, Rest;
      ghost var start, others := bucket.State(), rivals;
      RestSelf(rivals);
      RestLater(rivals, rivals);
      GrowsSelf(start);
      if objects == [] {
        return true;
      }
      var body := Built(objects);
      var pack := world.packHash(body);
      MetKeeps(world, start, rivals);
      Wait();
      ghost var s := bucket.State();
      bucket.Put(Pack(pack), PackBlob(body));
      ghost var t := bucket.State();
      BuiltNamed(world, objects);
      PutPackKeeps(world, s, body, t);
      GrowsTrans(start, s, t);
      TryingMeans(world, t, rivals, pack, TRIES);
      TryingAlone(t, pack, TRIES);
      RestTrans(others, rivals, Trying(t, rivals, pack, TRIES).1);
      ok := AppendToManifest(pack);
      ghost var u := bucket.State();
      GrowsTrans(start, t, u);
      PackKept(t, u, pack);
      if !ok {
        return;
      }
      index := None;
      FoundAll(objects, t, u, pack);
    }

    /** Points the branch at the tip, and records the first branch as default. `at` is
        the bucket right after the ref was swapped. */
    method SetBranch(branch: string, tip: string) returns (ok: bool, ghost at: Shared)
      requires Safe() && forall id :: InClosure(world.hash, UNCUT, tip, id) ==> Available(bucket.State(), id)
      modifies this`rivals, bucket
      ensures Safe() && Grows(old(bucket.State()), at) && Grows(at, bucket.State()) && SharedInv(world, at)
      ensures ok <==> SafeRefName(branch) && Branching(old(bucket.State()), old(rivals), branch, tip).3
      ensures (at, bucket.State(), rivals) ==
              if SafeRefName(branch)
              then var (a, t, later, _) := Branching(old(bucket.State()), old(rivals), branch, tip); (a, t, later)
              else (old(bucket.State()), old(bucket.State()), old(rivals))
      ensures ok ==> RefAt(at, branch, tip)
      ensures old(rivals) == [] && SafeRefName(branch) ==>
                ok && bucket.State() == Branched(old(bucket.State()), branch, tip)
    {
      hide SharedInv, InClosure, Available, Grows, Friendly, PackInjective, SafeRefName;
      GrowsSelf(bucket.State());
      at := bucket.State();
      if !SafeRefName(branch) {
        return false, at;
      }
      BranchingMeans(world, at, rivals, branch, tip);
      Wait();
      var stored := bucket.Get(Ref(branch));
      Wait();
      ok := bucket.PutIfMatch(Ref(branch), RefBlob(tip), if stored.Some? then Some(stored.value.etag) else None);
      at := bucket.State();
      if !ok {
        return;
      }
      Wait();
      var head := bucket.Get(Head);
      if head.None? {
        Wait();
        bucket.Put(Head, HeadBlob(branch));
      }
    }
  }

  lemma FollowsLater(w: World, s: Shared, t: Shared, rivals: Rivals)
    requires Follows(w, s, t, rivals)
    ensures Follows(w, s, t, Later(rivals))
  {
    hide SharedInv, Grows, Friendly;
    if Friendly(w, rivals) { LaterFriendly(w, rivals); }
  }

  lemma IndexStep(s: Shared, list: seq<string>, i: nat)
    requires i < |list|
    ensures IndexOf(s, list[..i + 1]) ==
            if PackStored(s, list[i]) then Indexed(IndexOf(s, list[..i]), BodyIn(s, list[i]), list[i])
                else IndexOf(s, list[..i])
  {
    assert list[..i + 1][..i] == list[..i];
  }

  lemma IndexNothing(s: Shared)
    ensures IndexOf(s, []) == map[]
  {}

  lemma TryingAlone(s: Shared, pack: string, n: nat)
    requires n > 0
    ensures Trying(s, [], pack, n) == (Appended(s, pack), [], true)
  {}

  lemma FoundAll(objects: Body, s: Shared, t: Shared, pack: string)
    requires Grows(s, t) && PackStored(s, pack) && BodyIn(s, pack) == Built(objects) && pack in Listed(t)
    ensures forall i :: 0 <= i < |objects| ==> Available(t, objects[i].0)
  {
    hide Available, Grows;
    BuiltHolds(objects);
    forall i | 0 <= i < |objects| ensures Available(t, objects[i].0) {
      assert Holds(objects, objects[i].0);
      PackStays(s, t, pack, objects[i].0);
      ListedAvailable(t, pack, objects[i].0);
    }
  }

  // ---- the whole push ----

  /** `read_branch`. */
  function Tip(branches: map<string, string>, branch: string): Option<string> {
    if SafeRefName(branch) then At(branches, branch) else None
  }

  lemma FollowsSafe(w: World, s: Shared, t: Shared, rivals: Rivals)
    requires SharedInv(w, s) && Follows(w, s, t, rivals)
    ensures SharedInv(w, t) && Grows(s, t) && Friendly(w, rivals)
  {
    hide SharedInv, Grows, Lawful;
    GrowsSelf(s);
  }

  /** The index a push consults is true of the bucket, and what it does not know is
      exactly what is missing. */
  lemma KnownOrMissing(s: Shared, index: map<string, string>, ids: seq<string>)
    requires IndexTrue(s, index)
    ensures forall id :: id in ids ==> Available(s, id) || id in Missing(ids, index)
    ensures forall id :: id in Missing(ids, index) <==> id in ids && id !in index
  {
    forall id ensures id in Missing(ids, index) <==> id in ids && id !in index { InMissing(ids, index, id); }
    forall id | id in index ensures Available(s, id) { assert PackHolds(s, index[id], id); }
  }

  lemma IndexStaysTrue(s: Shared, seen: Shared, now: Shared, cached: Option<map<string, string>>)
    requires Grows(s, seen) && Grows(seen, now) && (cached.Some? ==> IndexTrue(s, cached.value))
    ensures IndexTrue(now, IndexUsed(seen, cached))
  {
    hide Grows, IndexTrue;
    if cached.Some? { StaysTrue(s, seen, cached.value); } else { IndexIsTrue(seen, Listed(seen)); }
    StaysTrue(seen, now, IndexUsed(seen, cached));
  }

  lemma {:induction false} MissingDistinct(ids: seq<string>, index: map<string, string>)
    requires Distinct(ids)
    ensures Distinct(Missing(ids, index))
  {
    if ids != [] {
      MissingDistinct(ids[1..], index);
      InMissing(ids[1..], index, ids[0]);
      assert forall i :: 0 <= i < |ids| - 1 ==> ids[1..][i] == ids[i + 1];
    }
  }

  /** The bucket as the batches sent so far have made it. */
  ghost predicate Sending(t: BucketTransport, others: Rivals, start: Shared, mid: Shared, local: Store,
                          sent: seq<seq<string>>)
    reads t, t.bucket
  {
    && t.Safe() && Grows(mid, t.bucket.State()) && BatchesHere(local, sent) && Rest(others, t.rivals)
    && (others == [] ==> t.bucket.State() == SentAll(t.world, start, local, sent))
  }

  /** Sends `branch` of a complete local store, found in the bucket at the moment
      `seen`: at the moment `at` the branch is at its tip, and from then on
      everything the tip depends on is in the listed packs. Unless others get in the
      way it succeeds exactly when there is such a branch and an index at hand or to
      be had. With nobody else about, readers can parse the listed packs afterwards
      exactly when they could before and each batch is within their cap. */
  method Push(t: BucketTransport, local: Store, branches: map<string, string>, branch: string)
    returns (r: Result<nat>, ghost sent: seq<seq<string>>, ghost seen: Shared, ghost at: Shared)
    requires t.Safe() && (t.index.Some? ==> IndexTrue(t.bucket.State(), t.index.value))
    requires Tip(branches, branch).Some? ==>
               var tip := Tip(branches, branch).value;
               Complete(t.world.hash, UNCUT, local, tip) && Harmless(local, UNCUT, [tip])
    modifies t, t.bucket
    ensures t.Safe() && Grows(old(t.bucket.State()), t.bucket.State())
    ensures Tip(branches, branch).None? ==> r.Err? && t.bucket.State() == old(t.bucket.State())
    ensures r.Ok? ==>
              var tip := Tip(branches, branch).value;
              && Grows(old(t.bucket.State()), seen) && Grows(seen, at) && Grows(at, t.bucket.State())
              && RefAt(at, branch, tip)
              && (forall id :: InClosure(t.world.hash, UNCUT, tip, id) ==>
                  Available(at, id) && Available(t.bucket.State(), id))
              && (forall id :: id in Joined(sent) <==>
                    InClosure(t.world.hash, UNCUT, tip, id) && id !in IndexUsed(seen, old(t.index)))
              && Distinct(Joined(sent)) && r.value == |Joined(sent)|
              && sent == Batches(SizeIn(t.world.size, local), Joined(sent)) && BatchesHere(local, sent)
    ensures Unrelated(old(t.rivals), branch) ==>
              (r.Ok? <==> Tip(branches, branch).Some? && (old(t.index).Some? || ReaderAccepts(t.world, seen)))
    ensures old(t.rivals) == [] ==> seen == old(t.bucket.State())
    ensures old(t.rivals) == [] && r.Ok? ==>
              && t.bucket.State() ==
                 Branched(SentAll(t.world, old(t.bucket.State()), local, sent), branch, Tip(branches, branch).value)
              && (Readable(t.world, t.bucket.State()) <==>
                    && Readable(t.world, old(t.bucket.State()))
                    && forall i :: 0 <= i < |sent| ==>
                        Weight(SizeIn(t.world.size, local), sent[i]) <= Wire.MAX_PACK_TOTAL)
    ensures old(t.rivals) == [] && r.Ok? ==>
              var push := WalkedPush(branch, Tip(branches, branch).value, local);
              exists c :: Steps(t.world, old(t.bucket.State()), Client(old(t.index), push, Idle), t.bucket.State(), c)
    ensures old(t.rivals) == [] && r.Err? ==> t.bucket.State() == old(t.bucket.State())
  {
    hide SharedInv, Grows, InClosure, Complete, Harmless, Walked, WalkedPush, Steps, Ready, Weight, Available,
         Missing, Addressed, PackInjective, IndexTrue, Distinct, Friendly, SafeRefName, Readable, ReaderAccepts,
         SentAll, Branched, IndexUsed, Follows, Sending, AllHere, Rest, Unrelated, Branching, Batches, BatchesHere,
         Joined;
    ghost var w, start, others, cached := t.world, t.bucket.State(), t.rivals, t.index;
    GrowsSelf(start);
    NobodyUnrelated(branch);
    sent, seen, at := [], start, start;
    var found := Tip(branches, branch);
    if found.None? {
      return Err, sent, seen, at;
    }
    var tip := found.value;
    var ids := Reachable(local, UNCUT, [tip]);
    ReachableIsReady(w, local, branch, tip);
    SafeOrderly(t);
    var missing;
    missing, seen := t.MissingOf(ids);
    ghost var mid := t.bucket.State();
    FollowsSafe(w, start, seen, t.rivals);
    FollowsSafe(w, seen, mid, t.rivals);
    GrowsTrans(start, seen, mid);
    if missing.Err? {
      return Err, sent, seen, at;
    }
    IndexStaysTrue(start, seen, mid, cached);
    KnownOrMissing(mid, IndexUsed(seen, cached), ids);
    MissingDistinct(ids, IndexUsed(seen, cached));
    var todo := missing.value;
    ghost var size := SizeIn(w.size, local);
    TodoAtHand(local, ids, todo);
    SendingStart(t, others, start, mid, local);
    var ok;
    ok, sent := SendBatches(t, local, todo, others, branch, start, mid);
    GrowsTrans(start, mid, t.bucket.State());
    if !ok {
      return Err, sent, seen, at;
    }
    BatchesJoin(size, todo);
    ghost var u := t.bucket.State();
    SendingMeans(t, others, start, mid, local, sent);
    if Unrelated(others, branch) {
      UnrelatedRest(others, t.rivals, branch);
      UnrelatedLosesNothing(u, t.rivals, branch, tip, branch, TRIES);
    }
    NobodyLeft(others, t.rivals);
    forall id | InClosure(w.hash, UNCUT, tip, id) ensures Available(u, id) {
      assert id in ids;
      if id !in todo { StaysAvailable(mid, u, id); }
    }
    GrowsTrans(start, mid, u);
    GrowsTrans(seen, mid, u);
    ok, at := t.SetBranch(branch, tip);
    GrowsTrans(u, at, t.bucket.State());
    GrowsTrans(start, u, t.bucket.State());
    GrowsTrans(seen, u, at);
    if !ok {
      return Err, sent, seen, at;
    }
    forall id | InClosure(w.hash, UNCUT, tip, id) ensures Available(at, id) && Available(t.bucket.State(), id) {
      StaysAvailable(u, at, id);
      StaysAvailable(at, t.bucket.State(), id);
    }
    if others == [] {
      PushedReadable(w, start, local, size, sent, branch, tip);
      PushedRuns(w, start, cached, local, sent, branch, tip);
    }
    r := Ok(|todo|);
  }

  lemma TodoAtHand(local: Store, ids: seq<string>, todo: seq<string>)
    requires AllHere(local, ids) && forall id :: id in todo ==> id in ids
    ensures AllHere(local, todo)
  {}

  /** Sends objects batch by batch. */
  method SendBatches(t: BucketTransport, local: Store, todo: seq<string>,
                     ghost others: Rivals, ghost branch: string, ghost start: Shared, ghost mid: Shared)
    returns (ok: bool, ghost sent: seq<seq<string>>)
    requires Sending(t, others, start, mid, local, []) && Addressed(t.world.hash, local) && AllHere(local, todo)
    modifies t, t.bucket
    ensures t.Safe() && Grows(mid, t.bucket.State())
    ensures ok ==> sent == Batches(SizeIn(t.world.size, local), todo) && Sending(t, others, start, mid, local, sent)
    ensures ok ==> forall id :: id in todo ==> Available(t.bucket.State(), id)
    ensures Unrelated(others, branch) ==> ok
  {
    hide SharedInv, Grows, Cut, Weight, Available, Addressed, PackInjective, Friendly, Sending, AllHere, Rest,
         Unrelated;
    ghost var size := SizeIn(t.world.size, local);
    var batch: seq<string> := [];
    var batchBytes := 0;
    sent := [];
    CutNothing(size);
    NothingHere(local);
    for i := 0 to |todo|
      invariant Sending(t, others, start, mid, local, sent)
      invariant (sent, batch) == Cut(size, todo[..i]) && batchBytes == Weight(size, batch)
      invariant forall id :: id in todo[..i] ==> Available(t.bucket.State(), id) || id in batch
      invariant AllHere(local, batch)
    {
      CutStep(size, todo, i);
      HereToo(local, todo, batch, todo[i]);
      batchBytes := batchBytes + t.world.size(local[todo[i]]);
      batch := batch + [todo[i]];
      if batchBytes >= PUSH_BATCH_RAW_BYTES {
        ghost var s := t.bucket.State();
        ok := Send(t, local, batch, others, branch, start, mid, sent);
        if !ok {
          return;
        }
        StillAvailable(s, t.bucket.State());
        sent := sent + [batch];
        batch := [];
        batchBytes := 0;
        NothingHere(local);
      }
    }
    assert todo[..|todo|] == todo;
    ok := true;
    if batch != [] {
      ghost var s := t.bucket.State();
      ok := Send(t, local, batch, others, branch, start, mid, sent);
      if !ok {
        return;
      }
      StillAvailable(s, t.bucket.State());
      sent := sent + [batch];
    }
    SendingMeans(t, others, start, mid, local, sent);
  }

  lemma NothingHere(local: Store)
    ensures AllHere(local, [])
  {}

  lemma StillAvailable(s: Shared, t: Shared)
    requires Grows(s, t)
    ensures forall id :: Available(s, id) ==> Available(t, id)
  {
    hide Available, Grows;
    forall id | Available(s, id) ensures Available(t, id) { StaysAvailable(s, t, id); }
  }

  /** Sends one batch. */
  method Send(t: BucketTransport, local: Store, batch: seq<string>,
              ghost others: Rivals, ghost branch: string, ghost start: Shared, ghost mid: Shared,
                  ghost sent: seq<seq<string>>)
    returns (ok: bool)
    requires Sending(t, others, start, mid, local, sent) && Addressed(t.world.hash, local) && AllHere(local, batch)
    modifies t, t.bucket
    ensures t.Safe() && Grows(mid, t.bucket.State()) && Grows(old(t.bucket.State()), t.bucket.State())
    ensures ok ==> Sending(t, others, start, mid, local, sent + [batch]) && forall id :: id in batch ==>
          Available(t.bucket.State(), id)
    ensures Unrelated(others, branch) ==> ok
  {
    hide SharedInv, Grows, Available, PackInjective, Friendly, AllHere, Uploaded, AlwaysOvertaken, Built, Addressed,
         Rest, Unrelated, Branching;
    ghost var s, left := t.bucket.State(), t.rivals;
    AllHereMeans(local, batch);
    var objects := BodyOf(local, batch);
    BodyHonest(t.world, local, batch);
    if Unrelated(others, branch) {
      UnrelatedRest(others, left, branch);
      UnrelatedMet(s, left, branch);
      var pack := t.world.packHash(Built(objects));
      var put := AfterPut(Met(s, left), Pack(pack), PackBlob(Built(objects)));
      UnrelatedLosesNothing(put, Later(left), branch, "", pack, TRIES);
    }
    NobodyLeft(others, left);
    ok := t.PutObjects(objects);
    RestTrans(others, left, t.rivals);
    GrowsTrans(mid, s, t.bucket.State());
    if ok {
      forall id | id in batch ensures Available(t.bucket.State(), id) {
        var i :| 0 <= i < |batch| && batch[i] == id;
        assert objects[i].0 == id;
      }
      assert (sent + [batch])[..|sent|] == sent;
    }
  }

  lemma AllHereMeans(local: Store, ids: seq<string>)
    requires AllHere(local, ids)
    ensures forall id :: id in ids ==> id in local
  {}

  lemma NobodyLeft(rivals: Rivals, rest: Rivals)
    requires Rest(rivals, rest)
    ensures rivals == [] ==> rest == []
  {}

  lemma SendingStart(t: BucketTransport, others: Rivals, start: Shared, mid: Shared, local: Store)
    requires t.Safe() && t.bucket.State() == mid && Rest(others, t.rivals) && (others == [] ==> start == mid)
    ensures Sending(t, others, start, mid, local, []) && AllHere(local, [])
  {
    hide SharedInv, Grows, Friendly;
    GrowsSelf(mid);
  }

  lemma SendingMeans(t: BucketTransport, others: Rivals, start: Shared, mid: Shared, local: Store,
                     sent: seq<seq<string>>)
    requires Sending(t, others, start, mid, local, sent)
    ensures t.Safe() && Grows(mid, t.bucket.State()) && BatchesHere(local, sent) && Rest(others, t.rivals)
    ensures others == [] ==> t.bucket.State() == SentAll(t.world, start, local, sent)
  {
    hide SharedInv, Grows, Friendly, SentAll;
  }

  lemma SafeOrderly(t: BucketTransport)
    requires t.Safe()
    ensures t.Orderly()
  {
    hide SharedInv, Lawful;
    GrowsSelf(t.bucket.State());
  }

  lemma HereToo(local: Store, ids: seq<string>, batch: seq<string>, id: string)
    requires AllHere(local, ids) && AllHere(local, batch) && id in ids
    ensures id in local && AllHere(local, batch + [id])
  {}

  lemma PushedRuns(w: World, s: Shared, cached: Option<map<string, string>>, local: Store, sent: seq<seq<string>>,
                   branch: string, tip: string)
    requires Ready(w, WalkedPush(branch, tip, local)) && (cached.Some? || ReaderAccepts(w, s))
    requires BatchesHere(local, sent)
    requires sent == Batches(SizeIn(w.size, local), Missing(Walked(local, UNCUT, [tip]), IndexUsed(s, cached)))
    ensures exists c :: Steps(w, s, Client(cached, WalkedPush(branch, tip, local), Idle),
          Branched(SentAll(w, s, local, sent), branch, tip), c)
  {
    hide Ready, Steps, Walked, ReaderAccepts, Batches, Missing, IndexUsed, SentAll, Branched, BatchesHere;
    var p := WalkedPush(branch, tip, local);
    PushIsRun(w, s, cached, p, p);
    var index :| Steps(w, s, Client(cached, p, Idle), Pushed(w, s, cached, p), Client(index, p, Idle));
  }

  lemma PushedReadable(w: World, s: Shared, local: Store, size: string -> nat, sent: seq<seq<string>>, branch: string,
                       tip: string)
    requires PackInjective(w) && SharedInv(w, s) && Addressed(w.hash, local) && BatchesHere(local, sent)
    requires size == SizeIn(w.size, local) && Distinct(Joined(sent)) && sent == Batches(size, Joined(sent))
    ensures Readable(w, Branched(SentAll(w, s, local, sent), branch, tip)) <==>
            Readable(w, s) && forall i :: 0 <= i < |sent| ==>
                Weight(SizeIn(w.size, local), sent[i]) <= Wire.MAX_PACK_TOTAL
  {
    hide SharedInv, PackInjective, Addressed, BatchesHere, Readable, Branched, SentAll, Distinct, Batches, Weight,
         SizeIn, Joined;
    BatchesJoin(size, Joined(sent));
    forall i | 0 <= i < |sent| ensures sent[i] != [] && Distinct(sent[i]) { DistinctPieces(sent, i); }
    SentAllReadable(w, s, local, sent);
    BranchedReadable(w, SentAll(w, s, local, sent), branch, tip);
  }
}
