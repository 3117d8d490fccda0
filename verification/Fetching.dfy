// Fetching from a remote (fetch_reachable and fetch_leaves in
// crates/repo/src/remote.rs).
module Fetching {
  import opened Batching
  import opened Closure
  import opened Collections
  import opened Graphs
  import opened History
  import opened Objects
  import opened Reachability
  import Wire

  const FETCH_BATCH := 256

  /** What the two stores hold between them. */
  function Both(local: Store, remote: Store): Store {
    remote + local
  }

  /** The local store on its way to the union of the two. */
  ghost predicate Between(hash: Content -> string, start: Store, s: Store, remote: Store) {
    && Addressed(hash, s)
    && Extends(start, s)
    && forall id :: id in s ==> id in start || id in remote
  }

  lemma BetweenAgrees(hash: Content -> string, start: Store, s: Store, remote: Store, id: string)
    requires Injective(hash) && Addressed(hash, start) && Addressed(hash, remote) && Between(hash, start, s, remote)
    ensures id in s ==> id in Both(start, remote) && Both(start, remote)[id] == s[id]
    ensures Addressed(hash, Both(start, remote))
  {}

  // ---- which packs of leaves the receiver takes ----

  /** The objects of `ids` the remote has, in the order they are read from its pack. */
  function Packable(remote: Store, ids: seq<string>): seq<string> {
    Sorted(set id | id in ids && id in remote)
  }

  lemma InPackable(remote: Store, ids: seq<string>)
    ensures forall id :: id in Packable(remote, ids) <==> id in ids && id in remote
    ensures Distinct(Packable(remote, ids))
  {}

  predicate PackFits(size: Content -> nat, remote: Store, ids: seq<string>) {
    Weight(SizeIn(size, remote), Packable(remote, ids)) <= Wire.MAX_PACK_TOTAL
  }

  /** The length of the next slice of a request. */
  function Slice(ids: seq<string>): (n: nat)
    ensures n <= |ids| && (ids != [] ==> n > 0)
  {
    if |ids| < FETCH_BATCH then |ids| else FETCH_BATCH
  }

  /** The packs for the slices of 256 ids each are all within the cap. */
  predicate SlicesFit(size: Content -> nat, remote: Store, ids: seq<string>) {
    ids == [] || (PackFits(size, remote, ids[..Slice(ids)]) && SlicesFit(size, remote, ids[Slice(ids)..]))
  }

  /** How many objects the packs for the slices hold. */
  function Handed(remote: Store, ids: seq<string>): nat {
    if ids == [] then 0 else |Packable(remote, ids[..Slice(ids)])| + Handed(remote, ids[Slice(ids)..])
  }

  lemma {:induction false} LightWeight(size: string -> nat, ids: seq<string>, limit: nat)
    requires forall id :: id in ids ==> size(id) <= limit
    ensures Weight(size, ids) <= limit * |ids|
  {
    if ids != [] {
      LightWeight(size, ids[..|ids| - 1], limit);
      assert ids[|ids| - 1] in ids;
      Distributes(limit, |ids|);
    }
  }

  lemma {:induction false} HeavyWeight(size: string -> nat, ids: seq<string>, limit: nat)
    requires forall id :: id in ids ==> size(id) >= limit
    ensures Weight(size, ids) >= limit * |ids|
  {
    if ids != [] {
      HeavyWeight(size, ids[..|ids| - 1], limit);
      assert ids[|ids| - 1] in ids;
      Distributes(limit, |ids|);
    }
  }

  lemma Distributes(limit: nat, n: nat)
    ensures n > 0 ==> limit * n == limit * (n - 1) + limit
  {}

  /** A list without repetitions is no longer than a list that holds all of it. */
  lemma {:induction false} NoLonger(a: seq<string>, b: seq<string>)
    requires Distinct(a) && forall x :: x in a ==> x in b
    ensures |a| <= |b|
  {
    if a != [] {
      var init, x := a[..|a| - 1], a[|a| - 1];
      assert x in a;
      var i :| 0 <= i < |b| && b[i] == x;
      var rest := b[..i] + b[i + 1..];
      forall y | y in init ensures y in rest {
        assert y in a;
        var j :| 0 <= j < |b| && b[j] == y;
        assert rest[if j < i then j else j - 1] == y;
      }
      NoLonger(init, rest);
    }
  }

  /** The largest size all leaves may have without a slice ever being too heavy. */
  const SAFE_LEAF := Wire.MAX_PACK_TOTAL / FETCH_BATCH

  lemma {:induction false} LightSlicesFit(size: Content -> nat, remote: Store, ids: seq<string>)
    requires forall id :: id in ids && id in remote ==> size(remote[id]) <= SAFE_LEAF
    ensures SlicesFit(size, remote, ids)
  {
    hide PackFits, Packable;
    if ids != [] {
      var slice := ids[..Slice(ids)];
      LightPackFits(size, remote, slice);
      LightSlicesFit(size, remote, ids[Slice(ids)..]);
    }
  }

  lemma LightPackFits(size: Content -> nat, remote: Store, ids: seq<string>)
    requires forall id :: id in ids && id in remote ==> size(remote[id]) <= SAFE_LEAF
    requires |ids| <= FETCH_BATCH
    ensures PackFits(size, remote, ids)
  {
    hide Packable, Weight;
    var pack := Packable(remote, ids);
    InPackable(remote, ids);
    NoLonger(pack, ids);
    LightWeight(SizeIn(size, remote), pack, SAFE_LEAF);
    assert SAFE_LEAF * |pack| <= SAFE_LEAF * FETCH_BATCH;
  }

  /** Where a fetch from an honest, complete remote fails: 256 different leaves to
      fetch, each over the safe size. */
  lemma HeavySlice(size: Content -> nat, remote: Store, ids: seq<string>)
    requires Distinct(ids) && |ids| >= FETCH_BATCH
    requires forall id :: id in ids ==> id in remote && size(remote[id]) > SAFE_LEAF
    ensures !SlicesFit(size, remote, ids)
  {
    hide Packable, Weight;
    var slice := ids[..FETCH_BATCH];
    var pack := Packable(remote, slice);
    InPackable(remote, slice);
    NoLonger(slice, pack);
    HeavyWeight(SizeIn(size, remote), pack, SAFE_LEAF + 1);
    assert (SAFE_LEAF + 1) * |pack| >= (SAFE_LEAF + 1) * FETCH_BATCH;
  }

  /** A leaf size is safe for every fetch exactly up to that bound, which is 2 MiB. */
  lemma SafeLeafSize(limit: nat)
    ensures SAFE_LEAF == 2 * 1024 * 1024
    ensures (forall size: Content -> nat, remote, ids ::
               (forall id :: id in ids && id in remote ==> size(remote[id]) <= limit) ==> SlicesFit(size, remote, ids))
            <==> limit <= SAFE_LEAF
  {
    hide SlicesFit;
    if limit <= SAFE_LEAF {
      forall size: Content -> nat, remote, ids | forall id :: id in ids && id in remote ==> size(remote[id]) <= limit
        ensures SlicesFit(size, remote, ids)
      {
        LightSlicesFit(size, remote, ids);
      }
    } else {
      var size: Content -> nat := (c: Content) => limit;
      var ids := seq(FETCH_BATCH, i requires 0 <= i < FETCH_BATCH => Repeated(i));
      var remote := map id | id in ids :: ManifestContent(EMPTY);
      assert forall i, j :: 0 <= i < j < |ids| ==> |ids[i]| != |ids[j]|;
      HeavySlice(size, remote, ids);
    }
  }

  function Repeated(n: nat): (s: string)
    ensures |s| == n
  {
    if n == 0 then "" else Repeated(n - 1) + "a"
  }

  /** Different leaves the remote has are handed over once each. */
  lemma {:induction false} HandedDistinct(remote: Store, ids: seq<string>)
    requires Distinct(ids) && forall id :: id in ids ==> id in remote
    ensures Handed(remote, ids) == |ids|
  {
    hide Packable;
    if ids != [] {
      var slice := ids[..Slice(ids)];
      InPackable(remote, slice);
      NoLonger(slice, Packable(remote, slice));
      NoLonger(Packable(remote, slice), slice);
      HandedDistinct(remote, ids[Slice(ids)..]);
    }
  }

  /** A walk in progress: what was walked is here with its trees, and the leaves of
      those trees are here or wanted. */
  ghost predicate Gathering(s: Store, m: Store, walked: set<string>, wanted: seq<string>) {
    && (forall c :: c in walked ==> c in s)
    && (forall id :: Carried(m, walked, id) ==> id in s || id in wanted)
    && (forall c :: c in walked && IsCommit(m, c) ==> ReadCommit(m, c).value.tree in s)
    && (forall id :: id in wanted ==> Carried(m, walked, id))
  }

  lemma GatherVisit(s: Store, t: Store, m: Store, walked: set<string>, wanted: seq<string>, more: seq<string>,
                    c: string)
    requires Gathering(s, m, walked, wanted) && Extends(s, t) && c in t
    requires IsCommit(m, c) ==> ReadCommit(m, c).value.tree in t
    requires forall id :: id in more ==> id in wanted || id in Payload(m, c)
    requires forall id :: id in wanted ==> id in more
    requires forall id :: id in Payload(m, c) ==> id in t || id in more
    ensures Gathering(t, m, walked + {c}, more)
  {
    hide Payload, Carried;
    forall id
      ensures Carried(m, walked + {c}, id) <==> Carried(m, walked, id) || id in Payload(m, c)
    {
      CarriedAdd(m, walked, c, id);
    }
  }

  /** Adds the leaves that are neither here nor queued. */
  function Queued(s: Store, wanted: seq<string>, ids: seq<string>): seq<string> {
    if ids == [] then wanted
    else
      var q, id := Queued(s, wanted, ids[..|ids| - 1]), ids[|ids| - 1];
      if id !in s && id !in q then q + [id] else q
  }

  lemma {:induction false} InQueued(s: Store, wanted: seq<string>, ids: seq<string>)
    ensures forall id :: id in Queued(s, wanted, ids) <==> id in wanted || (id in ids && id !in s)
  {
    if ids != [] {
      InQueued(s, wanted, ids[..|ids| - 1]);
      assert ids == ids[..|ids| - 1] + [ids[|ids| - 1]];
    }
  }

  method QueueLeaves(s: Store, start: seq<string>, ids: seq<string>) returns (wanted: seq<string>)
    ensures wanted == Queued(s, start, ids)
  {
    wanted := start;
    for i := 0 to |ids|
      invariant wanted == Queued(s, start, ids[..i])
    {
      assert ids[..i + 1][..i] == ids[..i];
      if ids[i] !in s && ids[i] !in wanted {
        wanted := wanted + [ids[i]];
      }
    }
    assert ids[..|ids|] == ids;
  }

  /** Gets an object the local store lacks. */
  method Obtain(local: Repository, remote: Store, id: string) returns (ok: bool, copied: nat)
    requires local.Valid() && Addressed(local.hash, remote)
    modifies local`objects
    ensures local.Valid() && Between(local.hash, old(local.objects), local.objects, remote)
    ensures ok <==> id in old(local.objects) || id in remote
    ensures ok ==> id in local.objects
    ensures |local.objects| == |old(local.objects)| + copied
  {
    if id in local.objects {
      return true, 0;
    }
    if id !in remote {
      return false, 0;
    }
    var stored := local.Write(remote[id]);
    return true, 1;
  }

  /** Fetches leaves in packs of at most 256. It works exactly when each of them is
      here or there and every pack is within the cap. */
  method FetchLeaves(local: Repository, remote: Store, ids: seq<string>,
                     size: Content -> nat) returns (ok: bool, copied: nat)
    requires local.Valid() && Addressed(local.hash, remote)
    modifies local`objects
    ensures local.Valid() && Between(local.hash, old(local.objects), local.objects, remote)
    ensures ok <==> HereOrThere(old(local.objects), remote, ids) && SlicesFit(size, remote, ids)
    ensures ok ==> copied == Handed(remote, ids)
    ensures ok ==> forall id :: id in local.objects <==> id in old(local.objects) || id in ids
  {
    hide Between, Packable, Addressed, Injective, SlicesFit, Handed, HereOrThere, PackFits, Arrived;
    ghost var start, hash := local.objects, local.hash;
    BetweenSelf(hash, start, remote);
    NothingFetched(start, remote);
    var rest := ids;
    ghost var done: seq<string> := [];
    copied := 0;
    while rest != []
      invariant local.Valid() && Between(hash, start, local.objects, remote)
      invariant done + rest == ids && Arrived(start, remote, done, local.objects)
      invariant HereOrThere(start, remote, ids) <==> HereOrThere(start, remote, rest)
      invariant SlicesFit(size, remote, ids) <==> SlicesFit(size, remote, rest)
      invariant Handed(remote, ids) == copied + Handed(remote, rest)
      decreases |rest|
    {
      var n := Slice(rest);
      var batch := rest[..n];
      var pack := Packable(remote, batch);
      InPackable(remote, batch);
      SliceStep(size, remote, rest);
      ghost var s := local.objects;
      var fits, handed := IngestPack(local, remote, pack, size);
      BetweenTrans(hash, start, s, local.objects, remote);
      if !fits {
        return false, copied;
      }
      SliceHere(start, s, local.objects, remote, done, batch);
      assert rest == batch + rest[n..];
      BothHere(start, remote, batch, rest[n..]);
      if i :| 0 <= i < |batch| && batch[i] !in local.objects {
        return false, copied;
      }
      Assoc(done, batch, rest[n..]);
      done := done + batch;
      rest := rest[n..];
      copied := copied + handed;
    }
    assert done == ids;
    AllFetched(start, remote, ids, local.objects, size);
    ok := true;
  }

  lemma SliceStep(size: Content -> nat, remote: Store, ids: seq<string>)
    requires ids != []
    ensures var batch := ids[..Slice(ids)];
            && (SlicesFit(size, remote, ids) <==>
                  && Weight(SizeIn(size, remote), Packable(remote, batch)) <= Wire.MAX_PACK_TOTAL
                  && SlicesFit(size, remote, ids[Slice(ids)..]))
            && Handed(remote, ids) == |Packable(remote, batch)| + Handed(remote, ids[Slice(ids)..])
  {
    hide Packable;
  }

  /** The store when the leaves `done` have been fetched. */
  ghost predicate Arrived(start: Store, remote: Store, done: seq<string>, s: Store) {
    (forall id :: id in s <==> id in start || id in done) && HereOrThere(start, remote, done)
  }

  lemma NothingFetched(start: Store, remote: Store)
    ensures Arrived(start, remote, [], start)
  {}

  lemma AllFetched(start: Store, remote: Store, ids: seq<string>, s: Store, size: Content -> nat)
    requires Arrived(start, remote, ids, s)
    ensures forall id :: id in s <==> id in start || id in ids
    ensures HereOrThere(start, remote, []) && SlicesFit(size, remote, []) && Handed(remote, []) == 0
  {}

  predicate HereOrThere(s: Store, remote: Store, ids: seq<string>) {
    forall id :: id in ids ==> id in s || id in remote
  }

  /** What one slice adds: all of it, unless some id of it is nowhere. */
  lemma SliceHere(start: Store, s: Store, t: Store, remote: Store, done: seq<string>, batch: seq<string>)
    requires Arrived(start, remote, done, s)
    requires forall id :: id in t <==> id in s || (id in batch && id in remote)
    ensures (forall id :: id in batch ==> id in t) <==> HereOrThere(start, remote, batch)
    ensures HereOrThere(start, remote, batch) ==> Arrived(start, remote, done + batch, t)
  {}

  lemma BothHere(s: Store, remote: Store, a: seq<string>, b: seq<string>)
    ensures HereOrThere(s, remote, a + b) <==> HereOrThere(s, remote, a) && HereOrThere(s, remote, b)
  {
    if HereOrThere(s, remote, a + b) {
      forall id | id in a || id in b ensures id in s || id in remote { assert id in a + b; }
    }
  }

  /** Takes in a pack, object by object, until their weight is over the cap. */
  method IngestPack(local: Repository, remote: Store, pack: seq<string>,
                    size: Content -> nat) returns (ok: bool, handed: nat)
    requires local.Valid() && Addressed(local.hash, remote) && forall id :: id in pack ==> id in remote
    modifies local`objects
    ensures local.Valid() && Between(local.hash, old(local.objects), local.objects, remote)
    ensures ok <==> Weight(SizeIn(size, remote), pack) <= Wire.MAX_PACK_TOTAL
    ensures ok ==> handed == |pack| && forall id :: id in local.objects <==> id in old(local.objects) || id in pack
  {
    hide Weight;
    ghost var weights := SizeIn(size, remote);
    var total := 0;
    handed := 0;
    WeightNothing(weights);
    assert pack[..0] == [];
    for i := 0 to |pack|
      invariant local.Valid() && Between(local.hash, old(local.objects), local.objects, remote)
      invariant forall id :: id in local.objects <==> id in old(local.objects) || id in pack[..i]
      invariant handed == i && total == Weight(weights, pack[..i]) <= Wire.MAX_PACK_TOTAL
    {
      assert pack[..i + 1] == pack[..i] + [pack[i]];
      WeightAdd(weights, pack[..i], pack[i]);
      total := total + size(remote[pack[i]]);
      if total > Wire.MAX_PACK_TOTAL {
        WeightPrefix(weights, pack, i + 1);
        return false, handed;
      }
      var stored := local.Write(remote[pack[i]]);
      handed := handed + 1;
    }
    assert pack[..|pack|] == pack;
    ok := true;
  }

  lemma WeightNothing(size: string -> nat)
    ensures Weight(size, []) == 0
  {}

  lemma {:induction false} WeightPrefix(size: string -> nat, ids: seq<string>, n: nat)
    requires n <= |ids|
    ensures Weight(size, ids[..n]) <= Weight(size, ids)
    decreases |ids|
  {
    if n < |ids| {
      assert ids[..|ids| - 1][..n] == ids[..n];
      WeightPrefix(size, ids[..|ids| - 1], n);
    } else {
      assert ids[..n] == ids;
    }
  }

  lemma BetweenSelf(hash: Content -> string, a: Store, remote: Store)
    requires Addressed(hash, a)
    ensures Between(hash, a, a, remote)
  {}

  lemma BetweenTrans(hash: Content -> string, a: Store, b: Store, c: Store, remote: Store)
    requires Between(hash, a, b, remote) && Between(hash, b, c, remote)
    ensures Between(hash, a, c, remote)
  {}

  /** A leaf queued by the walk was not here before, and is queued once. */
  predicate Fresh(start: Store, wanted: seq<string>) {
    Distinct(wanted) && forall id :: id in wanted ==> id !in start
  }

  /** A tree or leaf of the history behind the tip. */
  ghost predicate HangsFrom(m: Store, shallow: set<string>, tip: string, id: string) {
    exists c :: ReachedFrom(Walk(m, shallow), [tip], c) && id in Payload(m, c)
  }

  /** What the walk from the tip leaves to fetch: `mid` is the store after it. */
  ghost predicate Wants(m: Store, shallow: set<string>, tip: string, start: Store, mid: Store, wanted: seq<string>) {
    && Fresh(start, wanted)
    && (forall id :: id in wanted ==> HangsFrom(m, shallow, tip, id))
    && (forall id :: HangsFrom(m, shallow, tip, id) ==> id in mid || id in wanted)
  }

  /** Fetches everything reachable from `tip` that the local store lacks. It works
      exactly when the two stores together hold the closure of the tip and the packs
      for the leaves queued on the way are within the cap; then the closure is here,
      and the count is of the objects stored on the way and the leaves queued. */
  method FetchReachable(local: Repository, remote: Store, tip: string, size: Content -> nat)
    returns (ok: bool, copied: nat, ghost wanted: seq<string>, ghost mid: Store)
    requires local.Valid() && Addressed(local.hash, remote)
    modifies local`objects
    ensures local.Valid() && Between(local.hash, old(local.objects), local.objects, remote)
    ensures var m := Both(old(local.objects), remote);
            && (ok <==> Complete(local.hash, local.shallow, m, tip) && SlicesFit(size, remote, wanted))
            && (Complete(local.hash, local.shallow, m, tip) ==>
                Wants(m, local.shallow, tip, old(local.objects), mid, wanted))
    ensures ok ==>
              && (forall id :: InClosure(local.hash, local.shallow, tip, id) ==> id in local.objects)
              && Extends(old(local.objects), mid) && |mid| >= |old(local.objects)|
              && (forall id :: id in local.objects <==> id in mid || id in wanted)
              && copied == |mid| - |old(local.objects)| + |wanted|
  {
    hide Searching, Gathering, Complete, Between, InClosure, Addressed, Extends, Walk, Fresh, Wants, SlicesFit,
         HereOrThere, Handed, HangsFrom;
    ghost var hash, start, shallow := local.hash, local.objects, local.shallow;
    ghost var m := Both(start, remote);
    ghost var universe, seen;
    var queue;
    ok, queue, copied, universe, seen := WalkRemote(local, remote, tip);
    wanted, mid := queue, local.objects;
    if !ok {
      return;
    }
    var handed;
    ok, handed := FetchLeaves(local, remote, queue, size);
    copied := copied + handed;
    BetweenTrans(hash, start, mid, local.objects, remote);
    BetweenExtends(hash, start, mid, remote);
    WalkWants(m, shallow, tip, universe, seen, start, mid, wanted);
    if Complete(hash, shallow, m, tip) {
      WantedHeld(hash, shallow, m, tip, universe, seen, mid, wanted, start, remote);
      AllHereOrThere(mid, remote, wanted);
    }
    if ok {
      Gathered(hash, shallow, start, mid, local.objects, remote, m, tip, universe, seen, wanted);
      ClosureHeld(hash, shallow, tip, start, local.objects, remote, m);
      FreshHanded(hash, start, mid, remote, wanted);
    }
  }

  lemma AllHereOrThere(s: Store, remote: Store, ids: seq<string>)
    requires forall id :: id in ids ==> id in s || id in remote
    ensures HereOrThere(s, remote, ids)
  {}

  /** The walk over commits, tags and trees; the leaves are queued. */
  method WalkRemote(local: Repository, remote: Store, tip: string)
    returns (ok: bool, wanted: seq<string>, copied: nat, ghost universe: set<string>, ghost seen: set<string>)
    requires local.Valid() && Addressed(local.hash, remote)
    modifies local`objects
    ensures local.Valid() && Between(local.hash, old(local.objects), local.objects, remote)
    ensures |local.objects| == |old(local.objects)| + copied
    ensures var m := Both(old(local.objects), remote);
            && (!ok ==> !Complete(local.hash, local.shallow, m, tip))
            && (ok ==>
                  && Searching(Walk(m, local.shallow), [tip], universe, seen, [])
                  && Gathering(local.objects, m, seen, wanted) && Fresh(old(local.objects), wanted))
  {
    hide Searching, Gathering, Complete, Nameable, Between, Payload, Addressed, IsCommit, Walk, Fresh, Both, Reaches,
         Extends, Injective, Bounds;
    ghost var hash, start, shallow := local.hash, local.objects, local.shallow;
    ghost var m := Both(start, remote);
    ghost var g := Walk(m, shallow);
    universe := Nameable(m, [tip]);
    NameableBounds(m, shallow, [tip]);
    SearchStart(g, [tip], universe);
    GatherStart(hash, start, remote, m);
    var met: set<string> := {};
    var stack := [tip];
    seen, wanted, copied := {}, [], 0;
    while stack != []
      invariant local.Valid() && Between(hash, start, local.objects, remote)
      invariant met == seen && Searching(g, [tip], universe, seen, stack)
      invariant Gathering(local.objects, m, seen, wanted) && Fresh(start, wanted)
      invariant |local.objects| == |start| + copied
      decreases |universe - seen|, |stack|
    {
      var rest, c := stack[..|stack| - 1], stack[|stack| - 1];
      assert stack == rest + [c];
      SearchStep(g, [tip], universe, seen, rest, c);
      if c in met {
        stack := rest;
      } else {
        Needed(hash, shallow, m, tip, universe, seen, stack, c);
        ghost var more := g(c);
        var visited, next, queued, n := Visit(local, remote, c, wanted, m, start);
        copied := copied + n;
        if !visited {
          return false, wanted, copied, universe, seen;
        }
        assert next == more;
        met, seen := met + {c}, seen + {c};
        wanted := queued;
        stack := rest + next;
      }
    }
    ok := true;
  }

  lemma BetweenExtends(hash: Content -> string, a: Store, b: Store, remote: Store)
    requires Between(hash, a, b, remote)
    ensures Extends(a, b)
  {}

  lemma WalkWants(m: Store, shallow: set<string>, tip: string, universe: set<string>, seen: set<string>, start: Store,
                  mid: Store, wanted: seq<string>)
    requires Searching(Walk(m, shallow), [tip], universe, seen, []) && Gathering(mid, m, seen, wanted)
    requires Fresh(start, wanted)
    ensures Wants(m, shallow, tip, start, mid, wanted)
  {
    hide Reaches, Walk, Payload, Bounds, Fresh;
    WorkDone(Walk(m, shallow), [tip], seen);
    forall id | id in wanted ensures HangsFrom(m, shallow, tip, id) {
      var c :| c in seen && id in Payload(m, c);
      assert ReachedFrom(Walk(m, shallow), [tip], c);
    }
    forall id | HangsFrom(m, shallow, tip, id) ensures id in mid || id in wanted {
      var c :| ReachedFrom(Walk(m, shallow), [tip], c) && id in Payload(m, c);
      assert Carried(m, seen, id);
    }
  }

  /** What is here after a fetch was here or there before. */
  lemma ClosureHeld(hash: Content -> string, shallow: set<string>, tip: string, start: Store, t: Store, remote: Store,
                    m: Store)
    requires Injective(hash) && Addressed(hash, start) && Addressed(hash, remote) && m == Both(start, remote)
    requires Between(hash, start, t, remote) && forall id :: InClosure(hash, shallow, tip, id) ==> id in t
    ensures Complete(hash, shallow, m, tip)
  {
    hide InClosure;
  }

  lemma FreshHanded(hash: Content -> string, start: Store, mid: Store, remote: Store, wanted: seq<string>)
    requires Fresh(start, wanted) && Between(hash, start, mid, remote) && HereOrThere(mid, remote, wanted)
    ensures Handed(remote, wanted) == |wanted|
  {
    hide Handed;
    HandedDistinct(remote, wanted);
  }

  /** With leaves of at most 2 MiB to fetch, a fetch works exactly when the two
      stores together hold the closure. */
  lemma LightFetch(m: Store, shallow: set<string>, tip: string, start: Store, mid: Store, remote: Store,
                   wanted: seq<string>, size: Content -> nat)
    requires Wants(m, shallow, tip, start, mid, wanted)
    requires forall id :: id in remote && id !in start && HangsFrom(m, shallow, tip, id) ==>
               size(remote[id]) <= SAFE_LEAF
    ensures SAFE_LEAF == 2 * 1024 * 1024 && SlicesFit(size, remote, wanted)
  {
    hide HangsFrom, SlicesFit;
    LightSlicesFit(size, remote, wanted);
  }

  /** One visit of the walk: the object, its tree, and its leaves queued. */
  method Visit(local: Repository, remote: Store, c: string, wanted: seq<string>, ghost m: Store, ghost start: Store)
    returns (ok: bool, next: seq<string>, queue: seq<string>, copied: nat)
    requires local.Valid() && Addressed(local.hash, remote) && Addressed(local.hash, start)
    requires Between(local.hash, start, local.objects, remote) && m == Both(start, remote)
    modifies local`objects
    ensures local.Valid() && Between(local.hash, start, local.objects, remote)
    ensures ok <==> c in m && (IsCommit(m, c) ==> ReadCommit(m, c).value.tree in m)
    ensures ok ==> next == Walk(m, local.shallow)(c)
    ensures ok ==> forall seen :: Gathering(old(local.objects), m, seen, wanted) ==>
          Gathering(local.objects, m, seen + {c}, queue)
    ensures ok && Fresh(start, wanted) ==> Fresh(start, queue)
    ensures |local.objects| == |old(local.objects)| + copied
  {
    hide Gathering, Between, Payload, Addressed, Injective, Carried, Fresh, Extends;
    ghost var hash, s0 := local.hash, local.objects;
    InBoth(hash, start, s0, remote, c);
    var got;
    got, copied := Obtain(local, remote, c);
    BetweenTrans(hash, start, s0, local.objects, remote);
    queue := wanted;
    if !got {
      return false, [], queue, copied;
    }
    BetweenAgrees(hash, start, local.objects, remote, c);
    var tag := ReadTag(local.objects, c);
    var commit := ReadCommit(local.objects, c);
    if tag.Some? || commit.None? {
      VisitOther(hash, s0, local.objects, remote, m, wanted, c);
      return true, if tag.Some? then [tag.value] else [], queue, copied;
    }
    ghost var s1 := local.objects;
    var n;
    ok, queue, n := VisitTree(local, remote, c, wanted, m, start);
    copied := copied + n;
    BetweenTrans(hash, s0, s1, local.objects, remote);
    if !ok {
      return ok, [], queue, copied;
    }
    Extended(hash, s1, local.objects, remote, c);
    var parents := ParentsOf(local.objects, local.shallow, c);
    next := parents.value;
    VisitCommit(hash, s0, local.objects, remote, m, wanted, c, queue);
  }

  /** The tree of a commit, and its leaves queued. */
  method VisitTree(local: Repository, remote: Store, c: string, wanted: seq<string>, ghost m: Store, ghost start: Store)
    returns (ok: bool, queue: seq<string>, copied: nat)
    requires local.Valid() && Addressed(local.hash, remote) && Addressed(local.hash, start)
    requires Between(local.hash, start, local.objects, remote) && m == Both(start, remote)
    requires c in local.objects && IsCommit(m, c) && m[c] == local.objects[c]
    modifies local`objects
    ensures local.Valid() && Between(local.hash, start, local.objects, remote)
    ensures Between(local.hash, old(local.objects), local.objects, remote)
    ensures ok <==> ReadCommit(m, c).value.tree in m
    ensures ok ==> ReadCommit(m, c).value.tree in local.objects
    ensures ok ==> queue == Queued(local.objects, wanted, Leaves(m, c))
    ensures ok && Fresh(start, wanted) ==> Fresh(start, queue)
    ensures |local.objects| == |old(local.objects)| + copied
  {
    hide Between, Addressed, Injective, ManifestIds, Fresh, Extends, Both, Queued;
    ghost var hash, s := local.hash, local.objects;
    var tree := ReadCommit(local.objects, c).value.tree;
    InBoth(hash, start, s, remote, tree);
    ok, copied := Obtain(local, remote, tree);
    BetweenTrans(hash, start, s, local.objects, remote);
    queue := wanted;
    if !ok {
      return;
    }
    BetweenAgrees(hash, start, local.objects, remote, tree);
    var manifest := ReadManifest(local.objects, tree);
    QueueNothing(local.objects, wanted);
    if manifest.Some? {
      var leaves := CollectIds(manifest.value);
      FreshQueue(hash, start, local.objects, remote, wanted, leaves);
      queue := QueueLeaves(local.objects, wanted, leaves);
    }
  }

  /** The leaves of a commit's tree. */
  function Leaves(m: Store, c: string): seq<string>
    requires IsCommit(m, c)
  {
    match ReadManifest(m, ReadCommit(m, c).value.tree)
    case Some(t) => ManifestIds(t)
    case None => []
  }

  lemma QueueNothing(s: Store, wanted: seq<string>)
    ensures Queued(s, wanted, []) == wanted
  {}

  lemma {:induction false} FreshQueue(hash: Content -> string, start: Store, s: Store, remote: Store,
                                      wanted: seq<string>, ids: seq<string>)
    requires Between(hash, start, s, remote)
    ensures Fresh(start, wanted) ==> Fresh(start, Queued(s, wanted, ids))
  {
    if ids != [] {
      FreshQueue(hash, start, s, remote, wanted, ids[..|ids| - 1]);
    }
  }

  lemma Extended(hash: Content -> string, a: Store, b: Store, remote: Store, c: string)
    requires Between(hash, a, b, remote) && c in a
    ensures c in b && b[c] == a[c]
  {}

  lemma InBoth(hash: Content -> string, start: Store, s: Store, remote: Store, c: string)
    requires Between(hash, start, s, remote)
    ensures c in s || c in remote <==> c in Both(start, remote)
  {}

  lemma VisitOther(hash: Content -> string, s: Store, t: Store, remote: Store, m: Store, wanted: seq<string>, c: string)
    requires Between(hash, s, t, remote) && c in t && !IsCommit(m, c)
    ensures forall seen :: Gathering(s, m, seen, wanted) ==> Gathering(t, m, seen + {c}, wanted)
  {
    hide Gathering;
    forall seen | Gathering(s, m, seen, wanted) ensures Gathering(t, m, seen + {c}, wanted) {
      GatherVisit(s, t, m, seen, wanted, wanted, c);
    }
  }

  lemma VisitCommit(hash: Content -> string, s: Store, t: Store, remote: Store, m: Store, wanted: seq<string>,
                    c: string, queue: seq<string>)
    requires Between(hash, s, t, remote) && c in t && IsCommit(m, c) && ReadCommit(m, c).value.tree in t
    requires queue == Queued(t, wanted, Leaves(m, c))
    ensures forall seen :: Gathering(s, m, seen, wanted) ==> Gathering(t, m, seen + {c}, queue)
  {
    hide Gathering, Queued, ManifestIds;
    var leaves := Leaves(m, c);
    InQueued(t, wanted, leaves);
    assert Payload(m, c) == [ReadCommit(m, c).value.tree] + leaves;
    assert forall id :: id in Payload(m, c) <==> id == ReadCommit(m, c).value.tree || id in leaves;
    forall seen | Gathering(s, m, seen, wanted) ensures Gathering(t, m, seen + {c}, queue) {
      GatherVisit(s, t, m, seen, wanted, queue, c);
    }
  }

  lemma GatherStart(hash: Content -> string, start: Store, remote: Store, m: Store)
    requires Addressed(hash, start)
    ensures Gathering(start, m, {}, []) && Between(hash, start, start, remote) && Fresh(start, [])
  {}

  /** In a complete remote whatever the walk pops is there. */
  lemma Needed(hash: Content -> string, shallow: set<string>, m: Store, tip: string, universe: set<string>,
               seen: set<string>, stack: seq<string>, c: string)
    requires Searching(Walk(m, shallow), [tip], universe, seen, stack) && c in stack
    ensures Complete(hash, shallow, m, tip) ==> c in m && (IsCommit(m, c) ==> ReadCommit(m, c).value.tree in m)
  {
    hide Reaches, Walk, Complete;
    if Complete(hash, shallow, m, tip) {
      WalkedInClosure(hash, shallow, m, tip, c);
      if IsCommit(m, c) { TreeReached(hash, shallow, m, tip, c); }
    }
  }

  lemma WantedHeld(hash: Content -> string, shallow: set<string>, m: Store, tip: string, universe: set<string>,
                   seen: set<string>, s: Store, wanted: seq<string>, start: Store, remote: Store)
    requires Complete(hash, shallow, m, tip) && Searching(Walk(m, shallow), [tip], universe, seen, [])
    requires Gathering(s, m, seen, wanted)
    requires m == Both(start, remote) && Between(hash, start, s, remote)
    ensures forall id :: id in wanted ==> id in s || id in remote
  {
    hide Reaches, Walk, Payload;
    forall id | id in wanted ensures id in s || id in remote {
      var c :| c in seen && id in Payload(m, c);
      PayloadInClosure(hash, shallow, m, tip, c, id);
    }
  }

  lemma SearchedAll(m: Store, shallow: set<string>, tip: string, universe: set<string>, seen: set<string>)
    requires Searching(Walk(m, shallow), [tip], universe, seen, [])
    ensures tip in seen
    ensures forall c, d :: c in seen && d in Onward(m, shallow, c) ==> d in seen
  {
    hide Reaches, Onward, Bounds;
    WorkDone(Walk(m, shallow), [tip], seen);
    ReachesSelf(Walk(m, shallow), tip);
    assert tip in [tip];
  }

  lemma GatheredHere(hash: Content -> string, start: Store, s: Store, remote: Store, m: Store, seen: set<string>,
                     wanted: seq<string>, c: string)
    requires Injective(hash) && Addressed(hash, start) && Addressed(hash, remote) && m == Both(start, remote)
    requires Between(hash, start, s, remote) && Gathering(s, m, seen, wanted) && c in seen
    ensures c in m && (IsCommit(m, c) ==> ReadCommit(m, c).value.tree in m)
  {
    hide Carried, Addressed, Between, Injective;
    BetweenAgrees(hash, start, s, remote, c);
    if IsCommit(m, c) { BetweenAgrees(hash, start, s, remote, ReadCommit(m, c).value.tree); }
  }

  lemma GatherExhausts(hash: Content -> string, shallow: set<string>, start: Store, s: Store, remote: Store, m: Store,
                       tip: string, universe: set<string>, seen: set<string>, wanted: seq<string>)
    requires Injective(hash) && Addressed(hash, start) && Addressed(hash, remote) && m == Both(start, remote)
    requires Between(hash, start, s, remote)
    requires Searching(Walk(m, shallow), [tip], universe, seen, []) && Gathering(s, m, seen, wanted)
    ensures Exhausted(m, shallow, tip, seen)
  {
    hide Reaches, Onward, Searching, Gathering, Between, Addressed, Injective, Walk;
    SearchedAll(m, shallow, tip, universe, seen);
    forall c | c in seen ensures c in m && (IsCommit(m, c) ==> ReadCommit(m, c).value.tree in m) {
      GatheredHere(hash, start, s, remote, m, seen, wanted, c);
    }
  }

  /** When everything wanted has arrived the whole closure is there. */
  lemma Gathered(hash: Content -> string, shallow: set<string>, start: Store, s: Store, t: Store, remote: Store,
                 m: Store, tip: string, universe: set<string>, seen: set<string>, wanted: seq<string>)
    requires Injective(hash) && Addressed(hash, start) && Addressed(hash, remote) && m == Both(start, remote)
    requires Between(hash, start, s, remote) && Between(hash, s, t, remote)
    requires Searching(Walk(m, shallow), [tip], universe, seen, []) && Gathering(s, m, seen, wanted)
    requires forall id :: id in wanted ==> id in t
    ensures forall id :: InClosure(hash, shallow, tip, id) ==> id in t
  {
    hide Reaches, Payload, Ideal, Onward, Searching, Exhausted, Carried, Covered;
    GatherExhausts(hash, shallow, start, s, remote, m, tip, universe, seen, wanted);
    BetweenAgrees(hash, start, s, remote, tip);
    forall id | InClosure(hash, shallow, tip, id) ensures id in t {
      var n: Node :| n.id == id && Reaches(Ideal(hash, shallow), Node(Role.History, tip), n);
      CoverHolds(hash, shallow, m, tip, seen, n);
      CoveredCarried(m, seen, n);
    }
  }
}
