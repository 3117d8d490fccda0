// Shallow clones (fetch_tip and clone_depth in crates/repo/src/remote.rs,
// parents_of in crates/repo/src/repository.rs).
module Shallow {
  import opened Closure
  import opened Collections
  import opened Fetching
  import opened Graphs
  import opened History
  import opened Levels
  import opened Objects
  import opened Reachability
  import opened Refs

  /** The parents a commit names, before any graft. */
  function Named(m: Store): string -> seq<string> {
    (id: string) => if ReadCommit(m, id).Some? then ReadCommit(m, id).value.parents else []
  }

  /** A commit's tree and leaves. */
  function Snapshot(m: Store, id: string): seq<string> {
    match ReadCommit(m, id)
    case None => []
    case Some(c) => [c.tree] + match ReadManifest(m, c.tree) case Some(t) => ManifestIds(t) case None => []
  }

  /** The commit with its tree and leaves is in `s`. */
  predicate Whole(m: Store, s: Store, id: string) {
    id in s && forall x :: x in Snapshot(m, id) ==> x in s
  }

  /** Everything up to the depth is in `s`. */
  ghost predicate HeldTo(m: Store, s: Store, tip: string, depth: nat) {
    forall x, k :: 0 <= k < depth && ReachesIn(Named(m), tip, x, k) ==> Whole(m, s, x)
  }

  /** On the last level, with parents that were not fetched. */
  predicate Cut(m: Store, depth: nat, dist: map<string, nat>, x: string) {
    x in dist && dist[x] == depth && Named(m)(x) != []
  }

  ghost predicate Fetched(m: Store, s: Store, depth: nat, dist: map<string, nat>, before: set<string>,
                          boundary: set<string>) {
    && (forall x :: x in dist ==> Whole(m, s, x))
    && (forall x :: x in boundary <==> x in before || Cut(m, depth, dist, x))
  }

  /** The universe of commits that can be named. */
  lemma NamedBounds(m: Store, tip: string)
    ensures Bounds(Named(m), [tip], Known(m) + {tip})
  {}

  /** Gets one commit with its tree and leaves. */
  method FetchCommit(local: Repository, remote: Store, h: string, ghost m: Store,
                     ghost start: Store) returns (ok: bool, commit: Option<Commit>)
    requires local.Valid() && Addressed(local.hash, remote) && Addressed(local.hash, start)
    requires Between(local.hash, start, local.objects, remote) && m == Both(start, remote)
    modifies local`objects
    ensures local.Valid() && Between(local.hash, start, local.objects, remote)
    ensures Extends(old(local.objects), local.objects)
    ensures ok <==> Whole(m, m, h)
    ensures ok ==> commit == ReadCommit(m, h) && Whole(m, local.objects, h)
  {
    hide Between, Addressed, Injective, ManifestIds, Extends;
    ghost var hash, s0 := local.hash, local.objects;
    InBoth(hash, start, s0, remote, h);
    var got, n := Obtain(local, remote, h);
    BetweenTrans(hash, start, s0, local.objects, remote);
    ghost var s1 := local.objects;
    BetweenExtends(hash, s0, s1, remote);
    commit := None;
    if !got {
      return false, commit;
    }
    BetweenAgrees(hash, start, s1, remote, h);
    commit := ReadCommit(local.objects, h);
    if commit.None? {
      return true, commit;
    }
    var tree := commit.value.tree;
    InBoth(hash, start, s1, remote, tree);
    got, n := Obtain(local, remote, tree);
    ghost var s2 := local.objects;
    BetweenTrans(hash, start, s1, s2, remote);
    BetweenTrans(hash, s0, s1, s2, remote);
    BetweenExtends(hash, s0, s2, remote);
    SnapshotIs(m, h);
    if !got {
      assert tree in Snapshot(m, h);
      return false, commit;
    }
    BetweenAgrees(hash, start, s2, remote, tree);
    Extended(hash, s1, s2, remote, h);
    var manifest := ReadManifest(local.objects, tree);
    var leaves := [];
    if manifest.Some? {
      leaves := CollectIds(manifest.value);
    }
    assert Snapshot(m, h) == [tree] + leaves;
    ok := FetchEach(local, remote, leaves, m, start);
    BetweenTrans(hash, s0, s2, local.objects, remote);
    BetweenExtends(hash, s0, local.objects, remote);
    if ok {
      Extended(hash, s2, local.objects, remote, h);
      Extended(hash, s2, local.objects, remote, tree);
    }
  }

  /** Gets objects one by one. */
  method FetchEach(local: Repository, remote: Store, ids: seq<string>, ghost m: Store,
                   ghost start: Store) returns (ok: bool)
    requires local.Valid() && Addressed(local.hash, remote) && Addressed(local.hash, start)
    requires Between(local.hash, start, local.objects, remote) && m == Both(start, remote)
    modifies local`objects
    ensures local.Valid() && Between(local.hash, start, local.objects, remote)
    ensures Between(local.hash, old(local.objects), local.objects, remote)
    ensures ok <==> forall id :: id in ids ==> id in m
    ensures ok ==> forall id :: id in ids ==> id in local.objects
  {
    hide Between, Addressed, Injective, Both, Extends;
    ghost var hash, s0 := local.hash, local.objects;
    BetweenSelf(hash, s0, remote);
    for i := 0 to |ids|
      invariant local.Valid() && Between(hash, start, local.objects, remote) && Between(hash, s0, local.objects, remote)
      invariant forall id :: id in ids[..i] ==> id in local.objects && id in m
    {
      ghost var s := local.objects;
      InBoth(hash, start, s, remote, ids[i]);
      var got, n := Obtain(local, remote, ids[i]);
      BetweenTrans(hash, start, s, local.objects, remote);
      BetweenTrans(hash, s0, s, local.objects, remote);
      if !got {
        return false;
      }
      BetweenExtends(hash, s, local.objects, remote);
      StillThere(s, local.objects, ids[..i]);
      assert ids[..i + 1] == ids[..i] + [ids[i]];
    }
    assert ids[..|ids|] == ids;
    ok := true;
  }

  lemma SnapshotIs(m: Store, h: string)
    requires ReadCommit(m, h).Some?
    ensures var tree := ReadCommit(m, h).value.tree;
            Snapshot(m, h) == [tree] + match ReadManifest(m, tree) case Some(t) => ManifestIds(t) case None => []
  {}

  lemma StillThere(s: Store, t: Store, ids: seq<string>)
    requires Extends(s, t)
    ensures forall id :: id in ids && id in s ==> id in t
  {}

  lemma WholeExtends(m: Store, s: Store, t: Store, id: string)
    requires Extends(s, t) && Whole(m, s, id)
    ensures Whole(m, t, id)
  {
    hide Snapshot;
  }

  lemma FetchedNext(m: Store, s: Store, t: Store, depth: nat, dist: map<string, nat>, before: set<string>,
                    boundary: set<string>, h: string, d: nat)
    requires Fetched(m, s, depth, dist, before, boundary) && Extends(s, t) && Whole(m, t, h) && h !in dist && d <= depth
    ensures Fetched(m, t, depth, dist[h := d], before, if d == depth && Named(m)(h) != [] then boundary + {h}
          else boundary)
  {
    hide Whole, Named;
    forall x | x in dist ensures Whole(m, t, x) { WholeExtends(m, s, t, x); }
    forall x
      ensures Cut(m, depth, dist[h := d], x) <==> Cut(m, depth, dist, x) || (x == h && d == depth && Named(m)(h) != [])
    {
      if x == h { assert !Cut(m, depth, dist, x); }
    }
  }

  /** Fetches the commits at distance below `depth` from the tip, with their trees
      and leaves. `dist` records one more than each one's distance. */
  method FetchTip(local: Repository, remote: Store, tip: string, depth: nat, boundary: set<string>)
    returns (ok: bool, wider: set<string>, ghost dist: map<string, nat>)
    requires local.Valid() && Addressed(local.hash, remote) && depth >= 1
    modifies local`objects
    ensures local.Valid() && Between(local.hash, old(local.objects), local.objects, remote)
    ensures var m := Both(old(local.objects), remote);
            && (ok <==> HeldTo(m, m, tip, depth))
            && (ok ==>
                  && Bfs(Named(m), tip, depth, dist, [])
                  && Fetched(m, local.objects, depth, dist, boundary, wider))
  {
    hide Bfs, Fetched, Between, HeldTo, Whole, Named, Known, Addressed, Advance, Bounds, Injective, Extends,
         ReachesIn, Closed, Enqueued, QueueIn, Both, TipState;
    ghost var hash, start := local.hash, local.objects;
    ghost var m := Both(start, remote);
    ghost var universe := Known(m) + {tip};
    TipStart(hash, start, remote, m, tip, depth, boundary);
    wider, dist := boundary, map[];
    var seen: set<string> := {};
    var queue := [(tip, 1)];
    while queue != []
      invariant local.Valid() && Between(hash, start, local.objects, remote)
      invariant seen == dist.Keys && TipState(m, local.objects, tip, universe, depth, dist, queue, boundary, wider)
      decreases |universe - seen|, |queue|
    {
      var (h, d) := queue[0];
      if h in seen {
        TipSkip(m, local.objects, tip, universe, depth, dist, queue, boundary, wider);
        queue := queue[1..];
      } else {
        ghost var s := local.objects;
        var got, commit := FetchCommit(local, remote, h, m, start);
        if !got {
          NotHeld(m, s, tip, universe, depth, dist, queue, boundary, wider);
          return false, wider, dist;
        }
        TipVisit(m, s, local.objects, tip, universe, depth, dist, queue, boundary, wider);
        dist, seen := dist[h := d], seen + {h};
        queue, wider := NextLevel(m, queue, commit, depth, wider);
      }
    }
    HeldAll(hash, start, local.objects, remote, m, tip, universe, depth, dist, boundary, wider);
    ok := true;
  }

  /** Queues the parents of the commit at the front, or notes it as cut off. */
  method NextLevel(ghost m: Store, queue: seq<(string, nat)>, commit: Option<Commit>, depth: nat, boundary: set<string>)
    returns (next: seq<(string, nat)>, wider: set<string>)
    requires queue != [] && queue[0].1 <= depth && commit == ReadCommit(m, queue[0].0)
    ensures next == Advance(Named(m), depth, queue)
    ensures wider == if queue[0].1 == depth && Named(m)(queue[0].0) != [] then boundary + {queue[0].0} else boundary
  {
    var (h, d) := queue[0];
    AdvanceIs(Named(m), depth, queue);
    wider := boundary;
    if commit.None? {
      return queue[1..], wider;
    }
    if d < depth {
      return queue[1..] + Enqueued(commit.value.parents, d + 1), wider;
    }
    if commit.value.parents != [] {
      wider := wider + {h};
    }
    next := queue[1..];
  }

  lemma AdvanceIs(g: string -> seq<string>, depth: nat, queue: seq<(string, nat)>)
    requires queue != []
    ensures Advance(g, depth, queue) == if queue[0].1 < depth then queue[1..] + Enqueued(g(queue[0].0), queue[0].1 + 1)
          else queue[1..]
    ensures g(queue[0].0) == [] ==> Advance(g, depth, queue) == queue[1..]
  {
    if g(queue[0].0) == [] {
      assert Enqueued(g(queue[0].0), queue[0].1 + 1) == [];
      assert queue[1..] + [] == queue[1..];
    }
  }

  predicate QueueIn(universe: set<string>, queue: seq<(string, nat)>) {
    forall i :: 0 <= i < |queue| ==> queue[i].0 in universe
  }

  lemma AdvanceIn(g: string -> seq<string>, universe: set<string>, depth: nat, queue: seq<(string, nat)>)
    requires Closed(g, universe) && queue != [] && QueueIn(universe, queue)
    ensures QueueIn(universe, Advance(g, depth, queue))
  {
    var next := Advance(g, depth, queue);
    forall i | 0 <= i < |next| ensures next[i].0 in universe {
      if i < |queue| - 1 { assert next[i] == queue[i + 1]; }
          else { assert next[i].0 == g(queue[0].0)[i - (|queue| - 1)]; }
    }
  }

  /** The state of the search between two visits. */
  ghost predicate TipState(m: Store, s: Store, tip: string, universe: set<string>, depth: nat, dist: map<string, nat>,
                           queue: seq<(string, nat)>, before: set<string>, boundary: set<string>)
  {
    && Bounds(Named(m), [tip], universe) && QueueIn(universe, queue) && dist.Keys <= universe
    && Bfs(Named(m), tip, depth, dist, queue) && Fetched(m, s, depth, dist, before, boundary)
  }

  lemma TipStart(hash: Content -> string, start: Store, remote: Store, m: Store, tip: string, depth: nat,
                 boundary: set<string>)
    requires Addressed(hash, start) && depth >= 1
    ensures TipState(m, start, tip, Known(m) + {tip}, depth, map[], [(tip, 1)], boundary, boundary)
    ensures Between(hash, start, start, remote)
  {
    hide Bfs, Known, Named;
    NamedBounds(m, tip);
    BfsStart(Named(m), tip, depth);
  }

  lemma TipSkip(m: Store, s: Store, tip: string, universe: set<string>, depth: nat, dist: map<string, nat>,
                queue: seq<(string, nat)>, before: set<string>, boundary: set<string>)
    requires TipState(m, s, tip, universe, depth, dist, queue, before, boundary) && queue != [] && queue[0].0 in dist
    ensures TipState(m, s, tip, universe, depth, dist, queue[1..], before, boundary)
  {
    hide Bfs, Named, Fetched, Bounds;
    BfsSkip(Named(m), tip, depth, dist, queue);
  }

  /** One new commit of the search, fetched. */
  lemma TipVisit(m: Store, s: Store, t: Store, tip: string, universe: set<string>, depth: nat, dist: map<string, nat>,
                 queue: seq<(string, nat)>, before: set<string>, boundary: set<string>)
    requires TipState(m, s, tip, universe, depth, dist, queue, before, boundary)
    requires queue != [] && queue[0].0 !in dist && Extends(s, t) && Whole(m, t, queue[0].0)
    ensures var (h, d) := queue[0];
            && 1 <= d <= depth
            && TipState(m, t, tip, universe, depth, dist[h := d], Advance(Named(m), depth, queue), before,
                        if d == depth && Named(m)(h) != [] then boundary + {h} else boundary)
            && |universe - (dist.Keys + {h})| < |universe - dist.Keys|
  {
    var (h, d) := queue[0];
    hide Named, Bfs, Fetched, Whole;
    BfsFront(Named(m), tip, depth, dist, queue);
    BfsVisit(Named(m), tip, depth, dist, queue);
    FetchedNext(m, s, t, depth, dist, before, boundary, h, d);
    AdvanceIn(Named(m), universe, depth, queue);
    SmallerLeft(universe, dist.Keys, h);
  }

  lemma BfsFront(g: string -> seq<string>, tip: string, depth: nat, dist: map<string, nat>, queue: seq<(string, nat)>)
    requires Bfs(g, tip, depth, dist, queue) && queue != []
    ensures 1 <= queue[0].1 <= depth && ReachesIn(g, tip, queue[0].0, queue[0].1 - 1)
  {}

  lemma NotHeld(m: Store, s: Store, tip: string, universe: set<string>, depth: nat, dist: map<string, nat>,
                queue: seq<(string, nat)>, before: set<string>, boundary: set<string>)
    requires TipState(m, s, tip, universe, depth, dist, queue, before, boundary) && queue != []
    requires !Whole(m, m, queue[0].0)
    ensures !HeldTo(m, m, tip, depth)
  {
    hide ReachesIn, Whole, Bfs, Named;
    BfsFront(Named(m), tip, depth, dist, queue);
    assert ReachesIn(Named(m), tip, queue[0].0, queue[0].1 - 1);
  }

  lemma HeldAll(hash: Content -> string, start: Store, s: Store, remote: Store, m: Store, tip: string,
                universe: set<string>,
                depth: nat, dist: map<string, nat>, before: set<string>, boundary: set<string>)
    requires m == Both(start, remote) && Between(hash, start, s, remote)
    requires TipState(m, s, tip, universe, depth, dist, [], before, boundary)
    ensures HeldTo(m, m, tip, depth)
    ensures Bfs(Named(m), tip, depth, dist, []) && Fetched(m, s, depth, dist, before, boundary)
  {
    hide ReachesIn, Snapshot, Bfs, Distance, Named;
    forall x, k | 0 <= k < depth && ReachesIn(Named(m), tip, x, k) ensures Whole(m, m, x) {
      BfsDone(Named(m), tip, depth, dist, x);
      assert Whole(m, s, x);
    }
  }

  // ---- cloning all branches ----

  /** What is known of each fetched branch. */
  ghost predicate BranchesFetched(m: Store, s: Store, tips: seq<string>, depth: nat, dists: seq<map<string, nat>>,
                                  boundary: set<string>) {
    && |dists| <= |tips|
    && (forall i :: 0 <= i < |dists| ==> Bfs(Named(m), tips[i], depth, dists[i], []))
    && (forall i, x :: 0 <= i < |dists| && x in dists[i] ==> Whole(m, s, x))
    && (forall x :: x in boundary <==> exists i :: 0 <= i < |dists| && Cut(m, depth, dists[i], x))
  }

  lemma BranchesNext(m: Store, s: Store, t: Store, tips: seq<string>, depth: nat, dists: seq<map<string, nat>>,
                     boundary: set<string>, dist: map<string, nat>, wider: set<string>)
    requires BranchesFetched(m, s, tips, depth, dists, boundary) && Extends(s, t) && |dists| < |tips|
    requires Bfs(Named(m), tips[|dists|], depth, dist, []) && Fetched(m, t, depth, dist, boundary, wider)
    ensures BranchesFetched(m, t, tips, depth, dists + [dist], wider)
  {
    hide Bfs, Whole, Named, Cut;
    var more := dists + [dist];
    forall i, x | 0 <= i < |more| && x in more[i] ensures Whole(m, t, x) {
      if i < |dists| { WholeExtends(m, s, t, x); }
    }
    forall x ensures x in wider <==> exists i :: 0 <= i < |more| && Cut(m, depth, more[i], x) {
      if x in boundary {
        var i :| 0 <= i < |dists| && Cut(m, depth, dists[i], x);
        assert Cut(m, depth, more[i], x);
      } else if x in wider {
        assert Cut(m, depth, more[|dists|], x);
      }
    }
  }

  // ---- the refs of a clone ----

  /** The refs of one kind, with the rest of their names, in the order listed. */
  function RefsUnder(prefix: string, refs: seq<(string, string)>): seq<(string, string)> {
    if refs == [] then []
    else
      var (name, hash) := refs[|refs| - 1];
      RefsUnder(prefix, refs[..|refs| - 1]) + if StartsWith(name, prefix) then [(name[|prefix|..], hash)] else []
  }

  /** Each ref listed under the prefix, without it, and nothing else. */
  ghost predicate Stripped(prefix: string, refs: seq<(string, string)>, r: seq<(string, string)>) {
    forall name, hash :: (name, hash) in r <==> (prefix + name, hash) in refs
  }

  lemma {:induction false} RefsUnderExact(prefix: string, refs: seq<(string, string)>)
    ensures Stripped(prefix, refs, RefsUnder(prefix, refs))
  {
    if refs != [] {
      var init, last := refs[..|refs| - 1], refs[|refs| - 1];
      RefsUnderExact(prefix, init);
      assert refs == init + [last];
      forall name: string, hash: string
        ensures (name, hash) in RefsUnder(prefix, refs) <==> (prefix + name, hash) in refs
      {
        assert StartsWith(prefix + name, prefix) && (prefix + name)[|prefix|..] == name;
        if StartsWith(last.0, prefix) { assert last.0 == prefix + last.0[|prefix|..]; }
      }
    }
  }

  /** And in the order listed: what is listed first comes first. */
  lemma {:induction false} RefsUnderInOrder(prefix: string, a: seq<(string, string)>, b: seq<(string, string)>)
    ensures RefsUnder(prefix, a + b) == RefsUnder(prefix, a) + RefsUnder(prefix, b)
    decreases |b|
  {
    if b == [] {
      assert a + b == a;
    } else {
      var init := b[..|b| - 1];
      RefsUnderInOrder(prefix, a, init);
      assert (a + b)[..|a + b| - 1] == a + init && (a + b)[|a + b| - 1] == b[|b| - 1];
    }
  }

  const HEADS := "refs/heads/"
  const TAGS := "refs/tags/"

  /** The refs written one after the other. */
  function Written(refs: seq<(string, string)>): map<string, string> {
    if refs == [] then map[] else Written(refs[..|refs| - 1])[refs[|refs| - 1].0 := refs[|refs| - 1].1]
  }

  /** A name that is written has the hash written last, and every name is written. */
  lemma {:induction false} WrittenLast(refs: seq<(string, string)>, name: string)
    ensures name in Written(refs) <==> exists i :: LastOf(refs, name, i)
    ensures forall i :: LastOf(refs, name, i) ==> name in Written(refs) && Written(refs)[name] == refs[i].1
  {
    if refs != [] {
      var init, n := refs[..|refs| - 1], |refs| - 1;
      WrittenLast(init, name);
      if refs[n].0 == name {
        assert LastOf(refs, name, n);
      } else {
        assert forall i :: LastOf(refs, name, i) <==> LastOf(init, name, i);
      }
    }
  }

  predicate LastOf(refs: seq<(string, string)>, name: string, i: int) {
    0 <= i < |refs| && refs[i].0 == name && forall j :: i < j < |refs| ==> refs[j].0 != name
  }

  predicate SafeNames(refs: seq<(string, string)>) {
    forall i :: 0 <= i < |refs| ==> SafeRefName(refs[i].0)
  }

  function Tips(refs: seq<(string, string)>): seq<string> {
    seq(|refs|, i requires 0 <= i < |refs| => refs[i].1)
  }

  predicate Usual(name: string) {
    name == "main" || name == "master"
  }

  /** The branch a clone starts on: the first called main or master, else the first. */
  predicate Preferred(branches: seq<(string, string)>, i: nat) {
    && i < |branches|
    && if Usual(branches[i].0) then forall j :: 0 <= j < i ==> !Usual(branches[j].0)
       else i == 0 && forall j :: 0 <= j < |branches| ==> !Usual(branches[j].0)
  }

  /** A repository being cloned into, with its refs. */
  class Clone {
    const repo: Repository
    var branches: map<string, string>
    var tags: map<string, string>
    var head: string
    var origin: Option<string>

    constructor (repo: Repository)
      ensures this.repo == repo && branches == map[] && tags == map[] && head == "main" && origin == None
    {
      this.repo, branches, tags, head, origin := repo, map[], map[], "main", None;
    }
  }

  /** Strips the prefix from the refs that have it. */
  method StripRefs(prefix: string, refs: seq<(string, string)>) returns (r: seq<(string, string)>)
    ensures r == RefsUnder(prefix, refs)
    ensures Stripped(prefix, refs, r)
  {
    RefsUnderExact(prefix, refs);
    hide Stripped;
    r := [];
    for i := 0 to |refs|
      invariant r == RefsUnder(prefix, refs[..i])
    {
      assert refs[..i + 1][..i] == refs[..i];
      if StartsWith(refs[i].0, prefix) {
        r := r + [(refs[i].0[|prefix|..], refs[i].1)];
      }
    }
    assert refs[..|refs|] == refs;
  }

  method DefaultBranch(branches: seq<(string, string)>) returns (d: Option<string>)
    ensures d.None? <==> branches == []
    ensures d.Some? ==> exists i: nat :: Preferred(branches, i) && branches[i].0 == d.value
  {
    for i := 0 to |branches|
      invariant forall j :: 0 <= j < i ==> !Usual(branches[j].0)
    {
      if Usual(branches[i].0) {
        assert Preferred(branches, i);
        return Some(branches[i].0);
      }
    }
    if branches == [] {
      return None;
    }
    assert Preferred(branches, 0);
    return Some(branches[0].0);
  }

  lemma WrittenNext(refs: seq<(string, string)>, i: nat)
    requires i < |refs|
    ensures Written(refs[..i + 1]) == Written(refs[..i])[refs[i].0 := refs[i].1]
    ensures Written([]) == map[]
  {
    assert refs[..i + 1][..i] == refs[..i];
  }

  /** The closures of the first `n` tips are here. */
  ghost predicate ClosuresHere(hash: Content -> string, s: Store, refs: seq<(string, string)>, n: nat)
    requires n <= |refs|
  {
    forall i, id :: 0 <= i < n && InClosure(hash, UNCUT, refs[i].1, id) ==> id in s
  }

  /** Ref `i` can be cloned in full: its name is safe, its closure is there, and the
      packs for the leaves to fetch are within the cap. */
  ghost predicate CanFetch(hash: Content -> string, remote: Store, refs: seq<(string, string)>, size: Content -> nat,
                           wants: seq<seq<string>>, i: nat)
    requires i < |refs| && i < |wants|
  {
    SafeRefName(refs[i].0) && Complete(hash, UNCUT, remote, refs[i].1) && SlicesFit(size, remote, wants[i])
  }

  /** The leaves asked for on behalf of ref `i`: some of those behind it, each once. */
  ghost predicate Asked(hash: Content -> string, remote: Store, refs: seq<(string, string)>, wants: seq<seq<string>>,
                        i: nat)
    requires i < |refs| && i < |wants|
  {
    Complete(hash, UNCUT, remote, refs[i].1) ==>
      Distinct(wants[i]) && forall id :: id in wants[i] ==> HangsFrom(remote, UNCUT, refs[i].1, id)
  }

  /** Fetches and writes refs in full. It works exactly when every one can be
      fetched; `wants` holds the leaves asked for, as far as it came. */
  method FetchAll(dest: Repository, remote: Store, refs: seq<(string, string)>, size: Content -> nat)
    returns (ok: bool, written: map<string, string>, ghost wants: seq<seq<string>>)
    requires dest.Valid() && Addressed(dest.hash, remote) && dest.shallow == UNCUT
    requires Between(dest.hash, map[], dest.objects, remote)
    modifies dest`objects
    ensures dest.Valid() && Between(dest.hash, map[], dest.objects, remote) && Extends(old(dest.objects), dest.objects)
    ensures |wants| <= |refs| && forall i :: 0 <= i < |wants| ==> Asked(dest.hash, remote, refs, wants, i)
    ensures ok <==>
              |wants| == |refs| && forall i :: 0 <= i < |refs| ==> CanFetch(dest.hash, remote, refs, size, wants, i)
    ensures !ok ==>
              && wants != [] && !CanFetch(dest.hash, remote, refs, size, wants, |wants| - 1)
              && written == Written(refs[..|wants| - 1])
    ensures ok ==> written == Written(refs) && ClosuresHere(dest.hash, dest.objects, refs, |refs|)
  {
    hide Between, InClosure, Complete, SlicesFit, SafeRefName, Wants, Written, Extends, ClosuresHere, Injective,
         Addressed, CanFetch, Asked, Both;
    ghost var hash := dest.hash;
    written, wants := map[], [];
    BetweenSelf(hash, dest.objects, remote);
    BetweenExtends(hash, dest.objects, dest.objects, remote);
    NoClosures(hash, dest.objects, refs);
    ghost var start := dest.objects;
    for i := 0 to |refs|
      invariant dest.Valid() && Between(hash, map[], dest.objects, remote) && Between(hash, start, dest.objects, remote)
      invariant |wants| == i && forall j :: 0 <= j < i ==> Asked(hash, remote, refs, wants, j)
      invariant forall j :: 0 <= j < i ==> CanFetch(hash, remote, refs, size, wants, j)
      invariant written == Written(refs[..i]) && ClosuresHere(hash, dest.objects, refs, i)
    {
      ghost var s := dest.objects;
      BothWithin(hash, s, remote);
      var copied;
      ghost var wanted, mid;
      ok, copied, wanted, mid := FetchReachable(dest, remote, refs[i].1, size);
      BetweenTrans(hash, map[], s, dest.objects, remote);
      BetweenTrans(hash, start, s, dest.objects, remote);
      BetweenExtends(hash, s, dest.objects, remote);
      BetweenExtends(hash, start, dest.objects, remote);
      AskedMore(hash, remote, refs, size, wants, s, mid, wanted);
      wants := wants + [wanted];
      if !ok || !SafeRefName(refs[i].0) {
        ok := false;
        return;
      }
      ClosuresNext(hash, s, dest.objects, refs, i);
      WrittenNext(refs, i);
      written := written[refs[i].0 := refs[i].1];
    }
    assert refs[..|refs|] == refs;
    BetweenExtends(hash, start, dest.objects, remote);
    ok := true;
  }

  lemma NoClosures(hash: Content -> string, s: Store, refs: seq<(string, string)>)
    ensures ClosuresHere(hash, s, refs, 0) && Written(refs[..0]) == map[]
  {}

  lemma ClosuresNext(hash: Content -> string, s: Store, t: Store, refs: seq<(string, string)>, n: nat)
    requires n < |refs| && ClosuresHere(hash, s, refs, n) && Extends(s, t)
    requires forall id :: InClosure(hash, UNCUT, refs[n].1, id) ==> id in t
    ensures ClosuresHere(hash, t, refs, n + 1)
  {
    hide InClosure;
  }

  lemma AskedMore(hash: Content -> string, remote: Store, refs: seq<(string, string)>, size: Content -> nat,
                  wants: seq<seq<string>>,
                  start: Store, mid: Store, wanted: seq<string>)
    requires |wants| < |refs|
    requires var tip := refs[|wants|].1;
             Complete(hash, UNCUT, remote, tip) ==> Wants(remote, UNCUT, tip, start, mid, wanted)
    ensures var n, more := |wants|, wants + [wanted];
            && Asked(hash, remote, refs, more, n)
            && (CanFetch(hash, remote, refs, size, more, n) <==>
                  SafeRefName(refs[n].0) && Complete(hash, UNCUT, remote, refs[n].1) && SlicesFit(size, remote, wanted))
            && forall j :: 0 <= j < n ==>
                 && (Asked(hash, remote, refs, wants, j) ==> Asked(hash, remote, refs, more, j))
                 && (CanFetch(hash, remote, refs, size, wants, j) ==> CanFetch(hash, remote, refs, size, more, j))
  {
    hide Complete, SlicesFit, SafeRefName, HangsFrom, Distinct;
  }

  /** With leaves of at most 2 MiB every name and closure decides. */
  lemma LightClone(hash: Content -> string, remote: Store, refs: seq<(string, string)>, size: Content -> nat,
                   wants: seq<seq<string>>, i: nat)
    requires i < |refs| && i < |wants| && Asked(hash, remote, refs, wants, i)
    requires forall id :: id in remote && HangsFrom(remote, UNCUT, refs[i].1, id) ==> size(remote[id]) <= SAFE_LEAF
    ensures CanFetch(hash, remote, refs, size, wants, i) <==>
              SafeRefName(refs[i].0) && Complete(hash, UNCUT, remote, refs[i].1)
  {
    hide HangsFrom, SlicesFit, Complete, SafeRefName, Distinct;
    if Complete(hash, UNCUT, remote, refs[i].1) { LightSlicesFit(size, remote, wants[i]); }
  }

  /** Fetches and writes branches to a depth, with one shared boundary. */
  method FetchTips(dest: Repository, remote: Store, refs: seq<(string, string)>, depth: nat)
    returns (ok: bool, written: map<string, string>, boundary: set<string>, ghost dists: seq<map<string, nat>>)
    requires dest.Valid() && Addressed(dest.hash, remote) && dest.objects == map[] && dest.shallow == UNCUT && depth > 0
    modifies dest`objects
    ensures dest.Valid() && Between(dest.hash, map[], dest.objects, remote)
    ensures ok <==> SafeNames(refs) && forall i :: 0 <= i < |refs| ==> HeldTo(remote, remote, refs[i].1, depth)
    ensures ok ==> written == Written(refs) && |dists| == |refs|
    ensures ok ==> BranchesFetched(remote, dest.objects, Tips(refs), depth, dists, boundary)
    ensures !ok ==>
              && |dists| < |refs| && written == Written(refs[..|dists|])
              && !(SafeRefName(refs[|dists|].0) && HeldTo(remote, remote, refs[|dists|].1, depth))
  {
    hide BranchesFetched, HeldTo, Between, Fetched, Bfs, SafeRefName, Written, Extends, Injective, Addressed;
    ghost var hash, tips := dest.hash, Tips(refs);
    BetweenSelf(hash, map[], remote);
    CloneStart(remote, tips, depth);
    NoClosures(hash, map[], refs);
    dists, boundary, written := [], {}, map[];
    for i := 0 to |refs|
      invariant dest.Valid() && Between(hash, map[], dest.objects, remote)
      invariant |dists| == i && BranchesFetched(remote, dest.objects, tips, depth, dists, boundary)
      invariant forall j :: 0 <= j < i ==> HeldTo(remote, remote, refs[j].1, depth) && SafeRefName(refs[j].0)
      invariant written == Written(refs[..i])
    {
      ghost var s := dest.objects;
      BothWithin(hash, s, remote);
      ghost var dist;
      ghost var before := boundary;
      ok, boundary, dist := FetchTip(dest, remote, refs[i].1, depth, boundary);
      BetweenTrans(hash, map[], s, dest.objects, remote);
      BetweenExtends(hash, s, dest.objects, remote);
      if !ok || !SafeRefName(refs[i].0) {
        ok := false;
        return;
      }
      BranchesNext(remote, s, dest.objects, tips, depth, dists, before, dist, boundary);
      dists := dists + [dist];
      WrittenNext(refs, i);
      written := written[refs[i].0 := refs[i].1];
    }
    assert refs[..|refs|] == refs;
    ok := true;
  }

  /** What a clone that fails at the ref number `n` leaves written: the refs before. */
  predicate PartlyWritten(branches: map<string, string>, tags: map<string, string>, heads: seq<(string, string)>,
                          others: seq<(string, string)>, n: int) {
    && 0 <= n < |heads| + |others|
    && branches == Written(if n < |heads| then heads[..n] else heads)
    && tags == if n < |heads| then map[] else Written(others[..n - |heads|])
  }

  /** Clones into a fresh repository: to a depth, all branches with one shared
      boundary and no tags; or everything, with depth zero. */
  method CloneDepth(dest: Clone, url: string, remote: Store, refs: seq<(string, string)>, depth: nat,
                    size: Content -> nat)
    returns (ok: bool, ghost dists: seq<map<string, nat>>, ghost wants: seq<seq<string>>)
    requires dest.repo.Valid() && Addressed(dest.repo.hash, remote) && dest.repo.objects == map[]
    requires dest.repo.shallow == UNCUT
    requires dest.head == "main" && dest.tags == map[]
    modifies dest, dest.repo
    ensures dest.repo.Valid() && Between(dest.repo.hash, map[], dest.repo.objects, remote)
    ensures var heads, tags := RefsUnder("refs/heads/", refs), RefsUnder("refs/tags/", refs);
            && (depth > 0 ==>
                  (ok <==> SafeNames(heads) && forall i :: 0 <= i < |heads| ==>
                      HeldTo(remote, remote, heads[i].1, depth)))
            && (depth == 0 ==>
                  && |wants| <= |heads + tags|
                  && (ok <==> |wants| == |heads + tags|
                              && forall i :: 0 <= i < |wants| ==>
                                  CanFetch(dest.repo.hash, remote, heads + tags, size, wants, i))
                  && (!ok ==> wants != [] && !CanFetch(dest.repo.hash, remote, heads + tags, size, wants, |wants| - 1))
                  && (forall i :: 0 <= i < |wants| ==> Asked(dest.repo.hash, remote, heads + tags, wants, i)))
    ensures ok ==>
              var heads, tags := RefsUnder("refs/heads/", refs), RefsUnder("refs/tags/", refs);
              && dest.branches == Written(heads) && dest.origin == Some(url)
              && dest.tags == (if depth == 0 then Written(tags) else map[])
              && (heads == [] ==> dest.head == "main")
              && (heads != [] ==> exists i: nat :: Preferred(heads, i) && heads[i].0 == dest.head)
              && (depth > 0 ==>
                    && |dists| == |heads|
                    && BranchesFetched(remote, dest.repo.objects, Tips(heads), depth, dists, dest.repo.shallow))
              && (depth == 0 ==>
                    && dest.repo.shallow == UNCUT
                    && ClosuresHere(dest.repo.hash, dest.repo.objects, heads + tags, |heads + tags|))
    ensures !ok ==>
              && dest.origin == old(dest.origin) && dest.head == "main" && dest.repo.shallow == UNCUT
              && PartlyWritten(dest.branches, dest.tags, RefsUnder("refs/heads/", refs), RefsUnder("refs/tags/", refs),
                  if depth > 0 then |dists| else |wants| - 1)
  {
    hide BranchesFetched, HeldTo, Between, InClosure, Written, Extends, ClosuresHere, CanFetch, Asked, RefsUnder,
         Preferred, SafeRefName, Addressed, Injective;
    var heads := StripRefs(HEADS, refs);
    dists, wants := [], [];
    ghost var hash, base := dest.repo.hash, dest.repo.objects;
    BetweenSelf(hash, map[], remote);
    var written;
    if depth == 0 {
      ok, written, wants := FetchAll(dest.repo, remote, heads, size);
      ghost var tags := RefsUnder(TAGS, refs);
      AskedFirst(hash, remote, heads, tags, size, wants);
      dest.branches := written;
      if !ok {
        assert !CanFetch(hash, remote, heads + tags, size, wants, |wants| - 1);
        return;
      }
      var named := StripRefs(TAGS, refs);
      ghost var s, first := dest.repo.objects, wants;
      ghost var later;
      ok, written, later := FetchAll(dest.repo, remote, named, size);
      AskedBoth(hash, remote, heads, tags, size, first, later);
      wants := first + later;
      dest.tags := written;
      if !ok {
        assert !CanFetch(hash, remote, heads + tags, size, wants, |wants| - 1);
        return;
      }
      ClosuresJoin(hash, s, dest.repo.objects, heads, tags);
    } else {
      var boundary;
      ok, written, boundary, dists := FetchTips(dest.repo, remote, heads, depth);
      dest.branches := written;
      if !ok {
        return;
      }
      dest.repo.shallow := boundary;
    }
    dest.origin := Some(url);
    var default := DefaultBranch(heads);
    if default.Some? {
      dest.head := default.value;
    }
  }

  lemma AskedFirst(hash: Content -> string, remote: Store, a: seq<(string, string)>, b: seq<(string, string)>,
                   size: Content -> nat, wants: seq<seq<string>>)
    requires |wants| <= |a|
    ensures forall i :: 0 <= i < |wants| ==>
              && (Asked(hash, remote, a, wants, i) <==> Asked(hash, remote, a + b, wants, i))
              && (CanFetch(hash, remote, a, size, wants, i) <==> CanFetch(hash, remote, a + b, size, wants, i))
  {
    hide Complete, SlicesFit, SafeRefName, HangsFrom, Distinct;
  }

  lemma AskedBoth(hash: Content -> string, remote: Store, a: seq<(string, string)>, b: seq<(string, string)>,
                  size: Content -> nat,
                  first: seq<seq<string>>, later: seq<seq<string>>)
    requires |first| == |a| && |later| <= |b|
    ensures forall i :: 0 <= i < |first| ==>
              && (Asked(hash, remote, a, first, i) <==> Asked(hash, remote, a + b, first + later, i))
              && (CanFetch(hash, remote, a, size, first, i) <==> CanFetch(hash, remote, a + b, size, first + later, i))
    ensures forall i :: |a| <= i < |a| + |later| ==>
              && (Asked(hash, remote, b, later, i - |a|) <==> Asked(hash, remote, a + b, first + later, i))
              && (CanFetch(hash, remote, b, size, later, i - |a|) <==>
                  CanFetch(hash, remote, a + b, size, first + later, i))
  {
    hide Complete, SlicesFit, SafeRefName, HangsFrom, Distinct;
  }

  lemma ClosuresJoin(hash: Content -> string, s: Store, t: Store, a: seq<(string, string)>, b: seq<(string, string)>)
    requires ClosuresHere(hash, s, a, |a|) && ClosuresHere(hash, t, b, |b|) && Extends(s, t)
    ensures ClosuresHere(hash, t, a + b, |a + b|)
  {
    hide InClosure;
    forall i, id | 0 <= i < |a + b| && InClosure(hash, UNCUT, (a + b)[i].1, id) ensures id in t {
      if i < |a| { assert (a + b)[i] == a[i]; } else { assert (a + b)[i] == b[i - |a|]; }
    }
  }

  /** What an empty or partial clone and its remote hold between them is the remote. */
  lemma BothWithin(hash: Content -> string, s: Store, remote: Store)
    requires Injective(hash) && Addressed(hash, remote) && Between(hash, map[], s, remote)
    ensures Both(s, remote) == remote
  {}

  lemma CloneStart(m: Store, tips: seq<string>, depth: nat)
    ensures BranchesFetched(m, map[], tips, depth, [], {})
  {}

  /** After a shallow clone every walk along the grafted parents, from any branch,
      meets only commits that are here with their trees and leaves. */
  lemma GraftedWalksStay(m: Store, s: Store, tips: seq<string>, depth: nat, dists: seq<map<string, nat>>,
                         shallow: set<string>, i: nat, x: string)
    requires BranchesFetched(m, s, tips, depth, dists, shallow) && i < |dists|
    requires forall id :: id in s ==> id in m && m[id] == s[id]
    requires Reaches(Parents(s, shallow), tips[i], x)
    ensures Whole(m, s, x)
  {
    var p :| WalkBetween(Parents(s, shallow), p, tips[i], x);
    GraftedWithin(m, s, tips, depth, dists, shallow, i, p, |p| - 1);
  }

  lemma {:induction false} GraftedWithin(m: Store, s: Store, tips: seq<string>, depth: nat,
        dists: seq<map<string, nat>>, shallow: set<string>, i: nat, p: seq<string>, j: nat)
    requires BranchesFetched(m, s, tips, depth, dists, shallow) && i < |dists|
    requires forall id :: id in s ==> id in m && m[id] == s[id]
    requires IsWalk(Parents(s, shallow), p) && p[0] == tips[i] && j < |p|
    ensures p[j] in dists[i]
  {
    hide BranchesFetched, Bfs, Parents;
    if j > 0 {
      GraftedWithin(m, s, tips, depth, dists, shallow, i, p, j - 1);
      assert p[j - 1 + 1] in Parents(s, shallow)(p[j - 1]);
      GraftedStep(m, s, tips, depth, dists, shallow, i, p[j - 1], p[j]);
    } else {
      TipFetched(m, s, tips, depth, dists, shallow, i);
    }
  }

  lemma TipFetched(m: Store, s: Store, tips: seq<string>, depth: nat, dists: seq<map<string, nat>>,
                   shallow: set<string>, i: nat)
    requires BranchesFetched(m, s, tips, depth, dists, shallow) && i < |dists|
    ensures tips[i] in dists[i]
  {
    hide Whole, Levelled, Settled, Cut, Named;
    assert Bfs(Named(m), tips[i], depth, dists[i], []);
  }

  lemma GraftedStep(m: Store, s: Store, tips: seq<string>, depth: nat, dists: seq<map<string, nat>>,
                    shallow: set<string>, i: nat, c: string, d: string)
    requires BranchesFetched(m, s, tips, depth, dists, shallow) && i < |dists|
    requires forall id :: id in s ==> id in m && m[id] == s[id]
    requires c in dists[i] && d in Parents(s, shallow)(c)
    ensures d in dists[i]
  {
    hide Whole, Bfs;
    assert d in Named(m)(c);
    assert !Cut(m, depth, dists[i], c);
    hide Named;
    NotLast(Named(m), tips[i], depth, dists[i], c, d);
  }

  lemma NotLast(g: string -> seq<string>, tip: string, depth: nat, dist: map<string, nat>, c: string, d: string)
    requires Bfs(g, tip, depth, dist, []) && c in dist && dist[c] != depth && d in g(c)
    ensures d in dist
  {
    hide Levelled, Distance;
    assert Pending(dist, [], d, dist[c] + 1);
  }

  /** What one branch's fetch leaves: exactly the commits at distance below the
      depth, and as boundary exactly those on the last level that have parents. */
  lemma TipExact(m: Store, s: Store, tip: string, depth: nat, dist: map<string, nat>, before: set<string>,
                 boundary: set<string>, x: string)
    requires Bfs(Named(m), tip, depth, dist, []) && Fetched(m, s, depth, dist, before, boundary) && depth >= 1
    ensures x in dist <==> exists k :: 0 <= k < depth && ReachesIn(Named(m), tip, x, k)
    ensures x in boundary <==> x in before || (Distance(Named(m), tip, x, depth - 1) && Named(m)(x) != [])
  {
    hide Bfs, Named, Whole, ReachesIn, Distance;
    BfsDone(Named(m), tip, depth, dist, x);
    if Distance(Named(m), tip, x, depth - 1) {
      DistanceReaches(Named(m), tip, x, depth - 1);
      DistanceUnique(Named(m), tip, x, depth - 1, dist[x] - 1);
    }
  }
}
