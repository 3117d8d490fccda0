// Checking a remote offsite (verify_remote in crates/repo/src/remote.rs).
module Verifying {
  import opened Collections
  import opened Objects
  import opened Graphs
  import opened Closure
  import opened Reachability

  /** A problem is reported with the role the object was wanted in. */
  datatype Report = Report(branches: nat, commits: nat, objects: nat, missing: seq<Node>, corrupt: seq<Node>)

  predicate IsOk(r: Report) {
    r.missing == [] && r.corrupt == []
  }

  /** The objects that are what their id says. */
  function Intact(hash: Content -> string, remote: Store): Store {
    map id | id in remote && hash(remote[id]) == id :: remote[id]
  }

  /** Some branch depends on the node. */
  ghost predicate Needed(hash: Content -> string, tips: seq<string>, n: Node) {
    exists b :: b in tips && Reaches(Ideal(hash, UNCUT), Node(History, b), n)
  }

  /** The references that can be followed: those of the objects of `v`. */
  function Followed(v: Store): Node -> seq<Node> {
    (n: Node) => if n.id in v then Refers(n.role, v[n.id], false) else []
  }

  /** The node is a branch tip, or an intact object that is found refers to it. */
  ghost predicate Found(hash: Content -> string, remote: Store, tips: seq<string>, n: Node) {
    exists b :: b in tips && Reaches(Followed(Intact(hash, remote)), Node(History, b), n)
  }

  /** The content is usable in the role. */
  predicate Usable(role: Role, c: Content) {
    match role
    case History => c.tag.Some? || c.commit.Some?
    case Tree => c.manifest.Some?
    case Leaf => true
  }

  /** What is asked of a node on the remote: leaves are only hash-checked when deep. */
  predicate NodeOk(hash: Content -> string, remote: Store, deep: bool, n: Node) {
    && n.id in remote
    && (n.role != Leaf || deep ==> hash(remote[n.id]) == n.id)
    && Usable(n.role, remote[n.id])
  }

  predicate Absent(remote: Store, n: Node) {
    n.id !in remote
  }

  predicate Bad(hash: Content -> string, remote: Store, deep: bool, n: Node) {
    n.id in remote && !NodeOk(hash, remote, deep, n)
  }

  // ---- what the walk has met ----

  function TreeOf(v: Store, c: string): Option<string> {
    if IsCommit(v, c) then Some(v[c].commit.value.tree) else None
  }

  /** The leaves of a commit whose tree can be read. */
  function LeavesOf(v: Store, c: string): seq<string> {
    if TreeOf(v, c).None? then []
    else match ReadManifest(v, TreeOf(v, c).value) case Some(m) => ManifestIds(m) case None => []
  }

  /** The node is one the walk asks about when it pops the ids `seen`. */
  predicate Met(v: Store, seen: set<string>, n: Node) {
    match n.role
    case History => n.id in seen
    case Tree => exists c :: c in seen && TreeOf(v, c) == Some(n.id)
    case Leaf => exists c :: c in seen && n.id in LeavesOf(v, c)
  }

  /** The problems listed are those of the commits, tags and trees met, and the
      leaves gathered are those met. */
  ghost predicate Tallied(hash: Content -> string, remote: Store, deep: bool, v: Store, seen: set<string>,
                          leaves: set<string>, missing: seq<Node>, corrupt: seq<Node>) {
    && (forall n :: n in missing <==> n.role != Leaf && Met(v, seen, n) && Absent(remote, n))
    && (forall n :: n in corrupt <==> n.role != Leaf && Met(v, seen, n) && Bad(hash, remote, deep, n))
    && (forall id :: id in leaves <==> Met(v, seen, Node(Leaf, id)))
  }

  /** The problems listed are those of the leaves. */
  ghost predicate LeavesTallied(hash: Content -> string, remote: Store, deep: bool, leaves: set<string>,
                                missing: seq<Node>, corrupt: seq<Node>) {
    && (forall n :: n in missing <==> n.role == Leaf && n.id in leaves && Absent(remote, n))
    && (forall n :: n in corrupt <==> n.role == Leaf && n.id in leaves && Bad(hash, remote, deep, n))
  }

  /** What the numbers of a report count. */
  ghost predicate Counts(hash: Content -> string, remote: Store, tips: seq<string>, r: Report, seen: set<string>,
                         leaves: set<string>) {
    && (forall h :: h in seen <==> Found(hash, remote, tips, Node(History, h)))
    && (forall id :: id in leaves <==> Found(hash, remote, tips, Node(Leaf, id)))
    && r.branches == |tips|
    && r.commits == |Commits(Intact(hash, remote), seen)|
    && r.objects == |seen| + |leaves|
  }

  function Commits(v: Store, seen: set<string>): set<string> {
    set c | c in seen && IsCommit(v, c)
  }

  lemma CommitsAdd(v: Store, seen: set<string>, h: string)
    requires h !in seen
    ensures |Commits(v, seen + {h})| == |Commits(v, seen)| + if IsCommit(v, h) then 1 else 0
  {
    if IsCommit(v, h) {
      assert Commits(v, seen + {h}) == Commits(v, seen) + {h};
    } else {
      assert Commits(v, seen + {h}) == Commits(v, seen);
    }
  }

  /** Fetches one object: missing, present but corrupt, or good. */
  method FetchChecked(hash: Content -> string, remote: Store, id: string) returns (r: Option<Option<Content>>)
    ensures r.None? <==> id !in remote
    ensures r.Some? ==> r.value == At(Intact(hash, remote), id)
  {
    if id !in remote {
      return None;
    }
    if hash(remote[id]) != id {
      return Some(None);
    }
    return Some(Some(remote[id]));
  }

  /** Walks every branch of the remote. What it reports missing and corrupt is
      exactly what the branches lead to over intact objects and is absent or bad,
      and it reports no problem exactly when every commit and tree a branch depends
      on is there, intact and readable, and every leaf is there (and, when deep,
      intact). */
  method VerifyRemote(hash: Content -> string, remote: Store, tips: seq<string>, deep: bool) returns (r: Report)
    requires Injective(hash)
    ensures forall n :: n in r.missing <==> Found(hash, remote, tips, n) && n.id !in remote
    ensures forall n :: n in r.corrupt <==>
              Found(hash, remote, tips, n) && n.id in remote && !NodeOk(hash, remote, deep, n)
    ensures forall n :: n in r.missing || n in r.corrupt ==> Needed(hash, tips, n)
    ensures IsOk(r) <==> forall n :: Needed(hash, tips, n) ==> NodeOk(hash, remote, deep, n)
    ensures exists seen, leaves :: Counts(hash, remote, tips, r, seen, leaves)
  {
    hide Searching, Tallied, LeavesTallied, Met, Needed, Found, Nameable, Walk, Intact, Reaches, Injective, Bounds,
         NodeOk, Commits, Counts;
    ghost var v := Intact(hash, remote);
    ghost var g := Walk(v, UNCUT);
    ghost var universe := Nameable(v, tips);
    NameableBounds(v, UNCUT, tips);
    SearchStart(g, tips, universe);
    NothingMet(hash, remote, deep, v);
    var seen: set<string>, leaves: set<string> := {}, {};
    var stack := tips;
    var missing: seq<Node>, corrupt: seq<Node> := [], [];
    var commits := 0;
    while stack != []
      invariant Searching(g, tips, universe, seen, stack)
      invariant Tallied(hash, remote, deep, v, seen, leaves, missing, corrupt)
      invariant commits == |Commits(v, seen)|
      decreases |universe - seen|, |stack|
    {
      var rest, h := stack[..|stack| - 1], stack[|stack| - 1];
      assert stack == rest + [h];
      SearchStep(g, tips, universe, seen, rest, h);
      if h in seen {
        stack := rest;
      } else {
        var next, found, lost, bad, isCommit := Check(hash, remote, deep, h);
        TalliedMore(hash, remote, deep, v, seen, leaves, missing, corrupt, h, found, lost, bad);
        CommitsAdd(v, seen, h);
        missing, corrupt, leaves := missing + lost, corrupt + bad, leaves + found;
        commits := if isCommit then commits + 1 else commits;
        seen := seen + {h};
        stack := rest + next;
      }
    }
    var lost, bad := CheckLeaves(hash, remote, deep, leaves);
    MetIsFound(hash, remote, tips, universe, seen);
    r := Report(|tips|, commits, |seen| + |leaves|, missing + lost, corrupt + bad);
    AllTallied(hash, remote, deep, tips, v, seen, leaves, missing, corrupt, lost, bad, r);
    FoundIsNeeded(hash, remote, tips);
    NoneBad(hash, remote, deep, tips, r);
  }

  /** One commit or tag of the walk, with its tree. */
  method Check(hash: Content -> string, remote: Store, deep: bool, h: string)
    returns (next: seq<string>, leaves: set<string>, lost: seq<Node>, bad: seq<Node>, isCommit: bool)
    ensures next == Walk(Intact(hash, remote), UNCUT)(h)
    ensures isCommit == IsCommit(Intact(hash, remote), h)
    ensures Tallied(hash, remote, deep, Intact(hash, remote), {h}, leaves, lost, bad)
  {
    hide Intact, ManifestIds;
    next, leaves, lost, bad, isCommit := [], {}, [], [], false;
    ghost var v := Intact(hash, remote);
    var got := FetchChecked(hash, remote, h);
    IntactAt(hash, remote, h);
    MetAlone(v, h);
    if got.None? {
      lost := [Node(History, h)];
      return;
    }
    if got.value.None? {
      bad := [Node(History, h)];
      return;
    }
    var c := got.value.value;
    if c.tag.Some? {
      next := [c.tag.value];
      return;
    }
    if c.commit.None? {
      bad := [Node(History, h)];
      return;
    }
    isCommit := true;
    next := c.commit.value.parents;
    var tree := c.commit.value.tree;
    var t := FetchChecked(hash, remote, tree);
    IntactAt(hash, remote, tree);
    if t.None? {
      lost := [Node(Tree, tree)];
    } else if t.value.None? || t.value.value.manifest.None? {
      bad := [Node(Tree, tree)];
    } else {
      var ids := CollectIds(t.value.value.manifest.value);
      leaves := set id | id in ids;
    }
  }

  /** The leaves, all at once. */
  method CheckLeaves(hash: Content -> string, remote: Store, deep: bool, leaves: set<string>)
    returns (lost: seq<Node>, bad: seq<Node>)
    ensures LeavesTallied(hash, remote, deep, leaves, lost, bad)
  {
    lost, bad := [], [];
    var todo := leaves;
    while todo != {}
      invariant todo <= leaves
      invariant LeavesTallied(hash, remote, deep, leaves - todo, lost, bad)
      decreases |todo|
    {
      var id :| id in todo;
      todo := todo - {id};
      if id !in remote {
        lost := lost + [Node(Leaf, id)];
      } else if deep && hash(remote[id]) != id {
        bad := bad + [Node(Leaf, id)];
      }
    }
  }

  lemma IntactAddressed(hash: Content -> string, remote: Store)
    ensures Addressed(hash, Intact(hash, remote))
  {}

  lemma IntactAt(hash: Content -> string, remote: Store, id: string)
    ensures At(Intact(hash, remote), id) == if id in remote && hash(remote[id]) == id then Some(remote[id]) else None
  {}

  lemma NothingMet(hash: Content -> string, remote: Store, deep: bool, v: Store)
    ensures Tallied(hash, remote, deep, v, {}, {}, [], [])
    ensures Commits(v, {}) == {}
  {}

  lemma MetAlone(v: Store, h: string)
    ensures forall n :: Met(v, {h}, n) <==> match n.role
              case History => n.id == h
              case Tree => TreeOf(v, h) == Some(n.id)
              case Leaf => n.id in LeavesOf(v, h)
  {
    hide LeavesOf, TreeOf;
    forall n
      ensures Met(v, {h}, n) <==> match n.role
              case History => n.id == h
              case Tree => TreeOf(v, h) == Some(n.id)
              case Leaf => n.id in LeavesOf(v, h)
    {
      assert h in {h};
    }
  }

  lemma MetMore(v: Store, seen: set<string>, h: string, n: Node)
    ensures Met(v, seen + {h}, n) <==> Met(v, seen, n) || Met(v, {h}, n)
  {
    hide LeavesOf, TreeOf;
    assert h in seen + {h} && h in {h};
  }

  lemma TalliedMore(hash: Content -> string, remote: Store, deep: bool, v: Store, seen: set<string>,
                    leaves: set<string>, missing: seq<Node>, corrupt: seq<Node>,
                    h: string, found: set<string>, lost: seq<Node>, bad: seq<Node>)
    requires Tallied(hash, remote, deep, v, seen, leaves, missing, corrupt)
    requires Tallied(hash, remote, deep, v, {h}, found, lost, bad)
    ensures Tallied(hash, remote, deep, v, seen + {h}, leaves + found, missing + lost, corrupt + bad)
  {
    forall n ensures Met(v, seen + {h}, n) <==> Met(v, seen, n) || Met(v, {h}, n) { MetMore(v, seen, h, n); }
    hide Met, NodeOk;
  }

  // ---- what was met is what is found ----

  /** One step of the walk follows a reference. */
  lemma OnwardFollowed(v: Store, c: string, d: string)
    requires d in Onward(v, UNCUT, c)
    ensures Node(History, d) in Followed(v)(Node(History, c))
  {
    if v[c].tag.None? {
      var ps := v[c].commit.value.parents;
      var i :| 0 <= i < |ps| && ps[i] == d;
      assert Nodes(History, ps)[i] == Node(History, d);
    }
  }

  lemma {:induction false} WalkFollows(v: Store, p: seq<string>, i: nat)
    requires IsWalk(Walk(v, UNCUT), p) && i < |p|
    ensures Reaches(Followed(v), Node(History, p[0]), Node(History, p[i]))
  {
    hide Reaches, Followed, Onward;
    if i == 0 {
      ReachesSelf(Followed(v), Node(History, p[0]));
    } else {
      WalkFollows(v, p, i - 1);
      assert p[i - 1 + 1] in Walk(v, UNCUT)(p[i - 1]);
      OnwardFollowed(v, p[i - 1], p[i]);
      ReachesStep(Followed(v), Node(History, p[0]), Node(History, p[i - 1]), Node(History, p[i]));
    }
  }

  lemma TreeFollowed(v: Store, c: string)
    requires TreeOf(v, c).Some?
    ensures Node(Tree, TreeOf(v, c).value) in Followed(v)(Node(History, c))
  {
    assert Refers(History, v[c], false)[0] == Node(Tree, TreeOf(v, c).value);
  }

  lemma LeafFollowed(v: Store, c: string, id: string)
    requires id in LeavesOf(v, c)
    ensures TreeOf(v, c).Some? && Node(Leaf, id) in Followed(v)(Node(Tree, TreeOf(v, c).value))
  {
    hide ManifestIds;
    var ids := LeavesOf(v, c);
    var i :| 0 <= i < |ids| && ids[i] == id;
    assert Nodes(Leaf, ids)[i] == Node(Leaf, id);
  }

  /** Whatever is met can be followed to. */
  lemma MetFollowed(v: Store, tips: seq<string>, seen: set<string>, n: Node) returns (b: string)
    requires forall c :: c in seen ==> ReachedFrom(Walk(v, UNCUT), tips, c)
    requires Met(v, seen, n)
    ensures b in tips && Reaches(Followed(v), Node(History, b), n)
  {
    hide Reaches, Followed, LeavesOf, TreeOf;
    var g := Followed(v);
    var c := n.id;
    if n.role == Tree {
      c :| c in seen && TreeOf(v, c) == Some(n.id);
    } else if n.role == Leaf {
      c :| c in seen && n.id in LeavesOf(v, c);
    }
    assert ReachedFrom(Walk(v, UNCUT), tips, c);
    b :| b in tips && Reaches(Walk(v, UNCUT), b, c);
    HistoryFollowed(v, b, c);
    if n.role == Tree {
      TreeFollowed(v, c);
      ReachesStep(g, Node(History, b), Node(History, c), n);
    } else if n.role == Leaf {
      LeafFollowed(v, c, n.id);
      TreeFollowed(v, c);
      ReachesStep(g, Node(History, b), Node(History, c), Node(Tree, TreeOf(v, c).value));
      ReachesStep(g, Node(History, b), Node(Tree, TreeOf(v, c).value), n);
    }
  }

  lemma HistoryFollowed(v: Store, b: string, c: string)
    requires Reaches(Walk(v, UNCUT), b, c)
    ensures Reaches(Followed(v), Node(History, b), Node(History, c))
  {
    var p :| WalkBetween(Walk(v, UNCUT), p, b, c);
    WalkFollows(v, p, |p| - 1);
  }

  function MetNodes(v: Store, seen: set<string>): set<Node> {
    (set c | c in seen :: Node(History, c))
    + (set c | c in seen && TreeOf(v, c).Some? :: Node(Tree, TreeOf(v, c).value))
    + (set c, id | c in seen && id in LeavesOf(v, c) :: Node(Leaf, id))
  }

  lemma MetNodesAre(v: Store, seen: set<string>, n: Node)
    ensures n in MetNodes(v, seen) <==> Met(v, seen, n)
  {
    hide LeavesOf, TreeOf;
  }

  /** References of what is met are met, once the walk is over. */
  lemma MetClosed(v: Store, seen: set<string>, x: Node, y: Node)
    requires Closed(Walk(v, UNCUT), seen) && Met(v, seen, x) && y in Followed(v)(x)
    ensures Met(v, seen, y)
  {
    hide ManifestIds;
    match x.role
    case History =>
      if v[x.id].tag.None? && y !in Nodes(History, v[x.id].commit.value.parents) {
        assert y == Node(Tree, v[x.id].commit.value.tree) && IsCommit(v, x.id);
      } else {
        assert y.role == History && y.id in Walk(v, UNCUT)(x.id);
      }
    case Tree =>
      var c :| c in seen && TreeOf(v, c) == Some(x.id);
      assert y.role == Leaf && y.id in LeavesOf(v, c);
  }

  /** When the walk is over, what it met is what the branches lead to. */
  lemma MetIsFound(hash: Content -> string, remote: Store, tips: seq<string>, universe: set<string>, seen: set<string>)
    requires Searching(Walk(Intact(hash, remote), UNCUT), tips, universe, seen, [])
    ensures forall n :: Met(Intact(hash, remote), seen, n) <==> Found(hash, remote, tips, n)
  {
    hide Reaches, Followed, Met, MetNodes, Intact, Onward, Bounds, Closed, ReachedFrom;
    var v := Intact(hash, remote);
    WorkDone(Walk(v, UNCUT), tips, seen);
    forall n ensures Met(v, seen, n) <==> Found(hash, remote, tips, n) {
      if Met(v, seen, n) {
        var b := MetFollowed(v, tips, seen, n);
      }
      if b :| b in tips && Reaches(Followed(v), Node(History, b), n) {
        TipSeen(v, tips, seen, b);
        FollowedMet(v, seen, b, n);
      }
    }
  }

  lemma TipSeen(v: Store, tips: seq<string>, seen: set<string>, b: string)
    requires b in tips && forall x :: x in seen <==> ReachedFrom(Walk(v, UNCUT), tips, x)
    ensures b in seen
  {
    ReachesSelf(Walk(v, UNCUT), b);
  }

  lemma FollowedMet(v: Store, seen: set<string>, b: string, n: Node)
    requires Closed(Walk(v, UNCUT), seen) && b in seen && Reaches(Followed(v), Node(History, b), n)
    ensures Met(v, seen, n)
  {
    hide Reaches, Followed, Met, MetNodes, Walk;
    var nodes := MetNodes(v, seen);
    forall x ensures x in nodes <==> Met(v, seen, x) { MetNodesAre(v, seen, x); }
    forall x, y | x in nodes && y in Followed(v)(x) ensures y in nodes { MetClosed(v, seen, x, y); }
    assert Met(v, seen, Node(History, b)) by { TipMet(v, seen, b); }
    ClosedContains(Followed(v), nodes, Node(History, b), n);
  }

  lemma TipMet(v: Store, seen: set<string>, b: string)
    requires b in seen
    ensures Met(v, seen, Node(History, b))
  {}

  /** The walk's lists and the leaves' lists together are the report. */
  lemma AllTallied(hash: Content -> string, remote: Store, deep: bool, tips: seq<string>, v: Store, seen: set<string>,
                   leaves: set<string>, missing: seq<Node>, corrupt: seq<Node>, lost: seq<Node>, bad: seq<Node>,
                   r: Report)
    requires v == Intact(hash, remote) && Tallied(hash, remote, deep, v, seen, leaves, missing, corrupt)
    requires LeavesTallied(hash, remote, deep, leaves, lost, bad)
    requires forall n :: Met(v, seen, n) <==> Found(hash, remote, tips, n)
    requires r == Report(|tips|, |Commits(v, seen)|, |seen| + |leaves|, missing + lost, corrupt + bad)
    ensures forall n :: n in r.missing <==> Found(hash, remote, tips, n) && n.id !in remote
    ensures forall n :: n in r.corrupt <==>
              Found(hash, remote, tips, n) && n.id in remote && !NodeOk(hash, remote, deep, n)
    ensures Counts(hash, remote, tips, r, seen, leaves)
  {
    hide Found, Bad, Absent, Intact, Commits, Met, Tallied, LeavesTallied;
    forall n
      ensures n in r.missing <==> Met(v, seen, n) && Absent(remote, n)
      ensures n in r.corrupt <==> Met(v, seen, n) && Bad(hash, remote, deep, n)
    {
      ListedAt(hash, remote, deep, v, seen, leaves, missing, corrupt, lost, bad, n);
    }
    SeenAndLeaves(hash, remote, deep, v, seen, leaves, missing, corrupt);
    BadMeans(hash, remote, deep);
  }

  lemma BadMeans(hash: Content -> string, remote: Store, deep: bool)
    ensures forall n :: Absent(remote, n) <==> n.id !in remote
    ensures forall n :: Bad(hash, remote, deep, n) <==> n.id in remote && !NodeOk(hash, remote, deep, n)
  {
    hide NodeOk;
  }

  lemma ListedAt(hash: Content -> string, remote: Store, deep: bool, v: Store, seen: set<string>, leaves: set<string>,
                 missing: seq<Node>, corrupt: seq<Node>, lost: seq<Node>, bad: seq<Node>, n: Node)
    requires Tallied(hash, remote, deep, v, seen, leaves, missing, corrupt)
    requires LeavesTallied(hash, remote, deep, leaves, lost, bad)
    ensures n in missing + lost <==> Met(v, seen, n) && Absent(remote, n)
    ensures n in corrupt + bad <==> Met(v, seen, n) && Bad(hash, remote, deep, n)
  {
    hide Met, Bad, Absent;
    if n.role == Leaf { assert n == Node(Leaf, n.id); }
  }

  lemma SeenAndLeaves(hash: Content -> string, remote: Store, deep: bool, v: Store, seen: set<string>,
                      leaves: set<string>, missing: seq<Node>, corrupt: seq<Node>)
    requires Tallied(hash, remote, deep, v, seen, leaves, missing, corrupt)
    ensures forall h :: h in seen <==> Met(v, seen, Node(History, h))
    ensures forall id :: id in leaves <==> Met(v, seen, Node(Leaf, id))
  {
    hide LeavesOf, TreeOf;
  }

  // ---- found and needed ----

  lemma FollowedIsIdeal(hash: Content -> string, remote: Store, n: Node)
    requires Injective(hash)
    ensures n.id in Intact(hash, remote) ==> Followed(Intact(hash, remote))(n) == Ideal(hash, UNCUT)(n)
    ensures n.id !in Intact(hash, remote) ==> Followed(Intact(hash, remote))(n) == []
  {
    hide Refers, Injective;
    if n.id in Intact(hash, remote) {
      IntactAddressed(hash, remote);
      StoredIsIdeal(hash, UNCUT, Intact(hash, remote), n);
    }
  }

  lemma {:induction false} FollowedNeeded(hash: Content -> string, remote: Store, p: seq<Node>, i: nat)
    requires Injective(hash) && IsWalk(Followed(Intact(hash, remote)), p) && i < |p|
    ensures Reaches(Ideal(hash, UNCUT), p[0], p[i])
  {
    hide Reaches, Followed, Ideal, Intact, Injective;
    if i == 0 {
      ReachesSelf(Ideal(hash, UNCUT), p[0]);
    } else {
      FollowedNeeded(hash, remote, p, i - 1);
      assert p[i - 1 + 1] in Followed(Intact(hash, remote))(p[i - 1]);
      FollowedIsIdeal(hash, remote, p[i - 1]);
      ReachesStep(Ideal(hash, UNCUT), p[0], p[i - 1], p[i]);
    }
  }

  /** Nothing is found that no branch depends on. */
  lemma FoundIsNeeded(hash: Content -> string, remote: Store, tips: seq<string>)
    requires Injective(hash)
    ensures forall n :: Found(hash, remote, tips, n) ==> Needed(hash, tips, n)
  {
    hide Intact, Followed, Ideal;
    forall n | Found(hash, remote, tips, n) ensures Needed(hash, tips, n) {
      var g := Followed(Intact(hash, remote));
      var b :| b in tips && Reaches(g, Node(History, b), n);
      var p :| WalkBetween(g, p, Node(History, b), n);
      FollowedNeeded(hash, remote, p, |p| - 1);
    }
  }

  /** While everything found is as it should be, what is needed is found. */
  lemma {:induction false} NeededFollowed(hash: Content -> string, remote: Store, deep: bool, tips: seq<string>,
                                          p: seq<Node>, i: nat)
    requires Injective(hash) && IsWalk(Ideal(hash, UNCUT), p) && i < |p|
    requires p[0].role == History && p[0].id in tips
    requires forall n :: Found(hash, remote, tips, n) ==> NodeOk(hash, remote, deep, n)
    ensures Reaches(Followed(Intact(hash, remote)), p[0], p[i])
  {
    hide Reaches, Followed, Ideal, Injective;
    var g := Followed(Intact(hash, remote));
    if i == 0 {
      ReachesSelf(g, p[0]);
    } else {
      NeededFollowed(hash, remote, deep, tips, p, i - 1);
      assert p[i - 1 + 1] in Ideal(hash, UNCUT)(p[i - 1]);
      assert p[0] == Node(History, p[0].id) && Found(hash, remote, tips, p[i - 1]);
      if p[i - 1].role == Leaf { LeafRefersNothing(hash, UNCUT, p[i - 1]); }
      FollowedIsIdeal(hash, remote, p[i - 1]);
      ReachesStep(g, p[0], p[i - 1], p[i]);
    }
  }

  /** A clean report means every needed node is as it should be. */
  lemma NoneBad(hash: Content -> string, remote: Store, deep: bool, tips: seq<string>, r: Report)
    requires Injective(hash)
    requires forall n :: n in r.missing <==> Found(hash, remote, tips, n) && n.id !in remote
    requires forall n :: n in r.corrupt <==>
               Found(hash, remote, tips, n) && n.id in remote && !NodeOk(hash, remote, deep, n)
    ensures IsOk(r) <==> forall n :: Needed(hash, tips, n) ==> NodeOk(hash, remote, deep, n)
  {
    hide Found, NodeOk, Injective;
    FoundIsNeeded(hash, remote, tips);
    if IsOk(r) {
      forall n | Found(hash, remote, tips, n) ensures NodeOk(hash, remote, deep, n) {
        assert n !in r.missing && n !in r.corrupt;
      }
      forall n | Needed(hash, tips, n) ensures NodeOk(hash, remote, deep, n) {
        NeededIsFound(hash, remote, deep, tips, n);
      }
    } else {
      var n := if r.missing != [] then r.missing[0] else r.corrupt[0];
      assert n in r.missing || n in r.corrupt;
      AbsentIsBad(hash, remote, deep, n);
    }
  }

  lemma AbsentIsBad(hash: Content -> string, remote: Store, deep: bool, n: Node)
    ensures n.id !in remote ==> !NodeOk(hash, remote, deep, n)
  {}

  lemma NeededIsFound(hash: Content -> string, remote: Store, deep: bool, tips: seq<string>, n: Node)
    requires Injective(hash) && Needed(hash, tips, n)
    requires forall m :: Found(hash, remote, tips, m) ==> NodeOk(hash, remote, deep, m)
    ensures Found(hash, remote, tips, n)
  {
    hide Followed, Ideal, Intact, NodeOk;
    var b :| b in tips && Reaches(Ideal(hash, UNCUT), Node(History, b), n);
    var p :| WalkBetween(Ideal(hash, UNCUT), p, Node(History, b), n);
    NeededFollowed(hash, remote, deep, tips, p, |p| - 1);
  }
}
