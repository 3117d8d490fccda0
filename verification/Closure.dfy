// What a commit or tag refers to, whichever store it is read from.
module Closure {
  import opened Collections
  import opened Objects
  import opened Graphs

  /** How an id is referred to: to be walked as history, as a tree, or as a leaf. */
  datatype Role = History | Tree | Leaf

  datatype Node = Node(role: Role, id: string)

  function Nodes(role: Role, ids: seq<string>): seq<Node> {
    seq(|ids|, i requires 0 <= i < |ids| => Node(role, ids[i]))
  }

  /** What an object refers to when it is met in the given role; a commit on the
      shallow boundary is cut off from its parents. A tag hides whatever else its
      content might parse as. */
  function Refers(role: Role, c: Content, cut: bool): seq<Node> {
    match role
    case History =>
      if c.tag.Some? then [Node(History, c.tag.value)]
      else if c.commit.Some? then [Node(Tree, c.commit.value.tree)] + if cut then []
          else Nodes(History, c.commit.value.parents)
      else []
    case Tree => if c.manifest.Some? then Nodes(Leaf, ManifestIds(c.manifest.value)) else []
    case Leaf => []
  }

  /** The references of the object an id stands for: an injective hash leaves no choice. */
  ghost function IdealRefers(hash: Content -> string, shallow: set<string>, n: Node): seq<Node> {
    if c: Content :| hash(c) == n.id then Refers(n.role, c, n.id in shallow) else []
  }

  ghost function Ideal(hash: Content -> string, shallow: set<string>): Node -> seq<Node> {
    (n: Node) => IdealRefers(hash, shallow, n)
  }

  /** The boundary of a history that is not cut off anywhere. */
  const UNCUT: set<string> := {}

  /** Everything `tip` depends on, with history cut off at the shallow boundary. */
  ghost predicate InClosure(hash: Content -> string, shallow: set<string>, tip: string, id: string) {
    exists n: Node :: n.id == id && Reaches(Ideal(hash, shallow), Node(History, tip), n)
  }

  /** A stored object refers to what its id stands for. */
  lemma StoredIsIdeal(hash: Content -> string, shallow: set<string>, s: Store, n: Node)
    requires Injective(hash) && Addressed(hash, s) && n.id in s
    ensures Ideal(hash, shallow)(n) == Refers(n.role, s[n.id], n.id in shallow)
  {
    assert hash(s[n.id]) == n.id;
  }

  /** An object in the role of `m` names `n`: a tag its target; a commit its tree and,
      unless cut off, its parents; a manifest whatever some entry of it holds. */
  ghost predicate Names(m: Node, c: Content, shallow: set<string>, n: Node) {
    match m.role
    case History =>
      if c.tag.Some? then n == Node(History, c.tag.value)
      else
        && c.commit.Some?
        && (n == Node(Tree, c.commit.value.tree)
            || (n.role == History && m.id !in shallow && n.id in c.commit.value.parents))
    case Tree => n.role == Leaf && c.manifest.Some? && exists slot :: Entry(c.manifest.value, slot) == Some(n.id)
    case Leaf => false
  }

  lemma NodesHold(role: Role, ids: seq<string>, n: Node)
    ensures n in Nodes(role, ids) <==> n.role == role && n.id in ids
  {
    if n.role == role && n.id in ids {
      var i :| 0 <= i < |ids| && ids[i] == n.id;
      assert Nodes(role, ids)[i] == n;
    }
  }

  /** An object refers to exactly what it names. */
  lemma RefersToNamed(m: Node, c: Content, shallow: set<string>, n: Node)
    ensures n in Refers(m.role, c, m.id in shallow) <==> Names(m, c, shallow, n)
  {
    hide Nodes, ManifestIds;
    if m.role == Tree && c.manifest.Some? {
      NodesHold(Leaf, ManifestIds(c.manifest.value), n);
      InManifestIds(c.manifest.value, n.id);
    } else if m.role == History && c.commit.Some? {
      NodesHold(History, c.commit.value.parents, n);
    }
  }

  /** The tip depends on the node. */
  ghost predicate Depends(hash: Content -> string, shallow: set<string>, tip: string, n: Node) {
    Reaches(Ideal(hash, shallow), Node(History, tip), n)
  }

  /** The closure holds the tip, with each object whatever that names, and nothing else. */
  lemma ClosureUnfolds(hash: Content -> string, shallow: set<string>, tip: string, n: Node)
    requires Injective(hash)
    ensures Depends(hash, shallow, tip, n) <==>
            || n == Node(History, tip)
            || exists m, c :: Depends(hash, shallow, tip, m) && hash(c) == m.id && Names(m, c, shallow, n)
  {
    hide Names, Refers;
    var g, top := Ideal(hash, shallow), Node(History, tip);
    ReachesSelf(g, top);
    if m, c :| Depends(hash, shallow, tip, m) && hash(c) == m.id && Names(m, c, shallow, n) {
      RefersToNamed(m, c, shallow, n);
      ReachesStep(g, top, m, n);
    }
    if Depends(hash, shallow, tip, n) && n != top {
      var p :| WalkBetween(g, p, top, n);
      var last := |p| - 2;
      var m := p[last];
      assert WalkBetween(g, p[..last + 1], top, m);
      assert p[last + 1] in g(m);
      var c: Content :| hash(c) == m.id && n in Refers(m.role, c, m.id in shallow);
      RefersToNamed(m, c, shallow, n);
    }
  }
}
