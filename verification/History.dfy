// Merge bases, merges and replayed commits (crates/repo/src/merge.rs,
// crates/repo/src/replay.rs) over a repository's commit graph.
module History {
  import opened Collections
  import opened Objects
  import opened Graphs
  import opened Merge

  /** The graph the ancestor walk follows: an unreadable commit ends it. */
  function Parents(s: Store, shallow: set<string>): string -> seq<string> {
    (id: string) => if ReadCommit(s, id).Some? && id !in shallow then ReadCommit(s, id).value.parents else []
  }

  /** Every id a walk from stored commits can name. */
  function Known(s: Store): set<string> {
    s.Keys + set id, p | id in s && s[id].commit.Some? && p in s[id].commit.value.parents :: p
  }

  lemma KnownBounds(s: Store, shallow: set<string>, start: string)
    ensures Bounds(Parents(s, shallow), [start], Known(s) + {start})
  {}

  /** No commit is its own proper ancestor, as ids that are hashes guarantee. */
  ghost predicate Acyclic(g: string -> seq<string>) {
    forall a, b :: b in g(a) ==> !Reaches(g, b, a)
  }

  lemma Antisymmetric(g: string -> seq<string>, a: string, b: string)
    requires Acyclic(g) && Reaches(g, a, b) && Reaches(g, b, a)
    ensures a == b
  {
    if a != b {
      ReachesFirst(g, a, b);
      var c :| c in g(a) && Reaches(g, c, b);
      ReachesTrans(g, c, b, a);
    }
  }

  // ---- merge bases ----

  ghost predicate Common(g: string -> seq<string>, a: string, b: string, c: string) {
    Reaches(g, a, c) && Reaches(g, b, c)
  }

  /** A common ancestor that is no ancestor of another one. */
  ghost predicate IsBase(g: string -> seq<string>, a: string, b: string, c: string) {
    Common(g, a, b, c) && forall o :: Common(g, a, b, o) && o != c ==> !Reaches(g, o, c)
  }

  /** The answer of `merge_base`: the least of the bases. */
  ghost predicate Chosen(g: string -> seq<string>, a: string, b: string, r: Option<string>) {
    match r
    case None => forall c :: !IsBase(g, a, b, c)
    case Some(x) => IsBase(g, a, b, x) && forall c :: IsBase(g, a, b, c) ==> Below(x, c)
  }

  /** No member of `s` but `m` itself descends to `m`. */
  ghost predicate Undominated(g: string -> seq<string>, s: set<string>, m: string) {
    m in s && forall o :: o in s && o != m ==> !Reaches(g, o, m)
  }

  lemma {:induction false} UndominatedExists(g: string -> seq<string>, s: set<string>)
    requires Acyclic(g) && s != {}
    ensures exists m :: Undominated(g, s, m)
  {
    hide Reaches;
    var z :| z in s;
    var rest := s - {z};
    if rest == {} {
      assert s == {z};
      assert Undominated(g, s, z);
    } else {
      UndominatedExists(g, rest);
      var m :| Undominated(g, rest, m);
      if Reaches(g, z, m) {
        forall o | o in s && o != z ensures !Reaches(g, o, z) {
          if Reaches(g, o, z) {
            ReachesTrans(g, o, z, m);
            if o == m { Antisymmetric(g, z, m); }
          }
        }
        assert Undominated(g, s, z);
      } else {
        assert Undominated(g, s, m);
      }
    }
  }

  /** On an acyclic history a base is returned exactly when there are common ancestors. */
  lemma BaseExists(s: Store, shallow: set<string>, a: string, b: string, r: Option<string>)
    requires Acyclic(Parents(s, shallow)) && Chosen(Parents(s, shallow), a, b, r)
    ensures r.Some? <==> exists c :: Common(Parents(s, shallow), a, b, c)
  {
    var g := Parents(s, shallow);
    if c :| Common(g, a, b, c) {
      KnownBounds(s, shallow, a);
      var universe := Known(s) + {a};
      forall x | Reaches(g, a, x) ensures x in universe { ClosedContains(g, universe, a, x); }
      var common := set x | x in universe && Common(g, a, b, x);
      assert c in common;
      UndominatedExists(g, common);
      var m :| Undominated(g, common, m);
      assert IsBase(g, a, b, m);
    }
  }

  lemma ChosenSwap(g: string -> seq<string>, a: string, b: string, r: Option<string>)
    requires Chosen(g, a, b, r)
    ensures Chosen(g, b, a, r)
  {
    forall c ensures IsBase(g, a, b, c) <==> IsBase(g, b, a, c) {
      assert forall o :: Common(g, a, b, o) <==> Common(g, b, a, o);
    }
  }

  /** The answer does not depend on the order of the two commits. */
  lemma BaseSymmetric(g: string -> seq<string>, a: string, b: string, r: Option<string>, q: Option<string>)
    requires Chosen(g, a, b, r) && Chosen(g, b, a, q)
    ensures r == q
  {
    ChosenSwap(g, a, b, r);
    match (r, q)
    case (Some(x), Some(y)) => BelowAntisymmetric(x, y);
    case _ =>
  }

  /** One side is the base exactly when the other side descends from it. */
  lemma BaseIsSide(g: string -> seq<string>, a: string, b: string, r: Option<string>)
    requires Acyclic(g) && Chosen(g, a, b, r)
    ensures r == Some(b) <==> Reaches(g, a, b)
  {
    ReachesSelf(g, b);
    if Reaches(g, a, b) {
      forall o | Common(g, a, b, o) && o != b ensures !Reaches(g, o, b) {
        if Reaches(g, o, b) { Antisymmetric(g, o, b); }
      }
      assert IsBase(g, a, b, b);
      forall c | IsBase(g, a, b, c) ensures c == b { assert Common(g, a, b, b); }
    }
  }

  // ---- reading manifests ----

  function ManifestOf(s: Store, id: string): Result<Manifest> {
    match ReadCommit(s, id)
    case None => Err
    case Some(c) => match ReadManifest(s, c.tree) case Some(m) => Ok(m) case None => Err
  }

  /** `parent_manifest`: of the first parent, empty for a root. */
  function ParentManifest(s: Store, shallow: set<string>, id: string): Result<Manifest> {
    match ParentsOf(s, shallow, id)
    case Err => Err
    case Ok(ps) => if ps == [] then Ok(EMPTY) else ManifestOf(s, ps[0])
  }

  function BaseManifest(s: Store, base: Option<string>): Result<Manifest> {
    match base
    case None => Ok(EMPTY)
    case Some(b) => ManifestOf(s, b)
  }

  /** The stored commit `id` records the empty directories of both `ours` and `theirs`. */
  ghost predicate DirsOf(s: Store, id: string, ours: Result<Manifest>, theirs: Result<Manifest>) {
    && ManifestOf(s, id).Ok? && ours.Ok? && theirs.Ok?
    && DirsJoined(ManifestOf(s, id).value, ours.value, theirs.value)
  }

  lemma DirsStored(s: Store, id: string, m: Manifest, o: Manifest, t: Manifest)
    requires ManifestOf(s, id) == Ok(m) && DirsJoined(m, o, t)
    ensures DirsOf(s, id, Ok(o), Ok(t))
  {}

  /** `m` has the entries of `o` and of `t`, which agree wherever both have one. */
  ghost predicate Union(m: Manifest, o: Manifest, t: Manifest) {
    forall slot :: Entry(m, slot) == if Entry(t, slot).Some? then Entry(t, slot) else Entry(o, slot)
  }

  predicate CompatibleAt(o: Manifest, t: Manifest, slot: Slot) {
    Entry(o, slot).Some? && Entry(t, slot).Some? ==> Entry(o, slot) == Entry(t, slot)
  }

  ghost predicate Compatible(o: Manifest, t: Manifest) {
    forall slot :: CompatibleAt(o, t, slot)
  }

  /** `m` has the entries of `o` that `b` does not have. */
  ghost predicate Without(m: Manifest, o: Manifest, b: Manifest) {
    forall slot :: Entry(m, slot) == if Entry(b, slot).Some? then None else Entry(o, slot)
  }

  /** What has no common past is put together, and conflicts where both sides hold
      different things; what is merged away is taken out wherever it is still as
      it was, and conflicts where it has become something else. */
  lemma MergeFromNothing(o: Manifest, t: Manifest)
    ensures Conflicts(EMPTY, o, t) == [] <==> Compatible(o, t)
    ensures Conflicts(EMPTY, o, t) == [] ==> Union(Merged(EMPTY, o, t), o, t)
    ensures Conflicts(t, o, EMPTY) == [] <==> Compatible(o, t)
    ensures Conflicts(t, o, EMPTY) == [] ==> Without(Merged(t, o, EMPTY), o, t)
  {
    hide Merged, Conflicts, Entry;
    NoConflicts(EMPTY, o, t);
    NoConflicts(t, o, EMPTY);
    forall slot
      ensures SlotMerge(EMPTY, o, t, slot).Ok? <==> CompatibleAt(o, t, slot)
      ensures SlotMerge(t, o, EMPTY, slot).Ok? <==> CompatibleAt(o, t, slot)
      ensures CompatibleAt(o, t, slot) ==>
                Entry(Merged(EMPTY, o, t), slot) == if Entry(t, slot).Some? then Entry(t, slot) else Entry(o, slot)
      ensures CompatibleAt(o, t, slot) ==>
                Entry(Merged(t, o, EMPTY), slot) == if Entry(t, slot).Some? then None else Entry(o, slot)
    {
      NothingHeld(slot);
      MergedEntry(EMPTY, o, t, slot);
      MergedEntry(t, o, EMPTY, slot);
    }
  }

  lemma NothingHeld(slot: Slot)
    ensures Entry(EMPTY, slot) == None
  {}

  /** The commit has no parents to look at: a root, or cut off by a shallow clone. */
  predicate Parentless(s: Store, shallow: set<string>, id: string) {
    id in shallow || (id in s && s[id].commit.Some? && s[id].commit.value.parents == [])
  }

  lemma RootStartsEmpty(s: Store, shallow: set<string>, id: string)
    requires Parentless(s, shallow, id)
    ensures ParentManifest(s, shallow, id) == Ok(EMPTY)
  {}

  ghost predicate Extends(s: Store, t: Store) {
    forall id :: id in s ==> id in t && t[id] == s[id]
  }

  // ---- replaying a chain ----

  /** The manifest the `n`th replayed commit starts from. */
  function Before(base: Manifest, ms: seq<Manifest>, n: nat): Manifest
    requires n <= |ms|
  {
    if n == 0 then base else ms[n - 1]
  }

  /** The cherry-picks of a chain with manifests `ms`, whose first commit changes `base`. */
  function Replayed(upstream: Manifest, base: Manifest, ms: seq<Manifest>, n: nat): Result<Manifest>
    requires n <= |ms|
  {
    if n == 0 then Ok(upstream)
    else
      match Replayed(upstream, base, ms, n - 1)
      case Err => Err
      case Ok(onto) =>
        if Conflicts(Before(base, ms, n - 1), onto, ms[n - 1]) == []
            then Ok(Merged(Before(base, ms, n - 1), onto, ms[n - 1])) else Err
  }

  /** A replay gathers the empty directories of upstream and of every commit it replays. */
  lemma {:induction false} ReplayedDirs(upstream: Manifest, base: Manifest, ms: seq<Manifest>, n: nat, d: string)
    requires n <= |ms| && Replayed(upstream, base, ms, n).Ok?
    ensures d in Replayed(upstream, base, ms, n).value.emptyDirs <==>
            d in upstream.emptyDirs || exists i :: 0 <= i < n && d in ms[i].emptyDirs
    ensures n > 0 ==>
              var dirs := Replayed(upstream, base, ms, n).value.emptyDirs;
              Ascending(dirs) && Distinct(dirs)
  {
    hide Merged, Conflicts, Ascending, Distinct;
    if n > 0 {
      ReplayedDirs(upstream, base, ms, n - 1, d);
      var onto := Replayed(upstream, base, ms, n - 1).value;
      MergedShape(Before(base, ms, n - 1), onto, ms[n - 1]);
      if i :| 0 <= i < n && d in ms[i].emptyDirs {
        assert i == n - 1 || (0 <= i < n - 1 && d in ms[i].emptyDirs);
      }
    }
  }

  function Held(base: Manifest, ms: seq<Manifest>, n: nat, slot: Slot): Option<string>
    requires n <= |ms|
  {
    Entry(Before(base, ms, n), slot)
  }

  /** Some commit up to the `n`th changes the entry. */
  predicate Touched(base: Manifest, ms: seq<Manifest>, n: nat, slot: Slot)
    requires n <= |ms|
  {
    n > 0 && (Held(base, ms, n - 1, slot) != Held(base, ms, n, slot) || Touched(base, ms, n - 1, slot))
  }

  /** The first commit that changes the entry changes what upstream has there, or
      makes the change upstream already made. */
  predicate Agreeable(upstream: Manifest, base: Manifest, ms: seq<Manifest>, n: nat, slot: Slot)
    requires n <= |ms|
  {
    if n == 0 || !Touched(base, ms, n, slot) then true
    else if Touched(base, ms, n - 1, slot) then Agreeable(upstream, base, ms, n - 1, slot)
    else Entry(upstream, slot) == Held(base, ms, n - 1, slot) || Entry(upstream, slot) == Held(base, ms, n, slot)
  }

  function Wanted(upstream: Manifest, base: Manifest, ms: seq<Manifest>, n: nat, slot: Slot): Option<string>
    requires n <= |ms|
  {
    if Touched(base, ms, n, slot) then Held(base, ms, n, slot) else Entry(upstream, slot)
  }

  lemma {:induction false} DisagreesOn(upstream: Manifest, base: Manifest, ms: seq<Manifest>, n: nat, slot: Slot)
    requires n < |ms| && !Agreeable(upstream, base, ms, n, slot)
    ensures !Agreeable(upstream, base, ms, n + 1, slot)
  {
    hide Entry;
  }

  /** One entry through one pick of a replay that is clean so far. */
  lemma SlotReplayed(upstream: Manifest, base: Manifest, ms: seq<Manifest>, n: nat, onto: Manifest, slot: Slot)
    requires n < |ms| && Agreeable(upstream, base, ms, n, slot)
    requires Entry(onto, slot) == Wanted(upstream, base, ms, n, slot)
    ensures var b, t := Before(base, ms, n), ms[n];
            && (SlotMerge(b, onto, t, slot).Ok? <==> Agreeable(upstream, base, ms, n + 1, slot))
            && (SlotMerge(b, onto, t, slot).Ok? ==>
                SlotMerge(b, onto, t, slot).value == Wanted(upstream, base, ms, n + 1, slot))
  {
    hide Entry;
    TouchedHolds(base, ms, n, slot);
  }

  /** An untouched entry is still the base's. */
  lemma {:induction false} TouchedHolds(base: Manifest, ms: seq<Manifest>, n: nat, slot: Slot)
    requires n <= |ms|
    ensures !Touched(base, ms, n, slot) ==> Held(base, ms, n, slot) == Entry(base, slot)
  {
    hide Entry;
    if n > 0 { TouchedHolds(base, ms, n - 1, slot); }
  }

  /** The meaning of a rebase: it is clean exactly when at every entry the first
      touching commit finds what it expects or what it is about to write, and
      then each entry is the chain's wherever the chain touched it and
      upstream's everywhere else. */
  lemma {:induction false} RebaseMeaning(upstream: Manifest, base: Manifest, ms: seq<Manifest>, n: nat)
    requires n <= |ms|
    ensures Replayed(upstream, base, ms, n).Ok? <==> forall slot :: Agreeable(upstream, base, ms, n, slot)
    ensures Replayed(upstream, base, ms, n).Ok? ==>
              forall slot :: Entry(Replayed(upstream, base, ms, n).value, slot) == Wanted(upstream, base, ms, n, slot)
  {
    hide Merged, Conflicts, Entry, Agreeable, Wanted, SlotMerge;
    if n == 0 {
      NothingReplayed(upstream, base, ms);
    } else {
      RebaseMeaning(upstream, base, ms, n - 1);
      if Replayed(upstream, base, ms, n - 1).Ok? {
        ReplayedNext(upstream, base, ms, n - 1, n, Replayed(upstream, base, ms, n - 1).value);
      } else {
        var slot :| !Agreeable(upstream, base, ms, n - 1, slot);
        DisagreesOn(upstream, base, ms, n - 1, slot);
      }
    }
  }

  lemma NothingReplayed(upstream: Manifest, base: Manifest, ms: seq<Manifest>)
    ensures forall slot :: Agreeable(upstream, base, ms, 0, slot)
    ensures forall slot :: Wanted(upstream, base, ms, 0, slot) == Entry(upstream, slot)
  {
    hide Entry;
  }

  lemma ReplayedNext(upstream: Manifest, base: Manifest, ms: seq<Manifest>, n: nat, next: nat, onto: Manifest)
    requires n < |ms| && next == n + 1 && forall slot :: Agreeable(upstream, base, ms, n, slot)
    requires forall slot :: Entry(onto, slot) == Wanted(upstream, base, ms, n, slot)
    ensures var b, t := Before(base, ms, n), ms[n];
            && (Conflicts(b, onto, t) == [] <==> forall slot :: Agreeable(upstream, base, ms, next, slot))
            && (Conflicts(b, onto, t) == [] ==>
                  forall slot :: Entry(Merged(b, onto, t), slot) == Wanted(upstream, base, ms, next, slot))
  {
    hide Merged, Conflicts, Entry, Agreeable, Wanted, SlotMerge;
    var b, t := Before(base, ms, n), ms[n];
    NoConflicts(b, onto, t);
    forall slot
      ensures SlotMerge(b, onto, t, slot).Ok? <==> Agreeable(upstream, base, ms, next, slot)
      ensures SlotMerge(b, onto, t, slot).Ok? ==>
                Entry(Merged(b, onto, t), slot) == Wanted(upstream, base, ms, next, slot)
    {
      assert Agreeable(upstream, base, ms, n, slot);
      MergedEntry(b, onto, t, slot);
      SlotReplayed(upstream, base, ms, n, onto, slot);
    }
    if Clean(b, onto, t) {
      forall slot ensures Agreeable(upstream, base, ms, next, slot) { assert SlotMerge(b, onto, t, slot).Ok?; }
    } else {
      var slot :| SlotMerge(b, onto, t, slot).Err?;
      assert !Agreeable(upstream, base, ms, next, slot);
    }
  }

  // ---- picking and reverting ----

  /** A pick onto its own parent reproduces the picked content. */
  lemma PickOntoParent(p: Manifest, t: Manifest)
    ensures Conflicts(p, p, t) == []
    ensures forall slot :: Entry(Merged(p, p, t), slot) == Entry(t, slot)
  {
    hide Merged, Conflicts, Entry;
    NoConflicts(p, p, t);
    forall slot ensures Entry(Merged(p, p, t), slot) == Entry(t, slot) { MergedEntry(p, p, t, slot); }
  }

  /** Reverting a clean pick never conflicts, and gives back what was there before
      exactly when the pick did not meet its own change already made. */
  lemma RevertUndoesPick(p: Manifest, o: Manifest, t: Manifest)
    requires Conflicts(p, o, t) == []
    ensures Conflicts(t, Merged(p, o, t), p) == []
    ensures (forall slot :: Entry(Merged(t, Merged(p, o, t), p), slot) == Entry(o, slot)) <==>
            forall slot :: Entry(p, slot) != Entry(t, slot) ==> Entry(o, slot) != Entry(t, slot)
  {
    hide Merged, Conflicts, Entry;
    NoConflicts(p, o, t);
    var picked := Merged(p, o, t);
    NoConflicts(t, picked, p);
    forall slot
      ensures SlotMerge(t, picked, p, slot).Ok?
      ensures Entry(Merged(t, picked, p), slot) == Entry(o, slot) <==>
              (Entry(p, slot) != Entry(t, slot) ==> Entry(o, slot) != Entry(t, slot))
    {
      assert SlotMerge(p, o, t, slot).Ok?;
      MergedEntry(p, o, t, slot);
      MergedEntry(t, picked, p, slot);
    }
  }

  // ---- the repository ----

  datatype MergeOutcome = UpToDate | FastForward(to: string) | MergedAs(id: string) | Clash(names: seq<string>)

  datatype ReplayOutcome = Done(id: string) | Stopped(names: seq<string>)

  /** The commits from `head` back along first parents, up to but not including
      `base`, or to a root; newest first. */
  ghost predicate IsChain(s: Store, shallow: set<string>, head: string, base: Option<string>, chain: seq<string>) {
    && (chain == [] <==> Some(head) == base)
    && (chain != [] ==> chain[0] == head)
    && (forall i :: 0 <= i < |chain| ==> Some(chain[i]) != base && ParentsOf(s, shallow, chain[i]).Ok?)
    && (forall i :: 0 <= i < |chain| - 1 ==> FirstParent(s, shallow, chain[i]) == Some(chain[i + 1]))
    && (chain != [] ==> FirstParent(s, shallow, chain[|chain| - 1]) in [None, base])
  }

  function FirstParent(s: Store, shallow: set<string>, id: string): Option<string> {
    match ParentsOf(s, shallow, id)
    case Ok(ps) => if ps == [] then None else Some(ps[0])
    case Err => None
  }

  /** Commit `id` carries the given manifest, parents, message, author and time. */
  ghost predicate Records(s: Store, id: string, m: Manifest, parents: seq<string>, message: string, author: string,
                          time: string) {
    exists tree :: ReadCommit(s, id) == Some(Commit(tree, parents, message, author, time)) &&
        ReadManifest(s, tree) == Some(m)
  }

  function RevertMessage(target: string): string {
    "Revert commit " + target[..if |target| < 10 then |target| else 10]
  }

  /** A chain under construction: `cur` is where it goes on. */
  ghost predicate Chaining(s: Store, shallow: set<string>, head: string, base: Option<string>, done: seq<string>,
                           cur: Option<string>) {
    && (done == [] ==> cur == Some(head))
    && (done != [] ==> done[0] == head && FirstParent(s, shallow, done[|done| - 1]) == cur)
    && (forall i :: 0 <= i < |done| ==> Some(done[i]) != base && ParentsOf(s, shallow, done[i]).Ok?)
    && (forall i :: 0 <= i < |done| - 1 ==> FirstParent(s, shallow, done[i]) == Some(done[i + 1]))
  }

  /** Every chain goes through what has been collected. */
  lemma {:induction false} ChainPrefix(s: Store, shallow: set<string>, head: string, base: Option<string>,
                                       done: seq<string>, cur: Option<string>, chain: seq<string>, n: nat)
    requires Chaining(s, shallow, head, base, done, cur) && IsChain(s, shallow, head, base, chain)
    requires n < |done|
    ensures n < |chain| && chain[n] == done[n]
  {
    if n > 0 {
      ChainPrefix(s, shallow, head, base, done, cur, chain, n - 1);
      assert FirstParent(s, shallow, done[n - 1]) == Some(done[n - 1 + 1]);
      if n < |chain| { assert FirstParent(s, shallow, chain[n - 1]) == Some(chain[n - 1 + 1]); }
    }
  }

  /** A chain goes on to where the collected part points, unless that is the base. */
  lemma ChainNext(s: Store, shallow: set<string>, head: string, base: Option<string>, done: seq<string>, c: string,
                  chain: seq<string>)
    requires Chaining(s, shallow, head, base, done, Some(c)) && IsChain(s, shallow, head, base, chain)
    requires Some(c) != base
    ensures |done| < |chain| && chain[|done|] == c && ParentsOf(s, shallow, c).Ok?
  {
    if done != [] {
      var n := |done| - 1;
      ChainPrefix(s, shallow, head, base, done, Some(c), chain, n);
      if n + 1 < |chain| { assert FirstParent(s, shallow, chain[n]) == Some(chain[n + 1]); }
    }
  }

  lemma ChainingStart(s: Store, shallow: set<string>, head: string, base: Option<string>)
    ensures Chaining(s, shallow, head, base, [], Some(head))
  {}

  lemma ChainingStep(s: Store, shallow: set<string>, head: string, base: Option<string>, done: seq<string>, c: string)
    requires Chaining(s, shallow, head, base, done, Some(c)) && Some(c) != base && ParentsOf(s, shallow, c).Ok?
    ensures Chaining(s, shallow, head, base, done + [c], FirstParent(s, shallow, c))
  {}

  lemma ChainingDone(s: Store, shallow: set<string>, head: string, base: Option<string>, done: seq<string>,
                     cur: Option<string>)
    requires Chaining(s, shallow, head, base, done, cur) && (cur == None || cur == base)
    ensures IsChain(s, shallow, head, base, done)
  {}

  lemma ParentInGraph(s: Store, shallow: set<string>, universe: set<string>, c: string)
    requires Closed(Parents(s, shallow), universe) && c in universe
    requires ParentsOf(s, shallow, c).Ok? && ParentsOf(s, shallow, c).value != []
    ensures ParentsOf(s, shallow, c).value[0] in Parents(s, shallow)(c)
    ensures ParentsOf(s, shallow, c).value[0] in universe
  {}

  /** There is at most one chain. */
  lemma ChainUnique(s: Store, shallow: set<string>, head: string, base: Option<string>, chain: seq<string>,
                    other: seq<string>)
    requires IsChain(s, shallow, head, base, chain) && IsChain(s, shallow, head, base, other)
    ensures chain == other
  {
    if chain != [] {
      var end := FirstParent(s, shallow, chain[|chain| - 1]);
      forall n | 0 <= n < |chain|
        ensures n < |other| && other[n] == chain[n]
      {
        ChainPrefix(s, shallow, head, base, chain, end, other, n);
      }
      if |chain| < |other| {
        ChainPrefix(s, shallow, head, base, other, FirstParent(s, shallow, other[|other| - 1]), chain, |chain|);
      }
    }
  }

  /** The manifests a rebase works with, the chain's oldest first. */
  ghost predicate ChainReads(s: Store, shallow: set<string>, upstream: string, chain: seq<string>, u: Manifest,
                             b: Manifest, ms: seq<Manifest>) {
    && ManifestOf(s, upstream) == Ok(u)
    && |ms| == |chain|
    && (forall i :: 0 <= i < |ms| ==> ManifestOf(s, chain[|ms| - 1 - i]) == Ok(ms[i]))
    && (chain != [] ==> ParentManifest(s, shallow, chain[|chain| - 1]) == Ok(b))
  }

  /** The pick of the `n`th oldest commit changes the `n`th manifest from the one before. */
  lemma PickReads(s: Store, shallow: set<string>, head: string, base: Option<string>, upstream: string,
                  chain: seq<string>, u: Manifest, b: Manifest, ms: seq<Manifest>, n: nat)
    requires IsChain(s, shallow, head, base, chain) && ChainReads(s, shallow, upstream, chain, u, b, ms)
    requires n < |ms|
    ensures ParentManifest(s, shallow, chain[|chain| - 1 - n]) == Ok(Before(b, ms, n))
    ensures ManifestOf(s, chain[|chain| - 1 - n]) == Ok(ms[n])
  {
    if n > 0 {
      var i := |chain| - 1 - n;
      assert FirstParent(s, shallow, chain[i]) == Some(chain[i + 1]);
      assert chain[i + 1] == chain[|ms| - 1 - (n - 1)];
    }
  }

  lemma ReadsExtend(s: Store, t: Store, shallow: set<string>, id: string)
    requires Extends(s, t)
    ensures ManifestOf(s, id).Ok? ==> ManifestOf(t, id) == ManifestOf(s, id)
    ensures ParentManifest(s, shallow, id).Ok? ==> ParentManifest(t, shallow, id) == ParentManifest(s, shallow, id)
    ensures ReadCommit(s, id).Some? ==> ReadCommit(t, id) == ReadCommit(s, id)
  {}

  /** Commit `id` has the single parent `onto` and the message and author of `pick`. */
  ghost predicate Picked(s: Store, id: string, onto: string, pick: string, time: string) {
    && ReadCommit(s, id).Some? && ReadCommit(s, pick).Some?
    && var c, p := ReadCommit(s, id).value, ReadCommit(s, pick).value;
      c.parents == [onto] && c.message == p.message && c.author == p.author && c.time == time
  }

  /** What the `i`th new commit sits on. */
  function Onto(upstream: string, made: seq<string>, i: nat): string
    requires i <= |made|
  {
    if i == 0 then upstream else made[i - 1]
  }

  /** The new commits stand in the chain's order, one on top of the other. */
  ghost predicate Rewritten(s: Store, upstream: string, chain: seq<string>, made: seq<string>, time: string) {
    && |made| <= |chain|
    && forall i :: 0 <= i < |made| ==> Picked(s, made[i], Onto(upstream, made, i), chain[|chain| - 1 - i], time)
  }

  lemma PickedExtends(s: Store, t: Store, id: string, onto: string, pick: string, time: string)
    requires Picked(s, id, onto, pick, time) && Extends(s, t)
    ensures Picked(t, id, onto, pick, time)
  {}

  lemma RewrittenStep(s: Store, t: Store, upstream: string, chain: seq<string>, made: seq<string>, time: string,
                      id: string)
    requires Rewritten(s, upstream, chain, made, time) && Extends(s, t) && |made| < |chain|
    requires Picked(t, id, Onto(upstream, made, |made|), chain[|chain| - 1 - |made|], time)
    ensures Rewritten(t, upstream, chain, made + [id], time)
  {
    hide Picked, Extends;
    var more := made + [id];
    forall i | 0 <= i < |more| ensures Picked(t, more[i], Onto(upstream, more, i), chain[|chain| - 1 - i], time) {
      if i < |made| {
        assert Onto(upstream, more, i) == Onto(upstream, made, i);
        PickedExtends(s, t, made[i], Onto(upstream, made, i), chain[|chain| - 1 - i], time);
      }
    }
  }

  /** A manifest and a commit of it, stored. */
  function Recorded(hash: Content -> string, s: Store, m: Manifest, parents: seq<string>, message: string,
                    author: string, time: string): (Store, string) {
    var tree := hash(ManifestContent(m));
    var c := CommitContent(Commit(tree, parents, message, author, time));
    (s[tree := ManifestContent(m)][hash(c) := c], hash(c))
  }

  /** The store after a cherry-pick, and its answer. */
  function Pick(hash: Content -> string, s: Store, shallow: set<string>, onto: string, pick: string,
                time: string): (Store, Result<ReplayOutcome>) {
    match (ParentManifest(s, shallow, pick), ManifestOf(s, onto), ManifestOf(s, pick))
    case (Ok(before), Ok(ours), Ok(theirs)) =>
      if Conflicts(before, ours, theirs) == [] then
        var c := ReadCommit(s, pick).value;
        var (t, id) := Recorded(hash, s, Merged(before, ours, theirs), [onto], c.message, c.author, time);
        (t, Ok(Done(id)))
      else (s, Ok(Stopped(Conflicts(before, ours, theirs))))
    case _ => (s, Err)
  }

  /** The store after the `n` oldest commits of the chain have been picked one on top
      of the other, as far as that goes, and the answer. */
  function Picks(hash: Content -> string, s: Store, shallow: set<string>, upstream: string, chain: seq<string>, n: nat,
                 time: string): (Store, Result<ReplayOutcome>)
    requires n <= |chain|
  {
    if n == 0 then (s, Ok(Done(upstream)))
    else
      var (t, r) := Picks(hash, s, shallow, upstream, chain, n - 1, time);
      if r.Ok? && r.value.Done? then Pick(hash, t, shallow, r.value.id, chain[|chain| - n], time) else (t, r)
  }

  lemma {:induction false} PicksEnd(hash: Content -> string, s: Store, shallow: set<string>, upstream: string,
                                    chain: seq<string>, n: nat, k: nat, time: string)
    requires n <= k <= |chain|
    requires var r := Picks(hash, s, shallow, upstream, chain, n, time).1; r.Err? || r.value.Stopped?
    ensures Picks(hash, s, shallow, upstream, chain, k, time) == Picks(hash, s, shallow, upstream, chain, n, time)
  {
    hide Pick;
    if n < k { PicksEnd(hash, s, shallow, upstream, chain, n, k - 1, time); }
  }

  /** What `cherry_pick` answers and stores. */
  ghost predicate PickSpec(s: Store, t: Store, shallow: set<string>, onto: string, pick: string, time: string,
                           r: Result<ReplayOutcome>) {
    match (ParentManifest(s, shallow, pick), ManifestOf(s, onto), ManifestOf(s, pick))
    case (Ok(before), Ok(ours), Ok(theirs)) =>
      if Conflicts(before, ours, theirs) == []
      then
        && r.Ok? && r.value.Done?
        && ManifestOf(t, r.value.id) == Ok(Merged(before, ours, theirs))
        && Picked(t, r.value.id, onto, pick, time)
      else r == Ok(Stopped(Conflicts(before, ours, theirs)))
    case _ => r == Err
  }

  /** `n` picks in, the current head holds what the replay has come to. */
  ghost predicate Replaying(start: Store, s: Store, shallow: set<string>, upstream: string, chain: seq<string>, n: nat,
                            id: string) {
    forall u, b, ms :: ChainReads(start, shallow, upstream, chain, u, b, ms) ==>
      n <= |ms| == |chain| && Replayed(u, b, ms, n).Ok? && ManifestOf(s, id) == Replayed(u, b, ms, n)
  }

  lemma ReplayStart(start: Store, shallow: set<string>, upstream: string, chain: seq<string>, time: string)
    ensures Replaying(start, start, shallow, upstream, chain, 0, upstream)
    ensures Rewritten(start, upstream, chain, [], time)
  {}

  /** One pick of a rebase, against the specified replay. */
  lemma PickReplays(start: Store, s: Store, t: Store, shallow: set<string>, head: string, base: Option<string>,
                    upstream: string,
                    chain: seq<string>, u: Manifest, b: Manifest, ms: seq<Manifest>, n: nat, onto: string, time: string,
                        r: Result<ReplayOutcome>)
    requires IsChain(start, shallow, head, base, chain) && ChainReads(start, shallow, upstream, chain, u, b, ms)
    requires n < |ms| && Extends(start, s)
    requires Replayed(u, b, ms, n).Ok? && ManifestOf(s, onto) == Replayed(u, b, ms, n)
    requires PickSpec(s, t, shallow, onto, chain[|chain| - 1 - n], time, r)
    ensures StepOutcome(t, r, Replayed(u, b, ms, n + 1))
    ensures r.Ok? && r.value.Done? ==> Picked(t, r.value.id, onto, chain[|chain| - 1 - n], time)
  {
    hide Merged, Conflicts, IsChain;
    PickReads(start, shallow, head, base, upstream, chain, u, b, ms, n);
    hide ParentManifest, ManifestOf, ChainReads;
    ReadsExtend(start, s, shallow, chain[|chain| - 1 - n]);
  }

  class Repository {
    var objects: Store
    var shallow: set<string>
    const hash: Content -> string

    ghost predicate Valid()
      reads this
    {
      Injective(hash) && Addressed(hash, objects)
    }

    function Graph(): string -> seq<string>
      reads this
    {
      Parents(objects, shallow)
    }

    method Write(content: Content) returns (id: string)
      requires Valid()
      modifies this`objects
      ensures Valid()
      ensures id == hash(content) && objects == old(objects)[id := content]
      ensures Extends(old(objects), objects)
    {
      id := hash(content);
      if id !in objects {
        objects := objects[id := content];
      }
    }

    /** Stores a manifest and a commit of it. */
    method Record(m: Manifest, parents: seq<string>, message: string, author: string, time: string) returns (id: string)
      requires Valid()
      modifies this`objects
      ensures Valid() && Extends(old(objects), objects)
      ensures (objects, id) == Recorded(hash, old(objects), m, parents, message, author, time)
      ensures Records(objects, id, m, parents, message, author, time)
      ensures ManifestOf(objects, id) == Ok(m)
    {
      var tree := Write(ManifestContent(m));
      var c := Commit(tree, parents, message, author, time);
      id := Write(CommitContent(c));
      assert hash(CommitContent(c)) != hash(ManifestContent(m));
      assert ReadCommit(objects, id) == Some(c) && ReadManifest(objects, tree) == Some(m);
    }

    /** The commits reachable from `start`, itself included. */
    method Ancestors(start: string) returns (seen: set<string>)
      ensures forall x :: x in seen <==> Reaches(Graph(), start, x)
    {
      hide Reaches, Searching, Known, Bounds, Parents;
      ghost var universe := Known(objects) + {start};
      KnownBounds(objects, shallow, start);
      var g := Graph();
      seen := {};
      var stack := [start];
      SearchStart(g, [start], universe);
      while stack != []
        invariant Searching(g, [start], universe, seen, stack)
        decreases |universe - seen|, |stack|
      {
        var rest, c := stack[..|stack| - 1], stack[|stack| - 1];
        assert stack == rest + [c];
        SearchStep(g, [start], universe, seen, rest, c);
        if c in seen {
          stack := rest;
        } else {
          seen := seen + {c};
          stack := rest + g(c);
        }
      }
      SearchDone(g, start, universe, seen);
    }

    /** The best common ancestor: the least of the undominated ones. */
    method MergeBase(a: string, b: string) returns (base: Option<string>)
      ensures Chosen(Graph(), a, b, base)
    {
      var g := Graph();
      var ofA := Ancestors(a);
      var ofB := Ancestors(b);
      var common := ofA * ofB;
      assert forall c :: c in common <==> Common(g, a, b, c);
      var bases: set<string> := {};
      var todo := common;
      while todo != {}
        invariant todo <= common
        invariant forall c :: c in bases <==> c in common - todo && IsBase(g, a, b, c)
        decreases |todo|
      {
        var c :| c in todo;
        var dominated := Dominated(common, c);
        todo := todo - {c};
        if !dominated {
          bases := bases + {c};
        }
      }
      if bases == {} {
        base := None;
      } else {
        base := Some(Least(bases));
      }
    }

    /** Whether another of the commits `common` descends from `c`. */
    method Dominated(common: set<string>, c: string) returns (dominated: bool)
      ensures dominated <==> exists o :: o in common && o != c && Reaches(Graph(), o, c)
    {
      var todo := common;
      while todo != {}
        invariant todo <= common
        invariant forall o :: o in common - todo && o != c ==> !Reaches(Graph(), o, c)
        decreases |todo|
      {
        var o :| o in todo;
        todo := todo - {o};
        if o != c {
          var older := Ancestors(o);
          if c in older { return true; }
        }
      }
      return false;
    }

    /** Merges `theirs` into `ours`. */
    method Merge(ours: string, theirs: string, message: string, author: string, time: string)
      returns (r: Result<MergeOutcome>, ghost base: Option<string>)
      requires Valid() && Acyclic(Graph())
      modifies this`objects
      ensures Valid() && Extends(old(objects), objects)
      ensures r == Ok(UpToDate) <==> Reaches(old(Graph()), ours, theirs)
      ensures r == Ok(FastForward(theirs)) <==> ours != theirs && Reaches(old(Graph()), theirs, ours)
      ensures Chosen(old(Graph()), ours, theirs, base)
      ensures !Reaches(old(Graph()), ours, theirs) && !Reaches(old(Graph()), theirs, ours) ==>
                match (BaseManifest(old(objects), base), ManifestOf(old(objects), ours),
                    ManifestOf(old(objects), theirs))
                case (Ok(mb), Ok(mo), Ok(mt)) =>
                  if Conflicts(mb, mo, mt) == []
                  then r.Ok? && r.value.MergedAs? &&
                      Records(objects, r.value.id, Merged(mb, mo, mt), [ours, theirs], message, author, time)
                  else r == Ok(Clash(Conflicts(mb, mo, mt)))
                case _ => r == Err
      ensures (r.Ok? && r.value.MergedAs?) || objects == old(objects)
      ensures r.Ok? && r.value.MergedAs? ==>
                var mo, mt := ManifestOf(old(objects), ours), ManifestOf(old(objects), theirs);
                && DirsOf(objects, r.value.id, mo, mt)
                && (base.None? ==> Union(ManifestOf(objects, r.value.id).value, mo.value, mt.value))
    {
      var g := Graph();
      ReachesSelf(g, ours);
      var found := MergeBase(ours, theirs);
      base := found;
      BaseIsSide(g, ours, theirs, found);
      if ours == theirs || found == Some(theirs) {
        if ours != theirs && Reaches(g, theirs, ours) { Antisymmetric(g, ours, theirs); }
        return Ok(UpToDate), base;
      }
      ghost var swapped := found;
      assert Chosen(g, theirs, ours, swapped) by { ChosenSwap(g, ours, theirs, found); }
      BaseIsSide(g, theirs, ours, swapped);
      if found == Some(ours) {
        return Ok(FastForward(theirs)), base;
      }
      var mb, mo, mt := BaseManifest(objects, found), ManifestOf(objects, ours), ManifestOf(objects, theirs);
      if mb.Err? || mo.Err? || mt.Err? {
        return Err, base;
      }
      var merged, conflicts := ThreeWayManifest(mb.value, mo.value, mt.value);
      if conflicts != [] {
        return Ok(Clash(conflicts)), base;
      }
      var id := Record(merged, [ours, theirs], message, author, time);
      MergeFromNothing(mo.value, mt.value);
      r := Ok(MergedAs(id));
    }

    /** Applies the change of `pick` on top of `onto`. */
    method CherryPick(onto: string, pick: string, time: string) returns (r: Result<ReplayOutcome>)
      requires Valid()
      modifies this`objects
      ensures Valid() && Extends(old(objects), objects)
      ensures (objects, r) == Pick(hash, old(objects), shallow, onto, pick, time)
      ensures PickSpec(old(objects), objects, shallow, onto, pick, time, r)
      ensures if r.Ok? && r.value.Done? then Picked(objects, r.value.id, onto, pick, time) else objects == old(objects)
      ensures r.Ok? && r.value.Done? ==>
                var o, t := ManifestOf(old(objects), onto), ManifestOf(old(objects), pick);
                && DirsOf(objects, r.value.id, o, t)
                && (Parentless(old(objects), shallow, pick) ==>
                      Union(ManifestOf(objects, r.value.id).value, o.value, t.value))
    {
      var b, o, t := ParentManifest(objects, shallow, pick), ManifestOf(objects, onto), ManifestOf(objects, pick);
      if b.Err? || o.Err? || t.Err? {
        return Err;
      }
      var merged, conflicts := ThreeWayManifest(b.value, o.value, t.value);
      if conflicts != [] {
        return Ok(Stopped(conflicts));
      }
      var c := ReadCommit(objects, pick).value;
      var id := Record(merged, [onto], c.message, c.author, time);
      MergeFromNothing(o.value, t.value);
      r := Ok(Done(id));
    }

    /** Undoes `target` on top of `onto`. */
    method Revert(onto: string, target: string, author: string, time: string) returns (r: Result<ReplayOutcome>)
      requires Valid()
      modifies this`objects
      ensures Valid() && Extends(old(objects), objects)
      ensures match (ManifestOf(old(objects), target), ManifestOf(old(objects), onto),
            ParentManifest(old(objects), shallow, target))
              case (Ok(b), Ok(o), Ok(t)) =>
                if Conflicts(b, o, t) == []
                then
                  && r.Ok? && r.value.Done?
                  && Records(objects, r.value.id, Merged(b, o, t), [onto], RevertMessage(target), author, time)
                else r == Ok(Stopped(Conflicts(b, o, t)))
              case _ => r == Err
      ensures (r.Ok? && r.value.Done?) || objects == old(objects)
      ensures r.Ok? && r.value.Done? ==>
                var b, o := ManifestOf(old(objects), target), ManifestOf(old(objects), onto);
                && DirsOf(objects, r.value.id, o, ParentManifest(old(objects), shallow, target))
                && (Parentless(old(objects), shallow, target) ==>
                      Without(ManifestOf(objects, r.value.id).value, o.value, b.value))
    {
      ghost var root := Parentless(objects, shallow, target);
      if root { RootStartsEmpty(objects, shallow, target); }
      hide Merged, Conflicts, Records, ManifestOf, ParentManifest, Injective, Addressed, Parentless, DirsOf, DirsJoined,
           Without, Union, Compatible, NoHollow, Extends;
      var b, o, t := ManifestOf(objects, target), ManifestOf(objects, onto), ParentManifest(objects, shallow, target);
      if b.Err? || o.Err? || t.Err? {
        return Err;
      }
      var merged, conflicts := ThreeWayManifest(b.value, o.value, t.value);
      if conflicts != [] {
        return Ok(Stopped(conflicts));
      }
      var id := Record(merged, [onto], RevertMessage(target), author, time);
      DirsStored(objects, id, merged, o.value, t.value);
      if root { MergeFromNothing(o.value, b.value); }
      r := Ok(Done(id));
    }

    /** The commits to replay: from `head` back to `base` along first parents. */
    method CollectChain(head: string, base: Option<string>) returns (r: Result<seq<string>>)
      requires Acyclic(Graph())
      ensures forall chain :: IsChain(objects, shallow, head, base, chain) <==> r == Ok(chain)
    {
      hide Chaining, IsChain, Known, Reaches, Parents, Closed;
      ghost var universe := Known(objects) + {head};
      KnownBounds(objects, shallow, head);
      ghost var g := Graph();
      var cur, chain := Some(head), [];
      ghost var visited: set<string> := {};
      ChainingStart(objects, shallow, head, base);
      while cur.Some? && cur != base
        invariant Chaining(objects, shallow, head, base, chain, cur)
        invariant cur.Some? ==> cur.value in universe && Behind(g, visited, cur.value)
        decreases |universe - visited|, cur
      {
        var c := cur.value;
        var parents := ParentsOf(objects, shallow, c);
        if parents.Err? {
          forall other | IsChain(objects, shallow, head, base, other) ensures false {
            ChainNext(objects, shallow, head, base, chain, c, other);
          }
          return Err;
        }
        ChainingStep(objects, shallow, head, base, chain, c);
        chain := chain + [c];
        SmallerLeft(universe, visited, c);
        if parents.value == [] {
          cur := None;
        } else {
          ParentInGraph(objects, shallow, universe, c);
          BehindStep(g, visited, c, parents.value[0]);
          cur := Some(parents.value[0]);
        }
        visited := visited + {c};
      }
      ChainingDone(objects, shallow, head, base, chain, cur);
      forall other | IsChain(objects, shallow, head, base, other) ensures other == chain {
        ChainUnique(objects, shallow, head, base, chain, other);
      }
      return Ok(chain);
    }

    /** Replays the commits of `head` that are not behind the merge base onto `upstream`. */
    method Rebase(upstream: string, head: string, time: string)
      returns (r: Result<ReplayOutcome>, ghost base: Option<string>, ghost made: seq<string>)
      requires Valid() && Acyclic(Graph())
      modifies this`objects
      ensures Valid() && Extends(old(objects), objects)
      ensures Chosen(old(Graph()), head, upstream, base)
      ensures (forall chain :: !IsChain(old(objects), shallow, head, base, chain)) ==>
                r == Err && objects == old(objects)
      ensures forall chain :: IsChain(old(objects), shallow, head, base, chain) ==>
                (objects, r) == Picks(hash, old(objects), shallow, upstream, chain, |chain|, time)
      ensures forall chain, u, b, ms ::
                IsChain(old(objects), shallow, head, base, chain) &&
                    ChainReads(old(objects), shallow, upstream, chain, u, b, ms) ==>
                  match Replayed(u, b, ms, |ms|)
                  case Ok(m) =>
                    && r.Ok? && r.value.Done? && ManifestOf(objects, r.value.id) == Ok(m)
                    && |made| == |chain| && Rewritten(objects, upstream, chain, made, time)
                    && r.value.id == Onto(upstream, made, |made|)
                  case Err => r.Ok? && r.value.Stopped?
    {
      hide Chaining, IsChain, Known, Reaches, Chosen, Replayed, ChainReads, Picked, ManifestOf, PickSpec, Rewritten,
           Pick, Picks;
      var found := MergeBase(head, upstream);
      base, made := found, [];
      ghost var start := objects;
      var collected := CollectChain(head, found);
      if collected.Err? {
        return Err, base, made;
      }
      var chain := collected.value;
      var newHead, n := upstream, 0;
      NothingPicked(hash, start, shallow, upstream, chain, time);
      ReplayStart(start, shallow, upstream, chain, time);
      while n < |chain|
        invariant n <= |chain|
        invariant Valid() && Extends(start, objects)
        invariant |made| == n && newHead == Onto(upstream, made, n)
        invariant Rewritten(objects, upstream, chain, made, time)
        invariant Replaying(start, objects, shallow, upstream, chain, n, newHead)
        invariant Picks(hash, start, shallow, upstream, chain, n, time) == (objects, Ok(Done(newHead)))
      {
        var pick := chain[|chain| - 1 - n];
        ghost var s := objects;
        var step := CherryPick(newHead, pick, time);
        PicksStep(hash, start, s, shallow, upstream, chain, n, newHead, time);
        forall u, b, ms | ChainReads(start, shallow, upstream, chain, u, b, ms)
          ensures StepOutcome(objects, step, Replayed(u, b, ms, n + 1))
        {
          PickReplays(start, s, objects, shallow, head, found, upstream, chain, u, b, ms, n, newHead, time, step);
        }
        if step.Err? || step.value.Stopped? {
          PicksEnd(hash, start, shallow, upstream, chain, n + 1, |chain|, time);
          forall u, b, ms | ChainReads(start, shallow, upstream, chain, u, b, ms)
            ensures step.Ok? && step.value.Stopped? && Replayed(u, b, ms, |ms|).Err?
          {
            StaysStopped(u, b, ms, n + 1, |ms|);
          }
          return step, base, made;
        }
        RewrittenStep(s, objects, upstream, chain, made, time, step.value.id);
        newHead, made, n := step.value.id, made + [step.value.id], n + 1;
      }
      r := Ok(Done(newHead));
    }
  }

  lemma NothingPicked(hash: Content -> string, s: Store, shallow: set<string>, upstream: string, chain: seq<string>,
                      time: string)
    ensures Picks(hash, s, shallow, upstream, chain, 0, time) == (s, Ok(Done(upstream)))
  {}

  lemma PicksStep(hash: Content -> string, s: Store, t: Store, shallow: set<string>, upstream: string,
                  chain: seq<string>, n: nat, onto: string, time: string)
    requires n < |chain| && Picks(hash, s, shallow, upstream, chain, n, time) == (t, Ok(Done(onto)))
    ensures Picks(hash, s, shallow, upstream, chain, n + 1, time) ==
          Pick(hash, t, shallow, onto, chain[|chain| - 1 - n], time)
  {
    hide Pick;
  }

  /** A pick's answer against the outcome its replay is specified to have. */
  ghost predicate StepOutcome(s: Store, step: Result<ReplayOutcome>, m: Result<Manifest>) {
    && step.Ok?
    && match m case Ok(_) => step.value.Done? && ManifestOf(s, step.value.id) == m case Err => step.value.Stopped?
  }

  lemma {:induction false} StaysStopped(u: Manifest, b: Manifest, ms: seq<Manifest>, n: nat, k: nat)
    requires n <= k <= |ms| && Replayed(u, b, ms, n).Err?
    ensures Replayed(u, b, ms, k).Err?
  {
    hide Merged, Conflicts;
    if n < k { StaysStopped(u, b, ms, n, k - 1); }
  }

  /** Every visited commit properly descends to `c`. */
  ghost predicate Behind(g: string -> seq<string>, visited: set<string>, c: string) {
    c !in visited && forall v :: v in visited ==> Reaches(g, v, c)
  }

  lemma BehindStep(g: string -> seq<string>, visited: set<string>, c: string, p: string)
    requires Acyclic(g) && Behind(g, visited, c) && p in g(c)
    ensures Behind(g, visited + {c}, p)
  {
    hide Reaches;
    ReachesSelf(g, c);
    forall v | v in visited + {c} ensures Reaches(g, v, p) && v != p { ReachesStep(g, v, c, p); }
  }
}
