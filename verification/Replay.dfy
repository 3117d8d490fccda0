// Replaying the edits of a walk: when it turns one tree into the other, in
// either direction, and when applying and then reversing restores the start.
module Replay {
  import opened Collections
  import opened NbtValue
  import opened NbtPath
  import opened Comparer
  import opened Edits
  import opened Nodes
  import opened KeyedLists
  import opened Silence
  import opened Identity

  function Source(reverse: bool, a: Nbt, b: Nbt): Nbt {
    if reverse then b else a
  }

  function Target(reverse: bool, a: Nbt, b: Nbt): Nbt {
    if reverse then a else b
  }

  /** Elements matched by identity agree on the fields ranked above the rule that
      gave the identity, at every pair of nodes the walk matches. */
  ghost predicate StableIds(a: Nbt, b: Nbt)
    decreases a
  {
    TagId(a) == TagId(b) ==>
      match a
      case Compound(ma) => forall k :: k in ma && k in b.m ==> StableIds(ma[k], b.m[k])
      case List(la) =>
        if Keyable(la) && Keyable(b.items) then
          forall i :: 0 <= i < |la| && HasId(b.items, IdAt(la, i)) ==>
            var e := ById(b.items, IdAt(la, i));
            && la[i].Compound? && e.Compound? && AgreeOn(la[i].m, e.m, FieldsAbove(RuleOf(la[i])))
            && StableIds(la[i], e)
        else forall i :: 0 <= i < Min(|la|, |b.items|) ==> StableIds(la[i], b.items[i])
      case _ => true
  }

  /** What the replay from `source` to `target` can carry out: lists matched by
      identity gain nothing, lists matched by index lose at most one element. */
  ghost predicate Replayable(source: Nbt, target: Nbt)
    decreases source
  {
    TagId(source) == TagId(target) ==>
      match source
      case Compound(m) => forall k :: k in m && k in target.m ==> Replayable(m[k], target.m[k])
      case List(l) =>
        if Keyable(l) && Keyable(target.items) then
          && Ids(target.items) <= Ids(l)
          && forall i :: 0 <= i < |l| && HasId(target.items, IdAt(l, i)) ==>
              Replayable(l[i], ById(target.items, IdAt(l, i)))
        else
          && |l| <= |target.items| + 1
          && forall i :: 0 <= i < Min(|l|, |target.items|) ==> Replayable(l[i], target.items[i])
      case _ => true
  }

  // ---- the result always looks like the target from outside ----

  lemma {:induction false} RunKeepsTag(reverse: bool, t: Nbt, ops: seq<Op>)
    requires forall i :: 0 <= i < |ops| ==> ops[i].segs != []
    ensures TagId(Run(reverse, t, ops).tree) == TagId(t)
    decreases |ops|
  {
    hide IdentityKey;
    if ops != [] {
      RunKeepsTag(reverse, Edit(reverse, t, ops[0]).tree, ops[1..]);
    }
  }

  predicate NoRoot(ops: seq<Op>) {
    forall i :: 0 <= i < |ops| ==> ops[i].segs != []
  }

  lemma NoRootAppend(x: seq<Op>, y: seq<Op>)
    requires NoRoot(x) && NoRoot(y)
    ensures NoRoot(x + y)
  {}

  lemma {:induction false} IndexOpsNoRoot(ord: Order, path: string, a: Nbt, b: Nbt, i: nat)
    requires a.List? && b.List?
    ensures NoRoot(IndexOps(ord, path, a, b, i))
    decreases |a.items| - i
  {
    hide Walk;
    if i < Min(|a.items|, |b.items|) {
      LiftOk(Index(i), Walk(ord, Extend(path, Index(i)), a.items[i], b.items[i]));
      IndexOpsNoRoot(ord, path, a, b, i + 1);
      NoRootAppend(IndexStep(ord, path, a, b, i), IndexOps(ord, path, a, b, i + 1));
    }
  }

  lemma {:induction i} TailOpsNoRoot(items: seq<Nbt>, i: nat)
    ensures NoRoot(RemovedTailOps(items, i)) && NoRoot(AddedTailOps(items, i))
    decreases |items| - i
  {}

  lemma AlignedKeepsList(reverse: bool, ord: Order, path: string, a: Nbt, b: Nbt, c: seq<Nbt>)
    requires a.List? && b.List?
    ensures Run(reverse, List(c), AlignedOps(ord, path, a, b)).tree.List?
  {
    hide Run;
    var common := Min(|a.items|, |b.items|);
    IndexOpsNoRoot(ord, path, a, b, 0);
    TailOpsNoRoot(a.items, common);
    TailOpsNoRoot(b.items, common);
    NoRootAppend(RemovedTailOps(a.items, common), AddedTailOps(b.items, common));
    NoRootAppend(IndexOps(ord, path, a, b, 0), RemovedTailOps(a.items, common) + AddedTailOps(b.items, common));
    RunKeepsTag(reverse, List(c), AlignedOps(ord, path, a, b));
  }

  /** The list setting of a replay that starts on the source itself. */
  lemma SourceSetting(reverse: bool, ord: Order, path: string, a: Nbt, b: Nbt) returns (s: Setting)
    requires a.List? && b.List? && Keyable(a.items) && Keyable(b.items) && StableIds(a, b)
    ensures s == Setting(reverse, ord, path, a, b, Source(reverse, a, b).items) && s.Valid()
  {
    hide IdentityKey;
    s := Setting(reverse, ord, path, a, b, Source(reverse, a, b).items);
    forall i | 0 <= i < |s.c| ensures s.Ready(s.c[i]) {
      var id := IdAt(s.c, i);
      LocateUnique(s.c, i);
      if s.Both(id) {
        MatchedAgree(a, b, id);
      } else {
        KeyedElementsAreCompounds(s.c, i);
      }
    }
  }

  lemma KeyedElementsAreCompounds(l: seq<Nbt>, i: nat)
    requires Keyable(l) && i < |l|
    ensures l[i].Compound?
  {}

  /** Matched elements agree on every field that decides their identity. */
  lemma MatchedAgree(a: Nbt, b: Nbt, id: string)
    requires a.List? && b.List? && Keyable(a.items) && Keyable(b.items) && StableIds(a, b)
    requires HasId(a.items, id) && HasId(b.items, id)
    ensures var x, y := ById(a.items, id), ById(b.items, id);
            && x.Compound? && y.Compound? && StableIds(x, y)
            && RuleOf(x) == RuleOf(y) && AgreeOn(x.m, y.m, IdentityFields(x))
  {
    hide IdentityKey;
    var i := Locate(a.items, id);
    assert IdAt(a.items, i) == id;
    IdentityInjective(ById(a.items, id), ById(b.items, id));
  }

  /** From outside, what a replay yields cannot be told from the target: same tag,
      and the same value unless it is a list or a compound. */
  lemma RunFace(reverse: bool, ord: Order, path: string, a: Nbt, b: Nbt)
    requires StableIds(a, b)
    ensures SameFace(Some(Run(reverse, Source(reverse, a, b), Walk(ord, path, a, b)).tree), Some(Target(reverse, a, b)))
  {
    hide IdentityKey;
    var source := Source(reverse, a, b);
    if TagId(a) != TagId(b) {
      RunOne(reverse, source, Op([], Some(a), Some(b)));
    } else {
      match a {
        case Compound(_) =>
          forall k ensures KeyReady(reverse, a.m, b.m, source.m, k) {}
          CompoundNode(reverse, ord, path, a, b, source.m);
        case List(la) =>
          if Keyable(la) && Keyable(b.items) {
            var s := SourceSetting(reverse, ord, path, a, b);
            KeyedNode(s);
          } else {
            AlignedKeepsList(reverse, ord, path, a, b, source.items);
          }
        case _ =>
          if a != b { RunOne(reverse, source, Op([], Some(a), Some(b))); }
      }
    }
  }

  lemma RunIdentity(reverse: bool, ord: Order, path: string, a: Nbt, b: Nbt)
    requires StableIds(a, b)
    ensures IdentityKey(Run(reverse, Source(reverse, a, b), Walk(ord, path, a, b)).tree) ==
          IdentityKey(Target(reverse, a, b))
  {
    hide IdentityKey, Run, Walk, SameFaces, StableIds;
    var r, target := Run(reverse, Source(reverse, a, b), Walk(ord, path, a, b)).tree, Target(reverse, a, b);
    RunFace(reverse, ord, path, a, b);
    if a.Compound? && b.Compound? {
      CompoundFaces(reverse, ord, path, a, b);
      FacesGiveIdentity(r, target);
    } else if TagId(a) != TagId(b) {
      WholeRun(reverse, ord, path, a, b);
    } else {
      FacesGiveIdentity(r, target);
    }
  }

  lemma WholeRun(reverse: bool, ord: Order, path: string, a: Nbt, b: Nbt)
    requires TagId(a) != TagId(b)
    ensures Run(reverse, Source(reverse, a, b), Walk(ord, path, a, b)).tree == Target(reverse, a, b)
  {
    hide IdentityKey;
    RunOne(reverse, Source(reverse, a, b), Op([], Some(a), Some(b)));
  }

  /** A replayed compound looks to the identity rules like the target, field by field. */
  lemma CompoundFaces(reverse: bool, ord: Order, path: string, a: Nbt, b: Nbt)
    requires a.Compound? && b.Compound? && StableIds(a, b)
    ensures var r, target := Run(reverse, Source(reverse, a, b), Walk(ord, path, a, b)).tree, Target(reverse, a, b);
            r.Compound? && target.Compound? && SameFaces(r.m, target.m)
  {
    hide IdentityKey, Run;
    var source, target := Source(reverse, a, b), Target(reverse, a, b);
    var r := Run(reverse, source, Walk(ord, path, a, b)).tree;
    forall k ensures KeyReady(reverse, a.m, b.m, source.m, k) {}
    CompoundNode(reverse, ord, path, a, b, source.m);
    forall k | k in FieldsAbove(NoIdentity) ensures SameFace(Lookup(r.m, k), Lookup(target.m, k)) {
      assert Lookup(r.m, k) == KeyResult(reverse, ord, path, a.m, b.m, source.m, k);
      if k in a.m && k in b.m { RunFace(reverse, ord, Extend(path, Key(k)), a.m[k], b.m[k]); }
    }
  }

  // ---- when a replay succeeds ----

  /** Nothing refused, and the result is the target up to list order. */
  ghost predicate Clean(reverse: bool, ord: Order, path: string, a: Nbt, b: Nbt) {
    var r := Run(reverse, Source(reverse, a, b), Walk(ord, path, a, b));
    r.conflicts == 0 && Silent(r.tree, Target(reverse, a, b))
  }

  /** A replay of a walk, forward on the old tree or in reverse on the new one, is
      refused nothing and reaches the other tree (up to the order of elements
      matched by identity) exactly when, at every matched pair of nodes, lists
      matched by identity gain nothing and lists matched by index lose at most
      one element in the direction of travel. */
  lemma {:induction false} ReplayExact(reverse: bool, ord: Order, path: string, a: Nbt, b: Nbt)
    requires StableIds(a, b)
    ensures Clean(reverse, ord, path, a, b) <==> Replayable(Source(reverse, a, b), Target(reverse, a, b))
    decreases a
  {
    hide Clean, Keyable, Silent;
    var source, target := Source(reverse, a, b), Target(reverse, a, b);
    if TagId(a) != TagId(b) {
      WholeExact(reverse, ord, path, a, b);
    } else {
      match a {
        case Compound(_) =>
          forall k | k in a.m && k in b.m
            ensures Clean(reverse, ord, Extend(path, Key(k)), a.m[k], b.m[k]) <==> Replayable(source.m[k], target.m[k])
          {
            ReplayExact(reverse, ord, Extend(path, Key(k)), a.m[k], b.m[k]);
          }
          CompoundExact(reverse, ord, path, a, b);
        case List(la) =>
          if Keyable(la) && Keyable(b.items) {
            forall id | HasId(la, id) && HasId(b.items, id)
              ensures Clean(reverse, ord, Extend(path, Ident(id)), ById(la, id), ById(b.items, id))
                 <==> Replayable(ById(source.items, id), ById(target.items, id))
            {
              MatchedAgree(a, b, id);
              ReplayExact(reverse, ord, Extend(path, Ident(id)), ById(la, id), ById(b.items, id));
            }
            KeyedExact(reverse, ord, path, a, b);
          } else {
            forall i | 0 <= i < Min(|la|, |b.items|)
              ensures Clean(reverse, ord, Extend(path, Index(i)), la[i], b.items[i])
                 <==> Replayable(source.items[i], target.items[i])
            {
              ReplayExact(reverse, ord, Extend(path, Index(i)), la[i], b.items[i]);
            }
            AlignedExact(reverse, ord, path, a, b);
          }
        case _ => WholeExact(reverse, ord, path, a, b);
      }
    }
  }

  /** Nodes of different tags, and values without children, are replaced whole. */
  lemma WholeExact(reverse: bool, ord: Order, path: string, a: Nbt, b: Nbt)
    requires TagId(a) != TagId(b) || (!a.Compound? && !a.List?)
    ensures Clean(reverse, ord, path, a, b) && Replayable(Source(reverse, a, b), Target(reverse, a, b))
  {
    hide IdentityKey, Silent;
    var source, target := Source(reverse, a, b), Target(reverse, a, b);
    SilentReflexive(target);
    RunOne(reverse, source, Op([], Some(a), Some(b)));
  }

  lemma CompoundExact(reverse: bool, ord: Order, path: string, a: Nbt, b: Nbt)
    requires a.Compound? && b.Compound?
    requires var source, target := Source(reverse, a, b), Target(reverse, a, b);
             forall k :: k in a.m && k in b.m ==>
               (Clean(reverse, ord, Extend(path, Key(k)), a.m[k], b.m[k]) <==> Replayable(source.m[k], target.m[k]))
    ensures Clean(reverse, ord, path, a, b) <==> Replayable(Source(reverse, a, b), Target(reverse, a, b))
  {
    hide IdentityKey, Run;
    var source, target := Source(reverse, a, b), Target(reverse, a, b);
    forall k ensures KeyReady(reverse, a.m, b.m, source.m, k) {}
    CompoundNode(reverse, ord, path, a, b, source.m);
    var r := Run(reverse, source, Walk(ord, path, a, b));
    assert r == Run(reverse, Compound(source.m), CompoundOps(ord, path, a, b));
    forall k ensures k in r.tree.m <==> k in target.m {
      assert Lookup(r.tree.m, k) == KeyResult(reverse, ord, path, a.m, b.m, source.m, k);
    }
    forall k | k in target.m
      ensures r.tree.m[k] ==
            (if k in source.m then Sub(reverse, ord, path, Key(k), a.m[k], b.m[k], source.m[k]).tree else target.m[k])
    {
      assert Lookup(r.tree.m, k) == KeyResult(reverse, ord, path, a.m, b.m, source.m, k);
    }
    forall k | k in target.m && k !in source.m ensures Silent(r.tree.m[k], target.m[k]) {
      SilentReflexive(target.m[k]);
    }
    assert r.tree.m.Keys == target.m.Keys;
    if Clean(reverse, ord, path, a, b) {
      forall k | k in a.m && k in b.m ensures Clean(reverse, ord, Extend(path, Key(k)), a.m[k], b.m[k]) {
        assert KeyConflicts(reverse, ord, path, a.m, b.m, source.m, k) == 0;
        assert Silent(r.tree.m[k], target.m[k]);
      }
    }
    if forall k :: k in a.m && k in b.m ==> Clean(reverse, ord, Extend(path, Key(k)), a.m[k], b.m[k]) {
      forall k ensures KeyConflicts(reverse, ord, path, a.m, b.m, source.m, k) == 0 {}
      forall k | k in r.tree.m.Keys ensures Silent(r.tree.m[k], target.m[k]) {
        if k in a.m && k in b.m { assert Clean(reverse, ord, Extend(path, Key(k)), a.m[k], b.m[k]); }
      }
    }
  }

  lemma AlignedExact(reverse: bool, ord: Order, path: string, a: Nbt, b: Nbt)
    requires a.List? && b.List? && !(Keyable(a.items) && Keyable(b.items)) && StableIds(a, b)
    requires var source, target := Source(reverse, a, b), Target(reverse, a, b);
             forall i :: 0 <= i < Min(|a.items|, |b.items|) ==>
               (Clean(reverse, ord, Extend(path, Index(i)), a.items[i], b.items[i]) <==>
                   Replayable(source.items[i], target.items[i]))
    ensures Clean(reverse, ord, path, a, b) <==> Replayable(Source(reverse, a, b), Target(reverse, a, b))
  {
    hide IdentityKey, Run, Keyable;
    var source, target := Source(reverse, a, b).items, Target(reverse, a, b).items;
    var common := Min(|a.items|, |b.items|);
    AlignedNode(reverse, ord, path, a, b, source);
    var r := Run(reverse, List(source), AlignedOps(ord, path, a, b));
    if |source| <= |target| + 1 {
      forall i | 0 <= i < |target| ensures IdentityKey(r.tree.items[i]) == IdentityKey(target[i]) {
        if i < common { RunIdentity(reverse, ord, Extend(path, Index(i)), a.items[i], b.items[i]); }
      }
      SilentPointwise(r.tree.items, target);
      forall i | common <= i < |target| ensures Silent(r.tree.items[i], target[i]) {
        SilentReflexive(target[i]);
      }
    }
  }

  // ---- images of keyed lists ----

  lemma {:induction false} ImageLacks(s: Setting, l: seq<Nbt>, done: set<string>, id: string)
    requires s.Lists() && s.AllReady(l) && !s.Both(id) && id in done
    ensures Lacks(s.Image(l, done), id)
    decreases |l|
  {
    hide IdentityKey, Keyable;
    if l != [] {
      ImageLacks(s, l[1..], done, id);
      LeftKeepsId(s, l[0]);
    }
  }

  lemma {:induction false} ImageUnique(s: Setting, l: seq<Nbt>, done: set<string>)
    requires s.Lists() && s.AllReady(l) && Unique(l)
    ensures Unique(s.Image(l, done))
    decreases |l|
  {
    hide IdentityKey, Locate;
    if l != [] {
      var id := IdOf(l[0]);
      assert Lacks(l[1..], id);
      ImageUnique(s, l[1..], done);
      ImageIds(s, l[1..], done, id);
      LeftKeepsId(s, l[0]);
      hide Keyable, Lacks, Unique;
      var piece := s.Piece(l[0], done);
      if piece == [] {
        assert s.Image(l, done) == s.Image(l[1..], done);
      } else {
        UniqueCons(piece[0], s.Image(l[1..], done), id);
        assert piece == [piece[0]];
      }
    }
  }

  lemma UniqueCons(e: Nbt, l: seq<Nbt>, id: string)
    requires IdentityKey(e) == Some(id) && Lacks(l, id) && Unique(l)
    ensures Unique([e] + l)
  {
    hide IdentityKey;
  }

  /** The finished image holds, under each matched identity, the edited element. */
  lemma ImageById(s: Setting, all: set<string>, id: string)
    requires s.Valid() && s.Both(id) && id in all
    ensures HasId(s.Image(s.c, all), id)
    ensures s.Ready(ById(s.c, id)) && IdOf(ById(s.c, id)) == id
    ensures ById(s.Image(s.c, all), id) == s.Child(id, ById(s.c, id)).tree
  {
    hide IdentityKey, Keyable;
    var e := ById(s.c, id);
    var x, y := ImageAround(s, all - {id}, id);
    assert all - {id} + {id} == all;
    var e' := s.Child(id, e).tree;
    LeftKeepsId(s, e);
    assert s.Left(e) == [e'] && e' in s.Left(e);
    LocateBetween(x, e', y, id);
  }

  /** Silence of identity-matched lists, said by identity instead of by index. */
  lemma KeyedSilence(x: seq<Nbt>, y: seq<Nbt>)
    requires Unique(x) && Keyable(y)
    ensures Silent(List(x), List(y)) <==>
            && (forall id :: HasId(x, id) <==> HasId(y, id))
            && (forall id :: HasId(x, id) && HasId(y, id) ==> Silent(ById(x, id), ById(y, id)))
  {
    hide IdentityKey, Locate;
    if x == [] {
      hide Keyable;
      KeyableHasFirst(y);
      assert !HasId(x, IdAt(y, 0));
      assert !Keyable(x) by { NotKeyable(x); }
    } else {
      hide Keyable;
      if Silent(List(x), List(y)) {
        forall id ensures (HasId(x, id) <==> HasId(y, id)) && (HasId(x, id) ==> Silent(ById(x, id), ById(y, id))) {
          SilentById(x, y, id);
        }
      }
      if && (forall id :: HasId(x, id) <==> HasId(y, id))
         && (forall id :: HasId(x, id) && HasId(y, id) ==> Silent(ById(x, id), ById(y, id))) {
        forall id ensures id in Ids(x) <==> id in Ids(y) {
          IdsAreLocated(x, id);
          IdsAreLocated(y, id);
        }
        assert Ids(x) == Ids(y);
        forall i | 0 <= i < |x| ensures HasId(y, IdAt(x, i)) && Silent(x[i], ById(y, IdAt(x, i))) {
          LocateUnique(x, i);
        }
      }
    }
  }

  lemma KeyableHasFirst(y: seq<Nbt>)
    requires Keyable(y)
    ensures |y| > 0 && HasId(y, IdAt(y, 0))
  {
    LocateUnique(y, 0);
  }

  lemma NotKeyable(x: seq<Nbt>)
    requires x == []
    ensures !Keyable(x)
  {}

  /** What a replay makes of identity-matched lists, said by identity. */
  lemma KeyedReplay(reverse: bool, ord: Order, path: string, a: Nbt, b: Nbt)
    requires a.List? && b.List? && Keyable(a.items) && Keyable(b.items) && StableIds(a, b)
    ensures Clean(reverse, ord, path, a, b) <==>
            && (forall id :: HasId(Target(reverse, a, b).items, id) ==> HasId(Source(reverse, a, b).items, id))
            && (forall id :: HasId(a.items, id) && HasId(b.items, id) ==>
                  Clean(reverse, ord, Extend(path, Ident(id)), ById(a.items, id), ById(b.items, id)))
  {
    hide IdentityKey, Keyable, Run, Locate;
    var source, target := Source(reverse, a, b).items, Target(reverse, a, b).items;
    var s := SourceSetting(reverse, ord, path, a, b);
    var all := Ids(a.items) + Ids(b.items);
    KeyedNode(s);
    assert {} + all == all;
    var image := s.Image(s.c, all);
    var r := Run(reverse, List(source), KeyedOps(ord, path, a, b));
    assert r.tree == List(image);
    ImageUnique(s, s.c, all);
    KeyedSilence(image, target);
    forall id ensures HasId(image, id) <==> s.Both(id) {
      IdsAreLocated(a.items, id);
      IdsAreLocated(b.items, id);
      if s.Both(id) {
        ImageById(s, all, id);
      } else if id in all {
        ImageLacks(s, s.c, all, id);
        LocateNowhere(image, id);
      } else {
        AbsentEverywhere(s, all, id);
      }
    }
    forall id | s.Both(id) ensures ById(image, id) == s.Child(id, ById(s.c, id)).tree {
      IdsAreLocated(a.items, id);
      ImageById(s, all, id);
    }
    AcceptedIsChildren(s, all);
  }

  lemma AbsentEverywhere(s: Setting, all: set<string>, id: string)
    requires s.Valid() && !HasId(s.a.items, id) && !HasId(s.b.items, id)
    ensures !HasId(s.Image(s.c, all), id)
  {
    hide IdentityKey, Keyable;
    forall i | 0 <= i < |s.c| ensures IdentityKey(s.c[i]) != Some(id) {
      assert s.Ready(s.c[i]);
    }
    ImageIds(s, s.c, all, id);
    LocateNowhere(s.Image(s.c, all), id);
  }

  /** On a list that starts as the source, only edits of children are refused. */
  lemma AcceptedIsChildren(s: Setting, all: set<string>)
    requires s.Valid() && all == Ids(s.a.items) + Ids(s.b.items)
    requires s.c == Source(s.reverse, s.a, s.b).items
    ensures Accepted(s, all) <==> forall id :: s.Both(id) ==> s.Child(id, ById(s.c, id)).conflicts == 0
  {
    hide IdentityKey, Keyable, Locate;
    forall id ensures id in all <==> HasId(s.a.items, id) || HasId(s.b.items, id) {
      IdsAreLocated(s.a.items, id);
      IdsAreLocated(s.b.items, id);
    }
  }

  lemma KeyedExact(reverse: bool, ord: Order, path: string, a: Nbt, b: Nbt)
    requires a.List? && b.List? && Keyable(a.items) && Keyable(b.items) && StableIds(a, b)
    requires var source, target := Source(reverse, a, b), Target(reverse, a, b);
             forall id :: HasId(a.items, id) && HasId(b.items, id) ==>
               (Clean(reverse, ord, Extend(path, Ident(id)), ById(a.items, id), ById(b.items, id))
                <==> Replayable(ById(source.items, id), ById(target.items, id)))
    ensures Clean(reverse, ord, path, a, b) <==> Replayable(Source(reverse, a, b), Target(reverse, a, b))
  {
    hide IdentityKey, Keyable, Run, Locate, Clean;
    var source, target := Source(reverse, a, b).items, Target(reverse, a, b).items;
    KeyedReplay(reverse, ord, path, a, b);
    forall id ensures (id in Ids(source) <==> HasId(source, id)) && (id in Ids(target) <==> HasId(target, id)) {
      IdsAreLocated(source, id);
      IdsAreLocated(target, id);
    }
    forall i | 0 <= i < |source| ensures HasId(source, IdAt(source, i)) && ById(source, IdAt(source, i)) == source[i] {
      LocateUnique(source, i);
    }
    forall id | HasId(source, id) ensures IdAt(source, Locate(source, id)) == id {}
  }
}
