// Applying a patch and then applying it in reverse.
module Undo {
  import opened Collections
  import opened NbtValue
  import opened NbtPath
  import opened Comparer
  import opened Edits
  import opened Nodes
  import opened KeyedLists
  import opened Silence
  import opened Identity
  import opened Replay

  /** The edits of the walk from `a` to `b`, run on `a` and then in reverse on
      what that gave: nothing is refused and `a` is back, list order included. */
  ghost predicate Restores(ord: Order, path: string, a: Nbt, b: Nbt) {
    var ops := Walk(ord, path, a, b);
    var there := Run(false, a, ops);
    var back := Run(true, there.tree, ops);
    there.conflicts == 0 && back.conflicts == 0 && back.tree == a
  }

  /** Both directions of travel are within what a replay can carry out. */
  ghost predicate TwoSided(a: Nbt, b: Nbt) {
    Replayable(a, b) && Replayable(b, a)
  }

  lemma {:induction false} UndoExact(ord: Order, path: string, a: Nbt, b: Nbt)
    requires StableIds(a, b)
    ensures Restores(ord, path, a, b) <==> TwoSided(a, b)
    decreases a
  {
    hide Restores, Keyable, Silent;
    if TagId(a) != TagId(b) {
      WholeUndo(ord, path, a, b);
    } else {
      match a {
        case Compound(_) =>
          forall k | k in a.m && k in b.m
            ensures Restores(ord, Extend(path, Key(k)), a.m[k], b.m[k]) <==> TwoSided(a.m[k], b.m[k])
          {
            UndoExact(ord, Extend(path, Key(k)), a.m[k], b.m[k]);
          }
          CompoundUndo(ord, path, a, b);
        case List(la) =>
          if Keyable(la) && Keyable(b.items) {
            forall id | HasId(la, id) && HasId(b.items, id)
              ensures Restores(ord, Extend(path, Ident(id)), ById(la, id), ById(b.items, id))
                 <==> TwoSided(ById(la, id), ById(b.items, id))
            {
              MatchedAgree(a, b, id);
              UndoExact(ord, Extend(path, Ident(id)), ById(la, id), ById(b.items, id));
            }
            KeyedUndo(ord, path, a, b);
            KeyedReplayable(la, b.items);
            KeyedReplayable(b.items, la);
          } else {
            forall i | 0 <= i < Min(|la|, |b.items|)
              ensures Restores(ord, Extend(path, Index(i)), la[i], b.items[i]) <==> TwoSided(la[i], b.items[i])
            {
              UndoExact(ord, Extend(path, Index(i)), la[i], b.items[i]);
            }
            AlignedUndo(ord, path, a, b);
          }
        case _ => WholeUndo(ord, path, a, b);
      }
    }
  }

  /** What is replaced whole is put back whole. */
  lemma WholeUndo(ord: Order, path: string, a: Nbt, b: Nbt)
    requires TagId(a) != TagId(b) || (!a.Compound? && !a.List?)
    ensures Restores(ord, path, a, b) && TwoSided(a, b)
  {
    hide IdentityKey, Silent;
    RunOne(false, a, Op([], Some(a), Some(b)));
    RunOne(true, b, Op([], Some(a), Some(b)));
  }

  lemma CompoundUndo(ord: Order, path: string, a: Nbt, b: Nbt)
    requires a.Compound? && b.Compound?
    requires forall k :: k in a.m && k in b.m ==>
               (Restores(ord, Extend(path, Key(k)), a.m[k], b.m[k]) <==> TwoSided(a.m[k], b.m[k]))
    ensures Restores(ord, path, a, b) <==> TwoSided(a, b)
  {
    hide IdentityKey, Run;
    forall k ensures KeyReady(false, a.m, b.m, a.m, k) {}
    CompoundNode(false, ord, path, a, b, a.m);
    var there := Run(false, a, Walk(ord, path, a, b));
    assert there == Run(false, Compound(a.m), CompoundOps(ord, path, a, b));
    var m := there.tree.m;
    forall k ensures KeyReady(true, a.m, b.m, m, k) {
      assert Lookup(m, k) == KeyResult(false, ord, path, a.m, b.m, a.m, k);
    }
    CompoundNode(true, ord, path, a, b, m);
    var back := Run(true, there.tree, Walk(ord, path, a, b));
    assert back == Run(true, Compound(m), CompoundOps(ord, path, a, b));
    forall k | k in a.m && k in b.m
      ensures Restores(ord, Extend(path, Key(k)), a.m[k], b.m[k]) <==>
              && KeyConflicts(false, ord, path, a.m, b.m, a.m, k) == 0
              && KeyConflicts(true, ord, path, a.m, b.m, m, k) == 0
              && KeyResult(true, ord, path, a.m, b.m, m, k) == Some(a.m[k])
    {
      assert Lookup(m, k) == KeyResult(false, ord, path, a.m, b.m, a.m, k);
    }
    SameMap(back.tree.m, a.m);
    forall k ensures Lookup(back.tree.m, k) == KeyResult(true, ord, path, a.m, b.m, m, k) {}
  }

  lemma SameMap(x: map<string, Nbt>, y: map<string, Nbt>)
    ensures x == y <==> forall k :: Lookup(x, k) == Lookup(y, k)
  {
    if forall k :: Lookup(x, k) == Lookup(y, k) {
      forall k ensures (k in x <==> k in y) && (k in x ==> x[k] == y[k]) {
        assert Lookup(x, k) == Lookup(y, k);
      }
    }
  }

  lemma AlignedUndo(ord: Order, path: string, a: Nbt, b: Nbt)
    requires a.List? && b.List? && !(Keyable(a.items) && Keyable(b.items))
    requires forall i :: 0 <= i < Min(|a.items|, |b.items|) ==>
               (Restores(ord, Extend(path, Index(i)), a.items[i], b.items[i]) <==> TwoSided(a.items[i], b.items[i]))
    ensures Restores(ord, path, a, b) <==> TwoSided(a, b)
  {
    hide IdentityKey, Run, Keyable;
    var la, lb := a.items, b.items;
    var common := Min(|la|, |lb|);
    var ops := AlignedOps(ord, path, a, b);
    AlignedNode(false, ord, path, a, b, la);
    var there := Run(false, List(la), ops);
    if |la| <= |lb| + 1 {
      var t := there.tree.items;
      assert t[common..] == lb[common..];
      AlignedNode(true, ord, path, a, b, t);
      var back := Run(true, List(t), ops);
      if |lb| <= |la| + 1 {
        assert back.tree == a <==> forall i :: 0 <= i < |la| ==> back.tree.items[i] == la[i];
      }
    }
  }

  // ---- lists matched by identity ----

  /** What can be replayed between identity-matched lists, said by identity. */
  lemma KeyedReplayable(x: seq<Nbt>, y: seq<Nbt>)
    requires Keyable(x) && Keyable(y)
    ensures Replayable(List(x), List(y)) <==>
            && (forall id :: HasId(y, id) ==> HasId(x, id))
            && (forall id :: HasId(x, id) && HasId(y, id) ==> Replayable(ById(x, id), ById(y, id)))
  {
    hide IdentityKey, Keyable, Locate;
    forall id ensures (id in Ids(x) <==> HasId(x, id)) && (id in Ids(y) <==> HasId(y, id)) {
      IdsAreLocated(x, id);
      IdsAreLocated(y, id);
    }
    forall i | 0 <= i < |x| ensures HasId(x, IdAt(x, i)) && ById(x, IdAt(x, i)) == x[i] {
      LocateUnique(x, i);
    }
    forall id | HasId(x, id) ensures IdAt(x, Locate(x, id)) == id {}
  }

  /** When every element is matched, the image is element-wise. */
  lemma {:induction false} ImageWhole(s: Setting, l: seq<Nbt>, all: set<string>)
    requires s.Lists() && s.AllReady(l)
    requires forall i :: 0 <= i < |l| ==> s.Both(IdOf(l[i])) && IdOf(l[i]) in all
    ensures |s.Image(l, all)| == |l|
    ensures forall i :: 0 <= i < |l| ==> s.Image(l, all)[i] == s.Child(IdOf(l[i]), l[i]).tree
    decreases |l|
  {
    hide IdentityKey, Keyable, Locate;
    if l != [] {
      ImageWhole(s, l[1..], all);
    }
  }

  /** An image is never longer, and shorter once an element is unmatched. */
  lemma {:induction false} ImageShort(s: Setting, l: seq<Nbt>, all: set<string>)
    requires s.Lists() && s.AllReady(l)
    requires forall i :: 0 <= i < |l| ==> IdOf(l[i]) in all
    ensures |s.Image(l, all)| <= |l|
    ensures (exists i :: 0 <= i < |l| && !s.Both(IdOf(l[i]))) ==> |s.Image(l, all)| < |l|
    decreases |l|
  {
    hide IdentityKey, Keyable, Locate;
    if l != [] {
      ImageShort(s, l[1..], all);
      if i :| 0 <= i < |l| && !s.Both(IdOf(l[i])) {
        if i > 0 { assert l[1..][i - 1] == l[i]; }
      }
    }
  }

  /** The way back starts on the image the way there left. */
  lemma BackSetting(s: Setting, all: set<string>) returns (back: Setting)
    requires s.Valid() && !s.reverse && s.c == s.a.items && StableIds(s.a, s.b)
    requires all == Ids(s.a.items) + Ids(s.b.items)
    ensures back == Setting(true, s.ord, s.path, s.a, s.b, s.Image(s.c, all)) && back.Valid()
    ensures forall id :: s.Both(id) ==> ById(back.c, id) == s.Child(id, ById(s.c, id)).tree
    ensures forall id :: HasId(back.c, id) <==> s.Both(id)
  {
    hide IdentityKey, Keyable, Locate;
    var t := s.Image(s.c, all);
    back := Setting(true, s.ord, s.path, s.a, s.b, t);
    ImageUnique(s, s.c, all);
    forall id ensures HasId(t, id) <==> s.Both(id) {
      IdsAreLocated(s.a.items, id);
      IdsAreLocated(s.b.items, id);
      if s.Both(id) {
        ImageById(s, all, id);
      } else if id in all {
        ImageLacks(s, s.c, all, id);
        LocateNowhere(t, id);
      } else {
        AbsentEverywhere(s, all, id);
      }
    }
    forall id | s.Both(id) ensures ById(t, id) == s.Child(id, ById(s.c, id)).tree {
      IdsAreLocated(s.a.items, id);
      ImageById(s, all, id);
    }
    forall i | 0 <= i < |t| ensures back.Ready(t[i]) {
      var id := IdAt(t, i);
      LocateUnique(t, i);
      assert s.Both(id);
      MatchedAgree(s.a, s.b, id);
      SameRule(t[i], ById(s.a.items, id));
      KeyedElementsAreCompounds(t, i);
    }
  }

  ghost predicate ChildRestores(s: Setting, back: Setting, id: string)
    requires s.Valid() && back.Valid() && back.a == s.a && back.b == s.b && s.Both(id)
  {
    && s.Child(id, ById(s.c, id)).conflicts == 0
    && back.Child(id, ById(back.c, id)).conflicts == 0
    && back.Child(id, ById(back.c, id)).tree == ById(s.c, id)
  }

  /** `back` is the setting of the way back from what `s` leaves. */
  ghost predicate ThereAndBack(s: Setting, back: Setting, all: set<string>) {
    && s.Valid() && !s.reverse && s.c == s.a.items && all == Ids(s.a.items) + Ids(s.b.items)
    && back == Setting(true, s.ord, s.path, s.a, s.b, s.Image(s.c, all)) && back.Valid()
    && (forall id :: s.Both(id) ==> ById(back.c, id) == s.Child(id, ById(s.c, id)).tree)
    && (forall id :: HasId(back.c, id) <==> s.Both(id))
  }

  lemma StartIds(s: Setting, back: Setting, all: set<string>)
    requires ThereAndBack(s, back, all)
    ensures forall i :: 0 <= i < |s.c| ==>
              IdOf(s.c[i]) in all && ById(s.c, IdAt(s.c, i)) == s.c[i] && HasId(s.a.items, IdOf(s.c[i]))
  {
    hide IdentityKey, Keyable, Locate;
    forall i | 0 <= i < |s.c|
      ensures IdOf(s.c[i]) in all && HasId(s.c, IdAt(s.c, i)) && ById(s.c, IdAt(s.c, i)) == s.c[i]
    {
      LocateUnique(s.c, i);
      IdsAreLocated(s.c, IdAt(s.c, i));
    }
  }

  lemma BackIds(s: Setting, back: Setting, all: set<string>)
    requires ThereAndBack(s, back, all)
    ensures forall i :: 0 <= i < |back.c| ==> IdOf(back.c[i]) in all && back.Both(IdOf(back.c[i]))
  {
    hide IdentityKey, Keyable, Locate;
    forall i | 0 <= i < |back.c| ensures IdOf(back.c[i]) in all && back.Both(IdOf(back.c[i])) {
      LocateUnique(back.c, i);
      IdsAreLocated(s.a.items, IdAt(back.c, i));
    }
  }

  lemma SomeLost(s: Setting, back: Setting, all: set<string>, id: string)
    requires ThereAndBack(s, back, all) && HasId(s.a.items, id) && !HasId(s.b.items, id)
    ensures |back.Image(back.c, all)| < |s.c|
  {
    hide IdentityKey, Keyable;
    StartIds(s, back, all);
    BackIds(s, back, all);
    ImageShort(back, back.c, all);
    ImageShort(s, s.c, all);
    assert !s.Both(IdOf(s.c[Locate(s.c, id)]));
  }

  lemma AllMatched(s: Setting, back: Setting, all: set<string>)
    requires ThereAndBack(s, back, all) && forall id :: HasId(s.a.items, id) ==> HasId(s.b.items, id)
    ensures |back.Image(back.c, all)| == |s.c|
    ensures forall i :: 0 <= i < |s.c| ==>
              back.Image(back.c, all)[i] == back.Child(IdAt(s.c, i), ById(back.c, IdAt(s.c, i))).tree
  {
    hide IdentityKey, Keyable, Locate;
    StartIds(s, back, all);
    BackIds(s, back, all);
    ImageWhole(s, s.c, all);
    ImageWhole(back, back.c, all);
    forall i | 0 <= i < |s.c|
      ensures back.Image(back.c, all)[i] == back.Child(IdAt(s.c, i), ById(back.c, IdAt(s.c, i))).tree
    {
      LeftKeepsId(s, s.c[i]);
      assert s.Child(IdOf(s.c[i]), s.c[i]).tree in s.Left(s.c[i]);
    }
  }

  /** The list is back in its old order exactly when every element is matched and back. */
  lemma ListRestored(s: Setting, back: Setting, all: set<string>)
    requires ThereAndBack(s, back, all)
    ensures back.Image(back.c, all) == s.c <==>
            && (forall id :: HasId(s.a.items, id) ==> HasId(s.b.items, id))
            && (forall id :: s.Both(id) ==> back.Child(id, ById(back.c, id)).tree == ById(s.c, id))
  {
    hide IdentityKey, Keyable, Locate;
    if id :| HasId(s.a.items, id) && !HasId(s.b.items, id) {
      SomeLost(s, back, all, id);
    } else {
      AllMatched(s, back, all);
      StartIds(s, back, all);
      if back.Image(back.c, all) == s.c {
        forall id | s.Both(id) ensures back.Child(id, ById(back.c, id)).tree == ById(s.c, id) {
          assert IdAt(s.c, Locate(s.c, id)) == id;
        }
      }
    }
  }

  /** What the way back is refused: an element gained on the way, or an edit of a child. */
  lemma BackAccepted(s: Setting, back: Setting, all: set<string>)
    requires ThereAndBack(s, back, all)
    ensures Accepted(back, all) <==>
            && (forall id :: HasId(s.b.items, id) ==> HasId(s.a.items, id))
            && (forall id :: s.Both(id) ==> back.Child(id, ById(back.c, id)).conflicts == 0)
  {
    hide IdentityKey, Keyable, Locate;
    forall id ensures id in all <==> HasId(s.a.items, id) || HasId(s.b.items, id) {
      IdsAreLocated(s.a.items, id);
      IdsAreLocated(s.b.items, id);
    }
    if Accepted(back, all) {
      forall id | HasId(s.b.items, id) ensures HasId(s.a.items, id) { assert back.Refused(id) == 0; }
      forall id | s.Both(id) ensures back.Child(id, ById(back.c, id)).conflicts == 0 { assert back.Refused(id) == 0; }
    }
  }

  /** The two runs, in terms of the settings they are run in. */
  lemma UndoRuns(ord: Order, path: string, a: Nbt, b: Nbt, s: Setting, back: Setting, all: set<string>)
    requires a.List? && b.List? && Keyable(a.items) && Keyable(b.items)
    requires s == Setting(false, ord, path, a, b, a.items) && ThereAndBack(s, back, all)
    ensures Restores(ord, path, a, b) <==> Accepted(s, all) && Accepted(back, all) && back.Image(back.c, all) == s.c
  {
    hide IdentityKey, Keyable, Run, Locate, Accepted, Setting.Image;
    KeyedNode(s);
    KeyedNode(back);
    assert {} + all == all;
  }

  lemma ChildrenRestored(s: Setting, back: Setting, all: set<string>)
    requires ThereAndBack(s, back, all)
    ensures Accepted(s, all) && Accepted(back, all) && back.Image(back.c, all) == s.c <==>
            && (forall id :: HasId(s.a.items, id) <==> HasId(s.b.items, id))
            && (forall id :: s.Both(id) ==> ChildRestores(s, back, id))
  {
    hide IdentityKey, Keyable, Run, Locate, Accepted, Setting.Image, Setting.Child;
    AcceptedIsChildren(s, all);
    ListRestored(s, back, all);
    BackAccepted(s, back, all);
  }

  lemma KeyedUndo(ord: Order, path: string, a: Nbt, b: Nbt)
    requires a.List? && b.List? && Keyable(a.items) && Keyable(b.items) && StableIds(a, b)
    ensures Restores(ord, path, a, b) <==>
            && (forall id :: HasId(a.items, id) <==> HasId(b.items, id))
            && (forall id :: HasId(a.items, id) && HasId(b.items, id) ==>
                  Restores(ord, Extend(path, Ident(id)), ById(a.items, id), ById(b.items, id)))
  {
    hide IdentityKey, Keyable, Run, Locate, Accepted, Ids;
    var all := Ids(a.items) + Ids(b.items);
    var s := SourceSetting(false, ord, path, a, b);
    var back := BackSetting(s, all);
    UndoRuns(ord, path, a, b, s, back, all);
    ChildrenRestored(s, back, all);
    forall id | s.Both(id)
      ensures Restores(ord, Extend(path, Ident(id)), ById(a.items, id), ById(b.items, id)) <==>
                ChildRestores(s, back, id)
    {}
  }
}
