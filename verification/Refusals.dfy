// Which replays are refused something, and which pass without a refusal yet miss
// their target: an addition to an identity-matched list is neither carried out
// nor refused.
module Refusals {
  import opened Collections
  import opened NbtValue
  import opened NbtPath
  import opened Comparer
  import opened Edits
  import opened KeyedLists
  import opened Nodes
  import opened Replay
  import opened Silence

  /** At every matched pair, lists matched by index lose at most one element. */
  ghost predicate Unrefused(source: Nbt, target: Nbt)
    decreases source
  {
    TagId(source) == TagId(target) ==>
      match source
      case Compound(m) => forall k :: k in m && k in target.m ==> Unrefused(m[k], target.m[k])
      case List(l) =>
        if Keyable(l) && Keyable(target.items) then
          forall i :: 0 <= i < |l| && HasId(target.items, IdAt(l, i)) ==>
              Unrefused(l[i], ById(target.items, IdAt(l, i)))
        else
          && |l| <= |target.items| + 1
          && forall i :: 0 <= i < Min(|l|, |target.items|) ==> Unrefused(l[i], target.items[i])
      case _ => true
  }

  /** At every matched pair, lists matched by identity gain nothing. */
  ghost predicate NothingGained(source: Nbt, target: Nbt)
    decreases source
  {
    TagId(source) == TagId(target) ==>
      match source
      case Compound(m) => forall k :: k in m && k in target.m ==> NothingGained(m[k], target.m[k])
      case List(l) =>
        if Keyable(l) && Keyable(target.items) then
          && Ids(target.items) <= Ids(l)
          && forall i :: 0 <= i < |l| && HasId(target.items, IdAt(l, i)) ==>
              NothingGained(l[i], ById(target.items, IdAt(l, i)))
        else
          forall i :: 0 <= i < Min(|l|, |target.items|) ==> NothingGained(l[i], target.items[i])
      case _ => true
  }

  /** The two conditions are the two halves of being replayable. */
  lemma {:induction false} ReplayableSplits(source: Nbt, target: Nbt)
    ensures Replayable(source, target) <==> Unrefused(source, target) && NothingGained(source, target)
    decreases source
  {
    hide IdentityKey, Keyable, Locate;
    if TagId(source) == TagId(target) {
      match source {
        case Compound(m) =>
          forall k | k in m && k in target.m { ReplayableSplits(m[k], target.m[k]); }
        case List(l) =>
          if Keyable(l) && Keyable(target.items) {
            forall i | 0 <= i < |l| &&
                HasId(target.items, IdAt(l, i)) { ReplayableSplits(l[i], ById(target.items, IdAt(l, i))); }
          } else {
            forall i | 0 <= i < Min(|l|, |target.items|) { ReplayableSplits(l[i], target.items[i]); }
          }
        case _ =>
      }
    }
  }

  function Refused(reverse: bool, ord: Order, path: string, a: Nbt, b: Nbt): nat {
    Run(reverse, Source(reverse, a, b), Walk(ord, path, a, b)).conflicts
  }

  /** A replay is refused nothing exactly when at every matched pair lists matched
      by index lose at most one element, whatever identity-matched lists gain. */
  lemma {:induction false} RefusedExact(reverse: bool, ord: Order, path: string, a: Nbt, b: Nbt)
    requires StableIds(a, b)
    ensures Refused(reverse, ord, path, a, b) == 0 <==> Unrefused(Source(reverse, a, b), Target(reverse, a, b))
    decreases a
  {
    hide IdentityKey, Keyable, Locate, Walk, Run;
    var source, target := Source(reverse, a, b), Target(reverse, a, b);
    if TagId(a) == TagId(b) && a.Compound? {
      forall k | k in a.m && k in b.m
        ensures Refused(reverse, ord, Extend(path, Key(k)), a.m[k], b.m[k]) == 0 <==>
                  Unrefused(source.m[k], target.m[k])
      {
        RefusedExact(reverse, ord, Extend(path, Key(k)), a.m[k], b.m[k]);
      }
      CompoundRefused(reverse, ord, path, a, b);
    } else if TagId(a) == TagId(b) && a.List? {
      if Keyable(a.items) && Keyable(b.items) {
        forall id | HasId(a.items, id) && HasId(b.items, id)
          ensures Refused(reverse, ord, Extend(path, Ident(id)), ById(a.items, id), ById(b.items, id)) == 0
             <==> Unrefused(ById(source.items, id), ById(target.items, id))
        {
          MatchedAgree(a, b, id);
          RefusedExact(reverse, ord, Extend(path, Ident(id)), ById(a.items, id), ById(b.items, id));
        }
        KeyedRefused(reverse, ord, path, a, b);
      } else {
        forall i | 0 <= i < Min(|a.items|, |b.items|)
          ensures Refused(reverse, ord, Extend(path, Index(i)), a.items[i], b.items[i]) == 0
             <==> Unrefused(source.items[i], target.items[i])
        {
          RefusedExact(reverse, ord, Extend(path, Index(i)), a.items[i], b.items[i]);
        }
        AlignedRefused(reverse, ord, path, a, b);
      }
    } else {
      WholeAccepted(reverse, ord, path, a, b);
    }
  }

  lemma WholeAccepted(reverse: bool, ord: Order, path: string, a: Nbt, b: Nbt)
    requires TagId(a) != TagId(b) || (!a.Compound? && !a.List?)
    ensures Refused(reverse, ord, path, a, b) == 0
  {
    hide IdentityKey, Keyable, Locate;
    RunOne(reverse, Source(reverse, a, b), Op([], Some(a), Some(b)));
  }

  lemma CompoundRefused(reverse: bool, ord: Order, path: string, a: Nbt, b: Nbt)
    requires a.Compound? && b.Compound?
    requires var source, target := Source(reverse, a, b), Target(reverse, a, b);
             forall k :: k in a.m && k in b.m ==>
               (Refused(reverse, ord, Extend(path, Key(k)), a.m[k], b.m[k]) == 0 <==>
                   Unrefused(source.m[k], target.m[k]))
    ensures Refused(reverse, ord, path, a, b) == 0 <==> Unrefused(Source(reverse, a, b), Target(reverse, a, b))
  {
    hide IdentityKey, Run;
    var source := Source(reverse, a, b);
    forall k ensures KeyReady(reverse, a.m, b.m, source.m, k) {}
    CompoundNode(reverse, ord, path, a, b, source.m);
    assert Walk(ord, path, a, b) == CompoundOps(ord, path, a, b);
    forall k ensures KeyConflicts(reverse, ord, path, a.m, b.m, source.m, k) ==
                     if k in a.m && k in b.m then Refused(reverse, ord, Extend(path, Key(k)), a.m[k], b.m[k]) else 0 {}
    if forall k :: k in a.m && k in b.m ==> Refused(reverse, ord, Extend(path, Key(k)), a.m[k], b.m[k]) == 0 {
      assert forall k :: KeyConflicts(reverse, ord, path, a.m, b.m, source.m, k) == 0;
    } else {
      var k :| k in a.m && k in b.m && Refused(reverse, ord, Extend(path, Key(k)), a.m[k], b.m[k]) != 0;
      assert KeyConflicts(reverse, ord, path, a.m, b.m, source.m, k) != 0;
    }
  }

  lemma AlignedRefused(reverse: bool, ord: Order, path: string, a: Nbt, b: Nbt)
    requires a.List? && b.List? && !(Keyable(a.items) && Keyable(b.items))
    requires var source, target := Source(reverse, a, b), Target(reverse, a, b);
             forall i :: 0 <= i < Min(|a.items|, |b.items|) ==>
               (Refused(reverse, ord, Extend(path, Index(i)), a.items[i], b.items[i]) == 0 <==>
                   Unrefused(source.items[i], target.items[i]))
    ensures Refused(reverse, ord, path, a, b) == 0 <==> Unrefused(Source(reverse, a, b), Target(reverse, a, b))
  {
    hide IdentityKey, Run, Keyable;
    var source := Source(reverse, a, b).items;
    AlignedNode(reverse, ord, path, a, b, source);
    assert Walk(ord, path, a, b) == AlignedOps(ord, path, a, b);
  }

  lemma KeyedRefused(reverse: bool, ord: Order, path: string, a: Nbt, b: Nbt)
    requires a.List? && b.List? && Keyable(a.items) && Keyable(b.items) && StableIds(a, b)
    requires var source, target := Source(reverse, a, b), Target(reverse, a, b);
             forall id :: HasId(a.items, id) && HasId(b.items, id) ==>
               (Refused(reverse, ord, Extend(path, Ident(id)), ById(a.items, id), ById(b.items, id)) == 0
                <==> Unrefused(ById(source.items, id), ById(target.items, id)))
    ensures Refused(reverse, ord, path, a, b) == 0 <==> Unrefused(Source(reverse, a, b), Target(reverse, a, b))
  {
    hide IdentityKey, Keyable, Run, Locate;
    var source, target := Source(reverse, a, b).items, Target(reverse, a, b).items;
    var s := SourceSetting(reverse, ord, path, a, b);
    KeyedNode(s);
    AcceptedIsChildren(s, Ids(a.items) + Ids(b.items));
    assert Walk(ord, path, a, b) == KeyedOps(ord, path, a, b);
    forall i | 0 <= i < |source| ensures HasId(source, IdAt(source, i)) && ById(source, IdAt(source, i)) == source[i] {
      LocateUnique(source, i);
    }
    forall id | HasId(source, id) ensures IdAt(source, Locate(source, id)) == id {}
  }

  /** A replay that is refused nothing misses its target exactly when some
      identity-matched list gains: the addition is dropped without a conflict. */
  lemma SilentLoss(reverse: bool, ord: Order, path: string, a: Nbt, b: Nbt)
    requires StableIds(a, b) && Refused(reverse, ord, path, a, b) == 0
    ensures Silent(Run(reverse, Source(reverse, a, b), Walk(ord, path, a, b)).tree, Target(reverse, a, b))
       <==> NothingGained(Source(reverse, a, b), Target(reverse, a, b))
  {
    hide Run, Walk, Silent, Replayable, Unrefused, NothingGained;
    RefusedExact(reverse, ord, path, a, b);
    ReplayExact(reverse, ord, path, a, b);
    ReplayableSplits(Source(reverse, a, b), Target(reverse, a, b));
  }

  // ---- the smallest inputs of either kind ----

  function Named(id: string): Nbt {
    Compound(map["id" := String(id)])
  }

  lemma NamedIdentity(id: string, other: string)
    ensures IdentityKey(Named(id)) == Some("id:" + id)
    ensures id != other ==> IdentityKey(Named(id)) != IdentityKey(Named(other))
  {
    assert ("id:" + id)[3..] == id && ("id:" + other)[3..] == other;
  }

  /** A second element under a new identity: no conflict, and it is not there. */
  lemma DroppedAddition(ord: Order, path: string, x: string, y: string)
    requires x != y
    ensures var a, b := List([Named(x)]), List([Named(x), Named(y)]);
            && Refused(false, ord, path, a, b) == 0
            && !Silent(Run(false, a, Walk(ord, path, a, b)).tree, b)
  {
    var a, b := List([Named(x)]), List([Named(x), Named(y)]);
    NamedIdentity(x, y);
    NamedIdentity(y, x);
    hide IdentityKey;
    assert Keyable(a.items) && Keyable(b.items);
    assert IdAt(b.items, 1) in Ids(b.items) && IdAt(b.items, 1) !in Ids(a.items);
    SameElement(x, y);
    RefusedExact(false, ord, path, a, b);
    SilentLoss(false, ord, path, a, b);
  }

  lemma SameElement(x: string, y: string)
    requires x != y
    ensures StableIds(List([Named(x)]), List([Named(x), Named(y)]))
    ensures Unrefused(List([Named(x)]), List([Named(x), Named(y)]))
  {
    var la, lb := [Named(x)], [Named(x), Named(y)];
    NamedIdentity(x, y);
    NamedIdentity(y, x);
    hide IdentityKey;
    assert Keyable(la) && Keyable(lb);
    LocateUnique(lb, 0);
    assert ById(lb, IdAt(la, 0)) == Named(x);
    assert StableIds(Named(x), Named(x)) && Unrefused(Named(x), Named(x));
  }

  /** Two elements cut by index: the second cut is refused. */
  lemma DoubleCut(ord: Order, path: string, x: int, y: int)
    ensures Refused(false, ord, path, List([Int(x), Int(y)]), List([])) != 0
  {
    RefusedExact(false, ord, path, List([Int(x), Int(y)]), List([]));
  }
}
