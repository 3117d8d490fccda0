// When the tree walk has nothing to say about two trees.
module Silence {
  import opened Collections
  import opened NbtValue
  import opened NbtPath
  import opened Comparer

  /** The two trees differ at most in the order of elements matched by identity. */
  predicate Silent(a: Nbt, b: Nbt)
    decreases a
  {
    TagId(a) == TagId(b) &&
    match a
    case Compound(ma) => ma.Keys == b.m.Keys && forall k :: k in ma.Keys ==> Silent(ma[k], b.m[k])
    case List(la) =>
      if Keyable(la) && Keyable(b.items) then
        Ids(la) == Ids(b.items)
        && forall i :: 0 <= i < |la| ==> HasId(b.items, IdAt(la, i)) && Silent(la[i], ById(b.items, IdAt(la, i)))
      else |la| == |b.items| && forall i :: 0 <= i < |la| ==> Silent(la[i], b.items[i])
    case _ => a == b
  }

  // ---- silence is exactly "no edits" ----

  lemma {:induction false} LiftNothing(seg: Seg, ops: seq<Op>)
    ensures Lift(seg, ops) == [] <==> ops == []
  {}

  lemma {:induction false} KeyOpsSilent(ord: Order, path: string, a: Nbt, b: Nbt, keys: seq<string>)
    requires a.Compound? && b.Compound? && forall k :: k in keys ==> k in a.m
    ensures KeyOps(ord, path, a, b, keys) == [] <==> forall k :: k in keys ==> k in b.m && Silent(a.m[k], b.m[k])
    decreases a, 0, |keys|
  {
    hide Walk, Silent;
    if keys != [] {
      var k := keys[0];
      if k in b.m {
        WalkSilent(ord, Extend(path, Key(k)), a.m[k], b.m[k]);
        LiftNothing(Key(k), Walk(ord, Extend(path, Key(k)), a.m[k], b.m[k]));
      }
      KeyOpsSilent(ord, path, a, b, keys[1..]);
      assert forall x :: x in keys <==> x == k || x in keys[1..];
    }
  }

  lemma {:induction false} IndexOpsSilent(ord: Order, path: string, a: Nbt, b: Nbt, i: nat)
    requires a.List? && b.List?
    ensures IndexOps(ord, path, a, b, i) == [] <==>
            forall j :: i <= j < Min(|a.items|, |b.items|) ==> Silent(a.items[j], b.items[j])
    decreases a, 0, |a.items| - i
  {
    hide IdentityKey, Keyable, Walk, Silent, Lift, IndexStep, IndexOps;
    IndexOpsNext(ord, path, a, b, i);
    if i < Min(|a.items|, |b.items|) {
      WalkSilent(ord, Extend(path, Index(i)), a.items[i], b.items[i]);
      IndexStepSilent(ord, path, a, b, i);
      IndexOpsSilent(ord, path, a, b, i + 1);
    }
  }

  lemma IndexOpsNext(ord: Order, path: string, a: Nbt, b: Nbt, i: nat)
    requires a.List? && b.List?
    ensures i >= Min(|a.items|, |b.items|) ==> IndexOps(ord, path, a, b, i) == []
    ensures i < Min(|a.items|, |b.items|) ==>
              (IndexOps(ord, path, a, b, i) == [] <==>
                  IndexStep(ord, path, a, b, i) == [] && IndexOps(ord, path, a, b, i + 1) == [])
  {
    hide Walk, Lift, IndexStep;
    if i < Min(|a.items|, |b.items|) { NothingTwice(IndexStep(ord, path, a, b, i), IndexOps(ord, path, a, b, i + 1)); }
  }

  lemma IndexStepSilent(ord: Order, path: string, a: Nbt, b: Nbt, i: nat)
    requires a.List? && b.List? && i < Min(|a.items|, |b.items|)
    ensures IndexStep(ord, path, a, b, i) == [] <==> Walk(ord, Extend(path, Index(i)), a.items[i], b.items[i]) == []
  {
    hide Walk, Lift;
    LiftNothing(Index(i), Walk(ord, Extend(path, Index(i)), a.items[i], b.items[i]));
  }

  lemma NothingTwice(x: seq<Op>, y: seq<Op>)
    ensures x + y == [] <==> x == [] && y == []
  {}

  predicate ElementSilent(la: seq<Nbt>, lb: seq<Nbt>, i: nat)
    requires Keyable(la) && i < |la|
  {
    HasId(lb, IdAt(la, i)) && Silent(la[i], ById(lb, IdAt(la, i)))
  }

  lemma {:induction false} ElementOpsSilent(ord: Order, path: string, a: Nbt, b: Nbt, i: nat)
    requires a.List? && b.List? && Keyable(a.items) && Keyable(b.items)
    ensures ElementOps(ord, path, a, b, i) == [] <==>
              forall j :: i <= j < |a.items| ==> ElementSilent(a.items, b.items, j)
    decreases a, 0, |a.items| - i
  {
    hide IdentityKey, Keyable, Locate, Walk, Silent;
    if i < |a.items| {
      var id := IdAt(a.items, i);
      if HasId(b.items, id) {
        var child := Walk(ord, Extend(path, Ident(id)), a.items[i], ById(b.items, id));
        WalkSilent(ord, Extend(path, Ident(id)), a.items[i], ById(b.items, id));
        LiftNothing(Ident(id), child);
      }
      assert ElementStep(ord, path, a, b, i) == [] <==> ElementSilent(a.items, b.items, i);
      ElementOpsSilent(ord, path, a, b, i + 1);
    }
  }

  lemma SortedEmpty(s: set<string>)
    ensures Sorted(s) == [] <==> s == {}
  {
    if s != {} { assert Least(s) in Sorted(s); }
  }

  lemma NothingMore(x: set<string>, y: set<string>)
    requires x <= y && y - x == {}
    ensures x == y
  {
    forall e | e in y ensures e in x {
      assert e !in y - x;
    }
  }

  lemma KeyedSilent(a: Nbt, b: Nbt)
    requires a.List? && b.List? && Keyable(a.items) && Keyable(b.items)
    requires forall j :: 0 <= j < |a.items| ==> ElementSilent(a.items, b.items, j)
    ensures Ids(a.items) <= Ids(b.items)
  {
    hide IdentityKey, Keyable, Locate;
    forall j | 0 <= j < |a.items| ensures HasId(b.items, IdAt(a.items, j)) {
      assert ElementSilent(a.items, b.items, j);
    }
    forall id | id in Ids(a.items) ensures id in Ids(b.items) {
      IdsAreLocated(b.items, id);
    }
  }

  lemma ListSilent(ord: Order, path: string, a: Nbt, b: Nbt)
    requires a.List? && b.List? && Keyable(a.items) && Keyable(b.items)
    requires ElementOps(ord, path, a, b, 0) == [] <==>
               forall j :: 0 <= j < |a.items| ==> ElementSilent(a.items, b.items, j)
    ensures KeyedOps(ord, path, a, b) == [] <==> Silent(a, b)
  {
    hide IdentityKey, Keyable, Locate;
    var more := Ids(b.items) - Ids(a.items);
    SortedEmpty(more);
    if Silent(a, b) {
      assert more == {};
      assert forall j :: 0 <= j < |a.items| ==> ElementSilent(a.items, b.items, j);
    }
    if forall j :: 0 <= j < |a.items| ==> ElementSilent(a.items, b.items, j) {
      KeyedSilent(a, b);
      forall i | 0 <= i < |a.items|
        ensures HasId(b.items, IdAt(a.items, i)) && Silent(a.items[i], ById(b.items, IdAt(a.items, i)))
      {
        assert ElementSilent(a.items, b.items, i);
      }
      if more == {} { NothingMore(Ids(a.items), Ids(b.items)); }
    }
  }

  lemma CompoundSilent(ord: Order, path: string, a: Nbt, b: Nbt)
    requires a.Compound? && b.Compound?
    requires KeyOps(ord, path, a, b, ord(path, a.m)) == [] <==>
               forall k :: k in ord(path, a.m) ==> k in b.m && Silent(a.m[k], b.m[k])
    ensures CompoundOps(ord, path, a, b) == [] <==> Silent(a, b)
  {
    hide IdentityKey, Keyable;
    var more := b.m.Keys - a.m.Keys;
    SortedEmpty(more);
    if Silent(a, b) { assert more == {}; }
    if more == {} && forall k :: k in ord(path, a.m) ==> k in b.m && Silent(a.m[k], b.m[k]) {
      forall k | k in a.m.Keys ensures k in b.m.Keys && Silent(a.m[k], b.m[k]) { assert k in ord(path, a.m); }
      NothingMore(a.m.Keys, b.m.Keys);
    }
  }

  lemma AlignedSilent(ord: Order, path: string, a: Nbt, b: Nbt)
    requires a.List? && b.List? && !(Keyable(a.items) && Keyable(b.items))
    requires IndexOps(ord, path, a, b, 0) == [] <==>
             forall j :: 0 <= j < Min(|a.items|, |b.items|) ==> Silent(a.items[j], b.items[j])
    ensures AlignedOps(ord, path, a, b) == [] <==> Silent(a, b)
  {
    hide IdentityKey, Keyable;
  }

  /** The walk emits nothing exactly on silent pairs, whatever the key order. */
  lemma {:induction false} WalkSilent(ord: Order, path: string, a: Nbt, b: Nbt)
    ensures Walk(ord, path, a, b) == [] <==> Silent(a, b)
    decreases a, 1, 0
  {
    hide IdentityKey, Keyable, Locate, Ids;
    if TagId(a) == TagId(b) {
      match a {
        case Compound(ma) =>
          KeyOpsSilent(ord, path, a, b, ord(path, ma));
          CompoundSilent(ord, path, a, b);
        case List(la) =>
          if Keyable(la) && Keyable(b.items) {
            ElementOpsSilent(ord, path, a, b, 0);
            ListSilent(ord, path, a, b);
          } else {
            IndexOpsSilent(ord, path, a, b, 0);
            AlignedSilent(ord, path, a, b);
          }
        case _ =>
      }
    }
  }

  // ---- silent pairs have the same identity ----

  /** What identity rules can see of a field: its tag, and its value unless it is
      a list or a compound. */
  predicate SameFace(x: Option<Nbt>, y: Option<Nbt>) {
    || x == y
    || (x.Some? && y.Some? && TagId(x.value) == TagId(y.value) && (x.value.List? || x.value.Compound?))
  }

  predicate SameFaces(a: map<string, Nbt>, b: map<string, Nbt>) {
    forall k :: k in FieldsAbove(NoIdentity) ==> SameFace(Lookup(a, k), Lookup(b, k))
  }

  lemma FaceAt(a: map<string, Nbt>, b: map<string, Nbt>, k: string)
    requires SameFaces(a, b) && k in FieldsAbove(NoIdentity)
    ensures SameFace(Lookup(a, k), Lookup(b, k))
  {}

  lemma LongFaces(a: map<string, Nbt>, b: map<string, Nbt>)
    requires SameFaces(a, b)
    ensures "UUID" in a && a["UUID"].IntArray? && |a["UUID"].ints| == 4 <==>
              "UUID" in b && b["UUID"].IntArray? && |b["UUID"].ints| == 4
    ensures "UUIDMost" in a && a["UUIDMost"].Long? <==> "UUIDMost" in b && b["UUIDMost"].Long?
    ensures "UUIDLeast" in a && a["UUIDLeast"].Long? <==> "UUIDLeast" in b && b["UUIDLeast"].Long?
  {
    hide SameFaces;
    FaceAt(a, b, "UUID");
    FaceAt(a, b, "UUIDMost");
    FaceAt(a, b, "UUIDLeast");
  }

  lemma PlaceFaces(a: map<string, Nbt>, b: map<string, Nbt>)
    requires SameFaces(a, b)
    ensures "x" in a && a["x"].Int? <==> "x" in b && b["x"].Int?
    ensures "y" in a && a["y"].Int? <==> "y" in b && b["y"].Int?
    ensures "z" in a && a["z"].Int? <==> "z" in b && b["z"].Int?
  {
    hide SameFaces;
    FaceAt(a, b, "x");
    FaceAt(a, b, "y");
    FaceAt(a, b, "z");
  }

  lemma NameFaces(a: map<string, Nbt>, b: map<string, Nbt>)
    requires SameFaces(a, b)
    ensures "Slot" in a && a["Slot"].Byte? <==> "Slot" in b && b["Slot"].Byte?
    ensures "id" in a && a["id"].String? <==> "id" in b && b["id"].String?
  {
    hide SameFaces;
    FaceAt(a, b, "Slot");
    FaceAt(a, b, "id");
  }

  lemma FacesGiveRule(a: Nbt, b: Nbt)
    requires TagId(a) == TagId(b)
    requires a.Compound? ==> SameFaces(a.m, b.m)
    ensures RuleOf(a) == RuleOf(b)
  {
    hide SameFaces;
    if a.Compound? {
      LongFaces(a.m, b.m);
      PlaceFaces(a.m, b.m);
      NameFaces(a.m, b.m);
    }
  }

  lemma FacesGiveFields(a: Nbt, b: Nbt)
    requires TagId(a) == TagId(b)
    requires a.Compound? ==> SameFaces(a.m, b.m)
    ensures forall k :: k in FieldsOf(RuleOf(a)) ==> k in a.m && k in b.m && a.m[k] == b.m[k]
  {
    hide SameFaces;
    if a.Compound? {
      forall k | k in FieldsOf(RuleOf(a)) ensures k in a.m && k in b.m && a.m[k] == b.m[k] { FaceAt(a.m, b.m, k); }
    }
  }

  lemma FacesGiveIdentity(a: Nbt, b: Nbt)
    requires TagId(a) == TagId(b)
    requires a.Compound? ==> SameFaces(a.m, b.m)
    ensures RuleOf(a) == RuleOf(b) && IdentityKey(a) == IdentityKey(b)
  {
    FacesGiveRule(a, b);
    FacesGiveFields(a, b);
    var fields := FieldsOf(RuleOf(a));
    match RuleOf(a) {
      case Uuid => assert "UUID" in fields;
      case LegacyUuid => assert "UUIDMost" in fields && "UUIDLeast" in fields;
      case BlockPos => assert "x" in fields && "y" in fields && "z" in fields;
      case SlotNumber => assert "Slot" in fields;
      case StringId => assert "id" in fields;
      case NoIdentity =>
    }
  }

  lemma SilentIdentity(a: Nbt, b: Nbt)
    requires Silent(a, b)
    ensures IdentityKey(a) == IdentityKey(b)
  {
    if a.Compound? {
      forall k | k in FieldsAbove(NoIdentity) ensures SameFace(Lookup(a.m, k), Lookup(b.m, k)) {
        if k in a.m { assert Silent(a.m[k], b.m[k]); }
      }
    }
    FacesGiveIdentity(a, b);
  }

  predicate SameIdentities(x: seq<Nbt>, y: seq<Nbt>) {
    |x| == |y| && forall i :: 0 <= i < |x| ==> IdentityKey(x[i]) == IdentityKey(y[i])
  }

  lemma KeyableTogether(x: seq<Nbt>, y: seq<Nbt>)
    requires SameIdentities(x, y)
    ensures Keyable(x) <==> Keyable(y)
    ensures Keyable(x) ==> Ids(x) == Ids(y)
  {
    hide IdentityKey;
    if Keyable(x) && Keyable(y) {
      assert forall i :: 0 <= i < |x| ==> IdAt(x, i) == IdAt(y, i);
    }
  }

  /** Lists whose elements pairwise share identities are silent exactly when
      their elements are, whichever way the walk aligns them. */
  lemma SilentPointwise(x: seq<Nbt>, y: seq<Nbt>)
    requires SameIdentities(x, y)
    ensures Silent(List(x), List(y)) <==> forall i :: 0 <= i < |x| ==> Silent(x[i], y[i])
  {
    hide IdentityKey;
    KeyableTogether(x, y);
    if Keyable(x) {
      forall i | 0 <= i < |x| ensures HasId(y, IdAt(x, i)) && ById(y, IdAt(x, i)) == y[i] {
        LocateUnique(y, i);
      }
    }
  }

  // ---- silence is an equivalence ----

  lemma {:induction false} SilentReflexive(a: Nbt)
    ensures Silent(a, a)
    decreases a
  {
    match a {
      case Compound(ma) =>
        forall k | k in ma.Keys ensures Silent(ma[k], ma[k]) { SilentReflexive(ma[k]); }
      case List(la) =>
        forall i | 0 <= i < |la| ensures Silent(la[i], la[i]) { SilentReflexive(la[i]); }
        SilentPointwise(la, la);
      case _ =>
    }
  }

  lemma SilentElements(la: seq<Nbt>, lb: seq<Nbt>)
    requires Silent(List(la), List(lb)) && !(Keyable(la) && Keyable(lb))
    ensures SameIdentities(la, lb) && !Keyable(la) && !Keyable(lb)
  {
    hide IdentityKey;
    forall i | 0 <= i < |la| ensures IdentityKey(la[i]) == IdentityKey(lb[i]) {
      SilentIdentity(la[i], lb[i]);
    }
    KeyableTogether(la, lb);
  }

  /** In one keyable and one other list of a silent pair, the other is keyable too. */
  lemma SilentKeyable(la: seq<Nbt>, lb: seq<Nbt>)
    requires Silent(List(la), List(lb))
    ensures Keyable(la) <==> Keyable(lb)
  {
    if !(Keyable(la) && Keyable(lb)) { SilentElements(la, lb); }
  }

  lemma SilentById(la: seq<Nbt>, lb: seq<Nbt>, id: string)
    requires Silent(List(la), List(lb)) && Keyable(la) && Keyable(lb)
    ensures HasId(la, id) <==> HasId(lb, id)
    ensures HasId(la, id) ==> Silent(ById(la, id), ById(lb, id))
  {
    hide IdentityKey;
    IdsAreLocated(la, id);
    IdsAreLocated(lb, id);
    if HasId(la, id) { assert IdAt(la, Locate(la, id)) == id; }
  }

  lemma {:induction false} SilentSymmetric(a: Nbt, b: Nbt)
    requires Silent(a, b)
    ensures Silent(b, a)
    decreases a
  {
    hide IdentityKey;
    match a {
      case Compound(ma) =>
        forall k | k in ma.Keys ensures Silent(b.m[k], ma[k]) { SilentSymmetric(ma[k], b.m[k]); }
      case List(la) =>
        var lb := b.items;
        if Keyable(la) && Keyable(lb) {
          forall j | 0 <= j < |lb| ensures HasId(la, IdAt(lb, j)) && Silent(lb[j], ById(la, IdAt(lb, j))) {
            var id := IdAt(lb, j);
            LocateUnique(lb, j);
            SilentById(la, lb, id);
            SilentSymmetric(ById(la, id), lb[j]);
          }
        } else {
          SilentElements(la, lb);
          forall i | 0 <= i < |la| ensures Silent(lb[i], la[i]) { SilentSymmetric(la[i], lb[i]); }
        }
      case _ =>
    }
  }

  lemma {:induction false} SilentTransitive(a: Nbt, b: Nbt, c: Nbt)
    requires Silent(a, b) && Silent(b, c)
    ensures Silent(a, c)
    decreases a
  {
    hide IdentityKey;
    match a {
      case Compound(ma) =>
        forall k | k in ma.Keys ensures Silent(ma[k], c.m[k]) { SilentTransitive(ma[k], b.m[k], c.m[k]); }
      case List(la) =>
        var lb, lc := b.items, c.items;
        SilentKeyable(la, lb);
        SilentKeyable(lb, lc);
        if Keyable(la) {
          forall i | 0 <= i < |la| ensures HasId(lc, IdAt(la, i)) && Silent(la[i], ById(lc, IdAt(la, i))) {
            var id := IdAt(la, i);
            LocateUnique(la, i);
            SilentById(la, lb, id);
            SilentById(lb, lc, id);
            SilentTransitive(la[i], ById(lb, id), ById(lc, id));
          }
        } else {
          forall i | 0 <= i < |la| ensures Silent(la[i], lc[i]) { SilentTransitive(la[i], lb[i], lc[i]); }
        }
      case _ =>
    }
  }
}
