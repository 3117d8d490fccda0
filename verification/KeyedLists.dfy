// The edits of a pair of lists matched by identity. Each edit finds its element
// by identity in the list as edited so far; the result is nevertheless one
// element-wise image of the list the edits started on.
module KeyedLists {
  import opened Collections
  import opened NbtValue
  import opened NbtPath
  import opened Comparer
  import opened Edits
  import opened Nodes

  function IdOf(e: Nbt): string
    requires IdentityKey(e).Some?
  {
    IdentityKey(e).value
  }

  /** No element without an identity, no identity twice. */
  predicate Unique(c: seq<Nbt>) {
    c != [] ==> Keyable(c)
  }

  predicate Lacks(l: seq<Nbt>, id: string) {
    forall i :: 0 <= i < |l| ==> IdentityKey(l[i]) != Some(id)
  }

  /** The edits of the keyable pair `(a, b)`, run on the list `c`. */
  datatype Setting = Setting(reverse: bool, ord: Order, path: string, a: Nbt, b: Nbt, c: seq<Nbt>) {

    predicate Lists() {
      a.List? && b.List? && Keyable(a.items) && Keyable(b.items) && Unique(c)
    }

    predicate Both(id: string)
      requires Lists()
    {
      HasId(a.items, id) && HasId(b.items, id)
    }

    /** An element the edits can be run on: matched with its identity fields
        unchanged by them, or exactly what the edits expect to remove. */
    predicate Ready(e: Nbt)
      requires Lists()
    {
      e.Compound? && IdentityKey(e).Some? &&
      var id := IdOf(e);
      if Both(id) then
        var x, y := ById(a.items, id), ById(b.items, id);
        x.Compound? && y.Compound? && AgreeOn(x.m, y.m, IdentityFields(e))
      else if reverse then HasId(b.items, id) && e == ById(b.items, id)
      else HasId(a.items, id) && e == ById(a.items, id)
    }

    ghost predicate Valid() {
      && Lists()
      && AllReady(c)
      && (forall id :: Both(id) ==> HasId(c, id))
      && (!reverse ==> forall id :: HasId(a.items, id) ==> HasId(c, id))
    }

    function Child(id: string, e: Nbt): Outcome
      requires Lists() && Both(id)
    {
      Sub(reverse, ord, path, Ident(id), ById(a.items, id), ById(b.items, id), e)
    }

    /** What is left of element `e`: its edited self if matched, else nothing. */
    function Left(e: Nbt): seq<Nbt>
      requires Lists() && Ready(e)
    {
      if Both(IdOf(e)) then [Child(IdOf(e), e).tree] else []
    }

    predicate AllReady(l: seq<Nbt>)
      requires Lists()
    {
      forall i :: 0 <= i < |l| ==> Ready(l[i])
    }

    function Piece(e: Nbt, done: set<string>): seq<Nbt>
      requires Lists() && Ready(e)
    {
      if IdOf(e) in done then Left(e) else [e]
    }

    /** The list with the edits of the identities `done` carried out. */
    function Image(l: seq<Nbt>, done: set<string>): seq<Nbt>
      requires Lists() && AllReady(l)
    {
      if l == [] then [] else Piece(l[0], done) + Image(l[1..], done)
    }

    /** How many edits of identity `id` are refused. */
    ghost function Refused(id: string): nat
      requires Valid()
    {
      if Both(id) then Child(id, ById(c, id)).conflicts
      else if reverse && HasId(b.items, id) && !HasId(c, id) then 1
      else 0
    }
  }

  lemma LeftKeepsId(s: Setting, e: Nbt)
    requires s.Lists() && s.Ready(e)
    ensures forall x :: x in s.Left(e) ==> IdentityKey(x) == IdentityKey(e)
  {
    var id := IdOf(e);
    if s.Both(id) {
      var x, y := ById(s.a.items, id), ById(s.b.items, id);
      WalkAvoids(s.ord, Extend(s.path, Ident(id)), x, y, IdentityFields(e));
      RunKeepsIdentity(s.reverse, e, Walk(s.ord, Extend(s.path, Ident(id)), x, y));
    }
  }

  /** Every element of an image has the identity of an element it came from. */
  lemma {:induction false} ImageIds(s: Setting, l: seq<Nbt>, done: set<string>, id: string)
    requires s.Lists() && s.AllReady(l)
    requires Lacks(l, id)
    ensures Lacks(s.Image(l, done), id)
  {
    if l != [] {
      ImageIds(s, l[1..], done, id);
      LeftKeepsId(s, l[0]);
    }
  }

  lemma {:induction false} ImageAppend(s: Setting, l: seq<Nbt>, r: seq<Nbt>, done: set<string>)
    requires s.Lists() && s.AllReady(l) && s.AllReady(r)
    ensures s.Image(l + r, done) == s.Image(l, done) + s.Image(r, done)
    decreases |l|
  {
    if l == [] {
      assert l + r == r;
    } else {
      HeadTail(l, r);
      ImageAppend(s, l[1..], r, done);
      Assoc(s.Piece(l[0], done), s.Image(l[1..], done), s.Image(r, done));
    }
  }

  lemma {:induction false} ImageUntouched(s: Setting, l: seq<Nbt>, done: set<string>, id: string)
    requires s.Lists() && s.AllReady(l)
    requires Lacks(l, id)
    ensures s.Image(l, done + {id}) == s.Image(l, done)
  {
    if l != [] {
      ImageUntouched(s, l[1..], done, id);
    }
  }

  lemma {:induction false} ImageOfNothingDone(s: Setting, l: seq<Nbt>)
    requires s.Lists() && s.AllReady(l)
    ensures s.Image(l, {}) == l
  {
    hide IdentityKey, Keyable, Locate, Walk, Run;
    if l != [] {
      ImageOfNothingDone(s, l[1..]);
      PieceOfNothingDone(s, l[0]);
      assert l == [l[0]] + l[1..];
    }
  }

  lemma PieceOfNothingDone(s: Setting, e: Nbt)
    requires s.Lists() && s.Ready(e)
    ensures s.Piece(e, {}) == [e]
  {
    hide IdentityKey, Keyable, Locate, Walk, Run;
  }

  lemma LocateBetween(x: seq<Nbt>, e: Nbt, y: seq<Nbt>, id: string)
    requires IdentityKey(e) == Some(id)
    requires Lacks(x, id)
    ensures Locate(x + [e] + y, id) == |x|
  {
    var l := x + [e] + y;
    assert l[|x|] == e;
    assert forall i :: 0 <= i < |x| ==> l[i] == x[i];
  }

  lemma LocateNowhere(x: seq<Nbt>, id: string)
    requires Lacks(x, id)
    ensures !HasId(x, id)
  {
  }

  lemma UniqueSplit(c: seq<Nbt>, id: string) returns (l: seq<Nbt>, e: Nbt, r: seq<Nbt>)
    requires Unique(c) && HasId(c, id)
    ensures e == ById(c, id) && c == l + ([e] + r)
    ensures IdentityKey(e) == Some(id) && Lacks(l, id) && Lacks(r, id)
  {
    hide IdentityKey;
    var n := Locate(c, id);
    l, e, r := c[..n], c[n], c[n + 1..];
    forall j | 0 <= j < |r| ensures IdentityKey(r[j]) != Some(id) {
      assert r[j] == c[n + 1 + j];
      assert IdentityKey(c[n]) != IdentityKey(c[n + 1 + j]);
    }
  }

  lemma ReadyParts(s: Setting, l: seq<Nbt>, e: Nbt, r: seq<Nbt>)
    requires s.Lists() && s.AllReady(l + ([e] + r))
    ensures s.AllReady(l) && s.AllReady(r) && s.Ready(e)
  {
    hide IdentityKey;
    var c := l + ([e] + r);
    assert c[|l|] == e;
    assert forall i :: 0 <= i < |l| ==> c[i] == l[i];
    assert forall i :: 0 <= i < |r| ==> c[|l| + 1 + i] == r[i];
  }

  lemma ImageOfCons(s: Setting, e: Nbt, r: seq<Nbt>, done: set<string>)
    requires s.Lists() && s.Ready(e) && s.AllReady(r)
    ensures s.AllReady([e] + r) && s.Image([e] + r, done) == s.Piece(e, done) + s.Image(r, done)
  {
    assert ([e] + r)[1..] == r;
  }

  /** How an image splits around the element with identity `id`. */
  lemma ImageAround(s: Setting, done: set<string>, id: string) returns (x: seq<Nbt>, y: seq<Nbt>)
    requires s.Valid() && HasId(s.c, id) && id !in done
    ensures s.Ready(ById(s.c, id)) && IdOf(ById(s.c, id)) == id
    ensures s.Image(s.c, done) == x + [ById(s.c, id)] + y
    ensures s.Image(s.c, done + {id}) == x + s.Left(ById(s.c, id)) + y
    ensures Lacks(x, id)
  {
    hide IdentityKey;
    var l, e, r := UniqueSplit(s.c, id);
    ReadyParts(s, l, e, r);
    x, y := s.Image(l, done), s.Image(r, done);
    ImageOfCons(s, e, r, done);
    ImageOfCons(s, e, r, done + {id});
    ImageAppend(s, l, [e] + r, done);
    ImageAppend(s, l, [e] + r, done + {id});
    ImageUntouched(s, l, done, id);
    ImageUntouched(s, r, done, id);
    ImageIds(s, l, done, id);
    Assoc(x, [e], y);
    Assoc(x, s.Left(e), y);
  }

  lemma ReplaceBetween(x: seq<Nbt>, e: Nbt, y: seq<Nbt>, other: Nbt)
    ensures (x + [e] + y)[|x| := other] == x + [other] + y
    ensures (x + [e] + y)[..|x|] + (x + [e] + y)[|x| + 1..] == x + [] + y
  {}

  /** The edits of a matched identity. */
  lemma MatchedRun(s: Setting, done: set<string>, id: string)
    requires s.Valid() && s.Both(id) && id !in done
    ensures var ops := Lift(Ident(id),
          Walk(s.ord, Extend(s.path, Ident(id)), ById(s.a.items, id), ById(s.b.items, id)));
            Run(s.reverse, List(s.Image(s.c, done)), ops) == Outcome(List(s.Image(s.c, done + {id})), s.Refused(id))
  {
    hide IdentityKey;
    var e := ById(s.c, id);
    var x, y := ImageAround(s, done, id);
    LocateBetween(x, e, y, id);
    var xe, ye := ById(s.a.items, id), ById(s.b.items, id);
    var ops := Walk(s.ord, Extend(s.path, Ident(id)), xe, ye);
    WalkOpsOk(s.ord, Extend(s.path, Ident(id)), xe, ye);
    WalkAvoids(s.ord, Extend(s.path, Ident(id)), xe, ye, IdentityFields(e));
    RunUnder(s.reverse, List(x + [e] + y), Ident(id), ops);
    ReplaceBetween(x, e, y, s.Child(id, e).tree);
  }

  predicate OneSided(s: Setting, id: string, op: Op)
    requires s.Lists()
  {
    || (HasId(s.a.items, id) && !HasId(s.b.items, id) && op == Op([Ident(id)], Some(ById(s.a.items, id)), None))
    || (HasId(s.b.items, id) && !HasId(s.a.items, id) && op == Op([Ident(id)], None, Some(ById(s.b.items, id))))
  }

  /** Removing an element found by its identity. */
  lemma CutBetween(reverse: bool, x: seq<Nbt>, e: Nbt, y: seq<Nbt>, id: string, op: Op)
    requires IdentityKey(e) == Some(id) && Lacks(x, id)
    requires op.segs == [Ident(id)] && From(reverse, op) == Some(e) && To(reverse, op) == None
    ensures Run(reverse, List(x + [e] + y), [op]) == Outcome(List(x + y), 0)
  {
    hide IdentityKey, Walk;
    RunOne(reverse, List(x + [e] + y), op);
    LocateBetween(x, e, y, id);
    ReplaceBetween(x, e, y, e);
    assert x + [] + y == x + y;
  }

  lemma PresentRun(s: Setting, done: set<string>, id: string, op: Op)
    requires s.Valid() && OneSided(s, id, op) && id !in done && HasId(s.c, id)
    ensures Run(s.reverse, List(s.Image(s.c, done)), [op]) == Outcome(List(s.Image(s.c, done + {id})), 0)
  {
    hide IdentityKey, Keyable, Walk, Run, Lacks, Locate;
    var e := ById(s.c, id);
    var x, y := ImageAround(s, done, id);
    assert x + [] + y == x + y;
    CutBetween(s.reverse, x, e, y, id, op);
  }

  lemma AbsentRun(s: Setting, done: set<string>, id: string, op: Op)
    requires s.Valid() && OneSided(s, id, op) && id !in done && !HasId(s.c, id)
    ensures Run(s.reverse, List(s.Image(s.c, done)), [op]) == Outcome(List(s.Image(s.c, done + {id})), s.Refused(id))
  {
    hide IdentityKey;
    var t := List(s.Image(s.c, done));
    RunOne(s.reverse, t, op);
    assert Lacks(s.c, id);
    ImageIds(s, s.c, done, id);
    LocateNowhere(s.Image(s.c, done), id);
    ImageUntouched(s, s.c, done, id);
  }

  /** The edit of an identity only one side has: a removal that finds its
      element carries it out, an insertion changes nothing. */
  lemma UnmatchedRun(s: Setting, done: set<string>, id: string, op: Op)
    requires s.Valid() && OneSided(s, id, op) && id !in done
    ensures Run(s.reverse, List(s.Image(s.c, done)), [op]) == Outcome(List(s.Image(s.c, done + {id})), s.Refused(id))
  {
    hide IdentityKey;
    if HasId(s.c, id) { PresentRun(s, done, id, op); } else { AbsentRun(s, done, id, op); }
  }

  ghost predicate Accepted(s: Setting, ids: set<string>)
    requires s.Valid()
  {
    forall id :: id in ids ==> s.Refused(id) == 0
  }

  /** `r` is the image with `done` carried out after the edits of `ids` as well. */
  ghost predicate Ran(s: Setting, done: set<string>, ids: set<string>, r: Outcome)
    requires s.Valid()
  {
    && r.tree == List(s.Image(s.c, done + ids))
    && (r.conflicts == 0 <==> Accepted(s, ids))
  }

  lemma RanThen(s: Setting, done: set<string>, x: set<string>, y: set<string>, r1: Outcome, r2: Outcome)
    requires s.Valid() && Ran(s, done, x, r1) && Ran(s, done + x, y, r2)
    ensures Ran(s, done, x + y, Outcome(r2.tree, r1.conflicts + r2.conflicts))
  {
    hide IdentityKey;
    assert done + x + y == done + (x + y);
  }

  lemma RanOne(s: Setting, done: set<string>, id: string, r: Outcome)
    requires s.Valid() && r == Outcome(List(s.Image(s.c, done + {id})), s.Refused(id))
    ensures Ran(s, done, {id}, r)
  {}

  lemma RanTree(s: Setting, done: set<string>, ids: set<string>, r: Outcome)
    requires s.Valid() && Ran(s, done, ids, r)
    ensures r.tree == List(s.Image(s.c, done + ids))
  {
    hide IdentityKey, Accepted;
  }

  lemma RanNone(s: Setting, done: set<string>)
    requires s.Valid()
    ensures Ran(s, done, {}, Outcome(List(s.Image(s.c, done)), 0))
  {
    assert done + {} == done;
  }

  function IdsFrom(la: seq<Nbt>, i: nat): set<string>
    requires Keyable(la)
  {
    set j | i <= j < |la| :: IdAt(la, j)
  }

  lemma IdsFromStep(la: seq<Nbt>, i: nat)
    requires Keyable(la) && i < |la|
    ensures IdsFrom(la, i) == {IdAt(la, i)} + IdsFrom(la, i + 1)
    ensures IdAt(la, i) !in IdsFrom(la, i + 1)
  {
    assert IdAt(la, i) in IdsFrom(la, i);
  }

  lemma ElementStepRun(s: Setting, i: nat, done: set<string>)
    requires s.Valid() && i < |s.a.items| && IdAt(s.a.items, i) !in done
    ensures Ran(s, done, {IdAt(s.a.items, i)},
          Run(s.reverse, List(s.Image(s.c, done)), ElementStep(s.ord, s.path, s.a, s.b, i)))
  {
    hide IdentityKey;
    var id := IdAt(s.a.items, i);
    LocateUnique(s.a.items, i);
    if HasId(s.b.items, id) {
      MatchedRun(s, done, id);
    } else {
      UnmatchedRun(s, done, id, Op([Ident(id)], Some(s.a.items[i]), None));
    }
    RanOne(s, done, id, Run(s.reverse, List(s.Image(s.c, done)), ElementStep(s.ord, s.path, s.a, s.b, i)));
  }

  lemma RunNothing(reverse: bool, t: Nbt)
    ensures Run(reverse, t, []) == Outcome(t, 0)
  {}

  lemma {:induction false} ElementOpsRun(s: Setting, i: nat, done: set<string>)
    requires s.Valid() && i <= |s.a.items| && done !! IdsFrom(s.a.items, i)
    ensures Ran(s, done, IdsFrom(s.a.items, i),
          Run(s.reverse, List(s.Image(s.c, done)), ElementOps(s.ord, s.path, s.a, s.b, i)))
    decreases |s.a.items| - i
  {
    hide IdentityKey, Keyable, Locate, Walk, Run, ElementStep, Ran;
    var la := s.a.items;
    if i == |la| {
      RanNone(s, done);
      RunNothing(s.reverse, List(s.Image(s.c, done)));
      assert IdsFrom(la, i) == {};
    } else {
      var id := IdAt(la, i);
      IdsFromStep(la, i);
      ElementStepRun(s, i, done);
      ElementOpsRun(s, i + 1, done + {id});
      var head, rest := ElementStep(s.ord, s.path, s.a, s.b, i), ElementOps(s.ord, s.path, s.a, s.b, i + 1);
      var r1 := Run(s.reverse, List(s.Image(s.c, done)), head);
      RanTree(s, done, {id}, r1);
      RanThen(s, done, {id}, IdsFrom(la, i + 1), r1, Run(s.reverse, r1.tree, rest));
      RunAppend(s.reverse, List(s.Image(s.c, done)), head, rest);
    }
  }

  function Members(ids: seq<string>): set<string> {
    set id | id in ids
  }

  lemma AddedStepRun(s: Setting, id: string, done: set<string>) returns (op: Op)
    requires s.Valid() && id in Ids(s.b.items) && !HasId(s.a.items, id) && id !in done
    ensures HasId(s.b.items, id) && op == Op([Ident(id)], None, Some(ById(s.b.items, id)))
    ensures Ran(s, done, {id}, Run(s.reverse, List(s.Image(s.c, done)), [op]))
  {
    hide IdentityKey, Keyable, Locate, Edit, Walk, Run, Ran;
    IdsAreLocated(s.b.items, id);
    op := Op([Ident(id)], None, Some(ById(s.b.items, id)));
    UnmatchedRun(s, done, id, op);
    RanOne(s, done, id, Run(s.reverse, List(s.Image(s.c, done)), [op]));
  }

  /** Identities of the new list alone, not yet dealt with. */
  predicate Newcomers(s: Setting, ids: seq<string>, done: set<string>)
    requires s.Lists()
  {
    Distinct(ids) && forall id :: id in ids ==> id in Ids(s.b.items) && !HasId(s.a.items, id) && id !in done
  }

  lemma NewcomersLeft(s: Setting, ids: seq<string>, done: set<string>)
    requires s.Lists() && Newcomers(s, ids, done) && ids != []
    ensures ids[0] in Ids(s.b.items) && !HasId(s.a.items, ids[0]) && ids[0] !in done
    ensures Newcomers(s, ids[1..], done + {ids[0]})
    ensures Members(ids) == {ids[0]} + Members(ids[1..])
  {
    hide Ids, HasId;
  }

  lemma {:induction false} AddedElementOpsRun(s: Setting, ids: seq<string>, done: set<string>)
    requires s.Valid() && Newcomers(s, ids, done)
    requires forall id :: id in ids ==> id in Ids(s.b.items)
    ensures Ran(s, done, Members(ids), Run(s.reverse, List(s.Image(s.c, done)), AddedElementOps(s.b.items, ids)))
    decreases |ids|
  {
    hide IdentityKey, Keyable, Locate, Edit, Walk, Run, Ran, Newcomers, Ids, HasId;
    if ids == [] {
      RunNothing(s.reverse, List(s.Image(s.c, done)));
      RanNone(s, done);
      assert Members(ids) == {};
    } else {
      var id, rest := ids[0], ids[1..];
      NewcomersLeft(s, ids, done);
      var op := AddedStepRun(s, id, done);
      var r1 := Run(s.reverse, List(s.Image(s.c, done)), [op]);
      AddedElementOpsRun(s, rest, done + {id});
      RanTree(s, done, {id}, r1);
      RanThen(s, done, {id}, Members(rest), r1, Run(s.reverse, r1.tree, AddedElementOps(s.b.items, rest)));
      RunAppend(s.reverse, List(s.Image(s.c, done)), [op], AddedElementOps(s.b.items, rest));
    }
  }

  /** The edits of a pair matched by identity keep the order of the list they
      run on: matched elements change on their own, the rest disappear. */
  lemma KeyedNode(s: Setting)
    requires s.Valid()
    ensures Ran(s, {}, Ids(s.a.items) + Ids(s.b.items), Run(s.reverse, List(s.c), KeyedOps(s.ord, s.path, s.a, s.b)))
  {
    hide IdentityKey;
    var la, lb := s.a.items, s.b.items;
    var added := Sorted(Ids(lb) - Ids(la));
    ImageOfNothingDone(s, s.c);
    assert IdsFrom(la, 0) == Ids(la);
    ElementOpsRun(s, 0, {});
    forall id | id in added ensures !HasId(la, id) && id !in Ids(la) && id in Ids(lb) {
      IdsAreLocated(la, id);
    }
    assert {} + Ids(la) == Ids(la);
    AddedElementOpsRun(s, added, Ids(la));
    assert Ids(la) + Members(added) == Ids(la) + Ids(lb);
    var head, rest := ElementOps(s.ord, s.path, s.a, s.b, 0), AddedElementOps(lb, added);
    var r1 := Run(s.reverse, List(s.c), head);
    RanThen(s, {}, Ids(la), Members(added), r1, Run(s.reverse, r1.tree, rest));
    RunAppend(s.reverse, List(s.c), head, rest);
  }
}
