// The walk over everything a set of tips depends on: `reachable`
// (crates/repo/src/transfer.rs) and the first half of `gc` (crates/repo/src/gc.rs)
// are the same loop, from one tip or from several.
module Reachability {
  import opened Collections
  import opened Objects
  import opened Graphs
  import opened Closure

  /** The commits and tags the walk goes on to. */
  function Onward(s: Store, shallow: set<string>, id: string): seq<string> {
    match ReadTag(s, id)
    case Some(target) => [target]
    case None =>
      if ReadCommit(s, id).Some? && ParentsOf(s, shallow, id).Ok? then ParentsOf(s, shallow, id).value else []
  }

  function Walk(s: Store, shallow: set<string>): string -> seq<string> {
    (id: string) => Onward(s, shallow, id)
  }

  predicate IsCommit(s: Store, id: string) {
    ReadTag(s, id).None? && ReadCommit(s, id).Some?
  }

  /** What the walk adds beside a commit: its tree, and the leaves of the tree. */
  function Payload(s: Store, id: string): seq<string> {
    if IsCommit(s, id) then
      var tree := ReadCommit(s, id).value.tree;
      [tree] + match ReadManifest(s, tree) case Some(m) => ManifestIds(m) case None => []
    else []
  }

  predicate Carried(s: Store, walked: set<string>, id: string) {
    exists c :: c in walked && id in Payload(s, c)
  }

  /** No id is met both as history and as a tree or leaf of it. */
  ghost predicate KindsApart(s: Store, shallow: set<string>, tips: seq<string>) {
    forall c, id :: ReachedFrom(Walk(s, shallow), tips, c) && ReachedFrom(Walk(s, shallow), tips, id) ==>
        id !in Payload(s, c)
  }

  /** An id met in both ways leads nowhere: it is no readable commit or tag. One
      `seen` set serves both ways, so such an id may never be walked as history. */
  ghost predicate Harmless(s: Store, shallow: set<string>, tips: seq<string>) {
    forall c, id ::
      ReachedFrom(Walk(s, shallow), tips, c) && ReachedFrom(Walk(s, shallow), tips, id) && id in Payload(s, c) ==>
        ReadTag(s, id).None? && ReadCommit(s, id).None?
  }

  /** Every id the walk can name. */
  function Nameable(s: Store, tips: seq<string>): set<string> {
    (set id | id in s) + (set id | id in tips)
    + (set id, p | id in s && s[id].commit.Some? && p in s[id].commit.value.parents :: p)
    + (set id | id in s && s[id].tag.Some? :: s[id].tag.value)
  }

  lemma NameableBounds(s: Store, shallow: set<string>, tips: seq<string>)
    ensures Bounds(Walk(s, shallow), tips, Nameable(s, tips))
  {}

  /** What the walk from `tips` returns. */
  ghost predicate Kept(s: Store, shallow: set<string>, tips: seq<string>, id: string) {
    || (id in s && ReachedFrom(Walk(s, shallow), tips, id))
    || exists c :: ReachedFrom(Walk(s, shallow), tips, c) && id in Payload(s, c)
  }

  lemma CarriedAdd(s: Store, walked: set<string>, c: string, id: string)
    ensures Carried(s, walked + {c}, id) <==> Carried(s, walked, id) || id in Payload(s, c)
  {
    hide Payload;
    if id in Payload(s, c) { assert c in walked + {c}; }
    if Carried(s, walked, id) {
      var d :| d in walked && id in Payload(s, d);
      assert d in walked + {c};
    }
  }

  /** Adds the ids not seen before, in order. */
  function Adding(seen: set<string>, out: seq<string>, ids: seq<string>): (set<string>, seq<string>) {
    if ids == [] then (seen, out)
    else
      var (sn, o) := Adding(seen, out, ids[..|ids| - 1]);
      var id := ids[|ids| - 1];
      (sn + {id}, if id in sn then o else o + [id])
  }

  lemma {:induction false} AddingAdds(seen: set<string>, out: seq<string>, ids: seq<string>)
    requires Distinct(out) && forall id :: id in out ==> id in seen
    ensures var (sn, o) := Adding(seen, out, ids);
            && Distinct(o) && (forall id :: id in o ==> id in sn)
            && (forall id :: id in sn <==> id in seen || id in ids)
            && (forall id :: id in o <==> id in out || (id in ids && id !in seen))
  {
    if ids != [] {
      AddingAdds(seen, out, ids[..|ids| - 1]);
      assert ids == ids[..|ids| - 1] + [ids[|ids| - 1]];
    }
  }

  method AddNew(seen: set<string>, out: seq<string>,
                ids: seq<string>) returns (nextSeen: set<string>, nextOut: seq<string>)
    ensures (nextSeen, nextOut) == Adding(seen, out, ids)
  {
    nextSeen, nextOut := seen, out;
    for i := 0 to |ids|
      invariant (nextSeen, nextOut) == Adding(seen, out, ids[..i])
    {
      assert ids[..i + 1][..i] == ids[..i];
      if ids[i] !in nextSeen {
        nextOut := nextOut + [ids[i]];
      }
      nextSeen := nextSeen + {ids[i]};
    }
    assert ids[..|ids|] == ids;
  }

  /** What the loop still adds to `out`: an id popped for the first time is put out
      if it is stored, with its tree and leaves, and its tag's target or parents go
      on the stack; one that was seen is skipped, however it was seen. */
  ghost function Sweep(s: Store, shallow: set<string>, universe: set<string>, seen: set<string>, stack: seq<string>,
                       out: seq<string>): seq<string>
    requires Closed(Walk(s, shallow), universe) && forall x :: x in stack ==> x in universe
    decreases universe - seen, |stack|
  {
    hide Onward, Payload, Adding;
    if stack == [] then out
    else
      var rest, c := stack[..|stack| - 1], stack[|stack| - 1];
      assert c in stack && Walk(s, shallow)(c) == Onward(s, shallow, c);
      if c in seen then Sweep(s, shallow, universe, seen, rest, out)
      else
        SeenGrows(universe, seen, c, Payload(s, c), out);
        var (sn, o) := Adding(seen + {c}, if c in s then out + [c] else out, Payload(s, c));
        Sweep(s, shallow, universe, sn, rest + Onward(s, shallow, c), o)
  }

  lemma {:induction false} AddingSees(seen: set<string>, out: seq<string>, ids: seq<string>)
    ensures forall id :: id in Adding(seen, out, ids).0 <==> id in seen || id in ids
  {
    if ids != [] {
      AddingSees(seen, out, ids[..|ids| - 1]);
      assert ids == ids[..|ids| - 1] + [ids[|ids| - 1]];
    }
  }

  lemma SeenGrows(universe: set<string>, seen: set<string>, c: string, ids: seq<string>, out: seq<string>)
    requires c in universe && c !in seen
    ensures forall o :: universe - Adding(seen + {c}, o, ids).0 < universe - seen
  {
    forall o ensures universe - Adding(seen + {c}, o, ids).0 < universe - seen {
      AddingSees(seen + {c}, o, ids);
      assert c in universe - seen;
    }
  }

  /** What the walk from the tips puts out. */
  ghost function Walked(s: Store, shallow: set<string>, tips: seq<string>): seq<string> {
    NameableBounds(s, shallow, tips);
    Sweep(s, shallow, Nameable(s, tips), {}, tips, [])
  }

  /** `reachable`, and the first loop of `gc`. */
  method Reachable(s: Store, shallow: set<string>, tips: seq<string>) returns (out: seq<string>)
    ensures out == Walked(s, shallow, tips)
  {
    hide Adding, Nameable, ManifestIds, Bounds;
    ghost var universe := Nameable(s, tips);
    NameableBounds(s, shallow, tips);
    BoundsMean(Walk(s, shallow), tips, universe);
    var seen: set<string> := {};
    var stack := tips;
    out := [];
    while stack != []
      invariant forall x :: x in stack ==> x in universe
      invariant Sweep(s, shallow, universe, seen, stack, out) == Walked(s, shallow, tips)
      decreases universe - seen, |stack|
    {
      var rest, c := stack[..|stack| - 1], stack[|stack| - 1];
      assert c in stack && forall x :: x in rest ==> x in stack;
      if c in seen {
        stack := rest;
      } else {
        SeenGrows(universe, seen, c, Payload(s, c), out);
        ghost var first := if c in s then out + [c] else out;
        ghost var (sn, o) := Adding(seen + {c}, first, Payload(s, c));
        seen := seen + {c};
        stack := rest;
        AddingNothing();
        if c in s {
          out := out + [c];
          var tag := ReadTag(s, c);
          var commit := ReadCommit(s, c);
          if tag.Some? {
            stack := stack + [tag.value];
          } else if commit.Some? {
            var leaves := [];
            var manifest := ReadManifest(s, commit.value.tree);
            if manifest.Some? {
              leaves := CollectIds(manifest.value);
            }
            seen, out := AddNew(seen, out, [commit.value.tree] + leaves);
            var parents := ParentsOf(s, shallow, c);
            stack := stack + parents.value;
          } else {
            assert rest + [] == rest;
          }
        } else {
          assert rest + [] == rest;
        }
        assert (seen, out) == (sn, o) && stack == rest + Onward(s, shallow, c);
        assert forall d :: d in Onward(s, shallow, c) ==> d in Walk(s, shallow)(c);
      }
    }
  }

  lemma BoundsMean(next: string -> seq<string>, tips: seq<string>, universe: set<string>)
    requires Bounds(next, tips, universe)
    ensures Closed(next, universe) && forall x :: x in tips ==> x in universe
  {}

  lemma AddingNothing()
    ensures forall seen, out :: Adding(seen, out, []) == (seen, out)
  {}

  // ---- what the walk puts out ----

  ghost predicate AllReached(s: Store, shallow: set<string>, tips: seq<string>, ids: seq<string>) {
    forall id :: id in ids ==> ReachedFrom(Walk(s, shallow), tips, id)
  }

  /** Nothing is put out twice or without being kept. */
  ghost predicate SoundOut(s: Store, shallow: set<string>, tips: seq<string>, seen: set<string>, out: seq<string>) {
    Distinct(out) && forall id :: id in out ==> id in seen && Kept(s, shallow, tips, id)
  }

  lemma ReachedOn(s: Store, shallow: set<string>, tips: seq<string>, rest: seq<string>, c: string)
    requires AllReached(s, shallow, tips, rest + [c])
    ensures AllReached(s, shallow, tips, rest) && AllReached(s, shallow, tips, rest + Onward(s, shallow, c))
    ensures ReachedFrom(Walk(s, shallow), tips, c)
  {
    hide Reaches;
    assert c in rest + [c] && forall x :: x in rest ==> x in rest + [c];
    var t :| t in tips && Reaches(Walk(s, shallow), t, c);
    forall d | d in Onward(s, shallow, c) ensures ReachedFrom(Walk(s, shallow), tips, d) {
      ReachesStep(Walk(s, shallow), t, c, d);
    }
  }

  lemma SoundVisit(s: Store, shallow: set<string>, tips: seq<string>, seen: set<string>, out: seq<string>, c: string)
    requires SoundOut(s, shallow, tips, seen, out) && c !in seen && ReachedFrom(Walk(s, shallow), tips, c)
    ensures var (sn, o) := Adding(seen + {c}, if c in s then out + [c] else out, Payload(s, c));
            SoundOut(s, shallow, tips, sn, o)
  {
    hide Payload, Walk, Reaches, Adding;
    var first := if c in s then out + [c] else out;
    assert Distinct(first);
    AddingAdds(seen + {c}, first, Payload(s, c));
  }

  lemma {:induction false} SweepSound(s: Store, shallow: set<string>, tips: seq<string>, universe: set<string>,
                                      seen: set<string>, stack: seq<string>, out: seq<string>)
    requires Closed(Walk(s, shallow), universe) && forall x :: x in stack ==> x in universe
    requires AllReached(s, shallow, tips, stack) && SoundOut(s, shallow, tips, seen, out)
    ensures var all := Sweep(s, shallow, universe, seen, stack, out);
            Distinct(all) && forall id :: id in all ==> Kept(s, shallow, tips, id)
    decreases universe - seen, |stack|
  {
    hide Kept, AllReached, Payload, Onward, Distinct, Adding, Walk;
    if stack == [] {
      SoundParts(s, shallow, tips, seen, out);
    } else {
      hide SoundOut;
      var rest, c := stack[..|stack| - 1], stack[|stack| - 1];
      assert stack == rest + [c] && c in stack;
      ReachedOn(s, shallow, tips, rest, c);
      if c in seen {
        SweepSound(s, shallow, tips, universe, seen, rest, out);
      } else {
        SoundVisit(s, shallow, tips, seen, out, c);
        SeenGrows(universe, seen, c, Payload(s, c), out);
        OnwardIn(s, shallow, universe, rest, c);
        var (sn, o) := Adding(seen + {c}, if c in s then out + [c] else out, Payload(s, c));
        SweepSound(s, shallow, tips, universe, sn, rest + Onward(s, shallow, c), o);
      }
    }
  }

  lemma SoundParts(s: Store, shallow: set<string>, tips: seq<string>, seen: set<string>, out: seq<string>)
    requires SoundOut(s, shallow, tips, seen, out)
    ensures Distinct(out) && forall id :: id in out ==> Kept(s, shallow, tips, id)
  {}

  lemma OnwardIn(s: Store, shallow: set<string>, universe: set<string>, rest: seq<string>, c: string)
    requires Closed(Walk(s, shallow), universe) && c in universe && forall x :: x in rest ==> x in universe
    ensures forall x :: x in rest + Onward(s, shallow, c) ==> x in universe
  {
    hide Onward;
    assert Walk(s, shallow)(c) == Onward(s, shallow, c);
  }

  /** Whatever the store, each id is put out at most once, and only if it is reachable. */
  lemma WalkedSound(s: Store, shallow: set<string>, tips: seq<string>)
    ensures Distinct(Walked(s, shallow, tips))
    ensures forall id :: id in Walked(s, shallow, tips) ==> Kept(s, shallow, tips, id)
  {
    hide Reaches, Kept, Sweep, Nameable;
    NameableBounds(s, shallow, tips);
    forall x | x in tips ensures ReachedFrom(Walk(s, shallow), tips, x) { ReachesSelf(Walk(s, shallow), x); }
    SweepSound(s, shallow, tips, Nameable(s, tips), {}, tips, []);
  }

  /** The state between two pops: `done` is what was popped, `out` what has been put
      out, of the stored ids at least, `seen` what was popped or put out. */
  ghost predicate Sweeping(s: Store, strict: bool, done: set<string>, seen: set<string>, out: seq<string>) {
    && (forall id :: id in seen <==> id in done || Carried(s, done, id))
    && (forall id :: id in s || strict ==> (id in out <==> (id in done && id in s) || Carried(s, done, id)))
    && (forall id :: id in out ==> id in seen)
  }

  lemma SweepingVisit(s: Store, strict: bool, done: set<string>, seen: set<string>, out: seq<string>, c: string)
    requires Sweeping(s, strict, done, seen, out) && Distinct(out) && c !in seen
    requires strict ==> forall id :: id in Payload(s, c) ==> id !in done + {c}
    ensures var (sn, o) := Adding(seen + {c}, if c in s then out + [c] else out, Payload(s, c));
            Sweeping(s, strict, done + {c}, sn, o) && Distinct(o)
  {
    hide Payload, Adding;
    var first := if c in s then out + [c] else out;
    assert Distinct(first);
    AddingAdds(seen + {c}, first, Payload(s, c));
    forall id
      ensures Carried(s, done + {c}, id) <==> Carried(s, done, id) || id in Payload(s, c)
    {
      CarriedAdd(s, done, c, id);
    }
  }

  /** Skipping an id that was put out as a tree or leaf, when it leads nowhere. */
  lemma SweepingSkip(s: Store, strict: bool, done: set<string>, seen: set<string>, out: seq<string>, c: string)
    requires Sweeping(s, strict, done, seen, out) && c in seen && (c in done || Payload(s, c) == [])
    ensures Sweeping(s, strict, done + {c}, seen, out)
  {
    hide Payload;
    forall id ensures Carried(s, done + {c}, id) <==> Carried(s, done, id) {
      CarriedAdd(s, done, c, id);
      if c in done { assert done + {c} == done; }
    }
  }

  lemma Barren(s: Store, shallow: set<string>, tips: seq<string>, done: set<string>, c: string)
    requires Harmless(s, shallow, tips) && ReachedFrom(Walk(s, shallow), tips, c) && Carried(s, done, c)
    requires forall d :: d in done ==> ReachedFrom(Walk(s, shallow), tips, d)
    ensures Onward(s, shallow, c) == [] && Payload(s, c) == []
  {
    var d :| d in done && c in Payload(s, d);
    assert ReadTag(s, c).None? && ReadCommit(s, c).None?;
  }

  lemma Apart(s: Store, shallow: set<string>, tips: seq<string>, done: set<string>, c: string)
    requires KindsApart(s, shallow, tips) && ReachedFrom(Walk(s, shallow), tips, c)
    requires forall d :: d in done ==> ReachedFrom(Walk(s, shallow), tips, d)
    ensures forall id :: id in Payload(s, c) ==> id !in done + {c}
  {}

  /** One turn of the loop. */
  lemma SweepStep(s: Store, shallow: set<string>, universe: set<string>, seen: set<string>, rest: seq<string>,
                  c: string, out: seq<string>)
    requires Closed(Walk(s, shallow), universe) && c in universe && forall x :: x in rest ==> x in universe
    ensures forall x :: x in rest + [c] ==> x in universe
    ensures forall x :: x in rest + Onward(s, shallow, c) ==> x in universe
    ensures Sweep(s, shallow, universe, seen, rest + [c], out) ==
            if c in seen then Sweep(s, shallow, universe, seen, rest, out)
            else
              var (sn, o) := Adding(seen + {c}, if c in s then out + [c] else out, Payload(s, c));
              Sweep(s, shallow, universe, sn, rest + Onward(s, shallow, c), o)
  {
    hide Payload, Onward, Adding, Closed;
    OnwardIn(s, shallow, universe, rest, c);
    assert (rest + [c])[..|rest|] == rest;
  }

  /** What holds between two pops when ids met in both ways lead nowhere. */
  ghost predicate Covering(s: Store, shallow: set<string>, tips: seq<string>, strict: bool, universe: set<string>,
                           done: set<string>, seen: set<string>, stack: seq<string>, out: seq<string>)
  {
    && Searching(Walk(s, shallow), tips, universe, done, stack)
    && Sweeping(s, strict, done, seen, out) && Distinct(out)
    && Harmless(s, shallow, tips) && (strict ==> KindsApart(s, shallow, tips))
  }

  lemma CoveringSkip(s: Store, shallow: set<string>, tips: seq<string>, strict: bool, universe: set<string>,
                     done: set<string>, seen: set<string>, rest: seq<string>, c: string, out: seq<string>)
    requires Covering(s, shallow, tips, strict, universe, done, seen, rest + [c], out) && c in seen
    ensures Covering(s, shallow, tips, strict, universe, done + {c}, seen, rest, out)
  {
    hide Payload, Onward, Distinct, Harmless, KindsApart, ReachedFrom, Searching;
    SearchReached(Walk(s, shallow), tips, universe, done, rest + [c]);
    assert c in rest + [c];
    SearchStep(Walk(s, shallow), tips, universe, done, rest, c);
    assert Walk(s, shallow)(c) == Onward(s, shallow, c);
    if c !in done {
      Barren(s, shallow, tips, done, c);
      assert rest + [] == rest;
    } else {
      assert done + {c} == done;
    }
    SweepingSkip(s, strict, done, seen, out, c);
  }

  lemma CoveringVisit(s: Store, shallow: set<string>, tips: seq<string>, strict: bool, universe: set<string>,
                      done: set<string>, seen: set<string>, rest: seq<string>, c: string, out: seq<string>)
    requires Covering(s, shallow, tips, strict, universe, done, seen, rest + [c], out) && c !in seen
    ensures var (sn, o) := Adding(seen + {c}, if c in s then out + [c] else out, Payload(s, c));
            Covering(s, shallow, tips, strict, universe, done + {c}, sn, rest + Onward(s, shallow, c), o)
  {
    hide Payload, Onward, Harmless, KindsApart, ReachedFrom, Searching, Adding, Distinct;
    SearchReached(Walk(s, shallow), tips, universe, done, rest + [c]);
    assert c in rest + [c];
    SearchStep(Walk(s, shallow), tips, universe, done, rest, c);
    assert Walk(s, shallow)(c) == Onward(s, shallow, c);
    assert c !in done by { hide Carried; }
    if strict { Apart(s, shallow, tips, done, c); }
    SweepingVisit(s, strict, done, seen, out, c);
  }

  lemma {:induction false} SweepCovers(s: Store, shallow: set<string>, tips: seq<string>, strict: bool,
                                       universe: set<string>,
                                       done: set<string>, seen: set<string>, stack: seq<string>, out: seq<string>)
    requires Covering(s, shallow, tips, strict, universe, done, seen, stack, out) && Closed(Walk(s, shallow), universe)
    ensures forall x :: x in stack ==> x in universe
    ensures var all := Sweep(s, shallow, universe, seen, stack, out);
            forall id :: id in s || strict ==> (id in all <==> Kept(s, shallow, tips, id))
    decreases universe - seen, |stack|
  {
    hide Covering, Kept, Payload, Onward, Adding, Closed, Sweep;
    CoveringReached(s, shallow, tips, strict, universe, done, seen, stack, out);
    if stack == [] {
      SweepNothing(s, shallow, universe, seen, out);
      SweepingDone(s, shallow, tips, strict, universe, done, seen, out);
    } else {
      var rest, c := stack[..|stack| - 1], stack[|stack| - 1];
      assert stack == rest + [c] && c in stack;
      SweepStep(s, shallow, universe, seen, rest, c, out);
      if c in seen {
        CoveringSkip(s, shallow, tips, strict, universe, done, seen, rest, c, out);
        SweepCovers(s, shallow, tips, strict, universe, done + {c}, seen, rest, out);
      } else {
        CoveringVisit(s, shallow, tips, strict, universe, done, seen, rest, c, out);
        SeenGrows(universe, seen, c, Payload(s, c), out);
        var (sn, o) := Adding(seen + {c}, if c in s then out + [c] else out, Payload(s, c));
        SweepCovers(s, shallow, tips, strict, universe, done + {c}, sn, rest + Onward(s, shallow, c), o);
      }
    }
  }

  lemma SweepNothing(s: Store, shallow: set<string>, universe: set<string>, seen: set<string>, out: seq<string>)
    requires Closed(Walk(s, shallow), universe)
    ensures Sweep(s, shallow, universe, seen, [], out) == out
  {}

  lemma CoveringReached(s: Store, shallow: set<string>, tips: seq<string>, strict: bool, universe: set<string>,
                        done: set<string>, seen: set<string>, stack: seq<string>, out: seq<string>)
    requires Covering(s, shallow, tips, strict, universe, done, seen, stack, out)
    ensures Searching(Walk(s, shallow), tips, universe, done, stack) && Sweeping(s, strict, done, seen, out)
    ensures forall x :: x in stack ==> x in universe
  {
    hide Sweeping, Harmless, KindsApart, Walk;
  }

  lemma SearchReached(next: string -> seq<string>, tips: seq<string>, universe: set<string>, done: set<string>,
                      stack: seq<string>)
    requires Searching(next, tips, universe, done, stack)
    ensures forall x :: x in stack ==> x in universe && ReachedFrom(next, tips, x)
    ensures forall x :: x in done ==> ReachedFrom(next, tips, x)
  {
    hide Reaches;
  }

  lemma SweepingDone(s: Store, shallow: set<string>, tips: seq<string>, strict: bool, universe: set<string>,
                     done: set<string>, seen: set<string>, out: seq<string>)
    requires Searching(Walk(s, shallow), tips, universe, done, []) && Sweeping(s, strict, done, seen, out)
    ensures forall id :: id in s || strict ==> (id in out <==> Kept(s, shallow, tips, id))
  {
    hide Payload, Walk, Reaches;
    WorkDone(Walk(s, shallow), tips, done);
  }

  /** When ids met in both ways lead nowhere, every stored id that is reachable is
      put out; when no id is met in both ways, so is every tree or leaf that is not
      stored. */
  lemma WalkedExact(s: Store, shallow: set<string>, tips: seq<string>)
    requires Harmless(s, shallow, tips)
    ensures forall id :: id in s ==> (id in Walked(s, shallow, tips) <==> Kept(s, shallow, tips, id))
    ensures KindsApart(s, shallow, tips) ==> forall id :: id in Walked(s, shallow, tips) <==> Kept(s, shallow, tips, id)
  {
    hide Harmless, KindsApart, Kept, Sweep, Nameable, Searching, Closed;
    var universe := Nameable(s, tips);
    NameableBounds(s, shallow, tips);
    BoundsMean(Walk(s, shallow), tips, universe);
    SearchStart(Walk(s, shallow), tips, universe);
    CoveringStart(s, shallow, tips, false, universe);
    SweepCovers(s, shallow, tips, false, universe, {}, {}, tips, []);
    if KindsApart(s, shallow, tips) {
      CoveringStart(s, shallow, tips, true, universe);
      SweepCovers(s, shallow, tips, true, universe, {}, {}, tips, []);
    }
  }

  lemma CoveringStart(s: Store, shallow: set<string>, tips: seq<string>, strict: bool, universe: set<string>)
    requires Searching(Walk(s, shallow), tips, universe, {}, tips)
    requires Harmless(s, shallow, tips) && (strict ==> KindsApart(s, shallow, tips))
    ensures Covering(s, shallow, tips, strict, universe, {}, {}, tips, [])
  {
    hide Searching, Harmless, KindsApart;
  }

  /** Nothing is met in two ways, so nothing that leads somewhere is. */
  lemma ApartIsHarmless(s: Store, shallow: set<string>, tips: seq<string>)
    requires KindsApart(s, shallow, tips)
    ensures Harmless(s, shallow, tips)
  {
    hide Payload, ReachedFrom;
  }

  /** Where the walk loses history: a commit that names its parent as its tree as
      well. The parent counts as seen when it comes up as history, and what lies
      behind it is never reached. */
  lemma ParentAsTree(s: Store, k: string, p: string, q: string)
    requires k in s && p in s && q in s && k != p && q != p && q != k
    requires IsCommit(s, k) && s[k].commit.value.tree == p && s[k].commit.value.parents == [p]
    requires IsCommit(s, p) && s[p].commit.value.parents == [q]
    requires ReadManifest(s, p) == Some(EMPTY)
    ensures Kept(s, {}, [k], q) && Walked(s, {}, [k]) == [k, p]
  {
    hide Reaches, Nameable, Bounds, Closed, Sweep, Adding;
    var g := Walk(s, {});
    assert g(k) == [p] && g(p) == [q];
    ReachesSelf(g, k);
    ReachesStep(g, k, k, p);
    ReachesStep(g, k, p, q);
    assert k in [k] && ReachedFrom(g, [k], q);
    var universe := Nameable(s, [k]);
    NameableBounds(s, {}, [k]);
    BoundsMean(g, [k], universe);
    ClosedStep(g, universe, k, p);
    NothingInEmpty();
    assert Payload(s, k) == [p] by { hide ManifestIds; }
    AddingOne({k}, [k], p);
    SweepStep(s, {}, universe, {}, [], k, []);
    SweepStep(s, {}, universe, {k, p}, [], p, [k, p]);
    SweepNothing(s, {}, universe, {k, p}, [k, p]);
    assert [] + [k] == [k] && [] + [p] == [p] && {} + {k} == {k} && [k] + [p] == [k, p] && {k} + {p} == {k, p};
  }

  lemma ClosedStep(g: string -> seq<string>, universe: set<string>, a: string, b: string)
    requires Closed(g, universe) && a in universe && b in g(a)
    ensures b in universe
  {}

  lemma NothingInEmpty()
    ensures ManifestIds(EMPTY) == []
  {}

  lemma AddingOne(seen: set<string>, out: seq<string>, id: string)
    ensures Adding(seen, out, [id]) == (seen + {id}, if id in seen then out else out + [id])
  {
    assert [id][..0] == [];
  }

  // ---- a store that holds the whole closure ----

  ghost predicate Complete(hash: Content -> string, shallow: set<string>, s: Store, tip: string) {
    Injective(hash) && Addressed(hash, s) && forall id :: InClosure(hash, shallow, tip, id) ==> id in s
  }

  /** One step of the walk is one reference. */
  lemma OnwardRefers(hash: Content -> string, shallow: set<string>, s: Store, c: string, d: string)
    requires Injective(hash) && Addressed(hash, s) && d in Onward(s, shallow, c)
    ensures Node(History, d) in Ideal(hash, shallow)(Node(History, c))
  {
    hide Ideal;
    StoredIsIdeal(hash, shallow, s, Node(History, c));
    if s[c].tag.None? {
      var ps := s[c].commit.value.parents;
      var i :| 0 <= i < |ps| && ps[i] == d;
      assert Nodes(History, ps)[i] == Node(History, d);
    }
  }

  lemma CompleteStore(hash: Content -> string, shallow: set<string>, s: Store, tip: string)
    requires Complete(hash, shallow, s, tip)
    ensures Injective(hash) && Addressed(hash, s)
  {}

  lemma {:induction false} WalkIsReference(hash: Content -> string, shallow: set<string>, s: Store, p: seq<string>,
        i: nat)
    requires Injective(hash) && Addressed(hash, s) && IsWalk(Walk(s, shallow), p) && i < |p|
    ensures Reaches(Ideal(hash, shallow), Node(History, p[0]), Node(History, p[i]))
  {
    hide Reaches, Ideal, Onward;
    if i == 0 {
      ReachesSelf(Ideal(hash, shallow), Node(History, p[0]));
    } else {
      WalkIsReference(hash, shallow, s, p, i - 1);
      assert p[i - 1 + 1] in Walk(s, shallow)(p[i - 1]);
      OnwardRefers(hash, shallow, s, p[i - 1], p[i]);
      ReachesStep(Ideal(hash, shallow), Node(History, p[0]), Node(History, p[i - 1]), Node(History, p[i]));
    }
  }

  /** Whatever the walk meets, stored or not, belongs to the closure. */
  lemma WalkedRefers(hash: Content -> string, shallow: set<string>, s: Store, tip: string, c: string)
    requires Injective(hash) && Addressed(hash, s) && Reaches(Walk(s, shallow), tip, c)
    ensures Reaches(Ideal(hash, shallow), Node(History, tip), Node(History, c))
  {
    var p :| WalkBetween(Walk(s, shallow), p, tip, c);
    WalkIsReference(hash, shallow, s, p, |p| - 1);
  }

  lemma WalkedInClosure(hash: Content -> string, shallow: set<string>, s: Store, tip: string, c: string)
    requires Complete(hash, shallow, s, tip) && ReachedFrom(Walk(s, shallow), [tip], c)
    ensures Reaches(Ideal(hash, shallow), Node(History, tip), Node(History, c)) && c in s
  {
    hide Reaches, Ideal, Walk;
    WalkedRefers(hash, shallow, s, tip, c);
    assert InClosure(hash, shallow, tip, Node(History, c).id);
  }

  lemma TreeRefers(hash: Content -> string, shallow: set<string>, s: Store, tip: string, c: string)
    requires Injective(hash) && Addressed(hash, s) && IsCommit(s, c)
    requires Reaches(Ideal(hash, shallow), Node(History, tip), Node(History, c))
    ensures Reaches(Ideal(hash, shallow), Node(History, tip), Node(Tree, ReadCommit(s, c).value.tree))
  {
    hide Reaches, Ideal;
    var t := Node(Tree, ReadCommit(s, c).value.tree);
    StoredIsIdeal(hash, shallow, s, Node(History, c));
    assert Refers(History, s[c], c in shallow)[0] == t;
    ReachesStep(Ideal(hash, shallow), Node(History, tip), Node(History, c), t);
  }

  lemma LeafRefers(hash: Content -> string, shallow: set<string>, s: Store, tip: string, tree: string, id: string)
    requires Injective(hash) && Addressed(hash, s) && ReadManifest(s, tree).Some?
    requires id in ManifestIds(ReadManifest(s, tree).value)
    requires Reaches(Ideal(hash, shallow), Node(History, tip), Node(Tree, tree))
    ensures Reaches(Ideal(hash, shallow), Node(History, tip), Node(Leaf, id))
  {
    hide Reaches, Ideal, ManifestIds;
    var ids := ManifestIds(ReadManifest(s, tree).value);
    StoredIsIdeal(hash, shallow, s, Node(Tree, tree));
    var i :| 0 <= i < |ids| && ids[i] == id;
    assert Nodes(Leaf, ids)[i] == Node(Leaf, id);
    ReachesStep(Ideal(hash, shallow), Node(History, tip), Node(Tree, tree), Node(Leaf, id));
  }

  lemma TreeReached(hash: Content -> string, shallow: set<string>, s: Store, tip: string, c: string)
    requires Complete(hash, shallow, s, tip) && ReachedFrom(Walk(s, shallow), [tip], c) && IsCommit(s, c)
    ensures Reaches(Ideal(hash, shallow), Node(History, tip), Node(Tree, ReadCommit(s, c).value.tree))
    ensures ReadCommit(s, c).value.tree in s
  {
    hide Reaches, Walk, Ideal;
    WalkedInClosure(hash, shallow, s, tip, c);
    TreeRefers(hash, shallow, s, tip, c);
    assert InClosure(hash, shallow, tip, Node(Tree, ReadCommit(s, c).value.tree).id);
  }

  lemma PayloadInClosure(hash: Content -> string, shallow: set<string>, s: Store, tip: string, c: string, id: string)
    requires Complete(hash, shallow, s, tip) && ReachedFrom(Walk(s, shallow), [tip], c) && id in Payload(s, c)
    ensures InClosure(hash, shallow, tip, id)
  {
    hide Reaches, Walk, Ideal, ManifestIds;
    TreeReached(hash, shallow, s, tip, c);
    var tree := ReadCommit(s, c).value.tree;
    if id == tree {
      assert InClosure(hash, shallow, tip, Node(Tree, tree).id);
    } else {
      LeafRefers(hash, shallow, s, tip, tree, id);
      assert InClosure(hash, shallow, tip, Node(Leaf, id).id);
    }
  }

  /** The nodes the walk covers. */
  function Covered(s: Store, walked: set<string>): set<Node> {
    (set c | c in walked :: Node(History, c))
    + (set c | c in walked && IsCommit(s, c) :: Node(Tree, ReadCommit(s, c).value.tree))
    + (set c, id | c in walked && id in Payload(s, c) :: Node(Leaf, id))
  }

  lemma CoveredHistory(hash: Content -> string, shallow: set<string>, s: Store, walked: set<string>, c: string, y: Node)
    requires Injective(hash) && Addressed(hash, s) && c in walked && c in s
    requires forall d :: d in Onward(s, shallow, c) ==> d in walked
    requires y in Ideal(hash, shallow)(Node(History, c))
    ensures y in Covered(s, walked)
  {
    hide Ideal, Payload;
    StoredIsIdeal(hash, shallow, s, Node(History, c));
    if s[c].tag.None? && y !in Nodes(History, s[c].commit.value.parents) {
      assert y == Node(Tree, s[c].commit.value.tree);
      assert IsCommit(s, c);
    }
  }

  lemma CoveredTree(hash: Content -> string, shallow: set<string>, s: Store, walked: set<string>, c: string, y: Node)
    requires Injective(hash) && Addressed(hash, s) && c in walked && IsCommit(s, c) && ReadCommit(s, c).value.tree in s
    requires y in Ideal(hash, shallow)(Node(Tree, ReadCommit(s, c).value.tree))
    ensures y in Covered(s, walked)
  {
    hide Ideal, ManifestIds;
    StoredIsIdeal(hash, shallow, s, Node(Tree, ReadCommit(s, c).value.tree));
    assert y.id in Payload(s, c);
  }

  /** The walk has seen everything, and has every commit and tree of it. */
  ghost predicate Exhausted(s: Store, shallow: set<string>, tip: string, walked: set<string>) {
    && tip in walked
    && forall c :: c in walked ==>
         c in s && (forall d :: d in Onward(s, shallow, c) ==> d in walked) &&
             (IsCommit(s, c) ==> ReadCommit(s, c).value.tree in s)
  }

  /** An exhausted walk covers the closure of the tip. */
  lemma CoverHolds(hash: Content -> string, shallow: set<string>, s: Store, tip: string, walked: set<string>, n: Node)
    requires Injective(hash) && Addressed(hash, s) && Exhausted(s, shallow, tip, walked)
    requires Reaches(Ideal(hash, shallow), Node(History, tip), n)
    ensures n in Covered(s, walked)
  {
    hide Reaches, Ideal, Payload;
    var covered := Covered(s, walked);
    forall x, y | x in covered && y in Ideal(hash, shallow)(x) ensures y in covered {
      match x.role
      case History => CoveredHistory(hash, shallow, s, walked, x.id, y);
      case Tree =>
        var c :| c in walked && IsCommit(s, c) && ReadCommit(s, c).value.tree == x.id;
        CoveredTree(hash, shallow, s, walked, c, y);
      case Leaf => LeafRefersNothing(hash, shallow, x);
    }
    ClosedContains(Ideal(hash, shallow), covered, Node(History, tip), n);
  }

  lemma LeafRefersNothing(hash: Content -> string, shallow: set<string>, n: Node)
    requires n.role == Leaf
    ensures Ideal(hash, shallow)(n) == []
  {}

  /** What is covered was walked or is carried by what was walked. */
  lemma CoveredCarried(s: Store, walked: set<string>, n: Node)
    requires n in Covered(s, walked)
    ensures n.role == History ==> n.id in walked
    ensures n.role != History ==> Carried(s, walked, n.id)
  {
    hide ManifestIds;
    if n.role == Tree {
      var c :| c in walked && IsCommit(s, c) && ReadCommit(s, c).value.tree == n.id;
      assert Payload(s, c)[0] == n.id;
    }
  }

  lemma WalkedSet(s: Store, shallow: set<string>, tip: string) returns (walked: set<string>)
    ensures forall c :: c in walked <==> ReachedFrom(Walk(s, shallow), [tip], c)
    ensures tip in walked
  {
    hide Reaches;
    var next := Walk(s, shallow);
    NameableBounds(s, shallow, [tip]);
    var universe := Nameable(s, [tip]);
    forall c | ReachedFrom(next, [tip], c) ensures c in universe { ClosedContains(next, universe, tip, c); }
    walked := set c | c in universe && ReachedFrom(next, [tip], c);
    ReachesSelf(next, tip);
    assert tip in [tip];
  }

  lemma CompleteExhausted(hash: Content -> string, shallow: set<string>, s: Store, tip: string, walked: set<string>)
    requires Complete(hash, shallow, s, tip)
    requires forall c :: c in walked <==> ReachedFrom(Walk(s, shallow), [tip], c)
    ensures Exhausted(s, shallow, tip, walked)
  {
    hide Reaches, Complete, Onward;
    ReachesSelf(Walk(s, shallow), tip);
    assert tip in [tip];
    forall c | c in walked
      ensures c in s && (forall d :: d in Onward(s, shallow, c) ==> d in walked)
      ensures (IsCommit(s, c) ==> ReadCommit(s, c).value.tree in s)
    {
      WalkedInClosure(hash, shallow, s, tip, c);
      forall d | d in Onward(s, shallow, c) ensures d in walked { ReachesStep(Walk(s, shallow), tip, c, d); }
      if IsCommit(s, c) { TreeReached(hash, shallow, s, tip, c); }
    }
  }

  /** From a complete local store the walk lists exactly the closure of the tip. */
  lemma ReachableIsClosure(hash: Content -> string, shallow: set<string>, s: Store, tip: string, id: string)
    requires Complete(hash, shallow, s, tip)
    ensures Kept(s, shallow, [tip], id) <==> InClosure(hash, shallow, tip, id)
  {
    hide Reaches, Walk, Ideal, Payload, Exhausted, Complete;
    if Kept(s, shallow, [tip], id) {
      if c :| ReachedFrom(Walk(s, shallow), [tip], c) && id in Payload(s, c) {
        PayloadInClosure(hash, shallow, s, tip, c, id);
      } else {
        WalkedInClosure(hash, shallow, s, tip, id);
        assert InClosure(hash, shallow, tip, Node(History, id).id);
      }
    }
    if n: Node :| n.id == id && Reaches(Ideal(hash, shallow), Node(History, tip), n) {
      var walked := WalkedSet(s, shallow, tip);
      CompleteExhausted(hash, shallow, s, tip, walked);
      CompleteStore(hash, shallow, s, tip);
      CoverHolds(hash, shallow, s, tip, walked, n);
      CoveredCarried(s, walked, n);
      if n.role == History { WalkedInClosure(hash, shallow, s, tip, id); }
    }
  }
}
