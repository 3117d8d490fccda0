// Reachability along a successor function, and why a worklist computes it.
module Graphs {

  /** A walk: each element is a successor of the one before it. */
  ghost predicate IsWalk<T>(next: T -> seq<T>, p: seq<T>) {
    p != [] && forall i :: 0 <= i < |p| - 1 ==> p[i + 1] in next(p[i])
  }

  ghost predicate WalkBetween<T>(next: T -> seq<T>, p: seq<T>, a: T, b: T) {
    IsWalk(next, p) && p[0] == a && p[|p| - 1] == b
  }

  ghost predicate Reaches<T(!new)>(next: T -> seq<T>, a: T, b: T) {
    exists p :: WalkBetween(next, p, a, b)
  }

  lemma ReachesSelf<T(!new)>(next: T -> seq<T>, a: T)
    ensures Reaches(next, a, a)
  {
    assert WalkBetween(next, [a], a, a);
  }

  lemma ReachesStep<T(!new)>(next: T -> seq<T>, a: T, b: T, c: T)
    requires Reaches(next, a, b) && c in next(b)
    ensures Reaches(next, a, c)
  {
    var p :| WalkBetween(next, p, a, b);
    assert WalkBetween(next, p + [c], a, c);
  }

  lemma ReachesTrans<T(!new)>(next: T -> seq<T>, a: T, b: T, c: T)
    requires Reaches(next, a, b) && Reaches(next, b, c)
    ensures Reaches(next, a, c)
  {
    var p :| WalkBetween(next, p, a, b);
    var q :| WalkBetween(next, q, b, c);
    var r := p + q[1..];
    forall i | 0 <= i < |r| - 1 ensures r[i + 1] in next(r[i]) {
      if i >= |p| - 1 { assert r[i] == q[i - (|p| - 1)] && r[i + 1] == q[i + 1 - (|p| - 1)]; }
    }
    assert WalkBetween(next, r, a, c);
  }

  /** A proper walk leaves through a successor of its start. */
  lemma ReachesFirst<T(!new)>(next: T -> seq<T>, a: T, b: T)
    requires Reaches(next, a, b) && a != b
    ensures exists c :: c in next(a) && Reaches(next, c, b)
  {
    var p :| WalkBetween(next, p, a, b);
    assert p[1] in next(p[0]);
    assert WalkBetween(next, p[1..], p[1], b);
  }

  ghost predicate Closed<T>(next: T -> seq<T>, s: set<T>) {
    forall x, y :: x in s && y in next(x) ==> y in s
  }

  /** A closed set contains whatever its members reach. */
  lemma ClosedContains<T(!new)>(next: T -> seq<T>, s: set<T>, a: T, b: T)
    requires Closed(next, s) && a in s && Reaches(next, a, b)
    ensures b in s
  {
    var p :| WalkBetween(next, p, a, b);
    WalkStaysIn(next, s, p, |p| - 1);
  }

  lemma {:induction false} WalkStaysIn<T>(next: T -> seq<T>, s: set<T>, p: seq<T>, i: nat)
    requires Closed(next, s) && IsWalk(next, p) && p[0] in s && i < |p|
    ensures p[i] in s
  {
    if i > 0 {
      WalkStaysIn(next, s, p, i - 1);
      assert p[i - 1 + 1] in next(p[i - 1]);
    }
  }

  ghost predicate ReachedFrom<T(!new)>(next: T -> seq<T>, roots: seq<T>, x: T) {
    exists r :: r in roots && Reaches(next, r, x)
  }

  /** What holds whenever a worklist looks at its stack: everything seen or waiting
      is reachable, and what is seen has its successors seen or waiting. */
  ghost predicate Working<T(!new)>(next: T -> seq<T>, roots: seq<T>, seen: set<T>, stack: seq<T>) {
    && (forall x :: x in seen || x in stack ==> ReachedFrom(next, roots, x))
    && (forall x, y :: x in seen && y in next(x) ==> y in seen || y in stack)
    && (forall r :: r in roots ==> r in seen || r in stack)
  }

  lemma WorkStart<T(!new)>(next: T -> seq<T>, roots: seq<T>)
    ensures Working(next, roots, {}, roots)
  {
    forall x | x in roots ensures ReachedFrom(next, roots, x) { ReachesSelf(next, x); }
  }

  /** Popping an element that was already seen. */
  lemma WorkSkip<T(!new)>(next: T -> seq<T>, roots: seq<T>, seen: set<T>, stack: seq<T>, x: T, rest: seq<T>)
    requires Working(next, roots, seen, stack) && x in seen
    requires forall y :: y in stack ==> y == x || y in rest
    requires forall y :: y in rest ==> y in stack
    ensures Working(next, roots, seen, rest)
  {}

  /** Popping a new element, marking it and adding its successors. */
  lemma WorkVisit<T(!new)>(next: T -> seq<T>, roots: seq<T>, seen: set<T>, stack: seq<T>, x: T, rest: seq<T>,
                           more: seq<T>)
    requires Working(next, roots, seen, stack) && x in stack
    requires forall y :: y in stack ==> y == x || y in rest
    requires forall y :: y in rest ==> y in stack
    requires forall y :: y in more <==> y in rest || y in next(x)
    ensures Working(next, roots, seen + {x}, more)
  {
    var r :| r in roots && Reaches(next, r, x);
    forall y | y in next(x) ensures ReachedFrom(next, roots, y) { ReachesStep(next, r, x, y); }
    forall y | y in rest ensures ReachedFrom(next, roots, y) { assert y in stack; }
  }

  lemma WorkDone<T(!new)>(next: T -> seq<T>, roots: seq<T>, seen: set<T>)
    requires Working(next, roots, seen, [])
    ensures Closed(next, seen)
    ensures forall x :: x in seen <==> ReachedFrom(next, roots, x)
  {
    forall x | ReachedFrom(next, roots, x) ensures x in seen {
      var r :| r in roots && Reaches(next, r, x);
      ClosedContains(next, seen, r, x);
    }
  }

  /** A finite closed set that holds the roots bounds the worklist. */
  ghost predicate Bounds<T>(next: T -> seq<T>, roots: seq<T>, universe: set<T>) {
    Closed(next, universe) && forall r :: r in roots ==> r in universe
  }

  lemma SmallerLeft<T>(universe: set<T>, seen: set<T>, x: T)
    requires x in universe && x !in seen
    ensures |universe - (seen + {x})| < |universe - seen|
  {
    assert universe - seen == (universe - (seen + {x})) + {x};
  }

  // ---- a depth-first worklist over a finite graph ----

  /** The state of a worklist that only ever names members of `universe`. */
  ghost predicate Searching<T(!new)>(next: T -> seq<T>, roots: seq<T>, universe: set<T>, seen: set<T>, stack: seq<T>) {
    && Bounds(next, roots, universe)
    && Working(next, roots, seen, stack)
    && seen <= universe
    && forall x :: x in stack ==> x in universe
  }

  lemma SearchStart<T(!new)>(next: T -> seq<T>, roots: seq<T>, universe: set<T>)
    requires Bounds(next, roots, universe)
    ensures Searching(next, roots, universe, {}, roots)
  {
    WorkStart(next, roots);
  }

  /** Popping the last element: skipped when seen, else replaced by its successors. */
  lemma SearchStep<T(!new)>(next: T -> seq<T>, roots: seq<T>, universe: set<T>, seen: set<T>, rest: seq<T>, x: T)
    requires Searching(next, roots, universe, seen, rest + [x])
    ensures x in seen ==> Searching(next, roots, universe, seen, rest)
    ensures x !in seen ==> Searching(next, roots, universe, seen + {x}, rest + next(x))
    ensures x !in seen ==> |universe - (seen + {x})| < |universe - seen|
  {
    var stack := rest + [x];
    assert x in stack && forall y :: y in stack <==> y in rest || y == x;
    if x in seen {
      WorkSkip(next, roots, seen, stack, x, rest);
    } else {
      assert forall y :: y in rest + next(x) <==> y in rest || y in next(x);
      WorkVisit(next, roots, seen, stack, x, rest, rest + next(x));
      SmallerLeft(universe, seen, x);
    }
  }

  lemma SearchDone<T(!new)>(next: T -> seq<T>, root: T, universe: set<T>, seen: set<T>)
    requires Searching(next, [root], universe, seen, [])
    ensures forall x :: x in seen <==> Reaches(next, root, x)
  {
    WorkDone(next, [root], seen);
    assert forall x :: ReachedFrom(next, [root], x) <==> Reaches(next, root, x);
  }
}
