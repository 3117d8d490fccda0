// Breadth-first search with a first-in first-out queue of nodes and their depths.
module Levels {
  import opened Graphs

  ghost predicate ReachesIn<T(!new)>(g: T -> seq<T>, a: T, b: T, k: nat) {
    exists p :: WalkBetween(g, p, a, b) && |p| == k + 1
  }

  /** `b` is `k` steps from `a`, and no fewer. */
  ghost predicate Distance<T(!new)>(g: T -> seq<T>, a: T, b: T, k: nat) {
    ReachesIn(g, a, b, k) && forall j :: 0 <= j < k ==> !ReachesIn(g, a, b, j)
  }

  lemma DistanceReaches<T(!new)>(g: T -> seq<T>, a: T, b: T, k: nat)
    requires Distance(g, a, b, k)
    ensures ReachesIn(g, a, b, k)
  {}

  lemma DistanceUnique<T(!new)>(g: T -> seq<T>, a: T, b: T, j: nat, k: nat)
    requires Distance(g, a, b, j) && Distance(g, a, b, k)
    ensures j == k
  {
    hide ReachesIn;
  }

  lemma ReachesInStep<T(!new)>(g: T -> seq<T>, a: T, b: T, c: T, k: nat)
    requires ReachesIn(g, a, b, k) && c in g(b)
    ensures ReachesIn(g, a, c, k + 1)
  {
    var p :| WalkBetween(g, p, a, b) && |p| == k + 1;
    assert WalkBetween(g, p + [c], a, c);
  }

  /** Reached by depth `d`, or waiting to be. */
  predicate Pending<T(==)>(dist: map<T, nat>, queue: seq<(T, nat)>, x: T, d: nat) {
    (x in dist && dist[x] <= d) || exists i :: 0 <= i < |queue| && queue[i].0 == x && queue[i].1 <= d
  }

  ghost predicate Levelled<T(!new)>(g: T -> seq<T>, tip: T, depth: nat, queue: seq<(T, nat)>) {
    && (forall i :: 0 <= i < |queue| ==> 1 <= queue[i].1 <= depth && ReachesIn(g, tip, queue[i].0, queue[i].1 - 1))
    && (forall i, j :: 0 <= i < j < |queue| ==> queue[i].1 <= queue[j].1)
    && (forall i :: 0 <= i < |queue| ==> queue[i].1 <= queue[0].1 + 1)
  }

  ghost predicate Settled<T(!new)>(g: T -> seq<T>, tip: T, depth: nat, dist: map<T, nat>) {
    forall x :: x in dist ==> 1 <= dist[x] <= depth && Distance(g, tip, x, dist[x] - 1)
  }

  /** The state of the search: depths recorded in `dist` are final. */
  ghost predicate Bfs<T(!new)>(g: T -> seq<T>, tip: T, depth: nat, dist: map<T, nat>, queue: seq<(T, nat)>) {
    && Levelled(g, tip, depth, queue)
    && Settled(g, tip, depth, dist)
    && (queue != [] ==> forall x :: x in dist ==> dist[x] <= queue[0].1)
    && (forall x, y :: x in dist && dist[x] < depth && y in g(x) ==> Pending(dist, queue, y, dist[x] + 1))
    && Pending(dist, queue, tip, 1)
  }

  lemma BfsStart<T(!new)>(g: T -> seq<T>, tip: T, depth: nat)
    requires depth >= 1
    ensures Bfs(g, tip, depth, map[], [(tip, 1)])
  {
    assert WalkBetween(g, [tip], tip, tip);
    assert ReachesIn(g, tip, tip, 0);
  }

  /** Along any walk: the node is settled in time, or something no deeper waits. */
  lemma {:induction false} Frontier<T(!new)>(g: T -> seq<T>, tip: T, depth: nat, dist: map<T, nat>,
        queue: seq<(T, nat)>, p: seq<T>, j: nat)
    requires Bfs(g, tip, depth, dist, queue) && IsWalk(g, p) && p[0] == tip && j < |p| && j < depth
    ensures (p[j] in dist && dist[p[j]] <= j + 1) || exists i :: 0 <= i < |queue| && queue[i].1 <= j + 1
  {
    hide Levelled, Settled;
    if j > 0 {
      Frontier(g, tip, depth, dist, queue, p, j - 1);
      if p[j - 1] in dist && dist[p[j - 1]] <= j {
        assert p[j - 1 + 1] in g(p[j - 1]);
        assert Pending(dist, queue, p[j], dist[p[j - 1]] + 1);
      }
    }
  }

  /** The first visit of a node is at its distance. */
  lemma FirstVisit<T(!new)>(g: T -> seq<T>, tip: T, depth: nat, dist: map<T, nat>, queue: seq<(T, nat)>)
    requires Bfs(g, tip, depth, dist, queue) && queue != [] && queue[0].0 !in dist
    ensures Distance(g, tip, queue[0].0, queue[0].1 - 1)
  {
    var (h, d) := queue[0];
    assert ReachesIn(g, tip, h, d - 1);
    forall k | 0 <= k < d - 1 ensures !ReachesIn(g, tip, h, k) {
      if p :| WalkBetween(g, p, tip, h) && |p| == k + 1 {
        Frontier(g, tip, depth, dist, queue, p, k);
      }
    }
  }

  function Enqueued<T>(ps: seq<T>, d: nat): seq<(T, nat)> {
    seq(|ps|, i requires 0 <= i < |ps| => (ps[i], d))
  }

  lemma PendingPop<T>(dist: map<T, nat>, queue: seq<(T, nat)>, wider: map<T, nat>, more: seq<(T, nat)>, x: T, d: nat)
    requires queue != [] && Pending(dist, queue, x, d)
    requires forall y :: y in dist ==> y in wider && wider[y] == dist[y]
    requires queue[0].0 in wider && wider[queue[0].0] <= queue[0].1
    requires queue[1..] <= more
    ensures Pending(wider, more, x, d)
  {
    if !(x in dist && dist[x] <= d) {
      var i :| 0 <= i < |queue| && queue[i].0 == x && queue[i].1 <= d;
      if i > 0 { assert more[i - 1] == queue[1..][i - 1] == queue[i]; }
    }
  }

  lemma BfsSkip<T(!new)>(g: T -> seq<T>, tip: T, depth: nat, dist: map<T, nat>, queue: seq<(T, nat)>)
    requires Bfs(g, tip, depth, dist, queue) && queue != [] && queue[0].0 in dist
    ensures Bfs(g, tip, depth, dist, queue[1..])
  {
    hide Settled, ReachesIn;
    var rest := queue[1..];
    assert Levelled(g, tip, depth, rest);
    forall x, y | x in dist && dist[x] < depth && y in g(x) ensures Pending(dist, rest, y, dist[x] + 1) {
      PendingPop(dist, queue, dist, rest, y, dist[x] + 1);
    }
    PendingPop(dist, queue, dist, rest, tip, 1);
  }

  lemma QueueRest<T(!new)>(g: T -> seq<T>, tip: T, depth: nat, queue: seq<(T, nat)>)
    requires Levelled(g, tip, depth, queue) && queue != []
    ensures Levelled(g, tip, depth, queue[1..])
  {
    hide ReachesIn;
  }

  lemma EnqueuedReached<T(!new)>(g: T -> seq<T>, tip: T, h: T, d: nat, i: nat)
    requires d >= 1 && ReachesIn(g, tip, h, d - 1) && i < |g(h)|
    ensures Enqueued(g(h), d + 1)[i].1 == d + 1 && ReachesIn(g, tip, Enqueued(g(h), d + 1)[i].0, d)
  {
    hide ReachesIn;
    ReachesInStep(g, tip, h, g(h)[i], d - 1);
  }

  lemma QueueMore<T(!new)>(g: T -> seq<T>, tip: T, depth: nat, queue: seq<(T, nat)>)
    requires Levelled(g, tip, depth, queue) && queue != [] && queue[0].1 < depth
    ensures Levelled(g, tip, depth, queue[1..] + Enqueued(g(queue[0].0), queue[0].1 + 1))
  {
    hide ReachesIn;
    var (h, d) := queue[0];
    var rest, added := queue[1..], Enqueued(g(h), d + 1);
    forall i | 0 <= i < |added|
      ensures added[i].1 == d + 1 && ReachesIn(g, tip, added[i].0, d)
    {
      EnqueuedReached(g, tip, h, d, i);
    }
    forall i | 0 <= i < |rest| ensures rest[i] == queue[i + 1] {}
    hide Enqueued;
    LevelledJoin(g, tip, depth, rest, added, d);
  }

  lemma LevelledJoin<T(!new)>(g: T -> seq<T>, tip: T, depth: nat, rest: seq<(T, nat)>, added: seq<(T, nat)>, d: nat)
    requires 1 <= d < depth && Levelled(g, tip, depth, rest)
    requires forall i :: 0 <= i < |rest| ==> d <= rest[i].1 <= d + 1
    requires forall i :: 0 <= i < |added| ==> added[i].1 == d + 1 && ReachesIn(g, tip, added[i].0, d)
    ensures Levelled(g, tip, depth, rest + added)
  {
    hide ReachesIn;
    var more := rest + added;
    forall i | 0 <= i < |more| ensures more[i] == if i < |rest| then rest[i] else added[i - |rest|] {}
  }

  /** The queue after visiting its front: the successors wait, unless the front is
      on the last level. */
  function Advance<T>(g: T -> seq<T>, depth: nat, queue: seq<(T, nat)>): seq<(T, nat)>
    requires queue != []
  {
    if queue[0].1 < depth then queue[1..] + Enqueued(g(queue[0].0), queue[0].1 + 1) else queue[1..]
  }

  lemma VisitPending<T(!new)>(g: T -> seq<T>, depth: nat, dist: map<T, nat>, queue: seq<(T, nat)>, x: T, y: T)
    requires queue != [] && queue[0].0 !in dist
    requires x in dist && dist[x] < depth ==> Pending(dist, queue, y, dist[x] + 1)
    requires x in dist || x == queue[0].0
    requires y in g(x)
    ensures var wider := dist[queue[0].0 := queue[0].1];
            wider[x] < depth ==> Pending(wider, Advance(g, depth, queue), y, wider[x] + 1)
  {
    var (h, d) := queue[0];
    var wider := dist[h := d];
    var more := Advance(g, depth, queue);
    if x == h {
      if d < depth {
        var i :| 0 <= i < |g(h)| && g(h)[i] == y;
        assert more[|queue| - 1 + i] == (y, d + 1);
      }
    } else if dist[x] < depth {
      PendingPop(dist, queue, wider, more, y, dist[x] + 1);
    }
  }

  lemma VisitSettled<T(!new)>(g: T -> seq<T>, tip: T, depth: nat, dist: map<T, nat>, h: T, d: nat)
    requires Settled(g, tip, depth, dist) && 1 <= d <= depth && Distance(g, tip, h, d - 1)
    ensures Settled(g, tip, depth, dist[h := d])
  {
    hide Distance;
  }

  lemma TipPending<T(!new)>(g: T -> seq<T>, depth: nat, dist: map<T, nat>, queue: seq<(T, nat)>, tip: T)
    requires Pending(dist, queue, tip, 1) && queue != [] && queue[0].0 !in dist
    ensures Pending(dist[queue[0].0 := queue[0].1], Advance(g, depth, queue), tip, 1)
  {
    hide Pending, Enqueued;
    assert queue[1..] <= Advance(g, depth, queue);
    PendingPop(dist, queue, dist[queue[0].0 := queue[0].1], Advance(g, depth, queue), tip, 1);
  }

  lemma VisitPendings<T(!new)>(g: T -> seq<T>, tip: T, depth: nat, dist: map<T, nat>, queue: seq<(T, nat)>)
    requires Bfs(g, tip, depth, dist, queue) && queue != [] && queue[0].0 !in dist
    ensures var wider, more := dist[queue[0].0 := queue[0].1], Advance(g, depth, queue);
            && (forall x, y :: x in wider && wider[x] < depth && y in g(x) ==> Pending(wider, more, y, wider[x] + 1))
            && Pending(wider, more, tip, 1)
  {
    hide Pending, Levelled, Settled, Advance;
    TipPending(g, depth, dist, queue, tip);
    var wider, more := dist[queue[0].0 := queue[0].1], Advance(g, depth, queue);
    forall x, y | x in wider && wider[x] < depth && y in g(x) ensures Pending(wider, more, y, wider[x] + 1) {
      VisitPending(g, depth, dist, queue, x, y);
    }
  }

  lemma VisitQueue<T(!new)>(g: T -> seq<T>, tip: T, depth: nat, dist: map<T, nat>, queue: seq<(T, nat)>)
    requires Bfs(g, tip, depth, dist, queue) && queue != [] && queue[0].0 !in dist
    ensures Settled(g, tip, depth, dist[queue[0].0 := queue[0].1])
    ensures Levelled(g, tip, depth, Advance(g, depth, queue))
    ensures Advance(g, depth, queue) != [] ==> queue[0].1 <= Advance(g, depth, queue)[0].1
  {
    FirstVisit(g, tip, depth, dist, queue);
    if queue[0].1 < depth { QueueMore(g, tip, depth, queue); }
    QueueRest(g, tip, depth, queue);
    QueueFront(g, tip, depth, queue, Advance(g, depth, queue));
    hide ReachesIn, Distance, Enqueued, Pending, Levelled, Settled;
    VisitSettled(g, tip, depth, dist, queue[0].0, queue[0].1);
  }

  /** Visiting a new node: its depth is final. */
  lemma BfsVisit<T(!new)>(g: T -> seq<T>, tip: T, depth: nat, dist: map<T, nat>, queue: seq<(T, nat)>)
    requires Bfs(g, tip, depth, dist, queue) && queue != [] && queue[0].0 !in dist
    ensures Bfs(g, tip, depth, dist[queue[0].0 := queue[0].1], Advance(g, depth, queue))
  {
    hide Pending, Levelled, Settled, Advance;
    VisitQueue(g, tip, depth, dist, queue);
    VisitPendings(g, tip, depth, dist, queue);
  }

  lemma QueueFront<T(!new)>(g: T -> seq<T>, tip: T, depth: nat, queue: seq<(T, nat)>, more: seq<(T, nat)>)
    requires Levelled(g, tip, depth, queue) && queue != []
    requires more == queue[1..] || (queue[0].1 < depth && more == queue[1..] + Enqueued(g(queue[0].0), queue[0].1 + 1))
    ensures more != [] ==> queue[0].1 <= more[0].1
    ensures 1 <= queue[0].1 <= depth
  {
    hide ReachesIn;
    if |queue| > 1 { assert more[0] == queue[1]; }
  }

  /** When nothing waits, exactly the nodes at distance below `depth` are recorded. */
  lemma BfsDone<T(!new)>(g: T -> seq<T>, tip: T, depth: nat, dist: map<T, nat>, x: T)
    requires Bfs(g, tip, depth, dist, [])
    ensures x in dist ==> 1 <= dist[x] <= depth && Distance(g, tip, x, dist[x] - 1)
    ensures x in dist <==> exists k :: 0 <= k < depth && ReachesIn(g, tip, x, k)
  {
    if x in dist { assert ReachesIn(g, tip, x, dist[x] - 1); }
    if k :| 0 <= k < depth && ReachesIn(g, tip, x, k) {
      var p :| WalkBetween(g, p, tip, x) && |p| == k + 1;
      Frontier(g, tip, depth, dist, [], p, k);
    }
  }
}
