// Binary search over history (crates/repo/src/bisect.rs).
module Bisect {
  import opened Collections
  import opened Objects
  import opened Graphs
  import opened History

  datatype Marks = Marks(bad: Option<string>, goods: seq<string>, skips: seq<string>)

  datatype State = NeedMarks | Found(firstBad: string) | Step(next: string, remaining: nat)

  /** Whether the walk from `c` meets only commits it can read or is cut off at. */
  ghost predicate Whole(s: Store, shallow: set<string>, c: string) {
    forall x :: Reaches(Parents(s, shallow), c, x) ==> ParentsOf(s, shallow, x).Ok?
  }

  /** Reachable from the bad commit and exonerated by no good one. */
  ghost predicate Suspect(g: string -> seq<string>, m: Marks, c: string) {
    m.bad.Some? && Reaches(g, m.bad.value, c) && !ReachedFrom(g, m.goods, c)
  }

  ghost predicate AreSuspects(g: string -> seq<string>, m: Marks, suspects: set<string>) {
    forall c :: c in suspects <==> Suspect(g, m, c)
  }

  /** What may be asked about next. */
  function Candidates(m: Marks, suspects: set<string>): set<string> {
    set c | c in suspects && Some(c) != m.bad && c !in m.skips
  }

  /** The suspects among the ancestors of `c`. */
  ghost function Older(g: string -> seq<string>, suspects: set<string>, c: string): set<string> {
    set a | a in suspects && Reaches(g, c, a)
  }

  function Min(a: int, b: int): int {
    if a < b then a else b
  }

  /** How evenly asking about `c` splits the suspects. */
  ghost function Score(g: string -> seq<string>, suspects: set<string>, c: string): int {
    Min(|Older(g, suspects, c)|, |suspects| - |Older(g, suspects, c)|)
  }

  /** The most even split; among equals the least id. */
  ghost predicate Best(g: string -> seq<string>, suspects: set<string>, candidates: set<string>, next: string) {
    && next in candidates
    && forall c :: c in candidates ==>
         Score(g, suspects, c) <= Score(g, suspects, next) &&
             (Score(g, suspects, c) == Score(g, suspects, next) ==> Below(next, c))
  }

  /** What `compute` answers for marks with the given suspects. */
  ghost predicate Answers(g: string -> seq<string>, m: Marks, suspects: set<string>, state: State) {
    if m.bad.None? || m.goods == [] then state == NeedMarks
    else if Candidates(m, suspects) == {} then state == Found(m.bad.value)
    else
      && state.Step? && Best(g, suspects, Candidates(m, suspects), state.next)
      && state.remaining == |Candidates(m, suspects)|
  }

  class Session {
    const repo: Repository
    var marks: Marks

    constructor (repo: Repository)
      ensures this.repo == repo && marks == Marks(None, [], [])
    {
      this.repo, marks := repo, Marks(None, [], []);
    }

    /** A later bad mark replaces the earlier one. */
    method SetBad(c: string)
      modifies this
      ensures marks == old(marks).(bad := Some(c))
    {
      marks := marks.(bad := Some(c));
    }

    method AddGood(c: string)
      modifies this
      ensures marks == old(marks).(goods := Noted(old(marks.goods), c))
    {
      if c !in marks.goods {
        marks := marks.(goods := marks.goods + [c]);
      }
    }

    method AddSkip(c: string)
      modifies this
      ensures marks == old(marks).(skips := Noted(old(marks.skips), c))
    {
      if c !in marks.skips {
        marks := marks.(skips := marks.skips + [c]);
      }
    }

    /** Like the merge's ancestor walk, but an unreadable commit is an error. */
    method AncestorsIncl(start: string) returns (r: Result<set<string>>)
      ensures r.Ok? <==> Whole(repo.objects, repo.shallow, start)
      ensures r.Ok? ==> forall x :: x in r.value <==> Reaches(repo.Graph(), start, x)
    {
      hide Searching, Reaches, Known, Parents, Reaches;
      var g := repo.Graph();
      ghost var universe := Known(repo.objects) + {start};
      KnownBounds(repo.objects, repo.shallow, start);
      SearchStart(g, [start], universe);
      var seen: set<string> := {};
      var stack := [start];
      while stack != []
        invariant Searching(g, [start], universe, seen, stack)
        invariant forall x :: x in seen ==> ParentsOf(repo.objects, repo.shallow, x).Ok?
        decreases |universe - seen|, |stack|
      {
        var rest, c := stack[..|stack| - 1], stack[|stack| - 1];
        assert stack == rest + [c];
        SearchStep(g, [start], universe, seen, rest, c);
        if c in seen {
          stack := rest;
        } else {
          var parents := ParentsOf(repo.objects, repo.shallow, c);
          if parents.Err? {
            SearchReached(g, start, universe, seen, stack, c);
            return Err;
          }
          seen := seen + {c};
          GraphParents(repo.objects, repo.shallow, c);
          stack := rest + parents.value;
        }
      }
      SearchDone(g, start, universe, seen);
      return Ok(seen);
    }

    /** Where the session stands. */
    method Compute() returns (r: Result<State>, ghost suspects: set<string>)
      ensures r.Err? <==> marks.bad.Some? && marks.goods != [] &&
                          !(Whole(repo.objects, repo.shallow, marks.bad.value) &&
                            forall good :: good in marks.goods ==> Whole(repo.objects, repo.shallow, good))
      ensures r.Ok? && marks.bad.Some? && marks.goods != [] ==> AreSuspects(repo.Graph(), marks, suspects)
      ensures r.Ok? ==> Answers(repo.Graph(), marks, suspects, r.value)
    {
      hide Reaches, Parents, Whole, Score;
      suspects := {};
      if marks.bad.None? || marks.goods == [] {
        return Ok(NeedMarks), suspects;
      }
      var g := repo.Graph();
      var bad := marks.bad.value;
      var reached := AncestorsIncl(bad);
      if reached.Err? {
        return Err, suspects;
      }
      var left := reached.value;
      for i := 0 to |marks.goods|
        invariant forall c :: c in left <==> Reaches(g, bad, c) && !ReachedFrom(g, marks.goods[..i], c)
        invariant forall good :: good in marks.goods[..i] ==> Whole(repo.objects, repo.shallow, good)
      {
        var exonerated := AncestorsIncl(marks.goods[i]);
        if exonerated.Err? {
          return Err, suspects;
        }
        left := left - exonerated.value;
        assert marks.goods[..i + 1] == marks.goods[..i] + [marks.goods[i]];
      }
      assert marks.goods[..|marks.goods|] == marks.goods;
      suspects := left;
      var candidates := Candidates(marks, left);
      if candidates == {} {
        return Ok(Found(bad)), suspects;
      }
      var next := PickBest(left, candidates, bad);
      r := Ok(Step(next, |candidates|));
    }

    /** Scores the candidates in id order, keeping the first best. */
    method PickBest(suspects: set<string>, candidates: set<string>, ghost bad: string) returns (next: string)
      requires candidates != {} && candidates <= suspects
      requires Whole(repo.objects, repo.shallow, bad)
      requires forall c :: c in suspects ==> Reaches(repo.Graph(), bad, c)
      ensures Best(repo.Graph(), suspects, candidates, next)
    {
      hide Reaches, Parents, Sorted, Least, Distinct;
      var g := repo.Graph();
      var order := Sorted(candidates);
      var best: Option<(string, int)> := None;
      for i := 0 to |order|
        invariant i > 0 ==> best.Some?
        invariant best.Some? ==> Leading(g, suspects, order[..i], best.value.0, best.value.1)
      {
        WholeBelow(repo.objects, repo.shallow, bad, order[i]);
        var anc := AncestorsIncl(order[i]);
        var kept := set a | a in anc.value && a in suspects;
        assert kept == Older(g, suspects, order[i]);
        var score := Min(|kept|, |suspects| - |kept|);
        LeadingStep(g, suspects, order, i, best);
        if best.None? || score > best.value.1 {
          best := Some((order[i], score));
        }
      }
      assert order[..|order|] == order;
      assert forall c :: c in candidates ==> c in order;
      next := best.value.0;
    }
  }

  function Noted(marks: seq<string>, c: string): seq<string> {
    if c in marks then marks else marks + [c]
  }

  /** `c` is the first with the highest score so far. */
  ghost predicate Leading(g: string -> seq<string>, suspects: set<string>, order: seq<string>, c: string, score: int) {
    && c in order && score == Score(g, suspects, c)
    && forall x :: x in order ==> Score(g, suspects, x) <= score && (Score(g, suspects, x) == score ==> Below(c, x))
  }

  lemma LeadingStep(g: string -> seq<string>, suspects: set<string>, order: seq<string>, i: nat,
                    best: Option<(string, int)>)
    requires i < |order| && Ascending(order)
    requires best.Some? ==> Leading(g, suspects, order[..i], best.value.0, best.value.1)
    requires i > 0 ==> best.Some?
    ensures best.None? || Score(g, suspects, order[i]) > best.value.1 ==>
              Leading(g, suspects, order[..i + 1], order[i], Score(g, suspects, order[i]))
    ensures best.Some? && Score(g, suspects, order[i]) <= best.value.1 ==>
              Leading(g, suspects, order[..i + 1], best.value.0, best.value.1)
  {
    hide Score;
    assert order[..i + 1] == order[..i] + [order[i]];
    BelowReflexive(order[i]);
    if best.Some? {
      var k :| 0 <= k < i && order[k] == best.value.0;
      assert Below(order[k], order[i]);
    }
  }

  lemma GraphParents(s: Store, shallow: set<string>, c: string)
    requires ParentsOf(s, shallow, c).Ok?
    ensures Parents(s, shallow)(c) == ParentsOf(s, shallow, c).value
  {}

  lemma SearchReached(g: string -> seq<string>, start: string, universe: set<string>, seen: set<string>,
                      stack: seq<string>, c: string)
    requires Searching(g, [start], universe, seen, stack) && c in stack
    ensures Reaches(g, start, c)
  {
    assert ReachedFrom(g, [start], c);
  }

  lemma WholeBelow(s: Store, shallow: set<string>, a: string, b: string)
    requires Whole(s, shallow, a) && Reaches(Parents(s, shallow), a, b)
    ensures Whole(s, shallow, b)
  {
    hide Reaches;
    forall x | Reaches(Parents(s, shallow), b, x) ensures ParentsOf(s, shallow, x).Ok? {
      ReachesTrans(Parents(s, shallow), a, b, x);
    }
  }

  // ---- what the search finds ----

  /** Badness is inherited by descendants. */
  ghost predicate Inherited(g: string -> seq<string>, bad: string -> bool) {
    forall c, p :: p in g(c) && bad(p) ==> bad(c)
  }

  ghost predicate Consistent(m: Marks, bad: string -> bool) {
    (m.bad.Some? ==> bad(m.bad.value)) && forall c :: c in m.goods ==> !bad(c)
  }

  lemma InheritedAlong(g: string -> seq<string>, bad: string -> bool, a: string, b: string)
    requires Inherited(g, bad) && Reaches(g, a, b) && bad(b)
    ensures bad(a)
  {
    var p :| WalkBetween(g, p, a, b);
    InheritedUp(g, bad, p, 0);
  }

  lemma {:induction false} InheritedUp(g: string -> seq<string>, bad: string -> bool, p: seq<string>, i: nat)
    requires Inherited(g, bad) && IsWalk(g, p) && bad(p[|p| - 1]) && i < |p|
    ensures bad(p[i])
    decreases |p| - i
  {
    if i < |p| - 1 {
      InheritedUp(g, bad, p, i + 1);
      assert p[i + 1] in g(p[i]);
    }
  }

  /** A search that ends without skips ends at a bad commit all of whose proper
      ancestors are good. */
  lemma DoneIsFirstBad(g: string -> seq<string>, m: Marks, suspects: set<string>, bad: string -> bool, c: string)
    requires Inherited(g, bad) && Consistent(m, bad) && m.skips == []
    requires AreSuspects(g, m, suspects) && Answers(g, m, suspects, Found(c))
    ensures bad(c)
    ensures forall a :: Reaches(g, c, a) && a != c ==> !bad(a)
  {
    hide Reaches;
    forall a | Reaches(g, c, a) && a != c ensures !bad(a) {
      assert a !in Candidates(m, suspects);
      assert !Suspect(g, m, a);
      var good :| good in m.goods && Reaches(g, good, a);
      if bad(a) { InheritedAlong(g, bad, good, a); }
    }
  }

  datatype Verdict = IsBad | IsGood | IsSkipped

  /** The marks after the question about `next` is answered. */
  function Marked(m: Marks, next: string, v: Verdict): Marks {
    match v
    case IsBad => m.(bad := Some(next))
    case IsGood => m.(goods := Noted(m.goods, next))
    case IsSkipped => m.(skips := Noted(m.skips, next))
  }

  lemma MarkedStaysConsistent(m: Marks, next: string, v: Verdict, bad: string -> bool)
    requires Consistent(m, bad)
    requires v.IsBad? ==> bad(next)
    requires v.IsGood? ==> !bad(next)
    ensures Consistent(Marked(m, next, v), bad)
  {}

  /** What an answer about a candidate leaves of the suspects. */
  lemma SuspectsAfter(g: string -> seq<string>, m: Marks, suspects: set<string>, next: string, v: Verdict)
    requires AreSuspects(g, m, suspects) && next in suspects
    ensures AreSuspects(g, Marked(m, next, v),
                        match v
                        case IsBad => Older(g, suspects, next)
                        case IsGood => suspects - Older(g, suspects, next)
                        case IsSkipped => suspects)
  {
    hide Reaches;
    assert Suspect(g, m, next);
    if v.IsBad? {
      forall c | Reaches(g, next, c) ensures Reaches(g, m.bad.value, c) { ReachesTrans(g, m.bad.value, next, c); }
    } else if v.IsGood? {
      forall c ensures ReachedFrom(g, Noted(m.goods, next), c) <==> ReachedFrom(g, m.goods, c) || Reaches(g, next, c) {
        assert next in Noted(m.goods, next) && forall x :: x in m.goods ==> x in Noted(m.goods, next);
      }
    }
  }

  /** Each answer strictly shrinks what is left to ask about. */
  lemma AnswerShrinks(g: string -> seq<string>, m: Marks, suspects: set<string>, next: string, v: Verdict,
                      left: set<string>)
    requires Acyclic(g) && AreSuspects(g, m, suspects) && next in Candidates(m, suspects)
    requires AreSuspects(g, Marked(m, next, v), left)
    ensures Candidates(Marked(m, next, v), left) < Candidates(m, suspects)
  {
    hide Reaches;
    SuspectsAfter(g, m, suspects, next, v);
    ReachesSelf(g, next);
    assert Suspect(g, m, next);
    var bad := m.bad.value;
    if Reaches(g, next, bad) { Antisymmetric(g, next, bad); }
    forall c | c in Candidates(Marked(m, next, v), left) ensures c in Candidates(m, suspects) && c != next {
      assert Suspect(g, Marked(m, next, v), c);
    }
  }

  // ---- linear history ----

  /** Of any two members one descends from the other. */
  ghost predicate Linear(g: string -> seq<string>, s: set<string>) {
    forall a, b :: a in s && b in s ==> Reaches(g, a, b) || Reaches(g, b, a)
  }

  /** Some member of a linear set has exactly `n` members at or below it. */
  lemma {:induction false} EveryRank(g: string -> seq<string>, s: set<string>, n: nat) returns (c: string)
    requires Acyclic(g) && Linear(g, s) && 1 <= n <= |s|
    ensures c in s && |Older(g, s, c)| == n
    decreases |s|
  {
    hide Reaches;
    assert s != {};
    UndominatedExists(g, s);
    var top :| Undominated(g, s, top);
    ReachesSelf(g, top);
    assert Older(g, s, top) == s;
    if n == |s| {
      c := top;
    } else {
      var rest := s - {top};
      c := EveryRank(g, rest, n);
      assert Older(g, s, c) == Older(g, rest, c);
    }
  }

  /** Whatever the answer, at most the larger half of the suspects is left. */
  lemma HalvesLinear(g: string -> seq<string>, m: Marks, suspects: set<string>, next: string, bad: string)
    requires Acyclic(g) && AreSuspects(g, m, suspects) && Linear(g, suspects)
    requires m.bad == Some(bad) && bad in suspects && m.skips == []
    requires Best(g, suspects, Candidates(m, suspects), next)
    ensures |Older(g, suspects, next)| <= (|suspects| + 1) / 2
    ensures |suspects - Older(g, suspects, next)| <= (|suspects| + 1) / 2
  {
    hide Reaches;
    var n := |suspects|;
    assert {next, bad} <= suspects && next != bad;
    SubsetSize({next, bad}, suspects);
    var c := EveryRank(g, suspects, n / 2);
    forall a | a in suspects ensures Reaches(g, bad, a) { assert Suspect(g, m, a); }
    assert Older(g, suspects, bad) == suspects;
    assert c in Candidates(m, suspects);
    assert Score(g, suspects, c) <= Score(g, suspects, next);
    SubsetSize(Older(g, suspects, next), suspects);
    assert |suspects - Older(g, suspects, next)| == n - |Older(g, suspects, next)| by {
      assert suspects == Older(g, suspects, next) + (suspects - Older(g, suspects, next));
    }
  }

  lemma {:induction false} SubsetSize(a: set<string>, b: set<string>)
    requires a <= b
    ensures |a| <= |b|
  {
    if a != {} {
      var x :| x in a;
      SubsetSize(a - {x}, b - {x});
    }
  }

  /** One question and its answer, good or bad. */
  ghost predicate Asked(g: string -> seq<string>, m: Marks, suspects: set<string>, next: string, v: Verdict,
                        after: Marks, left: set<string>) {
    && AreSuspects(g, m, suspects) && AreSuspects(g, after, left)
    && !v.IsSkipped? && Best(g, suspects, Candidates(m, suspects), next) && after == Marked(m, next, v)
  }

  datatype Turn = Turn(marks: Marks, suspects: set<string>, next: string, verdict: Verdict)

  function MarksAt(turns: seq<Turn>, end: Marks, i: nat): Marks {
    if i < |turns| then turns[i].marks else end
  }

  function SuspectsAt(turns: seq<Turn>, left: set<string>, i: nat): set<string> {
    if i < |turns| then turns[i].suspects else left
  }

  /** Turn `i` asks the computed question and is followed by its outcome. */
  ghost predicate Proper(g: string -> seq<string>, turns: seq<Turn>, end: Marks, left: set<string>, i: nat)
    requires i < |turns|
  {
    Asked(g, turns[i].marks, turns[i].suspects, turns[i].next, turns[i].verdict, MarksAt(turns, end, i + 1),
        SuspectsAt(turns, left, i + 1))
  }

  /** A run of the search: each turn asks the computed question. */
  ghost predicate IsRun(g: string -> seq<string>, turns: seq<Turn>, end: Marks, left: set<string>) {
    forall i :: 0 <= i < |turns| ==> Proper(g, turns, end, left, i)
  }

  function Pow2(k: nat): nat {
    if k == 0 then 1 else 2 * Pow2(k - 1)
  }

  /** The marks a linear search goes on from: no skips, and the bad commit a suspect. */
  ghost predicate Narrowing(g: string -> seq<string>, m: Marks, suspects: set<string>) {
    m.skips == [] && m.bad.Some? && m.bad.value in suspects && Linear(g, suspects)
  }

  lemma TurnHalves(g: string -> seq<string>, m: Marks, suspects: set<string>, next: string, v: Verdict, after: Marks,
                   left: set<string>)
    requires Acyclic(g) && Narrowing(g, m, suspects) && Asked(g, m, suspects, next, v, after, left)
    ensures Narrowing(g, after, left)
    ensures |suspects| >= 2 && |left| <= (|suspects| + 1) / 2
  {
    hide Reaches, Suspect;
    var bad := m.bad.value;
    var older := Older(g, suspects, next);
    HalvesLinear(g, m, suspects, next, bad);
    SubsetSize({next, bad}, suspects);
    SuspectsAfter(g, m, suspects, next, v);
    SameSuspects(g, after, left, if v.IsBad? then older else suspects - older);
    hide Best;
    ReachesSelf(g, next);
    BadAbove(g, m, next);
    if Reaches(g, next, bad) { Antisymmetric(g, next, bad); }
  }

  lemma BadAbove(g: string -> seq<string>, m: Marks, c: string)
    requires m.bad.Some?
    ensures Suspect(g, m, c) ==> Reaches(g, m.bad.value, c)
  {}

  /** On linear history with at most two to the `k` suspects no more than `k`
      questions are asked, whatever the answers. */
  lemma {:induction false} LogarithmicallyManyQuestions(g: string -> seq<string>, turns: seq<Turn>, end: Marks,
        left: set<string>, k: nat)
    requires Acyclic(g) && IsRun(g, turns, end, left) && turns != []
    requires Narrowing(g, turns[0].marks, turns[0].suspects) && |turns[0].suspects| <= Pow2(k)
    ensures |turns| <= k
    decreases |turns|
  {
    hide Narrowing, Asked;
    var t := turns[0];
    assert Proper(g, turns, end, left, 0);
    TurnHalves(g, t.marks, t.suspects, t.next, t.verdict, MarksAt(turns, end, 1), SuspectsAt(turns, left, 1));
    if |turns| > 1 {
      RunTail(g, turns, end, left);
      LogarithmicallyManyQuestions(g, turns[1..], end, left, k - 1);
    }
  }

  lemma SameSuspects(g: string -> seq<string>, m: Marks, a: set<string>, b: set<string>)
    requires AreSuspects(g, m, a) && AreSuspects(g, m, b)
    ensures a == b
  {
    forall c ensures c in a <==> c in b { assert c in a <==> Suspect(g, m, c); }
  }

  lemma RunTail(g: string -> seq<string>, turns: seq<Turn>, end: Marks, left: set<string>)
    requires IsRun(g, turns, end, left) && turns != []
    ensures IsRun(g, turns[1..], end, left)
  {
    hide Asked;
    forall i | 0 <= i < |turns[1..]|
      ensures Proper(g, turns[1..], end, left, i)
    {
      assert Proper(g, turns, end, left, i + 1);
    }
  }

  ghost predicate Truthful(turns: seq<Turn>, bad: string -> bool) {
    forall i :: 0 <= i < |turns| ==> (turns[i].verdict.IsBad? <==> bad(turns[i].next))
  }

  /** A whole search: consistent marks and truthful answers, however many, lead to
      a bad commit all of whose proper ancestors are good. */
  lemma {:induction false} TruthfulRunFindsFirstBad(g: string -> seq<string>, turns: seq<Turn>, end: Marks,
        left: set<string>, bad: string -> bool, c: string)
    requires Inherited(g, bad) && IsRun(g, turns, end, left) && turns != [] && Truthful(turns, bad)
    requires Consistent(turns[0].marks, bad) && turns[0].marks.skips == []
    requires AreSuspects(g, end, left) && Answers(g, end, left, Found(c))
    ensures bad(c)
    ensures forall a :: Reaches(g, c, a) && a != c ==> !bad(a)
    decreases |turns|
  {
    hide Reaches, Answers, Inherited, AreSuspects, Best;
    var t := turns[0];
    assert Proper(g, turns, end, left, 0);
    MarkedStaysConsistent(t.marks, t.next, t.verdict, bad);
    if |turns| > 1 {
      RunTail(g, turns, end, left);
      TruthfulRunFindsFirstBad(g, turns[1..], end, left, bad, c);
    } else {
      DoneIsFirstBad(g, end, left, bad, c);
    }
  }
}
