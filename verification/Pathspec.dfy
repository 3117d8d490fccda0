// Pathspec matching (crates/repo/src/pathspec.rs), on the bytes of the texts.
module Pathspec {
  import opened Bytes
  import opened Collections

  const STAR: byte := 42
  const QUESTION: byte := 63
  const SLASH: byte := 47
  const DOT: byte := 46

  type Text = seq<byte>

  /** What a wildcard segment means: `*` is any run of bytes, `?` any one byte. */
  predicate Matches(p: Text, s: Text)
    decreases |p| + |s|
  {
    if p == [] then s == []
    else if p[0] == STAR then Matches(p[1..], s) || (s != [] && Matches(p, s[1..]))
    else s != [] && (p[0] == QUESTION || p[0] == s[0]) && Matches(p[1..], s[1..])
  }

  /** The matcher's loop from a given state: `star` is the last star met, `mark`
      where its run was last assumed to end. */
  predicate Scan(p: Text, s: Text, pi: nat, si: nat, star: Option<nat>, mark: nat)
    requires pi <= |p| && mark <= si <= |s|
    requires star.Some? ==> star.value < pi
    decreases |s| - mark, |s| - si, |p| - pi
  {
    if si < |s| then
      if pi < |p| && (p[pi] == QUESTION || p[pi] == s[si]) then Scan(p, s, pi + 1, si + 1, star, mark)
      else if pi < |p| && p[pi] == STAR then Scan(p, s, pi + 1, si, Some(pi), si)
      else if star.Some? then Scan(p, s, star.value + 1, mark + 1, star, mark + 1)
      else false
    else AllStars(p[pi..])
  }

  predicate AllStars(p: Text) {
    forall i :: 0 <= i < |p| ==> p[i] == STAR
  }

  predicate SegMatch(p: Text, s: Text) {
    Scan(p, s, 0, 0, None, 0)
  }

  /** `seg_match`: two cursors, backtracking to the latest star. */
  method SegMatchLoop(p: Text, s: Text) returns (r: bool)
    ensures r == SegMatch(p, s)
  {
    var pi, si := 0, 0;
    var star: Option<nat>, mark := None, 0;
    while si < |s|
      invariant 0 <= pi <= |p| && 0 <= mark <= si <= |s|
      invariant star.Some? ==> star.value < pi
      invariant SegMatch(p, s) == Scan(p, s, pi, si, star, mark)
      decreases |s| - mark, |s| - si, |p| - pi
    {
      if pi < |p| && (p[pi] == QUESTION || p[pi] == s[si]) {
        pi, si := pi + 1, si + 1;
      } else if pi < |p| && p[pi] == STAR {
        star, mark, pi := Some(pi), si, pi + 1;
      } else if star.Some? {
        pi, mark := star.value + 1, mark + 1;
        si := mark;
      } else {
        return false;
      }
    }
    ghost var tail := p[pi..];
    while pi < |p| && p[pi] == STAR
      invariant 0 <= pi <= |p|
      invariant AllStars(tail) == AllStars(p[pi..])
    {
      assert p[pi..][0] == STAR && p[pi..][1..] == p[pi + 1..];
      assert forall i :: 1 <= i < |p[pi..]| ==> p[pi..][i] == p[pi + 1..][i - 1];
      pi := pi + 1;
    }
    r := pi == |p|;
    assert !r ==> p[pi..][0] != STAR;
  }

  // ---- what the loop computes ----

  lemma {:induction false} NoTextLeft(p: Text)
    ensures Matches(p, []) <==> AllStars(p)
  {
    if p != [] {
      NoTextLeft(p[1..]);
      assert forall i :: 1 <= i < |p| ==> p[i] == p[1..][i - 1];
    }
  }

  /** A leading star that matches a later suffix matches an earlier one too. */
  lemma {:induction false} StarAbsorbs(p: Text, s: Text, i: nat, j: nat)
    requires p != [] && p[0] == STAR && i <= j <= |s|
    requires Matches(p, s[j..])
    ensures Matches(p, s[i..])
    decreases j - i
  {
    if i < j {
      StarAbsorbs(p, s, i + 1, j);
      assert s[i..][1..] == s[i + 1..];
    }
  }

  predicate NoStars(p: Text) {
    forall i :: 0 <= i < |p| ==> p[i] != STAR
  }

  /** A star-free prefix of a pattern consumes exactly its own length. */
  lemma {:induction false} FixedPrefix(lit: Text, rest: Text, s: Text)
    requires NoStars(lit) && Matches(lit + rest, s)
    ensures |lit| <= |s| && Matches(rest, s[|lit|..])
    decreases |lit|
  {
    if lit == [] {
      assert lit + rest == rest && s[0..] == s;
    } else {
      HeadTail(lit, rest);
      FixedPrefix(lit[1..], rest, s[1..]);
      assert s[1..][|lit| - 1..] == s[|lit|..];
    }
  }

  /** A star at `sp` consumes some run and leaves the rest of the pattern to match. */
  lemma {:induction false} StarRun(p: Text, s: Text, m: nat) returns (e: nat)
    requires p != [] && p[0] == STAR && m <= |s| && Matches(p, s[m..])
    ensures m <= e <= |s| && Matches(p[1..], s[e..])
    decreases |s| - m
  {
    if Matches(p[1..], s[m..]) {
      e := m;
    } else {
      assert s[m..][1..] == s[m + 1..];
      e := StarRun(p, s, m + 1);
    }
  }

  /** The pattern between the last star and the cursor has no star and is as long
      as the text between the mark and the cursor. */
  predicate InStep(p: Text, s: Text, pi: nat, si: nat, star: Option<nat>, mark: nat)
    requires pi <= |p| && mark <= si <= |s|
  {
    star.Some? ==>
      && star.value < pi && p[star.value] == STAR
      && pi - star.value - 1 == si - mark && NoStars(p[star.value + 1..pi])
  }

  /** Whether letting the last star run further could still succeed. */
  predicate Further(p: Text, s: Text, star: Option<nat>, mark: nat)
    requires mark <= |s| && (star.Some? ==> star.value < |p|)
  {
    star.Some? && mark < |s| && Matches(p[star.value..], s[mark + 1..])
  }

  /** Every run of the last star that ends later moves the cursor later too. */
  lemma FurtherMeansLater(p: Text, s: Text, pi: nat, si: nat, star: Option<nat>, mark: nat) returns (k: nat)
    requires pi <= |p| && mark <= si <= |s| && InStep(p, s, pi, si, star, mark)
    requires Further(p, s, star, mark)
    ensures si < k <= |s| && Matches(p[pi..], s[k..])
  {
    var sp := star.value;
    var e := StarRun(p[sp..], s, mark + 1);
    var lit := p[sp + 1..pi];
    assert p[sp..][1..] == lit + p[pi..];
    FixedPrefix(lit, p[pi..], s[e..]);
    k := e + |lit|;
    assert s[e..][|lit|..] == s[k..];
  }

  /** Backtracking to the latest star loses nothing: from a state in step, on a
      text without star bytes, the loop succeeds exactly when the rest of the
      pattern matches here or after a longer run of the last star. */
  lemma {:induction false} ScanExact(p: Text, s: Text, pi: nat, si: nat, star: Option<nat>, mark: nat)
    requires pi <= |p| && mark <= si <= |s| && NoStars(s)
    requires InStep(p, s, pi, si, star, mark)
    ensures Scan(p, s, pi, si, star, mark) <==> Matches(p[pi..], s[si..]) || Further(p, s, star, mark)
    decreases |s| - mark, |s| - si, |p| - pi
  {
    if si == |s| {
      assert s[si..] == [];
      NoTextLeft(p[pi..]);
      if Further(p, s, star, mark) { var _ := FurtherMeansLater(p, s, pi, si, star, mark); }
    } else {
      var rest, text := p[pi..], s[si..];
      assert text[1..] == s[si + 1..];
      if pi < |p| { assert rest[1..] == p[pi + 1..]; }
      if pi < |p| && (p[pi] == QUESTION || p[pi] == s[si]) {
        if star.Some? { assert p[star.value + 1..pi + 1] == p[star.value + 1..pi] + [p[pi]]; }
        ScanExact(p, s, pi + 1, si + 1, star, mark);
      } else if pi < |p| && p[pi] == STAR {
        ScanExact(p, s, pi + 1, si, Some(pi), si);
        if Further(p, s, star, mark) {
          var k := FurtherMeansLater(p, s, pi, si, star, mark);
          StarAbsorbs(rest, s, si, k);
        }
      } else if star.Some? {
        var sp := star.value;
        ScanExact(p, s, sp + 1, mark + 1, star, mark + 1);
        assert p[sp..][1..] == p[sp + 1..];
        if mark + 1 < |s| {
          assert s[mark + 1..][1..] == s[mark + 2..];
        } else {
          assert s[mark + 1..] == [];
        }
      }
    }
  }

  /** What the loop accepts always matches, star bytes in the text or not. */
  lemma {:induction false} ScanSound(p: Text, s: Text, pi: nat, si: nat, star: Option<nat>, mark: nat)
    requires pi <= |p| && mark <= si <= |s|
    requires star.Some? ==> star.value < pi && p[star.value] == STAR
    requires Scan(p, s, pi, si, star, mark)
    ensures Matches(p[pi..], s[si..]) || (star.Some? && Matches(p[star.value..], s[mark..]))
    decreases |s| - mark, |s| - si, |p| - pi
  {
    if si == |s| {
      assert s[si..] == [];
      NoTextLeft(p[pi..]);
    } else {
      var rest, text := p[pi..], s[si..];
      assert text[1..] == s[si + 1..];
      if pi < |p| { assert rest[1..] == p[pi + 1..]; }
      if pi < |p| && (p[pi] == QUESTION || p[pi] == s[si]) {
        ScanSound(p, s, pi + 1, si + 1, star, mark);
        if p[pi] == STAR && Matches(rest[1..], text[1..]) { assert Matches(rest, text[1..]); }
      } else if pi < |p| && p[pi] == STAR {
        ScanSound(p, s, pi + 1, si, Some(pi), si);
      } else if star.Some? {
        var sp := star.value;
        ScanSound(p, s, sp + 1, mark + 1, star, mark + 1);
        assert p[sp..][1..] == p[sp + 1..];
        if Matches(p[sp + 1..], s[mark + 1..]) { assert Matches(p[sp..], s[mark + 1..]); }
        StarAbsorbs(p[sp..], s, mark, mark + 1);
      }
    }
  }

  lemma SegMatchSound(p: Text, s: Text)
    requires SegMatch(p, s)
    ensures Matches(p, s)
  {
    ScanSound(p, s, 0, 0, None, 0);
    assert p[0..] == p && s[0..] == s;
  }

  lemma SegMatchComplete(p: Text, s: Text)
    requires NoStars(s)
    ensures SegMatch(p, s) <==> Matches(p, s)
  {
    ScanExact(p, s, 0, 0, None, 0);
    assert p[0..] == p && s[0..] == s;
  }

  // ---- the texts on which it is right ----

  function Repeat(c: byte, n: nat): Text {
    seq(n, _ => c)
  }

  lemma {:induction false} QuestionsMatch(s: Text)
    ensures Matches(Repeat(QUESTION, |s|), s)
  {
    if s != [] {
      QuestionsMatch(s[1..]);
      assert Repeat(QUESTION, |s|)[1..] == Repeat(QUESTION, |s| - 1);
    }
  }

  lemma {:induction false} LiteralThen(u: Text, p: Text, s: Text)
    requires NoStars(u) && Matches(p, s)
    ensures Matches(u + p, u + s)
    decreases |u|
  {
    if u == [] {
      assert u + p == p && u + s == s;
    } else {
      HeadTail(u, p);
      HeadTail(u, s);
      LiteralThen(u[1..], p, s);
    }
  }

  /** A text with a star byte, and a pattern it defeats: the pattern's star is
      taken literally, and no star is left to backtrack to. */
  function Defeating(u: Text, v: Text): Text {
    u + [STAR] + Repeat(QUESTION, |v| + 1)
  }

  lemma {:induction false} DefeatedScan(u: Text, v: Text, i: nat)
    requires NoStars(u) && i <= |u + [STAR] + v|
    ensures !Scan(Defeating(u, v), u + [STAR] + v, i, i, None, 0)
    decreases |u + [STAR] + v| - i
  {
    var p, s := Defeating(u, v), u + [STAR] + v;
    if i == |s| {
      assert p[i..][0] == p[i] == QUESTION;
    } else {
      assert p[i] == QUESTION || p[i] == s[i];
      DefeatedScan(u, v, i + 1);
    }
  }

  lemma Defeats(u: Text, v: Text)
    requires NoStars(u)
    ensures var p, s := Defeating(u, v), u + [STAR] + v; Matches(p, s) && !SegMatch(p, s)
  {
    var q := Repeat(QUESTION, |v| + 1);
    var tail := [STAR] + v;
    QuestionsMatch(tail);
    assert ([STAR] + q)[1..] == q;
    assert Matches([STAR] + q, tail);
    LiteralThen(u, [STAR] + q, tail);
    assert u + ([STAR] + q) == Defeating(u, v) && u + tail == u + [STAR] + v;
    DefeatedScan(u, v, 0);
  }

  /** The matcher agrees with the meaning of wildcards under every pattern
      exactly on the texts that hold no star byte. */
  lemma SegMatchExact(s: Text)
    ensures (forall p :: SegMatch(p, s) <==> Matches(p, s)) <==> NoStars(s)
  {
    if NoStars(s) {
      forall p ensures SegMatch(p, s) <==> Matches(p, s) { SegMatchComplete(p, s); }
    } else {
      var i := FirstStar(s);
      Defeats(s[..i], s[i + 1..]);
      assert s == s[..i] + [STAR] + s[i + 1..];
    }
  }

  lemma {:induction false} FirstStar(s: Text) returns (i: nat)
    requires !NoStars(s)
    ensures i < |s| && s[i] == STAR && NoStars(s[..i])
  {
    if s[0] == STAR {
      i := 0;
    } else {
      assert exists k :: 0 <= k < |s[1..]| && s[1..][k] == STAR by {
        var k :| 0 <= k < |s| && s[k] == STAR;
        assert s[1..][k - 1] == STAR;
      }
      var j := FirstStar(s[1..]);
      i := j + 1;
      forall k | 0 <= k < i ensures s[..i][k] != STAR {
        if k > 0 { assert s[1..][..j][k - 1] == s[k]; }
      }
    }
  }

  // ---- whole paths ----

  /** The length of the first segment. */
  function SegmentEnd(s: Text): (n: nat)
    ensures n <= |s| && SLASH !in s[..n] && (n < |s| ==> s[n] == SLASH)
  {
    if s == [] || s[0] == SLASH then 0
    else
      var n := 1 + SegmentEnd(s[1..]);
      assert s[..n] == [s[0]] + s[1..][..n - 1];
      n
  }

  /** `split('/')`: at least one segment, possibly empty ones. */
  function Split(s: Text): (r: seq<Text>)
    ensures r != []
    decreases |s|
  {
    var n := SegmentEnd(s);
    if n == |s| then [s] else [s[..n]] + Split(s[n + 1..])
  }

  predicate GlobMatch(p: Text, s: Text) {
    var ps, ss := Split(p), Split(s);
    |ps| == |ss| && forall i :: 0 <= i < |ps| ==> SegMatch(ps[i], ss[i])
  }

  /** What a wildcard path means, said on the whole text: a star runs over bytes
      other than the slash, a question mark is one such byte, and a slash is only
      itself. */
  predicate PathMatches(p: Text, s: Text)
    decreases |p| + |s|
  {
    if p == [] then s == []
    else if p[0] == STAR then PathMatches(p[1..], s) || (s != [] && s[0] != SLASH && PathMatches(p, s[1..]))
    else s != [] && (if p[0] == QUESTION then s[0] != SLASH else p[0] == s[0]) && PathMatches(p[1..], s[1..])
  }

  /** Up to the next slash of either text, the path meaning is the segment meaning. */
  lemma {:induction false} PathByFirstSegment(p: Text, s: Text)
    ensures var m, n := SegmentEnd(p), SegmentEnd(s);
            PathMatches(p, s) <==>
            && Matches(p[..m], s[..n])
            && (if m == |p| then n == |s| else n < |s| && PathMatches(p[m + 1..], s[n + 1..]))
    decreases |p| + |s|
  {
    var m, n := SegmentEnd(p), SegmentEnd(s);
    if p == [] {
      assert p[..m] == [];
      if s != [] && n == 0 { assert s[0] == SLASH; }
      assert Matches([], s[..n]) <==> n == 0;
    } else if p[0] == SLASH {
      assert p[..m] == [] && p[m + 1..] == p[1..];
      if s != [] && s[0] == SLASH {
        assert s[..n] == [] && s[n + 1..] == s[1..];
      } else if s != [] {
        assert s[..n] != [];
      }
    } else {
      var p', s' := p[1..], if s == [] then [] else s[1..];
      assert SegmentEnd(p') == m - 1 && p[..m][1..] == p'[..m - 1];
      if m < |p| { assert p'[m..] == p[m + 1..]; }
      if s != [] && s[0] != SLASH {
        assert SegmentEnd(s') == n - 1 && s[..n][1..] == s'[..n - 1];
        if n < |s| { assert s'[n..] == s[n + 1..]; }
      } else {
        assert s[..n] == [];
      }
      if p[0] == STAR {
        PathByFirstSegment(p', s);
        if s != [] && s[0] != SLASH { PathByFirstSegment(p, s'); }
      } else if s != [] && s[0] != SLASH {
        PathByFirstSegment(p', s');
      }
    }
  }

  lemma SplitNext(s: Text)
    ensures var n := SegmentEnd(s);
            Split(s) == if n == |s| then [s] else [s[..n]] + Split(s[n + 1..])
  {
    hide SegmentEnd;
  }

  ghost predicate AllMatch(ps: seq<Text>, ss: seq<Text>) {
    |ps| == |ss| && forall i :: 0 <= i < |ps| ==> Matches(ps[i], ss[i])
  }

  lemma AllMatchCons(p: Text, ps: seq<Text>, s: Text, ss: seq<Text>)
    ensures AllMatch([p] + ps, [s] + ss) <==> Matches(p, s) && AllMatch(ps, ss)
  {
    hide Matches;
    var qs, ts := [p] + ps, [s] + ss;
    if AllMatch(qs, ts) {
      assert Matches(qs[0], ts[0]);
      forall i | 0 <= i < |ps| ensures Matches(ps[i], ss[i]) { assert Matches(qs[i + 1], ts[i + 1]); }
    }
    if Matches(p, s) && AllMatch(ps, ss) {
      forall i | 0 <= i < |qs| ensures Matches(qs[i], ts[i]) {
        if i > 0 { assert qs[i] == ps[i - 1] && ts[i] == ss[i - 1]; }
      }
    }
  }

  /** The path meaning is the segment meaning, segment by segment. */
  lemma {:induction false} SplitMatches(p: Text, s: Text)
    ensures PathMatches(p, s) <==> AllMatch(Split(p), Split(s))
    decreases |p|
  {
    hide Matches, PathMatches, Split, AllMatch;
    var m, n := SegmentEnd(p), SegmentEnd(s);
    PathByFirstSegment(p, s);
    SplitNext(p);
    SplitNext(s);
    WholeSegment(p, s);
    if m < |p| && n < |s| {
      SplitMatches(p[m + 1..], s[n + 1..]);
      AllMatchCons(p[..m], Split(p[m + 1..]), s[..n], Split(s[n + 1..]));
    }
  }

  lemma WholeSegment(p: Text, s: Text)
    ensures var m, n := SegmentEnd(p), SegmentEnd(s);
            && (m == |p| ==> p[..m] == p) && (n == |s| ==> s[..n] == s)
            && (m == |p| && n == |s| ==> (AllMatch([p], [s]) <==> Matches(p, s)))
            && (m == |p| && n < |s| ==> !AllMatch([p], [s[..n]] + Split(s[n + 1..])))
            && (m < |p| && n == |s| ==> !AllMatch([p[..m]] + Split(p[m + 1..]), [s]))
  {
    hide Matches, Split;
    assert [p][0] == p && [s][0] == s;
  }

  lemma {:induction false} SplitPieces(s: Text)
    requires NoStars(s)
    ensures forall i :: 0 <= i < |Split(s)| ==> NoStars(Split(s)[i])
    decreases |s|
  {
    var n := SegmentEnd(s);
    if n < |s| { SplitPieces(s[n + 1..]); }
  }

  /** On paths without star bytes, matching segment by segment is the wildcard
      meaning of the whole path: no star crosses a slash. */
  lemma GlobComplete(p: Text, s: Text)
    requires NoStars(s)
    ensures GlobMatch(p, s) <==> PathMatches(p, s)
  {
    SplitMatches(p, s);
    SplitPieces(s);
    var ps, ss := Split(p), Split(s);
    if |ps| == |ss| {
      forall i | 0 <= i < |ps|
        ensures SegMatch(ps[i], ss[i]) <==> Matches(ps[i], ss[i])
      {
        SegMatchComplete(ps[i], ss[i]);
      }
    }
  }

  /** Every text matches itself, also with a star added at the end. */
  lemma {:induction false} PathSelfStar(s: Text)
    ensures PathMatches(s + [STAR], s)
  {
    if s == [] {
      assert PathMatches([STAR][1..], []);
    } else {
      HeadTail(s, [STAR]);
      PathSelfStar(s[1..]);
      if s[0] == STAR { assert PathMatches(s + [STAR], s[1..]); }
    }
  }

  lemma {:induction false} SelfMatches(s: Text)
    ensures Matches(s, s)
  {
    if s != [] {
      SelfMatches(s[1..]);
      if s[0] == STAR { assert Matches(s, s[1..]); }
    }
  }

  lemma {:induction false} SegmentEndIs(a: Text, b: Text)
    requires SLASH !in a && (b == [] || b[0] == SLASH)
    ensures SegmentEnd(a + b) == |a|
  {
    if a == [] {
      assert a + b == b;
    } else {
      HeadTail(a, b);
      SegmentEndIs(a[1..], b);
    }
  }

  /** The parts of a text whose first segment is `a`. */
  lemma FirstSegmentIs(a: Text, b: Text)
    requires SLASH !in a
    ensures var s := a + [SLASH] + b;
            SegmentEnd(s) == |a| && |a| < |s| && s[..|a|] == a && s[|a| + 1..] == b && Split(s) == [a] + Split(b)
  {
    SegmentEndIs(a, [SLASH] + b);
    assert a + [SLASH] + b == a + ([SLASH] + b);
  }

  lemma GlobFirst(a: Text, p: Text, b: Text, s: Text)
    requires SLASH !in a && SLASH !in b
    ensures GlobMatch(a + [SLASH] + p, b + [SLASH] + s) <==> SegMatch(a, b) && GlobMatch(p, s)
  {
    hide SegMatch;
    FirstSegmentIs(a, p);
    FirstSegmentIs(b, s);
    var ps, ss := Split(p), Split(s);
    var qs, ts := [a] + ps, [b] + ss;
    assert forall i :: 0 <= i < |ps| ==> qs[i + 1] == ps[i];
    assert forall i :: 0 <= i < |ss| ==> ts[i + 1] == ss[i];
    if GlobMatch(a + [SLASH] + p, b + [SLASH] + s) {
      assert SegMatch(qs[0], ts[0]);
      forall i | 0 <= i < |ps| ensures SegMatch(ps[i], ss[i]) { assert SegMatch(qs[i + 1], ts[i + 1]); }
    }
  }

  lemma GlobOnly(p: Text, s: Text)
    requires SLASH !in p && SLASH !in s
    ensures GlobMatch(p, s) <==> SegMatch(p, s)
    ensures PathMatches(p, s) <==> Matches(p, s)
  {
    hide SegMatch;
    SegmentEndIs(p, []);
    SegmentEndIs(s, []);
    assert p + [] == p && s + [] == s;
    PathByFirstSegment(p, s);
    assert p[..|p|] == p && s[..|s|] == s;
  }

  lemma PathFirst(a: Text, p: Text, b: Text, s: Text)
    requires SLASH !in a && SLASH !in b && Matches(a, b) && PathMatches(p, s)
    ensures PathMatches(a + [SLASH] + p, b + [SLASH] + s)
  {
    hide PathMatches, Matches;
    FirstSegmentIs(a, p);
    FirstSegmentIs(b, s);
    PathByFirstSegment(a + [SLASH] + p, b + [SLASH] + s);
  }

  lemma StarAfter(s: Text)
    requires !NoStars(s) && NoStars(s[..SegmentEnd(s)])
    ensures SegmentEnd(s) < |s| && !NoStars(s[SegmentEnd(s) + 1..])
  {
    var n := SegmentEnd(s);
    var i := FirstStar(s);
    assert forall k :: 0 <= k < n ==> s[k] == s[..n][k];
    assert i > n && s[n + 1..][i - (n + 1)] == STAR;
  }

  /** A pattern that a path with a star byte defeats, longer than the path and not
      ending in a slash. */
  lemma {:induction false} DefeatsPath(s: Text) returns (p: Text)
    requires !NoStars(s)
    ensures PathMatches(p, s) && !GlobMatch(p, s)
    ensures |p| > |s| && p[|p| - 1] != SLASH
    decreases |s|
  {
    hide PathMatches, GlobMatch, Matches, SegMatch, Split;
    var n := SegmentEnd(s);
    var first := s[..n];
    if NoStars(first) {
      SelfMatches(first);
      StarAfter(s);
      var rest := s[n + 1..];
      assert s == first + [SLASH] + rest;
      var q := DefeatsPath(rest);
      p := first + [SLASH] + q;
      PathFirst(first, q, first, rest);
      GlobFirst(first, q, first, rest);
      assert p[|p| - 1] == q[|q| - 1];
    } else {
      var i := FirstStar(first);
      var u, v := first[..i], first[i + 1..];
      Defeats(u, v);
      assert first == u + [STAR] + v;
      var d := Defeating(u, v);
      assert SLASH !in d && |d| == n + 1 && d[n] == QUESTION;
      if n == |s| {
        assert first == s;
        p := d;
        GlobOnly(d, s);
      } else {
        var rest := s[n + 1..];
        assert s == first + [SLASH] + rest;
        p := d + [SLASH] + (rest + [STAR]);
        PathSelfStar(rest);
        PathFirst(d, rest + [STAR], first, rest);
        GlobFirst(d, rest + [STAR], first, rest);
        assert p[|p| - 1] == STAR;
      }
    }
  }

  /** Matching segment by segment is the wildcard meaning of the whole path, no star
      crossing a slash, under every pattern exactly on the paths without star bytes. */
  lemma GlobExact(s: Text)
    ensures (forall p :: GlobMatch(p, s) <==> PathMatches(p, s)) <==> NoStars(s)
  {
    hide GlobMatch, PathMatches;
    if NoStars(s) {
      forall p ensures GlobMatch(p, s) <==> PathMatches(p, s) { GlobComplete(p, s); }
    } else {
      var p := DefeatsPath(s);
    }
  }

  function TrimSlashes(s: Text): (t: Text)
    ensures t <= s && (forall i :: |t| <= i < |s| ==> s[i] == SLASH)
    ensures t == [] || t[|t| - 1] != SLASH
  {
    if s != [] && s[|s| - 1] == SLASH then TrimSlashes(s[..|s| - 1]) else s
  }

  /** `matches_one`. */
  predicate MatchesOne(spec: Text, rel: Text) {
    var t := TrimSlashes(spec);
    || t == [] || t == [DOT]
    || rel == t
    || (|t| < |rel| && rel[..|t|] == t && rel[|t|] == SLASH)
    || GlobMatch(t, rel)
  }

  ghost predicate Under(dir: Text, rel: Text) {
    exists rest :: rel == dir + [SLASH] + rest
  }

  /** What a pathspec is to select: everything for the empty spec and the dot,
      otherwise the path itself, what lies under it as a directory, and what it
      matches as a wildcard. */
  ghost predicate Selects(spec: Text, rel: Text) {
    var t := TrimSlashes(spec);
    t == [] || t == [DOT] || rel == t || Under(t, rel) || PathMatches(t, rel)
  }

  lemma Prefixed(t: Text, rel: Text)
    ensures Under(t, rel) <==> |t| < |rel| && rel[..|t|] == t && rel[|t|] == SLASH
  {
    if |t| < |rel| && rel[..|t|] == t && rel[|t|] == SLASH {
      assert rel == t + [SLASH] + rel[|t| + 1..];
    }
  }

  /** It selects that under every spec exactly on the paths without star bytes. */
  lemma MatchesOneExact(rel: Text)
    ensures (forall spec :: MatchesOne(spec, rel) <==> Selects(spec, rel)) <==> NoStars(rel)
  {
    hide GlobMatch, PathMatches, Under;
    if NoStars(rel) {
      forall spec ensures MatchesOne(spec, rel) <==> Selects(spec, rel) {
        GlobComplete(TrimSlashes(spec), rel);
        Prefixed(TrimSlashes(spec), rel);
      }
    } else {
      var p := DefeatsPath(rel);
      assert TrimSlashes(p) == p;
      assert Selects(p, rel) && !MatchesOne(p, rel) by { SomeStar(rel); }
    }
  }

  /** `matches_any`. */
  predicate MatchesAny(specs: seq<Text>, rel: Text) {
    exists i :: 0 <= i < |specs| && MatchesOne(specs[i], rel)
  }

  ghost predicate AnySelects(specs: seq<Text>, rel: Text) {
    exists i :: 0 <= i < |specs| && Selects(specs[i], rel)
  }

  /** A list of specs selects what some spec of it selects, under every list exactly
      on the paths without star bytes. */
  lemma MatchesAnyExact(rel: Text)
    ensures (forall specs :: MatchesAny(specs, rel) <==> AnySelects(specs, rel)) <==> NoStars(rel)
  {
    hide MatchesOne, Selects;
    MatchesOneExact(rel);
    if forall specs :: MatchesAny(specs, rel) <==> AnySelects(specs, rel) {
      forall spec ensures MatchesOne(spec, rel) <==> Selects(spec, rel) {
        assert [spec][0] == spec;
        assert MatchesAny([spec], rel) <==> MatchesOne(spec, rel);
        assert AnySelects([spec], rel) <==> Selects(spec, rel);
      }
    }
  }

  lemma SomeStar(s: Text)
    requires !NoStars(s)
    ensures s != []
  {}
}
