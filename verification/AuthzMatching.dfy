/** The best-match uri filter of the resource listing
    (internal/admin/authzresource.go:546-607). */
module AuthzMatching {
  import opened Basics
  import opened AuthzModel

  // ----- what a best match is -----

  /** The resource registers the wildcard that covers the first n characters. */
  predicate Covers(r: Resource, uri: string, n: nat) {
    n <= |uri| && uri[..n] + "*" in r.uris
  }

  ghost predicate Longest(rs: seq<Resource>, uri: string, n: nat) {
    forall q, m: nat | q in rs && Covers(q, uri, m) :: m <= n
  }

  predicate ExactHeld(rs: seq<Resource>, uri: string) {
    exists q :: q in rs && uri in q.uris
  }

  /** An exact registration anywhere leaves the exact ones only; otherwise the
      longest covering wildcard of the whole set decides. */
  ghost predicate Survives(all: seq<Resource>, r: Resource, uri: string) {
    if ExactHeld(all, uri) then uri in r.uris
    else exists n: nat :: Covers(r, uri, n) && Longest(all, uri, n)
  }

  /** The survivors in input order. */
  ghost function Survivors(all: seq<Resource>, rs: seq<Resource>, uri: string): seq<Resource> {
    if rs == [] then []
    else Survivors(all, rs[..|rs| - 1], uri) + if Survives(all, rs[|rs| - 1], uri) then [rs[|rs| - 1]] else []
  }

  // ----- the scores -----

  function Score(pattern: string, uri: string): int {
    if pattern == uri then |pattern| + 1
    else if pattern != "" && pattern[|pattern| - 1] == '*' && pattern[..|pattern| - 1] <= uri then |pattern| - 1
    else -1
  }

  /** What a score says about the pattern. */
  lemma ScoreMeans(pattern: string, uri: string)
    ensures -1 <= Score(pattern, uri) <= |uri| + 1
    ensures Score(pattern, uri) == |uri| + 1 <==> pattern == uri
    ensures forall n: nat | n <= |uri| && pattern == uri[..n] + "*" :: Score(pattern, uri) >= n
    ensures pattern != uri && Score(pattern, uri) >= 0 ==>
      Score(pattern, uri) <= |uri| && pattern == uri[..Score(pattern, uri)] + "*"
  {
    forall n: nat | n <= |uri| && pattern == uri[..n] + "*" ensures Score(pattern, uri) >= n {
      assert pattern[..n] == uri[..n];
    }
  }

  /** `n` is the best score of the uris: reached by one, exceeded by none. */
  ghost predicate BestOf(uris: seq<string>, uri: string, n: int) {
    && -1 <= n && (n >= 0 ==> exists u :: u in uris && Score(u, uri) == n)
    && forall u | u in uris :: Score(u, uri) <= n
  }

  lemma BestMeans(r: Resource, uri: string, n: int)
    requires BestOf(r.uris, uri, n)
    ensures n <= |uri| + 1 && (n == |uri| + 1 <==> uri in r.uris)
    ensures 0 <= n <= |uri| ==> Covers(r, uri, n)
    ensures forall m: nat | Covers(r, uri, m) :: m <= n
  {
    if n >= 0 {
      var u :| u in r.uris && Score(u, uri) == n;
      ScoreMeans(u, uri);
    }
    if uri in r.uris { ScoreMeans(uri, uri); }
    forall m: nat | Covers(r, uri, m) ensures m <= n { ScoreMeans(uri[..m] + "*", uri); }
  }

  /** Scores of a whole list and their maximum. */
  ghost predicate Scored(rs: seq<Resource>, uri: string, scores: seq<int>, best: int) {
    && |scores| == |rs| && -1 <= best
    && (forall i | 0 <= i < |rs| :: BestOf(rs[i].uris, uri, scores[i]))
    && (forall i | 0 <= i < |rs| :: scores[i] <= best)
    && (best >= 0 ==> exists i :: 0 <= i < |rs| && scores[i] == best)
  }

  /** Keeping the maximal scores keeps exactly the best matches. */
  lemma MaximalSurvives(rs: seq<Resource>, uri: string, scores: seq<int>, best: int, i: nat)
    requires Scored(rs, uri, scores, best) && i < |rs|
    ensures Survives(rs, rs[i], uri) <==> scores[i] == best && best >= 0
  {
    forall k | 0 <= k < |rs| ensures (scores[k] == |uri| + 1 <==> uri in rs[k].uris) && scores[k] <= |uri| + 1
        && (0 <= scores[k] <= |uri| ==> Covers(rs[k], uri, scores[k]))
          && forall m: nat | Covers(rs[k], uri, m) :: m <= scores[k] {
      BestMeans(rs[k], uri, scores[k]);
    }
    hide BestOf;
    if ExactHeld(rs, uri) {
      var q :| q in rs && uri in q.uris;
      var k :| 0 <= k < |rs| && rs[k] == q;
      assert scores[k] == |uri| + 1 == best;
    } else {
      assert rs[i] in rs && scores[i] <= |uri|;
      if scores[i] == best >= 0 {
        forall q, m: nat | q in rs && Covers(q, uri, m) ensures m <= best {
          var k :| 0 <= k < |rs| && rs[k] == q;
        }
        assert Longest(rs, uri, best);
      }
      if n: nat :| Covers(rs[i], uri, n) && Longest(rs, uri, n) {
        var k :| 0 <= k < |rs| && scores[k] == best;
        assert rs[k] in rs && scores[k] <= |uri|;
        assert Covers(rs[k], uri, scores[k]);
      }
    }
  }

  /** Without an exact registration the survivors all hold one and the same pattern. */
  lemma OneSharedPattern(rs: seq<Resource>, uri: string, a: Resource, b: Resource)
    requires !ExactHeld(rs, uri) && a in rs && b in rs && Survives(rs, a, uri) && Survives(rs, b, uri)
    ensures exists n: nat :: Covers(a, uri, n) && Covers(b, uri, n) && Longest(rs, uri, n)
  {
    var n: nat :| Covers(a, uri, n) && Longest(rs, uri, n);
    var m: nat :| Covers(b, uri, m) && Longest(rs, uri, m);
    assert n == m;
  }

  // ----- the filter -----

  method BestScore(uris: seq<string>, uri: string) returns (score: int)
    ensures BestOf(uris, uri, score)
  {
    score := -1;
    for k := 0 to |uris|
      invariant BestOf(uris[..k], uri, score)
    {
      assert uris[..k + 1] == uris[..k] + [uris[k]];
      var s := Score(uris[k], uri);
      ScoreMeans(uris[k], uri);
      hide Score;
      if s > score { score := s; }
    }
    assert uris[..|uris|] == uris;
  }

  /** The score of every resource and the running best. */
  method ScoreAll(rs: seq<Resource>, uri: string) returns (scores: array<int>, best: int)
    ensures fresh(scores) && Scored(rs, uri, scores[..], best)
  {
    best := -1;
    scores := new int[|rs|];
    for i := 0 to |rs|
      invariant Scored(rs[..i], uri, scores[..i], best)
    {
      var score := BestScore(rs[i].uris, uri);
      scores[i] := score;
      hide BestOf;
      assert rs[..i + 1] == rs[..i] + [rs[i]] && scores[..i + 1] == scores[..i] + [score];
      ghost var was := best;
      if score > best { best := score; }
      ScoredMore(rs[..i], uri, scores[..i], was, rs[i], score);
      hide Scored;
    }
    assert rs[..|rs|] == rs && scores[..|rs|] == scores[..];
  }

  /** filterByMatchingURI: without a uri or without the flag, nothing is filtered. */
  method FilterByMatchingUri(rs: seq<Resource>, uri: string, matching: bool) returns (out: seq<Resource>)
    ensures out == if uri == "" || !matching then rs else Survivors(rs, rs, uri)
  {
    if uri == "" || !matching { return rs; }
    var scores, best := ScoreAll(rs, uri);
    ghost var got := scores[..];
    if best < 0 {
      NoneSurvive(rs, rs, uri, got, best);
      return [];
    }
    assert |got| == |rs|;
    hide Survives, Scored;
    out := [];
    for i := 0 to |rs|
      invariant scores[..] == got && out == Survivors(rs, rs[..i], uri)
    {
      assert rs[..i + 1][..i] == rs[..i] && scores[i] == got[i];
      MaximalSurvives(rs, uri, got, best, i);
      if scores[i] == best { out := out + [rs[i]]; }
    }
    assert rs[..|rs|] == rs;
  }

  lemma ScoredMore(rs: seq<Resource>, uri: string, scores: seq<int>, best: int, r: Resource, score: int)
    requires Scored(rs, uri, scores, best) && BestOf(r.uris, uri, score)
    ensures Scored(rs + [r], uri, scores + [score], if score > best then score else best)
  {
    hide BestOf;
    var all, next := rs + [r], scores + [score];
    forall i | 0 <= i < |all| ensures BestOf(all[i].uris, uri, next[i]) {
      if i < |rs| { assert all[i] == rs[i] && next[i] == scores[i]; }
    }
    if score > best { assert next[|rs|] == score; }
    else if best >= 0 {
      var i :| 0 <= i < |rs| && scores[i] == best;
      assert next[i] == best;
    }
  }

  lemma {:induction false} NoneSurvive(all: seq<Resource>, rs: seq<Resource>, uri: string, scores: seq<int>, best: int)
    requires Scored(all, uri, scores, best) && best < 0 && forall r | r in rs :: r in all
    ensures Survivors(all, rs, uri) == []
  {
    if rs != [] {
      var r := rs[|rs| - 1];
      assert r in rs;
      var i :| 0 <= i < |all| && all[i] == r;
      MaximalSurvives(all, uri, scores, best, i);
      NoneSurvive(all, rs[..|rs| - 1], uri, scores, best);
    }
  }
}
