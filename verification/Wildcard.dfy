/** Greedy wildcard containment (internal/admin/organizationmembers.go:431-453). */
module Wildcard {
  import opened Basics
  import opened Strings

  /** The gaps and the runs interleaved: a gap, a run, a gap, and so on. */
  function Interleave(gaps: seq<string>, runs: seq<string>): string
    requires |gaps| == |runs| + 1
    decreases |runs|
  {
    if runs == [] then gaps[0] else gaps[0] + runs[0] + Interleave(gaps[1..], runs[1..])
  }

  /** The value splits into gaps around the runs, in order and without overlap. */
  ghost predicate Weaves(value: string, runs: seq<string>) {
    exists gaps: seq<string> :: |gaps| == |runs| + 1 && value == Interleave(gaps, runs)
  }

  /** What a pattern means: '*' is any run of characters, anything else is itself. */
  ghost predicate Glob(pattern: string, value: string)
    decreases |pattern|
  {
    if pattern == "" then value == ""
    else if pattern[0] == '*' then exists i :: 0 <= i <= |value| && Glob(pattern[1..], value[i..])
    else value != "" && value[0] == pattern[0] && Glob(pattern[1..], value[1..])
  }

  // ----- the leftmost occurrence -----

  predicate At(value: string, run: string, i: nat) {
    i + |run| <= |value| && value[i..i + |run|] == run
  }

  /** strings.Index. */
  function Index(value: string, run: string): (i: int)
    ensures -1 <= i
    ensures i >= 0 ==> At(value, run, i)
    ensures forall j: nat :: (i < 0 || j < i) ==> !At(value, run, j)
    decreases |value|
  {
    if run <= value then 0
    else if value == "" then -1
    else
      var i := Index(value[1..], run);
      assert forall j: nat | j > 0 :: At(value, run, j) <==> At(value[1..], run, j - 1) by {
        forall j: nat | j > 0 { AtNext(value, run, j); }
      }
      if i < 0 then -1 else i + 1
  }

  lemma AtNext(value: string, run: string, j: nat)
    requires j > 0 && value != ""
    ensures At(value, run, j) <==> At(value[1..], run, j - 1)
  {
    var tail := value[1..];
    if j + |run| <= |value| {
      assert tail[j - 1..j - 1 + |run|] == value[j..j + |run|];
    }
  }

  // ----- weaving -----

  lemma WeavesNone(value: string)
    ensures Weaves(value, [])
  {
    assert Interleave([value], []) == value;
  }

  lemma WeavesAt(value: string, runs: seq<string>, i: nat)
    requires runs != [] && At(value, runs[0], i) && Weaves(After(value, runs[0], i), runs[1..])
    ensures Weaves(value, runs)
  {
    var rest := value[i + |runs[0]|..];
    var gaps: seq<string> :| |gaps| == |runs[1..]| + 1 && rest == Interleave(gaps, runs[1..]);
    var all := [value[..i]] + gaps;
    assert all[1..] == gaps;
    assert value == value[..i] + value[i..i + |runs[0]|] + rest;
    assert value == Interleave(all, runs);
  }

  lemma WeavesSplits(value: string, runs: seq<string>) returns (i: nat)
    requires runs != [] && Weaves(value, runs)
    ensures At(value, runs[0], i) && Weaves(After(value, runs[0], i), runs[1..])
  {
    var gaps: seq<string> :| |gaps| == |runs| + 1 && value == Interleave(gaps, runs);
    i := |gaps[0]|;
    var rest := Interleave(gaps[1..], runs[1..]);
    assert value == gaps[0] + runs[0] + rest;
    assert value[i + |runs[0]|..] == rest;
  }

  /** Whatever weaves into a suffix weaves into the whole: the slack joins the first gap. */
  lemma WeavesLonger(value: string, k: nat, runs: seq<string>)
    requires k <= |value| && Weaves(value[k..], runs)
    ensures Weaves(value, runs)
  {
    if runs == [] {
      WeavesNone(value);
    } else {
      var i := WeavesSplits(value[k..], runs);
      assert value[k..][i..i + |runs[0]|] == value[k + i..k + i + |runs[0]|];
      assert value[k..][i + |runs[0]|..] == value[k + i + |runs[0]|..];
      WeavesAt(value, runs, k + i);
    }
  }

  /** What is left after an occurrence. */
  function After(value: string, run: string, i: nat): string
    requires At(value, run, i)
  {
    value[i + |run|..]
  }

  /** Weaving after a later occurrence weaves after an earlier one. */
  lemma EarlierSuffices(value: string, run: string, at: nat, i: nat, runs: seq<string>)
    requires at <= i && At(value, run, at) && At(value, run, i) && Weaves(After(value, run, i), runs)
    ensures Weaves(After(value, run, at), runs)
  {
    assert After(value, run, at)[i - at..] == After(value, run, i);
    WeavesLonger(After(value, run, at), i - at, runs);
  }

  /** Taking the leftmost occurrence loses nothing. */
  lemma LeftmostSuffices(value: string, runs: seq<string>)
    requires runs != []
    ensures Index(value, runs[0]) < 0 ==> !Weaves(value, runs)
    ensures Index(value, runs[0]) >= 0
      ==> (Weaves(value, runs) <==> Weaves(After(value, runs[0], Index(value, runs[0])), runs[1..]))
  {
    hide Weaves, Index, At;
    var at := Index(value, runs[0]);
    if Weaves(value, runs) {
      var i := WeavesSplits(value, runs);
      if at >= 0 { EarlierSuffices(value, runs[0], at, i, runs[1..]); }
    } else if at >= 0 && Weaves(After(value, runs[0], at), runs[1..]) {
      WeavesAt(value, runs, at);
    }
  }

  /** containsWildcard; `lower` is the library's case folding. */
  method ContainsWildcard(lower: string -> string, value: string, term: string) returns (r: bool)
    ensures r <==> Weaves(lower(value), Split('*', lower(term)))
    ensures r <==> Glob("*" + lower(term) + "*", lower(value))
  {
    hide Weaves, Index, Split, Glob;
    WeavesIsGlob(lower(value), lower(term));
    var left := lower(value);
    var runs := Split('*', lower(term));
    assert runs[0..] == runs;
    for k := 0 to |runs|
      invariant Weaves(left, runs[k..]) <==> Weaves(lower(value), runs)
    {
      ghost var rest := runs[k..];
      assert rest[0] == runs[k] && rest[1..] == runs[k + 1..];
      LeftmostSuffices(left, rest);
      if runs[k] == "" {
        EmptyRun(left);
        continue;
      }
      var idx := Index(left, runs[k]);
      if idx < 0 { return false; }
      left := left[idx + |runs[k]|..];
    }
    WeavesNone(left);
    assert runs[|runs|..] == [];
    return true;
  }

  /** Skipping an empty run is finding it at once. */
  lemma EmptyRun(value: string)
    ensures Index(value, "") == 0 && At(value, "", 0) && After(value, "", 0) == value
  {
  }

  // ----- the pattern it decides -----

  /** A star in front is any suffix. */
  lemma StarGlob(pattern: string, value: string)
    ensures Glob("*" + pattern, value) <==> exists i :: 0 <= i <= |value| && Glob(pattern, value[i..])
  {
    assert ("*" + pattern)[1..] == pattern;
  }

  /** A run without a star is itself. */
  lemma {:induction false} RunGlob(run: string, pattern: string, value: string)
    requires '*' !in run
    ensures Glob(run + pattern, value) <==> At(value, run, 0) && Glob(pattern, value[|run|..])
  {
    if run == "" {
      assert run + pattern == pattern && value[0..] == value;
    } else {
      var p := run + pattern;
      assert p[0] == run[0] && p[1..] == run[1..] + pattern;
      if value != "" {
        RunGlob(run[1..], pattern, value[1..]);
        AtFront(value, run);
        if |value| >= |run| { assert value[1..][|run| - 1..] == value[|run|..]; }
      }
    }
  }

  lemma AtFront(value: string, run: string)
    requires value != "" && run != ""
    ensures At(value, run, 0) <==> value[0] == run[0] && At(value[1..], run[1..], 0)
  {
    assert run == [run[0]] + run[1..];
    if |run| <= |value| {
      assert value[0..|run|] == [value[0]] + value[1..][0..|run| - 1];
    }
  }

  /** The pattern of the runs with a star before, between and after them. */
  function Starred(runs: seq<string>): string {
    if runs == [] then "*" else "*" + runs[0] + Starred(runs[1..])
  }

  lemma {:induction false} StarredJoin(runs: seq<string>)
    requires runs != []
    ensures Starred(runs) == "*" + Join('*', runs) + "*"
  {
    if |runs| > 1 {
      StarredJoin(runs[1..]);
      assert "*" + runs[0] + ("*" + Join('*', runs[1..]) + "*") == "*" + (runs[0] + ['*'] + Join('*', runs[1..])) + "*";
    } else {
      assert Starred(runs[1..]) == "*";
    }
  }

  /** One run and the rest, from some position on. */
  lemma RunThenStars(runs: seq<string>, value: string, i: nat)
    requires runs != [] && (forall r | r in runs :: '*' !in r) && i <= |value|
    requires At(value, runs[0], i)
      ==> (Glob(Starred(runs[1..]), After(value, runs[0], i)) <==> Weaves(After(value, runs[0], i), runs[1..]))
    ensures Glob(runs[0] + Starred(runs[1..]), value[i..])
       <==> At(value, runs[0], i) && Weaves(After(value, runs[0], i), runs[1..])
  {
    hide Glob, Weaves, Starred;
    assert runs[0] in runs;
    var tail := value[i..];
    RunGlob(runs[0], Starred(runs[1..]), tail);
    if i + |runs[0]| <= |value| {
      assert tail[0..|runs[0]|] == value[i..i + |runs[0]|];
      assert tail[|runs[0]|..] == value[i + |runs[0]|..];
    }
  }

  lemma {:induction false} StarredIsWeave(runs: seq<string>, value: string)
    requires forall r | r in runs :: '*' !in r
    ensures Glob(Starred(runs), value) <==> Weaves(value, runs)
    decreases |runs|
  {
    if runs == [] {
      WeavesNone(value);
      StarGlob("", value);
      assert "*" + "" == "*" && value[|value|..] == "" && Glob("", "");
    } else {
      var rest := runs[0] + Starred(runs[1..]);
      assert Starred(runs) == "*" + rest;
      StarGlob(rest, value);
      hide Glob, Weaves, Starred, At;
      forall i: nat | i <= |value|
        ensures Glob(rest, value[i..]) <==> At(value, runs[0], i) && Weaves(After(value, runs[0], i), runs[1..])
      {
        if At(value, runs[0], i) { StarredIsWeave(runs[1..], After(value, runs[0], i)); }
        RunThenStars(runs, value, i);
      }
      if Weaves(value, runs) {
        var i := WeavesSplits(value, runs);
        AtBound(value, runs[0], i);
        assert Glob(rest, value[i..]);
      }
      if Glob(Starred(runs), value) {
        var i :| 0 <= i <= |value| && Glob(rest, value[i..]);
        WeavesAt(value, runs, i);
      }
    }
  }

  lemma AtBound(value: string, run: string, i: nat)
    requires At(value, run, i)
    ensures i <= |value|
  {
  }

  /** So the filter holds exactly when the term, with neither end anchored, matches as
      a pattern. */
  lemma WeavesIsGlob(value: string, term: string)
    ensures Weaves(value, Split('*', term)) <==> Glob("*" + term + "*", value)
  {
    SplitPieces('*', term);
    StarredJoin(Split('*', term));
    StarredIsWeave(Split('*', term), value);
  }
}
