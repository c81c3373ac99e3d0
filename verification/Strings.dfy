/** Splitting a string at a separator and joining the pieces. */
module Strings {
  function Split(sep: char, s: string): (r: seq<string>)
    ensures r != []
  {
    if s == "" then [""]
    else
      var rest := Split(sep, s[1..]);
      if s[0] == sep then [""] + rest else [[s[0]] + rest[0]] + rest[1..]
  }

  function Join(sep: char, names: seq<string>): string {
    if names == [] then "" else if |names| == 1 then names[0] else names[0] + [sep] + Join(sep, names[1..])
  }

  lemma {:induction false} SplitPieces(sep: char, s: string)
    ensures Join(sep, Split(sep, s)) == s && forall x | x in Split(sep, s) :: sep !in x
  {
    if s != "" {
      SplitPieces(sep, s[1..]);
      var rest := Split(sep, s[1..]);
      if s[0] == sep {
        assert ([""] + rest)[1..] == rest;
      } else {
        var r := [[s[0]] + rest[0]] + rest[1..];
        assert r[1..] == rest[1..];
        assert s == [s[0]] + s[1..];
        if |rest| > 1 {
          assert [s[0]] + (rest[0] + [sep] + Join(sep, rest[1..])) == ([s[0]] + rest[0]) + [sep] + Join(sep, rest[1..]);
        }
      }
    }
  }

  lemma {:induction false} SplitOne(sep: char, s: string)
    requires sep !in s
    ensures Split(sep, s) == [s]
  {
    if s != "" {
      SplitOne(sep, s[1..]);
      assert [s[0]] + s[1..] == s && [s[1..]][1..] == [];
    }
  }

  lemma {:induction false} SplitFirst(sep: char, x: string, rest: string)
    requires sep !in x
    ensures Split(sep, x + [sep] + rest) == [x] + Split(sep, rest)
  {
    var s := x + [sep] + rest;
    if x == "" {
      assert s[1..] == rest;
    } else {
      SplitFirst(sep, x[1..], rest);
      assert s[1..] == x[1..] + [sep] + rest;
      assert ([x[1..]] + Split(sep, rest))[1..] == Split(sep, rest);
      assert [x[0]] + x[1..] == x && s[0] == x[0];
    }
  }

  lemma {:induction false} SplitJoin(sep: char, names: seq<string>)
    requires names != [] && forall x | x in names :: sep !in x
    ensures Split(sep, Join(sep, names)) == names
  {
    if |names| == 1 {
      SplitOne(sep, names[0]);
    } else {
      SplitJoin(sep, names[1..]);
      SplitFirst(sep, names[0], Join(sep, names[1..]));
    }
  }

  /** What a joined list begins and ends with. */
  lemma {:induction false} JoinEnds(sep: char, names: seq<string>)
    requires names != []
    ensures names[0] != "" ==> Join(sep, names) != "" && Join(sep, names)[0] == names[0][0]
    ensures names[0] == "" && |names| > 1 ==> Join(sep, names) != "" && Join(sep, names)[0] == sep
    ensures
      var last, joined := names[|names| - 1], Join(sep, names);
      && (last != "" ==> joined != "" && joined[|joined| - 1] == last[|last| - 1])
      && (last == "" && |names| > 1 ==> joined != "" && joined[|joined| - 1] == sep)
  {
    if |names| > 1 {
      JoinEnds(sep, names[1..]);
      assert names[1..][|names[1..]| - 1] == names[|names| - 1];
    }
  }

  lemma {:induction false} JoinMore(sep: char, names: seq<string>, x: string)
    requires names != []
    ensures Join(sep, names + [x]) == Join(sep, names) + [sep] + x
  {
    if |names| > 1 {
      JoinMore(sep, names[1..], x);
      assert (names + [x])[1..] == names[1..] + [x];
    } else {
      assert (names + [x])[1..] == [x];
    }
  }
}
