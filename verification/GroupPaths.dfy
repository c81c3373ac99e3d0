/** Printing a group's path and walking it back down
    (internal/admin/groups.go:165-182, defaultgroups.go:139-178,
    organizationgroups.go:179-184, 402-434). */
module GroupPaths {
  import opened Basics
  import opened GroupModel
  import opened Strings

  // ----- trimming, splitting, joining -----

  function TrimLeft(s: string): (r: string)
    ensures r == "" || r[0] != '/'
  {
    if s != "" && s[0] == '/' then TrimLeft(s[1..]) else s
  }

  function TrimRight(s: string): (r: string)
    ensures r == "" || r[|r| - 1] != '/'
    ensures r <= s
  {
    if s != "" && s[|s| - 1] == '/' then TrimRight(s[..|s| - 1]) else s
  }

  function Trim(s: string): string {
    TrimRight(TrimLeft(s))
  }

  /** groupByPathSegments: an empty path has no segments. */
  function Segments(path: string): seq<string> {
    var trimmed := Trim(path);
    if trimmed == "" then [] else Split('/', trimmed)
  }

  /** Printed names survive the split exactly when none holds a slash and neither
      end is empty. */
  predicate Printable(names: seq<string>) {
    names != [] && names[0] != "" && names[|names| - 1] != "" && forall x | x in names :: '/' !in x
  }

  lemma PrintedSegments(names: seq<string>)
    requires Printable(names)
    ensures Segments("/" + Join('/', names)) == names
  {
    var s := "/" + Join('/', names);
    JoinEnds('/', names);
    SplitJoin('/', names);
    assert names[0] in names && names[|names| - 1] in names;
    assert s[1..] == Join('/', names);
    hide Join, Split;
    assert TrimLeft(s) == Join('/', names);
  }

  lemma {:induction false} SegmentsPrintable(path: string)
    requires Segments(path) != []
    ensures Printable(Segments(path))
  {
    var l := TrimLeft(path);
    var t := TrimRight(l);
    var names := Split('/', t);
    SplitPieces('/', t);
    JoinEnds('/', names);
    hide Join, Split;
    assert t[0] == l[0];
  }

  lemma SegmentsOfPrinted(names: seq<string>)
    requires names != []
    ensures Segments("/" + Join('/', names)) == names <==> Printable(names)
  {
    hide Printable, Segments;
    if Printable(names) { PrintedSegments(names); }
    if Segments("/" + Join('/', names)) == names { SegmentsPrintable("/" + Join('/', names)); }
  }

  // ----- chains -----

  /** Each row is the child of the one before; the first is the child of `a`. */
  predicate Linked(a: string, c: seq<Group>)
    decreases |c|
  {
    c == [] || (c[0].parent == a && Linked(c[0].id, c[1..]))
  }

  function Last(a: string, c: seq<Group>): string {
    if c == [] then a else c[|c| - 1].id
  }

  lemma {:induction false} LinkedParts(a: string, c: seq<Group>, d: seq<Group>)
    ensures Linked(a, c + d) <==> Linked(a, c) && Linked(Last(a, c), d)
    decreases |c|
  {
    if c == [] {
      assert c + d == d;
    } else {
      assert (c + d)[1..] == c[1..] + d && (c + d)[0] == c[0];
      LinkedParts(c[0].id, c[1..], d);
    }
  }

  lemma {:induction false} ChainLinked(rows: seq<Group>, depth: string -> nat, id: string)
    requires Tree(rows, depth) && (id == "" || id in Ids(rows))
    ensures Linked("", Chain(rows, depth, id))
    decreases depth(id), id != ""
  {
    if id != "" {
      var g := RowOf(rows, id);
      if g.parent != "" { ParentIsRow(rows, depth, g); }
      ChainStep(rows, depth, g);
      if g.parent != "" { ChainLinked(rows, depth, g.parent); }
      LinkedParts("", Chain(rows, depth, g.parent), [g]);
    }
  }

  /** A linked run of rows below `a` is the rest of the last one's ancestry. */
  lemma {:induction false} LinkedIsChain(rows: seq<Group>, depth: string -> nat, a: string, c: seq<Group>)
    requires Tree(rows, depth) && (a == "" || a in Ids(rows)) && Linked(a, c) && Within(c, rows)
    ensures Last(a, c) == "" || Last(a, c) in Ids(rows)
    ensures Chain(rows, depth, Last(a, c)) == Chain(rows, depth, a) + c
  {
    hide Tree, Chain, Linked;
    if c == [] {
      hide *;
      assert Last(a, c) == a by { LastOf(a, c); }
      assert Chain(rows, depth, a) + c == Chain(rows, depth, a);
    } else {
      var d, g := c[..|c| - 1], c[|c| - 1];
      assert c == d + [g] && g in c && Within(d, rows);
      hide Within, Ids;
      LinkedParts(a, d, [g]);
      LinkedOne(Last(a, d), g);
      LinkedIsChain(rows, depth, a, d);
      ChainStep(rows, depth, g);
      assert Chain(rows, depth, a) + c == Chain(rows, depth, a) + d + [g];
    }
  }

  lemma LastOf(a: string, c: seq<Group>)
    ensures c == [] ==> Last(a, c) == a
    ensures c != [] ==> Last(a, c) == c[|c| - 1].id
  {
  }

  lemma LinkedOne(a: string, g: Group)
    ensures Linked(a, [g]) <==> g.parent == a
  {
  }

  lemma {:induction false} PathIsJoin(c: seq<Group>)
    requires c != []
    ensures Path(c) == "/" + Join('/', NamesOf(c))
  {
    var d := c[..|c| - 1];
    if d == [] {
      assert Path(d) == "";
      assert NamesOf(c) == [c[0].name];
    } else {
      PathIsJoin(d);
      assert NamesOf(c) == NamesOf(d) + [c[|c| - 1].name];
      JoinMore('/', NamesOf(d), c[|c| - 1].name);
    }
  }

  // ----- the walk -----

  /** The first sibling of that name. */
  function Named(siblings: seq<Group>, name: string): (r: Option<Group>)
    ensures r.Some? ==> r.value in siblings && r.value.name == name
    ensures r == None ==> forall g | g in siblings :: g.name != name
  {
    if siblings == [] then None
    else if siblings[0].name == name then Some(siblings[0])
    else Named(siblings[1..], name)
  }

  /** groupAtPath from a starting parent; no segments find nothing. */
  function AtPath(rows: seq<Group>, parent: string, segments: seq<string>): Option<Group>
    decreases |segments|
  {
    if segments == [] then None
    else
      match Named(ChildrenOf(rows, parent), segments[0])
      case None => None
      case Some(g) => if |segments| == 1 then Some(g) else AtPath(rows, g.id, segments[1..])
  }

  lemma FirstFound(rows: seq<Group>, depth: string -> nat, g: Group)
    requires Tree(rows, depth) && g in rows
    ensures Named(ChildrenOf(rows, g.parent), g.name) == Some(g)
  {
    hide ChildrenOf, Named, Grounded;
    var found := Named(ChildrenOf(rows, g.parent), g.name);
    ChildrenAre(rows, g.parent, g);
    assert found != None;
    ChildrenAre(rows, g.parent, found.value);
  }

  lemma {:induction false} WalkFinds(rows: seq<Group>, depth: string -> nat, a: string, c: seq<Group>)
    requires Tree(rows, depth) && c != [] && Linked(a, c) && Within(c, rows)
    ensures AtPath(rows, a, NamesOf(c)) == Some(c[|c| - 1])
    decreases |c|
  {
    hide Tree, ChildrenOf, Named, Within;
    WithinRest(c, rows);
    FirstFound(rows, depth, c[0]);
    assert NamesOf(c)[0] == c[0].name && NamesOf(c)[1..] == NamesOf(c[1..]);
    if |c| > 1 { WalkFinds(rows, depth, c[0].id, c[1..]); }
  }

  lemma WithinRest(c: seq<Group>, rows: seq<Group>)
    requires Within(c, rows) && c != []
    ensures c[0] in rows && Within(c[1..], rows)
  {
    assert c[0] in c;
  }

  lemma FirstLinked(a: string, g: Group, d: seq<Group>, rows: seq<Group>)
    requires g in rows && g.parent == a && Linked(g.id, d) && Within(d, rows)
    ensures Linked(a, [g] + d) && Within([g] + d, rows) && NamesOf([g] + d) == [g.name] + NamesOf(d)
  {
    assert ([g] + d)[1..] == d;
  }

  lemma {:induction false} WalkLinks(rows: seq<Group>, a: string, segments: seq<string>) returns (c: seq<Group>)
    requires AtPath(rows, a, segments).Some?
    ensures c != [] && Linked(a, c) && c[|c| - 1] == AtPath(rows, a, segments).value && NamesOf(c) == segments
    ensures Within(c, rows)
    decreases |segments|
  {
    var g := Named(ChildrenOf(rows, a), segments[0]).value;
    ChildrenAre(rows, a, g);
    hide Named, ChildrenOf, Within, Linked, NamesOf;
    var d: seq<Group> := [];
    if |segments| == 1 {
      NoneLinked(g.id, rows);
    } else {
      d := WalkLinks(rows, g.id, segments[1..]);
    }
    FirstLinked(a, g, d, rows);
    c := [g] + d;
    assert NamesOf(d) == segments[1..] && c[|c| - 1] == if d == [] then g else d[|d| - 1];
  }

  lemma NoneLinked(a: string, rows: seq<Group>)
    ensures Linked(a, []) && Within([], rows) && NamesOf([]) == []
  {
  }

  // ----- print, then parse -----

  /** Below any starting row, the printed path of a run of descendants leads back to
      the last of them exactly when its names are printable. */
  lemma PathReturns(rows: seq<Group>, depth: string -> nat, a: string, c: seq<Group>)
    requires Tree(rows, depth) && (a == "" || a in Ids(rows))
    requires c != [] && Linked(a, c) && Within(c, rows)
    ensures AtPath(rows, a, Segments(Path(c))) == Some(c[|c| - 1]) <==> Printable(NamesOf(c))
  {
    PathIsJoin(c);
    SegmentsOfPrinted(NamesOf(c));
    var segments := Segments(Path(c));
    if Printable(NamesOf(c)) { WalkFinds(rows, depth, a, c); }
    if AtPath(rows, a, segments) == Some(c[|c| - 1]) {
      var d := WalkLinks(rows, a, segments);
      LinkedIsChain(rows, depth, a, c);
      LinkedIsChain(rows, depth, a, d);
      assert c == d by {
        var up := Chain(rows, depth, a);
        assert (up + c)[|up|..] == c && (up + d)[|up|..] == d;
      }
    }
  }

  /** The realm's groups: from the top level. */
  lemma RealmPathReturns(rows: seq<Group>, depth: string -> nat, g: Group)
    requires Tree(rows, depth) && g in rows
    ensures g.id in Ids(rows)
    ensures
      var chain := Chain(rows, depth, g.id);
      AtPath(rows, "", Segments(Path(chain))) == Some(g) <==> Printable(NamesOf(chain))
  {
    ChainStep(rows, depth, g);
    ChainLinked(rows, depth, g.id);
    PathReturns(rows, depth, "", Chain(rows, depth, g.id));
  }

  /** organizationGroupPath: the hidden root is dropped whenever anything is below it. */
  function OrganizationPath(chain: seq<Group>): string {
    Path(if |chain| > 1 then chain[1..] else chain)
  }

  /** An organization's groups: from its hidden root, which is in no path. */
  lemma OrganizationPathReturns(rows: seq<Group>, depth: string -> nat, g: Group)
    requires Tree(rows, depth) && g in rows && g.parent != ""
    ensures g.id in Ids(rows)
    ensures
      var chain := Chain(rows, depth, g.id);
      |chain| > 1 && (AtPath(rows, chain[0].id, Segments(OrganizationPath(chain))) == Some(g)
        <==> Printable(NamesOf(chain[1..])))
  {
    ParentIsRow(rows, depth, g);
    ChainStep(rows, depth, g);
    ChainLinked(rows, depth, g.id);
    var chain := Chain(rows, depth, g.id);
    assert chain[0] in chain;
    SameRow(rows, chain[0]);
    PathReturns(rows, depth, chain[0].id, chain[1..]);
  }

  /** The walk never comes back to where it started, so the hidden root itself is
      found under no path. */
  lemma RootNeverFound(rows: seq<Group>, depth: string -> nat, root: Group, segments: seq<string>)
    requires Tree(rows, depth) && root in rows
    ensures AtPath(rows, root.id, segments) != Some(root)
  {
    if AtPath(rows, root.id, segments) == Some(root) {
      SameRow(rows, root);
      var c := WalkLinks(rows, root.id, segments);
      LinkedIsChain(rows, depth, root.id, c);
    }
  }

  /** Paths tell printable groups apart. */
  lemma PathsDiffer(rows: seq<Group>, depth: string -> nat, g: Group, h: Group)
    requires Tree(rows, depth) && g in rows && h in rows
    ensures g.id in Ids(rows) && h.id in Ids(rows)
    ensures
      var c, d := Chain(rows, depth, g.id), Chain(rows, depth, h.id);
      Printable(NamesOf(c)) && Printable(NamesOf(d)) && Path(c) == Path(d) ==> g == h
  {
    RealmPathReturns(rows, depth, g);
    RealmPathReturns(rows, depth, h);
  }

  lemma OneGroup(g: Group, depth: string -> nat)
    requires g.id != "" && g.parent == ""
    ensures Tree([g], depth) && g.id in Ids([g]) && Chain([g], depth, g.id) == [g]
  {
    assert Ids([g]) == [g.id];
    assert Grounded([g], depth, g);
    ChainStep([g], depth, g);
    assert Chain([g], depth, "") == [];
  }

  /** A group named with a slash: its path leads elsewhere. */
  lemma SlashIsLost(depth: string -> nat)
    ensures
      var g := Group("1", "", "a/b", false);
      Tree([g], depth) && Path(Chain([g], depth, "1")) == "/a/b" && AtPath([g], "", Segments("/a/b")) != Some(g)
  {
    var g := Group("1", "", "a/b", false);
    OneGroup(g, depth);
    hide Tree, Chain, AtPath, Segments;
    RealmPathReturns([g], depth, g);
    assert NamesOf([g])[0] == "a/b" && "a/b"[1] == '/';
    assert Path([g]) == Path([]) + "/" + "a/b";
  }
}
