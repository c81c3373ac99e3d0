/** The group handlers' loops: printing and walking paths, the search, the count
    (internal/admin/groups.go:165-370, defaultgroups.go:159-178). */
module GroupHandlers {
  import opened Basics
  import opened GroupModel
  import opened GroupPaths
  import opened GroupSearch
  import Ordering

  // ----- paths -----

  /** The store's Ancestry: up the parents, each put in front. */
  method AncestryOf(rows: seq<Group>, ghost depth: string -> nat, id: string) returns (chain: seq<Group>)
    requires Tree(rows, depth) && (id == "" || id in Ids(rows))
    ensures chain == Chain(rows, depth, id)
  {
    hide *;
    var at := id;
    chain := [];
    assert Chain(rows, depth, id) + [] == Chain(rows, depth, id);
    while at != ""
      invariant at == "" || at in Ids(rows)
      invariant Chain(rows, depth, at) + chain == Chain(rows, depth, id)
      decreases if at == "" then 0 else depth(at) + 1
    {
      var g := RowOf(rows, at);
      ChainStep(rows, depth, g);
      if g.parent != "" { ParentIsRow(rows, depth, g); }
      assert Chain(rows, depth, g.parent) + [g] + chain == Chain(rows, depth, g.parent) + ([g] + chain);
      chain := [g] + chain;
      at := g.parent;
    }
  }

  /** groupPath. */
  method PrintPath(chain: seq<Group>) returns (path: string)
    ensures path == Path(chain)
  {
    path := "";
    for k := 0 to |chain|
      invariant path == Path(chain[..k])
    {
      assert chain[..k + 1][..k] == chain[..k];
      path := path + "/" + chain[k].name;
    }
    assert chain[..|chain|] == chain;
  }

  /** The inner loop of the walk: the first sibling of that name. */
  method FindNamed(siblings: seq<Group>, name: string) returns (found: Option<Group>)
    ensures found == Named(siblings, name)
  {
    found := None;
    assert siblings[0..] == siblings;
    for k := 0 to |siblings|
      invariant found == None && Named(siblings[k..], name) == Named(siblings, name)
    {
      assert siblings[k..][0] == siblings[k] && siblings[k..][1..] == siblings[k + 1..];
      if siblings[k].name == name { return Some(siblings[k]); }
    }
  }

  /** groupAtPath, from the top level or from an organization's root. */
  method GroupAtPath(rows: seq<Group>, from: string, segments: seq<string>) returns (found: Option<Group>)
    ensures found == AtPath(rows, from, segments)
  {
    if |segments| == 0 { return None; }
    var parent := from;
    found := None;
    assert segments[0..] == segments;
    for k := 0 to |segments|
      invariant k < |segments| ==> AtPath(rows, parent, segments[k..]) == AtPath(rows, from, segments)
      invariant k == |segments| ==> found == AtPath(rows, from, segments)
    {
      assert segments[k..][0] == segments[k] && segments[k..][1..] == segments[k + 1..];
      hide Named, ChildrenOf;
      found := FindNamed(ChildrenOf(rows, parent), segments[k]);
      if found == None { return None; }
      parent := found.value.id;
    }
  }

  // ----- matching, paging, counting -----

  predicate Contains(s: string, sub: string) {
    exists i :: 0 <= i <= |s| && sub <= s[i..]
  }

  /** A case-insensitive substring; `lower` is the library's case folding. */
  predicate NameMatches(lower: string -> string, name: string, search: string) {
    Contains(lower(name), lower(search))
  }

  /** ListAll: every group outside the organizations. */
  function ListAll(rows: seq<Group>): seq<Group> {
    if rows == [] then [] else (if rows[0].organization then [] else [rows[0]]) + ListAll(rows[1..])
  }

  function Matched(lower: string -> string, all: seq<Group>, search: string): seq<Group> {
    if all == [] then []
    else (if NameMatches(lower, all[0].name, search) then [all[0]] else []) + Matched(lower, all[1..], search)
  }

  function Page<T>(xs: seq<T>, first: Option<int>, max: Option<int>): seq<T> {
    var skipped :=
      if first.Some? && first.value > 0 then (if first.value >= |xs| then [] else xs[first.value..]) else xs;
    if max.Some? && 0 <= max.value < |skipped| then skipped[..max.value] else skipped
  }

  /** Either bound alone pages: a page is the run of at most `max` from `first` on,
      and a bound that is absent or negative bounds nothing. */
  lemma PageMeans<T>(xs: seq<T>, first: Option<int>, max: Option<int>)
    ensures
      var from := if first.Some? && first.value > 0 then (if first.value < |xs| then first.value else |xs|) else 0;
      var len := if max.Some? && 0 <= max.value < |xs| - from then max.value else |xs| - from;
      Page(xs, first, max) == xs[from..from + len]
  {
  }

  lemma {:induction false} ListAllAre(rows: seq<Group>, g: Group)
    ensures g in ListAll(rows) <==> g in rows && !g.organization
  {
    if rows != [] { ListAllAre(rows[1..], g); }
  }

  lemma {:induction false} MatchedAre(lower: string -> string, all: seq<Group>, search: string, g: Group)
    ensures g in Matched(lower, all, search) <==> g in all && NameMatches(lower, g.name, search)
  {
    hide NameMatches;
    if all != [] { MatchedAre(lower, all[1..], search, g); }
  }

  lemma MatchedNext(lower: string -> string, all: seq<Group>, search: string, k: nat)
    requires k < |all|
    ensures
      var rest := Matched(lower, all[k + 1..], search);
      Matched(lower, all[k..], search) == if NameMatches(lower, all[k].name, search) then [all[k]] + rest else rest
  {
    hide NameMatches;
    assert all[k..][0] == all[k] && all[k..][1..] == all[k + 1..];
    assert [] + Matched(lower, all[k + 1..], search) == Matched(lower, all[k + 1..], search);
  }

  lemma MatchedEnds(lower: string -> string, all: seq<Group>, search: string)
    ensures all[0..] == all && Matched(lower, all[|all|..], search) == []
  {
  }

  /** The search loop: the matches in listing order. */
  method CollectMatches(lower: string -> string, all: seq<Group>, search: string) returns (matched: seq<Group>)
    ensures matched == Matched(lower, all, search)
  {
    hide NameMatches, Matched;
    matched := [];
    MatchedEnds(lower, all, search);
    for k := 0 to |all|
      invariant matched + Matched(lower, all[k..], search) == Matched(lower, all, search)
    {
      MatchedNext(lower, all, search, k);
      if NameMatches(lower, all[k].name, search) {
        ghost var rest := Matched(lower, all[k + 1..], search);
        assert matched + ([all[k]] + rest) == matched + [all[k]] + rest;
        matched := matched + [all[k]];
      }
    }
  }

  function Tops(all: seq<Group>): seq<Group> {
    if all == [] then [] else (if all[0].parent != "" then [] else [all[0]]) + Tops(all[1..])
  }

  lemma TopsNext(all: seq<Group>, k: nat)
    requires k < |all|
    ensures |Tops(all[k..])| == (if all[k].parent != "" then 0 else 1) + |Tops(all[k + 1..])|
  {
    assert all[k..][0] == all[k] && all[k..][1..] == all[k + 1..];
  }

  /** What countGroups counts: the matches, or the top level, or everything; `top` is
      ignored when there is a search. */
  function Counted(rows: seq<Group>, lower: string -> string, search: string, top: bool): seq<Group> {
    if search != "" then Matched(lower, ListAll(rows), search)
    else if top then Tops(ListAll(rows))
    else ListAll(rows)
  }

  method CountGroups(rows: seq<Group>, lower: string -> string, search: string, top: bool) returns (n: nat)
    ensures n == |Counted(rows, lower, search, top)|
  {
    hide NameMatches, ListAll, Matched, Tops;
    var all := ListAll(rows);
    n := 0;
    MatchedEnds(lower, all, search);
    for k := 0 to |all|
      invariant search != "" ==> n + |Matched(lower, all[k..], search)| == |Matched(lower, all, search)|
      invariant search == "" && top ==> n + |Tops(all[k..])| == |Tops(all)|
      invariant search == "" && !top ==> n == k
    {
      MatchedNext(lower, all, search, k);
      TopsNext(all, k);
      if search != "" {
        if NameMatches(lower, all[k].name, search) { n := n + 1; }
        continue;
      }
      if top && all[k].parent != "" { continue; }
      n := n + 1;
    }
    assert Tops(all[|all|..]) == [] by { NoTops(all); }
  }

  lemma NoTops(all: seq<Group>)
    ensures Tops(all[|all|..]) == []
  {
  }

  /** A match is a stretch of the name, wherever it stands. */
  lemma ContainsIs(s: string, sub: string)
    ensures Contains(s, sub) <==> exists before, after :: s == before + sub + after
  {
    if i :| 0 <= i <= |s| && sub <= s[i..] {
      assert s == s[..i] + sub + s[i + |sub|..];
    }
    if before, after :| s == before + sub + after {
      assert s[|before|..] == sub + after;
    }
  }

  lemma {:induction false} TopsAre(all: seq<Group>, g: Group)
    ensures g in Tops(all) <==> g in all && g.parent == ""
  {
    if all != [] { TopsAre(all[1..], g); }
  }

  lemma {:induction false} IdsOfTops(all: seq<Group>)
    requires NoRepeats(Ids(all))
    ensures NoRepeats(Ids(Tops(all))) && forall x | x in Ids(Tops(all)) :: x in Ids(all)
  {
    hide NoRepeats;
    if all == [] {
      assert Ids(Tops(all)) == Ids(all);
    } else {
      var rest := Tops(all[1..]);
      assert Ids(all) == [all[0].id] + Ids(all[1..]);
      FirstDiffers(all[0].id, Ids(all[1..]));
      FirstDiffers(all[0].id, Ids(rest));
      IdsOfTops(all[1..]);
      assert Ids(Tops(all)) == if all[0].parent != "" then Ids(rest) else [all[0].id] + Ids(rest);
    }
  }

  /** The group is outside the organizations and is asked for: by its name when there is a
      search, or else by standing at the top level when only that is asked for. */
  ghost predicate AskedFor(lower: string -> string, search: string, top: bool, g: Group) {
    && !g.organization
    && (search != "" ==> exists before, after :: lower(g.name) == before + lower(search) + after)
    && (search == "" && top ==> g.parent == "")
  }

  /** The count counts exactly the groups asked for, each once. */
  lemma CountedAre(rows: seq<Group>, lower: string -> string, search: string, top: bool, g: Group)
    requires NoRepeats(Ids(rows))
    ensures g in Counted(rows, lower, search, top) <==> g in rows && AskedFor(lower, search, top, g)
    ensures NoRepeats(Ids(Counted(rows, lower, search, top)))
  {
    hide Contains, NoRepeats;
    ContainsIs(lower(g.name), lower(search));
    ListAllAre(rows, g);
    MatchedAre(lower, ListAll(rows), search, g);
    TopsAre(ListAll(rows), g);
    IdsOfListAll(rows);
    IdsOfMatched(lower, ListAll(rows), search);
    IdsOfTops(ListAll(rows));
  }

  lemma {:induction false} ListAllOrder(rows: seq<Group>, g: Group, h: Group)
    ensures Ahead(ListAll(rows), g, h) <==> !g.organization && !h.organization && Ahead(rows, g, h)
  {
    hide Ahead;
    if rows == [] {
      assert !Ahead(rows, g, h) by { NoneAhead(rows, g, h); }
    } else {
      assert rows == [rows[0]] + rows[1..];
      ListAllOrder(rows[1..], g, h);
      ListAllAre(rows[1..], h);
      AheadFirst(rows[0], rows[1..], g, h);
      AheadFirst(rows[0], ListAll(rows[1..]), g, h);
      if rows[0].organization { assert ListAll(rows) == ListAll(rows[1..]); }
    }
  }

  lemma NoneAhead(rows: seq<Group>, g: Group, h: Group)
    ensures rows == [] ==> !Ahead(rows, g, h)
  {
  }

  lemma {:induction false} MatchedOrder(lower: string -> string, all: seq<Group>, search: string, g: Group, h: Group)
    ensures Ahead(Matched(lower, all, search), g, h) <==>
      NameMatches(lower, g.name, search) && NameMatches(lower, h.name, search) && Ahead(all, g, h)
  {
    hide Ahead, NameMatches;
    if all == [] {
      assert !Ahead(all, g, h) by { NoneAhead(all, g, h); }
    } else {
      assert all == [all[0]] + all[1..];
      MatchedOrder(lower, all[1..], search, g, h);
      MatchedAre(lower, all[1..], search, h);
      AheadFirst(all[0], all[1..], g, h);
      AheadFirst(all[0], Matched(lower, all[1..], search), g, h);
      if !NameMatches(lower, all[0].name, search) {
        assert Matched(lower, all, search) == Matched(lower, all[1..], search);
      }
    }
  }

  /** The matches a search pages over stand in the order the groups are listed in. */
  lemma MatchesListed(rows: seq<Group>, lower: string -> string, search: string, g: Group, h: Group)
    ensures Ahead(Matched(lower, ListAll(rows), search), g, h) <==>
      && !g.organization && !h.organization && NameMatches(lower, g.name, search) && NameMatches(lower, h.name, search)
      && Ahead(rows, g, h)
  {
    hide Ahead, NameMatches, Matched, ListAll;
    MatchedOrder(lower, ListAll(rows), search, g, h);
    ListAllOrder(rows, g, h);
  }

  // ----- sorting the roots -----

  predicate NameAtMost(a: string, b: string) {
    a == "" || (b != "" && (a[0] < b[0] || (a[0] == b[0] && NameAtMost(a[1..], b[1..]))))
  }

  lemma {:induction false} NamesCompare(a: string, b: string)
    ensures NameAtMost(a, b) || NameAtMost(b, a)
  {
    if a != "" && b != "" && a[0] == b[0] { NamesCompare(a[1..], b[1..]); }
  }

  predicate ByName(gs: seq<Group>) {
    forall i :: 0 < i < |gs| ==> NameAtMost(gs[i - 1].name, gs[i].name)
  }

  /** The sort by name; roots never share one. */
  function Insert(gs: seq<Group>, g: Group): seq<Group> {
    if gs == [] then [g] else if NameAtMost(g.name, gs[0].name) then [g] + gs else [gs[0]] + Insert(gs[1..], g)
  }

  function SortByName(gs: seq<Group>): seq<Group> {
    if gs == [] then [] else Insert(SortByName(gs[1..]), gs[0])
  }

  lemma ByNameFirst(g: Group, gs: seq<Group>)
    requires ByName(gs) && (gs != [] ==> NameAtMost(g.name, gs[0].name))
    ensures ByName([g] + gs)
  {
    hide NameAtMost;
    var r := [g] + gs;
    forall i | 0 < i < |r| ensures NameAtMost(r[i - 1].name, r[i].name) {
      if i > 1 { assert r[i] == gs[i - 1] && r[i - 1] == gs[i - 2]; }
    }
  }

  lemma {:induction false} InsertSorts(gs: seq<Group>, g: Group)
    requires ByName(gs)
    ensures ByName(Insert(gs, g)) && multiset(Insert(gs, g)) == multiset(gs) + multiset{g}
    ensures Insert(gs, g) != [] && (Insert(gs, g)[0] == g || (gs != [] && Insert(gs, g)[0] == gs[0]))
  {
    if gs == [] {
    } else if NameAtMost(g.name, gs[0].name) {
      ByNameFirst(g, gs);
    } else {
      NamesCompare(g.name, gs[0].name);
      assert ByName(gs[1..]) && (|gs| > 1 ==> NameAtMost(gs[0].name, gs[1].name));
      hide ByName, NameAtMost;
      InsertSorts(gs[1..], g);
      assert gs == [gs[0]] + gs[1..];
      ByNameFirst(gs[0], Insert(gs[1..], g));
    }
  }

  lemma {:induction false} Sorts(gs: seq<Group>)
    ensures ByName(SortByName(gs)) && multiset(SortByName(gs)) == multiset(gs)
  {
    if gs != [] {
      hide ByName, Insert;
      Sorts(gs[1..]);
      InsertSorts(SortByName(gs[1..]), gs[0]);
      assert gs == [gs[0]] + gs[1..];
    }
  }

  // ----- the search -----

  /** The top of a row's ancestry. */
  lemma RootOf(rows: seq<Group>, depth: string -> nat, m: Group)
    requires Tree(rows, depth) && m in rows && m.id in Ids(rows)
    ensures
      var chain := Chain(rows, depth, m.id);
      chain != [] && chain[0] in rows && chain[0] in chain && chain[0].parent == ""
  {
    ChainLinked(rows, depth, m.id);
    hide Tree, Chain;
  }

  /** The roots collected so far: top-level rows, each above a match and every
      match below one. */
  ghost predicate RootsOf(rows: seq<Group>, depth: string -> nat, matched: seq<Group>, roots: seq<Group>)
    requires Tree(rows, depth)
  {
    && Siblings(rows, "", roots)
    && (forall m | m in matched :: HasRoot(rows, depth, m, roots))
    && (forall r | r in roots :: HasMatch(rows, depth, matched, r))
  }

  ghost predicate HasRoot(rows: seq<Group>, depth: string -> nat, m: Group, roots: seq<Group>)
    requires Tree(rows, depth)
  {
    m.id != "" && m.id in Ids(rows) && Chain(rows, depth, m.id)[0] in roots
  }

  ghost predicate HasMatch(rows: seq<Group>, depth: string -> nat, matched: seq<Group>, r: Group)
    requires Tree(rows, depth)
  {
    exists m :: m in matched && m.id in Ids(rows) && r in Chain(rows, depth, m.id)
  }

  function KeptIds(matched: seq<Group>): set<string> {
    set x | x in Ids(matched)
  }

  lemma MoreSiblings(rows: seq<Group>, parent: string, roots: seq<Group>, root: Group)
    requires Siblings(rows, parent, roots) && root in rows && root.parent == parent && root !in roots
    ensures Siblings(rows, parent, roots + [root])
  {
    forall r | r in roots + [root] ensures r in rows && r.parent == parent {
      if r != root { assert r in roots; }
    }
  }

  lemma RootsHold(rows: seq<Group>, depth: string -> nat, matched: seq<Group>, roots: seq<Group>, m: Group,
    next: seq<Group>)
    requires Tree(rows, depth) && RootsOf(rows, depth, matched, roots) && HasRoot(rows, depth, m, next) && roots <= next
    ensures forall h | h in matched + [m] :: HasRoot(rows, depth, h, next)
  {
    hide Tree, Chain, Siblings, HasMatch;
    forall h | h in matched + [m] ensures HasRoot(rows, depth, h, next) {
      if h in matched {
        assert HasRoot(rows, depth, h, roots);
        assert forall r | r in roots :: r in next;
      }
    }
  }

  lemma RootsMatch(rows: seq<Group>, depth: string -> nat, matched: seq<Group>, m: Group, r: Group)
    requires Tree(rows, depth) && (HasMatch(rows, depth, matched, r) || HasMatch(rows, depth, [m], r))
    ensures HasMatch(rows, depth, matched + [m], r)
  {
    hide Tree, Chain;
    assert forall h :: h in matched + [m] <==> h in matched || h in [m];
  }

  lemma RootAdded(rows: seq<Group>, depth: string -> nat, m: Group, next: seq<Group>)
    requires Tree(rows, depth) && m in rows && m.id in Ids(rows) && m.id != "" && Chain(rows, depth, m.id)[0] in next
    ensures
      var root := Chain(rows, depth, m.id)[0];
      HasRoot(rows, depth, m, next) && HasMatch(rows, depth, [m], root) && root in rows && root.parent == ""
  {
    hide Tree, Chain;
    RootOf(rows, depth, m);
    assert m in [m];
  }

  lemma OneMoreRoot(rows: seq<Group>, depth: string -> nat, matched: seq<Group>, roots: seq<Group>, m: Group)
    requires Tree(rows, depth) && RootsOf(rows, depth, matched, roots) && m in rows && m.id in Ids(rows) && m.id != ""
    ensures
      var root := Chain(rows, depth, m.id)[0];
      RootsOf(rows, depth, matched + [m], if root in roots then roots else roots + [root])
  {
    hide Tree, Chain, Siblings, HasRoot, HasMatch;
    var root := Chain(rows, depth, m.id)[0];
    var next := if root in roots then roots else roots + [root];
    RootAdded(rows, depth, m, next);
    RootsHold(rows, depth, matched, roots, m, next);
    if root !in roots { MoreSiblings(rows, "", roots, root); }
    forall r | r in next ensures HasMatch(rows, depth, matched + [m], r) {
      RootsMatch(rows, depth, matched, m, r);
    }
  }

  /** Each match's top-level ancestor, once, in order of first appearance. */
  method CollectRoots(rows: seq<Group>, ghost depth: string -> nat, matched: seq<Group>) returns (keep: set<string>,
    roots: seq<Group>)
    requires Tree(rows, depth) && Within(matched, rows)
    ensures keep == KeptIds(matched) && RootsOf(rows, depth, matched, roots)
  {
    keep := {};
    var seen: set<string> := {};
    roots := [];
    for k := 0 to |matched|
      invariant keep == KeptIds(matched[..k]) && seen == KeptIds(roots) && RootsOf(rows, depth, matched[..k], roots)
    {
      var m := matched[k];
      assert matched[..k + 1] == matched[..k] + [m] && m in rows;
      SameRow(rows, m);
      RootOf(rows, depth, m);
      OneMoreRoot(rows, depth, matched[..k], roots, m);
      SeenRoot(rows, depth, matched[..k], roots, Chain(rows, depth, m.id)[0]);
      hide Tree, Chain, RootsOf, Ids;
      var chain := AncestryOf(rows, depth, m.id);
      KeptMore(matched[..k], m);
      keep := keep + {m.id};
      var root := chain[0];
      if root.id !in seen {
        KeptMore(roots, root);
        seen := seen + {root.id};
        roots := roots + [root];
      }
    }
    assert matched[..|matched|] == matched;
  }

  lemma KeptMore(gs: seq<Group>, g: Group)
    ensures KeptIds(gs + [g]) == KeptIds(gs) + {g.id}
  {
    assert Ids(gs + [g]) == Ids(gs) + [g.id];
  }

  /** The seen ids decide whether a row is among the roots. */
  lemma SeenRoot(rows: seq<Group>, depth: string -> nat, matched: seq<Group>, roots: seq<Group>, root: Group)
    requires Tree(rows, depth) && RootsOf(rows, depth, matched, roots) && root in rows
    ensures root.id in KeptIds(roots) <==> root in roots
  {
    SameRow(rows, root);
    if root.id in KeptIds(roots) {
      var i := Find(Ids(roots), root.id);
      assert roots[i] in roots;
      SameRow(rows, roots[i]);
    }
    if root in roots {
      var i :| 0 <= i < |roots| && roots[i] == root;
      assert Ids(roots)[i] == root.id;
    }
  }

  /** groupRepWithChildren, recursing while it appends. */
  method WriteGroup(rows: seq<Group>, ghost depth: string -> nat, g: Group, parentPath: string,
    keep: set<string>) returns (n: Node)
    requires Tree(rows, depth) && g in rows
    ensures n == Rep(rows, depth, g, parentPath, keep)
    decreases Floor(rows, depth) - depth(g.id)
  {
    hide *;
    ChildrenAreKids(rows, depth, g);
    RepIs(rows, depth, g, parentPath, keep);
    var kids := ChildrenOf(rows, g.id);
    var path := parentPath + "/" + g.name;
    var subGroups: seq<Node> := [];
    ghost var all := RepKids(rows, depth, g.id, kids, path, keep);
    assert [] + all == all;
    var left := kids;
    while |left| > 0
      invariant Kids(rows, depth, left, g.id) && subGroups + RepKids(rows, depth, g.id, left, path, keep) == all
    {
      KidsRest(rows, depth, g.id, left);
      RepKidsFirst(rows, depth, g.id, left, path, keep);
      var kid := left[0];
      var nested := WriteGroup(rows, depth, kid, path, keep);
      left := left[1..];
      if kid.id in keep || |nested.subGroups| > 0 {
        ghost var more := RepKids(rows, depth, g.id, left, path, keep);
        assert subGroups + ([nested] + more) == subGroups + [nested] + more;
        subGroups := subGroups + [nested];
      }
    }
    assert left == [];
    RepKidsNone(rows, depth, g.id, path, keep);
    assert subGroups + [] == subGroups;
    return Node(g.id, path, |kids|, subGroups);
  }

  lemma RepIs(rows: seq<Group>, depth: string -> nat, g: Group, parentPath: string, keep: set<string>)
    requires Tree(rows, depth) && g in rows && Kids(rows, depth, ChildrenOf(rows, g.id), g.id)
      && depth(g.id) < Floor(rows, depth)
    ensures
      var path, kids := parentPath + "/" + g.name, ChildrenOf(rows, g.id);
      Rep(rows, depth, g, parentPath, keep) == Node(g.id, path, |kids|, RepKids(rows, depth, g.id, kids, path, keep))
  {
    hide Tree, Floor, Kids, RepKids, ChildrenOf;
  }

  lemma RepKidsNone(rows: seq<Group>, depth: string -> nat, parent: string, path: string, keep: set<string>)
    requires Tree(rows, depth) && Kids(rows, depth, [], parent) && depth(parent) < Floor(rows, depth)
    ensures RepKids(rows, depth, parent, [], path, keep) == []
  {
    hide Tree, Floor, Kids, Rep;
  }

  /** The forest for some roots. */
  function RepAll(rows: seq<Group>, ghost depth: string -> nat, roots: seq<Group>, keep: set<string>): seq<Node>
    requires Tree(rows, depth) && Within(roots, rows)
  {
    if roots == [] then []
    else
      assert roots[0] in roots && Within(roots[1..], rows);
      [Rep(rows, depth, roots[0], "", keep)] + RepAll(rows, depth, roots[1..], keep)
  }

  lemma {:induction false} RepAllHolds(rows: seq<Group>, depth: string -> nat, roots: seq<Group>, keep: set<string>)
    requires Tree(rows, depth) && Within(roots, rows) && Siblings(rows, "", roots)
      && AllRelevant(rows, depth, keep, roots)
    ensures Holds(rows, depth, keep, roots, RepAll(rows, depth, roots, keep))
  {
    if roots == [] {
      HoldsNone(rows, depth, keep);
    } else {
      var r, rest := roots[0], roots[1..];
      assert roots == [r] + rest && r in roots && Within(rest, rows) && AllRelevant(rows, depth, keep, rest);
      SiblingsRest(rows, "", r, rest);
      hide Tree, Within, AllRelevant, Relevant, Holds, HoldsOne, Siblings, Rep, Chain, Path;
      EmptyPath(rows, depth);
      RepHolds(rows, depth, r, "", keep);
      RepAllHolds(rows, depth, rest, keep);
      HoldsWritten(rows, depth, keep, "", r, rest, Rep(rows, depth, r, "", keep), RepAll(rows, depth, rest, keep));
    }
  }

  ghost predicate AllRelevant(rows: seq<Group>, depth: string -> nat, keep: set<string>, roots: seq<Group>)
    requires Tree(rows, depth)
  {
    forall r | r in roots :: Relevant(rows, depth, keep, r)
  }

  lemma EmptyPath(rows: seq<Group>, depth: string -> nat)
    requires Tree(rows, depth)
    ensures Path(Chain(rows, depth, "")) == ""
  {
  }

  ghost predicate RelevantId(rows: seq<Group>, depth: string -> nat, keep: set<string>, x: string)
    requires Tree(rows, depth)
  {
    x in Ids(rows) && Relevant(rows, depth, keep, RowOf(rows, x))
  }

  /** What a search answers for a page of matches: the matches and their ancestors,
      each exactly once, every node under its derived path with exactly its
      relevant children below it, the top level in name order. */
  ghost predicate Answers(rows: seq<Group>, depth: string -> nat, page: seq<Group>, out: seq<Node>)
    requires Tree(rows, depth)
  {
    var keep := KeptIds(page);
    && NoRepeats(AllIds(out)) && AllPlaced(rows, depth, keep, out)
    && (forall x :: x in AllIds(out) <==> RelevantId(rows, depth, keep, x))
    && exists roots :: ByName(roots) && NodeIds(out) == Ids(roots) && Siblings(rows, "", roots)
  }

  lemma RootsRelevant(rows: seq<Group>, depth: string -> nat, page: seq<Group>, roots: seq<Group>)
    requires Tree(rows, depth) && Within(page, rows) && RootsOf(rows, depth, page, roots)
    ensures AllRelevant(rows, depth, KeptIds(page), roots)
  {
    hide Tree, Chain, Siblings, HasRoot;
    forall r | r in roots ensures Relevant(rows, depth, KeptIds(page), r) {
      assert HasMatch(rows, depth, page, r);
      var m :| m in page && m.id in Ids(rows) && r in Chain(rows, depth, m.id);
      var i :| 0 <= i < |page| && page[i] == m;
      assert Ids(page)[i] == m.id;
      assert Keeps(rows, depth, KeptIds(page), m, r);
    }
  }

  /** Every relevant row is below one of the roots. */
  lemma RootsCover(rows: seq<Group>, depth: string -> nat, page: seq<Group>, roots: seq<Group>, x: string)
    requires Tree(rows, depth) && Within(page, rows) && RootsOf(rows, depth, page, roots)
    ensures RelevantBelow(rows, depth, KeptIds(page), roots, x) <==> RelevantId(rows, depth, KeptIds(page), x)
  {
    if x in Ids(rows) && Relevant(rows, depth, KeptIds(page), RowOf(rows, x)) {
      var g := RowOf(rows, x);
      var m :| m in rows && Keeps(rows, depth, KeptIds(page), m, g);
      var i := Find(Ids(page), m.id);
      assert page[i] in page;
      SameRow(rows, page[i]);
      SameRow(rows, m);
      assert HasRoot(rows, depth, m, roots);
      hide Tree, Chain, RootsOf;
      AncestorPrefix(rows, depth, g, m);
      assert Chain(rows, depth, g.id)[0] == Chain(rows, depth, m.id)[0];
      assert Chain(rows, depth, x)[0] in Chain(rows, depth, x);
    }
  }

  lemma RootsAnswer(rows: seq<Group>, depth: string -> nat, page: seq<Group>, found: seq<Group>, roots: seq<Group>)
    requires Tree(rows, depth) && Within(page, rows) && RootsOf(rows, depth, page, found)
    requires ByName(roots) && multiset(roots) == multiset(found)
    ensures Within(roots, rows) && Answers(rows, depth, page, RepAll(rows, depth, roots, KeptIds(page)))
  {
    hide *;
    RootsSorted(rows, depth, page, found, roots);
    var keep := KeptIds(page);
    RootsRelevant(rows, depth, page, roots);
    RepAllHolds(rows, depth, roots, keep);
    forall x ensures RelevantBelow(rows, depth, keep, roots, x) <==> RelevantId(rows, depth, keep, x) {
      RootsCover(rows, depth, page, roots, x);
    }
    AllRelevantOf(rows, depth, keep, roots);
    HeldAnswers(rows, depth, page, roots, RepAll(rows, depth, roots, keep));
  }

  lemma HeldAnswers(rows: seq<Group>, depth: string -> nat, page: seq<Group>, roots: seq<Group>, out: seq<Node>)
    requires Tree(rows, depth) && Holds(rows, depth, KeptIds(page), roots, out)
    requires ByName(roots) && Siblings(rows, "", roots) && RelevantOf(rows, depth, KeptIds(page), roots) == Ids(roots)
    requires forall x ::
      RelevantBelow(rows, depth, KeptIds(page), roots, x) <==> RelevantId(rows, depth, KeptIds(page), x)
    ensures Answers(rows, depth, page, out)
  {
    hide Tree, ByName, Siblings, RelevantOf, Relevant, RelevantBelow, KeptIds, NoRepeats, AllIds, AllPlaced, Chain;
  }

  lemma {:induction false} AllRelevantOf(rows: seq<Group>, depth: string -> nat, keep: set<string>, roots: seq<Group>)
    requires Tree(rows, depth) && AllRelevant(rows, depth, keep, roots)
    ensures RelevantOf(rows, depth, keep, roots) == Ids(roots)
  {
    hide Tree, Relevant, Chain, RowOf;
    if roots == [] {
      assert Ids(roots) == [];
    } else {
      assert roots[0] in roots && AllRelevant(rows, depth, keep, roots[1..]);
      AllRelevantOf(rows, depth, keep, roots[1..]);
      assert Ids(roots) == [roots[0].id] + Ids(roots[1..]);
    }
  }

  /** Sorting the roots changes nothing about which they are. */
  lemma RootsSorted(rows: seq<Group>, depth: string -> nat, page: seq<Group>, found: seq<Group>, roots: seq<Group>)
    requires Tree(rows, depth) && RootsOf(rows, depth, page, found) && multiset(roots) == multiset(found)
    ensures RootsOf(rows, depth, page, roots) && Within(roots, rows) && Siblings(rows, "", roots)
  {
    forall r ensures r in roots <==> r in found {
      assert r in multiset(roots) <==> r in multiset(found);
    }
    Ordering.BagNoRepeats(found, roots);
    hide Tree, Chain, HasMatch;
    forall m | m in page ensures HasRoot(rows, depth, m, roots) { assert HasRoot(rows, depth, m, found); }
  }

  /** searchGroups. */
  method SearchGroups(rows: seq<Group>, ghost depth: string -> nat, lower: string -> string, search: string,
                      first: Option<int>, max: Option<int>) returns (out: seq<Node>)
    requires Tree(rows, depth)
    ensures Within(Page(Matched(lower, ListAll(rows), search), first, max), rows)
    ensures Answers(rows, depth, Page(Matched(lower, ListAll(rows), search), first, max), out)
  {
    hide *;
    var all := ListAll(rows);
    var matched := CollectMatches(lower, all, search);
    PageWithin(rows, lower, search, first, max);
    matched := Page(matched, first, max);
    var keep, found := CollectRoots(rows, depth, matched);
    Sorts(found);
    var roots := SortByName(found);
    RootsAnswer(rows, depth, matched, found, roots);
    out := [];
    var left := roots;
    assert [] + RepAll(rows, depth, roots, keep) == RepAll(rows, depth, roots, keep);
    while |left| > 0
      invariant Within(left, rows) && out + RepAll(rows, depth, left, keep) == RepAll(rows, depth, roots, keep)
    {
      RepAllFirst(rows, depth, left, keep);
      var n := WriteGroup(rows, depth, left[0], "", keep);
      left := left[1..];
      ghost var more := RepAll(rows, depth, left, keep);
      assert out + ([n] + more) == out + [n] + more;
      out := out + [n];
    }
    RepAllNone(rows, depth, keep);
    assert left == [] && out + [] == out;
  }

  lemma RepAllFirst(rows: seq<Group>, depth: string -> nat, roots: seq<Group>, keep: set<string>)
    requires Tree(rows, depth) && Within(roots, rows) && roots != []
    ensures roots[0] in rows && Within(roots[1..], rows)
    ensures RepAll(rows, depth, roots, keep) == [Rep(rows, depth, roots[0], "", keep)] + RepAll(rows, depth,
      roots[1..], keep)
  {
    assert roots[0] in roots;
    hide Tree, Rep;
  }

  lemma RepAllNone(rows: seq<Group>, depth: string -> nat, keep: set<string>)
    requires Tree(rows, depth)
    ensures Within([], rows) && RepAll(rows, depth, [], keep) == []
  {
    hide Tree;
  }

  lemma PageWithin(rows: seq<Group>, lower: string -> string, search: string, first: Option<int>, max: Option<int>)
    ensures Within(Page(Matched(lower, ListAll(rows), search), first, max), rows)
  {
    var matched := Matched(lower, ListAll(rows), search);
    PageMeans(matched, first, max);
    forall g | g in Page(matched, first, max) ensures g in rows {
      assert g in matched;
      MatchedAre(lower, ListAll(rows), search, g);
      ListAllAre(rows, g);
    }
  }

  // ----- the count -----

  /** The ids whose group matches the search. */
  function MatchingIds(rows: seq<Group>, lower: string -> string, search: string, ids: seq<string>): seq<string>
    requires forall x | x in ids :: x in Ids(rows)
  {
    if ids == [] then []
    else
      assert ids[0] in ids && forall x | x in ids[1..] :: x in ids;
      (if NameMatches(lower, RowOf(rows, ids[0]).name, search) then [ids[0]] else []) + MatchingIds(rows, lower,
        search, ids[1..])
  }

  lemma {:induction false} MatchingIdsAre(rows: seq<Group>, lower: string -> string, search: string, ids: seq<string>,
    x: string)
    requires forall x | x in ids :: x in Ids(rows)
    ensures x in MatchingIds(rows, lower, search, ids) <==> x in ids && NameMatches(lower, RowOf(rows, x).name, search)
  {
    hide NameMatches;
    if ids != [] {
      assert ids[0] in ids && forall x | x in ids[1..] :: x in ids;
      MatchingIdsAre(rows, lower, search, ids[1..], x);
    }
  }

  lemma {:induction false} MatchingIdsDiffer(rows: seq<Group>, lower: string -> string, search: string,
    ids: seq<string>)
    requires (forall x | x in ids :: x in Ids(rows)) && NoRepeats(ids)
    ensures NoRepeats(MatchingIds(rows, lower, search, ids))
  {
    hide NameMatches;
    if ids != [] {
      assert ids[0] in ids && forall x | x in ids[1..] :: x in ids;
      MatchingIdsDiffer(rows, lower, search, ids[1..]);
      MatchingIdsAre(rows, lower, search, ids[1..], ids[0]);
      assert ids[0] !in ids[1..];
    }
  }

  lemma {:induction false} MatchedDiffer(rows: seq<Group>, lower: string -> string, search: string)
    requires NoRepeats(Ids(rows))
    ensures NoRepeats(Ids(Matched(lower, ListAll(rows), search)))
    ensures forall x :: x in Ids(Matched(lower, ListAll(rows), search)) <==>
      x in Ids(rows) && !RowOf(rows, x).organization && NameMatches(lower, RowOf(rows, x).name, search)
  {
    hide NameMatches, NoRepeats;
    IdsOfListAll(rows);
    IdsOfMatched(lower, ListAll(rows), search);
    forall x ensures x in Ids(Matched(lower, ListAll(rows), search)) <==>
        x in Ids(rows) && !RowOf(rows, x).organization && NameMatches(lower, RowOf(rows, x).name, search) {
      MatchedById(rows, lower, search, x);
    }
  }

  lemma MatchedById(rows: seq<Group>, lower: string -> string, search: string, x: string)
    requires NoRepeats(Ids(rows))
    ensures x in Ids(Matched(lower, ListAll(rows), search)) <==>
      x in Ids(rows) && !RowOf(rows, x).organization && NameMatches(lower, RowOf(rows, x).name, search)
  {
    hide NameMatches, NoRepeats, Matched, ListAll;
    var found := Matched(lower, ListAll(rows), search);
    if x in Ids(found) {
      var i := Find(Ids(found), x);
      var g := found[i];
      assert g in found;
      MatchedAre(lower, ListAll(rows), search, g);
      ListAllAre(rows, g);
      SameRow(rows, g);
    }
    if x in Ids(rows) && !RowOf(rows, x).organization && NameMatches(lower, RowOf(rows, x).name, search) {
      var g := RowOf(rows, x);
      MatchedAre(lower, ListAll(rows), search, g);
      ListAllAre(rows, g);
      var i :| 0 <= i < |found| && found[i] == g;
      assert Ids(found)[i] == x;
    }
  }

  lemma {:induction false} IdsOfListAll(rows: seq<Group>)
    requires NoRepeats(Ids(rows))
    ensures NoRepeats(Ids(ListAll(rows))) && forall x | x in Ids(ListAll(rows)) :: x in Ids(rows)
  {
    hide NoRepeats;
    if rows == [] {
      assert Ids(ListAll(rows)) == Ids(rows);
    } else {
      var rest := ListAll(rows[1..]);
      assert Ids(rows) == [rows[0].id] + Ids(rows[1..]);
      FirstDiffers(rows[0].id, Ids(rows[1..]));
      FirstDiffers(rows[0].id, Ids(rest));
      IdsOfListAll(rows[1..]);
      assert Ids(ListAll(rows)) == if rows[0].organization then Ids(rest) else [rows[0].id] + Ids(rest);
    }
  }

  lemma {:induction false} IdsOfMatched(lower: string -> string, all: seq<Group>, search: string)
    requires NoRepeats(Ids(all))
    ensures NoRepeats(Ids(Matched(lower, all, search)))
      && forall x | x in Ids(Matched(lower, all, search)) :: x in Ids(all)
  {
    hide NoRepeats, NameMatches;
    if all == [] {
      assert Ids(Matched(lower, all, search)) == Ids(all);
    } else {
      var rest := Matched(lower, all[1..], search);
      assert Ids(all) == [all[0].id] + Ids(all[1..]);
      FirstDiffers(all[0].id, Ids(all[1..]));
      FirstDiffers(all[0].id, Ids(rest));
      IdsOfMatched(lower, all[1..], search);
      assert Ids(Matched(lower, all, search)) == if NameMatches(lower, all[0].name,
        search) then [all[0].id] + Ids(rest) else Ids(rest);
    }
  }

  /** No group below an organization's root is ever an ancestor of a realm group. */
  lemma {:induction false} AncestorsShareRealm(rows: seq<Group>, depth: string -> nat, g: Group, m: Group)
    requires Tree(rows, depth) && m in rows && m.id in Ids(rows) && g in Chain(rows, depth, m.id)
    ensures g.organization == m.organization
    decreases depth(m.id)
  {
    ChainStep(rows, depth, m);
    if g != m {
      ParentOnChain(rows, depth, m);
      ParentIsRow(rows, depth, m);
      AncestorsShareRealm(rows, depth, g, RowOf(rows, m.parent));
    }
  }

  lemma RelevantMatches(rows: seq<Group>, depth: string -> nat, lower: string -> string, search: string, x: string)
    requires Tree(rows, depth) && x in Ids(rows)
    ensures
      var matched := Matched(lower, ListAll(rows), search);
      (Relevant(rows, depth, KeptIds(matched), RowOf(rows, x)) && NameMatches(lower, RowOf(rows, x).name, search))
      <==> x in Ids(matched)
  {
    var matched := Matched(lower, ListAll(rows), search);
    MatchedDiffer(rows, lower, search);
    var g := RowOf(rows, x);
    SameRow(rows, g);
    ChainStep(rows, depth, g);
    hide Tree, Chain, NameMatches, Matched, ListAll, NoRepeats;
    if x in Ids(matched) {
      assert Keeps(rows, depth, KeptIds(matched), g, g);
    }
    if Relevant(rows, depth, KeptIds(matched), g) && NameMatches(lower, g.name, search) {
      var m :| m in rows && Keeps(rows, depth, KeptIds(matched), m, g);
      AncestorsShareRealm(rows, depth, g, m);
      MatchedRow(rows, depth, m);
    }
  }

  lemma MatchedRow(rows: seq<Group>, depth: string -> nat, m: Group)
    requires Tree(rows, depth) && m in rows
    ensures m.id in Ids(rows) && RowOf(rows, m.id) == m
  {
    SameRow(rows, m);
  }

  /** With no bounds, the nodes of the answer whose names match are as many as the
      count of that search says. */
  lemma CountAgrees(rows: seq<Group>, depth: string -> nat, lower: string -> string, search: string, out: seq<Node>)
    requires Tree(rows, depth) && Answers(rows, depth, Page(Matched(lower, ListAll(rows), search), None, None), out)
    ensures forall x | x in AllIds(out) :: x in Ids(rows)
    ensures |MatchingIds(rows, lower, search, AllIds(out))| == |Matched(lower, ListAll(rows), search)|
  {
    var matched := Matched(lower, ListAll(rows), search);
    PageMeans(matched, None, None);
    assert Page(matched, None, None) == matched;
    hide Tree, Matched, ListAll, NameMatches, Relevant, AllPlaced, AllIds, Siblings, ByName, NoRepeats, KeptIds,
      MatchingIds;
    var ids := AllIds(out);
    var a, b := MatchingIds(rows, lower, search, ids), Ids(matched);
    MatchingIdsDiffer(rows, lower, search, ids);
    AllRowsDiffer(rows, depth);
    MatchedDiffer(rows, lower, search);
    forall x ensures x in a <==> x in b {
      MatchingIdsAre(rows, lower, search, ids, x);
      if x in Ids(rows) { RelevantMatches(rows, depth, lower, search, x); }
    }
    Ordering.SameElements(a, b);
    Ordering.BagLength(a, b);
  }

  lemma AllRowsDiffer(rows: seq<Group>, depth: string -> nat)
    requires Tree(rows, depth)
    ensures NoRepeats(Ids(rows))
  {
  }
}
