/** Group search: matches over the whole tree, a page of them, and the pruned
    forest that holds them (internal/admin/groups.go:240-370). */
module GroupSearch {
  import opened Basics
  import opened GroupModel

  /** One group as the listing writes it. */
  datatype Node = Node(id: string, path: string, subGroupCount: nat, subGroups: seq<Node>)

  // ----- ancestry as an order -----

  /** The ancestry of an ancestor is a prefix. */
  lemma {:induction false} AncestorPrefix(rows: seq<Group>, depth: string -> nat, g: Group, m: Group)
    requires Tree(rows, depth) && m in rows && m.id in Ids(rows) && g in Chain(rows, depth, m.id)
    ensures g in rows && g.id in Ids(rows) && Chain(rows, depth, g.id) <= Chain(rows, depth, m.id)
    decreases depth(m.id)
  {
    ChainStep(rows, depth, m);
    hide Tree, Chain;
    if g != m {
      ParentOnChain(rows, depth, m);
      AncestorPrefix(rows, depth, g, RowOf(rows, m.parent));
    }
  }

  /** A row with anything above it on its ancestry has a parent row. */
  lemma ParentOnChain(rows: seq<Group>, depth: string -> nat, m: Group)
    requires Tree(rows, depth) && m in rows && m.id in Ids(rows) && Chain(rows, depth, m.id) != [m]
    ensures m.parent != "" && m.parent in Ids(rows) && depth(m.parent) < depth(m.id)
      && RowOf(rows, m.parent).id == m.parent
  {
    ChainStep(rows, depth, m);
    assert [] + [m] == [m];
    if m.parent != "" { ParentIsRow(rows, depth, m); }
  }

  /** Below a proper ancestor there is exactly one of its children on the way down. */
  lemma {:induction false} NextDown(rows: seq<Group>, depth: string -> nat, g: Group, m: Group) returns (kid: Group)
    requires Tree(rows, depth) && m in rows && m.id in Ids(rows) && g in Chain(rows, depth, m.id) && g != m
    ensures kid in rows && kid.parent == g.id && kid in Chain(rows, depth, m.id)
    decreases depth(m.id)
  {
    ChainStep(rows, depth, m);
    hide Tree, Chain;
    assert Chain(rows, depth, m.id) != [m];
    ParentOnChain(rows, depth, m);
    var p := RowOf(rows, m.parent);
    if g == p {
      kid := m;
    } else {
      kid := NextDown(rows, depth, g, p);
    }
  }

  lemma OnlyOneDown(rows: seq<Group>, depth: string -> nat, a: Group, b: Group, m: Group)
    requires Tree(rows, depth) && m in rows && m.id in Ids(rows) && a.parent == b.parent
    requires a in Chain(rows, depth, m.id) && b in Chain(rows, depth, m.id)
    ensures a == b
  {
    hide Tree, Chain;
    AncestorPrefix(rows, depth, a, m);
    AncestorPrefix(rows, depth, b, m);
    ChainStep(rows, depth, a);
    ChainStep(rows, depth, b);
  }

  lemma ParentAbove(rows: seq<Group>, depth: string -> nat, g: Group, kid: Group, m: Group)
    requires Tree(rows, depth) && m in rows && m.id in Ids(rows) && g in rows && kid.parent == g.id
      && kid in Chain(rows, depth, m.id)
    ensures g in Chain(rows, depth, m.id) && g != m
  {
    hide Tree, Chain;
    AncestorPrefix(rows, depth, kid, m);
    ChainStep(rows, depth, kid);
    ChainStep(rows, depth, g);
    var up, down := Chain(rows, depth, g.id), Chain(rows, depth, kid.id);
    assert down == up + [kid] && down <= Chain(rows, depth, m.id);
    assert up[|up| - 1] == g && down[|up| - 1] == g;
  }

  lemma AncestorOfAncestor(rows: seq<Group>, depth: string -> nat, a: Group, b: Group, c: Group)
    requires Tree(rows, depth) && c in rows && c.id in Ids(rows) && b in rows && b.id in Ids(rows)
    requires a in Chain(rows, depth, b.id) && b in Chain(rows, depth, c.id)
    ensures a in Chain(rows, depth, c.id)
  {
    hide Tree, Chain;
    AncestorPrefix(rows, depth, b, c);
  }

  // ----- the groups a search keeps in view -----

  /** A kept group, or an ancestor of one. */
  ghost predicate Relevant(rows: seq<Group>, depth: string -> nat, keep: set<string>, g: Group)
    requires Tree(rows, depth)
  {
    exists m :: m in rows && Keeps(rows, depth, keep, m, g)
  }

  ghost predicate Keeps(rows: seq<Group>, depth: string -> nat, keep: set<string>, m: Group, g: Group)
    requires Tree(rows, depth)
  {
    m.id in keep && m.id in Ids(rows) && g in Chain(rows, depth, m.id)
  }

  lemma RelevantAbove(rows: seq<Group>, depth: string -> nat, keep: set<string>, a: Group, b: Group)
    requires Tree(rows, depth) && b in rows && b.id in Ids(rows) && a in Chain(rows, depth, b.id)
      && Relevant(rows, depth, keep, b)
    ensures Relevant(rows, depth, keep, a)
  {
    var m :| m in rows && Keeps(rows, depth, keep, m, b);
    AncestorOfAncestor(rows, depth, a, b, m);
    assert Keeps(rows, depth, keep, m, a);
  }

  /** A group is relevant when it is kept itself or one of its children is relevant. */
  lemma RelevantByKids(rows: seq<Group>, depth: string -> nat, keep: set<string>, g: Group)
    requires Tree(rows, depth) && g in rows
    ensures Relevant(rows, depth, keep, g)
       <==> g.id in keep || exists kid :: kid in ChildrenOf(rows, g.id) && Relevant(rows, depth, keep, kid)
  {
    ChainStep(rows, depth, g);
    hide Tree, Chain;
    if g.id in keep { assert Keeps(rows, depth, keep, g, g); }
    if kid :| kid in ChildrenOf(rows, g.id) && Relevant(rows, depth, keep, kid) {
      ChildrenAre(rows, g.id, kid);
      var m :| m in rows && Keeps(rows, depth, keep, m, kid);
      ParentAbove(rows, depth, g, kid, m);
      assert Keeps(rows, depth, keep, m, g);
    }
    if Relevant(rows, depth, keep, g) && g.id !in keep {
      var m :| m in rows && Keeps(rows, depth, keep, m, g);
      var kid := NextDown(rows, depth, g, m);
      assert Keeps(rows, depth, keep, m, kid);
      ChildrenAre(rows, g.id, kid);
    }
  }

  // ----- the nested representation -----

  /** A bound above every row, which the walk down counts towards. */
  ghost function Floor(rows: seq<Group>, depth: string -> nat): nat {
    if rows == [] then 0
    else
      var f := Floor(rows[1..], depth);
      if depth(rows[0].id) >= f then depth(rows[0].id) + 1 else f
  }

  lemma {:induction false} AboveFloor(rows: seq<Group>, depth: string -> nat, g: Group)
    requires g in rows
    ensures depth(g.id) < Floor(rows, depth)
  {
    if rows[0] != g { AboveFloor(rows[1..], depth, g); }
  }

  ghost predicate Kids(rows: seq<Group>, depth: string -> nat, kids: seq<Group>, parent: string) {
    forall k | k in kids :: k in rows && k.parent == parent && depth(parent) < depth(k.id) < Floor(rows, depth)
  }

  lemma ChildrenAreKids(rows: seq<Group>, depth: string -> nat, g: Group)
    requires Tree(rows, depth) && g in rows
    ensures Kids(rows, depth, ChildrenOf(rows, g.id), g.id) && depth(g.id) < Floor(rows, depth)
  {
    AboveFloor(rows, depth, g);
    SameRow(rows, g);
    assert Grounded(rows, depth, g);
    forall k | k in ChildrenOf(rows, g.id)
      ensures k in rows && k.parent == g.id && depth(g.id) < depth(k.id) < Floor(rows, depth)
    {
      ChildrenAre(rows, g.id, k);
      ParentIsRow(rows, depth, k);
      AboveFloor(rows, depth, k);
    }
  }

  /** groupRepWithChildren with a keep set. */
  function Rep(rows: seq<Group>, ghost depth: string -> nat, g: Group, parentPath: string, keep: set<string>): Node
    requires Tree(rows, depth) && g in rows
    decreases Floor(rows, depth) - depth(g.id), 1, 0
  {
    var path := parentPath + "/" + g.name;
    var kids := ChildrenOf(rows, g.id);
    ChildrenAreKids(rows, depth, g);
    Node(g.id, path, |kids|, RepKids(rows, depth, g.id, kids, path, keep))
  }

  function RepKids(rows: seq<Group>, ghost depth: string -> nat, parent: string, kids: seq<Group>, path: string,
    keep: set<string>): seq<Node>
    requires Tree(rows, depth) && Kids(rows, depth, kids, parent) && depth(parent) < Floor(rows, depth)
    decreases Floor(rows, depth) - depth(parent), 0, |kids|
  {
    if kids == [] then []
    else
      assert kids[0] in kids;
      var nested := Rep(rows, depth, kids[0], path, keep);
      (if kids[0].id in keep || nested.subGroups != [] then [nested] else []) + RepKids(rows, depth, parent,
        kids[1..], path, keep)
  }

  // ----- what the representation holds -----

  /** Every node of a forest, parents first. */
  function AllNodes(forest: seq<Node>): seq<Node> {
    if forest == [] then [] else [forest[0]] + AllNodes(forest[0].subGroups) + AllNodes(forest[1..])
  }

  function NodeIds(nodes: seq<Node>): (r: seq<string>)
    ensures |r| == |nodes| && forall i | 0 <= i < |nodes| :: r[i] == nodes[i].id
  {
    seq(|nodes|, i requires 0 <= i < |nodes| => nodes[i].id)
  }

  function AllIds(forest: seq<Node>): seq<string> {
    NodeIds(AllNodes(forest))
  }

  lemma AllIdsFirst(n: Node, rest: seq<Node>)
    ensures AllIds([n] + rest) == [n.id] + AllIds(n.subGroups) + AllIds(rest)
  {
    assert ([n] + rest)[1..] == rest;
    hide AllNodes;
    assert NodeIds([n] + AllNodes(n.subGroups) + AllNodes(rest))
        == [n.id] + NodeIds(AllNodes(n.subGroups)) + NodeIds(AllNodes(rest));
  }

  /** The relevant ones among some rows, in their order. */
  ghost function RelevantOf(rows: seq<Group>, depth: string -> nat, keep: set<string>, kids: seq<Group>): seq<string>
    requires Tree(rows, depth)
  {
    if kids == [] then []
    else (if Relevant(rows, depth, keep, kids[0]) then [kids[0].id] else []) + RelevantOf(rows, depth, keep, kids[1..])
  }

  /** A node is written under its own path, counts all its children, and nests
      exactly the relevant ones, in listing order. */
  ghost predicate Placed(rows: seq<Group>, depth: string -> nat, keep: set<string>, n: Node)
    requires Tree(rows, depth)
  {
    && n.id in Ids(rows) && n.path == Path(Chain(rows, depth, n.id))
    && n.subGroupCount == |ChildrenOf(rows, n.id)|
    && NodeIds(n.subGroups) == RelevantOf(rows, depth, keep, ChildrenOf(rows, n.id))
  }

  ghost predicate AllPlaced(rows: seq<Group>, depth: string -> nat, keep: set<string>, forest: seq<Node>)
    requires Tree(rows, depth)
  {
    forall n | n in AllNodes(forest) :: Placed(rows, depth, keep, n)
  }

  /** The forest written for some siblings holds the relevant rows at and below
      them, each once and each in its place. */
  ghost predicate Holds(rows: seq<Group>, depth: string -> nat, keep: set<string>, kids: seq<Group>, forest: seq<Node>)
    requires Tree(rows, depth)
  {
    && NodeIds(forest) == RelevantOf(rows, depth, keep, kids)
    && NoRepeats(AllIds(forest)) && AllPlaced(rows, depth, keep, forest)
    && forall x :: x in AllIds(forest) <==> RelevantBelow(rows, depth, keep, kids, x)
  }

  ghost predicate RelevantBelow(rows: seq<Group>, depth: string -> nat, keep: set<string>, kids: seq<Group>, x: string)
    requires Tree(rows, depth)
  {
    x in Ids(rows) && Relevant(rows, depth, keep, RowOf(rows, x)) && exists k :: k in kids && k in Chain(rows, depth, x)
  }

  /** One group's node: the group, and what is held below it. */
  ghost predicate HoldsOne(rows: seq<Group>, depth: string -> nat, keep: set<string>, g: Group, n: Node)
    requires Tree(rows, depth)
  {
    n.id == g.id && Placed(rows, depth, keep, n) && Holds(rows, depth, keep, ChildrenOf(rows, g.id), n.subGroups)
  }

  lemma RelevantOfNone(rows: seq<Group>, depth: string -> nat, keep: set<string>, kids: seq<Group>)
    requires Tree(rows, depth)
    ensures RelevantOf(rows, depth, keep, kids) == [] <==> forall k | k in kids :: !Relevant(rows, depth, keep, k)
  {
    hide Relevant;
    if kids != [] { RelevantOfNone(rows, depth, keep, kids[1..]); }
  }

  /** What decides whether a child is written is its relevance. */
  lemma WrittenIfRelevant(rows: seq<Group>, depth: string -> nat, keep: set<string>, g: Group, n: Node)
    requires Tree(rows, depth) && g in rows && HoldsOne(rows, depth, keep, g, n)
    ensures g.id in keep || n.subGroups != [] <==> Relevant(rows, depth, keep, g)
  {
    RelevantByKids(rows, depth, keep, g);
    RelevantOfNone(rows, depth, keep, ChildrenOf(rows, g.id));
    assert |NodeIds(n.subGroups)| == |n.subGroups|;
    hide Tree, Relevant, Placed, RelevantBelow, AllPlaced, ChildrenOf;
  }

  /** The rows at and below `g` that are relevant: `g` itself, or those below a child. */
  lemma BelowSplits(rows: seq<Group>, depth: string -> nat, keep: set<string>, g: Group, x: string)
    requires Tree(rows, depth) && g in rows && Relevant(rows, depth, keep, g)
    ensures RelevantBelow(rows, depth, keep, [g], x)
       <==> x == g.id || RelevantBelow(rows, depth, keep, ChildrenOf(rows, g.id), x)
    ensures !RelevantBelow(rows, depth, keep, ChildrenOf(rows, g.id), g.id)
  {
    ChainStep(rows, depth, g);
    SameRow(rows, g);
    hide Tree, Chain, Relevant;
    if x in Ids(rows) {
      var m := RowOf(rows, x);
      if g in Chain(rows, depth, x) && m != g {
        var kid := NextDown(rows, depth, g, m);
        ChildrenAre(rows, g.id, kid);
      }
      if k :| k in ChildrenOf(rows, g.id) && k in Chain(rows, depth, x) {
        ChildrenAre(rows, g.id, k);
        ParentAbove(rows, depth, g, k, m);
      }
    }
    if k :| k in ChildrenOf(rows, g.id) && k in Chain(rows, depth, g.id) {
      ChildrenAre(rows, g.id, k);
      ParentAbove(rows, depth, g, k, g);
    }
  }

  ghost predicate Siblings(rows: seq<Group>, parent: string, kids: seq<Group>) {
    NoRepeats(kids) && forall k | k in kids :: k in rows && k.parent == parent
  }

  lemma SiblingsRest(rows: seq<Group>, parent: string, k: Group, kids: seq<Group>)
    requires Siblings(rows, parent, [k] + kids)
    ensures k in rows && k.parent == parent && k !in kids && Siblings(rows, parent, kids)
  {
    var all := [k] + kids;
    assert all[0] == k && k in all;
    forall i, j | 0 <= i < j < |kids|
      ensures kids[i] != kids[j]
    {
      assert all[i + 1] == kids[i] && all[j + 1] == kids[j];
    }
    forall i | 0 <= i < |kids| ensures kids[i] != k { assert all[i + 1] == kids[i]; }
    assert forall x | x in kids :: x in all;
  }

  lemma BelowFirst(rows: seq<Group>, depth: string -> nat, keep: set<string>, k: Group, kids: seq<Group>, x: string)
    requires Tree(rows, depth)
    ensures RelevantBelow(rows, depth, keep, [k] + kids, x)
       <==> RelevantBelow(rows, depth, keep, [k], x) || RelevantBelow(rows, depth, keep, kids, x)
  {
    hide Tree, Chain, Relevant, Ids;
    assert forall g :: g in [k] + kids <==> g == k || g in kids;
    assert forall g :: g in [k] <==> g == k;
  }

  lemma BelowApart(rows: seq<Group>, depth: string -> nat, keep: set<string>, k: Group, parent: string,
    kids: seq<Group>, x: string)
    requires Tree(rows, depth) && Siblings(rows, parent, kids) && k !in kids && k.parent == parent
    ensures !(RelevantBelow(rows, depth, keep, [k], x) && RelevantBelow(rows, depth, keep, kids, x))
  {
    hide Tree, Chain, Relevant;
    if RelevantBelow(rows, depth, keep, [k], x) && RelevantBelow(rows, depth, keep, kids, x) {
      var h :| h in kids && h in Chain(rows, depth, x);
      OnlyOneDown(rows, depth, k, h, RowOf(rows, x));
    }
  }

  lemma IrrelevantBelow(rows: seq<Group>, depth: string -> nat, keep: set<string>, k: Group, x: string)
    requires Tree(rows, depth) && !Relevant(rows, depth, keep, k)
    ensures !RelevantBelow(rows, depth, keep, [k], x)
  {
    hide Tree, Chain, Relevant;
    if RelevantBelow(rows, depth, keep, [k], x) {
      RelevantAbove(rows, depth, keep, k, RowOf(rows, x));
    }
  }

  lemma PlacedFirst(rows: seq<Group>, depth: string -> nat, keep: set<string>, n: Node, forest: seq<Node>)
    requires Tree(rows, depth) && Placed(rows, depth, keep, n) && AllPlaced(rows, depth, keep, n.subGroups)
      && AllPlaced(rows, depth, keep, forest)
    ensures AllPlaced(rows, depth, keep, [n] + forest)
  {
    hide Tree, Placed, Relevant;
    assert ([n] + forest)[0] == n;
    assert ([n] + forest)[1..] == forest;
    hide Tree, Placed;
    assert AllNodes([n] + forest) == [n] + AllNodes(n.subGroups) + AllNodes(forest);
    hide AllNodes;
    forall x | x in AllNodes([n] + forest) ensures Placed(rows, depth, keep, x) {
      if x == n {
      } else if x in AllNodes(n.subGroups) {
      } else {
        assert x in AllNodes(forest);
      }
    }
  }

  /** The ids of one node: the group and all that is relevant below it, each once. */
  lemma IdsOfOne(rows: seq<Group>, depth: string -> nat, keep: set<string>, g: Group, n: Node)
    requires Tree(rows, depth) && g in rows && Relevant(rows, depth, keep, g) && HoldsOne(rows, depth, keep, g, n)
    ensures NoRepeats([n.id] + AllIds(n.subGroups))
    ensures forall x :: x in [n.id] + AllIds(n.subGroups) <==> RelevantBelow(rows, depth, keep, [g], x)
  {
    hide Tree, Relevant, RelevantBelow, AllIds, Placed, AllPlaced;
    forall x ensures x in [n.id] + AllIds(n.subGroups) <==> RelevantBelow(rows, depth, keep, [g], x) {
      BelowSplits(rows, depth, keep, g, x);
    }
    BelowSplits(rows, depth, keep, g, g.id);
    JoinNoRepeats([n.id], AllIds(n.subGroups));
  }

  lemma IdsWritten(rows: seq<Group>, depth: string -> nat, keep: set<string>, parent: string, k: Group,
    kids: seq<Group>, n: Node, forest: seq<Node>)
    requires Tree(rows, depth) && Siblings(rows, parent, [k] + kids) && Relevant(rows, depth, keep, k)
    requires HoldsOne(rows, depth, keep, k, n) && Holds(rows, depth, keep, kids, forest)
    ensures NoRepeats(AllIds([n] + forest))
    ensures forall x :: x in AllIds([n] + forest) <==> RelevantBelow(rows, depth, keep, [k] + kids, x)
  {
    hide Tree, Relevant, RelevantBelow, AllIds, Placed, AllPlaced, Siblings, NodeIds, NoRepeats, RelevantOf;
    SiblingsRest(rows, parent, k, kids);
    IdsOfOne(rows, depth, keep, k, n);
    var mine, others := [n.id] + AllIds(n.subGroups), AllIds(forest);
    forall x | x in mine ensures x !in others { BelowApart(rows, depth, keep, k, parent, kids, x); }
    JoinNoRepeats(mine, others);
    AllIdsFirst(n, forest);
    hide HoldsOne;
    forall x ensures x in AllIds([n] + forest) <==> RelevantBelow(rows, depth, keep, [k] + kids, x) {
      BelowFirst(rows, depth, keep, k, kids, x);
      assert x in AllIds([n] + forest) <==> x in mine || x in others;
    }
  }

  lemma HoldsWritten(rows: seq<Group>, depth: string -> nat, keep: set<string>, parent: string, k: Group,
    kids: seq<Group>, n: Node, forest: seq<Node>)
    requires Tree(rows, depth) && Siblings(rows, parent, [k] + kids) && Relevant(rows, depth, keep, k)
    requires HoldsOne(rows, depth, keep, k, n) && Holds(rows, depth, keep, kids, forest)
    ensures Holds(rows, depth, keep, [k] + kids, [n] + forest)
  {
    hide Tree, Relevant, RelevantBelow, AllIds, Placed, AllPlaced, Siblings, NoRepeats, RelevantOf;
    IdsWritten(rows, depth, keep, parent, k, kids, n, forest);
    assert n.id == k.id && Placed(rows, depth, keep, n) && AllPlaced(rows, depth, keep, n.subGroups);
    hide HoldsOne;
    PlacedFirst(rows, depth, keep, n, forest);
    RelevantOfFirst(rows, depth, keep, k, kids);
    assert NodeIds([n] + forest) == [n.id] + NodeIds(forest);
    hide NodeIds;
  }

  lemma HoldsSkipped(rows: seq<Group>, depth: string -> nat, keep: set<string>, k: Group, kids: seq<Group>,
    forest: seq<Node>)
    requires Tree(rows, depth) && !Relevant(rows, depth, keep, k) && Holds(rows, depth, keep, kids, forest)
    ensures Holds(rows, depth, keep, [k] + kids, forest)
  {
    hide Tree, Relevant, RelevantBelow, AllIds, Placed, AllPlaced;
    RelevantOfFirst(rows, depth, keep, k, kids);
    forall x ensures x in AllIds(forest) <==> RelevantBelow(rows, depth, keep, [k] + kids, x) {
      BelowFirst(rows, depth, keep, k, kids, x);
      IrrelevantBelow(rows, depth, keep, k, x);
    }
  }

  lemma RelevantOfFirst(rows: seq<Group>, depth: string -> nat, keep: set<string>, k: Group, kids: seq<Group>)
    requires Tree(rows, depth)
    ensures RelevantOf(rows, depth, keep, [k] + kids)
         == if Relevant(rows, depth, keep, k) then [k.id] + RelevantOf(rows, depth, keep, kids) else RelevantOf(rows,
           depth, keep, kids)
  {
    hide Tree, Relevant;
    assert ([k] + kids)[1..] == kids;
    assert [] + RelevantOf(rows, depth, keep, kids) == RelevantOf(rows, depth, keep, kids);
  }

  lemma HoldsNone(rows: seq<Group>, depth: string -> nat, keep: set<string>)
    requires Tree(rows, depth)
    ensures Holds(rows, depth, keep, [], [])
  {
    hide Tree, Relevant, Placed;
  }

  lemma {:induction false} ChildrenDiffer(rows: seq<Group>, parent: string)
    requires NoRepeats(Ids(rows))
    ensures Siblings(rows, parent, ChildrenOf(rows, parent))
  {
    if rows != [] {
      assert Ids(rows)[1..] == Ids(rows[1..]);
      ChildrenDiffer(rows[1..], parent);
      forall g | g in rows[1..] ensures g != rows[0] {
        var i :| 0 <= i < |rows[1..]| && rows[1..][i] == g;
        assert Ids(rows)[i + 1] == g.id && Ids(rows)[0] == rows[0].id;
      }
    }
  }

  /** groupRepWithChildren writes a group with exactly the relevant part below it. */
  lemma {:induction false} RepHolds(rows: seq<Group>, depth: string -> nat, g: Group, parentPath: string,
    keep: set<string>)
    requires Tree(rows, depth) && g in rows && (g.parent == "" || g.parent in Ids(rows))
      && parentPath == Path(Chain(rows, depth, g.parent))
    ensures HoldsOne(rows, depth, keep, g, Rep(rows, depth, g, parentPath, keep))
    decreases Floor(rows, depth) - depth(g.id), 1, 0
  {
    ChainStep(rows, depth, g);
    var kids := ChildrenOf(rows, g.id);
    ChildrenAreKids(rows, depth, g);
    ChildrenDiffer(rows, g.id);
    var path := parentPath + "/" + g.name;
    assert path == Path(Chain(rows, depth, g.id));
    RepKidsHold(rows, depth, g.id, kids, path, keep);
    hide Tree, Chain, Relevant, RelevantBelow, AllPlaced, AllIds, Siblings, Kids, Path;
  }

  lemma {:induction false} RepKidsHold(rows: seq<Group>, depth: string -> nat, parent: string, kids: seq<Group>,
    path: string, keep: set<string>)
    requires Tree(rows, depth) && Kids(rows, depth, kids, parent) && depth(parent) < Floor(rows, depth)
    requires Siblings(rows, parent, kids) && parent in Ids(rows) && path == Path(Chain(rows, depth, parent))
    ensures Holds(rows, depth, keep, kids, RepKids(rows, depth, parent, kids, path, keep))
    decreases Floor(rows, depth) - depth(parent), 0, |kids|
  {
    if kids == [] {
      HoldsNone(rows, depth, keep);
    } else {
      var k := kids[0];
      KidsRest(rows, depth, parent, kids);
      SiblingsRest(rows, parent, k, kids[1..]);
      hide Tree, Kids, Siblings, HoldsOne, Holds, Relevant, Chain, Path, Floor;
      RepHolds(rows, depth, k, path, keep);
      RepKidsHold(rows, depth, parent, kids[1..], path, keep);
      var n := Rep(rows, depth, k, path, keep);
      var rest := RepKids(rows, depth, parent, kids[1..], path, keep);
      RepKidsFirst(rows, depth, parent, kids, path, keep);
      WrittenIfRelevant(rows, depth, keep, k, n);
      if Relevant(rows, depth, keep, k) {
        HoldsWritten(rows, depth, keep, parent, k, kids[1..], n, rest);
      } else {
        HoldsSkipped(rows, depth, keep, k, kids[1..], rest);
      }
    }
  }

  lemma KidsRest(rows: seq<Group>, depth: string -> nat, parent: string, kids: seq<Group>)
    requires kids != [] && Kids(rows, depth, kids, parent)
    ensures kids == [kids[0]] + kids[1..] && Kids(rows, depth, kids[1..], parent)
    ensures kids[0] in rows && kids[0].parent == parent && depth(parent) < depth(kids[0].id) < Floor(rows, depth)
  {
    assert kids[0] in kids && forall k | k in kids[1..] :: k in kids;
    hide Floor;
  }

  lemma RepKidsFirst(rows: seq<Group>, depth: string -> nat, parent: string, kids: seq<Group>, path: string,
    keep: set<string>)
    requires Tree(rows, depth) && kids != [] && Kids(rows, depth, kids, parent) && depth(parent) < Floor(rows, depth)
    requires kids[0] in rows && Kids(rows, depth, kids[1..], parent)
    ensures
      var n, rest := Rep(rows, depth, kids[0], path, keep), RepKids(rows, depth, parent, kids[1..], path, keep);
      RepKids(rows, depth, parent, kids, path, keep) == if kids[0].id in keep
        || n.subGroups != [] then [n] + rest else rest
  {
    hide Tree, Kids, Rep, Floor;
    var rest := RepKids(rows, depth, parent, kids[1..], path, keep);
    assert [] + rest == rest;
  }
}
