/** The group tree: rows that name their parent, ancestries and derived paths
    (internal/admin/groups.go:150-182, the store's group listings). */
module GroupModel {
  import opened Basics

  /** A row; `parent` is empty at the top level, `organization` marks the groups
      hidden under an organization's root. */
  datatype Group = Group(id: string, parent: string, name: string, organization: bool)

  function Ids(rows: seq<Group>): (r: seq<string>)
    ensures |r| == |rows| && forall i | 0 <= i < |rows| :: r[i] == rows[i].id
  {
    seq(|rows|, i requires 0 <= i < |rows| => rows[i].id)
  }

  function NamesOf(rows: seq<Group>): (r: seq<string>)
    ensures |r| == |rows| && forall i | 0 <= i < |rows| :: r[i] == rows[i].name
  {
    seq(|rows|, i requires 0 <= i < |rows| => rows[i].name)
  }

  /** The parent of a row is a row above it. */
  ghost predicate Grounded(rows: seq<Group>, depth: string -> nat, g: Group) {
    g.id != "" && (g.parent != "" ==> exists p :: p in rows && IsParent(p, g) && depth(p.id) < depth(g.id))
  }

  predicate IsParent(p: Group, g: Group) {
    p.id == g.parent && p.organization == g.organization
  }

  /** What the table's keys and the creates keep; the parent relation is taken to
      be well founded, with `depth` as the witness. */
  ghost predicate Tree(rows: seq<Group>, depth: string -> nat) {
    && NoRepeats(Ids(rows))
    && (forall g | g in rows :: Grounded(rows, depth, g))
    && (forall g, h | g in rows && h in rows && g.parent == h.parent && g.name == h.name :: g == h)
  }

  function RowOf(rows: seq<Group>, id: string): (g: Group)
    requires id in Ids(rows)
    ensures g in rows && g.id == id
  {
    rows[Find(Ids(rows), id)]
  }

  lemma SameRow(rows: seq<Group>, g: Group)
    requires NoRepeats(Ids(rows)) && g in rows
    ensures g.id in Ids(rows) && RowOf(rows, g.id) == g
  {
    var i :| 0 <= i < |rows| && rows[i] == g;
    assert Ids(rows)[i] == g.id;
    FindUnique(Ids(rows), i);
  }

  /** A row's parent is a row too. */
  lemma ParentIsRow(rows: seq<Group>, depth: string -> nat, g: Group)
    requires Tree(rows, depth) && g in rows && g.parent != ""
    ensures g.parent in Ids(rows) && IsParent(RowOf(rows, g.parent), g) && depth(g.parent) < depth(g.id)
  {
    assert Grounded(rows, depth, g);
    var p :| p in rows && IsParent(p, g) && depth(p.id) < depth(g.id);
    SameRow(rows, p);
  }

  predicate Within(c: seq<Group>, rows: seq<Group>) {
    forall g | g in c :: g in rows
  }

  lemma WithinMore(c: seq<Group>, g: Group, rows: seq<Group>)
    requires Within(c, rows) && g in rows
    ensures Within(c + [g], rows)
  {
  }

  /** Ancestry: root first, the group last. */
  ghost function Chain(rows: seq<Group>, depth: string -> nat, id: string): (c: seq<Group>)
    requires Tree(rows, depth) && (id == "" || id in Ids(rows))
    ensures (c == [] <==> id == "") && (id != "" ==> c[|c| - 1] == RowOf(rows, id))
    ensures Within(c, rows)
    decreases depth(id), id != ""
  {
    if id == "" then []
    else
      var g := RowOf(rows, id);
      if g.parent == "" then [g]
      else
        ParentIsRow(rows, depth, g);
        var up := Chain(rows, depth, g.parent);
        WithinMore(up, g, rows);
        up + [g]
  }

  lemma ChainStep(rows: seq<Group>, depth: string -> nat, g: Group)
    requires Tree(rows, depth) && g in rows
    ensures g.id in Ids(rows) && g.id != "" && (g.parent == "" || g.parent in Ids(rows))
    ensures Chain(rows, depth, g.id) == Chain(rows, depth, g.parent) + [g]
  {
    SameRow(rows, g);
    assert Grounded(rows, depth, g);
    if g.parent != "" { ParentIsRow(rows, depth, g); }
  }

  /** The names from the top down, each behind a slash. */
  function Path(chain: seq<Group>): string {
    if chain == [] then "" else Path(chain[..|chain| - 1]) + "/" + chain[|chain| - 1].name
  }

  /** ListChildren: the rows under a parent, in listing order. */
  function ChildrenOf(rows: seq<Group>, parent: string): seq<Group> {
    if rows == [] then []
    else (if rows[0].parent == parent then [rows[0]] else []) + ChildrenOf(rows[1..], parent)
  }

  lemma {:induction false} ChildrenAre(rows: seq<Group>, parent: string, g: Group)
    ensures g in ChildrenOf(rows, parent) <==> g in rows && g.parent == parent
  {
    if rows != [] { ChildrenAre(rows[1..], parent, g); }
  }
}
