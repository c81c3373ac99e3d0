/** The group references of policies: paths printed from a tree of well-named groups
    satisfy what the export and the import ask of a realm
    (internal/admin/authzimport.go:225-264 over groups.go:165-172). */
module AuthzGroups {
  import opened Basics
  import opened AuthzModel
  import opened AuthzConfig
  import opened GroupModel
  import opened GroupPaths
  import opened GroupHandlers

  /** The realm lists the ids of a tree's groups, each under its printed path. */
  ghost predicate FromTree(realm: Realm, rows: seq<Group>, depth: string -> nat)
    requires Tree(rows, depth)
  {
    && realm.groups == Ids(ListAll(rows))
    && forall g | g in ListAll(rows) :: Printed(realm, rows, depth, g)
  }

  ghost predicate Printed(realm: Realm, rows: seq<Group>, depth: string -> nat, g: Group)
    requires Tree(rows, depth)
  {
    g.id in Ids(rows) && g.id in realm.paths && realm.paths[g.id] == Path(Chain(rows, depth, g.id))
  }

  /** No name on the way down is empty at either end or holds a slash. */
  ghost predicate WellNamed(rows: seq<Group>, depth: string -> nat)
    requires Tree(rows, depth)
  {
    forall g | g in ListAll(rows) :: g.id in Ids(rows) && Printable(NamesOf(Chain(rows, depth, g.id)))
  }

  lemma {:induction false} ListedIdsDiffer(rows: seq<Group>)
    requires NoRepeats(Ids(rows))
    ensures NoRepeats(Ids(ListAll(rows))) && forall x | x in Ids(ListAll(rows)) :: x in Ids(rows)
  {
    if rows != [] {
      var x, rest := rows[0].id, Ids(rows[1..]);
      assert Ids(rows) == [x] + rest;
      assert NoRepeats(rest) && x !in rest by { FirstApart(x, rest); }
      ListedIdsDiffer(rows[1..]);
      if !rows[0].organization {
        assert Ids(ListAll(rows)) == [x] + Ids(ListAll(rows[1..]));
      } else {
        assert ListAll(rows) == ListAll(rows[1..]);
      }
    }
  }

  lemma FirstApart(x: string, rest: seq<string>)
    requires NoRepeats([x] + rest)
    ensures NoRepeats(rest) && x !in rest
  {
    forall i, j | 0 <= i < j < |rest| ensures rest[i] != rest[j] { assert ([x] + rest)[i + 1] != ([x] + rest)[j + 1]; }
    forall i | 0 <= i < |rest| ensures rest[i] != x { assert ([x] + rest)[0] != ([x] + rest)[i + 1]; }
  }

  /** So the groups do their part of TidyRealm: ids and paths are unique, no path empty. */
  lemma TreeIsTidy(realm: Realm, rows: seq<Group>, depth: string -> nat)
    requires Tree(rows, depth) && FromTree(realm, rows, depth) && WellNamed(rows, depth)
    ensures NoRepeats(realm.groups)
    ensures forall g | g in realm.groups :: g in realm.paths && realm.paths[g] != ""
    ensures forall g, h | g in realm.groups && h in realm.groups && realm.paths[g] == realm.paths[h] :: g == h
  {
    ListedIdsDiffer(rows);
    forall x | x in realm.groups
      ensures x in realm.paths && realm.paths[x] != ""
    {
      var g := RowListed(realm, rows, depth, x);
    }
    forall x, y | x in realm.groups && y in realm.groups && realm.paths[x] == realm.paths[y] ensures x == y {
      var g := RowListed(realm, rows, depth, x);
      var h := RowListed(realm, rows, depth, y);
      PathsDiffer(rows, depth, g, h);
    }
  }

  lemma RowListed(realm: Realm, rows: seq<Group>, depth: string -> nat, x: string) returns (g: Group)
    requires Tree(rows, depth) && FromTree(realm, rows, depth) && x in realm.groups
    ensures g in rows && g in ListAll(rows) && g.id == x && Printed(realm, rows, depth, g) && realm.paths[x] != ""
  {
    var i :| 0 <= i < |realm.groups| && realm.groups[i] == x;
    g := ListAll(rows)[i];
    ListAllAre(rows, g);
    assert Printed(realm, rows, depth, g);
    ChainStep(rows, depth, g);
  }
}
