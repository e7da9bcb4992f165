/** The insertions of asset rows, in order, and the forest of "installed by" that they form. */
module Forests {
  import opened Store

  /** The insertion of an asset row: its key, the image on whose behalf, and the id it got. */
  datatype Insertion = Insertion(key: Key, installer: Key, id: int, kind: int)

  /** A row inserted on its own behalf. */
  predicate IsRoot(x: Insertion) {
    x.installer == x.key
  }

  /** The row of the image that installed row i comes earlier and has the same id. */
  ghost predicate InstalledBy(log: seq<Insertion>, i: nat, j: nat)
    requires i < |log|
  {
    j < i && log[j].key == log[i].installer && log[j].id == log[i].id
  }

  ghost predicate HasInstaller(log: seq<Insertion>, i: nat)
    requires i < |log|
  {
    exists j: nat :: InstalledBy(log, i, j)
  }

  ghost predicate Forest(log: seq<Insertion>) {
    && (forall i, j :: 0 <= i < j < |log| ==> log[i].key != log[j].key)
    && (forall i: nat {:trigger HasInstaller(log, i)} :: i < |log| && !IsRoot(log[i]) ==> HasInstaller(log, i))
    && (forall i, j :: 0 <= i < j < |log| && IsRoot(log[i]) && IsRoot(log[j]) ==> log[i].id != log[j].id)
  }

  lemma ForestGrows(log: seq<Insertion>, x: Insertion)
    requires Forest(log)
    requires forall i :: 0 <= i < |log| ==> log[i].key != x.key
    requires IsRoot(x) ==> forall i :: 0 <= i < |log| && IsRoot(log[i]) ==> log[i].id != x.id
    requires !IsRoot(x) ==> exists j :: 0 <= j < |log| && log[j].key == x.installer && log[j].id == x.id
    ensures Forest(log + [x])
  {
    var log' := log + [x];
    assert forall i :: 0 <= i < |log| ==> log'[i] == log[i];
    forall i: nat | i < |log'| && !IsRoot(log'[i]) ensures HasInstaller(log', i) {
      if i < |log| {
        assert HasInstaller(log, i);
        var j: nat :| InstalledBy(log, i, j);
        assert InstalledBy(log', i, j);
      } else {
        var j :| 0 <= j < |log| && log[j].key == x.installer && log[j].id == x.id;
        assert InstalledBy(log', i, j);
      }
    }
  }

  // ---- the trees of the forest

  ghost function Parent(log: seq<Insertion>, i: nat): (j: nat)
    requires Forest(log) && i < |log| && !IsRoot(log[i])
    ensures InstalledBy(log, i, j)
  {
    assert HasInstaller(log, i);
    var j: nat :| InstalledBy(log, i, j);
    j
  }

  /** Following "installed by" from row i to the row that nobody installed. */
  ghost function Root(log: seq<Insertion>, i: nat): (r: nat)
    requires Forest(log) && i < |log|
    ensures r <= i && IsRoot(log[r])
  {
    if IsRoot(log[i]) then i else Root(log, Parent(log, i))
  }

  lemma {:induction false} RootHasId(log: seq<Insertion>, i: nat)
    requires Forest(log) && i < |log|
    ensures log[Root(log, i)].id == log[i].id
  {
    if !IsRoot(log[i]) { RootHasId(log, Parent(log, i)); }
  }

  ghost predicate IsRootOf(log: seq<Insertion>, r: nat, id: int) {
    r < |log| && IsRoot(log[r]) && log[r].id == id
  }

  lemma OneRootPerId(log: seq<Insertion>, r: nat, q: nat, id: int)
    requires Forest(log) && IsRootOf(log, r, id) && IsRootOf(log, q, id)
    ensures r == q
  {
  }
}
