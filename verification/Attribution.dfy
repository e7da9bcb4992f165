/** What the tables mean after a sequential run from empty tables, whatever statements fail in it:
    the insertions of the asset rows form a forest of "installed by", and the software ids are its
    trees. */
module Attribution {
  import opened Common
  import opened Store
  import opened Forests

  /** The row that an image without one gets. */
  function ImageRow(t: Tables, image: Key, id: int): seq<Insertion> {
    if SelectId(t, image) == 0 then [Insertion(image, image, id, 0)] else []
  }

  /** The row of a path written by the image. */
  function TargetRow(t: Tables, e: Entry, id: int, fault: Fault): seq<Insertion> {
    if fault != NoFault || e.target in t.asset then [] else [Insertion(e.target, e.image, id, e.kind)]
  }

  /** The insertions that one event makes, in order. */
  function Insertions(versions: Versions, t: Tables, step: Step): seq<Insertion> {
    var (e, f) := (step.entry, step.faults);
    var (t1, id) := InsertSoftware(versions, t, e.image, f);
    if id == None then [] else ImageRow(t, e.image, id.value) + TargetRow(t1, e, id.value, f.target)
  }

  function RunLog(versions: Versions, steps: seq<Step>): seq<Insertion> {
    if steps == [] then []
    else
      var init := steps[..|steps| - 1];
      RunLog(versions, init) + Insertions(versions, RecordAll(versions, EMPTY, init), steps[|steps| - 1])
  }

  /** The log is the asset table, and its roots have app rows. */
  ghost predicate Describes(log: seq<Insertion>, t: Tables) {
    && (forall k :: k in t.asset <==> exists i :: 0 <= i < |log| && log[i].key == k)
    && (forall i :: 0 <= i < |log| ==>
          log[i].key in t.asset && t.asset[log[i].key] == Asset(log[i].id, log[i].kind))
    && (forall i :: 0 <= i < |log| && IsRoot(log[i]) ==> log[i].id in t.app)
  }

  /** Every app row has its root. */
  ghost predicate NoOrphans(log: seq<Insertion>, t: Tables) {
    forall id :: id in t.app ==> exists r: nat :: IsRootOf(log, r, id)
  }

  lemma DescriptionGrows(log: seq<Insertion>, t: Tables, t': Tables, x: Insertion)
    requires Describes(log, t) && x.key !in t.asset
    requires t'.asset == t.asset[x.key := Asset(x.id, x.kind)]
    requires (forall id :: id in t.app ==> id in t'.app) && (IsRoot(x) ==> x.id in t'.app)
    ensures Describes(log + [x], t')
  {
    var log' := log + [x];
    assert log'[|log|] == x;
    assert forall i :: 0 <= i < |log| ==> log'[i] == log[i];
    forall k | k in t'.asset ensures exists i :: 0 <= i < |log'| && log'[i].key == k {
      if k in t.asset {
        var i :| 0 <= i < |log| && log[i].key == k;
        assert log'[i].key == k;
      }
    }
    forall i | 0 <= i < |log'|
      ensures log'[i].key in t'.asset && t'.asset[log'[i].key] == Asset(log'[i].id, log'[i].kind)
    {
    }
  }

  lemma DescriptionStays(log: seq<Insertion>, t: Tables, t': Tables)
    requires Describes(log, t) && t'.asset == t.asset && forall id :: id in t.app ==> id in t'.app
    ensures Describes(log, t')
  {
  }

  /** The first row of an image that nobody installed. */
  lemma RootInserted(log: seq<Insertion>, t: Tables, x: Insertion)
    requires Forest(log) && Describes(log, t) && Coherent(t)
    requires IsRoot(x) && x.key !in t.asset && x.id == t.maxId + 1
    ensures Forest(log + [x])
  {
    assert forall i :: 0 <= i < |log| && IsRoot(log[i]) ==> log[i].id in t.app;
    ForestGrows(log, x);
  }

  /** The row of a path that an image with a row wrote. */
  lemma ChildInserted(log: seq<Insertion>, t: Tables, x: Insertion)
    requires Forest(log) && Describes(log, t)
    requires !IsRoot(x) && x.key !in t.asset && x.installer in t.asset && t.asset[x.installer].softwareId == x.id
    ensures Forest(log + [x])
  {
    var j :| 0 <= j < |log| && log[j].key == x.installer;
    ForestGrows(log, x);
  }

  // ---- one event

  /** An image without a row that gets an id gets a row, and an app row under the next id. */
  lemma NewImage(versions: Versions, t: Tables, image: Key, f: Faults)
    requires Coherent(t) && SelectId(t, image) == 0 && InsertSoftware(versions, t, image, f).1.Some?
    ensures var (t1, id) := InsertSoftware(versions, t, image, f);
            && image !in t.asset && id == Some(t.maxId + 1)
            && t1.asset == t.asset[image := Asset(t.maxId + 1, 0)]
            && forall i :: i in t1.app <==> i in t.app || i == t.maxId + 1
  {
    assert image !in t.asset;
  }

  lemma KnownImage(versions: Versions, t: Tables, image: Key, f: Faults)
    requires SelectId(t, image) != 0 && InsertSoftware(versions, t, image, f).1.Some?
    ensures InsertSoftware(versions, t, image, f) == (t, Some(SelectId(t, image)))
    ensures image in t.asset
  {
  }

  /** The app row of an event that then could not insert the image's own row. */
  predicate LeavesOrphan(versions: Versions, t: Tables, step: Step) {
    var (image, f) := (step.entry.image, step.faults);
    && !f.selectFails && SelectId(t, image) == 0
    && versions(image).Some? && Admits(versions(image).value)
    && f.app == NoFault && f.image != NoFault
  }

  /** An event whose image gets no id leaves the asset table alone, and the app table too unless it
      leaves an orphan there. */
  lemma Refused(versions: Versions, t: Tables, step: Step)
    requires Coherent(t) && InsertSoftware(versions, t, step.entry.image, step.faults).1 == None
    ensures var t' := Record(versions, t, step.entry, step.faults).0;
            && t'.asset == t.asset
            && (forall id :: id in t'.app <==> id in t.app || (LeavesOrphan(versions, t, step) && id == t.maxId + 1))
  {
    assert t.maxId + 1 !in t.app;
  }

  lemma NewImageExtends(log: seq<Insertion>, t: Tables, t1: Tables, x: Insertion)
    requires Forest(log) && Describes(log, t) && Coherent(t)
    requires IsRoot(x) && x.key !in t.asset && x.id == t.maxId + 1
    requires t1.asset == t.asset[x.key := Asset(x.id, x.kind)]
    requires forall i :: i in t1.app <==> i in t.app || i == x.id
    ensures Forest(log + [x]) && Describes(log + [x], t1)
  {
    RootInserted(log, t, x);
    DescriptionGrows(log, t, t1, x);
  }

  lemma ImageExtends(versions: Versions, log: seq<Insertion>, t: Tables, image: Key, f: Faults)
    requires Forest(log) && Describes(log, t) && Coherent(t)
    requires InsertSoftware(versions, t, image, f).1.Some?
    ensures var (t1, id) := InsertSoftware(versions, t, image, f);
            var log1 := log + ImageRow(t, image, id.value);
            Forest(log1) && Describes(log1, t1) && image in t1.asset && t1.asset[image].softwareId == id.value
  {
    var result := InsertSoftware(versions, t, image, f);
    if SelectId(t, image) == 0 {
      var x := Insertion(image, image, t.maxId + 1, 0);
      NewImage(versions, t, image, f);
      NewImageExtends(log, t, result.0, x);
      assert log + ImageRow(t, image, result.1.value) == log + [x];
    } else {
      KnownImage(versions, t, image, f);
      assert log + ImageRow(t, image, result.1.value) == log;
    }
  }

  lemma TargetExtends(log: seq<Insertion>, t: Tables, e: Entry, id: int, fault: Fault)
    requires Forest(log) && Describes(log, t) && e.image in t.asset && t.asset[e.image].softwareId == id
    ensures var log', t' := log + TargetRow(t, e, id, fault), InsertAsset(t, e.target, id, e.kind, fault).0;
            Forest(log') && Describes(log', t')
  {
    if fault == NoFault && e.target !in t.asset {
      var y := Insertion(e.target, e.image, id, e.kind);
      ChildInserted(log, t, y);
      DescriptionGrows(log, t, InsertAsset(t, e.target, id, e.kind, NoFault).0, y);
    } else {
      assert log + [] == log;
    }
  }

  lemma InsertionsApart(versions: Versions, log: seq<Insertion>, t: Tables, step: Step)
    requires InsertSoftware(versions, t, step.entry.image, step.faults).1.Some?
    ensures var (e, f) := (step.entry, step.faults);
            var (t1, id) := InsertSoftware(versions, t, e.image, f);
            && log + Insertions(versions, t, step)
               == log + ImageRow(t, e.image, id.value) + TargetRow(t1, e, id.value, f.target)
            && Record(versions, t, e, f).0 == InsertAsset(t1, e.target, id.value, e.kind, f.target).0
  {
  }

  /** One event, whatever fails in it, extends the forest, which stays the asset table. */
  lemma EventExtends(versions: Versions, log: seq<Insertion>, t: Tables, step: Step)
    requires Forest(log) && Describes(log, t) && Coherent(t)
    ensures var log', t' := log + Insertions(versions, t, step), Record(versions, t, step.entry, step.faults).0;
            Forest(log') && Describes(log', t')
  {
    var (e, f) := (step.entry, step.faults);
    var result := InsertSoftware(versions, t, e.image, f);
    if result.1 == None {
      Refused(versions, t, step);
      DescriptionStays(log, t, Record(versions, t, e, f).0);
      assert log + [] == log;
    } else {
      ImageExtends(versions, log, t, e.image, f);
      TargetExtends(log + ImageRow(t, e.image, result.1.value), result.0, e, result.1.value, f.target);
      InsertionsApart(versions, log, t, step);
    }
  }

  // ---- runs

  /** After every run, whatever failed, the insertions form a forest that is the asset table. */
  lemma {:induction false} RunIsForest(versions: Versions, steps: seq<Step>)
    ensures var log, t := RunLog(versions, steps), RecordAll(versions, EMPTY, steps);
            Forest(log) && Describes(log, t) && Coherent(t)
  {
    if steps != [] {
      var init, step := steps[..|steps| - 1], steps[|steps| - 1];
      RunIsForest(versions, init);
      EventExtends(versions, RunLog(versions, init), RecordAll(versions, EMPTY, init), step);
      RecordKeeps(versions, RecordAll(versions, EMPTY, init), step.entry, step.faults);
    }
  }

  /** Two rows of a run have the same software id exactly when the same image, installed by
      nobody, is at the root of both; and each such root has an app row. */
  lemma SameSoftwareIffSameRoot(versions: Versions, steps: seq<Step>, i: nat, j: nat)
    requires var log := RunLog(versions, steps); i < |log| && j < |log|
    ensures var log, t := RunLog(versions, steps), RecordAll(versions, EMPTY, steps);
            && Forest(log)
            && log[i].key in t.asset
            && (log[i].id == log[j].id <==> Root(log, i) == Root(log, j))
            && t.asset[log[i].key].softwareId == log[Root(log, i)].id
            && log[Root(log, i)].id in t.app
  {
    RunIsForest(versions, steps);
    var log := RunLog(versions, steps);
    RootHasId(log, i);
    RootHasId(log, j);
  }

  // ---- which app rows are roots

  lemma RootOfLonger(log: seq<Insertion>, more: seq<Insertion>, id: int)
    ensures (exists r: nat :: IsRootOf(log + more, r, id))
            <==> (exists r: nat :: IsRootOf(log, r, id)) || (exists r: nat :: IsRootOf(more, r, id))
  {
    if r: nat :| IsRootOf(log, r, id) {
      assert IsRootOf(log + more, r, id);
    }
    if r: nat :| IsRootOf(more, r, id) {
      assert IsRootOf(log + more, |log| + r, id);
    }
    if r: nat :| IsRootOf(log + more, r, id) {
      assert if r < |log| then IsRootOf(log, r, id) else IsRootOf(more, r - |log|, id);
    }
  }

  /** The one root that an event inserts, if it does, has the next id, and so has its app row. */
  lemma EventRoots(versions: Versions, t: Tables, step: Step, id: int)
    requires Coherent(t)
    ensures var (t', more) := (Record(versions, t, step.entry, step.faults).0, Insertions(versions, t, step));
            && (id in t'.app <==>
                  || id in t.app
                  || (exists r: nat :: IsRootOf(more, r, id))
                  || (LeavesOrphan(versions, t, step) && id == t.maxId + 1))
            && ((exists r: nat :: IsRootOf(more, r, id)) ==> id == t.maxId + 1 && !LeavesOrphan(versions, t, step))
  {
    var (e, f) := (step.entry, step.faults);
    var (t1, got) := InsertSoftware(versions, t, e.image, f);
    var more := Insertions(versions, t, step);
    if got == None {
      Refused(versions, t, step);
    } else if SelectId(t, e.image) == 0 {
      NewImage(versions, t, e.image, f);
      assert more[0] == Insertion(e.image, e.image, t.maxId + 1, 0);
      assert IsRootOf(more, 0, t.maxId + 1);
      assert forall r: nat :: 0 < r < |more| ==> !IsRoot(more[r]);
    } else {
      KnownImage(versions, t, e.image, f);
      assert forall r: nat :: r < |more| ==> !IsRoot(more[r]);
    }
  }

  lemma OrphansStay(versions: Versions, log: seq<Insertion>, t: Tables, step: Step)
    requires Coherent(t) && Describes(log, t)
    ensures var (log', t') := (log + Insertions(versions, t, step), Record(versions, t, step.entry, step.faults).0);
            NoOrphans(log', t') <==> NoOrphans(log, t) && !LeavesOrphan(versions, t, step)
  {
    var (more, t') := (Insertions(versions, t, step), Record(versions, t, step.entry, step.faults).0);
    forall id
      ensures id in t.app ==>
                (id in t'.app
                 && ((exists r: nat :: IsRootOf(log + more, r, id)) <==> exists r: nat :: IsRootOf(log, r, id)))
      ensures id in t'.app && id !in t.app && !LeavesOrphan(versions, t, step) ==>
                exists r: nat :: IsRootOf(log + more, r, id)
    {
      RootOfLonger(log, more, id);
      EventRoots(versions, t, step, id);
    }
    if LeavesOrphan(versions, t, step) {
      var id := t.maxId + 1;
      RootOfLonger(log, more, id);
      EventRoots(versions, t, step, id);
      assert forall r: nat :: IsRootOf(log, r, id) ==> id in t.app;
    }
  }

  /** Whether step n of a run leaves an orphan. */
  predicate OrphanAt(versions: Versions, steps: seq<Step>, n: nat)
    requires n < |steps|
  {
    LeavesOrphan(versions, RecordAll(versions, EMPTY, steps[..n]), steps[n])
  }

  lemma OrphansAfter(versions: Versions, steps: seq<Step>)
    requires steps != []
    ensures var n := |steps| - 1;
            NoOrphans(RunLog(versions, steps), RecordAll(versions, EMPTY, steps))
            <==> NoOrphans(RunLog(versions, steps[..n]), RecordAll(versions, EMPTY, steps[..n]))
                 && !OrphanAt(versions, steps, n)
  {
    var n := |steps| - 1;
    var init := steps[..n];
    RunIsForest(versions, init);
    OrphansStay(versions, RunLog(versions, init), RecordAll(versions, EMPTY, init), steps[n]);
  }

  lemma OrphanAtPrefix(versions: Versions, steps: seq<Step>, n: nat, m: nat)
    requires m < n <= |steps|
    ensures OrphanAt(versions, steps[..n], m) == OrphanAt(versions, steps, m)
  {
    assert steps[..n][..m] == steps[..m];
  }

  lemma OrphansPrefix(versions: Versions, steps: seq<Step>)
    requires steps != []
    ensures var k := |steps| - 1;
            (forall n :: 0 <= n < |steps| ==> !OrphanAt(versions, steps, n))
            <==> (forall n :: 0 <= n < k ==> !OrphanAt(versions, steps[..k], n)) && !OrphanAt(versions, steps, k)
  {
    var k := |steps| - 1;
    forall n | 0 <= n < k ensures OrphanAt(versions, steps[..k], n) == OrphanAt(versions, steps, n) {
      OrphanAtPrefix(versions, steps, k, n);
    }
  }

  /** After a run every app row is a root exactly when no event failed between its app row and its
      image's own row. */
  lemma {:induction false} AppRowsAreRootsIff(versions: Versions, steps: seq<Step>)
    ensures NoOrphans(RunLog(versions, steps), RecordAll(versions, EMPTY, steps))
            <==> forall n :: 0 <= n < |steps| ==> !OrphanAt(versions, steps, n)
  {
    if steps != [] {
      AppRowsAreRootsIff(versions, steps[..|steps| - 1]);
      OrphansAfter(versions, steps);
      OrphansPrefix(versions, steps);
    }
  }

  /** Without failures the app rows of a run are its roots, one for one. */
  lemma AppRowsAreRoots(versions: Versions, entries: seq<Entry>, id: int)
    ensures var steps := Faultless(entries);
            var log := RunLog(versions, steps);
            && (id in RecordAll(versions, EMPTY, steps).app <==> exists r: nat :: IsRootOf(log, r, id))
            && (forall r: nat, q: nat :: IsRootOf(log, r, id) && IsRootOf(log, q, id) ==> r == q)
  {
    var steps := Faultless(entries);
    var log := RunLog(versions, steps);
    RunIsForest(versions, steps);
    assert forall n :: 0 <= n < |steps| ==> !OrphanAt(versions, steps, n);
    AppRowsAreRootsIff(versions, steps);
    forall r: nat, q: nat | IsRootOf(log, r, id) && IsRootOf(log, q, id) ensures r == q {
      OneRootPerId(log, r, q, id);
    }
  }

  /** One event whose insert of the image's own row fails leaves an app row that no asset has. */
  lemma FailedImageLeavesOrphan(versions: Versions, e: Entry) returns (steps: seq<Step>)
    requires versions(e.image).Some? && Admits(versions(e.image).value)
    ensures steps == [Step(e, Faults(false, NoFault, ExecuteFails, NoFault))]
    ensures RecordAll(versions, EMPTY, steps).app == map[1 := versions(e.image).value]
    ensures RecordAll(versions, EMPTY, steps).asset == map[] && RunLog(versions, steps) == []
    ensures !NoOrphans(RunLog(versions, steps), RecordAll(versions, EMPTY, steps))
  {
    steps := [Step(e, Faults(false, NoFault, ExecuteFails, NoFault))];
    assert steps[..0] == [];
    assert RecordAll(versions, EMPTY, []) == EMPTY && RunLog(versions, []) == [];
    assert 1 in RecordAll(versions, EMPTY, steps).app;
  }
}
