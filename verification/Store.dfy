/** The service's two tables and its id generator (src/srv/sql_helper.cc), and what one event
    does to them (src/srv/install_manager.cc, src/srv/install_monitor.cc).

    A key is the text of a path as it is stored: the path up to its terminator.  The conversion
    to UTF-8 is taken to be injective and is left out of the keys. */
module Store {
  import opened Common
  import opened WideStrings

  type Key = WString

  datatype Software = Software(product: WString, company: WString, version: WString)
  datatype Asset = Asset(softwareId: int, kind: int)
  datatype Tables = Tables(app: map<int, Software>, asset: map<Key, Asset>, maxId: int)

  /** What may go wrong in an insert: preparing the statement, or executing it. */
  datatype Fault = NoFault | PrepareFails | ExecuteFails

  const EMPTY := Tables(map[], map[], 0)

  const MICROSOFT: WString := Wide("Microsoft Corporation")
  const OFFICE: WString := Wide("Microsoft Office")

  /** The version information of an image, if it has any. */
  type Versions = Key -> Option<Software>

  /** Software that is recorded: not Microsoft's, except Office. */
  predicate Admits(info: Software) {
    info.company == MICROSOFT ==> info.product == OFFICE
  }

  // ---- the statements

  /** select software_id from asset where file = key; 0 when there is no row. */
  function SelectId(t: Tables, key: Key): int {
    if key in t.asset then t.asset[key].softwareId else 0
  }

  /** insert into app, under the next id. */
  function InsertApp(t: Tables, info: Software, fault: Fault): (Tables, Option<int>) {
    var id := t.maxId + 1;
    if fault == PrepareFails then (t, None)
    else if fault == ExecuteFails || id in t.app then (t.(maxId := id), None)
    else (t.(maxId := id, app := t.app[id := info]), Some(id))
  }

  /** insert or ignore into asset. */
  function InsertAsset(t: Tables, key: Key, id: int, kind: int, fault: Fault): (Tables, bool) {
    if fault != NoFault then (t, false)
    else if key in t.asset then (t, true)
    else (t.(asset := t.asset[key := Asset(id, kind)]), true)
  }

  // ---- one event

  /** The paths of an event, converted: the image of the process, and what it wrote. */
  datatype Entry = Entry(image: Key, target: Key, kind: int)

  /** The faults that one event meets. */
  datatype Faults = Faults(selectFails: bool, app: Fault, image: Fault, target: Fault)

  const NO_FAULTS := Faults(false, NoFault, NoFault, NoFault)

  /** InsertSoftware: the id of the software that the image belongs to. */
  function InsertSoftware(versions: Versions, t: Tables, image: Key, f: Faults): (Tables, Option<int>) {
    if f.selectFails then (t, None)
    else if SelectId(t, image) != 0 then (t, Some(SelectId(t, image)))
    else if versions(image) == None || !Admits(versions(image).value) then (t, None)
    else
      var (t1, id) := InsertApp(t, versions(image).value, f.app);
      if id == None then (t1, None)
      else
        var (t2, ok) := InsertAsset(t1, image, id.value, 0, f.image);
        (t2, if ok then id else None)
  }

  /** FileInstall and RegistryInstall on converted paths; tells whether every step succeeded. */
  function Record(versions: Versions, t: Tables, e: Entry, f: Faults): (Tables, bool) {
    var (t1, id) := InsertSoftware(versions, t, e.image, f);
    if id == None then (t1, false) else InsertAsset(t1, e.target, id.value, e.kind, f.target)
  }

  /** Ids are positive and at most the generator's, and every asset refers to an app row. */
  ghost predicate Coherent(t: Tables) {
    && t.maxId >= 0
    && (forall id :: id in t.app ==> 0 < id <= t.maxId)
    && (forall k :: k in t.asset ==> t.asset[k].softwareId in t.app)
  }

  /** Rows once present stay as they are. */
  ghost predicate Extends(t: Tables, t': Tables) {
    && (forall id :: id in t.app ==> id in t'.app && t'.app[id] == t.app[id])
    && (forall k :: k in t.asset ==> k in t'.asset && t'.asset[k] == t.asset[k])
    && t.maxId <= t'.maxId
  }

  lemma RecordKeeps(versions: Versions, t: Tables, e: Entry, f: Faults)
    requires Coherent(t)
    ensures Coherent(Record(versions, t, e, f).0) && Extends(t, Record(versions, t, e, f).0)
  {
  }

  // ---- runs of events, one after the other

  datatype Step = Step(entry: Entry, faults: Faults)

  function RecordAll(versions: Versions, t: Tables, steps: seq<Step>): Tables {
    if steps == [] then t
    else
      var init, last := steps[..|steps| - 1], steps[|steps| - 1];
      Record(versions, RecordAll(versions, t, init), last.entry, last.faults).0
  }

  lemma {:induction false} RecordAllKeeps(versions: Versions, t: Tables, steps: seq<Step>)
    requires Coherent(t)
    ensures Coherent(RecordAll(versions, t, steps)) && Extends(t, RecordAll(versions, t, steps))
  {
    if steps != [] {
      var n := |steps| - 1;
      RecordAllKeeps(versions, t, steps[..n]);
      RecordKeeps(versions, RecordAll(versions, t, steps[..n]), steps[n].entry, steps[n].faults);
    }
  }

  /** After an event was recorded, both its rows are there and the image has an id. */
  lemma RecordedRows(versions: Versions, t: Tables, e: Entry, f: Faults)
    requires Coherent(t) && Record(versions, t, e, f).1
    ensures var t' := Record(versions, t, e, f).0;
            e.image in t'.asset && e.target in t'.asset && SelectId(t', e.image) != 0
  {
    RecordKeeps(versions, t, e, f);
    var (t1, id) := InsertSoftware(versions, t, e.image, f);
    assert e.image in t1.asset;
  }

  /** A recorded event, replayed after any further events and whatever failed in them, changes
      neither the tables nor the id generator. */
  lemma ReplayChangesNothing(versions: Versions, t: Tables, e: Entry, f: Faults, steps: seq<Step>)
    requires Coherent(t) && Record(versions, t, e, f).1
    ensures var t2 := RecordAll(versions, Record(versions, t, e, f).0, steps);
            Record(versions, t2, e, NO_FAULTS) == (t2, true)
  {
    var t1 := Record(versions, t, e, f).0;
    RecordKeeps(versions, t, e, f);
    RecordedRows(versions, t, e, f);
    RecordAllKeeps(versions, t1, steps);
  }

  /** The run without the repetitions of an event. */
  function Distinct(entries: seq<Entry>): seq<Entry> {
    if entries == [] then []
    else
      var init, e := entries[..|entries| - 1], entries[|entries| - 1];
      if e in init then Distinct(init) else Distinct(init) + [e]
  }

  function Faultless(entries: seq<Entry>): seq<Step> {
    seq(|entries|, i requires 0 <= i < |entries| => Step(entries[i], NO_FAULTS))
  }

  /** Every event of the run is recorded when it occurs. */
  ghost predicate AllRecorded(versions: Versions, t: Tables, entries: seq<Entry>) {
    forall i :: 0 <= i < |entries| ==>
      Record(versions, RecordAll(versions, t, Faultless(entries[..i])), entries[i], NO_FAULTS).1
  }

  lemma FaultlessSnoc(entries: seq<Entry>, e: Entry)
    ensures Faultless(entries + [e]) == Faultless(entries) + [Step(e, NO_FAULTS)]
  {
  }

  lemma {:induction false} RecordAllSplit(versions: Versions, t: Tables, a: seq<Step>, b: seq<Step>)
    ensures RecordAll(versions, t, a + b) == RecordAll(versions, RecordAll(versions, t, a), b)
    decreases |b|
  {
    if b == [] {
      assert a + b == a;
    } else {
      var n := |b| - 1;
      assert (a + b)[..|a + b| - 1] == a + b[..n];
      RecordAllSplit(versions, t, a, b[..n]);
    }
  }

  lemma RunFrom(versions: Versions, t: Tables, steps: seq<Step>, i: nat)
    requires i < |steps|
    ensures RecordAll(versions, t, steps)
            == (var before := RecordAll(versions, t, steps[..i]);
                RecordAll(versions, Record(versions, before, steps[i].entry, steps[i].faults).0, steps[i + 1..]))
  {
    assert steps == steps[..i + 1] + steps[i + 1..];
    RecordAllSplit(versions, t, steps[..i + 1], steps[i + 1..]);
    assert steps[..i + 1][..i] == steps[..i];
  }

  /** An event that occurred earlier in a run of recorded events adds nothing at its end. */
  lemma RepeatAddsNothing(versions: Versions, t: Tables, init: seq<Entry>, e: Entry)
    requires Coherent(t) && AllRecorded(versions, t, init) && e in init
    ensures var t' := RecordAll(versions, t, Faultless(init)); Record(versions, t', e, NO_FAULTS).0 == t'
  {
    var i :| 0 <= i < |init| && init[i] == e;
    var steps := Faultless(init);
    var before := RecordAll(versions, t, Faultless(init[..i]));
    assert steps[..i] == Faultless(init[..i]);
    RecordAllKeeps(versions, t, Faultless(init[..i]));
    RunFrom(versions, t, steps, i);
    ReplayChangesNothing(versions, before, e, NO_FAULTS, steps[i + 1..]);
  }

  lemma RecordSnoc(versions: Versions, t: Tables, entries: seq<Entry>, e: Entry)
    ensures RecordAll(versions, t, Faultless(entries + [e]))
            == Record(versions, RecordAll(versions, t, Faultless(entries)), e, NO_FAULTS).0
  {
    FaultlessSnoc(entries, e);
    assert Faultless(entries + [e])[..|entries|] == Faultless(entries);
  }

  lemma RecordedPrefix(versions: Versions, t: Tables, entries: seq<Entry>, n: nat)
    requires AllRecorded(versions, t, entries) && n <= |entries|
    ensures AllRecorded(versions, t, entries[..n])
  {
    assert forall i :: 0 <= i < n ==> entries[..n][..i] == entries[..i] && entries[..n][i] == entries[i];
  }

  lemma NewEntry(versions: Versions, t: Tables, init: seq<Entry>, e: Entry)
    requires e !in init
    requires RecordAll(versions, t, Faultless(init)) == RecordAll(versions, t, Faultless(Distinct(init)))
    ensures RecordAll(versions, t, Faultless(init + [e])) == RecordAll(versions, t, Faultless(Distinct(init + [e])))
  {
    RecordSnoc(versions, t, init, e);
    RecordSnoc(versions, t, Distinct(init), e);
    assert (init + [e])[..|init|] == init;
    assert Distinct(init + [e]) == Distinct(init) + [e];
  }

  lemma RepeatedEntry(versions: Versions, t: Tables, init: seq<Entry>, e: Entry)
    requires Coherent(t) && AllRecorded(versions, t, init) && e in init
    ensures RecordAll(versions, t, Faultless(init + [e])) == RecordAll(versions, t, Faultless(init))
    ensures Distinct(init + [e]) == Distinct(init)
  {
    RecordSnoc(versions, t, init, e);
    RepeatAddsNothing(versions, t, init, e);
    assert (init + [e])[..|init|] == init;
  }

  /** A run of recorded events leaves the tables that the run without repetitions leaves. */
  lemma {:induction false} RepeatsDoNotMatter(versions: Versions, t: Tables, entries: seq<Entry>)
    requires Coherent(t) && AllRecorded(versions, t, entries)
    ensures RecordAll(versions, t, Faultless(entries)) == RecordAll(versions, t, Faultless(Distinct(entries)))
    decreases |entries|
  {
    if entries == [] {
      assert Distinct(entries) == entries;
    } else {
      var n := |entries| - 1;
      var init, e := entries[..n], entries[n];
      assert entries == init + [e];
      RecordedPrefix(versions, t, entries, n);
      RepeatsDoNotMatter(versions, t, init);
      if e in init {
        RepeatedEntry(versions, t, init, e);
      } else {
        NewEntry(versions, t, init, e);
      }
    }
  }
}
