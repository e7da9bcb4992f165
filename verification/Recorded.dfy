/** Which software is recorded, and which rows a run leaves, said without the functions that record
    them. */
module Recorded {
  import opened WideStrings
  import opened Store

  /** Software of any company but Microsoft, and of Microsoft only Office. */
  predicate OfInterest(info: Software) {
    || info.company != Wide("Microsoft Corporation")
    || info.product == Wide("Microsoft Office")
  }

  ghost predicate Recognised(versions: Versions, image: Key) {
    versions(image).Some? && OfInterest(versions(image).value)
  }

  /** Whether the image of a step gets an id, when the rows of these keys are there. */
  ghost predicate ImageKnown(versions: Versions, keys: set<Key>, step: Step) {
    var (image, f) := (step.entry.image, step.faults);
    && !f.selectFails
    && (image in keys || (Recognised(versions, image) && f.app == NoFault && f.image == NoFault))
  }

  lemma ImageGetsIdIff(versions: Versions, t: Tables, step: Step)
    requires Coherent(t)
    ensures InsertSoftware(versions, t, step.entry.image, step.faults).1.Some?
            <==> ImageKnown(versions, t.asset.Keys, step)
  {
    assert t.maxId + 1 !in t.app;
  }

  /** An event succeeds exactly when its image has a row or is software of interest, and nothing
      fails that it needs. */
  lemma RecordsIff(versions: Versions, t: Tables, step: Step)
    requires Coherent(t)
    ensures Record(versions, t, step.entry, step.faults).1
            <==> ImageKnown(versions, t.asset.Keys, step) && step.faults.target == NoFault
  {
    ImageGetsIdIff(versions, t, step);
  }

  /** Without failures: when its image has a row, or has version information that does not name
      Microsoft as company, or names Microsoft Office as product. */
  lemma FaultlessRecordsIff(versions: Versions, t: Tables, e: Entry)
    requires Coherent(t)
    ensures Record(versions, t, e, NO_FAULTS).1
            <==> e.image in t.asset
                 || (&& versions(e.image).Some?
                     && (|| versions(e.image).value.company != Wide("Microsoft Corporation")
                         || versions(e.image).value.product == Wide("Microsoft Office")))
  {
    RecordsIff(versions, t, Step(e, NO_FAULTS));
  }

  // ---- the rows of a run

  /** The keys that a step leaves in the asset table. */
  ghost function KeysAfter(versions: Versions, keys: set<Key>, step: Step): set<Key> {
    if !ImageKnown(versions, keys, step) then keys
    else if step.faults.target != NoFault then keys + {step.entry.image}
    else keys + {step.entry.image, step.entry.target}
  }

  ghost function KeysOfRun(versions: Versions, keys: set<Key>, steps: seq<Step>): set<Key> {
    if steps == [] then keys
    else KeysAfter(versions, KeysOfRun(versions, keys, steps[..|steps| - 1]), steps[|steps| - 1])
  }

  lemma StepKeys(versions: Versions, t: Tables, step: Step)
    requires Coherent(t)
    ensures Record(versions, t, step.entry, step.faults).0.asset.Keys == KeysAfter(versions, t.asset.Keys, step)
  {
    ImageGetsIdIff(versions, t, step);
    assert step.entry.image !in t.asset ==> t.maxId + 1 !in t.app;
  }

  /** After any run of events, with any failures, the asset rows are those of images that had a row or
      were software of interest, and of what such images wrote. */
  lemma {:induction false} RunKeys(versions: Versions, t: Tables, steps: seq<Step>)
    requires Coherent(t)
    ensures RecordAll(versions, t, steps).asset.Keys == KeysOfRun(versions, t.asset.Keys, steps)
  {
    if steps != [] {
      var n := |steps| - 1;
      RunKeys(versions, t, steps[..n]);
      RecordAllKeeps(versions, t, steps[..n]);
      StepKeys(versions, RecordAll(versions, t, steps[..n]), steps[n]);
    }
  }

  // ---- the ids of a run

  /** A step uses an id up once the insert of an app row has been prepared, even if it then fails. */
  ghost predicate UsesId(versions: Versions, keys: set<Key>, step: Step) {
    var (image, f) := (step.entry.image, step.faults);
    !f.selectFails && image !in keys && Recognised(versions, image) && f.app != PrepareFails
  }

  ghost function IdsOfRun(versions: Versions, keys: set<Key>, steps: seq<Step>): nat {
    if steps == [] then 0
    else
      var init, last := steps[..|steps| - 1], steps[|steps| - 1];
      IdsOfRun(versions, keys, init) + if UsesId(versions, KeysOfRun(versions, keys, init), last) then 1 else 0
  }

  lemma StepIds(versions: Versions, t: Tables, step: Step)
    requires Coherent(t)
    ensures Record(versions, t, step.entry, step.faults).0.maxId
            == t.maxId + if UsesId(versions, t.asset.Keys, step) then 1 else 0
  {
    var image := step.entry.image;
    assert image in t.asset ==> SelectId(t, image) != 0;
  }

  /** After any run the generator stands at its start plus the app inserts that were prepared. */
  lemma {:induction false} RunIds(versions: Versions, t: Tables, steps: seq<Step>)
    requires Coherent(t)
    ensures RecordAll(versions, t, steps).maxId == t.maxId + IdsOfRun(versions, t.asset.Keys, steps)
  {
    if steps != [] {
      var n := |steps| - 1;
      RunIds(versions, t, steps[..n]);
      RunKeys(versions, t, steps[..n]);
      RecordAllKeeps(versions, t, steps[..n]);
      StepIds(versions, RecordAll(versions, t, steps[..n]), steps[n]);
    }
  }

  // ---- the new rows of an event

  /** The row of an image that was unknown says its own software, under an id that its asset row has
      too, as a file; the row of what it wrote has the image's id and the event's kind. */
  lemma NewRows(versions: Versions, t: Tables, e: Entry)
    requires Coherent(t) && Record(versions, t, e, NO_FAULTS).1
    ensures var t' := Record(versions, t, e, NO_FAULTS).0;
            && e.image in t'.asset && e.target in t'.asset
            && (e.image !in t.asset ==>
                  && t'.asset[e.image] == Asset(t.maxId + 1, 0)
                  && versions(e.image).Some?
                  && t'.app == t.app[t.maxId + 1 := versions(e.image).value])
            && (e.image in t.asset ==> t'.app == t.app)
            && (e.target !in t.asset && e.target != e.image ==>
                  t'.asset[e.target] == Asset(t'.asset[e.image].softwareId, e.kind))
  {
    assert t.maxId + 1 !in t.app;
    assert e.image in t.asset ==> SelectId(t, e.image) != 0;
  }
}
