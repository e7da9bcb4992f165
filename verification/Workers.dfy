/** The service's workers, each recording one event after the other, interleaved statement by
    statement (src/srv/ioctl.cc:10,62-86 over src/srv/install_manager.cc and sql_helper.cc). */
module Workers {
  import opened Common
  import opened Paths
  import opened Store
  import opened Forests

  const MAX_THREAD_NUM: nat := 4

  /** What a worker does next. */
  datatype Pc =
    | Idle
    | Selecting(e: Entry)
    | Numbering(e: Entry, info: Software)
    | InsertingApp(e: Entry, info: Software, id: int)
    | InsertingImage(e: Entry, id: int)
    | InsertingTarget(e: Entry, id: int)

  /** Who created an app row, and for which image; for the record only. */
  datatype Creator = Creator(worker: nat, image: Key)

  /** The tables and the workers; for the record the app rows created and the asset rows inserted. */
  datatype State = State(t: Tables, workers: map<nat, Pc>, origin: map<int, Creator>, log: seq<Insertion>)

  datatype Action = Start(w: nat, e: Entry) | Advance(w: nat, fails: bool)

  predicate Enabled(s: State, a: Action) {
    a.w in s.workers && (if a.Start? then s.workers[a.w].Idle? else !s.workers[a.w].Idle?)
  }

  function Go(s: State, t: Tables, w: nat, pc: Pc): State {
    s.(t := t, workers := s.workers[w := pc])
  }

  /** The insert of an app row under an id generated before. */
  function PutApp(t: Tables, id: int, info: Software): Tables {
    t.(app := t.app[id := info])
  }

  /** An insert that meets a row with its key is ignored. */
  function Logged(s: State, x: Insertion): seq<Insertion> {
    if x.key in s.t.asset then s.log else s.log + [x]
  }

  function Advanced(versions: Versions, s: State, w: nat, fails: bool): State
    requires w in s.workers
  {
    var t := s.t;
    match s.workers[w]
    case Idle => s
    case Selecting(e) =>
      if fails then Go(s, t, w, Idle)
      else if SelectId(t, e.image) != 0 then Go(s, t, w, InsertingTarget(e, SelectId(t, e.image)))
      else if versions(e.image) == None || !Admits(versions(e.image).value) then Go(s, t, w, Idle)
      else Go(s, t, w, Numbering(e, versions(e.image).value))
    case Numbering(e, info) =>
      if fails then Go(s, t, w, Idle)
      else Go(s, t.(maxId := t.maxId + 1), w, InsertingApp(e, info, t.maxId + 1))
    case InsertingApp(e, info, id) =>
      if fails || id in t.app then Go(s, t, w, Idle)
      else Go(s, PutApp(t, id, info), w, InsertingImage(e, id)).(origin := s.origin[id := Creator(w, e.image)])
    case InsertingImage(e, id) =>
      if fails then Go(s, t, w, Idle)
      else
        Go(s, InsertAsset(t, e.image, id, 0, NoFault).0, w, InsertingTarget(e, id))
          .(log := Logged(s, Insertion(e.image, e.image, id, 0)))
    case InsertingTarget(e, id) =>
      if fails then Go(s, t, w, Idle)
      else
        Go(s, InsertAsset(t, e.target, id, e.kind, NoFault).0, w, Idle)
          .(log := Logged(s, Insertion(e.target, e.image, id, e.kind)))
  }

  function Do(versions: Versions, s: State, a: Action): State
    requires Enabled(s, a)
  {
    match a
    case Start(w, e) => Go(s, s.t, w, Selecting(e))
    case Advance(w, fails) => Advanced(versions, s, w, fails)
  }

  /** The workers just started, on tables t. */
  predicate IsStart(s: State) {
    s.origin == map[] && s.log == [] && forall w :: w in s.workers ==> s.workers[w].Idle?
  }

  ghost predicate Run(versions: Versions, states: seq<State>, actions: seq<Action>) {
    && |states| == |actions| + 1
    && IsStart(states[0])
    && forall i :: 0 <= i < |actions| ==>
         Enabled(states[i], actions[i]) && states[i + 1] == Do(versions, states[i], actions[i])
  }

  // ---- coherence, whatever interleaves and whatever fails

  /** Ids in the hands of workers: generated and unused, or those of an app row. */
  ghost predicate IdsInHand(s: State) {
    && (forall w :: w in s.workers && s.workers[w].InsertingApp? ==>
          0 < s.workers[w].id <= s.t.maxId && s.workers[w].id !in s.t.app)
    && (forall w, v | w in s.workers && v in s.workers && s.workers[w].InsertingApp? && s.workers[v].InsertingApp? ::
          s.workers[w].id == s.workers[v].id ==> w == v)
    && (forall w :: w in s.workers && (s.workers[w].InsertingImage? || s.workers[w].InsertingTarget?) ==>
          s.workers[w].id in s.t.app)
  }

  lemma TablesStayCoherent(versions: Versions, s: State, w: nat, fails: bool)
    requires Coherent(s.t) && IdsInHand(s) && w in s.workers
    ensures Coherent(Advanced(versions, s, w, fails).t)
  {
  }

  lemma RowsStay(versions: Versions, s: State, w: nat, fails: bool)
    requires w in s.workers
    ensures Extends(s.t, Advanced(versions, s, w, fails).t)
  {
  }

  /** How a step of worker w may change the ids in hand. */
  lemma IdsMove(versions: Versions, s: State, w: nat, fails: bool)
    requires Coherent(s.t) && IdsInHand(s) && w in s.workers
    ensures var s', pc := Advanced(versions, s, w, fails), s.workers[w];
            && w in s'.workers && s'.workers == s.workers[w := s'.workers[w]]
            && (var pc' := s'.workers[w];
                && (pc'.InsertingApp? ==>
                      !pc.Idle? && pc'.id == s'.t.maxId == s.t.maxId + 1 && s'.t.app == s.t.app)
                && (pc'.InsertingImage? || pc'.InsertingTarget? ==> pc'.id in s'.t.app))
            && (forall id :: id in s'.t.app ==> id in s.t.app || (pc.InsertingApp? && id == pc.id))
  {
  }

  lemma StepKeepsCoherence(versions: Versions, s: State, a: Action)
    requires Coherent(s.t) && IdsInHand(s) && Enabled(s, a)
    ensures var s' := Do(versions, s, a); Coherent(s'.t) && IdsInHand(s') && Extends(s.t, s'.t)
  {
    if a.Advance? {
      TablesStayCoherent(versions, s, a.w, a.fails);
      RowsStay(versions, s, a.w, a.fails);
      IdsMove(versions, s, a.w, a.fails);
    }
  }

  /** From coherent tables, in every interleaving and whatever fails: ids are positive, distinct
      and at most the generator's, assets refer to app rows, and rows never change. */
  lemma {:induction false} RunsStayCoherent(versions: Versions, states: seq<State>, actions: seq<Action>,
                                            i: nat, j: nat)
    requires Run(versions, states, actions) && Coherent(states[0].t) && i <= j < |states|
    ensures Coherent(states[j].t) && IdsInHand(states[j]) && Extends(states[i].t, states[j].t)
    decreases j
  {
    if j > 0 {
      RunsStayCoherent(versions, states, actions, if i < j then i else j - 1, j - 1);
      StepKeepsCoherence(versions, states[j - 1], actions[j - 1]);
    }
  }

  // ---- how many app rows one image gets

  /** An insert of this image's own row does not fail. */
  predicate ImageLands(s: State, a: Action, image: Key) {
    !(&& a.Advance? && a.fails && a.w in s.workers
      && s.workers[a.w].InsertingImage? && s.workers[a.w].e.image == image)
  }

  predicate AboutToCreate(pc: Pc) {
    pc.Numbering? || pc.InsertingApp?
  }

  ghost predicate OriginsKnown(s: State) {
    forall id :: id in s.origin ==> id in s.t.app && s.origin[id].worker in s.workers
  }

  /** The rows created for an image, and what each creator has done since. */
  ghost predicate OriginInv(s: State, image: Key) {
    && OriginsKnown(s)
    && (forall id :: id in s.origin && s.origin[id].image == image ==>
          || image in s.t.asset
          || (var pc := s.workers[s.origin[id].worker]; pc.InsertingImage? && pc.e.image == image))
    && (forall i, j | i in s.origin && j in s.origin ::
          s.origin[i] == s.origin[j] && s.origin[i].image == image ==> i == j)
    && (forall w, id | w in s.workers && AboutToCreate(s.workers[w]) && id in s.origin ::
          s.workers[w].e.image == image ==> s.origin[id] != Creator(w, image))
  }

  lemma OriginQuiet(s: State, s': State, w: nat, image: Key)
    requires OriginInv(s, image)
    requires w in s.workers && w in s'.workers && s'.workers == s.workers[w := s'.workers[w]]
    requires s'.origin == s.origin && (forall id :: id in s.t.app ==> id in s'.t.app)
    requires forall k :: k in s.t.asset ==> k in s'.t.asset
    requires s.workers[w].InsertingImage? && s.workers[w].e.image == image ==> image in s'.t.asset
    requires AboutToCreate(s'.workers[w]) && s'.workers[w].e.image == image ==>
               forall id :: id in s.origin ==> s.origin[id] != Creator(w, image)
    ensures OriginInv(s', image)
  {
  }

  lemma OriginCreates(s: State, s': State, w: nat, image: Key)
    requires OriginInv(s, image) && IdsInHand(s) && w in s.workers && s.workers[w].InsertingApp?
    requires var pc := s.workers[w];
             && s'.t == PutApp(s.t, pc.id, pc.info)
             && s'.workers == s.workers[w := InsertingImage(pc.e, pc.id)]
             && s'.origin == s.origin[pc.id := Creator(w, pc.e.image)]
    ensures OriginInv(s', image)
  {
    assert s.workers[w].id !in s.origin;
  }

  /** An image that no row was found for has none of this worker's. */
  lemma NotFoundMeansNotCreated(s: State, w: nat)
    requires w in s.workers && s.workers[w].Selecting? && OriginInv(s, s.workers[w].e.image) && Coherent(s.t)
    requires SelectId(s.t, s.workers[w].e.image) == 0
    ensures forall id :: id in s.origin ==> s.origin[id] != Creator(w, s.workers[w].e.image)
  {
  }

  lemma OriginStep(versions: Versions, s: State, a: Action, image: Key)
    requires OriginInv(s, image) && Coherent(s.t) && IdsInHand(s) && Enabled(s, a) && ImageLands(s, a, image)
    ensures OriginInv(Do(versions, s, a), image)
  {
    var s', w := Do(versions, s, a), a.w;
    if a.Advance? && s.workers[w].InsertingApp? && !a.fails {
      OriginCreates(s, s', w, image);
    } else {
      if a.Advance? && s.workers[w].Selecting? && s.workers[w].e.image == image && SelectId(s.t, image) == 0 {
        NotFoundMeansNotCreated(s, w);
      }
      OriginQuiet(s, s', w, image);
    }
  }

  lemma {:induction false} OriginRun(versions: Versions, states: seq<State>, actions: seq<Action>,
                                     i: nat, image: Key)
    requires Run(versions, states, actions) && Coherent(states[0].t) && i < |states|
    requires forall j :: 0 <= j < i ==> ImageLands(states[j], actions[j], image)
    ensures OriginInv(states[i], image) && states[i].workers.Keys == states[0].workers.Keys
  {
    if i > 0 {
      OriginRun(versions, states, actions, i - 1, image);
      RunsStayCoherent(versions, states, actions, i - 1, i - 1);
      OriginStep(versions, states[i - 1], actions[i - 1], image);
      WorkersStay(versions, states[i - 1], actions[i - 1]);
    }
  }

  lemma WorkersStay(versions: Versions, s: State, a: Action)
    requires Enabled(s, a)
    ensures Do(versions, s, a).workers.Keys == s.workers.Keys
  {
  }

  /** The ids of the app rows that the run created for an image. */
  ghost function CreatedFor(s: State, image: Key): set<int> {
    set id | id in s.origin && s.origin[id].image == image
  }

  lemma {:induction false} AtMostOneEach<T>(ids: set<T>, workers: set<nat>, worker: T -> nat)
    requires forall id :: id in ids ==> worker(id) in workers
    requires forall i, j | i in ids && j in ids :: worker(i) == worker(j) ==> i == j
    ensures |ids| <= |workers|
    decreases |ids|
  {
    if ids != {} {
      var id :| id in ids;
      AtMostOneEach(ids - {id}, workers - {worker(id)}, worker);
    }
  }

  lemma RowsAtMostWorkers(s: State, image: Key)
    requires OriginInv(s, image)
    ensures |CreatedFor(s, image)| <= |s.workers.Keys|
  {
    var ids, origin := CreatedFor(s, image), s.origin;
    var worker := (id: int) => if id in origin then origin[id].worker else 0;
    forall id | id in ids ensures worker(id) in s.workers.Keys {
      assert id in origin;
    }
    forall i, j | i in ids && j in ids && worker(i) == worker(j) ensures i == j {
      assert origin[i] == origin[j];
    }
    AtMostOneEach(ids, s.workers.Keys, worker);
  }

  /** While no insert of its own row has failed, an image has at most one app row per worker: at
      most four with the service's four threads. */
  lemma RowsPerImage(versions: Versions, states: seq<State>, actions: seq<Action>, i: nat, image: Key)
    requires Run(versions, states, actions) && Coherent(states[0].t) && i < |states|
    requires forall j :: 0 <= j < i ==> ImageLands(states[j], actions[j], image)
    ensures |CreatedFor(states[i], image)| <= |states[0].workers.Keys|
    ensures |states[0].workers.Keys| == MAX_THREAD_NUM ==> |CreatedFor(states[i], image)| <= 4
  {
    OriginRun(versions, states, actions, i, image);
    RowsAtMostWorkers(states[i], image);
  }

  /** The record of creations is complete: every app row is an old one or a recorded one. */
  lemma {:induction false} EveryRowRecorded(versions: Versions, states: seq<State>, actions: seq<Action>, i: nat)
    requires Run(versions, states, actions) && i < |states|
    ensures forall id :: id in states[i].t.app ==> id in states[0].t.app || id in states[i].origin
  {
    if i > 0 {
      EveryRowRecorded(versions, states, actions, i - 1);
      CreationRecorded(versions, states[i - 1], actions[i - 1]);
    }
  }

  lemma CreationRecorded(versions: Versions, s: State, a: Action)
    requires Enabled(s, a)
    ensures var s' := Do(versions, s, a);
            forall id :: id in s'.t.app ==> (id in s.t.app && (id in s.origin ==> id in s'.origin)) || id in s'.origin
  {
  }

  // ---- file rows and registry rows keep apart

  predicate ValidKey(k: Key, kind: int) {
    (kind == 0 && IsFileKey(k)) || (kind == 1 && IsRegistryKey(k))
  }

  /** What FileInstall and RegistryInstall pass on: a file image, and a target of the given kind. */
  predicate ValidEntry(e: Entry) {
    ValidKey(e.image, 0) && ValidKey(e.target, e.kind)
  }

  ghost predicate RowsValid(t: Tables) {
    forall k :: k in t.asset ==> ValidKey(k, t.asset[k].kind)
  }

  ghost predicate KeysInv(s: State) {
    RowsValid(s.t) && forall w :: w in s.workers && !s.workers[w].Idle? ==> ValidEntry(s.workers[w].e)
  }

  lemma RowsStayValid(versions: Versions, s: State, w: nat, fails: bool)
    requires KeysInv(s) && w in s.workers && !s.workers[w].Idle?
    ensures RowsValid(Advanced(versions, s, w, fails).t)
  {
    var pc := s.workers[w];
    if !fails && pc.InsertingImage? {
      assert ValidKey(pc.e.image, 0);
    } else if !fails && pc.InsertingTarget? {
      assert ValidKey(pc.e.target, pc.e.kind);
    } else {
      assert Advanced(versions, s, w, fails).t.asset == s.t.asset;
    }
  }

  lemma EntriesStay(versions: Versions, s: State, w: nat, fails: bool)
    requires w in s.workers && !s.workers[w].Idle?
    ensures var s' := Advanced(versions, s, w, fails);
            && w in s'.workers && s'.workers == s.workers[w := s'.workers[w]]
            && (!s'.workers[w].Idle? ==> s'.workers[w].e == s.workers[w].e)
  {
  }

  lemma KeysStep(versions: Versions, s: State, a: Action)
    requires KeysInv(s) && Enabled(s, a) && (a.Start? ==> ValidEntry(a.e))
    ensures KeysInv(Do(versions, s, a))
  {
    if a.Advance? {
      RowsStayValid(versions, s, a.w, a.fails);
      EntriesStay(versions, s, a.w, a.fails);
    }
  }

  lemma {:induction false} KeysRun(versions: Versions, states: seq<State>, actions: seq<Action>, i: nat)
    requires Run(versions, states, actions) && RowsValid(states[0].t) && i < |states|
    requires forall j :: 0 <= j < |actions| && actions[j].Start? ==> ValidEntry(actions[j].e)
    ensures KeysInv(states[i])
  {
    if i > 0 {
      KeysRun(versions, states, actions, i - 1);
      KeysStep(versions, states[i - 1], actions[i - 1]);
    }
  }

  /** In every run, rows of type 0 have file keys and rows of type 1 registry keys, so an insert
      that is ignored, of an image's own row or of a target's, is ignored because of a row of its
      own type. */
  lemma IgnoredForOwnKind(versions: Versions, states: seq<State>, actions: seq<Action>, i: nat, w: nat)
    requires Run(versions, states, actions) && RowsValid(states[0].t) && i < |states|
    requires forall j :: 0 <= j < |actions| && actions[j].Start? ==> ValidEntry(actions[j].e)
    requires w in states[i].workers
    ensures RowsValid(states[i].t)
    ensures var (pc, t) := (states[i].workers[w], states[i].t);
            && (pc.InsertingTarget? && pc.e.target in t.asset ==> t.asset[pc.e.target].kind == pc.e.kind)
            && (pc.InsertingImage? && pc.e.image in t.asset ==> t.asset[pc.e.image].kind == 0)
  {
    KeysRun(versions, states, actions, i);
    if !states[i].workers[w].Idle? {
      KeysApart(states[i].workers[w].e.target);
      KeysApart(states[i].workers[w].e.image);
    }
  }

  // ---- a worker that is not interrupted

  predicate FailsAt(pc: Pc, f: Faults) {
    match pc
    case Selecting(_) => f.selectFails
    case Numbering(_, _) => f.app == PrepareFails
    case InsertingApp(_, _, _) => f.app == ExecuteFails
    case InsertingImage(_, _) => f.image != NoFault
    case InsertingTarget(_, _) => f.target != NoFault
    case Idle => false
  }

  /** Worker w alone takes up to n steps. */
  function Alone(versions: Versions, s: State, w: nat, f: Faults, n: nat): (s': State)
    requires w in s.workers
    ensures w in s'.workers
    decreases n
  {
    if n == 0 || s.workers[w].Idle? then s
    else Alone(versions, Advanced(versions, s, w, FailsAt(s.workers[w], f)), w, f, n - 1)
  }

  lemma AloneInsertsRows(versions: Versions, s: State, w: nat, f: Faults)
    requires Coherent(s.t) && w in s.workers && s.workers[w].InsertingImage? && s.workers[w].id in s.t.app
    ensures var (e, id) := (s.workers[w].e, s.workers[w].id);
            var (t1, ok) := InsertAsset(s.t, e.image, id, 0, f.image);
            var s' := Alone(versions, s, w, f, 2);
            && s'.t == (if ok then InsertAsset(t1, e.target, id, e.kind, f.target).0 else t1)
            && s'.workers[w].Idle?
  {
    var s1 := Advanced(versions, s, w, FailsAt(s.workers[w], f));
    assert Alone(versions, s, w, f, 2) == Alone(versions, s1, w, f, 1);
    if !s1.workers[w].Idle? {
      var s2 := Advanced(versions, s1, w, FailsAt(s1.workers[w], f));
      assert Alone(versions, s1, w, f, 1) == Alone(versions, s2, w, f, 0) == s2;
    }
  }

  lemma AloneCreates(versions: Versions, s: State, w: nat, f: Faults)
    requires Coherent(s.t) && w in s.workers && s.workers[w].Numbering?
    ensures var (e, info) := (s.workers[w].e, s.workers[w].info);
            var (t1, id) := InsertApp(s.t, info, f.app);
            var (t2, ok) := if id == None then (t1, false) else InsertAsset(t1, e.image, id.value, 0, f.image);
            var s' := Alone(versions, s, w, f, 4);
            && s'.t == (if ok then InsertAsset(t2, e.target, id.value, e.kind, f.target).0 else t2)
            && s'.workers[w].Idle?
  {
    var s1 := Advanced(versions, s, w, FailsAt(s.workers[w], f));
    assert Alone(versions, s, w, f, 4) == Alone(versions, s1, w, f, 3);
    assert s.t.maxId + 1 !in s.t.app;
    if !s1.workers[w].Idle? {
      var s2 := Advanced(versions, s1, w, FailsAt(s1.workers[w], f));
      assert Alone(versions, s1, w, f, 3) == Alone(versions, s2, w, f, 2);
      if !s2.workers[w].Idle? {
        assert s2.t == InsertApp(s.t, s.workers[w].info, f.app).0;
        AloneInsertsRows(versions, s2, w, f);
      }
    }
  }

  /** Without interruption a worker does to the tables what one event does in sequence. */
  lemma AloneIsRecord(versions: Versions, s: State, w: nat, e: Entry, f: Faults)
    requires Coherent(s.t) && w in s.workers && s.workers[w].Idle?
    ensures var s' := Alone(versions, Do(versions, s, Start(w, e)), w, f, 5);
            s'.t == Record(versions, s.t, e, f).0 && s'.workers[w].Idle?
  {
    var s0 := Do(versions, s, Start(w, e));
    var s1 := Advanced(versions, s0, w, FailsAt(s0.workers[w], f));
    assert Alone(versions, s0, w, f, 5) == Alone(versions, s1, w, f, 4);
    if s1.workers[w].InsertingTarget? {
      var s2 := Advanced(versions, s1, w, FailsAt(s1.workers[w], f));
      assert Alone(versions, s1, w, f, 4) == Alone(versions, s2, w, f, 3) == s2;
    } else if s1.workers[w].Numbering? {
      AloneCreates(versions, s1, w, f);
    }
  }
}
