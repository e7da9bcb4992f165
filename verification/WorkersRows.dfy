/** Exactly when an image gets more than one app row, and when an app row stays without assets. */
module WorkersRows {
  import opened Common
  import opened Store
  import opened Forests
  import opened Workers
  import opened WorkersAttribution

  // ---- one app row for one image

  /** A worker stands between its own empty select of the image and the image's row. */
  predicate Creating(pc: Pc, image: Key) {
    (pc.Numbering? || pc.InsertingApp? || pc.InsertingImage?) && pc.e.image == image
  }

  /** A select of the image comes up empty while another worker stands there. */
  ghost predicate SelectsBehind(s: State, a: Action, image: Key) {
    && a.Advance? && !a.fails && a.w in s.workers
    && s.workers[a.w].Selecting? && s.workers[a.w].e.image == image
    && SelectId(s.t, image) == 0
    && exists v :: v in s.workers && v != a.w && Creating(s.workers[v], image)
  }

  ghost predicate OneCreates(s: State, image: Key) {
    && (forall w, v | w in s.workers && v in s.workers ::
          Creating(s.workers[w], image) && Creating(s.workers[v], image) ==> w == v)
    && (forall w :: w in s.workers && AboutToCreate(s.workers[w]) && s.workers[w].e.image == image ==>
          CreatedFor(s, image) == {})
    && (forall i, j | i in s.origin && j in s.origin ::
          s.origin[i].image == image && s.origin[j].image == image ==> i == j)
  }

  lemma CreatesQuietly(s: State, s': State, w: nat, image: Key)
    requires OneCreates(s, image) && w in s.workers && w in s'.workers
    requires s'.workers == s.workers[w := s'.workers[w]] && s'.origin == s.origin
    requires Creating(s'.workers[w], image) ==> Creating(s.workers[w], image)
    requires AboutToCreate(s'.workers[w]) && s'.workers[w].e.image == image ==>
               AboutToCreate(s.workers[w]) && s.workers[w].e.image == image
    ensures OneCreates(s', image)
  {
    assert CreatedFor(s', image) == CreatedFor(s, image);
  }

  lemma CreatesRow(s: State, s': State, w: nat, id: int, image: Key)
    requires OneCreates(s, image) && w in s.workers && s.workers[w].InsertingApp?
    requires s'.workers == s.workers[w := InsertingImage(s.workers[w].e, id)]
    requires s'.origin == s.origin[id := Creator(w, s.workers[w].e.image)] && id !in s.origin
    ensures OneCreates(s', image)
  {
    if s.workers[w].e.image == image {
      assert CreatedFor(s, image) == {};
      assert forall i :: i in s.origin ==> i in CreatedFor(s, image) || s.origin[i].image != image;
      assert forall v :: v in s'.workers && v != w ==> !Creating(s'.workers[v], image);
    } else {
      forall i ensures i in CreatedFor(s', image) <==> i in CreatedFor(s, image) {
      }
      assert CreatedFor(s', image) == CreatedFor(s, image);
    }
  }

  /** An empty select of an image that nobody is creating: there is no row of it yet. */
  lemma CreatesFirst(s: State, s': State, w: nat, image: Key)
    requires OneCreates(s, image) && OriginInv(s, image) && Coherent(s.t)
    requires w in s.workers && s.workers[w].Selecting? && s.workers[w].e.image == image && SelectId(s.t, image) == 0
    requires w in s'.workers && s'.workers == s.workers[w := s'.workers[w]] && s'.origin == s.origin
    requires forall v :: v in s.workers && v != w ==> !Creating(s.workers[v], image)
    ensures OneCreates(s', image)
  {
    assert CreatedFor(s', image) == CreatedFor(s, image);
    forall id ensures id !in CreatedFor(s, image) {
      if id in CreatedFor(s, image) {
        var v := s.origin[id].worker;
        assert v in s.workers && image !in s.t.asset;
        assert Creating(s.workers[v], image);
      }
    }
  }

  lemma OneCreatesStep(versions: Versions, s: State, a: Action, image: Key)
    requires OneCreates(s, image) && OriginInv(s, image) && Coherent(s.t) && IdsInHand(s) && Enabled(s, a)
    requires !SelectsBehind(s, a, image)
    ensures OneCreates(Do(versions, s, a), image)
  {
    var s', pc := Do(versions, s, a), s.workers[a.w];
    if a.Advance? && pc.InsertingApp? && !a.fails {
      CreatesRow(s, s', a.w, pc.id, image);
    } else if a.Advance? && pc.Selecting? && !a.fails && pc.e.image == image && SelectId(s.t, image) == 0 {
      CreatesFirst(s, s', a.w, image);
    } else {
      CreatesQuietly(s, s', a.w, image);
    }
  }

  lemma {:induction false} OneCreatesRun(versions: Versions, states: seq<State>, actions: seq<Action>,
                                         n: nat, image: Key)
    requires Run(versions, states, actions) && Coherent(states[0].t) && n < |states|
    requires forall i :: 0 <= i < n ==> ImageLands(states[i], actions[i], image)
    requires forall i :: 0 <= i < n ==> !SelectsBehind(states[i], actions[i], image)
    ensures OneCreates(states[n], image)
  {
    if n > 0 {
      OneCreatesRun(versions, states, actions, n - 1, image);
      OriginRun(versions, states, actions, n - 1, image);
      RunKeeps(versions, states, actions, n - 1);
      OneCreatesStep(versions, states[n - 1], actions[n - 1], image);
    }
  }

  /** While no insert of its own row has failed and no select of it came up empty behind another
      worker, an image has at most one app row. */
  lemma AtMostOneRow(versions: Versions, states: seq<State>, actions: seq<Action>, n: nat, image: Key)
    requires Run(versions, states, actions) && Coherent(states[0].t) && n < |states|
    requires forall i :: 0 <= i < n ==> ImageLands(states[i], actions[i], image)
    requires forall i :: 0 <= i < n ==> !SelectsBehind(states[i], actions[i], image)
    ensures |CreatedFor(states[n], image)| <= 1
  {
    OneCreatesRun(versions, states, actions, n, image);
    var ids := CreatedFor(states[n], image);
    forall i, j | i in ids && j in ids ensures i == j {
      assert i in states[n].origin && j in states[n].origin;
    }
    AtMostOne(ids);
  }

  lemma AtMostOne<T>(ids: set<T>)
    requires forall i, j :: i in ids && j in ids ==> i == j
    ensures |ids| <= 1
  {
    if id :| id in ids {
      assert ids == {id};
    }
  }

  // ---- and otherwise more than one

  /** No statement fails of a worker that stands between its empty select of the image and the
      image's row. */
  predicate CreationLands(s: State, a: Action, image: Key) {
    !(a.Advance? && a.fails && a.w in s.workers && Creating(s.workers[a.w], image))
  }

  ghost function AboutTo(s: State, image: Key): set<nat> {
    set w | w in s.workers && AboutToCreate(s.workers[w]) && s.workers[w].e.image == image
  }

  /** The app rows that the image has, and those on their way. */
  ghost function RowsComing(s: State, image: Key): nat {
    |CreatedFor(s, image)| + |AboutTo(s, image)|
  }

  /** Workers past an empty select have admitted version information; a worker about to insert the
      image's row has its app row on record. */
  ghost predicate CreatorsInv(versions: Versions, s: State, image: Key) {
    && (forall w :: w in s.workers && Creating(s.workers[w], image) ==>
          versions(image).Some? && Admits(versions(image).value))
    && (forall w :: w in s.workers && s.workers[w].InsertingImage? && s.workers[w].e.image == image ==>
          s.workers[w].id in CreatedFor(s, image))
  }

  lemma CreatorsStep(versions: Versions, s: State, a: Action, image: Key)
    requires CreatorsInv(versions, s, image) && OriginsKnown(s) && IdsInHand(s) && Enabled(s, a)
    ensures CreatorsInv(versions, Do(versions, s, a), image)
  {
    var s' := Do(versions, s, a);
    assert s'.workers == s.workers[a.w := s'.workers[a.w]];
    OnlyCreates(versions, s, a, image);
  }

  /** A step leaves the rows created as they are, but for the row that it may add. */
  lemma OnlyCreates(versions: Versions, s: State, a: Action, image: Key)
    requires OriginsKnown(s) && IdsInHand(s) && Enabled(s, a)
    ensures var s', pc := Do(versions, s, a), s.workers[a.w];
            if a.Advance? && !a.fails && pc.InsertingApp? && pc.e.image == image
            then pc.id !in CreatedFor(s, image) && CreatedFor(s', image) == CreatedFor(s, image) + {pc.id}
            else CreatedFor(s', image) == CreatedFor(s, image)
  {
    var s', pc := Do(versions, s, a), s.workers[a.w];
    if a.Advance? && !a.fails && pc.InsertingApp? {
      assert pc.id !in s.origin && s'.origin == s.origin[pc.id := Creator(a.w, pc.e.image)];
    } else {
      assert s'.origin == s.origin;
    }
  }

  lemma OriginsStep(versions: Versions, s: State, a: Action)
    requires OriginsKnown(s) && Enabled(s, a)
    ensures OriginsKnown(Do(versions, s, a))
  {
  }

  /** Who is about to create a row of the image, after a step. */
  lemma AboutToMoves(versions: Versions, s: State, a: Action, image: Key)
    requires CreatorsInv(versions, s, image) && Enabled(s, a) && IdsInHand(s) && CreationLands(s, a, image)
    ensures var s', pc := Do(versions, s, a), s.workers[a.w];
            if a.Advance? && pc.InsertingApp? && pc.e.image == image
            then a.w in AboutTo(s, image) && AboutTo(s', image) == AboutTo(s, image) - {a.w} && !a.fails
            else AboutTo(s, image) <= AboutTo(s', image)
  {
    var s' := Do(versions, s, a);
    assert s'.workers == s.workers[a.w := s'.workers[a.w]];
  }

  /** The rows that the image has or will have never get fewer. */
  lemma RowsComeOn(versions: Versions, s: State, a: Action, image: Key)
    requires CreatorsInv(versions, s, image) && OriginsKnown(s) && Enabled(s, a) && IdsInHand(s)
    requires CreationLands(s, a, image)
    ensures RowsComing(Do(versions, s, a), image) >= RowsComing(s, image)
  {
    var s' := Do(versions, s, a);
    OnlyCreates(versions, s, a, image);
    AboutToMoves(versions, s, a, image);
    if AboutTo(s, image) <= AboutTo(s', image) {
      SmallerSet(AboutTo(s, image), AboutTo(s', image));
    }
  }

  lemma SmallerSet<T>(a: set<T>, b: set<T>)
    requires a <= b
    ensures |a| <= |b|
  {
    assert b == a + (b - a);
  }

  lemma PairSize<T>(a: set<T>, x: T, y: T)
    requires x in a && y in a && x != y
    ensures |a| >= 2
  {
    SmallerSet({x, y}, a);
  }

  lemma OneSize<T>(a: set<T>, x: T)
    requires x in a
    ensures |a| >= 1
  {
  }

  /** A select that comes up empty behind another worker puts a second row on its way. */
  lemma SecondRowComes(versions: Versions, s: State, a: Action, image: Key)
    requires CreatorsInv(versions, s, image) && OriginsKnown(s) && Enabled(s, a) && IdsInHand(s)
    requires SelectsBehind(s, a, image)
    ensures RowsComing(Do(versions, s, a), image) >= 2
  {
    var s' := Do(versions, s, a);
    var v :| v in s.workers && v != a.w && Creating(s.workers[v], image);
    OnlyCreates(versions, s, a, image);
    assert a.w in AboutTo(s', image);
    if AboutToCreate(s.workers[v]) {
      assert v in AboutTo(s', image);
      PairSize(AboutTo(s', image), v, a.w);
    } else {
      OneSize(CreatedFor(s', image), s.workers[v].id);
      OneSize(AboutTo(s', image), a.w);
    }
  }

  lemma {:induction false} CreatorsRun(versions: Versions, states: seq<State>, actions: seq<Action>,
                                       n: nat, image: Key)
    requires Run(versions, states, actions) && Coherent(states[0].t) && n < |states|
    ensures CreatorsInv(versions, states[n], image) && OriginsKnown(states[n]) && IdsInHand(states[n])
  {
    RunsStayCoherent(versions, states, actions, n, n);
    if n > 0 {
      CreatorsRun(versions, states, actions, n - 1, image);
      CreatorsStep(versions, states[n - 1], actions[n - 1], image);
      OriginsStep(versions, states[n - 1], actions[n - 1]);
    }
  }

  lemma {:induction false} TwoRowsCome(versions: Versions, states: seq<State>, actions: seq<Action>,
                                       i: nat, n: nat, image: Key)
    requires Run(versions, states, actions) && Coherent(states[0].t) && i < n < |states|
    requires forall k :: 0 <= k < n ==> CreationLands(states[k], actions[k], image)
    requires SelectsBehind(states[i], actions[i], image)
    ensures RowsComing(states[n], image) >= 2
    decreases n
  {
    CreatorsRun(versions, states, actions, n - 1, image);
    if i == n - 1 {
      SecondRowComes(versions, states[i], actions[i], image);
    } else {
      TwoRowsCome(versions, states, actions, i, n - 1, image);
      RowsComeOn(versions, states[n - 1], actions[n - 1], image);
    }
  }

  /** In every interleaving, when nobody is about to create a row of the image and no statement has
      failed of one who was: the image has at most one app row exactly when no select of it came up
      empty while another worker stood between its own empty select and its insert of the image's
      row. */
  lemma OneRowPerImageIff(versions: Versions, states: seq<State>, actions: seq<Action>, n: nat, image: Key)
    requires Run(versions, states, actions) && Coherent(states[0].t) && n < |states|
    requires forall i :: 0 <= i < n ==> CreationLands(states[i], actions[i], image)
    requires AboutTo(states[n], image) == {}
    ensures |CreatedFor(states[n], image)| <= 1
            <==> forall i :: 0 <= i < n ==> !SelectsBehind(states[i], actions[i], image)
  {
    if i :| 0 <= i < n && SelectsBehind(states[i], actions[i], image) {
      TwoRowsCome(versions, states, actions, i, n, image);
    } else {
      forall i | 0 <= i < n ensures ImageLands(states[i], actions[i], image) {
        assert CreationLands(states[i], actions[i], image);
      }
      AtMostOneRow(versions, states, actions, n, image);
    }
  }

  // ---- app rows without assets

  /** The insert of an image's own row fails, or meets a row. */
  predicate LosesImage(s: State, a: Action) {
    && a.Advance? && a.w in s.workers && s.workers[a.w].InsertingImage?
    && (a.fails || s.workers[a.w].e.image in s.t.asset)
  }

  ghost predicate HasRoot(log: seq<Insertion>, id: int) {
    exists r: nat :: IsRootOf(log, r, id)
  }

  ghost predicate InHand(s: State, id: int) {
    exists w :: w in s.workers && s.workers[w].InsertingImage? && s.workers[w].id == id
  }

  /** An app row that is no root, and that nobody will make one. */
  ghost predicate Orphan(s: State, id: int) {
    id in s.t.app && !HasRoot(s.log, id) && !InHand(s, id)
  }

  ghost predicate NoneOrphaned(s: State) {
    forall id :: !Orphan(s, id)
  }

  lemma RootLonger(log: seq<Insertion>, x: Insertion, id: int)
    ensures HasRoot(log + [x], id) <==> HasRoot(log, id) || (IsRoot(x) && x.id == id)
  {
    if r: nat :| IsRootOf(log, r, id) { assert IsRootOf(log + [x], r, id); }
    if IsRoot(x) && x.id == id { assert IsRootOf(log + [x], |log|, id); }
    if r: nat :| IsRootOf(log + [x], r, id) {
      if r < |log| { assert IsRootOf(log, r, id); }
    }
  }

  /** What a step does to the roots. */
  lemma RootsAfter(versions: Versions, s: State, a: Action, id: int)
    requires LogInv(s) && Enabled(s, a)
    ensures HasRoot(Do(versions, s, a).log, id)
            <==> HasRoot(s.log, id)
                 || (a.Advance? && s.workers[a.w].InsertingImage? && !LosesImage(s, a) && s.workers[a.w].id == id)
  {
    if Lands(s, a) == None {
      NothingLands(versions, s, a);
    } else {
      RowLands(versions, s, a);
      RootLonger(s.log, Lands(s, a).value, id);
    }
  }

  /** And to the ids of workers about to insert an image's row. */
  lemma InHandAfter(versions: Versions, s: State, a: Action, id: int)
    requires Coherent(s.t) && IdsInHand(s) && RootsInv(s) && Enabled(s, a)
    ensures var pc := s.workers[a.w];
            InHand(Do(versions, s, a), id)
            <==> (InHand(s, id) && !(a.Advance? && pc.InsertingImage? && pc.id == id))
                 || (a.Advance? && !a.fails && pc.InsertingApp? && pc.id == id)
  {
    var s', pc := Do(versions, s, a), s.workers[a.w];
    assert s'.workers == s.workers[a.w := s'.workers[a.w]];
    if w :| w in s.workers && s.workers[w].InsertingImage? && s.workers[w].id == id {
      assert w != a.w ==> s'.workers[w] == s.workers[w];
    }
    if a.Advance? && !a.fails && pc.InsertingApp? && pc.id == id {
      assert s'.workers[a.w].InsertingImage?;
    }
  }

  lemma AppAfter(versions: Versions, s: State, a: Action, id: int)
    requires IdsInHand(s) && Enabled(s, a)
    ensures id in Do(versions, s, a).t.app
            <==> id in s.t.app || (a.Advance? && !a.fails && s.workers[a.w].InsertingApp? && s.workers[a.w].id == id)
  {
  }

  /** Exactly a step that loses an image's row leaves an orphan, and orphans stay. */
  lemma OrphanStep(versions: Versions, s: State, a: Action, id: int)
    requires Coherent(s.t) && IdsInHand(s) && LogInv(s) && RootsInv(s) && Enabled(s, a)
    ensures Orphan(Do(versions, s, a), id) <==> Orphan(s, id) || (LosesImage(s, a) && s.workers[a.w].id == id)
  {
    RootsAfter(versions, s, a, id);
    InHandAfter(versions, s, a, id);
    AppAfter(versions, s, a, id);
    if a.Advance? && s.workers[a.w].InsertingImage? {
      assert InHand(s, s.workers[a.w].id);
      assert s.workers[a.w].id in s.t.app;
      assert !HasRoot(s.log, s.workers[a.w].id);
    }
  }

  lemma OrphanStepIff(versions: Versions, s: State, a: Action)
    requires Coherent(s.t) && IdsInHand(s) && LogInv(s) && RootsInv(s) && Enabled(s, a)
    ensures NoneOrphaned(Do(versions, s, a)) <==> NoneOrphaned(s) && !LosesImage(s, a)
  {
    var s' := Do(versions, s, a);
    forall id
      ensures Orphan(s, id) ==> Orphan(s', id)
      ensures Orphan(s', id) ==> Orphan(s, id) || LosesImage(s, a)
      ensures LosesImage(s, a) ==> Orphan(s', s.workers[a.w].id)
    {
      OrphanStep(versions, s, a, id);
      if LosesImage(s, a) { OrphanStep(versions, s, a, s.workers[a.w].id); }
    }
    if LosesImage(s, a) { OrphanStep(versions, s, a, s.workers[a.w].id); }
  }

  lemma {:induction false} OrphansIff(versions: Versions, states: seq<State>, actions: seq<Action>, n: nat)
    requires Run(versions, states, actions) && states[0].t == EMPTY && n < |states|
    ensures NoneOrphaned(states[n]) <==> forall i :: 0 <= i < n ==> !LosesImage(states[i], actions[i])
  {
    if n == 0 {
      assert forall id :: id !in states[0].t.app;
    } else {
      OrphansIff(versions, states, actions, n - 1);
      RunKeeps(versions, states, actions, n - 1);
      OrphanStepIff(versions, states[n - 1], actions[n - 1]);
    }
  }

  /** In every interleaving from empty tables, when nobody is about to insert an image's row, the app
      rows are the roots of the inserted rows exactly when no insert of an image's row failed or met
      a row. */
  lemma AppRowsAreRootsIff(versions: Versions, states: seq<State>, actions: seq<Action>, n: nat)
    requires Run(versions, states, actions) && states[0].t == EMPTY && n < |states|
    requires forall w :: w in states[n].workers ==> !states[n].workers[w].InsertingImage?
    ensures (forall id :: id in states[n].t.app <==> HasRoot(states[n].log, id))
            <==> forall i :: 0 <= i < n ==> !LosesImage(states[i], actions[i])
  {
    OrphansIff(versions, states, actions, n);
    RunKeeps(versions, states, actions, n);
    var s := states[n];
    assert forall id :: !InHand(s, id);
    forall id ensures HasRoot(s.log, id) ==> id in s.t.app {
      if r: nat :| IsRootOf(s.log, r, id) { assert s.log[r].id in s.t.app; }
    }
    assert NoneOrphaned(s) <==> forall id :: id in s.t.app ==> HasRoot(s.log, id) by {
      assert forall id :: Orphan(s, id) <==> id in s.t.app && !HasRoot(s.log, id);
    }
  }
}
