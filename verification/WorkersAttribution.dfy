/** What attribution keeps when workers interleave: exactly when every row has the software id of
    the image that installed it, and when an image gets one app row. */
module WorkersAttribution {
  import opened Common
  import opened Store
  import opened Forests
  import opened Workers

  // ---- what the log says, whatever interleaves and whatever fails

  /** The logged rows are there, each once, and their installers have rows. */
  ghost predicate LogInv(s: State) {
    && (forall i :: 0 <= i < |s.log| ==>
          && s.log[i].key in s.t.asset
          && s.t.asset[s.log[i].key] == Asset(s.log[i].id, s.log[i].kind)
          && s.log[i].installer in s.t.asset)
    && (forall i, j :: 0 <= i < j < |s.log| ==> s.log[i].key != s.log[j].key)
    && (forall w :: w in s.workers && s.workers[w].InsertingTarget? ==> s.workers[w].e.image in s.t.asset)
  }

  /** No two roots have the same id, nor will they. */
  ghost predicate RootsInv(s: State) {
    && (forall i, j :: 0 <= i < j < |s.log| && IsRoot(s.log[i]) && IsRoot(s.log[j]) ==> s.log[i].id != s.log[j].id)
    && (forall i :: 0 <= i < |s.log| ==> s.log[i].id in s.t.app)
    && (forall w, i | w in s.workers && s.workers[w].InsertingImage? && 0 <= i < |s.log| && IsRoot(s.log[i]) ::
          s.log[i].id != s.workers[w].id)
    && (forall w, v |
          && w in s.workers && v in s.workers
          && s.workers[w].InsertingImage? && s.workers[v].InsertingImage? ::
          s.workers[w].id == s.workers[v].id ==> w == v)
  }

  ghost predicate Listed(log: seq<Insertion>, n: int, k: Key)
    requires n <= |log|
  {
    exists j :: 0 <= j < n && log[j].key == k
  }

  ghost predicate AllLogged(s: State) {
    forall k {:trigger Listed(s.log, |s.log|, k)} :: k in s.t.asset ==> Listed(s.log, |s.log|, k)
  }

  /** Every installer's row comes before the rows it installed. */
  ghost predicate Ordered(log: seq<Insertion>) {
    forall i {:trigger Listed(log, i, log[i].installer)} :: 0 <= i < |log| && !IsRoot(log[i]) ==>
      Listed(log, i, log[i].installer)
  }

  ghost predicate Complete(s: State) {
    AllLogged(s) && Ordered(s.log)
  }

  /** Every row that the run inserted has the software id of its installer's row. */
  ghost predicate Attributed(s: State) {
    forall i :: 0 <= i < |s.log| ==>
      s.log[i].installer in s.t.asset && s.t.asset[s.log[i].installer].softwareId == s.log[i].id
  }

  /** The insert that a step of worker w makes, if it makes one. */
  function Lands(s: State, a: Action): Option<Insertion> {
    if !a.Advance? || a.fails || a.w !in s.workers then None
    else
      match s.workers[a.w]
      case InsertingImage(e, id) => if e.image in s.t.asset then None else Some(Insertion(e.image, e.image, id, 0))
      case InsertingTarget(e, id) =>
        if e.target in s.t.asset then None else Some(Insertion(e.target, e.image, id, e.kind))
      case _ => None
  }

  lemma NothingLands(versions: Versions, s: State, a: Action)
    requires Enabled(s, a) && Lands(s, a) == None
    ensures var s' := Do(versions, s, a); s'.log == s.log && s'.t.asset == s.t.asset
  {
  }

  lemma RowLands(versions: Versions, s: State, a: Action)
    requires Enabled(s, a) && Lands(s, a).Some?
    ensures var (s', x) := (Do(versions, s, a), Lands(s, a).value);
            && s'.log == s.log + [x] && x.key !in s.t.asset
            && s'.t == s.t.(asset := s.t.asset[x.key := Asset(x.id, x.kind)])
  {
  }

  lemma TargetsKnown(versions: Versions, s: State, a: Action)
    requires LogInv(s) && Enabled(s, a)
    ensures var s' := Do(versions, s, a);
            && s'.workers == s.workers[a.w := s'.workers[a.w]]
            && forall w :: w in s'.workers && s'.workers[w].InsertingTarget? ==> s'.workers[w].e.image in s'.t.asset
  {
  }

  lemma LogStep(versions: Versions, s: State, a: Action)
    requires LogInv(s) && Enabled(s, a)
    ensures LogInv(Do(versions, s, a))
  {
    TargetsKnown(versions, s, a);
    if Lands(s, a).Some? {
      RowLands(versions, s, a);
    } else {
      NothingLands(versions, s, a);
    }
  }

  /** Who may come to insert an image's own row: a worker that has just created its app row. */
  lemma ImageIds(versions: Versions, s: State, a: Action)
    requires Coherent(s.t) && IdsInHand(s) && Enabled(s, a)
    ensures var s' := Do(versions, s, a);
            && s'.workers == s.workers[a.w := s'.workers[a.w]]
            && (forall id :: id in s.t.app ==> id in s'.t.app)
            && (s'.workers[a.w].InsertingImage? ==>
                  s'.workers[a.w].id !in s.t.app && s'.workers[a.w].id in s'.t.app && Lands(s, a) == None)
  {
  }

  lemma RootsStep(versions: Versions, s: State, a: Action)
    requires LogInv(s) && RootsInv(s) && Coherent(s.t) && IdsInHand(s) && Enabled(s, a)
    ensures RootsInv(Do(versions, s, a))
  {
    ImageIds(versions, s, a);
    if Lands(s, a).Some? {
      RowLands(versions, s, a);
      RootsGrow(versions, s, a);
    } else {
      NothingLands(versions, s, a);
    }
  }

  lemma RootsGrow(versions: Versions, s: State, a: Action)
    requires LogInv(s) && RootsInv(s) && Coherent(s.t) && IdsInHand(s) && Enabled(s, a) && Lands(s, a).Some?
    ensures RootsInv(Do(versions, s, a))
  {
    var s', x := Do(versions, s, a), Lands(s, a).value;
    RowLands(versions, s, a);
    ImageIds(versions, s, a);
    assert IsRoot(x) ==> s.workers[a.w].InsertingImage? && s.workers[a.w].id == x.id;
    assert x.id in s.t.app && !s'.workers[a.w].InsertingImage?;
    assert s'.log[|s.log|] == x;
    assert forall i :: 0 <= i < |s.log| ==> s'.log[i] == s.log[i];
  }

  lemma ListedLonger(log: seq<Insertion>, x: Insertion, n: nat, k: Key)
    requires n <= |log| && Listed(log, n, k)
    ensures Listed(log + [x], n, k) && Listed(log + [x], |log| + 1, k)
  {
    var j :| 0 <= j < n && log[j].key == k;
    assert (log + [x])[j].key == k;
  }

  lemma OrderedGrows(log: seq<Insertion>, x: Insertion)
    requires Ordered(log) && (!IsRoot(x) ==> Listed(log, |log|, x.installer))
    ensures Ordered(log + [x])
  {
    var log' := log + [x];
    forall i | 0 <= i < |log'| && !IsRoot(log'[i]) ensures Listed(log', i, log'[i].installer) {
      if i < |log| { assert log'[i] == log[i]; }
      assert Listed(log, i, log'[i].installer);
      ListedLonger(log, x, i, log'[i].installer);
    }
  }

  lemma AllLoggedGrows(s: State, s': State, x: Insertion)
    requires AllLogged(s) && s'.log == s.log + [x]
    requires s'.t.asset == s.t.asset[x.key := Asset(x.id, x.kind)]
    ensures AllLogged(s')
  {
    forall k | k in s'.t.asset ensures Listed(s'.log, |s'.log|, k) {
      if k in s.t.asset {
        assert Listed(s.log, |s.log|, k);
        ListedLonger(s.log, x, |s.log|, k);
      } else {
        assert s'.log[|s.log|].key == k;
      }
    }
  }

  lemma CompleteStep(versions: Versions, s: State, a: Action)
    requires LogInv(s) && Complete(s) && Enabled(s, a)
    ensures Complete(Do(versions, s, a))
  {
    var s' := Do(versions, s, a);
    if Lands(s, a) == None {
      NothingLands(versions, s, a);
    } else {
      RowLands(versions, s, a);
      var x := Lands(s, a).value;
      assert !IsRoot(x) ==> x.installer in s.t.asset && Listed(s.log, |s.log|, x.installer);
      OrderedGrows(s.log, x);
      AllLoggedGrows(s, s', x);
    }
  }

  // ---- the installer's id

  /** A target's row lands under an id other than that of its installer's row. */
  predicate Misattributes(s: State, a: Action) {
    && Lands(s, a).Some?
    && s.workers[a.w].InsertingTarget?
    && var pc := s.workers[a.w];
       pc.e.image in s.t.asset && s.t.asset[pc.e.image].softwareId != pc.id
  }

  /** Attribution holds after a step exactly when it held before and the step does not land a
      target's row under an id that the installer's row does not have. */
  lemma StepAttributesIff(versions: Versions, s: State, a: Action)
    requires LogInv(s) && Enabled(s, a)
    ensures Attributed(Do(versions, s, a)) <==> Attributed(s) && !Misattributes(s, a)
  {
    var s' := Do(versions, s, a);
    if Lands(s, a) == None {
      NothingLands(versions, s, a);
    } else {
      RowLands(versions, s, a);
      var x, n := Lands(s, a).value, |s.log|;
      assert s'.log[n] == x;
      assert forall i :: 0 <= i < n ==> s'.log[i] == s.log[i];
      assert x.installer != x.key ==> x.installer in s.t.asset;
    }
  }

  ghost predicate RunInv(s: State) {
    Coherent(s.t) && IdsInHand(s) && LogInv(s) && RootsInv(s)
  }

  lemma {:induction false} RunKeeps(versions: Versions, states: seq<State>, actions: seq<Action>, n: nat)
    requires Run(versions, states, actions) && Coherent(states[0].t) && n < |states|
    ensures RunInv(states[n])
  {
    RunsStayCoherent(versions, states, actions, n, n);
    if n > 0 {
      RunKeeps(versions, states, actions, n - 1);
      LogStep(versions, states[n - 1], actions[n - 1]);
      RootsStep(versions, states[n - 1], actions[n - 1]);
    }
  }

  lemma NextAttributesIff(versions: Versions, states: seq<State>, actions: seq<Action>, n: nat)
    requires Run(versions, states, actions) && Coherent(states[0].t) && n < |actions|
    ensures Attributed(states[n + 1]) <==> Attributed(states[n]) && !Misattributes(states[n], actions[n])
  {
    RunKeeps(versions, states, actions, n);
    StepAttributesIff(versions, states[n], actions[n]);
  }

  lemma {:induction false} AttributedIffNoneLands(versions: Versions, states: seq<State>, actions: seq<Action>, n: nat)
    requires Run(versions, states, actions) && Coherent(states[0].t) && n < |states|
    ensures Attributed(states[n]) <==> forall k :: 0 <= k < n ==> !Misattributes(states[k], actions[k])
  {
    if n == 0 {
      assert states[0].log == [];
    } else {
      AttributedIffNoneLands(versions, states, actions, n - 1);
      NextAttributesIff(versions, states, actions, n - 1);
    }
  }

  // ---- where another id comes from

  /** The insert of an image's own row is ignored because of a row under another id. */
  predicate FindsOther(s: State, a: Action) {
    && a.Advance? && !a.fails && a.w in s.workers
    && s.workers[a.w].InsertingImage?
    && var pc := s.workers[a.w];
       pc.e.image in s.t.asset && s.t.asset[pc.e.image].softwareId != pc.id
  }

  /** Worker w is about to insert a target under an id that its image's row does not have. */
  ghost predicate Foreign(s: State, w: nat) {
    && w in s.workers && s.workers[w].InsertingTarget?
    && s.workers[w].e.image in s.t.asset
    && s.t.asset[s.workers[w].e.image].softwareId != s.workers[w].id
  }

  /** The insert at i met a row under another id, and its worker has not taken a step until n. */
  ghost predicate LastFoundOther(states: seq<State>, actions: seq<Action>, i: nat, n: nat, w: nat)
    requires i < n <= |actions| && |actions| <= |states|
  {
    FindsOther(states[i], actions[i]) && actions[i].w == w && forall j :: i < j < n ==> actions[j].w != w
  }

  lemma RowsOnlyAdded(versions: Versions, s: State, a: Action)
    requires Enabled(s, a)
    ensures forall k :: k in s.t.asset ==>
              k in Do(versions, s, a).t.asset && Do(versions, s, a).t.asset[k] == s.t.asset[k]
  {
  }

  /** A worker's own step leaves it with such an id exactly when it is an insert that found one. */
  lemma OwnStepForeignIff(versions: Versions, s: State, a: Action)
    requires Coherent(s.t) && Enabled(s, a)
    ensures Foreign(Do(versions, s, a), a.w) <==> FindsOther(s, a)
  {
  }

  lemma OtherStepForeignIff(versions: Versions, s: State, a: Action, w: nat)
    requires LogInv(s) && Enabled(s, a) && w != a.w
    ensures Foreign(Do(versions, s, a), w) <==> Foreign(s, w)
  {
    var s' := Do(versions, s, a);
    assert s'.workers == s.workers[a.w := s'.workers[a.w]];
    RowsOnlyAdded(versions, s, a);
  }

  /** Workers about to insert a target have the id of the image's row. */
  ghost predicate OwnIds(s: State) {
    forall w :: w in s.workers && s.workers[w].InsertingTarget? ==>
      s.workers[w].e.image in s.t.asset && s.t.asset[s.workers[w].e.image].softwareId == s.workers[w].id
  }

  /** A step gives a worker another id than its image's row has exactly when it inserts that row
      and finds one under another id. */
  lemma StepKeepsOwnIdsIff(versions: Versions, s: State, a: Action)
    requires OwnIds(s) && Coherent(s.t) && Enabled(s, a)
    ensures OwnIds(Do(versions, s, a)) <==> !FindsOther(s, a)
  {
    var s' := Do(versions, s, a);
    assert s'.workers == s.workers[a.w := s'.workers[a.w]];
    RowsOnlyAdded(versions, s, a);
    if FindsOther(s, a) {
      assert s'.workers[a.w].InsertingTarget?;
    }
  }

  ghost predicate FoundOther(states: seq<State>, actions: seq<Action>, n: nat, w: nat)
    requires n <= |actions| && |actions| <= |states|
  {
    exists i: nat :: i < n && LastFoundOther(states, actions, i, n, w)
  }

  lemma FoundByOwnStep(states: seq<State>, actions: seq<Action>, m: nat, n: nat)
    requires m == n + 1 <= |actions| <= |states|
    ensures FoundOther(states, actions, m, actions[n].w) <==> FindsOther(states[n], actions[n])
  {
    var w := actions[n].w;
    if FindsOther(states[n], actions[n]) {
      assert LastFoundOther(states, actions, n, m, w);
    }
    forall i: nat | i < n ensures !LastFoundOther(states, actions, i, m, w) {
      assert actions[n].w == w;
    }
  }

  lemma FoundByOtherStep(states: seq<State>, actions: seq<Action>, m: nat, n: nat, w: nat)
    requires m == n + 1 <= |actions| <= |states| && actions[n].w != w
    ensures FoundOther(states, actions, m, w) <==> FoundOther(states, actions, n, w)
  {
    if i: nat :| i < n && LastFoundOther(states, actions, i, n, w) {
      assert LastFoundOther(states, actions, i, m, w);
    }
    if i: nat :| i < m && LastFoundOther(states, actions, i, m, w) {
      assert i != n;
      assert LastFoundOther(states, actions, i, n, w);
    }
  }

  /** A worker stands before a target with another id than its image's row has exactly when its last
      step was an insert of that row that met one under another id. */
  lemma {:induction false} ForeignIff(versions: Versions, states: seq<State>, actions: seq<Action>, n: nat, w: nat)
    requires Run(versions, states, actions) && Coherent(states[0].t) && n < |states|
    ensures Foreign(states[n], w) <==> FoundOther(states, actions, n, w)
  {
    if n > 0 {
      var s, a := states[n - 1], actions[n - 1];
      RunKeeps(versions, states, actions, n - 1);
      if a.w == w {
        OwnStepForeignIff(versions, s, a);
        FoundByOwnStep(states, actions, n, n - 1);
      } else {
        OtherStepForeignIff(versions, s, a, w);
        ForeignIff(versions, states, actions, n - 1, w);
        FoundByOtherStep(states, actions, n, n - 1, w);
      }
    }
  }

  /** A worker whose insert of its image's row met one under another id goes on to insert its target
      at k. */
  ghost predicate Overtaken(states: seq<State>, actions: seq<Action>, i: nat, k: nat)
    requires i < k < |actions| && |actions| <= |states|
  {
    LastFoundOther(states, actions, i, k, actions[k].w)
  }

  /** No target of an overtaken worker lands: its insert fails, or is ignored. */
  ghost predicate OvertakenLandNothing(states: seq<State>, actions: seq<Action>, n: nat)
    requires n <= |actions| && |actions| <= |states|
  {
    forall i: nat, k: nat :: i < k < n && Overtaken(states, actions, i, k) ==> Lands(states[k], actions[k]) == None
  }

  lemma MisattributesIff(versions: Versions, states: seq<State>, actions: seq<Action>, k: nat)
    requires Run(versions, states, actions) && Coherent(states[0].t) && k < |actions|
    ensures Misattributes(states[k], actions[k])
            <==> Lands(states[k], actions[k]).Some? && exists i: nat :: i < k && Overtaken(states, actions, i, k)
  {
    ForeignIff(versions, states, actions, k, actions[k].w);
    assert forall i: nat :: i < k ==>
             (Overtaken(states, actions, i, k) <==> LastFoundOther(states, actions, i, k, actions[k].w));
    assert FoundOther(states, actions, k, actions[k].w)
           <==> exists i: nat :: i < k && Overtaken(states, actions, i, k);
  }

  /** In every interleaving, whatever fails, all inserted rows have their installers' ids exactly when
      no worker lands a target whose insert of its image's row, the step before, met a row under
      another id. */
  lemma RunAttributesIff(versions: Versions, states: seq<State>, actions: seq<Action>, n: nat)
    requires Run(versions, states, actions) && Coherent(states[0].t) && n < |states|
    ensures Attributed(states[n]) <==> OvertakenLandNothing(states, actions, n)
  {
    AttributedIffNoneLands(versions, states, actions, n);
    forall k: nat | k < n
      ensures Misattributes(states[k], actions[k])
              <==> Lands(states[k], actions[k]).Some? && exists i: nat :: i < k && Overtaken(states, actions, i, k)
    {
      MisattributesIff(versions, states, actions, k);
    }
  }

  lemma {:induction false} RunCompletes(versions: Versions, states: seq<State>, actions: seq<Action>, n: nat)
    requires Run(versions, states, actions) && states[0].t == EMPTY && n < |states|
    ensures Complete(states[n])
  {
    if n > 0 {
      RunCompletes(versions, states, actions, n - 1);
      RunKeeps(versions, states, actions, n - 1);
      CompleteStep(versions, states[n - 1], actions[n - 1]);
    }
  }

  lemma ForestMeansAttributed(s: State)
    requires LogInv(s) && Forest(s.log)
    ensures Attributed(s)
  {
    forall i: nat | i < |s.log| ensures s.t.asset[s.log[i].installer].softwareId == s.log[i].id {
      if !IsRoot(s.log[i]) {
        assert HasInstaller(s.log, i);
        var j: nat :| InstalledBy(s.log, i, j);
      }
    }
  }

  lemma AttributedMeansForest(s: State)
    requires LogInv(s) && RootsInv(s) && Ordered(s.log) && Attributed(s)
    ensures Forest(s.log)
  {
    forall i: nat | i < |s.log| && !IsRoot(s.log[i]) ensures HasInstaller(s.log, i) {
      assert Listed(s.log, i, s.log[i].installer);
      var j: nat :| j < i && s.log[j].key == s.log[i].installer;
      assert InstalledBy(s.log, i, j);
    }
  }

  /** From empty tables, in every interleaving and whatever fails, the rows form an installed-by
      forest exactly when no overtaken worker lands its target. */
  lemma RunIsForestIff(versions: Versions, states: seq<State>, actions: seq<Action>, n: nat)
    requires Run(versions, states, actions) && states[0].t == EMPTY && n < |states|
    ensures Forest(states[n].log) <==> OvertakenLandNothing(states, actions, n)
    ensures forall k :: k in states[n].t.asset <==> Listed(states[n].log, |states[n].log|, k)
  {
    RunKeeps(versions, states, actions, n);
    RunCompletes(versions, states, actions, n);
    RunAttributesIff(versions, states, actions, n);
    if Forest(states[n].log) { ForestMeansAttributed(states[n]); }
    if Attributed(states[n]) { AttributedMeansForest(states[n]); }
  }
}
