/** Runs that reach what the bounds allow: the most app rows that one image may get, and a row
    without its installer's id. */
module WorkersTight {
  import opened Common
  import opened Store
  import opened Workers
  import opened Forests
  import opened WorkersAttribution

  /** The numbers 1 to n. */
  function UpTo(n: nat): (ids: set<int>)
    ensures forall id: int :: id in ids <==> 1 <= id <= n
    ensures |ids| == n
  {
    if n == 0 then {} else UpTo(n - 1) + {n}
  }

  /** The numbers below n. */
  function Below(n: nat): (ws: set<nat>)
    ensures forall w: nat :: w in ws <==> w < n
    ensures |ws| == n
  {
    if n == 0 then {} else Below(n - 1) + {n - 1}
  }

  /** The first k of n workers have an id for their app row, and the others have not started. */
  function Numbered(n: nat, k: nat, e: Entry, info: Software): State {
    State(Tables(map[], map[], k),
          map w | w in Below(n) :: if w < k then InsertingApp(e, info, w + 1) else Idle,
          map[],
          [])
  }

  /** The app rows 1 to k, all alike. */
  function AppRows(k: nat, info: Software): (rows: map<int, Software>)
    ensures rows.Keys == UpTo(k)
  {
    if k == 0 then map[] else AppRows(k - 1, info)[k := info]
  }

  /** Worker w has created row w + 1. */
  function Creators(k: nat, image: Key): (origin: map<int, Creator>)
    ensures origin.Keys == UpTo(k)
    ensures forall id :: id in origin ==> origin[id].image == image
  {
    if k == 0 then map[] else Creators(k - 1, image)[k := Creator(k - 1, image)]
  }

  function MidInsert(n: nat, k: nat, e: Entry, info: Software): (ws: map<nat, Pc>) {
    map w | w in Below(n) :: if w < k then InsertingImage(e, w + 1) else InsertingApp(e, info, w + 1)
  }

  /** All have an id, and the first k have inserted their app row. */
  function Inserted(n: nat, k: nat, e: Entry, info: Software): State {
    State(Tables(AppRows(k, info), map[], n), MidInsert(n, k, e, info), Creators(k, e.image), [])
  }

  predicate Succeeds(a: Action) {
    a.Advance? ==> !a.fails
  }

  ghost predicate RunTo(versions: Versions, states: seq<State>, actions: seq<Action>, s: State) {
    && Run(versions, states, actions)
    && states[|actions|] == s
    && forall j :: 0 <= j < |actions| ==> Succeeds(actions[j])
  }

  lemma Extend(versions: Versions, states: seq<State>, actions: seq<Action>, s: State, a: Action, s': State)
    requires RunTo(versions, states, actions, s) && Enabled(s, a) && s' == Do(versions, s, a) && Succeeds(a)
    ensures RunTo(versions, states + [s'], actions + [a], s')
  {
    var p, b := states + [s'], actions + [a];
    forall i | 0 <= i < |b|
      ensures Enabled(p[i], b[i]) && p[i + 1] == Do(versions, p[i], b[i]) && Succeeds(b[i])
    {
      if i < |actions| { assert p[i] == states[i] && b[i] == actions[i] && p[i + 1] == states[i + 1]; }
    }
  }

  /** Worker k selects, finds nothing, and takes the next id. */
  lemma NumberOne(versions: Versions, n: nat, k: nat, e: Entry, info: Software,
                  states: seq<State>, actions: seq<Action>)
    returns (states': seq<State>, actions': seq<Action>)
    requires k < n && versions(e.image) == Some(info) && Admits(info)
    requires RunTo(versions, states, actions, Numbered(n, k, e, info))
    ensures RunTo(versions, states', actions', Numbered(n, k + 1, e, info)) && states'[0] == states[0]
  {
    var s0 := Numbered(n, k, e, info);
    var s1 := Do(versions, s0, Start(k, e));
    var s2 := Do(versions, s1, Advance(k, false));
    var s3 := Do(versions, s2, Advance(k, false));
    Extend(versions, states, actions, s0, Start(k, e), s1);
    Extend(versions, states + [s1], actions + [Start(k, e)], s1, Advance(k, false), s2);
    Extend(versions, states + [s1] + [s2], actions + [Start(k, e)] + [Advance(k, false)], s2, Advance(k, false), s3);
    states' := states + [s1] + [s2] + [s3];
    actions' := actions + [Start(k, e)] + [Advance(k, false)] + [Advance(k, false)];
    assert s3.workers == Numbered(n, k + 1, e, info).workers;
  }

  lemma MidInsertAt(n: nat, k: nat, e: Entry, info: Software, w: nat)
    requires w < n
    ensures w in MidInsert(n, k, e, info)
    ensures MidInsert(n, k, e, info)[w] == if w < k then InsertingImage(e, w + 1) else InsertingApp(e, info, w + 1)
  {
  }

  lemma MidInsertKeys(n: nat, k: nat, e: Entry, info: Software)
    ensures MidInsert(n, k, e, info).Keys == Below(n)
  {
  }

  lemma UpdateMeets<K, V>(m: map<K, V>, m': map<K, V>, x: K, v: V)
    requires m.Keys == m'.Keys && x in m && m'[x] == v
    requires forall y :: y in m && y != x ==> m[y] == m'[y]
    ensures m[x := v] == m'
  {
  }

  lemma OthersStay(n: nat, k: nat, e: Entry, info: Software, w: nat)
    requires w < n && w != k
    ensures w in MidInsert(n, k, e, info) && w in MidInsert(n, k + 1, e, info)
    ensures MidInsert(n, k, e, info)[w] == MidInsert(n, k + 1, e, info)[w]
  {
    MidInsertAt(n, k, e, info, w);
    MidInsertAt(n, k + 1, e, info, w);
  }

  lemma InsertMoves(n: nat, k: nat, e: Entry, info: Software)
    requires k < n
    ensures k in MidInsert(n, k, e, info) && MidInsert(n, k, e, info)[k] == InsertingApp(e, info, k + 1)
    ensures MidInsert(n, k, e, info)[k := InsertingImage(e, k + 1)] == MidInsert(n, k + 1, e, info)
  {
    MidInsertAt(n, k, e, info, k);
    MidInsertAt(n, k + 1, e, info, k);
    MidInsertKeys(n, k, e, info);
    MidInsertKeys(n, k + 1, e, info);
    forall w | w in MidInsert(n, k, e, info) && w != k
      ensures MidInsert(n, k, e, info)[w] == MidInsert(n, k + 1, e, info)[w]
    {
      OthersStay(n, k, e, info, w);
    }
    UpdateMeets(MidInsert(n, k, e, info), MidInsert(n, k + 1, e, info), k, InsertingImage(e, k + 1));
  }

  lemma InsertStep(versions: Versions, n: nat, k: nat, e: Entry, info: Software)
    requires k < n
    ensures Enabled(Inserted(n, k, e, info), Advance(k, false))
    ensures Do(versions, Inserted(n, k, e, info), Advance(k, false)) == Inserted(n, k + 1, e, info)
  {
    assert k + 1 !in AppRows(k, info);
    InsertMoves(n, k, e, info);
  }

  lemma InsertOne(versions: Versions, n: nat, k: nat, e: Entry, info: Software,
                  states: seq<State>, actions: seq<Action>)
    returns (states': seq<State>, actions': seq<Action>)
    requires k < n && RunTo(versions, states, actions, Inserted(n, k, e, info))
    ensures RunTo(versions, states', actions', Inserted(n, k + 1, e, info)) && states'[0] == states[0]
  {
    var s0, s1 := Inserted(n, k, e, info), Inserted(n, k + 1, e, info);
    InsertStep(versions, n, k, e, info);
    Extend(versions, states, actions, s0, Advance(k, false), s1);
    states', actions' := states + [s1], actions + [Advance(k, false)];
  }

  lemma {:induction false} NumberAll(versions: Versions, n: nat, k: nat, e: Entry, info: Software)
    returns (states: seq<State>, actions: seq<Action>)
    requires k <= n && versions(e.image) == Some(info) && Admits(info)
    ensures RunTo(versions, states, actions, Numbered(n, k, e, info)) && states[0] == Numbered(n, 0, e, info)
  {
    if k == 0 {
      states, actions := [Numbered(n, 0, e, info)], [];
    } else {
      states, actions := NumberAll(versions, n, k - 1, e, info);
      states, actions := NumberOne(versions, n, k - 1, e, info, states, actions);
    }
  }

  lemma NumberedIsInserted(n: nat, e: Entry, info: Software)
    ensures Numbered(n, n, e, info) == Inserted(n, 0, e, info)
  {
    assert Numbered(n, n, e, info).workers == Inserted(n, 0, e, info).workers;
  }

  lemma InsertNone(versions: Versions, n: nat, e: Entry, info: Software)
    returns (states: seq<State>, actions: seq<Action>)
    requires versions(e.image) == Some(info) && Admits(info)
    ensures RunTo(versions, states, actions, Inserted(n, 0, e, info)) && states[0] == Numbered(n, 0, e, info)
  {
    states, actions := NumberAll(versions, n, n, e, info);
    NumberedIsInserted(n, e, info);
  }

  lemma {:induction false} InsertAll(versions: Versions, n: nat, k: nat, e: Entry, info: Software)
    returns (states: seq<State>, actions: seq<Action>)
    requires k <= n && versions(e.image) == Some(info) && Admits(info)
    ensures RunTo(versions, states, actions, Inserted(n, k, e, info)) && states[0] == Numbered(n, 0, e, info)
  {
    if k == 0 {
      states, actions := InsertNone(versions, n, e, info);
    } else {
      states, actions := InsertAll(versions, n, k - 1, e, info);
      states, actions := InsertOne(versions, n, k - 1, e, info, states, actions);
    }
  }

  /** From empty tables, n workers that meet the same image can create n app rows for it, with
      nothing failing. */
  lemma BoundIsReached(versions: Versions, n: nat, e: Entry) returns (states: seq<State>, actions: seq<Action>)
    requires versions(e.image).Some? && Admits(versions(e.image).value)
    ensures Run(versions, states, actions) && states[0].t == EMPTY && |states[0].workers.Keys| == n
    ensures forall j :: 0 <= j < |actions| && actions[j].Advance? ==> !actions[j].fails
    ensures |CreatedFor(states[|actions|], e.image)| == n
  {
    var info := versions(e.image).value;
    states, actions := InsertAll(versions, n, n, e, info);
    assert forall j :: 0 <= j < |actions| ==> Succeeds(actions[j]);
    assert states[0].workers.Keys == Below(n);
    assert CreatedFor(states[|actions|], e.image) == UpTo(n);
  }

  /** Two workers meet the same image, nothing fails, and the second records a target under the
      app row that it created itself although the image's row has the other one. */
  lemma TwoWorkersMisattribute(versions: Versions, e: Entry) returns (states: seq<State>, actions: seq<Action>)
    requires versions(e.image).Some? && Admits(versions(e.image).value) && e.target != e.image
    ensures Run(versions, states, actions) && states[0].t == EMPTY && |states[0].workers.Keys| == 2
    ensures forall j :: 0 <= j < |actions| && actions[j].Advance? ==> !actions[j].fails
    ensures var s := states[|actions|];
            && s.t.asset == map[e.image := Asset(1, 0), e.target := Asset(2, e.kind)]
            && s.log == [Insertion(e.image, e.image, 1, 0), Insertion(e.target, e.image, 2, e.kind)]
            && !Attributed(s) && !Forest(s.log)
  {
    states, actions := InsertAll(versions, 2, 2, e, versions(e.image).value);
    assert states[0].workers.Keys == Below(2);
    states, actions := LandImage(versions, states, actions, e);
    states, actions := LandTarget(versions, states, actions, e);
    var s := states[|actions|];
    assert forall j :: 0 <= j < |actions| ==> Succeeds(actions[j]);
    assert s.log[1].installer == e.image && s.t.asset[e.image].softwareId == 1;
    NoForest(s.log);
  }

  lemma NoForest(log: seq<Insertion>)
    requires |log| == 2 && !IsRoot(log[1]) && log[0].id != log[1].id
    ensures !Forest(log)
  {
    assert forall j: nat :: !InstalledBy(log, 1, j);
    assert !HasInstaller(log, 1);
  }

  lemma LandImage(versions: Versions, states: seq<State>, actions: seq<Action>, e: Entry)
    returns (states': seq<State>, actions': seq<Action>)
    requires versions(e.image).Some? && RunTo(versions, states, actions, Inserted(2, 2, e, versions(e.image).value))
    ensures |states'| == |actions'| + 1
    ensures var s := states'[|actions'|];
            && RunTo(versions, states', actions', s) && states'[0] == states[0]
            && 1 in s.workers && s.workers[1] == InsertingImage(e, 2)
            && s.t.asset == map[e.image := Asset(1, 0)] && s.log == [Insertion(e.image, e.image, 1, 0)]
  {
    var s0 := Inserted(2, 2, e, versions(e.image).value);
    MidInsertAt(2, 2, e, versions(e.image).value, 0);
    MidInsertAt(2, 2, e, versions(e.image).value, 1);
    var s1 := Do(versions, s0, Advance(0, false));
    Extend(versions, states, actions, s0, Advance(0, false), s1);
    states', actions' := states + [s1], actions + [Advance(0, false)];
  }

  lemma LandTarget(versions: Versions, states: seq<State>, actions: seq<Action>, e: Entry)
    returns (states': seq<State>, actions': seq<Action>)
    requires e.target != e.image && |states| == |actions| + 1 && RunTo(versions, states, actions, states[|actions|])
    requires var s := states[|actions|];
             && 1 in s.workers && s.workers[1] == InsertingImage(e, 2)
             && s.t.asset == map[e.image := Asset(1, 0)] && s.log == [Insertion(e.image, e.image, 1, 0)]
    ensures |states'| == |actions'| + 1
    ensures var s := states'[|actions'|];
            && RunTo(versions, states', actions', s) && states'[0] == states[0]
            && s.t.asset == map[e.image := Asset(1, 0), e.target := Asset(2, e.kind)]
            && s.log == [Insertion(e.image, e.image, 1, 0), Insertion(e.target, e.image, 2, e.kind)]
  {
    var s0 := states[|actions|];
    var s1 := Do(versions, s0, Advance(1, false));
    Extend(versions, states, actions, s0, Advance(1, false), s1);
    var s2 := Do(versions, s1, Advance(1, false));
    Extend(versions, states + [s1], actions + [Advance(1, false)], s1, Advance(1, false), s2);
    states', actions' := states + [s1] + [s2], actions + [Advance(1, false)] + [Advance(1, false)];
  }
}
