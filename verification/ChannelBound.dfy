/** How long the list of undelivered messages gets although testing its size, evicting and
    pushing are separate steps. */
module ChannelBound {
  import opened Common
  import opened Channel
  import opened ChannelLedgers

  /** Calls that may still push a message without testing the size again. */
  predicate Commits(pc: Pc) {
    pc.SendPush? || pc.SendDrop? || pc.DispCopy? || pc.DispRepush?
  }

  ghost function Committed(s: State): set<nat> {
    set t | t in s.threads && Commits(s.threads[t])
  }

  ghost function Senders(s: State): set<nat> {
    set t | t in s.threads && IsSend(s.threads[t])
  }

  ghost function Dispatchers(s: State): set<nat> {
    set t | t in s.threads && IsDispatch(s.threads[t])
  }

  ghost predicate Bounded(s: State, k: nat) {
    |s.d.dataList| + |Committed(s)| <= MAX_DATA_LIST_SIZE - 1 + k
  }

  lemma CommittedAreInFlight(s: State)
    ensures |Committed(s)| <= |Senders(s) + Dispatchers(s)|
  {
    SubsetSize(Committed(s), Senders(s) + Dispatchers(s));
  }

  function Weight(pc: Pc): nat {
    if Commits(pc) then 1 else 0
  }

  lemma CommittedMoves(s: State, s': State, t: nat)
    requires Moves(s, s', t)
    ensures |Committed(s')|
            == |Committed(s)| + Weight(s'.threads[t]) - if t in s.threads then Weight(s.threads[t]) else 0
  {
    assert Committed(s') == if Commits(s'.threads[t]) then Committed(s) + {t} else Committed(s) - {t};
    assert t in Committed(s) <==> t in s.threads && Commits(s.threads[t]);
  }

  /** A dispatcher pushes back at most the message it popped. */
  lemma DispatchWeight(s: State, t: nat, ok: bool)
    requires t in s.threads && IsDispatch(s.threads[t])
    ensures var s' := DispatchStep(s, t, ok);
            && Moves(s, s', t)
            && |s'.d.dataList| + Weight(s'.threads[t]) <= |s.d.dataList| + Weight(s.threads[t])
  {
  }

  /** A sender becomes committed only when it has just seen a short list. */
  lemma SendWeight(s: State, t: nat, ok: bool)
    requires t in s.threads && IsSend(s.threads[t])
    ensures var s' := SendStep(s, t, ok);
            && Moves(s, s', t)
            && (|| |s'.d.dataList| + Weight(s'.threads[t]) <= |s.d.dataList| + Weight(s.threads[t])
                || |s'.d.dataList| <= MAX_DATA_LIST_SIZE - 1)
  {
  }

  lemma CancelWeight(mode: PopMode, s: State, t: nat)
    requires t in s.threads && !IsDispatch(s.threads[t]) && !IsSend(s.threads[t]) && !s.threads[t].Returned?
    ensures var s' := CancelStep(mode, s, t);
            && Moves(s, s', t)
            && s'.d.dataList == s.d.dataList
            && Weight(s'.threads[t]) == Weight(s.threads[t]) == 0
  {
  }

  lemma BoundStep(mode: PopMode, s: State, a: Action, k: nat)
    requires Bounded(s, k) && Enabled(s, a)
    requires |Senders(Do(mode, s, a)) + Dispatchers(Do(mode, s, a))| <= k
    ensures Bounded(Do(mode, s, a), k)
  {
    var s' := Do(mode, s, a);
    CommittedAreInFlight(s');
    match a
    case StartDispatch(t, _) => CommittedMoves(s, s', t);
    case StartSend(t, _) => CommittedMoves(s, s', t);
    case StartCancel(t, _) => CommittedMoves(s, s', t);
    case Finalize => ShutdownEffect(s.d);
    case Advance(t, ok) =>
      if IsDispatch(s.threads[t]) {
        DispatchWeight(s, t, ok);
      } else if IsSend(s.threads[t]) {
        SendWeight(s, t, ok);
      } else {
        CancelWeight(mode, s, t);
      }
      CommittedMoves(s, s', t);
  }

  ghost predicate InFlightAtMost(s: State, k: nat) {
    |Senders(s) + Dispatchers(s)| <= k
  }

  lemma {:induction false} BoundedPrefix(mode: PopMode, states: seq<State>, actions: seq<Action>, k: nat, i: nat)
    requires Run(mode, states, actions) && i < |states|
    requires forall j :: 0 <= j < |states| ==> InFlightAtMost(states[j], k)
    ensures Bounded(states[i], k)
  {
    if i == 0 {
      assert Committed(states[0]) == {};
    } else {
      BoundedPrefix(mode, states, actions, k, i - 1);
      assert InFlightAtMost(states[i], k);
      BoundStep(mode, states[i - 1], actions[i - 1], k);
    }
  }

  /** With at most k calls of SendMessage and Dispatcher in flight at any time, the list holds at
      most 1023 + k messages, in every interleaving and whatever Pop(buffer) does. */
  lemma LengthBound(mode: PopMode, states: seq<State>, actions: seq<Action>, k: nat, i: nat)
    requires Run(mode, states, actions) && i < |states|
    requires forall j :: 0 <= j < |states| ==> InFlightAtMost(states[j], k)
    ensures |states[i].d.dataList| <= 1023 + k
  {
    BoundedPrefix(mode, states, actions, k, i);
  }

  /** The same for at most n senders and m dispatchers. */
  lemma LengthBoundSplit(mode: PopMode, states: seq<State>, actions: seq<Action>, n: nat, m: nat, i: nat)
    requires Run(mode, states, actions) && i < |states|
    requires forall j :: 0 <= j < |states| ==> |Senders(states[j])| <= n && |Dispatchers(states[j])| <= m
    ensures |states[i].d.dataList| <= 1023 + n + m
  {
    forall j | 0 <= j < |states| ensures InFlightAtMost(states[j], n + m) {
      var a, b := Senders(states[j]), Dispatchers(states[j]);
      assert |a + b| == |a| + |b| - |a * b|;
    }
    LengthBound(mode, states, actions, n + m, i);
  }
}
