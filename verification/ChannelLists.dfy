/** When readers and messages wait at the same time, over whole runs. */
module ChannelLists {
  import opened Common
  import opened Channel
  import opened BoundedChannel
  import opened MessageOrder

  predicate OneListEmpty(d: Driver) {
    d.irpList == [] || d.dataList == []
  }

  /** A request is parked although messages are queued, or a message is queued although requests
      are parked. */
  predicate FillsBoth(s: State, a: Action) {
    && a.Advance? && a.allocOk
    && a.t in s.threads
    && (|| (s.threads[a.t].DispPush? && s.d.dataList != [])
        || ((s.threads[a.t].SendPush? || s.threads[a.t].DispRepush?) && s.d.irpList != []))
  }

  lemma FilledBoth(mode: PopMode, s: State, a: Action)
    requires Enabled(s, a) && FillsBoth(s, a)
    ensures !OneListEmpty(Do(mode, s, a).d)
  {
  }

  lemma DispatchFillsIff(s: State, t: nat, ok: bool)
    requires t in s.threads && IsDispatch(s.threads[t]) && OneListEmpty(s.d)
    ensures OneListEmpty(DispatchStep(s, t, ok).d) <==> !FillsBoth(s, Advance(t, ok))
  {
  }

  lemma SendFillsIff(s: State, t: nat, ok: bool)
    requires t in s.threads && IsSend(s.threads[t]) && OneListEmpty(s.d)
    ensures OneListEmpty(SendStep(s, t, ok).d) <==> !FillsBoth(s, Advance(t, ok))
  {
  }

  /** From a state with an empty list, a step keeps one list empty exactly when it is not such a
      push. */
  lemma StepKeepsOneListIff(mode: PopMode, s: State, a: Action)
    requires Enabled(s, a) && OneListEmpty(s.d)
    ensures OneListEmpty(Do(mode, s, a).d) <==> !FillsBoth(s, a)
  {
    match a
    case Advance(t, ok) =>
      if IsDispatch(s.threads[t]) {
        DispatchFillsIff(s, t, ok);
      } else if IsSend(s.threads[t]) {
        SendFillsIff(s, t, ok);
      } else if s.threads[t].CancelPop? {
        WithoutSubset(s.d.irpList, s.threads[t].irp);
        assert s.d.irpList == [] ==> Without(s.d.irpList, s.threads[t].irp) == [];
      }
    case _ =>
  }

  lemma {:induction false} OneListUpTo(mode: PopMode, states: seq<State>, actions: seq<Action>, n: nat)
    requires Run(mode, states, actions) && n < |states|
    requires forall i :: 0 <= i < |actions| ==> !FillsBoth(states[i], actions[i])
    ensures OneListEmpty(states[n].d)
  {
    if n > 0 {
      OneListUpTo(mode, states, actions, n - 1);
      StepKeepsOneListIff(mode, states[n - 1], actions[n - 1]);
    }
  }

  /** In a run of any number of overlapping calls one of the two lists is empty throughout exactly
      when no step parks a request past queued messages or queues a message past parked requests. */
  lemma RunKeepsOneListIff(mode: PopMode, states: seq<State>, actions: seq<Action>)
    requires Run(mode, states, actions)
    ensures (forall n :: 0 <= n < |states| ==> OneListEmpty(states[n].d))
            <==> (forall i :: 0 <= i < |actions| ==> !FillsBoth(states[i], actions[i]))
  {
    if i :| 0 <= i < |actions| && FillsBoth(states[i], actions[i]) {
      FilledBoth(mode, states[i], actions[i]);
      assert !OneListEmpty(states[i + 1].d);
    } else {
      forall n | 0 <= n < |states| ensures OneListEmpty(states[n].d) {
        OneListUpTo(mode, states, actions, n);
      }
    }
  }

  // ---- calls that do not overlap

  /** A sender that queues its message behind the back of the second reader: it offered it to the
      first one only, which was cancelled or too small. */
  predicate PassesReaders(d: Driver, c: Call) {
    && c.Post? && c.allocOk
    && |d.irpList| > 1
    && (d.irpList[0] !in d.armed || c.msg.size > d.irpList[0].outputLength)
  }

  lemma CallKeepsOneListIff(d: Driver, c: Call)
    requires d.up && OneListEmpty(d)
    ensures OneListEmpty(Perform(Exact, d, c)) <==> !PassesReaders(d, c)
  {
    match c
    case Read(irp, ok) =>
    case Post(msg, ok) =>
      if d.irpList != [] {
        assert Perform(Exact, d, c).irpList == d.irpList[1..];
        assert |d.irpList| == 1 <==> d.irpList[1..] == [];
      }
    case Revoke(irp) =>
      WithoutSubset(d.irpList, irp);
      assert d.irpList == [] ==> Without(d.irpList, irp) == [];
  }

  lemma {:induction false} CallsUpTo(calls: seq<Call>, n: nat)
    requires AllLegal(Exact, calls) && n <= |calls|
    requires forall i :: 0 <= i < n ==> !PassesReaders(PerformAll(Exact, calls[..i]), calls[i])
    ensures OneListEmpty(PerformAll(Exact, calls[..n]))
  {
    if n > 0 {
      CallsUpTo(calls, n - 1);
      CallStep(calls, n - 1);
    }
  }

  lemma CallStep(calls: seq<Call>, n: nat)
    requires n < |calls| && OneListEmpty(PerformAll(Exact, calls[..n]))
    ensures OneListEmpty(PerformAll(Exact, calls[..n + 1]))
            <==> !PassesReaders(PerformAll(Exact, calls[..n]), calls[n])
  {
    assert calls[..n + 1][..n] == calls[..n];
    NeverShutDown(Exact, calls[..n]);
    CallKeepsOneListIff(PerformAll(Exact, calls[..n]), calls[n]);
  }

  lemma OneListIffExact(calls: seq<Call>)
    requires AllLegal(Exact, calls)
    ensures (forall n :: 0 <= n <= |calls| ==> OneListEmpty(PerformAll(Exact, calls[..n])))
            <==> (forall i :: 0 <= i < |calls| ==> !PassesReaders(PerformAll(Exact, calls[..i]), calls[i]))
  {
    if i :| 0 <= i < |calls| && PassesReaders(PerformAll(Exact, calls[..i]), calls[i]) {
      if OneListEmpty(PerformAll(Exact, calls[..i])) {
        CallStep(calls, i);
        assert !OneListEmpty(PerformAll(Exact, calls[..i + 1]));
      }
    } else {
      forall n | 0 <= n <= |calls| ensures OneListEmpty(PerformAll(Exact, calls[..n])) {
        CallsUpTo(calls, n);
      }
    }
  }

  /** Calls that do not overlap keep one list empty exactly when no sender passes waiting readers
      because the first of them did not take its message. */
  lemma OneListIff(mode: PopMode, calls: seq<Call>)
    requires AllLegal(mode, calls)
    ensures (forall n :: 0 <= n <= |calls| ==> OneListEmpty(PerformAll(mode, calls[..n])))
            <==> (forall i :: 0 <= i < |calls| ==> !PassesReaders(PerformAll(mode, calls[..i]), calls[i]))
  {
    LiteralIsExact(calls);
    OneListIffExact(calls);
    forall n | 0 <= n <= |calls| ensures PerformAll(mode, calls[..n]) == PerformAll(Exact, calls[..n]) {
      SameInBothModes(calls, n);
    }
  }
}
