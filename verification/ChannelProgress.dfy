/** Progress of the channel: the cancel lock never blocks all calls, and every call ends. */
module ChannelProgress {
  import opened Channel
  import opened ChannelCancel
  import opened ChannelSafety

  /** How many steps a call can still take. */
  function Left(pc: Pc): nat {
    match pc
    case DispPop(_) => 7
    case DispPend(_) => 6
    case DispTest(_) => 5
    case DispPush(_) => 4
    case DispDisarm(_) => 3
    case DispCopy(_, _) => 3
    case DispRepush(_, _) => 2
    case DispAbort(_) => 2
    case DispRelease(_) => 2
    case SendPop(_) => 8
    case SendExchange(_, _) => 7
    case SendCancel(_, _) => 6
    case SendCopy(_, _) => 6
    case SendSize(_) => 5
    case SendEvict(_) => 4
    case SendDrop(_, _) => 3
    case SendPush(_) => 2
    case CancelStart(_) => 6
    case CancelMark(_) => 5
    case CancelExchange(_) => 4
    case CancelRelease(_) => 3
    case CancelPop(_) => 2
    case Returned(_) => 0
    case _ => 1
  }

  const LONGEST: nat := 8

  lemma DispatchShortens(s: State, t: nat, ok: bool)
    requires t in s.threads && IsDispatch(s.threads[t])
    ensures var s' := DispatchStep(s, t, ok);
            s'.threads == s.threads[t := s'.threads[t]] && Left(s'.threads[t]) < Left(s.threads[t])
  {
  }

  lemma SendShortens(s: State, t: nat, ok: bool)
    requires t in s.threads && IsSend(s.threads[t])
    ensures var s' := SendStep(s, t, ok);
            s'.threads == s.threads[t := s'.threads[t]] && Left(s'.threads[t]) < Left(s.threads[t])
  {
  }

  lemma CancelShortens(mode: PopMode, s: State, t: nat)
    requires t in s.threads && !s.threads[t].Returned? && !IsDispatch(s.threads[t]) && !IsSend(s.threads[t])
    ensures var s' := CancelStep(mode, s, t);
            s'.threads == s.threads[t := s'.threads[t]] && Left(s'.threads[t]) < Left(s.threads[t])
  {
  }

  lemma StepShortens(mode: PopMode, s: State, t: nat, ok: bool)
    requires Enabled(s, Advance(t, ok))
    ensures var s' := Do(mode, s, Advance(t, ok));
            s'.threads == s.threads[t := s'.threads[t]] && Left(s'.threads[t]) < Left(s.threads[t])
  {
    if IsDispatch(s.threads[t]) {
      DispatchShortens(s, t, ok);
    } else if IsSend(s.threads[t]) {
      SendShortens(s, t, ok);
    } else {
      CancelShortens(mode, s, t);
    }
  }

  /** While a call is in flight some call can take a step: the cancel lock never deadlocks. */
  lemma NeverStuck(s: State)
    requires LockInv(s) && !Quiescent(s)
    ensures exists t :: Enabled(s, Advance(t, true))
  {
    var t :| t in s.threads && !s.threads[t].Returned?;
    if s.cancelLock.Some? {
      assert Enabled(s, Advance(s.cancelLock.value, true));
    } else {
      assert Enabled(s, Advance(t, true));
    }
  }

  // ---- all calls together

  /** The steps that the calls under ids below n can still take. */
  function TotalLeft(threads: map<nat, Pc>, n: nat): nat {
    if n == 0 then 0 else TotalLeft(threads, n - 1) + if n - 1 in threads then Left(threads[n - 1]) else 0
  }

  lemma {:induction false} TotalMoves(threads: map<nat, Pc>, t: nat, pc: Pc, n: nat)
    ensures TotalLeft(threads[t := pc], n)
            == TotalLeft(threads, n)
               + if t < n then Left(pc) - (if t in threads then Left(threads[t]) else 0) else 0
  {
    if n > 0 { TotalMoves(threads, t, pc, n - 1); }
  }

  function CountAdvances(actions: seq<Action>): nat {
    if actions == [] then 0
    else CountAdvances(actions[..|actions| - 1]) + if actions[|actions| - 1].Advance? then 1 else 0
  }

  predicate Starts(a: Action) {
    a.StartDispatch? || a.StartSend? || a.StartCancel?
  }

  function CountStarts(actions: seq<Action>): nat {
    if actions == [] then 0
    else CountStarts(actions[..|actions| - 1]) + if Starts(actions[|actions| - 1]) then 1 else 0
  }

  /** A number above the ids of all calls started. */
  function IdBound(actions: seq<Action>): nat {
    if actions == [] then 0
    else
      var bound, a := IdBound(actions[..|actions| - 1]), actions[|actions| - 1];
      if Starts(a) && a.t >= bound then a.t + 1 else bound
  }

  lemma StepCounts(mode: PopMode, s: State, a: Action, n: nat)
    requires Enabled(s, a) && forall t :: t in s.threads ==> t < n
    requires Starts(a) ==> a.t < n
    ensures var s' := Do(mode, s, a);
            && (forall t :: t in s'.threads ==> t < n)
            && TotalLeft(s'.threads, n) + (if a.Advance? then 1 else 0)
               <= TotalLeft(s.threads, n) + (if Starts(a) then LONGEST else 0)
  {
    var s' := Do(mode, s, a);
    if a != Finalize {
      if a.Advance? { StepShortens(mode, s, a.t, a.allocOk); }
      assert s'.threads == s.threads[a.t := s'.threads[a.t]];
      TotalMoves(s.threads, a.t, s'.threads[a.t], n);
    }
  }

  lemma {:induction false} StepsCounted(mode: PopMode, states: seq<State>, actions: seq<Action>, i: nat, n: nat)
    requires Run(mode, states, actions) && i <= |actions| && IdBound(actions[..i]) <= n
    ensures forall t :: t in states[i].threads ==> t < n
    ensures CountAdvances(actions[..i]) + TotalLeft(states[i].threads, n) <= LONGEST * CountStarts(actions[..i])
  {
    if i == 0 {
      EmptyTotal(n);
    } else {
      assert actions[..i][..i - 1] == actions[..i - 1];
      StepsCounted(mode, states, actions, i - 1, n);
      StepCounts(mode, states[i - 1], actions[i - 1], n);
    }
  }

  lemma {:induction false} EmptyTotal(n: nat)
    ensures TotalLeft(map[], n) == 0
  {
    if n > 0 { EmptyTotal(n - 1); }
  }

  /** In every run the steps taken are at most eight times the calls started. */
  lemma AllCallsEnd(mode: PopMode, states: seq<State>, actions: seq<Action>, i: nat)
    requires Run(mode, states, actions) && i <= |actions|
    ensures CountAdvances(actions[..i]) <= 8 * CountStarts(actions[..i])
  {
    StepsCounted(mode, states, actions, i, IdBound(actions[..i]));
  }

  // ---- each call

  /** The most steps that a call of this kind takes. */
  function Longest(pc: Pc): nat {
    if IsDispatch(pc) || (pc.Returned? && pc.outcome.Dispatched?) then 7
    else if IsSend(pc) || (pc.Returned? && pc.outcome.SendReturned?) then 8
    else 6
  }

  /** The steps that call t has taken. */
  function StepsOf(actions: seq<Action>, t: nat): nat {
    if actions == [] then 0
    else
      var a := actions[|actions| - 1];
      StepsOf(actions[..|actions| - 1], t) + if a.Advance? && a.t == t then 1 else 0
  }

  lemma DispatchStaysOne(s: State, t: nat, ok: bool)
    requires t in s.threads && IsDispatch(s.threads[t])
    ensures Longest(DispatchStep(s, t, ok).threads[t]) == 7
  {
  }

  lemma SendStaysOne(s: State, t: nat, ok: bool)
    requires t in s.threads && IsSend(s.threads[t])
    ensures Longest(SendStep(s, t, ok).threads[t]) == 8
  {
  }

  lemma CancelStaysOne(mode: PopMode, s: State, t: nat)
    requires t in s.threads && !s.threads[t].Returned? && !IsDispatch(s.threads[t]) && !IsSend(s.threads[t])
    ensures Longest(CancelStep(mode, s, t).threads[t]) == 6
  {
  }

  lemma KindStays(mode: PopMode, s: State, t: nat, ok: bool)
    requires Enabled(s, Advance(t, ok))
    ensures var s' := Do(mode, s, Advance(t, ok)); t in s'.threads && Longest(s'.threads[t]) == Longest(s.threads[t])
  {
    if IsDispatch(s.threads[t]) {
      DispatchStaysOne(s, t, ok);
    } else if IsSend(s.threads[t]) {
      SendStaysOne(s, t, ok);
    } else {
      CancelStaysOne(mode, s, t);
    }
  }

  /** Call t has steps left that it has not taken. */
  ghost predicate Counts(s: State, actions: seq<Action>, t: nat) {
    if t in s.threads then StepsOf(actions, t) + Left(s.threads[t]) <= Longest(s.threads[t])
    else StepsOf(actions, t) == 0
  }

  lemma CountsStep(mode: PopMode, s: State, a: Action, actions: seq<Action>, t: nat)
    requires Enabled(s, a) && Counts(s, actions, t)
    ensures Counts(Do(mode, s, a), actions + [a], t)
  {
    var s' := Do(mode, s, a);
    assert (actions + [a])[..|actions|] == actions;
    if a.Advance? {
      StepShortens(mode, s, a.t, a.allocOk);
      KindStays(mode, s, a.t, a.allocOk);
    } else if a != Finalize {
      assert s'.threads == s.threads[a.t := s'.threads[a.t]];
    }
  }

  lemma {:induction false} CountsThroughout(mode: PopMode, states: seq<State>, actions: seq<Action>, i: nat, t: nat)
    requires Run(mode, states, actions) && i <= |actions|
    ensures Counts(states[i], actions[..i], t)
  {
    if i > 0 {
      CountsThroughout(mode, states, actions, i - 1, t);
      CountsStep(mode, states[i - 1], actions[i - 1], actions[..i - 1], t);
      assert actions[..i] == actions[..i - 1] + [actions[i - 1]];
    }
  }

  /** In every run a Dispatcher call takes at most seven steps, a SendMessage call eight and a cancel
      six, counting those it has left; no call takes a step before it starts. */
  lemma EveryCallEnds(mode: PopMode, states: seq<State>, actions: seq<Action>, i: nat, t: nat)
    requires Run(mode, states, actions) && i <= |actions|
    ensures t in states[i].threads ==>
              StepsOf(actions[..i], t) + Left(states[i].threads[t]) <= Longest(states[i].threads[t]) <= 8
    ensures t !in states[i].threads ==> StepsOf(actions[..i], t) == 0
  {
    CountsThroughout(mode, states, actions, i, t);
  }

  lemma {:induction false} LockedThroughout(mode: PopMode, states: seq<State>, actions: seq<Action>, i: nat)
    requires Run(mode, states, actions) && i <= |actions|
    ensures LockInv(states[i])
  {
    if i > 0 {
      LockedThroughout(mode, states, actions, i - 1);
      LockStays(mode, states[i - 1], actions[i - 1]);
    }
  }

  /** A state of a run in which no call can take a step is one with no call in flight. */
  lemma StuckIsQuiescent(mode: PopMode, states: seq<State>, actions: seq<Action>, i: nat)
    requires Run(mode, states, actions) && i <= |actions|
    ensures Quiescent(states[i]) <==> forall t, ok :: !Enabled(states[i], Advance(t, ok))
  {
    LockedThroughout(mode, states, actions, i);
    if !Quiescent(states[i]) { NeverStuck(states[i]); }
  }

  /** With no new calls the calls in flight take at most the steps they have left, in any order. */
  lemma {:induction false} CallsRunOut(mode: PopMode, path: seq<State>, acts: seq<Action>, n: nat)
    requires Path(mode, path, acts) && OnlyAdvances(acts)
    requires forall t :: t in path[0].threads ==> t < n
    ensures forall t :: t in path[|acts|].threads ==> t < n
    ensures |acts| + TotalLeft(path[|acts|].threads, n) <= TotalLeft(path[0].threads, n)
    decreases |acts|
  {
    if acts != [] {
      var k := |acts| - 1;
      CallsRunOut(mode, path[..k + 1], acts[..k], n);
      StepCounts(mode, path[k], acts[k], n);
    }
  }

  predicate OnlyAdvances(acts: seq<Action>) {
    forall i :: 0 <= i < |acts| ==> acts[i].Advance?
  }

  /** A path from s to a state with no call in flight, without new calls. */
  ghost predicate LeadsToRest(s: State, path: seq<State>, acts: seq<Action>) {
    Path(Exact, path, acts) && path[0] == s && Quiescent(path[|acts|]) && OnlyAdvances(acts)
  }

  lemma OneStepBefore(s: State, a: Action, path: seq<State>, acts: seq<Action>)
    requires Enabled(s, a) && a.Advance? && LeadsToRest(Do(Exact, s, a), path, acts)
    ensures LeadsToRest(s, [s] + path, [a] + acts)
  {
    var p, b := [s] + path, [a] + acts;
    forall i | 0 <= i < |b| ensures Enabled(p[i], b[i]) && p[i + 1] == Do(Exact, p[i], b[i]) && b[i].Advance? {
      if i > 0 { assert p[i] == path[i - 1] && b[i] == acts[i - 1] && p[i + 1] == path[i]; }
    }
    assert p[|b|] == path[|acts|];
  }

  /** One step nearer to rest. */
  lemma OneStepOn(s: State, n: nat) returns (a: Action)
    requires Inv(s) && !Quiescent(s) && forall t :: t in s.threads ==> t < n
    ensures a.Advance? && Enabled(s, a) && Inv(Do(Exact, s, a))
    ensures forall t :: t in Do(Exact, s, a).threads ==> t < n
    ensures TotalLeft(Do(Exact, s, a).threads, n) < TotalLeft(s.threads, n)
  {
    NeverStuck(s);
    var t :| Enabled(s, Advance(t, true));
    a := Advance(t, true);
    StepCounts(Exact, s, a, n);
    StepKeepsInv(Exact, s, a);
  }

  /** From every state of a safe run the calls in flight can be brought to an end, in at most as
      many steps as they have left. */
  lemma {:induction false} CanComeToRest(s: State, n: nat) returns (path: seq<State>, acts: seq<Action>)
    requires Inv(s) && forall t :: t in s.threads ==> t < n
    ensures LeadsToRest(s, path, acts) && |acts| <= TotalLeft(s.threads, n)
    decreases TotalLeft(s.threads, n)
  {
    if Quiescent(s) {
      path, acts := [s], [];
    } else {
      var a := OneStepOn(s, n);
      var p, b := CanComeToRest(Do(Exact, s, a), n);
      OneStepBefore(s, a, p, b);
      path, acts := [s] + p, [a] + b;
    }
  }
}
