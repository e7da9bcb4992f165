/** The bound on the list of messages is reached, whatever the numbers of senders and dispatchers. */
module ChannelBoundTight {
  import opened Channel
  import opened ChannelBound

  ghost predicate RunWithin(n: nat, m: nat, states: seq<State>, actions: seq<Action>) {
    && Run(Exact, states, actions)
    && forall j :: 0 <= j < |states| ==> |Senders(states[j])| <= n && |Dispatchers(states[j])| <= m
  }

  /** Senders a are about to push, dispatchers b about to put a message back, perhaps call c stands at
      pc, and nobody else is in flight; ids from c on are new. */
  ghost predicate Stands(s: State, c: nat, len: nat, a: set<nat>, b: set<nat>) {
    && s.d.up && s.d.irpList == [] && |s.d.dataList| == len
    && (forall m :: m in s.d.dataList ==> m.size == 1)
    && (forall t :: t in s.threads ==> t < c)
    && (forall m :: m in s.d.sent ==> m.id < c)
    && (forall irp :: irp in s.d.submitted ==> irp.id < c)
    && (forall t :: t in a ==> t in s.threads && s.threads[t].SendPush? && s.threads[t].msg.size == 1)
    && (forall t :: t in b ==> t in s.threads && s.threads[t].DispRepush? && s.threads[t].msg.size == 1)
    && (forall t :: t in s.threads ==> t in a || t in b || s.threads[t].Returned?)
  }

  lemma InFlight(s: State, c: nat, len: nat, a: set<nat>, b: set<nat>)
    requires Stands(s, c, len, a, b)
    ensures Senders(s) == a && Dispatchers(s) == b
  {
  }

  lemma Longer(n: nat, m: nat, states: seq<State>, actions: seq<Action>, x: Action, s': State)
    requires RunWithin(n, m, states, actions) && Enabled(states[|actions|], x) && s' == Do(Exact, states[|actions|], x)
    requires |Senders(s')| <= n && |Dispatchers(s')| <= m
    ensures RunWithin(n, m, states + [s'], actions + [x])
  {
    var p, y := states + [s'], actions + [x];
    forall i | 0 <= i < |y| ensures Enabled(p[i], y[i]) && p[i + 1] == Do(Exact, p[i], y[i]) {
      if i < |actions| { assert p[i] == states[i] && y[i] == actions[i] && p[i + 1] == states[i + 1]; }
    }
    forall j | 0 <= j < |p| ensures |Senders(p[j])| <= n && |Dispatchers(p[j])| <= m {
      if j < |states| { assert p[j] == states[j]; }
    }
  }

  /** One call more, c, on its way at pc. */
  lemma WithOne(s: State, s': State, c: nat, len: nat, a: set<nat>, b: set<nat>)
    requires Stands(s, c, len, a, b) && c in s'.threads && s'.threads == s.threads[c := s'.threads[c]]
    ensures Senders(s') == if IsSend(s'.threads[c]) then a + {c} else a
    ensures Dispatchers(s') == if IsDispatch(s'.threads[c]) then b + {c} else b
  {
    InFlight(s, c, len, a, b);
    forall t ensures t in Senders(s') <==> t in a || (t == c && IsSend(s'.threads[c])) {
      assert t in Senders(s) <==> t in a;
    }
    forall t ensures t in Dispatchers(s') <==> t in b || (t == c && IsDispatch(s'.threads[c])) {
      assert t in Dispatchers(s) <==> t in b;
    }
  }

  /** A sender comes to push its message: it has seen the list with room. */
  lemma SenderComes(s: State, c: nat, len: nat, a: set<nat>, b: set<nat>) returns (s1: State, s2: State, s3: State)
    requires Stands(s, c, len, a, b) && len < MAX_DATA_LIST_SIZE
    ensures Enabled(s, StartSend(c, Msg(c, 1))) && s1 == Do(Exact, s, StartSend(c, Msg(c, 1)))
    ensures Enabled(s1, Advance(c, true)) && s2 == Do(Exact, s1, Advance(c, true))
    ensures Enabled(s2, Advance(c, true)) && s3 == Do(Exact, s2, Advance(c, true))
    ensures Stands(s3, c + 1, len, a + {c}, b)
    ensures Senders(s1) == Senders(s2) == a + {c} && Dispatchers(s1) == Dispatchers(s2) == b
  {
    s1 := Do(Exact, s, StartSend(c, Msg(c, 1)));
    s2 := Do(Exact, s1, Advance(c, true));
    s3 := Do(Exact, s2, Advance(c, true));
    assert s1.threads == s.threads[c := SendPop(Msg(c, 1))];
    assert s2.threads == s.threads[c := SendSize(Msg(c, 1))];
    assert s3.threads == s.threads[c := SendPush(Msg(c, 1))];
    WithOne(s, s1, c, len, a, b);
    WithOne(s, s2, c, len, a, b);
  }

  /** A dispatcher comes to put a message back that it has popped. */
  lemma DispatcherComes(s: State, c: nat, len: nat, a: set<nat>, b: set<nat>) returns (s1: State, s2: State, s3: State)
    requires Stands(s, c, len, a, b) && len > 0
    ensures Enabled(s, StartDispatch(c, Irp(c, 0))) && s1 == Do(Exact, s, StartDispatch(c, Irp(c, 0)))
    ensures Enabled(s1, Advance(c, true)) && s2 == Do(Exact, s1, Advance(c, true))
    ensures Enabled(s2, Advance(c, true)) && s3 == Do(Exact, s2, Advance(c, true))
    ensures Stands(s3, c + 1, len - 1, a, b + {c})
    ensures Senders(s1) == Senders(s2) == a && Dispatchers(s1) == Dispatchers(s2) == b + {c}
  {
    var msg := s.d.dataList[0];
    assert msg in s.d.dataList && msg.size == 1;
    s1 := Do(Exact, s, StartDispatch(c, Irp(c, 0)));
    s2 := Do(Exact, s1, Advance(c, true));
    s3 := Do(Exact, s2, Advance(c, true));
    assert s1.threads == s.threads[c := DispPop(Irp(c, 0))];
    assert s2.threads == s.threads[c := DispCopy(Irp(c, 0), msg)];
    assert s3.threads == s.threads[c := DispRepush(Irp(c, 0), msg)];
    WithOne(s, s1, c, len, a, b);
    WithOne(s, s2, c, len, a, b);
  }

  lemma Pushes(s: State, c: nat, len: nat, a: set<nat>, b: set<nat>, t: nat)
    requires Stands(s, c, len, a, b) && (t in a || t in b)
    ensures Enabled(s, Advance(t, true)) && Stands(Do(Exact, s, Advance(t, true)), c, len + 1, a - {t}, b - {t})
  {
  }

  // ---- the run

  /** A run that has come to stand so. */
  ghost predicate Comes(n: nat, m: nat, states: seq<State>, actions: seq<Action>,
                        c: nat, len: nat, a: set<nat>, b: set<nat>) {
    RunWithin(n, m, states, actions) && Stands(states[|actions|], c, len, a, b)
  }

  lemma AddThree(n: nat, m: nat, states: seq<State>, actions: seq<Action>,
                 x: Action, y: Action, s1: State, s2: State, s3: State)
    returns (states': seq<State>, actions': seq<Action>)
    requires RunWithin(n, m, states, actions)
    requires Enabled(states[|actions|], x) && s1 == Do(Exact, states[|actions|], x)
    requires Enabled(s1, y) && s2 == Do(Exact, s1, y) && Enabled(s2, y) && s3 == Do(Exact, s2, y)
    requires forall s :: s in {s1, s2, s3} ==> |Senders(s)| <= n && |Dispatchers(s)| <= m
    ensures RunWithin(n, m, states', actions') && states'[|actions'|] == s3
  {
    Longer(n, m, states, actions, x, s1);
    Longer(n, m, states + [s1], actions + [x], y, s2);
    Longer(n, m, states + [s1] + [s2], actions + [x] + [y], y, s3);
    states', actions' := states + [s1] + [s2] + [s3], actions + [x] + [y] + [y];
  }

  lemma AddSender(n: nat, m: nat, states: seq<State>, actions: seq<Action>,
                  c: nat, len: nat, a: set<nat>, b: set<nat>)
    returns (states': seq<State>, actions': seq<Action>)
    requires Comes(n, m, states, actions, c, len, a, b) && len < MAX_DATA_LIST_SIZE && |a| < n && |b| <= m
    ensures Comes(n, m, states', actions', c + 1, len, a + {c}, b) && c !in a
  {
    var s1, s2, s3 := SenderComes(states[|actions|], c, len, a, b);
    InFlight(s3, c + 1, len, a + {c}, b);
    states', actions' := AddThree(n, m, states, actions, StartSend(c, Msg(c, 1)), Advance(c, true), s1, s2, s3);
  }

  lemma AddDispatcher(n: nat, m: nat, states: seq<State>, actions: seq<Action>,
                      c: nat, len: nat, a: set<nat>, b: set<nat>)
    returns (states': seq<State>, actions': seq<Action>)
    requires Comes(n, m, states, actions, c, len, a, b) && len > 0 && |a| <= n && |b| < m
    ensures Comes(n, m, states', actions', c + 1, len - 1, a, b + {c}) && c !in b
  {
    var s1, s2, s3 := DispatcherComes(states[|actions|], c, len, a, b);
    InFlight(s3, c + 1, len - 1, a, b + {c});
    states', actions' := AddThree(n, m, states, actions, StartDispatch(c, Irp(c, 0)), Advance(c, true), s1, s2, s3);
  }

  lemma PushOne(n: nat, m: nat, states: seq<State>, actions: seq<Action>,
                c: nat, len: nat, a: set<nat>, b: set<nat>, t: nat)
    returns (states': seq<State>, actions': seq<Action>)
    requires Comes(n, m, states, actions, c, len, a, b) && (t in a || t in b) && |a| <= n && |b| <= m
    ensures Comes(n, m, states', actions', c, len + 1, a - {t}, b - {t})
  {
    var s' := Do(Exact, states[|actions|], Advance(t, true));
    Pushes(states[|actions|], c, len, a, b, t);
    InFlight(s', c, len + 1, a - {t}, b - {t});
    Longer(n, m, states, actions, Advance(t, true), s');
    states', actions' := states + [s'], actions + [Advance(t, true)];
  }

  /** One message more, sent without overlap. */
  lemma SendOne(n: nat, m: nat, states: seq<State>, actions: seq<Action>, c: nat, len: nat, b: set<nat>)
    returns (states': seq<State>, actions': seq<Action>)
    requires Comes(n, m, states, actions, c, len, {}, b) && len < MAX_DATA_LIST_SIZE && n > 0 && |b| <= m
    ensures Comes(n, m, states', actions', c + 1, len + 1, {}, b)
  {
    states', actions' := AddSender(n, m, states, actions, c, len, {}, b);
    assert c !in b;
    states', actions' := PushOne(n, m, states', actions', c + 1, len, {} + {c}, b, c);
    assert {} + {c} - {c} == {} && b - {c} == b;
  }

  lemma {:induction false} Fill(n: nat, m: nat, len: nat) returns (states: seq<State>, actions: seq<Action>, c: nat)
    requires n > 0 && len < MAX_DATA_LIST_SIZE
    ensures Comes(n, m, states, actions, c, len, {}, {})
  {
    if len == 0 {
      states, actions, c := [INITIAL], [], 0;
      assert Senders(INITIAL) == {} && Dispatchers(INITIAL) == {};
    } else {
      states, actions, c := Fill(n, m, len - 1);
      states, actions := SendOne(n, m, states, actions, c, len - 1, {});
      c := c + 1;
    }
  }

  /** Each of k dispatchers holds a message, and the list has been filled up again. */
  lemma {:induction false} Hold(n: nat, m: nat, k: nat)
    returns (states: seq<State>, actions: seq<Action>, c: nat, b: set<nat>)
    requires n > 0 && k <= m
    ensures |b| == k && Comes(n, m, states, actions, c, MAX_DATA_LIST_SIZE - 1, {}, b)
  {
    if k == 0 {
      states, actions, c := Fill(n, m, MAX_DATA_LIST_SIZE - 1);
      b := {};
    } else {
      states, actions, c, b := Hold(n, m, k - 1);
      states, actions := SendOne(n, m, states, actions, c, MAX_DATA_LIST_SIZE - 1, b);
      states, actions := AddDispatcher(n, m, states, actions, c + 1, MAX_DATA_LIST_SIZE, {}, b);
      b, c := b + {c + 1}, c + 2;
    }
  }

  /** And k senders have seen the list with room. */
  lemma {:induction false} Crowd(n: nat, m: nat, k: nat)
    returns (states: seq<State>, actions: seq<Action>, c: nat, a: set<nat>, b: set<nat>)
    requires n > 0 && k <= n
    ensures |a| == k && |b| == m && Comes(n, m, states, actions, c, MAX_DATA_LIST_SIZE - 1, a, b)
  {
    if k == 0 {
      states, actions, c, b := Hold(n, m, m);
      a := {};
    } else {
      states, actions, c, a, b := Crowd(n, m, k - 1);
      states, actions := AddSender(n, m, states, actions, c, MAX_DATA_LIST_SIZE - 1, a, b);
      a, c := a + {c}, c + 1;
    }
  }

  lemma {:induction false} PushAll(n: nat, m: nat, states: seq<State>, actions: seq<Action>,
                                   c: nat, len: nat, a: set<nat>, b: set<nat>)
    returns (states': seq<State>, actions': seq<Action>)
    requires Comes(n, m, states, actions, c, len, a, b) && |a| <= n && |b| <= m && a !! b
    ensures Comes(n, m, states', actions', c, len + |a| + |b|, {}, {})
    decreases |a| + |b|
  {
    states', actions' := states, actions;
    if t :| t in a {
      states', actions' := PushOne(n, m, states, actions, c, len, a, b, t);
      assert b - {t} == b;
      states', actions' := PushAll(n, m, states', actions', c, len + 1, a - {t}, b);
    } else if t :| t in b {
      states', actions' := PushOne(n, m, states, actions, c, len, a, b, t);
      assert a - {t} == a;
      states', actions' := PushAll(n, m, states', actions', c, len + 1, a, b - {t});
    } else {
      assert a == {} && b == {};
    }
  }

  /** With n senders, one at least, and m dispatchers the list can come to hold 1023 + n + m
      messages, with no call in flight. */
  lemma BoundIsReached(n: nat, m: nat) returns (states: seq<State>, actions: seq<Action>)
    requires n > 0
    ensures Run(Exact, states, actions) && Quiescent(states[|actions|])
    ensures forall j :: 0 <= j < |states| ==> |Senders(states[j])| <= n && |Dispatchers(states[j])| <= m
    ensures |states[|actions|].d.dataList| == 1023 + n + m
  {
    var c, a, b;
    states, actions, c, a, b := Crowd(n, m, n);
    forall t | t in a ensures t !in b {
    }
    states, actions := PushAll(n, m, states, actions, c, MAX_DATA_LIST_SIZE - 1, a, b);
  }
}
