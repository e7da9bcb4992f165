/** Calls that do not overlap: they are runs of the fine-grained steps, and when every message fits
    every reader the driver's two lists are one bounded channel that drops the oldest message. */
module BoundedChannel {
  import opened Common
  import opened Channel
  import opened Ledgers
  import opened ChannelLedgers
  import opened ChannelSafety
  import Calls = AtomicCalls

  datatype Call =
    | Read(irp: Irp, allocOk: bool)
    | Post(msg: Msg, allocOk: bool)
    | Revoke(irp: Irp)

  function Perform(mode: PopMode, d: Driver, c: Call): Driver {
    match c
    case Read(irp, ok) => Calls.Dispatch(d, irp, ok).0
    case Post(msg, ok) => Calls.Send(d, msg, ok).0
    case Revoke(irp) => Calls.Cancel(mode, d, irp)
  }

  /** Requests and messages are new, and only submitted requests are cancelled. */
  predicate Legal(d: Driver, c: Call) {
    match c
    case Read(irp, _) => irp !in d.submitted
    case Post(msg, _) => msg !in d.sent
    case Revoke(irp) => irp in d.submitted
  }

  function PerformAll(mode: PopMode, calls: seq<Call>): Driver {
    if calls == [] then INITIAL_DRIVER
    else Perform(mode, PerformAll(mode, calls[..|calls| - 1]), calls[|calls| - 1])
  }

  predicate AllLegal(mode: PopMode, calls: seq<Call>) {
    calls == []
    || (AllLegal(mode, calls[..|calls| - 1])
        && Legal(PerformAll(mode, calls[..|calls| - 1]), calls[|calls| - 1]))
  }

  // ---- sequences of calls are fine-grained runs

  ghost predicate Idle(s: State, calls: seq<Call>) {
    && Inv(s) && Quiescent(s) && s.cancelLock == None
    && s.d == PerformAll(Exact, calls)
    && forall t :: t in s.threads ==> t < |calls|
  }

  lemma PathConcat(mode: PopMode, p: seq<State>, a: seq<Action>, p': seq<State>, a': seq<Action>)
    requires Run(mode, p, a) && Path(mode, p', a') && p'[0] == p[|a|]
    ensures Run(mode, p + p'[1..], a + a') && (p + p'[1..])[|a + a'|] == p'[|a'|]
  {
    var q, b := p + p'[1..], a + a';
    forall i | 0 <= i < |b| ensures Enabled(q[i], b[i]) && q[i + 1] == Do(mode, q[i], b[i]) {
      if i < |a| {
        assert q[i] == p[i] && b[i] == a[i] && q[i + 1] == p[i + 1];
      } else {
        assert q[i] == p'[i - |a|] && b[i] == a'[i - |a|] && q[i + 1] == p'[i - |a| + 1];
      }
    }
  }

  /** Calls performed one after the other are a run of the fine-grained steps, so all its
      invariants hold between them. */
  lemma {:induction false} CallsAreRun(calls: seq<Call>) returns (path: seq<State>, acts: seq<Action>)
    requires AllLegal(Exact, calls)
    ensures Run(Exact, path, acts) && Idle(path[|acts|], calls)
  {
    if calls == [] {
      path, acts := [INITIAL], [];
      InvInitially();
    } else {
      var n := |calls| - 1;
      path, acts := CallsAreRun(calls[..n]);
      var s, path', acts' := path[|acts|], [], [];
      match calls[n] {
        case Read(irp, ok) => path', acts' := Calls.DispatchIsRun(Exact, s, n, irp, ok);
        case Post(msg, ok) => path', acts' := Calls.SendIsRun(Exact, s, n, msg, ok);
        case Revoke(irp) => path', acts' := Calls.CancelIsRun(Exact, s, n, irp);
      }
      PathConcat(Exact, path, acts, path', acts');
      path, acts := path + path'[1..], acts + acts';
      ExactRunsAreSafe(path, acts, |acts|);
    }
  }

  /** What holds of the shared state between calls. */
  ghost predicate Settled(d: Driver) {
    && (forall irp :: irp in d.armed <==> irp in d.irpList)
    && NoDup(d.irpList)
    && NoDup(d.dataList)
    && (forall m :: m in d.dataList ==> m in d.sent)
    && d.up
  }

  lemma NeverShutDown(mode: PopMode, calls: seq<Call>)
    ensures PerformAll(mode, calls).up
  {
  }

  lemma CallsSettle(calls: seq<Call>)
    requires AllLegal(Exact, calls)
    ensures Settled(PerformAll(Exact, calls))
  {
    var path, acts := CallsAreRun(calls);
    var s := path[|acts|];
    NeverShutDown(Exact, calls);
    forall irp ensures irp in s.d.armed <==> irp in s.d.irpList {
      QuiescentRequests(s, irp);
    }
    assert s.d.dataList == MsgLedger(s).queue;
  }

  /** Calls that do not overlap never run into the miss of the literal Pop(buffer). */
  lemma {:induction false} LiteralIsExact(calls: seq<Call>)
    requires AllLegal(Exact, calls) || AllLegal(Literal, calls)
    ensures AllLegal(Exact, calls) && AllLegal(Literal, calls)
    ensures PerformAll(Literal, calls) == PerformAll(Exact, calls)
  {
    if calls != [] {
      LiteralIsExact(calls[..|calls| - 1]);
      CallsSettle(calls[..|calls| - 1]);
    }
  }

  // ---- the reference: one channel of at most 1024 messages

  /** Readers wait while there is nothing to read; messages wait while nobody reads. */
  datatype Bounded = Bounded(waiting: seq<Irp>, queued: seq<Msg>, delivered: seq<Delivery>, evicted: set<Msg>)

  const EMPTY := Bounded([], [], [], {})

  function Step(b: Bounded, c: Call): Bounded {
    match c
    case Read(irp, ok) =>
      if b.queued != [] then
        b.(queued := b.queued[1..], delivered := b.delivered + [Delivery(irp, b.queued[0])])
      else if ok then b.(waiting := b.waiting + [irp])
      else b
    case Post(msg, ok) =>
      if b.waiting != [] then
        b.(waiting := b.waiting[1..], delivered := b.delivered + [Delivery(b.waiting[0], msg)])
      else
        var b1 := if |b.queued| == MAX_DATA_LIST_SIZE
                  then b.(queued := b.queued[1..], evicted := b.evicted + {b.queued[0]})
                  else b;
        if ok then b1.(queued := b1.queued + [msg]) else b1
    case Revoke(irp) => b.(waiting := Without(b.waiting, irp))
  }

  function StepAll(calls: seq<Call>): Bounded {
    if calls == [] then EMPTY else Step(StepAll(calls[..|calls| - 1]), calls[|calls| - 1])
  }

  /** Every message sent fits every request. */
  ghost predicate Fits(calls: seq<Call>) {
    forall i, j :: 0 <= i < |calls| && 0 <= j < |calls| && calls[i].Post? && calls[j].Read? ==>
      calls[i].msg.size <= calls[j].irp.outputLength
  }

  ghost function EvictedMsgs(d: Driver): set<Msg> {
    set f | f in d.freed && f.fate == Evicted :: f.msg
  }

  /** The driver's two lists and logs, seen as the one channel. */
  ghost predicate Refines(d: Driver, b: Bounded) {
    && d.irpList == b.waiting
    && d.dataList == b.queued
    && d.deliveries == b.delivered
    && EvictedMsgs(d) == b.evicted
    && (b.waiting == [] || b.queued == [])
    && |b.queued| <= MAX_DATA_LIST_SIZE
    && d.cancelFlag <= d.submitted
  }

  /** Every request known to the driver was read, and every queued message was posted. */
  ghost predicate Known(d: Driver, calls: seq<Call>) {
    && (forall irp :: irp in d.irpList ==> exists j :: 0 <= j < |calls| && calls[j].Read? && calls[j].irp == irp)
    && (forall m :: m in d.dataList ==> exists i :: 0 <= i < |calls| && calls[i].Post? && calls[i].msg == m)
  }

  lemma KnownStep(d: Driver, before: seq<Call>, c: Call)
    requires Known(d, before)
    ensures Known(Perform(Exact, d, c), before + [c])
  {
    var d', calls := Perform(Exact, d, c), before + [c];
    assert forall i :: 0 <= i < |before| ==> calls[i] == before[i];
    assert calls[|before|] == c;
    if c.Revoke? { WithoutSubset(d.irpList, c.irp); }
    forall irp | irp in d'.irpList ensures exists j :: 0 <= j < |calls| && calls[j].Read? && calls[j].irp == irp {
      if irp in d.irpList {
        var j :| 0 <= j < |before| && before[j].Read? && before[j].irp == irp;
        assert calls[j].irp == irp;
      }
    }
    forall m | m in d'.dataList ensures exists i :: 0 <= i < |calls| && calls[i].Post? && calls[i].msg == m {
      if m in d.dataList {
        var i :| 0 <= i < |before| && before[i].Post? && before[i].msg == m;
        assert calls[i].msg == m;
      }
    }
  }

  lemma EvictedSnoc(d: Driver, f: Freed)
    ensures EvictedMsgs(d.(freed := d.freed + [f]))
            == if f.fate == Evicted then EvictedMsgs(d) + {f.msg} else EvictedMsgs(d)
  {
  }

  lemma RefinesRead(d: Driver, b: Bounded, irp: Irp, ok: bool)
    requires Refines(d, b) && d.up && irp !in d.submitted
    requires d.dataList != [] ==> d.dataList[0].size <= irp.outputLength
    ensures Refines(Perform(Exact, d, Read(irp, ok)), Step(b, Read(irp, ok)))
  {
    var d' := Perform(Exact, d, Read(irp, ok));
    if d.dataList != [] {
      EvictedSnoc(d, Freed(d.dataList[0], Delivered));
      assert EvictedMsgs(d') == EvictedMsgs(d.(freed := d.freed + [Freed(d.dataList[0], Delivered)]));
    } else {
      assert d'.freed == d.freed;
      assert EvictedMsgs(d') == EvictedMsgs(d);
    }
  }

  lemma RefinesPost(d: Driver, b: Bounded, msg: Msg, ok: bool)
    requires Refines(d, b) && Settled(d)
    requires d.irpList != [] ==> msg.size <= d.irpList[0].outputLength
    ensures Refines(Perform(Exact, d, Post(msg, ok)), Step(b, Post(msg, ok)))
  {
    var d' := Perform(Exact, d, Post(msg, ok));
    if d.irpList != [] {
      assert d.irpList[0] in d.armed;
      EvictedSnoc(d, Freed(msg, Delivered));
      assert EvictedMsgs(d') == EvictedMsgs(d.(freed := d.freed + [Freed(msg, Delivered)]));
    } else {
      var d1 := d;
      if |d.dataList| >= MAX_DATA_LIST_SIZE {
        d1 := d.(freed := d.freed + [Freed(d.dataList[0], Evicted)]);
        EvictedSnoc(d, Freed(d.dataList[0], Evicted));
      }
      EvictedSnoc(d1, Freed(msg, Refused));
      assert d'.freed == if ok then d1.freed else d1.freed + [Freed(msg, Refused)];
      assert EvictedMsgs(d') == EvictedMsgs(d1);
    }
  }

  lemma RefinesRevoke(d: Driver, b: Bounded, irp: Irp)
    requires Refines(d, b) && Settled(d) && irp in d.submitted
    ensures Refines(Perform(Exact, d, Revoke(irp)), Step(b, Revoke(irp)))
  {
    var d' := Perform(Exact, d, Revoke(irp));
    WithoutSubset(d.irpList, irp);
    assert d'.freed == d.freed;
    assert EvictedMsgs(d') == EvictedMsgs(d);
    if d.irpList == [] { assert Without(d.irpList, irp) == []; }
  }

  /** The messages that are queued and the requests that wait fit the next call. */
  lemma NextFits(before: seq<Call>, c: Call, d: Driver)
    requires Fits(before + [c]) && Known(d, before)
    ensures c.Read? && d.dataList != [] ==> d.dataList[0].size <= c.irp.outputLength
    ensures c.Post? && d.irpList != [] ==> c.msg.size <= d.irpList[0].outputLength
  {
    var calls := before + [c];
    assert calls[|before|] == c && forall i :: 0 <= i < |before| ==> calls[i] == before[i];
    if c.Read? && d.dataList != [] {
      assert d.dataList[0] in d.dataList;
      var i :| 0 <= i < |before| && before[i].Post? && before[i].msg == d.dataList[0];
      assert calls[i].msg == d.dataList[0];
    }
    if c.Post? && d.irpList != [] {
      assert d.irpList[0] in d.irpList;
      var j :| 0 <= j < |before| && before[j].Read? && before[j].irp == d.irpList[0];
      assert calls[j].irp == d.irpList[0];
    }
  }

  lemma RefinesStep(d: Driver, b: Bounded, c: Call)
    requires Refines(d, b) && Settled(d) && Legal(d, c)
    requires c.Read? && d.dataList != [] ==> d.dataList[0].size <= c.irp.outputLength
    requires c.Post? && d.irpList != [] ==> c.msg.size <= d.irpList[0].outputLength
    ensures Refines(Perform(Exact, d, c), Step(b, c))
  {
    match c
    case Read(irp, ok) => RefinesRead(d, b, irp, ok);
    case Post(msg, ok) => RefinesPost(d, b, msg, ok);
    case Revoke(irp) => RefinesRevoke(d, b, irp);
  }

  lemma {:induction false} CallsRefine(calls: seq<Call>)
    requires AllLegal(Exact, calls) && Fits(calls)
    ensures Refines(PerformAll(Exact, calls), StepAll(calls)) && Known(PerformAll(Exact, calls), calls)
  {
    if calls == [] {
      assert EvictedMsgs(INITIAL_DRIVER) == {};
    } else {
      var n := |calls| - 1;
      var before, c := calls[..n], calls[n];
      var d := PerformAll(Exact, before);
      assert calls == before + [c];
      CallsRefine(before);
      CallsSettle(before);
      NextFits(before, c, d);
      KnownStep(d, before, c);
      RefinesStep(d, StepAll(before), c);
    }
  }

  // ---- evictions

  lemma EvictingCall(d: Driver, c: Call, f: Freed)
    requires d.up && (d.irpList == [] || d.dataList == []) && |d.dataList| <= 1024
    requires f in Perform(Exact, d, c).freed && f !in d.freed && f.fate == Evicted
    ensures c.Post? && d.irpList == [] && |d.dataList| == 1024 && f.msg == d.dataList[0]
  {
  }

  /** Only a SendMessage that finds 1024 messages queued evicts, and it evicts the oldest. */
  lemma EvictsOldest(calls: seq<Call>, c: Call, m: Msg)
    requires AllLegal(Exact, calls + [c]) && Fits(calls)
    requires var d := PerformAll(Exact, calls); m in EvictedMsgs(Perform(Exact, d, c)) && m !in EvictedMsgs(d)
    ensures var d := PerformAll(Exact, calls);
            c.Post? && d.irpList == [] && |d.dataList| == 1024 && m == d.dataList[0]
  {
    var d := PerformAll(Exact, calls);
    assert d.up && (d.irpList == [] || d.dataList == []) && |d.dataList| <= 1024 by {
      assert (calls + [c])[..|calls|] == calls;
      CallsRefine(calls);
      NeverShutDown(Exact, calls);
    }
    var f :| f in Perform(Exact, d, c).freed && f.fate == Evicted && f.msg == m;
    assert f !in d.freed;
    EvictingCall(d, c, f);
  }
}
