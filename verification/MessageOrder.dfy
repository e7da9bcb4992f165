/** First in, first out: exactly when calls that do not overlap keep the order of messages. */
module MessageOrder {
  import opened Channel
  import opened Ledgers
  import opened ChannelLedgers
  import opened ChannelDelivery
  import opened ChannelSafety
  import opened BoundedChannel
  import Calls = AtomicCalls

  /** The messages whose SendMessage returned true, in the order they were sent. */
  function Accepted(mode: PopMode, calls: seq<Call>): seq<Msg> {
    if calls == [] then []
    else
      var n := |calls| - 1;
      var before := Accepted(mode, calls[..n]);
      match calls[n]
      case Post(msg, ok) =>
        if Calls.Send(PerformAll(mode, calls[..n]), msg, ok).1 then before + [msg] else before
      case _ => before
  }

  function Minus<T(==)>(q: seq<T>, out: set<T>): seq<T> {
    if q == [] then []
    else if q[|q| - 1] in out then Minus(q[..|q| - 1], out)
    else Minus(q[..|q| - 1], out) + [q[|q| - 1]]
  }

  lemma {:induction false} MinusOne<T>(q: seq<T>, out: set<T>, x: T, a: seq<T>, b: seq<T>)
    requires Minus(q, out) == a + [x] + b && x !in a && x !in b
    ensures Minus(q, out + {x}) == a + b
  {
    MinusTwice(q, out, x);
    if b == [] {
      assert (a + [x] + b)[..|a|] == a;
      MinusNone(a, x);
      assert a + b == a;
    } else {
      MinusMiddle(a, x, b);
    }
  }

  lemma {:induction false} MinusTwice<T>(q: seq<T>, out: set<T>, x: T)
    ensures Minus(q, out + {x}) == Minus(Minus(q, out), {x})
  {
    if q != [] {
      var init, y := q[..|q| - 1], q[|q| - 1];
      MinusTwice(init, out, x);
      if y !in out {
        assert (Minus(init, out) + [y])[..|Minus(init, out)|] == Minus(init, out);
      }
    }
  }

  lemma {:induction false} MinusNone<T>(q: seq<T>, x: T)
    requires x !in q
    ensures Minus(q, {x}) == q
  {
    if q != [] {
      MinusNone(q[..|q| - 1], x);
      assert q == q[..|q| - 1] + [q[|q| - 1]];
    }
  }

  lemma {:induction false} MinusMiddle<T>(a: seq<T>, x: T, b: seq<T>)
    requires x !in a && x !in b
    ensures Minus(a + [x] + b, {x}) == a + b
  {
    var q := a + [x] + b;
    if b == [] {
      assert q[..|q| - 1] == a && q[|q| - 1] == x;
      MinusNone(a, x);
      assert a + b == a;
    } else {
      var b', y := b[..|b| - 1], b[|b| - 1];
      assert q[..|q| - 1] == a + [x] + b' && q[|q| - 1] == y;
      MinusMiddle(a, x, b');
      assert a + b == (a + b') + [y];
    }
  }

  // ---- what is in line

  /** The messages delivered, and after them those queued. */
  function Line(d: Driver): seq<Msg> {
    DeliveredMsgs(d.deliveries) + d.dataList
  }

  /** The accepted messages that the driver gave up. */
  ghost function GoneMsgs(d: Driver): set<Msg> {
    set f | f in d.freed && (f.fate == Evicted || f.fate == Dropped) :: f.msg
  }

  /** Messages leave in the order in which they were accepted. */
  ghost predicate InOrder(mode: PopMode, calls: seq<Call>) {
    var d := PerformAll(mode, calls);
    Line(d) == Minus(Accepted(mode, calls), GoneMsgs(d))
  }

  /** What a call must find to keep the order.  A reader that is too small sends the oldest message
      to the tail; a sender hands its message to a waiting reader past those queued. */
  predicate KeepsOrder(d: Driver, c: Call) {
    match c
    case Read(irp, ok) =>
      |d.dataList| <= 1 || d.dataList[0].size <= irp.outputLength || !ok
    case Post(msg, _) =>
      d.dataList == [] || d.irpList == [] || d.irpList[0] !in d.armed || msg.size > d.irpList[0].outputLength
    case Revoke(_) => true
  }

  /** The messages in line are all different, were sent, and are not given up. */
  ghost predicate Apart(d: Driver) {
    && NoDup(Line(d))
    && (forall m :: m in Line(d) || m in GoneMsgs(d) ==> m in d.sent)
    && (forall m :: m in GoneMsgs(d) ==> m !in Line(d))
  }

  lemma LineIsApart(s: State)
    requires Inv(s) && Quiescent(s)
    ensures Apart(s.d)
  {
    var d := s.d;
    var ms := DeliveredMsgs(d.deliveries);
    forall i, j | 0 <= i < j < |Line(d)| ensures Line(d)[i] != Line(d)[j] {
      if i < |ms| <= j {
        DeliveredOnce(s, i);
        assert ms[i] == d.deliveries[i].msg;
      } else if j < |ms| {
        assert NoDup(ms);
      } else {
        assert NoDup(MsgLedger(s).queue);
      }
    }
    forall m | m in Line(d) ensures m in d.sent {
      if m in ms {
        var i :| 0 <= i < |ms| && ms[i] == m;
        DeliveredOnce(s, i);
        FreedListed(d.freed, Freed(m, Delivered));
        assert m in MsgLedger(s).finished;
      } else {
        assert m in MsgLedger(s).queue;
      }
    }
    forall m | m in GoneMsgs(d) ensures m in d.sent && m !in Line(d) {
      GoneIsFinished(s, m);
    }
  }

  lemma GoneIsFinished(s: State, m: Msg)
    requires Inv(s) && m in GoneMsgs(s.d)
    ensures m in s.d.sent && m !in Line(s.d)
  {
    var f :| f in s.d.freed && (f.fate == Evicted || f.fate == Dropped) && f.msg == m;
    FreedListed(s.d.freed, f);
    assert m in MsgLedger(s).finished && MsgLedger(s).queue == s.d.dataList;
  }

  // ---- one call

  lemma HeadApart<T(!new)>(a: seq<T>, x: T, b: seq<T>)
    requires NoDup(a + [x] + b)
    ensures x !in a && x !in b
  {
    var q := a + [x] + b;
    assert q[|a|] == x;
    assert forall i :: 0 <= i < |a| ==> q[i] == a[i];
    assert forall i :: 0 <= i < |b| ==> q[|a| + 1 + i] == b[i];
  }

  lemma MinusSnoc(acc: seq<Msg>, out: set<Msg>, msg: Msg)
    requires msg !in out
    ensures Minus(acc + [msg], out) == Minus(acc, out) + [msg]
  {
    assert (acc + [msg])[..|acc|] == acc;
  }

  /** Giving up the oldest queued message takes it out of both sides. */
  lemma GiveUpOldest(d: Driver, acc: seq<Msg>)
    requires Apart(d) && d.dataList != [] && Line(d) == Minus(acc, GoneMsgs(d))
    ensures Minus(acc, GoneMsgs(d) + {d.dataList[0]}) == DeliveredMsgs(d.deliveries) + d.dataList[1..]
  {
    var ms, x, rest := DeliveredMsgs(d.deliveries), d.dataList[0], d.dataList[1..];
    assert Line(d) == ms + [x] + rest;
    HeadApart(ms, x, rest);
    MinusOne(acc, GoneMsgs(d), x, ms, rest);
  }

  lemma GoneSnoc(d: Driver, d': Driver, f: Freed)
    requires d'.freed == d.freed + [f]
    ensures GoneMsgs(d') == if f.fate == Evicted || f.fate == Dropped then GoneMsgs(d) + {f.msg} else GoneMsgs(d)
  {
  }

  lemma SwapMoves<T>(a: seq<T>, x: T, rest: seq<T>)
    requires rest != [] && rest[0] != x
    ensures a + (rest + [x]) != a + ([x] + rest)
  {
    assert (a + (rest + [x]))[|a|] == rest[0];
    assert (a + ([x] + rest))[|a|] == x;
  }

  /** A reader keeps the order exactly when the oldest message fits it, is the only one, or cannot
      be put back. */
  lemma ReadStepIff(d: Driver, irp: Irp, ok: bool, acc: seq<Msg>)
    requires d.up && Apart(d) && Line(d) == Minus(acc, GoneMsgs(d))
    ensures var d' := Calls.Dispatch(d, irp, ok).0;
            Line(d') == Minus(acc, GoneMsgs(d')) <==> KeepsOrder(d, Read(irp, ok))
  {
    var d' := Calls.Dispatch(d, irp, ok).0;
    if d.dataList == [] {
      assert d'.freed == d.freed && GoneMsgs(d') == GoneMsgs(d);
    } else {
      ReadQueuedIff(d, irp, ok, acc);
    }
  }

  lemma ReadQueuedIff(d: Driver, irp: Irp, ok: bool, acc: seq<Msg>)
    requires d.up && d.dataList != [] && Apart(d) && Line(d) == Minus(acc, GoneMsgs(d))
    ensures var d' := Calls.Dispatch(d, irp, ok).0;
            Line(d') == Minus(acc, GoneMsgs(d')) <==> KeepsOrder(d, Read(irp, ok))
  {
    var d', ms, x, rest := Calls.Dispatch(d, irp, ok).0, DeliveredMsgs(d.deliveries), d.dataList[0], d.dataList[1..];
    assert d.dataList == [x] + rest;
    if x.size <= irp.outputLength {
      DeliveredSnoc(d.deliveries, Delivery(irp, x));
      GoneSnoc(d, d', Freed(x, Delivered));
      assert Line(d') == ms + [x] + rest == Line(d);
    } else if ok {
      assert d'.freed == d.freed && GoneMsgs(d') == GoneMsgs(d);
      assert Line(d') == ms + (rest + [x]);
      if rest != [] {
        assert Line(d)[|ms|] == x && Line(d)[|ms| + 1] == rest[0];
        SwapMoves(ms, x, rest);
      }
    } else {
      GoneSnoc(d, d', Freed(x, Dropped));
      GiveUpOldest(d, acc);
    }
  }

  lemma EnqueueKeeps(d: Driver, msg: Msg, ok: bool, acc: seq<Msg>)
    requires Apart(d) && Line(d) == Minus(acc, GoneMsgs(d)) && msg !in GoneMsgs(d) && msg !in Line(d)
    ensures var (d', accepted) := Calls.Enqueue(d, msg, ok);
            Line(d') == Minus(if accepted then acc + [msg] else acc, GoneMsgs(d'))
  {
    var d1, ms := Calls.MakeRoom(d), DeliveredMsgs(d.deliveries);
    if |d.dataList| >= MAX_DATA_LIST_SIZE {
      assert Line(d)[|ms|] == d.dataList[0];
      GiveUpOldest(d, acc);
      GoneSnoc(d, d1, Freed(d.dataList[0], Evicted));
    }
    assert Line(d1) == Minus(acc, GoneMsgs(d1)) && msg !in GoneMsgs(d1);
    if ok {
      MinusSnoc(acc, GoneMsgs(d1), msg);
      assert ms + (d1.dataList + [msg]) == Line(d1) + [msg];
    } else {
      GoneSnoc(d1, Free(d1, msg, Refused), Freed(msg, Refused));
    }
  }

  /** A sender keeps the order exactly when it does not hand its message to a reader past those
      that are queued. */
  lemma SendStepIff(d: Driver, msg: Msg, ok: bool, acc: seq<Msg>)
    requires d.up && Apart(d) && msg !in d.sent && Line(d) == Minus(acc, GoneMsgs(d))
    ensures var (d', accepted) := Calls.Send(d, msg, ok);
            Line(d') == Minus(if accepted then acc + [msg] else acc, GoneMsgs(d')) <==> KeepsOrder(d, Post(msg, ok))
  {
    if d.irpList != [] && d.irpList[0] in d.armed && msg.size <= d.irpList[0].outputLength {
      HandOverIff(d, msg, ok, acc);
    } else {
      var d0 := BeforeEnqueue(d, msg);
      assert GoneMsgs(d0) == GoneMsgs(d) && Line(d0) == Line(d);
      EnqueueKeeps(d0, msg, ok, acc);
    }
  }

  /** The state in which a sender comes to queue its message. */
  function BeforeEnqueue(d: Driver, msg: Msg): Driver {
    var d0 := d.(sent := d.sent + {msg});
    if d.irpList == [] then d0
    else
      var irp := d.irpList[0];
      var d1 := d0.(irpList := d.irpList[1..], armed := d.armed - {irp});
      if irp !in d.armed then Complete(d1, irp, Cancelled) else Complete(d1, irp, BufferTooSmall)
  }

  lemma HandOverIff(d: Driver, msg: Msg, ok: bool, acc: seq<Msg>)
    requires d.up && Apart(d) && msg !in d.sent && Line(d) == Minus(acc, GoneMsgs(d))
    requires d.irpList != [] && d.irpList[0] in d.armed && msg.size <= d.irpList[0].outputLength
    ensures var (d', accepted) := Calls.Send(d, msg, ok);
            accepted && (Line(d') == Minus(acc + [msg], GoneMsgs(d')) <==> d.dataList == [])
  {
    var d', ms := Calls.Send(d, msg, ok).0, DeliveredMsgs(d.deliveries);
    DeliveredSnoc(d.deliveries, Delivery(d.irpList[0], msg));
    GoneSnoc(d, d', Freed(msg, Delivered));
    MinusSnoc(acc, GoneMsgs(d), msg);
    assert Line(d') == ms + ([msg] + d.dataList);
    assert Line(d) + [msg] == ms + (d.dataList + [msg]);
    if d.dataList != [] {
      assert Line(d)[|ms|] == d.dataList[0];
      SwapMoves(ms, msg, d.dataList);
    }
  }

  lemma RevokeKeeps(d: Driver, irp: Irp)
    ensures var d' := Calls.Cancel(Exact, d, irp); Line(d') == Line(d) && GoneMsgs(d') == GoneMsgs(d)
  {
    assert Calls.Cancel(Exact, d, irp).freed == d.freed;
  }

  // ---- sequences of calls

  lemma CallStepIff(calls: seq<Call>, n: nat)
    requires AllLegal(Exact, calls) && n < |calls| && InOrder(Exact, calls[..n])
    ensures InOrder(Exact, calls[..n + 1]) <==> KeepsOrder(PerformAll(Exact, calls[..n]), calls[n])
  {
    var before, c := calls[..n], calls[n];
    var d, acc := PerformAll(Exact, before), Accepted(Exact, before);
    assert calls[..n + 1][..n] == before;
    LegalPrefix(Exact, calls, n);
    LegalPrefix(Exact, calls, n + 1);
    var path, acts := CallsAreRun(before);
    LineIsApart(path[|acts|]);
    NeverShutDown(Exact, before);
    match c
    case Read(irp, ok) => ReadStepIff(d, irp, ok, acc);
    case Post(msg, ok) => SendStepIff(d, msg, ok, acc);
    case Revoke(irp) => RevokeKeeps(d, irp);
  }

  lemma {:induction false} LegalPrefix(mode: PopMode, calls: seq<Call>, n: nat)
    requires AllLegal(mode, calls) && n <= |calls|
    ensures AllLegal(mode, calls[..n])
    decreases |calls|
  {
    if n == |calls| {
      assert calls[..n] == calls;
    } else {
      LegalPrefix(mode, calls[..|calls| - 1], n);
      assert calls[..|calls| - 1][..n] == calls[..n];
    }
  }

  ghost predicate AlwaysInOrder(mode: PopMode, calls: seq<Call>) {
    forall n :: 0 <= n <= |calls| ==> InOrder(mode, calls[..n])
  }

  ghost predicate AllKeepOrder(mode: PopMode, calls: seq<Call>) {
    forall n :: 0 <= n < |calls| ==> KeepsOrder(PerformAll(mode, calls[..n]), calls[n])
  }

  lemma {:induction false} KeptUpTo(calls: seq<Call>, n: nat)
    requires AllLegal(Exact, calls) && AllKeepOrder(Exact, calls) && n <= |calls|
    ensures InOrder(Exact, calls[..n])
  {
    if n > 0 {
      KeptUpTo(calls, n - 1);
      CallStepIff(calls, n - 1);
    }
  }

  lemma OrderIffExact(calls: seq<Call>)
    requires AllLegal(Exact, calls)
    ensures AlwaysInOrder(Exact, calls) <==> AllKeepOrder(Exact, calls)
  {
    if AllKeepOrder(Exact, calls) {
      forall n | 0 <= n <= |calls| ensures InOrder(Exact, calls[..n]) {
        KeptUpTo(calls, n);
      }
    }
    if AlwaysInOrder(Exact, calls) {
      forall n | 0 <= n < |calls| ensures KeepsOrder(PerformAll(Exact, calls[..n]), calls[n]) {
        assert InOrder(Exact, calls[..n]) && InOrder(Exact, calls[..n + 1]);
        CallStepIff(calls, n);
      }
    }
  }

  lemma SameInBothModes(calls: seq<Call>, n: nat)
    requires AllLegal(Exact, calls) && n <= |calls|
    ensures PerformAll(Literal, calls[..n]) == PerformAll(Exact, calls[..n])
    ensures Accepted(Literal, calls[..n]) == Accepted(Exact, calls[..n])
  {
    LegalPrefix(Exact, calls, n);
    LiteralIsExact(calls[..n]);
    AcceptedModes(calls[..n]);
  }

  lemma {:induction false} AcceptedModes(calls: seq<Call>)
    requires AllLegal(Exact, calls)
    ensures Accepted(Literal, calls) == Accepted(Exact, calls)
  {
    if calls != [] {
      LiteralIsExact(calls[..|calls| - 1]);
      AcceptedModes(calls[..|calls| - 1]);
    }
  }

  /** After every call what was delivered, followed by what is queued, is what was accepted without
      what was given up, exactly when every call finds what it needs to keep the order. */
  lemma OrderIff(mode: PopMode, calls: seq<Call>)
    requires AllLegal(mode, calls)
    ensures AlwaysInOrder(mode, calls) <==> AllKeepOrder(mode, calls)
  {
    LiteralIsExact(calls);
    OrderIffExact(calls);
    forall n | 0 <= n <= |calls|
      ensures PerformAll(Literal, calls[..n]) == PerformAll(Exact, calls[..n])
      ensures InOrder(Literal, calls[..n]) <==> InOrder(Exact, calls[..n])
    {
      SameInBothModes(calls, n);
    }
  }

  // ---- when every message fits every reader

  lemma FitsPrefix(calls: seq<Call>, n: nat)
    requires Fits(calls) && n <= |calls|
    ensures Fits(calls[..n])
  {
    assert forall i :: 0 <= i < n ==> calls[..n][i] == calls[i];
  }

  lemma FittingHead(calls: seq<Call>, n: nat)
    requires AllLegal(Exact, calls) && Fits(calls) && n < |calls|
    ensures var d := PerformAll(Exact, calls[..n]);
            calls[n].Read? && d.dataList != [] ==> d.dataList[0].size <= calls[n].irp.outputLength
    ensures KeepsOrder(PerformAll(Exact, calls[..n]), calls[n])
  {
    var d := PerformAll(Exact, calls[..n]);
    LegalPrefix(Exact, calls, n);
    FitsPrefix(calls, n);
    CallsRefine(calls[..n]);
    if calls[n].Read? && d.dataList != [] {
      assert d.dataList[0] in d.dataList;
      var i :| 0 <= i < n && calls[..n][i].Post? && calls[..n][i].msg == d.dataList[0];
      assert calls[i].msg == d.dataList[0];
    }
  }

  lemma {:induction false} NothingDropped(calls: seq<Call>, n: nat)
    requires AllLegal(Exact, calls) && Fits(calls) && n <= |calls|
    ensures forall f :: f in PerformAll(Exact, calls[..n]).freed ==> f.fate != Dropped
  {
    if n > 0 {
      NothingDropped(calls, n - 1);
      FittingHead(calls, n - 1);
      NeverShutDown(Exact, calls[..n - 1]);
      assert calls[..n][..n - 1] == calls[..n - 1];
      NoDropStep(PerformAll(Exact, calls[..n - 1]), calls[n - 1]);
    }
  }

  lemma NoDropStep(d: Driver, c: Call)
    requires d.up && forall f :: f in d.freed ==> f.fate != Dropped
    requires c.Read? && d.dataList != [] ==> d.dataList[0].size <= c.irp.outputLength
    ensures forall f :: f in Perform(Exact, d, c).freed ==> f.fate != Dropped
  {
  }

  /** First in, first out, when every message fits every reader: nothing is given up but by
      eviction, and readers and messages never wait at the same time. */
  lemma Fifo(mode: PopMode, calls: seq<Call>)
    requires AllLegal(mode, calls) && Fits(calls)
    ensures var d := PerformAll(mode, calls);
            && DeliveredMsgs(d.deliveries) + d.dataList == Minus(Accepted(mode, calls), EvictedMsgs(d))
            && (d.irpList == [] || d.dataList == [])
            && |d.dataList| <= 1024
  {
    LiteralIsExact(calls);
    CallsRefine(calls);
    forall n | 0 <= n < |calls| ensures KeepsOrder(PerformAll(Exact, calls[..n]), calls[n]) {
      FittingHead(calls, n);
    }
    assert calls[..|calls|] == calls;
    KeptUpTo(calls, |calls|);
    NothingDropped(calls, |calls|);
    SameInBothModes(calls, |calls|);
    assert GoneMsgs(PerformAll(Exact, calls)) == EvictedMsgs(PerformAll(Exact, calls));
  }

  /** The same of the reference channel. */
  lemma FifoReference(calls: seq<Call>)
    requires AllLegal(Exact, calls) && Fits(calls)
    ensures var b := StepAll(calls);
            Minus(Accepted(Exact, calls), b.evicted) == DeliveredMsgs(b.delivered) + b.queued
  {
    CallsRefine(calls);
    Fifo(Exact, calls);
  }
}
