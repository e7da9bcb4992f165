/** Runs of the code as written that do not keep what one might expect of the channel. */
module ChannelExamples {
  import opened Channel
  import opened ChannelDelivery
  import Calls = AtomicCalls
  import opened BoundedChannel
  import opened MessageOrder

  const FIRST := Irp(0, 4096)
  const SECOND := Irp(1, 4096)
  const SMALL := Irp(0, 4)
  const OLD := Msg(0, 10)
  const NEW := Msg(1, 10)

  lemma Extend(path: seq<State>, acts: seq<Action>, a: Action) returns (path': seq<State>, acts': seq<Action>)
    requires Run(Literal, path, acts) && Enabled(path[|acts|], a)
    ensures Run(Literal, path', acts') && path'[|acts'|] == Do(Literal, path[|acts|], a)
  {
    var s := path[|acts|];
    Calls.More(Literal, INITIAL, path, acts, s, a, Do(Literal, s, a));
    path', acts' := path + [Do(Literal, s, a)], acts + [a];
  }

  /** Two readers wait; a sender pops the first, and before it takes the cancel routine away a
      cancel of that request does, pops and misses. */
  lemma CancelInsideSend() returns (path: seq<State>, acts: seq<Action>)
    ensures Run(Literal, path, acts)
    ensures var s := path[|acts|];
            && s.d.completions == [Completion(FIRST, Cancelled)]
            && s.d.armed == {SECOND}
            && s.d.danglingNodes == {SECOND}
            && 2 in s.threads && s.threads[2] == SendExchange(OLD, FIRST)
  {
    path, acts := Calls.DispatchIsRun(Literal, INITIAL, 0, FIRST, true);
    var p, a := Calls.DispatchIsRun(Literal, path[|acts|], 1, SECOND, true);
    PathConcat(Literal, path, acts, p, a);
    path, acts := path + p[1..], acts + a;
    path, acts := Extend(path, acts, StartSend(2, OLD));
    path, acts := Extend(path, acts, Advance(2, true));
    var s := path[|acts|];
    assert s.d.irpList == [SECOND] && s.d.armed == {FIRST, SECOND};
    p, a := Calls.CancelIsRun(Literal, s, 3, FIRST);
    PathConcat(Literal, path, acts, p, a);
    path, acts := path + p[1..], acts + a;
    assert path[|acts|].d.armed == {SECOND};
  }

  /** The literal Pop(buffer) lets a request be completed twice. */
  lemma CompletedTwice() returns (path: seq<State>, acts: seq<Action>)
    ensures Run(Literal, path, acts)
    ensures path[|acts|].d.completions == [Completion(FIRST, Cancelled), Completion(FIRST, Cancelled)]
  {
    path, acts := CancelInsideSend();
    path, acts := Extend(path, acts, Advance(2, true));
    path, acts := Extend(path, acts, Advance(2, true));
  }

  lemma SendBetween() returns (path: seq<State>, acts: seq<Action>)
    ensures Run(Literal, path, acts)
    ensures var s := path[|acts|];
            && s.threads.Keys == {0, 1} && s.threads[0] == DispPend(FIRST) && s.threads[1].Returned?
            && !s.cancelLock.Some?
            && s.d.irpList == [] && s.d.dataList == [OLD] && s.d.cancelFlag == {}
  {
    path, acts := [INITIAL], [];
    path, acts := Extend(path, acts, StartDispatch(0, FIRST));
    path, acts := Extend(path, acts, Advance(0, true));
    var p, a := Calls.SendIsRun(Literal, path[|acts|], 1, OLD, true);
    PathConcat(Literal, path, acts, p, a);
    path, acts := path + p[1..], acts + a;
  }

  /** A dispatcher that found no message and a sender that found no request can leave both
      waiting, with no call in flight. */
  lemma BothWait() returns (path: seq<State>, acts: seq<Action>)
    ensures Run(Literal, path, acts) && Quiescent(path[|acts|])
    ensures path[|acts|].d.irpList == [FIRST] && path[|acts|].d.dataList == [OLD]
  {
    path, acts := SendBetween();
    path, acts := Extend(path, acts, Advance(0, true));
    path, acts := FinishPending(path, acts);
  }

  lemma FinishPending(path0: seq<State>, acts0: seq<Action>) returns (path: seq<State>, acts: seq<Action>)
    requires Run(Literal, path0, acts0)
    requires var s := path0[|acts0|];
             && 0 in s.threads && s.threads[0] == DispTest(FIRST) && FIRST !in s.d.cancelFlag && s.d.irpList == []
             && forall t :: t in s.threads && t != 0 ==> s.threads[t].Returned?
    ensures Run(Literal, path, acts) && Quiescent(path[|acts|])
    ensures path[|acts|].d.irpList == [FIRST] && path[|acts|].d.dataList == path0[|acts0|].d.dataList
  {
    path, acts := Extend(path0, acts0, Advance(0, true));
    path, acts := Extend(path, acts, Advance(0, true));
    path, acts := Extend(path, acts, Advance(0, true));
  }

  const READERS := [Read(SMALL, true), Read(SECOND, true)]
  const PASSED := READERS + [Post(OLD, true)]
  const OVERTAKING := PASSED + [Post(NEW, true)]

  lemma ReadersWait()
    ensures AllLegal(Literal, READERS) && Accepted(Literal, READERS) == []
    ensures var d := PerformAll(Literal, READERS);
            && d.up && d.irpList == [SMALL, SECOND] && d.armed == {SMALL, SECOND}
            && d.dataList == [] && d.deliveries == [] && d.freed == [] && d.sent == {}
  {
    var one := READERS[..1];
    assert one[..0] == [] && one == [Read(SMALL, true)];
    assert PerformAll(Literal, one) == Perform(Literal, INITIAL_DRIVER, Read(SMALL, true));
    assert PerformAll(Literal, one).irpList == [SMALL] && PerformAll(Literal, one).submitted == {SMALL};
    assert Accepted(Literal, one) == Accepted(Literal, []) == [];
    assert READERS[..1] == one && READERS[1] == Read(SECOND, true);
    assert PerformAll(Literal, READERS) == Perform(Literal, PerformAll(Literal, one), Read(SECOND, true));
  }

  lemma FirstIsPassedOver()
    ensures AllLegal(Literal, PASSED) && Accepted(Literal, PASSED) == [OLD]
    ensures var d := PerformAll(Literal, PASSED);
            && d.up && d.irpList == [SECOND] && SECOND in d.armed
            && d.dataList == [OLD] && d.deliveries == [] && d.freed == [] && d.sent == {OLD}
  {
    ReadersWait();
    assert PASSED[..2] == READERS;
    assert PerformAll(Literal, PASSED) == Perform(Literal, PerformAll(Literal, READERS), Post(OLD, true));
  }

  /** No reader meets a queued message, no message is given up, and yet the second message is
      delivered while the first one is queued. */
  lemma SenderOvertakes()
    ensures AllLegal(Literal, OVERTAKING) && Accepted(Literal, OVERTAKING) == [OLD, NEW]
    ensures var d := PerformAll(Literal, OVERTAKING);
            d.deliveries == [Delivery(SECOND, NEW)] && d.dataList == [OLD] && d.freed == [Freed(NEW, Delivered)]
    ensures !InOrder(Literal, OVERTAKING)
  {
    FirstIsPassedOver();
    assert OVERTAKING[..3] == PASSED;
    var d0, d := PerformAll(Literal, PASSED), PerformAll(Literal, OVERTAKING);
    assert d == Perform(Literal, d0, Post(NEW, true));
    assert NEW !in d0.sent && d.deliveries == [Delivery(SECOND, NEW)];
    assert Accepted(Literal, OVERTAKING) == [OLD] + [NEW];
    OvertakenIsOutOfOrder(d);
  }

  lemma OvertakenIsOutOfOrder(d: Driver)
    requires d.deliveries == [Delivery(SECOND, NEW)] && d.freed == [Freed(NEW, Delivered)]
    ensures Line(d) != Minus([OLD, NEW], GoneMsgs(d))
  {
    assert DeliveredMsgs(d.deliveries) == [NEW] && Line(d)[0] == NEW;
    assert GoneMsgs(d) == {};
    KeptWhole();
  }

  const QUEUED := [Post(OLD, true), Post(NEW, true)]
  const SENT_BACK := QUEUED + [Read(SMALL, true)]

  lemma BothQueued()
    ensures AllLegal(Literal, QUEUED) && Accepted(Literal, QUEUED) == [OLD, NEW]
    ensures var d := PerformAll(Literal, QUEUED);
            && d.up && d.dataList == [OLD, NEW] && d.deliveries == [] && d.freed == [] && d.submitted == {}
  {
    var one := QUEUED[..1];
    assert one[..0] == [] && one == [Post(OLD, true)];
    assert PerformAll(Literal, one) == Perform(Literal, INITIAL_DRIVER, Post(OLD, true));
    assert PerformAll(Literal, one).dataList == [OLD] && PerformAll(Literal, one).sent == {OLD};
    assert Accepted(Literal, one) == [] + [OLD];
    assert PerformAll(Literal, QUEUED) == Perform(Literal, PerformAll(Literal, one), Post(NEW, true));
    assert Accepted(Literal, QUEUED) == [OLD] + [NEW];
  }

  /** A reader that is too small for the older message puts it behind the newer one. */
  lemma ReaderReorders()
    ensures AllLegal(Literal, SENT_BACK) && Accepted(Literal, SENT_BACK) == [OLD, NEW]
    ensures PerformAll(Literal, SENT_BACK).dataList == [NEW, OLD]
    ensures !InOrder(Literal, SENT_BACK)
  {
    BothQueued();
    assert SENT_BACK[..2] == QUEUED;
    var d := PerformAll(Literal, SENT_BACK);
    assert d == Perform(Literal, PerformAll(Literal, QUEUED), Read(SMALL, true));
    assert d.deliveries == [] && d.freed == [] && d.dataList == [NEW] + [OLD];
    assert GoneMsgs(d) == {} && Line(d)[0] == NEW;
    KeptWhole();
  }

  lemma KeptWhole()
    ensures Minus([OLD, NEW], {}) == [OLD, NEW]
  {
    MinusSnoc([OLD], {}, NEW);
    MinusSnoc([], {}, OLD);
    assert [OLD] + [NEW] == [OLD, NEW] && [] + [OLD] == [OLD];
  }
}
