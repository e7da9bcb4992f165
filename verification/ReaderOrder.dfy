/** Readers are served first come, first served, by calls that do not overlap. */
module ReaderOrder {
  import opened Common
  import opened Channel
  import opened Ledgers
  import opened ChannelLedgers
  import opened BoundedChannel
  import opened MessageOrder
  import opened CallOutcomes

  /** The requests that call c completes in d. */
  function Ended(d: Driver, c: Call): seq<Irp> {
    var d' := Perform(Exact, d, c);
    if |d.completions| <= |d'.completions| then CompletedIrps(d'.completions[|d.completions|..]) else []
  }

  /** The request that call c parks in d, if it does: nothing is queued for it, it was not cancelled, and
      there is memory. */
  function NewlyParked(d: Driver, c: Call): seq<Irp> {
    if c.Read? && c.allocOk && d.dataList == [] && c.irp !in d.cancelFlag then [c.irp] else []
  }

  /** The requests parked, in the order of their calls. */
  function Parked(calls: seq<Call>): seq<Irp> {
    if calls == [] then []
    else
      var before := calls[..|calls| - 1];
      Parked(before) + NewlyParked(PerformAll(Exact, before), calls[|calls| - 1])
  }

  function NewlyServed(d: Driver, c: Call): seq<Irp> {
    if c.Post? then Ended(d, c) else []
  }

  /** The requests that senders ended, in that order. */
  function Served(calls: seq<Call>): seq<Irp> {
    if calls == [] then []
    else
      var before := calls[..|calls| - 1];
      Served(before) + NewlyServed(PerformAll(Exact, before), calls[|calls| - 1])
  }

  function NewlyWithdrawn(d: Driver, c: Call): set<Irp> {
    if c.Revoke? then set irp | irp in Ended(d, c) else {}
  }

  /** The requests that cancels ended. */
  function Withdrawn(calls: seq<Call>): set<Irp> {
    if calls == [] then {}
    else
      var before := calls[..|calls| - 1];
      Withdrawn(before) + NewlyWithdrawn(PerformAll(Exact, before), calls[|calls| - 1])
  }

  lemma OneMoreCall(before: seq<Call>, c: Call)
    ensures var (calls, d) := (before + [c], PerformAll(Exact, before));
            && PerformAll(Exact, calls) == Perform(Exact, d, c)
            && Parked(calls) == Parked(before) + NewlyParked(d, c)
            && Served(calls) == Served(before) + NewlyServed(d, c)
            && Withdrawn(calls) == Withdrawn(before) + NewlyWithdrawn(d, c)
  {
    assert (before + [c])[..|before|] == before;
  }

  lemma NewOnes(d: Driver, c: Call, cs: seq<Completion>)
    requires Perform(Exact, d, c).completions == d.completions + cs
    ensures Ended(d, c) == CompletedIrps(cs)
  {
    assert (d.completions + cs)[|d.completions|..] == cs;
  }

  lemma OneEnded(c: Completion)
    ensures CompletedIrps([c]) == [c.irp] && CompletedIrps([]) == []
  {
  }

  lemma CompletedAppend(a: seq<Completion>, b: seq<Completion>)
    ensures CompletedIrps(a + b) == CompletedIrps(a) + CompletedIrps(b)
  {
  }

  lemma GrowsBy(d: Driver, c: Call)
    requires d.up
    ensures d.completions <= Perform(Exact, d, c).completions
  {
  }

  /** What is served or withdrawn is completed. */
  lemma {:induction false} GoneAreCompleted(calls: seq<Call>)
    requires AllLegal(Exact, calls)
    ensures forall irp :: irp in Served(calls) || irp in Withdrawn(calls) ==>
              irp in CompletedIrps(PerformAll(Exact, calls).completions)
  {
    if calls != [] {
      var before, c := calls[..|calls| - 1], calls[|calls| - 1];
      var d := PerformAll(Exact, before);
      assert calls == before + [c];
      OneMoreCall(before, c);
      GoneAreCompleted(before);
      NeverShutDown(Exact, before);
      GrowsBy(d, c);
      var more := Perform(Exact, d, c).completions[|d.completions|..];
      CompletedAppend(d.completions, more);
      assert Perform(Exact, d, c).completions == d.completions + more;
    }
  }

  /** Parked requests are all different, and none of them is completed. */
  lemma WaitingApart(calls: seq<Call>)
    requires AllLegal(Exact, calls)
    ensures var d := PerformAll(Exact, calls);
            && NoDup(d.irpList)
            && (forall irp :: irp in d.irpList ==> irp !in CompletedIrps(d.completions))
            && (forall irp :: irp in CompletedIrps(d.completions) || irp in d.irpList ==> irp in d.submitted)
  {
    var path, acts := CallsAreRun(calls);
    var s := path[|acts|];
    assert IrpLedger(s).queue == s.d.irpList && IrpLedger(s).finished == CompletedIrps(s.d.completions);
  }

  lemma Around<T>(q: seq<T>, k: nat)
    requires k < |q|
    ensures q == q[..k] + [q[k]] + q[k + 1..]
  {
  }

  lemma MinusLast<T>(q: seq<T>, out: set<T>, x: T)
    requires x !in out
    ensures Minus(q + [x], out) == Minus(q, out) + [x]
  {
    assert (q + [x])[..|q|] == q;
  }

  /** What a call does to those who wait, and to the records of them. */
  lemma ReadMoves(d: Driver, irp: Irp, ok: bool)
    requires d.up && irp !in d.armed
    ensures var c := Read(irp, ok);
            && Perform(Exact, d, c).irpList == d.irpList + NewlyParked(d, c)
            && NewlyServed(d, c) == [] && NewlyWithdrawn(d, c) == {}
  {
    if d.dataList != [] {
      DispatchWithMessage(d, irp, ok);
    } else {
      DispatchWithout(d, irp, ok);
    }
  }

  lemma PostMoves(d: Driver, msg: Msg, ok: bool)
    requires d.up
    ensures var c := Post(msg, ok);
            && d.irpList == NewlyServed(d, c) + Perform(Exact, d, c).irpList
            && NewlyParked(d, c) == [] && NewlyWithdrawn(d, c) == {}
  {
    var c := Post(msg, ok);
    var d' := Perform(Exact, d, c);
    SendEnds(d, msg, ok);
    if d.irpList == [] {
      NewOnes(d, c, []);
    } else {
      var x := d'.completions[|d.completions|];
      NewOnes(d, c, [x]);
      OneEnded(x);
    }
  }

  lemma RevokeMoves(d: Driver, irp: Irp)
    requires d.up && (irp in d.armed <==> irp in d.irpList)
    ensures var c := Revoke(irp);
            && NewlyParked(d, c) == [] && NewlyServed(d, c) == []
            && (if irp in d.irpList
                then NewlyWithdrawn(d, c) == {irp} && Perform(Exact, d, c).irpList == Without(d.irpList, irp)
                else NewlyWithdrawn(d, c) == {} && Perform(Exact, d, c).irpList == d.irpList)
  {
    var c := Revoke(irp);
    CancelEnds(d, irp);
    OneEnded(Completion(irp, Cancelled));
    NewOnes(d, c, if irp in d.irpList then [Completion(irp, Cancelled)] else []);
  }

  /** The waiters and the records before a call. */
  ghost predicate InLine(served: seq<Irp>, q: seq<Irp>, parked: seq<Irp>, withdrawn: set<Irp>) {
    served + q == Minus(parked, withdrawn)
  }

  lemma ParkInLine(served: seq<Irp>, q: seq<Irp>, parked: seq<Irp>, withdrawn: set<Irp>, more: seq<Irp>)
    requires InLine(served, q, parked, withdrawn) && |more| <= 1 && forall irp :: irp in more ==> irp !in withdrawn
    ensures InLine(served, q + more, parked + more, withdrawn)
  {
    if more == [] {
      assert q + more == q && parked + more == parked;
    } else {
      assert more == [more[0]] && more[0] in more;
      MinusLast(parked, withdrawn, more[0]);
      assert served + (q + more) == (served + q) + more;
    }
  }

  lemma OnlyAt<T(!new)>(q: seq<T>, k: nat)
    requires k < |q| && NoDup(q)
    ensures q[k] !in q[..k] && q[k] !in q[k + 1..]
  {
  }

  lemma Regroup<T>(served: seq<T>, q: seq<T>, k: nat)
    requires k < |q|
    ensures served + q == (served + q[..k]) + [q[k]] + q[k + 1..]
    ensures served + (q[..k] + q[k + 1..]) == (served + q[..k]) + q[k + 1..]
  {
    Around(q, k);
  }

  lemma WithdrawInLine(served: seq<Irp>, q: seq<Irp>, parked: seq<Irp>, withdrawn: set<Irp>, irp: Irp)
    requires InLine(served, q, parked, withdrawn) && irp in q && irp !in served && NoDup(q)
    ensures InLine(served, Without(q, irp), parked, withdrawn + {irp})
  {
    var k := FirstIndex(q, irp);
    OnlyAt(q, k);
    Regroup(served, q, k);
    MinusOne(parked, withdrawn, irp, served + q[..k], q[k + 1..]);
  }

  lemma ServeInLine(served: seq<Irp>, q: seq<Irp>, parked: seq<Irp>, withdrawn: set<Irp>,
                    more: seq<Irp>, rest: seq<Irp>)
    requires InLine(served, q, parked, withdrawn) && q == more + rest
    ensures InLine(served + more, rest, parked, withdrawn)
  {
    assert (served + more) + rest == served + (more + rest);
  }

  ghost predicate AllInLine(calls: seq<Call>) {
    InLine(Served(calls), PerformAll(Exact, calls).irpList, Parked(calls), Withdrawn(calls))
  }

  lemma ReadInLine(before: seq<Call>, irp: Irp, ok: bool)
    requires AllLegal(Exact, before) && Legal(PerformAll(Exact, before), Read(irp, ok)) && AllInLine(before)
    ensures AllInLine(before + [Read(irp, ok)])
  {
    var c, d := Read(irp, ok), PerformAll(Exact, before);
    OneMoreCall(before, c);
    NeverShutDown(Exact, before);
    CallsSettle(before);
    NotYetKnown(before, irp);
    ReadMoves(d, irp, ok);
    ParkInLine(Served(before), d.irpList, Parked(before), Withdrawn(before), NewlyParked(d, c));
    assert Served(before) + [] == Served(before) && Withdrawn(before) + {} == Withdrawn(before);
  }

  lemma NotYetKnown(before: seq<Call>, irp: Irp)
    requires AllLegal(Exact, before) && irp !in PerformAll(Exact, before).submitted
    ensures irp !in PerformAll(Exact, before).irpList && irp !in Withdrawn(before)
  {
    GoneAreCompleted(before);
    WaitingApart(before);
  }

  lemma PostInLine(before: seq<Call>, msg: Msg, ok: bool)
    requires AllLegal(Exact, before) && AllInLine(before)
    ensures AllInLine(before + [Post(msg, ok)])
  {
    var c, d := Post(msg, ok), PerformAll(Exact, before);
    OneMoreCall(before, c);
    NeverShutDown(Exact, before);
    PostMoves(d, msg, ok);
    ServeInLine(Served(before), d.irpList, Parked(before), Withdrawn(before),
                NewlyServed(d, c), Perform(Exact, d, c).irpList);
    assert Parked(before) + [] == Parked(before) && Withdrawn(before) + {} == Withdrawn(before);
  }

  lemma RevokeInLine(before: seq<Call>, irp: Irp)
    requires AllLegal(Exact, before) && AllInLine(before)
    ensures AllInLine(before + [Revoke(irp)])
  {
    var c, d := Revoke(irp), PerformAll(Exact, before);
    OneMoreCall(before, c);
    NeverShutDown(Exact, before);
    CallsSettle(before);
    RevokeMoves(d, irp);
    assert Parked(before) + [] == Parked(before) && Served(before) + [] == Served(before);
    if irp in d.irpList {
      GoneAreCompleted(before);
      WaitingApart(before);
      WithdrawInLine(Served(before), d.irpList, Parked(before), Withdrawn(before), irp);
    } else {
      assert Withdrawn(before) + {} == Withdrawn(before);
    }
  }

  lemma {:induction false} FirstComeExact(calls: seq<Call>)
    requires AllLegal(Exact, calls)
    ensures AllInLine(calls)
  {
    if calls != [] {
      var before, c := calls[..|calls| - 1], calls[|calls| - 1];
      FirstComeExact(before);
      assert calls == before + [c];
      match c
      case Read(irp, ok) => ReadInLine(before, irp, ok);
      case Post(msg, ok) => PostInLine(before, msg, ok);
      case Revoke(irp) => RevokeInLine(before, irp);
    }
  }

  /** The requests that senders ended, in that order, and after them those that wait still, are the
      parked ones in the order of their calls, without those that were cancelled. */
  lemma FirstComeFirstServed(mode: PopMode, calls: seq<Call>)
    requires AllLegal(mode, calls)
    ensures Served(calls) + PerformAll(mode, calls).irpList == Minus(Parked(calls), Withdrawn(calls))
  {
    LiteralIsExact(calls);
    FirstComeExact(calls);
  }
}
