/** src/drv/ioctl.cc on the real lists: each routine, run without overlap, has the effect that
    the atomic calls specify. */
module Ioctls {
  import opened Common
  import opened Channel
  import opened SafeLists
  import Calls = AtomicCalls

  datatype IrpState = PendingIrp | CompleteIrp | ResetIrp

  class Ioctl {
    const irpList: SafeList<Irp>
    const dataList: SafeList<Msg>
    var up: bool                        // ioctl_ctx_ is not null
    var cancelFlag: set<Irp>            // the requests whose Cancel field is set
    var armed: set<Irp>                 // the requests with a cancel routine
    var ioStatus: map<Irp, Status>      // the IoStatus.Status fields
    ghost var submitted: set<Irp>
    ghost var sent: set<Msg>
    ghost var completions: seq<Completion>
    ghost var deliveries: seq<Delivery>
    ghost var freed: seq<Freed>

    /** The lists are in order, but for a node that a cancel may have deleted while it was linked. */
    ghost predicate Linked()
      reads this, irpList, irpList.head, irpList.nodes, dataList, dataList.head, dataList.nodes
    {
      && irpList.Linked() && dataList.Valid()
      && irpList.Repr() !! dataList.Repr()
      && this !in irpList.Repr() && this !in dataList.Repr()
    }

    ghost predicate Valid()
      reads this, irpList, irpList.head, irpList.nodes, dataList, dataList.head, dataList.nodes
    {
      Linked() && irpList.Valid()
    }

    ghost function Abs(): Driver
      reads this, irpList, irpList.head, irpList.nodes, dataList, dataList.head, dataList.nodes
      requires Linked()
    {
      Driver(up, irpList.Contents(), dataList.Contents(), cancelFlag, armed, irpList.dangling,
             submitted, sent, completions, deliveries, freed)
    }

    ghost function Footprint(): set<object>
      reads this, irpList, dataList
    {
      {this} + irpList.Repr() + dataList.Repr()
    }

    constructor ()
      ensures Valid() && Abs() == INITIAL_DRIVER
    {
      irpList := new SafeList();
      dataList := new SafeList();
      up, cancelFlag, armed, ioStatus := true, {}, {}, map[];
      submitted, sent, completions, deliveries, freed := {}, {}, [], [], [];
    }

    method CompleteRequest(irp: Irp, status: Status)
      requires Linked()
      modifies this`ioStatus, this`completions
      ensures Linked() && (Valid() <==> old(Valid())) && Abs() == Complete(old(Abs()), irp, status)
      ensures irp in ioStatus && ioStatus[irp] == status
    {
      ioStatus := ioStatus[irp := status];
      completions := completions + [Completion(irp, status)];
    }

    method CompleteIrpWithPendingData(irp: Irp, msg: Msg) returns (state: IrpState)
      requires Valid()
      modifies this`ioStatus, this`completions, this`deliveries
      ensures Valid() && Abs() == CopyOut(old(Abs()), irp, msg)
      ensures state == if irp.outputLength < msg.size then ResetIrp else CompleteIrp
      ensures irp in ioStatus && ioStatus[irp] == if irp.outputLength < msg.size then BufferTooSmall else Success
    {
      if irp.outputLength < msg.size {
        CompleteRequest(irp, BufferTooSmall);
        return ResetIrp;
      }
      deliveries := deliveries + [Delivery(irp, msg)];
      CompleteRequest(irp, Success);
      return CompleteIrp;
    }

    /** Release of a message; the fate is only for the record. */
    method CleanupPendingData(msg: Msg, ghost fate: Fate)
      requires Valid()
      modifies this`freed
      ensures Valid() && Abs() == Free(old(Abs()), msg, fate)
    {
      freed := freed + [Freed(msg, fate)];
    }

    /** The branch of CompleteIrpRoutine that has popped a message. */
    method Answer(irp: Irp, msg: Msg, allocOk: bool)
      requires Valid()
      modifies Footprint()
      ensures Valid() && fresh(Footprint() - old(Footprint()))
      ensures submitted == old(submitted)
      ensures irp in ioStatus && (Abs(), ioStatus[irp]) == Calls.Answer(old(Abs()), irp, msg, allocOk)
    {
      var s := CompleteIrpWithPendingData(irp, msg);
      if s == CompleteIrp {
        CleanupPendingData(msg, Delivered);
      } else {
        var ok := PushData(msg, allocOk);
        if !ok { CleanupPendingData(msg, Dropped); }
      }
    }

    method CompleteIrpRoutine(irp: Irp, allocOk: bool) returns (state: IrpState)
      requires Valid()
      modifies Footprint()
      ensures Valid() && fresh(Footprint() - old(Footprint())) && submitted == old(submitted)
      ensures state == if !old(up) || old(Abs()).dataList != [] then CompleteIrp else PendingIrp
      ensures state == PendingIrp ==> Abs() == old(Abs()) && up
      ensures state == CompleteIrp ==>
                && irp in ioStatus
                && (Abs().(submitted := submitted + {irp}), ioStatus[irp]) == Calls.Dispatch(old(Abs()), irp, allocOk)
    {
      if !up {
        CompleteRequest(irp, DeviceNotReady);
        return CompleteIrp;
      }
      var popped := PopData();
      if popped.Some? {
        Answer(irp, popped.value, allocOk);
        AnsweredIsDispatched(old(Abs()), irp, allocOk);
        return CompleteIrp;
      }
      return PendingIrp;
    }

    method PendingIrpRoutine(irp: Irp, allocOk: bool)
      requires Valid() && up
      modifies Footprint()
      ensures Valid() && fresh(Footprint() - old(Footprint())) && submitted == old(submitted)
      ensures Abs() == Calls.Park(old(Abs()), irp, allocOk)
    {
      if irp in cancelFlag {
        CompleteRequest(irp, Cancelled);
        return;
      }
      armed := armed + {irp};
      var ok := PushIrp(irp, allocOk);
      if !ok {
        armed := armed - {irp};
        assert armed == old(armed) - {irp};
        CompleteRequest(irp, NoMemory);
      }
    }

    method PushIrp(irp: Irp, allocOk: bool) returns (ok: bool)
      requires Valid()
      modifies irpList.Repr()
      ensures Valid() && fresh(Footprint() - old(Footprint()))
      ensures ok == allocOk
      ensures Abs() == if ok then old(Abs()).(irpList := old(Abs()).irpList + [irp]) else old(Abs())
    {
      ghost var others, before, waiting := dataList.Repr(), irpList.Repr(), irpList.Contents();
      ghost var nodes := dataList.nodes;
      assert forall n :: n in nodes ==> n in others && n !in before;
      ok := irpList.Push(irp, allocOk);
      assert dataList.nodes == nodes && dataList.Repr() == others;
      assert dataList.Valid() && dataList.Contents() == old(dataList.Contents());
      assert irpList.Contents() == if ok then waiting + [irp] else waiting;
    }

    method PendLogged(irp: Irp, allocOk: bool)
      requires Valid() && up && Abs().dataList == []
      modifies Footprint()
      ensures Valid() && fresh(Footprint() - old(Footprint()))
      ensures (Abs(), Pending) == Calls.Dispatch(old(Abs()), irp, allocOk)
    {
      ghost var d := Abs();
      PendingIrpRoutine(irp, allocOk);
      ParkedIsDispatched(d, irp, allocOk);
      submitted := submitted + {irp};
    }

    method Dispatcher(irp: Irp, allocOk: bool) returns (status: Status)
      requires Valid()
      modifies Footprint()
      ensures Valid() && fresh(Footprint() - old(Footprint()))
      ensures (Abs(), status) == Calls.Dispatch(old(Abs()), irp, allocOk)
    {
      ghost var d := Abs();
      var state := CompleteIrpRoutine(irp, allocOk);
      if state == CompleteIrp {
        submitted := submitted + {irp};
        return ioStatus[irp];
      }
      assert Abs() == d;
      PendLogged(irp, allocOk);
      return Pending;
    }

    method PopData() returns (msg: Option<Msg>)
      requires Valid()
      modifies dataList.Repr()
      ensures Valid() && fresh(Footprint() - old(Footprint()))
      ensures var d := old(Abs());
              if d.dataList == [] then msg == None && Abs() == d
              else msg == Some(d.dataList[0]) && Abs() == d.(dataList := d.dataList[1..])
    {
      ghost var others, before := irpList.Repr(), dataList.Repr();
      ghost var nodes := irpList.nodes;
      assert forall n :: n in nodes ==> n in others && n !in before;
      msg := dataList.Pop();
      assert irpList.nodes == nodes && irpList.Repr() == others;
      assert irpList.Valid() && irpList.Contents() == old(irpList.Contents());
    }

    method EvictIfFull()
      requires Valid()
      modifies Footprint()
      ensures Valid() && fresh(Footprint() - old(Footprint()))
      ensures Abs() == Calls.MakeRoom(old(Abs()))
    {
      var n := dataList.Size();
      if n >= MAX_DATA_LIST_SIZE {
        var data := PopData();
        if data.Some? { CleanupPendingData(data.value, Evicted); }
      }
    }

    /** The tail of SendMessage: queue the message, evicting the oldest from a full list. */
    method Enqueue(msg: Msg, allocOk: bool) returns (ok: bool)
      requires Valid()
      modifies Footprint()
      ensures Valid() && fresh(Footprint() - old(Footprint()))
      ensures ok == allocOk
      ensures var d1 := Calls.MakeRoom(old(Abs()));
              Abs() == if ok then d1.(dataList := d1.dataList + [msg]) else d1
    {
      EvictIfFull();
      ok := PushData(msg, allocOk);
    }

    method PushData(msg: Msg, allocOk: bool) returns (ok: bool)
      requires Valid()
      modifies dataList.Repr()
      ensures Valid() && fresh(Footprint() - old(Footprint()))
      ensures ok == allocOk
      ensures Abs() == if ok then old(Abs()).(dataList := old(Abs()).dataList + [msg]) else old(Abs())
    {
      ghost var others, before := irpList.Repr(), dataList.Repr();
      ghost var nodes := irpList.nodes;
      assert forall n :: n in nodes ==> n in others && n !in before;
      ok := dataList.Push(msg, allocOk);
      assert irpList.nodes == nodes && irpList.Repr() == others;
      assert irpList.Valid() && irpList.Contents() == old(irpList.Contents());
    }

    /** The branch of SendMessage that has popped a request; tells whether it took the message. */
    method Offer(irp: Irp, msg: Msg) returns (taken: bool)
      requires Valid()
      modifies this`armed, this`ioStatus, this`completions, this`deliveries, this`freed
      ensures Valid()
      ensures taken == (irp in old(armed) && msg.size <= irp.outputLength)
      ensures var d1 := old(Abs()).(armed := old(armed) - {irp});
              Abs() == if irp !in old(armed) then Complete(d1, irp, Cancelled)
                       else if taken then Free(CopyOut(d1, irp, msg), msg, Delivered)
                       else CopyOut(d1, irp, msg)
    {
      var wasArmed := irp in armed;
      armed := armed - {irp};
      if !wasArmed {
        CompleteRequest(irp, Cancelled);
        return false;
      }
      var s := CompleteIrpWithPendingData(irp, msg);
      if s == CompleteIrp {
        CleanupPendingData(msg, Delivered);
        return true;
      }
      return false;
    }

    /** The first half of SendMessage; tells whether a waiting request took the message. */
    method OfferFirst(msg: Msg) returns (taken: bool)
      requires Valid() && up
      modifies Footprint()
      ensures Valid() && fresh(Footprint() - old(Footprint()))
      ensures var d := old(Abs());
              if d.irpList == [] then !taken && Abs() == d
              else
                var irp, d1 := d.irpList[0], d.(irpList := d.irpList[1..], armed := d.armed - {d.irpList[0]});
                && taken == (irp in d.armed && msg.size <= irp.outputLength)
                && Abs() == if irp !in d.armed then Complete(d1, irp, Cancelled)
                            else if taken then Free(CopyOut(d1, irp, msg), msg, Delivered)
                            else CopyOut(d1, irp, msg)
    {
      var irp := irpList.Pop();
      if irp == None { return false; }
      taken := Offer(irp.value, msg);
    }

    /** SendMessage; a refused message is still the caller's. */
    method SendMessage(msg: Msg, allocOk: bool) returns (accepted: bool)
      requires Valid()
      modifies Footprint()
      ensures Valid() && fresh(Footprint() - old(Footprint()))
      ensures (if accepted then Abs() else Free(Abs(), msg, Refused), accepted)
              == Calls.Send(old(Abs()), msg, allocOk)
    {
      sent := sent + {msg};
      if !up { return false; }
      var taken := OfferFirst(msg);
      if taken { return true; }
      accepted := Enqueue(msg, allocOk);
    }

    /** Pop(buffer) on the list of requests leaves the other list alone. */
    method PopFromIrps(irp: Irp) returns (found: bool)
      requires Valid()
      modifies irpList.Repr()
      ensures Linked() && irpList.Repr() <= old(irpList.Repr()) && dataList.Repr() == old(dataList.Repr())
      ensures dataList.Contents() == old(dataList.Contents())
      ensures found <==> old(irpList.Contents()) != []
      ensures Valid() <==> irpList.dangling == {}
      ensures var q := old(irpList.Contents());
              && irpList.Contents() == (if irp in q then Without(q, irp) else q)
              && irpList.dangling == if irp in q || q == [] then {} else {q[|q| - 1]}
    {
      ghost var others, before := dataList.Repr(), irpList.Repr();
      ghost var nodes := dataList.nodes;
      assert forall n :: n in nodes ==> n in others && n !in before;
      assert before !! others && this !in before;
      var popped := irpList.PopBuffer(irp);
      assert irpList.Linked() && irpList.Repr() <= before;
      assert dataList.nodes == nodes && dataList.Repr() == others;
      assert dataList.Valid();
      assert irpList.Repr() !! others;
      found := popped.Some?;
    }

    /** Pop(buffer) as written: a request that is not found in a list that is not empty costs the
        list its last node. */
    method PopIrp(irp: Irp) returns (found: bool)
      requires Valid()
      modifies irpList.Repr()
      ensures Linked() && fresh(Footprint() - old(Footprint()))
      ensures found <==> old(Abs()).irpList != []
      ensures Valid() <==> Abs().danglingNodes == {}
      ensures var d := old(Abs());
              Abs() == if irp in d.irpList then d.(irpList := Without(d.irpList, irp))
                       else if d.irpList == [] then d
                       else d.(danglingNodes := {d.irpList[|d.irpList| - 1]})
    {
      found := PopFromIrps(irp);
    }

    /** NotifyIrpCancelRoutine, with the Pop(buffer) as written. */
    method NotifyIrpCancelRoutine(irp: Irp)
      requires Valid()
      modifies Footprint()
      ensures Linked() && fresh(Footprint() - old(Footprint()))
      ensures Abs() == Calls.TakeOut(Literal, old(Abs()), irp)
      ensures Valid() <==> Abs().danglingNodes == {}
    {
      if !up { return; }
      var found := PopIrp(irp);
      if !found { return; }
      CompleteRequest(irp, Cancelled);
    }

    /** IoCancelIrp, wherever the request is. */
    method CancelIrp(irp: Irp)
      requires Valid()
      modifies Footprint()
      ensures Linked() && fresh(Footprint() - old(Footprint()))
      ensures Abs() == Calls.Cancel(Literal, old(Abs()), irp)
      ensures Valid() <==> !old(up) || irp !in old(armed) || irp in old(Abs()).irpList || old(Abs()).irpList == []
    {
      cancelFlag := cancelFlag + {irp};
      if irp in armed {
        armed := armed - {irp};
        NotifyIrpCancelRoutine(irp);
      }
    }

    method CleanData(msgs: seq<Msg>)
      requires Valid()
      modifies this`freed
      ensures Valid() && Abs() == FreeAll(old(Abs()), msgs)
    {
      for i := 0 to |msgs|
        invariant Valid() && FreeAll(Abs(), msgs[i..]) == FreeAll(old(Abs()), msgs)
      {
        assert msgs[i..][1..] == msgs[i + 1..];
        CleanupPendingData(msgs[i], Cleared);
      }
    }

    method CleanIrps(irps: seq<Irp>)
      requires Valid()
      modifies this`ioStatus, this`completions
      ensures Valid() && Abs() == CompleteAll(old(Abs()), irps)
    {
      for i := 0 to |irps|
        invariant Valid() && CompleteAll(Abs(), irps[i..]) == CompleteAll(old(Abs()), irps)
      {
        assert irps[i..][1..] == irps[i + 1..];
        CompleteRequest(irps[i], Cancelled);
      }
    }

    method ClearData()
      requires Valid()
      modifies Footprint()
      ensures Valid() && fresh(Footprint() - old(Footprint())) && up == old(up)
      ensures Abs() == FreeAll(old(Abs()), old(Abs()).dataList).(dataList := [])
    {
      var msgs := dataList.Clear();
      CleanData(msgs);
      FreeAllFrame(old(Abs()), msgs);
    }

    method ClearIrps()
      requires Valid()
      modifies Footprint()
      ensures Valid() && fresh(Footprint() - old(Footprint())) && up == old(up)
      ensures Abs() == CompleteAll(old(Abs()), old(Abs()).irpList).(irpList := [])
    {
      var irps := irpList.Clear();
      CleanIrps(irps);
      CompleteAllFrame(old(Abs()), irps);
    }

    /** finalize: the lists are destroyed in the reverse order of their declaration. */
    method Finalize()
      requires Valid()
      modifies Footprint()
      ensures Valid() && fresh(Footprint() - old(Footprint()))
      ensures Abs() == if old(up) then Shutdown(old(Abs())) else old(Abs())
    {
      if !up { return; }
      ghost var d := Abs();
      ClearData();
      ClearIrps();
      FreeAllFrame(d, d.dataList);
      CompleteAllDataFrame(FreeAll(d, d.dataList), d.irpList);
      up := false;
    }
  }

  /** The submission only enters the log, so it does not matter when it does. */
  lemma ParkedIsDispatched(d: Driver, irp: Irp, ok: bool)
    requires d.up && d.dataList == []
    ensures Calls.Dispatch(d, irp, ok) == (Calls.Park(d, irp, ok).(submitted := d.submitted + {irp}), Pending)
  {
  }

  lemma AnsweredIsDispatched(d: Driver, irp: Irp, ok: bool)
    requires d.up && d.dataList != []
    ensures var (d', status) := Calls.Answer(d.(dataList := d.dataList[1..]), irp, d.dataList[0], ok);
            Calls.Dispatch(d, irp, ok) == (d'.(submitted := d.submitted + {irp}), status)
  {
  }

  lemma {:induction false} FreeAllFrame(d: Driver, msgs: seq<Msg>)
    ensures FreeAll(d.(dataList := []), msgs) == FreeAll(d, msgs).(dataList := [])
    ensures FreeAll(d, msgs).irpList == d.irpList
    decreases |msgs|
  {
    if msgs != [] { FreeAllFrame(Free(d, msgs[0], Cleared), msgs[1..]); }
  }

  lemma {:induction false} CompleteAllFrame(d: Driver, irps: seq<Irp>)
    ensures CompleteAll(d.(irpList := []), irps) == CompleteAll(d, irps).(irpList := [])
    decreases |irps|
  {
    if irps != [] { CompleteAllFrame(Complete(d, irps[0], Cancelled), irps[1..]); }
  }

  lemma {:induction false} CompleteAllDataFrame(d: Driver, irps: seq<Irp>)
    ensures CompleteAll(d.(dataList := []), irps) == CompleteAll(d, irps).(dataList := [])
    decreases |irps|
  {
    if irps != [] { CompleteAllDataFrame(Complete(d, irps[0], Cancelled), irps[1..]); }
  }
}
