/** How each call on its own ends the requests it touches, and what it leaves in the two lists. */
module CallOutcomes {
  import opened Common
  import opened Channel
  import Calls = AtomicCalls

  /** What a Dispatcher call returns says in which case it was. */
  lemma DispatchReturns(d: Driver, irp: Irp, ok: bool)
    ensures var status := Calls.Dispatch(d, irp, ok).1;
            && (status == DeviceNotReady <==> !d.up)
            && (status == Success <==> d.up && d.dataList != [] && d.dataList[0].size <= irp.outputLength)
            && (status == BufferTooSmall <==> d.up && d.dataList != [] && irp.outputLength < d.dataList[0].size)
            && (status == Pending <==> d.up && d.dataList == [])
  {
  }

  /** On a device that is down it completes its own request so, and does nothing else. */
  lemma DispatchWhileDown(d: Driver, irp: Irp, ok: bool)
    requires !d.up
    ensures var (d', status) := Calls.Dispatch(d, irp, ok);
            && status == DeviceNotReady
            && d'.completions == d.completions + [Completion(irp, DeviceNotReady)]
            && d'.irpList == d.irpList && d'.dataList == d.dataList && d'.armed == d.armed
            && d'.deliveries == d.deliveries && d'.freed == d.freed
  {
  }

  /** A call that finds a message completes its own request with what it returns, and no other; the
      message is delivered, put back at the end, or released. */
  lemma DispatchWithMessage(d: Driver, irp: Irp, ok: bool)
    requires d.up && d.dataList != []
    ensures var (d', status) := Calls.Dispatch(d, irp, ok);
            var m, rest := d.dataList[0], d.dataList[1..];
            && d'.completions == d.completions + [Completion(irp, status)]
            && d'.irpList == d.irpList && d'.armed == d.armed
            && (m.size <= irp.outputLength ==>
                  && d'.deliveries == d.deliveries + [Delivery(irp, m)] && d'.dataList == rest
                  && d'.freed == d.freed + [Freed(m, Delivered)])
            && (m.size > irp.outputLength ==>
                  && d'.deliveries == d.deliveries
                  && (ok ==> d'.dataList == rest + [m] && d'.freed == d.freed)
                  && (!ok ==> d'.dataList == rest && d'.freed == d.freed + [Freed(m, Dropped)]))
  {
  }

  /** A call that finds none parks its request at the end of the list, unless it was cancelled, which
      completes it so, or there is no memory, which does too. */
  lemma DispatchWithout(d: Driver, irp: Irp, ok: bool)
    requires d.up && d.dataList == [] && irp !in d.armed
    ensures var (d', status) := Calls.Dispatch(d, irp, ok);
            && status == Pending && d'.dataList == [] && d'.freed == d.freed && d'.deliveries == d.deliveries
            && (irp in d.cancelFlag ==>
                  d'.completions == d.completions + [Completion(irp, Cancelled)] && d'.irpList == d.irpList)
            && (irp !in d.cancelFlag && !ok ==>
                  d'.completions == d.completions + [Completion(irp, NoMemory)] && d'.irpList == d.irpList)
            && (irp !in d.cancelFlag && ok ==>
                  d'.completions == d.completions && d'.irpList == d.irpList + [irp])
            && (irp in d'.armed <==> irp !in d.cancelFlag && ok)
  {
  }

  /** SendMessage returns false exactly when the device is down, or no request takes the message and
      there is no memory for it; the message is then released as refused. */
  lemma SendReturns(d: Driver, msg: Msg, ok: bool)
    ensures var (d', accepted) := Calls.Send(d, msg, ok);
            && (accepted <==>
                  d.up && (ok || (&& d.irpList != [] && d.irpList[0] in d.armed
                                  && msg.size <= d.irpList[0].outputLength)))
            && (!accepted ==> |d'.freed| > |d.freed| && d'.freed[|d'.freed| - 1] == Freed(msg, Refused))
  {
  }

  /** It ends the request that has waited longest, and no other: with success if it takes the message,
      with too-small if the message does not fit, as cancelled if a cancel has come first. */
  lemma SendEnds(d: Driver, msg: Msg, ok: bool)
    requires d.up
    ensures var d' := Calls.Send(d, msg, ok).0;
            && (d.irpList == [] ==> d'.completions == d.completions && d'.irpList == [])
            && (d.irpList != [] ==>
                  var irp := d.irpList[0];
                  && d'.irpList == d.irpList[1..]
                  && d'.completions
                     == d.completions
                        + [Completion(irp, if irp !in d.armed then Cancelled
                                           else if msg.size <= irp.outputLength then Success
                                           else BufferTooSmall)])
  {
  }

  /** A cancel marks its request, and ends it as cancelled exactly when it was armed and parked. */
  lemma CancelEnds(d: Driver, irp: Irp)
    ensures var d' := Calls.Cancel(Exact, d, irp);
            && d'.cancelFlag == d.cancelFlag + {irp}
            && irp !in d'.armed
            && d'.dataList == d.dataList && d'.freed == d.freed && d'.deliveries == d.deliveries
            && (if d.up && irp in d.armed && irp in d.irpList
                then && d'.completions == d.completions + [Completion(irp, Cancelled)]
                     && d'.irpList == Without(d.irpList, irp)
                else d'.completions == d.completions && d'.irpList == d.irpList)
  {
  }
}
