/** The driver's inverted-call channel (src/drv/ioctl.cc), one atomic step per lock region,
    interlocked exchange, request completion or buffer release.

    Any number of Dispatcher, SendMessage and IoCancelIrp calls interleave.  A thread id names
    one call; it stays in `threads` after the call has returned.  Requests (IRPs) and messages
    are identified by the allocation they come from, so an id is never reused. */
module Channel {
  import opened Common

  const MAX_DATA_LIST_SIZE: nat := 1024

  datatype Irp = Irp(id: nat, outputLength: nat)
  datatype Msg = Msg(id: nat, size: nat)

  datatype Status = Success | BufferTooSmall | Cancelled | NoMemory | DeviceNotReady | Pending
  datatype Completion = Completion(irp: Irp, status: Status)

  /** Why the memory of a message was released. */
  datatype Fate = Delivered | Evicted | Dropped | Refused | Cleared
  datatype Freed = Freed(msg: Msg, fate: Fate)
  datatype Delivery = Delivery(irp: Irp, msg: Msg)

  /** What SafeList::Pop(buffer) does when the buffer is not in a non-empty list: `Literal` is
      the code as written, which deletes the last node visited and returns its buffer; `Exact`
      returns null and leaves the list alone. */
  datatype PopMode = Literal | Exact

  /** The shared state, with the logs of everything that happened to requests and messages. */
  datatype Driver = Driver(
    up: bool,                    // ioctl_ctx_ is not null
    irpList: seq<Irp>,
    dataList: seq<Msg>,
    cancelFlag: set<Irp>,        // irp->Cancel
    armed: set<Irp>,             // the cancel routine is set
    danglingNodes: set<Irp>,     // linked in irpList although their node was deleted
    submitted: set<Irp>,
    sent: set<Msg>,
    completions: seq<Completion>,
    deliveries: seq<Delivery>,
    freed: seq<Freed>)

  datatype Outcome =
    | Dispatched(irp: Irp, status: Status)
    | SendReturned(msg: Msg, accepted: bool)
    | CancelReturned

  /** Where a call stands: the constructor is the step it takes next. */
  datatype Pc =
    // Dispatcher, CompleteIrpRoutine, PendingIrpRoutine
    | DispPop(irp: Irp)
    | DispCopy(irp: Irp, msg: Msg)
    | DispFree(irp: Irp, msg: Msg)
    | DispRepush(irp: Irp, msg: Msg)
    | DispDrop(irp: Irp, msg: Msg)
    | DispPend(irp: Irp)
    | DispTest(irp: Irp)
    | DispAbort(irp: Irp)
    | DispCancelled(irp: Irp)
    | DispPush(irp: Irp)
    | DispUnlock(irp: Irp)
    | DispDisarm(irp: Irp)
    | DispRelease(irp: Irp)
    | DispNoMemory(irp: Irp)
    // SendMessage, and the caller that releases a refused message
    | SendPop(msg: Msg)
    | SendExchange(msg: Msg, irp: Irp)
    | SendCancel(msg: Msg, irp: Irp)
    | SendCopy(msg: Msg, irp: Irp)
    | SendFree(msg: Msg)
    | SendSize(msg: Msg)
    | SendEvict(msg: Msg)
    | SendDrop(msg: Msg, oldest: Msg)
    | SendPush(msg: Msg)
    | SendRefuse(msg: Msg)
    // IoCancelIrp and NotifyIrpCancelRoutine
    | CancelStart(irp: Irp)
    | CancelMark(irp: Irp)
    | CancelExchange(irp: Irp)
    | CancelRelease(irp: Irp)
    | CancelGiveUp(irp: Irp)
    | CancelPop(irp: Irp)
    | CancelComplete(irp: Irp)
    | Returned(outcome: Outcome)

  datatype State = State(d: Driver, threads: map<nat, Pc>, cancelLock: Option<nat>)

  datatype Action =
    | StartDispatch(t: nat, irp: Irp)
    | StartSend(t: nat, msg: Msg)
    | StartCancel(t: nat, irp: Irp)
    | Advance(t: nat, allocOk: bool)
    | Finalize

  const INITIAL_DRIVER := Driver(true, [], [], {}, {}, {}, {}, {}, [], [], [])
  const INITIAL := State(INITIAL_DRIVER, map[], None)

  predicate HoldsLock(pc: Pc) {
    pc.DispTest? || pc.DispAbort? || pc.DispPush? || pc.DispUnlock? || pc.DispDisarm?
    || pc.DispRelease? || pc.CancelMark? || pc.CancelExchange? || pc.CancelRelease? || pc.CancelGiveUp?
  }

  predicate Quiescent(s: State) {
    forall t :: t in s.threads ==> s.threads[t].Returned?
  }

  predicate Enabled(s: State, a: Action) {
    match a
    case StartDispatch(t, irp) => t !in s.threads && irp !in s.d.submitted
    case StartSend(t, msg) => t !in s.threads && msg !in s.d.sent
    case StartCancel(t, irp) => t !in s.threads && irp in s.d.submitted
    case Advance(t, _) =>
      && t in s.threads
      && !s.threads[t].Returned?
      && (s.threads[t].DispPend? || s.threads[t].CancelStart? ==> s.cancelLock == None)
    case Finalize => s.d.up && Quiescent(s)
  }

  // ---- updates of the shared state

  function Complete(d: Driver, irp: Irp, status: Status): Driver {
    d.(completions := d.completions + [Completion(irp, status)])
  }

  function Free(d: Driver, msg: Msg, fate: Fate): Driver {
    d.(freed := d.freed + [Freed(msg, fate)])
  }

  /** CompleteIrpWithPendingData. */
  function CopyOut(d: Driver, irp: Irp, msg: Msg): Driver {
    if irp.outputLength < msg.size then
      Complete(d, irp, BufferTooSmall)
    else
      Complete(d.(deliveries := d.deliveries + [Delivery(irp, msg)]), irp, Success)
  }

  function CompleteAll(d: Driver, irps: seq<Irp>): Driver
    decreases |irps|
  {
    if irps == [] then d else CompleteAll(Complete(d, irps[0], Cancelled), irps[1..])
  }

  function FreeAll(d: Driver, msgs: seq<Msg>): Driver
    decreases |msgs|
  {
    if msgs == [] then d else FreeAll(Free(d, msgs[0], Cleared), msgs[1..])
  }

  /** finalize: data_list is destroyed before irp_list, each by SafeList::Clear. */
  function Shutdown(d: Driver): Driver {
    CompleteAll(FreeAll(d, d.dataList), d.irpList).(dataList := [], irpList := [], up := false)
  }

  // ---- the steps

  function Go(s: State, d: Driver, t: nat, pc: Pc): State {
    State(d, s.threads[t := pc], s.cancelLock)
  }

  function GoLock(s: State, d: Driver, t: nat, pc: Pc): State {
    State(d, s.threads[t := pc], Some(t))
  }

  function GoUnlock(s: State, d: Driver, t: nat, pc: Pc): State {
    State(d, s.threads[t := pc], None)
  }

  function DispatchStep(s: State, t: nat, ok: bool): State
    requires t in s.threads
  {
    var d := s.d;
    match s.threads[t]
    case DispPop(irp) =>
      if !d.up then
        Go(s, Complete(d, irp, DeviceNotReady), t, Returned(Dispatched(irp, DeviceNotReady)))
      else if d.dataList != [] then
        Go(s, d.(dataList := d.dataList[1..]), t, DispCopy(irp, d.dataList[0]))
      else
        Go(s, d, t, DispPend(irp))
    case DispCopy(irp, msg) =>
      Go(s, CopyOut(d, irp, msg), t,
         if irp.outputLength < msg.size then DispRepush(irp, msg) else DispFree(irp, msg))
    case DispFree(irp, msg) =>
      Go(s, Free(d, msg, Delivered), t, Returned(Dispatched(irp, Success)))
    case DispRepush(irp, msg) =>
      if ok then Go(s, d.(dataList := d.dataList + [msg]), t, Returned(Dispatched(irp, BufferTooSmall)))
      else Go(s, d, t, DispDrop(irp, msg))
    case DispDrop(irp, msg) =>
      Go(s, Free(d, msg, Dropped), t, Returned(Dispatched(irp, BufferTooSmall)))
    case DispPend(irp) => GoLock(s, d, t, DispTest(irp))
    case DispTest(irp) =>
      if irp in d.cancelFlag then Go(s, d, t, DispAbort(irp))
      else Go(s, d.(armed := d.armed + {irp}), t, DispPush(irp))
    case DispAbort(irp) => GoUnlock(s, d, t, DispCancelled(irp))
    case DispCancelled(irp) =>
      Go(s, Complete(d, irp, Cancelled), t, Returned(Dispatched(irp, Pending)))
    case DispPush(irp) =>
      if ok then Go(s, d.(irpList := d.irpList + [irp]), t, DispUnlock(irp))
      else Go(s, d, t, DispDisarm(irp))
    case DispUnlock(irp) => GoUnlock(s, d, t, Returned(Dispatched(irp, Pending)))
    case DispDisarm(irp) => Go(s, d.(armed := d.armed - {irp}), t, DispRelease(irp))
    case DispRelease(irp) => GoUnlock(s, d, t, DispNoMemory(irp))
    case DispNoMemory(irp) =>
      Go(s, Complete(d, irp, NoMemory), t, Returned(Dispatched(irp, Pending)))
    case _ => s
  }

  function SendStep(s: State, t: nat, ok: bool): State
    requires t in s.threads
  {
    var d := s.d;
    match s.threads[t]
    case SendPop(msg) =>
      if !d.up then Go(s, d, t, SendRefuse(msg))
      else if d.irpList != [] then
        Go(s, d.(irpList := d.irpList[1..]), t, SendExchange(msg, d.irpList[0]))
      else Go(s, d, t, SendSize(msg))
    case SendExchange(msg, irp) =>
      Go(s, d.(armed := d.armed - {irp}), t,
         if irp in d.armed then SendCopy(msg, irp) else SendCancel(msg, irp))
    case SendCancel(msg, irp) => Go(s, Complete(d, irp, Cancelled), t, SendSize(msg))
    case SendCopy(msg, irp) =>
      Go(s, CopyOut(d, irp, msg), t,
         if irp.outputLength < msg.size then SendSize(msg) else SendFree(msg))
    case SendFree(msg) => Go(s, Free(d, msg, Delivered), t, Returned(SendReturned(msg, true)))
    case SendSize(msg) =>
      Go(s, d, t, if |d.dataList| >= MAX_DATA_LIST_SIZE then SendEvict(msg) else SendPush(msg))
    case SendEvict(msg) =>
      if d.dataList != [] then
        Go(s, d.(dataList := d.dataList[1..]), t, SendDrop(msg, d.dataList[0]))
      else Go(s, d, t, SendPush(msg))
    case SendDrop(msg, oldest) => Go(s, Free(d, oldest, Evicted), t, SendPush(msg))
    case SendPush(msg) =>
      if ok then Go(s, d.(dataList := d.dataList + [msg]), t, Returned(SendReturned(msg, true)))
      else Go(s, d, t, SendRefuse(msg))
    case SendRefuse(msg) => Go(s, Free(d, msg, Refused), t, Returned(SendReturned(msg, false)))
    case _ => s
  }

  /** A cancel's Pop(buffer) that would not find its request in a list that is not empty. */
  predicate PopMisses(s: State, a: Action) {
    && a.Advance?
    && a.t in s.threads
    && s.threads[a.t].CancelPop?
    && s.d.up
    && s.d.irpList != []
    && s.threads[a.t].irp !in s.d.irpList
  }

  function CancelStep(mode: PopMode, s: State, t: nat): State
    requires t in s.threads
  {
    var d := s.d;
    match s.threads[t]
    case CancelStart(irp) => GoLock(s, d, t, CancelMark(irp))
    case CancelMark(irp) => Go(s, d.(cancelFlag := d.cancelFlag + {irp}), t, CancelExchange(irp))
    case CancelExchange(irp) =>
      Go(s, d.(armed := d.armed - {irp}), t,
         if irp in d.armed then CancelRelease(irp) else CancelGiveUp(irp))
    case CancelGiveUp(irp) => GoUnlock(s, d, t, Returned(CancelReturned))
    case CancelRelease(irp) => GoUnlock(s, d, t, CancelPop(irp))
    case CancelPop(irp) =>
      if !d.up then Go(s, d, t, Returned(CancelReturned))
      else if irp in d.irpList then
        Go(s, d.(irpList := Without(d.irpList, irp)), t, CancelComplete(irp))
      else if d.irpList == [] || mode == Exact then Go(s, d, t, Returned(CancelReturned))
      else
        Go(s, d.(danglingNodes := d.danglingNodes + {d.irpList[|d.irpList| - 1]}), t, CancelComplete(irp))
    case CancelComplete(irp) => Go(s, Complete(d, irp, Cancelled), t, Returned(CancelReturned))
    case _ => s
  }

  predicate IsDispatch(pc: Pc) {
    pc.DispPop? || pc.DispCopy? || pc.DispFree? || pc.DispRepush? || pc.DispDrop? || pc.DispPend?
    || pc.DispTest? || pc.DispAbort? || pc.DispCancelled? || pc.DispPush? || pc.DispUnlock?
    || pc.DispDisarm? || pc.DispRelease? || pc.DispNoMemory?
  }

  predicate IsSend(pc: Pc) {
    pc.SendPop? || pc.SendExchange? || pc.SendCancel? || pc.SendCopy? || pc.SendFree? || pc.SendSize?
    || pc.SendEvict? || pc.SendDrop? || pc.SendPush? || pc.SendRefuse?
  }

  function Do(mode: PopMode, s: State, a: Action): State
    requires Enabled(s, a)
  {
    match a
    case StartDispatch(t, irp) => Go(s, s.d.(submitted := s.d.submitted + {irp}), t, DispPop(irp))
    case StartSend(t, msg) => Go(s, s.d.(sent := s.d.sent + {msg}), t, SendPop(msg))
    case StartCancel(t, irp) => Go(s, s.d, t, CancelStart(irp))
    case Advance(t, ok) =>
      if IsDispatch(s.threads[t]) then DispatchStep(s, t, ok)
      else if IsSend(s.threads[t]) then SendStep(s, t, ok)
      else CancelStep(mode, s, t)
    case Finalize => s.(d := Shutdown(s.d))
  }

  /** The states passed through, and the actions between them. */
  predicate Path(mode: PopMode, states: seq<State>, actions: seq<Action>) {
    && |states| == |actions| + 1
    && forall i :: 0 <= i < |actions| ==>
         Enabled(states[i], actions[i]) && states[i + 1] == Do(mode, states[i], actions[i])
  }

  /** A run of the driver from its start. */
  predicate Run(mode: PopMode, states: seq<State>, actions: seq<Action>) {
    Path(mode, states, actions) && states[0] == INITIAL
  }
}
