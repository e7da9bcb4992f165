/** The service's four slots on the driver's channel: every request that ends does so because of what
    the channel does, and so the channel decides which slots are lost. */
module ServedChannel {
  import opened Common
  import opened Channel
  import opened Ledgers
  import S = Slots
  import Wire
  import Calls = AtomicCalls

  /** The driver, the service, and which slot each request was issued for. */
  datatype Served = Served(d: Driver, slots: S.State, slotOf: map<Irp, nat>)

  datatype Action =
    | Issue(slot: nat, irp: Irp, allocOk: bool)       // Start
    | Reissue(w: nat, irp: Irp, allocOk: bool)        // DoSingleResponse and DoSingleRequest
    | Event(msg: Msg, allocOk: bool)                  // SendMessage
    | Cancel(irp: Irp)                                // IoCancelIrp
    | Take(w: nat)                                    // GetQueuedCompletionStatus
    | Leave(w: nat)                                   // a worker stops

  const INITIAL := Served(INITIAL_DRIVER, S.INITIAL, map[])

  /** A request of the service's buffer size that was not issued before. */
  predicate IsNew(s: Served, irp: Irp) {
    irp !in s.slotOf && irp !in s.d.submitted && irp.outputLength == Wire.MAX_MSG_SIZE
  }

  /** The text in a message. */
  function UnitsOf(msg: Msg): nat {
    if msg.size < Wire.INFO_SIZE then 0 else (msg.size - Wire.INFO_SIZE) / 2
  }

  /** What BuildInstallInfo builds. */
  predicate IsMessage(msg: Msg) {
    msg.size == Wire.INFO_SIZE + UnitsOf(msg) * 2
  }

  predicate Enabled(s: Served, a: Action) {
    match a
    case Issue(slot, irp, _) => slot in s.slots.unissued && IsNew(s, irp)
    case Reissue(w, irp, _) => w in s.slots.workers && s.slots.workers[w].Handling? && IsNew(s, irp)
    case Event(msg, _) => msg !in s.d.sent && IsMessage(msg)
    case Cancel(irp) => irp in s.d.submitted
    case Take(w) => S.Enabled(s.slots, S.Dequeue(w))
    case Leave(w) => S.Enabled(s.slots, S.Stop(w))
  }

  // ---- what the channel makes of a call

  /** What DeviceIoControl returns. */
  function Returns(d: Driver): S.Issue {
    if !d.up then S.EndedAtOnce(S.Failure)
    else if d.dataList != [] then S.EndedAtOnce(S.Message(UnitsOf(d.dataList[0])))
    else S.IssuedPending
  }

  /** A request that cannot be parked ends at once, but after it was reported pending. */
  function Unparked(d: Driver, slot: nat, irp: Irp, ok: bool): seq<S.Action> {
    if d.up && d.dataList == [] && (irp in d.cancelFlag || !ok) then [S.Complete(slot, S.Failure)] else []
  }

  /** The steps of the slots that an action stands for. */
  function SlotSteps(s: Served, a: Action): seq<S.Action>
    requires Enabled(s, a)
  {
    match a
    case Issue(slot, irp, ok) => [S.First(slot, Returns(s.d))] + Unparked(s.d, slot, irp, ok)
    case Reissue(w, irp, ok) => [S.Again(w, Returns(s.d))] + Unparked(s.d, s.slots.workers[w].slot, irp, ok)
    case Event(msg, _) =>
      if !s.d.up || s.d.irpList == [] || s.d.irpList[0] !in s.slotOf then []
      else
        var irp := s.d.irpList[0];
        [S.Complete(s.slotOf[irp], if irp in s.d.armed then S.Message(UnitsOf(msg)) else S.Failure)]
    case Cancel(irp) =>
      if s.d.up && irp in s.d.armed && irp in s.d.irpList && irp in s.slotOf then [S.Complete(s.slotOf[irp], S.Failure)]
      else []
    case Take(w) => [S.Dequeue(w)]
    case Leave(w) => [S.Stop(w)]
  }

  function Called(d: Driver, a: Action): Driver {
    match a
    case Issue(_, irp, ok) => Calls.Dispatch(d, irp, ok).0
    case Reissue(_, irp, ok) => Calls.Dispatch(d, irp, ok).0
    case Event(msg, ok) => Calls.Send(d, msg, ok).0
    case Cancel(irp) => Calls.Cancel(Exact, d, irp)
    case _ => d
  }

  predicate CanApply(t: S.State, steps: seq<S.Action>)
    decreases |steps|
  {
    steps == [] || (S.Enabled(t, steps[0]) && CanApply(S.Do(t, steps[0]), steps[1..]))
  }

  function Apply(t: S.State, steps: seq<S.Action>): S.State
    requires CanApply(t, steps)
    decreases |steps|
  {
    if steps == [] then t else Apply(S.Do(t, steps[0]), steps[1..])
  }

  function Do(s: Served, a: Action): Served
    requires Enabled(s, a) && CanApply(s.slots, SlotSteps(s, a))
  {
    Served(Called(s.d, a), Apply(s.slots, SlotSteps(s, a)),
           match a
           case Issue(slot, irp, _) => s.slotOf[irp := slot]
           case Reissue(w, irp, _) => s.slotOf[irp := s.slots.workers[w].slot]
           case _ => s.slotOf)
  }

  // ---- parked requests and outstanding slots

  /** The requests parked with the driver are the outstanding slots, one for one. */
  ghost predicate Matched(s: Served) {
    && (forall irp :: irp in s.d.irpList ==> irp in s.slotOf && s.slotOf[irp] in s.slots.outstanding)
    && (forall irp, irp' :: irp in s.d.irpList && irp' in s.d.irpList ==>
          s.slotOf[irp] == s.slotOf[irp'] ==> irp == irp')
    && (forall slot :: slot in s.slots.outstanding ==> exists irp :: irp in s.d.irpList && s.slotOf[irp] == slot)
  }

  ghost predicate DriverInv(d: Driver) {
    && d.up
    && NoDup(d.irpList)
    && (forall irp :: irp in d.armed <==> irp in d.irpList)
    && (forall irp :: irp in d.irpList ==> irp in d.submitted && irp.outputLength == Wire.MAX_MSG_SIZE)
    && (forall irp :: irp in d.cancelFlag ==> irp in d.submitted)
    && (forall m :: m in d.dataList ==> IsMessage(m))
  }

  ghost predicate Inv(s: Served) {
    DriverInv(s.d) && Matched(s) && S.Inv(s.slots)
  }

  /** A slot that is being issued is not outstanding. */
  lemma HeldElsewhere(t: S.State, h: nat, slot: nat)
    requires S.Inv(t) && h in S.Held(t) && h != S.DEVICE && slot in S.Held(t)[h]
    ensures slot !in t.outstanding
  {
    assert Holds(S.SlotLedger(t), h, slot);
    if slot in t.outstanding { assert Holds(S.SlotLedger(t), S.DEVICE, slot); }
  }

  lemma ReadStays(d: Driver, irp: Irp, ok: bool)
    requires DriverInv(d) && irp !in d.submitted && irp.outputLength == Wire.MAX_MSG_SIZE
    ensures DriverInv(Calls.Dispatch(d, irp, ok).0)
  {
    var d' := Calls.Dispatch(d, irp, ok).0;
    if d.dataList != [] {
      assert d.dataList[0] in d.dataList;
      assert forall m :: m in d'.dataList ==> m in d.dataList;
    }
  }

  lemma SendStays(d: Driver, msg: Msg, ok: bool)
    requires DriverInv(d) && IsMessage(msg)
    ensures DriverInv(Calls.Send(d, msg, ok).0)
  {
    var d' := Calls.Send(d, msg, ok).0;
    assert forall m :: m in d'.dataList ==> m in d.dataList || m == msg;
    if d.irpList != [] {
      assert d'.irpList == d.irpList[1..];
      assert d.irpList == [d.irpList[0]] + d.irpList[1..];
    }
  }

  lemma CancelStays(d: Driver, irp: Irp)
    requires DriverInv(d) && irp in d.submitted
    ensures DriverInv(Calls.Cancel(Exact, d, irp))
  {
    if irp in d.irpList {
      var k := FirstIndex(d.irpList, irp);
      WithoutAt(d.irpList, irp, k);
    }
  }

  // ---- every step keeps them matched

  lemma MatchedQuiet(s: Served, s': Served)
    requires Matched(s) && s'.d.irpList == s.d.irpList && s'.slots.outstanding == s.slots.outstanding
    requires forall irp :: irp in s.d.irpList ==> irp in s'.slotOf && irp in s.slotOf && s'.slotOf[irp] == s.slotOf[irp]
    ensures Matched(s')
  {
  }

  lemma MatchedParks(s: Served, s': Served, slot: nat, irp: Irp)
    requires Matched(s) && irp !in s.slotOf && slot !in s.slots.outstanding
    requires s'.d.irpList == s.d.irpList + [irp] && s'.slotOf == s.slotOf[irp := slot]
    requires s'.slots.outstanding == s.slots.outstanding + {slot}
    ensures Matched(s')
  {
    assert forall i :: i in s'.d.irpList <==> i in s.d.irpList || i == irp;
    forall x | x in s'.slots.outstanding ensures exists i :: i in s'.d.irpList && s'.slotOf[i] == x {
      if x == slot {
        assert s'.slotOf[irp] == x;
      } else {
        var i :| i in s.d.irpList && s.slotOf[i] == x;
        assert s'.slotOf[i] == x;
      }
    }
  }

  lemma MatchedEnds(s: Served, s': Served, irp: Irp)
    requires Matched(s) && irp in s.d.irpList && s'.slotOf == s.slotOf
    requires forall i :: i in s'.d.irpList <==> i in s.d.irpList && i != irp
    requires s'.slots.outstanding == s.slots.outstanding - {s.slotOf[irp]}
    ensures Matched(s')
  {
    forall x | x in s'.slots.outstanding ensures exists i :: i in s'.d.irpList && s'.slotOf[i] == x {
      var i :| i in s.d.irpList && s.slotOf[i] == x;
    }
  }

  lemma ApplyOne(t: S.State, x: S.Action)
    requires S.Enabled(t, x) && S.Inv(t)
    ensures CanApply(t, [x]) && Apply(t, [x]) == S.Do(t, x) && S.Inv(S.Do(t, x))
  {
    S.StepKeepsInv(t, x);
    assert [x][1..] == [];
  }

  lemma ApplyTwo(t: S.State, x: S.Action, y: S.Action)
    requires S.Enabled(t, x) && S.Enabled(S.Do(t, x), y) && S.Inv(t)
    ensures CanApply(t, [x] + [y]) && Apply(t, [x] + [y]) == S.Do(S.Do(t, x), y) && S.Inv(S.Do(S.Do(t, x), y))
  {
    S.StepKeepsInv(t, x);
    ApplyOne(S.Do(t, x), y);
    assert ([x] + [y])[1..] == [y];
  }

  /** A request is issued for a slot, by the slots' step x. */
  lemma Asks(s: Served, x: S.Action, slot: nat, irp: Irp, ok: bool)
    requires Inv(s) && IsNew(s, irp) && S.Enabled(s.slots, x) && slot !in s.slots.outstanding
    requires S.Do(s.slots, x).outstanding
             == s.slots.outstanding + if Returns(s.d) == S.IssuedPending then {slot} else {}
    ensures var steps := [x] + Unparked(s.d, slot, irp, ok);
            && CanApply(s.slots, steps)
            && Inv(Served(Calls.Dispatch(s.d, irp, ok).0, Apply(s.slots, steps), s.slotOf[irp := slot]))
  {
    var d', steps := Calls.Dispatch(s.d, irp, ok).0, [x] + Unparked(s.d, slot, irp, ok);
    ReadStays(s.d, irp, ok);
    assert irp !in s.d.irpList && irp !in s.d.cancelFlag;
    if s.d.dataList == [] && !ok {
      ApplyTwo(s.slots, x, S.Complete(slot, S.Failure));
      MatchedQuiet(s, Served(d', Apply(s.slots, steps), s.slotOf[irp := slot]));
    } else {
      assert steps == [x];
      ApplyOne(s.slots, x);
      if s.d.dataList == [] {
        MatchedParks(s, Served(d', Apply(s.slots, steps), s.slotOf[irp := slot]), slot, irp);
      } else {
        MatchedQuiet(s, Served(d', Apply(s.slots, steps), s.slotOf[irp := slot]));
      }
    }
  }

  lemma IssueKeeps(s: Served, slot: nat, irp: Irp, ok: bool)
    requires Inv(s) && Enabled(s, Issue(slot, irp, ok))
    ensures CanApply(s.slots, SlotSteps(s, Issue(slot, irp, ok))) && Inv(Do(s, Issue(slot, irp, ok)))
  {
    HeldElsewhere(s.slots, S.START, slot);
    Asks(s, S.First(slot, Returns(s.d)), slot, irp, ok);
  }

  lemma ReissueKeeps(s: Served, w: nat, irp: Irp, ok: bool)
    requires Inv(s) && Enabled(s, Reissue(w, irp, ok))
    ensures CanApply(s.slots, SlotSteps(s, Reissue(w, irp, ok))) && Inv(Do(s, Reissue(w, irp, ok)))
  {
    assert w in {0, 1, 2, 3} && S.Held(s.slots)[w] == S.SlotsOf(s.slots.workers[w]);
    HeldElsewhere(s.slots, w, s.slots.workers[w].slot);
    Asks(s, S.Again(w, Returns(s.d)), s.slots.workers[w].slot, irp, ok);
  }

  lemma EventKeeps(s: Served, msg: Msg, ok: bool)
    requires Inv(s) && Enabled(s, Event(msg, ok))
    ensures CanApply(s.slots, SlotSteps(s, Event(msg, ok))) && Inv(Do(s, Event(msg, ok)))
  {
    SendStays(s.d, msg, ok);
    if s.d.irpList == [] {
      MatchedQuiet(s, Do(s, Event(msg, ok)));
    } else {
      var irp := s.d.irpList[0];
      assert irp in s.d.irpList && irp in s.slotOf;
      ApplyOne(s.slots, S.Complete(s.slotOf[irp], S.Message(UnitsOf(msg))));
      var s' := Do(s, Event(msg, ok));
      assert s'.d.irpList == s.d.irpList[1..] && s.d.irpList == [irp] + s.d.irpList[1..];
      MatchedEnds(s, s', irp);
    }
  }

  lemma CancelKeeps(s: Served, irp: Irp)
    requires Inv(s) && Enabled(s, Cancel(irp))
    ensures CanApply(s.slots, SlotSteps(s, Cancel(irp))) && Inv(Do(s, Cancel(irp)))
  {
    CancelStays(s.d, irp);
    if irp in s.d.irpList {
      ApplyOne(s.slots, S.Complete(s.slotOf[irp], S.Failure));
      var k := FirstIndex(s.d.irpList, irp);
      WithoutAt(s.d.irpList, irp, k);
      MatchedEnds(s, Do(s, Cancel(irp)), irp);
    } else {
      MatchedQuiet(s, Do(s, Cancel(irp)));
    }
  }

  lemma WorkerKeeps(s: Served, a: Action)
    requires Inv(s) && Enabled(s, a) && (a.Take? || a.Leave?)
    ensures CanApply(s.slots, SlotSteps(s, a)) && Inv(Do(s, a))
  {
    ApplyOne(s.slots, SlotSteps(s, a)[0]);
    MatchedQuiet(s, Do(s, a));
  }

  lemma StepKeeps(s: Served, a: Action)
    requires Inv(s) && Enabled(s, a)
    ensures CanApply(s.slots, SlotSteps(s, a)) && Inv(Do(s, a))
  {
    match a
    case Issue(slot, irp, ok) => IssueKeeps(s, slot, irp, ok);
    case Reissue(w, irp, ok) => ReissueKeeps(s, w, irp, ok);
    case Event(msg, ok) => EventKeeps(s, msg, ok);
    case Cancel(irp) => CancelKeeps(s, irp);
    case Take(_) => WorkerKeeps(s, a);
    case Leave(_) => WorkerKeeps(s, a);
  }

  // ---- the causes are the channel's

  function ResultOfStatus(status: Status): S.Result {
    match status
    case Success => S.Filled
    case BufferTooSmall => S.TooSmall
    case _ => S.Error
  }

  /** How a step of the slots ends a request, if it does. */
  function EndsWith(x: S.Action): Option<S.Result> {
    match x
    case First(_, EndedAtOnce(cause)) => Some(S.ResultOf(cause))
    case Again(_, EndedAtOnce(cause)) => Some(S.ResultOf(cause))
    case Complete(_, cause) => Some(S.ResultOf(cause))
    case _ => None
  }

  function Ends(steps: seq<S.Action>): seq<S.Result> {
    if steps == [] then []
    else Ends(steps[..|steps| - 1]) + match EndsWith(steps[|steps| - 1]) case None => [] case Some(r) => [r]
  }

  function Results(cs: seq<Completion>): seq<S.Result> {
    seq(|cs|, i requires 0 <= i < |cs| => ResultOfStatus(cs[i].status))
  }

  lemma EndsOne(x: S.Action)
    ensures Ends([x]) == match EndsWith(x) case None => [] case Some(r) => [r]
  {
    assert [x][..0] == [] && Ends([]) == [];
  }

  lemma EndsTwo(x: S.Action, y: S.Action)
    ensures Ends([x] + [y]) == Ends([x]) + Ends([y])
  {
    EndsOne(y);
    assert ([x] + [y])[..1] == [x];
  }

  lemma FitsIff(msg: Msg, irp: Irp)
    requires IsMessage(msg) && irp.outputLength == Wire.MAX_MSG_SIZE
    ensures S.ResultOf(S.Message(UnitsOf(msg))) == if msg.size <= irp.outputLength then S.Filled else S.TooSmall
  {
  }

  lemma ReadAgrees(d: Driver, irp: Irp, ok: bool, x: S.Action, slot: nat)
    requires DriverInv(d) && irp !in d.submitted && irp.outputLength == Wire.MAX_MSG_SIZE
    requires EndsWith(x) == match Returns(d)
                            case IssuedPending => None
                            case EndedAtOnce(cause) => Some(S.ResultOf(cause))
    ensures var d', k := Calls.Dispatch(d, irp, ok).0, |d.completions|;
            d.completions <= d'.completions && Results(d'.completions[k..]) == Ends([x] + Unparked(d, slot, irp, ok))
  {
    EndsOne(x);
    if d.dataList != [] {
      assert d.dataList[0] in d.dataList;
      FitsIff(d.dataList[0], irp);
      assert [x] + Unparked(d, slot, irp, ok) == [x];
    } else if ok {
      assert [x] + Unparked(d, slot, irp, ok) == [x];
    } else {
      EndsOne(S.Complete(slot, S.Failure));
      EndsTwo(x, S.Complete(slot, S.Failure));
    }
  }

  ghost predicate Agrees(s: Served, a: Action)
    requires Enabled(s, a)
  {
    var d' := Called(s.d, a);
    s.d.completions <= d'.completions && Results(d'.completions[|s.d.completions|..]) == Ends(SlotSteps(s, a))
  }

  /** A sender completes the first parked request, and no other. */
  lemma SendCompletes(d: Driver, msg: Msg, ok: bool)
    requires DriverInv(d)
    ensures Calls.Send(d, msg, ok).0.completions
            == d.completions
               + if d.irpList == [] then []
                 else if msg.size <= d.irpList[0].outputLength then [Completion(d.irpList[0], Success)]
                 else [Completion(d.irpList[0], BufferTooSmall)]
  {
    if d.irpList != [] { assert d.irpList[0] in d.irpList; }
  }

  lemma EventAgrees(s: Served, msg: Msg, ok: bool)
    requires Inv(s) && Enabled(s, Event(msg, ok))
    ensures Agrees(s, Event(msg, ok))
  {
    SendCompletes(s.d, msg, ok);
    if s.d.irpList != [] {
      assert s.d.irpList[0] in s.d.irpList;
      FitsIff(msg, s.d.irpList[0]);
      EndsOne(SlotSteps(s, Event(msg, ok))[0]);
    }
  }

  lemma CancelAgrees(s: Served, irp: Irp)
    requires Inv(s) && Enabled(s, Cancel(irp))
    ensures Agrees(s, Cancel(irp))
  {
    if irp in s.d.irpList { EndsOne(SlotSteps(s, Cancel(irp))[0]); }
  }

  /** The requests that a step of the slots ends, and how, are those that the channel completes. */
  lemma StepAgrees(s: Served, a: Action)
    requires Inv(s) && Enabled(s, a)
    ensures Agrees(s, a)
  {
    match a
    case Issue(slot, irp, ok) => ReadAgrees(s.d, irp, ok, S.First(slot, Returns(s.d)), slot);
    case Reissue(w, irp, ok) => ReadAgrees(s.d, irp, ok, S.Again(w, Returns(s.d)), s.slots.workers[w].slot);
    case Event(msg, ok) => EventAgrees(s, msg, ok);
    case Cancel(irp) => CancelAgrees(s, irp);
    case Take(_) => EndsOne(SlotSteps(s, a)[0]);
    case Leave(_) => EndsOne(SlotSteps(s, a)[0]);
  }

  // ---- runs

  ghost predicate Run(states: seq<Served>, actions: seq<Action>) {
    && |states| == |actions| + 1
    && states[0] == INITIAL
    && forall i :: 0 <= i < |actions| ==>
         && Enabled(states[i], actions[i]) && CanApply(states[i].slots, SlotSteps(states[i], actions[i]))
         && states[i + 1] == Do(states[i], actions[i])
  }

  lemma InvInitially()
    ensures Inv(INITIAL)
  {
    S.InvInitially();
  }

  lemma {:induction false} RunKeeps(states: seq<Served>, actions: seq<Action>, n: nat)
    requires Run(states, actions) && n < |states|
    ensures Inv(states[n])
  {
    if n == 0 {
      InvInitially();
    } else {
      RunKeeps(states, actions, n - 1);
      StepKeeps(states[n - 1], actions[n - 1]);
    }
  }

  lemma {:induction false} AppliedIsRun(path: seq<S.State>, acts: seq<S.Action>, steps: seq<S.Action>)
    returns (path': seq<S.State>, acts': seq<S.Action>)
    requires S.Run(path, acts) && CanApply(path[|acts|], steps)
    ensures S.Run(path', acts') && path'[|acts'|] == Apply(path[|acts|], steps)
    decreases |steps|
  {
    path', acts' := path, acts;
    if steps != [] {
      var t := S.Do(path[|acts|], steps[0]);
      assert forall i :: 0 <= i < |acts| + 1 ==> (path + [t])[i] == path[i];
      path', acts' := AppliedIsRun(path + [t], acts + [steps[0]], steps[1..]);
    }
  }

  /** The slots of a run on the channel take a run of their own, so all that holds of those holds
      here: each slot is in one place. */
  lemma {:induction false} SlotsRun(states: seq<Served>, actions: seq<Action>, n: nat)
    returns (path: seq<S.State>, acts: seq<S.Action>)
    requires Run(states, actions) && n < |states|
    ensures S.Run(path, acts) && path[|acts|] == states[n].slots
  {
    if n == 0 {
      path, acts := [S.INITIAL], [];
    } else {
      path, acts := SlotsRun(states, actions, n - 1);
      path, acts := AppliedIsRun(path, acts, SlotSteps(states[n - 1], actions[n - 1]));
    }
  }

  // ---- which slots are lost

  /** Slots lost, or about to be. */
  function Losses(t: S.State): nat {
    |t.lost| + S.BadPackets(t.port)
  }

  /** A call that costs a slot: a request meets a message that is too large for it or cannot be
      parked, a message too large for them meets a parked request, or a parked request is cancelled. */
  predicate Costs(d: Driver, a: Action) {
    match a
    case Issue(_, irp, ok) => ReadCosts(d, ok)
    case Reissue(_, irp, ok) => ReadCosts(d, ok)
    case Event(msg, _) => d.irpList != [] && msg.size > Wire.MAX_MSG_SIZE
    case Cancel(irp) => irp in d.irpList
    case _ => false
  }

  predicate ReadCosts(d: Driver, ok: bool) {
    if d.dataList != [] then d.dataList[0].size > Wire.MAX_MSG_SIZE else !ok
  }

  lemma AskCosts(s: Served, x: S.Action, slot: nat, irp: Irp, ok: bool)
    requires Inv(s) && IsNew(s, irp) && S.Enabled(s.slots, x)
    requires x.First? || x.Again?
    requires x.issue == Returns(s.d) && (Returns(s.d) == S.IssuedPending ==> slot in S.Do(s.slots, x).outstanding)
    requires CanApply(s.slots, [x] + Unparked(s.d, slot, irp, ok))
    ensures Losses(Apply(s.slots, [x] + Unparked(s.d, slot, irp, ok)))
            == Losses(s.slots) + if ReadCosts(s.d, ok) then 1 else 0
  {
    S.LossStep(s.slots, x);
    assert irp !in s.d.cancelFlag;
    if s.d.dataList == [] && !ok {
      ApplyTwo(s.slots, x, S.Complete(slot, S.Failure));
      S.LossStep(S.Do(s.slots, x), S.Complete(slot, S.Failure));
    } else {
      assert [x] + Unparked(s.d, slot, irp, ok) == [x];
      ApplyOne(s.slots, x);
      if s.d.dataList != [] {
        assert s.d.dataList[0] in s.d.dataList;
        FitsIff(s.d.dataList[0], irp);
      }
    }
  }

  /** A step costs one slot exactly when the call meets what costs one. */
  lemma StepCosts(s: Served, a: Action)
    requires Inv(s) && Enabled(s, a) && CanApply(s.slots, SlotSteps(s, a))
    ensures Losses(Do(s, a).slots) == Losses(s.slots) + if Costs(s.d, a) then 1 else 0
  {
    match a
    case Issue(slot, irp, ok) => AskCosts(s, S.First(slot, Returns(s.d)), slot, irp, ok);
    case Reissue(w, irp, ok) => AskCosts(s, S.Again(w, Returns(s.d)), s.slots.workers[w].slot, irp, ok);
    case Event(msg, ok) =>
      if s.d.irpList != [] {
        assert s.d.irpList[0] in s.d.irpList;
        FitsIff(msg, s.d.irpList[0]);
        OneCosts(s.slots, SlotSteps(s, a)[0]);
      }
    case Cancel(irp) =>
      if irp in s.d.irpList { OneCosts(s.slots, SlotSteps(s, a)[0]); }
    case Take(_) => OneCosts(s.slots, SlotSteps(s, a)[0]);
    case Leave(_) => OneCosts(s.slots, SlotSteps(s, a)[0]);
  }

  lemma OneCosts(t: S.State, x: S.Action)
    requires S.Inv(t) && S.Enabled(t, x)
    ensures CanApply(t, [x]) && Losses(Apply(t, [x])) == Losses(t) + if S.Loses(x) then 1 else 0
  {
    ApplyOne(t, x);
    S.LossStep(t, x);
  }

  lemma NextCosts(states: seq<Served>, actions: seq<Action>, n: nat)
    requires Run(states, actions) && n < |actions|
    ensures Losses(states[n + 1].slots) == Losses(states[n].slots) + if Costs(states[n].d, actions[n]) then 1 else 0
  {
    RunKeeps(states, actions, n);
    StepCosts(states[n], actions[n]);
  }

  lemma {:induction false} NoLossesIff(states: seq<Served>, actions: seq<Action>, n: nat)
    requires Run(states, actions) && n < |states|
    ensures Losses(states[n].slots) == 0 <==> forall i :: 0 <= i < n ==> !Costs(states[i].d, actions[i])
  {
    if n == 0 {
      assert states[0].slots == S.INITIAL;
    } else {
      NoLossesIff(states, actions, n - 1);
      NextCosts(states, actions, n - 1);
    }
  }

  /** In every run of service and driver no slot is lost, nor about to be, exactly when no request met
      a message too large for it or a full memory, and none was cancelled while it was parked. */
  lemma NoneLostIff(states: seq<Served>, actions: seq<Action>, n: nat)
    requires Run(states, actions) && n < |states|
    ensures states[n].slots.lost == [] && S.BadPackets(states[n].slots.port) == 0
            <==> forall i :: 0 <= i < n ==> !Costs(states[i].d, actions[i])
  {
    NoLossesIff(states, actions, n);
  }

  ghost predicate AllQueuedFit(d: Driver) {
    forall m :: m in d.dataList ==> m.size <= Wire.MAX_MSG_SIZE
  }

  /** Nothing goes wrong but what the events bring about. */
  predicate Smooth(a: Action) {
    match a
    case Issue(_, _, ok) => ok
    case Reissue(_, _, ok) => ok
    case Event(msg, _) => UnitsOf(msg) <= 2045
    case Cancel(_) => false
    case _ => true
  }

  lemma FitStays(s: Served, a: Action)
    requires Inv(s) && Enabled(s, a) && AllQueuedFit(s.d) && Smooth(a)
    ensures AllQueuedFit(Called(s.d, a)) && !Costs(s.d, a)
  {
    var d, d' := s.d, Called(s.d, a);
    if d.dataList != [] { assert d.dataList[0] in d.dataList; }
    forall m | m in d'.dataList ensures m in d.dataList || (a.Event? && m == a.msg) {
    }
  }

  lemma {:induction false} FitThroughout(states: seq<Served>, actions: seq<Action>, n: nat)
    requires Run(states, actions) && n < |states| && forall i :: 0 <= i < n ==> Smooth(actions[i])
    ensures AllQueuedFit(states[n].d)
  {
    if n > 0 {
      FitThroughout(states, actions, n - 1);
      RunKeeps(states, actions, n - 1);
      FitStays(states[n - 1], actions[n - 1]);
    }
  }

  /** No slot is lost while every event has at most 2045 units, requests can be parked and none is
      cancelled. */
  lemma NoneLost(states: seq<Served>, actions: seq<Action>, n: nat)
    requires Run(states, actions) && n < |states| && forall i :: 0 <= i < n ==> Smooth(actions[i])
    ensures states[n].slots.lost == [] && S.BadPackets(states[n].slots.port) == 0
  {
    forall i | 0 <= i < n ensures !Costs(states[i].d, actions[i]) {
      FitThroughout(states, actions, i);
      RunKeeps(states, actions, i);
      FitStays(states[i], actions[i]);
    }
    NoneLostIff(states, actions, n);
  }

  // ---- one event takes all four

  predicate Oversized(msg: Msg) {
    msg.size > Wire.MAX_MSG_SIZE
  }

  /** While it is the only message queued, one that is too large ends every request that meets it at
      once, costs its slot and stays. */
  lemma OversizedTakesSlot(s: Served, a: Action)
    requires Inv(s) && Enabled(s, a) && (a.Issue? || a.Reissue?) && a.allocOk
    requires |s.d.dataList| == 1 && Oversized(s.d.dataList[0])
    ensures var slot := if a.Issue? then a.slot else s.slots.workers[a.w].slot;
            && CanApply(s.slots, SlotSteps(s, a))
            && Do(s, a).d.dataList == s.d.dataList
            && Do(s, a).slots.lost == s.slots.lost + [slot]
  {
    StepKeeps(s, a);
    var m, x := s.d.dataList[0], SlotSteps(s, a)[0];
    assert m in s.d.dataList;
    FitsIff(m, a.irp);
    assert SlotSteps(s, a) == [x];
    ApplyOne(s.slots, x);
    assert s.d.dataList[1..] + [m] == s.d.dataList;
  }

  const BIG := Msg(0, Wire.INFO_SIZE + 2046 * 2)

  function Slot(i: nat): Action {
    Issue(i, Irp(i, Wire.MAX_MSG_SIZE), true)
  }

  lemma BigIsQueued() returns (states: seq<Served>, actions: seq<Action>)
    ensures Run(states, actions) && actions == [Event(BIG, true)]
    ensures var s := states[1];
            s.d.dataList == [BIG] && s.d.submitted == {} && s.slots == S.INITIAL && s.slotOf == map[]
  {
    assert UnitsOf(BIG) == 2046;
    states, actions := Extend([INITIAL], [], Event(BIG, true));
    assert SlotSteps(INITIAL, Event(BIG, true)) == [];
  }

  /** One event of 2046 units, before the service starts, takes all four slots. */
  lemma OneEventTakesAllSlots() returns (states: seq<Served>, actions: seq<Action>)
    ensures Run(states, actions)
    ensures actions == [Event(BIG, true), Slot(0), Slot(1), Slot(2), Slot(3)]
    ensures states[5].slots.lost == [0, 1, 2, 3] && states[5].d.dataList == [BIG]
  {
    states, actions := BigIsQueued();
    states, actions := TakeSlot(states, actions, 0);
    states, actions := TakeSlot(states, actions, 1);
    states, actions := TakeSlot(states, actions, 2);
    states, actions := TakeSlot(states, actions, 3);
  }

  lemma RunLonger(states: seq<Served>, actions: seq<Action>, a: Action, s': Served)
    requires Run(states, actions) && Enabled(states[|actions|], a)
    requires CanApply(states[|actions|].slots, SlotSteps(states[|actions|], a)) && s' == Do(states[|actions|], a)
    ensures Run(states + [s'], actions + [a])
  {
    var p, b := states + [s'], actions + [a];
    forall i | 0 <= i < |b|
      ensures Enabled(p[i], b[i]) && CanApply(p[i].slots, SlotSteps(p[i], b[i])) && p[i + 1] == Do(p[i], b[i])
    {
      if i < |actions| { assert p[i] == states[i] && b[i] == actions[i] && p[i + 1] == states[i + 1]; }
    }
  }

  lemma Extend(states: seq<Served>, actions: seq<Action>, a: Action)
    returns (states': seq<Served>, actions': seq<Action>)
    requires Run(states, actions) && Enabled(states[|actions|], a)
    ensures CanApply(states[|actions|].slots, SlotSteps(states[|actions|], a))
    ensures states' == states + [Do(states[|actions|], a)] && actions' == actions + [a]
    ensures Run(states', actions') && Inv(states[|actions|]) && Inv(states'[|actions'|])
  {
    var s := states[|actions|];
    RunKeeps(states, actions, |actions|);
    StepKeeps(s, a);
    RunLonger(states, actions, a, Do(s, a));
    states', actions' := states + [Do(s, a)], actions + [a];
  }

  lemma TakeSlot(states: seq<Served>, actions: seq<Action>, i: nat)
    returns (states': seq<Served>, actions': seq<Action>)
    requires Run(states, actions)
    requires var s := states[|actions|];
             && s.d.dataList == [BIG] && i in s.slots.unissued
             && (forall irp :: irp in s.slotOf || irp in s.d.submitted ==> irp.id < i)
    ensures Run(states', actions') && actions' == actions + [Slot(i)]
    ensures var s, s' := states[|actions|], states'[|actions'|];
            && s'.d.dataList == [BIG] && s'.slots.lost == s.slots.lost + [i]
            && s'.slots.unissued == s.slots.unissued - {i}
            && (forall irp :: irp in s'.slotOf || irp in s'.d.submitted ==> irp.id < i + 1)
  {
    var s := states[|actions|];
    states', actions' := Extend(states, actions, Slot(i));
    OversizedTakesSlot(s, Slot(i));
    assert BIG in s.d.dataList;
    FitsIff(BIG, Irp(i, Wire.MAX_MSG_SIZE));
    assert SlotSteps(s, Slot(i)) == [S.First(i, Returns(s.d))];
    ApplyOne(s.slots, S.First(i, Returns(s.d)));
  }

  // ---- the driver alone

  /** Dispatcher calls one after the other, none of which fails to put a message back. */
  function ReadAll(d: Driver, irps: seq<Irp>): Driver {
    if irps == [] then d else Calls.Dispatch(ReadAll(d, irps[..|irps| - 1]), irps[|irps| - 1], true).0
  }

  function TurnedAway(irps: seq<Irp>): seq<Completion> {
    seq(|irps|, i requires 0 <= i < |irps| => Completion(irps[i], BufferTooSmall))
  }

  /** A message larger than all readers ends every one of them, is delivered to none and stays. */
  lemma {:induction false} OversizedStays(d: Driver, m: Msg, irps: seq<Irp>)
    requires d.up && d.dataList == [m] && forall i :: 0 <= i < |irps| ==> irps[i].outputLength < m.size
    ensures var d' := ReadAll(d, irps);
            && d'.completions == d.completions + TurnedAway(irps)
            && d'.deliveries == d.deliveries && d'.dataList == [m] && d'.up
  {
    if irps != [] {
      var k := |irps| - 1;
      OversizedStays(d, m, irps[..k]);
      assert TurnedAway(irps) == TurnedAway(irps[..k]) + [Completion(irps[k], BufferTooSmall)];
    }
  }
}
