/** The service's four request slots (src/srv/ioctl.cc): each buffer is with the device, in a
    completion packet, with a worker, or lost. */
module Slots {
  import opened Ledgers
  import Wire
  import Channel

  const SLOTS: nat := 4
  const MAX_WORKERS: nat := 4

  /** What ends a request: a message of so many units of text, or another status. */
  datatype Cause = Message(units: nat) | Failure

  /** How the driver completes a request of the service's buffer size. */
  datatype Result = Filled | TooSmall | Error

  function ResultOf(cause: Cause): Result {
    match cause
    case Failure => Error
    case Message(units) => if Wire.INFO_SIZE + units * 2 <= Wire.MAX_MSG_SIZE then Filled else TooSmall
  }

  datatype Packet = Packet(slot: nat, result: Result)

  datatype Pc = Waiting | Handling(slot: nat) | Exited

  /** What DeviceIoControl returns: pending, or the request ended at once. */
  datatype Issue = IssuedPending | EndedAtOnce(cause: Cause)

  datatype State = State(
    unissued: set<nat>,          // slots Start has still to issue
    outstanding: set<nat>,       // with the device
    port: seq<Packet>,           // the completion port
    workers: map<nat, Pc>,
    lost: seq<nat>)

  datatype Action =
    | First(slot: nat, issue: Issue)          // Start
    | Complete(slot: nat, cause: Cause)       // the device
    | Dequeue(w: nat)                         // GetQueuedCompletionStatus
    | Again(w: nat, issue: Issue)             // DoSingleResponse and DoSingleRequest
    | Stop(w: nat)                            // the port is closed, or is_stopped_ is set

  const INITIAL := State({0, 1, 2, 3}, {}, [], map[0 := Waiting, 1 := Waiting, 2 := Waiting, 3 := Waiting], [])

  predicate Enabled(s: State, a: Action) {
    match a
    case First(slot, _) => slot in s.unissued
    case Complete(slot, _) => slot in s.outstanding
    case Dequeue(w) => s.unissued == {} && w in s.workers && s.workers[w].Waiting? && s.port != []
    case Again(w, _) => w in s.workers && s.workers[w].Handling?
    case Stop(w) => w in s.workers && s.workers[w].Waiting?
  }

  /** A request is issued for a slot: a failure at once posts no packet, and nobody reissues it. */
  function Issued(s: State, slot: nat, issue: Issue): State {
    match issue
    case IssuedPending => s.(outstanding := s.outstanding + {slot})
    case EndedAtOnce(cause) =>
      if ResultOf(cause) == Filled then s.(port := s.port + [Packet(slot, Filled)])
      else s.(lost := s.lost + [slot])
  }

  function Do(s: State, a: Action): State
    requires Enabled(s, a)
  {
    match a
    case First(slot, issue) => Issued(s.(unissued := s.unissued - {slot}), slot, issue)
    case Complete(slot, cause) =>
      s.(outstanding := s.outstanding - {slot}, port := s.port + [Packet(slot, ResultOf(cause))])
    case Dequeue(w) =>
      var p, s1 := s.port[0], s.(port := s.port[1..]);
      (match p.result
       case Filled => s1.(workers := s.workers[w := Handling(p.slot)])
       case TooSmall => s1.(lost := s.lost + [p.slot])
       case Error => s1.(lost := s.lost + [p.slot], workers := s.workers[w := Exited]))
    case Again(w, issue) =>
      Issued(s.(workers := s.workers[w := Waiting]), s.workers[w].slot, issue)
    case Stop(w) => s.(workers := s.workers[w := Exited])
  }

  predicate Run(states: seq<State>, actions: seq<Action>) {
    && |states| == |actions| + 1
    && states[0] == INITIAL
    && forall i :: 0 <= i < |actions| ==>
         Enabled(states[i], actions[i]) && states[i + 1] == Do(states[i], actions[i])
  }

  // ---- one place for every slot

  function SlotsOf(pc: Pc): set<nat> {
    if pc.Handling? then {pc.slot} else {}
  }

  function PortSlots(port: seq<Packet>): seq<nat> {
    seq(|port|, i requires 0 <= i < |port| => port[i].slot)
  }

  // Workers hold slots under their own number; so do Start and the device.
  const START: nat := 4
  const DEVICE: nat := 5

  ghost function Held(s: State): map<nat, set<nat>> {
    (map w | w in s.workers :: SlotsOf(s.workers[w]))[START := s.unissued][DEVICE := s.outstanding]
  }

  ghost function SlotLedger(s: State): Ledger<nat> {
    Ledger({0, 1, 2, 3}, Held(s), PortSlots(s.port), s.lost)
  }

  ghost predicate Inv(s: State) {
    s.workers.Keys == {0, 1, 2, 3} && Linear(SlotLedger(s))
  }

  lemma PortSnoc(port: seq<Packet>, p: Packet)
    ensures PortSlots(port + [p]) == PortSlots(port) + [p.slot]
  {
  }

  lemma IssuePendingKeeps(s: State, h: nat, s0: State, slot: nat)
    requires Inv(s) && h in Held(s) && h != DEVICE && slot in Held(s)[h]
    requires s0.workers.Keys == s.workers.Keys && Held(s0) == Held(s)[h := Held(s)[h] - {slot}]
    requires s0.port == s.port && s0.lost == s.lost && s0.outstanding == s.outstanding
    ensures Inv(Issued(s0, slot, IssuedPending))
  {
    var l, s' := SlotLedger(s), Issued(s0, slot, IssuedPending);
    assert Holds(l, h, slot);
    Give(l, h, DEVICE, slot);
    assert Held(s') == Held(s0)[DEVICE := s.outstanding + {slot}];
    assert SlotLedger(s') == GiveTo(l, h, DEVICE, slot);
  }

  lemma IssueEndedKeeps(s: State, h: nat, s0: State, slot: nat, cause: Cause)
    requires Inv(s) && h in Held(s) && h != DEVICE && slot in Held(s)[h]
    requires s0.workers.Keys == s.workers.Keys && Held(s0) == Held(s)[h := Held(s)[h] - {slot}]
    requires s0.port == s.port && s0.lost == s.lost && s0.outstanding == s.outstanding
    ensures Inv(Issued(s0, slot, EndedAtOnce(cause)))
  {
    var l, s' := SlotLedger(s), Issued(s0, slot, EndedAtOnce(cause));
    assert Holds(l, h, slot);
    assert Held(s') == Held(s0);
    if ResultOf(cause) == Filled {
      PortSnoc(s.port, Packet(slot, Filled));
      Push(l, h, slot);
      assert SlotLedger(s') == PushFrom(l, h, slot);
    } else {
      Finish(l, h, slot);
      assert SlotLedger(s') == FinishFrom(l, h, slot);
    }
  }

  /** Issuing a slot moves it from the hands of Start or a worker to the device, the port or the lost. */
  lemma IssueKeeps(s: State, h: nat, s0: State, slot: nat, issue: Issue)
    requires Inv(s) && h in Held(s) && h != DEVICE && slot in Held(s)[h]
    requires s0.workers.Keys == s.workers.Keys && Held(s0) == Held(s)[h := Held(s)[h] - {slot}]
    requires s0.port == s.port && s0.lost == s.lost && s0.outstanding == s.outstanding
    ensures Inv(Issued(s0, slot, issue))
  {
    match issue
    case IssuedPending => IssuePendingKeeps(s, h, s0, slot);
    case EndedAtOnce(cause) => IssueEndedKeeps(s, h, s0, slot, cause);
  }

  lemma PortHead(port: seq<Packet>)
    requires port != []
    ensures PortSlots(port) == [port[0].slot] + PortSlots(port[1..])
  {
  }

  lemma DequeueFilled(s: State, w: nat)
    requires Inv(s) && Enabled(s, Dequeue(w)) && s.port[0].result == Filled
    ensures Inv(Do(s, Dequeue(w)))
  {
    var l, s' := SlotLedger(s), Do(s, Dequeue(w));
    HeldWorker(s, s', w);
    PortHead(s.port);
    TakeKeeps(l, w, PortSlots(s.port[1..]), s.port[0].slot);
    assert SlotLedger(s') == SetHeld(l, w, {s.port[0].slot}).(queue := PortSlots(s.port[1..]));
  }

  lemma DequeueBad(s: State, w: nat)
    requires Inv(s) && Enabled(s, Dequeue(w)) && s.port[0].result != Filled
    ensures Inv(Do(s, Dequeue(w)))
  {
    var s' := Do(s, Dequeue(w));
    assert s'.workers == s.workers[w := s'.workers[w]];
    HeldWorker(s, s', w);
    PortHead(s.port);
    LoseKeeps(SlotLedger(s), w, PortSlots(s.port[1..]), s.port[0].slot);
    assert SlotLedger(s')
           == SetHeld(SlotLedger(s), w, {}).(queue := PortSlots(s.port[1..]), finished := s.lost + [s.port[0].slot]);
  }

  lemma LoseKeeps(l: Ledger<nat>, w: nat, rest: seq<nat>, slot: nat)
    requires Linear(l) && w in l.held && l.held[w] == {} && l.queue == [slot] + rest
    ensures Linear(SetHeld(l, w, {}).(queue := rest, finished := l.finished + [slot]))
  {
    TakeKeeps(l, w, rest, slot);
    var l1 := SetHeld(l, w, {slot}).(queue := rest);
    DropKeeps(l1, w, slot);
    assert l1.held[w := {}] == l.held[w := {}];
  }

  lemma DequeueKeeps(s: State, w: nat)
    requires Inv(s) && Enabled(s, Dequeue(w))
    ensures Inv(Do(s, Dequeue(w)))
  {
    if s.port[0].result == Filled {
      DequeueFilled(s, w);
    } else {
      DequeueBad(s, w);
    }
  }

  lemma TakeKeeps(l: Ledger<nat>, w: nat, rest: seq<nat>, slot: nat)
    requires Linear(l) && w in l.held && l.held[w] == {} && l.queue == [slot] + rest
    ensures Linear(SetHeld(l, w, {slot}).(queue := rest))
  {
    PopAt(l, w, 0);
    assert l.queue[..0] + l.queue[1..] == rest;
    assert l.held[w] + {slot} == {slot};
  }

  lemma DropKeeps(l: Ledger<nat>, w: nat, slot: nat)
    requires Linear(l) && w in l.held && l.held[w] == {slot}
    ensures Linear(SetHeld(l, w, {}).(finished := l.finished + [slot]))
  {
    assert Holds(l, w, slot);
    Finish(l, w, slot);
    assert l.held[w] - {slot} == {};
  }

  lemma CompleteKeeps(s: State, slot: nat, cause: Cause)
    requires Inv(s) && slot in s.outstanding
    ensures Inv(Do(s, Complete(slot, cause)))
  {
    var l, s' := SlotLedger(s), Do(s, Complete(slot, cause));
    PortSnoc(s.port, Packet(slot, ResultOf(cause)));
    assert Holds(l, DEVICE, slot);
    Push(l, DEVICE, slot);
    assert SlotLedger(s') == PushFrom(l, DEVICE, slot);
  }

  lemma FirstKeeps(s: State, slot: nat, issue: Issue)
    requires Inv(s) && slot in s.unissued
    ensures Inv(Do(s, First(slot, issue)))
  {
    var s0 := s.(unissued := s.unissued - {slot});
    assert Held(s0) == Held(s)[START := Held(s)[START] - {slot}];
    IssueKeeps(s, START, s0, slot, issue);
  }

  lemma AgainKeeps(s: State, w: nat, issue: Issue)
    requires Inv(s) && Enabled(s, Again(w, issue))
    ensures Inv(Do(s, Again(w, issue)))
  {
    var s0, slot := s.(workers := s.workers[w := Waiting]), s.workers[w].slot;
    assert w in {0, 1, 2, 3};
    HeldWorker(s, s0, w);
    assert {slot} - {slot} == {};
    IssueKeeps(s, w, s0, slot, issue);
  }

  lemma HeldWorker(s: State, s': State, w: nat)
    requires s.workers.Keys == {0, 1, 2, 3} && w in s.workers && w in s'.workers
    requires s'.workers == s.workers[w := s'.workers[w]]
    requires s'.unissued == s.unissued && s'.outstanding == s.outstanding
    ensures s'.workers.Keys == {0, 1, 2, 3}
    ensures w in Held(s) && Held(s)[w] == SlotsOf(s.workers[w])
    ensures Held(s') == Held(s)[w := SlotsOf(s'.workers[w])]
  {
    assert w in {0, 1, 2, 3};
  }

  lemma StopKeeps(s: State, w: nat)
    requires Inv(s) && Enabled(s, Stop(w))
    ensures Inv(Do(s, Stop(w)))
  {
    var s' := Do(s, Stop(w));
    HeldWorker(s, s', w);
    Keep(SlotLedger(s), w);
    assert SlotLedger(s') == SetHeld(SlotLedger(s), w, {});
  }

  lemma StepKeepsInv(s: State, a: Action)
    requires Inv(s) && Enabled(s, a)
    ensures Inv(Do(s, a))
  {
    match a
    case First(slot, issue) => FirstKeeps(s, slot, issue);
    case Complete(slot, cause) => CompleteKeeps(s, slot, cause);
    case Dequeue(w) => DequeueKeeps(s, w);
    case Again(w, issue) => AgainKeeps(s, w, issue);
    case Stop(w) => StopKeeps(s, w);
  }

  lemma InvInitially()
    ensures Inv(INITIAL)
  {
    var l := SlotLedger(INITIAL);
    forall x | x in l.all ensures exists t :: Holds(l, t, x) {
      assert Holds(l, START, x);
    }
    assert forall t, x :: Holds(l, t, x) ==> t == START && x in {0, 1, 2, 3};
  }

  lemma {:induction false} RunKeepsInv(states: seq<State>, actions: seq<Action>, n: nat)
    requires Run(states, actions) && n < |states|
    ensures Inv(states[n])
  {
    if n == 0 {
      InvInitially();
    } else {
      RunKeepsInv(states, actions, n - 1);
      StepKeepsInv(states[n - 1], actions[n - 1]);
    }
  }

  /** In every run each of the four slots is in exactly one place, so no buffer serves two
      requests, and together the places account for all four. */
  lemma SlotConservation(states: seq<State>, actions: seq<Action>, n: nat, slot: nat)
    requires Run(states, actions) && n < |states|
    ensures slot < SLOTS ==> exists p :: Places(SlotLedger(states[n]), slot) == {p}
    ensures slot >= SLOTS ==> Places(SlotLedger(states[n]), slot) == {}
    ensures multiset{0, 1, 2, 3}
            == multiset(InHands(SlotLedger(states[n]))) + multiset(PortSlots(states[n].port)) + multiset(states[n].lost)
  {
    RunKeepsInv(states, actions, n);
    LinearIsOnePlace(SlotLedger(states[n]), slot);
    Conservation(SlotLedger(states[n]));
    assert slot < SLOTS <==> slot in {0, 1, 2, 3};
  }

  // ---- how many slots are lost

  /** An action in which a request ends otherwise than with a message that fits. */
  predicate Loses(a: Action) {
    match a
    case First(_, EndedAtOnce(cause)) => ResultOf(cause) != Filled
    case Again(_, EndedAtOnce(cause)) => ResultOf(cause) != Filled
    case Complete(_, cause) => ResultOf(cause) != Filled
    case _ => false
  }

  function CountLoses(actions: seq<Action>): nat {
    if actions == [] then 0
    else CountLoses(actions[..|actions| - 1]) + if Loses(actions[|actions| - 1]) then 1 else 0
  }

  function BadPackets(port: seq<Packet>): nat {
    if port == [] then 0 else (if port[0].result == Filled then 0 else 1) + BadPackets(port[1..])
  }

  lemma {:induction false} BadSnoc(port: seq<Packet>, p: Packet)
    ensures BadPackets(port + [p]) == BadPackets(port) + if p.result == Filled then 0 else 1
  {
    if port == [] {
      assert [p][1..] == [];
    } else {
      assert (port + [p])[1..] == port[1..] + [p];
      BadSnoc(port[1..], p);
    }
  }

  lemma LossStep(s: State, a: Action)
    requires Enabled(s, a)
    ensures var s' := Do(s, a);
            |s'.lost| + BadPackets(s'.port) == |s.lost| + BadPackets(s.port) + if Loses(a) then 1 else 0
  {
    match a
    case First(slot, _) => BadSnoc(s.port, Packet(slot, Filled));
    case Complete(slot, cause) => BadSnoc(s.port, Packet(slot, ResultOf(cause)));
    case Dequeue(_) =>
    case Again(w, _) => BadSnoc(s.port, Packet(s.workers[w].slot, Filled));
    case Stop(_) =>
  }

  /** Lost slots, with those about to be lost, are counted by the requests that ended badly. */
  lemma {:induction false} LossCount(states: seq<State>, actions: seq<Action>, n: nat)
    requires Run(states, actions) && n < |states|
    ensures |states[n].lost| + BadPackets(states[n].port) == CountLoses(actions[..n])
  {
    if n > 0 {
      LossCount(states, actions, n - 1);
      LossStep(states[n - 1], actions[n - 1]);
      assert actions[..n][..n - 1] == actions[..n - 1];
    }
  }

  lemma {:induction false} NoneCounted(actions: seq<Action>)
    ensures CountLoses(actions) == 0 <==> forall i :: 0 <= i < |actions| ==> !Loses(actions[i])
  {
    if actions != [] { NoneCounted(actions[..|actions| - 1]); }
  }

  /** A request ends well exactly with a message of at most 2045 units. */
  lemma FilledIff(cause: Cause)
    ensures ResultOf(cause) == Filled <==> cause.Message? && cause.units <= 2045
  {
  }

  /** No slot is lost, nor about to be, exactly when every request that ended did so with a
      message of at most 2045 units. */
  lemma NoneLostIff(states: seq<State>, actions: seq<Action>)
    requires Run(states, actions)
    ensures states[|actions|].lost == [] && BadPackets(states[|actions|].port) == 0
            <==> forall i :: 0 <= i < |actions| ==> !Loses(actions[i])
  {
    LossCount(states, actions, |actions|);
    assert actions[..|actions|] == actions;
    NoneCounted(actions);
  }

  /** The same outcome follows from the driver: a message of so many units, copied into a request
      of the service's buffer size, completes it with the status that ResultOf says. */
  lemma ResultIsDriverStatus(d: Channel.Driver, id: nat, units: nat)
    ensures var irp, msg := Channel.Irp(id, Wire.MAX_MSG_SIZE), Channel.Msg(id, Wire.INFO_SIZE + units * 2);
            var cs := Channel.CopyOut(d, irp, msg).completions;
            && |cs| == |d.completions| + 1
            && cs[|d.completions|].status
               == if ResultOf(Message(units)) == Filled then Channel.Success else Channel.BufferTooSmall
  {
  }

  /** A message of 2046 units costs the slot that meets it. */
  lemma TooLargeLosesSlot() returns (states: seq<State>, actions: seq<Action>)
    ensures Run(states, actions)
    ensures Complete(0, Message(2046)) in actions && states[|actions|].lost == [0]
  {
    var s1 := Do(INITIAL, First(0, IssuedPending));
    var s2 := Do(s1, First(1, IssuedPending));
    var s3 := Do(s2, First(2, IssuedPending));
    var s4 := Do(s3, First(3, IssuedPending));
    assert s4.unissued == {};
    var s5 := Do(s4, Complete(0, Message(2046)));
    var s6 := Do(s5, Dequeue(0));
    states := [INITIAL, s1, s2, s3, s4, s5, s6];
    actions := [First(0, IssuedPending), First(1, IssuedPending), First(2, IssuedPending), First(3, IssuedPending),
                Complete(0, Message(2046)), Dequeue(0)];
    assert actions[4] == Complete(0, Message(2046));
  }

  /** Once all four slots are lost the workers can do nothing but stop. */
  lemma AllLostOnlyStops(states: seq<State>, actions: seq<Action>, n: nat, a: Action)
    requires Run(states, actions) && n < |states| && |states[n].lost| == SLOTS && Enabled(states[n], a)
    ensures a.Stop?
  {
    var s := states[n];
    RunKeepsInv(states, actions, n);
    SlotConservation(states, actions, n, 0);
    assert |multiset{0, 1, 2, 3}| == |multiset(InHands(SlotLedger(s)))| + |PortSlots(s.port)| + |s.lost|;
    assert InHands(SlotLedger(s)) == {} && s.port == [];
    NothingHeld(s);
  }

  lemma HoldersKnown(l: Ledger<nat>)
    ensures forall t, x :: Holds(l, t, x) ==> x in InHands(l)
  {
  }

  lemma NothingHeld(s: State)
    requires Inv(s) && InHands(SlotLedger(s)) == {}
    ensures s.unissued == {} && s.outstanding == {} && forall w :: w in s.workers ==> !s.workers[w].Handling?
  {
    HoldersKnown(SlotLedger(s));
    forall h, slot | h in Held(s) ensures slot !in Held(s)[h] {
      assert !Holds(SlotLedger(s), h, slot);
    }
    assert Held(s)[START] == s.unissued && Held(s)[DEVICE] == s.outstanding;
    forall w | w in s.workers ensures !s.workers[w].Handling? {
      assert w in {0, 1, 2, 3} && Held(s)[w] == SlotsOf(s.workers[w]);
    }
  }

  // ---- workers go on

  /** A step makes a worker leave exactly when it stops, or takes a packet with another error than a
      buffer that is too small. */
  lemma WorkerLeavesIff(s: State, a: Action, w: nat)
    requires Enabled(s, a) && w in s.workers && s.workers[w] != Exited
    ensures w in Do(s, a).workers
    ensures Do(s, a).workers[w] == Exited <==> a == Stop(w) || (a == Dequeue(w) && s.port[0].result == Error)
  {
  }

  /** A step leaves a worker with a slot in hand exactly when it had that one and took no step, or took
      the oldest packet and that says that the slot's buffer is filled. */
  lemma WorkerHandlesIff(s: State, a: Action, w: nat, slot: nat)
    requires Enabled(s, a) && w in s.workers
    ensures w in Do(s, a).workers
    ensures Do(s, a).workers[w] == Handling(slot)
            <==> (s.workers[w] == Handling(slot) && !(a.Again? && a.w == w))
                 || (a == Dequeue(w) && s.port[0] == Packet(slot, Filled))
  {
  }

  predicate Leaves(s: State, a: Action, w: nat) {
    a == Stop(w) || (a == Dequeue(w) && s.port != [] && s.port[0].result == Error)
  }

  lemma ExitedStays(s: State, a: Action, w: nat)
    requires Enabled(s, a) && w in s.workers
    ensures w in Do(s, a).workers
    ensures Do(s, a).workers[w] == Exited <==> s.workers[w] == Exited || Leaves(s, a, w)
  {
    if s.workers[w] != Exited { WorkerLeavesIff(s, a, w); }
  }

  /** In every run a worker has left exactly when it has stopped or taken such a packet. */
  lemma {:induction false} ExitedIff(states: seq<State>, actions: seq<Action>, n: nat, w: nat)
    requires Run(states, actions) && n < |states| && w < MAX_WORKERS
    ensures w in states[n].workers
    ensures states[n].workers[w] == Exited <==> exists i :: 0 <= i < n && Leaves(states[i], actions[i], w)
  {
    if n > 0 {
      ExitedIff(states, actions, n - 1, w);
      ExitedStays(states[n - 1], actions[n - 1], w);
    }
  }

  lemma {:induction false} BadPacketsNone(port: seq<Packet>)
    requires BadPackets(port) == 0
    ensures forall p :: p in port ==> p.result == Filled
  {
    if port != [] { BadPacketsNone(port[1..]); }
  }

  lemma CountedPrefix(actions: seq<Action>, n: nat)
    requires n <= |actions| && forall i :: 0 <= i < n ==> !Loses(actions[i])
    ensures CountLoses(actions[..n]) == 0
  {
    NoneCounted(actions[..n]);
  }

  /** While every request that ends gets a message that fits and no worker is stopped, no worker leaves
      and no slot is lost. */
  lemma NoWorkerLeaves(states: seq<State>, actions: seq<Action>, n: nat)
    requires Run(states, actions) && n < |states|
    requires forall i :: 0 <= i < n ==> !Loses(actions[i]) && !actions[i].Stop?
    ensures states[n].lost == []
    ensures forall w :: 0 <= w < MAX_WORKERS ==> w in states[n].workers && states[n].workers[w] != Exited
  {
    CountedPrefix(actions, n);
    LossCount(states, actions, n);
    forall w: nat | w < MAX_WORKERS ensures w in states[n].workers && states[n].workers[w] != Exited {
      ExitedIff(states, actions, n, w);
      forall i | 0 <= i < n ensures !Leaves(states[i], actions[i], w) {
        CountedPrefix(actions, i);
        LossCount(states, actions, i);
        BadPacketsNone(states[i].port);
        if states[i].port != [] { assert states[i].port[0] in states[i].port; }
      }
    }
  }

  /** And once Start has issued all slots, all four requests are outstanding or a worker can take its
      next step: the service goes on, however many events it has handled. */
  lemma ServiceGoesOn(states: seq<State>, actions: seq<Action>, n: nat)
    requires Run(states, actions) && n < |states| && states[n].unissued == {}
    requires forall i :: 0 <= i < n ==> !Loses(actions[i]) && !actions[i].Stop?
    ensures states[n].outstanding == {0, 1, 2, 3}
            || exists a :: Enabled(states[n], a) && (a.Dequeue? || (a.Again? && a.issue == IssuedPending))
  {
    var s := states[n];
    NoWorkerLeaves(states, actions, n);
    RunKeepsInv(states, actions, n);
    if w :| w in s.workers && s.workers[w].Handling? {
      assert Enabled(s, Again(w, IssuedPending));
    } else if s.port != [] {
      assert 0 in s.workers && s.workers[0].Waiting?;
      assert Enabled(s, Dequeue(0));
    } else {
      AllOutstanding(s);
    }
  }

  lemma OnlyTheDeviceHolds(s: State)
    requires s.unissued == {} && forall w :: w in s.workers ==> !s.workers[w].Handling?
    ensures forall h, slot :: Holds(SlotLedger(s), h, slot) ==> h == DEVICE && slot in s.outstanding
  {
  }

  lemma AllOutstanding(s: State)
    requires Inv(s) && s.unissued == {} && s.port == [] && s.lost == []
    requires forall w :: w in s.workers ==> !s.workers[w].Handling?
    ensures s.outstanding == {0, 1, 2, 3}
  {
    OnlyTheDeviceHolds(s);
    forall slot | slot in {0, 1, 2, 3} ensures slot in s.outstanding {
      var h :| Holds(SlotLedger(s), h, slot);
    }
    forall slot | slot in s.outstanding ensures slot in {0, 1, 2, 3} {
      assert Holds(SlotLedger(s), DEVICE, slot);
    }
  }

  // ---- packets are taken in the order in which requests ended

  /** The packet that an action posts: for a pending request however it ends, for one that ends at once
      only if its buffer is filled. */
  function Posts(s: State, a: Action): seq<Packet>
    requires Enabled(s, a)
  {
    match a
    case First(slot, EndedAtOnce(cause)) => if ResultOf(cause) == Filled then [Packet(slot, Filled)] else []
    case Again(w, EndedAtOnce(cause)) =>
      if ResultOf(cause) == Filled then [Packet(s.workers[w].slot, Filled)] else []
    case Complete(slot, cause) => [Packet(slot, ResultOf(cause))]
    case _ => []
  }

  function Takes(s: State, a: Action): seq<Packet>
    requires Enabled(s, a)
  {
    if a.Dequeue? then [s.port[0]] else []
  }

  function Posted(states: seq<State>, actions: seq<Action>, n: nat): seq<Packet>
    requires Run(states, actions) && n <= |actions|
  {
    if n == 0 then [] else Posted(states, actions, n - 1) + Posts(states[n - 1], actions[n - 1])
  }

  function Taken(states: seq<State>, actions: seq<Action>, n: nat): seq<Packet>
    requires Run(states, actions) && n <= |actions|
  {
    if n == 0 then [] else Taken(states, actions, n - 1) + Takes(states[n - 1], actions[n - 1])
  }

  lemma PortMoves(s: State, a: Action)
    requires Enabled(s, a)
    ensures s.port + Posts(s, a) == Takes(s, a) + Do(s, a).port
  {
  }

  lemma Shift<T>(taken: seq<T>, port: seq<T>, posted: seq<T>, x: seq<T>, y: seq<T>, rest: seq<T>)
    requires taken + port == posted && port + x == y + rest
    ensures (taken + y) + rest == posted + x
  {
    assert (taken + y) + rest == taken + (y + rest);
    assert posted + x == taken + (port + x);
  }

  /** In every run the packets taken, and after them those in the port, are those posted, in that order. */
  lemma {:induction false} PacketsInOrder(states: seq<State>, actions: seq<Action>, n: nat)
    requires Run(states, actions) && n <= |actions|
    ensures Taken(states, actions, n) + states[n].port == Posted(states, actions, n)
  {
    if n > 0 {
      var s, a := states[n - 1], actions[n - 1];
      PacketsInOrder(states, actions, n - 1);
      PortMoves(s, a);
      Shift(Taken(states, actions, n - 1), s.port, Posted(states, actions, n - 1),
            Posts(s, a), Takes(s, a), states[n].port);
    }
  }
}
