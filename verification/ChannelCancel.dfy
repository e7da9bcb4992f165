/** The cancel protocol: how the cancel flag, the cancel routine and the list of pending
    requests stay in step while dispatchers, senders and cancels race. */
module ChannelCancel {
  import opened Common
  import opened Channel
  import opened Ledgers
  import opened ChannelLedgers

  /** A cancel that took the cancel routine away and is about to pop its request. */
  ghost predicate Claims(s: State, t: nat, irp: Irp) {
    t in s.threads && (s.threads[t] == CancelRelease(irp) || s.threads[t] == CancelPop(irp))
  }

  ghost predicate Marked(s: State, t: nat, irp: Irp) {
    t in s.threads && s.threads[t] == CancelExchange(irp)
  }

  ghost predicate Arming(s: State, t: nat, irp: Irp) {
    t in s.threads && (s.threads[t] == DispPush(irp) || s.threads[t] == DispDisarm(irp))
  }

  ghost predicate Exchanging(s: State, t: nat, irp: Irp) {
    t in s.threads && s.threads[t].SendExchange? && s.threads[t].irp == irp
  }

  ghost predicate Revoking(s: State, t: nat, irp: Irp) {
    t in s.threads && s.threads[t].SendCancel? && s.threads[t].irp == irp
  }

  /** Exactly one thread stands inside the global cancel lock while it is taken. */
  ghost predicate LockInv(s: State) {
    && (forall t :: t in s.threads && HoldsLock(s.threads[t]) ==> s.cancelLock == Some(t))
    && (s.cancelLock.Some? ==> s.cancelLock.value in s.threads && HoldsLock(s.threads[s.cancelLock.value]))
  }

  predicate AfterShutdown(pc: Pc) {
    pc.DispPop? || pc.SendPop? || pc.SendRefuse? || pc.Returned? || pc.CancelStart? || pc.CancelMark?
    || pc.CancelExchange? || pc.CancelRelease? || pc.CancelGiveUp? || pc.CancelPop?
  }

  ghost predicate ShutdownInv(s: State) {
    !s.d.up ==> s.d.irpList == [] && s.d.dataList == []
                && forall t :: t in s.threads ==> AfterShutdown(s.threads[t])
  }

  /** Where a request with a cancel routine can be. */
  ghost predicate ArmedInv(s: State) {
    && (forall irp :: irp in s.d.armed ==>
          || irp in s.d.irpList
          || (exists t :: Arming(s, t, irp) || Exchanging(s, t, irp))
          || (!s.d.up && irp in CompletedIrps(s.d.completions)))
    && (forall t, irp :: Arming(s, t, irp) ==> irp in s.d.armed && irp !in s.d.cancelFlag)
  }

  /** A claim is exclusive, and the claimed request is still to be completed by whoever has it. */
  ghost predicate ClaimInv(s: State) {
    && (forall t, irp :: Claims(s, t, irp) ==>
          && irp !in s.d.armed
          && irp in s.d.cancelFlag
          && (|| irp in s.d.irpList
              || irp in CompletedIrps(s.d.completions)
              || exists u :: Exchanging(s, u, irp) || Revoking(s, u, irp)))
    && (forall t, u, irp :: Claims(s, t, irp) && Claims(s, u, irp) ==> t == u)
  }

  /** No cancellation is lost. */
  ghost predicate NoLostCancel(s: State) {
    && (forall irp :: irp in s.d.irpList && irp !in s.d.armed ==> exists t :: Claims(s, t, irp))
    && (forall irp :: irp in s.d.irpList && irp in s.d.cancelFlag && irp in s.d.armed ==>
          exists t :: Marked(s, t, irp))
    && (forall t, irp :: Marked(s, t, irp) ==> irp in s.d.cancelFlag)
  }

  ghost predicate CancelInv(s: State) {
    LockInv(s) && ShutdownInv(s) && ArmedInv(s) && ClaimInv(s) && NoLostCancel(s) && s.d.danglingNodes == {}
  }

  /** What being the holder of a request rules out. */
  lemma Exclusive(s: State, t: nat, irp: Irp)
    requires Linear(IrpLedger(s)) && t in s.threads && irp in IrpsOf(s.threads[t])
    ensures irp in s.d.submitted && irp !in s.d.irpList && irp !in CompletedIrps(s.d.completions)
    ensures forall u :: u in s.threads && irp in IrpsOf(s.threads[u]) ==> u == t
  {
    assert Holds(IrpLedger(s), t, irp);
    forall u | u in s.threads && irp in IrpsOf(s.threads[u]) ensures u == t {
      assert Holds(IrpLedger(s), u, irp);
    }
  }

  // ---- the lock and shutdown

  lemma LockDispatch(s: State, t: nat, ok: bool)
    requires LockInv(s) && Enabled(s, Advance(t, ok)) && IsDispatch(s.threads[t])
    ensures LockInv(DispatchStep(s, t, ok))
  {
  }

  lemma LockSend(s: State, t: nat, ok: bool)
    requires LockInv(s) && t in s.threads && IsSend(s.threads[t])
    ensures LockInv(SendStep(s, t, ok))
  {
  }

  lemma LockCancel(mode: PopMode, s: State, t: nat, ok: bool)
    requires LockInv(s) && Enabled(s, Advance(t, ok)) && !IsDispatch(s.threads[t]) && !IsSend(s.threads[t])
    ensures LockInv(CancelStep(mode, s, t))
  {
  }

  lemma LockStays(mode: PopMode, s: State, a: Action)
    requires LockInv(s) && Enabled(s, a)
    ensures LockInv(Do(mode, s, a))
  {
    match a
    case Advance(t, ok) =>
      if IsDispatch(s.threads[t]) {
        LockDispatch(s, t, ok);
      } else if IsSend(s.threads[t]) {
        LockSend(s, t, ok);
      } else {
        LockCancel(mode, s, t, ok);
      }
    case _ =>
  }

  lemma ShutdownStays(mode: PopMode, s: State, a: Action)
    requires ShutdownInv(s) && Enabled(s, a)
    ensures ShutdownInv(Do(mode, s, a))
  {
    if a == Finalize { ShutdownEffect(s.d); }
  }

  // ---- the protocol: most steps do not touch it

  ghost predicate ProtocolInv(s: State) {
    ArmedInv(s) && ClaimInv(s) && NoLostCancel(s)
  }

  predicate Plain(pc: Pc) {
    !(pc.DispPush? || pc.DispDisarm? || pc.SendExchange? || pc.SendCancel?
      || pc.CancelExchange? || pc.CancelRelease? || pc.CancelPop?)
  }

  lemma QuietStep(s: State, s': State, t: nat)
    requires ProtocolInv(s) && Moves(s, s', t)
    requires (t in s.threads ==> Plain(s.threads[t])) && Plain(s'.threads[t])
    requires s'.d.armed == s.d.armed && s'.d.cancelFlag == s.d.cancelFlag
    requires s'.d.irpList == s.d.irpList && s'.d.up == s.d.up
    requires forall irp :: irp in CompletedIrps(s.d.completions) ==> irp in CompletedIrps(s'.d.completions)
    ensures ProtocolInv(s')
  {
    assert forall u, irp :: Arming(s', u, irp) <==> Arming(s, u, irp);
    assert forall u, irp :: Exchanging(s', u, irp) <==> Exchanging(s, u, irp);
    assert forall u, irp :: Revoking(s', u, irp) <==> Revoking(s, u, irp);
    assert forall u, irp :: Claims(s', u, irp) <==> Claims(s, u, irp);
    assert forall u, irp :: Marked(s', u, irp) <==> Marked(s, u, irp);
  }

  lemma CompletedGrows(d: Driver, c: Completion)
    ensures forall irp :: irp in CompletedIrps(d.completions) ==> irp in CompletedIrps(d.completions + [c])
    ensures c.irp in CompletedIrps(d.completions + [c])
  {
    CompletedIrpsSnoc(d.completions, c);
  }

  /** The threads other than t keep their part in the protocol. */
  ghost predicate Framed(s: State, s': State, t: nat) {
    && t in s.threads && t in s'.threads
    && (forall u, i :: u != t ==> (Arming(s', u, i) <==> Arming(s, u, i)))
    && (forall u, i :: u != t ==> (Exchanging(s', u, i) <==> Exchanging(s, u, i)))
    && (forall u, i :: u != t ==> (Revoking(s', u, i) <==> Revoking(s, u, i)))
    && (forall u, i :: u != t ==> (Claims(s', u, i) <==> Claims(s, u, i)))
    && (forall u, i :: u != t ==> (Marked(s', u, i) <==> Marked(s, u, i)))
  }

  lemma Frame(s: State, s': State, t: nat)
    requires t in s.threads && Moves(s, s', t)
    ensures Framed(s, s', t)
  {
  }

  ghost predicate IsPlacedArmed(s: State, irp: Irp) {
    || irp in s.d.irpList
    || (exists t :: Arming(s, t, irp) || Exchanging(s, t, irp))
    || (!s.d.up && irp in CompletedIrps(s.d.completions))
  }

  /** Taking the cancel routine of irp away in thread t, which holds or owns the exchange. */
  lemma ArmedShrinks(s: State, s': State, t: nat, irp: Irp)
    requires ArmedInv(s) && Framed(s, s', t)
    requires s'.d == s.d.(armed := s.d.armed - {irp})
    requires forall i :: !Arming(s, t, i) && !Arming(s', t, i)
    requires forall i :: Exchanging(s, t, i) ==> i == irp
    requires forall u :: !Arming(s, u, irp)
    ensures ArmedInv(s')
  {
    forall i | i in s'.d.armed ensures IsPlacedArmed(s', i) {
      if u :| Arming(s, u, i) || Exchanging(s, u, i) {
        assert Arming(s', u, i) || Exchanging(s', u, i);
      }
    }
  }

  // ---- the steps that do

  lemma StepTest(s: State, t: nat, ok: bool)
    requires Linear(IrpLedger(s)) && CancelInv(s) && t in s.threads && s.threads[t].DispTest?
    ensures ProtocolInv(DispatchStep(s, t, ok))
  {
    var s', irp := DispatchStep(s, t, ok), s.threads[t].irp;
    Exclusive(s, t, irp);
    if irp in s.d.cancelFlag {
      QuietStep(s, s', t);
    } else {
      assert Arming(s', t, irp);
      Frame(s, s', t);
      TestArms(s, s', t, irp);
      TestKeepsClaims(s, s', t, irp);
    }
  }

  lemma TestArms(s: State, s': State, t: nat, irp: Irp)
    requires ArmedInv(s) && Framed(s, s', t) && irp !in s.d.cancelFlag
    requires s'.d == s.d.(armed := s.d.armed + {irp})
    requires s.threads[t].DispTest? && s'.threads[t] == DispPush(irp)
    ensures ArmedInv(s')
  {
    assert Arming(s', t, irp);
    forall i | i in s'.d.armed ensures IsPlacedArmed(s', i) {
      if u :| Arming(s, u, i) || Exchanging(s, u, i) {
        assert Arming(s', u, i) || Exchanging(s', u, i);
      }
    }
    assert forall u, i :: Arming(s', u, i) ==> Arming(s, u, i) || i == irp;
  }

  lemma TestKeepsClaims(s: State, s': State, t: nat, irp: Irp)
    requires ClaimInv(s) && NoLostCancel(s) && Framed(s, s', t) && irp !in s.d.cancelFlag && irp !in s.d.irpList
    requires s'.d == s.d.(armed := s.d.armed + {irp})
    requires s.threads[t].DispTest? && s'.threads[t] == DispPush(irp)
    ensures ClaimInv(s') && NoLostCancel(s')
  {
    assert forall u, i :: Exchanging(s', u, i) <==> Exchanging(s, u, i);
    assert forall u, i :: Revoking(s', u, i) <==> Revoking(s, u, i);
    assert forall u, i :: Claims(s', u, i) <==> Claims(s, u, i);
    assert forall u, i :: Marked(s', u, i) <==> Marked(s, u, i);
  }

  lemma StepPush(s: State, t: nat, ok: bool)
    requires CancelInv(s) && t in s.threads && s.threads[t].DispPush?
    ensures ProtocolInv(DispatchStep(s, t, ok))
  {
    var s', irp := DispatchStep(s, t, ok), s.threads[t].irp;
    assert Arming(s, t, irp);
    Frame(s, s', t);
    PushArmed(s, s', t, irp);
    assert ClaimInv(s');
    assert NoLostCancel(s');
  }

  lemma PushArmed(s: State, s': State, t: nat, irp: Irp)
    requires ArmedInv(s) && Framed(s, s', t) && s.threads[t] == DispPush(irp)
    requires s'.threads[t] == DispDisarm(irp) || (s'.threads[t] == DispUnlock(irp) && irp in s'.d.irpList)
    requires s'.d == s.d.(irpList := s'.d.irpList) && forall i :: i in s.d.irpList ==> i in s'.d.irpList
    ensures ArmedInv(s')
  {
    forall i | i in s'.d.armed ensures IsPlacedArmed(s', i) {
      if u :| Arming(s, u, i) || Exchanging(s, u, i) {
        assert i == irp || Arming(s', u, i) || Exchanging(s', u, i);
        assert i == irp ==> i in s'.d.irpList || Arming(s', t, i);
      }
    }
    forall u, i | Arming(s', u, i) ensures i in s'.d.armed && i !in s'.d.cancelFlag {
      assert Arming(s, u, i);
    }
  }

  lemma StepDisarm(s: State, t: nat, ok: bool)
    requires Linear(IrpLedger(s)) && CancelInv(s) && t in s.threads && s.threads[t].DispDisarm?
    ensures ProtocolInv(DispatchStep(s, t, ok))
  {
    var s', irp := DispatchStep(s, t, ok), s.threads[t].irp;
    Exclusive(s, t, irp);
    Frame(s, s', t);
    DisarmShrinks(s, s', t, irp);
    assert Arming(s, t, irp);
    ArmedTakenKeepsClaims(s, s', t, irp);
  }

  lemma DisarmShrinks(s: State, s': State, t: nat, irp: Irp)
    requires ArmedInv(s) && Framed(s, s', t) && s.threads[t] == DispDisarm(irp) && s'.threads[t] == DispRelease(irp)
    requires s'.d == s.d.(armed := s.d.armed - {irp})
    requires forall u :: u in s.threads && irp in IrpsOf(s.threads[u]) ==> u == t
    ensures ArmedInv(s')
  {
    forall i | i in s'.d.armed ensures IsPlacedArmed(s', i) {
      if u :| Arming(s, u, i) || Exchanging(s, u, i) {
        assert Arming(s', u, i) || Exchanging(s', u, i);
      }
    }
    forall u, i | Arming(s', u, i) ensures i in s'.d.armed && i !in s'.d.cancelFlag {
      assert Arming(s, u, i) && i in IrpsOf(s.threads[u]);
    }
  }

  lemma StepSendPop(s: State, t: nat, ok: bool)
    requires Linear(IrpLedger(s)) && CancelInv(s) && t in s.threads && s.threads[t].SendPop?
    ensures ProtocolInv(SendStep(s, t, ok))
  {
    var s' := SendStep(s, t, ok);
    if s.d.up && s.d.irpList != [] {
      var irp := s.d.irpList[0];
      assert Exchanging(s', t, irp);
      assert forall i :: i in s.d.irpList <==> i == irp || i in s'.d.irpList;
      Frame(s, s', t);
      SendPopArmed(s, s', t, irp);
      SendPopClaims(s, s', t, irp);
    } else {
      QuietStep(s, s', t);
    }
  }

  lemma SendPopClaims(s: State, s': State, t: nat, irp: Irp)
    requires ClaimInv(s) && NoLostCancel(s) && Framed(s, s', t) && s.threads[t].SendPop? && Exchanging(s', t, irp)
    requires s'.d == s.d.(irpList := s'.d.irpList)
    requires forall i :: i in s.d.irpList <==> i == irp || i in s'.d.irpList
    ensures ClaimInv(s') && NoLostCancel(s')
  {
    assert forall u, i :: Claims(s', u, i) <==> Claims(s, u, i);
    assert forall u, i :: Marked(s', u, i) <==> Marked(s, u, i);
    assert forall u, i :: Exchanging(s, u, i) || Revoking(s, u, i) ==> Exchanging(s', u, i) || Revoking(s', u, i);
  }

  lemma SendPopArmed(s: State, s': State, t: nat, irp: Irp)
    requires ArmedInv(s) && Framed(s, s', t) && s.threads[t].SendPop? && Exchanging(s', t, irp)
    requires s'.d == s.d.(irpList := s'.d.irpList)
    requires forall i :: i in s.d.irpList ==> i == irp || i in s'.d.irpList
    ensures ArmedInv(s')
  {
    forall i | i in s'.d.armed ensures IsPlacedArmed(s', i) {
      if u :| Arming(s, u, i) || Exchanging(s, u, i) {
        assert Arming(s', u, i) || Exchanging(s', u, i);
      }
    }
  }

  lemma StepSendExchangeArmed(s: State, t: nat, ok: bool)
    requires Linear(IrpLedger(s)) && ProtocolInv(s) && t in s.threads && s.threads[t].SendExchange?
    requires s.threads[t].irp in s.d.armed
    ensures ProtocolInv(SendStep(s, t, ok))
  {
    var s', irp := SendStep(s, t, ok), s.threads[t].irp;
    Exclusive(s, t, irp);
    Frame(s, s', t);
    ArmedShrinks(s, s', t, irp);
    ArmedTakenKeepsClaims(s, s', t, irp);
  }

  /** Its cancel routine is taken from a request in hand, so no cancel has a claim on it. */
  lemma ArmedTakenKeepsClaims(s: State, s': State, t: nat, irp: Irp)
    requires ClaimInv(s) && NoLostCancel(s) && Framed(s, s', t)
    requires irp in s.d.armed && irp !in s.d.irpList
    requires s'.d == s.d.(armed := s.d.armed - {irp})
    requires s.threads[t] == DispDisarm(irp) || (s.threads[t].SendExchange? && s.threads[t].irp == irp)
    requires s'.threads[t].DispRelease? || s'.threads[t].SendCopy?
    ensures ClaimInv(s') && NoLostCancel(s')
  {
    assert forall u, i :: Claims(s', u, i) <==> Claims(s, u, i);
    assert forall u, i :: Marked(s', u, i) <==> Marked(s, u, i);
    assert forall u :: !Claims(s, u, irp);
    assert forall u, i :: i != irp && (Exchanging(s, u, i) || Revoking(s, u, i)) ==>
             Exchanging(s', u, i) || Revoking(s', u, i);
  }

  lemma StepSendExchangeBare(s: State, t: nat, ok: bool)
    requires Linear(IrpLedger(s)) && ProtocolInv(s) && t in s.threads && s.threads[t].SendExchange?
    requires s.threads[t].irp !in s.d.armed
    ensures ProtocolInv(SendStep(s, t, ok))
  {
    var s', irp := SendStep(s, t, ok), s.threads[t].irp;
    Frame(s, s', t);
    assert s'.d == s.d;
    assert Revoking(s', t, irp);
    ArmedShrinks(s, s', t, irp);
    assert ClaimInv(s');
    assert NoLostCancel(s');
  }

  lemma StepSendExchange(s: State, t: nat, ok: bool)
    requires Linear(IrpLedger(s)) && CancelInv(s) && t in s.threads && s.threads[t].SendExchange?
    ensures ProtocolInv(SendStep(s, t, ok))
  {
    if s.threads[t].irp in s.d.armed {
      StepSendExchangeArmed(s, t, ok);
    } else {
      StepSendExchangeBare(s, t, ok);
    }
  }

  lemma StepSendCancel(s: State, t: nat, ok: bool)
    requires CancelInv(s) && t in s.threads && s.threads[t].SendCancel?
    ensures ProtocolInv(SendStep(s, t, ok))
  {
    var s', irp := SendStep(s, t, ok), s.threads[t].irp;
    CompletedGrows(s.d, Completion(irp, Cancelled));
    Frame(s, s', t);
    assert ArmedInv(s');
    assert ClaimInv(s');
  }

  lemma StepMark(mode: PopMode, s: State, t: nat)
    requires CancelInv(s) && t in s.threads && s.threads[t].CancelMark?
    ensures ProtocolInv(CancelStep(mode, s, t))
  {
    var s', irp := CancelStep(mode, s, t), s.threads[t].irp;
    Frame(s, s', t);
    assert Marked(s', t, irp);
    LockedOut(s, t);
    assert ArmedInv(s');
    assert ClaimInv(s');
  }

  /** While t stands inside the cancel lock as a cancel, no dispatcher is arming a request. */
  lemma LockedOut(s: State, t: nat)
    requires LockInv(s) && t in s.threads && (s.threads[t].CancelMark? || s.threads[t].CancelExchange?)
    ensures forall u, i :: !Arming(s, u, i)
  {
    forall u, i ensures !Arming(s, u, i) {
      if u in s.threads && HoldsLock(s.threads[u]) {
        assert s.cancelLock == Some(u) && s.cancelLock == Some(t);
      }
    }
  }

  lemma StepExchange(mode: PopMode, s: State, t: nat)
    requires Linear(IrpLedger(s)) && CancelInv(s) && t in s.threads && s.threads[t].CancelExchange?
    ensures ProtocolInv(CancelStep(mode, s, t))
  {
    var s', irp := CancelStep(mode, s, t), s.threads[t].irp;
    Frame(s, s', t);
    assert Marked(s, t, irp);
    LockedOut(s, t);
    if irp in s.d.armed {
      assert Claims(s', t, irp);
      ExchangeClaims(s, s', t, irp);
    } else {
      assert s'.d == s.d;
    }
    ArmedShrinks(s, s', t, irp);
    assert NoLostCancel(s');
  }

  lemma ExchangeClaims(s: State, s': State, t: nat, irp: Irp)
    requires ArmedInv(s) && ClaimInv(s) && ShutdownInv(s) && irp in s.d.armed && irp in s.d.cancelFlag
    requires s'.d == s.d.(armed := s.d.armed - {irp}) && Framed(s, s', t)
    requires forall u, i :: !Arming(s, u, i)
    requires s.threads[t] == CancelExchange(irp) && s'.threads[t] == CancelRelease(irp)
    ensures ClaimInv(s')
  {
  }

  lemma StepRelease(mode: PopMode, s: State, t: nat)
    requires CancelInv(s) && t in s.threads && s.threads[t].CancelRelease?
    ensures ProtocolInv(CancelStep(mode, s, t))
  {
    var s' := CancelStep(mode, s, t);
    assert forall u, i :: Arming(s', u, i) <==> Arming(s, u, i);
    assert forall u, i :: Exchanging(s', u, i) <==> Exchanging(s, u, i);
    assert forall u, i :: Revoking(s', u, i) <==> Revoking(s, u, i);
    assert forall u, i :: Claims(s', u, i) <==> Claims(s, u, i);
    assert forall u, i :: Marked(s', u, i) <==> Marked(s, u, i);
  }

  lemma StepPop(mode: PopMode, s: State, t: nat)
    requires Linear(IrpLedger(s)) && CancelInv(s) && t in s.threads && s.threads[t].CancelPop?
    requires mode == Exact || !PopMisses(s, Advance(t, true))
    ensures ProtocolInv(CancelStep(mode, s, t))
  {
    var s', irp := CancelStep(mode, s, t), s.threads[t].irp;
    assert Claims(s, t, irp);
    PopShrinks(mode, s, t);
    Frame(s, s', t);
    PopArmed(s, s', t, irp);
    PopClaims(s, s', t, irp);
    PopLosesNothing(s, s', t, irp);
  }

  lemma PopArmed(s: State, s': State, t: nat, irp: Irp)
    requires ArmedInv(s) && ClaimInv(s) && Claims(s, t, irp) && Framed(s, s', t)
    requires s'.d == s.d.(irpList := s'.d.irpList)
    requires forall i :: i in s'.d.irpList <==> i in s.d.irpList && i != irp
    requires s'.threads[t].Returned? || s'.threads[t].CancelComplete?
    ensures ArmedInv(s')
  {
    forall i | i in s'.d.armed ensures IsPlacedArmed(s', i) {
      if u :| Arming(s, u, i) || Exchanging(s, u, i) {
        assert Arming(s', u, i) || Exchanging(s', u, i);
      }
    }
  }

  lemma PopClaims(s: State, s': State, t: nat, irp: Irp)
    requires ClaimInv(s) && Claims(s, t, irp) && Framed(s, s', t)
    requires s'.d == s.d.(irpList := s'.d.irpList)
    requires forall i :: i in s'.d.irpList <==> i in s.d.irpList && i != irp
    requires s'.threads[t].Returned? || s'.threads[t].CancelComplete?
    ensures ClaimInv(s')
  {
    forall u, i | Claims(s', u, i)
      ensures i in s'.d.irpList || i in CompletedIrps(s'.d.completions)
              || exists w :: Exchanging(s', w, i) || Revoking(s', w, i)
    {
      assert Claims(s, u, i) && i != irp;
      if w :| Exchanging(s, w, i) || Revoking(s, w, i) {
        assert Exchanging(s', w, i) || Revoking(s', w, i);
      }
    }
  }

  lemma PopLosesNothing(s: State, s': State, t: nat, irp: Irp)
    requires NoLostCancel(s) && Claims(s, t, irp) && Framed(s, s', t)
    requires s'.d == s.d.(irpList := s'.d.irpList)
    requires forall i :: i in s'.d.irpList <==> i in s.d.irpList && i != irp
    requires s'.threads[t].Returned? || s'.threads[t].CancelComplete?
    ensures NoLostCancel(s')
  {
  }

  /** The pop takes out exactly the cancelled request, if it is there. */
  lemma PopShrinks(mode: PopMode, s: State, t: nat)
    requires Linear(IrpLedger(s)) && ShutdownInv(s) && t in s.threads && s.threads[t].CancelPop?
    requires mode == Exact || !PopMisses(s, Advance(t, true))
    ensures var irp, d' := s.threads[t].irp, CancelStep(mode, s, t).d;
            && d' == s.d.(irpList := d'.irpList)
            && forall i :: i in d'.irpList <==> i in s.d.irpList && i != irp
  {
    var irp := s.threads[t].irp;
    if irp in s.d.irpList {
      var k := FirstIndex(s.d.irpList, irp);
    }
  }

  lemma StepFinalize(s: State)
    requires CancelInv(s) && Quiescent(s)
    ensures ProtocolInv(s.(d := Shutdown(s.d)))
  {
    ShutdownEffect(s.d);
    var s' := s.(d := Shutdown(s.d));
    assert forall u, i :: !Arming(s, u, i) && !Arming(s', u, i);
    assert forall u, i :: !Exchanging(s, u, i);
    assert forall u, i :: !Claims(s', u, i);
    assert forall u, i :: !Marked(s', u, i);
  }

  // ---- all steps

  lemma ProtocolDispatch(s: State, t: nat, ok: bool)
    requires Linear(IrpLedger(s)) && CancelInv(s) && t in s.threads && IsDispatch(s.threads[t])
    ensures ProtocolInv(DispatchStep(s, t, ok))
  {
    var s', pc := DispatchStep(s, t, ok), s.threads[t];
    if pc.DispTest? {
      StepTest(s, t, ok);
    } else if pc.DispPush? {
      StepPush(s, t, ok);
    } else if pc.DispDisarm? {
      StepDisarm(s, t, ok);
    } else {
      if |s'.d.completions| > |s.d.completions| {
        CompletedGrows(s.d, s'.d.completions[|s.d.completions|]);
      }
      QuietStep(s, s', t);
    }
  }

  lemma ProtocolSend(s: State, t: nat, ok: bool)
    requires Linear(IrpLedger(s)) && CancelInv(s) && t in s.threads && IsSend(s.threads[t])
    ensures ProtocolInv(SendStep(s, t, ok))
  {
    var s', pc := SendStep(s, t, ok), s.threads[t];
    if pc.SendPop? {
      StepSendPop(s, t, ok);
    } else if pc.SendExchange? {
      StepSendExchange(s, t, ok);
    } else if pc.SendCancel? {
      StepSendCancel(s, t, ok);
    } else {
      if pc.SendCopy? {
        CompletedGrows(s.d, s'.d.completions[|s.d.completions|]);
      }
      QuietStep(s, s', t);
    }
  }

  lemma ProtocolCancel(mode: PopMode, s: State, t: nat, ok: bool)
    requires Linear(IrpLedger(s)) && CancelInv(s) && Enabled(s, Advance(t, ok))
    requires !IsDispatch(s.threads[t]) && !IsSend(s.threads[t])
    requires mode == Exact || !PopMisses(s, Advance(t, ok))
    ensures ProtocolInv(CancelStep(mode, s, t))
  {
    var s', pc := CancelStep(mode, s, t), s.threads[t];
    match pc
    case CancelMark(_) => StepMark(mode, s, t);
    case CancelExchange(_) => StepExchange(mode, s, t);
    case CancelRelease(_) => StepRelease(mode, s, t);
    case CancelPop(_) => StepPop(mode, s, t);
    case CancelComplete(irp) =>
      CompletedGrows(s.d, Completion(irp, Cancelled));
      QuietStep(s, s', t);
    case _ => QuietStep(s, s', t);
  }

  lemma NothingDangles(mode: PopMode, s: State, a: Action)
    requires Enabled(s, a) && s.d.danglingNodes == {}
    requires mode == Exact || !PopMisses(s, a)
    ensures Do(mode, s, a).d.danglingNodes == {}
  {
    if a == Finalize { ShutdownEffect(s.d); }
  }

  /** Unless a literal Pop(buffer) misses, a step keeps the cancel protocol intact. */
  lemma CancelStays(mode: PopMode, s: State, a: Action)
    requires Linear(IrpLedger(s)) && CancelInv(s) && Enabled(s, a)
    requires mode == Exact || !PopMisses(s, a)
    ensures CancelInv(Do(mode, s, a))
  {
    var s' := Do(mode, s, a);
    LockStays(mode, s, a);
    ShutdownStays(mode, s, a);
    NothingDangles(mode, s, a);
    assert ProtocolInv(s') by {
      match a
      case Advance(t, ok) =>
        if IsDispatch(s.threads[t]) {
          ProtocolDispatch(s, t, ok);
        } else if IsSend(s.threads[t]) {
          ProtocolSend(s, t, ok);
        } else {
          ProtocolCancel(mode, s, t, ok);
        }
      case Finalize => StepFinalize(s);
      case StartDispatch(t, _) => QuietStep(s, s', t);
      case StartSend(t, _) => QuietStep(s, s', t);
      case StartCancel(t, _) => QuietStep(s, s', t);
    }
  }
}
