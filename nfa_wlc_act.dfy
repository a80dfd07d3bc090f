/**
 * The action handlers of the WLC sub-module (src/nfa/wlc/nfa_wlc_act.cc).
 * Each takes a request message, checks the live state of the device
 * manager and of the reader/writer module, and returns whether the
 * message buffer is to be freed.
 */
module NfaWlcAct {
  import opened Bytes
  import opened NfaWlcTypes

  /** The device manager is active and neither finishing its enable nor disabling NFC. */
  predicate DmReady(dmFlags: set<DmFlag>)
  {
    DmIsActive in dmFlags && !(EnableEvtPend in dmFlags || DmDisablingNfc in dmFlags)
  }

  /**
   * `nfa_wlc_enable`: stores the request's callback when the device manager
   * is ready, and always reports the outcome to that callback once.
   */
  method Enable(cb: WlcControlBlock, dm: DmControlBlock, sys: NfaSystem, msg: Msg) returns (freeBuffer: bool)
    requires msg.body.EnableBody?
    modifies cb`wlcCback, sys`upcalls
    ensures cb.wlcCback == if DmReady(dm.flags) then Some(msg.body.wlcCback) else old(cb.wlcCback)
    ensures sys.upcalls == old(sys.upcalls) + [WlcUpcall(msg.body.wlcCback, EnableResult,
      StatusData(if DmReady(dm.flags) then NFA_STATUS_OK else NFA_STATUS_FAILED))]
    ensures freeBuffer
  {
    var status: u8;
    // The device manager must be up and not in the middle of enabling or disabling.
    if DmIsActive in dm.flags && !(EnableEvtPend in dm.flags || DmDisablingNfc in dm.flags) {
      // The request's callback becomes the module's callback.
      cb.wlcCback := Some(msg.body.wlcCback);
      status := NFA_STATUS_OK;
    } else {
      status := NFA_STATUS_FAILED;
    }
    sys.upcalls := sys.upcalls + [WlcUpcall(msg.body.wlcCback, EnableResult, StatusData(status))];
    return true;
  }

  /** The RF protocols a WLC listener may have been activated with: T2T, T3T, T5T or ISO-DEP. */
  predicate WlcProtocol(p: RwProtocol)
  {
    p == ProtocolT2t || p == ProtocolT3t || p == ProtocolT5t || p == ProtocolIsoDep
  }

  /** A discovery command awaits its response or notification, or RF discovery or NFA is being stopped. */
  predicate DiscoveryPending(discFlags: set<DiscFlag>)
  {
    W4Rsp in discFlags || W4Ntf in discFlags || Stopping in discFlags || Disabling in discFlags
  }

  /** Why `nfa_wlc_start` refuses to start, checked in this order, or that it may. */
  datatype StartCheck =
    | ModeNotSupported
    | NonAutoModeAlreadyEnabled
    | NotPollActive
    | ProtocolNotSupported
    | RwApiBusy
    | DiscoveryBusy
    | StartAllowed

  /** The guard chain of `nfa_wlc_start`: the first of its checks that fails. */
  function StartGuard(mode: u8, wlcFlags: bv32, discState: DiscState, rw: RwState, discFlags: set<DiscFlag>): (r: StartCheck)
    ensures r == StartAllowed <==>
      && mode == NFA_WLC_NON_AUTONOMOUS
      && wlcFlags & NFA_WLC_FLAGS_NON_AUTO_MODE_ENABLED == 0
      && discState == PollActive
      && WlcProtocol(rw.protocol)
      && !rw.apiBusy
      && !DiscoveryPending(discFlags)
    ensures mode != NFA_WLC_NON_AUTONOMOUS ==> r == ModeNotSupported
  {
    if mode != NFA_WLC_NON_AUTONOMOUS then ModeNotSupported
    else if wlcFlags & NFA_WLC_FLAGS_NON_AUTO_MODE_ENABLED != 0 then NonAutoModeAlreadyEnabled
    else if discState != PollActive then NotPollActive
    else if !WlcProtocol(rw.protocol) then ProtocolNotSupported
    else if rw.apiBusy then RwApiBusy
    else if DiscoveryPending(discFlags) then DiscoveryBusy
    else StartAllowed
  }

  /**
   * `nfa_wlc_start`: when every guard passes, records the mode, marks the
   * RF interface extension active and WLC-P enabled in the device
   * manager's flags, reports success to the stored callback and returns
   * true. A failing guard returns false and changes nothing. The WLC
   * flags are never written.
   */
  method Start(cb: WlcControlBlock, dm: DmControlBlock, rw: RwState, sys: NfaSystem, msg: Msg) returns (ok: bool)
    requires msg.body.StartBody?
    modifies cb`wlcMode, dm`flags, sys`upcalls
    ensures ok <==> StartGuard(msg.body.mode, cb.flags, dm.discState, rw, dm.discFlags) == StartAllowed
    ensures ok ==>
      && cb.wlcMode == msg.body.mode
      && dm.flags == old(dm.flags) + {RfExtActive, WlcpEnabled}
      && sys.upcalls == old(sys.upcalls) + (if cb.wlcCback.Some?
           then [WlcUpcall(cb.wlcCback.value, StartResult, StatusData(NFA_STATUS_OK))] else [])
    ensures !ok ==> cb.wlcMode == old(cb.wlcMode) && dm.flags == old(dm.flags) && sys.upcalls == old(sys.upcalls)
  {
    ghost var check := StartGuard(msg.body.mode, cb.flags, dm.discState, rw, dm.discFlags);
    if msg.body.mode == NFA_WLC_NON_AUTONOMOUS {
      if cb.flags & NFA_WLC_FLAGS_NON_AUTO_MODE_ENABLED != 0 {
        // A start while the non-autonomous mode flag is set is refused.
        assert check == NonAutoModeAlreadyEnabled;
        return false;
      }
      if dm.discState != PollActive {
        assert check == NotPollActive;
        return false;
      }
      if !(rw.protocol == ProtocolT2t || rw.protocol == ProtocolT3t ||
           rw.protocol == ProtocolT5t || rw.protocol == ProtocolIsoDep) {
        assert check == ProtocolNotSupported;
        return false;
      }
      if rw.apiBusy {
        assert check == RwApiBusy;
        return false;
      }
      if W4Rsp in dm.discFlags || W4Ntf in dm.discFlags || Stopping in dm.discFlags || Disabling in dm.discFlags {
        assert check == DiscoveryBusy;
        return false;
      }
      assert check == StartAllowed;
      cb.wlcMode := msg.body.mode;
      dm.flags := dm.flags + {RfExtActive};
      dm.flags := dm.flags + {WlcpEnabled};
      cb.EventNotify(sys, StartResult, StatusData(NFA_STATUS_OK));
      return true;
    } else {
      assert check == ModeNotSupported;
      return false;
    }
  }

  /**
   * A successful start does not latch: it leaves clear the flag that its
   * duplicate-start guard tests, so the same start request handled again
   * succeeds again and reports success a second time.
   */
  method StartTwice(cb: WlcControlBlock, dm: DmControlBlock, rw: RwState, sys: NfaSystem, msg: Msg)
    returns (first: bool, second: bool)
    requires msg.body.StartBody?
    modifies cb`wlcMode, dm`flags, sys`upcalls
    ensures first ==> second
    ensures cb.flags == old(cb.flags)
  {
    first := Start(cb, dm, rw, sys, msg);
    second := Start(cb, dm, rw, sys, msg);
  }

  /**
   * `nfa_wlc_non_auto_start_wpt`: forwards the two parameters to the device
   * manager's wireless-power-transfer start and returns true; no WLC state
   * changes.
   */
  method NonAutoStartWpt(sys: NfaSystem, msg: Msg) returns (freeBuffer: bool)
    requires msg.body.StartWptBody?
    modifies sys`wptRequests
    ensures sys.wptRequests == old(sys.wptRequests) + [WptRequest(msg.body.powerAdjReq, msg.body.wptTimeInt)]
    ensures freeBuffer
  {
    sys.wptRequests := sys.wptRequests + [WptRequest(msg.body.powerAdjReq, msg.body.wptTimeInt)];
    return true;
  }
}
