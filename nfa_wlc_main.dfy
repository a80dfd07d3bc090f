/**
 * The WLC sub-module's entry points (src/nfa/wlc/nfa_wlc_main.cc):
 * initialisation and registration with the NFA system, the event handler
 * that dispatches request messages through the action table, and the
 * event-name function used for logging.
 */
module NfaWlcMain {
  import opened Bytes
  import opened NfaWlcTypes
  import Act = NfaWlcAct

  /** `NFA_WLC_ACTION_TBL_SIZE`: enable, start, start-WPT. */
  const NFA_WLC_ACTION_TBL_SIZE: nat := 3

  /**
   * `nfa_wlc_init`: clears the control block (flags 0, no callback, mode 0)
   * and registers the module's handlers with the NFA system.
   */
  method Init(cb: WlcControlBlock, sys: NfaSystem)
    modifies cb, sys`wlcRegistered
    ensures cb.flags == 0 && cb.wlcCback == None && cb.wlcMode == 0
    ensures sys.wlcRegistered
  {
    cb.flags := 0;
    cb.wlcCback := None;
    cb.wlcMode := 0;
    sys.wlcRegistered := true;
  }

  /** `nfa_wlc_sys_disable`: only deregisters the module; the control block keeps its callback, flags and mode. */
  method SysDisable(cb: WlcControlBlock, sys: NfaSystem)
    modifies sys`wlcRegistered
    ensures !sys.wlcRegistered
    ensures cb.flags == old(cb.flags) && cb.wlcCback == old(cb.wlcCback) && cb.wlcMode == old(cb.wlcMode)
  {
    sys.wlcRegistered := false;
  }

  /**
   * `nfa_wlc_handle_event`: runs the action the low byte of the event id
   * selects (0 enable, 1 start, 2 start-WPT) and returns its result; any
   * other sub-event, `NFA_WLC_API_REMOVE_EP_EVT` included, runs nothing
   * and returns true.
   */
  method HandleEvent(cb: WlcControlBlock, dm: DmControlBlock, rw: RwState, sys: NfaSystem, msg: Msg)
    returns (freeBuffer: bool)
    requires WellFormed(msg)
    modifies cb`wlcCback, cb`wlcMode, dm`flags, sys`upcalls, sys`wptRequests
    ensures cb.flags == old(cb.flags) && sys.queue == old(sys.queue) && sys.wlcRegistered == old(sys.wlcRegistered)
    ensures msg.event.index == 0 ==>
      && freeBuffer
      && cb.wlcCback == (if Act.DmReady(dm.flags) then Some(msg.body.wlcCback) else old(cb.wlcCback))
      && sys.upcalls == old(sys.upcalls) + [WlcUpcall(msg.body.wlcCback, EnableResult,
           StatusData(if Act.DmReady(dm.flags) then NFA_STATUS_OK else NFA_STATUS_FAILED))]
      && cb.wlcMode == old(cb.wlcMode) && dm.flags == old(dm.flags) && sys.wptRequests == old(sys.wptRequests)
    ensures msg.event.index == 1 ==>
      && (freeBuffer <==> Act.StartGuard(msg.body.mode, cb.flags, dm.discState, rw, dm.discFlags) == Act.StartAllowed)
      && cb.wlcCback == old(cb.wlcCback) && sys.wptRequests == old(sys.wptRequests)
      && (freeBuffer ==>
            && cb.wlcMode == msg.body.mode
            && dm.flags == old(dm.flags) + {RfExtActive, WlcpEnabled}
            && sys.upcalls == old(sys.upcalls) + (if cb.wlcCback.Some?
                 then [WlcUpcall(cb.wlcCback.value, StartResult, StatusData(NFA_STATUS_OK))] else []))
      && (!freeBuffer ==> cb.wlcMode == old(cb.wlcMode) && dm.flags == old(dm.flags) && sys.upcalls == old(sys.upcalls))
    ensures msg.event.index == 2 ==>
      && freeBuffer
      && sys.wptRequests == old(sys.wptRequests) + [WptRequest(msg.body.powerAdjReq, msg.body.wptTimeInt)]
      && cb.wlcCback == old(cb.wlcCback) && cb.wlcMode == old(cb.wlcMode)
      && dm.flags == old(dm.flags) && sys.upcalls == old(sys.upcalls)
    ensures msg.event.index >= NFA_WLC_ACTION_TBL_SIZE ==>
      && freeBuffer
      && cb.wlcCback == old(cb.wlcCback) && cb.wlcMode == old(cb.wlcMode) && dm.flags == old(dm.flags)
      && sys.upcalls == old(sys.upcalls) && sys.wptRequests == old(sys.wptRequests)
  {
    // The low byte of the event id indexes the action table.
    var actIdx := msg.event.index;
    if actIdx < NFA_WLC_ACTION_TBL_SIZE {
      if actIdx == 0 {
        freeBuffer := Act.Enable(cb, dm, sys, msg);
      } else if actIdx == 1 {
        freeBuffer := Act.Start(cb, dm, rw, sys, msg);
      } else {
        freeBuffer := Act.NonAutoStartWpt(sys, msg);
      }
    } else {
      freeBuffer := true;
    }
  }

  /** `nfa_wlc_evt_2_str`: the name of each of the three request events, "Unknown" for any other id. */
  function EvtToStr(event: EventId): (name: string)
    ensures event == NFA_WLC_API_ENABLE_EVT <==> name == "NFA_WLC_API_ENABLE_EVT"
    ensures event == NFA_WLC_API_START_EVT <==> name == "NFA_WLC_API_START_EVT"
    ensures event == NFA_WLC_API_NON_AUTO_START_WPT_EVT <==> name == "NFA_WLC_API_NON_AUTO_START_WPT_EVT"
    ensures !(event in {NFA_WLC_API_ENABLE_EVT, NFA_WLC_API_START_EVT, NFA_WLC_API_NON_AUTO_START_WPT_EVT}) <==>
      name == "Unknown"
  {
    if event == NFA_WLC_API_ENABLE_EVT then "NFA_WLC_API_ENABLE_EVT"
    else if event == NFA_WLC_API_START_EVT then "NFA_WLC_API_START_EVT"
    else if event == NFA_WLC_API_NON_AUTO_START_WPT_EVT then "NFA_WLC_API_NON_AUTO_START_WPT_EVT"
    else "Unknown"
  }

  /** The name is also "Unknown" for the remove-endpoint event and for an id of another sub-system. */
  lemma EvtToStrUnknown(index: u8, other: u8)
    ensures EvtToStr(NFA_WLC_API_REMOVE_EP_EVT) == "Unknown"
    ensures EvtToStr(EventId(OtherSubsystem(other), index)) == "Unknown"
  {
  }
}
