/**
 * Requests followed from the application interface through the NFA
 * message queue to the action that handles them.
 */
module NfaWlcFlows {
  import opened Bytes
  import opened NfaWlcTypes
  import Api = NfaWlcApi
  import Act = NfaWlcAct
  import Main = NfaWlcMain

  /**
   * Enabling with a callback while the device manager is ready and no
   * message is waiting, then taking the posted message off the head of
   * the queue and handling it, stores the callback, reports OK to it
   * once and leaves the queue empty.
   */
  method EnableFlow(cb: WlcControlBlock, dm: DmControlBlock, rw: RwState, sys: NfaSystem, callback: Callback)
    returns (status: u8)
    requires Act.DmReady(dm.flags) && sys.queue == []
    modifies cb`wlcCback, cb`wlcMode, dm`flags, sys`queue, sys`upcalls, sys`wptRequests
    ensures status == NFA_STATUS_OK
    ensures cb.wlcCback == Some(callback)
    ensures sys.upcalls == old(sys.upcalls) + [WlcUpcall(callback, EnableResult, StatusData(NFA_STATUS_OK))]
    ensures sys.queue == []
  {
    status := Api.Enable(sys, Some(callback), true);
    var msg := sys.queue[0];
    sys.queue := sys.queue[1..];
    var _ := Main.HandleEvent(cb, dm, rw, sys, msg);
  }

  /**
   * A start-WPT request, with the rejection status corrected: the device
   * manager is asked to start a power transfer with exactly the given
   * parameters when the call returns OK, and is asked nothing otherwise.
   * The queue is empty before the call, and a posted message is taken
   * off its head and handled.
   */
  method StartWptFlow(cb: WlcControlBlock, dm: DmControlBlock, rw: RwState, sys: NfaSystem,
                      powerAdjReq: u8, wptTimeInt: u8, bufferAvailable: bool)
    returns (status: u8)
    requires sys.queue == []
    modifies cb`wlcCback, cb`wlcMode, dm`flags, sys`queue, sys`upcalls, sys`wptRequests
    ensures sys.queue == []
    ensures status == NFA_STATUS_OK ==> sys.wptRequests == old(sys.wptRequests) + [WptRequest(powerAdjReq, wptTimeInt)]
    ensures status != NFA_STATUS_OK ==> sys.wptRequests == old(sys.wptRequests)
    ensures status == NFA_STATUS_INVALID_PARAM <==> !(Api.ValidPowerAdjReq(powerAdjReq) && Api.ValidWptTimeInt(wptTimeInt))
    ensures cb.wlcCback == old(cb.wlcCback) && sys.upcalls == old(sys.upcalls)
  {
    status := Api.StartWptCorrected(sys, powerAdjReq, wptTimeInt, bufferAvailable);
    if status == NFA_STATUS_OK {
      var msg := sys.queue[0];
      sys.queue := sys.queue[1..];
      var _ := Main.HandleEvent(cb, dm, rw, sys, msg);
    }
  }
}
