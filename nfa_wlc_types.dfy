/**
 * Constants, messages and state of the NFA wireless-charging (WLC)
 * sub-module (src/nfa/include/nfa_wlc_int.h, src/nfa/include/nfa_wlc_api.h),
 * the state of the other NFA modules that it reads or writes, and the
 * NFA system services it calls, kept as records of what was asked of them.
 */
module NfaWlcTypes {
  import opened Bytes

  // ---------------------------------------------------------------------------
  // Status codes (the NFA status values are the NCI status codes)

  const NFA_STATUS_OK: u8 := 0x00
  const NFA_STATUS_FAILED: u8 := 0x03
  const NFA_STATUS_INVALID_PARAM: u8 := 0x09

  // ---------------------------------------------------------------------------
  // Parameter limits from the NFC Forum WLC 2.0 specification

  const WPT_DURATION_INT_MASK: bv8 := 0xC0
  const WPT_DURATION_INT_MAX: u8 := 0x13
  const POWER_ADJ_REQ_INC_MAX: u8 := 0x14
  const POWER_ADJ_REQ_DEC_MIN: u8 := 0xF6

  // ---------------------------------------------------------------------------
  // Modes, flags and events

  /** `tNFA_WLC_MODE`. */
  const NFA_WLC_NON_AUTONOMOUS: u8 := 0
  const NFA_WLC_SEMI_AUTONOMOUS: u8 := 1
  const NFA_WLC_AUTONOMOUS: u8 := 2

  /** The bits of `nfa_wlc_cb.flags`. */
  const NFA_WLC_FLAGS_NON_AUTO_MODE_ENABLED: bv32 := 0x0000_0001
  const NFA_WLC_FLAGS_WPT_NTF_PENDING: bv32 := 0x0000_0002

  /** The NFA sub-system an event id belongs to: its high byte. */
  datatype Subsystem = WlcSubsystem | OtherSubsystem(id: u8)

  /** A 16-bit NFA event id: the sub-system in the high byte, the sub-event in the low byte. */
  datatype EventId = EventId(subsystem: Subsystem, index: u8)

  /** The WLC request events, numbered from `NFA_SYS_EVT_START(NFA_ID_WLC)`. */
  const NFA_WLC_API_ENABLE_EVT: EventId := EventId(WlcSubsystem, 0)
  const NFA_WLC_API_START_EVT: EventId := EventId(WlcSubsystem, 1)
  const NFA_WLC_API_NON_AUTO_START_WPT_EVT: EventId := EventId(WlcSubsystem, 2)
  const NFA_WLC_API_REMOVE_EP_EVT: EventId := EventId(WlcSubsystem, 3)

  /** `tNFA_WLC_EVT`: the events reported to the application's callback. */
  datatype WlcEvent = EnableResult | StartResult | StartWptResult | ChargingResult

  /** `tNFA_WLC_EVT_DATA`: a status code, or for charging completion an end condition. */
  datatype WlcEventData = StatusData(status: u8) | EndConditionData(wptEndCdt: u8)

  /** An application callback `tNFA_WLC_CBACK*`, identified by a non-null handle. */
  type Callback = nat

  /** One call of an application callback. */
  datatype WlcUpcall = WlcUpcall(callback: Callback, event: WlcEvent, data: WlcEventData)

  // ---------------------------------------------------------------------------
  // Request messages (`tNFA_WLC_MSG`)

  datatype MsgBody =
    | EnableBody(wlcCback: Callback)
    | StartBody(mode: u8)
    | StartWptBody(powerAdjReq: u8, wptTimeInt: u8)
    | HeaderOnly

  datatype Msg = Msg(event: EventId, body: MsgBody)

  /** A message whose body is the one its sub-event carries; a later sub-event carries only the header. */
  predicate WellFormed(m: Msg)
  {
    match m.event.index
    case 0 => m.body.EnableBody?
    case 1 => m.body.StartBody?
    case 2 => m.body.StartWptBody?
    case _ => true
  }

  // ---------------------------------------------------------------------------
  // State of the other NFA modules

  /** The bits of `nfa_dm_cb.flags` that the WLC module reads or sets, and any other. */
  datatype DmFlag = DmIsActive | EnableEvtPend | DmDisablingNfc | RfExtActive | WlcpEnabled | OtherDmFlag(bit: u8)

  /** The bits of `nfa_dm_cb.disc_cb.disc_flags` that the WLC module reads, and any other. */
  datatype DiscFlag = W4Rsp | W4Ntf | Stopping | Disabling | OtherDiscFlag(bit: u8)

  /** `nfa_dm_cb.disc_cb.disc_state`: the RF discovery state. */
  datatype DiscState =
    | Idle | Discovery | W4AllDiscoveries | W4HostSelect
    | PollActive | ListenActive | ListenSleep | LpListen | LpActive

  /** `nfa_rw_cb.protocol`: the RF protocol of the activated tag. */
  datatype RwProtocol = ProtocolT1t | ProtocolT2t | ProtocolT3t | ProtocolT5t | ProtocolIsoDep | ProtocolNfcDep | OtherProtocol(code: u8)

  /** The reader/writer module's state as the WLC module reads it. */
  datatype RwState = RwState(protocol: RwProtocol, apiBusy: bool)

  /** The device manager's control block: the WLC module reads its flags and discovery state and sets two flags. */
  class DmControlBlock {
    var flags: set<DmFlag>
    var discState: DiscState
    var discFlags: set<DiscFlag>

    constructor (flags: set<DmFlag>, discState: DiscState, discFlags: set<DiscFlag>)
      ensures this.flags == flags && this.discState == discState && this.discFlags == discFlags
    {
      this.flags := flags;
      this.discState := discState;
      this.discFlags := discFlags;
    }
  }

  /** A request forwarded to `nfa_dm_start_wireless_power_transfer`. */
  datatype WptRequest = WptRequest(powerAdjReq: u8, wptTimeInt: u8)

  /**
   * The NFA system services the WLC module calls: the message queue of
   * `nfa_sys_sendmsg`, the registration made by `nfa_sys_register`, the
   * application callbacks made, and the requests forwarded to the device
   * manager.
   */
  class NfaSystem {
    var queue: seq<Msg>
    var wlcRegistered: bool
    var upcalls: seq<WlcUpcall>
    var wptRequests: seq<WptRequest>

    constructor ()
      ensures queue == [] && !wlcRegistered && upcalls == [] && wptRequests == []
    {
      queue := [];
      wlcRegistered := false;
      upcalls := [];
      wptRequests := [];
    }
  }

  // ---------------------------------------------------------------------------
  // The WLC control block (`tNFA_WLC_CB nfa_wlc_cb`)

  class WlcControlBlock {
    /** NFA_WLC flags. */
    var flags: bv32
    /** The application's callback; None is the null pointer. */
    var wlcCback: Option<Callback>
    /** The NFCC power mode. */
    var wlcMode: u8

    constructor ()
      ensures flags == 0 && wlcCback == None && wlcMode == 0
    {
      flags := 0;
      wlcCback := None;
      wlcMode := 0;
    }

    /**
     * `nfa_wlc_event_notify` (src/nfa/wlc/nfa_wlc_main.cc): reports an event
     * to the stored callback once; with no callback stored nothing happens.
     */
    method EventNotify(sys: NfaSystem, event: WlcEvent, data: WlcEventData)
      modifies sys`upcalls
      ensures wlcCback.Some? ==> sys.upcalls == old(sys.upcalls) + [WlcUpcall(wlcCback.value, event, data)]
      ensures wlcCback.None? ==> sys.upcalls == old(sys.upcalls)
    {
      if wlcCback.Some? {
        sys.upcalls := sys.upcalls + [WlcUpcall(wlcCback.value, event, data)];
      }
    }
  }
}
