/**
 * The application interface of the WLC sub-module
 * (src/nfa/wlc/nfa_wlc_api.cc): parameter checks, then one request
 * message posted to the NFA system for the WLC module to act on. Buffer
 * allocation (`GKI_getbuf`) is an input saying whether a buffer was
 * available.
 */
module NfaWlcApi {
  import opened Bytes
  import opened NfaWlcTypes

  /**
   * POWER_ADJ_REQ: [0x00..0x14] asks for more power, [0xF6..0xFF] for less;
   * the values in between are rejected.
   */
  predicate ValidPowerAdjReq(powerAdjReq: u8)
  {
    !(powerAdjReq > POWER_ADJ_REQ_INC_MAX && powerAdjReq < POWER_ADJ_REQ_DEC_MIN)
  }

  /** WPT_INT_TIME: at most 0x13, and bits 6 and 7 clear. */
  predicate ValidWptTimeInt(wptTimeInt: u8)
  {
    !(wptTimeInt > WPT_DURATION_INT_MAX || (wptTimeInt as bv8) & WPT_DURATION_INT_MASK != 0)
  }

  /** The accepted power adjustments are exactly the two ranges. */
  lemma PowerAdjReqRanges(powerAdjReq: u8)
    ensures ValidPowerAdjReq(powerAdjReq) <==> powerAdjReq <= 0x14 || 0xF6 <= powerAdjReq
  {
  }

  /** The mask test never rejects a value the range test accepts: the accepted times are exactly 0x00..0x13. */
  lemma WptTimeIntRange(wptTimeInt: u8)
    ensures ValidWptTimeInt(wptTimeInt) <==> wptTimeInt <= 0x13
  {
    if wptTimeInt <= 0x13 {
      var b := wptTimeInt as bv8;
      assert b <= 0x13;
      assert b & 0xC0 == 0 by {
        assert b < 0x40;
      }
    }
  }

  /**
   * `NFA_WlcEnable`: a null callback fails; otherwise an enable request
   * carrying the callback is posted when a buffer is available.
   */
  method Enable(sys: NfaSystem, pWlcCback: Option<Callback>, bufferAvailable: bool) returns (status: u8)
    modifies sys`queue
    ensures pWlcCback.Some? && bufferAvailable ==>
      status == NFA_STATUS_OK && sys.queue == old(sys.queue) + [Msg(NFA_WLC_API_ENABLE_EVT, EnableBody(pWlcCback.value))]
    ensures !(pWlcCback.Some? && bufferAvailable) ==> status == NFA_STATUS_FAILED && sys.queue == old(sys.queue)
  {
    // A missing callback is refused before any buffer is taken.
    if pWlcCback.None? {
      return NFA_STATUS_FAILED;
    }
    if bufferAvailable {
      sys.queue := sys.queue + [Msg(NFA_WLC_API_ENABLE_EVT, EnableBody(pWlcCback.value))];
      return NFA_STATUS_OK;
    }
    return NFA_STATUS_FAILED;
  }

  /**
   * `NFA_WlcStart`: only the non-autonomous mode (0) is supported; a start
   * request is posted when a buffer is available.
   */
  method Start(sys: NfaSystem, mode: u8, bufferAvailable: bool) returns (status: u8)
    modifies sys`queue
    ensures mode != NFA_WLC_NON_AUTONOMOUS ==> status == NFA_STATUS_INVALID_PARAM && sys.queue == old(sys.queue)
    ensures mode == NFA_WLC_NON_AUTONOMOUS && bufferAvailable ==>
      status == NFA_STATUS_OK && sys.queue == old(sys.queue) + [Msg(NFA_WLC_API_START_EVT, StartBody(NFA_WLC_NON_AUTONOMOUS))]
    ensures mode == NFA_WLC_NON_AUTONOMOUS && !bufferAvailable ==> status == NFA_STATUS_FAILED && sys.queue == old(sys.queue)
  {
    if mode != 0 {
      return NFA_STATUS_INVALID_PARAM;
    }
    if bufferAvailable {
      sys.queue := sys.queue + [Msg(NFA_WLC_API_START_EVT, StartBody(mode))];
      return NFA_STATUS_OK;
    }
    return NFA_STATUS_FAILED;
  }

  /** What a start-WPT request is posted with, if anything: both parameters valid and a buffer available. */
  predicate StartWptPosts(powerAdjReq: u8, wptTimeInt: u8, bufferAvailable: bool)
  {
    ValidPowerAdjReq(powerAdjReq) && ValidWptTimeInt(wptTimeInt) && bufferAvailable
  }

  /**
   * The status `NFA_WlcStartWPT` returns as written: a rejected parameter
   * returns `false`, which is the number 0.
   */
  function StartWptStatus(powerAdjReq: u8, wptTimeInt: u8, bufferAvailable: bool): (status: u8)
    ensures status == NFA_STATUS_OK || status == NFA_STATUS_FAILED
    ensures status == NFA_STATUS_FAILED <==>
      ValidPowerAdjReq(powerAdjReq) && ValidWptTimeInt(wptTimeInt) && !bufferAvailable
  {
    if !ValidPowerAdjReq(powerAdjReq) then 0
    else if !ValidWptTimeInt(wptTimeInt) then 0
    else if bufferAvailable then NFA_STATUS_OK
    else NFA_STATUS_FAILED
  }

  /**
   * The status `NFA_WlcStartWPT` evidently means to return: a rejected
   * parameter is reported as `NFA_STATUS_INVALID_PARAM`.
   */
  function StartWptStatusCorrected(powerAdjReq: u8, wptTimeInt: u8, bufferAvailable: bool): (status: u8)
    ensures status == NFA_STATUS_OK <==> StartWptPosts(powerAdjReq, wptTimeInt, bufferAvailable)
    ensures status == NFA_STATUS_INVALID_PARAM <==>
      !(ValidPowerAdjReq(powerAdjReq) && ValidWptTimeInt(wptTimeInt))
  {
    if !ValidPowerAdjReq(powerAdjReq) then NFA_STATUS_INVALID_PARAM
    else if !ValidWptTimeInt(wptTimeInt) then NFA_STATUS_INVALID_PARAM
    else if bufferAvailable then NFA_STATUS_OK
    else NFA_STATUS_FAILED
  }

  /**
   * As written, a rejected POWER_ADJ_REQ of 0x50 reads as success to the
   * caller although nothing was posted: its status equals NFA_STATUS_OK.
   */
  lemma StartWptRejectionReadsAsOk()
    ensures !StartWptPosts(0x50, 0x05, true)
    ensures StartWptStatus(0x50, 0x05, true) == NFA_STATUS_OK
  {
  }

  /** As written, the status is OK on exactly the requests that post and on the ones rejected for their parameters. */
  lemma StartWptStatusAsWritten(powerAdjReq: u8, wptTimeInt: u8, bufferAvailable: bool)
    ensures StartWptStatus(powerAdjReq, wptTimeInt, bufferAvailable) == NFA_STATUS_OK <==>
      StartWptPosts(powerAdjReq, wptTimeInt, bufferAvailable) || !(ValidPowerAdjReq(powerAdjReq) && ValidWptTimeInt(wptTimeInt))
  {
  }

  /** The start-WPT request message: the two parameters as given. */
  function StartWptMsg(powerAdjReq: u8, wptTimeInt: u8): Msg
  {
    Msg(NFA_WLC_API_NON_AUTO_START_WPT_EVT, StartWptBody(powerAdjReq, wptTimeInt))
  }

  /**
   * `NFA_WlcStartWPT` as written: checks both parameters, then posts a
   * start-WPT request holding them when a buffer is available. A rejected
   * parameter returns 0.
   */
  method StartWpt(sys: NfaSystem, powerAdjReq: u8, wptTimeInt: u8, bufferAvailable: bool) returns (status: u8)
    modifies sys`queue
    ensures status == StartWptStatus(powerAdjReq, wptTimeInt, bufferAvailable)
    ensures sys.queue == old(sys.queue) + if StartWptPosts(powerAdjReq, wptTimeInt, bufferAvailable)
      then [StartWptMsg(powerAdjReq, wptTimeInt)] else []
  {
    // The power adjustment must lie in one of the two accepted ranges.
    if powerAdjReq > POWER_ADJ_REQ_INC_MAX && powerAdjReq < POWER_ADJ_REQ_DEC_MIN {
      return 0;
    }
    // The duration must not exceed its maximum, and its two top bits must be clear.
    if wptTimeInt > WPT_DURATION_INT_MAX || (wptTimeInt as bv8) & WPT_DURATION_INT_MASK != 0 {
      return 0;
    }
    if bufferAvailable {
      sys.queue := sys.queue + [StartWptMsg(powerAdjReq, wptTimeInt)];
      return NFA_STATUS_OK;
    }
    return NFA_STATUS_FAILED;
  }

  /** `NFA_WlcStartWPT` with the rejection reported as `NFA_STATUS_INVALID_PARAM`. */
  method StartWptCorrected(sys: NfaSystem, powerAdjReq: u8, wptTimeInt: u8, bufferAvailable: bool) returns (status: u8)
    modifies sys`queue
    ensures status == StartWptStatusCorrected(powerAdjReq, wptTimeInt, bufferAvailable)
    ensures sys.queue == old(sys.queue) + if StartWptPosts(powerAdjReq, wptTimeInt, bufferAvailable)
      then [StartWptMsg(powerAdjReq, wptTimeInt)] else []
  {
    if powerAdjReq > POWER_ADJ_REQ_INC_MAX && powerAdjReq < POWER_ADJ_REQ_DEC_MIN {
      return NFA_STATUS_INVALID_PARAM;
    }
    if wptTimeInt > WPT_DURATION_INT_MAX || (wptTimeInt as bv8) & WPT_DURATION_INT_MASK != 0 {
      return NFA_STATUS_INVALID_PARAM;
    }
    if bufferAvailable {
      sys.queue := sys.queue + [StartWptMsg(powerAdjReq, wptTimeInt)];
      return NFA_STATUS_OK;
    }
    return NFA_STATUS_FAILED;
  }
}
