/**
 * The command-handling state of the emulated NCI 1.1 controller
 * (tools/casimir/src/controller.rs): the configuration-parameter table
 * behind CORE_SET_CONFIG / CORE_GET_CONFIG, the two-slot logical
 * connection table behind CORE_CONN_CREATE / CORE_CONN_CLOSE, and the
 * configuration status that CORE_RESET reports. Each handler returns the
 * response the controller would write to the NCI transport.
 */
module CasimirController {
  import opened Bytes
  import opened NciPackets

  const MAX_LOGICAL_CONNECTIONS: nat := 2
  const MAX_DATA_PACKET_PAYLOAD_SIZE: u8 := 255

  datatype NciVersion = Version10 | Version11 | Version20

  /** The NCI version the controller reports. */
  const NCI_VERSION: NciVersion := Version11

  // ---------------------------------------------------------------------------
  // CORE_RESET

  datatype ResetType = KeepConfig | ResetConfig
  datatype ConfigStatus = ConfigKept | ConfigReset
  datatype ResetTrigger = PowerOn | ResetCommand

  datatype ResetNotification = ResetNotification(
    trigger: ResetTrigger, configStatus: ConfigStatus, nciVersion: NciVersion,
    manufacturerId: u8, manufacturerSpecificInformation: seq<u8>)

  /** The configuration status reported for a reset type: kept exactly when the command asked to keep it. */
  function ConfigStatusFor(t: ResetType): (s: ConfigStatus)
    ensures s == ConfigKept <==> t == KeepConfig
    ensures s == ConfigReset <==> t == ResetConfig
  {
    match t
    case KeepConfig => ConfigKept
    case ResetConfig => ConfigReset
  }

  /** The CORE_RESET_NTF sent after the CORE_RESET_RSP (whose status is always OK). */
  function ResetNotificationFor(t: ResetType): (n: ResetNotification)
    ensures n.trigger == ResetCommand && n.nciVersion == Version11
    ensures n.configStatus == ConfigStatusFor(t)
    ensures n.manufacturerId == 0 && n.manufacturerSpecificInformation == []
  {
    ResetNotification(ResetCommand, ConfigStatusFor(t), NCI_VERSION, 0, [])
  }

  // ---------------------------------------------------------------------------
  // CORE_SET_CONFIG / CORE_GET_CONFIG

  /**
   * A configuration parameter id as the packet parser produces it: `Defined`
   * carries only the codes the packet definitions name, and `Rfu` only the
   * reserved ones, so no code appears under both.
   */
  datatype ConfigParameterId = Defined(code: u8) | Rfu(code: u8)

  datatype ConfigParameter = ConfigParameter(id: ConfigParameterId, value: seq<u8>)

  datatype SetConfigResponse = SetConfigResponse(status: Status, parameters: seq<ConfigParameterId>)

  datatype GetConfigResponse = GetConfigResponse(status: Status, parameters: seq<ConfigParameter>)

  /** The table after storing, in command order, every parameter whose id is not RFU. */
  function Stored(m: map<ConfigParameterId, seq<u8>>, ps: seq<ConfigParameter>): map<ConfigParameterId, seq<u8>>
  {
    if ps == [] then m
    else
      var last := ps[|ps| - 1];
      var before := Stored(m, ps[..|ps| - 1]);
      if last.id.Rfu? then before else before[last.id := last.value]
  }

  /** The RFU ids of a command, in command order. */
  function RfuIds(ps: seq<ConfigParameter>): seq<ConfigParameterId>
  {
    if ps == [] then []
    else
      var last := ps[|ps| - 1];
      RfuIds(ps[..|ps| - 1]) + if last.id.Rfu? then [last.id] else []
  }

  /** The RFU ids listed are exactly the RFU ids of the command. */
  lemma RfuIdsExact(ps: seq<ConfigParameter>)
    ensures forall id :: id in RfuIds(ps) <==> id.Rfu? && exists i :: 0 <= i < |ps| && ps[i].id == id
    ensures RfuIds(ps) == [] <==> forall i :: 0 <= i < |ps| ==> !ps[i].id.Rfu?
  {
    RfuIdsMembers(ps);
    if RfuIds(ps) != [] {
      assert RfuIds(ps)[0] in RfuIds(ps);
    }
  }

  lemma {:induction false} RfuIdsMembers(ps: seq<ConfigParameter>)
    ensures forall id :: id in RfuIds(ps) <==> id.Rfu? && exists i :: 0 <= i < |ps| && ps[i].id == id
  {
    if ps != [] {
      var init := ps[..|ps| - 1];
      RfuIdsMembers(init);
      assert forall i :: 0 <= i < |init| ==> init[i] == ps[i];
    }
  }

  /**
   * Storing keeps RFU ids out of the table; a non-RFU id holds the value of
   * its LAST occurrence in the command; an id the command does not mention
   * keeps its old entry (or stays absent).
   */
  lemma StoredValues(m: map<ConfigParameterId, seq<u8>>, ps: seq<ConfigParameter>)
    ensures forall id :: id in Stored(m, ps) <==> id in m || (!id.Rfu? && exists i :: 0 <= i < |ps| && ps[i].id == id)
    ensures forall i :: 0 <= i < |ps| && !ps[i].id.Rfu? && (forall j :: i < j < |ps| ==> ps[j].id != ps[i].id) ==>
              Stored(m, ps)[ps[i].id] == ps[i].value
    ensures forall id :: id in m && (forall i :: 0 <= i < |ps| ==> ps[i].id != id) ==> Stored(m, ps)[id] == m[id]
  {
    StoredKeys(m, ps);
    StoredLast(m, ps);
    StoredUntouched(m, ps);
  }

  lemma {:induction false} StoredKeys(m: map<ConfigParameterId, seq<u8>>, ps: seq<ConfigParameter>)
    ensures forall id :: id in Stored(m, ps) <==> id in m || (!id.Rfu? && exists i :: 0 <= i < |ps| && ps[i].id == id)
  {
    if ps != [] {
      var init := ps[..|ps| - 1];
      StoredKeys(m, init);
      assert forall i :: 0 <= i < |init| ==> init[i] == ps[i];
    }
  }

  lemma {:induction false} StoredLast(m: map<ConfigParameterId, seq<u8>>, ps: seq<ConfigParameter>)
    ensures forall i :: 0 <= i < |ps| && !ps[i].id.Rfu? && (forall j :: i < j < |ps| ==> ps[j].id != ps[i].id) ==>
              ps[i].id in Stored(m, ps) && Stored(m, ps)[ps[i].id] == ps[i].value
  {
    if ps != [] {
      var init := ps[..|ps| - 1];
      StoredLast(m, init);
      forall i | 0 <= i < |ps| - 1 && !ps[i].id.Rfu? && (forall j :: i < j < |ps| ==> ps[j].id != ps[i].id)
        ensures ps[i].id in Stored(m, ps) && Stored(m, ps)[ps[i].id] == ps[i].value
      {
        assert init[i] == ps[i];
        assert forall j :: i < j < |init| ==> init[j] == ps[j];
        assert ps[|ps| - 1].id != ps[i].id;
      }
    }
  }

  lemma {:induction false} StoredUntouched(m: map<ConfigParameterId, seq<u8>>, ps: seq<ConfigParameter>)
    ensures forall id :: id in m && (forall i :: 0 <= i < |ps| ==> ps[i].id != id) ==>
              id in Stored(m, ps) && Stored(m, ps)[id] == m[id]
  {
    if ps != [] {
      var init := ps[..|ps| - 1];
      StoredUntouched(m, init);
      assert forall i :: 0 <= i < |init| ==> init[i] == ps[i];
    }
  }

  /** The values of the requested ids the table holds, in request order. */
  function Found(m: map<ConfigParameterId, seq<u8>>, ids: seq<ConfigParameterId>): seq<ConfigParameter>
  {
    if ids == [] then []
    else
      var last := ids[|ids| - 1];
      Found(m, ids[..|ids| - 1]) + if last in m then [ConfigParameter(last, m[last])] else []
  }

  /** The requested ids the table lacks, each with an empty value, in request order. */
  function Missing(m: map<ConfigParameterId, seq<u8>>, ids: seq<ConfigParameterId>): seq<ConfigParameter>
  {
    if ids == [] then []
    else
      var last := ids[|ids| - 1];
      Missing(m, ids[..|ids| - 1]) + if last in m then [] else [ConfigParameter(last, [])]
  }

  /** Nothing is missing exactly when every id is present. */
  lemma {:induction false} MissingNone(m: map<ConfigParameterId, seq<u8>>, ids: seq<ConfigParameterId>)
    ensures Missing(m, ids) == [] <==> forall i :: 0 <= i < |ids| ==> ids[i] in m
  {
    if ids != [] {
      var init := ids[..|ids| - 1];
      MissingNone(m, init);
      assert forall i :: 0 <= i < |init| ==> init[i] == ids[i];
    }
  }

  /** With every id present, the values come back one per id, in order. */
  lemma {:induction false} FoundEach(m: map<ConfigParameterId, seq<u8>>, ids: seq<ConfigParameterId>)
    requires forall i :: 0 <= i < |ids| ==> ids[i] in m
    ensures |Found(m, ids)| == |ids|
    ensures forall i :: 0 <= i < |ids| ==> Found(m, ids)[i] == ConfigParameter(ids[i], m[ids[i]])
  {
    if ids != [] {
      var init := ids[..|ids| - 1];
      assert forall i :: 0 <= i < |init| ==> init[i] == ids[i];
      FoundEach(m, init);
    }
  }

  /** Nothing is missing exactly when every id is present; then the values come back one per id, in order. */
  lemma FoundAll(m: map<ConfigParameterId, seq<u8>>, ids: seq<ConfigParameterId>)
    ensures Missing(m, ids) == [] <==> forall i :: 0 <= i < |ids| ==> ids[i] in m
    ensures (forall i :: 0 <= i < |ids| ==> ids[i] in m) ==>
              |Found(m, ids)| == |ids| &&
              forall i :: 0 <= i < |ids| ==> Found(m, ids)[i] == ConfigParameter(ids[i], m[ids[i]])
  {
    MissingNone(m, ids);
    if forall i :: 0 <= i < |ids| ==> ids[i] in m {
      FoundEach(m, ids);
    }
  }

  /** The missing list names only (and every one of) the requested ids that are absent, all with empty values. */
  lemma {:induction false} MissingExact(m: map<ConfigParameterId, seq<u8>>, ids: seq<ConfigParameterId>)
    ensures forall p :: p in Missing(m, ids) ==> p.id !in m && p.value == [] && p.id in ids
    ensures forall id :: id in ids && id !in m ==> ConfigParameter(id, []) in Missing(m, ids)
  {
    if ids != [] {
      var init := ids[..|ids| - 1];
      MissingExact(m, init);
      assert ids == init + [ids[|ids| - 1]];
    }
  }

  // ---------------------------------------------------------------------------
  // CORE_CONN_CREATE / CORE_CONN_CLOSE

  datatype DestinationType = NfccLoopback | RemoteNfcEndpoint | Nfcee

  datatype DestinationSpecificParameterId = RfDiscovery | OtherParameterId(code: u8)

  datatype DestinationSpecificParameter = DestinationSpecificParameter(id: DestinationSpecificParameterId, value: seq<u8>)

  /** The destination of an open logical connection. */
  datatype LogicalConnection = RemoteNfcEndpointConnection(rfDiscoveryId: u8, rfProtocolType: RfProtocolType)

  datatype ConnCreateResponse = ConnCreateResponse(
    status: Status, maxDataPacketPayloadSize: u8, initialNumberOfCredits: u8, connId: u8)

  /** The lowest free slot, if any. */
  function FirstFree(slots: seq<Option<LogicalConnection>>): (r: Option<nat>)
    ensures r.Some? ==> r.value < |slots| && slots[r.value].None? && forall j :: 0 <= j < r.value ==> slots[j].Some?
    ensures r.None? ==> forall j :: 0 <= j < |slots| ==> slots[j].Some?
  {
    if slots == [] then None
    else if slots[0].None? then Some(0)
    else match FirstFree(slots[1..])
      case None => None
      case Some(k) => Some(k + 1)
  }

  /**
   * The connection a CORE_CONN_CREATE_CMD describes: only a Remote NFC
   * Endpoint with nothing but RF Discovery parameters is accepted, and the
   * last such parameter must carry a discovery id and a known protocol code.
   */
  function ParseDestination(dest: DestinationType, params: seq<DestinationSpecificParameter>): (r: Result<LogicalConnection, Status>)
    ensures r.Err? ==> r.error == StatusRejected
    ensures r.Ok? ==> (
      && dest == RemoteNfcEndpoint && |params| > 0
      && (forall i :: 0 <= i < |params| ==> params[i].id == RfDiscovery)
      && var v := params[|params| - 1].value;
         |v| >= 2 && r.value.rfDiscoveryId == v[0] && RfProtocolTypeFromCode(v[1]) == Some(r.value.rfProtocolType))
    ensures (&& dest == RemoteNfcEndpoint && |params| > 0
             && (forall i :: 0 <= i < |params| ==> params[i].id == RfDiscovery)
             && |params[|params| - 1].value| >= 2
             && RfProtocolTypeFromCode(params[|params| - 1].value[1]).Some?) ==> r.Ok?
  {
    if dest != RemoteNfcEndpoint then Err(StatusRejected)
    else if exists i :: 0 <= i < |params| && params[i].id != RfDiscovery then Err(StatusRejected)
    else if params == [] then Err(StatusRejected)
    else
      var v := params[|params| - 1].value;
      if |v| < 2 || RfProtocolTypeFromCode(v[1]).None? then Err(StatusRejected)
      else Ok(RemoteNfcEndpointConnection(v[0], RfProtocolTypeFromCode(v[1]).value))
  }

  /**
   * The outcome of CORE_CONN_CREATE on a table: the chosen slot or the
   * failure status. A full table is rejected before the destination is
   * looked at; a destination already open is rejected.
   */
  function ConnCreateOutcome(slots: seq<Option<LogicalConnection>>, dest: DestinationType,
                             params: seq<DestinationSpecificParameter>): (r: Result<nat, Status>)
    ensures r.Ok? ==> FirstFree(slots) == Some(r.value)
    ensures r.Ok? <==>
      FirstFree(slots).Some? && ParseDestination(dest, params).Ok? && Some(ParseDestination(dest, params).value) !in slots
    ensures r.Err? ==> r.error == StatusRejected
    ensures FirstFree(slots).None? ==> r == Err(StatusRejected)
  {
    match FirstFree(slots)
    case None => Err(StatusRejected)
    case Some(k) =>
      match ParseDestination(dest, params)
      case Err(s) => Err(s)
      case Ok(c) => if Some(c) in slots then Err(StatusRejected) else Ok(k)
  }

  /** The CORE_CONN_CREATE_RSP for an outcome. */
  function ConnCreateResponseFor(r: Result<nat, Status>): (resp: ConnCreateResponse)
    requires r.Ok? ==> r.value < 0x100
    ensures r.Ok? ==> resp == ConnCreateResponse(StatusOk, MAX_DATA_PACKET_PAYLOAD_SIZE, 0xff, r.value)
    ensures r.Err? ==> resp == ConnCreateResponse(r.error, 0, 0xff, 0)
  {
    match r
    case Ok(k) => ConnCreateResponse(StatusOk, MAX_DATA_PACKET_PAYLOAD_SIZE, 0xff, k)
    case Err(s) => ConnCreateResponse(s, 0, 0xff, 0)
  }

  /** No two slots hold the same connection. */
  predicate Distinct(slots: seq<Option<LogicalConnection>>)
  {
    forall i, j :: 0 <= i < j < |slots| && slots[i].Some? ==> slots[i] != slots[j]
  }

  /** The table after CORE_CONN_CREATE: the chosen slot is filled on success and nothing changes otherwise. */
  function AfterConnCreate(slots: seq<Option<LogicalConnection>>, dest: DestinationType,
                           params: seq<DestinationSpecificParameter>): seq<Option<LogicalConnection>>
  {
    match ConnCreateOutcome(slots, dest, params)
    case Err(_) => slots
    case Ok(k) => slots[k := Some(ParseDestination(dest, params).value)]
  }

  /** A successful CORE_CONN_CREATE fills exactly the chosen, previously free slot, and keeps the table free of duplicates. */
  lemma ConnCreatePreservesDistinct(slots: seq<Option<LogicalConnection>>, dest: DestinationType,
                                    params: seq<DestinationSpecificParameter>)
    requires Distinct(slots)
    ensures Distinct(AfterConnCreate(slots, dest, params))
    ensures |AfterConnCreate(slots, dest, params)| == |slots|
    ensures ConnCreateOutcome(slots, dest, params).Ok? ==>
              var k := ConnCreateOutcome(slots, dest, params).value;
              slots[k].None? && AfterConnCreate(slots, dest, params)[k].Some? &&
              forall j :: 0 <= j < |slots| && j != k ==> AfterConnCreate(slots, dest, params)[j] == slots[j]
    ensures ConnCreateOutcome(slots, dest, params).Err? ==> AfterConnCreate(slots, dest, params) == slots
  {
    match ConnCreateOutcome(slots, dest, params)
    case Err(_) =>
    case Ok(k) =>
      var c := ParseDestination(dest, params).value;
      var after := slots[k := Some(c)];
      forall i, j | 0 <= i < j < |after| && after[i].Some? ensures after[i] != after[j] {
        if i == k {
          assert slots[j] != Some(c);
        } else if j == k {
          assert slots[i] != Some(c);
        }
      }
  }

  /** The filled slot holds the destination the command described. */
  lemma ConnCreateStoresDestination(slots: seq<Option<LogicalConnection>>, dest: DestinationType,
                                   params: seq<DestinationSpecificParameter>)
    ensures ConnCreateOutcome(slots, dest, params).Ok? ==>
      ParseDestination(dest, params).Ok? && Some(ParseDestination(dest, params).value) !in slots &&
      AfterConnCreate(slots, dest, params)[ConnCreateOutcome(slots, dest, params).value] == Some(ParseDestination(dest, params).value)
  {
  }

  // ---------------------------------------------------------------------------
  // The controller

  class Controller {
    /** `config_parameters` */
    var config: map<ConfigParameterId, seq<u8>>
    /** `logical_connections` */
    var connections: array<Option<LogicalConnection>>

    ghost predicate Valid()
      reads this, connections
    {
      connections.Length == MAX_LOGICAL_CONNECTIONS && Distinct(connections[..])
    }

    /** `Controller::new`: no configuration parameters and no logical connections. */
    constructor ()
      ensures Valid() && fresh(connections)
      ensures config == map[] && connections[..] == [None, None]
    {
      config := map[];
      connections := new Option<LogicalConnection>[MAX_LOGICAL_CONNECTIONS](_ => None);
      new;
      assert connections[..] == [None, None];
    }

    /**
     * CORE_SET_CONFIG: every non-RFU parameter is stored, even when others
     * are rejected; the status is OK exactly when no RFU id was given, and
     * the response lists the RFU ids in command order.
     */
    method CoreSetConfig(ps: seq<ConfigParameter>) returns (resp: SetConfigResponse)
      modifies this`config
      ensures config == Stored(old(config), ps)
      ensures resp.parameters == RfuIds(ps)
      ensures resp.status == if RfuIds(ps) == [] then StatusOk else StatusInvalidParam
    {
      var invalid: seq<ConfigParameterId> := [];
      var i := 0;
      while i < |ps|
        invariant 0 <= i <= |ps|
        invariant config == Stored(old(config), ps[..i])
        invariant invalid == RfuIds(ps[..i])
      {
        assert ps[..i + 1][..i] == ps[..i];
        var p := ps[i];
        if p.id.Rfu? {
          invalid := invalid + [p.id];
        } else {
          config := config[p.id := p.value];
        }
        i := i + 1;
      }
      assert ps[..|ps|] == ps;
      resp := SetConfigResponse(if invalid == [] then StatusOk else StatusInvalidParam, invalid);
    }

    /**
     * CORE_GET_CONFIG: with every id present, OK and the values in request
     * order; otherwise INVALID_PARAM listing only the missing ids, each with
     * an empty value. The table is not changed.
     */
    method CoreGetConfig(ids: seq<ConfigParameterId>) returns (resp: GetConfigResponse)
      ensures Missing(config, ids) == [] ==> resp == GetConfigResponse(StatusOk, Found(config, ids))
      ensures Missing(config, ids) != [] ==> resp == GetConfigResponse(StatusInvalidParam, Missing(config, ids))
    {
      var valid: seq<ConfigParameter> := [];
      var invalid: seq<ConfigParameter> := [];
      var i := 0;
      while i < |ids|
        invariant 0 <= i <= |ids|
        invariant valid == Found(config, ids[..i])
        invariant invalid == Missing(config, ids[..i])
      {
        assert ids[..i + 1][..i] == ids[..i];
        var id := ids[i];
        if id in config {
          valid := valid + [ConfigParameter(id, config[id])];
        } else {
          invalid := invalid + [ConfigParameter(id, [])];
        }
        i := i + 1;
      }
      assert ids[..|ids|] == ids;
      if invalid == [] {
        resp := GetConfigResponse(StatusOk, valid);
      } else {
        resp := GetConfigResponse(StatusInvalidParam, invalid);
      }
    }

    /**
     * CORE_CONN_CREATE: picks the lowest free slot (rejecting when there is
     * none), validates the destination, rejects a destination already open,
     * and only then fills the slot.
     */
    method CoreConnCreate(dest: DestinationType, params: seq<DestinationSpecificParameter>) returns (resp: ConnCreateResponse)
      requires Valid()
      modifies connections
      ensures Valid()
      ensures connections[..] == AfterConnCreate(old(connections[..]), dest, params)
      ensures resp == ConnCreateResponseFor(ConnCreateOutcome(old(connections[..]), dest, params))
    {
      ghost var slots := connections[..];
      // The lowest free connection id.
      var connId: nat := 0;
      while connId < MAX_LOGICAL_CONNECTIONS && connections[connId].Some?
        invariant 0 <= connId <= MAX_LOGICAL_CONNECTIONS
        invariant forall j :: 0 <= j < connId ==> connections[j].Some?
      {
        connId := connId + 1;
      }
      if connId == MAX_LOGICAL_CONNECTIONS {
        assert FirstFree(slots).None? by {
          if FirstFree(slots).Some? { assert slots[FirstFree(slots).value].None?; }
        }
        resp := ConnCreateResponseFor(Err(StatusRejected));
        return;
      }
      assert FirstFree(slots) == Some(connId) by {
        var f := FirstFree(slots);
        assert f.Some?;
        assert !(f.value < connId) && !(connId < f.value);
      }

      // The destination.
      var result: Result<LogicalConnection, Status>;
      if dest != RemoteNfcEndpoint {
        result := Err(StatusRejected);
      } else {
        var rfDiscoveryId: Option<u8> := None;
        var rfProtocolType: Option<RfProtocolType> := None;
        var i := 0;
        var rejected := false;
        while i < |params| && !rejected
          invariant 0 <= i <= |params|
          invariant !rejected ==> forall j :: 0 <= j < i ==> params[j].id == RfDiscovery
          invariant rejected ==> 0 < i && params[i - 1].id != RfDiscovery
          invariant !rejected && i == 0 ==> rfDiscoveryId.None? && rfProtocolType.None?
          invariant !rejected && i > 0 ==>
            var v := params[i - 1].value;
            rfDiscoveryId == (if |v| >= 1 then Some(v[0]) else None) &&
            rfProtocolType == (if |v| >= 2 then RfProtocolTypeFromCode(v[1]) else None)
        {
          var p := params[i];
          if p.id == RfDiscovery {
            rfDiscoveryId := if |p.value| >= 1 then Some(p.value[0]) else None;
            rfProtocolType := if |p.value| >= 2 then RfProtocolTypeFromCode(p.value[1]) else None;
          } else {
            rejected := true;
          }
          i := i + 1;
        }
        if rejected || rfDiscoveryId.None? || rfProtocolType.None? {
          result := Err(StatusRejected);
        } else {
          result := Ok(RemoteNfcEndpointConnection(rfDiscoveryId.value, rfProtocolType.value));
        }
      }
      assert result == ParseDestination(dest, params);
      if result.Err? {
        resp := ConnCreateResponseFor(Err(result.error));
        return;
      }

      // The destination must not be open already.
      var c := result.value;
      var k := 0;
      while k < MAX_LOGICAL_CONNECTIONS && connections[k] != Some(c)
        invariant 0 <= k <= MAX_LOGICAL_CONNECTIONS
        invariant forall j :: 0 <= j < k ==> connections[j] != Some(c)
      {
        k := k + 1;
      }
      if k < MAX_LOGICAL_CONNECTIONS {
        assert slots[k] == Some(c);
        resp := ConnCreateResponseFor(Err(StatusRejected));
        return;
      }
      ConnCreatePreservesDistinct(slots, dest, params);
      connections[connId] := Some(c);
      resp := ConnCreateResponseFor(Ok(connId));
    }

    /**
     * CORE_CONN_CLOSE: an id outside the table or an empty slot is rejected
     * and nothing changes; otherwise that slot alone is cleared.
     */
    method CoreConnClose(connId: u8) returns (status: Status)
      requires Valid()
      modifies connections
      ensures Valid()
      ensures status == StatusRejected <==> connId >= MAX_LOGICAL_CONNECTIONS || old(connections[connId]).None?
      ensures status == StatusRejected || status == StatusOk
      ensures status == StatusRejected ==> connections[..] == old(connections[..])
      ensures status == StatusOk ==> connections[..] == old(connections[..])[connId := None]
    {
      if connId >= MAX_LOGICAL_CONNECTIONS || connections[connId].None? {
        status := StatusRejected;
      } else {
        connections[connId] := None;
        status := StatusOk;
      }
    }
  }
}
