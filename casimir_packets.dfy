/**
 * Conversions between the emulator's RF packet enumerations and the NCI
 * ones (tools/casimir/src/packets.rs).
 */
module CasimirPackets {
  import opened Bytes
  import Nci = NciPackets
  import Rf = RfPackets

  /** `From<rf::Protocol> for nci::RfProtocolType`: each protocol to its namesake. */
  function NciProtocolFromRf(p: Rf.Protocol): (r: Nci.RfProtocolType)
    ensures RfProtocolFromNci(r) == p
  {
    match p
    case Undetermined => Nci.Undetermined
    case T1t => Nci.T1t
    case T2t => Nci.T2t
    case T3t => Nci.T3t
    case IsoDep => Nci.IsoDep
    case NfcDep => Nci.NfcDep
    case T5t => Nci.T5t
    case Ndef => Nci.Ndef
  }

  /** `From<nci::RfProtocolType> for rf::Protocol`: each protocol to its namesake. */
  function RfProtocolFromNci(p: Nci.RfProtocolType): Rf.Protocol
  {
    match p
    case Undetermined => Rf.Undetermined
    case T1t => Rf.T1t
    case T2t => Rf.T2t
    case T3t => Rf.T3t
    case IsoDep => Rf.IsoDep
    case NfcDep => Rf.NfcDep
    case T5t => Rf.T5t
    case Ndef => Rf.Ndef
  }

  /** The conversion in the other direction is a left inverse too: the two are mutual inverses. */
  lemma NciProtocolFromRfInverse(p: Nci.RfProtocolType)
    ensures NciProtocolFromRf(RfProtocolFromNci(p)) == p
  {
  }

  /** Neither conversion merges two protocols. */
  lemma ProtocolConversionsInjective(p: Rf.Protocol, q: Rf.Protocol, x: Nci.RfProtocolType, y: Nci.RfProtocolType)
    ensures NciProtocolFromRf(p) == NciProtocolFromRf(q) ==> p == q
    ensures RfProtocolFromNci(x) == RfProtocolFromNci(y) ==> x == y
  {
    NciProtocolFromRfInverse(x);
    NciProtocolFromRfInverse(y);
  }

  /** Whether a technology-and-mode value belongs to the given RF technology. */
  predicate OfTechnology(t: Nci.RfTechnologyAndMode, tech: Rf.Technology)
  {
    match tech
    case NfcA => t == Nci.NfcAPassivePollMode || t == Nci.NfcAPassiveListenMode
    case NfcB => t == Nci.NfcBPassivePollMode || t == Nci.NfcBPassiveListenMode
    case NfcF => t == Nci.NfcFPassivePollMode || t == Nci.NfcFPassiveListenMode
    case NfcV => t == Nci.NfcVPassivePollMode
  }

  /**
   * `TryFrom<nci::RfTechnologyAndMode> for rf::Technology`: passive NFC-A,
   * NFC-B and NFC-F in poll or listen mode and NFC-V in poll mode map to
   * their technology; every other value is returned unchanged as the error.
   */
  function TechnologyFromNci(t: Nci.RfTechnologyAndMode): (r: Result<Rf.Technology, Nci.RfTechnologyAndMode>)
    ensures r.Ok? ==> OfTechnology(t, r.value)
    ensures r.Err? ==> r.error == t && forall tech :: !OfTechnology(t, tech)
  {
    match t
    case NfcAPassivePollMode | NfcAPassiveListenMode => Ok(Rf.NfcA)
    case NfcBPassivePollMode | NfcBPassiveListenMode => Ok(Rf.NfcB)
    case NfcFPassivePollMode | NfcFPassiveListenMode => Ok(Rf.NfcF)
    case NfcVPassivePollMode => Ok(Rf.NfcV)
    case _ => Err(t)
  }

  /** Each value belongs to at most one technology, so the conversion is determined by `OfTechnology`. */
  lemma OfTechnologyUnique(t: Nci.RfTechnologyAndMode, a: Rf.Technology, b: Rf.Technology)
    requires OfTechnology(t, a) && OfTechnology(t, b)
    ensures a == b
  {
  }
}
