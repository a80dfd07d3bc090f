/** The RF packet vocabulary of the emulator (`rf::Protocol`, `rf::Technology`). */
module RfPackets {

  datatype Protocol = Undetermined | T1t | T2t | T3t | IsoDep | NfcDep | T5t | Ndef

  datatype Technology = NfcA | NfcB | NfcF | NfcV
}
