/** UDS services and their bytes (transport/uds/codec.py), after ISO 14229-1:2013. */
module UdsCodec {
  import opened Base

  const SID_SESSION_CONTROL: byte := 0x10
  const SID_ECU_RESET: byte := 0x11
  const SID_READ_DATA: byte := 0x22
  const SID_SECURITY_ACCESS: byte := 0x27
  const SID_ROUTINE_CONTROL: byte := 0x31
  const SID_REQUEST_DOWNLOAD: byte := 0x34
  const SID_TRANSFER_DATA: byte := 0x36
  const SID_TRANSFER_EXIT: byte := 0x37
  const SID_TESTER_PRESENT: byte := 0x3E
  const SID_NEGATIVE: byte := 0x7F

  const NRC_SERVICE_NOT_SUPPORTED: byte := 0x11
  const NRC_SUBFUNCTION_NOT_SUPPORTED: byte := 0x12
  const NRC_INCORRECT_LENGTH: byte := 0x13
  const NRC_CONDITIONS_NOT_CORRECT: byte := 0x22
  const NRC_REQUEST_SEQUENCE_ERROR: byte := 0x24
  const NRC_REQUEST_OUT_OF_RANGE: byte := 0x31
  const NRC_SECURITY_ACCESS_DENIED: byte := 0x33
  const NRC_INVALID_KEY: byte := 0x35
  const NRC_EXCEED_ATTEMPTS: byte := 0x36
  const NRC_DELAY_NOT_EXPIRED: byte := 0x37
  const NRC_PROGRAMMING_FAILURE: byte := 0x72
  const NRC_WRONG_SEQUENCE: byte := 0x73
  const NRC_RESPONSE_PENDING: byte := 0x78
  const NRC_NOT_IN_SESSION: byte := 0x7F

  const DID_SOFTWARE_VERSION := 0xF188
  const SESSION_PROGRAMMING: byte := 0x02
  const REQUEST_SEED: byte := 0x01
  const SEND_KEY: byte := 0x02
  const ROUTINE_START: byte := 0x01
  const ROUTINE_ERASE := 0xFF00
  const ROUTINE_VERIFY := 0xFF01
  const ROUTINE_ACTIVATE := 0xFF02

  function PositiveSid(sid: byte): byte {
    (sid + 0x40) % 256
  }

  function Negative(sid: byte, code: byte): Bytes {
    [SID_NEGATIVE, sid, code]
  }

  function ResponsePending(sid: byte): Bytes {
    Negative(sid, NRC_RESPONSE_PENDING)
  }

  predicate IsNegativeResponse(r: Bytes) {
    |r| >= 3 && r[0] == SID_NEGATIVE
  }

  predicate IsResponsePending(r: Bytes, sid: byte) {
    IsNegativeResponse(r) && r[1] == sid && r[2] == NRC_RESPONSE_PENDING
  }

  predicate IsPositiveResponse(r: Bytes, sid: byte) {
    r != [] && !IsNegativeResponse(r) && r[0] == PositiveSid(sid)
  }

  // ----- requests

  function BuildSessionControl(session: byte): Bytes {
    [SID_SESSION_CONTROL, session]
  }

  function BuildTesterPresent(): Bytes {
    [SID_TESTER_PRESENT, 0x00]
  }

  function BuildRequestSeed(): Bytes {
    [SID_SECURITY_ACCESS, REQUEST_SEED]
  }

  function BuildSendKey(key: Bytes): Bytes {
    [SID_SECURITY_ACCESS, SEND_KEY] + key
  }

  function BuildRoutine(routine: nat, data: Bytes): Bytes
    requires routine < TWO_POW_16
  {
    [SID_ROUTINE_CONTROL, ROUTINE_START] + U16(routine) + data
  }

  function BuildRequestDownload(size: nat): Bytes
    requires size < TWO_POW_32
  {
    [SID_REQUEST_DOWNLOAD, 0x00, 0x44] + U32(0) + U32(size)
  }

  function BuildTransferData(sequence: nat, data: Bytes): Bytes {
    [SID_TRANSFER_DATA, sequence % 256] + data
  }

  function BuildTransferExit(): Bytes {
    [SID_TRANSFER_EXIT]
  }

  function BuildEcuReset(): Bytes {
    [SID_ECU_RESET, 0x01]
  }
}
