/** The ATT protocol: opcodes, error codes, PDUs and the outcomes of a transaction. */
module Att {
  import opened Bytes

  const ERROR_RSP: byte := 0x01
  const EXCHANGE_MTU_REQ: byte := 0x02
  const EXCHANGE_MTU_RSP: byte := 0x03
  const FIND_INFO_REQ: byte := 0x04
  const FIND_INFO_RSP: byte := 0x05
  const READ_BY_TYPE_REQ: byte := 0x08
  const READ_BY_TYPE_RSP: byte := 0x09
  const READ_REQ: byte := 0x0A
  const READ_RSP: byte := 0x0B
  const READ_BLOB_REQ: byte := 0x0C
  const READ_BLOB_RSP: byte := 0x0D
  const READ_BY_GROUP_TYPE_REQ: byte := 0x10
  const READ_BY_GROUP_TYPE_RSP: byte := 0x11
  const WRITE_REQ: byte := 0x12
  const WRITE_RSP: byte := 0x13
  const HANDLE_VALUE_NTF: byte := 0x1B
  const HANDLE_VALUE_IND: byte := 0x1D
  const HANDLE_VALUE_CFM: byte := 0x1E

  const ATT_ERR_INVALID_OFFSET: byte := 0x07
  const ATT_ERR_ATTRIBUTE_NOT_FOUND: byte := 0x0A
  const ATT_ERR_ATTRIBUTE_NOT_LONG: byte := 0x0B

  const DEFAULT_MTU: nat := 23
  const PREFERRED_MTU: u16 := 247

  /** The exceptions a GATT operation can end with. */
  datatype Failure =
    | AttError(reqOpcode: byte, handle: u16, code: byte)
    | UnexpectedOpcode(opcode: byte)
    | Disconnected
    | NotConnected
    | NoCccd
    | StructError
    | IndexError
    | ValueError
    | OverflowError
    | OsError
    | TimedOut
    | Cancelled
  {
    /** The subclasses of BleakError; the others are Python's own exceptions. */
    predicate IsBleakError() {
      AttError? || UnexpectedOpcode? || Disconnected? || NotConnected? || NoCccd?
    }
  }

  /** What a transaction future ends with: set_result(pdu) or set_exception(failure). */
  datatype Outcome = Data(pdu: bytes) | Exn(failure: Failure)

  /** The tail of _request once the future is resolved: error responses become exceptions. */
  function Classify(outcome: Outcome, expected: byte): Result<bytes, Failure> {
    match outcome
    case Exn(f) => Err(f)
    case Data(pdu) =>
      if pdu == [] then Err(IndexError)
      else if pdu[0] == ERROR_RSP then
        if |pdu| < 5 then Err(StructError)
        else Err(AttError(pdu[1], Field16(pdu, 2), pdu[4]))
      else if pdu[0] != expected then Err(UnexpectedOpcode(pdu[0]))
      else Ok(pdu)
  }

  /** The Error Response PDU. */
  function ErrorPdu(reqOpcode: byte, handle: u16, code: byte): bytes {
    [ERROR_RSP, reqOpcode] + LE16(handle) + [code]
  }

  lemma {:induction false} ErrorPduClassifies(reqOpcode: byte, handle: u16, code: byte, expected: byte)
    ensures Classify(Data(ErrorPdu(reqOpcode, handle, code)), expected) == Err(AttError(reqOpcode, handle, code))
  {
    var pdu := ErrorPdu(reqOpcode, handle, code);
    assert pdu[2..4] == LE16(handle);
    Field16Decodes(pdu, 2, handle);
  }

  /** The ATT_MTU both sides settle on, given the receive MTU each announced. */
  function NegotiatedMtu(a: nat, b: nat): nat {
    Max(DEFAULT_MTU, Min(a, b))
  }

  function MtuPdu(opcode: byte, mtu: u16): bytes {
    [opcode] + LE16(mtu)
  }

  lemma {:induction false} MtuPduCarries(opcode: byte, mtu: u16)
    ensures Field16(MtuPdu(opcode, mtu), 1) == mtu
  {
    assert MtuPdu(opcode, mtu)[1..3] == LE16(mtu);
    Field16Decodes(MtuPdu(opcode, mtu), 1, mtu);
  }
}
