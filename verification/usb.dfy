/**
  The parts of USB 2.0 the driver relies on: unsigned integer widths and the
  setup packet of a control transfer (section 9.3 of the USB 2.0
  specification), including the decoding of its bmRequestType field
  (section 9.3.1).
 */
module Usb {

  type u8 = x: int | 0 <= x < 0x100
  type u16 = x: int | 0 <= x < 0x1_0000

  /** Truncating conversion of a host integer to a 16-bit field, as C does
      when a `size_t` is passed where a `uint16_t` is expected. */
  function ToU16(n: nat): (r: u16)
    ensures n < 0x1_0000 ==> r == n
    ensures (r - n) % 0x1_0000 == 0
  {
    n % 0x1_0000
  }

  /** Direction of the data stage, bit 7 of bmRequestType. */
  datatype Direction = HostToDevice | DeviceToHost

  /** Request type, bits 6..5 of bmRequestType. */
  datatype RequestKind = Standard | Class | Vendor | Reserved

  /** Recipient, bits 4..0 of bmRequestType. */
  datatype Recipient = Device | Interface | Endpoint | Other | ReservedRecipient

  function DirectionOf(bmRequestType: u8): (d: Direction)
    ensures d == DeviceToHost <==> bmRequestType >= 0x80
  {
    if bmRequestType / 0x80 == 1 then DeviceToHost else HostToDevice
  }

  /** The kind does not depend on the direction bit: it is fixed by which
      32-value band of the low seven bits the byte falls in. */
  function KindOf(bmRequestType: u8): (k: RequestKind)
    ensures k == Standard <==> bmRequestType % 0x80 < 0x20
    ensures k == Vendor <==> 0x40 <= bmRequestType % 0x80 < 0x60
  {
    match (bmRequestType / 0x20) % 4
    case 0 => Standard
    case 1 => Class
    case 2 => Vendor
    case _ => Reserved
  }

  /** The recipient depends only on the low five bits. */
  function RecipientOf(bmRequestType: u8): (r: Recipient)
    ensures r == Device <==> bmRequestType % 0x20 == 0
    ensures r == ReservedRecipient <==> bmRequestType % 0x20 >= 4
  {
    match bmRequestType % 0x20
    case 0 => Device
    case 1 => Interface
    case 2 => Endpoint
    case 3 => Other
    case _ => ReservedRecipient
  }

  /** Whether the caller hands a data buffer to the transfer. */
  datatype DataBuffer = NoBuffer | CallerBuffer

  /** One control transfer as the host issues it: the five setup-packet fields
      plus whether a data buffer accompanies it. */
  datatype ControlRequest = ControlRequest(
    requestType: u8,
    request: u8,
    value: u16,
    index: u16,
    buffer: DataBuffer,
    length: u16)
}
