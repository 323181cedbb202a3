/**
  The SLO-scope wire protocol: the device's state enumerations, the vendor
  control requests that read and write device variables, the classification
  of an interrupt transfer, and the layout of the 22-byte sample packet.
 */
module Protocol {
  import opened Usb
  import opened Wrappers

  const PacketSize: nat := 22
  const ReadingsPerPacket: nat := 20

  const VendorRequestType: u8 := 0x40
  const RequestGet: u8 := 0x81
  const RequestSet: u8 := 0x82

  const VarState: u16 := 0x42
  const VarOutputState: u16 := 0x43

  /** libusb's LIBUSB_ERROR_IO. */
  const LibusbErrorIo: int := -1

  // ---------------------------------------------------------------------
  // Enumerations
  // ---------------------------------------------------------------------

  /** Sampling mode of the device. */
  datatype DeviceState = StateOff | TwoAnalog | OneAnalogOneDigital

  /** Level of the auxiliary output line. */
  datatype OutputState = OutputOff | OutputLow | OutputHigh | OutputNoChange

  /** The numeric value the firmware expects for each sampling mode. */
  function StateValue(s: DeviceState): (v: u16) {
    match s
    case StateOff => 0
    case TwoAnalog => 1
    case OneAnalogOneDigital => 2
  }

  /** The numeric value the firmware expects for each output level. */
  function OutputValue(o: OutputState): (v: u16) {
    match o
    case OutputOff => 0
    case OutputLow => 1
    case OutputHigh => 3
    case OutputNoChange => 0xFF
  }

  /** Reads a sampling mode back from its wire value; the inverse of StateValue. */
  function StateOfValue(v: u16): (r: Option<DeviceState>)
    ensures r.Some? <==> v <= 2
    ensures r.Some? ==> StateValue(r.value) == v
  {
    if v == 0 then Some(StateOff)
    else if v == 1 then Some(TwoAnalog)
    else if v == 2 then Some(OneAnalogOneDigital)
    else None
  }

  /** Reads an output level back from its wire value; the inverse of OutputValue. */
  function OutputOfValue(v: u16): (r: Option<OutputState>)
    ensures r.Some? <==> v in {0, 1, 3, 0xFF}
    ensures r.Some? ==> OutputValue(r.value) == v
  {
    if v == 0 then Some(OutputOff)
    else if v == 1 then Some(OutputLow)
    else if v == 3 then Some(OutputHigh)
    else if v == 0xFF then Some(OutputNoChange)
    else None
  }

  /** Every sampling mode has its own wire value, and the value reads back. */
  lemma StateValueRoundTrip(s: DeviceState, t: DeviceState)
    ensures StateOfValue(StateValue(s)) == Some(s)
    ensures StateValue(s) == StateValue(t) ==> s == t
    ensures StateValue(s) < 3
  {
  }

  /** Every output level has its own wire value, and the value reads back. */
  lemma OutputValueRoundTrip(o: OutputState, p: OutputState)
    ensures OutputOfValue(OutputValue(o)) == Some(o)
    ensures OutputValue(o) == OutputValue(p) ==> o == p
    ensures OutputValue(o) <= 0xFF
  {
  }

  // ---------------------------------------------------------------------
  // Control requests
  // ---------------------------------------------------------------------

  /** Writing a device variable: a vendor request with no data stage. */
  function SetVar(variable: u16, value: u16): (r: ControlRequest)
    ensures DirectionOf(r.requestType) == HostToDevice
    ensures KindOf(r.requestType) == Vendor && RecipientOf(r.requestType) == Device
    ensures r.request == RequestSet
    ensures r.value == value && r.index == variable
    ensures r.buffer == NoBuffer && r.length == 0
  {
    ControlRequest(VendorRequestType, RequestSet, value, variable, NoBuffer, 0)
  }

  /** Reading a device variable of `size` bytes into a caller buffer. The
      request type is the same vendor host-to-device type as SetVar, and
      the length is truncated to the 16-bit wLength field. */
  function GetVar(variable: u16, size: nat): (r: ControlRequest)
    ensures KindOf(r.requestType) == Vendor && RecipientOf(r.requestType) == Device
    ensures r.request == RequestGet
    ensures r.value == 0 && r.index == variable
    ensures r.buffer == CallerBuffer
    ensures r.length == size % 0x1_0000
    ensures size < 0x1_0000 ==> r.length == size
  {
    ControlRequest(VendorRequestType, RequestGet, 0, variable, CallerBuffer, ToU16(size))
  }

  /** The read request as written moves its data stage from host to device,
      so the device never fills the caller's buffer. */
  lemma GetVarIsHostToDevice(variable: u16, size: nat)
    ensures DirectionOf(GetVar(variable, size).requestType) == HostToDevice
    ensures GetVar(variable, size).requestType == SetVar(variable, 0).requestType
  {
  }

  /** The read request with bit 7 of bmRequestType set, so that the data stage
      flows from the device into the caller's buffer. */
  function GetVarIn(variable: u16, size: nat): (r: ControlRequest)
    ensures DirectionOf(r.requestType) == DeviceToHost
    ensures KindOf(r.requestType) == Vendor && RecipientOf(r.requestType) == Device
    ensures r.request == RequestGet && r.value == 0 && r.index == variable
    ensures r.buffer == CallerBuffer
    ensures r.length == size % 0x1_0000
    ensures size < 0x1_0000 ==> r.length == size
  {
    GetVar(variable, size).(requestType := VendorRequestType + 0x80)
  }

  /** Selecting a sampling mode writes the state variable. */
  function SetState(s: DeviceState): (r: ControlRequest)
    ensures r.index == VarState && r.request == RequestSet
    ensures DirectionOf(r.requestType) == HostToDevice && r.length == 0
    ensures StateOfValue(r.value) == Some(s)
    ensures r == SetVar(VarState, r.value)
  {
    SetVar(VarState, StateValue(s))
  }

  /** Setting the output line writes the output-state variable. */
  function SetOutputState(o: OutputState): (r: ControlRequest)
    ensures r.index == VarOutputState && r.request == RequestSet
    ensures DirectionOf(r.requestType) == HostToDevice && r.length == 0
    ensures OutputOfValue(r.value) == Some(o)
    ensures r == SetVar(VarOutputState, r.value)
  {
    SetVar(VarOutputState, OutputValue(o))
  }

  /** The two writers never address the same variable, so setting the output
      line cannot change the sampling mode and vice versa. */
  lemma StateWritersDisjoint(s: DeviceState, o: OutputState)
    ensures SetOutputState(o).index != VarState
    ensures SetState(s).index != VarOutputState
    ensures SetState(s) != SetOutputState(o)
  {
  }

  // ---------------------------------------------------------------------
  // Interrupt transfer
  // ---------------------------------------------------------------------

  /** Result of reading one packet, given what the interrupt transfer returned
      (`transferResult`) and how many bytes it delivered (`actualLen`). A
      transport error passes through; a short packet becomes -1; otherwise
      the transfer's own result is returned. */
  function GetPacket(transferResult: int, actualLen: int): (r: int)
    ensures r >= 0 <==> transferResult >= 0 && actualLen >= PacketSize as int
    ensures r >= 0 ==> r == transferResult
    ensures transferResult < 0 ==> r == transferResult
    ensures r < 0 && r != transferResult ==> r == LibusbErrorIo
  {
    if transferResult < 0 then transferResult
    else if actualLen < PacketSize as int then -1
    else transferResult
  }

  /** A failed transfer's result does not depend on the delivered length. */
  lemma GetPacketErrorIgnoresLength(transferResult: int, len1: int, len2: int)
    requires transferResult < 0
    ensures GetPacket(transferResult, len1) == GetPacket(transferResult, len2)
  {
  }

  /** A short packet is reported with the same code as a transport I/O error,
      so a caller cannot tell the two apart. */
  lemma ShortPacketLooksLikeIoError(transferResult: int, actualLen: int, anyLen: int)
    requires transferResult >= 0 && actualLen < PacketSize as int
    ensures GetPacket(transferResult, actualLen) == GetPacket(LibusbErrorIo, anyLen)
  {
  }

  // ---------------------------------------------------------------------
  // Packet layout
  // ---------------------------------------------------------------------

  /** One interrupt packet: a count of readings the firmware dropped, a frame
      counter, and the raw sample bytes. */
  datatype Packet = Packet(missedReadings: u8, frame: u8, data: seq<u8>) {
    predicate Valid() {
      |data| == ReadingsPerPacket
    }
  }

  /** Reads the 22 received bytes as a packet. */
  function ParsePacket(buf: seq<u8>): (p: Packet)
    requires |buf| == PacketSize
    ensures p.Valid()
    ensures p.missedReadings == buf[0] && p.frame == buf[1]
    ensures forall i | 0 <= i < ReadingsPerPacket :: p.data[i] == buf[2 + i]
  {
    Packet(buf[0], buf[1], buf[2..])
  }

  /** The bytes of a packet in wire order. */
  function SerializePacket(p: Packet): (buf: seq<u8>)
    requires p.Valid()
    ensures |buf| == PacketSize
  {
    [p.missedReadings, p.frame] + p.data
  }

  /** Parsing and serialising are inverse to each other. */
  lemma PacketRoundTrip(p: Packet, buf: seq<u8>)
    requires p.Valid() && |buf| == PacketSize
    ensures ParsePacket(SerializePacket(p)) == p
    ensures SerializePacket(ParsePacket(buf)) == buf
  {
    assert SerializePacket(p)[2..] == p.data;
    assert buf == [buf[0], buf[1]] + buf[2..];
  }
}
