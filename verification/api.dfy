/**
  The host-facing side of the driver: configuration get/set/list dispatch
  against the device-option table, the open sequence, and one iteration of
  the acquisition loop (turning a received packet into an analog record).
 */
module Api {
  import opened Usb
  import opened Wrappers
  import opened Protocol
  import opened Samples

  /** Status codes of the driver framework that the driver returns. */
  datatype Status = Ok | Err | ErrNa

  /** Configuration keys the driver mentions; every other key is `OtherKey`. */
  datatype ConfigKey = Oscilloscope | SampleRate | Continuous | DeviceOptions | OtherKey(id: nat)

  datatype Capability = CapGet | CapSet | CapList

  /** One entry of the device-option table: a key and what the host may do with it. */
  datatype DeviceOption = DeviceOption(key: ConfigKey, caps: set<Capability>)

  /** A value handed back to the host. */
  datatype ConfigValue =
    | UInt64Value(n: nat)
    | BoolValue(b: bool)
    | SampleRateSteps(rates: seq<nat>)

  /** A status together with the value written to the caller's output, if any. */
  datatype Reply = Reply(status: Status, data: Option<ConfigValue>)

  const SampleRateHz: nat := 10 * 1000

  const DriverOptionTable: seq<ConfigKey> := [Oscilloscope]

  const DeviceOptionTable: seq<DeviceOption> := [
    DeviceOption(SampleRate, {CapGet, CapSet, CapList}),
    DeviceOption(Continuous, {CapGet})
  ]

  const SampleRateTable: seq<nat> := [SampleRateHz]

  /** Whether the device-option table advertises `cap` for `key`. */
  predicate Offers(key: ConfigKey, cap: Capability) {
    exists i | 0 <= i < |DeviceOptionTable| :: DeviceOptionTable[i].key == key && cap in DeviceOptionTable[i].caps
  }

  /** The table lists each key once, and no key may be set without also
      being readable. */
  lemma DeviceOptionTableWellFormed()
    ensures forall i, j | 0 <= i < j < |DeviceOptionTable| :: DeviceOptionTable[i].key != DeviceOptionTable[j].key
    ensures forall key: ConfigKey :: Offers(key, CapSet) ==> Offers(key, CapGet)
    ensures Offers(SampleRate, CapGet) && Offers(SampleRate, CapSet) && Offers(SampleRate, CapList)
    ensures Offers(Continuous, CapGet) && !Offers(Continuous, CapSet) && !Offers(Continuous, CapList)
  {
    assert DeviceOptionTable[0].key == SampleRate;
    assert DeviceOptionTable[1].key == Continuous;
  }

  // ---------------------------------------------------------------------
  // Configuration dispatch
  // ---------------------------------------------------------------------

  /** Reading a configuration value: the fixed 10 kHz sample rate, the
      continuous-acquisition flag, or "not applicable" with nothing written. */
  function ConfigGet(key: ConfigKey): (r: Reply)
    ensures r.status == Ok <==> Offers(key, CapGet)
    ensures r.status != Ok ==> r.status == ErrNa && r.data == None
    ensures key == SampleRate ==> r.data == Some(UInt64Value(SampleRateHz))
    ensures key == Continuous ==> r.data == Some(BoolValue(true))
  {
    DeviceOptionTableWellFormed();
    match key
    case SampleRate => Reply(Ok, Some(UInt64Value(SampleRateHz)))
    case Continuous => Reply(Ok, Some(BoolValue(true)))
    case _ => Reply(ErrNa, None)
  }

  /** Writing a configuration value: accepted and ignored for the sample
      rate, "not applicable" for every other key. */
  function ConfigSet(key: ConfigKey, value: ConfigValue): (s: Status)
    ensures s == Ok <==> Offers(key, CapSet)
    ensures s != Ok ==> s == ErrNa
  {
    DeviceOptionTableWellFormed();
    match key
    case SampleRate => Ok
    case _ => ErrNa
  }

  /** The value written is never looked at, and a successful write leaves the
      reported sample rate as it was. */
  lemma ConfigSetIgnoresValue(key: ConfigKey, v1: ConfigValue, v2: ConfigValue)
    ensures ConfigSet(key, v1) == ConfigSet(key, v2)
    ensures ConfigSet(key, v1) == Ok ==> ConfigGet(key).data == Some(UInt64Value(SampleRateHz))
  {
  }

  /** Listing the possible values of a key. The device-options key is handed,
      with the driver and device option tables, to the framework's generic
      option lister, whose reply (which also depends on the device instance
      and channel group it is given) is returned unchanged; `lister` stands
      for that helper. The sample rate gives the one-element rate list; any
      other key gives "not applicable" and writes nothing. */
  function ConfigList(key: ConfigKey, lister: (seq<ConfigKey>, seq<DeviceOption>) -> Reply): (r: Reply)
    ensures key == DeviceOptions ==> r == lister(DriverOptionTable, DeviceOptionTable)
    ensures key != DeviceOptions ==> (r.status == Ok <==> Offers(key, CapList))
    ensures key != DeviceOptions && r.status != Ok ==> r.status == ErrNa && r.data == None
    ensures key == SampleRate ==> r.data == Some(SampleRateSteps([SampleRateHz]))
  {
    DeviceOptionTableWellFormed();
    match key
    case DeviceOptions => lister(DriverOptionTable, DeviceOptionTable)
    case SampleRate => Reply(Ok, Some(SampleRateSteps(SampleRateTable)))
    case _ => Reply(ErrNa, None)
  }

  /** The sample rate that reading reports is the only one listing offers. */
  lemma SampleRateGetAgreesWithList(lister: (seq<ConfigKey>, seq<DeviceOption>) -> Reply)
    ensures ConfigGet(SampleRate).data.Some? && ConfigList(SampleRate, lister).data.Some?
    ensures ConfigGet(SampleRate).data.value.UInt64Value?
    ensures ConfigList(SampleRate, lister).data.value.rates == [ConfigGet(SampleRate).data.value.n]
  {
  }

  // ---------------------------------------------------------------------
  // Opening the device
  // ---------------------------------------------------------------------

  const DataInterface: nat := 4

  /** The steps of opening the device, in the order they are attempted. */
  datatype OpenStep = UsbOpen | ClaimInterface(number: nat) | Control(request: ControlRequest)

  const OpenSequence: seq<OpenStep> := [UsbOpen, ClaimInterface(DataInterface), Control(SetState(TwoAnalog))]

  /** What the USB layer reports for each step if it is attempted: whether the
      handle opened, libusb's result of claiming the interface, and the
      control transfer's result for the state write. */
  datatype OpenOutcomes = OpenOutcomes(usbOpenOk: bool, claimResult: int, setStateResult: int)

  /** Whether step `n` of the open sequence succeeds under the outcomes `t`. */
  predicate StepSucceeds(t: OpenOutcomes, n: nat) {
    if n == 0 then t.usbOpenOk
    else if n == 1 then t.claimResult == 0
    else t.setStateResult == 0
  }

  datatype OpenResult = OpenResult(status: Status, steps: seq<OpenStep>)

  /** Opening the device: open the USB handle, claim interface 4, switch the
      device to two-analog sampling. The first failing step ends the
      sequence with Err. */
  function DevOpen(t: OpenOutcomes): (r: OpenResult)
    ensures r.status == Ok <==> t.usbOpenOk && t.claimResult == 0 && t.setStateResult == 0
    ensures r.status == Ok || r.status == Err
    ensures 1 <= |r.steps| <= |OpenSequence| && r.steps == OpenSequence[..|r.steps|]
    ensures forall n | 0 <= n < |r.steps| - 1 :: StepSucceeds(t, n)
    ensures r.status == Err ==> !StepSucceeds(t, |r.steps| - 1)
    ensures r.status == Ok ==> r.steps == OpenSequence
  {
    if !t.usbOpenOk then OpenResult(Err, OpenSequence[..1])
    else if t.claimResult != 0 then OpenResult(Err, OpenSequence[..2])
    else if t.setStateResult != 0 then OpenResult(Err, OpenSequence)
    else OpenResult(Ok, OpenSequence)
  }

  // ---------------------------------------------------------------------
  // One iteration of the acquisition loop
  // ---------------------------------------------------------------------

  /** The twenty readings of one packet as the loop lays them out: channel A's
      ten readings, then channel B's. */
  function PacketReadings(p: Packet): (readings: seq<real>)
    requires p.Valid()
    ensures |readings| == ReadingsPerPacket
    ensures forall i | 0 <= i < ReadingsPerChannel ::
      readings[i] == Voltage(p.data[2 * i]) && readings[ReadingsPerChannel + i] == Voltage(p.data[2 * i + 1])
  {
    Decode2Analog(p.data).channelA + Decode2Analog(p.data).channelB
  }

  /** The loop's two passes over the packet, writing `readings[i]` from byte
      `2i` and `readings[10 + i]` from byte `2i + 1`. `slots` records the
      positions written, in order. */
  method AcquisitionReadings(p: Packet) returns (readings: seq<real>, slots: seq<int>)
    requires p.Valid()
    ensures readings == PacketReadings(p)
    ensures |slots| == ReadingsPerPacket
    ensures forall n | 0 <= n < |slots| :: 0 <= slots[n] < ReadingsPerPacket
    ensures forall m, n | 0 <= m < n < |slots| :: slots[m] != slots[n]
  {
    readings := seq(ReadingsPerPacket, _ => 0.0);
    slots := [];
    var i := 0;
    while i < 10
      invariant 0 <= i <= 10
      invariant |readings| == ReadingsPerPacket
      invariant forall k | 0 <= k < i :: readings[k] == Voltage(p.data[k * 2])
      invariant slots == seq(i, k => k)
    {
      readings := readings[i := Voltage(p.data[i * 2])];
      slots := slots + [i];
      i := i + 1;
    }
    i := 0;
    while i < 10
      invariant 0 <= i <= 10
      invariant |readings| == ReadingsPerPacket
      invariant forall k | 0 <= k < 10 :: readings[k] == Voltage(p.data[k * 2])
      invariant forall k | 0 <= k < i :: readings[10 + k] == Voltage(p.data[k * 2 + 1])
      invariant slots == seq(10 + i, k => k)
    {
      readings := readings[10 + i := Voltage(p.data[i * 2 + 1])];
      slots := slots + [10 + i];
      i := i + 1;
    }
    forall n | 0 <= n < ReadingsPerPacket
      ensures readings[n] == PacketReadings(p)[n]
    {
      if n >= 10 {
        assert readings[10 + (n - 10)] == Voltage(p.data[(n - 10) * 2 + 1]);
      }
    }
  }

  datatype MeasuredQuantity = MqVoltage
  datatype Unit = UnitVolt
  datatype MeasurementFlag = FlagDc

  /** The analog payload sent to the session for one packet. */
  datatype AnalogRecord = AnalogRecord(
    quantity: MeasuredQuantity,
    unit: Unit,
    flags: set<MeasurementFlag>,
    channels: seq<nat>,
    numSamples: nat,
    data: seq<real>)

  const SamplesPerRecord: nat := 10

  /** One iteration of the loop as written: the packet buffer is decoded and
      sent whatever the packet read returned. */
  function LoopIteration(channels: seq<nat>, getPacketResult: int, p: Packet): (r: AnalogRecord)
    requires p.Valid()
    ensures r.quantity == MqVoltage && r.unit == UnitVolt && r.flags == {FlagDc}
    ensures r.channels == channels
    ensures r.numSamples == ReadingsPerChannel && |r.data| == ReadingsPerPacket
    ensures r.data[..ReadingsPerChannel] == Decode2Analog(p.data).channelA
    ensures r.data[ReadingsPerChannel..] == Decode2Analog(p.data).channelB
  {
    AnalogRecord(MqVoltage, UnitVolt, {FlagDc}, channels, SamplesPerRecord, PacketReadings(p))
  }

  /** The loop as written sends a record even when the packet read failed: a
      short packet (result -1) yields the same record as a good one. */
  lemma LoopIterationIgnoresFailure(channels: seq<nat>, p: Packet, actualLen: int)
    requires p.Valid() && 0 <= actualLen < PacketSize as int
    ensures GetPacket(0, actualLen) < 0
    ensures LoopIteration(channels, GetPacket(0, actualLen), p) == LoopIteration(channels, GetPacket(0, PacketSize as int), p)
  {
  }

  /** One iteration that sends a record only when the packet read succeeded. */
  function CheckedLoopIteration(channels: seq<nat>, getPacketResult: int, p: Packet): (r: Option<AnalogRecord>)
    requires p.Valid()
    ensures r.Some? <==> getPacketResult >= 0
    ensures r.Some? ==> r.value.numSamples == ReadingsPerChannel && r.value.data == PacketReadings(p)
  {
    if getPacketResult < 0 then None else Some(LoopIteration(channels, getPacketResult, p))
  }

  /** With the check in place, a short or failed transfer never produces a
      record, and an accepted one produces exactly the as-written record. */
  lemma CheckedLoopIterationDropsBadPackets(channels: seq<nat>, transferResult: int, actualLen: int, p: Packet)
    requires p.Valid()
    ensures CheckedLoopIteration(channels, GetPacket(transferResult, actualLen), p).Some?
      <==> transferResult >= 0 && actualLen >= PacketSize as int
    ensures transferResult >= 0 && actualLen >= PacketSize as int ==>
      CheckedLoopIteration(channels, GetPacket(transferResult, actualLen), p) == Some(LoopIteration(channels, transferResult, p))
  {
  }
}
