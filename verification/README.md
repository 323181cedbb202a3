# Pololu SLO-scope driver: protocol layer in Dafny

This project models the protocol layer of the libsigrok driver for the Pololu
SLO-scope, a two-channel low-frequency USB oscilloscope. The model covers:

- the vendor control requests that write and read device variables
  (`set_var`, `get_var`, and the `set_state` / `set_output_state` wrappers),
  with their setup-packet fields decoded as section 9.3.1 of the USB 2.0
  specification describes;
- the sampling-mode and output-level enumerations and their wire values;
- the classification of an interrupt transfer by `get_packet`;
- the 22-byte sample packet (missed-readings count, frame counter, 20 data
  bytes);
- the byte-to-voltage map, over exact reals;
- the stride-2 split of the data bytes into channel A (even offsets) and
  channel B (odd offsets), both as the acquisition loop in `api.c` does it
  and as `packet_to_data_2analog` in `protocol.c` was meant to do it;
- the configuration get/set/list dispatch, checked against the device-option
  table;
- the open sequence: open the USB handle, claim interface 4, switch to
  two-analog sampling.

Files:

- `usb.dfy` (module `Usb`): byte widths, the control request record, and the
  bmRequestType decoding.
- `protocol.dfy` (module `Protocol`): `protocol.h` and the request and packet
  parts of `protocol.c`.
- `samples.dfy` (module `Samples`): voltage conversion and channel split.
- `api.dfy` (module `Api`): `api.c`.
- `wrappers.dfy` (module `Wrappers`): the `Option` type.

The USB transport is not modelled as a device. Its outcomes are parameters:
the interrupt transfer's result and delivered length for `get_packet`, and
the result of each step for the open sequence. The numeric values of the
framework's status codes (`SR_OK`, `SR_ERR`, `SR_ERR_NA`) and
configuration keys come from `libsigrok.h`, which is not part of this model.
They appear as datatypes (`Api.Status`, `Api.ConfigKey`), so they are
distinct by construction. The model uses the constant `LIBUSB_ERROR_IO = -1`
only to name the value `get_packet` returns for a short packet.

## Model

| member | source | states |
|---|---|---|
| `Protocol.StateOfValue` | src/hardware/pololu-slo-scope/protocol.h:29-33 | reading a sampling mode back from the wire succeeds exactly for 0, 1 and 2, and gives back the mode whose value it was |
| `Protocol.StateValueRoundTrip` | src/hardware/pololu-slo-scope/protocol.h:29-33 | every sampling mode reads back from its wire value; no two modes share a value; all are below 3, so they fit the 16-bit wValue |
| `Protocol.OutputOfValue` | src/hardware/pololu-slo-scope/protocol.h:36-41 | reading an output level back from the wire succeeds exactly for 0, 1, 3 and 0xFF, and gives back the level whose value it was |
| `Protocol.OutputValueRoundTrip` | src/hardware/pololu-slo-scope/protocol.h:36-41 | every output level reads back from its wire value; no two levels share a value; all are at most 0xFF |
| `Protocol.SetVar` | src/hardware/pololu-slo-scope/protocol.c:16-21 | writing a variable is one vendor request to the device, host-to-device, bRequest 0x82, wValue the value, wIndex the variable, no buffer, length 0 |
| `Protocol.GetVar` | src/hardware/pololu-slo-scope/protocol.c:23-28 | reading a variable is a vendor request to the device with bRequest 0x81, wValue 0, wIndex the variable, a caller buffer, and wLength the requested size modulo 2^16 |
| `Protocol.GetVarIsHostToDevice` | src/hardware/pololu-slo-scope/protocol.c:23-28 | the read request as written has bit 7 of bmRequestType clear, the same request type as a write, so its data stage flows host-to-device |
| `Protocol.GetVarIn` | src/hardware/pololu-slo-scope/protocol.c:23-28 | the read request with the direction bit set is device-to-host; it is a vendor request to the device with bRequest 0x81, wValue 0, wIndex the variable, a caller buffer and wLength the size modulo 2^16, the same fields as the request as written |
| `Protocol.SetState` | src/hardware/pololu-slo-scope/protocol.c:30-32 | selecting a sampling mode is exactly the variable write of 0x42, with a wValue that reads back as that mode |
| `Protocol.SetOutputState` | src/hardware/pololu-slo-scope/protocol.c:34-36 | setting the output line is exactly the variable write of 0x43, with a wValue that reads back as that level |
| `Protocol.StateWritersDisjoint` | src/hardware/pololu-slo-scope/protocol.c:13-14 | the output-level writer never addresses the state variable and the state writer never addresses the output variable |
| `Protocol.GetPacket` | src/hardware/pololu-slo-scope/protocol.c:38-50 | the result is non-negative exactly when the transfer succeeded and delivered at least 22 bytes, and is then the transfer's result; a failed transfer's error passes through; any other negative result is -1 |
| `Protocol.GetPacketErrorIgnoresLength` | src/hardware/pololu-slo-scope/protocol.c:42-44 | when the transfer fails, the delivered length does not affect the result |
| `Protocol.ShortPacketLooksLikeIoError` | src/hardware/pololu-slo-scope/protocol.c:45-47 | a short packet is reported with the same code as a libusb I/O error |
| `Protocol.ParsePacket` | src/hardware/pololu-slo-scope/protocol.h:44-48 | 22 bytes read as a packet give byte 0 as missed readings, byte 1 as the frame counter and bytes 2..21 as the 20 data bytes |
| `Protocol.PacketRoundTrip` | src/hardware/pololu-slo-scope/protocol.h:44-48 | parsing and serialising the 22-byte packet are inverse in both directions |
| `Samples.Voltage` | src/hardware/pololu-slo-scope/protocol.c:52-54 | a sample byte maps into [0, 5] V, and 51 times the voltage gives back the byte |
| `Samples.VoltageEndpoints` | src/hardware/pololu-slo-scope/protocol.c:52-54 | byte 0 is 0 V and byte 255 is 5 V |
| `Samples.VoltageStrictlyIncreasing` | src/hardware/pololu-slo-scope/protocol.c:52-54 | the voltage map is strictly increasing in both directions, so it is injective |
| `Samples.SplitInterleaveRoundTrip` | src/hardware/pololu-slo-scope/protocol.c:56-63 | splitting bytes into even and odd offsets and interleaving the halves again are inverse |
| `Samples.Decode2Analog` | src/hardware/pololu-slo-scope/protocol.c:56-63 | two-analog decoding gives 10 readings per channel: A's reading k is the voltage of byte 2k, B's is the voltage of byte 2k+1 |
| `Samples.Decode2AnalogInjective` | src/hardware/pololu-slo-scope/protocol.c:56-63 | two packets with equal decoded readings have equal data bytes |
| `Samples.Decode2AnalogConstant` | src/hardware/pololu-slo-scope/protocol.c:56-63 | a packet of all 255 decodes to 5 V on both channels, and one of all 0 decodes to 0 V |
| `Samples.AsWrittenLoopClosedForm` | src/hardware/pololu-slo-scope/protocol.c:56-63 | a stride-2 loop of the routine as written, from any start offset up to its bound, stores the byte at offset i to position i, for every i it visits |
| `Samples.AsWrittenWritesIndexed` | src/hardware/pololu-slo-scope/protocol.c:56-63 | for any even loop bound 2·h, the routine as written makes its stores in this order: channel A's positions 0, 2, ..., 2h-2 from the same byte offsets, then channel B's positions 1, 3, ..., 2h-1 from the same offsets |
| `Samples.AsWrittenOverruns` | src/hardware/pololu-slo-scope/protocol.c:56-63 | with its loop bound of 20, the routine as written makes 20 stores; one is addressed to channel A position 10 and one to channel B position 19, both outside the 10-element arrays. The first ten stores are all addressed to channel A at even positions and the last ten to channel B at odd positions, so no store addressed to channel A targets an odd position and no store addressed to channel B targets an even one |
| `Samples.CorrectedLoopClosedForm` | src/hardware/pololu-slo-scope/protocol.c:56-63 | a stride-2 loop with halved positions stores the byte at offset i to position i/2 |
| `Samples.CorrectedWritesIndexed` | src/hardware/pololu-slo-scope/protocol.c:56-63 | for any even loop bound 2·h, the corrected routine's stores fill channel A's positions 0..h-1 from bytes 0, 2, ..., then channel B's positions 0..h-1 from bytes 1, 3, ... |
| `Samples.CorrectedWritesPartition` | src/hardware/pololu-slo-scope/protocol.c:56-63 | for any even loop bound 2·h (20 in the routine, with h = 10), the stores with halved positions come in that order, every store fits its h-element array, each position of each channel is written once, and every data byte is read exactly once |
| `Samples.PacketToData2Analog` | src/hardware/pololu-slo-scope/protocol.c:56-63 | the two stride-2 loops with halved positions produce exactly the two-analog decoding of the packet |
| `Api.DeviceOptionTableWellFormed` | src/hardware/pololu-slo-scope/api.c:29-32 | the option table lists each key once; the sample rate offers get, set and list; continuous offers only get; no key offers set without get |
| `Api.ConfigGet` | src/hardware/pololu-slo-scope/api.c:113-134 | reading succeeds exactly for the keys the table marks readable: the sample rate gives 10000 Hz and continuous gives true; any other key gives "not applicable" and writes nothing |
| `Api.ConfigSet` | src/hardware/pololu-slo-scope/api.c:136-155 | writing succeeds exactly for the keys the table marks writable (only the sample rate); any other key gives "not applicable" |
| `Api.ConfigSetIgnoresValue` | src/hardware/pololu-slo-scope/api.c:145-154 | the result of writing does not depend on the value, and a successful write leaves the reported rate at 10000 Hz |
| `Api.ConfigList` | src/hardware/pololu-slo-scope/api.c:157-179 | for the device-options key, the reply is the generic option lister's reply for the driver and device option tables, passed through unchanged. For any other key, listing succeeds exactly for the keys the table marks listable: the sample rate gives the one-element step list [10000], and any other key gives "not applicable" with no data |
| `Api.SampleRateGetAgreesWithList` | src/hardware/pololu-slo-scope/api.c:34 | the rate reading reports is the single entry of the listed rates |
| `Api.DevOpen` | src/hardware/pololu-slo-scope/api.c:80-102 | the attempted steps are a non-empty prefix of open, claim interface 4, set two-analog state. Every step before the last succeeded, and on Err the last failed. The result is Ok exactly when all three succeed, and otherwise Err |
| `Api.PacketReadings` | src/hardware/pololu-slo-scope/api.c:205-209 | a packet's 20 readings are channel A's voltages of bytes 0, 2, ..., 18 followed by channel B's voltages of bytes 1, 3, ..., 19 |
| `Api.AcquisitionReadings` | src/hardware/pololu-slo-scope/api.c:205-209 | the loop's two passes produce exactly the packet's readings and write each of the positions 0..19 exactly once |
| `Api.LoopIteration` | src/hardware/pololu-slo-scope/api.c:211-219 | each packet becomes one record of 10 samples, DC volts, over the device's channels, with channel A's readings then channel B's |
| `Api.LoopIterationIgnoresFailure` | src/hardware/pololu-slo-scope/api.c:203-209 | as written, a short packet still yields the same record as a good packet with the same buffer |
| `Api.CheckedLoopIteration` | src/hardware/pololu-slo-scope/api.c:203-209 | a record is sent exactly when the packet read succeeded, and it carries the packet's readings |
| `Api.CheckedLoopIterationDropsBadPackets` | src/hardware/pololu-slo-scope/api.c:203-209 | with the check, a record is sent exactly when the transfer succeeded with a full packet, and it is then the as-written record |

## Left out

- `scan`: libusb enumeration by vendor and product id, port-path lookup, and allocating the device instance. This is all foreign calls and memory management. The device's channel list is therefore a parameter of `Api.LoopIteration`.
- The acquisition loop has no stop, cancellation or failure state: the `while (1)` loop of `dev_acquisition_start` never exits. The loop itself, the header and frame-begin packets, `sr_analog_init` and `sr_session_send`. These are session I/O that never ends. Only one iteration's packet-to-record step is modelled.
- `dev_close` returns OK and does nothing else. `dev_acquisition_stop` prints a message and returns OK. Neither has any state to model.
- The driver registration table and `SR_REGISTER_DEV_DRIVER`: static wiring.
- The transport itself: what libusb and the device do with a request, the zero timeouts (wait forever), and endpoint 0x85. Transfer results are parameters. `Protocol.SetVar`, `Protocol.GetVar`, `Protocol.SetState` and `Protocol.SetOutputState` give the request they issue, not the transport's result, which the C functions return unchanged.
- The buffer contents after a failed or short transfer are whatever the transport left. The packet is a parameter of the loop iteration.
- `Samples.Voltage`: the C code converts the byte to `float`, divides by the double literal 255.0 (so the arithmetic is done in double), and rounds the result to single precision on return. The model computes exactly over reals, so it does not model the rounding.
- The driver has no decoder for the Off or one-analog-one-digital state. Only the two-analog decoder exists, and for the one-analog-one-digital record only its shape is modelled.
- The missing `return` at the end of `packet_to_data_2analog`: it leaves the integer result undefined. The model returns only the decoded data.
- `*data = TRUE` in `config_get` stores an integer where a variant pointer is expected. The model reports the continuous flag as the abstract value `true`.
- `STD_CONFIG_LIST`: the generic lister is not part of this model. Its reply also depends on the device instance and channel group, so `Api.ConfigList` takes it as a parameter and passes its reply through. `std_gvar_samplerates_steps` is modelled as the step list `SampleRateSteps` built from the rate table; the variant encoding is not part of this model.
- `config_set` has no device state to change, so the model has no state. "Changes nothing" is stated as the write ignoring its value and the reported rate staying at 10000 Hz.
- `printf` debug output.

## Findings

| source | as written | input that shows it | evidently intended | confidence | as-written member | corrected member |
|---|---|---|---|---|---|---|
| src/hardware/pololu-slo-scope/protocol.c:56-63 | stores the reading of byte i at `channel_a_readings[i]` and `channel_b_readings[i]`, with i up to 19, into 10-element arrays. The routine has no live caller: its call at api.c:204 is commented out | any packet: the iteration i = 10 stores to `channel_a_readings[10]` and i = 19 to `channel_b_readings[19]`, which is undefined behaviour. No store addressed to channel B targets an even position. The two arrays are adjacent `float` members of one struct (protocol.h:51-54). So in the usual layout, channel A's stores to positions 10, 12, ..., 18 land on `channel_b_readings[0]`, `[2]`, ..., `[8]`. Channel B then holds bytes 10, 1, 12, 3, ..., 18, 9, and its stores to positions 11..19 run past the end of the struct | store at position i/2, so A gets bytes 0, 2, ..., 18 and B gets bytes 1, 3, ..., 19 | high (not executed) | `Samples.AsWrittenOverruns` | `Samples.CorrectedWritesPartition` |
| src/hardware/pololu-slo-scope/protocol.c:23-28 | `get_var` sends request type 0x40, which has bit 7 clear and so is host-to-device, for a request meant to read a variable into the caller's buffer | `get_var(v, buf, 2)`: the data stage sends 2 bytes from `buf` to the device instead of filling it | request type 0xC0 (device-to-host, vendor, device) | medium (not executed) | `Protocol.GetVarIsHostToDevice` | `Protocol.GetVarIn` |
| src/hardware/pololu-slo-scope/api.c:203-209 | the acquisition loop discards `get_packet`'s result and decodes the buffer anyway | a transfer that succeeds with 10 bytes: `get_packet` returns -1, yet a record is sent. Bytes 0..9 of the packet buffer are new: the missed-readings count, the frame counter and `data[0..7]`. `data[8..19]` are left over from the previous packet, or uninitialised on the first pass | send a record only when `get_packet` returns a non-negative result | medium (not executed) | `Api.LoopIterationIgnoresFailure` | `Api.CheckedLoopIterationDropsBadPackets` |
