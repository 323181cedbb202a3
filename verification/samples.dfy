/**
  Sample decoding: the byte-to-voltage map and the split of a packet's 20
  data bytes into the two analog channels (channel A at even offsets,
  channel B at odd offsets).
 */
module Samples {
  import opened Usb
  import opened Protocol

  const FullScaleVolts: real := 5.0
  /** Half of a packet's readings go to each channel. */
  const ReadingsPerChannel: nat := 10

  /** Converts one raw sample byte to volts, linearly over 0..255 -> 0..5 V.
      The result is an exact multiple of 1/51 V, so the byte can be read
      back from it. */
  function Voltage(b: u8): (v: real)
    ensures 0.0 <= v <= FullScaleVolts
    ensures v * 51.0 == b as real
  {
    (b as real / 255.0) * 5.0
  }

  lemma VoltageEndpoints()
    ensures Voltage(0) == 0.0
    ensures Voltage(255) == FullScaleVolts
  {
  }

  /** Larger bytes give strictly larger voltages; in particular no two bytes
      share a voltage. */
  lemma VoltageStrictlyIncreasing(a: u8, b: u8)
    ensures a < b <==> Voltage(a) < Voltage(b)
    ensures Voltage(a) == Voltage(b) ==> a == b
  {
  }

  // ---------------------------------------------------------------------
  // Decoded data records
  // ---------------------------------------------------------------------

  /** Two analog channels, one reading per pair of data bytes each. */
  datatype TwoAnalogData = TwoAnalogData(channelA: seq<real>, channelB: seq<real>) {
    predicate Valid() {
      |channelA| == ReadingsPerChannel && |channelB| == ReadingsPerChannel
    }
  }

  /** One analog and one digital channel, one reading per data byte each.
      No decoder produces this shape. */
  datatype OneAnalogOneDigitalData = OneAnalogOneDigitalData(channelA: seq<real>, channelB: seq<bool>) {
    predicate Valid() {
      |channelA| == ReadingsPerPacket && |channelB| == ReadingsPerPacket
    }
  }

  /** The two record shapes, as fixed by their Valid predicates, account for
      a packet's data bytes differently: two-analog data has one reading per
      channel for every two bytes, one-analog-one-digital data one reading
      per channel for every byte. */
  lemma RecordShapes(two: TwoAnalogData, mixed: OneAnalogOneDigitalData)
    requires two.Valid() && mixed.Valid()
    ensures 2 * |two.channelA| == ReadingsPerPacket && 2 * |two.channelB| == ReadingsPerPacket
    ensures |mixed.channelA| == ReadingsPerPacket && |mixed.channelB| == ReadingsPerPacket
  {
  }

  // ---------------------------------------------------------------------
  // Stride-2 split of the data bytes, and its inverse
  // ---------------------------------------------------------------------

  /** The bytes at even offsets. */
  function EvenBytes(d: seq<u8>): (r: seq<u8>)
    ensures |r| == (|d| + 1) / 2
    ensures forall k | 0 <= k < |r| :: r[k] == d[2 * k]
  {
    seq((|d| + 1) / 2, k requires 0 <= k < (|d| + 1) / 2 => d[2 * k])
  }

  /** The bytes at odd offsets. */
  function OddBytes(d: seq<u8>): (r: seq<u8>)
    ensures |r| == |d| / 2
    ensures forall k | 0 <= k < |r| :: r[k] == d[2 * k + 1]
  {
    seq(|d| / 2, k requires 0 <= k < |d| / 2 => d[2 * k + 1])
  }

  /** Merges two equally long sequences, alternating from `a`. */
  function Interleave(a: seq<u8>, b: seq<u8>): (d: seq<u8>)
    requires |a| == |b|
    ensures |d| == 2 * |a|
  {
    seq(2 * |a|, i requires 0 <= i < 2 * |a| => if i % 2 == 0 then a[i / 2] else b[i / 2])
  }

  /** Splitting by parity loses nothing: interleaving the two halves gives
      back the bytes, and splitting an interleaving gives back the halves. */
  lemma SplitInterleaveRoundTrip(d: seq<u8>, a: seq<u8>, b: seq<u8>)
    requires |d| % 2 == 0 && |a| == |b|
    ensures Interleave(EvenBytes(d), OddBytes(d)) == d
    ensures EvenBytes(Interleave(a, b)) == a && OddBytes(Interleave(a, b)) == b
  {
    var e := Interleave(EvenBytes(d), OddBytes(d));
    forall i | 0 <= i < |d|
      ensures e[i] == d[i]
    {
      if i % 2 == 0 {
        assert 2 * (i / 2) == i;
      } else {
        assert 2 * (i / 2) + 1 == i;
      }
    }
    var m := Interleave(a, b);
    forall k | 0 <= k < |a|
      ensures EvenBytes(m)[k] == a[k] && OddBytes(m)[k] == b[k]
    {
      assert (2 * k) % 2 == 0 && (2 * k) / 2 == k;
      assert (2 * k + 1) % 2 == 1 && (2 * k + 1) / 2 == k;
    }
  }

  function Voltages(bs: seq<u8>): (vs: seq<real>)
    ensures |vs| == |bs|
    ensures forall k | 0 <= k < |bs| :: vs[k] == Voltage(bs[k])
  {
    seq(|bs|, k requires 0 <= k < |bs| => Voltage(bs[k]))
  }

  /** The two-analog decoding of a packet's data bytes: channel A from the even
      offsets, channel B from the odd offsets, ten readings each. */
  function Decode2Analog(d: seq<u8>): (r: TwoAnalogData)
    requires |d| == ReadingsPerPacket
    ensures r.Valid()
    ensures forall k | 0 <= k < ReadingsPerChannel ::
      r.channelA[k] == Voltage(d[2 * k]) && r.channelB[k] == Voltage(d[2 * k + 1])
  {
    TwoAnalogData(Voltages(EvenBytes(d)), Voltages(OddBytes(d)))
  }

  /** Decoding is lossless: the data bytes are determined by the readings. */
  lemma Decode2AnalogInjective(d: seq<u8>, e: seq<u8>)
    requires |d| == ReadingsPerPacket && |e| == ReadingsPerPacket
    requires Decode2Analog(d) == Decode2Analog(e)
    ensures d == e
  {
    forall i | 0 <= i < |d|
      ensures d[i] == e[i]
    {
      var k := i / 2;
      if i % 2 == 0 {
        assert i == 2 * k;
        VoltageStrictlyIncreasing(d[i], e[i]);
        assert Decode2Analog(d).channelA[k] == Decode2Analog(e).channelA[k];
      } else {
        assert i == 2 * k + 1;
        VoltageStrictlyIncreasing(d[i], e[i]);
        assert Decode2Analog(d).channelB[k] == Decode2Analog(e).channelB[k];
      }
    }
  }

  /** A full-scale or an empty packet decodes to constant channels. */
  lemma Decode2AnalogConstant(d: seq<u8>, b: u8)
    requires |d| == ReadingsPerPacket
    requires forall i | 0 <= i < |d| :: d[i] == b
    ensures forall k | 0 <= k < ReadingsPerChannel ::
      Decode2Analog(d).channelA[k] == Voltage(b) && Decode2Analog(d).channelB[k] == Voltage(b)
    ensures b == 255 ==> Decode2Analog(d).channelA == Decode2Analog(d).channelB == seq(ReadingsPerChannel, _ => FullScaleVolts)
    ensures b == 0 ==> Decode2Analog(d).channelA == Decode2Analog(d).channelB == seq(ReadingsPerChannel, _ => 0.0)
  {
  }

  // ---------------------------------------------------------------------
  // packet_to_data_2analog: where each loop iteration writes
  // ---------------------------------------------------------------------

  datatype Channel = ChannelA | ChannelB

  /** One store of the conversion routine: the reading of data byte `source`
      goes to position `slot` of `channel`'s destination array. */
  datatype Write = Write(channel: Channel, slot: int, source: int)

  /** Whether a store fits a destination array of `size` elements (ten in the
      routine). */
  predicate InBounds(w: Write, size: nat) {
    0 <= w.slot < size
  }

  /** The stores of one stride-2 loop as the routine is written: the byte at
      offset `i` goes to position `i` of the destination, for every `i` below
      the loop bound `len`. */
  function AsWrittenLoop(ch: Channel, i: nat, len: nat): (ws: seq<Write>)
    decreases len - i
  {
    if i >= len then []
    else [Write(ch, i, i)] + AsWrittenLoop(ch, i + 2, len)
  }

  /** Both loops of the routine as written, bounded by `len` (20 in the
      routine): even offsets into channel A, then odd offsets into channel B. */
  function AsWrittenWrites(len: nat): (ws: seq<Write>) {
    AsWrittenLoop(ChannelA, 0, len) + AsWrittenLoop(ChannelB, 1, len)
  }

  lemma {:induction false} AsWrittenLoopClosedForm(ch: Channel, i: nat, len: nat)
    requires i <= len
    ensures |AsWrittenLoop(ch, i, len)| == (len - i + 1) / 2
    ensures forall j | 0 <= j < (len - i + 1) / 2 :: AsWrittenLoop(ch, i, len)[j] == Write(ch, i + 2 * j, i + 2 * j)
    decreases len - i
  {
    if i + 2 <= len {
      AsWrittenLoopClosedForm(ch, i + 2, len);
      var ws := AsWrittenLoop(ch, i, len);
      forall j | 1 <= j < (len - i + 1) / 2
        ensures ws[j] == Write(ch, i + 2 * j, i + 2 * j)
      {
        assert ws[j] == AsWrittenLoop(ch, i + 2, len)[j - 1];
      }
    } else if i < len {
      assert AsWrittenLoop(ch, i + 2, len) == [];
    }
  }

  /** The store order of the routine as written for the loop bound 2 * half:
      channel A's stores from the even offsets to the same positions, then
      channel B's stores from the odd offsets to the same positions. */
  predicate AsWrittenOrder(ws: seq<Write>, half: nat) {
    && |ws| == 2 * half
    && (forall k | 0 <= k < half :: ws[k] == Write(ChannelA, 2 * k, 2 * k))
    && (forall k | 0 <= k < half :: ws[half + k] == Write(ChannelB, 2 * k + 1, 2 * k + 1))
  }

  lemma AsWrittenWritesIndexed(half: nat)
    ensures AsWrittenOrder(AsWrittenWrites(2 * half), half)
  {
    var len := 2 * half;
    var a := AsWrittenLoop(ChannelA, 0, len);
    var b := AsWrittenLoop(ChannelB, 1, len);
    AsWrittenLoopClosedForm(ChannelA, 0, len);
    assert (len - 0 + 1) / 2 == half;
    if len > 0 {
      AsWrittenLoopClosedForm(ChannelB, 1, len);
      assert (len - 1 + 1) / 2 == half;
    } else {
      assert b == [];
    }
    assert AsWrittenWrites(len) == a + b;
  }

  /** What any store sequence in the as-written order, with ten stores per
      channel, does to ten-element arrays. */
  lemma AsWrittenOrderOverruns(ws: seq<Write>)
    requires AsWrittenOrder(ws, ReadingsPerChannel)
    ensures |ws| == ReadingsPerPacket
    ensures ws[5] == Write(ChannelA, 10, 10) && !InBounds(ws[5], ReadingsPerChannel)
    ensures ws[19] == Write(ChannelB, 19, 19) && !InBounds(ws[19], ReadingsPerChannel)
    ensures forall n | 0 <= n < ReadingsPerChannel ::
      ws[n].channel == ChannelA && ws[n].slot % 2 == 0
    ensures forall n | ReadingsPerChannel <= n < ReadingsPerPacket ::
      ws[n].channel == ChannelB && ws[n].slot % 2 == 1
  {
    var last := ReadingsPerChannel - 1;
    assert ws[ReadingsPerChannel + last] == Write(ChannelB, 2 * last + 1, 2 * last + 1);
    forall n | 0 <= n < ReadingsPerChannel
      ensures ws[n].channel == ChannelA && ws[n].slot % 2 == 0
    {
      assert ws[n] == Write(ChannelA, 2 * n, 2 * n);
    }
    forall n | ReadingsPerChannel <= n < ReadingsPerPacket
      ensures ws[n].channel == ChannelB && ws[n].slot % 2 == 1
    {
      assert ws[ReadingsPerChannel + (n - 10)] == Write(ChannelB, 2 * (n - 10) + 1, 2 * (n - 10) + 1);
    }
  }

  /** The routine as written stores outside its ten-element arrays: the sixth
      store of channel A is addressed to position 10 from data byte 10, and
      the last store of channel B to position 19. The first ten stores are
      all addressed to channel A at even positions and the last ten to
      channel B at odd positions, so no store addressed to channel A targets
      an odd position and none addressed to channel B an even one. */
  lemma AsWrittenOverruns()
    ensures |AsWrittenWrites(ReadingsPerPacket)| == ReadingsPerPacket
    ensures AsWrittenWrites(ReadingsPerPacket)[5] == Write(ChannelA, 10, 10)
    ensures !InBounds(AsWrittenWrites(ReadingsPerPacket)[5], ReadingsPerChannel)
    ensures AsWrittenWrites(ReadingsPerPacket)[19] == Write(ChannelB, 19, 19)
    ensures !InBounds(AsWrittenWrites(ReadingsPerPacket)[19], ReadingsPerChannel)
    ensures forall n | 0 <= n < ReadingsPerChannel ::
      AsWrittenWrites(ReadingsPerPacket)[n].channel == ChannelA && AsWrittenWrites(ReadingsPerPacket)[n].slot % 2 == 0
    ensures forall n | ReadingsPerChannel <= n < ReadingsPerPacket ::
      AsWrittenWrites(ReadingsPerPacket)[n].channel == ChannelB && AsWrittenWrites(ReadingsPerPacket)[n].slot % 2 == 1
  {
    AsWrittenWritesIndexed(ReadingsPerChannel);
    AsWrittenOrderOverruns(AsWrittenWrites(ReadingsPerPacket));
  }

  /** The stores of one stride-2 loop with the destination position halved. */
  function CorrectedLoop(ch: Channel, i: nat, len: nat): (ws: seq<Write>)
    decreases len - i
  {
    if i >= len then []
    else [Write(ch, i / 2, i)] + CorrectedLoop(ch, i + 2, len)
  }

  function CorrectedWrites(len: nat): (ws: seq<Write>) {
    CorrectedLoop(ChannelA, 0, len) + CorrectedLoop(ChannelB, 1, len)
  }

  lemma {:induction false} CorrectedLoopClosedForm(ch: Channel, i: nat, len: nat)
    requires i <= len
    ensures |CorrectedLoop(ch, i, len)| == (len - i + 1) / 2
    ensures forall j | 0 <= j < (len - i + 1) / 2 :: CorrectedLoop(ch, i, len)[j] == Write(ch, i / 2 + j, i + 2 * j)
    decreases len - i
  {
    if i + 2 <= len {
      CorrectedLoopClosedForm(ch, i + 2, len);
      assert (i + 2) / 2 == i / 2 + 1;
      var ws := CorrectedLoop(ch, i, len);
      forall j | 1 <= j < (len - i + 1) / 2
        ensures ws[j] == Write(ch, i / 2 + j, i + 2 * j)
      {
        assert ws[j] == CorrectedLoop(ch, i + 2, len)[j - 1];
      }
    } else if i < len {
      assert CorrectedLoop(ch, i + 2, len) == [];
    }
  }

  /** The store order of the corrected routine for the loop bound 2 * half:
      channel A's `half` positions from the even offsets, then channel B's
      `half` positions from the odd offsets. */
  predicate CorrectedOrder(ws: seq<Write>, half: nat) {
    && |ws| == 2 * half
    && (forall k | 0 <= k < half :: ws[k] == Write(ChannelA, k, 2 * k))
    && (forall k | 0 <= k < half :: ws[half + k] == Write(ChannelB, k, 2 * k + 1))
  }

  /** With halved positions the stores come in the corrected order. */
  lemma CorrectedWritesIndexed(half: nat)
    ensures CorrectedOrder(CorrectedWrites(2 * half), half)
  {
    var len := 2 * half;
    var a := CorrectedLoop(ChannelA, 0, len);
    var b := CorrectedLoop(ChannelB, 1, len);
    CorrectedLoopClosedForm(ChannelA, 0, len);
    assert (len - 0 + 1) / 2 == half;
    if len > 0 {
      CorrectedLoopClosedForm(ChannelB, 1, len);
      assert (len - 1 + 1) / 2 == half;
      forall k | 0 <= k < half
        ensures b[k] == Write(ChannelB, k, 2 * k + 1)
      {
      }
    } else {
      assert b == [];
    }
    assert CorrectedWrites(len) == a + b;
  }

  /** A store sequence that stays within arrays of `size` elements, never hits
      a position twice and never reads a byte twice. */
  predicate Partitions(ws: seq<Write>, size: nat) {
    && (forall n | 0 <= n < |ws| :: InBounds(ws[n], size))
    && (forall m, n | 0 <= m < n < |ws| :: (ws[m].channel, ws[m].slot) != (ws[n].channel, ws[n].slot))
    && (forall m, n | 0 <= m < n < |ws| :: ws[m].source != ws[n].source)
  }

  lemma CorrectedOrderIsPartition(ws: seq<Write>, half: nat)
    requires CorrectedOrder(ws, half)
    ensures Partitions(ws, half)
  {
    forall n | 0 <= n < |ws|
      ensures ws[n] == if n < half then Write(ChannelA, n, 2 * n) else Write(ChannelB, n - half, 2 * (n - half) + 1)
    {
      if n >= half {
        assert ws[half + (n - half)] == Write(ChannelB, n - half, 2 * (n - half) + 1);
      }
    }
    forall m, n | 0 <= m < n < |ws|
      ensures ws[m].source != ws[n].source
    {
      if m < half && half <= n {
        assert ws[m].source == 2 * m;
        assert ws[n].source == 2 * (n - half) + 1;
      }
    }
  }

  /** With halved positions and a loop bound of 2 * half (20 in the routine,
      with ten-element arrays), the stores come in the corrected order, every
      store lands inside its array, each position of each channel is written
      by exactly one store, and every data byte is read by exactly one store. */
  lemma CorrectedWritesPartition(half: nat)
    ensures CorrectedOrder(CorrectedWrites(2 * half), half)
    ensures Partitions(CorrectedWrites(2 * half), half)
  {
    CorrectedWritesIndexed(half);
    CorrectedOrderIsPartition(CorrectedWrites(2 * half), half);
  }

  /** The conversion routine with destination positions halved: two stride-2
      loops over the data bytes, each store going to position i/2. */
  method PacketToData2Analog(p: Packet) returns (data: TwoAnalogData)
    requires p.Valid()
    ensures data.Valid()
    ensures data == Decode2Analog(p.data)
  {
    var a := seq(ReadingsPerChannel, _ => 0.0);
    var b := seq(ReadingsPerChannel, _ => 0.0);
    var i := 0;
    while i < ReadingsPerPacket
      invariant 0 <= i <= ReadingsPerPacket && i % 2 == 0
      invariant |a| == ReadingsPerChannel
      invariant forall k | 0 <= k < i / 2 :: a[k] == Voltage(p.data[2 * k])
    {
      a := a[i / 2 := Voltage(p.data[i])];
      i := i + 2;
    }
    i := 1;
    while i < ReadingsPerPacket
      invariant 1 <= i <= ReadingsPerPacket + 1 && i % 2 == 1
      invariant |b| == ReadingsPerChannel
      invariant forall k | 0 <= k < i / 2 :: b[k] == Voltage(p.data[2 * k + 1])
    {
      b := b[i / 2 := Voltage(p.data[i])];
      i := i + 2;
    }
    data := TwoAnalogData(a, b);
  }
}
