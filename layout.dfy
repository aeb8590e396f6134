/**
 * The interleaved layout main builds for the sample buffer (sineserver.c:555 and
 * 567-571), and what generate_sine does with it: one period of frames, frame `j`
 * of channel `c` in slot number `j * channels + c` of a buffer that holds exactly
 * `period_size * channels` slots.
 */
module Layout {
  import opened Codec
  import opened ByteOrder
  import opened Areas
  import opened Generator

  /** The areas main sets up for `channels` channels of `w`-bit samples. */
  function Interleaved(channels: nat, w: nat): (areas: seq<ChannelArea>)
    ensures |areas| == channels
  {
    seq(channels, (c: nat) => ChannelArea(c * w, channels * w))
  }

  /** `(period_size * channels * snd_pcm_format_physical_width(format)) / 8`, the
      size of the buffer main allocates. */
  function PeriodBufferBytes(periodSize: nat, channels: nat, w: nat): (n: nat)
    ensures w % 8 == 0 ==> n == periodSize * channels * (w / 8)
  {
    assert w % 8 == 0 ==> periodSize * channels * w == 8 * (periodSize * channels * (w / 8));
    (periodSize * channels * w) / 8
  }

  /** The loop in main filling the calloc'ed array of areas. */
  method SetupAreas(channels: nat, w: nat) returns (areas: array<ChannelArea>)
    ensures fresh(areas)
    ensures areas[..] == Interleaved(channels, w)
  {
    areas := new ChannelArea[channels](_ => ChannelArea(0, 0));
    var chn := 0;
    while chn < channels
      invariant 0 <= chn <= channels
      invariant forall c :: 0 <= c < chn ==> areas[c] == ChannelArea(c * w, channels * w)
    {
      areas[chn] := ChannelArea(chn * w, channels * w);
      chn := chn + 1;
    }
  }

  lemma MulMonotone(a: nat, b: nat, m: nat)
    requires a <= b
    ensures a * m <= b * m
  {
    assert b * m == a * m + (b - a) * m;
  }

  /** The slot of frame `j` of channel `c` is slot number `j * channels + c`. */
  lemma InterleavedSlotStart(channels: nat, w: nat, c: nat, j: nat)
    requires w % 8 == 0 && c < channels
    ensures SlotStart(Interleaved(channels, w)[c], 0, j) == (j * channels + c) * (w / 8)
  {
    var b := w / 8;
    assert c * w == 8 * (c * b);
    assert channels * w == 8 * (channels * b);
    assert (j * channels + c) * b == j * (channels * b) + c * b;
  }

  /** generate_sine accepts main's areas exactly when the sample width is a
      whole number of bytes and a frame a whole number of 16-bit words. */
  lemma InterleavedAligned(channels: nat, w: nat)
    requires channels >= 1
    ensures AllAligned(Interleaved(channels, w)) <==> w % 8 == 0 && (channels * w) % 16 == 0
  {
    var areas := Interleaved(channels, w);
    if AllAligned(areas) {
      assert Aligned(areas[0]);
      if channels >= 2 {
        assert Aligned(areas[1]);
      }
    }
    if w % 8 == 0 && (channels * w) % 16 == 0 {
      forall c | 0 <= c < channels
        ensures Aligned(areas[c])
      {
        assert c * w == 8 * (c * (w / 8));
      }
    }
  }

  /** So an 8-bit format with an odd number of channels, mono U8 for one, is
      rejected: every frame is an odd number of bytes long. */
  lemma NarrowOddFramesRejected(channels: nat)
    requires channels % 2 == 1
    ensures !AllAligned(Interleaved(channels, 8))
  {
    InterleavedAligned(channels, 8);
  }

  /** Distinct (channel, frame) pairs have distinct slot numbers. */
  lemma SlotNumbersDistinct(channels: nat, c: nat, j: nat, c': nat, j': nat)
    requires c < channels && c' < channels && (c != c' || j != j')
    ensures j * channels + c != j' * channels + c'
  {
    if j < j' {
      MulMonotone(j + 1, j', channels);
    } else if j' < j {
      MulMonotone(j' + 1, j, channels);
    }
  }

  /** Slots with distinct numbers do not overlap. */
  lemma SlotsApart(k: nat, k': nat, b: nat)
    requires k != k'
    ensures k * b + b <= k' * b || k' * b + b <= k * b
  {
    if k < k' {
      MulMonotone(k + 1, k', b);
    } else {
      MulMonotone(k' + 1, k, b);
    }
  }

  /** The slots of distinct (channel, frame) pairs never overlap. */
  lemma InterleavedDisjoint(channels: nat, f: SampleFormat, n: nat)
    requires f.physicalWidth % 8 == 0
    ensures SlotsDisjoint(Interleaved(channels, f.physicalWidth), f, 0, n)
  {
    var areas := Interleaved(channels, f.physicalWidth);
    forall c, j, c', j' |
      0 <= c < channels && 0 <= j < n && 0 <= c' < channels && 0 <= j' < n && (c != c' || j != j')
      ensures SlotStart(areas[c], 0, j) + PhysBps(f) <= SlotStart(areas[c'], 0, j') ||
              SlotStart(areas[c'], 0, j') + PhysBps(f) <= SlotStart(areas[c], 0, j)
    {
      InterleavedSlotStart(channels, f.physicalWidth, c, j);
      InterleavedSlotStart(channels, f.physicalWidth, c', j');
      SlotNumbersDistinct(channels, c, j, c', j');
      SlotsApart(j * channels + c, j' * channels + c', PhysBps(f));
    }
  }

  /** Slot number `j * channels + c` of a period ends inside the period. */
  lemma SlotFits(channels: nat, periodSize: nat, c: nat, j: nat, b: nat)
    requires c < channels && j < periodSize
    ensures (j * channels + c) * b + b <= periodSize * channels * b
  {
    MulMonotone(j + 1, periodSize, channels);
    MulMonotone(j * channels + c + 1, periodSize * channels, b);
  }

  /** Every slot of one period lies inside the buffer main allocates. */
  lemma InterleavedInBuffer(channels: nat, f: SampleFormat, periodSize: nat)
    requires f.physicalWidth % 8 == 0
    ensures SlotsInBuffer(Interleaved(channels, f.physicalWidth), f, 0, periodSize,
                          PeriodBufferBytes(periodSize, channels, f.physicalWidth))
  {
    forall c, j | 0 <= c < channels && 0 <= j < periodSize
      ensures SlotStart(Interleaved(channels, f.physicalWidth)[c], 0, j) + PhysBps(f)
                <= periodSize * channels * PhysBps(f)
    {
      InterleavedSlotStart(channels, f.physicalWidth, c, j);
      SlotFits(channels, periodSize, c, j, PhysBps(f));
    }
  }

  /** Byte `k` of the slot of frame `j` of channel `c`, inside a period of
      `periodSize` frames. */
  function SlotByte(channels: nat, periodSize: nat, f: SampleFormat, c: nat, j: nat, k: nat): (p: nat)
    requires c < channels && j < periodSize && k < PhysBps(f)
    ensures p < periodSize * channels * PhysBps(f)
  {
    SlotFits(channels, periodSize, c, j, PhysBps(f));
    (j * channels + c) * PhysBps(f) + k
  }

  /** In main's layout, data byte `i` of frame `j` of channel `c` holds byte `i`
      of the stored pattern of `res[j]` once the period is generated. */
  lemma InterleavedFrameByte(s: seq<bv8>, f: SampleFormat, channels: nat, res: seq<bv32>, c: nat, j: nat, i: nat)
    requires Supported(f) && f.physicalWidth % 8 == 0
    requires |s| == PeriodBufferBytes(|res|, channels, f.physicalWidth)
    requires c < channels && j < |res| && i < Bps(f)
    ensures SlotsInBuffer(Interleaved(channels, f.physicalWidth), f, 0, |res|, |s|)
    ensures WriteFrames(s, f, Interleaved(channels, f.physicalWidth), 0, res, |res|)
              [SlotByte(channels, |res|, f, c, j, SlotIndex(f, i))] == SampleByte(Stored(f, res[j]), i)
  {
    InterleavedInBuffer(channels, f, |res|);
    InterleavedDisjoint(channels, f, |res|);
    InterleavedSlotStart(channels, f.physicalWidth, c, j);
    assert BytePos(Interleaved(channels, f.physicalWidth)[c], f, 0, j, i)
        == SlotByte(channels, |res|, f, c, j, SlotIndex(f, i));
    WriteFramesAt(s, f, Interleaved(channels, f.physicalWidth), 0, res, |res|, c, j, i);
  }

  /** In main's layout, the padding bytes of every slot keep their contents. */
  lemma InterleavedPadding(s: seq<bv8>, f: SampleFormat, channels: nat, res: seq<bv32>, c: nat, j: nat, k: nat)
    requires Supported(f) && f.physicalWidth % 8 == 0
    requires |s| == PeriodBufferBytes(|res|, channels, f.physicalWidth)
    requires c < channels && j < |res| && IsPadding(f, k)
    ensures SlotsInBuffer(Interleaved(channels, f.physicalWidth), f, 0, |res|, |s|)
    ensures WriteFrames(s, f, Interleaved(channels, f.physicalWidth), 0, res, |res|)
              [SlotByte(channels, |res|, f, c, j, k)] == s[SlotByte(channels, |res|, f, c, j, k)]
  {
    InterleavedInBuffer(channels, f, |res|);
    InterleavedDisjoint(channels, f, |res|);
    InterleavedSlotStart(channels, f.physicalWidth, c, j);
    PaddingUnchanged(s, f, Interleaved(channels, f.physicalWidth), 0, res, |res|, c, j, k);
  }

  /** main's setup of the areas followed by the generate_sine call of the write
      loop (sineserver.c:318, `generate_sine(areas, 0, period_size, &phase)`):
      one period of frames, `res[j]` the value computed for frame `j`. */
  method FillPeriod(buf: array<bv8>, f: SampleFormat, channels: nat, res: seq<bv32>) returns (ok: bool)
    requires Supported(f) && channels >= 1
    requires buf.Length == PeriodBufferBytes(|res|, channels, f.physicalWidth)
    modifies buf
    ensures ok <==> f.physicalWidth % 8 == 0 && (channels * f.physicalWidth) % 16 == 0
    ensures !ok ==> buf[..] == old(buf[..])
    ensures ok ==> forall c, j, i :: 0 <= c < channels && 0 <= j < |res| && 0 <= i < Bps(f) ==>
                     buf[SlotByte(channels, |res|, f, c, j, SlotIndex(f, i))] == SampleByte(Stored(f, res[j]), i)
    ensures ok ==> forall c, j, k :: 0 <= c < channels && 0 <= j < |res| && IsPadding(f, k) ==>
                     buf[SlotByte(channels, |res|, f, c, j, k)] == old(buf[SlotByte(channels, |res|, f, c, j, k)])
  {
    ghost var before := buf[..];
    var areas := SetupAreas(channels, f.physicalWidth);
    InterleavedAligned(channels, f.physicalWidth);
    if f.physicalWidth % 8 == 0 {
      InterleavedInBuffer(channels, f, |res|);
    }
    ok := GenerateSine(buf, areas[..], 0, |res|, f, res);
    if ok {
      forall c, j, i | 0 <= c < channels && 0 <= j < |res| && 0 <= i < Bps(f)
        ensures buf[SlotByte(channels, |res|, f, c, j, SlotIndex(f, i))] == SampleByte(Stored(f, res[j]), i)
      {
        InterleavedFrameByte(before, f, channels, res, c, j, i);
      }
      forall c, j, k | 0 <= c < channels && 0 <= j < |res| && IsPadding(f, k)
        ensures buf[SlotByte(channels, |res|, f, c, j, k)] == before[SlotByte(channels, |res|, f, c, j, k)]
      {
        InterleavedPadding(before, f, channels, res, c, j, k);
      }
    }
  }
}
