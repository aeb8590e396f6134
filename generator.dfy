/**
 * generate_sine (sineserver.c:30-93): validation of the channel areas and the
 * byte-by-byte fill of one run of frames into the shared sample buffer.
 *
 * The specification of the fill is the sequence of writes the C loops perform,
 * in their order (frame by frame, channel by channel, byte by byte), written as
 * functions on the buffer contents; the lemmas below say what that sequence of
 * writes leaves in every byte.
 */
module Generator {
  import opened Codec
  import opened ByteOrder
  import opened Areas

  /** `while (count-- > 0)` runs its body `count` times, and never for a count
      that is zero or negative. */
  function Frames(count: int): nat {
    if count > 0 then count else 0
  }

  /** Buffer byte that receives byte `i` of the sample of frame `j` in area `a`. */
  function BytePos(a: ChannelArea, f: SampleFormat, offset: nat, j: nat, i: nat): nat
    requires Supported(f) && i < Bps(f)
  {
    SlotStart(a, offset, j) + SlotIndex(f, i)
  }

  /** The slots of the first `n` frames of every channel lie inside a buffer of
      `size` bytes. */
  predicate SlotsInBuffer(areas: seq<ChannelArea>, f: SampleFormat, offset: nat, n: nat, size: nat) {
    forall c, j :: 0 <= c < |areas| && 0 <= j < n ==>
      SlotStart(areas[c], offset, j) + PhysBps(f) <= size
  }

  /** No two slots of the first `n` frames (of the same or of different channels)
      share a byte. */
  predicate SlotsDisjoint(areas: seq<ChannelArea>, f: SampleFormat, offset: nat, n: nat) {
    forall c, j, c', j' ::
      0 <= c < |areas| && 0 <= j < n && 0 <= c' < |areas| && 0 <= j' < n && (c != c' || j != j') ==>
        SlotStart(areas[c], offset, j) + PhysBps(f) <= SlotStart(areas[c'], offset, j') ||
        SlotStart(areas[c'], offset, j') + PhysBps(f) <= SlotStart(areas[c], offset, j)
  }

  /** The first `n` byte writes of one sample `v` into the slot starting at `pos`. */
  function WriteSample(s: seq<bv8>, f: SampleFormat, pos: nat, v: bv32, n: nat): (r: seq<bv8>)
    requires Supported(f) && n <= Bps(f) && pos + PhysBps(f) <= |s|
    ensures |r| == |s|
  {
    if n == 0 then s
    else WriteSample(s, f, pos, v, n - 1)[pos + SlotIndex(f, n - 1) := SampleByte(v, n - 1)]
  }

  /** The sample `v` of frame `j` written into the first `n` channels. */
  function WriteFrame(s: seq<bv8>, f: SampleFormat, areas: seq<ChannelArea>, offset: nat, j: nat,
                      v: bv32, n: nat): (r: seq<bv8>)
    requires Supported(f) && n <= |areas|
    requires forall c :: 0 <= c < n ==> SlotStart(areas[c], offset, j) + PhysBps(f) <= |s|
    ensures |r| == |s|
  {
    if n == 0 then s
    else WriteSample(WriteFrame(s, f, areas, offset, j, v, n - 1), f, SlotStart(areas[n - 1], offset, j), v, Bps(f))
  }

  /** The first `n` frames written into every channel, frame `j` carrying the
      stored pattern of `res[j]`. */
  function WriteFrames(s: seq<bv8>, f: SampleFormat, areas: seq<ChannelArea>, offset: nat,
                       res: seq<bv32>, n: nat): (r: seq<bv8>)
    requires Supported(f) && n <= |res|
    requires SlotsInBuffer(areas, f, offset, n, |s|)
    ensures |r| == |s|
  {
    if n == 0 then s
    else WriteFrame(WriteFrames(s, f, areas, offset, res, n - 1), f, areas, offset, n - 1,
                    Stored(f, res[n - 1]), |areas|)
  }

  /** Writing a sample touches only the slot bytes its data bytes go to. */
  lemma {:induction false} WriteSampleOutside(s: seq<bv8>, f: SampleFormat, pos: nat, v: bv32, n: nat, p: nat)
    requires Supported(f) && n <= Bps(f) && pos + PhysBps(f) <= |s| && p < |s|
    requires forall i :: 0 <= i < n ==> pos + SlotIndex(f, i) != p
    ensures WriteSample(s, f, pos, v, n)[p] == s[p]
  {
    if n > 0 {
      WriteSampleOutside(s, f, pos, v, n - 1, p);
    }
  }

  /** After the first `n` byte writes, slot byte `SlotIndex(f, i)` holds byte `i`
      of the pattern, for every `i < n`. */
  lemma {:induction false} WriteSampleAt(s: seq<bv8>, f: SampleFormat, pos: nat, v: bv32, n: nat, i: nat)
    requires Supported(f) && n <= Bps(f) && pos + PhysBps(f) <= |s| && i < n
    ensures WriteSample(s, f, pos, v, n)[pos + SlotIndex(f, i)] == SampleByte(v, i)
  {
    if i < n - 1 {
      SlotIndexInjective(f, i, n - 1);
      WriteSampleAt(s, f, pos, v, n - 1, i);
    }
  }

  /** Writing frame `j` into the first `n` channels leaves every byte that is not
      a data byte of one of their slots unchanged. */
  lemma {:induction false} WriteFrameOutside(s: seq<bv8>, f: SampleFormat, areas: seq<ChannelArea>, offset: nat,
                                             j: nat, v: bv32, n: nat, p: nat)
    requires Supported(f) && n <= |areas| && p < |s|
    requires forall c :: 0 <= c < n ==> SlotStart(areas[c], offset, j) + PhysBps(f) <= |s|
    requires forall c, i :: 0 <= c < n && 0 <= i < Bps(f) ==> BytePos(areas[c], f, offset, j, i) != p
    ensures WriteFrame(s, f, areas, offset, j, v, n)[p] == s[p]
  {
    if n > 0 {
      WriteFrameOutside(s, f, areas, offset, j, v, n - 1, p);
      var pos := SlotStart(areas[n - 1], offset, j);
      forall i | 0 <= i < Bps(f)
        ensures pos + SlotIndex(f, i) != p
      {
        assert BytePos(areas[n - 1], f, offset, j, i) != p;
      }
      WriteSampleOutside(WriteFrame(s, f, areas, offset, j, v, n - 1), f, pos, v, Bps(f), p);
    }
  }

  /** With disjoint slots, writing frame `j` into the first `n` channels leaves
      byte `i` of the pattern at data byte `i` of each of their slots. */
  lemma {:induction false} WriteFrameAt(s: seq<bv8>, f: SampleFormat, areas: seq<ChannelArea>, offset: nat,
                                        j: nat, v: bv32, n: nat, c: nat, i: nat)
    requires Supported(f) && n <= |areas| && c < n && i < Bps(f)
    requires forall c :: 0 <= c < n ==> SlotStart(areas[c], offset, j) + PhysBps(f) <= |s|
    requires SlotsDisjoint(areas, f, offset, j + 1)
    ensures WriteFrame(s, f, areas, offset, j, v, n)[BytePos(areas[c], f, offset, j, i)] == SampleByte(v, i)
  {
    var prev := WriteFrame(s, f, areas, offset, j, v, n - 1);
    var pos := SlotStart(areas[n - 1], offset, j);
    if c == n - 1 {
      WriteSampleAt(prev, f, pos, v, Bps(f), i);
    } else {
      WriteFrameAt(s, f, areas, offset, j, v, n - 1, c, i);
      forall i' | 0 <= i' < Bps(f)
        ensures pos + SlotIndex(f, i') != BytePos(areas[c], f, offset, j, i)
      {
        assert SlotStart(areas[c], offset, j) + PhysBps(f) <= pos ||
               pos + PhysBps(f) <= SlotStart(areas[c], offset, j);
      }
      WriteSampleOutside(prev, f, pos, v, Bps(f), BytePos(areas[c], f, offset, j, i));
    }
  }

  /** The frames written leave every byte that is not a data byte of one of
      their slots unchanged: bytes outside the slots and the padding bytes of
      formats narrower than their slot. */
  lemma {:induction false} WriteFramesOutside(s: seq<bv8>, f: SampleFormat, areas: seq<ChannelArea>, offset: nat,
                                              res: seq<bv32>, n: nat, p: nat)
    requires Supported(f) && n <= |res| && p < |s|
    requires SlotsInBuffer(areas, f, offset, n, |s|)
    requires forall c, j, i :: 0 <= c < |areas| && 0 <= j < n && 0 <= i < Bps(f) ==>
               BytePos(areas[c], f, offset, j, i) != p
    ensures WriteFrames(s, f, areas, offset, res, n)[p] == s[p]
  {
    if n > 0 {
      WriteFramesOutside(s, f, areas, offset, res, n - 1, p);
      WriteFrameOutside(WriteFrames(s, f, areas, offset, res, n - 1), f, areas, offset, n - 1,
                        Stored(f, res[n - 1]), |areas|, p);
    }
  }

  /** With disjoint slots, data byte `i` of the slot of channel `c` and frame `j`
      ends up holding byte `i` of the stored pattern of `res[j]`. */
  lemma {:induction false} WriteFramesAt(s: seq<bv8>, f: SampleFormat, areas: seq<ChannelArea>, offset: nat,
                                         res: seq<bv32>, n: nat, c: nat, j: nat, i: nat)
    requires Supported(f) && n <= |res| && c < |areas| && j < n && i < Bps(f)
    requires SlotsInBuffer(areas, f, offset, n, |s|)
    requires SlotsDisjoint(areas, f, offset, n)
    ensures WriteFrames(s, f, areas, offset, res, n)[BytePos(areas[c], f, offset, j, i)]
              == SampleByte(Stored(f, res[j]), i)
  {
    var last := n - 1;
    var prev := WriteFrames(s, f, areas, offset, res, last);
    var p := BytePos(areas[c], f, offset, j, i);
    assert WriteFrames(s, f, areas, offset, res, n)
        == WriteFrame(prev, f, areas, offset, last, Stored(f, res[last]), |areas|);
    if j == last {
      WriteFrameAt(prev, f, areas, offset, last, Stored(f, res[last]), |areas|, c, i);
    } else {
      WriteFramesAt(s, f, areas, offset, res, last, c, j, i);
      DisjointMisses(areas, f, offset, n, c, j, i, last);
      WriteFrameOutside(prev, f, areas, offset, last, Stored(f, res[last]), |areas|, p);
    }
  }

  /** With disjoint slots, no data byte of frame `j'` lands on a data byte of
      another frame `j`. */
  lemma DisjointMisses(areas: seq<ChannelArea>, f: SampleFormat, offset: nat, n: nat,
                       c: nat, j: nat, i: nat, j': nat)
    requires Supported(f) && c < |areas| && j < n && j' < n && j != j' && i < Bps(f)
    requires SlotsDisjoint(areas, f, offset, n)
    ensures forall c', i' :: 0 <= c' < |areas| && 0 <= i' < Bps(f) ==>
              BytePos(areas[c'], f, offset, j', i') != BytePos(areas[c], f, offset, j, i)
  {
    forall c', i' | 0 <= c' < |areas| && 0 <= i' < Bps(f)
      ensures BytePos(areas[c'], f, offset, j', i') != BytePos(areas[c], f, offset, j, i)
    {
      assert SlotStart(areas[c], offset, j) + PhysBps(f) <= SlotStart(areas[c'], offset, j') ||
             SlotStart(areas[c'], offset, j') + PhysBps(f) <= SlotStart(areas[c], offset, j);
    }
  }

  /** With disjoint slots, every channel carries the same bytes for a frame. */
  lemma ChannelsAgree(s: seq<bv8>, f: SampleFormat, areas: seq<ChannelArea>, offset: nat,
                      res: seq<bv32>, n: nat, c: nat, c': nat, j: nat, i: nat)
    requires Supported(f) && n <= |res| && c < |areas| && c' < |areas| && j < n && i < Bps(f)
    requires SlotsInBuffer(areas, f, offset, n, |s|)
    requires SlotsDisjoint(areas, f, offset, n)
    ensures WriteFrames(s, f, areas, offset, res, n)[BytePos(areas[c], f, offset, j, i)]
              == WriteFrames(s, f, areas, offset, res, n)[BytePos(areas[c'], f, offset, j, i)]
  {
    WriteFramesAt(s, f, areas, offset, res, n, c, j, i);
    WriteFramesAt(s, f, areas, offset, res, n, c', j, i);
  }

  /** With disjoint slots, the padding bytes of every slot keep their contents. */
  lemma PaddingUnchanged(s: seq<bv8>, f: SampleFormat, areas: seq<ChannelArea>, offset: nat,
                         res: seq<bv32>, n: nat, c: nat, j: nat, k: nat)
    requires Supported(f) && n <= |res| && c < |areas| && j < n && IsPadding(f, k)
    requires SlotsInBuffer(areas, f, offset, n, |s|)
    requires SlotsDisjoint(areas, f, offset, n)
    ensures WriteFrames(s, f, areas, offset, res, n)[SlotStart(areas[c], offset, j) + k]
              == s[SlotStart(areas[c], offset, j) + k]
  {
    var p := SlotStart(areas[c], offset, j) + k;
    forall c', j', i | 0 <= c' < |areas| && 0 <= j' < n && 0 <= i < Bps(f)
      ensures BytePos(areas[c'], f, offset, j', i) != p
    {
      if c' != c || j' != j {
        assert SlotStart(areas[c], offset, j) + PhysBps(f) <= SlotStart(areas[c'], offset, j') ||
               SlotStart(areas[c'], offset, j') + PhysBps(f) <= SlotStart(areas[c], offset, j);
      }
    }
    WriteFramesOutside(s, f, areas, offset, res, n, p);
  }

  /** The innermost loop of generate_sine (sineserver.c:77-83): the `bps` data
      bytes of the stored pattern `v` written into the slot starting at `pos`. */
  method StoreSample(buf: array<bv8>, f: SampleFormat, pos: nat, v: bv32)
    requires Supported(f) && pos + PhysBps(f) <= buf.Length
    modifies buf
    ensures buf[..] == WriteSample(old(buf[..]), f, pos, v, Bps(f))
  {
    var bps := f.width / 8;
    var physBps := f.physicalWidth / 8;
    var i := 0;
    while i < bps
      invariant 0 <= i <= bps
      invariant buf[..] == WriteSample(old(buf[..]), f, pos, v, i)
    {
      if f.bigEndian {
        buf[pos + physBps - 1 - i] := SampleByte(v, i);
      } else {
        buf[pos + i] := SampleByte(v, i);
      }
      i := i + 1;
    }
  }

  /** The channel loop of generate_sine (sineserver.c:76-86): frame `j` written
      into every channel at its cursor, each cursor then advanced by its step. */
  method StoreFrame(buf: array<bv8>, f: SampleFormat, areas: seq<ChannelArea>, offset: nat, j: nat,
                    v: bv32, cursors: seq<nat>, steps: seq<nat>) returns (next: seq<nat>)
    requires Supported(f) && |cursors| == |areas| && |steps| == |areas|
    requires forall c :: 0 <= c < |areas| ==> steps[c] == areas[c].step / 8
    requires forall c :: 0 <= c < |areas| ==> cursors[c] == SlotStart(areas[c], offset, j)
    requires forall c :: 0 <= c < |areas| ==> SlotStart(areas[c], offset, j) + PhysBps(f) <= buf.Length
    modifies buf
    ensures |next| == |areas|
    ensures forall c :: 0 <= c < |areas| ==> next[c] == SlotStart(areas[c], offset, j + 1)
    ensures buf[..] == WriteFrame(old(buf[..]), f, areas, offset, j, v, |areas|)
  {
    next := cursors;
    var chn := 0;
    while chn < |areas|
      invariant 0 <= chn <= |areas| && |next| == |areas|
      invariant forall c :: 0 <= c < chn ==> next[c] == SlotStart(areas[c], offset, j + 1)
      invariant forall c :: chn <= c < |areas| ==> next[c] == SlotStart(areas[c], offset, j)
      invariant buf[..] == WriteFrame(old(buf[..]), f, areas, offset, j, v, chn)
    {
      StoreSample(buf, f, next[chn], v);
      next := next[chn := next[chn] + steps[chn]];
      chn := chn + 1;
    }
  }

  /** generate_sine on the buffer `buf` that every area points into. `res[j]` is
      the value the C code computes for frame `j` from the sine. Returns false
      where the C code prints a diagnostic and exits: some area is misaligned,
      and then not a byte has been written. */
  method GenerateSine(buf: array<bv8>, areas: seq<ChannelArea>, offset: nat, count: int,
                      f: SampleFormat, res: seq<bv32>) returns (ok: bool)
    requires Supported(f) && |res| == Frames(count)
    requires AllAligned(areas) ==> SlotsInBuffer(areas, f, offset, |res|, buf.Length)
    modifies buf
    ensures ok <==> AllAligned(areas)
    ensures !ok ==> buf[..] == old(buf[..])
    ensures ok ==> buf[..] == WriteFrames(old(buf[..]), f, areas, offset, res, |res|)
  {
    var cursors: seq<nat> := [];
    var steps: seq<nat> := [];
    var chn := 0;
    while chn < |areas|
      invariant 0 <= chn <= |areas|
      invariant forall c :: 0 <= c < chn ==> Aligned(areas[c])
      invariant |cursors| == chn && |steps| == chn
      invariant forall c :: 0 <= c < chn ==> steps[c] == areas[c].step / 8
      invariant forall c :: 0 <= c < chn ==> cursors[c] == SlotStart(areas[c], offset, 0)
    {
      if areas[chn].first % 8 != 0 {
        return false;
      }
      if areas[chn].step % 16 != 0 {
        return false;
      }
      steps := steps + [areas[chn].step / 8];
      cursors := cursors + [areas[chn].first / 8 + offset * steps[chn]];
      chn := chn + 1;
    }
    ok := true;

    var left := count;
    var j := 0;
    while left > 0
      invariant Frames(left) <= |res| && j == |res| - Frames(left)
      invariant |cursors| == |areas|
      invariant forall c :: 0 <= c < |areas| ==> cursors[c] == SlotStart(areas[c], offset, j)
      invariant buf[..] == WriteFrames(old(buf[..]), f, areas, offset, res, j)
    {
      left := left - 1;
      var v := res[j];
      if f.unsigned {
        v := v ^ SignBit(f.width);
      }
      assert v == Stored(f, res[j]);
      cursors := StoreFrame(buf, f, areas, offset, j, v, cursors, steps);
      j := j + 1;
    }
  }
}
