/**
 * Byte encoding of one sample (generate_sine, sineserver.c:40-45 and 74-84).
 *
 * The value `res` that the generator computes for a frame (from `sin` and the
 * format's maximum, or from the bits of a float) is modelled as an abstract
 * 32-bit pattern. This module says what happens to it afterwards: the optional
 * flip of the sign bit for unsigned formats, and which byte of the pattern lands
 * in which byte of a channel's sample slot.
 */
module Codec {

  /** What alsa-lib reports about the chosen sample format: its significant width
      and its physical (storage) width in bits, its byte order and signedness. */
  datatype SampleFormat = SampleFormat(
    width: nat,          // snd_pcm_format_width
    physicalWidth: nat,  // snd_pcm_format_physical_width
    bigEndian: bool,     // snd_pcm_format_big_endian(format) == 1
    unsigned: bool)      // snd_pcm_format_unsigned(format) == 1

  /** Formats the generator can encode: `1U << (width - 1)` and `res >> i * 8`
      must stay inside a 32-bit int, and a sample is never wider than its slot. */
  predicate Supported(f: SampleFormat) {
    1 <= f.width <= 32 && f.width <= f.physicalWidth
  }

  /** Bytes of a sample that carry data (`bps`). */
  function Bps(f: SampleFormat): nat {
    f.width / 8
  }

  /** Bytes of a sample slot (`phys_bps`). */
  function PhysBps(f: SampleFormat): nat {
    f.physicalWidth / 8
  }

  /** `1U << (width - 1)`: the sign bit of a `width`-bit sample. */
  function SignBit(width: nat): (m: bv32)
    requires 1 <= width <= 32
  {
    (1 as bv32) << (width - 1)
  }

  /** The mask has exactly one bit set. */
  lemma SignBitIsOneBit(width: nat)
    requires 1 <= width <= 32
    ensures SignBit(width) != 0 && SignBit(width) & (SignBit(width) - 1) == 0
  {
  }

  /** Exclusive or with a mask complements the bits under the mask ... */
  lemma XorFlipsMask(r: bv32, m: bv32)
    ensures (r ^ m) & m == (r & m) ^ m
  {
  }

  /** ... keeps every other bit ... */
  lemma XorKeepsRest(r: bv32, m: bv32)
    ensures (r ^ m) & !m == r & !m
  {
  }

  /** ... and undoes itself. */
  lemma XorTwice(r: bv32, m: bv32)
    ensures (r ^ m) ^ m == r
  {
  }

  /** The pattern actually stored: `res ^= 1U << (format_bits - 1)` for unsigned
      formats, `res` itself for signed ones. */
  function Stored(f: SampleFormat, res: bv32): (v: bv32)
    requires Supported(f)
    ensures !f.unsigned ==> v == res
    ensures f.unsigned ==> v & SignBit(f.width) == (res & SignBit(f.width)) ^ SignBit(f.width)
    ensures f.unsigned ==> v & !SignBit(f.width) == res & !SignBit(f.width)
  {
    if f.unsigned then
      XorFlipsMask(res, SignBit(f.width));
      XorKeepsRest(res, SignBit(f.width));
      res ^ SignBit(f.width)
    else res
  }

  /** Storing is its own inverse: the stored pattern, stored once more, gives
      back `res`. */
  lemma StoredUnflips(f: SampleFormat, res: bv32)
    requires Supported(f)
    ensures Stored(f, Stored(f, res)) == res
  {
    if f.unsigned {
      XorTwice(res, SignBit(f.width));
    }
  }
}

/**
 * Byte order of a sample inside its slot (sineserver.c:76-84).
 */
module ByteOrder {
  import opened Codec

  /** `(res >> i * 8) & 0xff`: byte `i` of the stored pattern, counted from the
      least significant end. */
  function SampleByte(v: bv32, i: nat): bv8
    requires i < 4
  {
    (if i == 0 then v & 0xFF
     else if i == 1 then (v >> 8) & 0xFF
     else if i == 2 then (v >> 16) & 0xFF
     else (v >> 24) & 0xFF) as bv8
  }

  /** Each case is the C expression `(res >> i * 8) & 0xff` for its `i`. */
  lemma SampleByteIsShift(v: bv32, i: nat)
    requires i < 4
    ensures SampleByte(v, i) as bv32 == (v >> (8 * i)) & 0xFF
  {
    if i == 0 {
      assert v >> (8 * i) == v;
    } else if i == 1 {
      assert v >> (8 * i) == v >> 8;
    } else if i == 2 {
      assert v >> (8 * i) == v >> 16;
    } else {
      assert v >> (8 * i) == v >> 24;
    }
  }

  /** Where byte `i` of the sample goes inside its slot: byte `i` for little-endian
      formats, byte `phys_bps - 1 - i` for big-endian ones. */
  function SlotIndex(f: SampleFormat, i: nat): (k: nat)
    requires Supported(f) && i < Bps(f)
    ensures k < PhysBps(f)
  {
    if f.bigEndian then PhysBps(f) - 1 - i else i
  }

  /** Distinct sample bytes go to distinct slot bytes, so no byte of a sample
      overwrites another byte of the same sample. */
  lemma SlotIndexInjective(f: SampleFormat, i: nat, i': nat)
    requires Supported(f) && i < Bps(f) && i' < Bps(f)
    ensures SlotIndex(f, i) == SlotIndex(f, i') <==> i == i'
  {
  }

  /** The slot bytes a sample of format `f` occupies that receive no data: the
      padding of a format whose physical width exceeds its width. */
  predicate IsPadding(f: SampleFormat, k: nat)
    requires Supported(f)
  {
    k < PhysBps(f) && forall i :: 0 <= i < Bps(f) ==> SlotIndex(f, i) != k
  }

  /** Padding sits after the data for little-endian formats and before it for
      big-endian ones. */
  lemma PaddingPlacement(f: SampleFormat, k: nat)
    requires Supported(f) && k < PhysBps(f)
    ensures IsPadding(f, k) <==> if f.bigEndian then k < PhysBps(f) - Bps(f) else Bps(f) <= k
  {
    if f.bigEndian && k >= PhysBps(f) - Bps(f) {
      assert SlotIndex(f, PhysBps(f) - 1 - k) == k;
    } else if !f.bigEndian && k < Bps(f) {
      assert SlotIndex(f, k) == k;
    }
  }

  /** Reassembles a pattern from its bytes, least significant first. */
  function FromBytes(b: seq<bv8>): bv32
    requires |b| <= 4
  {
    (if |b| > 0 then b[0] as bv32 else 0)
    | (if |b| > 1 then (b[1] as bv32) << 8 else 0)
    | (if |b| > 2 then (b[2] as bv32) << 16 else 0)
    | (if |b| > 3 then (b[3] as bv32) << 24 else 0)
  }

  /** A 16-bit sample loses nothing: its two bytes give back the low half. */
  lemma FromTwoSampleBytes(v: bv32)
    ensures FromBytes([SampleByte(v, 0), SampleByte(v, 1)]) == v & 0xFFFF
  {
  }

  /** A 24-bit sample: its three bytes give back the low three quarters. */
  lemma FromThreeSampleBytes(v: bv32)
    ensures FromBytes([SampleByte(v, 0), SampleByte(v, 1), SampleByte(v, 2)]) == v & 0xFF_FFFF
  {
  }

  /** A 32-bit sample: its four bytes give back the whole pattern. */
  lemma FromFourSampleBytes(v: bv32)
    ensures FromBytes([SampleByte(v, 0), SampleByte(v, 1), SampleByte(v, 2), SampleByte(v, 3)]) == v
  {
  }
}
