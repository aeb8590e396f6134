/**
 * Channel areas (snd_pcm_channel_area_t as the sine player uses it).
 *
 * Every channel of the player points into the same sample buffer, so an area is
 * fully described by its bit offset `first` and its bit distance `step` between
 * two consecutive samples of the channel.
 */
module Areas {

  datatype ChannelArea = ChannelArea(first: nat, step: nat)

  /** What generate_sine accepts of an area (sineserver.c:50 and 55): samples start
      on a byte and consecutive samples are a whole number of 16-bit words apart. */
  predicate Aligned(a: ChannelArea) {
    a.first % 8 == 0 && a.step % 16 == 0
  }

  predicate AllAligned(areas: seq<ChannelArea>) {
    forall c :: 0 <= c < |areas| ==> Aligned(areas[c])
  }

  /** The byte where the sample of frame `j` of a generation starting at frame
      `offset` begins: the cursor `addr + first/8 + offset*(step/8)` after `j`
      advances of `step/8` bytes (sineserver.c:54, 59-60 and 85). */
  function SlotStart(a: ChannelArea, offset: nat, j: nat): nat {
    a.first / 8 + offset * (a.step / 8) + j * (a.step / 8)
  }

  /** For an aligned area the byte cursor loses nothing to the divisions by 8:
      it is exactly the bit position `first + (offset + j) * step` in bytes, and
      it moves by an even number of bytes per frame. */
  lemma AlignedCursorExact(a: ChannelArea, offset: nat, j: nat)
    requires Aligned(a)
    ensures 8 * SlotStart(a, offset, j) == a.first + (offset + j) * a.step
    ensures (a.step / 8) % 2 == 0
  {
    var q := a.step / 16;
    assert a.step == 16 * q;
    var s := 2 * q;
    assert a.step / 8 == s;
    assert a.first == 8 * (a.first / 8);
    var n := offset + j;
    assert n * a.step == 8 * (n * s) by {
      assert n * (8 * s) == 8 * (n * s);
    }
    assert n * s == offset * s + j * s;
  }
}
