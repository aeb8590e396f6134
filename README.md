# sineserver core in Dafny

The core of `sineserver.c` modelled in Dafny. The program is an ALSA player that synthesises a sine
tone and streams it to a PCM device. The model covers:

- **Sample encoding** (`codec.dfy`, modules `Codec` and `ByteOrder`). This is the optional sign-bit flip
  for unsigned formats, and which byte of a sample's 32-bit pattern goes into which byte of its slot,
  for both byte orders.
- **Channel areas and generate_sine** (`areas.dfy`, `generator.dfy`). The method checks the alignment of
  every area, then fills a run of frames byte by byte into the shared `array<bv8>` buffer. It is proved
  against a function listing the writes in the order the C loops make them. Lemmas then say what every
  byte of the buffer holds afterwards.
- **The interleaved layout of `main`** (`layout.dfy`). The areas `first = c*W`, `step = channels*W` over
  a buffer of `period_size*channels*W/8` bytes. The slots of different channels and frames are disjoint
  and all lie in the buffer. Filling one period therefore puts each frame's bytes in every channel's slot
  and leaves the padding alone.
- **Parameter negotiation** (`negotiation.dfy`). `set_hwparams` and `set_swparams` are modelled as
  methods of a class `PcmParams` holding the player's globals. The device is an oracle that supplies
  return codes and written-back values. Each method returns the list of calls it made.
- **Underrun and suspend recovery** (`recovery.dfy`). `xrun_recovery`, with its resume retry loop.
- **The inner write loop** shared by `write_loop`, `ucast_loop` and `mcast_loop` (`streaming.dfy`).
  This is the partial-write bookkeeping over an oracle of `snd_pcm_writei` results.
- **Command-line values** (`options.dfy`). The clamps of the numeric options, and the case-insensitive
  lookup of the transfer method.

The value `res` that `generate_sine` computes from `sin` for a frame is an input: one `bv32` per frame.
The error numbers are Linux's (`errno.dfy`).

Two points of `xrun_recovery` are easy to misread, and the model keeps them as the code has them:
- It returns 0 after an underrun or a suspend even when `snd_pcm_prepare` fails. The failure is only
  printed.
- After a suspend, it calls `snd_pcm_prepare` only when `snd_pcm_resume` failed, not after a successful
  resume.

## Model

| member | source | states |
|---|---|---|
| Codec.SignBitIsOneBit | sineserver.c:75 | the mask `1U << (format_bits - 1)` has exactly one bit set |
| Codec.Stored | sineserver.c:74-75 | a signed format stores `res` unchanged; an unsigned one stores `res` with bit `width-1` complemented and every other bit kept |
| Codec.StoredUnflips | sineserver.c:74-75 | storing is an involution: storing the stored pattern again gives back `res` (signed formats store `res` itself) |
| ByteOrder.SampleByte | sineserver.c:80-83 | byte `i` of the pattern, least significant first |
| ByteOrder.SampleByteIsShift | sineserver.c:80-83 | the byte written for index `i` is `(res >> i * 8) & 0xff` |
| ByteOrder.SlotIndex | sineserver.c:78-84 | the slot byte receiving sample byte `i` (`i` little-endian, `phys_bps-1-i` big-endian) lies inside the slot |
| ByteOrder.SlotIndexInjective | sineserver.c:78-84 | two sample bytes go to the same slot byte if and only if they are the same byte |
| ByteOrder.PaddingPlacement | sineserver.c:78-84 | a slot byte receives no data exactly when it is before the data (big-endian) or after it (little-endian) |
| ByteOrder.FromTwoSampleBytes | sineserver.c:80-83 | the two bytes `(res >> 8i) & 0xff` of a 16-bit sample reassemble to the low 16 bits of the pattern |
| ByteOrder.FromThreeSampleBytes | sineserver.c:80-83 | the three bytes of a 24-bit sample reassemble to the low 24 bits of the pattern |
| ByteOrder.FromFourSampleBytes | sineserver.c:80-83 | the four bytes of a 32-bit sample reassemble to the whole pattern |
| Areas.Aligned | sineserver.c:50-55 | the two checks generate_sine makes on an area: `first % 8 == 0` and `step % 16 == 0` |
| Areas.SlotStart | sineserver.c:54-60 | the cursor `first/8 + offset*(step/8)` after `j` advances of `step/8` bytes (the advance is at line 85) |
| Areas.AlignedCursorExact | sineserver.c:54-60 | for an aligned area the byte cursor is exactly the bit position `first + (offset+j)*step` divided by 8, and it advances an even number of bytes per frame |
| Generator.Frames | sineserver.c:63 | how many times `while (count-- > 0)` runs its body: `count` when positive, else none (no ensures of its own) |
| Generator.WriteSample | sineserver.c:79-83 | the buffer after the first `n` byte writes of one sample into its slot, in the order of the byte loop; its own ensures state only that the length is kept, the lemmas below say what the bytes hold |
| Generator.WriteFrame | sineserver.c:76-86 | the buffer after one frame is written into the first `n` channels, channel by channel, byte by byte; its own ensures state only that the length is kept |
| Generator.WriteFrames | sineserver.c:63-90 | the buffer after the first `n` frames, frame by frame, channel by channel, byte by byte, frame `j` carrying the stored pattern of `res[j]`; its own ensures state only that the length is kept |
| Generator.WriteSampleOutside | sineserver.c:79-83 | writing a sample changes no byte other than the ones its data bytes go to |
| Generator.WriteSampleAt | sineserver.c:79-83 | after the byte loop, slot byte `SlotIndex(f, i)` holds byte `i` of the pattern |
| Generator.WriteFrameOutside | sineserver.c:76-86 | writing a frame into all channels changes no byte that is not a data byte of a channel's slot |
| Generator.WriteFrameAt | sineserver.c:76-86 | with disjoint slots every channel's slot holds the frame's bytes after the channel loop |
| Generator.WriteFramesOutside | sineserver.c:63-90 | the whole fill leaves every byte that is not a data byte of a slot unchanged |
| Generator.WriteFramesAt | sineserver.c:63-90 | with disjoint slots, data byte `i` of channel `c`'s slot for frame `j` holds byte `i` of the stored pattern of `res[j]`, at `first/8 + (offset+j)*(step/8)` |
| Generator.DisjointMisses | sineserver.c:76-86 | with disjoint slots no data byte of one frame lands on a data byte of another frame |
| Generator.ChannelsAgree | sineserver.c:76-86 | every channel receives the same bytes for a frame |
| Generator.PaddingUnchanged | sineserver.c:78-84 | padding bytes of every slot keep their previous contents |
| Generator.StoreSample | sineserver.c:78-84 | the byte loop leaves the buffer as the sequence of its byte writes says |
| Generator.StoreFrame | sineserver.c:76-86 | the channel loop writes the frame into every channel and advances each cursor by `step/8` to the next frame's slot |
| Generator.GenerateSine | sineserver.c:30-93 | succeeds exactly when every area has `first % 8 == 0` and `step % 16 == 0`; on failure no byte is written; otherwise the buffer is the result of writing the stored pattern of each `res[j]` into every channel's slot for frame `j` |
| Layout.Interleaved | sineserver.c:567-571 | one area per channel |
| Layout.PeriodBufferBytes | sineserver.c:555 | for byte-multiple widths the buffer holds `period_size*channels*phys_bps` bytes |
| Layout.SetupAreas | sineserver.c:561-571 | the fresh area array gives channel `c` the area `first = c*W`, `step = channels*W` |
| Layout.InterleavedSlotStart | sineserver.c:569-570 | frame `j` of channel `c` starts at slot number `j*channels + c` |
| Layout.InterleavedAligned | sineserver.c:49-61 | generate_sine accepts main's areas if and only if `W % 8 == 0` and `channels*W % 16 == 0` |
| Layout.NarrowOddFramesRejected | sineserver.c:49-61 | an 8-bit format with an odd channel count is rejected |
| Layout.SlotNumbersDistinct | sineserver.c:567-571 | distinct (channel, frame) pairs have distinct slot numbers |
| Layout.InterleavedDisjoint | sineserver.c:567-571 | in main's layout the slots of all channels and frames of a period are pairwise disjoint |
| Layout.SlotFits | sineserver.c:555 | every slot number of a period ends inside `period_size*channels` slots |
| Layout.InterleavedInBuffer | sineserver.c:555-571 | in main's layout every slot of a period lies in the allocated buffer |
| Layout.SlotByte | sineserver.c:555-571 | byte `k` of frame `j`'s slot for channel `c` is inside the period buffer |
| Layout.InterleavedFrameByte | sineserver.c:318 | after generating a period in main's layout, each channel's slot for frame `j` holds the bytes of `res[j]`'s stored pattern |
| Layout.InterleavedPadding | sineserver.c:318 | after generating a period in main's layout, padding bytes are unchanged |
| Layout.FillPeriod | sineserver.c:318 | builds main's areas and generates one period: succeeds exactly for aligned widths; data bytes as above, padding unchanged, nothing written on failure |
| Negotiation.HwPlan | sineserver.c:103-168 | the 11 hardware calls in order, the rate request sixth, the commit last |
| Negotiation.SwPlan | sineserver.c:180-208 | the software calls, with the period-event call exactly when period events are on, and the commit last |
| Negotiation.StartThreshold | sineserver.c:187 | `(buffer_size/period_size)*period_size` is a multiple of `period_size` within one period below `buffer_size` |
| Negotiation.StartThresholdMaximal | sineserver.c:187 | no multiple of the period size that fits the buffer exceeds the start threshold |
| Negotiation.AvailMinBelowThreshold | sineserver.c:186-194 | avail_min (`buffer_size` with period events, `period_size` otherwise) is at most the start threshold if and only if period events are off or the buffer is a whole number of periods |
| Negotiation.PcmParams.constructor | sineserver.c:16-27 | the default configuration: S32, 192000 Hz, 2 channels, 500000 us buffer, 100000 us period, resampling on, no period events |
| Negotiation.PcmParams.SetHwParams | sineserver.c:95-174 | the calls made are a prefix of the plan; every call before the last succeeded; it stops at the first negative code and returns it; it returns -EINVAL exactly when the first six calls succeed and the rate written back differs; it returns 0 exactly after all 11 calls succeed; the buffer/period time and size are updated exactly when their call succeeded |
| Negotiation.PcmParams.SetSwParams | sineserver.c:176-214 | the calls are a prefix of the plan, whose start threshold is `StartThreshold(buffer_size, period_size)` and whose avail_min is `buffer_size` with period events and `period_size` otherwise; they stop at the first failure; the result is that failure's code, or 0 |
| Recovery.FirstSettled | sineserver.c:229-230 | the resume retry loop ends at the first code that is not -EAGAIN |
| Recovery.RecoveryResult | sineserver.c:223-238 | recovery returns 0 or the error itself |
| Recovery.RecoveryFailsOnlyOnUnhandledErrors | sineserver.c:219-239 | the result is negative if and only if the error is negative and neither -EPIPE nor -ESTRPIPE |
| Recovery.RecoveryLog | sineserver.c:223-237 | no device call for unhandled errors; prepare only for an underrun or a suspend |
| Recovery.SuspendPreparesOnlyOnFailure | sineserver.c:228-236 | after a suspend, prepare is called at most once, and exactly when the settling resume failed |
| Recovery.XrunRecovery | sineserver.c:219-239 | returns the classification above and makes the calls described by RecoveryLog |
| Streaming.WriteLog | sineserver.c:322 | one `snd_pcm_writei` call per reply read |
| Streaming.Outcome | sineserver.c:323-331 | how a period ends once some replies have been read (its meaning is stated by OutcomeClassifies) |
| Streaming.Accepted | sineserver.c:332-333 | the frames accepted over a run of replies, so that `cptr == period_size - Accepted` and `ptr` is `Accepted` frames in; its own ensures state only that it is non-negative |
| Streaming.AcceptedGrows | sineserver.c:321-334 | the frames accepted never decrease as replies come in |
| Streaming.AcceptedStep | sineserver.c:332-333 | a frame count `k` adds `k` accepted frames; an error adds none |
| Streaming.WriteLogAt | sineserver.c:321-334 | each write asks for the frames still outstanding, from the position the accepted frames reached |
| Streaming.WriteLogStep | sineserver.c:321-334 | between two writes, a count `k` advances the pointer by `k` frames and lowers the request by `k`; -EAGAIN repeats the same write |
| Streaming.ReadReply | sineserver.c:322-333 | reading one reply appends its write to the log and its count to the accepted frames |
| Streaming.OutcomeClassifies | sineserver.c:323-331 | a period is skipped exactly on -EPIPE or -ESTRPIPE, and the loop exits exactly on any other error but -EAGAIN |
| Streaming.WritePeriod | sineserver.c:319-334 | the writes made are those of the write log, each asking for a positive number of frames, so no write follows a completed period; only counts and -EAGAIN precede the last; `ptr == (period_size - cptr)*stride` and `cptr` is the period minus the accepted frames; the outcome classifies the last reply, which was read with frames outstanding; recovery calls are those of xrun_recovery on it |
| Streaming.ShortCursorMatchesFramesOnlyFor16Bit | sineserver.c:332 | advancing a `signed short *` by `err*channels` reaches the next frame if and only if a slot is two bytes |
| Streaming.ShortCursorMisplacesS32 | sineserver.c:17 | with the default S32 format and two channels, a partial write of 2 of 4 frames makes the next write of the 2 outstanding frames start at byte 8, the start of frame 1, rather than at byte 16, frame 2: frame 1 is sent twice and frame 3 never |
| Streaming.WritePeriodBytes | sineserver.c:321-334 | with a byte cursor advanced by whole frames, write `k` starts at the byte offset of frame `Accepted(replies[..k])`, the first frame not yet accepted, and asks for the `period_size - Accepted(replies[..k]) > 0` frames still outstanding; as in `WritePeriod`, every reply before the last is a count or `-EAGAIN`, the period is Pending only when the replies ran out, a Skipped or Fatal end follows an error reply with `xrun_recovery`'s calls, and no recovery call is made otherwise |
| Options.ToUnsigned | sineserver.c:18-21 | assigning an `int` to an `unsigned int` keeps it modulo 2^32 |
| Options.ClampUnsigned | sineserver.c:433-435 | the result lies within the bounds, equals the value inside them, and is the upper bound for negative values, which wrap |
| Options.ClampSigned | sineserver.c:494-496 | the result lies within the bounds, equals the value inside them, and is the bound the value passed |
| Options.ClampUnsignedIdempotent | sineserver.c:433-455 | clamping an option twice equals clamping it once |
| Options.ClampSignedIdempotent | sineserver.c:443-445 | clamping the frequency or port twice equals clamping once |
| Options.UnsignedDiffersOnlyOnNegatives | sineserver.c:433-455 | the unsigned clamp agrees with the signed one if and only if the value is non-negative (or the range is a single value) |
| Options.Rate | sineserver.c:432-436 | the rate lies in [4000, 196000] |
| Options.Channels | sineserver.c:437-441 | the channel count lies in [1, 1024] |
| Options.Frequency | sineserver.c:442-446 | the frequency lies in [50, 5000] |
| Options.Microseconds | sineserver.c:447-456 | the buffer time and the period time each lie in [1000, 1000000] us |
| Options.Port | sineserver.c:493-497 | the port lies in [MIN_PORT, MAX_PORT] |
| Options.NegativeOptions | sineserver.c:432-497 | `-1` gives the highest rate and channel count but the lowest frequency and port |
| Options.Lower | sineserver.c:459 | the ASCII lower-casing `strcasecmp` compares with: the result is never an upper-case letter, and letters stay letters |
| Options.SameIgnoringCase | sineserver.c:459 | `strcasecmp(a, b) == 0`: equal length and equal lower-cased characters |
| Options.SameIgnoringCaseIsEquivalence | sineserver.c:459 | equality up to case is reflexive, symmetric and transitive |
| Options.TransferMethodsDistinct | sineserver.c:349-353 | no argument matches two transfer method names |
| Options.LookupTransferMethod | sineserver.c:457-463 | the index of the method whose name equals the argument up to ASCII case, and 0 (multicast) when none does |

## Left out

- `sin`, the float/int reinterpretation, `maxval` scaling and the phase accumulator (sineserver.c:34-36, 64-73, 87-92) are floating point. `res` per frame is an input instead.
- The ALSA library is foreign code. Every `snd_pcm_*` call is an oracle of return codes and written-back values. A failed `*_near` call is assumed to leave its argument unchanged.
- `snd_pcm_format_width` and the related calls are not modelled. A format is the record of the values they report.
- The float formats are left out. The model's format description only needs `width <= 32` and `width <= physical width`.
- Sockets and multicast setup (sineserver.c:523-541), `mcast_loop`'s debug printing (257-260), `printf`, `snd_pcm_dump`, `help`, `getopt_long` and the `-o` format lookup (465-479) are I/O or command-line plumbing.
- `atoi` is not modelled. Each clamp starts from the `int` it returned.
- `malloc`/`calloc` failures and `exit` are left out. Misaligned areas make `GenerateSine` return false where the C code exits.
- The outer `while (1)` of the transfer loops does not terminate, so one period is modelled. Each period starts from `ptr = samples` and `cptr = period_size`.
- `sleep(1)` in the resume loop is only another iteration.
- Recovery.XrunRecovery: assumes the device eventually stops answering -EAGAIN to resume (`Settles`). The C loop would spin forever otherwise.
- Streaming.WritePeriod: carries that assumption only for a -ESTRPIPE reply the loop actually reads, with frames outstanding and only counts or -EAGAIN before it (`ReadsSuspend`).
- Streaming.WritePeriod: the oracle of write results is finite. When it runs out with frames outstanding, the outcome is `Pending`, where the C loop would write again.
- Streaming.WritePeriod: `ptr` is counted in elements of the pointer's type. Its C type `signed short *` and the resulting stride `channels` are an argument (`stride`).
- Negotiation.PcmParams.SetSwParams: requires `period_size > 0`. The C division by zero is undefined behaviour.
- Negotiation.PcmParams.SetHwParams: the model's sizes are unbounded naturals. The conversion of `snd_pcm_uframes_t` into the signed `snd_pcm_sframes_t` globals is not modelled.
- Options.Frequency: `freq` is a `double`. It holds the integer `atoi` returned, so it is modelled as an `int`.
- ByteOrder.FromBytes: the round trip from slot bytes back to the pattern is stated for 2-, 3- and 4-byte samples, not for a general width.

## Findings

| source | as written | input that shows it | evidently intended | confidence | as-written member | corrected member |
|---|---|---|---|---|---|---|
| sineserver.c:332 | `ptr += err * channels` on a `signed short *` advances 2 bytes per channel per frame | default format S32 (4-byte slots), 2 channels, period of 4 frames, `snd_pcm_writei` accepts 2 frames: the next call, for the 2 outstanding frames, passes byte 8 (the start of frame 1) instead of byte 16 (frame 2), so frame 1 is sent twice and frame 3 never | advance by `err` frames, `err * channels * phys_bps` bytes | not executed | Streaming.ShortCursorMisplacesS32 | Streaming.WritePeriodBytes |
