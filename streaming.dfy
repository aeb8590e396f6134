/**
 * The inner loop of the transfer methods (write_loop, sineserver.c:321-334;
 * ucast_loop, sineserver.c:289-303, and mcast_loop without its printing are the
 * same loop): one period of frames handed to snd_pcm_writei, partial writes
 * continued, -EAGAIN retried, other errors sent to xrun_recovery.
 *
 * The device is an oracle: `replies[k]` is what the `k`-th snd_pcm_writei call
 * returns, and a single RecoveryDevice answers the recovery that may follow.
 */
module Streaming {
  import opened Errno
  import opened Codec
  import opened Recovery

  /** `snd_pcm_writei(handle, ptr, cptr)`: `ptr` counted in units of the
      pointer's element type from the start of the sample buffer. */
  datatype WriteCall = WriteCall(ptr: int, frames: int)

  /** How one period ends: every frame accepted; cut short by a recovered
      underrun or suspend (`break`, the rest of the period is dropped); `exit`
      on an error recovery does not handle; or the oracle ran out of replies
      while frames were still outstanding. */
  datatype PeriodEnd = Completed | Skipped | Fatal(err: int) | Pending

  /** Frames the device accepted over a run of replies: every non-negative reply
      is a count of frames written. */
  function Accepted(replies: seq<int>): (n: int)
    ensures n >= 0
  {
    if |replies| == 0 then 0
    else Accepted(replies[..|replies| - 1]) + (if replies[|replies| - 1] >= 0 then replies[|replies| - 1] else 0)
  }

  /** Accepted frames never decrease as replies come in. */
  lemma {:induction false} AcceptedGrows(replies: seq<int>, k: nat)
    requires k <= |replies|
    ensures Accepted(replies[..k]) <= Accepted(replies)
  {
    if k < |replies| {
      var last := |replies| - 1;
      assert replies[..last][..k] == replies[..k];
      AcceptedGrows(replies[..last], k);
    } else {
      assert replies[..k] == replies;
    }
  }

  /** A reply that is not a frame count leaves the accepted frames as they were;
      a count `r` adds `r` frames. */
  lemma AcceptedStep(replies: seq<int>, k: nat)
    requires k < |replies|
    ensures Accepted(replies[..k + 1]) == Accepted(replies[..k]) + (if replies[k] >= 0 then replies[k] else 0)
  {
    assert replies[..k + 1][..k] == replies[..k];
  }

  /** The replies before the last one were all frame counts or -EAGAIN. */
  predicate OnlyProgress(replies: seq<int>) {
    forall k :: 0 <= k < |replies| ==> replies[k] >= 0 || replies[k] == -EAGAIN
  }

  /** A reply that makes the loop leave early: an error other than -EAGAIN. */
  predicate IsError(reply: int) {
    reply < 0 && reply != -EAGAIN
  }

  /** The calls of snd_pcm_writei that produced the replies `consumed`: each one
      asks for the frames still outstanding, from the position the accepted
      frames have reached, `stride` units per frame. */
  function WriteLog(periodSize: int, stride: nat, consumed: seq<int>): (writes: seq<WriteCall>)
    ensures |writes| == |consumed|
  {
    if |consumed| == 0 then []
    else
      var before := consumed[..|consumed| - 1];
      WriteLog(periodSize, stride, before)
        + [WriteCall(Accepted(before) * stride, periodSize - Accepted(before))]
  }

  /** Call `k` of the log starts where the first `k` replies left the period. */
  lemma {:induction false} WriteLogAt(periodSize: int, stride: nat, consumed: seq<int>, k: nat)
    requires k < |consumed|
    ensures WriteLog(periodSize, stride, consumed)[k]
              == WriteCall(Accepted(consumed[..k]) * stride, periodSize - Accepted(consumed[..k]))
  {
    var last := |consumed| - 1;
    if k < last {
      assert consumed[..last][..k] == consumed[..k];
      WriteLogAt(periodSize, stride, consumed[..last], k);
    }
  }

  /** Between two consecutive calls, a frame count `r` moves the position on by
      `r` frames and takes `r` frames off the request; -EAGAIN repeats the call
      unchanged. */
  lemma WriteLogStep(periodSize: int, stride: nat, consumed: seq<int>, k: nat)
    requires k + 1 < |consumed| && (consumed[k] >= 0 || consumed[k] == -EAGAIN)
    ensures var log := WriteLog(periodSize, stride, consumed);
            if consumed[k] >= 0 then
              log[k + 1] == WriteCall(log[k].ptr + consumed[k] * stride, log[k].frames - consumed[k])
            else log[k + 1] == log[k]
  {
    WriteLogAt(periodSize, stride, consumed, k);
    WriteLogAt(periodSize, stride, consumed, k + 1);
    AcceptedStep(consumed, k);
    Distribute(Accepted(consumed[..k]), consumed[k], stride);
  }

  /** Reading reply `n` appends the call that produced it to the log and its
      frame count, if any, to the accepted frames. */
  lemma ReadReply(periodSize: int, stride: nat, replies: seq<int>, n: nat)
    requires n < |replies|
    ensures WriteLog(periodSize, stride, replies[..n + 1])
              == WriteLog(periodSize, stride, replies[..n])
                 + [WriteCall(Accepted(replies[..n]) * stride, periodSize - Accepted(replies[..n]))]
    ensures Accepted(replies[..n + 1]) == Accepted(replies[..n]) + (if replies[n] >= 0 then replies[n] else 0)
    ensures OnlyProgress(replies[..n]) && !IsError(replies[n]) ==> OnlyProgress(replies[..n + 1])
    ensures replies[..n + 1][n] == replies[n]
  {
    assert replies[..n + 1][..n] == replies[..n];
  }

  /** How the period ends once the replies `consumed` have been read. */
  function Outcome(periodSize: int, consumed: seq<int>): PeriodEnd {
    if |consumed| > 0 && IsError(consumed[|consumed| - 1]) then
      var err := consumed[|consumed| - 1];
      if RecoveryResult(err) < 0 then Fatal(err) else Skipped
    else if periodSize - Accepted(consumed) <= 0 then Completed
    else Pending
  }

  /** The period is cut short, and the remaining frames dropped, exactly on an
      underrun or a suspend; the loop exits exactly on any other error. */
  lemma OutcomeClassifies(periodSize: int, consumed: seq<int>)
    requires |consumed| > 0
    ensures var last := consumed[|consumed| - 1];
            (Outcome(periodSize, consumed) == Skipped <==> last == -EPIPE || last == -ESTRPIPE)
            && (Outcome(periodSize, consumed).Fatal? <==> IsError(last) && last != -EPIPE && last != -ESTRPIPE)
  {
  }

  lemma Distribute(a: int, b: int, s: int)
    ensures (a + b) * s == a * s + b * s
  {
  }

  /** The loop reads reply `k` and it is the one that sends it to recovery:
      frames are still outstanding and every earlier reply was a frame count or
      -EAGAIN. */
  predicate ReadsSuspend(periodSize: int, replies: seq<int>, k: nat)
    requires k < |replies|
  {
    OnlyProgress(replies[..k]) && periodSize - Accepted(replies[..k]) > 0
  }

  /** One period of the write loop, with `ptr` advancing `stride` units per
      accepted frame. */
  method WritePeriod(periodSize: int, stride: nat, replies: seq<int>, recovery: RecoveryDevice)
    returns (end: PeriodEnd, ptr: int, cptr: int, writes: seq<WriteCall>, recoveryCalls: seq<RecoveryCall>)
    requires forall k :: 0 <= k < |replies| && replies[k] == -ESTRPIPE ==>
               ReadsSuspend(periodSize, replies, k) ==> Settles(recovery.resumeCodes)
    ensures 0 <= |writes| <= |replies|
    ensures forall k :: 0 <= k < |writes| ==> writes[k].frames > 0
    ensures writes == WriteLog(periodSize, stride, replies[..|writes|])
    ensures |writes| > 0 ==> OnlyProgress(replies[..|writes| - 1])
    ensures end == Outcome(periodSize, replies[..|writes|])
    ensures end.Pending? ==> |writes| == |replies|
    ensures cptr == periodSize - Accepted(replies[..|writes|])
    ensures ptr == (periodSize - cptr) * stride
    ensures end.Skipped? || end.Fatal? ==> |writes| > 0 && ReadsSuspend(periodSize, replies, |writes| - 1)
    ensures recoveryCalls == if end.Skipped? || end.Fatal? then RecoveryLog(replies[|writes| - 1], recovery) else []
  {
    ptr := 0;
    cptr := periodSize;
    writes := [];
    recoveryCalls := [];
    end := Pending;
    var n := 0;
    while cptr > 0
      invariant n == |writes| <= |replies|
      invariant writes == WriteLog(periodSize, stride, replies[..n])
      invariant OnlyProgress(replies[..n])
      invariant cptr == periodSize - Accepted(replies[..n])
      invariant ptr == (periodSize - cptr) * stride
      invariant end == Pending && recoveryCalls == []
      invariant forall k :: 0 <= k < |writes| ==> writes[k].frames > 0
      decreases |replies| - n
    {
      if n == |replies| {
        break;
      }
      writes := writes + [WriteCall(ptr, cptr)];
      var err := replies[n];
      ReadReply(periodSize, stride, replies, n);
      assert ReadsSuspend(periodSize, replies, n);
      n := n + 1;
      if err == -EAGAIN {
        continue;
      }
      if err < 0 {
        var ret;
        ret, recoveryCalls := XrunRecovery(err, recovery);
        end := if ret < 0 then Fatal(err) else Skipped;
        return;
      }
      Distribute(periodSize - cptr, err, stride);
      ptr := ptr + err * stride;
      cptr := cptr - err;
    }
    if cptr <= 0 {
      end := Completed;
    }
  }

  /** Bytes from the start of the sample buffer to a `signed short *` that is
      `ptr` elements past it. */
  function ShortPtrBytes(ptr: int): int {
    2 * ptr
  }

  /** Where frame `a` starts in the interleaved period buffer. */
  function FrameOffset(a: int, channels: nat, f: SampleFormat): int {
    a * channels * PhysBps(f)
  }

  /** The loop advances its `signed short *` by `err * channels` elements, so
      after `a` accepted frames it points at frame `a` only when a sample slot is
      two bytes wide. */
  lemma ShortCursorMatchesFramesOnlyFor16Bit(a: nat, channels: nat, f: SampleFormat)
    requires a > 0 && channels > 0
    ensures ShortPtrBytes(a * channels) == FrameOffset(a, channels, f) <==> PhysBps(f) == 2
  {
    var n := a * channels;
    assert n > 0;
    assert FrameOffset(a, channels, f) == n * PhysBps(f);
    assert n * PhysBps(f) - 2 * n == n * (PhysBps(f) - 2);
    assert PhysBps(f) > 2 ==> n * (PhysBps(f) - 2) >= n * 1;
    assert PhysBps(f) < 2 ==> n * (2 - PhysBps(f)) >= n * 1;
  }

  /** With the default format (S32, four-byte slots) and two channels a frame
      is 8 bytes. A call that takes 2 of a period's 4 frames makes the next call
      pass a pointer to byte 8, the start of frame 1, for the 2 frames still
      outstanding: frame 1 is sent twice and frame 3 never, while the next frame
      due, frame 2, starts at byte 16. */
  lemma ShortCursorMisplacesS32()
    ensures var log := WriteLog(4, 2, [2, 2]);
            var s32 := SampleFormat(32, 32, false, false);
            ShortPtrBytes(log[1].ptr) == FrameOffset(1, 2, s32) == 8 && log[1].frames == 2
            && FrameOffset(2, 2, s32) == 16
  {
    WriteLogAt(4, 2, [2, 2], 1);
    assert [2, 2][..1] == [2];
    assert Accepted([2]) == Accepted([]) + 2;
  }

  /** The write loop with a byte pointer advanced by whole frames: every call
      passes the start of the first frame not yet accepted. */
  method WritePeriodBytes(periodSize: int, channels: nat, f: SampleFormat, replies: seq<int>,
                          recovery: RecoveryDevice)
    returns (end: PeriodEnd, ptr: int, cptr: int, writes: seq<WriteCall>, recoveryCalls: seq<RecoveryCall>)
    requires forall k :: 0 <= k < |replies| && replies[k] == -ESTRPIPE ==>
               ReadsSuspend(periodSize, replies, k) ==> Settles(recovery.resumeCodes)
    ensures |writes| <= |replies|
    ensures end == Outcome(periodSize, replies[..|writes|])
    ensures forall k :: 0 <= k < |writes| ==>
              writes[k].ptr == FrameOffset(Accepted(replies[..k]), channels, f)
              && writes[k].frames == periodSize - Accepted(replies[..k]) > 0
    ensures |writes| > 0 ==> OnlyProgress(replies[..|writes| - 1])
    ensures end.Pending? ==> |writes| == |replies|
    ensures cptr == periodSize - Accepted(replies[..|writes|])
    ensures ptr == FrameOffset(periodSize - cptr, channels, f)
    ensures end.Skipped? || end.Fatal? ==> |writes| > 0 && ReadsSuspend(periodSize, replies, |writes| - 1)
    ensures recoveryCalls == if end.Skipped? || end.Fatal? then RecoveryLog(replies[|writes| - 1], recovery) else []
  {
    end, ptr, cptr, writes, recoveryCalls := WritePeriod(periodSize, channels * PhysBps(f), replies, recovery);
    forall k | 0 <= k < |writes|
      ensures writes[k].ptr == FrameOffset(Accepted(replies[..k]), channels, f)
              && writes[k].frames == periodSize - Accepted(replies[..k]) > 0
    {
      WriteLogAt(periodSize, channels * PhysBps(f), replies[..|writes|], k);
      assert replies[..|writes|][..k] == replies[..k];
      Associate(Accepted(replies[..k]), channels, PhysBps(f));
    }
    Associate(periodSize - cptr, channels, PhysBps(f));
  }

  lemma Associate(a: int, b: int, c: int)
    ensures a * (b * c) == a * b * c
  {
  }
}
