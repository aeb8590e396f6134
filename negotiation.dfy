/**
 * Parameter negotiation with the PCM device: set_hwparams (sineserver.c:95-174)
 * and set_swparams (sineserver.c:176-214).
 *
 * The device is an oracle: `codes[k]` is what it returns for the `k`-th call the
 * player makes, and the values it writes back through pointer arguments are
 * fields of the oracle. Each method returns the list of calls it made, so that
 * "no later step is performed" can be stated.
 */
module Negotiation {
  import opened Errno
  import opened Codec

  /** SND_PCM_ACCESS_RW_INTERLEAVED, the access of every transfer method. */
  datatype Access = RwInterleaved

  /** Calls of set_hwparams, with the values the player passes. */
  datatype HwCall =
    | ParamsAny
    | SetRateResample(resample: bool)
    | SetAccess(access: Access)
    | SetFormat(format: SampleFormat)
    | SetChannels(channels: nat)
    | SetRateNear(rate: nat)
    | SetBufferTimeNear(bufferTime: nat)
    | GetBufferSize
    | SetPeriodTimeNear(periodTime: nat)
    | GetPeriodSize
    | CommitHw

  /** Replies of the device to set_hwparams: the return codes of the calls in
      order, the rate written back by set_rate_near, the buffer and period times
      written back by the *_time_near calls and the sizes read back. */
  datatype HwDevice = HwDevice(codes: seq<int>, nearestRate: nat, bufferTime: nat,
                               bufferSize: nat, periodTime: nat, periodSize: nat)

  /** Calls of set_swparams. */
  datatype SwCall =
    | SwCurrent
    | SetStartThreshold(threshold: nat)
    | SetAvailMin(availMin: nat)
    | SetPeriodEvent
    | CommitSw

  /** Indices of the hardware calls whose results the player keeps. */
  const RateNearCall := 5
  const BufferTimeCall := 6
  const BufferSizeCall := 7
  const PeriodTimeCall := 8
  const PeriodSizeCall := 9

  /** The calls set_hwparams makes when no step fails. */
  function HwPlan(resample: bool, access: Access, format: SampleFormat, channels: nat, rate: nat,
                  bufferTime: nat, periodTime: nat): (plan: seq<HwCall>)
    ensures |plan| == 11
    ensures plan[RateNearCall] == SetRateNear(rate)
    ensures plan[|plan| - 1] == CommitHw
  {
    [ParamsAny, SetRateResample(resample), SetAccess(access), SetFormat(format), SetChannels(channels),
     SetRateNear(rate), SetBufferTimeNear(bufferTime), GetBufferSize, SetPeriodTimeNear(periodTime),
     GetPeriodSize, CommitHw]
  }

  /** The calls set_swparams makes when no step fails: the period-event call only
      when period events were requested. */
  function SwPlan(threshold: nat, availMin: nat, periodEvent: bool): (plan: seq<SwCall>)
    ensures |plan| == if periodEvent then 5 else 4
    ensures SetPeriodEvent in plan <==> periodEvent
    ensures plan[|plan| - 1] == CommitSw
  {
    [SwCurrent, SetStartThreshold(threshold), SetAvailMin(availMin)]
    + (if periodEvent then [SetPeriodEvent] else []) + [CommitSw]
  }

  /** `made` calls of a chain of steps that returns at the first negative code
      were made: every call but the last succeeded, and the last one failed or
      ended the chain. */
  predicate StopsAtFirstFailure(codes: seq<int>, made: nat, planned: nat)
    requires made <= planned <= |codes|
  {
    1 <= made
    && (forall k :: 0 <= k < made - 1 ==> codes[k] >= 0)
    && (codes[made - 1] < 0 || made == planned)
  }

  /** set_hwparams stopped right after set_rate_near succeeded: the check of the
      rate written back is what ended it. */
  predicate RateRejected(dev: HwDevice, made: nat)
    requires made <= |dev.codes|
  {
    made == RateNearCall + 1 && dev.codes[RateNearCall] >= 0
  }

  /** `(buffer_size / period_size) * period_size`, the start threshold. */
  function StartThreshold(bufferSize: nat, periodSize: nat): (t: nat)
    requires periodSize > 0
    ensures t % periodSize == 0
    ensures t <= bufferSize < t + periodSize
  {
    MultipleHasNoRemainder(bufferSize / periodSize, periodSize);
    (bufferSize / periodSize) * periodSize
  }

  lemma MultipleHasNoRemainder(q: nat, p: nat)
    requires p > 0
    ensures (q * p) % p == 0
  {
    var t := q * p;
    var d := t / p;
    var r := t % p;
    assert p * (q - d) == r;
    assert q - d >= 1 ==> p * (q - d) >= p * 1;
    assert q - d <= -1 ==> p * (d - q) >= p * 1;
  }

  /** The start threshold is the largest multiple of the period size that fits in
      the buffer. */
  lemma StartThresholdMaximal(bufferSize: nat, periodSize: nat, m: nat)
    requires periodSize > 0 && m * periodSize <= bufferSize
    ensures m * periodSize <= StartThreshold(bufferSize, periodSize)
  {
    var q := bufferSize / periodSize;
    if m > q {
      assert m * periodSize >= (q + 1) * periodSize;
    }
  }

  /** `period_event ? buffer_size : period_size`: with period events the device
      wakes the player only when the whole buffer is free. */
  function AvailMin(periodEvent: bool, bufferSize: nat, periodSize: nat): nat {
    if periodEvent then bufferSize else periodSize
  }

  /** Unless period events are on, avail_min never exceeds the start threshold,
      so the device can start before the player has to wait. */
  lemma AvailMinBelowThreshold(periodEvent: bool, bufferSize: nat, periodSize: nat)
    requires 0 < periodSize <= bufferSize
    ensures AvailMin(periodEvent, bufferSize, periodSize) <= StartThreshold(bufferSize, periodSize)
            <==> !periodEvent || bufferSize % periodSize == 0
  {
    StartThresholdMaximal(bufferSize, periodSize, 1);
  }

  /** The static configuration of the player (the globals of sineserver.c:16-27). */
  class PcmParams {
    var format: SampleFormat
    var rate: nat
    var channels: nat
    var bufferTime: nat
    var periodTime: nat
    var resample: bool
    var periodEvent: bool
    var bufferSize: nat
    var periodSize: nat

    /** The initial values of the globals: S32 (little-endian host), 192000 Hz,
        2 channels, 500 ms buffer, 100 ms period, resampling on, no period events. */
    constructor ()
      ensures format == SampleFormat(32, 32, false, false)
      ensures rate == 192000 && channels == 2
      ensures bufferTime == 500000 && periodTime == 100000
      ensures resample && !periodEvent
      ensures bufferSize == 0 && periodSize == 0
    {
      format := SampleFormat(32, 32, false, false);
      rate := 192000;
      channels := 2;
      bufferTime := 500000;
      periodTime := 100000;
      resample := true;
      periodEvent := false;
      bufferSize := 0;
      periodSize := 0;
    }

    /** set_hwparams: the chain of hardware calls, returning at the first negative
        code, or with -EINVAL when the device cannot give the exact rate. */
    method SetHwParams(dev: HwDevice, access: Access) returns (err: int, calls: seq<HwCall>)
      requires |dev.codes| >= 11
      modifies this`bufferTime, this`bufferSize, this`periodTime, this`periodSize
      ensures 1 <= |calls| <= 11
      ensures calls == HwPlan(old(resample), access, old(format), old(channels), old(rate),
                              old(bufferTime), old(periodTime))[..|calls|]
      ensures forall k :: 0 <= k < |calls| - 1 ==> dev.codes[k] >= 0
      ensures RateRejected(dev, |calls|) <==>
                (forall k :: 0 <= k <= RateNearCall ==> dev.codes[k] >= 0) && dev.nearestRate != old(rate)
      ensures |calls| == 11 || dev.codes[|calls| - 1] < 0 || RateRejected(dev, |calls|)
      ensures err == if dev.codes[|calls| - 1] < 0 then dev.codes[|calls| - 1]
                     else if RateRejected(dev, |calls|) then -EINVAL else 0
      ensures err == 0 <==> |calls| == 11 && dev.codes[10] >= 0
      ensures err == 0 ==> bufferSize == dev.bufferSize && periodSize == dev.periodSize
      ensures bufferTime == if |calls| > BufferTimeCall && dev.codes[BufferTimeCall] >= 0 then dev.bufferTime else old(bufferTime)
      ensures bufferSize == if |calls| > BufferSizeCall && dev.codes[BufferSizeCall] >= 0 then dev.bufferSize else old(bufferSize)
      ensures periodTime == if |calls| > PeriodTimeCall && dev.codes[PeriodTimeCall] >= 0 then dev.periodTime else old(periodTime)
      ensures periodSize == if |calls| > PeriodSizeCall && dev.codes[PeriodSizeCall] >= 0 then dev.periodSize else old(periodSize)
    {
      var plan := HwPlan(resample, access, format, channels, rate, bufferTime, periodTime);
      calls := plan[..1];                              // snd_pcm_hw_params_any
      err := dev.codes[0];
      if err < 0 {
        return;
      }
      calls := plan[..2];                              // set_rate_resample(resample)
      err := dev.codes[1];
      if err < 0 {
        return;
      }
      calls := plan[..3];                              // set_access(access)
      err := dev.codes[2];
      if err < 0 {
        return;
      }
      calls := plan[..4];                              // set_format(format)
      err := dev.codes[3];
      if err < 0 {
        return;
      }
      calls := plan[..5];                              // set_channels(channels)
      err := dev.codes[4];
      if err < 0 {
        return;
      }
      var rrate := rate;
      calls := plan[..6];                              // set_rate_near(&rrate)
      err := dev.codes[5];
      if err < 0 {
        return;
      }
      rrate := dev.nearestRate;
      if rrate != rate {
        return -EINVAL, calls;
      }
      calls := plan[..7];                              // set_buffer_time_near(&buffer_time)
      err := dev.codes[6];
      if err < 0 {
        return;
      }
      bufferTime := dev.bufferTime;
      calls := plan[..8];                              // get_buffer_size(&size)
      err := dev.codes[7];
      if err < 0 {
        return;
      }
      bufferSize := dev.bufferSize;
      calls := plan[..9];                              // set_period_time_near(&period_time)
      err := dev.codes[8];
      if err < 0 {
        return;
      }
      periodTime := dev.periodTime;
      calls := plan[..10];                             // get_period_size(&size)
      err := dev.codes[9];
      if err < 0 {
        return;
      }
      periodSize := dev.periodSize;
      calls := plan;                                   // snd_pcm_hw_params
      err := dev.codes[10];
      if err < 0 {
        return;
      }
      return 0, calls;
    }

    /** set_swparams: the chain of software calls, returning at the first
        negative code. */
    method SetSwParams(codes: seq<int>) returns (err: int, calls: seq<SwCall>)
      requires periodSize > 0
      requires |codes| >= 5
      ensures 1 <= |calls| <= if periodEvent then 5 else 4
      ensures calls == SwPlan(StartThreshold(bufferSize, periodSize),
                              AvailMin(periodEvent, bufferSize, periodSize), periodEvent)[..|calls|]
      ensures StopsAtFirstFailure(codes, |calls|, if periodEvent then 5 else 4)
      ensures err == if codes[|calls| - 1] < 0 then codes[|calls| - 1] else 0
    {
      calls := [SwCurrent];
      err := codes[0];
      if err < 0 {
        return;
      }
      calls := calls + [SetStartThreshold((bufferSize / periodSize) * periodSize)];
      err := codes[1];
      if err < 0 {
        return;
      }
      calls := calls + [SetAvailMin(if periodEvent then bufferSize else periodSize)];
      err := codes[2];
      if err < 0 {
        return;
      }
      if periodEvent {
        calls := calls + [SetPeriodEvent];
        err := codes[3];
        if err < 0 {
          return;
        }
      }
      calls := calls + [CommitSw];
      err := codes[|calls| - 1];
      if err < 0 {
        return;
      }
      return 0, calls;
    }
  }
}
