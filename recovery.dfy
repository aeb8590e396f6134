/**
 * Underrun and suspend recovery: xrun_recovery (sineserver.c:219-239).
 *
 * The device answers snd_pcm_prepare with a fixed code and successive calls of
 * snd_pcm_resume with successive codes. A failed prepare is only reported on
 * the console; the function still returns 0.
 */
module Recovery {
  import opened Errno

  datatype RecoveryCall = Prepare | Resume

  /** What the device returns to snd_pcm_prepare, and to the successive calls of
      snd_pcm_resume. */
  datatype RecoveryDevice = RecoveryDevice(prepareCode: int, resumeCodes: seq<int>)

  /** The suspend flag is released at some point: some call of resume answers
      something other than -EAGAIN. */
  predicate Settles(codes: seq<int>) {
    exists k :: 0 <= k < |codes| && codes[k] != -EAGAIN
  }

  /** The call of resume that ends the retry loop. */
  function FirstSettled(codes: seq<int>): (k: nat)
    requires Settles(codes)
    ensures k < |codes| && codes[k] != -EAGAIN
    ensures forall j :: 0 <= j < k ==> codes[j] == -EAGAIN
  {
    if codes[0] != -EAGAIN then 0
    else
      var k :| 0 <= k < |codes| && codes[k] != -EAGAIN;
      assert codes[1..][k - 1] == codes[k];
      1 + FirstSettled(codes[1..])
  }

  /** `n` calls of resume. */
  function Resumes(n: nat): (calls: seq<RecoveryCall>)
    ensures |calls| == n && forall i :: 0 <= i < n ==> calls[i] == Resume
  {
    seq(n, _ => Resume)
  }

  /** Underruns (-EPIPE) and suspends (-ESTRPIPE) are recovered from; every
      other code is handed back. */
  function RecoveryResult(err: int): (ret: int)
    ensures ret == 0 || ret == err
  {
    if err == -EPIPE || err == -ESTRPIPE then 0 else err
  }

  /** A caller aborts exactly on the errors recovery does not handle. */
  lemma RecoveryFailsOnlyOnUnhandledErrors(err: int)
    ensures RecoveryResult(err) < 0 <==> err < 0 && err != -EPIPE && err != -ESTRPIPE
  {
  }

  /** The calls xrun_recovery makes: one prepare for an underrun; for a suspend,
      resume until it stops answering -EAGAIN, then prepare only if resume
      failed; nothing for any other code. */
  function RecoveryLog(err: int, dev: RecoveryDevice): (calls: seq<RecoveryCall>)
    requires err == -ESTRPIPE ==> Settles(dev.resumeCodes)
    ensures err != -EPIPE && err != -ESTRPIPE ==> calls == []
    ensures Prepare in calls ==> err == -EPIPE || err == -ESTRPIPE
  {
    if err == -EPIPE then [Prepare]
    else if err == -ESTRPIPE then
      var k := FirstSettled(dev.resumeCodes);
      Resumes(k + 1) + (if dev.resumeCodes[k] < 0 then [Prepare] else [])
    else []
  }

  /** After a suspend, prepare is called at most once, and only when the last
      resume failed. */
  lemma SuspendPreparesOnlyOnFailure(dev: RecoveryDevice)
    requires Settles(dev.resumeCodes)
    ensures var calls := RecoveryLog(-ESTRPIPE, dev);
            var k := FirstSettled(dev.resumeCodes);
            (Prepare in calls <==> dev.resumeCodes[k] < 0) && multiset(calls)[Prepare] <= 1
  {
    var k := FirstSettled(dev.resumeCodes);
    assert Prepare !in Resumes(k + 1);
    assert multiset(Resumes(k + 1))[Prepare] == 0;
  }

  method XrunRecovery(err: int, dev: RecoveryDevice) returns (ret: int, calls: seq<RecoveryCall>)
    requires err == -ESTRPIPE ==> Settles(dev.resumeCodes)
    ensures ret == RecoveryResult(err)
    ensures calls == RecoveryLog(err, dev)
  {
    if err == -EPIPE {
      var code := dev.prepareCode;   // a failure is only reported
      return 0, [Prepare];
    } else if err == -ESTRPIPE {
      var codes := dev.resumeCodes;
      var i := 0;
      calls := [Resume];
      var code := codes[0];
      while code == -EAGAIN
        invariant 0 <= i <= FirstSettled(codes)
        invariant code == codes[i]
        invariant calls == Resumes(i + 1)
        decreases FirstSettled(codes) - i
      {
        i := i + 1;
        calls := calls + [Resume];
        code := codes[i];
      }
      if code < 0 {
        calls := calls + [Prepare];
        code := dev.prepareCode;   // a failure is only reported
      }
      return 0, calls;
    }
    return err, [];
  }
}
