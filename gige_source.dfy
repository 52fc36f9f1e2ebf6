/**
 * The camera source (`GigE_Source`): a buffer manager that retrieves filled
 * buffers from the camera stream, queues the good images for the consumers,
 * records errors and hands a fresh buffer back to the stream each time.
 * The stream and the device are not modelled; each of their calls becomes a
 * parameter carrying its outcome.
 */
module GigeSource {
  import opened Util
  import opened Pv
  import opened SpscQueue

  const MSG_THREAD_STOPPED := "Buffer manager thread has stopped."
  const MSG_SIGNAL_TIMEOUT := "Buffer manager signal timed out."
  const MSG_QUEUING_FAILED := "Buffer queuing operation failed."

  /** Outcome of `RetrieveBuffer(&pBuffer, &resBuffer, 1000)`. */
  datatype Retrieval =
    | Retrieved(buffer: Frame, bufferResult: PvResult)
    | RetrieveFailed(result: PvResult)

  /** What the manager thread does after one pass of its loop. */
  datatype LoopStatus = Continue | ExitFailure

  /**
   * First index in [from, to) whose `QueueBuffer` call fails during the
   * refill of the stream, if any.
   */
  function FirstFailure(ok: nat -> bool, from: nat, to: nat): (r: Option<nat>)
    ensures r.None? <==> forall i :: from <= i < to ==> ok(i)
    ensures r.Some? ==> from <= r.value < to && !ok(r.value) &&
                        (forall i :: from <= i < r.value ==> ok(i))
    decreases if from < to then to - from else 0
  {
    if from >= to then None
    else if !ok(from) then Some(from)
    else FirstFailure(ok, from + 1, to)
  }

  /** Every queued frame owns its buffer and that buffer holds the whole image. */
  predicate GoodFrames(c: seq<Option<Frame>>) {
    forall k :: 0 <= k < |c| ==> c[k].Some? && Covers(c[k].value)
  }

  class Source {
    /** `queue`: acquired images waiting for a consumer. */
    const frames: Queue<Frame>
    /** `ManagerErrors`. */
    const errors: Queue<PvResult>
    /** Payload size of the buffers handed to the stream. */
    var bufferSize: int
    var flushFlag: bool
    var stopFlag: bool
    /** The auto-reset event `ManagerSignal`. */
    var managerSignal: bool
    /** Number of buffers handed to the stream with `QueueBuffer`. */
    var queueBufferCalls: nat
    /** The device parameter `TLParamsLocked`. */
    var paramsLocked: bool

    ghost predicate Valid()
      reads this, frames, frames.slots, errors, errors.slots
    {
      frames.Valid() && errors.Valid() &&
      GoodFrames(frames.Contents) && AllPresent(errors.Contents)
    }

    /** State after `Initialize` has read the payload size and created the signal. */
    constructor (payloadSize: int)
      ensures Valid() && fresh(frames) && fresh(frames.slots) && fresh(errors) && fresh(errors.slots)
      ensures frames.Contents == [] && errors.Contents == []
      ensures bufferSize == payloadSize && !flushFlag && !stopFlag && !managerSignal
      ensures queueBufferCalls == 0 && !paramsLocked
    {
      frames := new Queue<Frame>();
      errors := new Queue<PvResult>();
      bufferSize := payloadSize;
      flushFlag, stopFlag, managerSignal := false, false, false;
      queueBufferCalls := 0;
      paramsLocked := false;
    }

    /** Entry of `ManageBuffers`: clear the stop request and ask for a first flush. */
    method BeginManaging()
      modifies this
      ensures !stopFlag && flushFlag
      ensures bufferSize == old(bufferSize) && managerSignal == old(managerSignal)
      ensures queueBufferCalls == old(queueBufferCalls) && paramsLocked == old(paramsLocked)
    {
      stopFlag := false;
      flushFlag := true;
    }

    /**
     * One pass of the `ManageBuffers` loop.
     *   queuedCount, queuedMaximum: the stream's queued and maximum buffer counts,
     *   queueOk(i): whether the refill `QueueBuffer` of iteration i succeeds,
     *   retrieval:  the result of the blocking retrieve,
     *   flushRequested: whether another thread raised the flush flag meanwhile.
     */
    method Iterate(queuedCount: nat, queuedMaximum: nat, queueOk: nat -> bool,
                   retrieval: Retrieval, flushRequested: bool)
      returns (status: LoopStatus)
      requires Valid()
      requires retrieval.RetrieveFailed? ==> !retrieval.result.IsOK()
      requires retrieval.Retrieved? ==>
                 retrieval.bufferResult.IsOK() && retrieval.buffer.payloadType == PayloadImage ==>
                 Covers(retrieval.buffer)
      modifies this, frames, frames.slots, errors, errors.slots
      ensures Valid()
      ensures bufferSize == old(bufferSize) && stopFlag == old(stopFlag)
      ensures paramsLocked == old(paramsLocked)
      // A failed refill ends the thread before anything is retrieved.
      ensures status == ExitFailure <==>
                old(flushFlag) && FirstFailure(queueOk, queuedCount, queuedMaximum).Some?
      ensures status == ExitFailure ==>
                queueBufferCalls ==
                  old(queueBufferCalls) + FirstFailure(queueOk, queuedCount, queuedMaximum).value
                  - queuedCount + 1 &&
                flushFlag && managerSignal == old(managerSignal) &&
                frames.Contents == old(frames.Contents) && errors.Contents == old(errors.Contents)
      ensures status == Continue ==>
                // the flush signals its completion once and clears the flag
                managerSignal == (old(managerSignal) || old(flushFlag)) &&
                flushFlag == flushRequested &&
                // every retrieved buffer is replaced by exactly one fresh one
                queueBufferCalls ==
                  old(queueBufferCalls) +
                  (if old(flushFlag) && queuedCount < queuedMaximum
                   then queuedMaximum - queuedCount else 0) +
                  (if retrieval.Retrieved? then 1 else 0)
      ensures status == Continue && retrieval.Retrieved? ==>
                var b := retrieval.bufferResult;
                if b.IsOK() && retrieval.buffer.payloadType == PayloadImage then
                  frames.Contents == Pushed(old(frames.Contents), Some(retrieval.buffer)) &&
                  errors.Contents ==
                    if old(|frames.Contents|) < SIZE then old(errors.Contents)
                    else Pushed(old(errors.Contents), Some(PvResult(GenericError, MSG_QUEUING_FAILED)))
                else
                  frames.Contents == old(frames.Contents) &&
                  errors.Contents ==
                    if b.IsOK() || b.code == Aborted then old(errors.Contents)
                    else Pushed(old(errors.Contents), Some(b))
      ensures status == Continue && retrieval.RetrieveFailed? ==>
                frames.Contents == old(frames.Contents) &&
                errors.Contents ==
                  if retrieval.result.code == Timeout || flushRequested then old(errors.Contents)
                  else Pushed(old(errors.Contents), Some(retrieval.result))
    {
      status := Refill(queuedCount, queuedMaximum, queueOk);
      if status == Continue {
        HandleRetrieval(retrieval, flushRequested);
      }
    }

    /** The flush branch: refill the stream, then signal completion and clear the flag. */
    method Refill(queuedCount: nat, queuedMaximum: nat, queueOk: nat -> bool)
      returns (status: LoopStatus)
      modifies this
      ensures bufferSize == old(bufferSize) && stopFlag == old(stopFlag)
      ensures paramsLocked == old(paramsLocked)
      ensures status == ExitFailure <==>
                old(flushFlag) && FirstFailure(queueOk, queuedCount, queuedMaximum).Some?
      ensures status == ExitFailure ==>
                queueBufferCalls ==
                  old(queueBufferCalls) + FirstFailure(queueOk, queuedCount, queuedMaximum).value
                  - queuedCount + 1 &&
                flushFlag && managerSignal == old(managerSignal)
      ensures status == Continue ==>
                managerSignal == (old(managerSignal) || old(flushFlag)) && !flushFlag &&
                queueBufferCalls ==
                  old(queueBufferCalls) +
                  (if old(flushFlag) && queuedCount < queuedMaximum
                   then queuedMaximum - queuedCount else 0)
    {
      status := Continue;
      if flushFlag {
        // The drain of the stream's own queue frees buffers outside this model.
        var i := queuedCount;
        while i < queuedMaximum
          invariant queuedCount <= i
          invariant i <= queuedMaximum || i == queuedCount
          invariant FirstFailure(queueOk, i, queuedMaximum) ==
                    FirstFailure(queueOk, queuedCount, queuedMaximum)
          invariant queueBufferCalls == old(queueBufferCalls) + (i - queuedCount)
          invariant flushFlag && managerSignal == old(managerSignal)
          invariant bufferSize == old(bufferSize) && stopFlag == old(stopFlag)
          invariant paramsLocked == old(paramsLocked)
          decreases queuedMaximum - i
        {
          queueBufferCalls := queueBufferCalls + 1;
          if !queueOk(i) {
            return ExitFailure;
          }
          i := i + 1;
        }
        managerSignal := true;
        flushFlag := false;
      }
    }

    /** The decision taken for one retrieve: push, drop or record an error; then requeue. */
    method HandleRetrieval(retrieval: Retrieval, flushRequested: bool)
      requires Valid()
      requires retrieval.RetrieveFailed? ==> !retrieval.result.IsOK()
      requires retrieval.Retrieved? ==>
                 retrieval.bufferResult.IsOK() && retrieval.buffer.payloadType == PayloadImage ==>
                 Covers(retrieval.buffer)
      modifies this, frames, frames.slots, errors, errors.slots
      ensures Valid()
      ensures bufferSize == old(bufferSize) && stopFlag == old(stopFlag)
      ensures paramsLocked == old(paramsLocked) && managerSignal == old(managerSignal)
      ensures flushFlag == (old(flushFlag) || flushRequested)
      ensures queueBufferCalls == old(queueBufferCalls) + (if retrieval.Retrieved? then 1 else 0)
      ensures retrieval.Retrieved? ==>
                var b := retrieval.bufferResult;
                if b.IsOK() && retrieval.buffer.payloadType == PayloadImage then
                  frames.Contents == Pushed(old(frames.Contents), Some(retrieval.buffer)) &&
                  errors.Contents ==
                    if old(|frames.Contents|) < SIZE then old(errors.Contents)
                    else Pushed(old(errors.Contents), Some(PvResult(GenericError, MSG_QUEUING_FAILED)))
                else
                  frames.Contents == old(frames.Contents) &&
                  errors.Contents ==
                    if b.IsOK() || b.code == Aborted then old(errors.Contents)
                    else Pushed(old(errors.Contents), Some(b))
      ensures retrieval.RetrieveFailed? ==>
                frames.Contents == old(frames.Contents) &&
                errors.Contents ==
                  if retrieval.result.code == Timeout || old(flushFlag) || flushRequested
                  then old(errors.Contents)
                  else Pushed(old(errors.Contents), Some(retrieval.result))
    {
      if flushRequested {
        flushFlag := true;
      }
      match retrieval {
        case Retrieved(buffer, bufferResult) =>
          HandleBuffer(buffer, bufferResult);
        case RetrieveFailed(result) =>
          if result.code == Timeout || flushFlag {
          } else {
            var _ := errors.TryPush(Some(result));
          }
      }
    }

    /** A retrieved buffer: an intact image is queued, any other failure but an abort recorded; then requeue. */
    method HandleBuffer(buffer: Frame, bufferResult: PvResult)
      requires Valid()
      requires bufferResult.IsOK() && buffer.payloadType == PayloadImage ==> Covers(buffer)
      modifies this, frames, frames.slots, errors, errors.slots
      ensures Valid()
      ensures bufferSize == old(bufferSize) && stopFlag == old(stopFlag) && flushFlag == old(flushFlag)
      ensures paramsLocked == old(paramsLocked) && managerSignal == old(managerSignal)
      ensures queueBufferCalls == old(queueBufferCalls) + 1
      ensures if bufferResult.IsOK() && buffer.payloadType == PayloadImage then
                frames.Contents == Pushed(old(frames.Contents), Some(buffer)) &&
                errors.Contents ==
                  if old(|frames.Contents|) < SIZE then old(errors.Contents)
                  else Pushed(old(errors.Contents), Some(PvResult(GenericError, MSG_QUEUING_FAILED)))
              else
                frames.Contents == old(frames.Contents) &&
                errors.Contents ==
                  if bufferResult.IsOK() || bufferResult.code == Aborted then old(errors.Contents)
                  else Pushed(old(errors.Contents), Some(bufferResult))
    {
      var res := bufferResult;
      if res.IsOK() && buffer.payloadType == PayloadImage {
        var rest := frames.TryPush(Some(buffer));
        if rest.Some? {
          res := PvResult(GenericError, MSG_QUEUING_FAILED);
        }
      }
      if !res.IsOK() && res.code != Aborted {
        var _ := errors.TryPush(Some(res));
      }
      // Whatever is still owned is dropped; a fresh buffer goes back to the stream.
      queueBufferCalls := queueBufferCalls + 1;
    }

    method GetImage() returns (img: Option<Frame>)
      requires Valid()
      modifies frames, frames.slots
      ensures Valid() && errors.Contents == old(errors.Contents)
      ensures old(|frames.Contents|) > 0 ==>
                img == old(frames.Contents[0]) && img.Some? && Covers(img.value) &&
                frames.Contents == old(frames.Contents[1..])
      ensures old(|frames.Contents|) == 0 ==> img.None? && frames.Contents == []
    {
      img := frames.TryPop();
    }

    method GetNumberOfAvailableImages() returns (n: nat)
      requires Valid()
      ensures n == |frames.Contents|
    {
      n := frames.GetCount();
    }

    method GetError() returns (err: Option<PvResult>)
      requires Valid()
      modifies errors, errors.slots
      ensures Valid() && frames.Contents == old(frames.Contents)
      ensures old(|errors.Contents|) > 0 ==>
                err == old(errors.Contents[0]) && errors.Contents == old(errors.Contents[1..])
      ensures old(|errors.Contents|) == 0 ==> err.None? && errors.Contents == []
    {
      err := errors.TryPop();
    }

    method GetNumberOfErrors() returns (n: nat)
      requires Valid()
      ensures n == |errors.Contents|
    {
      n := errors.GetCount();
    }

    method WaitImages(n: nat, timeoutMilliseconds: nat, resetOk: bool, blocked: WaitStatus)
      returns (r: WaitStatus)
      requires Valid()
      modifies frames
      ensures Valid()
      ensures frames.Contents == old(frames.Contents) && errors.Contents == old(errors.Contents)
      ensures |frames.Contents| >= n ==> r == WaitObject0
      ensures |frames.Contents| < n && timeoutMilliseconds == 0 ==> r == WaitTimeout
      ensures |frames.Contents| < n && timeoutMilliseconds > 0 ==>
                r == (if resetOk then blocked else WaitFailed) && frames.pushCondition == 0
    {
      r := frames.Wait(n, timeoutMilliseconds, resetOk, blocked);
    }

    /** The oldest recorded error, or an OK result when none is queued. */
    method GetQueuedError() returns (r: PvResult)
      requires Valid()
      modifies errors, errors.slots
      ensures Valid() && frames.Contents == old(frames.Contents)
      ensures old(|errors.Contents|) > 0 ==>
                r == old(errors.Contents[0]).value && errors.Contents == old(errors.Contents[1..])
      ensures old(|errors.Contents|) == 0 ==> r == RESULT_OK && errors.Contents == []
    {
      var err := errors.TryPopInto(None);
      if err.Some? {
        r := err.value;
      } else {
        r := RESULT_OK;
      }
    }

    /**
     * Asks the manager to regenerate the stream's buffers, waits for it
     * (`waitResult`), and drops every queued image whatever the wait gave.
     */
    method FlushImages(waitResult: WaitStatus) returns (r: PvResult)
      requires Valid()
      modifies this, frames, frames.slots
      ensures Valid()
      ensures frames.Contents == [] && errors.Contents == old(errors.Contents)
      ensures flushFlag
      ensures managerSignal == (old(managerSignal) && waitResult != WaitObject0)
      ensures r == if waitResult == WaitObject0 then RESULT_OK
                   else PvResult(ThreadError, MSG_SIGNAL_TIMEOUT)
      ensures bufferSize == old(bufferSize) && stopFlag == old(stopFlag)
      ensures queueBufferCalls == old(queueBufferCalls) && paramsLocked == old(paramsLocked)
    {
      flushFlag := true;
      if waitResult == WaitObject0 {
        managerSignal := false;
      }
      while true
        invariant Valid() && errors.Contents == old(errors.Contents)
        invariant flushFlag && managerSignal == (old(managerSignal) && waitResult != WaitObject0)
        invariant bufferSize == old(bufferSize) && stopFlag == old(stopFlag)
        invariant queueBufferCalls == old(queueBufferCalls) && paramsLocked == old(paramsLocked)
        decreases |frames.Contents|
      {
        var img := frames.TryPop();
        if img.None? {
          break;
        }
      }
      if waitResult != WaitObject0 {
        return PvResult(ThreadError, MSG_SIGNAL_TIMEOUT);
      }
      r := RESULT_OK;
    }

    /**
     * `Start`: refuses when the manager thread has stopped; regenerates the
     * buffers when the payload size changed; then resets timestamps, locks the
     * transport parameters and starts acquisition, unlocking again when that fails.
     */
    method Start(threadAlive: bool, sizeQuery: PvResult, payloadSize: int, waitResult: WaitStatus,
                 resetResult: PvResult, lockResult: PvResult, startResult: PvResult)
      returns (r: PvResult)
      requires Valid()
      modifies this
      ensures Valid()
      ensures stopFlag == old(stopFlag) && queueBufferCalls == old(queueBufferCalls)
      ensures !threadAlive ==>
                r == PvResult(ThreadError, MSG_THREAD_STOPPED) && bufferSize == old(bufferSize) &&
                flushFlag == old(flushFlag) && paramsLocked == old(paramsLocked)
      ensures threadAlive && !sizeQuery.IsOK() ==>
                r == sizeQuery && bufferSize == old(bufferSize) &&
                flushFlag == old(flushFlag) && paramsLocked == old(paramsLocked)
      ensures threadAlive && sizeQuery.IsOK() ==>
                bufferSize == payloadSize &&
                flushFlag == (old(flushFlag) || payloadSize != old(bufferSize))
      ensures threadAlive && sizeQuery.IsOK() && payloadSize != old(bufferSize) &&
              waitResult != WaitObject0 ==>
                r == PvResult(ThreadError, MSG_SIGNAL_TIMEOUT) && paramsLocked == old(paramsLocked)
      ensures var sized := threadAlive && sizeQuery.IsOK() &&
                           (payloadSize == old(bufferSize) || waitResult == WaitObject0);
              sized ==>
                if !resetResult.IsOK() then r == resetResult && paramsLocked == old(paramsLocked)
                else if !lockResult.IsOK() then r == lockResult && paramsLocked == old(paramsLocked)
                else if !startResult.IsOK() then r == startResult && !paramsLocked
                else r == RESULT_OK && paramsLocked
      ensures r.IsOK() <==>
                threadAlive && sizeQuery.IsOK() &&
                (payloadSize == old(bufferSize) || waitResult == WaitObject0) &&
                resetResult.IsOK() && lockResult.IsOK() && startResult.IsOK()
    {
      if !threadAlive {
        return PvResult(ThreadError, MSG_THREAD_STOPPED);
      }
      if !sizeQuery.IsOK() {
        return sizeQuery;
      }
      if payloadSize != bufferSize {
        bufferSize := payloadSize;
        // The stream's queued buffers are aborted, then the manager regenerates them.
        flushFlag := true;
        if waitResult != WaitObject0 {
          return PvResult(ThreadError, MSG_SIGNAL_TIMEOUT);
        }
        managerSignal := false;
      }
      if !resetResult.IsOK() {
        return resetResult;
      }
      if !lockResult.IsOK() {
        return lockResult;
      }
      paramsLocked := true;
      if !startResult.IsOK() {
        paramsLocked := false;
        return startResult;
      }
      r := RESULT_OK;
    }
  }
}
