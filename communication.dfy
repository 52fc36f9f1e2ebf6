/**
 * `CommunicationClass`: the per-cycle logic of the full-screen engine. Before
 * each present, `PreProcess` decides from the shared run flag and the frame
 * divider whether to upload the next buffered frame; after it, `PostProcess`
 * counts the frame, moves the ring-buffer index on, raises the signal event
 * and clears the run flag after the last frame.
 */
module Communication {
  import opened Util
  import opened Parameters

  /** `GetZeroBasedIndexForNextFrame`: the next slot of a ring of `numberOfFrames` frames. */
  function NextFrameIndex(index: int, numberOfFrames: int): int {
    if index < numberOfFrames - 1 then index + 1 else 0
  }

  /** An index inside the ring stays inside it, and moves on by one modulo the ring size. */
  lemma NextFrameIndexInRing(index: int, numberOfFrames: int)
    requires 0 <= index < numberOfFrames
    ensures 0 <= NextFrameIndex(index, numberOfFrames) < numberOfFrames
    ensures NextFrameIndex(index, numberOfFrames) == (index + 1) % numberOfFrames
  {
    if index + 1 == numberOfFrames {
      assert (index + 1) % numberOfFrames == 0;
    }
  }

  /** Moving on `numberOfFrames` times from slot 0 visits every slot in order and comes back to 0. */
  function Visit(index: int, numberOfFrames: int, steps: nat): int
    decreases steps
  {
    if steps == 0 then index else NextFrameIndex(Visit(index, numberOfFrames, steps - 1), numberOfFrames)
  }

  lemma {:induction false} VisitInOrder(numberOfFrames: int, steps: nat)
    requires 0 < numberOfFrames && steps < numberOfFrames
    ensures Visit(0, numberOfFrames, steps) == steps
    decreases steps
  {
    if steps > 0 {
      VisitInOrder(numberOfFrames, steps - 1);
    }
  }

  lemma VisitWraps(numberOfFrames: int)
    requires 0 < numberOfFrames
    ensures Visit(0, numberOfFrames, numberOfFrames) == 0
  {
    VisitInOrder(numberOfFrames, numberOfFrames - 1);
  }

  /**
   * The frame divider of `PreProcess` while running: a load cycle when the
   * counter has run out or the divider is not positive, which reloads the
   * counter to `divider - 1`; otherwise the counter counts down.
   */
  function DividerStep(counter: int, divider: int): (r: (bool, int)) {
    if counter <= 0 || divider <= 0 then (true, divider - 1) else (false, counter - 1)
  }

  /** Which of `n` running cycles from `counter` are load cycles. */
  function LoadCycles(counter: int, divider: int, n: nat): (r: seq<bool>)
    ensures |r| == n
    decreases n
  {
    if n == 0 then []
    else
      var s := DividerStep(counter, divider);
      [s.0] + LoadCycles(s.1, divider, n - 1)
  }

  function CounterAfter(counter: int, divider: int, n: nat): int
    decreases n
  {
    if n == 0 then counter else CounterAfter(DividerStep(counter, divider).1, divider, n - 1)
  }

  /** With `c` cycles left to wait, the next `c + 1` cycles load exactly once, on the last one. */
  lemma {:induction false} DividerCountdown(c: nat, divider: int)
    requires 0 < divider
    ensures LoadCycles(c, divider, c + 1) == seq(c + 1, i => i == c)
    ensures CounterAfter(c, divider, c + 1) == divider - 1
    decreases c
  {
    if c > 0 {
      DividerCountdown(c - 1, divider);
      assert LoadCycles(c, divider, c + 1) == [false] + LoadCycles(c - 1, divider, c);
    }
  }

  /**
   * With a positive divider d, a load cycle is followed by exactly d - 1
   * cycles that show the same frame and then the next load, after which the
   * counter is where it started: one frame every d presents.
   */
  lemma DividerPeriod(divider: int)
    requires 0 < divider
    ensures LoadCycles(divider - 1, divider, divider) == seq(divider, i => i == divider - 1)
    ensures CounterAfter(divider - 1, divider, divider) == divider - 1
  {
    DividerCountdown(divider - 1, divider);
  }

  /** In single-frame mode (divider not positive) every running cycle is a load cycle. */
  lemma {:induction false} SingleFrameMode(counter: int, divider: int, n: nat)
    requires divider <= 0
    ensures forall i :: 0 <= i < n ==> LoadCycles(counter, divider, n)[i]
    decreases n
  {
    if n > 0 {
      SingleFrameMode(divider - 1, divider, n - 1);
    }
  }

  class Communicator {
    /** `pConfig`: the parameter block shared with MATLAB. */
    const config: Parameters
    var dividerCounter: int
    var numberOfFrames: int
    var bytesPerFrame: int
    var previousRunState: bool
    var keepRunTime: bool
    var frameUpdated: bool
    var lastFrame: bool

    /**
     * The state after construction and the size computations of `Initialize`:
     * a ring of `bufferFrameSize` frames of `frameWidth * frameHeight` bytes.
     */
    constructor (params: Parameters)
      ensures config == params
      ensures numberOfFrames == params.bufferFrameSize
      ensures bytesPerFrame == params.frameWidth * params.frameHeight
      ensures dividerCounter == 0 && !previousRunState && !keepRunTime && !frameUpdated && !lastFrame
    {
      config := params;
      numberOfFrames := params.bufferFrameSize;
      bytesPerFrame := params.frameWidth * params.frameHeight;
      dividerCounter := 0;
      previousRunState, keepRunTime, frameUpdated, lastFrame := false, false, false, false;
    }

    /**
     * `LoadFrame`: when every pointer is set, hands the frame at byte offset
     * `bufferFrameIndex * bytesPerFrame` of the data file to the texture
     * (`uploaded`) and flags the update if the texture accepts it.
     */
    method LoadFrame(pointersSet: bool, updateOk: bool) returns (ok: bool, uploaded: Option<int>)
      modifies this
      ensures uploaded == if pointersSet then Some(config.bufferFrameIndex * bytesPerFrame) else None
      ensures ok <==> pointersSet && updateOk
      ensures frameUpdated == (ok || old(frameUpdated))
      ensures dividerCounter == old(dividerCounter) && lastFrame == old(lastFrame)
      ensures previousRunState == old(previousRunState) && keepRunTime == old(keepRunTime)
      ensures numberOfFrames == old(numberOfFrames) && bytesPerFrame == old(bytesPerFrame)
    {
      if pointersSet {
        var nextFramePointer := config.bufferFrameIndex * bytesPerFrame;
        uploaded := Some(nextFramePointer);
        if !updateOk {
          return false, uploaded;
        }
        frameUpdated := true;
      } else {
        return false, None;
      }
      ok := true;
    }

    /**
     * `PreProcess`: follows the run flag (a start resets the divider and, at
     * frame 0, keeps the start time), then on a load cycle either marks the
     * last frame (frame counter at `stopAfterFrame` with a positive divider)
     * or loads the next frame. A failed load returns false before the counter
     * is reloaded.
     */
    method PreProcess(pointersSet: bool, updateOk: bool) returns (ok: bool, uploaded: Option<int>)
      modifies this
      ensures previousRunState == config.run
      ensures var started := config.run && !old(previousRunState);
              keepRunTime == (old(keepRunTime) || (started && config.frameCounter == 0))
      ensures numberOfFrames == old(numberOfFrames) && bytesPerFrame == old(bytesPerFrame)
      ensures var counter := if config.run && !old(previousRunState) then 0 else old(dividerCounter);
              var step := DividerStep(counter, config.frameRateDivider);
              var stops := config.frameCounter >= config.stopAfterFrame && config.frameRateDivider > 0;
              if !config.run || !step.0 then
                ok && uploaded.None? && lastFrame == old(lastFrame) && frameUpdated == old(frameUpdated) &&
                dividerCounter == (if config.run then step.1 else counter)
              else if stops then
                ok && uploaded.None? && lastFrame && frameUpdated == old(frameUpdated) &&
                dividerCounter == step.1
              else
                (uploaded == if pointersSet then Some(config.bufferFrameIndex * bytesPerFrame) else None) &&
                (ok <==> pointersSet && updateOk) && frameUpdated == (ok || old(frameUpdated)) &&
                lastFrame == old(lastFrame) && dividerCounter == (if ok then step.1 else counter)
    {
      uploaded := None;
      if config.run != previousRunState {
        if config.run == true {
          dividerCounter := 0;
          if config.frameCounter == 0 {
            keepRunTime := true;
          }
        }
        previousRunState := config.run;
      }
      if config.run {
        if dividerCounter <= 0 || config.frameRateDivider <= 0 {
          if config.frameCounter >= config.stopAfterFrame && config.frameRateDivider > 0 {
            lastFrame := true;
          } else {
            var loaded;
            loaded, uploaded := LoadFrame(pointersSet, updateOk);
            if !loaded {
              return false, uploaded;
            }
          }
          dividerCounter := config.frameRateDivider - 1;
        } else {
          dividerCounter := dividerCounter - 1;
        }
      }
      ok := true;
    }

    /** Whether the signal event is due once the frame count is known. */
    predicate SignalDue(last: bool, frameCounter: int)
      reads config
    {
      last || (config.signalOnFrame > 0 && frameCounter == config.signalOnFrame) || config.signalNow
    }

    /**
     * `PostProcess` without the timing of `SaveTime`: `pulseOk` is the result
     * of the pulse step and `setEventOk` that of `SetEvent`. A handled update
     * counts the frame and moves the ring index on (and ends single-frame
     * mode); the signal is raised (`raised`) at the last frame, at the signal
     * frame or on request, and the last frame clears the run flag.
     */
    method PostProcess(pulseOk: bool, setEventOk: bool) returns (ok: bool, raised: bool)
      modifies this, config
      ensures !keepRunTime
      ensures numberOfFrames == old(numberOfFrames) && bytesPerFrame == old(bytesPerFrame)
      ensures dividerCounter == old(dividerCounter) && previousRunState == old(previousRunState)
      ensures config.GetSizes() == old(config.GetSizes())
      ensures config.stopAfterFrame == old(config.stopAfterFrame) && config.frameRateDivider == old(config.frameRateDivider)
      ensures config.signalOnFrame == old(config.signalOnFrame)
      ensures config.pulseEnable == old(config.pulseEnable) && config.pulseSync == old(config.pulseSync)
      ensures config.pulseDelayFrames == old(config.pulseDelayFrames) && config.pulseNumber == old(config.pulseNumber)
      ensures config.pulseHighTime == old(config.pulseHighTime) && config.pulseLowTime == old(config.pulseLowTime)
      ensures config.pulseDelayTime == old(config.pulseDelayTime)
      ensures !pulseOk ==>
                !ok && !raised && frameUpdated == old(frameUpdated) && lastFrame == old(lastFrame) &&
                config.frameCounter == old(config.frameCounter) &&
                config.bufferFrameIndex == old(config.bufferFrameIndex) &&
                config.run == old(config.run) && config.signalNow == old(config.signalNow)
      ensures pulseOk ==>
                var updated := old(frameUpdated);
                var last := old(lastFrame) || (updated && config.frameRateDivider <= 0);
                !frameUpdated &&
                config.frameCounter == old(config.frameCounter) + (if updated then 1 else 0) &&
                config.bufferFrameIndex ==
                  (if updated then NextFrameIndex(old(config.bufferFrameIndex), numberOfFrames)
                   else old(config.bufferFrameIndex)) &&
                raised == old(SignalDue(last, config.frameCounter + (if updated then 1 else 0))) &&
                if raised && !setEventOk then
                  !ok && lastFrame == last && config.run == old(config.run) && config.signalNow == old(config.signalNow)
                else
                  ok && config.signalNow == (old(config.signalNow) && !raised) && !lastFrame &&
                  config.run == (old(config.run) && !last)
    {
      raised := false;
      if keepRunTime {
        keepRunTime := false;
      }
      if !pulseOk {
        return false, false;
      }
      if frameUpdated {
        config.frameCounter := config.frameCounter + 1;
        config.bufferFrameIndex := NextFrameIndex(config.bufferFrameIndex, numberOfFrames);
        if config.frameRateDivider <= 0 {
          lastFrame := true;
        }
        frameUpdated := false;
      }
      if lastFrame || (config.signalOnFrame > 0 && config.frameCounter == config.signalOnFrame) || config.signalNow {
        raised := true;
        if !setEventOk {
          return false, raised;
        } else {
          config.signalNow := false;
        }
      }
      if lastFrame {
        config.run := false;
        lastFrame := false;
      }
      ok := true;
    }
  }
}
