/**
 * `PulseClass`: sends a trigger pulse through a DAQ counter task a fixed
 * number of displayed frames after each frame update. The delay is kept in
 * a circular buffer of `pulseDelayFrames + 1` flags; the DAQ task is
 * stopped, reconfigured from the shared parameters and restarted around it.
 */
module Pulse {
  import opened Parameters
  import opened IndexMath

  /** Pulses due 0, 1, 2, ... frames from now: the buffer read from the current index on. */
  type Pending = seq<bool>

  /** `QueueAdd` with an offset of `offset` frames. */
  function AddPulse(p: Pending, offset: nat): (q: Pending)
    requires offset < |p|
    ensures |q| == |p| && q[offset] && forall k :: 0 <= k < |p| && k != offset ==> q[k] == p[k]
  {
    p[offset := true]
  }

  /** `QueueNext`: the pulse due now leaves, everything moves one frame closer, a clear flag enters last. */
  function Advance(p: Pending): (q: Pending)
    requires |p| > 0
    ensures |q| == |p| && q[|p| - 1] == false && forall k :: 0 <= k < |p| - 1 ==> q[k] == p[k + 1]
  {
    p[1..] + [false]
  }

  /** One enabled frame of `Process` on the buffer: add a pulse if the frame is new, then read the due flag. */
  function Step(p: Pending, newFrame: bool, delay: nat): (r: (bool, Pending))
    requires |p| > 0
  {
    var q := if newFrame then AddPulse(p, delay % |p|) else p;
    (q[0], Advance(q))
  }

  /** The due flags of a run of enabled frames from buffer `p`, and the buffer after them. */
  function Run(p: Pending, newFrames: seq<bool>, delay: nat): (r: (seq<bool>, Pending))
    requires |p| > 0
    ensures |r.0| == |newFrames| && |r.1| == |p|
    decreases |newFrames|
  {
    if |newFrames| == 0 then ([], p)
    else
      var prior := Run(p, newFrames[..|newFrames| - 1], delay);
      var s := Step(prior.1, newFrames[|newFrames| - 1], delay);
      (prior.0 + [s.0], s.1)
  }

  function Cleared(n: nat): (p: Pending)
    ensures |p| == n && forall k :: 0 <= k < n ==> !p[k]
  {
    seq(n, _ => false)
  }

  /**
   * The delay line: starting from a cleared buffer of `delay + 1` flags, after
   * frames `newFrames` the flag k frames ahead is set exactly when the frame
   * `delay - k` frames ago was new, and the pulse of frame j is due on
   * frame j + delay (on the same frame when the delay is zero).
   */
  lemma {:induction false} DelayLine(delay: nat, newFrames: seq<bool>)
    ensures var r := Run(Cleared(delay + 1), newFrames, delay);
            (forall k :: 0 <= k <= delay ==>
               (r.1[k] <==> k < delay && |newFrames| + k >= delay && newFrames[|newFrames| + k - delay])) &&
            (forall j :: 0 <= j < |newFrames| ==> (r.0[j] <==> j >= delay && newFrames[j - delay]))
    decreases |newFrames|
  {
    var p := Cleared(delay + 1);
    var r := Run(p, newFrames, delay);
    if |newFrames| > 0 {
      var n := |newFrames|;
      var init := newFrames[..n - 1];
      DelayLine(delay, init);
      var prior := Run(p, init, delay);
      assert var r := Run(Cleared(delay + 1), init, delay);
            (forall k :: 0 <= k <= delay ==>
               (r.1[k] <==> k < delay && |init| + k >= delay && init[|init| + k - delay])) &&
            (forall j :: 0 <= j < |init| ==> (r.0[j] <==> j >= delay && init[j - delay]));
      assert forall k :: 0 <= k <= delay ==>
               (prior.1[k] <==> k < delay && |init| + k >= delay && init[|init| + k - delay]);
      assert forall j :: 0 <= j < |init| ==> (prior.0[j] <==> j >= delay && init[j - delay]);
      RingWrap(delay, delay + 1);
      var q := if newFrames[n - 1] then AddPulse(prior.1, delay) else prior.1;
      assert Step(prior.1, newFrames[n - 1], delay) == (q[0], Advance(q));
      assert r == (prior.0 + [q[0]], Advance(q));
      forall k | 0 <= k <= delay
        ensures q[k] <==> (|init| + k >= delay && newFrames[|init| + k - delay])
      {
        assert prior.1[k] <==> k < delay && |init| + k >= delay && init[|init| + k - delay];
        if k < delay {
          assert q[k] == prior.1[k];
          if |init| + k >= delay {
            assert init[|init| + k - delay] == newFrames[|init| + k - delay];
          }
        } else {
          assert !prior.1[k];
          assert q[k] == newFrames[n - 1];
        }
      }
      forall j | 0 <= j < n
        ensures r.0[j] <==> j >= delay && newFrames[j - delay]
      {
        if j < n - 1 {
          assert r.0[j] == prior.0[j];
          assert prior.0[j] <==> j >= delay && init[j - delay];
          if j >= delay {
            assert init[j - delay] == newFrames[j - delay];
          }
        } else {
          assert r.0[j] == q[0];
        }
      }
    }
  }

  /** Buffer slot k frames ahead of index i in a ring of size s. */
  lemma RingWrap(a: int, s: int)
    requires 0 < s && 0 <= a < 2 * s
    ensures a % s == if a < s then a else a - s
  {
    if a >= s {
      assert a == 1 * s + (a - s);
    }
  }

  /** Division and remainder by the ring size are determined by any exact decomposition. */
  lemma RingDivMod(x: nat, s: nat, q: nat, r: nat)
    requires 0 < s && r < s && x == q * s + r
    ensures x % s == r
  {
    AtIsProduct(q, s, r);
    AtDivMod(q, s, r);
  }

  /** The slot `d` frames after index i is the slot at offset `d % s`. */
  lemma RingOffset(i: nat, d: nat, s: nat)
    requires 0 < s && i < s
    ensures (i + d) % s == (i + d % s) % s
  {
    var q, r := d / s, d % s;
    assert d == q * s + r;
    var x := i + r;
    RingWrap(x, s);
    if x < s {
      RingDivMod(i + d, s, q, x);
    } else {
      assert (q + 1) * s == q * s + s;
      RingDivMod(i + d, s, q + 1, x - s);
    }
  }

  /** Offsets below the ring size reach distinct slots. */
  lemma RingDistinct(i: nat, j: nat, k: nat, s: nat)
    requires 0 < s && i < s && j < s && k < s && j != k
    ensures (i + j) % s != (i + k) % s
  {
    RingWrap(i + j, s);
    RingWrap(i + k, s);
  }

  /** Element k of a buffer read from index i on is slot `(i + k) % |a|`. */
  lemma RotationAt(a: seq<bool>, i: nat, k: nat)
    requires i < |a| && k < |a|
    ensures (a[i..] + a[..i])[k] == a[(i + k) % |a|]
  {
    RingWrap(i + k, |a|);
  }

  /** Clearing slot i and moving the read index one slot on advances the buffer read from slot i. */
  lemma RotationAdvance(a: seq<bool>, i: nat)
    requires i < |a|
    ensures var b := a[i := false];
            var j := (i + 1) % |a|;
            b[j..] + b[..j] == Advance(a[i..] + a[..i])
  {
    var s := |a|;
    var b := a[i := false];
    var j := (i + 1) % s;
    RingWrap(i + 1, s);
    forall k | 0 <= k < s
      ensures (b[j..] + b[..j])[k] == Advance(a[i..] + a[..i])[k]
    {
      RotationAt(b, j, k);
      RingWrap(j + k, s);
      RingWrap(i + k + 1, s);
      if k < s - 1 {
        RotationAt(a, i, k + 1);
        RingDistinct(i, k + 1, 0, s);
      }
    }
  }

  /** The settings the DAQ task has been told, or that the parameters ask for. */
  datatype Settings = Settings(delayTime: real, highTime: real, lowTime: real, number: int, sync: bool)

  /** The DAQ calls `CheckConfig` can make; a run of the task gets a success oracle over them. */
  datatype DaqSetting = SetHighTime | SetLowTime | SetDelayTime | SetNumber | EnableTrigger | DisableTrigger

  /**
   * The reconfiguration part of `CheckConfig`, in the source's order: high
   * time, low time, initial delay, pulse count, then edge triggering. Each
   * changed setting is sent to the task and remembered; the first refused
   * call stops the reconfiguration with the earlier updates kept.
   */
  function Reconfigure(cur: Settings, want: Settings, daqOk: DaqSetting -> bool): (bool, Settings) {
    if want.highTime != cur.highTime && !daqOk(SetHighTime) then (false, cur)
    else
      var c1 := cur.(highTime := want.highTime);
      if want.lowTime != c1.lowTime && !daqOk(SetLowTime) then (false, c1)
      else
        var c2 := c1.(lowTime := want.lowTime);
        if want.delayTime != c2.delayTime && !daqOk(SetDelayTime) then (false, c2)
        else
          var c3 := c2.(delayTime := want.delayTime);
          if want.number != c3.number && !daqOk(SetNumber) then (false, c3)
          else
            var c4 := c3.(number := want.number);
            if want.sync != c4.sync && !daqOk(if want.sync then EnableTrigger else DisableTrigger)
            then (false, c4)
            else (true, c4.(sync := want.sync))
  }

  /** Whether every call a reconfiguration from `cur` to `want` needs is accepted. */
  predicate CallsAccepted(cur: Settings, want: Settings, daqOk: DaqSetting -> bool) {
    (want.highTime != cur.highTime ==> daqOk(SetHighTime)) &&
    (want.lowTime != cur.lowTime ==> daqOk(SetLowTime)) &&
    (want.delayTime != cur.delayTime ==> daqOk(SetDelayTime)) &&
    (want.number != cur.number ==> daqOk(SetNumber)) &&
    (want.sync != cur.sync ==> daqOk(if want.sync then EnableTrigger else DisableTrigger))
  }

  /**
   * Reconfiguration succeeds exactly when every needed call is accepted, and
   * then the task holds the wanted settings; in every case each setting is
   * either the old one or the wanted one.
   */
  lemma ReconfigureResult(cur: Settings, want: Settings, daqOk: DaqSetting -> bool)
    ensures var r := Reconfigure(cur, want, daqOk);
            (r.0 <==> CallsAccepted(cur, want, daqOk)) &&
            (r.0 ==> r.1 == want) &&
            (r.1.highTime == cur.highTime || r.1.highTime == want.highTime) &&
            (r.1.lowTime == cur.lowTime || r.1.lowTime == want.lowTime) &&
            (r.1.delayTime == cur.delayTime || r.1.delayTime == want.delayTime) &&
            (r.1.number == cur.number || r.1.number == want.number) &&
            (r.1.sync == cur.sync || r.1.sync == want.sync)
  {
  }

  /** With nothing to change, reconfiguring makes no DAQ call and succeeds. */
  lemma ReconfigureSettled(s: Settings, daqOk: DaqSetting -> bool)
    ensures Reconfigure(s, s, daqOk) == (true, s)
  {
  }

  /** The outcome of the task-done query: whether it succeeded, and what it reported. */
  datatype DoneQuery = DoneQuery(ok: bool, done: bool)

  /** What an enabled `Process` call does with the task: its result, whether the task runs after it, and whether `CheckConfig` ran. */
  datatype TaskStep = TaskStep(ok: bool, running: bool, checked: bool)

  /**
   * The task protocol of `Process` once the due flag is known: a running task
   * is asked whether it is done unless a pulse is due, stopped when a pulse is
   * due or it is done, reconfigured whenever it is idle, and started when a
   * pulse is due. `stopOk` and `startOk` are the outcomes of the stop and start calls.
   */
  function TaskOutcome(running: bool, due: bool, q: DoneQuery, stopOk: bool, startOk: bool): TaskStep {
    if running && !due && !q.ok then TaskStep(false, true, false)
    else
      var stop := running && (due || q.done);
      if stop && !stopOk then TaskStep(false, true, false)
      else
        var stillRunning := running && !stop;
        if !stillRunning && due then TaskStep(startOk, startOk, true)
        else TaskStep(true, stillRunning, !stillRunning)
  }

  /**
   * When the call succeeds the task runs afterwards exactly when a pulse was
   * due or it was still busy; a task starts only when a pulse is due, it is
   * reconfigured exactly when it is idle at that point, and a failure is one
   * of the three DAQ calls failing.
   */
  lemma TaskProtocol(running: bool, due: bool, q: DoneQuery, stopOk: bool, startOk: bool)
    ensures var t := TaskOutcome(running, due, q, stopOk, startOk);
            (t.ok ==> (t.running <==> due || (running && !q.done))) &&
            (t.running && !running ==> due) &&
            (t.ok && t.checked ==> !running || due || q.done) &&
            (t.ok && !t.checked ==> running && !due && !q.done) &&
            (!t.ok <==> (running && !due && !q.ok) ||
                        (running && (due || q.done) && (due || q.ok) && !stopOk) ||
                        (due && !startOk && (!running || stopOk)))
  {
  }

  class PulseGenerator {
    /** `pConfig`: the shared parameter block. */
    const config: Parameters
    /** `m_queue`, `m_queueSize`, `m_queueIndex`. */
    var queue: array<bool>
    var queueSize: int
    var queueIndex: int
    var currentDelayTime: real
    var currentHighTime: real
    var currentLowTime: real
    var currentNumber: int
    var currentEnableState: bool
    var currentSyncState: bool
    var taskIsRunning: bool

    ghost predicate Valid()
      reads this
    {
      queue.Length == queueSize && 0 < queueSize && 0 <= queueIndex < queueSize
    }

    /** The pulses due from now on, nearest first. */
    ghost function PendingPulses(): (p: Pending)
      reads this, queue
      requires Valid()
      ensures |p| == queueSize
    {
      queue[queueIndex..] + queue[..queueIndex]
    }

    function Current(): Settings
      reads this
    {
      Settings(currentDelayTime, currentHighTime, currentLowTime, currentNumber, currentSyncState)
    }

    /** What the shared parameters ask of the task. */
    function Wanted(): Settings
      reads this, config
    {
      Settings(config.pulseDelayTime, config.pulseHighTime, config.pulseLowTime, config.pulseNumber, config.pulseSync)
    }

    /**
     * `Initialize` when every DAQ call succeeds: the settings are copied from
     * the parameters, the task is idle and the buffer is empty.
     */
    constructor (params: Parameters)
      requires params.pulseDelayFrames >= 0
      ensures Valid() && config == params && fresh(queue)
      ensures Current() == Wanted() && currentEnableState == params.pulseEnable && !taskIsRunning
      ensures queueSize == params.pulseDelayFrames + 1 && queueIndex == 0
      ensures PendingPulses() == Cleared(queueSize)
    {
      config := params;
      currentDelayTime := params.pulseDelayTime;
      currentHighTime := params.pulseHighTime;
      currentLowTime := params.pulseLowTime;
      currentNumber := params.pulseNumber;
      currentEnableState := params.pulseEnable;
      currentSyncState := params.pulseSync;
      taskIsRunning := false;
      var size := params.pulseDelayFrames + 1;
      queue := new bool[size](_ => false);
      queueSize := size;
      queueIndex := 0;
    }

    /** `QueueCreate`: a new buffer of `pulseDelayFrames + 1` clear flags, read from slot 0. */
    method QueueCreate()
      requires config.pulseDelayFrames >= 0
      modifies this
      ensures Valid() && fresh(queue)
      ensures queueSize == config.pulseDelayFrames + 1 && queueIndex == 0
      ensures PendingPulses() == Cleared(queueSize)
      ensures Current() == old(Current()) && currentEnableState == old(currentEnableState)
      ensures taskIsRunning == old(taskIsRunning)
    {
      var size := config.pulseDelayFrames + 1;
      queue := new bool[size];
      queueIndex := 0;
      queueSize := size;
      forall k | 0 <= k < size {
        queue[k] := false;
      }
    }

    /** `QueueAdd`: sets the one flag `pulseDelayFrames` frames ahead (modulo the buffer size). */
    method QueueAdd()
      requires Valid() && config.pulseDelayFrames >= 0
      modifies queue
      ensures Valid()
      ensures PendingPulses() == AddPulse(old(PendingPulses()), config.pulseDelayFrames % queueSize)
    {
      ghost var before := PendingPulses();
      var newPulseIndex := (queueIndex + config.pulseDelayFrames) % queueSize;
      queue[newPulseIndex] := true;
      ghost var offset := config.pulseDelayFrames % queueSize;
      RingOffset(queueIndex, config.pulseDelayFrames, queueSize);
      forall k | 0 <= k < queueSize
        ensures PendingPulses()[k] == AddPulse(before, offset)[k]
      {
        RotationAt(queue[..], queueIndex, k);
        RotationAt(old(queue[..]), queueIndex, k);
        if k != offset {
          RingDistinct(queueIndex, k, offset, queueSize);
        }
      }
    }

    /** `QueueNext`: returns and clears the flag due now, and moves the index one slot on. */
    method QueueNext() returns (due: bool)
      requires Valid()
      modifies this, queue
      ensures Valid() && queue == old(queue) && queueSize == old(queueSize)
      ensures due == old(PendingPulses())[0]
      ensures PendingPulses() == Advance(old(PendingPulses()))
      ensures Current() == old(Current()) && currentEnableState == old(currentEnableState)
      ensures taskIsRunning == old(taskIsRunning)
    {
      ghost var i := queueIndex;
      due := queue[queueIndex];
      queue[queueIndex] := false;
      RingWrap(queueIndex + 1, queueSize);
      queueIndex := (queueIndex + 1) % queueSize;
      RotationAdvance(old(queue[..]), i);
      assert queue[..] == old(queue[..])[i := false];
    }

    /** Whether `CheckConfig` rebuilds the buffer: a new delay, or pulses just switched on. */
    predicate Rebuilds()
      reads this, config
    {
      config.pulseDelayFrames + 1 != queueSize || (!currentEnableState && config.pulseEnable)
    }

    /** The first part of `CheckConfig`: each changed setting is sent to the task and remembered. */
    method SendSettings(daqOk: DaqSetting -> bool) returns (ok: bool)
      modifies this
      ensures (ok, Current()) == Reconfigure(old(Current()), Wanted(), daqOk)
      ensures queue == old(queue) && queueSize == old(queueSize) && queueIndex == old(queueIndex)
      ensures currentEnableState == old(currentEnableState) && taskIsRunning == old(taskIsRunning)
    {
      if config.pulseHighTime != currentHighTime {
        if !daqOk(SetHighTime) {
          return false;
        }
        currentHighTime := config.pulseHighTime;
      }
      if config.pulseLowTime != currentLowTime {
        if !daqOk(SetLowTime) {
          return false;
        }
        currentLowTime := config.pulseLowTime;
      }
      if config.pulseDelayTime != currentDelayTime {
        if !daqOk(SetDelayTime) {
          return false;
        }
        currentDelayTime := config.pulseDelayTime;
      }
      if config.pulseNumber != currentNumber {
        if !daqOk(SetNumber) {
          return false;
        }
        currentNumber := config.pulseNumber;
      }
      if config.pulseSync != currentSyncState {
        if config.pulseSync {
          if !daqOk(EnableTrigger) {
            return false;
          }
          currentSyncState := true;
        } else {
          if !daqOk(DisableTrigger) {
            return false;
          }
          currentSyncState := false;
        }
      }
      return true;
    }

    /**
     * `CheckConfig`: sends every changed setting to the task, then rebuilds the
     * buffer if the delay changed or pulses were just enabled, and records the
     * enable state. A refused DAQ call returns false at once.
     */
    method CheckConfig(daqOk: DaqSetting -> bool) returns (ok: bool)
      requires Valid() && config.pulseDelayFrames >= 0
      modifies this
      ensures Valid() && taskIsRunning == old(taskIsRunning)
      ensures (ok, Current()) == Reconfigure(old(Current()), old(Wanted()), daqOk)
      ensures ok && old(Rebuilds()) ==>
                fresh(queue) && queueSize == config.pulseDelayFrames + 1 && PendingPulses() == Cleared(queueSize)
      ensures !(ok && old(Rebuilds())) ==>
                queue == old(queue) && queueSize == old(queueSize) && queueIndex == old(queueIndex)
      ensures currentEnableState == if ok then config.pulseEnable else old(currentEnableState)
    {
      ok := SendSettings(daqOk);
      if !ok {
        return;
      }
      if config.pulseDelayFrames + 1 != queueSize || (!currentEnableState && config.pulseEnable) {
        QueueCreate();
      }
      currentEnableState := config.pulseEnable;
      return true;
    }

    /** The buffer part of an enabled `Process` call: add a pulse for a new frame, then take the due flag. */
    method NextPulse(newFrame: bool) returns (due: bool)
      requires Valid() && config.pulseDelayFrames >= 0
      modifies this, queue
      ensures Valid() && queue == old(queue) && queueSize == old(queueSize)
      ensures (due, PendingPulses()) == Step(old(PendingPulses()), newFrame, config.pulseDelayFrames)
      ensures Current() == old(Current()) && currentEnableState == old(currentEnableState)
      ensures taskIsRunning == old(taskIsRunning)
    {
      if newFrame {
        QueueAdd();
      }
      due := QueueNext();
    }

    /** The task part of an enabled `Process` call, once the due flag is known. */
    method DriveTask(due: bool, doneQuery: DoneQuery, stopOk: bool, daqOk: DaqSetting -> bool, startOk: bool)
      returns (ok: bool)
      requires Valid() && config.pulseDelayFrames >= 0
      modifies this
      ensures Valid()
      ensures var t := TaskOutcome(old(taskIsRunning), due, doneQuery, stopOk, startOk);
              var settings := Reconfigure(old(Current()), Wanted(), daqOk);
              ok == t.ok && taskIsRunning == t.running &&
              (if t.checked then Current() == settings.1 else Current() == old(Current())) &&
              currentEnableState == (if t.checked && settings.0 then config.pulseEnable else old(currentEnableState)) &&
              (if t.checked && settings.0 && old(Rebuilds())
               then fresh(queue) && queueSize == config.pulseDelayFrames + 1 && PendingPulses() == Cleared(queueSize)
               else queue == old(queue) && queueSize == old(queueSize) && queueIndex == old(queueIndex))
    {
      var taskIsDone := false;
      if taskIsRunning {
        if !due {
          if !doneQuery.ok {
            return false;
          }
          taskIsDone := doneQuery.done;
        }
        if due || taskIsDone {
          if !stopOk {
            return false;
          }
          taskIsRunning := false;
        }
      }
      if !taskIsRunning {
        var _ := CheckConfig(daqOk);
      }
      if due && !taskIsRunning {
        if !startOk {
          return false;
        }
        taskIsRunning := true;
      }
      return true;
    }

    /**
     * `Process(newFrame)`. With pulses disabled only the enable state is
     * recorded. Otherwise a new frame adds a pulse, the due flag is read, and
     * the task is stopped, reconfigured and started as `TaskOutcome` says;
     * the DAQ results are parameters.
     */
    method Process(newFrame: bool, doneQuery: DoneQuery, stopOk: bool, daqOk: DaqSetting -> bool, startOk: bool)
      returns (ok: bool)
      requires Valid() && config.pulseDelayFrames >= 0
      modifies this, queue
      ensures Valid()
      ensures !config.pulseEnable ==>
                ok && !currentEnableState && Current() == old(Current()) && taskIsRunning == old(taskIsRunning) &&
                queue == old(queue) && queue[..] == old(queue[..]) && queueIndex == old(queueIndex)
      ensures config.pulseEnable ==>
                var step := Step(old(PendingPulses()), newFrame, config.pulseDelayFrames);
                var t := TaskOutcome(old(taskIsRunning), step.0, doneQuery, stopOk, startOk);
                var settings := Reconfigure(old(Current()), Wanted(), daqOk);
                ok == t.ok && taskIsRunning == t.running &&
                (if t.checked then Current() == settings.1 else Current() == old(Current())) &&
                currentEnableState == (if t.checked && settings.0 then true else old(currentEnableState)) &&
                PendingPulses() ==
                  (if t.checked && settings.0 && (config.pulseDelayFrames + 1 != old(queueSize) || !old(currentEnableState))
                   then Cleared(config.pulseDelayFrames + 1) else step.1)
    {
      if !config.pulseEnable {
        currentEnableState := config.pulseEnable;
        return true;
      }
      var pulseNow := NextPulse(newFrame);
      ok := DriveTask(pulseNow, doneQuery, stopOk, daqOk, startOk);
    }
  }
}
