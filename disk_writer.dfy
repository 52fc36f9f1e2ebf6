/**
 * The disk writer stage (`DiskWriter`): takes images from an upstream image
 * queue, appends their pixel bytes to a file, counts the writes and forwards
 * every image to its own output queue, payload and all only in pass-through
 * mode. The upstream (`IImageQueue`) and the Win32 file calls are parameters
 * carrying their outcomes; the file itself is modelled as its bytes and the
 * current file pointer.
 */
module DiskWriter {
  import opened Util
  import opened Pv
  import opened SpscQueue

  const MSG_WRITE_FAILED_CODE := "WriteFile failed with code "
  const MSG_INCOMPLETE_WRITE := "WriteFile failed due to incomplete write."
  const MSG_WRITE_OPERATION := "Write operation failed."
  const MSG_PASS_THROUGH := "Pass-through queuing operation failed."
  const MSG_POP_FAILED := "Wait operation succeeded but the queue pop operation failed."
  const MSG_WAIT_FAILED := "Queue wait operation failed."
  const MSG_UNEXPECTED_WAIT := "Unexpected wait error."
  const MSG_SET_POINTER := "FlushImages: SetFilePointer INVALID_SET_FILE_POINTER error."
  const MSG_SET_END := "FlushImages: SetEndOfFile error code "

  /** The file after writing `bytes` at offset `pos`: overwrite, then extend. */
  function WriteAt(file: seq<byte>, pos: nat, bytes: seq<byte>): (r: seq<byte>)
    requires pos <= |file|
    ensures |r| == if pos + |bytes| <= |file| then |file| else pos + |bytes|
    ensures r[..pos] == file[..pos]
    ensures r[pos..pos + |bytes|] == bytes
    ensures forall i :: pos + |bytes| <= i < |file| ==> r[i] == file[i]
  {
    file[..pos] + bytes + if pos + |bytes| < |file| then file[pos + |bytes|..] else []
  }

  /** Writing at the end of the file appends. */
  lemma WriteAtEndAppends(file: seq<byte>, bytes: seq<byte>)
    ensures WriteAt(file, |file|, bytes) == file + bytes
  {
    assert file[..|file|] == file;
  }

  /** The errors `WriteBuffer` records for a write of `size` bytes. */
  function WriteErrors(writeOk: bool, bytesWritten: nat, size: nat, lastError: nat): (m: seq<Option<string>>)
    ensures |m| == (if writeOk then 0 else 1) + (if bytesWritten == size then 0 else 1)
    ensures AllPresent(m)
  {
    (if writeOk then [] else [Some(MSG_WRITE_FAILED_CODE + NatString(lastError))]) +
    (if bytesWritten == size then [] else [Some(MSG_INCOMPLETE_WRITE)])
  }

  class Writer {
    /** The output queue `queue`. */
    const frames: Queue<Frame>
    /** `WriterErrors`. */
    const errors: Queue<string>
    const passThrough: bool
    var numberOfWrittenImages: nat
    /** Contents of `WriterFile` and its file pointer. */
    var file: seq<byte>
    var filePointer: nat

    ghost predicate Valid()
      reads this, frames, frames.slots, errors, errors.slots
    {
      frames.Valid() && errors.Valid() &&
      AllPresent(frames.Contents) && AllPresent(errors.Contents) &&
      filePointer <= |file|
    }

    /**
     * A writer after a successful `Initialize`: the file was created empty. The
     * constructor never sets the write counter, so it starts at `initialCount`.
     */
    constructor (passThroughEnable: bool, initialCount: nat)
      ensures Valid() && fresh(frames) && fresh(frames.slots) && fresh(errors) && fresh(errors.slots)
      ensures frames.Contents == [] && errors.Contents == []
      ensures passThrough == passThroughEnable && numberOfWrittenImages == initialCount
      ensures file == [] && filePointer == 0
    {
      frames := new Queue<Frame>();
      errors := new Queue<string>();
      passThrough := passThroughEnable;
      numberOfWrittenImages := initialCount;
      file, filePointer := [], 0;
    }

    method PushError(msg: string)
      requires Valid()
      modifies errors, errors.slots
      ensures Valid() && frames.Contents == old(frames.Contents)
      ensures errors.Contents == Pushed(old(errors.Contents), Some(msg))
    {
      var _ := errors.TryPush(Some(msg));
    }

    /**
     * Writes the image's bytes at the file pointer. `writeOk`, `bytesWritten`
     * and `lastError` are what `WriteFile` and `GetLastError` report.
     */
    method WriteBuffer(frame: Frame, writeOk: bool, bytesWritten: nat, lastError: nat)
      returns (ok: bool)
      requires Valid()
      requires bytesWritten <= frame.ImageSize()
      modifies this, errors, errors.slots
      ensures Valid() && frames.Contents == old(frames.Contents)
      ensures ok <==> writeOk && bytesWritten == frame.ImageSize()
      // the write is counted as soon as WriteFile succeeds, even when it is short
      ensures numberOfWrittenImages == old(numberOfWrittenImages) + (if writeOk then 1 else 0)
      ensures errors.Contents ==
                PushAll(old(errors.Contents), WriteErrors(writeOk, bytesWritten, frame.ImageSize(), lastError))
      ensures file == WriteAt(old(file), old(filePointer), frame.data[..bytesWritten])
      ensures filePointer == old(filePointer) + bytesWritten
    {
      file := WriteAt(file, filePointer, frame.data[..bytesWritten]);
      filePointer := filePointer + bytesWritten;
      ghost var e0 := errors.Contents;
      if writeOk {
        numberOfWrittenImages := numberOfWrittenImages + 1;
      } else {
        PushError(MSG_WRITE_FAILED_CODE + NatString(lastError));
      }
      ghost var e1 := errors.Contents;
      ok := writeOk;
      if bytesWritten != frame.ImageSize() {
        PushError(MSG_INCOMPLETE_WRITE);
        ok := false;
      }
      ghost var m := WriteErrors(writeOk, bytesWritten, frame.ImageSize(), lastError);
      if |m| == 2 {
        PushAllTwo(e0, m[0], m[1]);
      } else if |m| == 1 {
        PushAllOne(e0, m[0]);
      }
    }

    /**
     * The part of a pass that has an image `f`: write it, then forward it to
     * the output queue.
     */
    method WriteAndForward(f: Frame, writeOk: bool, bytesWritten: nat, lastError: nat)
      requires Valid()
      requires bytesWritten <= f.ImageSize()
      modifies this, frames, frames.slots, errors, errors.slots
      ensures Valid()
      ensures var written := writeOk && bytesWritten == f.ImageSize();
              // every popped image is forwarded, without its payload unless passing through
              frames.Contents ==
                Pushed(old(frames.Contents), Some(if passThrough then f else Freed(f))) &&
              numberOfWrittenImages == old(numberOfWrittenImages) + (if writeOk then 1 else 0) &&
              file == WriteAt(old(file), old(filePointer), f.data[..bytesWritten]) &&
              errors.Contents ==
                PushAll(old(errors.Contents),
                        WriteErrors(writeOk, bytesWritten, f.ImageSize(), lastError) +
                        (if written then [] else [Some(MSG_WRITE_OPERATION)]) +
                        (if old(|frames.Contents|) < SIZE then [] else [Some(MSG_PASS_THROUGH)]))
    {
      ghost var e0 := errors.Contents;
      ghost var full := |frames.Contents| == SIZE;
      var resWrite := WriteBuffer(f, writeOk, bytesWritten, lastError);
      ghost var m1 := WriteErrors(writeOk, bytesWritten, f.ImageSize(), lastError);
      ghost var e1 := errors.Contents;
      if !resWrite {
        PushError(MSG_WRITE_OPERATION);
      }
      ghost var m2 := if resWrite then [] else [Some(MSG_WRITE_OPERATION)];
      ghost var e2 := errors.Contents;
      assert e2 == PushAll(e1, m2) by {
        if !resWrite { PushAllOne(e1, Some(MSG_WRITE_OPERATION)); }
      }
      var out := if passThrough then f else Freed(f);
      var rest := frames.TryPush(Some(out));
      if rest.Some? {
        PushError(MSG_PASS_THROUGH);
      }
      ghost var m3: seq<Option<string>> := if !full then [] else [Some(MSG_PASS_THROUGH)];
      assert errors.Contents == PushAll(e2, m3) by {
        if full { PushAllOne(e2, Some(MSG_PASS_THROUGH)); }
      }
      PushAllConcat(e0, m1, m2);
      PushAllConcat(e0, m1 + m2, m3);
    }

    /**
     * One pass of `WriteBuffersContinuously`: `wait` is the upstream's
     * `WaitImages(1, 1000)`, `popped` its `GetImage()`.
     */
    method Iterate(wait: WaitStatus, popped: Option<Frame>,
                   writeOk: bool, bytesWritten: nat, lastError: nat)
      requires Valid()
      requires popped.Some? ==> bytesWritten <= popped.value.ImageSize()
      modifies this, frames, frames.slots, errors, errors.slots
      ensures Valid()
      ensures wait == WaitTimeout ==>
                errors.Contents == old(errors.Contents) && frames.Contents == old(frames.Contents) &&
                file == old(file) && numberOfWrittenImages == old(numberOfWrittenImages)
      ensures wait != WaitObject0 && wait != WaitTimeout ==>
                frames.Contents == old(frames.Contents) && file == old(file) &&
                numberOfWrittenImages == old(numberOfWrittenImages) &&
                errors.Contents == Pushed(old(errors.Contents),
                                          Some(if wait == WaitFailed then MSG_WAIT_FAILED else MSG_UNEXPECTED_WAIT))
      ensures wait == WaitObject0 && popped.None? ==>
                frames.Contents == old(frames.Contents) && file == old(file) &&
                numberOfWrittenImages == old(numberOfWrittenImages) &&
                errors.Contents == Pushed(old(errors.Contents), Some(MSG_POP_FAILED))
      ensures wait == WaitObject0 && popped.Some? ==>
                var f := popped.value;
                var written := writeOk && bytesWritten == f.ImageSize();
                // every popped image is forwarded, without its payload unless passing through
                frames.Contents ==
                  Pushed(old(frames.Contents), Some(if passThrough then f else Freed(f))) &&
                numberOfWrittenImages == old(numberOfWrittenImages) + (if writeOk then 1 else 0) &&
                file == WriteAt(old(file), old(filePointer), f.data[..bytesWritten]) &&
                errors.Contents ==
                  PushAll(old(errors.Contents),
                          WriteErrors(writeOk, bytesWritten, f.ImageSize(), lastError) +
                          (if written then [] else [Some(MSG_WRITE_OPERATION)]) +
                          (if old(|frames.Contents|) < SIZE then [] else [Some(MSG_PASS_THROUGH)]))
    {
      if wait == WaitObject0 {
        if popped.Some? {
          WriteAndForward(popped.value, writeOk, bytesWritten, lastError);
        } else {
          PushError(MSG_POP_FAILED);
        }
      } else if wait == WaitFailed {
        PushError(MSG_WAIT_FAILED);
      } else if wait != WaitTimeout {
        PushError(MSG_UNEXPECTED_WAIT);
      }
    }

    method GetImage() returns (img: Option<Frame>)
      requires Valid()
      modifies frames, frames.slots
      ensures Valid() && errors.Contents == old(errors.Contents)
      ensures old(|frames.Contents|) > 0 ==>
                img == old(frames.Contents[0]) && img.Some? && frames.Contents == old(frames.Contents[1..])
      ensures old(|frames.Contents|) == 0 ==> img.None? && frames.Contents == []
    {
      img := frames.TryPop();
    }

    method GetNumberOfAvailableImages() returns (n: nat)
      requires Valid()
      ensures n == |frames.Contents|
    {
      n := frames.GetCount();
    }

    method GetNumberOfErrors() returns (n: nat)
      requires Valid()
      ensures n == |errors.Contents|
    {
      n := errors.GetCount();
    }

    method WaitImages(n: nat, timeoutMilliseconds: nat, resetOk: bool, blocked: WaitStatus)
      returns (r: WaitStatus)
      requires Valid()
      modifies frames
      ensures Valid()
      ensures frames.Contents == old(frames.Contents) && errors.Contents == old(errors.Contents)
      ensures |frames.Contents| >= n ==> r == WaitObject0
      ensures |frames.Contents| < n && timeoutMilliseconds == 0 ==> r == WaitTimeout
      ensures |frames.Contents| < n && timeoutMilliseconds > 0 ==>
                r == (if resetOk then blocked else WaitFailed) && frames.pushCondition == 0
    {
      r := frames.Wait(n, timeoutMilliseconds, resetOk, blocked);
    }

    method GetError() returns (err: Option<string>)
      requires Valid()
      modifies errors, errors.slots
      ensures Valid() && frames.Contents == old(frames.Contents)
      ensures old(|errors.Contents|) > 0 ==>
                err == old(errors.Contents[0]) && errors.Contents == old(errors.Contents[1..])
      ensures old(|errors.Contents|) == 0 ==> err.None? && errors.Contents == []
    {
      err := errors.TryPop();
    }

    /** The oldest recorded error, or the empty string when none is queued. */
    method GetQueuedError() returns (msg: string)
      requires Valid()
      modifies errors, errors.slots
      ensures Valid() && frames.Contents == old(frames.Contents)
      ensures old(|errors.Contents|) > 0 ==>
                msg == old(errors.Contents[0]).value && errors.Contents == old(errors.Contents[1..])
      ensures old(|errors.Contents|) == 0 ==> msg == "" && errors.Contents == []
    {
      var err := errors.TryPopInto(None);
      if err.Some? {
        msg := err.value;
      } else {
        msg := "";
      }
    }

    /**
     * Truncates the file at offset 0 and drops every queued image. `pointerOk`
     * and `endOk` are the outcomes of `SetFilePointer` and `SetEndOfFile`.
     */
    method FlushImages(pointerOk: bool, endOk: bool, lastError: nat) returns (ok: bool)
      requires Valid()
      modifies this, frames, frames.slots, errors, errors.slots
      ensures Valid() && frames.Contents == []
      ensures numberOfWrittenImages == old(numberOfWrittenImages)
      ensures filePointer == if pointerOk then 0 else old(filePointer)
      ensures file == if endOk then old(file)[..filePointer] else old(file)
      ensures ok <==> pointerOk && endOk
      ensures ok ==> file == [] && errors.Contents == old(errors.Contents)
      ensures !pointerOk ==> errors.Contents == Pushed(old(errors.Contents), Some(MSG_SET_POINTER))
      ensures pointerOk && !endOk ==>
                errors.Contents == Pushed(old(errors.Contents), Some(MSG_SET_END + NatString(lastError)))
    {
      if pointerOk {
        filePointer := 0;
      }
      if endOk {
        file := file[..filePointer];
      }
      while true
        invariant Valid() && errors.Contents == old(errors.Contents)
        invariant numberOfWrittenImages == old(numberOfWrittenImages)
        invariant filePointer == (if pointerOk then 0 else old(filePointer))
        invariant file == (if endOk then old(file)[..filePointer] else old(file))
        decreases |frames.Contents|
      {
        var img := frames.TryPop();
        if img.None? {
          break;
        }
      }
      if !pointerOk {
        PushError(MSG_SET_POINTER);
        return false;
      }
      if !endOk {
        PushError(MSG_SET_END + NatString(lastError));
        return false;
      }
      ok := true;
    }
  }
}
