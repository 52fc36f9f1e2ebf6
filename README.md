# TransMatrix acquisition and display core, in Dafny

TransMatrix drives a transmission-matrix optics experiment. A GigE camera
fills a pipeline of worker stages: the source, a disk writer and an FFT
stage that keeps a sparse set of Fourier coefficients. The stages are
linked by one lock-free single-producer single-consumer ring queue of
uniquely owned items. Each stage has a second queue that records its
errors. Frames leave the pipeline through MATLAB helpers that transpose
them into column-major arrays. A full-screen DirectX engine presents the
frames buffered in shared memory. It has a frame divider, a stop-after-frame
rule, a signal event, and a DAQ trigger pulse that fires a fixed number of
frames after each update. Its parameter block is validated and completed
from an INI file. Two integer kernels compute images for a spatial light
modulator: the phase-ramp stack of `modulation_slm_fast` and the
eight-column ramps of the Blink SDK example.

The model has one module per source file:

| file | module | what it holds |
|---|---|---|
| `spsc_queue.dfy` | `SpscQueue` | the ring queue, as a class over a real slot array |
| `gige_source.dfy` | `GigeSource` | one pass of `ManageBuffers`, plus the getters, `FlushImages` and `Start` |
| `disk_writer.dfy` | `DiskWriter` | `WriteBuffer`, one worker iteration, `FlushImages` and the getters |
| `fft_processor.dfy` | `FftProcessor` | `ProcessBuffer` (modelled by the pure `Process`), one worker iteration and the getters |
| `fftw_def.dfy` | `FftwDef` | the `Complex` value type and `std::conj` |
| `fftw_r2c.dfy` | `FftwR2C` | the FFTW wrappers' sizes and size-checked copies |
| `fftw_c2c.dfy` | `FftwC2C` | the C2C wrapper's sized input buffer and its size-checked copy from real data |
| `mex_lib.dfy` | `MexLib` | `transpose`, `transfer_many` and `GetPvString` |
| `pulse.dfy` | `Pulse` | the pulse delay line and the DAQ task protocol |
| `communication.dfy` | `Communication` | the engine's per-frame pre- and post-present logic |
| `parameters.dfy` | `Parameters` | the parameter block, `CheckAndComplete` and the value setters |
| `modulation.dfy` | `Modulation` | `add` and the `mexFunction` kernel |
| `blink_example.dfy` | `BlinkExample` | `Generate_ramp_image` and `Simple_loop` |

These modules are shared:
- `Util`: Option, bytes and decimal text.
- `Pv`: the camera SDK's result codes and buffers.
- `IndexMath`: row-major positions.

Calls into the operating system, the camera SDK, FFTW, the DAQ driver, DirectX and the SLM SDK are
replaced by parameters that carry their outcome. These parameters include:
- `WriteFile`'s success and byte count;
- the stream's retrieve result;
- each DAQ call's acceptance, given as a function;
- the result of the blocking wait;
- `_kbhit()`, given as a function of the cycle.

The model runs each worker loop one iteration at a time, with the stop flag outside the model. The queue counters are unbounded naturals.

## Model

| member | source | states |
|---|---|---|
| SpscQueue.Slot | gige/gige_interface/gige_interface/spsc_queue.h:21-23 | a counter selects one of the 2^17 slots |
| SpscQueue.MaskIsRemainder | gige/gige_interface/gige_interface/spsc_queue.h:21-23 | on a 64-bit counter, masking with SIZE_MASK is the remainder by SIZE |
| SpscQueue.SlotsDistinct | gige/gige_interface/gige_interface/spsc_queue.h:84-87 | counters less than SIZE apart use distinct slots, so a push never overwrites a queued item |
| SpscQueue.PushAllKeepsPrefix | gige/gige_interface/gige_interface/spsc_queue.h:84-97 | a sequence of pushes keeps the queued items, then appends exactly as many new items as there is room for, in order, and refuses the rest |
| SpscQueue.PushAllConcat | gige/gige_interface/gige_interface/spsc_queue.h:81-98 | pushing `a` then `b` is pushing `a + b` |
| SpscQueue.DrainedIsSuffix | gige/gige_interface/gige_interface/spsc_queue.h:125-130 | `Clear` removes items only from the head |
| SpscQueue.DrainedAllPresent | gige/gige_interface/gige_interface/spsc_queue.h:125-130 | `Clear` empties a queue whose items are all non-empty pointers |
| SpscQueue.Queue.constructor | gige/gige_interface/gige_interface/spsc_queue.h:60-70 | both counters and the push condition start at 0, the event is unsignalled and the queue is empty |
| SpscQueue.Queue.TryPush | gige/gige_interface/gige_interface/spsc_queue.h:81-98 | keeps `0 <= PushCount - PopCount <= SIZE` and FIFO contents. Below capacity: the item is appended, the caller's pointer is emptied, PushCount grows by one, and the event is set iff `PushCondition > 0 && PushCount >= PushCondition`. When full: nothing changes and the caller keeps its object |
| SpscQueue.Queue.TryPopInto | gige/gige_interface/gige_interface/spsc_queue.h:100-110 | a non-empty queue hands over its oldest item and PopCount grows by one; an empty queue leaves the out-parameter, the counters and the slots as they were |
| SpscQueue.Queue.TryPop | gige/gige_interface/gige_interface/spsc_queue.h:112-123 | the oldest item, or an empty pointer from an empty queue |
| SpscQueue.Queue.Clear | gige/gige_interface/gige_interface/spsc_queue.h:125-130 | pops up to and including the first empty pointer, or everything |
| SpscQueue.Queue.GetCount | gige/gige_interface/gige_interface/spsc_queue.h:135-140 | the number of queued items, `PushCount - PopCount` |
| SpscQueue.Queue.Wait | gige/gige_interface/gige_interface/spsc_queue.h:142-191 | returns satisfied at once when n items are queued, and times out at once for timeout 0; neither early exit touches PushCondition. Once armed, every exit leaves PushCondition at 0 and returns WAIT_FAILED on a failed reset, else the wait's result |
| Pv.Freed | gige/disk_writer/disk_writer/diskwriter.cpp:140-142 | `Free()` drops the payload and keeps every other field |
| Pv.Elements | gige/fft_processor/fft_processor/fftprocessor.cpp:85-92 | the image bytes read as 8- or 16-bit elements, `size*8/bits` of them |
| Util.NatStringValue | gige/disk_writer/disk_writer/diskwriter.cpp:100 | the digits `std::to_string` writes read back as the number |
| GigeSource.FirstFailure | gige/gige_interface/gige_interface/gigesource.cpp:283-290 | the first refill iteration whose `QueueBuffer` fails, or none iff all succeed |
| GigeSource.Source.constructor | gige/gige_interface/gige_interface/gigesource.cpp:11-20 | both queues empty, no flag raised, nothing queued to the stream |
| GigeSource.Source.BeginManaging | gige/gige_interface/gige_interface/gigesource.cpp:268-269 | the loop starts with the stop flag clear and a flush pending |
| GigeSource.Source.Refill | gige/gige_interface/gige_interface/gigesource.cpp:273-297 | a pending flush queues buffers up to the stream maximum, then signals completion once and clears the flag. The first failed `QueueBuffer` ends the thread with EXIT_FAILURE and leaves the flag set |
| GigeSource.Source.HandleBuffer | gige/gige_interface/gige_interface/gigesource.cpp:316-344 | an OK image is pushed to the frame queue; a refused push records GENERIC_ERROR "Buffer queuing operation failed."; any other non-OK result is recorded unless it is ABORTED; exactly one new buffer is queued |
| GigeSource.Source.HandleRetrieval | gige/gige_interface/gige_interface/gigesource.cpp:302-352 | a retrieved buffer is handled as above. A timeout, or a failure while a flush is pending, records nothing. Any other failure records exactly that result |
| GigeSource.Source.Iterate | gige/gige_interface/gige_interface/gigesource.cpp:270-353 | one loop pass: the refill outcome and its count of `QueueBuffer` calls, then the retrieval's effect on both queues; frames in the queue always cover their header |
| GigeSource.Source.GetImage | gige/gige_interface/gige_interface/gigesource.cpp:361-364 | pops the oldest frame, or returns an empty pointer |
| GigeSource.Source.GetNumberOfAvailableImages | gige/gige_interface/gige_interface/gigesource.cpp:366-369 | the frame queue's length |
| GigeSource.Source.GetError | gige/gige_interface/gige_interface/gigesource.cpp:371-374 | pops the oldest error, or returns an empty pointer |
| GigeSource.Source.GetNumberOfErrors | gige/gige_interface/gige_interface/gigesource.cpp:376-379 | the error queue's length |
| GigeSource.Source.WaitImages | gige/gige_interface/gige_interface/gigesource.cpp:381-384 | the frame queue's `Wait` |
| GigeSource.Source.GetQueuedError | gige/gige_interface/gige_interface/gigesource.cpp:386-399 | the oldest queued error, removed, or an OK result when there is none |
| GigeSource.Source.FlushImages | gige/gige_interface/gige_interface/gigesource.cpp:401-430 | raises the flush flag, empties the frame queue even when the completion wait fails, and returns THREAD_ERROR "Buffer manager signal timed out." exactly in that case |
| GigeSource.Source.Start | gige/gige_interface/gige_interface/gigesource.cpp:189-231 | a stopped manager thread, a failed size query, a timed-out reflush (after a size change), or a failed reset, lock or start returns that error. A failed start unlocks the parameters again. Success iff every step succeeds, and then the parameters are locked |
| DiskWriter.WriteAt | gige/disk_writer/disk_writer/diskwriter.cpp:90 | writing at the file pointer overwrites the bytes there and extends the file as needed; the bytes before and after stay |
| DiskWriter.WriteAtEndAppends | gige/disk_writer/disk_writer/diskwriter.cpp:90 | a write at the end of the file appends |
| DiskWriter.WriteErrors | gige/disk_writer/disk_writer/diskwriter.cpp:93-108 | one error for a failed `WriteFile`, one for a short write |
| DiskWriter.Writer.constructor | gige/disk_writer/disk_writer/diskwriter.cpp:15-19 | the pass-through choice is saved; the file is created empty |
| DiskWriter.Writer.PushError | gige/disk_writer/disk_writer/diskwriter.cpp:197-200 | the message is pushed to the error queue |
| DiskWriter.Writer.WriteBuffer | gige/disk_writer/disk_writer/diskwriter.cpp:81-112 | the result is true iff `WriteFile` succeeded and wrote every byte. The write counter grows exactly when `WriteFile` reports success, even if the write is short. The written bytes land at the file pointer, and the errors are those of `WriteErrors` |
| DiskWriter.Writer.WriteAndForward | gige/disk_writer/disk_writer/diskwriter.cpp:133-150 | every popped frame is written and then forwarded, its payload freed unless passing through. A failed write adds "Write operation failed.", a full output queue adds "Pass-through queuing operation failed." |
| DiskWriter.Writer.Iterate | gige/disk_writer/disk_writer/diskwriter.cpp:125-170 | a timeout changes nothing. A failed or unexpected wait, or an empty pop, records exactly one error. Otherwise the frame is written and forwarded as above |
| DiskWriter.Writer.GetImage | gige/disk_writer/disk_writer/diskwriter.cpp:176-179 | pops the oldest forwarded frame, or returns an empty pointer |
| DiskWriter.Writer.GetNumberOfAvailableImages | gige/disk_writer/disk_writer/diskwriter.cpp:181-184 | the output queue's length |
| DiskWriter.Writer.GetNumberOfErrors | gige/disk_writer/disk_writer/diskwriter.cpp:186-189 | the error queue's length |
| DiskWriter.Writer.WaitImages | gige/disk_writer/disk_writer/diskwriter.cpp:191-194 | the output queue's `Wait` |
| DiskWriter.Writer.GetError | gige/disk_writer/disk_writer/diskwriter.cpp:202-205 | pops the oldest error, or returns an empty pointer |
| DiskWriter.Writer.GetQueuedError | gige/disk_writer/disk_writer/diskwriter.cpp:207-220 | the oldest error, removed, or the empty string |
| DiskWriter.Writer.FlushImages | gige/disk_writer/disk_writer/diskwriter.cpp:222-254 | moves the file pointer to 0 and truncates there, and always empties the output queue. Returns true iff both file calls succeed; otherwise it records the first failure's message |
| FftProcessor.ElementCountExact | gige/fft_processor/fft_processor/fftprocessor.cpp:79-81 | the 32-bit count `ImageSizeBytes*8/ImageBpp` is the exact pixel count below 2^29 bytes: the byte count at 8 bits, half of it at 16 |
| FftProcessor.ElementCountAsWritten | gige/fft_processor/fft_processor/fftprocessor.cpp:79-81 | the count as written, evaluated before the bit depth is checked; it has no value for a zero depth |
| FftProcessor.ZeroBitDepthHasNoCount | gige/fft_processor/fft_processor/fftprocessor.cpp:81-97 | a zero bit depth reaches the division although the switch would reject it |
| FftProcessor.Coefficient | gige/fft_processor/fft_processor/fftprocessor.cpp:121-142 | index k >= 0 selects `out[k]` and index -k selects `conj(out[k])`, both only when `k < SizeOut` |
| FftProcessor.ExtractAll | gige/fft_processor/fft_processor/fftprocessor.cpp:116-143 | all coefficients in filter order, or nothing as soon as one index is out of range |
| FftProcessor.ProcessOutcome | gige/fft_processor/fft_processor/fftprocessor.cpp:74-143 | a frame is extracted iff its depth is 8 or 16, its count equals the transform's input size and every index is in range. The extract then has one coefficient per index, in order, and the frame's timestamp |
| FftProcessor.Processor.constructor | gige/fft_processor/fft_processor/fftprocessor.cpp:17-30 | the transform is sized to width and height; the filter indices are saved |
| FftProcessor.Processor.PushError | gige/fft_processor/fft_processor/fftprocessor.cpp:229-232 | the message is pushed to the error queue |
| FftProcessor.Processor.ProcessBuffer | gige/fft_processor/fft_processor/fftprocessor.cpp:74-155 | a rejected frame records one error and pushes nothing: unsupported depth, a size mismatch with both sizes, or an index out of range. An extracted frame is pushed; a full output queue records the push error and returns false |
| FftProcessor.Processor.Iterate | gige/fft_processor/fft_processor/fftprocessor.cpp:168-202 | wait outcomes as for the disk writer; a failed `ProcessBuffer` adds "Process operation failed." |
| FftProcessor.Processor.GetImage | gige/fft_processor/fft_processor/fftprocessor.cpp:208-211 | pops the oldest extract, or returns an empty pointer |
| FftProcessor.Processor.GetNumberOfAvailableImages | gige/fft_processor/fft_processor/fftprocessor.cpp:213-216 | the output queue's length |
| FftProcessor.Processor.GetNumberOfErrors | gige/fft_processor/fft_processor/fftprocessor.cpp:218-221 | the error queue's length |
| FftProcessor.Processor.WaitImages | gige/fft_processor/fft_processor/fftprocessor.cpp:223-226 | the output queue's `Wait` |
| FftProcessor.Processor.GetError | gige/fft_processor/fft_processor/fftprocessor.cpp:234-237 | pops the oldest error, or returns an empty pointer |
| FftProcessor.Processor.GetQueuedError | gige/fft_processor/fft_processor/fftprocessor.cpp:239-252 | the oldest error, removed, or the empty string |
| FftProcessor.Processor.FlushImages | gige/fft_processor/fft_processor/fftprocessor.cpp:254-262 | always returns true and leaves the output queue empty |
| FftwDef.Conj | gige/fft_processor/fft_processor/fftw_wrapper_def.h:48 | the complex conjugate keeps the real part and negates the imaginary part |
| FftwDef.FromReal | gige/fft_processor/fft_processor/fftw_wrapper_c2c.h:75 | a real widened to complex has a zero imaginary part and is its own conjugate |
| FftwR2C.SpectrumSizeVsInput | gige/fft_processor/fft_processor/fftw_wrapper_r2c.cpp:54-55 | twice the half-spectrum size is the input size plus one or two extra columns, depending on the width's parity |
| FftwR2C.R2C.constructor | gige/fft_processor/fft_processor/fftw_wrapper_r2c.cpp:7-13 | no plans and no buffers |
| FftwR2C.R2C.Initialize | gige/fft_processor/fft_processor/fftw_wrapper_r2c.cpp:49-94 | stores width and height, sizes the input `height*width` and the output `height*(width/2+1)`; succeeds iff both plans exist and threading started |
| FftwR2C.R2C.Shutdown | gige/fft_processor/fft_processor/fftw_wrapper_r2c.cpp:21-47 | both plans and both buffers null, the sizes kept, valid again (so a second call is harmless) |
| FftwR2C.R2C.GetWidth | gige/fft_processor/fft_processor/fftw_wrapper_r2c.cpp:117-120 | the stored width |
| FftwR2C.R2C.GetHeight | gige/fft_processor/fft_processor/fftw_wrapper_r2c.cpp:122-125 | the stored height |
| FftwR2C.R2C.GetSizeIn | gige/fft_processor/fft_processor/fftw_wrapper_r2c.cpp:127-130 | height times width |
| FftwR2C.R2C.GetSizeOut | gige/fft_processor/fft_processor/fftw_wrapper_r2c.cpp:132-135 | height times `width/2+1` |
| FftwR2C.R2C.SetDataIn | gige/fft_processor/fft_processor/fftw_wrapper_r2c.h:64-74 | a count other than the input size returns false and leaves the buffer alone; otherwise each element is copied, widened to real, and true is returned |
| FftwR2C.R2C.GetDataIn | gige/fft_processor/fft_processor/fftw_wrapper_r2c.cpp:138-147 | reject-or-exact-copy of the input buffer into the target |
| FftwR2C.R2C.SetDataOut | gige/fft_processor/fft_processor/fftw_wrapper_r2c.cpp:149-159 | reject-or-exact-copy of the source into the output buffer |
| FftwR2C.R2C.GetDataOut | gige/fft_processor/fft_processor/fftw_wrapper_r2c.cpp:161-170 | reject-or-exact-copy of the output buffer into the target |
| FftwR2C.R2C.TransformForward | gige/fft_processor/fft_processor/fftw_wrapper_r2c.cpp:97-100 | the output buffer holds the supplied spectrum |
| FftwC2C.C2C.constructor | gige/fft_processor/fft_processor/fftw_wrapper_c2c.h:55-58 | the state after `Initialize`: `numel_in` is the requested size and `data_in` a fresh array of that many elements |
| FftwC2C.C2C.SetDataIn | gige/fft_processor/fft_processor/fftw_wrapper_c2c.h:65-78 | a count other than the input size returns false and leaves the buffer alone; otherwise each element's real part is the source value and its imaginary part 0 |
| MexLib.GetPvString | gige/gige_interface/gige_interface/gigesource_mex_lib.cpp:11-18 | the code string, then `" / "`, then the description |
| MexLib.GetPvStringSameCode | gige/gige_interface/gige_interface/gigesource_mex_lib.cpp:11-18 | for the same code, equal strings mean equal results |
| MexLib.Transposed | gige/gige_interface/gige_interface/gigesource_mex_lib.cpp:204-216 | the column-major copy has `W*H` elements |
| MexLib.TransposedAt | gige/gige_interface/gige_interface/gigesource_mex_lib.cpp:209-214 | `out[j*H + i] == in[i*W + j]` for every `i < H`, `j < W`, both positions below `W*H` |
| MexLib.TransposeTwice | gige/gige_interface/gige_interface/gigesource_mex_lib.cpp:204-216 | transposing W by H and then H by W gives back the first `W*H` elements |
| MexLib.Transpose | gige/gige_interface/gige_interface/gigesource_mex_lib.cpp:204-216 | the nested loops write exactly the transposed block at the offset and nothing else |
| MexLib.CoversElements | gige/gige_interface/gige_interface/gigesource_mex_lib.cpp:232-243 | a frame whose payload covers its header holds `W*H` elements of its depth |
| MexLib.DeliverFrame | gige/gige_interface/gige_interface/gigesource_mex_lib.cpp:242-246 | frame i lands transposed at offset `i*W*H`, its timestamp at `time[i]`; nothing outside that block and that timestamp is written |
| MexLib.TransferMany | gige/gige_interface/gige_interface/gigesource_mex_lib.cpp:218-248 | the popped frames are delivered in pop order. The call stops at the first empty pop, or at the first frame whose width, height or depth differs; that frame is gone from the queue, the rest stay queued, and the error names the cause. The host arrays are written only in the blocks and timestamps of the frames delivered |
| Pulse.AddPulse | dx11tut11_mod3/Engine/Engine/pulseclass.cpp:355-359 | sets the one flag `delay` frames ahead and nothing else |
| Pulse.Advance | dx11tut11_mod3/Engine/Engine/pulseclass.cpp:361-374 | every pending flag moves one frame closer and a clear flag enters last |
| Pulse.Run | dx11tut11_mod3/Engine/Engine/pulseclass.cpp:130-135 | one due flag per frame; the buffer keeps its size |
| Pulse.Cleared | dx11tut11_mod3/Engine/Engine/pulseclass.cpp:349 | a buffer of n clear flags |
| Pulse.DelayLine | dx11tut11_mod3/Engine/Engine/pulseclass.cpp:131-135 | from a cleared buffer of `d+1` flags, the pulse of frame j is due on frame `j+d` and on no other (the same frame when `d = 0`); the flag k frames ahead is set iff frame `d-k` frames ago was new |
| Pulse.RotationAdvance | dx11tut11_mod3/Engine/Engine/pulseclass.cpp:364-370 | clearing the current slot and moving the index one slot on is `Advance` of the buffer read from the index |
| Pulse.ReconfigureResult | dx11tut11_mod3/Engine/Engine/pulseclass.cpp:192-286 | reconfiguration succeeds iff every needed DAQ call is accepted, and then the task holds the wanted settings; each setting is always either the old or the wanted one |
| Pulse.ReconfigureSettled | dx11tut11_mod3/Engine/Engine/pulseclass.cpp:192-286 | with nothing changed, no call is made and the check succeeds |
| Pulse.TaskProtocol | dx11tut11_mod3/Engine/Engine/pulseclass.cpp:137-185 | a running task is stopped when a pulse is due or it is done. It is reconfigured exactly when idle and started only when a pulse is due. A false result is one of the done query, the stop or the start failing |
| Pulse.PulseGenerator.constructor | dx11tut11_mod3/Engine/Engine/pulseclass.cpp:31-98 | the current settings are copied from the parameters, the task is idle and the buffer holds `pulseDelayFrames+1` clear flags |
| Pulse.PulseGenerator.QueueCreate | dx11tut11_mod3/Engine/Engine/pulseclass.cpp:325-353 | a fresh buffer of `pulseDelayFrames+1` clear flags, index 0 |
| Pulse.PulseGenerator.QueueAdd | dx11tut11_mod3/Engine/Engine/pulseclass.cpp:355-359 | the pending pulses gain exactly the one `pulseDelayFrames mod size` frames ahead |
| Pulse.PulseGenerator.QueueNext | dx11tut11_mod3/Engine/Engine/pulseclass.cpp:361-374 | returns the flag due now, and the pending pulses advance by one frame; the index stays in the ring |
| Pulse.PulseGenerator.SendSettings | dx11tut11_mod3/Engine/Engine/pulseclass.cpp:192-286 | the task's settings become those `Reconfigure` gives |
| Pulse.PulseGenerator.CheckConfig | dx11tut11_mod3/Engine/Engine/pulseclass.cpp:188-306 | `Reconfigure`'s outcome. On success the buffer is rebuilt iff the delay changed or pulses were just enabled, and the enable state is recorded |
| Pulse.PulseGenerator.NextPulse | dx11tut11_mod3/Engine/Engine/pulseclass.cpp:130-135 | one `Step` of the delay line |
| Pulse.PulseGenerator.DriveTask | dx11tut11_mod3/Engine/Engine/pulseclass.cpp:137-183 | the task state, settings and buffer follow `TaskOutcome` and `Reconfigure` |
| Pulse.PulseGenerator.Process | dx11tut11_mod3/Engine/Engine/pulseclass.cpp:117-186 | disabled: only the enable state is recorded, and the result is true. Enabled: delay-line step, then task protocol, then the pending pulses, which are rebuilt exactly when a successful check rebuilds them |
| Communication.NextFrameIndexInRing | dx11tut11_mod3/Engine/Engine/communicationclass.cpp:412-419 | the next index stays in `[0, numberOfFrames)` and is `(index+1) mod numberOfFrames` |
| Communication.VisitInOrder | dx11tut11_mod3/Engine/Engine/communicationclass.cpp:412-419 | from slot 0 the ring is visited in order |
| Communication.VisitWraps | dx11tut11_mod3/Engine/Engine/communicationclass.cpp:412-419 | after `numberOfFrames` moves the index is back at 0 |
| Communication.DividerCountdown | dx11tut11_mod3/Engine/Engine/communicationclass.cpp:273-295 | with c cycles to wait, the next `c+1` running cycles load exactly once, on the last, which reloads the counter to `divider-1` |
| Communication.DividerPeriod | dx11tut11_mod3/Engine/Engine/communicationclass.cpp:273-295 | with a positive divider d, one frame is loaded every d presents |
| Communication.SingleFrameMode | dx11tut11_mod3/Engine/Engine/communicationclass.cpp:273 | with a divider of 0 or less, every running cycle is a load cycle |
| Communication.Communicator.constructor | dx11tut11_mod3/Engine/Engine/communicationclass.cpp:28-30 | a ring of `bufferFrameSize` frames of `frameWidth*frameHeight` bytes |
| Communication.Communicator.LoadFrame | dx11tut11_mod3/Engine/Engine/communicationclass.cpp:303-327 | with every pointer set, the frame at offset `bufferFrameIndex*bytesPerFrame` goes to the texture. It returns false without flagging an update if a pointer is missing or the texture refuses the frame |
| Communication.Communicator.PreProcess | dx11tut11_mod3/Engine/Engine/communicationclass.cpp:252-301 | a start resets the divider, and also keeps the start time when it is at frame 0. On a load cycle past `stopAfterFrame` with a positive divider it marks the last frame instead of loading, and a load cycle reloads the divider. Other running cycles count down. A failed load returns false before the reload |
| Communication.Communicator.PostProcess | dx11tut11_mod3/Engine/Engine/communicationclass.cpp:329-395 | a failed pulse step returns false at once. A handled update counts the frame, moves the index on, and sets the last frame when the divider is 0 or less. The signal is raised iff last frame, signal frame reached or signal requested. A successful raise clears `signalNow`, and the last frame clears `run` |
| Parameters.CompleteSucceeds | dx11tut11_mod3/Engine/Engine/parameterclass.cpp:51-91 | the check passes iff adapter, monitor >= 0, screen sizes and buffer size > 0, and each of the frame and render pairs is all zero or all nonzero |
| Parameters.CompleteResult | dx11tut11_mod3/Engine/Engine/parameterclass.cpp:66-89 | on success every dimension is nonzero; a zero frame size comes from the screen, a zero render size from the completed frame, and the others are kept |
| Parameters.CompleteIdempotent | dx11tut11_mod3/Engine/Engine/parameterclass.cpp:66-89 | a second check of a completed block passes and changes nothing |
| Parameters.CompleteFailure | dx11tut11_mod3/Engine/Engine/parameterclass.cpp:51-91 | a failure never touches the render size, and touches nothing when the display or the frame pair is at fault |
| Parameters.Strtol | dx11tut11_mod3/Engine/Engine/parameterclass.cpp:144 | a value that is read lies in the range of `long` |
| Parameters.StrtolReads | dx11tut11_mod3/Engine/Engine/parameterclass.cpp:144-148 | `strtol` consumes input iff a digit follows the white space and the optional sign |
| Parameters.StrtolOfIntString | dx11tut11_mod3/Engine/Engine/parameterclass.cpp:144 | any integer written in decimal, followed by a non-digit, is read back saturated to `long` |
| Parameters.SetIntFromChar | dx11tut11_mod3/Engine/Engine/parameterclass.cpp:139-154 | succeeds iff `strtol` consumes input; on failure the target is kept |
| Parameters.SetIntRoundTrip | dx11tut11_mod3/Engine/Engine/parameterclass.cpp:139-154 | every 32-bit value written in decimal is stored back as itself |
| Parameters.SetBoolFromChar | dx11tut11_mod3/Engine/Engine/parameterclass.cpp:155-182 | succeeds iff the text is "true" or "false" in any letter case, or an integer; "true" sets the flag; on failure the target is kept |
| Parameters.SetBoolFalse | dx11tut11_mod3/Engine/Engine/parameterclass.cpp:163-167 | every spelling of "false" clears the flag |
| Parameters.SetBoolOfInteger | dx11tut11_mod3/Engine/Engine/parameterclass.cpp:170-181 | an integer sets the flag iff it is nonzero |
| Parameters.SetTimeFromChar | dx11tut11_mod3/Engine/Engine/parameterclass.cpp:183-188 | always fails and keeps the target |
| Parameters.Parameters.constructor | dx11tut11_mod3/Engine/Engine/parameterclass.cpp:11-23 | every field is zero except `signalNow`, `pulseNumber = 1` and the two pulse times |
| Parameters.Parameters.CheckAndComplete | dx11tut11_mod3/Engine/Engine/parameterclass.cpp:51-91 | the sizes become what `Complete` gives and no other field changes |
| Modulation.CDiv | tm11b/modulation_slm_fast.cpp:116 | C division truncates toward zero: the magnitude is the quotient of the magnitudes, and a nonzero quotient is negative iff the signs differ |
| Modulation.CMod | tm11b/modulation_slm_fast.cpp:70 | C remainder: the magnitude is the remainder of the magnitudes, with the dividend's sign |
| Modulation.CDivMod | tm11b/modulation_slm_fast.cpp:70-86 | `(a/b)*b + a%b == a` in C |
| Modulation.SignedChar | tm11b/modulation_slm_fast.cpp:136 | the `(char)` cast gives the value in [-128, 128) congruent mod 256 |
| Modulation.Wrap | tm11b/modulation_slm_fast.cpp:116 | the byte congruent mod 256 |
| Modulation.AddToChar | tm11b/modulation_slm_fast.cpp:146 | `+=` on a `char` is addition mod 256 |
| Modulation.Add | tm11b/modulation_slm_fast.cpp:13-22 | `v[i] == (x[i] + y[i]) mod 256` for every `i < n`, even when v aliases x or y, and the rest of v is kept |
| Modulation.CheckArguments | tm11b/modulation_slm_fast.cpp:28-57 | accepted iff there are 4 int32 arguments, the first two are scalars, the last two have equal sizes and at most 2 outputs are asked for; a wrong count gives "Input should be four parameters." |
| Modulation.CheckArgumentsMessages | tm11b/modulation_slm_fast.cpp:28-57 | every rejection carries one of the five messages, and a non-int32 argument gives the type message |
| Modulation.CentreIsHalfPlusOne | tm11b/modulation_slm_fast.cpp:67-86 | for even and odd sizes alike the centre is `size/2 + 1` |
| Modulation.ShiftFrequencies | tm11b/modulation_slm_fast.cpp:88-92 | every `xf[n]` drops by the x centre and every `yf[n]` by the y centre, in place |
| Modulation.PixelOrigin | tm11b/modulation_slm_fast.cpp:109-148 | pixel (0,0) of every frame is 0 |
| Modulation.PixelSeparable | tm11b/modulation_slm_fast.cpp:106-150 | a pixel is the mod 256 sum of its column-only and row-only parts |
| Modulation.AddToWrapped | tm11b/modulation_slm_fast.cpp:141-148 | adding the `char` row step to the wrapped column value gives the wrapped sum |
| Modulation.RampRow | tm11b/modulation_slm_fast.cpp:114-117 | row 0 gets `(char)(256*x*xf/X)` in every column, and nothing else changes |
| Modulation.CopyBlock | tm11b/modulation_slm_fast.cpp:119-123 | `CopyMemory` copies X bytes to a later row, and nothing else changes |
| Modulation.CopyRowZero | tm11b/modulation_slm_fast.cpp:119-123 | afterwards rows 1 to Y-1 are copies of row 0, row 0 is unchanged and nothing outside the frame changes |
| Modulation.XFrame | tm11b/modulation_slm_fast.cpp:111-123 | after the x pass over one frame, every row holds the x ramp and is a copy of row 0; a frame without rows is not written |
| Modulation.YSteps | tm11b/modulation_slm_fast.cpp:133-137 | `y_arr[y]` is `(char)(256*y*yf/Y)` for every row |
| Modulation.AddToRow | tm11b/modulation_slm_fast.cpp:143-147 | one row gets `+= step` in every column, and nothing else changes |
| Modulation.AddRows | tm11b/modulation_slm_fast.cpp:140-148 | every row of the frame gets its own step added, and nothing else changes |
| Modulation.YFrame | tm11b/modulation_slm_fast.cpp:132-148 | after the y pass over one frame, each byte is its old value plus its row's `char` step, and nothing outside the frame changes |
| Modulation.YShiftFinishes | tm11b/modulation_slm_fast.cpp:106-150 | an x-ramped frame shifted by the y steps holds the full phase ramp |
| Modulation.XPass | tm11b/modulation_slm_fast.cpp:106-125 | every frame holds its x ramp |
| Modulation.YPass | tm11b/modulation_slm_fast.cpp:127-150 | every x-ramped frame becomes its full phase ramp |
| Modulation.StackSize | tm11b/modulation_slm_fast.cpp:95-104 | N frames of X by Y bytes take `X*Y*N` bytes |
| Modulation.Modulate | tm11b/modulation_slm_fast.cpp:59-150 | the frequencies are shifted in place and the result is a fresh `X*Y*N` array. There, byte `n*X*Y + y*X + x` is `(trunc(256*x*xf[n]/X) + trunc(256*y*yf[n]/Y)) mod 256`, computed with the shifted frequencies |
| Modulation.RowZeroInBoundsIff | tm11b/modulation_slm_fast.cpp:109-117 | the row-0 writes of the x pass stay inside the output iff N = 0, X = 0 or Y > 0 |
| Modulation.ZeroHeightOverruns | tm11b/modulation_slm_fast.cpp:109-117 | with X = 4, Y = 0 and one frequency pair the output is empty, yet the x pass writes into it |
| BlinkExample.Level | Meadowlark/SDK/Blink_SDK_example.cpp:64-75 | `(int)(k*255/8 + 0.5)` is `(255k+4) div 8` |
| BlinkExample.LevelRange | Meadowlark/SDK/Blink_SDK_example.cpp:52-75 | the eight levels rise strictly from 0 to 223 |
| BlinkExample.RampPixelPeriodic | Meadowlark/SDK/Blink_SDK_example.cpp:70 | the pattern repeats every eight columns |
| BlinkExample.DecreasingMirrors | Meadowlark/SDK/Blink_SDK_example.cpp:70-74 | within each period the decreasing ramp is the increasing one read backwards |
| BlinkExample.RampRow | Meadowlark/SDK/Blink_SDK_example.cpp:68-76 | a row of `width` pixels, each given by its column |
| BlinkExample.RampImageAt | Meadowlark/SDK/Blink_SDK_example.cpp:66-77 | the pixel at row i, column j of the row-major image depends on j only |
| BlinkExample.GenerateRampImage | Meadowlark/SDK/Blink_SDK_example.cpp:54-80 | the first `width*height` bytes become the ramp image in row-major order, and the rest are kept |
| BlinkExample.SimpleLoop | Meadowlark/SDK/Blink_SDK_example.cpp:87-126 | the writes alternate ramp1, ramp2, and the loop stops at the first failed write. True iff every write succeeded, and then the loop ended on a key press before a cycle, after whole cycles only |

## Left out

- Threads, events, memory barriers, `volatile` flags and `Sleep`: each queue is modelled sequentially. The recheck after `ResetEvent` in `Wait` then always finds the condition still unmet.
- The `size_t` wrap-around of the queue counters: they are unbounded naturals. `MaskIsRemainder` covers the mask on a 64-bit counter.
- The worker loops' stop flags: each worker is one iteration (`Iterate`); `Sleep(1)` after an error has no effect here.
- Camera, stream and device glue: `GigE_Source::Initialize`, `Shutdown`, `Stop`, `SelectDevice`, `ConnectToDevice`, `OpenStream`, `ConfigureStream`, and the draining of the stream at the start of a flush. The stream is represented only by the count of `QueueBuffer` calls.
- GigeSource.Source.Start: the stream's `AbortQueuedBuffers` call has no modelled effect.
- `DiskWriter::Initialize`, `Shutdown` and the file-open failure, and `FFTProcessor::Initialize`'s thread start and `Shutdown`. The constructors model the state after a successful initialisation.
- DiskWriter.Writer.constructor: the write counter is never initialised in the source, so the model takes its start value as a parameter.
- FFTW itself: plans, wisdom, threading and execution. `TransformForward` takes the computed spectrum as a parameter. Complex values are pairs of reals, so floating-point rounding is not modelled.
- `TransformBackward`, `GetDataInPtr` and `GetDataOutPtr`: pointer accessors and the inverse plan call, which have nothing to state without FFTW.
- FftwR2C.R2C.SetDataIn and FftwC2C.C2C.SetDataIn: the cast to `Real` is exact on reals, while `double` would be exact for 8- and 16-bit pixels anyway.
- GigeSource.Source.HandleBuffer: an image buffer the SDK reports as OK is assumed to hold all the bytes its header announces; the same assumption is required of `HandleRetrieval` and `Iterate`. Other buffers are handled without it, as in the source.
- MexLib.TransferMany: every queued image is assumed to hold the bytes its header announces. This holds for the camera source's queue and for a pass-through disk writer. A disk writer that frees its buffers also queues them, and reading a freed buffer is outside this model.
- The MEX binding: `GetPvString(const mxArray*)`, the mxArray converters, `mexErrMsgTxt`'s abort, and the assignment of `plhs[0]`. `TransferMany` and `CheckArguments` return their error instead of aborting.
- Modulation.Modulate: X and Y are required to be non-negative, because a negative size makes the MEX allocation fail before the kernel runs.
- Modulation.Modulate: xf and yf are required to be distinct arrays, because the source receives them as two separate MATLAB inputs.
- Modulation.Ramp: `256*x*xf[n]` is computed exactly, while in the source a 32-bit overflow of that product is undefined behaviour.
- The `new int[Y]` row-step array is never freed in the source; the model does not track memory.
- Modulation.CheckArguments: `nlhs == 2` is accepted, as it is in the source, although the message says one output is expected.
- BlinkExample.RampPixel: `j & 0x07` is written `j % 8`, which is the same for the unsigned `size_t` column.
- BlinkExample.SimpleLoop: `_kbhit()` is a function of the cycle that is true by cycle `limit`, so that the loop terminates. `Consume_keystrokes`, `puts` and the progress `printf` are output only. The SDK's `Write_overdrive_image` is a success oracle.
- The Blink example's `main` and `Precalculate_and_loop`, and the other SLM SDK calls.
- DirectX, window and shared-memory code, including `CommunicationClass::Initialize` beyond its two sizes. Also `SaveTime`, which records floating-point present times, and the `GetSystemTime` start-time capture, of which only the clearing of `keepRunTime` is modelled.
- Communication.Communicator.PostProcess: `pulseOk` is the result of `PulseClass::Process`, so the engine's two classes are not composed.
- The DAQ calls in `PulseClass::Initialize`: the constructor models a successful initialisation. Also `WriteError` and `ReportError`, which only log.
- The null check after `new bool[...]` in `QueueCreate`: `new` throws rather than returning null, so that branch cannot be reached.
- Pulse.PulseGenerator.QueueCreate and the methods that call it: `pulseDelayFrames >= 0` is required. A negative delay gives a queue size of zero or less, for which `%` by the size in `QueueAdd` is undefined.
- Pulse.PulseGenerator.Process: the source ignores `CheckConfig`'s result, and so does the model; the failure is visible only in the state.
- The pulse times are reals compared only for equality; no floating-point arithmetic is done on them.
- `ParameterClass::Parse`, `ini_parse`, `ValueHandler` and the field list in `parameters.def`, which is not part of this model. Also the `double` setter, which relies on `strtod`.
- Parameters.Parameters.constructor: only the fields the engine model reads are modelled, and the pulse defaults are those of a build with triggering enabled.
- Parameters.Strtol: `errno` is not modelled, and `long` is taken as 32 bits, as on Windows.

## Findings

| source | as written | input that shows it | evidently intended | confidence | as-written member | corrected member |
|---|---|---|---|---|---|---|
| gige/fft_processor/fft_processor/fftprocessor.cpp:81 | the element count `(ImageSizeBytes*8)/ImageBpp` is computed before the bit-depth switch | a buffer reporting 0 bits per pixel: division by zero | reject unsupported depths before dividing | not executed | FftProcessor.ZeroBitDepthHasNoCount | FftProcessor.Processor.ProcessBuffer |
| tm11b/modulation_slm_fast.cpp:114-117 | the x pass writes row 0 of each frame whether or not the frame has rows | X = 4, Y = 0, xf = yf = [1]: four bytes are written into an empty output array | skip frames without rows | not executed | Modulation.ZeroHeightOverruns | Modulation.XFrame |
