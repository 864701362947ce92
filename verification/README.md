# Capture worker model

A Dafny model of the per-device video capture worker of the `camera` application
(`VideoStreamThread` in `main.py`). Each worker launches an `ffmpeg` process that writes
raw BGR24 frames to its standard output. The worker reads whole frames of
`width * height * 3` bytes, drops frames that are short or all black, and limits how often
it sends frames to the display. When the process fails, it tears the process down, backs
off and spawns a new one, until it is stopped or its error budget (`retry_count * 10`) is
spent.

The model has four modules:

- `Bytes` (with `Options`) defines bytes, chunks, chunk concatenation and the "not all
  black" test (numpy's `frame.max() > 0`).
- `FrameAssembler` is the read loop that gathers one frame (main.py:71-82). The process's
  output during one frame is a `ReadTrace`: the results of the successive `read` calls,
  where an empty result is a read that returned nothing. The module proves what the loop
  gathers and when it gives up: after the 11th empty read in a row.
- `CaptureWorker` holds the worker's state: phase, `running`, `error_count`,
  `consecutive_errors`, `last_frame_time`, the process slot and a spawn counter. It defines
  the per-frame decision, the `except` and `finally` clauses, and `Step`, which applies one
  event. An event is a spawn that succeeds or fails, one turn of the streaming loop at a
  given clock time with that turn's reads, an exception inside the loop, or `stop()`.
- `WorkerTrace` folds `Step` over a sequence of events (`Run`) and proves the worker's
  promises about whole runs:
  - emitted frames respect the frame interval;
  - without a frame-rate limit, every good frame is delivered;
  - failed spawns exhaust the budget after exactly `retry_count * 10` attempts, with the
    backoff schedule;
  - no spawn happens after `stop()` or after exhaustion;
  - a stream that keeps falling short is respawned.

Where the code's behaviour may surprise a reader, the model follows the code:

- The budget is exhausted once `error_count >= retry_count * 10` (main.py:42).
- The read loop gives up on the 11th empty read in a row, because it tests
  `timeout_count > 10` (main.py:77). It does not give up on the 10th.
- More than 10 short frames in a row end the streaming loop (main.py:86-87). This path
  does not increment `error_count` and has no backoff sleep. The process is torn down in
  `finally` and a new one is spawned at once. So a device that opens but never delivers a
  whole frame is respawned without end (`WorkerTrace.SilentDeviceRespawns`).
- An all-black frame or a throttled frame is not emitted. Even so, it resets
  `consecutive_errors` to 0, because the reset on main.py:92 comes before both tests.

## Model

| member | source | states |
|---|---|---|
| FrameAssembler.Gather | main.py:73-82 | from any point of the read loop, the returned buffer is the concatenation of the reads made, the loop never gave up before its last read, and the frame is short exactly when the run of empty reads passed the limit |
| FrameAssembler.Assemble | main.py:71-82 | the frame is the concatenation of the reads in trace order. Every read was issued while the buffer was still short. The frame is short exactly when the last 11 reads came back empty. After every earlier read the empty-read counter was at most 10 |
| FrameAssembler.TrailingEmptyIsFinalRun | main.py:72-82 | the empty-read counter equals the length of the run of empty reads at the end, and the read before that run returned data |
| FrameAssembler.NoStallBeforeMeans | main.py:75-78 | the loop did not give up before its last read exactly when the counter stayed at or below 10 after every earlier read |
| FrameAssembler.GatherReadsInOrder | main.py:73-74 | the k-th read of the loop returns the k-th result of the trace, and every read is issued while the buffer is short |
| FrameAssembler.AssembledWithinFrame | main.py:73-81 | when no read returns more than the bytes still missing, the buffer never grows past `frame_size` |
| FrameAssembler.LogWithinStream | main.py:74-81 | what the reads gather is a prefix of all the bytes the trace carries, and all of them once the reads have run past the trace's end |
| FrameAssembler.NeverStallsFillsFrame | main.py:73-82 | a trace that carries at least a frame and never has more than 10 empty results in a row while the frame is short yields a frame of at least `frame_size` bytes |
| FrameAssembler.SteadyTraceYieldsFrame | main.py:71-82 | a trace that honours the requested sizes, carries at least a frame and has at most 10 empty results in a row while the frame is short yields exactly its first `frame_size` bytes |
| FrameAssembler.ShortTraceIsIncomplete | main.py:75-84 | a trace with fewer than `frame_size` bytes yields a short frame, which holds every byte of the trace when no read was empty |
| CaptureWorker.DefaultBudget | main.py:22-34 | a worker built with the constructor's defaults (`retry_count=3`) tolerates 30 errors and enters the spawn loop, and its frame interval takes effect because `max_fps=15` is positive |
| CaptureWorker.Launch | main.py:22-42 | a new worker starts running with zero counters, `last_frame_time` 0 and no process, and it enters the spawn loop exactly when `retry_count > 0` |
| CaptureWorker.Recover | main.py:111-141 | an exception adds one to both `error_count` and `consecutive_errors` and clears the process slot. The backoff is 500 ms exactly when `consecutive_errors` exceeds 5 and 100 ms otherwise. The loop continues exactly when running and the budget is not spent |
| CaptureWorker.FrameStep | main.py:69-109 | a short frame adds one to `consecutive_errors` and is never emitted. More than 10 in a row leave the loop without touching `error_count`, and otherwise a 100 ms pause follows. A whole frame resets `consecutive_errors`. A frame is emitted exactly when it has the right size, is not all black and the frame interval has passed, and then `last_frame_time` becomes its time |
| CaptureWorker.Step | main.py:36-144 | `error_count` rises by one exactly on a failed spawn or an exception while streaming. The spawn count rises exactly on a spawn attempt from the loop head. A returned worker stays returned. `stop` is never undone. An emitted frame came from a running, streaming turn, is deliverable and respects the interval |
| CaptureWorker.StepKeepsInv | main.py:36-141 | every event keeps the worker consistent: it holds a process exactly while streaming, only reaches the loop head while running and within budget, and never counts past the budget |
| WorkerTrace.Run | main.py:42-141 | over a run, the error and spawn counts never decrease and a stop is never undone. Every emitted frame has the right size and is not all black. `last_frame_time` is the time of the last emitted frame |
| WorkerTrace.RunKeepsInv | main.py:42-141 | a whole run keeps the worker consistent |
| WorkerTrace.EmissionsSpaced | main.py:95-106 | each emitted frame is at least one frame interval after the previous emission |
| WorkerTrace.ThrottledRate | main.py:95-106 | any `n + 1` frames emitted in one run span at least `n` frame intervals |
| WorkerTrace.EmittedWereAssembled | main.py:84-106 | every emitted frame is a frame assembled on the same turn |
| WorkerTrace.UnthrottledDeliversAll | main.py:92-106 | with `max_fps <= 0` and a clock that does not run backwards, the emitted frames are exactly the assembled frames of the right size that are not all black, in order |
| WorkerTrace.NoSpawnOnceFinished | main.py:42 | once the worker has left the loop head after a stop or with the budget spent, no process is ever spawned again |
| WorkerTrace.StopEndsOutput | main.py:143-144 | once `stop()` has cleared the running flag between two turns, no further frame is emitted and no process is spawned, whatever happens next |
| WorkerTrace.SilentWhenStopped | main.py:69 | a worker whose running flag is clear emits nothing |
| WorkerTrace.SpawnFailuresExhaust | main.py:42-129 | failed spawns from the loop head each cost one unit of the budget. The worker returns after exactly the remaining budget of attempts, with `error_count == retry_count * 10`. The backoff after the i-th failure is 500 ms once more than 5 errors are in a row and 100 ms before that |
| WorkerTrace.ExitedIsInert | main.py:42 | a returned worker stays returned, with unchanged counters and no output |
| WorkerTrace.ShortFramesRespawn | main.py:84-87 | short frames in a row end the streaming loop after the 11th. The process is torn down and the worker goes back to spawn, with `error_count` unchanged and nothing emitted |
| WorkerTrace.SilentCycleRespawns | main.py:60-87 | one spawn of a device that never delivers a whole frame brings the worker back to the loop head one spawn later, with `error_count` unchanged |
| WorkerTrace.SilentDeviceRespawns | main.py:42-87 | any number of such spawns leave the worker at the loop head, with `error_count` unchanged and one spawn each, so the budget never runs out |

## Left out

- The device path and the input format hint (main.py:22, 24, 32). They only feed the
  command line.
- Building the `ffmpeg` command line and launching it (main.py:46-65). These become the
  `SpawnOk` and `SpawnFail` events. The pipe buffer size is not modelled.
- Terminating, waiting for and killing the process (main.py:115-123, 132-140, 145-147).
  Tearing a process down is modelled as clearing the process slot.
- `stop()` also terminates the process (main.py:145-147). Reads from the terminated
  process return the bytes still buffered and then end of file; they do not raise. So
  after `stop()` the turn in progress normally ends on the short-frame path (main.py:84-90),
  and the loop test at main.py:69 then ends the loop. In the model, `Stop` only clears the
  running flag, and the next turn ends the loop without assembling a frame. The short
  frame's extra count in `consecutive_errors` is therefore not modelled. It has no effect,
  because the worker then returns.
- WorkerTrace.StopEndsOutput: the model's `Stop` falls only between two turns. In the
  source, a turn already in progress when `stop()` is called runs to its end and may still
  emit one more frame (main.py:105), because `running` is tested only at main.py:69.
- Threads. A `Stop` that arrives at the loop head is taken to come before the loop test,
  so no further spawn happens. The race where `stop()` lands between the test and
  `Popen` is not modelled.
- The diagnostic `print` (main.py:114).
- Floating-point time. The clock is a natural number supplied with each turn. The frame
  interval `1.0 / max_fps` is a natural-number `fpsInterval` in the same units, and it
  takes effect only when `max_fps > 0`.
- Sleeps. The 100 ms and 500 ms waits are recorded as each step's pause. The 10 ms wait
  after an empty read (main.py:79) is not recorded.
- numpy's copy, reshape and `ascontiguousarray` (main.py:99-102). A frame stays a byte
  sequence. The `try` at main.py:97-109 swallows any exception from the copy, the reshape,
  `frame.max()` or `frame_ready.emit`; the frame is then dropped and `last_frame_time`
  keeps its old value. The model covers this path only for `frame.max()` on an empty
  frame (`frame_size == 0`), where the frame is not emitted. Failures of numpy or of the
  signal on a non-empty frame are not modelled.
- The Qt signal (main.py:20, 105). An emitted frame is recorded in the step's outcome.
- Byte continuity between frames. Each streaming turn gets its own read trace, so bytes
  carried by the stream from one frame to the next are not tracked. A read that returns
  more than requested is appended, as the Python code would do. The frame then counts as
  the wrong size.
- `Fault` stands for any exception raised while streaming. What raises it is not modelled.
- The display widgets, the main window, staggered startup of several workers (the rest of
  `main.py`) and `setup.py`.
- Events that do not fit the current phase, such as a spawn result while streaming, change
  nothing.
