/** The per-device capture worker (`VideoStreamThread`, main.py:18-141): its counters,
    the per-frame decision, the exception path with its backoff, and the outer retry loop,
    driven by an abstract trace of events instead of a subprocess, a clock and sleeps. */
module CaptureWorker {
  import opened Options
  import opened Bytes
  import opened FrameAssembler

  /** The worker's constructor arguments, with the constructor's defaults of 15 frames per
      second and a retry count of 3. `fpsInterval` is the frame interval `1/max_fps`
      expressed in clock units; it only takes effect when `maxFps` is positive. */
  datatype Config = Config(width: nat, height: nat, fpsInterval: nat, maxFps: int := 15, retryCount: int := 3)

  /** More consecutive short frames than this end the streaming loop. */
  const MaxConsecutiveErrors: nat := 10
  /** Pause after a short frame, in milliseconds. */
  const ShortFramePause: nat := 100
  /** Backoff after an isolated error, in milliseconds. */
  const ShortBackoff: nat := 100
  /** Backoff once errors pile up, in milliseconds. */
  const LongBackoff: nat := 500
  /** The long backoff is chosen once `consecutiveErrors` exceeds this. */
  const LongBackoffAfter: nat := 5

  /** Bytes in one frame: three interleaved samples per pixel. */
  function FrameSize(c: Config): nat
  {
    c.width * c.height * 3
  }

  /** The minimum spacing between two emitted frames; no throttling without a frame rate. */
  function FrameInterval(c: Config): nat
  {
    if c.maxFps > 0 then c.fpsInterval else 0
  }

  /** The outer loop runs only while fewer errors than this have been counted. */
  function RetryLimit(c: Config): int
  {
    c.retryCount * 10
  }

  /** Where control is in `run`: at the head of the outer loop about to spawn, inside the
      streaming loop with a live process, or returned. */
  datatype Phase = Ready | Streaming | Exited

  /** The worker's state. `spawns` counts the processes started so far and `process` is the
      slot holding the live one, named by its spawn number. */
  datatype Worker = Worker(
    phase: Phase,
    running: bool,
    errorCount: nat,
    consecutiveErrors: nat,
    lastFrameTime: nat,
    spawns: nat,
    process: Option<nat>)

  /** What the environment does next: a spawn attempt succeeds or fails, the streaming loop
      takes one turn at clock time `now` during which the reads return `results`, a read
      raises, or `stop` clears the running flag. */
  datatype Event = SpawnOk | SpawnFail | Tick(now: nat, results: ReadTrace) | Fault | Stop

  /** A frame stamped with the clock time of the turn that assembled it; an emitted frame
      carries the time it was sent. */
  datatype Stamped = Stamped(time: nat, frame: Chunk)

  /** The result of one event: the new state, the frame assembled on this turn (if any),
      the frame emitted (if any) and the time slept afterwards in milliseconds. */
  datatype Outcome = Outcome(worker: Worker, assembled: Option<Stamped>, emitted: Option<Stamped>, pause: nat)

  /** A frame may be emitted only if it has the exact size and is not all black. */
  predicate Deliverable(c: Config, f: Chunk)
  {
    |f| == FrameSize(c) && NotAllZero(f)
  }

  /** The states `run` can be in: the slot holds a process exactly while streaming, and it
      is the one spawned last; the loop head is reached only while running and within the
      error budget; the error count never passes the budget; and a streaming worker has not
      yet seen too many short frames. */
  predicate Inv(c: Config, w: Worker)
  {
    && (w.phase == Streaming <==> w.process.Some?)
    && (w.process.Some? ==> w.spawns > 0 && w.process.value == w.spawns - 1)
    && (w.phase == Ready ==> w.running)
    && (w.phase != Exited ==> w.errorCount < RetryLimit(c))
    && (w.errorCount == 0 || w.errorCount <= RetryLimit(c))
    && (w.phase == Streaming ==> w.consecutiveErrors <= MaxConsecutiveErrors)
  }

  /** The `finally` clause and the outer loop's test: the process slot is cleared, then
      the loop goes round again or `run` returns. */
  function EndIteration(c: Config, w: Worker): Worker
  {
    w.(process := None, phase := if w.running && w.errorCount < RetryLimit(c) then Ready else Exited)
  }

  /** A constructed worker entering `run`, up to the first loop test. */
  function Launch(c: Config): (w: Worker)
    ensures Inv(c, w)
    ensures w.running && w.process == None && w.spawns == 0
    ensures w.errorCount == 0 && w.consecutiveErrors == 0 && w.lastFrameTime == 0
    ensures w.phase == Ready <==> c.retryCount > 0
    ensures w.phase == Exited <==> c.retryCount <= 0
  {
    EndIteration(c, Worker(Ready, true, 0, 0, 0, 0, None))
  }

  /** With the default retry count the worker tolerates 30 errors, and a worker built with
      the defaults enters the spawn loop. */
  lemma DefaultBudget(width: nat, height: nat, fpsInterval: nat)
    ensures RetryLimit(Config(width, height, fpsInterval)) == 30
    ensures FrameInterval(Config(width, height, fpsInterval)) == fpsInterval
    ensures Launch(Config(width, height, fpsInterval)).phase == Ready
  {
  }

  /** The delay before the next attempt, from the number of errors in a row. */
  function Backoff(consecutive: nat): nat
  {
    if consecutive > LongBackoffAfter then LongBackoff else ShortBackoff
  }

  /** The `except` clause followed by `finally`: both counters go up by one, the process is
      torn down and the backoff is chosen from the new consecutive count. */
  function Recover(c: Config, w: Worker): (o: Outcome)
    ensures o.worker.errorCount == w.errorCount + 1
    ensures o.worker.consecutiveErrors == w.consecutiveErrors + 1
    ensures o.pause == ShortBackoff || o.pause == LongBackoff
    ensures o.pause == LongBackoff <==> o.worker.consecutiveErrors > LongBackoffAfter
    ensures o.worker.process == None && o.worker.phase != Streaming
    ensures o.worker.phase == Ready <==> w.running && o.worker.errorCount < RetryLimit(c)
    ensures o.emitted == None && o.worker.lastFrameTime == w.lastFrameTime
    ensures o.worker.spawns == w.spawns && o.worker.running == w.running
  {
    var w' := w.(errorCount := w.errorCount + 1, consecutiveErrors := w.consecutiveErrors + 1);
    Outcome(EndIteration(c, w'), None, None, Backoff(w'.consecutiveErrors))
  }

  /** One turn of the streaming loop while running: assemble a frame from this turn's
      reads, then count a short frame as an error (leaving the loop after too many), or
      reset the count and emit the frame if the throttle window has passed and it is not
      all black. */
  function FrameStep(c: Config, w: Worker, now: nat, results: ReadTrace): (o: Outcome)
    ensures o.assembled == Some(Stamped(now, Assemble(FrameSize(c), results).frame))
    ensures o.worker.errorCount == w.errorCount && o.worker.spawns == w.spawns
    ensures o.worker.running == w.running
    ensures var f := Assemble(FrameSize(c), results).frame;
      |f| != FrameSize(c) ==>
        && o.worker.consecutiveErrors == w.consecutiveErrors + 1
        && o.emitted == None
        && (o.worker.consecutiveErrors > MaxConsecutiveErrors ==> o.worker.process == None && o.worker.phase != Streaming && o.pause == 0)
        && (o.worker.consecutiveErrors <= MaxConsecutiveErrors ==> o.worker.process == w.process && o.worker.phase == w.phase && o.pause == ShortFramePause)
    ensures var f := Assemble(FrameSize(c), results).frame;
      |f| == FrameSize(c) ==>
        o.worker.consecutiveErrors == 0 && o.worker.process == w.process && o.worker.phase == w.phase && o.pause == 0
    ensures var f := Assemble(FrameSize(c), results).frame;
      o.emitted.Some? <==> Deliverable(c, f) && now - w.lastFrameTime >= FrameInterval(c)
    ensures o.emitted.Some? ==> o.emitted == o.assembled && o.worker.lastFrameTime == now
    ensures o.emitted.None? ==> o.worker.lastFrameTime == w.lastFrameTime
  {
    var f := Assemble(FrameSize(c), results).frame;
    var got := Stamped(now, f);
    if |f| != FrameSize(c) then
      var w' := w.(consecutiveErrors := w.consecutiveErrors + 1);
      if w'.consecutiveErrors > MaxConsecutiveErrors then Outcome(EndIteration(c, w'), Some(got), None, 0)
      else Outcome(w', Some(got), None, ShortFramePause)
    else
      var w' := w.(consecutiveErrors := 0);
      if now - w.lastFrameTime >= FrameInterval(c) && Deliverable(c, f) then
        Outcome(w'.(lastFrameTime := now), Some(got), Some(got), 0)
      else
        Outcome(w', Some(got), None, 0)
  }

  /** The event raises an exception inside the outer loop's `try`. */
  predicate Raises(w: Worker, e: Event)
  {
    (e.SpawnFail? && w.phase == Ready) || (e.Fault? && w.phase == Streaming)
  }

  /** The event starts a new iteration of the outer loop (a spawn attempt). */
  predicate Attempts(w: Worker, e: Event)
  {
    (e.SpawnOk? || e.SpawnFail?) && w.phase == Ready
  }

  /** One event applied to the worker. Events that do not fit the current phase change
      nothing. */
  function Step(c: Config, w: Worker, e: Event): (o: Outcome)
    ensures o.worker.errorCount == w.errorCount + (if Raises(w, e) then 1 else 0)
    ensures o.worker.spawns == w.spawns + (if Attempts(w, e) then 1 else 0)
    ensures Raises(w, e) ==>
      && o.worker.consecutiveErrors == w.consecutiveErrors + 1
      && (o.pause == LongBackoff <==> o.worker.consecutiveErrors > LongBackoffAfter)
      && (o.pause == ShortBackoff <==> o.worker.consecutiveErrors <= LongBackoffAfter)
    ensures e.SpawnOk? && w.phase == Ready ==> o.worker.phase == Streaming && o.worker.consecutiveErrors == 0
    ensures w.phase == Exited ==> o.worker.phase == Exited && o.emitted == None
    ensures !w.running ==> !o.worker.running
    ensures o.emitted.Some? ==>
      && e.Tick? && w.phase == Streaming && w.running
      && o.emitted.value.time == e.now
      && Deliverable(c, o.emitted.value.frame)
      && e.now - w.lastFrameTime >= FrameInterval(c)
      && o.worker.lastFrameTime == e.now
      && o.assembled == o.emitted
    ensures o.emitted.None? ==> o.worker.lastFrameTime == w.lastFrameTime
    ensures o.assembled.Some? ==> e.Tick? && w.phase == Streaming && w.running && o.assembled.value.time == e.now
  {
    match e
    case Stop =>
      var w' := w.(running := false);
      Outcome(if w.phase == Ready then EndIteration(c, w') else w', None, None, 0)
    case SpawnOk =>
      if w.phase == Ready then
        Outcome(w.(phase := Streaming, process := Some(w.spawns), spawns := w.spawns + 1, consecutiveErrors := 0), None, None, 0)
      else Outcome(w, None, None, 0)
    case SpawnFail =>
      if w.phase == Ready then Recover(c, w.(spawns := w.spawns + 1))
      else Outcome(w, None, None, 0)
    case Fault =>
      if w.phase == Streaming then Recover(c, w)
      else Outcome(w, None, None, 0)
    case Tick(now, results) =>
      if w.phase != Streaming then Outcome(w, None, None, 0)
      else if !w.running then Outcome(EndIteration(c, w), None, None, 0)
      else FrameStep(c, w, now, results)
  }

  /** Every event keeps the worker within the states `run` can be in. */
  lemma StepKeepsInv(c: Config, w: Worker, e: Event)
    requires Inv(c, w)
    ensures Inv(c, Step(c, w, e).worker)
  {
  }
}
