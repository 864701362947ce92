/** The capture worker over a whole run: a sequence of events folded through `Step`, with
    what it promises about emitted frames, error counting and retries. */
module WorkerTrace {
  import opened Options
  import opened Bytes
  import opened FrameAssembler
  import opened CaptureWorker

  /** What a run produced: the final state, every frame assembled and every frame emitted
      (in order, stamped with their clock times), and the pause taken after each event. */
  datatype Trace = Trace(final: Worker, assembled: seq<Stamped>, emitted: seq<Stamped>, pauses: seq<nat>)

  /** The emission of one step, if any, as a sequence of length at most one. */
  function AsSeq(o: Option<Stamped>): seq<Stamped>
  {
    if o.Some? then [o.value] else []
  }

  /** The worker driven through `events` from state `w`. */
  function Run(c: Config, w: Worker, events: seq<Event>): (t: Trace)
    ensures |t.pauses| == |events|
    ensures w.errorCount <= t.final.errorCount && w.spawns <= t.final.spawns
    ensures !w.running ==> !t.final.running
    ensures forall i :: 0 <= i < |t.emitted| ==> Deliverable(c, t.emitted[i].frame)
    ensures t.final.lastFrameTime == if t.emitted == [] then w.lastFrameTime else t.emitted[|t.emitted| - 1].time
    decreases |events|
  {
    if events == [] then Trace(w, [], [], [])
    else
      var o := Step(c, w, events[0]);
      var t := Run(c, o.worker, events[1..]);
      Trace(t.final, AsSeq(o.assembled) + t.assembled, AsSeq(o.emitted) + t.emitted, [o.pause] + t.pauses)
  }

  /** A run never leaves the states `run` can be in. */
  lemma {:induction false} RunKeepsInv(c: Config, w: Worker, events: seq<Event>)
    requires Inv(c, w)
    ensures Inv(c, Run(c, w, events).final)
    decreases |events|
  {
    if events != [] {
      StepKeepsInv(c, w, events[0]);
      RunKeepsInv(c, Step(c, w, events[0]).worker, events[1..]);
    }
  }

  /** The emission times keep the throttle gap: each is at least `gap` after the one
      before, and the first at least `gap` after `from`. */
  predicate Spaced(from: nat, gap: nat, es: seq<Stamped>)
    decreases |es|
  {
    es == [] || (es[0].time >= from + gap && Spaced(es[0].time, gap, es[1..]))
  }

  /** Frames are emitted no closer together than the frame interval, measured from the
      last emission before the run. */
  lemma {:induction false} EmissionsSpaced(c: Config, w: Worker, events: seq<Event>)
    ensures Spaced(w.lastFrameTime, FrameInterval(c), Run(c, w, events).emitted)
    decreases |events|
  {
    if events != [] {
      var o := Step(c, w, events[0]);
      EmissionsSpaced(c, o.worker, events[1..]);
      var rest := Run(c, o.worker, events[1..]).emitted;
      if o.emitted.Some? {
        assert (AsSeq(o.emitted) + rest)[1..] == rest;
      } else {
        assert AsSeq(o.emitted) + rest == rest;
      }
    }
  }

  /** In a spaced sequence the j-th time is at least `j + 1` gaps after the start. */
  lemma {:induction false} SpacedFromStart(from: nat, gap: nat, es: seq<Stamped>, j: nat)
    requires Spaced(from, gap, es) && j < |es|
    ensures es[j].time >= from + (j + 1) * gap
    decreases j
  {
    if j > 0 {
      SpacedFromStart(es[0].time, gap, es[1..], j - 1);
    }
  }

  /** The rate bound: any two emissions `j - i` apart are at least `j - i` gaps apart in time. */
  lemma {:induction false} SpacedWindow(from: nat, gap: nat, es: seq<Stamped>, i: nat, j: nat)
    requires Spaced(from, gap, es) && i < j < |es|
    ensures es[j].time - es[i].time >= (j - i) * gap
    decreases i
  {
    if i == 0 {
      SpacedFromStart(es[0].time, gap, es[1..], j - 1);
    } else {
      SpacedWindow(es[0].time, gap, es[1..], i - 1, j - 1);
    }
  }

  /** With throttling in force, `n + 1` frames of one run span at least `n` frame intervals. */
  lemma ThrottledRate(c: Config, w: Worker, events: seq<Event>, i: nat, j: nat)
    requires i < j < |Run(c, w, events).emitted|
    ensures Run(c, w, events).emitted[j].time - Run(c, w, events).emitted[i].time >= (j - i) * FrameInterval(c)
  {
    EmissionsSpaced(c, w, events);
    SpacedWindow(w.lastFrameTime, FrameInterval(c), Run(c, w, events).emitted, i, j);
  }

  /** Every emitted frame is one that was assembled on the same turn. */
  lemma {:induction false} EmittedWereAssembled(c: Config, w: Worker, events: seq<Event>)
    ensures forall e :: e in Run(c, w, events).emitted ==> e in Run(c, w, events).assembled
    decreases |events|
  {
    if events != [] {
      EmittedWereAssembled(c, Step(c, w, events[0]).worker, events[1..]);
    }
  }

  /** The deliverable frames of a sequence of assembled frames, in order. */
  function DeliverableOnly(c: Config, es: seq<Stamped>): (r: seq<Stamped>)
    ensures |r| <= |es|
    ensures forall i :: 0 <= i < |r| ==> Deliverable(c, r[i].frame) && r[i] in es
    decreases |es|
  {
    if es == [] then []
    else if Deliverable(c, es[0].frame) then [es[0]] + DeliverableOnly(c, es[1..])
    else DeliverableOnly(c, es[1..])
  }

  /** The clock never runs backwards: every turn's time is at least `t` and at least the
      time of every earlier turn. */
  predicate ClockFrom(t: nat, events: seq<Event>)
    decreases |events|
  {
    events == [] ||
    (if events[0].Tick? then events[0].now >= t && ClockFrom(events[0].now, events[1..])
     else ClockFrom(t, events[1..]))
  }

  /** The deliverable part of one step's assembled frame, if any. */
  function KeepDeliverable(c: Config, x: Option<Stamped>): Option<Stamped>
  {
    if x.Some? && Deliverable(c, x.value.frame) then x else None
  }

  lemma DeliverableOnlyCons(c: Config, x: Option<Stamped>, rest: seq<Stamped>)
    ensures DeliverableOnly(c, AsSeq(x) + rest) == AsSeq(KeepDeliverable(c, x)) + DeliverableOnly(c, rest)
  {
    if x.Some? {
      assert (AsSeq(x) + rest)[1..] == rest;
    } else {
      assert AsSeq(x) + rest == rest;
    }
  }

  /** Without a frame-rate limit, one turn whose clock has not gone back past the last
      emission emits exactly the deliverable frame it assembled. */
  lemma StepUnthrottled(c: Config, w: Worker, e: Event, t: nat)
    requires c.maxFps <= 0
    requires w.lastFrameTime <= t && (e.Tick? ==> e.now >= t)
    ensures Step(c, w, e).emitted == KeepDeliverable(c, Step(c, w, e).assembled)
    ensures Step(c, w, e).worker.lastFrameTime <= if e.Tick? then e.now else t
  {
  }

  /** Without a frame-rate limit and with a clock that does not run backwards, every
      assembled frame of the right size that is not all black is emitted, and nothing else. */
  lemma {:induction false} UnthrottledDeliversAll(c: Config, w: Worker, t: nat, events: seq<Event>)
    requires c.maxFps <= 0
    requires w.lastFrameTime <= t && ClockFrom(t, events)
    ensures Run(c, w, events).emitted == DeliverableOnly(c, Run(c, w, events).assembled)
    decreases |events|
  {
    if events != [] {
      var o := Step(c, w, events[0]);
      var t' := if events[0].Tick? then events[0].now else t;
      StepUnthrottled(c, w, events[0], t);
      UnthrottledDeliversAll(c, o.worker, t', events[1..]);
      DeliverableOnlyCons(c, o.assembled, Run(c, o.worker, events[1..]).assembled);
    }
  }

  /** The worker can no longer start an attempt: it has left the loop head and either
      `stop` was called or the error budget is spent. */
  predicate Finished(c: Config, w: Worker)
  {
    w.phase != Ready && (!w.running || w.errorCount >= RetryLimit(c))
  }

  /** Once stopped or out of budget, no process is ever spawned again. */
  lemma {:induction false} NoSpawnOnceFinished(c: Config, w: Worker, events: seq<Event>)
    requires Inv(c, w) && Finished(c, w)
    ensures Run(c, w, events).final.spawns == w.spawns
    ensures Finished(c, Run(c, w, events).final)
    decreases |events|
  {
    if events != [] {
      var o := Step(c, w, events[0]);
      StepKeepsInv(c, w, events[0]);
      NoSpawnOnceFinished(c, o.worker, events[1..]);
    }
  }

  /** After `stop`, no frame is emitted and no process is spawned, whatever happens next. */
  lemma StopEndsOutput(c: Config, w: Worker, events: seq<Event>)
    requires Inv(c, w)
    ensures Run(c, w, [Stop] + events).emitted == []
    ensures Run(c, w, [Stop] + events).final.spawns == w.spawns
    ensures !Run(c, w, [Stop] + events).final.running
  {
    var w' := Step(c, w, Stop).worker;
    assert ([Stop] + events)[1..] == events;
    StepKeepsInv(c, w, Stop);
    NoSpawnOnceFinished(c, w', events);
    SilentWhenStopped(c, w', events);
  }

  /** A worker whose running flag is clear emits nothing. */
  lemma {:induction false} SilentWhenStopped(c: Config, w: Worker, events: seq<Event>)
    requires !w.running
    ensures Run(c, w, events).emitted == []
    decreases |events|
  {
    if events != [] {
      SilentWhenStopped(c, Step(c, w, events[0]).worker, events[1..]);
    }
  }

  /** Every event in the sequence is a failed spawn. */
  predicate AllSpawnFail(events: seq<Event>)
  {
    forall i :: 0 <= i < |events| ==> events[i] == SpawnFail
  }

  /** Failed spawns from the loop head: each one costs one unit of the error budget and
      one attempt, the backoff grows after five in a row, and once the budget is spent the
      worker returns and ignores the rest. */
  lemma {:induction false} SpawnFailuresExhaust(c: Config, w: Worker, events: seq<Event>)
    requires Inv(c, w) && w.phase == Ready
    requires AllSpawnFail(events) && |events| >= RetryLimit(c) - w.errorCount
    ensures Run(c, w, events).final.phase == Exited
    ensures Run(c, w, events).final.errorCount == RetryLimit(c)
    ensures Run(c, w, events).final.spawns == w.spawns + (RetryLimit(c) - w.errorCount)
    ensures forall i :: 0 <= i < RetryLimit(c) - w.errorCount ==>
      Run(c, w, events).pauses[i] == (if w.consecutiveErrors + i + 1 > LongBackoffAfter then LongBackoff else ShortBackoff)
    decreases |events|
  {
    var o := Step(c, w, events[0]);
    var rest := events[1..];
    StepKeepsInv(c, w, events[0]);
    if o.worker.phase == Ready {
      SpawnFailuresExhaust(c, o.worker, rest);
    } else {
      ExitedIsInert(c, o.worker, rest);
    }
  }

  /** A returned worker stays returned, and its counters and output stay as they are. */
  lemma {:induction false} ExitedIsInert(c: Config, w: Worker, events: seq<Event>)
    requires w.phase == Exited
    ensures Run(c, w, events).final.phase == Exited
    ensures Run(c, w, events).final.errorCount == w.errorCount
    ensures Run(c, w, events).final.spawns == w.spawns
    ensures Run(c, w, events).emitted == [] && Run(c, w, events).assembled == []
    decreases |events|
  {
    if events != [] {
      ExitedIsInert(c, Step(c, w, events[0]).worker, events[1..]);
    }
  }

  /** One event, then the rest of the run. */
  lemma RunCons(c: Config, w: Worker, e: Event, rest: seq<Event>)
    ensures Run(c, w, [e] + rest).final == Run(c, Step(c, w, e).worker, rest).final
    ensures Run(c, w, [e] + rest).emitted == AsSeq(Step(c, w, e).emitted) + Run(c, Step(c, w, e).worker, rest).emitted
  {
  }

  /** Regrouping a concatenation of three runs of emissions. */
  lemma Regroup(x: seq<Stamped>, m: seq<Stamped>, t: seq<Stamped>, lhs: seq<Stamped>, rhs: seq<Stamped>)
    requires lhs == x + (m + t) && rhs == x + m
    ensures lhs == rhs + t
  {
  }

  /** Running two event sequences one after the other is running their concatenation. */
  lemma {:induction false} RunAppend(c: Config, w: Worker, a: seq<Event>, b: seq<Event>)
    ensures Run(c, w, a + b).final == Run(c, Run(c, w, a).final, b).final
    ensures Run(c, w, a + b).emitted == Run(c, w, a).emitted + Run(c, Run(c, w, a).final, b).emitted
    decreases |a|
  {
    if a == [] {
      assert a + b == b;
    } else {
      var e := a[0];
      var w1 := Step(c, w, e).worker;
      assert a == [e] + a[1..];
      assert a + b == [e] + (a[1..] + b);
      RunCons(c, w, e, a[1..] + b);
      RunCons(c, w, e, a[1..]);
      RunAppend(c, w1, a[1..], b);
      var mid := Run(c, w1, a[1..]);
      Regroup(AsSeq(Step(c, w, e).emitted), mid.emitted, Run(c, mid.final, b).emitted,
              Run(c, w, a + b).emitted, Run(c, w, a).emitted);
    }
  }

  /** Every event is a streaming turn whose reads carry less than one frame. */
  predicate ShortTicks(c: Config, events: seq<Event>)
  {
    forall i :: 0 <= i < |events| ==> events[i].Tick? && |Concat(events[i].results)| < FrameSize(c)
  }

  /** A stream that keeps falling short of a frame (the process has stopped writing or
      died) ends the streaming loop after more than `MaxConsecutiveErrors` short frames in
      a row, tears the process down and goes back to spawn a new one, without counting
      anything against the error budget and without emitting a frame. */
  lemma {:induction false} ShortFramesRespawn(c: Config, w: Worker, events: seq<Event>)
    requires Inv(c, w) && w.phase == Streaming && w.running
    requires ShortTicks(c, events) && |events| == MaxConsecutiveErrors + 1 - w.consecutiveErrors
    ensures Run(c, w, events).final.phase == Ready
    ensures Run(c, w, events).final.process == None
    ensures Run(c, w, events).final.errorCount == w.errorCount
    ensures Run(c, w, events).final.spawns == w.spawns
    ensures Run(c, w, events).emitted == []
    decreases |events|
  {
    var e := events[0];
    ShortTraceIsIncomplete(FrameSize(c), e.results);
    var o := Step(c, w, e);
    assert o.worker.consecutiveErrors == w.consecutiveErrors + 1;
    if o.worker.consecutiveErrors <= MaxConsecutiveErrors {
      assert ShortTicks(c, events[1..]) by {
        assert forall i :: 0 <= i < |events[1..]| ==> events[1..][i] == events[i + 1];
      }
      ShortFramesRespawn(c, o.worker, events[1..]);
    } else {
      assert events[1..] == [];
    }
  }

  /** One spawn of a device that never delivers a whole frame: the spawn succeeds and
      then every turn's reads fall short, until the worker gives up on the process. */
  predicate SilentCycle(c: Config, cycle: seq<Event>)
  {
    |cycle| == MaxConsecutiveErrors + 2 && cycle[0] == SpawnOk && ShortTicks(c, cycle[1..])
  }

  /** Event sequences run one after another. */
  function Flatten(cycles: seq<seq<Event>>): (es: seq<Event>)
    decreases |cycles|
  {
    if cycles == [] then [] else cycles[0] + Flatten(cycles[1..])
  }

  /** One silent spawn brings the worker back to the loop head one spawn later, with the
      error count untouched and nothing emitted. */
  lemma SilentCycleRespawns(c: Config, w: Worker, cycle: seq<Event>)
    requires Inv(c, w) && w.phase == Ready && SilentCycle(c, cycle)
    ensures Inv(c, Run(c, w, cycle).final)
    ensures Run(c, w, cycle).final.phase == Ready
    ensures Run(c, w, cycle).final.errorCount == w.errorCount
    ensures Run(c, w, cycle).final.spawns == w.spawns + 1
    ensures Run(c, w, cycle).emitted == []
  {
    var turns := cycle[1..];
    assert cycle == [SpawnOk] + turns;
    var w1 := Step(c, w, SpawnOk).worker;
    StepKeepsInv(c, w, SpawnOk);
    ShortFramesRespawn(c, w1, turns);
    RunCons(c, w, SpawnOk, turns);
    RunKeepsInv(c, w, cycle);
  }

  /** A device that opens but never delivers a whole frame is respawned without end:
      every such spawn returns the worker to the loop head with the error count untouched,
      so the retry budget never runs out. */
  lemma {:induction false} SilentDeviceRespawns(c: Config, w: Worker, cycles: seq<seq<Event>>)
    requires Inv(c, w) && w.phase == Ready
    requires forall i :: 0 <= i < |cycles| ==> SilentCycle(c, cycles[i])
    ensures Run(c, w, Flatten(cycles)).final.phase == Ready
    ensures Run(c, w, Flatten(cycles)).final.errorCount == w.errorCount
    ensures Run(c, w, Flatten(cycles)).final.spawns == w.spawns + |cycles|
    ensures Run(c, w, Flatten(cycles)).emitted == []
    decreases |cycles|
  {
    if cycles != [] {
      SilentCycleRespawns(c, w, cycles[0]);
      var w2 := Run(c, w, cycles[0]).final;
      assert forall i :: 0 <= i < |cycles[1..]| ==> cycles[1..][i] == cycles[i + 1];
      SilentDeviceRespawns(c, w2, cycles[1..]);
      RunAppend(c, w, cycles[0], Flatten(cycles[1..]));
    }
  }
}
