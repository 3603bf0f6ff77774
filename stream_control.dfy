/** The stream session of app/stream_handler.py: the module globals
    `ffmpeg_process`, `monitoring_thread` and `stop_event`, and the three
    functions that change them. The encoder and the monitor thread are
    abstract: a process is running or has exited, a thread is alive or has
    finished. Operations run one after another; what they ask of the
    outside world is recorded as effects. */
module StreamControl {
  import opened Wrappers

  /** A spawned encoder; `running` is `poll() is None`. */
  datatype Process = Process(pid: nat, running: bool)

  /** The upload monitor thread; `alive` is `is_alive()`. */
  datatype Monitor = Monitor(alive: bool)

  /** How `wait(timeout=5)` after `terminate()` ends: the process exits, the
      wait times out, or some other error is raised. */
  datatype StopOutcome = Exits | TimesOut | Raises

  /** What the session asks of the outside world, in order. */
  datatype Effect =
    | MakeTempDir
    | Terminate(pid: nat)
    | Kill(pid: nat)
    | SetStop
    | ClearStop
    | ClearBucket
    | ClearOutput
    | JoinMonitor
    | StartMonitor
    | SpawnEncoder(date: string)

  /** `stop_ffmpeg()` on a given encoder: the encoder afterwards and the
      effects issued. */
  function StopEncoder(p: Option<Process>, outcome: StopOutcome): (r: (Option<Process>, seq<Effect>))
    ensures r.0 == None || r.0 == p
    ensures r.1 == [] <==> !(p.Some? && p.value.running)
  {
    if p.Some? && p.value.running then
      var pid := p.value.pid;
      (None, [Terminate(pid)] + (if outcome == TimesOut then [Kill(pid)] else []))
    else (p, [])
  }

  /** Without an encoder, or with one that has already exited, `stop_ffmpeg`
      changes nothing and issues nothing. */
  lemma StopWithoutRunningEncoder(p: Option<Process>, outcome: StopOutcome)
    requires p.None? || !p.value.running
    ensures StopEncoder(p, outcome) == (p, [])
  {
  }

  /** With a running encoder, `stop_ffmpeg` terminates it first, kills it
      exactly when the wait times out, and forgets it on every path. */
  lemma StopRunningEncoder(pid: nat, outcome: StopOutcome)
    ensures var r := StopEncoder(Some(Process(pid, true)), outcome);
            && r.0 == None
            && r.1[0] == Terminate(pid)
            && (Kill(pid) in r.1 <==> outcome == TimesOut)
            && |r.1| <= 2
  {
  }

  /** Stopping twice is stopping once: the second call finds nothing. */
  lemma StopIsIdempotent(p: Option<Process>, first: StopOutcome, second: StopOutcome)
    ensures var r := StopEncoder(p, first);
            StopEncoder(r.0, second) == (r.0, [])
  {
  }

  class Session {
    /** `ffmpeg_process` */
    var encoder: Option<Process>
    /** `monitoring_thread` */
    var monitor: Option<Monitor>
    /** `stop_event.is_set()` */
    var stopSet: bool
    /** Everything the session has asked of the outside world. */
    var effects: seq<Effect>

    /** The monitor loop runs while the stop flag is clear, so a live
        monitor thread never sees it set. */
    ghost predicate Valid()
      reads this
    {
      monitor.Some? && monitor.value.alive ==> !stopSet
    }

    /** The module's initial globals: no encoder, no monitor, flag clear. */
    constructor ()
      ensures Valid()
      ensures encoder == None && monitor == None && !stopSet && effects == []
    {
      encoder := None;
      monitor := None;
      stopSet := false;
      effects := [];
    }

    /** The encoder exits on its own. */
    method EncoderExits()
      modifies this
      requires encoder.Some?
      ensures encoder == Some(Process(old(encoder).value.pid, false))
      ensures monitor == old(monitor) && stopSet == old(stopSet) && effects == old(effects)
    {
      encoder := Some(Process(encoder.value.pid, false));
    }

    /** `stop_ffmpeg()` */
    method StopFfmpeg(outcome: StopOutcome)
      modifies this
      ensures var stop := StopEncoder(old(encoder), outcome);
              encoder == stop.0 && effects == old(effects) + stop.1
      ensures monitor == old(monitor) && stopSet == old(stopSet)
    {
      if encoder.Some? && encoder.value.running {
        var pid := encoder.value.pid;
        effects := effects + [Terminate(pid)];
        if outcome == TimesOut {
          effects := effects + [Kill(pid)];
        }
        encoder := None;
      }
    }

    /** `monitoring_thread.join()` on a live monitor: its loop sees the stop
        flag set and ends, so the join returns. */
    method Join()
      modifies this
      requires stopSet && monitor.Some? && monitor.value.alive
      ensures monitor == Some(Monitor(false)) && effects == old(effects) + [JoinMonitor]
      ensures encoder == old(encoder) && stopSet == old(stopSet)
    {
      monitor := Some(Monitor(false));
      effects := effects + [JoinMonitor];
    }

    /** `start_stream(date)`: `outcome` says how stopping the old encoder
        ends, `spawned` the pid of the new encoder, or `None` when spawning
        it raises. The temporary folder is made first; the old encoder is
        stopped and the flag set before the folders are cleared; the flag
        is cleared again before the new monitor and encoder start. When
        spawning raises, the encoder is what stopping left: nothing, or an
        old encoder that had already exited. */
    method StartStream(date: string, outcome: StopOutcome, spawned: Option<nat>)
      modifies this
      requires Valid()
      ensures Valid()
      ensures var stop := StopEncoder(old(encoder), outcome);
              effects == old(effects) + [MakeTempDir] + stop.1 + [SetStop, ClearBucket, ClearOutput]
                         + (if old(monitor).Some? && old(monitor).value.alive then [JoinMonitor] else [])
                         + [ClearStop, StartMonitor, SpawnEncoder(date)]
      ensures encoder == (if spawned.Some? then Some(Process(spawned.value, true))
                          else StopEncoder(old(encoder), outcome).0)
      ensures monitor == Some(Monitor(true)) && !stopSet
    {
      effects := effects + [MakeTempDir];
      StopFfmpeg(outcome);
      stopSet := true;
      effects := effects + [SetStop, ClearBucket, ClearOutput];
      if monitor.Some? && monitor.value.alive {
        Join();
      }
      stopSet := false;
      monitor := Some(Monitor(true));
      effects := effects + [ClearStop, StartMonitor, SpawnEncoder(date)];
      if spawned.Some? {
        encoder := Some(Process(spawned.value, true));
      }
    }

    /** `stop_stream()`: the encoder is stopped and the flag set; a live
        monitor is joined and forgotten, a finished one is kept. */
    method StopStream(outcome: StopOutcome)
      modifies this
      requires Valid()
      ensures Valid()
      ensures var stop := StopEncoder(old(encoder), outcome);
              var wasAlive := old(monitor).Some? && old(monitor).value.alive;
              && encoder == stop.0
              && effects == old(effects) + stop.1 + [SetStop] + (if wasAlive then [JoinMonitor] else [])
              && monitor == (if wasAlive then None else old(monitor))
      ensures stopSet
      ensures encoder.None? || !encoder.value.running
      ensures monitor.None? || !monitor.value.alive
    {
      StopFfmpeg(outcome);
      stopSet := true;
      effects := effects + [SetStop];
      if monitor.Some? && monitor.value.alive {
        Join();
        monitor := None;
      }
    }
  }

  /** A full session: after `stop_stream` nothing is left running, whatever
      the outcomes, and a second `stop_stream` issues only the flag again. */
  method StartThenStop(date: string, spawned: Option<nat>, o1: StopOutcome, o2: StopOutcome, o3: StopOutcome)
    returns (s: Session)
    ensures s.Valid() && s.stopSet && s.encoder == None && s.monitor == None
    ensures var n := |s.effects|; n >= 1 && s.effects[n - 1] == SetStop
  {
    s := new Session();
    s.StartStream(date, o1, spawned);
    s.StopStream(o2);
    s.StopStream(o3);
  }
}
