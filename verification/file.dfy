/** The file-watch trigger of src/file.rs (`FileProcess`).

    Two activities share one boolean "dirty" flag. The watcher receives
    events, classifies them, and sets the flag for every event that should
    fire. The runner owns the managed process: it spawns it once, then on
    every wake-up checks on it and, when the flag is set, clears the flag
    and restarts the process.

    Threads, the mutex around the flag, the event channel and the sleeps
    are not modelled. Each activity's loop body is a step function over the
    flag, and a run of the whole system is any sequence of those steps
    (`Action`), which covers every interleaving the two threads can produce.
    Whether the mutex is poisoned, and every operating-system report, is an
    input of the step that observes it.
 */
module FileWatch {
  import opened Wrappers
  import opened Split
  import opened Cancelable
  import opened Notify
  import opened Events

  // ---------------------------------------------------------------------
  // Watcher side
  // ---------------------------------------------------------------------

  /** The classification of one receive: a delivered event, or a failed
      receive (`None`), which reads as an error. */
  function ReceivedType(rx: Option<DebouncedEvent>): WatchEventType
  {
    match rx
    case Some(e) => Classify(e)
    case None => WatchEventType.Error
  }

  /** True iff the received event should restart the process under
      `trigger`: a change always does, a touch only when the trigger is
      `Touched`. */
  predicate Fireable(trigger: WatchEventType, rx: Option<DebouncedEvent>)
  {
    var t := ReceivedType(rx);
    t == Changed || (t == Touched && trigger == Touched)
  }

  /** The same rule stated on the library's events: writes, removals and
      renames always fire; permission changes and creations fire only under
      `Touched`; nothing else fires, and neither does a failed receive. */
  lemma FireableIff(trigger: WatchEventType, rx: Option<DebouncedEvent>)
    ensures Fireable(trigger, rx) <==>
      && rx.Some?
      && (|| rx.value.Write? || rx.value.Remove? || rx.value.Rename?
          || (trigger == Touched && (rx.value.Chmod? || rx.value.Create?)))
  {
  }

  /** What the watcher loop does after one receive: go on with the given
      flag, return normally (a change seen while the mutex is poisoned), or
      panic (a touch under `Touched` while the mutex is poisoned). */
  datatype WatcherReaction = Continue(flag: bool) | Finish | Panic

  /** One pass of the watcher loop. */
  function WatcherStep(flag: bool, trigger: WatchEventType, rx: Option<DebouncedEvent>, poisoned: bool): (r: WatcherReaction)
    ensures !poisoned ==> r == Continue(flag || Fireable(trigger, rx))
    ensures !Fireable(trigger, rx) ==> r == Continue(flag)
    ensures r.Finish? <==> poisoned && ReceivedType(rx) == Changed
    ensures r.Panic? <==> poisoned && ReceivedType(rx) == Touched && trigger == Touched
  {
    match ReceivedType(rx)
    case Ignore => Continue(flag)
    case Error => Continue(flag)
    case Touched =>
      if trigger == Touched then
        if poisoned then Panic else Continue(true)
      else
        Continue(flag)
    case Changed =>
      if poisoned then Finish else Continue(true)
  }

  /** Setting the flag is idempotent: a second fireable event before the
      runner looks leaves the same state as the first one alone. */
  lemma FlagSetIdempotent(flag: bool, trigger: WatchEventType, rx1: Option<DebouncedEvent>, rx2: Option<DebouncedEvent>)
    requires Fireable(trigger, rx1) && Fireable(trigger, rx2)
    ensures WatcherStep(flag, trigger, rx1, false) == WatcherStep(true, trigger, rx2, false) == Continue(true)
  {
  }

  // ---------------------------------------------------------------------
  // Runner side
  // ---------------------------------------------------------------------

  /** What the operating system and the mutex reported during one wake-up
      of the runner: whether the mutex is poisoned, the poll and wait
      reports for `check`, the spawn report for a restart inside the step,
      and the spawn report for the recovery restart after a failed step. */
  datatype Wake = Wake(poisoned: bool, poll: PollReport, wait: WaitReport, spawn: SpawnReport, recovery: SpawnReport)

  /** The outcome of one runner step: whether it succeeded, the flag and
      process afterwards, and whether it restarted the process. */
  datatype LoopStep = LoopStep(ok: bool, flag: bool, proc: Proc, reset: bool)

  /** One runner step: check on the process; if the flag is set, clear it
      and restart the process. The step fails when the mutex is poisoned,
      when the check fails, or when the restart fails. */
  function RunLoopStep(flag: bool, p: Proc, poisoned: bool, poll: PollReport, wait: WaitReport, spawn: SpawnReport): (s: LoopStep)
    ensures s.reset <==> flag && !poisoned && Check(p, poll, wait).result.Ok?
    ensures s.reset ==> !s.flag && s.proc == Reset(p, spawn).proc
    ensures !s.reset ==> s.flag == flag && s.proc == p
    ensures !s.ok <==> poisoned || Check(p, poll, wait).result.Err? || (s.reset && Reset(p, spawn).result.Err?)
  {
    if poisoned then LoopStep(false, flag, p, false)
    else
      var c := Check(p, poll, wait);
      if c.result.Err? then LoopStep(false, flag, c.proc, false)
      else if flag then
        var r := Reset(c.proc, spawn);
        if r.result.Err? then LoopStep(false, false, r.proc, true)
        else LoopStep(true, false, r.proc, true)
      else LoopStep(true, flag, c.proc, false)
  }

  /** With the flag clear and a healthy mutex, a step never restarts the
      process and never fails on account of the flag. */
  lemma QuietStepKeepsProcess(p: Proc, w: Wake)
    requires !w.poisoned && Check(p, w.poll, w.wait).result.Ok?
    ensures RunLoopStep(false, p, w.poisoned, w.poll, w.wait, w.spawn) == LoopStep(true, false, p, false)
  {
  }

  /** The runner thread: running with its process, dead after a failed
      spawn (the implementation panics in that case), or not started yet. */
  datatype Runner = Running(proc: Proc) | Panicked | NotStarted

  /** The runner's start: build the process and spawn it once. */
  function StartRunner(cmd: string, env: Option<seq<string>>, os: SpawnReport): (r: Runner)
    ensures r.Running? <==> HasWord(cmd) && os.Spawned?
    ensures !r.Running? ==> r.Panicked?
    ensures r.Running? ==> r.proc.handle == Some(os.child) && Valid(r.proc)
    ensures r.Running? ==> r.proc.cmd == cmd && r.proc.env == env
  {
    var p := New(cmd, env);
    var s := Spawn(p, os);
    if s.result.Ok? then Running(s.proc) else Panicked
  }

  /** What one wake-up did: the runner and flag afterwards, whether the
      step took the flag (and so restarted the process), and whether the
      step failed (and so the process was restarted once more). */
  datatype WakeResult = WakeResult(runner: Runner, flag: bool, tookFlag: bool, failed: bool)

  /** One wake-up of the runner thread: run a step; when the step fails,
      restart the process once more, and die if that restart fails too. */
  function RunnerWake(r: Runner, flag: bool, w: Wake): (o: WakeResult)
    ensures !r.Running? ==> o == WakeResult(r, flag, false, false)
    ensures r.Running? ==> (o.tookFlag <==> flag && !w.poisoned && Check(r.proc, w.poll, w.wait).result.Ok?)
    ensures r.Running? ==>
      (o.failed <==> w.poisoned || Check(r.proc, w.poll, w.wait).result.Err?
                     || (o.tookFlag && Reset(r.proc, w.spawn).result.Err?))
    ensures o.tookFlag ==> !o.flag
    ensures !o.tookFlag ==> o.flag == flag
    ensures !o.tookFlag && !o.failed ==> o.runner == r
    ensures r.Running? ==>
      var s := RunLoopStep(flag, r.proc, w.poisoned, w.poll, w.wait, w.spawn);
      && (s.ok ==> o.runner == Running(s.proc))
      && (!s.ok ==> o.runner == (if Reset(s.proc, w.recovery).result.Ok? then Running(Reset(s.proc, w.recovery).proc) else Panicked))
    ensures r.Running? && Valid(r.proc) && o.runner.Running? ==> Valid(o.runner.proc)
  {
    match r
    case Panicked => WakeResult(r, flag, false, false)
    case NotStarted => WakeResult(r, flag, false, false)
    case Running(p) =>
      var s := RunLoopStep(flag, p, w.poisoned, w.poll, w.wait, w.spawn);
      if s.ok then WakeResult(Running(s.proc), s.flag, s.reset, false)
      else
        var again := Reset(s.proc, w.recovery);
        if again.result.Ok? then WakeResult(Running(again.proc), s.flag, s.reset, true)
        else WakeResult(Panicked, s.flag, s.reset, true)
  }

  // ---------------------------------------------------------------------
  // The two activities together
  // ---------------------------------------------------------------------

  /** The shared flag, the runner, and whether the watcher loop (and with
      it the program) is still going. */
  datatype Sys = Sys(flag: bool, runner: Runner, live: bool)

  /** One step of either activity. */
  datatype Action =
    | Deliver(rx: Option<DebouncedEvent>, poisoned: bool)
    | Tick(wake: Wake)

  /** The state after one action, whether a runner step took the flag, and
      whether a runner step failed. Each of the two makes one `reset` call. */
  datatype Moved = Moved(sys: Sys, tookFlag: bool, failed: bool)

  /** How many times one action restarted the process. */
  function Resets(m: Moved): nat
  {
    B2N(m.tookFlag) + B2N(m.failed)
  }

  /** Performs one action. Once the watcher loop has returned or panicked
      the program is over and nothing changes any more. */
  function Perform(s: Sys, trigger: WatchEventType, a: Action): (m: Moved)
    ensures !s.live ==> m == Moved(s, false, false)
    ensures m.sys.runner != s.runner ==> a.Tick? && Resets(m) > 0
    ensures a.Deliver? ==> Resets(m) == 0 && m.sys.runner == s.runner
    ensures m.tookFlag ==> s.flag && !m.sys.flag
    ensures !m.tookFlag && m.sys.flag != s.flag ==> a.Deliver? && Fireable(trigger, a.rx) && m.sys.flag
    ensures m.failed ==>
      && a.Tick? && s.runner.Running?
      && (|| a.wake.poisoned
          || Check(s.runner.proc, a.wake.poll, a.wake.wait).result.Err?
          || (m.tookFlag && Reset(s.runner.proc, a.wake.spawn).result.Err?))
  {
    if !s.live then Moved(s, false, false)
    else
      match a
      case Deliver(rx, poisoned) =>
        (match WatcherStep(s.flag, trigger, rx, poisoned)
         case Continue(f) => Moved(s.(flag := f), false, false)
         case Finish => Moved(s.(live := false), false, false)
         case Panic => Moved(s.(live := false), false, false))
      case Tick(w) =>
        var o := RunnerWake(s.runner, s.flag, w);
        Moved(s.(runner := o.runner, flag := o.flag), o.tookFlag, o.failed)
  }

  /** The state after a sequence of actions. */
  function Run(s: Sys, trigger: WatchEventType, actions: seq<Action>): Sys
    decreases |actions|
  {
    if |actions| == 0 then s
    else Run(Perform(s, trigger, actions[0]).sys, trigger, actions[1..])
  }

  /** How many `reset` calls the sequence makes, for a taken flag or after
      a failed step. */
  function Restarts(s: Sys, trigger: WatchEventType, actions: seq<Action>): nat
    decreases |actions|
  {
    if |actions| == 0 then 0
    else
      var m := Perform(s, trigger, actions[0]);
      Resets(m) + Restarts(m.sys, trigger, actions[1..])
  }

  /** How many runner steps of the sequence take the flag. */
  function FlagTakes(s: Sys, trigger: WatchEventType, actions: seq<Action>): nat
    decreases |actions|
  {
    if |actions| == 0 then 0
    else
      var m := Perform(s, trigger, actions[0]);
      B2N(m.tookFlag) + FlagTakes(m.sys, trigger, actions[1..])
  }

  /** How many runner steps of the sequence fail. */
  function FailedSteps(s: Sys, trigger: WatchEventType, actions: seq<Action>): nat
    decreases |actions|
  {
    if |actions| == 0 then 0
    else
      var m := Perform(s, trigger, actions[0]);
      B2N(m.failed) + FailedSteps(m.sys, trigger, actions[1..])
  }

  /** How many actions of the sequence deliver a fireable event. */
  function FireableCount(trigger: WatchEventType, actions: seq<Action>): nat
    decreases |actions|
  {
    if |actions| == 0 then 0
    else
      B2N(actions[0].Deliver? && Fireable(trigger, actions[0].rx))
      + FireableCount(trigger, actions[1..])
  }

  function B2N(b: bool): nat { if b then 1 else 0 }

  /** Under every interleaving, flag takes never outnumber fireable events,
      since a take needs the flag and only a fireable event sets it; and
      every restart is either such a take or the recovery after a failed
      step, so restarts never outnumber fireable events plus failed steps. */
  lemma {:induction false} RestartsBoundedByEvents(s: Sys, trigger: WatchEventType, actions: seq<Action>)
    ensures Restarts(s, trigger, actions) == FlagTakes(s, trigger, actions) + FailedSteps(s, trigger, actions)
    ensures FlagTakes(s, trigger, actions) + B2N(Run(s, trigger, actions).flag)
            <= B2N(s.flag) + FireableCount(trigger, actions)
    ensures Restarts(s, trigger, actions) + B2N(Run(s, trigger, actions).flag)
            <= B2N(s.flag) + FireableCount(trigger, actions) + FailedSteps(s, trigger, actions)
    decreases |actions|
  {
    if |actions| > 0 {
      var m := Perform(s, trigger, actions[0]);
      RestartsBoundedByEvents(m.sys, trigger, actions[1..]);
    }
  }

  /** The watcher receiving each event of `rxs`, with a healthy mutex. */
  function Deliveries(rxs: seq<Option<DebouncedEvent>>): (acts: seq<Action>)
    ensures |acts| == |rxs|
    ensures forall i :: 0 <= i < |rxs| ==> acts[i] == Deliver(rxs[i], false)
  {
    seq(|rxs|, i requires 0 <= i < |rxs| => Deliver(rxs[i], false))
  }

  predicate AnyFireable(trigger: WatchEventType, rxs: seq<Option<DebouncedEvent>>)
  {
    exists i :: 0 <= i < |rxs| && Fireable(trigger, rxs[i])
  }

  /** A burst of events between two runner wake-ups only sets the flag:
      afterwards it is set iff it was set before or some event fired, the
      runner is untouched and nothing was restarted. */
  lemma {:induction false} BurstSetsFlag(s: Sys, trigger: WatchEventType, rxs: seq<Option<DebouncedEvent>>)
    requires s.live
    ensures Run(s, trigger, Deliveries(rxs)) == s.(flag := s.flag || AnyFireable(trigger, rxs))
    ensures Restarts(s, trigger, Deliveries(rxs)) == 0
    ensures FlagTakes(s, trigger, Deliveries(rxs)) == 0
    decreases |rxs|
  {
    if |rxs| > 0 {
      var acts := Deliveries(rxs);
      var s' := Perform(s, trigger, acts[0]).sys;
      assert s' == s.(flag := s.flag || Fireable(trigger, rxs[0]));
      assert acts[1..] == Deliveries(rxs[1..]);
      BurstSetsFlag(s', trigger, rxs[1..]);
      if AnyFireable(trigger, rxs[1..]) {
        var i :| 0 <= i < |rxs[1..]| && Fireable(trigger, rxs[1..][i]);
        assert Fireable(trigger, rxs[i + 1]);
      }
      if AnyFireable(trigger, rxs) && !Fireable(trigger, rxs[0]) {
        var i :| 0 <= i < |rxs| && Fireable(trigger, rxs[i]);
        assert i > 0 && rxs[1..][i - 1] == rxs[i];
      }
    }
  }

  lemma {:induction false} RunAppend(s: Sys, trigger: WatchEventType, xs: seq<Action>, ys: seq<Action>)
    ensures Run(s, trigger, xs + ys) == Run(Run(s, trigger, xs), trigger, ys)
    ensures Restarts(s, trigger, xs + ys) == Restarts(s, trigger, xs) + Restarts(Run(s, trigger, xs), trigger, ys)
    ensures FlagTakes(s, trigger, xs + ys) == FlagTakes(s, trigger, xs) + FlagTakes(Run(s, trigger, xs), trigger, ys)
    decreases |xs|
  {
    if |xs| == 0 {
      assert xs + ys == ys;
    } else {
      assert (xs + ys)[0] == xs[0];
      assert (xs + ys)[1..] == xs[1..] + ys;
      RunAppend(Perform(s, trigger, xs[0]).sys, trigger, xs[1..], ys);
    }
  }

  /** Any number of events between two runner wake-ups are taken exactly
      once at the next wake-up whose check succeeds when the flag was already
      set (left over from a failed step) or some event fired, and not at all
      otherwise; the flag is clear afterwards. The take restarts the process
      once; when that restart fails, the runner restarts it a second time. */
  lemma BurstCausesOneRestart(s: Sys, trigger: WatchEventType, rxs: seq<Option<DebouncedEvent>>, w: Wake)
    requires s.live && s.runner.Running?
    requires !w.poisoned && Check(s.runner.proc, w.poll, w.wait).result.Ok?
    ensures FlagTakes(s, trigger, Deliveries(rxs) + [Tick(w)]) == B2N(s.flag || AnyFireable(trigger, rxs))
    ensures Restarts(s, trigger, Deliveries(rxs) + [Tick(w)])
            == B2N(s.flag || AnyFireable(trigger, rxs))
               + B2N((s.flag || AnyFireable(trigger, rxs)) && Reset(s.runner.proc, w.spawn).result.Err?)
    ensures !Run(s, trigger, Deliveries(rxs) + [Tick(w)]).flag
  {
    BurstSetsFlag(s, trigger, rxs);
    RunAppend(s, trigger, Deliveries(rxs), [Tick(w)]);
    var mid := Run(s, trigger, Deliveries(rxs));
    assert [Tick(w)][1..] == [];
    var m := Perform(mid, trigger, Tick(w));
    assert Restarts(mid, trigger, [Tick(w)]) == Resets(m);
    assert FlagTakes(mid, trigger, [Tick(w)]) == B2N(m.tookFlag);
  }

  // ---------------------------------------------------------------------
  // Start-up
  // ---------------------------------------------------------------------

  /** The result of setting up the watches: every path watched, or the
      first path that does not exist or could not be watched, together with
      the paths watched before it. */
  datatype Setup =
    | Watching(paths: seq<Path>)
    | NoSuchPath(path: Path, watched: seq<Path>)
    | WatchFailed(path: Path, watched: seq<Path>)

  predicate Ready(f: Path, existing: set<Path>, unwatchable: set<Path>)
  {
    f in existing && f !in unwatchable
  }

  /** Watches the paths in order, checking first that each one exists.
      `existing` is the set of paths that exist and `unwatchable` the set
      the watcher library refuses. */
  function WatchPaths(files: seq<Path>, existing: set<Path>, unwatchable: set<Path>): (r: Setup)
    ensures r.Watching? <==> forall i :: 0 <= i < |files| ==> Ready(files[i], existing, unwatchable)
    ensures r.Watching? ==> r.paths == files
    ensures !r.Watching? ==>
      var k := |r.watched|;
      && k < |files| && r.watched == files[..k] && r.path == files[k]
      && (forall i :: 0 <= i < k ==> Ready(files[i], existing, unwatchable))
    ensures r.NoSuchPath? ==> r.path !in existing
    ensures r.WatchFailed? ==> r.path in existing && r.path in unwatchable
    decreases |files|
  {
    if |files| == 0 then Watching([])
    else if files[0] !in existing then NoSuchPath(files[0], [])
    else if files[0] in unwatchable then WatchFailed(files[0], [])
    else
      var rest := WatchPaths(files[1..], existing, unwatchable);
      assert forall i :: 1 <= i < |files| ==> files[i] == files[1..][i - 1];
      match rest
      case Watching(ps) =>
        assert files == [files[0]] + ps;
        Watching(files)
      case NoSuchPath(p, ws) =>
        assert [files[0]] + ws == files[..|ws| + 1];
        NoSuchPath(p, [files[0]] + ws)
      case WatchFailed(p, ws) =>
        assert [files[0]] + ws == files[..|ws| + 1];
        WatchFailed(p, [files[0]] + ws)
  }

  /** The system right after `FileProcess::run` starts: the runner thread
      is launched before the watcher is created and before any path is
      checked. When the watcher is set up, the runner has spawned the process
      (or died trying). When it is not, the program exits, and the runner
      spawns only if it gets to run before that exit; `spawnedBeforeExit`
      says whether it does. `watcherCreated` says whether the watcher library
      could be started. */
  function Start(cmd: string, env: Option<seq<string>>, files: seq<Path>, watcherCreated: bool,
                 existing: set<Path>, unwatchable: set<Path>, spawn: SpawnReport,
                 spawnedBeforeExit: bool): (s: Sys)
    ensures !s.flag
    ensures s.live <==> watcherCreated && forall i :: 0 <= i < |files| ==> Ready(files[i], existing, unwatchable)
    ensures s.live ==> s.runner == StartRunner(cmd, env, spawn)
    ensures !s.live ==> (s.runner.NotStarted? <==> !spawnedBeforeExit)
    ensures !s.runner.NotStarted? ==> s.runner == StartRunner(cmd, env, spawn)
  {
    var live := watcherCreated && WatchPaths(files, existing, unwatchable).Watching?;
    var runner := if live || spawnedBeforeExit then StartRunner(cmd, env, spawn) else NotStarted;
    Sys(false, runner, live)
  }
}
