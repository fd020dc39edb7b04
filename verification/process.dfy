/** The cancelable process of src/exec.rs (`CancelableProcess`): a command
    line, its environment overrides, and at most one child process started
    from it.

    The operating system is not modelled. Every call that would reach it
    (starting a child, waiting for it, polling it, running a command to
    completion) takes what the operating system reported as a parameter,
    so each operation is a pure function from the old state and those
    reports to a result and the new state. Killing a child is best effort
    and its report is ignored by the implementation, so `Cancel` takes none.
 */
module Cancelable {
  import opened Wrappers
  import opened Split
  import opened CommandLine

  /** A child process, identified by the operating system. */
  datatype Child = Child(pid: nat)

  newtype i32 = x: int | -0x8000_0000 <= x < 0x8000_0000

  /** What the operating system reported when asked to start a child. */
  datatype SpawnReport = Spawned(child: Child) | SpawnFailed

  /** What a blocking wait, or a run to completion, reported. The exit code
      is absent when the child was ended by a signal. */
  datatype WaitReport = Exited(code: Option<i32>) | WaitFailed

  /** What a non-blocking poll of a child reported. */
  datatype PollReport = Finished(code: Option<i32>) | StillRunning | PollFailed

  /** The process state: the configured command line and overrides, the
      command built by the last successful spawn, and the child handle. */
  datatype Proc = Proc(cmd: string, env: Option<seq<string>>, exec: Option<Command>, handle: Option<Child>)

  /** An operation's result together with the state it leaves behind. */
  datatype Step<T> = Step(result: Result<T>, proc: Proc)

  /** The exit code reported to callers: a missing code reads as 0. */
  function CodeOrZero(code: Option<i32>): i32
  {
    code.GetOr(0)
  }

  /** No child is held. */
  predicate Idle(p: Proc)
  {
    p.handle.None?
  }

  /** The state invariant: a command is recorded exactly when a child is
      held, and it is the command the configured line builds. */
  predicate Valid(p: Proc)
  {
    && (p.exec.Some? <==> p.handle.Some?)
    && (p.exec.Some? ==> CreateCommand(p.cmd, p.env) == Ok(p.exec.value))
  }

  /** The configuration is the same in both states. */
  predicate SameConfig(p: Proc, q: Proc)
  {
    p.cmd == q.cmd && p.env == q.env
  }

  /** A new process holds no child. */
  function New(cmd: string, env: Option<seq<string>>): (p: Proc)
    ensures Idle(p) && Valid(p)
    ensures p.cmd == cmd && p.env == env
  {
    Proc(cmd, env, None, None)
  }

  /** Starts a child. Succeeds exactly when the command line has a word and
      the operating system starts the child; the new child is then held.
      On failure nothing changes. */
  function Spawn(p: Proc, os: SpawnReport): (r: Step<()>)
    ensures r.result.Ok? <==> HasWord(p.cmd) && os.Spawned?
    ensures r.result.Ok? ==> r.proc.handle == Some(os.child) && Valid(r.proc)
    ensures r.result.Err? ==> r.proc == p
    ensures SameConfig(p, r.proc)
  {
    match CreateCommand(p.cmd, p.env)
    case Err => Step(Err, p)
    case Ok(exec) =>
      match os
      case SpawnFailed => Step(Err, p)
      case Spawned(child) => Step(Ok(()), p.(exec := Some(exec), handle := Some(child)))
  }

  /** Waits for the held child, or, when none is held, runs the command to
      completion once without keeping a child. `os` is what the wait (or
      the run) reported. A successful result is the exit code, 0 when the
      operating system gives none. Afterwards no child is held unless the
      wait itself failed; a failure changes nothing. */
  function Block(p: Proc, os: WaitReport): (r: Step<i32>)
    ensures r.result.Ok? <==> os.Exited? && (p.handle.Some? || HasWord(p.cmd))
    ensures r.result.Ok? ==> r.result.value == CodeOrZero(os.code) && Idle(r.proc)
    ensures r.result.Err? ==> r.proc == p
    ensures Idle(p) ==> r.proc == p
    ensures Valid(p) ==> Valid(r.proc)
    ensures SameConfig(p, r.proc)
  {
    match p.handle
    case Some(_) =>
      (match os
       case WaitFailed => Step(Err, p)
       case Exited(code) => Step(Ok(CodeOrZero(code)), p.(exec := None, handle := None)))
    case None =>
      match CreateCommand(p.cmd, p.env)
      case Err => Step(Err, p)
      case Ok(_) =>
        match os
        case Exited(code) => Step(Ok(CodeOrZero(code)), p)
        case WaitFailed => Step(Err, p)
  }

  /** Blocks and reports whether the exit code was 0; an error counts as
      failure and is not passed on. */
  function IsSuccess(p: Proc, os: WaitReport): (r: (bool, Proc))
    ensures r.0 <==> Block(p, os).result == Ok(0)
    ensures r.0 <==> os.Exited? && CodeOrZero(os.code) == 0 && (p.handle.Some? || HasWord(p.cmd))
    ensures r.1 == Block(p, os).proc
  {
    var b := Block(p, os);
    match b.result
    case Ok(code) => (code == 0, b.proc)
    case Err => (false, b.proc)
  }

  /** Polls the held child. Without a child the answer is `None`. With one,
      the answer is its exit code: the poll's when it has exited, otherwise
      the one a blocking wait (`os`) reports. The state never changes, so
      the handle is kept even after the child is seen to exit. */
  function Check(p: Proc, poll: PollReport, os: WaitReport): (r: Step<Option<i32>>)
    ensures r.proc == p
    ensures Idle(p) ==> r.result == Ok(None)
    ensures r.result.Err? <==> p.handle.Some? && (poll.PollFailed? || (poll.StillRunning? && os.WaitFailed?))
    ensures p.handle.Some? && r.result.Ok? ==> r.result.value.Some?
    ensures p.handle.Some? && poll.Finished? ==> r.result == Ok(Some(CodeOrZero(poll.code)))
  {
    match p.handle
    case None => Step(Ok(None), p)
    case Some(_) =>
      match poll
      case PollFailed => Step(Err, p)
      case Finished(code) => Step(Ok(Some(CodeOrZero(code))), p)
      case StillRunning =>
        match os
        case WaitFailed => Step(Err, p)
        case Exited(code) => Step(Ok(Some(CodeOrZero(code))), p)
  }

  /** Kills the held child, if any (ignoring whether the kill worked), and
      forgets it. Always succeeds, always leaves no child, and on a process
      holding no child changes nothing. */
  function Cancel(p: Proc): (r: Step<()>)
    ensures r.result == Ok(())
    ensures Idle(r.proc) && r.proc.exec.None? && Valid(r.proc)
    ensures SameConfig(p, r.proc)
    ensures Idle(p) && Valid(p) ==> r.proc == p
  {
    Step(Ok(()), p.(exec := None, handle := None))
  }

  /** Cancelling twice is cancelling once. */
  lemma CancelIdempotent(p: Proc)
    ensures Cancel(Cancel(p).proc) == Cancel(p)
  {
  }

  /** Cancels, then spawns. On success the new child is held; on failure no
      child is held, since the cancel already dropped it. */
  function Reset(p: Proc, os: SpawnReport): (r: Step<()>)
    ensures r == Spawn(Cancel(p).proc, os)
    ensures r.result.Ok? <==> HasWord(p.cmd) && os.Spawned?
    ensures r.result.Ok? ==> r.proc.handle == Some(os.child)
    ensures r.result.Err? ==> Idle(r.proc)
    ensures Valid(r.proc) && SameConfig(p, r.proc)
  {
    var c := Cancel(p);
    if c.result.Err? then c else Spawn(c.proc, os)
  }

  /** One call on a process, with what the operating system reported. */
  datatype Op =
    | SpawnOp(spawn: SpawnReport)
    | BlockOp(wait: WaitReport)
    | CheckOp(poll: PollReport, wait: WaitReport)
    | CancelOp
    | ResetOp(spawn: SpawnReport)

  function Apply(p: Proc, op: Op): Proc
  {
    match op
    case SpawnOp(os) => Spawn(p, os).proc
    case BlockOp(os) => Block(p, os).proc
    case CheckOp(poll, os) => Check(p, poll, os).proc
    case CancelOp => Cancel(p).proc
    case ResetOp(os) => Reset(p, os).proc
  }

  function ApplyAll(p: Proc, ops: seq<Op>): Proc
    decreases |ops|
  {
    if |ops| == 0 then p else ApplyAll(Apply(p, ops[0]), ops[1..])
  }

  /** Whatever sequence of calls is made, the state invariant holds and the
      configuration is never changed. */
  lemma {:induction false} ApplyAllKeepsValid(p: Proc, ops: seq<Op>)
    requires Valid(p)
    ensures Valid(ApplyAll(p, ops)) && SameConfig(p, ApplyAll(p, ops))
    decreases |ops|
  {
    if |ops| > 0 {
      var q := Apply(p, ops[0]);
      assert Valid(q) && SameConfig(p, q);
      ApplyAllKeepsValid(q, ops[1..]);
    }
  }
}
