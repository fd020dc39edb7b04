/** The success-poll trigger of src/exec.rs (`ExecProcess`): on every poll
    tick a test command is run to completion and, when its success differs
    from the `negate` setting, the target command is run to completion once.

    The sleep between ticks is not modelled; `RunLoopStep` is one tick.
 */
module ExecPoll {
  import opened Wrappers
  import opened Split
  import opened Cancelable

  datatype ExecProcess = ExecProcess(test: Proc, negate: bool, cmd: Proc)

  /** Only the target command receives the environment overrides; the test
      command is built without any. Neither holds a child. */
  function NewExec(testCmd: string, cmd: string, negate: bool, env: Option<seq<string>>): (e: ExecProcess)
    ensures e.test.cmd == testCmd && e.test.env == None
    ensures e.cmd.cmd == cmd && e.cmd.env == env
    ensures e.negate == negate
    ensures Idle(e.test) && Idle(e.cmd) && Valid(e.test) && Valid(e.cmd)
  {
    ExecProcess(New(testCmd, None), negate, New(cmd, env))
  }

  /** What one tick did: what running the target command returned, `None`
      when it was not run, and the state afterwards. */
  datatype Tick = Tick(outcome: Option<Result<i32>>, exec: ExecProcess)
  {
    /** Whether the target command was run in this tick. */
    predicate Fired() { outcome.Some? }
  }

  /** One poll tick. `testReport` is what running the test command reported
      and `cmdReport` what running the target command reported. A failure
      of the target command is only logged. */
  function RunLoopStep(e: ExecProcess, testReport: WaitReport, cmdReport: WaitReport): (t: Tick)
    ensures t.outcome.Some? <==> IsSuccess(e.test, testReport).0 != e.negate
    ensures t.outcome.Some? ==> t.outcome.value == Block(e.cmd, cmdReport).result
    ensures Idle(e.test) && Idle(e.cmd) ==> t.exec == e
  {
    var (testResult, test') := IsSuccess(e.test, testReport);
    var e' := e.(test := test');
    if (testResult && !e.negate) || (!testResult && e.negate) then
      var b := Block(e.cmd, cmdReport);
      Tick(Some(b.result), e'.(cmd := b.proc))
    else
      Tick(None, e')
  }

  /** On a freshly built process the target runs exactly when the test
      command's run succeeded with exit code 0 (a missing code reads as 0),
      or, with `negate`, exactly when it did not. A test command line with
      no word never succeeds. */
  lemma FiresIffTestPasses(e: ExecProcess, testReport: WaitReport, cmdReport: WaitReport)
    requires Idle(e.test)
    ensures RunLoopStep(e, testReport, cmdReport).Fired() <==>
      (HasWord(e.test.cmd) && testReport.Exited? && CodeOrZero(testReport.code) == 0) != e.negate
  {
  }

  /** A process built by `NewExec` never changes, however many ticks run:
      both commands are only ever run to completion, so no child is kept. */
  lemma {:induction false} TicksKeepState(e: ExecProcess, reports: seq<(WaitReport, WaitReport)>)
    requires Idle(e.test) && Idle(e.cmd)
    ensures RunTicks(e, reports) == e
    decreases |reports|
  {
    if |reports| > 0 {
      assert RunLoopStep(e, reports[0].0, reports[0].1).exec == e;
      TicksKeepState(e, reports[1..]);
    }
  }

  /** The state after running one tick per pair of reports. */
  function RunTicks(e: ExecProcess, reports: seq<(WaitReport, WaitReport)>): ExecProcess
    decreases |reports|
  {
    if |reports| == 0 then e
    else RunTicks(RunLoopStep(e, reports[0].0, reports[0].1).exec, reports[1..])
  }
}
