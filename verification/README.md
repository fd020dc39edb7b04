# runwhen: the trigger-to-process supervisor, in Dafny

runwhen runs a command whenever a trigger fires and keeps that command's
process started, stopped and restarted across firings. There are three
triggers: a file-system watch, a timer, and a success poll. The success poll
runs a test command and runs the target command when the test's success
differs from a `--not` setting.

This project models the sequential decision logic of the system. Every effect
on the operating system becomes an input: a spawn succeeds or fails, a wait
reports an exit code or nothing, a poll reports "still running". Every
operation is a pure function from the old state and those inputs to a result
and a new state.

| file | module | models |
|---|---|---|
| `wrappers.dfy` | `Wrappers` | `Option`, and `Result` with one opaque error |
| `split.dfy` | `Split` | Rust's `str::split(char)`, and the space-separated token list a command line yields |
| `command.dfy` | `CommandLine` | `env_var_to_tuple`, environment overrides, `create_command` |
| `process.dfy` | `Cancelable` | `CancelableProcess`: `spawn`, `block`, `is_success`, `check`, `cancel`, `reset` |
| `success.dfy` | `ExecPoll` | `ExecProcess::new` and one success-poll tick |
| `events.dfy` | `Notify`, `Events` | the watcher library's events, their classification, `get_file` |
| `file.dfy` | `FileWatch` | the watcher and runner loop bodies around the shared dirty flag, every interleaving of them, the runner thread, the path check at start-up |
| `timer.dfy` | `Timer` | the timer loop with its repeat counter |

The two threads of the file watch share a mutex-guarded boolean flag. The
model makes the flag plain state. It turns each thread's loop body into a step
function (`FileWatch.Perform`), and it treats any sequence of steps as one
possible interleaving. Properties about runs (`RestartsBoundedByEvents`,
`BurstCausesOneRestart`) therefore hold under every scheduling of the threads.

Where the code departs from the tool's documented design, the model follows
the code:

- A `Create` event is classified `Touched`, not `Changed`. It restarts the
  command only under `--touch`.
- A watcher `Error` event is classified `Ignore`. The `Error` class only
  arises when receiving from the channel fails.
- There is no exclude-pattern filtering and no time-window debounce.
  `FileProcess` takes no exclude list. Coordination uses a flag that the
  runner polls on every wake-up, not a channel. Any number of events between
  two wake-ups collapse into one flag take, and so into one restart (two when
  that restart fails).
- A command line is split on the space character only, not on tabs or other
  whitespace.
- `FileProcess::run` starts the runner thread before it creates the watcher
  and checks the paths. A missing path therefore ends the program, but the
  runner may still spawn the command if it runs before that exit
  (`FileWatch.Start`).
- A failed initial spawn kills only the runner thread; the watcher keeps
  going. When a runner step fails, the runner restarts the process once more.
  A step fails when the mutex is poisoned, when the check fails, or when the
  step's own restart fails. Such a recovery restart happens without any file
  event. If it fails too, the runner thread dies (`FileWatch.RunnerWake`).
- `check` does not return "still running". When the child has not exited, it
  waits for it.

## Model

| member | source | states |
|---|---|---|
| Split.SplitOn | src/exec.rs:50-52 | splitting yields at least one piece, no piece contains the separator, and joining the pieces with the separator gives back the input |
| Split.SplitUnique | src/exec.rs:50-52 | any separator-free pieces that join to a string are exactly that string's split, so `SplitOn` is the inverse of `Join` |
| Split.SplitOnSeparator | src/exec.rs:50-52 | the pieces of `a + sep + b` are the pieces of `a` followed by the pieces of `b` |
| Split.TokensEmptyIff | src/exec.rs:50-54 | the token list of a command line is empty iff every character of the line is a space |
| Split.TokensAreWords | src/exec.rs:50-53 | every token is non-empty and contains no space |
| Split.TokensOfWord | src/exec.rs:50-53 | a non-empty word without spaces is exactly one token |
| Split.TokensOfSeparated | src/exec.rs:50-53 | tokens of `a + " " + b` are the tokens of `a` followed by those of `b`, so empty tokens are dropped and order is kept |
| Split.TokensOfJoin | src/exec.rs:50-53 | words joined with single spaces tokenize back to the same words |
| CommandLine.EnvVarToTuple | src/exec.rs:21-30 | neither half contains `'='`; a string without `'='` is the name with an empty value; otherwise the name is the text before the first `'='` and the value runs up to the next `'='` or the end |
| CommandLine.EnvVarPair | src/exec.rs:21-30 | `"n=v"` splits into `(n, v)` |
| CommandLine.EnvVarValueStopsAtSecondEquals | src/exec.rs:21-30 | `"n=v=t"` splits into `(n, v)`: text after a second `'='` is dropped |
| CommandLine.LastWins | src/exec.rs:63-68 | every override's name is set, only override names are set, and a name gets the value of its last override |
| CommandLine.CreateCommand | src/exec.rs:49-70 | fails iff the line has no non-space character; otherwise the program followed by the arguments is the token list, the program is a non-empty word, and the overrides are applied |
| CommandLine.CreateCommandRoundTrip | src/exec.rs:49-70 | a program and arguments written as one space-separated line build back into exactly that program and those arguments |
| Cancelable.New | src/exec.rs:40-47 | a new process holds no child and satisfies the state invariant |
| Cancelable.Spawn | src/exec.rs:111-117 | succeeds iff the line has a word and the OS starts the child; success holds that child; failure changes nothing |
| Cancelable.Block | src/exec.rs:72-89 | succeeds iff the wait or run reports an exit and (a child is held or the line has a word); the result is the exit code or 0 when none; success holds no child; without a child nothing changes; failure changes nothing |
| Cancelable.IsSuccess | src/exec.rs:91-96 | true iff `Block` returned `Ok(0)`, i.e. iff the run exited with code 0 (or none) and could start; any error reads as false |
| Cancelable.Check | src/exec.rs:100-109 | never changes the state; without a child answers `Ok(None)`; with one it fails iff the poll fails or the fallback wait fails, and otherwise answers some code |
| Cancelable.Cancel | src/exec.rs:119-127 | always succeeds, always leaves no child and no command, and on an idle process changes nothing |
| Cancelable.CancelIdempotent | src/exec.rs:119-127 | cancelling twice equals cancelling once |
| Cancelable.Reset | src/exec.rs:129-133 | equals spawn after cancel; success holds the new child, failure holds none |
| Cancelable.ApplyAllKeepsValid | src/exec.rs:72-133 | over any sequence of calls, a command is recorded iff a child is held, and the command line and overrides never change |
| ExecPoll.NewExec | src/exec.rs:145-160 | only the target command gets the overrides; the test command gets none; neither holds a child |
| ExecPoll.RunLoopStep | src/exec.rs:162-169 | the target runs in a tick (an outcome is present) iff the test's success differs from `negate`; when it runs, the outcome is that of `block`; with idle commands the state is unchanged |
| ExecPoll.FiresIffTestPasses | src/exec.rs:162-169 | on an idle test command the target runs iff (test line has a word, exits, with code 0 or none) differs from `negate` |
| ExecPoll.TicksKeepState | src/exec.rs:172-179 | a freshly built success poller is unchanged by any number of ticks |
| Events.GetFile | src/events.rs:24-35 | a path is returned exactly for the seven path-carrying events, and for a rename it is the source path |
| Events.Classify | src/events.rs:37-51 | chmod and create are `Touched`; remove, rename and write are `Changed`; notices, rescan and error are `Ignore`; nothing is classified `Error` |
| Events.ClassifiedEventsHaveAPath | src/events.rs:24-51 | every event that is not ignored carries a path |
| FileWatch.FireableIff | src/file.rs:129-155 | an event fires iff it is a write, remove or rename, or it is a chmod or create under `Touched`; a failed receive never fires |
| FileWatch.WatcherStep | src/file.rs:129-155 | with a healthy mutex the flag becomes `flag or fireable`; a non-firing event leaves it unchanged; a poisoned mutex ends the loop on a change and panics on a touch under `Touched` |
| FileWatch.FlagSetIdempotent | src/file.rs:140-150 | a second fireable event before the runner looks leaves the same state as the first |
| FileWatch.RunLoopStep | src/file.rs:81-106 | restarts iff the flag is set, the mutex is healthy and the check succeeds, and then clears the flag; otherwise flag and process are unchanged; fails iff the mutex is poisoned, the check fails, or the restart fails |
| FileWatch.QuietStepKeepsProcess | src/file.rs:89-100 | with the flag clear and a successful check, a step succeeds and changes nothing |
| FileWatch.StartRunner | src/file.rs:67-69 | the runner spawns once at start; it is running iff the line has a word and the spawn succeeds |
| FileWatch.RunnerWake | src/file.rs:70-77 | a step takes the flag iff the flag is set, the mutex is healthy and the check succeeds, and taking it clears it; the step fails iff the mutex is poisoned, the check fails or the restart fails; a failed step is followed by one more restart, and the runner dies iff that fails; a runner that is dead or not started does nothing |
| FileWatch.Perform | src/file.rs:70-155 | one action of either thread: only a runner wake-up changes the runner, and only by a restart; taking the flag needs and clears it; a failed step comes only from poisoning, a failed check or a failed restart; only a fireable delivery sets the flag |
| FileWatch.RestartsBoundedByEvents | src/file.rs:70-155 | under every interleaving, every restart is a flag take or the recovery after a failed step; flag takes plus the final flag never exceed the initial flag plus the fireable events delivered; so restarts plus the final flag never exceed the initial flag plus the fireable events plus the failed steps |
| FileWatch.BurstSetsFlag | src/file.rs:129-155 | a burst of deliveries leaves the flag set iff it was set or some event fired, and restarts nothing |
| FileWatch.BurstCausesOneRestart | src/file.rs:70-106 | any burst between two wake-ups is taken exactly once at the next wake-up whose check succeeds if the flag was already set (left over from a failed step) or some event fired, and not at all otherwise; that take restarts once, and a second time when the first restart fails; the flag is clear afterwards |
| FileWatch.WatchPaths | src/file.rs:117-127 | all paths are watched iff each exists and can be watched; otherwise the result names the first failing path in list order, which was not watched, and every path before it was watched |
| FileWatch.Start | src/file.rs:159-172 | the watcher loop runs iff the watcher was created and every path is ready; then the runner has spawned; otherwise the runner spawns iff it runs before the program exits; a runner that spawned is the one `StartRunner` gives |
| Timer.Run | src/timer.rs:45-60 | with a bound `n` the counter stays within `0..n` and equals the invocations, and the loop returns iff it is watched for more than `n` passes, having made exactly `n` invocations; otherwise it makes one invocation per pass watched; without a bound the counter stays 0 and the loop never returns; failed runs are logged and stop nothing |

## Left out

- Operating-system effects: starting, waiting for, polling and killing a
  child, and inheriting standard output and error. Each is an input report
  (`SpawnReport`, `WaitReport`, `PollReport`). A kill has no report because
  its outcome is ignored.
- Threads, the `Arc<Mutex<bool>>`, the event channel and every sleep. They
  are replaced by sequences of step functions. Whether the mutex is poisoned
  is an input of each step.
- The watcher library and recursive watching. A path's existence and whether
  the library accepts it are the sets `existing` and `unwatchable`.
- `run_cmd`, which the timer calls, is not part of this model. Which of its
  invocations fail is the input `failing`.
- The command-line front end (argument parsing, defaults, `process::exit`)
  and the error-message type. Errors are one opaque `Err`.
- The text of the log lines written to standard output. The timer records
  only which invocations failed (`logged`, their indices), not the messages.
- Timer.Run: the loop without a bound never returns, so the method watches it
  for `fuel` passes. It proves what happens in those passes, not a claim
  about an infinite run.
- FileWatch.Perform: once the watcher loop has returned or panicked, the
  program ends. The model stops every later step, including the runner's.
- FileWatch.Start: whether the runner spawns before the program exits is the
  input `spawnedBeforeExit`. The thread scheduling that decides it is not
  modelled.
- Exclude patterns and time-window debouncing do not exist in this code and
  are not modelled.
