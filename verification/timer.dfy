/** The timer trigger of src/timer.rs (`TimerProcess::run`): run the command
    every poll interval, at most `max_repeat` times when a bound is given.

    The command is run through a helper (`run_cmd`) that is not part of this
    model; it may fail, and `failing` says which of its invocations (counted
    from 0) do. The sleep is not modelled. Without a bound the loop never
    returns, so `Run` observes it for `fuel` passes of the loop (each pass
    starts with the termination test); with a bound of `n`, `n + 1` passes
    suffice for it to return.
 */
module Timer {
  import opened Wrappers

  newtype u32 = x: int | 0 <= x < 0x1_0000_0000

  method Run(maxRepeat: Option<u32>, failing: set<nat>, fuel: nat)
    returns (returned: bool, invocations: nat, counter: nat, logged: seq<nat>)
    ensures maxRepeat.Some? ==> counter <= maxRepeat.value as nat && invocations == counter
    ensures maxRepeat.Some? && fuel > maxRepeat.value as nat ==> returned && invocations == maxRepeat.value as nat
    ensures returned ==> maxRepeat.Some? && invocations == maxRepeat.value as nat
    ensures maxRepeat.Some? ==> (returned <==> fuel > maxRepeat.value as nat)
    ensures maxRepeat.Some? ==>
      invocations == (if fuel > maxRepeat.value as nat then maxRepeat.value as nat else fuel)
    ensures maxRepeat.None? ==> !returned && counter == 0 && invocations == fuel
    ensures forall k :: k in logged <==> k < invocations && k in failing
  {
    invocations := 0;
    counter := 0;
    logged := [];
    var pass := 0;
    while pass < fuel && !(maxRepeat.Some? && counter >= maxRepeat.value as nat)
      invariant pass <= fuel
      invariant maxRepeat.Some? ==> counter <= maxRepeat.value as nat && invocations == counter
      invariant invocations == pass
      invariant maxRepeat.None? ==> counter == 0
      invariant forall k :: k in logged <==> k < invocations && k in failing
      decreases fuel - pass
    {
      if invocations in failing {
        logged := logged + [invocations];
      }
      invocations := invocations + 1;
      if maxRepeat.Some? {
        counter := counter + 1;
      }
      pass := pass + 1;
    }
    // The loop left through its termination test rather than because the
    // observation ended.
    returned := pass < fuel;
  }
}
