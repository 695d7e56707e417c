/** The agent's entry point as a state machine. Signals and the passing of
    time are discrete events delivered between steps: SIGHUP schedules a
    reload, SIGTERM requests a stop (and cuts the current wait short), a
    timeout ends the wait, and an iteration runs the body of the main loop
    once. The configuration file and the network are the iteration's
    inputs. */
module AgentMain {
  import opened Wrappers
  import opened Json
  import opened Schema
  import opened Http
  import opened Core

  /** Where the main loop is: about to test the stop flag, sleeping for the
      given number of seconds, or gone, with the exception that ended it if
      one did. */
  datatype Pc = Checking | Waiting(seconds: int) | Exited(error: Option<string>)

  /** The process: the runner, the two event flags, the loop position, and
      whether `runner.close()` has run. */
  datatype Agent = Agent(runner: Runner, reloadPending: bool, stopRequested: bool, pc: Pc, closed: bool)

  /** What can happen between two steps. `Iterate` carries what the loop
      body meets: the configuration file as a reload would read it, whether
      a SIGHUP arrived while that reload was running, and the network. */
  datatype Event =
    | Hangup
    | Terminate
    | Timeout
    | Iterate(file: Option<Json>, hangupDuringLoad: bool, ipAnswer: Exchange, net: (nat, string) -> Exchange)

  /** The runner is closed exactly when the loop has been left. */
  predicate Consistent(a: Agent) {
    a.closed <==> a.pc.Exited?
  }

  /** Once looping, a configuration is always loaded. */
  predicate Loaded(a: Agent) {
    !a.pc.Exited? ==> a.runner.config.Some?
  }

  /** The start of `main`: the signal handlers are installed, then the
      configuration is loaded once, outside the `try`. Signals that arrive
      during that first load set their flags. A failed first load raises
      before the loop, so `close` is not called. */
  function Start(r: Runner, file: Option<Json>, isHttpUrl: string -> bool, hangups: bool, stop: bool): (res: Result<Agent>)
    ensures res.Ok? <==> LoadConfig(r, file, isHttpUrl).Ok?
    ensures res.Ok? ==>
      && res.value.runner == LoadConfig(r, file, isHttpUrl).value
      && res.value.pc == Checking && !res.value.closed
      && res.value.reloadPending == hangups && res.value.stopRequested == stop
    ensures res.Ok? ==> Consistent(res.value) && Loaded(res.value)
  {
    match LoadConfig(r, file, isHttpUrl)
    case Err(e) => Err(e)
    case Ok(loaded) => Ok(Agent(loaded, hangups, stop, Checking, false))
  }

  /** The part of an iteration after the stop test: the optional reload,
      then `run_once`, then the sleep. An exception from either leaves the
      loop through the `finally`, which closes the runner; the reload flag is
      cleared only after a reload returns. */
  function Body(a: Agent, file: Option<Json>, hangupDuringLoad: bool, ipAnswer: Exchange,
                net: (nat, string) -> Exchange, env: Env): (b: Agent)
    requires a.pc == Checking && !a.stopRequested && a.runner.config.Some?
    ensures Consistent(a) ==> Consistent(b)
    ensures Loaded(b)
    ensures b.stopRequested == a.stopRequested
    ensures b.pc.Exited? <==>
      (a.reloadPending && LoadConfig(a.runner, file, env.isHttpUrl).Err?)
    ensures a.reloadPending && LoadConfig(a.runner, file, env.isHttpUrl).Ok? ==>
      !b.reloadPending && b.runner.config == LoadConfig(a.runner, file, env.isHttpUrl).value.config
    ensures !a.reloadPending ==> b.runner.config == a.runner.config && !b.reloadPending
    ensures b.pc.Waiting? ==> b.pc.seconds == SleepSeconds(b.runner.config.value)
    // `run_once` runs on the runner as the reload (if any) left it.
    ensures var reloaded := if a.reloadPending then LoadConfig(a.runner, file, env.isHttpUrl) else Ok(a.runner);
      reloaded.Ok? ==>
        && RunOnce(reloaded.value, file, env, ipAnswer, net).Ok?
        && b.runner == RunOnce(reloaded.value, file, env, ipAnswer, net).value.runner
        && b.pc == Waiting(SleepSeconds(b.runner.config.value))
  {
    var reloaded :=
      if a.reloadPending then
        match LoadConfig(a.runner, file, env.isHttpUrl)
        case Err(e) => Err(e)
        case Ok(r) => Ok(r)
      else Ok(a.runner);
    match reloaded
    case Err(e) => a.(reloadPending := a.reloadPending || hangupDuringLoad, pc := Exited(Some(e)), closed := true)
    case Ok(r) =>
      match RunOnce(r, file, env, ipAnswer, net)
      case Err(e) => a.(runner := r, reloadPending := false, pc := Exited(Some(e)), closed := true)
      case Ok(cycle) =>
        a.(runner := cycle.runner, reloadPending := false, pc := Waiting(SleepSeconds(cycle.runner.config.value)))
  }

  /** One step of the process. Handlers only set flags; SIGTERM also ends a
      wait early (`stop_event.wait` returns as soon as the event is set). An
      iteration first tests the stop flag and leaves the loop, closing the
      runner, when it is set. Events that do not apply where the loop is
      change nothing else. */
  function Step(a: Agent, ev: Event, env: Env): (b: Agent)
    ensures Consistent(a) && Loaded(a) ==> Consistent(b) && Loaded(b)
    ensures a.pc.Exited? ==> b.pc == a.pc && b.runner == a.runner && b.closed == a.closed
    ensures ev.Hangup? ==> b == a.(reloadPending := true)
    ensures ev.Terminate? ==> b.stopRequested && !b.pc.Waiting?
    ensures a.stopRequested ==> b.stopRequested
  {
    match ev
    case Hangup => a.(reloadPending := true)
    case Terminate => if a.pc.Waiting? then a.(stopRequested := true, pc := Checking) else a.(stopRequested := true)
    case Timeout => if a.pc.Waiting? then a.(pc := Checking) else a
    case Iterate(file, hangupDuringLoad, ipAnswer, net) =>
      if a.pc != Checking then a
      else if a.stopRequested then a.(pc := Exited(None), closed := true)
      else if a.runner.config.None? then a.(pc := Exited(Some("no configuration")), closed := true)
      else Body(a, file, hangupDuringLoad, ipAnswer, net, env)
  }

  /** A sequence of events, in order. A stop request is never withdrawn: once
      a SIGTERM has arrived, the stop flag stays set. */
  function Run(a: Agent, evs: seq<Event>, env: Env): (r: Agent)
    ensures a.stopRequested ==> r.stopRequested
    ensures (exists i :: 0 <= i < |evs| && evs[i].Terminate?) ==> r.stopRequested
    decreases |evs|
  {
    if |evs| == 0 then a
    else
      assert forall i :: 1 <= i < |evs| ==> evs[1..][i - 1] == evs[i];
      Run(Step(a, evs[0], env), evs[1..], env)
  }

  /** Whatever happens, the runner is closed exactly when the loop has been
      left, and a running agent always has a configuration. */
  lemma {:induction false} RunConsistent(a: Agent, evs: seq<Event>, env: Env)
    requires Consistent(a) && Loaded(a)
    ensures Consistent(Run(a, evs, env)) && Loaded(Run(a, evs, env))
    decreases |evs|
  {
    if |evs| > 0 {
      RunConsistent(Step(a, evs[0], env), evs[1..], env);
    }
  }

  /** Leaving the loop is final: later events change neither the position
      nor the runner. */
  lemma {:induction false} ExitIsFinal(a: Agent, evs: seq<Event>, env: Env)
    requires a.pc.Exited?
    ensures Run(a, evs, env).pc == a.pc && Run(a, evs, env).runner == a.runner && Run(a, evs, env).closed == a.closed
    decreases |evs|
  {
    if |evs| > 0 {
      ExitIsFinal(Step(a, evs[0], env), evs[1..], env);
    }
  }

  /** Any number of SIGHUPs before the next check are one reload. */
  lemma HangupsCollapse(a: Agent, n: nat, env: Env)
    requires n >= 1
    ensures Run(a, seq(n, i => Hangup), env) == a.(reloadPending := true)
  {
    HangupsCollapseFrom(a, n, env);
  }

  lemma {:induction false} HangupsCollapseFrom(a: Agent, n: nat, env: Env)
    ensures Run(a, seq(n, i => Hangup), env) == if n == 0 then a else a.(reloadPending := true)
    decreases n
  {
    if n > 0 {
      var evs := seq(n, i => Hangup);
      assert evs[0] == Hangup && evs[1..] == seq(n - 1, i => Hangup);
      HangupsCollapseFrom(a.(reloadPending := true), n - 1, env);
    }
  }

  /** A SIGHUP that arrives while a reload is running is lost: the flag is
      cleared after `load_config` returns, so the outcome is the same as if
      it had not arrived. */
  lemma HangupDuringLoadAbsorbed(a: Agent, file: Option<Json>, ipAnswer: Exchange, net: (nat, string) -> Exchange, env: Env)
    requires a.pc == Checking && !a.stopRequested && a.runner.config.Some? && a.reloadPending
    requires LoadConfig(a.runner, file, env.isHttpUrl).Ok?
    ensures Step(a, Iterate(file, true, ipAnswer, net), env) == Step(a, Iterate(file, false, ipAnswer, net), env)
    ensures !Step(a, Iterate(file, true, ipAnswer, net), env).reloadPending
  {
  }

  /** A stop request ends the loop at the next check, whether the loop was
      waiting or about to check: the runner is closed and no error is
      raised. */
  lemma StopTakesEffect(a: Agent, file: Option<Json>, hangupDuringLoad: bool, ipAnswer: Exchange,
                        net: (nat, string) -> Exchange, env: Env)
    requires a.pc == Checking || a.pc.Waiting?
    ensures var b := Step(Step(a, Terminate, env), Iterate(file, hangupDuringLoad, ipAnswer, net), env);
      b.pc == Exited(None) && b.closed && b.runner == a.runner
  {
  }

  /** A failed reload terminates the loop with its error, after closing the
      runner; the configuration in memory is the one from before. */
  lemma ReloadFailureEnds(a: Agent, file: Option<Json>, hangupDuringLoad: bool, ipAnswer: Exchange,
                          net: (nat, string) -> Exchange, env: Env)
    requires a.pc == Checking && !a.stopRequested && a.runner.config.Some? && a.reloadPending
    requires LoadConfig(a.runner, file, env.isHttpUrl).Err?
    ensures var b := Step(a, Iterate(file, hangupDuringLoad, ipAnswer, net), env);
      b.pc == Exited(Some(LoadConfig(a.runner, file, env.isHttpUrl).error)) && b.closed && b.runner == a.runner
  {
  }
}
