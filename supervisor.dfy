/** The process supervisor at the bottom of `server/main.py`: the loader is
    started again and again with the same keyword arguments until it either
    asks for a shutdown, returns, or fails. The loader itself is a sequence of
    abstract outcomes, one per call of `init`. */
module Supervisor {

  /** The keyword arguments built once from the command line (`sqlite`, `ws`). */
  datatype Config = Config(sqlite: string, ws: string)

  /** How the two reload steps of the restart handler end. */
  datatype ReloadFault =
    | NoFault             // both reload steps return
    | ModuleReloadFails   // `importlib.reload(oce.loader)` raises
    | LoaderReloadFails   // `oce.loader.reload()` raises

  /** How one call of `oce.loader.init(**args)` ends. */
  datatype Outcome =
    | Restart(fault: ReloadFault)   // raises RestartInterrupt
    | Shutdown                      // raises ShutdownInterrupt
    | Failure                       // raises any other Exception
    | Interrupt                     // raises a BaseException outside Exception
    | Returned                      // returns normally

  /** Calls the supervisor makes into the loader. */
  datatype Call = Init(config: Config) | ReloadModule | ReloadLoader

  datatype Level = Info | Warning | Error
  datatype LogEntry = Log(level: Level, text: string)

  /** How the supervisor ends: past the loop with logging reset, by an
      exception propagating out of it, or still inside the last `init` call
      when the outcome sequence runs out. */
  datatype Ending = Clean | Escaped | Waiting

  /** Everything observable about a run: loader calls in order, log entries in
      order, each value of `quit_flag` read by the loop test, the number of
      logging resets, and how it ended. */
  datatype Run = Run(calls: seq<Call>, log: seq<LogEntry>, flagReads: seq<bool>, resets: nat, ending: Ending)

  const RestartingText := "=== Restarting system ==="
  const ShuttingDownText := "=== Shutting down system ==="
  const SystemErrorText := "<<< System Error >>>"
  const UnexpectedText := "<<< Unexpected shutdown >>>"

  /** The loop goes round again only after a restart whose reloads succeed. */
  predicate Continues(o: Outcome)
  {
    o == Restart(NoFault)
  }

  /** Shutdown and a normal return set `quit_flag`. */
  predicate Quits(o: Outcome)
  {
    o == Shutdown || o == Returned
  }

  /** The loader calls made by the handler of `o`, after `init`. */
  function HandlerCalls(o: Outcome): seq<Call>
  {
    match o
    case Restart(NoFault) => [ReloadModule, ReloadLoader]
    case Restart(LoaderReloadFails) => [ReloadModule, ReloadLoader]
    case Restart(ModuleReloadFails) => [ReloadModule]
    case _ => []
  }

  /** The log entries written by the handler of `o`. */
  function HandlerLog(o: Outcome): seq<LogEntry>
  {
    match o
    case Restart(_) => [Log(Info, RestartingText)]
    case Shutdown => [Log(Info, ShuttingDownText)]
    case Failure => [Log(Error, SystemErrorText)]
    case Interrupt => []
    case Returned => [Log(Warning, UnexpectedText)]
  }

  /** Prefix a run with what happened before it. */
  function Glue(calls: seq<Call>, log: seq<LogEntry>, flags: seq<bool>, r: Run): Run
  {
    Run(calls + r.calls, log + r.log, flags + r.flagReads, r.resets, r.ending)
  }

  /** The supervisor loop entered with `quit_flag` false, one outcome per
      iteration. */
  function Loop(config: Config, outcomes: seq<Outcome>): Run
  {
    if outcomes == [] then Run([Init(config)], [], [false], 0, Waiting)
    else
      var o := outcomes[0];
      var calls := [Init(config)] + HandlerCalls(o);
      if Continues(o) then Glue(calls, HandlerLog(o), [false], Loop(config, outcomes[1..]))
      else if Quits(o) then Run(calls, HandlerLog(o), [false, true], 1, Clean)
      else Run(calls, HandlerLog(o), [false], 0, Escaped)
  }

  /** The loop of `server/main.py`, with `quit_flag` as a local variable and
      the exception handlers as branches; an exception leaving the loop ends
      the method with `Escaped`. */
  method Supervise(config: Config, outcomes: seq<Outcome>) returns (run: Run)
    ensures run == Loop(config, outcomes)
  {
    var quit := false;
    var calls: seq<Call> := [];
    var log: seq<LogEntry> := [];
    var flags: seq<bool> := [];
    var k := 0;
    while !quit
      invariant 0 <= k <= |outcomes|
      invariant !quit ==> Loop(config, outcomes) == Glue(calls, log, flags, Loop(config, outcomes[k..]))
      invariant quit ==> Loop(config, outcomes) == Run(calls, log, flags + [true], 1, Clean)
      decreases |outcomes| - k, !quit
    {
      ghost var c0, l0, f0 := calls, log, flags;
      flags := flags + [false];
      if k == |outcomes| {
        // `init` has not returned yet
        run := Run(calls + [Init(config)], log, flags, 0, Waiting);
        return;
      }
      var o := outcomes[k];
      calls := calls + [Init(config)];
      k := k + 1;
      match o {
        case Restart(fault) =>
          log := log + [Log(Info, RestartingText)];
          calls := calls + [ReloadModule];
          if fault == ModuleReloadFails {
            LoopStops(config, outcomes, k - 1);
            assert calls == c0 + [Init(config), ReloadModule];
            run := Run(calls, log, flags, 0, Escaped);
            return;
          }
          calls := calls + [ReloadLoader];
          if fault == LoaderReloadFails {
            LoopStops(config, outcomes, k - 1);
            assert calls == c0 + [Init(config), ReloadModule, ReloadLoader];
            run := Run(calls, log, flags, 0, Escaped);
            return;
          }
          LoopAfterRestart(config, outcomes, k - 1);
          GlueGlue(c0, l0, f0, [Init(config), ReloadModule, ReloadLoader],
            [Log(Info, RestartingText)], [false], Loop(config, outcomes[k..]));
          assert c0 + [Init(config), ReloadModule, ReloadLoader] == calls;
          assert f0 + [false] == flags;
        case Shutdown =>
          log := log + [Log(Info, ShuttingDownText)];
          quit := true;
          LoopStops(config, outcomes, k - 1);
          assert flags + [true] == f0 + [false, true];
        case Failure =>
          log := log + [Log(Error, SystemErrorText)];
          LoopStops(config, outcomes, k - 1);
          run := Run(calls, log, flags, 0, Escaped);
          return;
        case Interrupt =>
          LoopStops(config, outcomes, k - 1);
          run := Run(calls, log, flags, 0, Escaped);
          return;
        case Returned =>
          log := log + [Log(Warning, UnexpectedText)];
          quit := true;
          LoopStops(config, outcomes, k - 1);
          assert flags + [true] == f0 + [false, true];
      }
    }
    // reset the root logger's handlers and call basicConfig, once
    run := Run(calls, log, flags + [true], 1, Clean);
  }

  /** One iteration of `Loop` at position `k` after a successful restart. */
  lemma LoopAfterRestart(config: Config, outcomes: seq<Outcome>, k: nat)
    requires k < |outcomes| && outcomes[k] == Restart(NoFault)
    ensures Loop(config, outcomes[k..]) ==
      Glue([Init(config), ReloadModule, ReloadLoader], [Log(Info, RestartingText)], [false], Loop(config, outcomes[k + 1..]))
  {
    assert outcomes[k..][1..] == outcomes[k + 1..];
  }

  /** The last iteration of `Loop`, at position `k`. */
  lemma LoopStops(config: Config, outcomes: seq<Outcome>, k: nat)
    requires k < |outcomes| && !Continues(outcomes[k])
    ensures var o := outcomes[k];
      Loop(config, outcomes[k..]) ==
        if Quits(o) then Run([Init(config)] + HandlerCalls(o), HandlerLog(o), [false, true], 1, Clean)
        else Run([Init(config)] + HandlerCalls(o), HandlerLog(o), [false], 0, Escaped)
  {
  }

  lemma GlueGlue(c1: seq<Call>, l1: seq<LogEntry>, f1: seq<bool>, c2: seq<Call>, l2: seq<LogEntry>, f2: seq<bool>, r: Run)
    ensures Glue(c1, l1, f1, Glue(c2, l2, f2, r)) == Glue(c1 + c2, l1 + l2, f1 + f2, r)
  {
  }

  // ---------------------------------------------------------------------------
  // Properties of the loop
  // ---------------------------------------------------------------------------

  function Restarts(n: nat): (r: seq<Outcome>)
    ensures |r| == n && forall k :: 0 <= k < n ==> r[k] == Restart(NoFault)
  {
    if n == 0 then [] else [Restart(NoFault)] + Restarts(n - 1)
  }

  /** Calls of one successful restart cycle, repeated `n` times. */
  function RestartCycles(config: Config, n: nat): (r: seq<Call>)
    ensures |r| == 3 * n
  {
    if n == 0 then [] else [Init(config), ReloadModule, ReloadLoader] + RestartCycles(config, n - 1)
  }

  /** `n` restarts then a shutdown: `n + 1` calls of `init`, each restart
      followed by both reload steps, one logging reset, a clean end. */
  lemma {:induction false} RestartsThenShutdown(config: Config, n: nat)
    ensures Loop(config, Restarts(n) + [Shutdown]).calls == RestartCycles(config, n) + [Init(config)]
    ensures Loop(config, Restarts(n) + [Shutdown]).resets == 1
    ensures Loop(config, Restarts(n) + [Shutdown]).ending == Clean
  {
    if n > 0 {
      assert (Restarts(n) + [Shutdown])[1..] == Restarts(n - 1) + [Shutdown];
      RestartsThenShutdown(config, n - 1);
    }
  }

  /** Counting the calls of the scenario above. */
  lemma {:induction false} RestartCyclesCount(config: Config, n: nat)
    ensures multiset(RestartCycles(config, n))[Init(config)] == n
    ensures multiset(RestartCycles(config, n))[ReloadModule] == n
    ensures multiset(RestartCycles(config, n))[ReloadLoader] == n
  {
    if n > 0 {
      RestartCyclesCount(config, n - 1);
    }
  }

  /** Every call of `init` receives the configuration built before the loop. */
  lemma {:induction false} ConfigNeverRederived(config: Config, outcomes: seq<Outcome>)
    ensures forall c :: c in Loop(config, outcomes).calls && c.Init? ==> c.config == config
  {
    if outcomes != [] && Continues(outcomes[0]) {
      ConfigNeverRederived(config, outcomes[1..]);
    }
  }

  /** `quit_flag` is one-way: every value read by the loop test is false
      except possibly the last, which is true exactly when the loop ends
      cleanly. */
  lemma {:induction false} QuitFlagOneWay(config: Config, outcomes: seq<Outcome>)
    ensures var r := Loop(config, outcomes);
      |r.flagReads| >= 1 &&
      (forall i :: 0 <= i < |r.flagReads| - 1 ==> !r.flagReads[i]) &&
      (r.flagReads[|r.flagReads| - 1] <==> r.ending == Clean)
  {
    if outcomes != [] && Continues(outcomes[0]) {
      QuitFlagOneWay(config, outcomes[1..]);
    }
  }

  /** Logging is reset exactly once when the loop is left without an
      exception, and never otherwise. */
  lemma {:induction false} ResetIffClean(config: Config, outcomes: seq<Outcome>)
    ensures Loop(config, outcomes).resets == (if Loop(config, outcomes).ending == Clean then 1 else 0)
  {
    if outcomes != [] && Continues(outcomes[0]) {
      ResetIffClean(config, outcomes[1..]);
    }
  }

  /** The loop stops at the first outcome that is not a successful restart;
      no later outcome is ever consulted. */
  lemma {:induction false} StopsAtFirstNonRestart(config: Config, outcomes: seq<Outcome>, j: nat)
    requires j < |outcomes| && !Continues(outcomes[j])
    requires forall i :: 0 <= i < j ==> Continues(outcomes[i])
    ensures Loop(config, outcomes) == Loop(config, outcomes[..j + 1])
  {
    if j > 0 {
      assert outcomes[1..][..j] == outcomes[..j + 1][1..];
      StopsAtFirstNonRestart(config, outcomes[1..], j - 1);
    }
  }

  /** An exception other than the two interrupts, after any number of
      restarts, is logged as a system error and propagates; logging is not
      reset. */
  lemma {:induction false} FailurePropagates(config: Config, n: nat)
    ensures Loop(config, Restarts(n) + [Failure]).ending == Escaped
    ensures Loop(config, Restarts(n) + [Failure]).resets == 0
    ensures Loop(config, Restarts(n) + [Failure]).log[|Loop(config, Restarts(n) + [Failure]).log| - 1] == Log(Error, SystemErrorText)
  {
    if n > 0 {
      assert (Restarts(n) + [Failure])[1..] == Restarts(n - 1) + [Failure];
      FailurePropagates(config, n - 1);
    }
  }

  /** An exception raised by either reload step inside the restart handler is
      not caught by the sibling handlers: it propagates and logging is not
      reset. */
  lemma ReloadFaultPropagates(config: Config, f: ReloadFault, rest: seq<Outcome>)
    requires f != NoFault
    ensures Loop(config, [Restart(f)] + rest).ending == Escaped
    ensures Loop(config, [Restart(f)] + rest).resets == 0
    ensures Loop(config, [Restart(f)] + rest).calls ==
      (if f == ModuleReloadFails then [Init(config), ReloadModule] else [Init(config), ReloadModule, ReloadLoader])
  {
  }

  /** A silent return of `init` ends the loop like a shutdown, with a warning
      instead of the shutdown notice. */
  lemma {:induction false} ReturnedIsLikeShutdown(config: Config, outcomes: seq<Outcome>, j: nat)
    requires j < |outcomes| && outcomes[j] == Returned
    requires forall i :: 0 <= i < j ==> Continues(outcomes[i])
    ensures var a := Loop(config, outcomes);
      var b := Loop(config, outcomes[j := Shutdown]);
      a.calls == b.calls && a.flagReads == b.flagReads && a.resets == b.resets && a.ending == b.ending == Clean
      && |a.log| == |b.log| && a.log[..|a.log| - 1] == b.log[..|b.log| - 1]
      && a.log[|a.log| - 1] == Log(Warning, UnexpectedText)
  {
    if j > 0 {
      assert outcomes[j := Shutdown][1..] == outcomes[1..][j - 1 := Shutdown];
      ReturnedIsLikeShutdown(config, outcomes[1..], j - 1);
    }
  }
}
