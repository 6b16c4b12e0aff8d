/**
 `proxy/src/explicit-proxy/explicit-proxy-controller.ts`: the supervisor of the 3proxy process. Its
 methods run to completion; between them come settings, terminations, timers and passing time, in any
 order. `State` is controller and host together, `Step` the reaction to one event; the class below is
 the source's object, each of whose methods is proved to perform the corresponding step.
 */
module ExplicitProxy {
  import opened Wrappers
  import Ipv4
  import PC = ProxyConfig

  datatype Settings = Settings(enabled: bool, allowedCidrs: seq<string>, nameServer: Option<string>)

  datatype Options = Options(
    socksPort: int, httpPort: int,
    baseBackoffMs: nat, maxBackoffMs: nat, stableUptimeMs: nat, crashLoopThreshold: nat)

  datatype Signal = SigTerm(child: nat) | SigKill(child: nat)

  /** Processes are numbered in the order they are started; `startedFrom` is the configuration each read. */
  datatype Host = Host(
    now: int, nextChild: nat, alive: set<nat>, startedFrom: map<nat, Option<string>>,
    file: Option<string>, signals: seq<Signal>)

  /** A timer is present from when it is set until it fires or is cleared. */
  datatype State = State(
    settings: Settings,
    hasApplied: bool,
    child: Option<nat>,
    childStartedAt: int,
    expectedExits: set<nat>,
    restartTimer: Option<nat>,             // with its delay
    stableTimer: bool,
    killTimer: Option<nat>,                // with the process it will kill
    consecutiveFailures: nat,
    restartCount: nat,
    configFailed: bool,
    host: Host)

  datatype Event =
    | ApplySettings(settings: Settings, writable: bool)
    | Terminated(child: nat)               // 'exit' or 'error': the process is not running any more
    | RestartFires
    | StableFires
    | KillFires
    | Tick(ms: nat)

  const INITIAL_SETTINGS := Settings(false, [], None)

  function Init(now: int): State {
    State(INITIAL_SETTINGS, false, None, 0, {}, None, false, None, 0, 0, false, Host(now, 0, {}, map[], None, []))
  }

  // ---------------------------------------------------------------- derived facts

  predicate IsRunnable(settings: Settings) {
    settings.enabled && |settings.allowedCidrs| > 0
  }

  function ConfigOf(o: Options, settings: Settings): PC.ConfigInput {
    PC.ConfigInput(settings.allowedCidrs, o.socksPort, o.httpPort, settings.nameServer)
  }

  /** The text these settings call for; None when it cannot be built. */
  function TextOf(o: Options, settings: Settings): Option<string> {
    if PC.ValidConfig(ConfigOf(o, settings)) then Some(PC.ConfigText(ConfigOf(o, settings))) else None
  }

  function Backoff(o: Options, failures: nat): nat
    requires failures >= 1
  {
    var doubled := o.baseBackoffMs * Ipv4.Pow2(failures - 1);
    if doubled < o.maxBackoffMs then doubled else o.maxBackoffMs
  }

  // ---------------------------------------------------------------- steps

  function WithChild(s: State): State {
    var h := s.host;
    s.(child := Some(h.nextChild), childStartedAt := h.now, stableTimer := true,
       host := h.(nextChild := h.nextChild + 1, alive := h.alive + {h.nextChild},
                  startedFrom := h.startedFrom[h.nextChild := h.file]))
  }

  function Stopping(s: State): State {
    match s.child
    case None => s
    case Some(c) =>
      s.(expectedExits := s.expectedExits + {c}, killTimer := Some(c),
         host := s.host.(signals := s.host.signals + [SigTerm(c)]))
  }

  predicate IsUnchanged(s: State, settings: Settings) {
    s.hasApplied && !s.configFailed && settings == s.settings
  }

  function OnApplySettings(o: Options, s: State, settings: Settings, writable: bool): State {
    var s1 := s.(settings := settings, hasApplied := true);
    if IsUnchanged(s, settings) then s1
    else
      var s2 := s1.(consecutiveFailures := 0, restartTimer := None, configFailed := false);
      if !IsRunnable(settings) then Stopping(s2)
      else if TextOf(o, settings).None? || !writable then Stopping(s2.(configFailed := true))
      else
        var s3 := s2.(host := s2.host.(file := TextOf(o, settings)));
        if s3.child.Some? then Stopping(s3) else WithChild(s3)
  }

  predicate WasStable(o: Options, s: State) {
    s.host.now - s.childStartedAt >= o.stableUptimeMs
  }

  function OnCrash(o: Options, s: State): State {
    var failures := (if WasStable(o, s) then 0 else s.consecutiveFailures) + 1;
    s.(consecutiveFailures := failures, restartCount := s.restartCount + 1,
       restartTimer := Some(Backoff(o, failures)))
  }

  function OnTerminated(o: Options, s: State, id: nat): State {
    var s0 := s.(host := s.host.(alive := s.host.alive - {id}));
    if s.child != Some(id) then s0
    else
      var s1 := s0.(child := None, stableTimer := false, killTimer := None);
      if id in s.expectedExits then
        if IsRunnable(s.settings) && !s.configFailed then WithChild(s1) else s1
      else OnCrash(o, s1)
  }

  function OnRestartFires(s: State): State {
    if s.restartTimer.None? then s
    else
      var s1 := s.(restartTimer := None);
      if IsRunnable(s.settings) && !s.configFailed && s.child.None? then WithChild(s1) else s1
  }

  function OnStableFires(s: State): State {
    if s.stableTimer then s.(consecutiveFailures := 0, stableTimer := false) else s
  }

  function OnKillFires(s: State): State {
    match s.killTimer
    case None => s
    case Some(c) => s.(killTimer := None, host := s.host.(signals := s.host.signals + [SigKill(c)]))
  }

  function Step(o: Options, s: State, e: Event): State {
    match e
    case ApplySettings(settings, writable) => OnApplySettings(o, s, settings, writable)
    case Terminated(child) => OnTerminated(o, s, child)
    case RestartFires => OnRestartFires(s)
    case StableFires => OnStableFires(s)
    case KillFires => OnKillFires(s)
    case Tick(ms) => s.(host := s.host.(now := s.host.now + ms))
  }

  // ---------------------------------------------------------------- status

  datatype ProxyState = Active | Stopped | Unconfigured | CrashLoop | ConfigError

  datatype Status = Status(state: ProxyState, ports: Option<(int, int)>, restartCount: nat)

  function StatusOf(o: Options, s: State): Status {
    if !s.settings.enabled then Status(Stopped, None, s.restartCount)
    else if |s.settings.allowedCidrs| == 0 then Status(Unconfigured, None, s.restartCount)
    else if s.configFailed then Status(ConfigError, None, s.restartCount)
    else if s.consecutiveFailures >= o.crashLoopThreshold then Status(CrashLoop, None, s.restartCount)
    else Status(Active, Some((o.socksPort, o.httpPort)), s.restartCount)
  }

  // ---------------------------------------------------------------- the class

  /** Processes, the configuration file and the clock. */
  class Machine {
    var state: Host

    constructor (now: int)
      ensures state == Host(now, 0, {}, map[], None, [])
    {
      state := Host(now, 0, {}, map[], None, []);
    }

    method Spawn() returns (child: nat)
      modifies this
      ensures child == old(state.nextChild)
      ensures var h := old(state);
              state == h.(nextChild := child + 1, alive := h.alive + {child},
                          startedFrom := h.startedFrom[child := h.file])
    {
      child := state.nextChild;
      state := state.(nextChild := child + 1, alive := state.alive + {child},
                      startedFrom := state.startedFrom[child := state.file]);
    }

    method Send(signal: Signal)
      modifies this
      ensures state == old(state).(signals := old(state.signals) + [signal])
    {
      state := state.(signals := state.signals + [signal]);
    }

    method WriteFile(content: string, writable: bool) returns (ok: bool)
      modifies this
      ensures ok == writable
      ensures state == if ok then old(state).(file := Some(content)) else old(state)
    {
      ok := writable;
      if ok {
        state := state.(file := Some(content));
      }
    }

    /** A process ends, by itself or because of a signal. */
    method End(child: nat)
      modifies this
      ensures state == old(state).(alive := old(state.alive) - {child})
    {
      state := state.(alive := state.alive - {child});
    }
  }

  class ExplicitProxyController {
    const options: Options
    const machine: Machine
    var settings: Settings
    var hasApplied: bool
    var child: Option<nat>
    var childStartedAt: int
    var expectedExits: set<nat>
    var restartTimer: Option<nat>
    var stableTimer: bool
    var killTimer: Option<nat>
    var consecutiveFailures: nat
    var restartCount: nat
    var configFailed: bool

    function View(): State
      reads this, machine
    {
      State(settings, hasApplied, child, childStartedAt, expectedExits, restartTimer, stableTimer, killTimer,
            consecutiveFailures, restartCount, configFailed, machine.state)
    }

    constructor (options: Options, now: int)
      ensures this.options == options && fresh(machine) && View() == Init(now)
    {
      this.options := options;
      machine := new Machine(now);
      settings, hasApplied, child, childStartedAt, expectedExits := INITIAL_SETTINGS, false, None, 0, {};
      restartTimer, stableTimer, killTimer := None, false, None;
      consecutiveFailures, restartCount, configFailed := 0, 0, false;
    }

    method ApplySettings(settings: Settings, writable: bool)
      modifies this, machine
      ensures View() == OnApplySettings(options, old(View()), settings, writable)
    {
      hide TextOf, IsRunnable, WithChild, Stopping;
      var same := hasApplied && !configFailed && settings == this.settings;
      this.settings := settings;
      hasApplied := true;
      if same {
        return;
      }
      consecutiveFailures := 0;
      restartTimer := None;
      configFailed := false;
      if !IsRunnable(settings) {
        StopChild();
        return;
      }
      var written := WriteConfig(writable);
      if !written {
        configFailed := true;
        StopChild();
      } else if child.Some? {
        StopChild();
      } else {
        StartChild();
      }
    }

    /** The guarded part of `applySettings`: builds and writes the file, unless either throws. */
    method WriteConfig(writable: bool) returns (written: bool)
      modifies machine
      ensures written <==> writable && TextOf(options, settings).Some?
      ensures machine.state == if written then old(machine.state).(file := TextOf(options, settings)) else old(machine.state)
    {
      hide PC.ValidConfig, PC.ConfigText, PC.Justifies;
      written := false;
      var content := PC.BuildExplicitProxyConfig(ConfigOf(options, settings));
      if content.Success? {
        written := machine.WriteFile(content.value, writable);
      }
    }

    method StartChild()
      modifies this, machine
      ensures View() == WithChild(old(View()))
    {
      childStartedAt := machine.state.now;
      var id := machine.Spawn();
      child := Some(id);
      stableTimer := true;
    }

    method StopChild()
      modifies this, machine
      ensures View() == Stopping(old(View()))
    {
      if child.None? {
        return;
      }
      expectedExits := expectedExits + {child.value};
      machine.Send(SigTerm(child.value));
      killTimer := Some(child.value);
    }

    /** A process has ended and its event arrives. */
    method ProcessEnds(id: nat)
      modifies this, machine
      ensures View() == OnTerminated(options, old(View()), id)
    {
      machine.End(id);
      HandleTermination(id);
    }

    method HandleTermination(id: nat)
      modifies this, machine
      requires id !in machine.state.alive
      ensures View() == OnTerminated(options, old(View()), id)
    {
      assert machine.state == machine.state.(alive := machine.state.alive - {id}) by {
        assert machine.state.alive - {id} == machine.state.alive;
      }
      if child != Some(id) {
        return;
      }
      child := None;
      stableTimer := false;
      killTimer := None;
      if id in expectedExits {
        if IsRunnable(settings) && !configFailed {
          StartChild();
        }
        return;
      }
      if machine.state.now - childStartedAt >= options.stableUptimeMs {
        consecutiveFailures := 0;
      }
      consecutiveFailures := consecutiveFailures + 1;
      restartCount := restartCount + 1;
      restartTimer := Some(Backoff(options, consecutiveFailures));
    }

    method RestartTimerFires()
      modifies this, machine
      ensures View() == OnRestartFires(old(View()))
    {
      if restartTimer.None? {
        return;
      }
      restartTimer := None;
      if IsRunnable(settings) && !configFailed && child.None? {
        StartChild();
      }
    }

    method StableTimerFires()
      modifies this
      ensures View() == OnStableFires(old(View()))
    {
      if stableTimer {
        consecutiveFailures := 0;
        stableTimer := false;
      }
    }

    method KillTimerFires()
      modifies this, machine
      ensures View() == OnKillFires(old(View()))
    {
      if killTimer.Some? {
        machine.Send(SigKill(killTimer.value));
        killTimer := None;
      }
    }

    method GetStatus() returns (status: Status)
      ensures status == StatusOf(options, View())
    {
      if !settings.enabled {
        return Status(Stopped, None, restartCount);
      }
      if |settings.allowedCidrs| == 0 {
        return Status(Unconfigured, None, restartCount);
      }
      if configFailed {
        return Status(ConfigError, None, restartCount);
      }
      if consecutiveFailures >= options.crashLoopThreshold {
        return Status(CrashLoop, None, restartCount);
      }
      return Status(Active, Some((options.socksPort, options.httpPort)), restartCount);
    }
  }
}
