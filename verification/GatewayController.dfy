/**
 `proxy/src/network/gateway-controller.ts`: the controller that queues rebuilds and set additions
 and runs them one at a time. Every `await` of a queued job is a point where other events can
 happen, so a job is started by one event and finished by later ones. `State` is the whole
 situation (controller, kernel and clock), `Step` its reaction to one event; the class below is the
 source's object, each of whose methods is proved to perform exactly the corresponding step.
 */
module GatewayController {
  import opened Wrappers
  import opened Nft
  import opened Ruleset
  import BS = BypassSet

  datatype DnsSettings = DnsSettings(bypassEnabled: bool, redirect: Option<DnsRedirect>)

  datatype Settings = Settings(transparentGatewayEnabled: bool, killSwitch: bool, dns: Option<DnsSettings>)

  const DEFAULT_SETTINGS := Settings(false, true, None)

  /** What is fixed when the process starts. */
  datatype Site = Site(lanIface: Option<string>, wanIface: Option<string>, explicitProxyUid: Option<int>)

  datatype Job = Rebuild | AddElementsJob(entries: seq<Element>)

  /** The job being executed, up to the call it is waiting for. */
  datatype Phase =
    | Idle
    | Rebuilding(input: Input)
    | TearingDown
    | Adding(entries: seq<Element>)
    | Syncing(afterTeardown: bool)

  /** How an nft call ends. One that times out may have been committed all the same. */
  datatype NftReport = Succeeded | FailedWithoutEffect | FailedAfterCommit

  datatype State = State(
    settings: Settings,
    vpnIface: Option<string>,
    queue: seq<Job>,
    phase: Phase,
    lastReconcileSucceeded: bool,
    hasReconciled: bool,
    rejected: bool,                                      // the promise queue has been rejected
    held: BS.Held,
    now: int,
    host: Nft.Ruleset,                                   // the kernel's tables
    lastRead: Option<(Settings, Option<string>)>,        // what the last started rebuild read
    installed: Option<Input>,                            // what the kernel's table was built from
    addFailed: bool)                                     // an addition failed since the last rebuild

  function Init(host: Nft.Ruleset, now: int): State {
    State(DEFAULT_SETTINGS, None, [], Idle, false, false, false, BS.NOTHING_HELD, now, host, None, None, false)
  }

  datatype Event =
    | ApplySettings(settings: Settings)
    | UpdateVpnInterface(vpnIface: Option<string>)
    | AddBypass(records: seq<BS.ARecord>)
    | CountEntries                         // a status request counts the entries, forgetting expired ones
    | Tick(ms: nat)
    | StartNext
    | NftDone(report: NftReport)
    | SyncDone

  // ---------------------------------------------------------------- derived facts

  predicate BypassEnabled(settings: Settings) {
    settings.dns.Some? && settings.dns.value.bypassEnabled
  }

  predicate IsBypassActive(site: Site, settings: Settings) {
    site.lanIface.Some? && BypassEnabled(settings)
  }

  function RedirectOf(settings: Settings): Option<DnsRedirect> {
    if settings.dns.Some? then settings.dns.value.redirect else None
  }

  /** Whether these settings call for a table at all; otherwise a rebuild only tears down. */
  predicate NeedsTable(site: Site, settings: Settings) {
    site.lanIface.Some?
    && (settings.transparentGatewayEnabled || BypassEnabled(settings) || RedirectOf(settings).Some?)
  }

  function InputOf(site: Site, settings: Settings, vpnIface: Option<string>, entries: seq<Element>): Input
    requires site.lanIface.Some?
  {
    Input(site.lanIface.value,
          if site.wanIface.Some? then site.wanIface.value else site.lanIface.value,
          vpnIface,
          settings.killSwitch,
          settings.transparentGatewayEnabled,
          if BypassEnabled(settings) then Some(BypassInput(entries, site.explicitProxyUid)) else None,
          RedirectOf(settings))
  }

  // ---------------------------------------------------------------- steps

  function Enqueue(s: State, job: Job): State {
    if s.rejected then s else s.(queue := s.queue + [job])
  }

  function Reconcile(s: State): State {
    Enqueue(s.(hasReconciled := true), Rebuild)
  }

  function OnApplySettings(s: State, settings: Settings): State {
    var same := s.hasReconciled && s.lastReconcileSucceeded && settings == s.settings;
    var s1 := s.(settings := settings);
    if same then s1 else Reconcile(s1)
  }

  function OnUpdateVpnInterface(s: State, vpnIface: Option<string>): State {
    if vpnIface == s.vpnIface then s else Reconcile(s.(vpnIface := vpnIface))
  }

  function OnAddBypass(site: Site, s: State, records: seq<BS.ARecord>): State {
    var s1 := s.(held := BS.AddAll(s.held, s.now, records));
    var added := BS.Added(records);
    if |added| == 0 || !IsBypassActive(site, s.settings) then s1 else Enqueue(s1, AddElementsJob(added))
  }

  /** The queued rebuild begins: settings, tunnel and held addresses are read here and only here. */
  function StartRebuild(site: Site, s: State): State
    requires BS.Consistent(s.held)
  {
    var s1 := s.(lastRead := Some((s.settings, s.vpnIface)));
    if !NeedsTable(site, s.settings) then s1.(phase := TearingDown)
    else
      var enabled := BypassEnabled(s.settings);
      var entries := if enabled then BS.LiveOf(s.held, s.now) else [];
      var held := if enabled then BS.Pruned(s.held, s.now) else BS.NOTHING_HELD;
      Launch(s1, held, InputOf(site, s.settings, s.vpnIface, entries))
  }

  /** Runs the built script; when the builder throws, the queue stays rejected. */
  function Launch(s: State, held: BS.Held, input: Input): State {
    if ValidInput(input) then s.(held := held, phase := Rebuilding(input))
    else s.(held := held, rejected := true, queue := [])
  }

  function OnStartNext(site: Site, s: State): State
    requires BS.Consistent(s.held)
  {
    if s.phase != Idle || s.queue == [] then s
    else
      var s1 := s.(queue := s.queue[1..]);
      match s.queue[0]
      case Rebuild => StartRebuild(site, s1)
      case AddElementsJob(entries) =>
        if s.lastReconcileSucceeded && IsBypassActive(site, s.settings) then s1.(phase := Adding(entries)) else s1
  }

  function AddScript(entries: seq<Element>): Nft.Script {
    [AddElements(TABLE, Bypass4, entries)]
  }

  predicate TakesEffect(script: Nft.Script, host: Nft.Ruleset, report: NftReport) {
    report != FailedWithoutEffect && Run(script, host).Some?
  }

  function AfterNft(script: Nft.Script, host: Nft.Ruleset, report: NftReport): Nft.Ruleset {
    if TakesEffect(script, host, report) then Run(script, host).value else host
  }

  predicate ExitsZero(script: Nft.Script, host: Nft.Ruleset, report: NftReport) {
    report == Succeeded && Run(script, host).Some?
  }

  function RebuildDone(s: State, input: Input, script: Nft.Script, report: NftReport): State {
    var ok := ExitsZero(script, s.host, report);
    s.(host := AfterNft(script, s.host, report),
       installed := if TakesEffect(script, s.host, report) then Some(input) else s.installed,
       lastReconcileSucceeded := ok,
       addFailed := s.addFailed && !ok,
       phase := Syncing(false))
  }

  function TeardownDone(s: State, script: Nft.Script, report: NftReport): State {
    s.(host := AfterNft(script, s.host, report),
       installed := if TakesEffect(script, s.host, report) then None else s.installed,
       held := BS.NOTHING_HELD,
       phase := Syncing(true))
  }

  function AddDone(s: State, script: Nft.Script, report: NftReport): State {
    s.(host := AfterNft(script, s.host, report),
       addFailed := s.addFailed || !ExitsZero(script, s.host, report),
       phase := Idle)
  }

  function OnNftDone(s: State, report: NftReport): State {
    match s.phase
    case Rebuilding(input) => RebuildDone(s, input, GatewayScript(input), report)
    case TearingDown => TeardownDone(s, TeardownScript(), report)
    case Adding(entries) => AddDone(s, AddScript(entries), report)
    case _ => s
  }

  function OnSyncDone(s: State): State {
    match s.phase
    case Syncing(afterTeardown) =>
      s.(phase := Idle, lastReconcileSucceeded := s.lastReconcileSucceeded || afterTeardown)
    case _ => s
  }

  function Step(site: Site, s: State, e: Event): State
    requires BS.Consistent(s.held)
  {
    match e
    case ApplySettings(settings) => OnApplySettings(s, settings)
    case UpdateVpnInterface(vpnIface) => OnUpdateVpnInterface(s, vpnIface)
    case AddBypass(records) => OnAddBypass(site, s, records)
    case CountEntries => s.(held := BS.Pruned(s.held, s.now))
    case Tick(ms) => s.(now := s.now + ms)
    case StartNext => OnStartNext(site, s)
    case NftDone(report) => OnNftDone(s, report)
    case SyncDone => OnSyncDone(s)
  }

  lemma LaunchHolds(s: State, held: BS.Held, input: Input)
    ensures Launch(s, held, input).held == held
  {
    hide ValidInput;
  }

  lemma StartConsistent(site: Site, s: State)
    requires BS.Consistent(s.held)
    ensures BS.Consistent(StartRebuild(site, s).held)
  {
    BS.PrunedConsistent(s.held, s.now);
    hide Launch, InputOf, BS.LiveOf, BS.Pruned;
    if NeedsTable(site, s.settings) {
      var s1 := s.(lastRead := Some((s.settings, s.vpnIface)));
      var entries := if BypassEnabled(s.settings) then BS.LiveOf(s.held, s.now) else [];
      var held := if BypassEnabled(s.settings) then BS.Pruned(s.held, s.now) else BS.NOTHING_HELD;
      LaunchHolds(s1, held, InputOf(site, s.settings, s.vpnIface, entries));
    }
  }

  lemma NothingIsConsistent()
    ensures BS.Consistent(BS.NOTHING_HELD)
  {
  }

  lemma CountConsistent(site: Site, s: State)
    requires BS.Consistent(s.held)
    ensures BS.Consistent(Step(site, s, CountEntries).held)
  {
    BS.PrunedConsistent(s.held, s.now);
  }

  lemma StepConsistent(site: Site, s: State, e: Event)
    requires BS.Consistent(s.held)
    ensures BS.Consistent(Step(site, s, e).held)
  {
    hide BS.Consistent, StartRebuild, AfterNft, TakesEffect, ExitsZero, BS.AddAll, BS.Added;
    assert BS.Consistent(BS.NOTHING_HELD) by {
      NothingIsConsistent();
    }
    match e
    case AddBypass(records) => BS.AddAllConsistent(s.held, s.now, records);
    case CountEntries => CountConsistent(site, s);
    case StartNext =>
      if s.phase == Idle && s.queue != [] && s.queue[0] == Rebuild {
        StartConsistent(site, s.(queue := s.queue[1..]));
      }
    case _ =>
  }

  // ---------------------------------------------------------------- status

  datatype GatewayState = Active | Stopped | Unconfigured | Error

  datatype Status = Status(
    state: GatewayState,
    vpnInterface: Option<string>,
    wanInterface: Option<string>,
    killSwitchBlocking: bool)

  function StatusOf(site: Site, s: State): Status {
    if !s.settings.transparentGatewayEnabled then Status(Stopped, s.vpnIface, None, false)
    else if site.lanIface.None? then Status(Unconfigured, s.vpnIface, None, false)
    else if !s.lastReconcileSucceeded then Status(Error, s.vpnIface, None, false)
    else
      var wan := if site.wanIface.Some? then site.wanIface else site.lanIface;
      Status(Active, s.vpnIface,
             if s.vpnIface.None? && !s.settings.killSwitch then wan else None,
             s.settings.killSwitch && s.vpnIface.None?)
  }

  // ---------------------------------------------------------------- the class

  /** The kernel's tables and the clock, which the controller shares with the rest of the machine. */
  class Machine {
    var tables: Nft.Ruleset
    var now: int

    constructor (tables: Nft.Ruleset, now: int)
      ensures this.tables == tables && this.now == now
    {
      this.tables, this.now := tables, now;
    }

    /** `nft -f -`: returns whether the exit code is zero. */
    method RunNft(script: Nft.Script, report: NftReport) returns (ok: bool)
      modifies this`tables
      ensures tables == AfterNft(script, old(tables), report)
      ensures ok == ExitsZero(script, old(tables), report)
    {
      var outcome := Run(script, tables);
      ok := report == Succeeded && outcome.Some?;
      if report != FailedWithoutEffect && outcome.Some? {
        tables := outcome.value;
      }
    }
  }

  class GatewayController {
    const site: Site
    const bypassSet: BS.BypassSet
    const machine: Machine
    var settings: Settings
    var vpnIface: Option<string>
    var queue: seq<Job>
    var phase: Phase
    var lastReconcileSucceeded: bool
    var hasReconciled: bool
    var rejected: bool
    ghost var lastRead: Option<(Settings, Option<string>)>
    ghost var installed: Option<Input>
    ghost var addFailed: bool

    ghost predicate Valid()
      reads this, bypassSet
    {
      bypassSet.Valid()
    }

    ghost function View(): State
      reads this, bypassSet, machine
    {
      State(settings, vpnIface, queue, phase, lastReconcileSucceeded, hasReconciled, rejected,
            bypassSet.Contents(), machine.now, machine.tables, lastRead, installed, addFailed)
    }

    constructor (site: Site, bypassSet: BS.BypassSet, machine: Machine)
      requires bypassSet.Valid() && bypassSet.Contents() == BS.NOTHING_HELD
      ensures Valid() && this.site == site && this.bypassSet == bypassSet && this.machine == machine
      ensures View() == Init(machine.tables, machine.now)
    {
      this.site, this.bypassSet, this.machine := site, bypassSet, machine;
      settings, vpnIface, queue, phase := DEFAULT_SETTINGS, None, [], Idle;
      lastReconcileSucceeded, hasReconciled, rejected := false, false, false;
      lastRead, installed, addFailed := None, None, false;
    }

    method ApplySettings(settings: Settings)
      requires Valid()
      modifies this
      ensures Valid() && View() == OnApplySettings(old(View()), settings)
    {
      var same := hasReconciled && lastReconcileSucceeded && settings == this.settings;
      this.settings := settings;
      if !same {
        Reconcile();
      }
    }

    method UpdateVpnInterface(vpnIface: Option<string>)
      requires Valid()
      modifies this
      ensures Valid() && View() == OnUpdateVpnInterface(old(View()), vpnIface)
    {
      if vpnIface != this.vpnIface {
        this.vpnIface := vpnIface;
        Reconcile();
      }
    }

    method Reconcile()
      requires Valid()
      modifies this
      ensures Valid() && View() == Enqueue(old(View()).(hasReconciled := true), Rebuild)
    {
      hasReconciled := true;
      Chain(Rebuild);
    }

    /** `this.queue = this.queue.then(job)`: a rejected promise never runs what is chained to it. */
    method Chain(job: Job)
      requires Valid()
      modifies this`queue
      ensures Valid() && View() == Enqueue(old(View()), job)
    {
      if !rejected {
        queue := queue + [job];
      }
    }

    method AddBypass(records: seq<BS.ARecord>)
      requires Valid()
      modifies this, bypassSet
      ensures Valid() && View() == OnAddBypass(site, old(View()), records)
    {
      var added := bypassSet.Add(records, machine.now);
      if |added| > 0 && IsBypassActive(site, settings) {
        Chain(AddElementsJob(added));
      }
    }

    method BypassEntryCount() returns (n: nat)
      requires Valid()
      modifies bypassSet
      ensures Valid() && View() == Step(site, old(View()), CountEntries)
      ensures n == |BS.LiveOf(old(View()).held, old(View()).now)|
    {
      n := bypassSet.Size(machine.now);
    }

    /** The event loop runs the next queued job up to its first `await`. */
    method StartNext()
      requires Valid()
      modifies this, bypassSet
      ensures Valid() && View() == OnStartNext(site, old(View()))
    {
      if phase != Idle || queue == [] {
        return;
      }
      var job := queue[0];
      queue := queue[1..];
      match job
      case Rebuild => ApplyCurrentState();
      case AddElementsJob(entries) =>
        if lastReconcileSucceeded && IsBypassActive(site, settings) {
          phase := Adding(entries);
        }
    }

    method ApplyCurrentState()
      requires Valid() && phase == Idle
      modifies this, bypassSet
      ensures Valid() && View() == StartRebuild(site, old(View()))
    {
      hide BS.LiveOf, BS.Pruned, GatewayScript;
      lastRead := Some((settings, vpnIface));
      if !NeedsTable(site, settings) {
        phase := TearingDown;
        return;
      }
      var bypassEnabled := BypassEnabled(settings);
      var entries := [];
      if bypassEnabled {
        entries := bypassSet.Live(machine.now);
      } else {
        bypassSet.Clear();
      }
      var input := InputOf(site, settings, vpnIface, entries);
      var script := BuildGatewayRuleset(input);
      if script.Success? {
        phase := Rebuilding(input);
      } else {
        rejected, queue := true, [];
      }
    }

    /** The nft call of the running job ends. */
    method NftDone(report: NftReport)
      requires Valid()
      modifies this, bypassSet, machine`tables
      ensures Valid() && View() == OnNftDone(old(View()), report)
    {
      match phase
      case Rebuilding(input) => FinishRebuild(input, GatewayScript(input), report);
      case TearingDown => FinishTeardown(TeardownScript(), report);
      case Adding(entries) => FinishAdd(AddScript(entries), report);
      case _ =>
    }

    method FinishRebuild(input: Input, script: Nft.Script, report: NftReport)
      requires Valid()
      modifies this, machine`tables
      ensures Valid() && View() == RebuildDone(old(View()), input, script, report)
    {
      if TakesEffect(script, machine.tables, report) {
        installed := Some(input);
      }
      var ok := machine.RunNft(script, report);
      lastReconcileSucceeded := ok;
      addFailed := addFailed && !ok;
      phase := Syncing(false);
    }

    method FinishTeardown(script: Nft.Script, report: NftReport)
      requires Valid()
      modifies this, bypassSet, machine`tables
      ensures Valid() && View() == TeardownDone(old(View()), script, report)
    {
      if TakesEffect(script, machine.tables, report) {
        installed := None;
      }
      var _ := machine.RunNft(script, report);
      bypassSet.Clear();
      phase := Syncing(true);
    }

    method FinishAdd(script: Nft.Script, report: NftReport)
      requires Valid()
      modifies this, machine`tables
      ensures Valid() && View() == AddDone(old(View()), script, report)
    {
      var ok := machine.RunNft(script, report);
      addFailed := addFailed || !ok;
      phase := Idle;
    }

    /** The policy-routing call that ends a rebuild or a teardown returns. */
    method SyncDone()
      requires Valid()
      modifies this
      ensures Valid() && View() == OnSyncDone(old(View()))
    {
      match phase
      case Syncing(afterTeardown) =>
        if afterTeardown {
          lastReconcileSucceeded := true;
        }
        phase := Idle;
      case _ =>
    }

    method GetStatus() returns (status: Status)
      ensures status == StatusOf(site, View())
    {
      if !settings.transparentGatewayEnabled {
        return Status(Stopped, vpnIface, None, false);
      }
      if site.lanIface.None? {
        return Status(Unconfigured, vpnIface, None, false);
      }
      if !lastReconcileSucceeded {
        return Status(Error, vpnIface, None, false);
      }
      var killSwitchBlocking := settings.killSwitch && vpnIface.None?;
      var wanInterface := None;
      if vpnIface.None? && !settings.killSwitch {
        wanInterface := if site.wanIface.Some? then site.wanIface else site.lanIface;
      }
      return Status(Active, vpnIface, wanInterface, killSwitchBlocking);
    }
  }
}
