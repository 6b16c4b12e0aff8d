/**
 What the gateway controller keeps over whole runs: for every order of setting changes, tunnel
 changes, additions, passing time, and starts, successes and failures of nft calls.
 */
module ControllerSafety {
  import opened Wrappers
  import opened Nft
  import opened Ruleset
  import opened GatewayController
  import opened ForwardVerdict
  import BS = BypassSet
  import Ipv4

  /** The state after any sequence of events from start-up on a host with any tables. */
  function Reach(site: Site, host: Nft.Ruleset, now: int, es: seq<Event>): (s: State)
    ensures BS.Consistent(s.held)
  {
    if es == [] then Init(host, now)
    else
      var before := Reach(site, host, now, es[..|es| - 1]);
      StepConsistent(site, before, es[|es| - 1]);
      Step(site, before, es[|es| - 1])
  }

  lemma ReachStep(site: Site, host: Nft.Ruleset, now: int, es: seq<Event>, e: Event)
    ensures Reach(site, host, now, es + [e]) == Step(site, Reach(site, host, now, es), e)
  {
    assert (es + [e])[..|es + [e]| - 1] == es;
  }

  // ---------------------------------------------------------------- the kernel matches `installed`

  /** The table in the kernel has the chains compiled from `i`, and at least the sets of `i`. */
  ghost predicate TableBuiltFrom(host: Nft.Ruleset, i: Input) {
    && TABLE in host
    && BuiltFrom(host[TABLE], i)
    && host[TABLE].sets.Keys == SetsOf(i).Keys
  }

  /** The addresses in the kernel's bypass set; none when there is no such set. */
  function InstalledElements(host: Nft.Ruleset): set<string> {
    if TABLE in host then BypassElements(host[TABLE]) else {}
  }

  /** What the kernel holds was built from `installed`, and its bypass set has lost none of the entries. */
  ghost predicate KernelInv(s: State) {
    s.installed.Some? ==> TableBuiltFrom(s.host, s.installed.value) && HasEntries(s.host, s.installed.value)
  }

  ghost predicate HasEntries(host: Nft.Ruleset, i: Input) {
    i.bypass.Some? ==> Addresses(i.bypass.value.entries) <= InstalledElements(host)
  }

  lemma RebuildEffect(input: Input, host: Nft.Ruleset, report: NftReport)
    ensures TakesEffect(GatewayScript(input), host, report) <==> report != FailedWithoutEffect
    ensures ExitsZero(GatewayScript(input), host, report) <==> report == Succeeded
    ensures report != FailedWithoutEffect ==>
              AfterNft(GatewayScript(input), host, report) == host[TABLE := TableOf(input)]
    ensures report != FailedWithoutEffect ==>
              InstalledElements(AfterNft(GatewayScript(input), host, report))
              == if input.bypass.Some? then Addresses(input.bypass.value.entries) else {}
  {
    ScriptInstallsTable(input, host);
  }

  lemma AddEffect(entries: seq<Element>, host: Nft.Ruleset, report: NftReport)
    ensures var host' := AfterNft(AddScript(entries), host, report);
            && (forall t :: t in host' && t != TABLE ==> t in host && host'[t] == host[t])
            && (TABLE in host' <==> TABLE in host)
            && (TABLE in host ==> && host'[TABLE].chains == host[TABLE].chains
                                  && host'[TABLE].sets.Keys == host[TABLE].sets.Keys)
            && InstalledElements(host) <= InstalledElements(host')
            && InstalledElements(host') <= InstalledElements(host) + Addresses(entries)
            && (ExitsZero(AddScript(entries), host, report) ==> Addresses(entries) <= InstalledElements(host'))
    ensures report == Succeeded && TABLE in host && Bypass4 in host[TABLE].sets ==>
              ExitsZero(AddScript(entries), host, report)
  {
    var script := AddScript(entries);
    assert script[1..] == [];
    if TABLE in host && Bypass4 in host[TABLE].sets {
      var t := ExecInTable(script[0], host[TABLE]).value;
      assert Run(script[1..], host[TABLE := t]) == Some(host[TABLE := t]);
      assert Run(script, host) == Some(host[TABLE := t]);
    } else {
      assert Exec(script[0], host).None?;
      assert Run(script, host).None?;
    }
  }

  lemma NoEffect(script: Nft.Script, host: Nft.Ruleset, report: NftReport)
    ensures TakesEffect(script, host, report) || AfterNft(script, host, report) == host
  {
  }

  lemma KernelRebuilt(s: State, input: Input, report: NftReport)
    requires KernelInv(s)
    ensures KernelInv(RebuildDone(s, input, GatewayScript(input), report))
  {
    hide AfterNft, TakesEffect, ExitsZero, GatewayScript;
    NoEffect(GatewayScript(input), s.host, report);
    RebuildEffect(input, s.host, report);
  }

  lemma KernelAdded(s: State, entries: seq<Element>, report: NftReport)
    requires KernelInv(s)
    ensures KernelInv(AddDone(s, AddScript(entries), report))
  {
    hide AfterNft, TakesEffect, ExitsZero, AddScript;
    AddEffect(entries, s.host, report);
  }

  lemma KernelNft(s: State, report: NftReport)
    requires KernelInv(s)
    ensures KernelInv(OnNftDone(s, report))
  {
    hide AfterNft, TakesEffect, ExitsZero, GatewayScript, RebuildDone, AddDone;
    match s.phase
    case Rebuilding(input) => KernelRebuilt(s, input, report);
    case TearingDown => NoEffect(TeardownScript(), s.host, report);
    case Adding(entries) => KernelAdded(s, entries, report);
    case _ =>
  }

  lemma KernelStep(site: Site, s: State, e: Event)
    requires BS.Consistent(s.held) && KernelInv(s)
    ensures KernelInv(Step(site, s, e))
  {
    hide KernelInv, StartRebuild, OnNftDone, BS.AddAll, BS.Added, BS.Consistent;
    match e
    case NftDone(report) => KernelNft(s, report);
    case StartNext =>
      if s.queue != [] {
        StartLeavesHost(site, s.(queue := s.queue[1..]));
      }
      KernelFrame(s, Step(site, s, e));
    case _ => KernelFrame(s, Step(site, s, e));
  }

  lemma KernelFrame(s: State, s': State)
    requires KernelInv(s) && s'.host == s.host && s'.installed == s.installed
    ensures KernelInv(s')
  {
  }

  /** Starting a rebuild reads settings, tunnel and memory, and touches neither kernel nor outcome. */
  ghost predicate OnlyStarted(s: State, s': State) {
    && s'.host == s.host && s'.installed == s.installed
    && s'.lastReconcileSucceeded == s.lastReconcileSucceeded && s'.addFailed == s.addFailed
    && s'.settings == s.settings && s'.vpnIface == s.vpnIface && s'.now == s.now
    && s'.hasReconciled == s.hasReconciled
    && s'.lastRead == Some((s.settings, s.vpnIface))
    && (s.rejected ==> s'.rejected)
  }

  lemma LaunchOnlyStarts(s: State, s1: State, held: BS.Held, input: Input)
    requires OnlyStarted(s, s1)
    ensures OnlyStarted(s, Launch(s1, held, input))
  {
    hide ValidInput;
  }

  lemma StartLeavesHost(site: Site, s: State)
    requires BS.Consistent(s.held)
    ensures OnlyStarted(s, StartRebuild(site, s))
  {
    hide BS.Pruned, BS.LiveOf, InputOf, Launch;
    var s1 := s.(lastRead := Some((s.settings, s.vpnIface)));
    assert OnlyStarted(s, s1);
    if NeedsTable(site, s.settings) {
      hide OnlyStarted;
      var entries := if BypassEnabled(s.settings) then BS.LiveOf(s.held, s.now) else [];
      var held := if BypassEnabled(s.settings) then BS.Pruned(s.held, s.now) else BS.NOTHING_HELD;
      LaunchOnlyStarts(s, s1, held, InputOf(site, s.settings, s.vpnIface, entries));
    }
  }

  lemma {:induction false} KernelAlways(site: Site, host: Nft.Ruleset, now: int, es: seq<Event>)
    ensures KernelInv(Reach(site, host, now, es))
  {
    if es != [] {
      hide KernelInv, Step;
      KernelAlways(site, host, now, es[..|es| - 1]);
      KernelStep(site, Reach(site, host, now, es[..|es| - 1]), es[|es| - 1]);
    }
  }

  // ---------------------------------------------------------------- what rebuilds have read

  ghost predicate SameButEntries(i: Input, j: Input) {
    && i.(bypass := None) == j.(bypass := None)
    && (i.bypass.Some? <==> j.bypass.Some?)
    && (i.bypass.Some? ==> i.bypass.value.explicitProxyUid == j.bypass.value.explicitProxyUid)
  }

  /** `i` was compiled, up to the held addresses, from the settings and tunnel in `read`. */
  ghost predicate CompiledFrom(site: Site, i: Input, read: (Settings, Option<string>)) {
    site.lanIface.Some? && SameButEntries(i, InputOf(site, read.0, read.1, []))
  }

  /**
   The latest rebuild read the current settings and tunnel, or another rebuild is on its way;
   and a rebuild in flight, or the table after a successful one, is compiled from what it read.
   */
  ghost predicate ReadInv(site: Site, s: State) {
    PendingInv(s) && StartedInv(site, s)
  }

  ghost predicate PendingInv(s: State) {
    && (!s.rejected ==>
          || Rebuild in s.queue
          || s.lastRead == Some((s.settings, s.vpnIface))
          || (s.lastRead.None? && !s.hasReconciled && s.settings == DEFAULT_SETTINGS && s.vpnIface == None))
    && (s.lastRead.None? ==> !s.lastReconcileSucceeded)
    && (s.rejected ==> s.queue == [])
  }

  ghost predicate StartedInv(site: Site, s: State) {
    && (s.phase.Rebuilding? ==>
          && s.lastRead.Some? && NeedsTable(site, s.lastRead.value.0)
          && CompiledFrom(site, s.phase.input, s.lastRead.value))
    && (s.phase.TearingDown? || s.phase == Syncing(true) ==>
          s.lastRead.Some? && !NeedsTable(site, s.lastRead.value.0))
    && (!s.phase.Rebuilding? && s.lastReconcileSucceeded && !s.rejected
        && s.lastRead.Some? && NeedsTable(site, s.lastRead.value.0) ==>
          s.installed.Some? && CompiledFrom(site, s.installed.value, s.lastRead.value))
  }

  /** Only the settings, the tunnel, the memory, the clock or the queue's tail have changed. */
  ghost predicate Quiet(s: State, s': State) {
    && s'.phase == s.phase && s'.lastRead == s.lastRead && s'.installed == s.installed
    && s'.lastReconcileSucceeded == s.lastReconcileSucceeded && s'.rejected == s.rejected
    && s'.host == s.host && s'.addFailed == s.addFailed
    && s.queue <= s'.queue
    && (s.rejected ==> s'.queue == s.queue)
    && (!s.rejected && s'.queue != s.queue + [Rebuild] ==>
          s'.settings == s.settings && s'.vpnIface == s.vpnIface && s'.hasReconciled == s.hasReconciled)
  }

  lemma QuietApply(s: State, settings: Settings)
    ensures Quiet(s, OnApplySettings(s, settings))
  {
  }

  lemma QuietVpn(s: State, vpnIface: Option<string>)
    ensures Quiet(s, OnUpdateVpnInterface(s, vpnIface))
  {
  }

  lemma QuietAdd(site: Site, s: State, records: seq<BS.ARecord>)
    ensures Quiet(s, OnAddBypass(site, s, records))
  {
    hide BS.AddAll, BS.Added;
  }

  lemma QuietCount(site: Site, s: State)
    requires BS.Consistent(s.held)
    ensures Quiet(s, Step(site, s, CountEntries))
  {
    hide BS.Pruned;
  }

  lemma QuietFrame(site: Site, s: State, e: Event)
    requires BS.Consistent(s.held)
    requires !e.NftDone? && !e.StartNext? && !e.SyncDone?
    ensures Quiet(s, Step(site, s, e))
  {
    hide BS.Consistent, OnApplySettings, OnUpdateVpnInterface, OnAddBypass;
    match e
    case ApplySettings(settings) => QuietApply(s, settings);
    case UpdateVpnInterface(v) => QuietVpn(s, v);
    case AddBypass(records) => QuietAdd(site, s, records);
    case CountEntries => QuietCount(site, s);
    case Tick(_) =>
  }

  lemma StartedUnaffected(site: Site, s: State, s': State)
    requires StartedInv(site, s)
    requires s'.phase == s.phase && s'.lastRead == s.lastRead && s'.installed == s.installed
    requires s'.lastReconcileSucceeded == s.lastReconcileSucceeded && s'.rejected == s.rejected
    ensures StartedInv(site, s')
  {
  }

  lemma ReadStepQuiet(site: Site, s: State, e: Event)
    requires BS.Consistent(s.held) && ReadInv(site, s)
    requires !e.NftDone? && !e.StartNext? && !e.SyncDone?
    ensures ReadInv(site, Step(site, s, e))
  {
    hide Step, StartedInv, BS.Consistent;
    QuietFrame(site, s, e);
    var s' := Step(site, s, e);
    assert Rebuild in s.queue ==> Rebuild in s'.queue;
    assert Rebuild in s.queue + [Rebuild];
    StartedUnaffected(site, s, s');
  }

  lemma ReadStepSync(site: Site, s: State)
    requires ReadInv(site, s)
    ensures ReadInv(site, OnSyncDone(s))
  {
    hide CompiledFrom, NeedsTable;
  }

  lemma ReadStepNft(site: Site, s: State, report: NftReport)
    requires ReadInv(site, s)
    ensures ReadInv(site, OnNftDone(s, report))
  {
    hide AfterNft, TakesEffect, ExitsZero, GatewayScript, CompiledFrom, NeedsTable;
    match s.phase
    case Rebuilding(input) => RebuildEffect(input, s.host, report);
    case _ =>
  }

  lemma ReadStepStart(site: Site, s: State)
    requires BS.Consistent(s.held) && ReadInv(site, s)
    ensures ReadInv(site, OnStartNext(site, s))
  {
    hide StartRebuild, CompiledFrom, NeedsTable, BS.Consistent;
    if s.phase == Idle && s.queue != [] {
      var s1 := s.(queue := s.queue[1..]);
      assert s.queue == [s.queue[0]] + s1.queue;
      match s.queue[0]
      case Rebuild =>
        StartLeavesHost(site, s1);
        StartPhase(site, s1);
      case AddElementsJob(entries) =>
        assert Rebuild in s.queue ==> Rebuild in s1.queue;
    }
  }

  lemma LaunchPhase(s: State, held: BS.Held, input: Input)
    requires s.phase == Idle
    ensures var s' := Launch(s, held, input);
            && (s'.phase == Idle || s'.phase == Rebuilding(input))
            && (s'.phase == Idle ==> s'.rejected)
            && (s'.rejected ==> s'.queue == [] || s.rejected)
            && (!s'.rejected ==> s'.queue == s.queue)
  {
    hide ValidInput;
  }

  lemma StartPhase(site: Site, s: State)
    requires BS.Consistent(s.held) && s.phase == Idle
    ensures var s' := StartRebuild(site, s);
            && (s'.phase == Idle || s'.phase.TearingDown? || s'.phase.Rebuilding?)
            && (s'.phase == Idle ==> s'.rejected)
            && (s'.phase.TearingDown? <==> !NeedsTable(site, s.settings))
            && (s'.phase.Rebuilding? ==> CompiledFrom(site, s'.phase.input, (s.settings, s.vpnIface)))
            && (s'.rejected ==> s'.queue == [] || s.rejected)
            && (!s'.rejected ==> s'.queue == s.queue)
  {
    hide BS.Pruned, BS.LiveOf, Launch;
    if NeedsTable(site, s.settings) {
      var s1 := s.(lastRead := Some((s.settings, s.vpnIface)));
      var entries := if BypassEnabled(s.settings) then BS.LiveOf(s.held, s.now) else [];
      var held := if BypassEnabled(s.settings) then BS.Pruned(s.held, s.now) else BS.NOTHING_HELD;
      var input := InputOf(site, s.settings, s.vpnIface, entries);
      LaunchPhase(s1, held, input);
      assert CompiledFrom(site, input, (s.settings, s.vpnIface));
      hide CompiledFrom, InputOf;
    }
  }

  lemma ReadStep(site: Site, s: State, e: Event)
    requires BS.Consistent(s.held) && ReadInv(site, s)
    ensures ReadInv(site, Step(site, s, e))
  {
    hide ReadInv, OnNftDone, OnStartNext, OnSyncDone, OnAddBypass, OnApplySettings, OnUpdateVpnInterface, BS.Consistent;
    match e
    case NftDone(report) => ReadStepNft(site, s, report);
    case StartNext => ReadStepStart(site, s);
    case SyncDone => ReadStepSync(site, s);
    case _ => ReadStepQuiet(site, s, e);
  }

  lemma {:induction false} ReadAlways(site: Site, host: Nft.Ruleset, now: int, es: seq<Event>)
    ensures ReadInv(site, Reach(site, host, now, es))
  {
    if es != [] {
      hide ReadInv, Step;
      ReadAlways(site, host, now, es[..|es| - 1]);
      ReadStep(site, Reach(site, host, now, es[..|es| - 1]), es[|es| - 1]);
    }
  }

  /** The event loop takes a rebuild from the queue. */
  predicate StartsRebuild(s: State, e: Event) {
    e.StartNext? && s.phase == Idle && s.queue != [] && s.queue[0] == Rebuild
  }

  ghost predicate QueueIdle(s: State) {
    s.phase == Idle && s.queue == [] && !s.rejected
  }

  // ---------------------------------------------------------------- leak safety

  /** Every rebuild of the run reads protected settings and a tunnel that is not the LAN itself. */
  ghost predicate GuardedReads(site: Site, host: Nft.Ruleset, now: int, es: seq<Event>) {
    forall k | 0 <= k < |es| && es[k].StartNext? ::
      GuardedStart(site, Reach(site, host, now, es[..k]))
  }

  ghost predicate GuardedStart(site: Site, s: State) {
    s.phase == Idle && s.queue != [] && s.queue[0] == Rebuild ==>
      && s.settings.transparentGatewayEnabled
      && s.settings.killSwitch
      && s.vpnIface != site.lanIface
  }

  ghost predicate Protective(site: Site, i: Input) {
    && site.lanIface == Some(i.lanIface)
    && i.transparentGateway
    && i.killSwitch
    && i.vpnIface != Some(i.lanIface)
  }

  ghost predicate LeakInv(site: Site, s: State) {
    && (s.installed.Some? ==> Protective(site, s.installed.value))
    && (s.phase.Rebuilding? ==> Protective(site, s.phase.input))
    && (site.lanIface.Some? ==> !s.phase.TearingDown?)
  }

  lemma LeakStep(site: Site, s: State, e: Event)
    requires BS.Consistent(s.held) && KernelInv(s) && LeakInv(site, s)
    requires e.StartNext? ==> GuardedStart(site, s)
    requires site.lanIface.None? ==> s.installed.None? && !s.phase.Rebuilding?
    ensures var s' := Step(site, s, e);
            && LeakInv(site, s')
            && (s.installed.Some? ==> s'.installed.Some?)
            && (site.lanIface.None? ==> s'.installed.None? && !s'.phase.Rebuilding?)
  {
    hide BS.AddAll, BS.Added, BS.Consistent, KernelInv, Protective, OnStartNext, OnNftDone;
    match e
    case StartNext => LeakStart(site, s);
    case NftDone(report) => LeakNft(site, s, report);
    case _ =>
  }

  lemma LeakStart(site: Site, s: State)
    requires BS.Consistent(s.held) && LeakInv(site, s) && GuardedStart(site, s)
    requires site.lanIface.None? ==> s.installed.None? && !s.phase.Rebuilding?
    ensures var s' := OnStartNext(site, s);
            && LeakInv(site, s') && s'.installed == s.installed
            && (site.lanIface.None? ==> !s'.phase.Rebuilding?)
  {
    hide StartRebuild;
    if s.phase == Idle && s.queue != [] {
      var s1 := s.(queue := s.queue[1..]);
      StartLeavesHost(site, s1);
      StartPhase(site, s1);
    }
  }

  lemma LeakNft(site: Site, s: State, report: NftReport)
    requires KernelInv(s) && LeakInv(site, s)
    requires site.lanIface.None? ==> s.installed.None? && !s.phase.Rebuilding?
    ensures var s' := OnNftDone(s, report);
            && LeakInv(site, s') && !s'.phase.Rebuilding?
            && (s.installed.Some? ==> s'.installed.Some?)
            && (site.lanIface.None? ==> s'.installed.None?)
  {
    hide AfterNft, TakesEffect, ExitsZero, GatewayScript, Protective, KernelInv;
    if s.phase.Rebuilding? {
      RebuildEffect(s.phase.input, s.host, report);
    }
  }

  lemma {:induction false} LeakAlways(site: Site, host: Nft.Ruleset, now: int, es: seq<Event>)
    requires GuardedReads(site, host, now, es)
    ensures var s := Reach(site, host, now, es);
            LeakInv(site, s) && (site.lanIface.None? ==> s.installed.None? && !s.phase.Rebuilding?)
  {
    if es != [] {
      hide LeakInv, KernelInv, Step;
      var front := es[..|es| - 1];
      GuardedPrefix(site, host, now, es, |es| - 1);
      LeakAlways(site, host, now, front);
      KernelAlways(site, host, now, front);
      LeakStep(site, Reach(site, host, now, front), es[|es| - 1]);
    }
  }

  lemma GuardedPrefix(site: Site, host: Nft.Ruleset, now: int, es: seq<Event>, n: nat)
    requires n <= |es| && GuardedReads(site, host, now, es)
    ensures GuardedReads(site, host, now, es[..n])
  {
    forall k | 0 <= k < n && es[..n][k].StartNext? ensures GuardedStart(site, Reach(site, host, now, es[..n][..k])) {
      assert es[..n][..k] == es[..k];
    }
  }

  lemma {:induction false} InstalledStays(site: Site, host: Nft.Ruleset, now: int, es: seq<Event>, n: nat)
    requires n <= |es| && GuardedReads(site, host, now, es)
    requires Reach(site, host, now, es[..n]).installed.Some?
    ensures Reach(site, host, now, es).installed.Some?
    decreases |es|
  {
    hide LeakInv, KernelInv, Step;
    if n == |es| {
      assert es[..n] == es;
    } else {
      var front := es[..|es| - 1];
      assert front[..n] == es[..n];
      GuardedPrefix(site, host, now, es, |es| - 1);
      InstalledStays(site, host, now, front, n);
      LeakAlways(site, host, now, front);
      KernelAlways(site, host, now, front);
      LeakStep(site, Reach(site, host, now, front), es[|es| - 1]);
    }
  }

  /**
   Leak safety over whole runs. If every rebuild reads protected settings, then from the first
   install on, at every moment (nft calls in flight, failed or timed out included), the table in the
   kernel forwards a LAN-originated packet only by the tunnel that table was built for.
   */
  lemma LeakSafety(site: Site, host: Nft.Ruleset, now: int, es: seq<Event>, n: nat, p: Packet)
    requires GuardedReads(site, host, now, es)
    requires n <= |es| && Reach(site, host, now, es[..n]).installed.Some?
    ensures var s := Reach(site, host, now, es);
            && s.installed.Some? && TABLE in s.host
            && (LanOriginated(s.installed.value, p) ==>
                  (Forwarded(s.host[TABLE], p) <==> s.installed.value.vpnIface == Some(p.oif)))
  {
    InstalledStays(site, host, now, es, n);
    LeakAlways(site, host, now, es);
    KernelAlways(site, host, now, es);
    var s := Reach(site, host, now, es);
    if LanOriginated(s.installed.value, p) {
      NoLeak(s.host[TABLE], s.installed.value, p);
    }
  }
}
