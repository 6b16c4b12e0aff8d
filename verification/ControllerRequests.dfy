/**
 The controller's variables as facts about the run: what was last asked for, whether the last rebuild
 succeeded. From these alone: when a request queues a rebuild, when a queued addition runs, and what
 the status is.
 */
module ControllerRequests {
  import opened Wrappers
  import opened Nft
  import opened Ruleset
  import opened GatewayController
  import opened ControllerSafety
  import BS = BypassSet

  // ---------------------------------------------------------------- the run so far

  function LastSettings(es: seq<Event>): Settings {
    if es == [] then DEFAULT_SETTINGS
    else match es[|es| - 1]
      case ApplySettings(settings) => settings
      case _ => LastSettings(es[..|es| - 1])
  }

  function LastTunnel(es: seq<Event>): Option<string> {
    if es == [] then None
    else match es[|es| - 1]
      case UpdateVpnInterface(vpnIface) => vpnIface
      case _ => LastTunnel(es[..|es| - 1])
  }

  /** Settings have arrived, or the tunnel has changed: something has been asked of the kernel. */
  predicate EverAsked(es: seq<Event>) {
    es != [] &&
    (|| es[|es| - 1].ApplySettings?
     || (es[|es| - 1].UpdateVpnInterface? && es[|es| - 1].vpnIface != LastTunnel(es[..|es| - 1]))
     || EverAsked(es[..|es| - 1]))
  }

  /**
   The last rebuild whose nft call has returned was reported a success, or was a teardown, which counts
   as one when it ends; none counts as a failure.
   */
  predicate LastRebuildSucceeded(site: Site, host: Nft.Ruleset, now: int, es: seq<Event>) {
    es != [] &&
    var before, front := Reach(site, host, now, es[..|es| - 1]), es[..|es| - 1];
    match es[|es| - 1]
    case NftDone(report) =>
      if before.phase.Rebuilding? then report == Succeeded else LastRebuildSucceeded(site, host, now, front)
    case SyncDone => before.phase == Syncing(true) || LastRebuildSucceeded(site, host, now, front)
    case _ => LastRebuildSucceeded(site, host, now, front)
  }

  predicate Bypassing(settings: Settings) { settings.dns.Some? && settings.dns.value.bypassEnabled }

  /** These settings call for a table. */
  predicate AskForTable(site: Site, settings: Settings) {
    site.lanIface.Some?
    && (settings.transparentGatewayEnabled || Bypassing(settings)
        || (settings.dns.Some? && settings.dns.value.redirect.Some?))
  }

  ghost predicate Remembers(site: Site, host: Nft.Ruleset, now: int, es: seq<Event>) {
    var s := Reach(site, host, now, es);
    && s.settings == LastSettings(es)
    && s.vpnIface == LastTunnel(es)
    && s.hasReconciled == EverAsked(es)
    && s.lastReconcileSucceeded == LastRebuildSucceeded(site, host, now, es)
  }

  /** How one event changes these four variables. */
  lemma VariablesStep(site: Site, s: State, e: Event)
    requires BS.Consistent(s.held)
    ensures var s' := Step(site, s, e);
            && s'.settings == (if e.ApplySettings? then e.settings else s.settings)
            && s'.vpnIface == (if e.UpdateVpnInterface? then e.vpnIface else s.vpnIface)
            && (e.ApplySettings? ==> (s'.hasReconciled && (s.hasReconciled || s'.hasReconciled)))
            && (e.UpdateVpnInterface? ==> (s'.hasReconciled <==> s.hasReconciled || e.vpnIface != s.vpnIface))
            && (!e.ApplySettings? && !e.UpdateVpnInterface? ==> s'.hasReconciled == s.hasReconciled)
            && (s'.lastReconcileSucceeded
                <==> if e.NftDone? && s.phase.Rebuilding? then e.report == Succeeded
                     else s.lastReconcileSucceeded || (e.SyncDone? && s.phase == Syncing(true)))
  {
    hide BS.Consistent, StartRebuild, OnNftDone, BS.AddAll, BS.Added, BS.Pruned;
    match e
    case StartNext =>
      if s.phase == Idle && s.queue != [] && s.queue[0] == Rebuild {
        StartLeavesHost(site, s.(queue := s.queue[1..]));
      }
    case NftDone(report) => VariablesNft(s, report);
    case _ =>
  }

  lemma VariablesNft(s: State, report: NftReport)
    ensures var s' := OnNftDone(s, report);
            && s'.settings == s.settings && s'.vpnIface == s.vpnIface && s'.hasReconciled == s.hasReconciled
            && (s'.lastReconcileSucceeded
                <==> if s.phase.Rebuilding? then report == Succeeded else s.lastReconcileSucceeded)
  {
    hide AfterNft, ExitsZero, TakesEffect, GatewayScript, TeardownScript, AddScript;
    if s.phase.Rebuilding? {
      RebuildEffect(s.phase.input, s.host, report);
    }
  }

  lemma {:induction false} RemembersAlways(site: Site, host: Nft.Ruleset, now: int, es: seq<Event>)
    ensures Remembers(site, host, now, es)
  {
    if es != [] {
      hide Step;
      var front, e := es[..|es| - 1], es[|es| - 1];
      RemembersAlways(site, host, now, front);
      VariablesStep(site, Reach(site, host, now, front), e);
    }
  }

  // ---------------------------------------------------------------- when a request queues a rebuild

  /**
   Settings queue a rebuild exactly when they differ from the last ones, when nothing has been asked
   before, or when the last rebuild failed: a failed rebuild is retried whenever settings are sent again.
   */
  lemma SettingsQueueExactly(site: Site, host: Nft.Ruleset, now: int, es: seq<Event>, settings: Settings)
    requires !Reach(site, host, now, es).rejected
    ensures Reach(site, host, now, es + [ApplySettings(settings)]).queue
            == Reach(site, host, now, es).queue
               + (if settings != LastSettings(es) || !EverAsked(es) || !LastRebuildSucceeded(site, host, now, es)
                  then [Rebuild] else [])
  {
    hide Reach, LastRebuildSucceeded, EverAsked, LastSettings;
    RemembersAlways(site, host, now, es);
    ReachStep(site, host, now, es, ApplySettings(settings));
    var queue := Reach(site, host, now, es).queue;
    assert queue + [] == queue;
  }

  /** News of the tunnel queues a rebuild exactly when the tunnel has changed. */
  lemma TunnelQueueExactly(site: Site, host: Nft.Ruleset, now: int, es: seq<Event>, vpnIface: Option<string>)
    requires !Reach(site, host, now, es).rejected
    ensures Reach(site, host, now, es + [UpdateVpnInterface(vpnIface)]).queue
            == Reach(site, host, now, es).queue + (if vpnIface != LastTunnel(es) then [Rebuild] else [])
  {
    hide Reach, LastRebuildSucceeded, EverAsked, LastSettings, LastTunnel;
    RemembersAlways(site, host, now, es);
    ReachStep(site, host, now, es, UpdateVpnInterface(vpnIface));
    var queue := Reach(site, host, now, es).queue;
    assert queue + [] == queue;
  }

  /** A failed first rebuild is retried: the input that would leave the kill switch uninstalled. */
  lemma FailedRebuildIsRetried(site: Site, host: Nft.Ruleset, now: int, es: seq<Event>, report: NftReport, settings: Settings)
    requires Reach(site, host, now, es).phase.Rebuilding? && report != Succeeded
    requires !Reach(site, host, now, es).rejected
    ensures var failed := es + [NftDone(report)] + [SyncDone];
            Reach(site, host, now, failed + [ApplySettings(settings)]).queue
            == Reach(site, host, now, failed).queue + [Rebuild]
  {
    hide Reach, Step, LastSettings, EverAsked;
    var es1 := es + [NftDone(report)];
    var failed := es1 + [SyncDone];
    assert es1[..|es1| - 1] == es && failed[..|failed| - 1] == es1;
    ReachStep(site, host, now, es, NftDone(report));
    ReachStep(site, host, now, es1, SyncDone);
    NftDoneSyncs(site, Reach(site, host, now, es), report);
    SettingsQueueExactly(site, host, now, failed, settings);
  }

  lemma NftDoneSyncs(site: Site, s: State, report: NftReport)
    requires BS.Consistent(s.held) && s.phase.Rebuilding? && !s.rejected
    ensures var s1 := Step(site, s, NftDone(report));
            && s1.phase == Syncing(false) && BS.Consistent(s1.held)
            && !s1.rejected && !Step(site, s1, SyncDone).rejected
  {
    hide AfterNft, ExitsZero, TakesEffect, GatewayScript, BS.Consistent;
    StepConsistent(site, s, NftDone(report));
  }

  // ---------------------------------------------------------------- when an addition is queued, and when it runs

  /** A registration is queued exactly when bypass is asked for, the LAN is known and a record can be bypassed. */
  lemma RegistrationQueueExactly(site: Site, host: Nft.Ruleset, now: int, es: seq<Event>, records: seq<BS.ARecord>)
    requires !Reach(site, host, now, es).rejected
    ensures Reach(site, host, now, es + [AddBypass(records)]).queue
            == Reach(site, host, now, es).queue
               + (if site.lanIface.Some? && Bypassing(LastSettings(es)) && BS.Added(records) != []
                  then [AddElementsJob(BS.Added(records))] else [])
  {
    hide Reach, LastRebuildSucceeded, EverAsked, LastSettings, BS.AddAll, BS.Added;
    RemembersAlways(site, host, now, es);
    ReachStep(site, host, now, es, AddBypass(records));
    var queue := Reach(site, host, now, es).queue;
    assert queue + [] == queue;
  }

  /** A queued addition calls nft exactly when the last rebuild succeeded and bypass is still asked for. */
  lemma AdditionRunsExactly(site: Site, host: Nft.Ruleset, now: int, es: seq<Event>)
    requires var s := Reach(site, host, now, es); s.phase == Idle && s.queue != [] && s.queue[0].AddElementsJob?
    ensures var s, s' := Reach(site, host, now, es), Reach(site, host, now, es + [StartNext]);
            && s'.queue == s.queue[1..]
            && s'.phase == if LastRebuildSucceeded(site, host, now, es) && site.lanIface.Some? && Bypassing(LastSettings(es))
                           then Adding(s.queue[0].entries) else Idle
  {
    hide Reach, LastRebuildSucceeded, EverAsked, LastSettings, StartRebuild;
    RemembersAlways(site, host, now, es);
    ReachStep(site, host, now, es, StartNext);
  }

  // ---------------------------------------------------------------- the status

  /**
   The status after any run: stopped exactly when the last settings leave the gateway off, unconfigured
   when the LAN is not known, an error when the last rebuild failed or none has ended, and otherwise
   active, with the last tunnel, blocking exactly without one under the kill switch.
   */
  lemma StatusOfRun(site: Site, host: Nft.Ruleset, now: int, es: seq<Event>)
    ensures var status := StatusOf(site, Reach(site, host, now, es));
            var on, lan := LastSettings(es).transparentGatewayEnabled, site.lanIface.Some?;
            var ok, open := LastRebuildSucceeded(site, host, now, es), !LastSettings(es).killSwitch;
            && (status.state == Stopped <==> !on)
            && (status.state == Unconfigured <==> on && !lan)
            && (status.state == Error <==> on && lan && !ok)
            && (status.state == Active <==> on && lan && ok)
            && status.vpnInterface == LastTunnel(es)
            && (status.killSwitchBlocking <==> on && lan && ok && !open && LastTunnel(es) == None)
            && status.wanInterface
               == (if on && lan && ok && open && LastTunnel(es) == None
                   then (if site.wanIface.Some? then site.wanIface else site.lanIface) else None)
  {
    hide Reach, LastRebuildSucceeded, EverAsked, LastSettings, LastTunnel;
    RemembersAlways(site, host, now, es);
  }
}
