/**
 What can be concluded from a controller at rest and from its status: when the kernel is as the
 settings ask, when a teardown has left a table behind, and when the reported status is the truth.
 */
module ControllerIdle {
  import opened Wrappers
  import opened Nft
  import opened Ruleset
  import opened GatewayController
  import opened ControllerSafety
  import opened ControllerRequests
  import opened ForwardVerdict
  import BS = BypassSet

  // ---------------------------------------------------------------- teardowns

  /** Event `k` is the end of a teardown's nft call. */
  ghost predicate EndsTeardown(site: Site, host: Nft.Ruleset, now: int, es: seq<Event>, k: nat) {
    k < |es| && es[k].NftDone? && Reach(site, host, now, es[..k]).phase.TearingDown?
  }

  ghost predicate LastTeardown(site: Site, host: Nft.Ruleset, now: int, es: seq<Event>, k: nat) {
    && EndsTeardown(site, host, now, es, k)
    && forall j :: k < j < |es| ==> !EndsTeardown(site, host, now, es, j)
  }

  /** That nft call took effect, or there was no table to remove. */
  ghost predicate LeftNothing(site: Site, host: Nft.Ruleset, now: int, es: seq<Event>, k: nat) {
    k < |es| && es[k].NftDone? && (es[k].report != FailedWithoutEffect || TABLE !in Reach(site, host, now, es[..k]).host)
  }

  /** A table remains exactly if the last teardown left it. */
  ghost predicate TornDown(site: Site, host: Nft.Ruleset, now: int, es: seq<Event>) {
    exists k: nat :: LastTeardown(site, host, now, es, k)
                     && (TABLE !in Reach(site, host, now, es).host <==> LeftNothing(site, host, now, es, k))
  }

  /** The last rebuild to be started was a teardown, and its nft call has ended. */
  ghost predicate DoneTearing(site: Site, s: State) {
    s.lastRead.Some? && !NeedsTable(site, s.lastRead.value.0) && !s.phase.TearingDown?
  }

  lemma TeardownOutcome(s: State, report: NftReport)
    requires s.phase.TearingDown?
    ensures TABLE !in OnNftDone(s, report).host <==> report != FailedWithoutEffect || TABLE !in s.host
  {
    TeardownRemovesTable(s.host);
  }

  /** Outside the end of a teardown, being done with one is not new, and the table stays as it was. */
  lemma DoneTearingStep(site: Site, s: State, e: Event)
    requires BS.Consistent(s.held) && ReadInv(site, s)
    requires DoneTearing(site, Step(site, s, e))
    requires !(s.phase.TearingDown? && e.NftDone?)
    ensures DoneTearing(site, s) && (TABLE in Step(site, s, e).host <==> TABLE in s.host)
  {
    hide BS.Consistent, NeedsTable, StartRebuild, OnNftDone, CompiledFrom, BS.AddAll, BS.Added, BS.Pruned;
    match e
    case StartNext =>
      if s.phase == Idle && s.queue != [] && s.queue[0] == Rebuild {
        var s1 := s.(queue := s.queue[1..]);
        StartLeavesHost(site, s1);
        StartPhase(site, s1);
      }
    case NftDone(report) => DoneTearingNft(site, s, report);
    case _ =>
  }

  lemma DoneTearingNft(site: Site, s: State, report: NftReport)
    requires ReadInv(site, s) && DoneTearing(site, OnNftDone(s, report)) && !s.phase.TearingDown?
    ensures DoneTearing(site, s) && (TABLE in OnNftDone(s, report).host <==> TABLE in s.host)
  {
    hide NeedsTable, AfterNft, ExitsZero, TakesEffect, CompiledFrom, GatewayScript, AddScript;
    if s.phase.Adding? {
      AddEffect(s.phase.entries, s.host, report);
    }
  }

  lemma TeardownsBefore(site: Site, host: Nft.Ruleset, now: int, front: seq<Event>, e: Event, k: nat)
    requires k < |front|
    ensures EndsTeardown(site, host, now, front + [e], k) <==> EndsTeardown(site, host, now, front, k)
    ensures LeftNothing(site, host, now, front + [e], k) <==> LeftNothing(site, host, now, front, k)
  {
    hide Reach;
    assert (front + [e])[..k] == front[..k];
  }

  lemma TornDownLater(site: Site, host: Nft.Ruleset, now: int, front: seq<Event>, e: Event)
    requires TornDown(site, host, now, front)
    requires !EndsTeardown(site, host, now, front + [e], |front|)
    requires TABLE in Reach(site, host, now, front + [e]).host <==> TABLE in Reach(site, host, now, front).host
    ensures TornDown(site, host, now, front + [e])
  {
    hide Reach, EndsTeardown, LeftNothing;
    var k: nat :| LastTeardown(site, host, now, front, k)
                  && (TABLE !in Reach(site, host, now, front).host <==> LeftNothing(site, host, now, front, k));
    EndsTeardownInRange(site, host, now, front, k);
    TeardownsBefore(site, host, now, front, e, k);
    forall j | k < j < |front + [e]| ensures !EndsTeardown(site, host, now, front + [e], j) {
      if j < |front| {
        TeardownsBefore(site, host, now, front, e, j);
      }
    }
    assert LastTeardown(site, host, now, front + [e], k);
  }

  lemma EndsTeardownInRange(site: Site, host: Nft.Ruleset, now: int, es: seq<Event>, k: nat)
    requires EndsTeardown(site, host, now, es, k)
    ensures k < |es|
  {
  }

  lemma TornDownNow(site: Site, host: Nft.Ruleset, now: int, front: seq<Event>, report: NftReport)
    requires Reach(site, host, now, front).phase.TearingDown?
    ensures TornDown(site, host, now, front + [NftDone(report)])
  {
    hide Reach, OnNftDone;
    var e := NftDone(report);
    assert (front + [e])[..|front|] == front;
    ReachStep(site, host, now, front, e);
    TeardownOutcome(Reach(site, host, now, front), report);
    assert LastTeardown(site, host, now, front + [e], |front|);
  }

  lemma {:induction false} TornDownAlways(site: Site, host: Nft.Ruleset, now: int, es: seq<Event>)
    requires DoneTearing(site, Reach(site, host, now, es))
    ensures TornDown(site, host, now, es)
  {
    hide DoneTearing, TornDown, EndsTeardown, Step, ReadInv;
    if es == [] {
      NothingRead(site, host, now);
    } else {
      var front, e := es[..|es| - 1], es[|es| - 1];
      var s := Reach(site, host, now, front);
      assert es == front + [e];
      ReachStep(site, host, now, front, e);
      if s.phase.TearingDown? && e.NftDone? {
        TornDownNow(site, host, now, front, e.report);
      } else {
        ReadAlways(site, host, now, front);
        DoneTearingStep(site, s, e);
        TornDownAlways(site, host, now, front);
        NotEnding(site, host, now, front, e);
        TornDownLater(site, host, now, front, e);
      }
    }
  }

  lemma NothingRead(site: Site, host: Nft.Ruleset, now: int)
    ensures !DoneTearing(site, Reach(site, host, now, []))
  {
  }

  lemma NotEnding(site: Site, host: Nft.Ruleset, now: int, front: seq<Event>, e: Event)
    requires !(Reach(site, host, now, front).phase.TearingDown? && e.NftDone?)
    ensures !EndsTeardown(site, host, now, front + [e], |front|)
  {
    hide Reach;
    assert (front + [e])[..|front|] == front;
  }

  // ---------------------------------------------------------------- at rest

  /**
   When the queue has gone idle and the last rebuild succeeded, whatever happened on the way there: the
   last settings, if they call for a table, have it, compiled from them and from the last tunnel; if they
   call for none, there is none exactly if the last teardown's nft call took effect or found none.
   */
  lemma IdleMeansCurrent(site: Site, host: Nft.Ruleset, now: int, es: seq<Event>)
    requires QueueIdle(Reach(site, host, now, es)) && LastRebuildSucceeded(site, host, now, es)
    ensures var s := Reach(site, host, now, es);
            if AskForTable(site, LastSettings(es)) then
              && s.installed.Some?
              && CompiledFrom(site, s.installed.value, (LastSettings(es), LastTunnel(es)))
              && TableBuiltFrom(s.host, s.installed.value) && HasEntries(s.host, s.installed.value)
            else TornDown(site, host, now, es)
  {
    hide Reach, NeedsTable, AskForTable, CompiledFrom, TornDown, TableBuiltFrom, HasEntries, LastSettings, LastTunnel, LastRebuildSucceeded, EverAsked;
    RemembersAlways(site, host, now, es);
    ReadAlways(site, host, now, es);
    KernelAlways(site, host, now, es);
    CalledForAlike(site, LastSettings(es));
    if !AskForTable(site, LastSettings(es)) {
      TornDownAlways(site, host, now, es);
    }
  }

  lemma CalledForAlike(site: Site, settings: Settings)
    ensures AskForTable(site, settings) <==> NeedsTable(site, settings)
  {
  }

  /** What a table compiled from settings and tunnel is compiled with. */
  lemma CompiledFields(site: Site, i: Input, settings: Settings, tunnel: Option<string>)
    requires CompiledFrom(site, i, (settings, tunnel))
    ensures site.lanIface == Some(i.lanIface)
    ensures site.wanIface == Some(i.wanIface) || (site.wanIface == None && i.wanIface == i.lanIface)
    ensures i.vpnIface == tunnel && i.killSwitch == settings.killSwitch
    ensures i.transparentGateway == settings.transparentGatewayEnabled
    ensures i.bypass.Some? <==> Bypassing(settings)
    ensures i.bypass.Some? ==> i.bypass.value.explicitProxyUid == site.explicitProxyUid
    ensures i.dnsRedirect == if settings.dns.Some? then settings.dns.value.redirect else None
  {
  }

  /**
   What the kernel does at rest after a success is what the last settings ask, packet by packet: it
   forwards as the gateway and the kill switch say, marks what is bypassed, the explicit proxy's own
   packets included, and redirects queries, and does none of it unless asked.
   */
  lemma IdleServesSettings(site: Site, host: Nft.Ruleset, now: int, es: seq<Event>, p: Packet)
    requires QueueIdle(Reach(site, host, now, es)) && LastRebuildSucceeded(site, host, now, es)
    requires AskForTable(site, LastSettings(es)) && LastTunnel(es) != site.lanIface
    ensures var s, settings, lan := Reach(site, host, now, es), LastSettings(es), site.lanIface.value;
            var wan := if site.wanIface.Some? then site.wanIface.value else lan;
            TABLE in s.host &&
            var t := s.host[TABLE];
            && (!settings.transparentGatewayEnabled ==> Forwarded(t, p))
            && (settings.transparentGatewayEnabled && p.iif == lan && !p.dnat && !(p.reply && p.established && p.oif != lan)
                && !(Bypassing(settings) && p.ctMark == BYPASS_FWMARK) ==>
                  (Forwarded(t, p) <==> if LastTunnel(es).Some? then LastTunnel(es) == Some(p.oif)
                                        else !settings.killSwitch && p.oif == wan))
            && Marked(t, p) == (if Bypassing(settings) && p.iif == lan && p.daddr in BypassElements(t)
                                then p.(mark := BYPASS_FWMARK, ctMark := BYPASS_FWMARK) else p)
            && MarkedOnOutput(t, p)
               == (if Bypassing(settings) && site.explicitProxyUid.Some? && p.skuid == site.explicitProxyUid
                      && p.daddr in BypassElements(t) then p.(mark := BYPASS_FWMARK) else p)
            && RedirectVerdict(t, p)
               == (if settings.dns.Some? && settings.dns.value.redirect.Some?
                      && RedirectApplies(lan, settings.dns.value.redirect.value, p)
                   then Redirected(settings.dns.value.redirect.value.listenAddress, settings.dns.value.redirect.value.port)
                   else Continue)
  {
    hide Reach, CompiledFrom, HasEntries, LastSettings, LastTunnel, LastRebuildSucceeded, EverAsked, Forwarded, Marked, MarkedOnOutput, RedirectVerdict, RedirectApplies, BypassElements, BuiltFrom;
    IdleMeansCurrent(site, host, now, es);
    var s := Reach(site, host, now, es);
    var i, t := s.installed.value, s.host[TABLE];
    CompiledFields(site, i, LastSettings(es), LastTunnel(es));
    ForwardExactly(t, i, p);
    MarkExactly(t, i, p);
    OutputMarkExactly(t, i, p);
    RedirectExactly(t, i, p);
  }

  /** The state after a teardown that failed without effect. */
  function AfterFailedTeardown(s: State, off: Settings): State {
    s.(settings := off, hasReconciled := true, lastRead := Some((off, s.vpnIface)), held := BS.NOTHING_HELD)
  }

  /**
   A teardown's exit code is ignored. From any state at rest, switching the gateway off with an nft call
   that has no effect ends at rest and successful with the kernel unchanged, and being told the same
   settings again does nothing.
   */
  lemma FailedTeardownIsForgotten(site: Site, s: State, off: Settings)
    requires BS.Consistent(s.held) && QueueIdle(s) && s.lastReconcileSucceeded
    requires off != s.settings && !NeedsTable(site, off)
    ensures BS.Consistent(BS.NOTHING_HELD)
    ensures var s1 := OnApplySettings(s, off);
            var s2 := OnStartNext(site, s1);
            var s3 := OnNftDone(s2, FailedWithoutEffect);
            var s' := AfterFailedTeardown(s, off);
            && OnSyncDone(s3) == s'
            && QueueIdle(s') && s'.lastReconcileSucceeded && s'.host == s.host
            && OnApplySettings(s', off) == s'
  {
    hide NeedsTable, BS.Consistent, TeardownScript;
    NothingIsConsistent();
    var s1 := OnApplySettings(s, off);
    assert s1.queue == [Rebuild] && s1.queue[1..] == [];
  }

  /** All the while the status is "stopped". */
  lemma OffIsReportedStopped(site: Site, s: State, off: Settings)
    requires site.lanIface.Some? && !NeedsTable(site, off)
    ensures StatusOf(site, AfterFailedTeardown(s, off)).state == Stopped
  {
  }

  // ---------------------------------------------------------------- the status

  /** Packets the status speaks of: from the LAN, with no permission of their own in the installed table. */
  predicate Concerned(site: Site, s: State, p: Packet) {
    if s.installed.Some? then LanOriginated(s.installed.value, p) else site.lanIface == Some(p.iif)
  }

  /** What the kernel does with a packet; without a table it stops nothing. */
  predicate LetThrough(s: State, p: Packet) {
    TABLE in s.host ==> Forwarded(s.host[TABLE], p)
  }

  /** The way out an active status reports: the tunnel, or the WAN interface when failing open, or none. */
  function ReportedWay(status: Status): Option<string> {
    if status.vpnInterface.Some? then status.vpnInterface else status.wanInterface
  }

  /** The status tells the truth: exactly the packets leaving by the reported way are let through. */
  ghost predicate Truthful(site: Site, s: State) {
    forall p :: Concerned(site, s, p) ==> (LetThrough(s, p) <==> Some(p.oif) == ReportedWay(StatusOf(site, s)))
  }

  /** The installed table's own way out for LAN traffic is the one reported. */
  predicate WayInstalled(site: Site, s: State) {
    s.installed.Some? && s.installed.value.transparentGateway
    && EgressIface(s.installed.value) == ReportedWay(StatusOf(site, s))
  }

  lemma InstalledWay(t: Table, i: Input, p: Packet)
    requires BuiltFrom(t, i) && i.vpnIface != Some(i.lanIface) && LanOriginated(i, p)
    ensures Forwarded(t, p) <==> !i.transparentGateway || Some(p.oif) == EgressIface(i)
  {
    ForwardExactly(t, i, p);
  }

  /** A packet from the LAN with no permission of its own, leaving by `oif`. */
  function Probe(lan: string, oif: string): Packet {
    Packet(lan, oif, "", "", OtherProtocol, 0, None, false, false, false, 0, 0)
  }

  /** A name other than the reported way out. */
  function OtherThan(way: Option<string>): (name: string)
    ensures Some(name) != way
  {
    if way == Some("") then "-" else ""
  }

  /**
   An active status is the truth exactly when the table last put into the kernel has the gateway's
   forward chain and lets the LAN out by the reported way: in every reached state, whatever is queued,
   in flight or rejected, as long as the kernel's table, if any, is this controller's.
   */
  lemma StatusExactly(site: Site, host: Nft.Ruleset, now: int, es: seq<Event>)
    requires var s := Reach(site, host, now, es);
             && StatusOf(site, s).state == Active
             && (TABLE in s.host ==> s.installed.Some?)
             && (s.installed.Some? ==> s.installed.value.vpnIface != Some(s.installed.value.lanIface))
    ensures var s := Reach(site, host, now, es);
            Truthful(site, s) <==> WayInstalled(site, s)
  {
    hide Reach, Forwarded, BuiltFrom, EgressIface;
    var s := Reach(site, host, now, es);
    KernelAlways(site, host, now, es);
    var way := ReportedWay(StatusOf(site, s));
    if s.installed.Some? {
      var i := s.installed.value;
      forall p | LanOriginated(i, p)
        ensures Forwarded(s.host[TABLE], p) <==> !i.transparentGateway || Some(p.oif) == EgressIface(i)
      {
        InstalledWay(s.host[TABLE], i, p);
      }
      WaysDiffer(site, s, i, way);
    } else {
      assert Concerned(site, s, Probe(site.lanIface.value, OtherThan(way)));
    }
  }

  lemma WaysDiffer(site: Site, s: State, i: Input, way: Option<string>)
    requires s.installed == Some(i) && TABLE in s.host && way == ReportedWay(StatusOf(site, s))
    requires forall p :: LanOriginated(i, p) ==>
               (Forwarded(s.host[TABLE], p) <==> !i.transparentGateway || Some(p.oif) == EgressIface(i))
    ensures Truthful(site, s) <==> WayInstalled(site, s)
  {
    hide Forwarded, EgressIface, StatusOf, ReportedWay;
    if !i.transparentGateway {
      var p := Probe(i.lanIface, OtherThan(way));
      assert LanOriginated(i, p) && Concerned(site, s, p) && LetThrough(s, p);
    } else if EgressIface(i) != way {
      var oif := if way.Some? then way.value else EgressIface(i).value;
      var p := Probe(i.lanIface, oif);
      assert LanOriginated(i, p) && Concerned(site, s, p);
    }
  }

  /** At rest an active status is the truth, and "blocking" means that nothing concerned passes. */
  lemma IdleStatusIsExact(site: Site, host: Nft.Ruleset, now: int, es: seq<Event>)
    requires var s := Reach(site, host, now, es);
             QueueIdle(s) && StatusOf(site, s).state == Active && s.vpnIface != site.lanIface
    ensures var s := Reach(site, host, now, es);
            && s.installed.Some? && TABLE in s.host
            && Truthful(site, s)
            && (StatusOf(site, s).killSwitchBlocking <==> ReportedWay(StatusOf(site, s)) == None)
  {
    hide Reach, Truthful, HasEntries, LastSettings, LastTunnel, LastRebuildSucceeded, EverAsked;
    var s := Reach(site, host, now, es);
    RemembersAlways(site, host, now, es);
    ActiveNeedsTable(site, s);
    CalledForAlike(site, s.settings);
    IdleMeansCurrent(site, host, now, es);
    StatusExactly(site, host, now, es);
  }

  lemma ActiveNeedsTable(site: Site, s: State)
    requires StatusOf(site, s).state == Active
    ensures NeedsTable(site, s.settings) && s.lastReconcileSucceeded
  {
  }
}
