/**
 `proxy/src/settings-request.ts`: from a settings request to what the relay and the gateway are told,
 and `proxy/src/network/connection-monitor.ts`: which interface counts as the tunnel. Proved here:
 exactly when the gateway's builder throws in a running server, and that both components agree on what
 bypass means.
 */
module SettingsRequest {
  import opened Wrappers
  import opened Text
  import opened GatewayController
  import opened ControllerSafety
  import opened ControllerRejection
  import opened Ruleset
  import Ipv4
  import Nft
  import BS = BypassSet
  import DM = DomainMatcher
  import PC = ProxyConfig
  import NL = NftListing
  import R = DnsRelay

  datatype Body = Body(
    killSwitch: bool,
    transparentGatewayEnabled: bool,
    excludedDomains: seq<string>,
    dnsRelayEnabled: bool,
    dnsUpstreamUrl: string,
    dnsUpstreamCaPem: string,
    dnsFailureMode: R.FailureMode,
    dnsFallbackServers: seq<string>,
    dnsClientNameServers: seq<string>,
    dnsRedirectEnabled: bool,
    dnsRedirectExcludedCidrs: seq<string>)

  function SanitizeExcludedDomains(domains: seq<string>): seq<string> {
    if domains == [] then []
    else
      SanitizeExcludedDomains(domains[..|domains| - 1])
      + (if DM.IsValidDomainPattern(domains[|domains| - 1]) then [domains[|domains| - 1]] else [])
  }

  function ValidCidrs(cidrs: seq<string>): seq<string> {
    if cidrs == [] then []
    else (if Ipv4.IsIpv4Cidr(cidrs[0]) then [cidrs[0]] else []) + ValidCidrs(cidrs[1..])
  }

  function ToRelayConfig(body: Body): R.Config {
    R.Config(SanitizeExcludedDomains(body.excludedDomains), body.dnsUpstreamUrl, body.dnsUpstreamCaPem,
             body.dnsFailureMode, body.dnsFallbackServers, body.dnsClientNameServers)
  }

  function ToGatewayDnsSettings(body: Body, listenAddress: Option<string>, port: int, relayActive: bool): DnsSettings {
    DnsSettings(
      body.dnsRelayEnabled && |SanitizeExcludedDomains(body.excludedDomains)| > 0,
      if relayActive && body.dnsRedirectEnabled && listenAddress.Some?
      then Some(DnsRedirect(listenAddress.value, port, ValidCidrs(body.dnsRedirectExcludedCidrs)))
      else None)
  }

  function ToGatewaySettings(body: Body, listenAddress: Option<string>, port: int, relayActive: bool): Settings {
    Settings(body.transparentGatewayEnabled, body.killSwitch,
             Some(ToGatewayDnsSettings(body, listenAddress, port, relayActive)))
  }

  // ---------------------------------------------------------------- what filtering leaves

  lemma {:induction false} CidrsFiltered(cidrs: seq<string>, c: string)
    ensures c in ValidCidrs(cidrs) <==> c in cidrs && Ipv4.IsIpv4Cidr(c)
  {
    hide Ipv4.IsIpv4Cidr;
    if cidrs != [] {
      CidrsFiltered(cidrs[1..], c);
      assert c in cidrs <==> c == cidrs[0] || c in cidrs[1..];
    }
  }

  /** Sanitising removes what the matcher ignores anyway. */
  lemma {:induction false} SanitizedCompilesAlike(domains: seq<string>)
    ensures DM.Compiled(SanitizeExcludedDomains(domains)) == DM.Compiled(domains)
  {
    hide DM.IsValidDomainPattern, DM.AddPattern;
    if domains != [] {
      var front, last := domains[..|domains| - 1], domains[|domains| - 1];
      SanitizedCompilesAlike(front);
      var clean := SanitizeExcludedDomains(front);
      CompiledSnoc(clean, last);
      InvalidAddsNothing(DM.Compiled(front), last);
      assert clean + [] == clean;
    }
  }

  lemma CompiledSnoc(patterns: seq<string>, p: string)
    ensures DM.Compiled(patterns + [p]) == DM.AddPattern(DM.Compiled(patterns), p)
  {
    hide DM.AddPattern;
    assert (patterns + [p])[..|patterns + [p]| - 1] == patterns;
  }

  lemma InvalidAddsNothing(m: DM.Matcher, p: string)
    ensures !DM.IsValidDomainPattern(p) ==> DM.AddPattern(m, p) == m
  {
    hide DM.IsValidDomainPattern, DM.NormalizeDomain;
  }

  lemma {:induction false} SanitizedMembers(domains: seq<string>, d: string)
    ensures d in SanitizeExcludedDomains(domains) <==> d in domains && DM.IsValidDomainPattern(d)
  {
    hide DM.IsValidDomainPattern;
    if domains != [] {
      var front := domains[..|domains| - 1];
      SanitizedMembers(front, d);
      assert d in domains <==> d in front || d == domains[|domains| - 1];
    }
  }

  /** A name that the pattern matches. */
  function Witness(pattern: string): string {
    if DM.IsWildcard(DM.NormalizeDomain(pattern)) then "a" + DM.NormalizeDomain(pattern)[1..]
    else DM.NormalizeDomain(pattern)
  }

  lemma NormalTwice(s: string)
    requires s == "" || s[|s| - 1] != '.'
    requires Lower(s) == s
    ensures DM.NormalizeDomain(s) == s
  {
  }

  /** A text ends as its last part does. */
  lemma EndsAsLastPart(s: string, sep: char)
    requires var parts := Split(s, sep); |parts| >= 2 && parts[|parts| - 1] != ""
    ensures var parts := Split(s, sep);
            var last := parts[|parts| - 1];
            s != "" && s[|s| - 1] == last[|last| - 1]
  {
    hide Split, Join;
    var parts := Split(s, sep);
    var front, last := parts[..|parts| - 1], parts[|parts| - 1];
    JoinSplit(s, sep);
    assert parts == front + [last];
    JoinAppend(front, [last], sep);
    JoinSingle(last, sep);
  }

  lemma JoinSingle(part: string, sep: char)
    ensures Join([part], sep) == part
  {
  }

  lemma ValidEndsInLabel(pattern: string)
    requires DM.IsValidDomainPattern(pattern)
    ensures var n := DM.NormalizeDomain(pattern); n != "" && n[|n| - 1] != '.'
  {
    hide Split, DM.NormalizeDomain;
    var n := DM.NormalizeDomain(pattern);
    var body := DM.BodyOf(n);
    var labels := Split(body, '.');
    assert DM.IsLabel(labels[|labels| - 1]);
    EndsAsLastPart(body, '.');
    assert n[|n| - 1] == body[|body| - 1];
  }

  lemma NormalIsLower(pattern: string)
    ensures Lower(DM.NormalizeDomain(pattern)) == DM.NormalizeDomain(pattern)
  {
    hide Lower;
    LowerIdempotent(pattern);
    LowerPrefix(Lower(pattern), |DM.NormalizeDomain(pattern)|);
  }

  lemma WitnessIsLower(pattern: string)
    ensures Lower(Witness(pattern)) == Witness(pattern)
  {
    hide DM.NormalizeDomain, Lower;
    var n := DM.NormalizeDomain(pattern);
    NormalIsLower(pattern);
    if DM.IsWildcard(n) {
      forall i | 0 <= i < |n| - 1 ensures Lower(n[1..])[i] == n[1..][i] {
        assert Lower(n)[i + 1] == n[i + 1];
      }
      assert Lower(n[1..]) == n[1..];
      LowerAppend("a", n[1..]);
      assert Lower("a") == "a";
    }
  }

  lemma LowerPrefix(s: string, n: nat)
    requires n <= |s| && Lower(s) == s
    ensures Lower(s[..n]) == s[..n]
  {
    forall i | 0 <= i < n ensures Lower(s[..n])[i] == s[..n][i] {
      assert Lower(s)[i] == s[i];
    }
  }

  lemma WitnessMatches(pattern: string)
    requires DM.IsValidDomainPattern(pattern)
    ensures DM.TextMatch(DM.NormalizeDomain(pattern), DM.NormalizeDomain(Witness(pattern)))
  {
    hide Split, DM.NormalizeDomain, DM.IsValidDomainPattern;
    var n, w := DM.NormalizeDomain(pattern), Witness(pattern);
    ValidEndsInLabel(pattern);
    WitnessIsLower(pattern);
    assert w[|w| - 1] == n[|n| - 1];
    NormalTwice(w);
    if DM.IsWildcard(n) {
      assert w[|w| - |n[1..]|..] == n[1..];
    }
  }

  /**
   Relay and gateway agree: the gateway is told to keep a bypass set exactly when the relay is enabled
   and its matcher matches some name at all.
   */
  lemma BypassEnabledExactly(body: Body, listenAddress: Option<string>, port: int, relayActive: bool)
    ensures ToGatewayDnsSettings(body, listenAddress, port, relayActive).bypassEnabled
            <==> body.dnsRelayEnabled
                 && exists name :: DM.Matches(DM.Compiled(ToRelayConfig(body).excludedDomains), name)
  {
    hide DM.IsValidDomainPattern, DM.Matches, DM.Compiled, DM.NormalizeDomain, DM.TextMatch;
    var clean := SanitizeExcludedDomains(body.excludedDomains);
    if clean == [] {
      forall name ensures !DM.Matches(DM.Compiled(clean), name) {
        DM.MatchesExactly(clean, name);
      }
    } else {
      var p := clean[0];
      SanitizedMembers(body.excludedDomains, p);
      WitnessMatches(p);
      DM.OnePattern(p, Witness(p));
      DM.MatchesExactly(clean, Witness(p));
      assert DM.CoveredBy(clean[0], Witness(p));
      assert DM.Matches(DM.Compiled(ToRelayConfig(body).excludedDomains), Witness(p));
    }
  }

  /**
   The gateway is told what was requested, and to redirect exactly when the relay is listening, on an
   address that is known, and redirecting is requested: to that address, except for the well-formed ones
   among the excluded blocks.
   */
  lemma RedirectExactlyAsRequested(body: Body, listenAddress: Option<string>, port: int, relayActive: bool, c: string)
    ensures var settings := ToGatewaySettings(body, listenAddress, port, relayActive);
            && settings.transparentGatewayEnabled == body.transparentGatewayEnabled && settings.killSwitch == body.killSwitch
            && settings.dns.Some?
            && var redirect := settings.dns.value.redirect;
               && (redirect.Some? <==> relayActive && body.dnsRedirectEnabled && listenAddress.Some?)
               && (redirect.Some? ==>
                     && Some(redirect.value.listenAddress) == listenAddress && redirect.value.port == port
                     && (c in redirect.value.excludedCidrs <==> c in body.dnsRedirectExcludedCidrs && Ipv4.IsIpv4Cidr(c)))
  {
    hide Ipv4.IsIpv4Cidr, SanitizeExcludedDomains;
    CidrsFiltered(body.dnsRedirectExcludedCidrs, c);
  }

  // ---------------------------------------------------------------- when the builder throws

  /** The tunnel that one look at the routes reports. */
  function MonitoredTunnel(egress: Option<string>, lanIface: Option<string>): Option<string> {
    if egress.Some? && egress != lanIface then egress else None
  }

  /**
   A name Linux gives to an interface, as one word of the route listing: at most 15 characters, none of
   them white space, '/' or ':'.
   */
  predicate IsKernelName(s: string) {
    && 1 <= |s| <= 15 && s != "." && s != ".."
    && forall i :: 0 <= i < |s| ==> s[i] != '/' && s[i] != ':' && !NL.IsSpace(s[i])
  }

  /** The uid is what the operating system gives, not a negative number. */
  predicate HasRealUid(site: Site) {
    site.explicitProxyUid.Some? ==> site.explicitProxyUid.value >= 0
  }

  /** Settings come from requests, the tunnel from the monitor, which passes on any name Linux allows. */
  ghost predicate FromServer(site: Site, e: Event) {
    match e
    case ApplySettings(settings) =>
      exists body, listenAddress: Option<string>, port, relayActive ::
        && settings == ToGatewaySettings(body, listenAddress, port, relayActive)
        && (listenAddress.Some? ==> Ipv4.IsIpv4Address(listenAddress.value))
        && 1 <= port <= 65535
    case UpdateVpnInterface(vpnIface) =>
      exists egress: Option<string> ::
        vpnIface == MonitoredTunnel(egress, site.lanIface) && (egress.Some? ==> IsKernelName(egress.value))
    case _ => true
  }

  ghost predicate AllFromServer(site: Site, es: seq<Event>) {
    forall k :: 0 <= k < |es| ==> FromServer(site, es[k])
  }

  /** Requests only ever ask for redirects that can be built. */
  ghost predicate GoodRedirect(s: State) {
    RedirectOf(s.settings).Some? ==> ValidRedirect(RedirectOf(s.settings).value)
  }

  predicate GoodName(iface: Option<string>) {
    iface.Some? ==> IsValidInterfaceName(iface.value)
  }

  /** The builder accepts the names it is given: those the process was started with, and the tunnel's. */
  predicate GoodNames(site: Site, vpnIface: Option<string>) {
    GoodName(site.lanIface) && GoodName(site.wanIface) && GoodName(vpnIface)
  }

  lemma RequestRedirectValid(body: Body, listenAddress: Option<string>, port: int, relayActive: bool)
    requires listenAddress.Some? ==> Ipv4.IsIpv4Address(listenAddress.value)
    requires 1 <= port <= 65535
    ensures var redirect := ToGatewayDnsSettings(body, listenAddress, port, relayActive).redirect;
            redirect.Some? ==> ValidRedirect(redirect.value)
  {
    hide Ipv4.IsIpv4Cidr, Ipv4.IsIpv4Address, SanitizeExcludedDomains;
    var cidrs := ValidCidrs(body.dnsRedirectExcludedCidrs);
    forall k | 0 <= k < |cidrs| ensures Ipv4.IsIpv4Cidr(cidrs[k]) {
      CidrsFiltered(body.dnsRedirectExcludedCidrs, cidrs[k]);
    }
  }

  lemma SettingsStep(site: Site, s: State, settings: Settings)
    requires FromServer(site, ApplySettings(settings))
    ensures GoodRedirect(OnApplySettings(s, settings))
  {
    hide Ipv4.IsIpv4Address, ValidRedirect, ToGatewayDnsSettings;
    var body, listenAddress: Option<string>, port, relayActive :|
      && settings == ToGatewaySettings(body, listenAddress, port, relayActive)
      && (listenAddress.Some? ==> Ipv4.IsIpv4Address(listenAddress.value))
      && 1 <= port <= 65535;
    RequestRedirectValid(body, listenAddress, port, relayActive);
  }

  /** Only a rebuild that starts can be rejected, and only settings events change the settings. */
  lemma SameRequest(site: Site, s: State, e: Event)
    requires BS.Consistent(s.held) && !e.ApplySettings? && !e.UpdateVpnInterface?
    ensures var s' := Step(site, s, e); s'.settings == s.settings && s'.vpnIface == s.vpnIface
    ensures !e.StartNext? ==> Step(site, s, e).rejected == s.rejected
    ensures e.StartNext? && !StartsRebuild(s, e) ==> Step(site, s, e).rejected == s.rejected
  {
    hide BS.Consistent, BS.AddAll, BS.Added, StartRebuild, AfterNft, ExitsZero, TakesEffect, IsBypassActive, GatewayScript, AddScript;
    if e.StartNext? && s.phase == Idle && s.queue != [] && s.queue[0] == Rebuild {
      StartLeavesHost(site, s.(queue := s.queue[1..]));
    }
  }

  lemma {:induction false} RedirectsAlwaysGood(site: Site, host: Nft.Ruleset, now: int, es: seq<Event>)
    requires AllFromServer(site, es)
    ensures GoodRedirect(Reach(site, host, now, es))
  {
    hide GoodRedirect, Step, FromServer;
    if es == [] {
      InitGood(host, now);
    } else {
      var front, e := es[..|es| - 1], es[|es| - 1];
      FrontFromServer(site, es);
      RedirectsAlwaysGood(site, host, now, front);
      RedirectStep(site, Reach(site, host, now, front), e);
    }
  }

  lemma FrontFromServer(site: Site, es: seq<Event>)
    requires es != [] && AllFromServer(site, es)
    ensures AllFromServer(site, es[..|es| - 1]) && FromServer(site, es[|es| - 1])
  {
    hide FromServer;
    var front := es[..|es| - 1];
    forall k | 0 <= k < |front| ensures FromServer(site, front[k]) {
      assert front[k] == es[k];
    }
  }

  lemma InitGood(host: Nft.Ruleset, now: int)
    ensures GoodRedirect(Init(host, now))
  {
  }

  lemma RedirectStep(site: Site, s: State, e: Event)
    requires BS.Consistent(s.held) && GoodRedirect(s) && FromServer(site, e)
    ensures GoodRedirect(Step(site, s, e))
  {
    hide GoodRedirect, FromServer, OnStartNext, OnNftDone, OnSyncDone, OnAddBypass, OnApplySettings, BS.Consistent;
    match e
    case ApplySettings(settings) => SettingsStep(site, s, settings);
    case UpdateVpnInterface(v) =>
      VpnKeepsSettings(s, v);
      GoodSame(s, Step(site, s, e));
    case _ =>
      SameRequest(site, s, e);
      GoodSame(s, Step(site, s, e));
  }

  lemma VpnKeepsSettings(s: State, vpnIface: Option<string>)
    ensures OnUpdateVpnInterface(s, vpnIface).settings == s.settings
  {
  }

  lemma GoodSame(s: State, t: State)
    requires GoodRedirect(s) && t.settings == s.settings
    ensures GoodRedirect(t)
  {
  }

  lemma InputValidExactly(site: Site, s: State)
    requires HasRealUid(site) && GoodRedirect(s) && site.lanIface.Some?
    ensures ValidInput(InputOf(site, s.settings, s.vpnIface, [])) <==> GoodNames(site, s.vpnIface)
  {
    hide IsValidInterfaceName, ValidRedirect;
  }

  /** A rebuild starts that calls for a table and reads a name the builder does not accept. */
  ghost predicate ReadsBadName(site: Site, s: State, e: Event) {
    StartsRebuild(s, e) && NeedsTable(site, s.settings) && !GoodNames(site, s.vpnIface)
  }

  lemma RejectedStepExactly(site: Site, host: Nft.Ruleset, now: int, es: seq<Event>, e: Event)
    requires HasRealUid(site) && AllFromServer(site, es) && !Reach(site, host, now, es).rejected
    ensures Step(site, Reach(site, host, now, es), e).rejected <==> ReadsBadName(site, Reach(site, host, now, es), e)
  {
    hide GoodRedirect, AllFromServer, HasRealUid, Reach, OnNftDone, OnSyncDone, OnAddBypass, OnStartNext, ValidInput, NeedsTable, InputOf, GoodNames;
    var s := Reach(site, host, now, es);
    RedirectsAlwaysGood(site, host, now, es);
    if StartsRebuild(s, e) {
      RejectedExactly(site, host, now, es);
      NeedsLan(site, s.settings);
      if site.lanIface.Some? {
        InputValidExactly(site, s);
      }
    } else if e.ApplySettings? || e.UpdateVpnInterface? {
      RequestsDoNotReject(site, s, e);
    } else {
      SameRequest(site, s, e);
    }
  }

  lemma RequestsDoNotReject(site: Site, s: State, e: Event)
    requires BS.Consistent(s.held) && (e.ApplySettings? || e.UpdateVpnInterface?)
    ensures Step(site, s, e).rejected == s.rejected
  {
    hide BS.Consistent;
  }

  lemma NeedsLan(site: Site, settings: Settings)
    ensures NeedsTable(site, settings) ==> site.lanIface.Some?
  {
  }

  lemma RejectionStays(site: Site, s: State, e: Event)
    requires BS.Consistent(s.held) && RejectedShape(s) && s.rejected
    ensures Step(site, s, e).rejected
  {
    hide BS.Consistent;
    RejectedStep(site, s, e);
  }

  ghost predicate EverReadsBadName(site: Site, host: Nft.Ruleset, now: int, es: seq<Event>) {
    exists k :: 0 <= k < |es| && ReadsBadName(site, Reach(site, host, now, es[..k]), es[k])
  }

  lemma EverLater(site: Site, host: Nft.Ruleset, now: int, front: seq<Event>, e: Event)
    ensures EverReadsBadName(site, host, now, front + [e])
            <==> EverReadsBadName(site, host, now, front) || ReadsBadName(site, Reach(site, host, now, front), e)
  {
    hide Reach, ReadsBadName;
    var es := front + [e];
    assert es[..|front|] == front && es[|front|] == e;
    assert forall k :: 0 <= k < |front| ==> front[k] == es[k] && front[..k] == es[..k];
    if EverReadsBadName(site, host, now, front) {
      var k :| 0 <= k < |front| && ReadsBadName(site, Reach(site, host, now, front[..k]), front[k]);
      assert ReadsBadName(site, Reach(site, host, now, es[..k]), es[k]);
    }
  }

  /**
   With settings from requests and tunnels from the monitor, in any order with everything else, the
   queue is rejected exactly when some rebuild called for a table and read a name that the builder does
   not accept: the tunnel's, which Linux may well allow, or one the process was started with. Nothing
   requested and no address registered ever causes it.
   */
  lemma {:induction false} RejectedRunExactly(site: Site, host: Nft.Ruleset, now: int, es: seq<Event>)
    requires HasRealUid(site) && AllFromServer(site, es)
    ensures Reach(site, host, now, es).rejected <==> EverReadsBadName(site, host, now, es)
  {
    hide ReadsBadName, EverReadsBadName, Reach, Step, FromServer, AllFromServer, HasRealUid, RejectedShape;
    if es == [] {
      NothingRejected(site, host, now);
    } else {
      var front, e := es[..|es| - 1], es[|es| - 1];
      assert es == front + [e];
      FrontFromServer(site, es);
      RejectedRunExactly(site, host, now, front);
      ReachStep(site, host, now, front, e);
      EverLater(site, host, now, front, e);
      if Reach(site, host, now, front).rejected {
        RejectedShapeAlways(site, host, now, front);
        RejectionStays(site, Reach(site, host, now, front), e);
      } else {
        RejectedStepExactly(site, host, now, front, e);
      }
    }
  }

  lemma NothingRejected(site: Site, host: Nft.Ruleset, now: int)
    ensures !Reach(site, host, now, []).rejected && !EverReadsBadName(site, host, now, [])
  {
  }

  /** Such a run exists, and it is one that ends with a status over a kernel that does the opposite. */
  lemma RejectionIsReceivable()
    ensures AllFromServer(LAN_SITE, REJECTING) && HasRealUid(LAN_SITE)
  {
    OpenAndClosedAreRequested();
    BadTunnelIsReported();
    assert MonitoredTunnel(None, LAN_SITE.lanIface) == None;
    forall k | 0 <= k < |REJECTING| ensures FromServer(LAN_SITE, REJECTING[k]) {
      assert REJECTING[k] in [ApplySettings(OPEN), StartNext, NftDone(Succeeded), SyncDone,
                              UpdateVpnInterface(BAD_TUNNEL), UpdateVpnInterface(None), ApplySettings(CLOSED)];
    }
  }

  lemma OpenAndClosedAreRequested()
    ensures FromServer(LAN_SITE, ApplySettings(OPEN)) && FromServer(LAN_SITE, ApplySettings(CLOSED))
  {
    var open := Body(false, true, [], false, "", "", R.FailClosed, [], [], false, []);
    var closed := open.(killSwitch := true);
    assert ToGatewaySettings(open, None, 53, false) == OPEN;
    assert ToGatewaySettings(closed, None, 53, false) == CLOSED;
  }

  lemma BadTunnelIsReported()
    ensures FromServer(LAN_SITE, UpdateVpnInterface(BAD_TUNNEL)) && FromServer(LAN_SITE, UpdateVpnInterface(None))
  {
    assert IsKernelName("wg+1");
    assert MonitoredTunnel(BAD_TUNNEL, LAN_SITE.lanIface) == BAD_TUNNEL;
    assert MonitoredTunnel(None, LAN_SITE.lanIface) == None;
  }

  /** The monitor never takes the LAN interface for the tunnel. */
  lemma {:induction false} TunnelIsNotLan(site: Site, host: Nft.Ruleset, now: int, es: seq<Event>)
    requires site.lanIface.Some? && AllFromServer(site, es)
    ensures Reach(site, host, now, es).vpnIface != site.lanIface
  {
    hide Step, FromServer;
    if es != [] {
      var front, e := es[..|es| - 1], es[|es| - 1];
      assert forall k :: 0 <= k < |front| ==> front[k] == es[k];
      assert FromServer(site, e);
      TunnelIsNotLan(site, host, now, front);
      TunnelStep(site, Reach(site, host, now, front), e);
    }
  }

  lemma TunnelStep(site: Site, s: State, e: Event)
    requires BS.Consistent(s.held) && FromServer(site, e) && site.lanIface.Some? && s.vpnIface != site.lanIface
    ensures Step(site, s, e).vpnIface != site.lanIface
  {
    hide BS.Consistent, OnStartNext, OnNftDone, OnSyncDone, OnAddBypass, IsKernelName, Reconcile;
    match e
    case ApplySettings(_) => ReconcileKeeps(s.(settings := e.settings));
    case UpdateVpnInterface(v) => ReconcileKeeps(s.(vpnIface := v));
    case _ => SameRequest(site, s, e);
  }

  lemma ReconcileKeeps(s: State)
    ensures Reconcile(s).vpnIface == s.vpnIface
  {
  }

  // ---------------------------------------------------------------- the explicit proxy's name server

  /** The relay's own address, as the explicit proxy is told. */
  function NameServerFor(relayActive: bool, port: nat): Option<string> {
    if !relayActive then None
    else if port == 53 then Some("127.0.0.1")
    else Some("127.0.0.1:" + Decimal(port))
  }

  lemma NameServerAccepted(relayActive: bool, port: nat)
    requires 1 <= port <= 65535
    ensures NameServerFor(relayActive, port).Some? ==> PC.IsNameServer(NameServerFor(relayActive, port).value)
  {
    hide Split, Decimal;
    Loopback();
    SplitWhole("127.0.0.1", ':');
    DecimalLength5(port);
    SplitWhole(Decimal(port), ':');
    SplitAppend("127.0.0.1", Decimal(port), ':');
    assert "127.0.0.1" + [':'] + Decimal(port) == "127.0.0.1:" + Decimal(port);
  }

  lemma Loopback()
    ensures Split("127.0.0.1", '.') == ["127", "0", "0", "1"]
    ensures ':' !in "127.0.0.1"
  {
    hide Split;
    SplitWhole("127", '.');
    SplitWhole("0", '.');
    SplitWhole("1", '.');
    SplitAppend("0", "1", '.');
    SplitAppend("0", "0.1", '.');
    SplitAppend("127", "0.0.1", '.');
    assert "0" + ['.'] + "1" == "0.1" && "0" + ['.'] + "0.1" == "0.0.1" && "127" + ['.'] + "0.0.1" == "127.0.0.1";
  }

  lemma DecimalLength5(n: nat)
    requires n < 100000
    ensures 1 <= |Decimal(n)| <= 5
  {
    if n >= 1000 {
      assert n / 100 < 1000 && n / 10 / 10 == n / 100;
      DecimalLength(n / 100);
      assert |Decimal(n)| == |Decimal(n / 10)| + 1;
      assert |Decimal(n / 10)| == |Decimal(n / 10 / 10)| + 1;
    } else {
      DecimalLength(n);
    }
  }
}
