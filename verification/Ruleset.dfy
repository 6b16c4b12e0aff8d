/**
 `proxy/src/network/ruleset.ts`: the compiler from settings and tunnel name to an nftables script.
 The method `BuildGatewayRuleset` is the source's function; `GatewayScript` is the script it returns and
 `TableOf` is, independently, the table that script is meant to leave behind.
 */
module Ruleset {
  import opened Wrappers
  import opened Nft
  import Ipv4

  const TABLE := "vpngwgui"
  const BYPASS_FWMARK: nat := 0x100
  const REDIRECTED_RECORD_SECONDS: nat := 600

  datatype BypassInput = BypassInput(entries: seq<Element>, explicitProxyUid: Option<int>)

  datatype DnsRedirect = DnsRedirect(listenAddress: string, port: int, excludedCidrs: seq<string>)

  datatype Input = Input(
    lanIface: string,
    wanIface: string,
    vpnIface: Option<string>,
    killSwitch: bool,
    transparentGateway: bool,
    bypass: Option<BypassInput>,
    dnsRedirect: Option<DnsRedirect>)

  datatype BuildError =
    | InvalidInterfaceName(name: string)
    | InvalidBypassEntry(entry: Element)
    | InvalidUid(uid: int)
    | InvalidListenAddress(address: string)
    | InvalidPort(port: int)
    | InvalidCidr(cidr: string)

  // ---------------------------------------------------------------- what the builder accepts

  predicate IsInterfaceChar(c: char) {
    'A' <= c <= 'Z' || 'a' <= c <= 'z' || '0' <= c <= '9' || c == '_' || c == '.' || c == '-'
  }

  predicate IsValidInterfaceName(s: string) {
    1 <= |s| <= 15 && forall i :: 0 <= i < |s| ==> IsInterfaceChar(s[i])
  }

  predicate IsValidEntry(e: Element) {
    Ipv4.IsIpv4Address(e.address) && e.timeoutSeconds >= 1
  }

  predicate ValidBypass(b: BypassInput) {
    && (forall i :: 0 <= i < |b.entries| ==> IsValidEntry(b.entries[i]))
    && (b.explicitProxyUid.Some? ==> b.explicitProxyUid.value >= 0)
  }

  predicate ValidRedirect(d: DnsRedirect) {
    && Ipv4.IsIpv4Address(d.listenAddress)
    && 1 <= d.port <= 65535
    && (forall i :: 0 <= i < |d.excludedCidrs| ==> Ipv4.IsIpv4Cidr(d.excludedCidrs[i]))
  }

  predicate ValidInput(i: Input) {
    && IsValidInterfaceName(i.lanIface)
    && IsValidInterfaceName(i.wanIface)
    && (i.vpnIface.Some? ==> IsValidInterfaceName(i.vpnIface.value))
    && (i.bypass.Some? ==> ValidBypass(i.bypass.value))
    && (i.dnsRedirect.Some? ==> ValidRedirect(i.dnsRedirect.value))
  }

  /** The reported error names a value of the input that really is malformed. */
  ghost predicate Justified(i: Input, e: BuildError) {
    match e
    case InvalidInterfaceName(n) =>
      !IsValidInterfaceName(n) && (n == i.lanIface || n == i.wanIface || i.vpnIface == Some(n))
    case InvalidBypassEntry(x) => i.bypass.Some? && x in i.bypass.value.entries && !IsValidEntry(x)
    case InvalidUid(u) => i.bypass.Some? && i.bypass.value.explicitProxyUid == Some(u) && u < 0
    case InvalidListenAddress(a) =>
      i.dnsRedirect.Some? && i.dnsRedirect.value.listenAddress == a && !Ipv4.IsIpv4Address(a)
    case InvalidPort(p) => i.dnsRedirect.Some? && i.dnsRedirect.value.port == p && !(1 <= p <= 65535)
    case InvalidCidr(c) => i.dnsRedirect.Some? && c in i.dnsRedirect.value.excludedCidrs && !Ipv4.IsIpv4Cidr(c)
  }

  // ---------------------------------------------------------------- the script

  function TeardownScript(): Script {
    [DeleteTable(TABLE)]
  }

  function Header(): Script {
    [AddTable(TABLE), DeleteTable(TABLE), AddTable(TABLE)]
  }

  function AddRules(chain: ChainName, rules: seq<Rule>): Script {
    seq(|rules|, k requires 0 <= k < |rules| => AddRule(TABLE, chain, rules[k]))
  }

  function BaseChains(i: Input): Script {
    (if i.transparentGateway || i.bypass.Some?
     then [AddChain(TABLE, PostroutingChain, Nat, Postrouting, 100)] else []) +
    (if i.transparentGateway then [AddChain(TABLE, ForwardChain, Filter, Forward, 0)] else [])
  }

  function MarkRule(lan: string): Rule {
    [IifName(lan), DaddrIn(Bypass4), SetMark(BYPASS_FWMARK), SetCtMark(BYPASS_FWMARK)]
  }

  function MarkOutputRule(uid: int): Rule {
    [SocketUid(uid), DaddrIn(Bypass4), SetMark(BYPASS_FWMARK)]
  }

  function BypassMasqueradeRule(wan: string): Rule {
    [MarkIs(BYPASS_FWMARK), OifName(wan), Masquerade]
  }

  function BypassPart(i: Input): Script
  {
    if i.bypass.None? then [] else
      var b := i.bypass.value;
      [AddSet(TABLE, Bypass4, false)] +
      (if |b.entries| > 0 then [AddElements(TABLE, Bypass4, b.entries)] else []) +
      [AddChain(TABLE, BypassMark, Filter, Prerouting, -150),
       AddRule(TABLE, BypassMark, MarkRule(i.lanIface))] +
      (if b.explicitProxyUid.Some? then
         [AddChain(TABLE, BypassMarkOutput, Route, Output, -150),
          AddRule(TABLE, BypassMarkOutput, MarkOutputRule(b.explicitProxyUid.value))]
       else []) +
      [AddRule(TABLE, PostroutingChain, BypassMasqueradeRule(i.wanIface))]
  }

  function RedirectRule(lan: string, d: DnsRedirect): Rule
  {
    [IifName(lan), L4UdpOrTcp, DestinationPort(53), DaddrNotIn([d.listenAddress] + d.excludedCidrs),
     RecordSource(Redirected4, REDIRECTED_RECORD_SECONDS), DnatTo(d.listenAddress, d.port)]
  }

  function RedirectPart(i: Input): Script
  {
    if i.dnsRedirect.None? then [] else
      [AddSet(TABLE, Redirected4, true),
       AddChain(TABLE, DnsRedirectChain, Nat, Prerouting, -100),
       AddRule(TABLE, DnsRedirectChain, RedirectRule(i.lanIface, i.dnsRedirect.value))]
  }

  /** Accepted whatever the tunnel and the kill switch: DNATed, replies away from the LAN, marked. */
  function StandingRules(i: Input): seq<Rule> {
    [[CtStatusDnat, Accept],
     [OifNameNot(i.lanIface), CtDirectionReply, CtEstablishedRelated, Accept]] +
    (if i.bypass.Some? then [[CtMarkIs(BYPASS_FWMARK), Accept]] else [])
  }

  /** The way out: the tunnel, or the WAN interface when failing open, or none. */
  function PathRules(i: Input): seq<Rule> {
    match i.vpnIface
    case Some(vpn) =>
      [[IifName(i.lanIface), OifName(vpn), Accept],
       [IifName(vpn), OifName(i.lanIface), CtEstablishedRelated, Accept],
       [IifName(vpn), Drop]]
    case None =>
      if i.killSwitch then [] else
        [[IifName(i.lanIface), OifName(i.wanIface), Accept],
         [IifName(i.wanIface), OifName(i.lanIface), CtEstablishedRelated, Accept]]
  }

  function LanDrop(i: Input): Rule {
    [IifName(i.lanIface), Drop]
  }

  /** Interface that LAN traffic is masqueraded on, if any. */
  function EgressIface(i: Input): Option<string> {
    match i.vpnIface
    case Some(vpn) => Some(vpn)
    case None => if i.killSwitch then None else Some(i.wanIface)
  }

  function MasqueradeRules(i: Input): seq<Rule> {
    match EgressIface(i)
    case Some(iface) => [[OifName(iface), Masquerade]]
    case None => []
  }

  function ForwardPart(i: Input): Script {
    if !i.transparentGateway then [] else
      AddRules(ForwardChain, StandingRules(i)) + AddRules(PostroutingChain, MasqueradeRules(i)) +
      AddRules(ForwardChain, PathRules(i)) + AddRules(ForwardChain, [LanDrop(i)])
  }

  function GatewayScript(i: Input): Nft.Script
  {
    Header() + Body(i)
  }

  function Body(i: Input): Nft.Script {
    BaseChains(i) + BypassPart(i) + RedirectPart(i) + ForwardPart(i)
  }

  // ---------------------------------------------------------------- the builder

  function Interfaces(i: Input): seq<string> {
    [i.lanIface, i.wanIface] + (if i.vpnIface.Some? then [i.vpnIface.value] else [])
  }

  /** The first malformed value in the source's order of checking, if any. */
  method Validate(i: Input) returns (problem: Option<BuildError>)
    ensures problem.None? <==> ValidInput(i)
    ensures problem.Some? ==> Justified(i, problem.value)
  {
    var ifaces := Interfaces(i);
    for k := 0 to |ifaces|
      invariant forall j :: 0 <= j < k ==> IsValidInterfaceName(ifaces[j])
    {
      if !IsValidInterfaceName(ifaces[k]) {
        return Some(InvalidInterfaceName(ifaces[k]));
      }
    }
    assert IsValidInterfaceName(ifaces[0]) && IsValidInterfaceName(ifaces[1]);
    assert i.vpnIface.Some? ==> IsValidInterfaceName(ifaces[2]);
    if i.bypass.Some? {
      var entries := i.bypass.value.entries;
      for k := 0 to |entries|
        invariant forall j :: 0 <= j < k ==> IsValidEntry(entries[j])
      {
        if !IsValidEntry(entries[k]) {
          return Some(InvalidBypassEntry(entries[k]));
        }
      }
      var uid := i.bypass.value.explicitProxyUid;
      if uid.Some? && uid.value < 0 {
        return Some(InvalidUid(uid.value));
      }
    }
    if i.dnsRedirect.Some? {
      var d := i.dnsRedirect.value;
      if !Ipv4.IsIpv4Address(d.listenAddress) {
        return Some(InvalidListenAddress(d.listenAddress));
      }
      if d.port < 1 || d.port > 65535 {
        return Some(InvalidPort(d.port));
      }
      for k := 0 to |d.excludedCidrs|
        invariant forall j :: 0 <= j < k ==> Ipv4.IsIpv4Cidr(d.excludedCidrs[j])
      {
        if !Ipv4.IsIpv4Cidr(d.excludedCidrs[k]) {
          return Some(InvalidCidr(d.excludedCidrs[k]));
        }
      }
    }
    return None;
  }

  /** Validates every value that will be embedded, then emits the commands line by line. */
  method BuildGatewayRuleset(i: Input) returns (r: Result<Nft.Script, BuildError>)
    ensures r.Success? <==> ValidInput(i)
    ensures r.Success? ==> r.value == GatewayScript(i)
    ensures r.Failure? ==> Justified(i, r.error)
  {
    var problem := Validate(i);
    if problem.Some? {
      return Failure(problem.value);
    }

    var lines := Header();
    var baseLines := EmitBase(i);
    lines := lines + baseLines;
    var bypassLines := EmitBypass(i);
    lines := lines + bypassLines;
    var redirectLines := EmitRedirect(i);
    lines := lines + redirectLines;
    var forwardLines := EmitForward(i);
    Regroup(Header(), baseLines, bypassLines, redirectLines, forwardLines);
    return Success(lines + forwardLines);
  }

  lemma Regroup(h: Nft.Script, a: Nft.Script, b: Nft.Script, c: Nft.Script, d: Nft.Script)
    ensures h + a + b + c + d == h + (a + b + c + d)
  {
  }

  method EmitBase(i: Input) returns (lines: Nft.Script)
    ensures lines == BaseChains(i)
  {
    lines := [];
    if i.transparentGateway || i.bypass.Some? {
      lines := lines + [AddChain(TABLE, PostroutingChain, Nat, Postrouting, 100)];
    }
    if i.transparentGateway {
      lines := lines + [AddChain(TABLE, ForwardChain, Filter, Forward, 0)];
    }
  }

  method EmitBypass(i: Input) returns (lines: Nft.Script)
    ensures lines == BypassPart(i)
  {
    lines := [];
    if i.bypass.Some? {
      var b := i.bypass.value;
      lines := [AddSet(TABLE, Bypass4, false)];
      if |b.entries| > 0 {
        lines := lines + [AddElements(TABLE, Bypass4, b.entries)];
      }
      lines := lines + [AddChain(TABLE, BypassMark, Filter, Prerouting, -150)];
      lines := lines + [AddRule(TABLE, BypassMark, MarkRule(i.lanIface))];
      if b.explicitProxyUid.Some? {
        lines := lines + [AddChain(TABLE, BypassMarkOutput, Route, Output, -150)];
        lines := lines + [AddRule(TABLE, BypassMarkOutput, MarkOutputRule(b.explicitProxyUid.value))];
      }
      lines := lines + [AddRule(TABLE, PostroutingChain, BypassMasqueradeRule(i.wanIface))];
    }
  }

  method EmitRedirect(i: Input) returns (lines: Nft.Script)
    ensures lines == RedirectPart(i)
  {
    lines := [];
    if i.dnsRedirect.Some? {
      lines := lines + [AddSet(TABLE, Redirected4, true)];
      lines := lines + [AddChain(TABLE, DnsRedirectChain, Nat, Prerouting, -100)];
      lines := lines + [AddRule(TABLE, DnsRedirectChain, RedirectRule(i.lanIface, i.dnsRedirect.value))];
    }
  }

  method EmitForward(i: Input) returns (lines: Nft.Script)
    ensures lines == ForwardPart(i)
  {
    if !i.transparentGateway {
      return [];
    }
    lines := [AddRule(TABLE, ForwardChain, [CtStatusDnat, Accept])];
    lines := lines + [AddRule(TABLE, ForwardChain,
                              [OifNameNot(i.lanIface), CtDirectionReply, CtEstablishedRelated, Accept])];
    if i.bypass.Some? {
      lines := lines + [AddRule(TABLE, ForwardChain, [CtMarkIs(BYPASS_FWMARK), Accept])];
    }
    assert lines == AddRules(ForwardChain, StandingRules(i));
    if i.vpnIface.Some? {
      var vpn := i.vpnIface.value;
      var path := [AddRule(TABLE, PostroutingChain, [OifName(vpn), Masquerade])];
      path := path + [AddRule(TABLE, ForwardChain, [IifName(i.lanIface), OifName(vpn), Accept])];
      path := path + [AddRule(TABLE, ForwardChain, [IifName(vpn), OifName(i.lanIface), CtEstablishedRelated, Accept])];
      path := path + [AddRule(TABLE, ForwardChain, [IifName(vpn), Drop])];
      assert path == AddRules(PostroutingChain, MasqueradeRules(i)) + AddRules(ForwardChain, PathRules(i));
      lines := lines + path;
    } else if !i.killSwitch {
      var path := [AddRule(TABLE, PostroutingChain, [OifName(i.wanIface), Masquerade])];
      path := path + [AddRule(TABLE, ForwardChain, [IifName(i.lanIface), OifName(i.wanIface), Accept])];
      path := path + [AddRule(TABLE, ForwardChain,
                              [IifName(i.wanIface), OifName(i.lanIface), CtEstablishedRelated, Accept])];
      assert path == AddRules(PostroutingChain, MasqueradeRules(i)) + AddRules(ForwardChain, PathRules(i));
      lines := lines + path;
    }
    lines := lines + [AddRule(TABLE, ForwardChain, [IifName(i.lanIface), Drop])];
  }

  // ---------------------------------------------------------------- the table it is meant to leave

  function PostroutingRules(i: Input): seq<Rule> {
    (if i.bypass.Some? then [BypassMasqueradeRule(i.wanIface)] else []) +
    (if i.transparentGateway then MasqueradeRules(i) else [])
  }

  function ForwardRules(i: Input): seq<Rule> {
    StandingRules(i) + PathRules(i) + [LanDrop(i)]
  }

  predicate HasChain(i: Input, c: ChainName) {
    match c
    case PostroutingChain => i.transparentGateway || i.bypass.Some?
    case ForwardChain => i.transparentGateway
    case BypassMark => i.bypass.Some?
    case BypassMarkOutput => i.bypass.Some? && i.bypass.value.explicitProxyUid.Some?
    case DnsRedirectChain => i.dnsRedirect.Some?
  }

  function ChainOf(i: Input, c: ChainName): Chain
    requires HasChain(i, c)
  {
    match c
    case PostroutingChain => Chain(Nat, Postrouting, 100, PostroutingRules(i))
    case ForwardChain => Chain(Filter, Forward, 0, ForwardRules(i))
    case BypassMark => Chain(Filter, Prerouting, -150, [MarkRule(i.lanIface)])
    case BypassMarkOutput => Chain(Route, Output, -150, [MarkOutputRule(i.bypass.value.explicitProxyUid.value)])
    case DnsRedirectChain => Chain(Nat, Prerouting, -100, [RedirectRule(i.lanIface, i.dnsRedirect.value)])
  }

  function ChainsOf(i: Input): map<ChainName, Chain> {
    map c: ChainName | HasChain(i, c) :: ChainOf(i, c)
  }

  function SetsOf(i: Input): map<SetName, Set> {
    (if i.bypass.Some? then map[Bypass4 := Set(false, Addresses(i.bypass.value.entries))] else map[]) +
    (if i.dnsRedirect.Some? then map[Redirected4 := Set(true, {})] else map[])
  }

  function TableOf(i: Input): Table
  {
    Table(ChainsOf(i), SetsOf(i))
  }

  // ---------------------------------------------------------------- running the script

  function AfterBase(i: Input): Table {
    Table((if i.transparentGateway || i.bypass.Some?
           then map[PostroutingChain := Chain(Nat, Postrouting, 100, [])] else map[]) +
          (if i.transparentGateway
           then map[ForwardChain := Chain(Filter, Forward, 0, [])] else map[]),
          map[])
  }

  function AfterMarking(i: Input): Table
    requires i.bypass.Some?
  {
    Table(AfterBase(i).chains[BypassMark := Chain(Filter, Prerouting, -150, [MarkRule(i.lanIface)])],
          map[Bypass4 := Set(false, Addresses(i.bypass.value.entries))])
  }

  function WithOutputMark(t: Table, uid: Option<int>): Table {
    if uid.None? then t else
      t.(chains := t.chains[BypassMarkOutput := Chain(Route, Output, -150, [MarkOutputRule(uid.value)])])
  }

  function WithBypassMasquerade(t: Table, wan: string): Table {
    t.(chains := t.chains[PostroutingChain := Chain(Nat, Postrouting, 100, [BypassMasqueradeRule(wan)])])
  }

  function AfterBypass(i: Input): Table {
    if i.bypass.None? then AfterBase(i)
    else WithBypassMasquerade(WithOutputMark(AfterMarking(i), i.bypass.value.explicitProxyUid), i.wanIface)
  }

  function AfterRedirect(i: Input): Table
  {
    if i.dnsRedirect.None? then AfterBypass(i) else
      Table(AfterBypass(i).chains[DnsRedirectChain :=
              Chain(Nat, Prerouting, -100, [RedirectRule(i.lanIface, i.dnsRedirect.value)])],
            AfterBypass(i).sets[Redirected4 := Set(true, {})])
  }

  lemma RunHeader(host: Ruleset)
    ensures Run(Header(), host) == Some(host[TABLE := Table(map[], map[])])
  {
    var s := Header();
    var h1 := Exec(s[0], host).value;
    var h2 := h1 - {TABLE};
    assert Exec(s[1], h1) == Some(h2);
    var h3 := h2[TABLE := Table(map[], map[])];
    assert Exec(s[2], h2) == Some(h3);
    assert s[1..][1..][1..] == [];
    assert Run(s[1..][1..], h2) == Some(h3);
    assert h3 == host[TABLE := Table(map[], map[])];
  }

  lemma RunBase(i: Input)
    ensures RunInTable(BaseChains(i), Table(map[], map[])) == Some(AfterBase(i))
  {
    var post := AddChain(TABLE, PostroutingChain, Nat, Postrouting, 100);
    var forw := AddChain(TABLE, ForwardChain, Filter, Forward, 0);
    var empty := Table(map[], map[]);
    if i.transparentGateway {
      assert BaseChains(i) == [post, forw];
      RunTwo(post, forw, empty);
      assert ExecInTable(forw, ExecInTable(post, empty).value).value.chains == AfterBase(i).chains;
    } else if i.bypass.Some? {
      assert BaseChains(i) == [post];
      RunOne(post, empty);
      assert ExecInTable(post, empty).value.chains == AfterBase(i).chains;
    }
  }

  lemma RunBypassSet(i: Input, t: Table)
    requires i.bypass.Some? && Bypass4 !in t.sets
    ensures var b := i.bypass.value;
            RunInTable([AddSet(TABLE, Bypass4, false)] +
                       (if |b.entries| > 0 then [AddElements(TABLE, Bypass4, b.entries)] else []), t)
            == Some(t.(sets := t.sets[Bypass4 := Set(false, Addresses(b.entries))]))
  {
    var b := i.bypass.value;
    var c1 := AddSet(TABLE, Bypass4, false);
    var c2 := AddElements(TABLE, Bypass4, b.entries);
    var goal := t.(sets := t.sets[Bypass4 := Set(false, Addresses(b.entries))]);
    if |b.entries| > 0 {
      RunTwo(c1, c2, t);
      assert [c1] + [c2] == [c1, c2];
      assert {} + Addresses(b.entries) == Addresses(b.entries);
      assert ExecInTable(c2, ExecInTable(c1, t).value).value.sets == goal.sets;
    } else {
      RunOne(c1, t);
      assert [c1] + [] == [c1];
      assert Addresses(b.entries) == {};
    }
  }

  /** The marking chain of the explicit proxy's own traffic, when its uid is known. */
  lemma RunBypassOutput(uid: Option<int>, t: Table)
    requires Bypass4 in t.sets && BypassMarkOutput !in t.chains
    ensures RunInTable(OutputScript(uid), t)
            == Some(WithOutputMark(t, uid))
  {
    if uid.Some? {
      RunNewChain(TABLE, BypassMarkOutput, Route, Output, -150, MarkOutputRule(uid.value), t);
    }
  }

  function MarkingScript(i: Input): Nft.Script
    requires i.bypass.Some?
  {
    var b := i.bypass.value;
    [AddSet(TABLE, Bypass4, false)] +
    (if |b.entries| > 0 then [AddElements(TABLE, Bypass4, b.entries)] else []) +
    [AddChain(TABLE, BypassMark, Filter, Prerouting, -150), AddRule(TABLE, BypassMark, MarkRule(i.lanIface))]
  }

  function OutputScript(uid: Option<int>): Nft.Script {
    if uid.Some? then
      [AddChain(TABLE, BypassMarkOutput, Route, Output, -150),
       AddRule(TABLE, BypassMarkOutput, MarkOutputRule(uid.value))]
    else []
  }

  lemma RunMarking(i: Input)
    requires i.bypass.Some?
    ensures RunInTable(MarkingScript(i), AfterBase(i)) == Some(AfterMarking(i))
  {
    var b := i.bypass.value;
    var t0 := AfterBase(i);
    var s1 := [AddSet(TABLE, Bypass4, false)] +
              (if |b.entries| > 0 then [AddElements(TABLE, Bypass4, b.entries)] else []);
    var s2 := [AddChain(TABLE, BypassMark, Filter, Prerouting, -150),
               AddRule(TABLE, BypassMark, MarkRule(i.lanIface))];
    RunBypassSet(i, t0);
    var t1 := t0.(sets := t0.sets[Bypass4 := Set(false, Addresses(b.entries))]);
    RunNewChain(TABLE, BypassMark, Filter, Prerouting, -150, MarkRule(i.lanIface), t1);
    RunInTableAppend(s1, s2, t0);
    assert MarkingScript(i) == s1 + s2;
    assert t1.sets == map[Bypass4 := Set(false, Addresses(b.entries))];
  }

  lemma RunBypassMasquerade(i: Input, t: Table)
    requires i.bypass.Some? && PostroutingChain in t.chains
    requires t.chains[PostroutingChain] == Chain(Nat, Postrouting, 100, [])
    ensures RunInTable([AddRule(TABLE, PostroutingChain, BypassMasqueradeRule(i.wanIface))], t)
            == Some(WithBypassMasquerade(t, i.wanIface))
  {
    var rule := BypassMasqueradeRule(i.wanIface);
    RunOne(AddRule(TABLE, PostroutingChain, rule), t);
    assert [] + [rule] == [rule];
  }

  lemma RunBypass(i: Input)
    ensures RunInTable(BypassPart(i), AfterBase(i)) == Some(AfterBypass(i))
  {
    hide MarkRule, MarkOutputRule, Addresses, BypassMasqueradeRule, AfterBase;
    if i.bypass.Some? {
      var uid := i.bypass.value.explicitProxyUid;
      var masq := [AddRule(TABLE, PostroutingChain, BypassMasqueradeRule(i.wanIface))];
      RunMarking(i);
      var t1 := AfterMarking(i);
      BasePostrouting(i);
      RunBypassOutput(uid, t1);
      RunBypassMasquerade(i, WithOutputMark(t1, uid));
      RunInTableAppend(MarkingScript(i), OutputScript(uid), AfterBase(i));
      RunInTableAppend(MarkingScript(i) + OutputScript(uid), masq, AfterBase(i));
      assert BypassPart(i) == MarkingScript(i) + OutputScript(uid) + masq;
    }
  }

  lemma BasePostrouting(i: Input)
    requires i.bypass.Some?
    ensures var chains := AfterBase(i).chains;
            && PostroutingChain in chains && chains[PostroutingChain] == Chain(Nat, Postrouting, 100, [])
            && BypassMarkOutput !in chains
  {
  }

  lemma RunRedirect(i: Input)
    ensures RunInTable(RedirectPart(i), AfterBypass(i)) == Some(AfterRedirect(i))
  {
    if i.dnsRedirect.Some? {
      var t0 := AfterBypass(i);
      var c1 := AddSet(TABLE, Redirected4, true);
      var c2 := AddChain(TABLE, DnsRedirectChain, Nat, Prerouting, -100);
      var rule := RedirectRule(i.lanIface, i.dnsRedirect.value);
      var c3 := AddRule(TABLE, DnsRedirectChain, rule);
      assert RedirectPart(i) == [c1] + [c2, c3];
      RunOne(c1, t0);
      var t1 := ExecInTable(c1, t0).value;
      RunNewChain(TABLE, DnsRedirectChain, Nat, Prerouting, -100, rule, t1);
      RunInTableAppend([c1], [c2, c3], t0);
    }
  }

  function WithRules(t: Table, chain: ChainName, rules: seq<Rule>): Table
    requires chain in t.chains
  {
    t.(chains := t.chains[chain := t.chains[chain].(rules := t.chains[chain].rules + rules)])
  }

  /** Adding admissible rules to a chain appends them in order. */
  lemma {:induction false} RunAddRules(chain: ChainName, rules: seq<Rule>, t: Table)
    requires chain in t.chains
    requires forall k :: 0 <= k < |rules| ==> Admissible(t, t.chains[chain], rules[k])
    ensures RunInTable(AddRules(chain, rules), t)
            == Some(WithRules(t, chain, rules))
  {
    var script := AddRules(chain, rules);
    if rules == [] {
      assert t.chains[chain].rules + rules == t.chains[chain].rules;
      assert t.chains == t.chains[chain := t.chains[chain]];
    } else {
      var c := t.chains[chain].(rules := t.chains[chain].rules + [rules[0]]);
      var next := t.(chains := t.chains[chain := c]);
      assert script[1..] == AddRules(chain, rules[1..]);
      RunAddRules(chain, rules[1..], next);
      assert c.rules + rules[1..] == t.chains[chain].rules + rules;
      assert next.chains[chain := c.(rules := c.rules + rules[1..])]
          == t.chains[chain := t.chains[chain].(rules := t.chains[chain].rules + rules)];
    }
  }

  /** Every rule of the forward chain and of the masquerading is admissible where it is added. */
  lemma ForwardRulesAdmissible(i: Input, t: Table)
    requires ForwardChain in t.chains && PostroutingChain in t.chains
    requires t.chains[PostroutingChain].kind == Nat && t.chains[PostroutingChain].hook == Postrouting
    ensures forall k :: 0 <= k < |StandingRules(i)| ==> Admissible(t, t.chains[ForwardChain], StandingRules(i)[k])
    ensures forall k :: 0 <= k < |PathRules(i)| ==> Admissible(t, t.chains[ForwardChain], PathRules(i)[k])
    ensures forall k :: 0 <= k < |MasqueradeRules(i)| ==>
              Admissible(t, t.chains[PostroutingChain], MasqueradeRules(i)[k])
    ensures Admissible(t, t.chains[ForwardChain], LanDrop(i))
  {
  }

  /** What the chains look like before the forward part: everything but the transparent rules. */
  lemma ChainsBeforeForward(i: Input)
    ensures AfterRedirect(i).sets == SetsOf(i)
    ensures forall c :: c in AfterRedirect(i).chains <==> HasChain(i, c)
    ensures forall c :: HasChain(i, c) && c != ForwardChain && c != PostroutingChain ==>
              AfterRedirect(i).chains[c] == ChainOf(i, c)
    ensures i.transparentGateway ==> AfterRedirect(i).chains[ForwardChain] == Chain(Filter, Forward, 0, [])
    ensures HasChain(i, PostroutingChain) ==>
              AfterRedirect(i).chains[PostroutingChain] == Chain(Nat, Postrouting, 100,
                if i.bypass.Some? then [BypassMasqueradeRule(i.wanIface)] else [])
  {
    hide MarkRule, MarkOutputRule, BypassMasqueradeRule, RedirectRule, PostroutingRules, ForwardRules, Addresses,
         AfterBypass;
    ChainsAfterBypass(i);
  }

  lemma ChainsAfterBypass(i: Input)
    ensures AfterBypass(i).sets
            == if i.bypass.Some? then map[Bypass4 := Set(false, Addresses(i.bypass.value.entries))] else map[]
    ensures forall c :: c in AfterBypass(i).chains <==> HasChain(i, c) && c != DnsRedirectChain
    ensures i.bypass.Some? ==> AfterBypass(i).chains[BypassMark] == ChainOf(i, BypassMark)
    ensures HasChain(i, BypassMarkOutput) ==>
              AfterBypass(i).chains[BypassMarkOutput] == ChainOf(i, BypassMarkOutput)
    ensures i.transparentGateway ==> AfterBypass(i).chains[ForwardChain] == Chain(Filter, Forward, 0, [])
    ensures HasChain(i, PostroutingChain) ==>
              AfterBypass(i).chains[PostroutingChain] == Chain(Nat, Postrouting, 100,
                if i.bypass.Some? then [BypassMasqueradeRule(i.wanIface)] else [])
  {
    hide MarkRule, MarkOutputRule, BypassMasqueradeRule, PostroutingRules, ForwardRules, Addresses;
  }

  /** The four blocks of rules of a transparent gateway, one after the other. */
  lemma RunTransparent(i: Input, t0: Table)
    requires i.transparentGateway
    requires ForwardChain in t0.chains && PostroutingChain in t0.chains
    requires t0.chains[ForwardChain].rules == []
    requires t0.chains[PostroutingChain].kind == Nat && t0.chains[PostroutingChain].hook == Postrouting
    ensures RunInTable(ForwardPart(i), t0)
            == Some(WithRules(WithRules(t0, ForwardChain, ForwardRules(i)), PostroutingChain, MasqueradeRules(i)))
  {
    var s1 := AddRules(ForwardChain, StandingRules(i));
    var s2 := AddRules(PostroutingChain, MasqueradeRules(i));
    var s3 := AddRules(ForwardChain, PathRules(i));
    var s4 := AddRules(ForwardChain, [LanDrop(i)]);
    ForwardRulesAdmissible(i, t0);
    RunAddRules(ForwardChain, StandingRules(i), t0);
    var t1 := WithRules(t0, ForwardChain, StandingRules(i));
    ForwardRulesAdmissible(i, t1);
    RunAddRules(PostroutingChain, MasqueradeRules(i), t1);
    var t2 := WithRules(t1, PostroutingChain, MasqueradeRules(i));
    ForwardRulesAdmissible(i, t2);
    RunAddRules(ForwardChain, PathRules(i), t2);
    var t3 := WithRules(t2, ForwardChain, PathRules(i));
    ForwardRulesAdmissible(i, t3);
    RunAddRules(ForwardChain, [LanDrop(i)], t3);
    var t4 := WithRules(t3, ForwardChain, [LanDrop(i)]);
    RunFourInTable(s1, s2, s3, s4, t0, t1, t2, t3, t4);
    assert [] + StandingRules(i) + PathRules(i) + [LanDrop(i)] == [] + ForwardRules(i);
    assert t4.chains == WithRules(WithRules(t0, ForwardChain, ForwardRules(i)),
                                  PostroutingChain, MasqueradeRules(i)).chains;
  }

  lemma RunForward(i: Input)
    ensures RunInTable(ForwardPart(i), AfterRedirect(i)) == Some(TableOf(i))
  {
    hide AfterRedirect, StandingRules, PathRules, MasqueradeRules, BypassMasqueradeRule;
    var t0 := AfterRedirect(i);
    ChainsBeforeForward(i);
    var bypassRules := if i.bypass.Some? then [BypassMasqueradeRule(i.wanIface)] else [];
    if i.transparentGateway {
      RunTransparent(i, t0);
      var t := WithRules(WithRules(t0, ForwardChain, ForwardRules(i)), PostroutingChain, MasqueradeRules(i));
      assert t.chains[PostroutingChain].rules == PostroutingRules(i);
      assert t.chains[ForwardChain].rules == ForwardRules(i);
      assert t.chains == ChainsOf(i);
    } else {
      assert PostroutingRules(i) == bypassRules;
      assert t0.chains == ChainsOf(i);
    }
  }

  /** A header that leaves an empty table, then a body that works inside it. */
  lemma RunHeaderThenBody(body: Nft.Script, t: Table, host: Ruleset)
    requires WithinTable(body, TABLE) && RunInTable(body, Table(map[], map[])) == Some(t)
    ensures Run(Header() + body, host) == Some(host[TABLE := t])
  {
    var start := host[TABLE := Table(map[], map[])];
    RunHeader(host);
    RunWithinTable(body, TABLE, start);
    RunAppend(Header(), body, host);
    assert start[TABLE := t] == host[TABLE := t];
  }

  lemma BodyStaysInTable(i: Input)
    ensures WithinTable(Body(i), TABLE)
  {
    assert WithinTable(BaseChains(i), TABLE);
    assert WithinTable(BypassPart(i), TABLE);
    assert WithinTable(RedirectPart(i), TABLE);
    assert WithinTable(ForwardPart(i), TABLE);
  }

  lemma RunBody(i: Input)
    ensures RunInTable(Body(i), Table(map[], map[])) == Some(TableOf(i))
  {
    RunBase(i);
    RunBypass(i);
    RunRedirect(i);
    RunForward(i);
    RunFourInTable(BaseChains(i), BypassPart(i), RedirectPart(i), ForwardPart(i), Table(map[], map[]),
                   AfterBase(i), AfterBypass(i), AfterRedirect(i), TableOf(i));
  }

  /**
   Transactional replacement: on any host, with or without a previous table, no command of a
   generated script is refused, the gateway's table becomes exactly `TableOf(i)`, and every other
   table is left as it was.
   */
  lemma ScriptInstallsTable(i: Input, host: Ruleset)
    ensures Run(GatewayScript(i), host) == Some(host[TABLE := TableOf(i)])
    ensures Commit(GatewayScript(i), host) - {TABLE} == host - {TABLE}
  {
    BodyStaysInTable(i);
    RunBody(i);
    RunHeaderThenBody(Body(i), TableOf(i), host);
    assert host[TABLE := TableOf(i)] - {TABLE} == host - {TABLE};
  }

  /** Teardown removes the table when there is one and is refused, harmlessly, when there is none. */
  lemma TeardownRemovesTable(host: Ruleset)
    ensures Commit(TeardownScript(), host) == host - {TABLE}
    ensures Run(TeardownScript(), host).None? <==> TABLE !in host
  {
    assert TeardownScript()[1..] == [];
    if TABLE in host {
      assert Run([], host - {TABLE}) == Some(host - {TABLE});
      assert Run(TeardownScript(), host) == Some(host - {TABLE});
    } else {
      assert host - {TABLE} == host;
    }
  }
}
