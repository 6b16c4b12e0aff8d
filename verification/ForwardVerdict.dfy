/**
 What a generated table does to packets: the exact set of forwarded packets, the role of the kill
 switch, which packets get the bypass mark, and which queries are redirected to the relay.
 The sets of a table may have gained elements since it was installed; its chains have not changed.
 */
module ForwardVerdict {
  import opened Wrappers
  import opened Nft
  import opened Ruleset

  /** The table's verdict at the forward hook: everything not dropped goes on (policy accept). */
  predicate Forwarded(t: Table, p: Packet) {
    EvalRules(RulesAt(t, ForwardChain, Forward), t.sets, p).0 != Dropped
  }

  /** The packet after the marking chain at the prerouting hook. */
  function Marked(t: Table, p: Packet): Packet {
    EvalRules(RulesAt(t, BypassMark, Prerouting), t.sets, p).1
  }

  /** The verdict of the redirecting chain at the prerouting hook. */
  function RedirectVerdict(t: Table, p: Packet): Verdict {
    EvalRules(RulesAt(t, DnsRedirectChain, Prerouting), t.sets, p).0
  }

  /** The chains are those compiled from `i`, whatever the sets hold by now. */
  ghost predicate BuiltFrom(t: Table, i: Input) {
    t.chains == ChainsOf(i)
  }

  // ---------------------------------------------------------------- evaluating simple rules

  predicate IsTest(s: Statement) {
    !s.Accept? && !s.Drop? && !s.Masquerade? && !s.DnatTo? && !s.SetMark? && !s.SetCtMark?
  }

  /** Tests followed by a verdict: the verdict when every test matches, otherwise no effect. */
  lemma {:induction false} EvalGuarded(tests: seq<Statement>, last: Statement, sets: map<SetName, Set>, p: Packet)
    requires forall k :: 0 <= k < |tests| ==> IsTest(tests[k])
    requires last.Accept? || last.Drop?
    ensures EvalRule(tests + [last], sets, p)
            == (if forall k :: 0 <= k < |tests| ==> Matches(tests[k], sets, p)
                then (if last.Accept? then Accepted else Dropped) else Continue, p)
  {
    var rule := tests + [last];
    if tests == [] {
      assert rule[0] == last;
    } else {
      assert rule[0] == tests[0];
      assert rule[1..] == tests[1..] + [last];
      EvalGuarded(tests[1..], last, sets, p);
      if Matches(tests[0], sets, p) && forall k :: 0 <= k < |tests[1..]| ==> Matches(tests[1..][k], sets, p) {
        forall k | 0 <= k < |tests| ensures Matches(tests[k], sets, p) {
          if k > 0 {
            assert tests[k] == tests[1..][k - 1];
          }
        }
      } else if Matches(tests[0], sets, p) {
        var k :| 0 <= k < |tests[1..]| && !Matches(tests[1..][k], sets, p);
        assert tests[1..][k] == tests[k + 1];
      }
    }
  }

  lemma EvalOne(a: Statement, last: Statement, sets: map<SetName, Set>, p: Packet)
    requires IsTest(a) && (last.Accept? || last.Drop?)
    ensures EvalRule([a, last], sets, p)
            == (if Matches(a, sets, p) then (if last.Accept? then Accepted else Dropped) else Continue, p)
  {
    assert [a, last] == [a] + [last];
    EvalGuarded([a], last, sets, p);
    assert forall k :: 0 <= k < 1 ==> [a][k] == a;
  }

  lemma EvalTwo(a: Statement, b: Statement, last: Statement, sets: map<SetName, Set>, p: Packet)
    requires IsTest(a) && IsTest(b) && (last.Accept? || last.Drop?)
    ensures EvalRule([a, b, last], sets, p)
            == (if Matches(a, sets, p) && Matches(b, sets, p)
                then (if last.Accept? then Accepted else Dropped) else Continue, p)
  {
    var tests := [a, b];
    assert [a, b, last] == tests + [last];
    EvalGuarded(tests, last, sets, p);
    assert tests[0] == a && tests[1] == b;
  }

  lemma EvalThree(a: Statement, b: Statement, c: Statement, last: Statement, sets: map<SetName, Set>, p: Packet)
    requires IsTest(a) && IsTest(b) && IsTest(c) && (last.Accept? || last.Drop?)
    ensures EvalRule([a, b, c, last], sets, p)
            == (if Matches(a, sets, p) && Matches(b, sets, p) && Matches(c, sets, p)
                then (if last.Accept? then Accepted else Dropped) else Continue, p)
  {
    var tests := [a, b, c];
    assert [a, b, c, last] == tests + [last];
    EvalGuarded(tests, last, sets, p);
    assert tests[0] == a && tests[1] == b && tests[2] == c;
  }

  lemma EvalFirst(r: Rule, rest: seq<Rule>, sets: map<SetName, Set>, p: Packet)
    ensures EvalRules([r] + rest, sets, p)
            == (if EvalRule(r, sets, p).0 != Continue then EvalRule(r, sets, p)
                else EvalRules(rest, sets, EvalRule(r, sets, p).1))
  {
    assert ([r] + rest)[1..] == rest;
  }

  // ---------------------------------------------------------------- the blocks of the forward chain

  /** Accepted on its own account: DNATed, a reply leaving the LAN side, or marked for bypass. */
  predicate Standing(i: Input, p: Packet) {
    || p.dnat
    || (p.reply && p.established && p.oif != i.lanIface)
    || (i.bypass.Some? && p.ctMark == BYPASS_FWMARK)
  }

  lemma EvalStanding(i: Input, sets: map<SetName, Set>, p: Packet)
    ensures EvalRules(StandingRules(i), sets, p) == (if Standing(i, p) then Accepted else Continue, p)
  {
    var r1 := [CtStatusDnat, Accept];
    var r2 := [OifNameNot(i.lanIface), CtDirectionReply, CtEstablishedRelated, Accept];
    var r3 := if i.bypass.Some? then [[CtMarkIs(BYPASS_FWMARK), Accept]] else [];
    EvalOne(CtStatusDnat, Accept, sets, p);
    EvalThree(OifNameNot(i.lanIface), CtDirectionReply, CtEstablishedRelated, Accept, sets, p);
    assert StandingRules(i) == [r1] + ([r2] + r3);
    EvalFirst(r1, [r2] + r3, sets, p);
    EvalFirst(r2, r3, sets, p);
    if i.bypass.Some? {
      EvalOne(CtMarkIs(BYPASS_FWMARK), Accept, sets, p);
      assert r3 == [r3[0]] + [];
      EvalFirst(r3[0], [], sets, p);
    }
  }

  lemma EvalTunnelPath(i: Input, sets: map<SetName, Set>, p: Packet)
    requires i.vpnIface.Some?
    ensures var vpn := i.vpnIface.value;
            EvalRules(PathRules(i), sets, p)
            == (if (p.iif == i.lanIface && p.oif == vpn) || (p.iif == vpn && p.oif == i.lanIface && p.established)
                then Accepted else if p.iif == vpn then Dropped else Continue, p)
  {
    var vpn := i.vpnIface.value;
    var r1 := [IifName(i.lanIface), OifName(vpn), Accept];
    var r2 := [IifName(vpn), OifName(i.lanIface), CtEstablishedRelated, Accept];
    var r3 := [IifName(vpn), Drop];
    EvalTwo(IifName(i.lanIface), OifName(vpn), Accept, sets, p);
    EvalThree(IifName(vpn), OifName(i.lanIface), CtEstablishedRelated, Accept, sets, p);
    EvalOne(IifName(vpn), Drop, sets, p);
    assert PathRules(i) == [r1] + ([r2] + ([r3] + []));
    EvalFirst(r1, [r2] + ([r3] + []), sets, p);
    EvalFirst(r2, [r3] + [], sets, p);
    EvalFirst(r3, [], sets, p);
  }

  lemma EvalOpenPath(i: Input, sets: map<SetName, Set>, p: Packet)
    requires i.vpnIface.None? && !i.killSwitch
    ensures EvalRules(PathRules(i), sets, p)
            == (if (p.iif == i.lanIface && p.oif == i.wanIface)
                   || (p.iif == i.wanIface && p.oif == i.lanIface && p.established)
                then Accepted else Continue, p)
  {
    var r1 := [IifName(i.lanIface), OifName(i.wanIface), Accept];
    var r2 := [IifName(i.wanIface), OifName(i.lanIface), CtEstablishedRelated, Accept];
    EvalTwo(IifName(i.lanIface), OifName(i.wanIface), Accept, sets, p);
    EvalThree(IifName(i.wanIface), OifName(i.lanIface), CtEstablishedRelated, Accept, sets, p);
    assert PathRules(i) == [r1] + ([r2] + []);
    EvalFirst(r1, [r2] + [], sets, p);
    EvalFirst(r2, [], sets, p);
  }

  // ---------------------------------------------------------------- the exact verdict

  /** The packets a table compiled from `i` is meant to let through. */
  predicate MayForward(i: Input, p: Packet) {
    || !i.transparentGateway
    || Standing(i, p)
    || match i.vpnIface
       case Some(vpn) =>
         || (p.iif == i.lanIface && p.oif == vpn)
         || (p.iif == vpn && p.oif == i.lanIface && p.established)
         || (p.iif != i.lanIface && p.iif != vpn)
       case None =>
         p.iif != i.lanIface || (!i.killSwitch && p.oif == i.wanIface)
  }

  /** For any names and flags, exactly these packets are forwarded. */
  lemma ForwardExactly(t: Table, i: Input, p: Packet)
    requires BuiltFrom(t, i)
    ensures Forwarded(t, p) <==> MayForward(i, p)
  {
    if i.transparentGateway {
      var sets := t.sets;
      assert RulesAt(t, ForwardChain, Forward) == StandingRules(i) + (PathRules(i) + [LanDrop(i)]) by {
        assert ForwardRules(i) == StandingRules(i) + (PathRules(i) + [LanDrop(i)]);
      }
      EvalRulesAppend(StandingRules(i), PathRules(i) + [LanDrop(i)], sets, p);
      EvalStanding(i, sets, p);
      EvalRulesAppend(PathRules(i), [LanDrop(i)], sets, p);
      EvalOne(IifName(i.lanIface), Drop, sets, p);
      assert [LanDrop(i)] == [LanDrop(i)] + [];
      EvalFirst(LanDrop(i), [], sets, p);
      if i.vpnIface.Some? {
        EvalTunnelPath(i, sets, p);
      } else if !i.killSwitch {
        EvalOpenPath(i, sets, p);
      }
    }
  }

  // ---------------------------------------------------------------- consequences

  /** A packet from the LAN with no standing permission of its own. */
  predicate LanOriginated(i: Input, p: Packet) {
    p.iif == i.lanIface && !Standing(i, p)
  }

  /**
   Leak safety of one table: with a tunnel, or with the kill switch on, nothing originated on the
   LAN leaves except by the tunnel the table was built for.
   */
  lemma NoLeak(t: Table, i: Input, p: Packet)
    requires BuiltFrom(t, i) && i.transparentGateway && (i.killSwitch || i.vpnIface.Some?)
    requires i.vpnIface != Some(i.lanIface)
    requires LanOriginated(i, p)
    ensures Forwarded(t, p) <==> i.vpnIface == Some(p.oif)
  {
    ForwardExactly(t, i, p);
  }

  /** While a tunnel is present the kill switch makes no difference to any packet. */
  lemma KillSwitchIdleWithTunnel(t1: Table, t2: Table, i: Input, p: Packet)
    requires i.vpnIface.Some?
    requires BuiltFrom(t1, i.(killSwitch := true)) && BuiltFrom(t2, i.(killSwitch := false))
    ensures Forwarded(t1, p) <==> Forwarded(t2, p)
  {
    ForwardExactly(t1, i.(killSwitch := true), p);
    ForwardExactly(t2, i.(killSwitch := false), p);
  }

  /**
   Without a tunnel, turning the kill switch on only takes packets away, and it takes away exactly
   the LAN-originated ones that would have left by the WAN interface.
   */
  lemma KillSwitchRemovesDirectPath(t1: Table, t2: Table, i: Input, p: Packet)
    requires i.vpnIface.None? && i.transparentGateway
    requires BuiltFrom(t1, i.(killSwitch := true)) && BuiltFrom(t2, i.(killSwitch := false))
    ensures Forwarded(t1, p) ==> Forwarded(t2, p)
    ensures Forwarded(t2, p) && !Forwarded(t1, p) <==> LanOriginated(i, p) && p.oif == i.wanIface
  {
    ForwardExactly(t1, i.(killSwitch := true), p);
    ForwardExactly(t2, i.(killSwitch := false), p);
  }

  // ---------------------------------------------------------------- marking

  function BypassElements(t: Table): set<string> {
    if Bypass4 in t.sets then t.sets[Bypass4].elements else {}
  }

  /** The bypass marks go on exactly the LAN-entering packets bound for an address in the set. */
  lemma MarkExactly(t: Table, i: Input, p: Packet)
    requires BuiltFrom(t, i)
    ensures Marked(t, p)
            == if i.bypass.Some? && p.iif == i.lanIface && p.daddr in BypassElements(t)
               then p.(mark := BYPASS_FWMARK, ctMark := BYPASS_FWMARK) else p
  {
    if i.bypass.Some? {
      var rule := MarkRule(i.lanIface);
      assert RulesAt(t, BypassMark, Prerouting) == [rule] + [];
      EvalFirst(rule, [], t.sets, p);
      var r1 := rule[1..];
      var r2 := r1[1..];
      var r3 := r2[1..];
      assert r1[0] == DaddrIn(Bypass4) && r2[0] == SetMark(BYPASS_FWMARK) && r3[0] == SetCtMark(BYPASS_FWMARK);
      var q := p.(mark := BYPASS_FWMARK);
      assert r3[1..] == [];
      assert EvalRule(r3, t.sets, q) == (Continue, q.(ctMark := BYPASS_FWMARK));
      assert EvalRule(r2, t.sets, p) == EvalRule(r3, t.sets, q);
      assert EvalRule(r1, t.sets, p)
          == if Matches(DaddrIn(Bypass4), t.sets, p) then EvalRule(r2, t.sets, p) else (Continue, p);
      assert EvalRule(rule, t.sets, p)
          == if p.iif == i.lanIface then EvalRule(r1, t.sets, p) else (Continue, p);
    }
  }

  // ---------------------------------------------------------------- redirecting

  /** A query the redirect is for: from the LAN, to port 53, to no excluded destination. */
  ghost predicate RedirectApplies(lan: string, d: DnsRedirect, p: Packet) {
    && p.iif == lan
    && (p.l4 == Udp || p.l4 == Tcp)
    && p.dport == 53
    && !Covers(d.listenAddress, p.daddr)
    && (forall k :: 0 <= k < |d.excludedCidrs| ==> !Covers(d.excludedCidrs[k], p.daddr))
  }

  lemma RedirectRuleExactly(lan: string, d: DnsRedirect, sets: map<SetName, Set>, p: Packet)
    ensures EvalRule(RedirectRule(lan, d), sets, p).0
            == if RedirectApplies(lan, d, p) then Redirected(d.listenAddress, d.port) else Continue
  {
    hide Covers, EvalRule, Matches;
    var tests := RedirectTests(lan, d);
    assert RedirectRule(lan, d) == tests + [DnatTo(d.listenAddress, d.port)];
    EvalGuardedDnat(tests, d.listenAddress, d.port, sets, p);
    RedirectTestsMatch(lan, d, sets, p);
  }

  function RedirectTests(lan: string, d: DnsRedirect): seq<Statement> {
    [IifName(lan), L4UdpOrTcp, DestinationPort(53), DaddrNotIn([d.listenAddress] + d.excludedCidrs),
     RecordSource(Redirected4, REDIRECTED_RECORD_SECONDS)]
  }

  lemma RedirectTestsMatch(lan: string, d: DnsRedirect, sets: map<SetName, Set>, p: Packet)
    ensures (forall k :: 0 <= k < |RedirectTests(lan, d)| ==> Matches(RedirectTests(lan, d)[k], sets, p))
            <==> RedirectApplies(lan, d, p)
  {
    hide Covers, EvalRule;
    var tests := RedirectTests(lan, d);
    ExcludedEntries(d, p);
    assert (forall k :: 0 <= k < 5 ==> Matches(tests[k], sets, p))
      <==> Matches(tests[0], sets, p) && Matches(tests[1], sets, p) && Matches(tests[2], sets, p)
           && Matches(tests[3], sets, p) && Matches(tests[4], sets, p);
  }

  /** Exactly the LAN's port-53 queries to no excluded destination are sent to the relay. */
  lemma RedirectExactly(t: Table, i: Input, p: Packet)
    requires BuiltFrom(t, i)
    ensures RedirectVerdict(t, p)
            == if i.dnsRedirect.Some? && RedirectApplies(i.lanIface, i.dnsRedirect.value, p)
               then Redirected(i.dnsRedirect.value.listenAddress, i.dnsRedirect.value.port) else Continue
  {
    if i.dnsRedirect.Some? {
      var rule := RedirectRule(i.lanIface, i.dnsRedirect.value);
      assert RulesAt(t, DnsRedirectChain, Prerouting) == [rule] + [];
      EvalFirst(rule, [], t.sets, p);
      RedirectRuleExactly(i.lanIface, i.dnsRedirect.value, t.sets, p);
    }
  }

  lemma ExcludedEntries(d: DnsRedirect, p: Packet)
    ensures (exists k | 0 <= k < |[d.listenAddress] + d.excludedCidrs| ::
               Covers(([d.listenAddress] + d.excludedCidrs)[k], p.daddr))
            <==> Covers(d.listenAddress, p.daddr)
                 || exists k :: 0 <= k < |d.excludedCidrs| && Covers(d.excludedCidrs[k], p.daddr)
  {
    var all := [d.listenAddress] + d.excludedCidrs;
    assert all[0] == d.listenAddress;
    assert forall k :: 0 <= k < |d.excludedCidrs| ==> all[k + 1] == d.excludedCidrs[k];
    if exists k | 0 <= k < |all| :: Covers(all[k], p.daddr) {
      var k :| 0 <= k < |all| && Covers(all[k], p.daddr);
      if k > 0 {
        assert d.excludedCidrs[k - 1] == all[k];
      }
    }
  }

  lemma {:induction false} EvalGuardedDnat(tests: seq<Statement>, address: string, port: int,
                                           sets: map<SetName, Set>, p: Packet)
    requires forall k :: 0 <= k < |tests| ==> IsTest(tests[k])
    ensures EvalRule(tests + [DnatTo(address, port)], sets, p).0
            == if forall k :: 0 <= k < |tests| ==> Matches(tests[k], sets, p)
               then Redirected(address, port) else Continue
  {
    var rule := tests + [DnatTo(address, port)];
    if tests == [] {
      assert rule[0] == DnatTo(address, port);
    } else {
      assert rule[1..] == tests[1..] + [DnatTo(address, port)];
      EvalGuardedDnat(tests[1..], address, port, sets, p);
      assert forall k :: 1 <= k < |tests| ==> tests[k] == tests[1..][k - 1];
      assert (forall k :: 0 <= k < |tests| ==> Matches(tests[k], sets, p))
        <==> Matches(tests[0], sets, p) && forall k :: 0 <= k < |tests[1..]| ==> Matches(tests[1..][k], sets, p);
    }
  }

  // ---------------------------------------------------------------- the host's own packets, and masquerading

  /** The packet after the marking chain at the output hook. */
  function MarkedOnOutput(t: Table, p: Packet): Packet {
    EvalRules(RulesAt(t, BypassMarkOutput, Output), t.sets, p).1
  }

  /** The explicit proxy's own packets to a bypassed address get the packet mark, and no connection mark. */
  lemma OutputMarkExactly(t: Table, i: Input, p: Packet)
    requires BuiltFrom(t, i)
    ensures MarkedOnOutput(t, p)
            == if i.bypass.Some? && i.bypass.value.explicitProxyUid.Some?
                  && p.skuid == i.bypass.value.explicitProxyUid && p.daddr in BypassElements(t)
               then p.(mark := BYPASS_FWMARK) else p
  {
    if i.bypass.Some? && i.bypass.value.explicitProxyUid.Some? {
      var rule := MarkOutputRule(i.bypass.value.explicitProxyUid.value);
      assert RulesAt(t, BypassMarkOutput, Output) == [rule] + [];
      EvalFirst(rule, [], t.sets, p);
      var r1 := rule[1..];
      var r2 := r1[1..];
      assert r1[0] == DaddrIn(Bypass4) && r2[0] == SetMark(BYPASS_FWMARK) && r2[1..] == [];
      assert EvalRule(r2, t.sets, p) == (Continue, p.(mark := BYPASS_FWMARK));
      assert EvalRule(r1, t.sets, p)
          == if Matches(DaddrIn(Bypass4), t.sets, p) then EvalRule(r2, t.sets, p) else (Continue, p);
      assert EvalRule(rule, t.sets, p)
          == if Matches(rule[0], t.sets, p) then EvalRule(r1, t.sets, p) else (Continue, p);
    }
  }

  /** The verdict at the postrouting hook: whether the source address is rewritten. */
  predicate IsMasqueraded(t: Table, p: Packet) {
    EvalRules(RulesAt(t, PostroutingChain, Postrouting), t.sets, p).0 == Masqueraded
  }

  /** Exactly what leaves by the permitted way out, and marked packets leaving by the WAN, is masqueraded. */
  lemma MasqueradeExactly(t: Table, i: Input, p: Packet)
    requires BuiltFrom(t, i)
    ensures IsMasqueraded(t, p)
            <==> || (i.bypass.Some? && p.mark == BYPASS_FWMARK && p.oif == i.wanIface)
                 || (i.transparentGateway && match i.vpnIface
                                             case Some(vpn) => p.oif == vpn
                                             case None => !i.killSwitch && p.oif == i.wanIface)
  {
    var marked := if i.bypass.Some? then [BypassMasqueradeRule(i.wanIface)] else [];
    var out := if i.transparentGateway then MasqueradeRules(i) else [];
    assert RulesAt(t, PostroutingChain, Postrouting) == marked + out;
    EvalRulesAppend(marked, out, t.sets, p);
    if i.bypass.Some? {
      EvalBypassMasquerade(i.wanIface, t.sets, p);
    }
    if i.transparentGateway && EgressIface(i).Some? {
      EvalMasquerade(EgressIface(i).value, t.sets, p);
    }
  }

  lemma EvalMasquerade(iface: string, sets: map<SetName, Set>, p: Packet)
    ensures EvalRules([[OifName(iface), Masquerade]], sets, p) == (if p.oif == iface then Masqueraded else Continue, p)
  {
    var rule := [OifName(iface), Masquerade];
    assert rule[1..] == [Masquerade];
    assert [rule] == [rule] + [];
    EvalFirst(rule, [], sets, p);
  }

  lemma EvalBypassMasquerade(wan: string, sets: map<SetName, Set>, p: Packet)
    ensures EvalRules([BypassMasqueradeRule(wan)], sets, p)
            == (if p.mark == BYPASS_FWMARK && p.oif == wan then Masqueraded else Continue, p)
  {
    var rule := BypassMasqueradeRule(wan);
    var r1 := rule[1..];
    var r2 := r1[1..];
    assert r1[0] == OifName(wan) && r2[0] == Masquerade;
    assert EvalRule(r2, sets, p) == (Masqueraded, p);
    assert EvalRule(r1, sets, p) == if p.oif == wan then EvalRule(r2, sets, p) else (Continue, p);
    assert [rule] == [rule] + [];
    EvalFirst(rule, [], sets, p);
  }
}
