/**
 The auditor against the compiler and the kernel: listing a generated table, reading the listing back
 and auditing it gives a verdict that is exactly a statement about the packets the table forwards.
 */
module AuditAgreement {
  import opened Wrappers
  import opened Text
  import opened Nft
  import opened Ruleset
  import opened ForwardVerdict
  import opened RuleAudit
  import NL = NftListing

  // ---------------------------------------------------------------- the listing is well formed

  /** A rule starts with a keyword that no declaration and no chain starts with, and ends in a word. */
  lemma RuleLineOk(head: string, tail: string)
    requires |head| >= 2 && !NL.IsSpace(head[0]) && head[1] != 'h' && head[1] != 'y'
    requires tail != "" && !NL.IsSpace(tail[|tail| - 1])
    requires '\n' !in head && '\n' !in tail
    ensures NL.IsRuleLine(head + tail)
  {
    hide NL.IsSpace;
    var line := head + tail;
    assert |line| >= 6 ==> line[..6][1] == head[1];
    assert |line| >= 5 ==> line[..5][1] == head[1];
  }

  lemma PathLineOk(from: string, to: string)
    requires IsName(from) && IsName(to)
    ensures NL.IsRuleLine(PathRule(from, to)) && NL.IsRuleLine(BackRule(from, to))
  {
    hide NL.IsRuleLine;
    var head := Quoted("iifname", from) + " " + Quoted("oifname", to);
    RuleLineOk(head, " accept");
    RuleLineOk(head + " " + CT_STATE, " accept");
  }

  lemma DropLineOk(from: string)
    requires IsName(from)
    ensures NL.IsRuleLine(LanDropRule(from)) && NL.IsRuleLine(NatRule(from))
  {
    hide NL.IsRuleLine;
    RuleLineOk(Quoted("iifname", from), " drop");
    RuleLineOk(Quoted("oifname", from), " masquerade");
  }

  lemma DnatLineOk()
    ensures NL.IsRuleLine("ct status dnat accept") && NL.IsRuleLine("ct mark 0x00000100 accept")
  {
    hide NL.IsRuleLine;
    RuleLineOk("ct status dnat", " accept");
    assert "ct status dnat" + " accept" == "ct status dnat accept";
    RuleLineOk("ct mark 0x00000100", " accept");
    assert "ct mark 0x00000100" + " accept" == "ct mark 0x00000100 accept";
  }

  lemma ReplyLineOk(lan: string)
    requires IsName(lan)
    ensures NL.IsRuleLine(Quoted("oifname !=", lan) + " ct direction reply " + CT_STATE + " accept")
  {
    hide NL.IsRuleLine;
    RuleLineOk(Quoted("oifname !=", lan) + " ct direction reply " + CT_STATE, " accept");
  }

  lemma StandingLinesOk(i: Input, k: nat)
    requires IsName(i.lanIface) && k < |StandingTexts(i)|
    ensures NL.IsRuleLine(StandingTexts(i)[k])
  {
    hide NL.IsRuleLine, Quoted, IsName;
    DnatLineOk();
    ReplyLineOk(i.lanIface);
  }

  lemma ForwardLinesOk(i: Input, k: nat)
    requires AreNames(i) && k < |ForwardTexts(i)|
    ensures NL.IsRuleLine(ForwardTexts(i)[k])
  {
    hide NL.IsRuleLine, StandingTexts, PathRule, BackRule, LanDropRule;
    if k < |StandingTexts(i)| {
      StandingLinesOk(i, k);
    }
    PathLineOk(i.lanIface, i.wanIface);
    PathLineOk(i.wanIface, i.lanIface);
    DropLineOk(i.lanIface);
    if i.vpnIface.Some? {
      PathLineOk(i.lanIface, i.vpnIface.value);
      PathLineOk(i.vpnIface.value, i.lanIface);
      DropLineOk(i.vpnIface.value);
    }
  }

  // ---------------------------------------------------------------- the other chains

  const TO_BYPASS := " ip daddr @bypass4"
  const MARKED := " meta mark set 0x00000100"
  const CT_MARKED := " ct mark set 0x00000100"

  function MarkLine(lan: string): string { Quoted("iifname", lan) + TO_BYPASS + MARKED + CT_MARKED }

  lemma MarkWords()
    ensures " " + ("ip daddr @" + "bypass4") == TO_BYPASS
    ensures " " + ("meta mark set " + "0x00000100") == MARKED
    ensures " " + ("ct mark set " + "0x00000100") == CT_MARKED
  {
  }

  lemma MarkWordsOnOneLine()
    ensures '\n' !in TO_BYPASS && '\n' !in MARKED && '\n' !in CT_MARKED
    ensures !NL.IsSpace(MARKED[|MARKED| - 1]) && !NL.IsSpace(CT_MARKED[|CT_MARKED| - 1])
  {
  }

  lemma MarkLineText(lan: string)
    ensures RuleText(MarkRule(lan)) == MarkLine(lan)
  {
    hide RuleText, MarkText;
    MarkTextOfBypass();
    RuleTextOfFour(IifName(lan), DaddrIn(Bypass4), SetMark(BYPASS_FWMARK), SetCtMark(BYPASS_FWMARK));
    MarkWords();
    SpaceBeforeEachOfThree(Quoted("iifname", lan), "ip daddr @" + "bypass4", "meta mark set " + "0x00000100", "ct mark set " + "0x00000100");
  }

  lemma SpaceBeforeEachOfThree(a: string, b: string, c: string, d: string)
    ensures a + " " + b + " " + c + " " + d == a + (" " + b) + (" " + c) + (" " + d)
  {
  }

  lemma MarkLineOk(lan: string)
    requires IsName(lan)
    ensures NL.IsRuleLine(MarkLine(lan))
  {
    hide NL.IsRuleLine;
    MarkWordsOnOneLine();
    RuleLineOk(Quoted("iifname", lan) + TO_BYPASS + MARKED, CT_MARKED);
  }

  function OutputLine(uid: nat): string {
    "meta skuid " + Decimal(uid) + TO_BYPASS + MARKED
  }

  lemma OutputLineText(uid: nat)
    ensures RuleText(MarkOutputRule(uid)) == OutputLine(uid)
  {
    hide RuleText, MarkText, Decimal;
    MarkTextOfBypass();
    RuleTextOfThree(SocketUid(uid), DaddrIn(Bypass4), SetMark(BYPASS_FWMARK));
    var head := "meta skuid " + Decimal(uid);
    MarkWords();
    SpaceBeforeEachOfTwo(head, "ip daddr @" + "bypass4", "meta mark set " + "0x00000100");
  }

  lemma SpaceBeforeEachOfTwo(a: string, b: string, c: string)
    ensures a + " " + b + " " + c == a + (" " + b) + (" " + c)
  {
  }

  lemma OutputLineOk(uid: nat)
    ensures NL.IsRuleLine(OutputLine(uid))
  {
    hide NL.IsRuleLine, Decimal;
    MarkWordsOnOneLine();
    RuleLineOk("meta skuid " + Decimal(uid) + TO_BYPASS, MARKED);
  }

  function BypassNatLine(wan: string): string {
    "meta mark 0x00000100" + " " + Quoted("oifname", wan) + " masquerade"
  }

  lemma BypassNatText(wan: string)
    ensures RuleText(BypassMasqueradeRule(wan)) == BypassNatLine(wan)
  {
    hide RuleText, MarkText;
    MarkTextOfBypass();
    RuleTextOfThree(MarkIs(BYPASS_FWMARK), OifName(wan), Masquerade);
    assert "meta mark " + "0x00000100" == "meta mark 0x00000100";
    SpaceBeforeEachOfTwo("meta mark 0x00000100", Quoted("oifname", wan), "masquerade");
    assert " " + "masquerade" == " masquerade";
    var head := "meta mark 0x00000100" + (" " + Quoted("oifname", wan));
    assert head == "meta mark 0x00000100" + " " + Quoted("oifname", wan);
  }

  lemma BypassNatOk(wan: string)
    requires IsName(wan)
    ensures NL.IsRuleLine(BypassNatLine(wan))
  {
    hide NL.IsRuleLine;
    RuleLineOk("meta mark 0x00000100" + " " + Quoted("oifname", wan), " masquerade");
  }

  function PostroutingTexts(i: Input): seq<string> {
    (if i.bypass.Some? then [BypassNatLine(i.wanIface)] else []) +
    (if !i.transparentGateway || EgressIface(i).None? then [] else [NatRule(EgressIface(i).value)])
  }

  lemma PostroutingListed(i: Input)
    ensures Texts(PostroutingRules(i)) == PostroutingTexts(i)
  {
    hide RuleText, BypassNatLine, NatRule;
    BypassNatText(i.wanIface);
    if EgressIface(i).Some? {
      NatText(EgressIface(i).value);
    }
  }

  lemma PostroutingLinesOk(i: Input, k: nat)
    requires AreNames(i) && k < |PostroutingTexts(i)|
    ensures NL.IsRuleLine(PostroutingTexts(i)[k])
  {
    hide NL.IsRuleLine, BypassNatLine, NatRule;
    BypassNatOk(i.wanIface);
    if EgressIface(i).Some? {
      DropLineOk(EgressIface(i).value);
    }
  }

  // ---------------------------------------------------------------- the listing of a generated table

  lemma NamesOf(i: Input)
    requires ValidInput(i)
    ensures AreNames(i)
  {
    hide IsValidInterfaceName, ValidBypass, ValidRedirect;
    ValidNameIsName(i.lanIface);
    ValidNameIsName(i.wanIface);
    if i.vpnIface.Some? {
      ValidNameIsName(i.vpnIface.value);
    }
  }

  lemma ListedLinesOk(t: Table, i: Input, n: Printed, c: ChainName, k: nat)
    requires BuiltFrom(t, i) && ValidInput(i) && IsPrinted(n)
    requires c in t.chains && k < |ListedRules(t, n, c)|
    ensures NL.IsRuleLine(ListedRules(t, n, c)[k])
  {
    hide NL.IsRuleLine, NL.IsBodyLine, RuleText, ForwardRules, PostroutingRules, ForwardTexts, PostroutingTexts, IsValidInterfaceName, MarkLine, OutputLine, MarkRule, MarkOutputRule;
    NamesOf(i);
    match c
    case ForwardChain =>
      ForwardListed(i);
      ForwardLinesOk(i, k);
    case PostroutingChain =>
      PostroutingListed(i);
      PostroutingLinesOk(i, k);
    case BypassMark =>
      MarkLineText(i.lanIface);
      MarkLineOk(i.lanIface);
    case BypassMarkOutput =>
      OutputLineText(i.bypass.value.explicitProxyUid.value);
      OutputLineOk(i.bypass.value.explicitProxyUid.value);
    case DnsRedirectChain =>
  }

  lemma ChainListedOk(t: Table, i: Input, n: Printed, c: ChainName)
    requires BuiltFrom(t, i) && ValidInput(i) && IsPrinted(n)
    ensures NL.AreBlocks(ListedChain(t, n, c))
    ensures NL.ChainsIn(ListedChain(t, n, c)) == if c in t.chains then map[NameOf(c) := ListedRules(t, n, c)] else map[]
  {
    hide NL.IsRuleLine, ListedRules, ValidInput, BuiltFrom, IsPrinted;
    if c in t.chains {
      forall k: nat | k < |ListedRules(t, n, c)| ensures NL.IsRuleLine(ListedRules(t, n, c)[k]) {
        ListedLinesOk(t, i, n, c, k);
      }
      NameNoSpace(c);
      DeclarationOk(t.chains[c]);
      var b := NL.ChainBlock(NameOf(c), DeclarationOf(t.chains[c]), ListedRules(t, n, c));
      assert [b][..0] == [];
    }
  }

  lemma NameNoSpace(c: ChainName)
    ensures NameOf(c) != "" && NL.HasNoSpace(NameOf(c))
  {
    hide NL.HasNoSpace;
    ChainNamesHaveNoSpace();
    assert NameOf(c) in {"forward", "postrouting", "bypass_mark", "bypass_mark_output", "dns_redirect"};
  }

  lemma ChainNamesHaveNoSpace()
    ensures NL.HasNoSpace("forward") && NL.HasNoSpace("postrouting") && NL.HasNoSpace("bypass_mark")
    ensures NL.HasNoSpace("bypass_mark_output") && NL.HasNoSpace("dns_redirect")
  {
  }

  lemma DeclarationOk(c: Chain)
    ensures NL.IsDeclaration(DeclarationOf(c))
  {
    hide NL.IsSpace, KindText, HookText, PriorityText;
    WordsOnOneLine(c);
    var words := KindText(c.kind) + " hook " + HookText(c.hook) + " priority " + PriorityText(c.priority);
    EndsInPolicy(words);
  }

  lemma WordsOnOneLine(c: Chain)
    ensures '\n' !in KindText(c.kind) && '\n' !in HookText(c.hook) && '\n' !in PriorityText(c.priority)
  {
  }

  lemma EndsInPolicy(words: string)
    requires '\n' !in words
    ensures NL.IsDeclaration(words + "; policy accept;")
  {
  }

  lemma {:induction false} ChainsInAppend(a: seq<NL.Block>, b: seq<NL.Block>)
    ensures NL.ChainsIn(a + b) == NL.ChainsIn(a) + NL.ChainsIn(b)
    decreases |b|
  {
    if b == [] {
      assert a + b == a;
    } else {
      assert (a + b)[..|a + b| - 1] == a + b[..|b| - 1];
      ChainsInAppend(a, b[..|b| - 1]);
    }
  }

  lemma SetsListedOk(t: Table, n: Printed)
    requires IsPrinted(n)
    ensures NL.AreBlocks(ListedSets(t, n)) && NL.ChainsIn(ListedSets(t, n)) == map[]
  {
    hide NL.IsBodyLine, NL.IsRuleLine;
    assert NL.HasNoSpace("bypass4") && NL.HasNoSpace("redirected4");
    var x, y := NL.SetBlock("bypass4", n.bypassBody), NL.SetBlock("redirected4", n.redirectedBody);
    assert NL.ChainsIn([]) == map[];
    assert [x][..0] == [] && [y][..0] == [] && [x, y][..1] == [x];
  }

  /** What one chain contributes to a listing read back. */
  function Contribution(t: Table, n: Printed, c: ChainName): NL.Chains {
    if c in t.chains then map[NameOf(c) := ListedRules(t, n, c)] else map[]
  }

  function Contributions(t: Table, n: Printed): NL.Chains {
    map[] + Contribution(t, n, PostroutingChain) + Contribution(t, n, ForwardChain)
    + Contribution(t, n, BypassMark) + Contribution(t, n, BypassMarkOutput) + Contribution(t, n, DnsRedirectChain)
  }

  lemma BlocksContribute(t: Table, i: Input, n: Printed)
    requires BuiltFrom(t, i) && ValidInput(i) && IsPrinted(n)
    ensures NL.AreBlocks(Blocks(t, n)) && NL.ChainsIn(Blocks(t, n)) == Contributions(t, n)
  {
    hide ValidInput, BuiltFrom, IsPrinted, ListedRules, ListedChain, ListedSets, NL.ChainsIn, NL.IsBlock;
    var s := ListedSets(t, n);
    var b1, b2, b3 := ListedChain(t, n, PostroutingChain), ListedChain(t, n, ForwardChain), ListedChain(t, n, BypassMark);
    var b4, b5 := ListedChain(t, n, BypassMarkOutput), ListedChain(t, n, DnsRedirectChain);
    SetsListedOk(t, n);
    ChainListedOk(t, i, n, PostroutingChain);
    ChainListedOk(t, i, n, ForwardChain);
    ChainListedOk(t, i, n, BypassMark);
    ChainListedOk(t, i, n, BypassMarkOutput);
    ChainListedOk(t, i, n, DnsRedirectChain);
    ChainsInAppend(s, b1);
    ChainsInAppend(s + b1, b2);
    ChainsInAppend(s + b1 + b2, b3);
    ChainsInAppend(s + b1 + b2 + b3, b4);
    ChainsInAppend(s + b1 + b2 + b3 + b4, b5);
  }

  lemma ContributionOf(t: Table, n: Printed, d: ChainName, c: ChainName)
    ensures NameOf(c) in Contribution(t, n, d) <==> d == c && c in t.chains
    ensures d == c && c in t.chains ==> Contribution(t, n, d)[NameOf(c)] == ListedRules(t, n, c)
  {
    hide ListedRules, NameOf;
    DistinctNames(c);
  }

  lemma Contributed(t: Table, n: Printed, c: ChainName)
    ensures RulesIn(Contributions(t, n), NameOf(c)) == if c in t.chains then ListedRules(t, n, c) else []
  {
    hide ListedRules, NameOf, Contribution;
    ContributionOf(t, n, PostroutingChain, c);
    ContributionOf(t, n, ForwardChain, c);
    ContributionOf(t, n, BypassMark, c);
    ContributionOf(t, n, BypassMarkOutput, c);
    ContributionOf(t, n, DnsRedirectChain, c);
  }

  /** Everything a chain's lookup in the listing can give. */
  lemma ReadBack(t: Table, i: Input, n: Printed)
    requires BuiltFrom(t, i) && ValidInput(i) && IsPrinted(n)
    ensures forall c: ChainName ::
              RulesIn(NL.ChainsOf(ListingOf(t, n)), NameOf(c)) == if c in t.chains then ListedRules(t, n, c) else []
  {
    hide ValidInput, BuiltFrom, IsPrinted, ListedRules, Blocks, NL.Listing, NL.ChainsOf, NL.ChainsIn, NL.IsBlock, NameOf, RulesIn, Contributions;
    BlocksContribute(t, i, n);
    assert NL.HasNoSpace(TABLE);
    NL.ListingReadsBack(TABLE, Blocks(t, n));
    forall c: ChainName
      ensures RulesIn(NL.ChainsOf(ListingOf(t, n)), NameOf(c)) == if c in t.chains then ListedRules(t, n, c) else []
    {
      Contributed(t, n, c);
    }
  }

  lemma DistinctNames(c: ChainName)
    ensures forall d: ChainName :: NameOf(d) == NameOf(c) ==> d == c
  {
    assert |NameOf(ForwardChain)| == 7 && |NameOf(PostroutingChain)| == 11 && |NameOf(BypassMark)| == 11;
    assert NameOf(PostroutingChain)[0] == 'p' && NameOf(BypassMark)[0] == 'b';
    assert |NameOf(BypassMarkOutput)| == 18 && |NameOf(DnsRedirectChain)| == 12;
  }

  // ---------------------------------------------------------------- the audits

  /** The state handed to the auditor is the one the table was built for. */
  predicate Describes(input: GatewayRulesInput, i: Input) {
    && input.lanIface == Some(i.lanIface)
    && WanOf(input) == i.wanIface
    && input.vpnIface == i.vpnIface
    && input.killSwitch == i.killSwitch
  }

  lemma ForwardReadBack(t: Table, i: Input, n: Printed)
    requires BuiltFrom(t, i) && ValidInput(i) && IsPrinted(n)
    ensures RulesIn(NL.ChainsOf(ListingOf(t, n)), "forward") == if i.transparentGateway then ForwardTexts(i) else []
    ensures i.transparentGateway ==> RulesIn(NL.ChainsOf(ListingOf(t, n)), "postrouting") == PostroutingTexts(i)
  {
    hide ValidInput, IsPrinted, NL.ChainsOf, ListingOf, RulesIn, Texts, ForwardTexts, PostroutingTexts, ForwardRules, PostroutingRules;
    ReadBack(t, i, n);
    ForwardListed(i);
    PostroutingListed(i);
    assert NameOf(ForwardChain) == "forward" && NameOf(PostroutingChain) == "postrouting";
  }

  lemma HasRuleIsInclusion(chains: NL.Chains, chain: string, token: string)
    ensures HasRule(chains, chain, [token]) <==> SomeIncludes(RulesIn(chains, chain), token)
  {
    hide Includes, RulesIn;
    var rules := RulesIn(chains, chain);
    assert [token][0] == token;
    forall k | 0 <= k < |rules|
      ensures (forall j | 0 <= j < |[token]| :: Includes(rules[k], [token][j])) <==> Includes(rules[k], token) {
    }
  }

  /** The last line of a chain. */
  ghost predicate EndsWithLine(chains: NL.Chains, chain: string, line: string) {
    chain in chains && chains[chain] != [] && chains[chain][|chains[chain]| - 1] == line
  }

  /** Some line of a chain has this text in it. */
  ghost predicate HasLineWith(chains: NL.Chains, chain: string, text: string) {
    chain in chains && SomeIncludes(chains[chain], text)
  }

  lemma HasRuleIsLine(chains: NL.Chains, chain: string, token: string)
    ensures HasRule(chains, chain, [token]) <==> HasLineWith(chains, chain, token)
  {
    hide Includes;
    HasRuleIsInclusion(chains, chain, token);
  }

  /**
   What the two audits see in any listing, generated or not: the LAN's drop at the end, for a tunnel its
   translation and its path, and forwarding by the host; or the drop, and no direct path to the WAN.
   */
  lemma AuditsSeeExactly(chains: NL.Chains, lan: string, input: GatewayRulesInput)
    requires input.lanIface == Some(lan)
    ensures GatewayRulesHold(Some(chains), input)
            <==> && EndsWithLine(chains, "forward", "iifname \"" + lan + "\" drop")
                 && (forall vpn :: input.vpnIface == Some(vpn) ==>
                       && HasLineWith(chains, "postrouting", "oifname \"" + vpn + "\" masquerade")
                       && HasLineWith(chains, "forward", "iifname \"" + lan + "\" oifname \"" + vpn + "\" accept"))
                 && input.ipForwardEnabled
    ensures var wan := if input.wanIface.Some? then input.wanIface.value else lan;
            KillSwitchRulesHold(Some(chains), input)
            <==> && EndsWithLine(chains, "forward", "iifname \"" + lan + "\" drop")
                 && !HasLineWith(chains, "forward", "iifname \"" + lan + "\" oifname \"" + wan + "\" accept")
  {
    hide HasRule, HasLineWith, Includes, PathRule, NatRule, LanDropRule;
    var wan := if input.wanIface.Some? then input.wanIface.value else lan;
    DropRuleText(lan);
    PathRuleText(lan, wan);
    HasRuleIsLine(chains, "forward", PathRule(lan, wan));
    if input.vpnIface.Some? {
      var vpn := input.vpnIface.value;
      PathRuleText(lan, vpn);
      NatRuleText(vpn);
      HasRuleIsLine(chains, "forward", PathRule(lan, vpn));
      HasRuleIsLine(chains, "postrouting", NatRule(vpn));
    }
    assert EndsInLanDrop(chains, lan) <==> EndsWithLine(chains, "forward", LanDropRule(lan));
    hide EndsInLanDrop, EndsWithLine, RulesIn;
    AuditFindings(chains, lan, input);
  }

  lemma AuditFindings(chains: NL.Chains, lan: string, input: GatewayRulesInput)
    requires input.lanIface == Some(lan)
    ensures GatewayRulesHold(Some(chains), input)
            <==> && EndsInLanDrop(chains, lan)
                 && (input.vpnIface.Some? ==>
                       && HasRule(chains, "postrouting", [NatRule(input.vpnIface.value)])
                       && HasRule(chains, "forward", [PathRule(lan, input.vpnIface.value)]))
                 && input.ipForwardEnabled
    ensures KillSwitchRulesHold(Some(chains), input)
            <==> EndsInLanDrop(chains, lan) && !HasRule(chains, "forward", [PathRule(lan, WanOf(input))])
  {
    hide HasRule, EndsInLanDrop, PathRule, NatRule;
    var c := Some(chains);
    assert GatewayFinding(c, input, LanDropMissing) <==> !EndsInLanDrop(chains, lan);
    assert GatewayFinding(c, input, ForwardingDisabled) <==> !input.ipForwardEnabled;
    assert input.vpnIface.Some? ==>
        (GatewayFinding(c, input, TunnelNatMissing) <==> !HasRule(chains, "postrouting", [NatRule(input.vpnIface.value)]));
    assert input.vpnIface.Some? ==>
        (GatewayFinding(c, input, TunnelPathMissing) <==> !HasRule(chains, "forward", [PathRule(lan, input.vpnIface.value)]));
    assert KillSwitchFinding(c, input, LanDropMissing) <==> !EndsInLanDrop(chains, lan);
    assert KillSwitchFinding(c, input, DirectPathPresent) <==> HasRule(chains, "forward", [PathRule(lan, WanOf(input))]);
  }

  lemma DropRuleText(lan: string)
    ensures LanDropRule(lan) == "iifname \"" + lan + "\" drop"
  {
    assert "iifname" + " \"" == "iifname \"" && "\"" + " drop" == "\" drop";
    ConcatFour("iifname", " \"", lan, "\"", " drop");
  }

  lemma NatRuleText(iface: string)
    ensures NatRule(iface) == "oifname \"" + iface + "\" masquerade"
  {
    assert "oifname" + " \"" == "oifname \"" && "\"" + " masquerade" == "\" masquerade";
    ConcatFour("oifname", " \"", iface, "\"", " masquerade");
  }

  lemma ConcatFour(a: string, b: string, c: string, d: string, e: string)
    ensures a + b + c + d + e == (a + b) + c + (d + e)
  {
  }

  lemma PathRuleText(from: string, to: string)
    ensures PathRule(from, to) == "iifname \"" + from + "\" oifname \"" + to + "\" accept"
  {
    assert "iifname" + " \"" == "iifname \"" && "\"" + " accept" == "\" accept";
    assert "\"" + " " + ("oifname" + " \"") == "\" oifname \"";
    PathConcat("iifname" + " \"", from, "\"", " ", "oifname" + " \"", to, " accept");
  }

  lemma PathConcat(a: string, from: string, q: string, space: string, b: string, to: string, end: string)
    ensures (a + from + q) + space + (b + to + q) + end == a + from + (q + space + b) + to + (q + end)
  {
  }

  lemma ForwardEnds(i: Input)
    ensures var texts := ForwardTexts(i); |texts| > 0 && texts[|texts| - 1] == LanDropRule(i.lanIface)
  {
    hide StandingTexts, PathTexts, LanDropRule;
  }

  /** The gateway audit of a generated table passes exactly when the gateway is on and the host forwards. */
  lemma GatewayAuditExactly(t: Table, i: Input, n: Printed, input: GatewayRulesInput)
    requires BuiltFrom(t, i) && ValidInput(i) && IsPrinted(n) && Describes(input, i)
    ensures GatewayRulesHold(Some(NL.ChainsOf(ListingOf(t, n))), input) <==> i.transparentGateway && input.ipForwardEnabled
  {
    hide BuiltFrom, ValidInput, IsPrinted, NL.ChainsOf, ListingOf, HasRule, RulesIn, ForwardTexts, PostroutingTexts, LanDropRule, NatRule, PathRule;
    var chains := NL.ChainsOf(ListingOf(t, n));
    ForwardReadBack(t, i, n);
    ForwardEnds(i);
    if i.transparentGateway && i.vpnIface.Some? {
      TunnelFound(i, chains);
    }
    assert GatewayFinding(Some(chains), input, LanDropMissing) <==> !EndsInLanDrop(chains, i.lanIface);
    assert GatewayFinding(Some(chains), input, ForwardingDisabled) <==> !input.ipForwardEnabled;
  }

  lemma TunnelFound(i: Input, chains: NL.Chains)
    requires i.transparentGateway && i.vpnIface.Some?
    requires RulesIn(chains, "forward") == ForwardTexts(i) && RulesIn(chains, "postrouting") == PostroutingTexts(i)
    ensures HasRule(chains, "forward", [PathRule(i.lanIface, i.vpnIface.value)])
    ensures HasRule(chains, "postrouting", [NatRule(i.vpnIface.value)])
  {
    hide HasRule, RulesIn, StandingTexts, LanDropRule, NatRule, PathRule, BypassNatLine, BackRule, Includes;
    var vpn := i.vpnIface.value;
    var forward, out := ForwardTexts(i), PostroutingTexts(i);
    IncludesItself(PathRule(i.lanIface, vpn));
    IncludesItself(NatRule(vpn));
    assert forward[|StandingTexts(i)|] == PathRule(i.lanIface, vpn);
    assert out[|out| - 1] == NatRule(vpn);
    HasRuleIsInclusion(chains, "forward", PathRule(i.lanIface, vpn));
    HasRuleIsInclusion(chains, "postrouting", NatRule(vpn));
  }

  /** A packet from the LAN that would leave by the WAN interface on no merit of its own. */
  ghost predicate Leaks(t: Table, i: Input, p: Packet) {
    LanOriginated(i, p) && p.oif == i.wanIface && Forwarded(t, p)
  }

  lemma KillSwitchAuditByText(t: Table, i: Input, n: Printed, input: GatewayRulesInput)
    requires BuiltFrom(t, i) && ValidInput(i) && IsPrinted(n) && Describes(input, i)
    ensures KillSwitchRulesHold(Some(NL.ChainsOf(ListingOf(t, n))), input)
            <==> i.transparentGateway && !OpenTo(i, i.wanIface)
  {
    hide BuiltFrom, ValidInput, IsPrinted, NL.ChainsOf, ListingOf, HasRule, RulesIn, ForwardTexts, PostroutingTexts, LanDropRule, PathRule, IsName;
    var chains := NL.ChainsOf(ListingOf(t, n));
    ForwardReadBack(t, i, n);
    ForwardEnds(i);
    NamesOf(i);
    ForwardTextsOpen(i, i.wanIface);
    HasRuleIsInclusion(chains, "forward", PathRule(i.lanIface, i.wanIface));
    assert KillSwitchFinding(Some(chains), input, LanDropMissing) <==> !EndsInLanDrop(chains, i.lanIface);
    assert KillSwitchFinding(Some(chains), input, DirectPathPresent)
      <==> HasRule(chains, "forward", [PathRule(i.lanIface, i.wanIface)]);
  }

  /**
   The kill switch audit of a generated table passes exactly when the kill switch is on or a tunnel is
   present, the tunnel not being the WAN interface; a table without the gateway never passes.
   */
  lemma KillSwitchAuditExactly(t: Table, i: Input, n: Printed, input: GatewayRulesInput)
    requires BuiltFrom(t, i) && ValidInput(i) && IsPrinted(n) && Describes(input, i)
    ensures KillSwitchRulesHold(Some(NL.ChainsOf(ListingOf(t, n))), input)
            <==> i.transparentGateway && (i.killSwitch || i.vpnIface.Some?) && i.vpnIface != Some(i.wanIface)
  {
    hide BuiltFrom, ValidInput, IsPrinted, NL.ChainsOf, ListingOf, KillSwitchRulesHold;
    KillSwitchAuditByText(t, i, n, input);
  }

  /**
   What the kill switch audit reads in the text is what the kernel does with packets: it passes
   exactly when no packet originated on the LAN is forwarded to the WAN interface.
   */
  lemma AuditMatchesKernel(t: Table, i: Input, n: Printed, input: GatewayRulesInput)
    requires BuiltFrom(t, i) && ValidInput(i) && IsPrinted(n) && Describes(input, i)
    ensures KillSwitchRulesHold(Some(NL.ChainsOf(ListingOf(t, n))), input) <==> forall p :: !Leaks(t, i, p)
  {
    hide ValidInput, IsPrinted, NL.ChainsOf, ListingOf, KillSwitchRulesHold, Forwarded;
    KillSwitchAuditByText(t, i, n, input);
    forall p ensures Leaks(t, i, p) ==> !i.transparentGateway || OpenTo(i, i.wanIface) {
      ForwardExactly(t, i, p);
    }
    var probe := Packet(i.lanIface, i.wanIface, "", "", OtherProtocol, 0, None, false, false, false, 0, 0);
    ForwardExactly(t, i, probe);
    assert !i.transparentGateway || OpenTo(i, i.wanIface) ==> Leaks(t, i, probe);
  }

  /** The marking audit finds its rule exactly when bypass is configured. */
  lemma BypassMarkAuditExactly(t: Table, i: Input, n: Printed)
    requires BuiltFrom(t, i) && ValidInput(i) && IsPrinted(n)
    ensures HasBypassMarkRule(Some(NL.ChainsOf(ListingOf(t, n))), i.lanIface) <==> i.bypass.Some?
  {
    hide ValidInput, IsPrinted, NL.ChainsOf, ListingOf, RulesIn, Includes, RuleText, MarkLine, MarkRule;
    var chains := NL.ChainsOf(ListingOf(t, n));
    ReadBack(t, i, n);
    assert NameOf(BypassMark) == "bypass_mark";
    if i.bypass.Some? {
      MarkLineText(i.lanIface);
      MarkLineIncludes(i.lanIface);
      assert RulesIn(chains, "bypass_mark")[0] == MarkLine(i.lanIface);
    }
  }

  lemma MarkLineIncludes(lan: string)
    ensures Includes(MarkLine(lan), Quoted("iifname", lan))
    ensures Includes(MarkLine(lan), "ip daddr @bypass4")
    ensures Includes(MarkLine(lan), "meta mark set")
  {
    hide Includes, Quoted;
    var head := Quoted("iifname", lan);
    MarkWordsInclude();
    IncludesItself(head);
    IncludesWithin("", head, TO_BYPASS + MARKED + CT_MARKED, head);
    IncludesWithin(head, TO_BYPASS, MARKED + CT_MARKED, "ip daddr @bypass4");
    IncludesWithin(head + TO_BYPASS, MARKED, CT_MARKED, "meta mark set");
    FourPartsAssociate(head, TO_BYPASS, MARKED, CT_MARKED);
  }

  lemma FourPartsAssociate(a: string, b: string, c: string, d: string)
    ensures "" + a + (b + c + d) == a + b + c + d
    ensures a + b + (c + d) == a + b + c + d
  {
  }

  lemma MarkWordsInclude()
    ensures Includes(TO_BYPASS, "ip daddr @bypass4")
    ensures Includes(MARKED, "meta mark set")
  {
    hide Includes;
    IncludesIntro(" ", "ip daddr @bypass4", "");
    assert " " + "ip daddr @bypass4" + "" == TO_BYPASS;
    IncludesIntro(" ", "meta mark set", " 0x00000100");
    assert " " + "meta mark set" + " 0x00000100" == MARKED;
  }

  lemma IncludesWithin(before: string, s: string, after: string, part: string)
    requires Includes(s, part)
    ensures Includes(before + s + after, part)
  {
    var k :| 0 <= k <= |s| - |part| && OccursAt(s, part, k);
    var all := before + s + after;
    assert all[|before| + k..|before| + k + |part|] == s[k..k + |part|];
    assert OccursAt(all, part, |before| + k);
  }
}
