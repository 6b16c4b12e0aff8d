/**
 `proxy/src/verification/rule-audit.ts`: judging an installed table by the text of its rules. The audit
 looks for substrings in a listing; proved here is what its verdict says about the table listed.
 */
module RuleAudit {
  import opened Wrappers
  import opened Text
  import opened Nft
  import opened Ruleset
  import opened ForwardVerdict
  import NL = NftListing

  // ---------------------------------------------------------------- the auditor

  datatype GatewayRulesInput = GatewayRulesInput(
    lanIface: Option<string>, wanIface: Option<string>, vpnIface: Option<string>,
    killSwitch: bool, ipForwardEnabled: bool)

  datatype Finding =
    | NoLanInterface
    | NoTable
    | LanDropMissing
    | TunnelNatMissing
    | TunnelPathMissing
    | ForwardingDisabled
    | DirectPathPresent

  datatype Outcome = Pass | Fail(findings: seq<Finding>)

  function RulesIn(chains: NL.Chains, chain: string): seq<string> {
    if chain in chains then chains[chain] else []
  }

  predicate HasRule(chains: NL.Chains, chain: string, tokens: seq<string>) {
    var rules := RulesIn(chains, chain);
    exists k | 0 <= k < |rules| :: forall j | 0 <= j < |tokens| :: Includes(rules[k], tokens[j])
  }

  function Quoted(keyword: string, iface: string): string { keyword + " \"" + iface + "\"" }

  function LanDropRule(lanIface: string): string { Quoted("iifname", lanIface) + " drop" }

  function PathRule(from: string, to: string): string {
    Quoted("iifname", from) + " " + Quoted("oifname", to) + " accept"
  }

  function NatRule(iface: string): string { Quoted("oifname", iface) + " masquerade" }

  /** Whether the last rule of the forward chain is the LAN's drop. */
  predicate EndsInLanDrop(chains: NL.Chains, lanIface: string) {
    var forward := RulesIn(chains, "forward");
    |forward| > 0 && forward[|forward| - 1] == LanDropRule(lanIface)
  }

  /** What the gateway audit finds wrong. */
  predicate GatewayFinding(chains: Option<NL.Chains>, input: GatewayRulesInput, f: Finding) {
    if input.lanIface.None? then f == NoLanInterface
    else if chains.None? then f == NoTable
    else
      var lan := input.lanIface.value;
      match f
      case LanDropMissing => !EndsInLanDrop(chains.value, lan)
      case TunnelNatMissing =>
        input.vpnIface.Some? && !HasRule(chains.value, "postrouting", [NatRule(input.vpnIface.value)])
      case TunnelPathMissing =>
        input.vpnIface.Some? && !HasRule(chains.value, "forward", [PathRule(lan, input.vpnIface.value)])
      case ForwardingDisabled => !input.ipForwardEnabled
      case _ => false
  }

  ghost predicate GatewayRulesHold(chains: Option<NL.Chains>, input: GatewayRulesInput) {
    forall f :: !GatewayFinding(chains, input, f)
  }

  function FindingsOf(o: Outcome): seq<Finding> {
    match o case Pass => [] case Fail(findings) => findings
  }

  method AuditGatewayRules(chains: Option<NL.Chains>, input: GatewayRulesInput) returns (o: Outcome)
    ensures o == Pass <==> GatewayRulesHold(chains, input)
    ensures forall f :: f in FindingsOf(o) <==> GatewayFinding(chains, input, f)
  {
    hide HasRule, EndsInLanDrop, NatRule, PathRule;
    if input.lanIface.None? {
      assert GatewayFinding(chains, input, NoLanInterface);
      return Fail([NoLanInterface]);
    }
    if chains.None? {
      assert GatewayFinding(chains, input, NoTable);
      return Fail([NoTable]);
    }
    var lan := input.lanIface.value;
    var missing: seq<Finding> := [];
    if !EndsInLanDrop(chains.value, lan) {
      missing := missing + [LanDropMissing];
    }
    if input.vpnIface.Some? {
      if !HasRule(chains.value, "postrouting", [NatRule(input.vpnIface.value)]) {
        missing := missing + [TunnelNatMissing];
      }
      if !HasRule(chains.value, "forward", [PathRule(lan, input.vpnIface.value)]) {
        missing := missing + [TunnelPathMissing];
      }
    }
    if !input.ipForwardEnabled {
      missing := missing + [ForwardingDisabled];
    }
    assert forall f :: f in missing <==> GatewayFinding(chains, input, f);
    if |missing| > 0 {
      assert GatewayFinding(chains, input, missing[0]);
      return Fail(missing);
    }
    return Pass;
  }

  function WanOf(input: GatewayRulesInput): string
    requires input.lanIface.Some?
  {
    if input.wanIface.Some? then input.wanIface.value else input.lanIface.value
  }

  /** What the kill switch audit finds wrong. */
  predicate KillSwitchFinding(chains: Option<NL.Chains>, input: GatewayRulesInput, f: Finding) {
    if input.lanIface.None? then f == NoLanInterface
    else if chains.None? then f == NoTable
    else
      var lan := input.lanIface.value;
      match f
      case LanDropMissing => !EndsInLanDrop(chains.value, lan)
      case DirectPathPresent => HasRule(chains.value, "forward", [PathRule(lan, WanOf(input))])
      case _ => false
  }

  ghost predicate KillSwitchRulesHold(chains: Option<NL.Chains>, input: GatewayRulesInput) {
    forall f :: !KillSwitchFinding(chains, input, f)
  }

  method AuditKillSwitchRules(chains: Option<NL.Chains>, input: GatewayRulesInput) returns (o: Outcome)
    ensures o == Pass <==> KillSwitchRulesHold(chains, input)
    ensures forall f :: f in FindingsOf(o) <==> KillSwitchFinding(chains, input, f)
  {
    hide HasRule, EndsInLanDrop, PathRule;
    if input.lanIface.None? {
      assert KillSwitchFinding(chains, input, NoLanInterface);
      return Fail([NoLanInterface]);
    }
    if chains.None? {
      assert KillSwitchFinding(chains, input, NoTable);
      return Fail([NoTable]);
    }
    var lan := input.lanIface.value;
    var problems: seq<Finding> := [];
    if !EndsInLanDrop(chains.value, lan) {
      problems := problems + [LanDropMissing];
    }
    if HasRule(chains.value, "forward", [PathRule(lan, WanOf(input))]) {
      problems := problems + [DirectPathPresent];
    }
    assert forall f :: f in problems <==> KillSwitchFinding(chains, input, f);
    if |problems| > 0 {
      assert KillSwitchFinding(chains, input, problems[0]);
      return Fail(problems);
    }
    return Pass;
  }

  predicate HasBypassMarkRule(chains: Option<NL.Chains>, lanIface: string) {
    chains.Some? && HasRule(chains.value, "bypass_mark", [Quoted("iifname", lanIface), "ip daddr @bypass4", "meta mark set"])
  }

  // ---------------------------------------------------------------- how nft prints a table

  function SetText(name: SetName): string {
    match name case Bypass4 => "bypass4" case Redirected4 => "redirected4"
  }

  function HexDigit(d: nat): char
    requires d < 16
  {
    if d < 10 then '0' + d as char else 'a' + (d - 10) as char
  }

  /** The last `width` hexadecimal digits. */
  function Hex(n: nat, width: nat): string {
    if width == 0 then "" else Hex(n / 16, width - 1) + [HexDigit(n % 16)]
  }

  function MarkText(n: nat): string { "0x" + Hex(n, 8) }

  function StatementText(s: Statement): string {
    match s
    case IifName(name) => Quoted("iifname", name)
    case OifName(name) => Quoted("oifname", name)
    case OifNameNot(name) => Quoted("oifname !=", name)
    case DaddrIn(name) => "ip daddr @" + SetText(name)
    case DaddrNotIn(excluded) => "ip daddr != { " + Join(excluded, ',') + " }"
    case L4UdpOrTcp => "meta l4proto { tcp, udp }"
    case DestinationPort(port) => "th dport " + (if port >= 0 then Decimal(port) else "")
    case SocketUid(uid) => "meta skuid " + (if uid >= 0 then Decimal(uid) else "")
    case MarkIs(value) => "meta mark " + MarkText(value)
    case CtMarkIs(value) => "ct mark " + MarkText(value)
    case CtStatusDnat => "ct status dnat"
    case CtDirectionReply => "ct direction reply"
    case CtEstablishedRelated => "ct state established,related"
    case SetMark(value) => "meta mark set " + MarkText(value)
    case SetCtMark(value) => "ct mark set " + MarkText(value)
    case RecordSource(name, seconds) => "update @" + SetText(name) + " { ip saddr timeout " + Decimal(seconds) + "s }"
    case Accept => "accept"
    case Drop => "drop"
    case Masquerade => "masquerade"
    case DnatTo(address, port) => "dnat ip to " + address + ":" + (if port >= 0 then Decimal(port) else "")
  }

  function RuleText(rule: Rule): string {
    if rule == [] then ""
    else if |rule| == 1 then StatementText(rule[0])
    else StatementText(rule[0]) + " " + RuleText(rule[1..])
  }

  function Texts(rules: seq<Rule>): (r: seq<string>)
    ensures |r| == |rules| && forall i :: 0 <= i < |rules| ==> r[i] == RuleText(rules[i])
  {
    seq(|rules|, i requires 0 <= i < |rules| => RuleText(rules[i]))
  }

  function NameOf(c: ChainName): string {
    match c
    case ForwardChain => "forward"
    case PostroutingChain => "postrouting"
    case BypassMark => "bypass_mark"
    case BypassMarkOutput => "bypass_mark_output"
    case DnsRedirectChain => "dns_redirect"
  }

  function KindText(kind: ChainKind): string {
    match kind case Filter => "filter" case Nat => "nat" case Route => "route"
  }

  function HookText(hook: Hook): string {
    match hook
    case Prerouting => "prerouting"
    case Forward => "forward"
    case Output => "output"
    case Postrouting => "postrouting"
  }

  /** The names nft gives to standard priorities. */
  function PriorityText(priority: int): string {
    if priority == 0 then "filter"
    else if priority == 100 then "srcnat"
    else if priority == -100 then "dstnat"
    else "mangle"
  }

  function DeclarationOf(c: Chain): string {
    KindText(c.kind) + " hook " + HookText(c.hook) + " priority " + PriorityText(c.priority) + "; policy accept;"
  }

  /**
   The parts that nft prints in a form of its own choosing: the lines inside the sets, and the
   redirecting rule, whose addresses it reorders and shortens.
   */
  datatype Printed = Printed(bypassBody: seq<string>, redirectedBody: seq<string>, redirectLine: string)

  predicate IsPrinted(n: Printed) {
    && (forall k :: 0 <= k < |n.bypassBody| ==> NL.IsBodyLine(n.bypassBody[k]))
    && (forall k :: 0 <= k < |n.redirectedBody| ==> NL.IsBodyLine(n.redirectedBody[k]))
    && NL.IsRuleLine(n.redirectLine)
  }

  function ListedSets(t: Table, n: Printed): seq<NL.Block> {
    (if Bypass4 in t.sets then [NL.SetBlock("bypass4", n.bypassBody)] else []) +
    (if Redirected4 in t.sets then [NL.SetBlock("redirected4", n.redirectedBody)] else [])
  }

  function ListedRules(t: Table, n: Printed, c: ChainName): seq<string>
    requires c in t.chains
  {
    if c == DnsRedirectChain then [n.redirectLine] else Texts(t.chains[c].rules)
  }

  function ListedChain(t: Table, n: Printed, c: ChainName): seq<NL.Block> {
    if c in t.chains then [NL.ChainBlock(NameOf(c), DeclarationOf(t.chains[c]), ListedRules(t, n, c))] else []
  }

  /** The blocks of a table's listing: sets, then chains in the order they are created. */
  function Blocks(t: Table, n: Printed): seq<NL.Block> {
    ListedSets(t, n) + ListedChain(t, n, PostroutingChain) + ListedChain(t, n, ForwardChain)
    + ListedChain(t, n, BypassMark) + ListedChain(t, n, BypassMarkOutput) + ListedChain(t, n, DnsRedirectChain)
  }

  function ListingOf(t: Table, n: Printed): string { NL.Listing(TABLE, Blocks(t, n)) }

  // ---------------------------------------------------------------- the texts of a generated table

  const CT_STATE := "ct state established,related"

  function StandingTexts(i: Input): seq<string> {
    ["ct status dnat accept", Quoted("oifname !=", i.lanIface) + " ct direction reply " + CT_STATE + " accept"] +
    (if i.bypass.Some? then ["ct mark 0x00000100 accept"] else [])
  }

  function PathTexts(i: Input): seq<string> {
    match i.vpnIface
    case Some(vpn) =>
      [PathRule(i.lanIface, vpn), BackRule(vpn, i.lanIface), LanDropRule(vpn)]
    case None =>
      if i.killSwitch then [] else [PathRule(i.lanIface, i.wanIface), BackRule(i.wanIface, i.lanIface)]
  }

  function BackRule(from: string, to: string): string {
    Quoted("iifname", from) + " " + Quoted("oifname", to) + " " + CT_STATE + " accept"
  }

  function ForwardTexts(i: Input): seq<string> {
    StandingTexts(i) + PathTexts(i) + [LanDropRule(i.lanIface)]
  }

  lemma RuleTextOfTwo(a: Statement, b: Statement)
    ensures RuleText([a, b]) == StatementText(a) + " " + StatementText(b)
  {
    hide StatementText;
    assert [a, b][1..] == [b];
  }

  lemma RuleTextOfThree(a: Statement, b: Statement, c: Statement)
    ensures RuleText([a, b, c]) == StatementText(a) + " " + StatementText(b) + " " + StatementText(c)
  {
    hide StatementText;
    assert [a, b, c][1..] == [b, c];
    RuleTextOfTwo(b, c);
  }

  lemma RuleTextOfFour(a: Statement, b: Statement, c: Statement, d: Statement)
    ensures RuleText([a, b, c, d])
            == StatementText(a) + " " + StatementText(b) + " " + StatementText(c) + " " + StatementText(d)
  {
    hide StatementText;
    assert [a, b, c, d][1..] == [b, c, d];
    RuleTextOfThree(b, c, d);
  }

  lemma MarkTextOfBypass()
    ensures MarkText(BYPASS_FWMARK) == "0x00000100"
  {
    assert Hex(0x100, 8) == Hex(0x10, 7) + "0";
    assert Hex(0x10, 7) == Hex(1, 6) + "0";
    assert Hex(1, 6) == Hex(0, 5) + "1";
    assert Hex(0, 5) == "00000" by {
      assert Hex(0, 1) == "0" && Hex(0, 2) == "00" && Hex(0, 3) == "000" && Hex(0, 4) == "0000";
    }
  }

  lemma DnatText()
    ensures RuleText([CtStatusDnat, Accept]) == "ct status dnat accept"
  {
    hide RuleText;
    RuleTextOfTwo(CtStatusDnat, Accept);
    assert "ct status dnat" + " " + "accept" == "ct status dnat accept";
  }

  lemma ReplyText(lan: string)
    ensures RuleText([OifNameNot(lan), CtDirectionReply, CtEstablishedRelated, Accept])
            == Quoted("oifname !=", lan) + " ct direction reply " + CT_STATE + " accept"
  {
    hide RuleText;
    RuleTextOfFour(OifNameNot(lan), CtDirectionReply, CtEstablishedRelated, Accept);
    var head := Quoted("oifname !=", lan);
    assert " " + "ct direction reply" + " " == " ct direction reply ";
    assert " " + "accept" == " accept";
    SpacesAroundTheMiddle(head, " ", "ct direction reply", CT_STATE, "accept");
  }

  lemma SpacesAroundTheMiddle(a: string, b: string, c: string, d: string, e: string)
    ensures a + b + c + b + d + b + e == a + (b + c + b) + d + (b + e)
  {
  }

  lemma MarkedText()
    ensures RuleText([CtMarkIs(BYPASS_FWMARK), Accept]) == "ct mark 0x00000100 accept"
  {
    hide RuleText, MarkText;
    MarkTextOfBypass();
    RuleTextOfTwo(CtMarkIs(BYPASS_FWMARK), Accept);
    assert "ct mark " + "0x00000100" + " " + "accept" == "ct mark 0x00000100 accept";
  }

  lemma StandingListed(i: Input)
    ensures Texts(StandingRules(i)) == StandingTexts(i)
  {
    hide RuleText, Quoted;
    DnatText();
    ReplyText(i.lanIface);
    MarkedText();
  }

  lemma PathListed(i: Input)
    ensures Texts(PathRules(i)) == PathTexts(i)
  {
    match i.vpnIface
    case Some(vpn) =>
      PathText(i.lanIface, vpn);
      BackText(vpn, i.lanIface);
      DropText(vpn);
    case None =>
      PathText(i.lanIface, i.wanIface);
      BackText(i.wanIface, i.lanIface);
  }

  lemma PathText(from: string, to: string)
    ensures RuleText([IifName(from), OifName(to), Accept]) == PathRule(from, to)
  {
    hide RuleText;
    RuleTextOfThree(IifName(from), OifName(to), Accept);
    var head := Quoted("iifname", from) + " " + Quoted("oifname", to);
    assert head + " " + "accept" == head + " accept";
  }

  lemma BackText(from: string, to: string)
    ensures RuleText([IifName(from), OifName(to), CtEstablishedRelated, Accept]) == BackRule(from, to)
  {
    hide RuleText;
    RuleTextOfFour(IifName(from), OifName(to), CtEstablishedRelated, Accept);
    var head := Quoted("iifname", from) + " " + Quoted("oifname", to) + " " + CT_STATE;
    assert head + " " + "accept" == head + " accept";
  }

  lemma DropText(from: string)
    ensures RuleText([IifName(from), Drop]) == LanDropRule(from)
  {
    hide RuleText;
    RuleTextOfTwo(IifName(from), Drop);
    assert Quoted("iifname", from) + " " + "drop" == Quoted("iifname", from) + " drop";
  }

  lemma NatText(iface: string)
    ensures RuleText([OifName(iface), Masquerade]) == NatRule(iface)
  {
    hide RuleText;
    RuleTextOfTwo(OifName(iface), Masquerade);
    assert Quoted("oifname", iface) + " " + "masquerade" == Quoted("oifname", iface) + " masquerade";
  }

  lemma ForwardListed(i: Input)
    ensures Texts(ForwardRules(i)) == ForwardTexts(i)
  {
    hide RuleText, StandingRules, PathRules, StandingTexts, PathTexts;
    StandingListed(i);
    PathListed(i);
    DropText(i.lanIface);
    TextsAppend(StandingRules(i), PathRules(i));
    TextsAppend(StandingRules(i) + PathRules(i), [LanDrop(i)]);
    assert Texts([LanDrop(i)]) == [LanDropRule(i.lanIface)];
  }

  lemma TextsAppend(a: seq<Rule>, b: seq<Rule>)
    ensures Texts(a + b) == Texts(a) + Texts(b)
  {
    hide RuleText;
  }

  // ---------------------------------------------------------------- substrings between quotes

  lemma {:induction false} SplitConcat(x: string, y: string, sep: char)
    ensures var a, b := Split(x, sep), Split(y, sep);
            Split(x + y, sep) == a[..|a| - 1] + [a[|a| - 1] + b[0]] + b[1..]
  {
    if x == "" {
      assert x + y == y;
      var b := Split(y, sep);
      assert "" + b[0] == b[0] && [b[0]] + b[1..] == b;
    } else {
      assert (x + y)[1..] == x[1..] + y;
      SplitConcat(x[1..], y, sep);
      var a, b := Split(x[1..], sep), Split(y, sep);
      var front, last := a[..|a| - 1], a[|a| - 1];
      assert a == front + [last];
      PutFirst(x[0], sep, front, last, b[0], b[1..]);
    }
  }

  /** Prepending a character to split parts, whether or not the parts go on. */
  lemma PutFirst(c: char, sep: char, front: seq<string>, last: string, more: string, rest: seq<string>)
    ensures var a, all := Put(c, sep, front + [last]), Put(c, sep, front + [last + more] + rest);
            all == a[..|a| - 1] + [a[|a| - 1] + more] + rest
  {
    if c != sep && front != [] {
      assert (front + [last])[1..] == front[1..] + [last];
      assert (front + [last + more] + rest)[1..] == front[1..] + [last + more] + rest;
    } else if c != sep {
      assert [c] + (last + more) == [c] + last + more;
      assert ([] + [last])[1..] == [];
    }
  }

  function Put(c: char, sep: char, parts: seq<string>): (r: seq<string>)
    requires parts != []
    ensures r != []
  {
    if c == sep then [""] + parts else [[c] + parts[0]] + parts[1..]
  }

  /** A line that includes `part` has at least its quotes, and with no more of them the same names inside. */
  lemma QuotesAlign(line: string, part: string)
    requires Includes(line, part)
    ensures var whole, inner := Split(line, '"'), Split(part, '"');
            && |whole| >= |inner|
            && (|whole| == |inner| ==> forall k :: 0 < k < |inner| - 1 ==> whole[k] == inner[k])
  {
    hide Split;
    var at :| 0 <= at <= |line| - |part| && OccursAt(line, part, at);
    var before, after := line[..at], line[at + |part|..];
    assert line == before + part + after;
    SplitConcat(before, part, '"');
    SplitConcat(before + part, after, '"');
  }

  predicate IsName(s: string) { '"' !in s && '\n' !in s }

  lemma ValidNameIsName(s: string)
    requires IsValidInterfaceName(s)
    ensures IsName(s)
  {
  }

  lemma QuotedFirst(keyword: string, iface: string, rest: string)
    requires '"' !in keyword && '"' !in iface
    ensures Split(Quoted(keyword, iface) + rest, '"') == [keyword + " ", iface] + Split(rest, '"')
  {
    hide Split;
    assert Quoted(keyword, iface) + rest == (keyword + " ") + ['"'] + (iface + ['"'] + rest);
    SplitAppend(keyword + " ", iface + ['"'] + rest, '"');
    SplitAppend(iface, rest, '"');
    SplitWhole(keyword + " ", '"');
    SplitWhole(iface, '"');
  }

  lemma QuotedParts(keyword: string, iface: string, rest: string)
    requires '"' !in keyword && '"' !in iface && '"' !in rest
    ensures Split(Quoted(keyword, iface) + rest, '"') == [keyword + " ", iface, rest]
  {
    hide Split, Quoted;
    QuotedFirst(keyword, iface, rest);
    SplitWhole(rest, '"');
  }

  lemma TwoQuotedParts(from: string, to: string, rest: string)
    requires '"' !in from && '"' !in to && '"' !in rest
    ensures Split(Quoted("iifname", from) + " " + Quoted("oifname", to) + rest, '"')
            == ["iifname ", from, " oifname ", to, rest]
  {
    hide Split, Quoted;
    var second := Quoted(" oifname", to) + rest;
    SpaceBefore(to);
    assert Quoted("iifname", from) + " " + Quoted("oifname", to) + rest == Quoted("iifname", from) + second;
    QuotedFirst("iifname", from, second);
    QuotedParts(" oifname", to, rest);
    assert " oifname" + " " == " oifname " && "iifname" + " " == "iifname ";
  }

  lemma SpaceBefore(to: string)
    ensures " " + Quoted("oifname", to) == Quoted(" oifname", to)
  {
    assert " " + "oifname" == " oifname";
    assert " " + ("oifname" + " \"" + to + "\"") == " " + "oifname" + " \"" + to + "\"";
  }

  lemma PathParts(from: string, to: string)
    requires '"' !in from && '"' !in to
    ensures Split(PathRule(from, to), '"') == ["iifname ", from, " oifname ", to, " accept"]
  {
    hide Split, Quoted;
    TwoQuotedParts(from, to, " accept");
  }

  lemma BackParts(from: string, to: string)
    requires '"' !in from && '"' !in to
    ensures Split(BackRule(from, to), '"') == ["iifname ", from, " oifname ", to, " " + CT_STATE + " accept"]
  {
    hide Split, Quoted;
    var head := Quoted("iifname", from) + " " + Quoted("oifname", to);
    assert head + " " + CT_STATE + " accept" == head + (" " + CT_STATE + " accept");
    TwoQuotedParts(from, to, " " + CT_STATE + " accept");
  }

  /** Among the generated rules, the direct path to `wan` is found only where it is. */
  lemma PathFoundInPath(from: string, to: string, lan: string, wan: string)
    requires IsName(from) && IsName(to) && IsName(lan) && IsName(wan)
    ensures Includes(PathRule(from, to), PathRule(lan, wan)) <==> from == lan && to == wan
    ensures Includes(BackRule(from, to), PathRule(lan, wan)) ==> from == lan && to == wan
  {
    hide Split, PathRule, BackRule, Includes;
    PathParts(lan, wan);
    PathParts(from, to);
    BackParts(from, to);
    if Includes(PathRule(from, to), PathRule(lan, wan)) {
      QuotesAlign(PathRule(from, to), PathRule(lan, wan));
      assert Split(PathRule(from, to), '"')[1] == lan && Split(PathRule(from, to), '"')[3] == wan;
    }
    if Includes(BackRule(from, to), PathRule(lan, wan)) {
      QuotesAlign(BackRule(from, to), PathRule(lan, wan));
      assert Split(BackRule(from, to), '"')[1] == lan && Split(BackRule(from, to), '"')[3] == wan;
    }
    IncludesItself(PathRule(lan, wan));
  }

  lemma IncludesItself(s: string)
    ensures Includes(s, s)
  {
    IncludesIntro("", s, "");
    assert "" + s + "" == s;
  }

  lemma FewQuotes(line: string, lan: string, wan: string)
    requires IsName(lan) && IsName(wan) && |Split(line, '"')| < 5
    ensures !Includes(line, PathRule(lan, wan))
  {
    hide Split, PathRule, Includes;
    PathParts(lan, wan);
    if Includes(line, PathRule(lan, wan)) {
      QuotesAlign(line, PathRule(lan, wan));
    }
  }

  lemma StandingHasNoPath(i: Input, wan: string, k: nat)
    requires IsName(i.lanIface) && IsName(wan) && k < |StandingTexts(i)|
    ensures !Includes(StandingTexts(i)[k], PathRule(i.lanIface, wan))
  {
    hide Includes, PathRule;
    StandingQuotes(i, k);
    FewQuotes(StandingTexts(i)[k], i.lanIface, wan);
  }

  lemma StandingQuotes(i: Input, k: nat)
    requires IsName(i.lanIface) && k < |StandingTexts(i)|
    ensures |Split(StandingTexts(i)[k], '"')| < 5
  {
    hide Split, Quoted;
    SplitWhole("ct status dnat accept", '"');
    SplitWhole("ct mark 0x00000100 accept", '"');
    ReplyQuotes(i.lanIface);
  }

  lemma ReplyQuotes(lan: string)
    requires IsName(lan)
    ensures |Split(Quoted("oifname !=", lan) + " ct direction reply " + CT_STATE + " accept", '"')| == 3
  {
    hide Split, Quoted;
    var rest := " ct direction reply " + CT_STATE + " accept";
    var head := Quoted("oifname !=", lan);
    QuotedParts("oifname !=", lan, rest);
    assert head + " ct direction reply " + CT_STATE + " accept" == head + rest;
  }

  lemma DropHasNoPath(from: string, lan: string, wan: string)
    requires IsName(from) && IsName(lan) && IsName(wan)
    ensures !Includes(LanDropRule(from), PathRule(lan, wan))
  {
    hide Includes, PathRule, Split;
    QuotedParts("iifname", from, " drop");
    FewQuotes(LanDropRule(from), lan, wan);
  }

  ghost predicate SomeIncludes(lines: seq<string>, token: string) {
    exists k :: 0 <= k < |lines| && Includes(lines[k], token)
  }

  lemma SomeIncludesAppend(a: seq<string>, b: seq<string>, token: string)
    ensures SomeIncludes(a + b, token) <==> SomeIncludes(a, token) || SomeIncludes(b, token)
  {
    hide Includes;
    var all := a + b;
    assert forall k :: 0 <= k < |a| ==> all[k] == a[k];
    assert forall k :: 0 <= k < |b| ==> all[|a| + k] == b[k];
    if SomeIncludes(all, token) {
      var k :| 0 <= k < |all| && Includes(all[k], token);
      if k >= |a| {
        assert b[k - |a|] == all[k];
      }
    }
  }

  predicate AreNames(i: Input) {
    IsName(i.lanIface) && IsName(i.wanIface) && (i.vpnIface.Some? ==> IsName(i.vpnIface.value))
  }

  /** The kinds of egress the texts permit from the LAN. */
  predicate OpenTo(i: Input, wan: string) {
    match i.vpnIface
    case Some(vpn) => vpn == wan
    case None => !i.killSwitch && i.wanIface == wan
  }

  lemma PathTextsOpen(i: Input, wan: string)
    requires AreNames(i) && IsName(wan)
    ensures SomeIncludes(PathTexts(i), PathRule(i.lanIface, wan)) <==> OpenTo(i, wan)
  {
    hide Includes, PathRule, BackRule, LanDropRule;
    var token, lan := PathRule(i.lanIface, wan), i.lanIface;
    match i.vpnIface
    case Some(vpn) =>
      PathFoundInPath(lan, vpn, lan, wan);
      PathFoundInPath(vpn, lan, lan, wan);
      DropHasNoPath(vpn, lan, wan);
      assert PathTexts(i)[0] == PathRule(lan, vpn);
    case None =>
      PathFoundInPath(lan, i.wanIface, lan, wan);
      PathFoundInPath(i.wanIface, lan, lan, wan);
      if !i.killSwitch {
        assert PathTexts(i)[0] == PathRule(lan, i.wanIface);
      }
  }

  lemma ForwardTextsOpen(i: Input, wan: string)
    requires AreNames(i) && IsName(wan)
    ensures SomeIncludes(ForwardTexts(i), PathRule(i.lanIface, wan)) <==> OpenTo(i, wan)
  {
    hide Includes, PathRule, LanDropRule, StandingTexts, PathTexts, OpenTo;
    var token := PathRule(i.lanIface, wan);
    forall k: nat | k < |StandingTexts(i)| ensures !Includes(StandingTexts(i)[k], token) {
      StandingHasNoPath(i, wan, k);
    }
    PathTextsOpen(i, wan);
    DropHasNoPath(i.lanIface, i.lanIface, wan);
    SomeIncludesAppend(StandingTexts(i), PathTexts(i), token);
    SomeIncludesAppend(StandingTexts(i) + PathTexts(i), [LanDropRule(i.lanIface)], token);
  }
}
