/**
 The part of nftables the gateway relies on: commands, scripts applied as one transaction,
 and the evaluation of a chain's rules on a packet (the first terminal verdict wins).
 */
module Nft {
  import opened Wrappers
  import Ipv4

  // ---------------------------------------------------------------- names

  /** The chains and sets the gateway names, each once. */
  datatype ChainName = ForwardChain | PostroutingChain | BypassMark | BypassMarkOutput | DnsRedirectChain

  datatype SetName = Bypass4 | Redirected4

  // ---------------------------------------------------------------- packets and rules

  datatype L4 = Udp | Tcp | OtherProtocol

  /** A packet at a hook, with the connection-tracking facts the rules can ask about. */
  datatype Packet = Packet(
    iif: string,          // interface it entered by
    oif: string,          // interface it is about to leave by
    saddr: string,
    daddr: string,
    l4: L4,
    dport: int,
    skuid: Option<int>,   // owner of the local socket, for locally generated packets
    dnat: bool,           // ct status dnat
    reply: bool,          // ct direction reply
    established: bool,    // ct state established,related
    mark: nat,            // packet mark
    ctMark: nat)          // connection mark

  /** A rule is a list of these, evaluated left to right. */
  datatype Statement =
    | IifName(name: string)
    | OifName(name: string)
    | OifNameNot(name: string)
    | DaddrIn(setName: SetName)
    | DaddrNotIn(excluded: seq<string>)
    | L4UdpOrTcp
    | DestinationPort(port: int)
    | SocketUid(uid: int)
    | MarkIs(value: nat)
    | CtMarkIs(value: nat)
    | CtStatusDnat
    | CtDirectionReply
    | CtEstablishedRelated
    | SetMark(value: nat)
    | SetCtMark(value: nat)
    | RecordSource(setName: SetName, seconds: nat)
    | Accept
    | Drop
    | Masquerade
    | DnatTo(address: string, toPort: int)

  type Rule = seq<Statement>

  datatype ChainKind = Filter | Nat | Route
  datatype Hook = Prerouting | Forward | Output | Postrouting

  datatype Chain = Chain(kind: ChainKind, hook: Hook, priority: int, rules: seq<Rule>)

  datatype Set = Set(dynamic: bool, elements: set<string>)

  datatype Table = Table(chains: map<ChainName, Chain>, sets: map<SetName, Set>)

  /** All tables of the `inet` family on the host. */
  type Ruleset = map<string, Table>

  // ---------------------------------------------------------------- commands

  datatype Element = Element(address: string, timeoutSeconds: int)

  datatype Command =
    | AddTable(table: string)
    | DeleteTable(table: string)
    | AddChain(table: string, chain: ChainName, kind: ChainKind, hook: Hook, priority: int)
    | AddSet(table: string, setName: SetName, dynamic: bool)
    | AddElements(table: string, setName: SetName, elements: seq<Element>)
    | AddRule(table: string, chain: ChainName, rule: Rule)

  type Script = seq<Command>

  /** Where the kernel accepts a statement: NAT actions only in NAT chains of their own hook. */
  predicate AllowedIn(c: Chain, s: Statement) {
    match s
    case Masquerade => c.kind == Nat && c.hook == Postrouting
    case DnatTo(_, _) => c.kind == Nat && (c.hook == Prerouting || c.hook == Output)
    case _ => true
  }

  /** A set named by a statement must exist, and must be dynamic to be updated from a rule. */
  predicate Resolves(t: Table, s: Statement) {
    match s
    case DaddrIn(name) => name in t.sets
    case RecordSource(name, _) => name in t.sets && t.sets[name].dynamic
    case _ => true
  }

  predicate Admissible(t: Table, c: Chain, rule: Rule) {
    forall i :: 0 <= i < |rule| ==> AllowedIn(c, rule[i]) && Resolves(t, rule[i])
  }

  function Addresses(elements: seq<Element>): (r: set<string>)
    ensures forall e :: e in elements ==> e.address in r
    ensures forall a :: a in r ==> exists e :: e in elements && e.address == a
  {
    set e | e in elements :: e.address
  }

  /** One command inside an existing table; None when it is refused or is not of that kind. */
  function ExecInTable(c: Command, t: Table): Option<Table> {
    match c
    case AddTable(_) => None
    case DeleteTable(_) => None
    case AddChain(_, name, kind, hook, priority) =>
      if name in t.chains then Some(t)
      else Some(t.(chains := t.chains[name := Chain(kind, hook, priority, [])]))
    case AddSet(_, name, dynamic) =>
      if name in t.sets then Some(t) else Some(t.(sets := t.sets[name := Set(dynamic, {})]))
    case AddElements(_, name, elements) =>
      if name !in t.sets then None
      else Some(t.(sets := t.sets[name := t.sets[name].(elements := t.sets[name].elements + Addresses(elements))]))
    case AddRule(_, name, rule) =>
      if name !in t.chains || !Admissible(t, t.chains[name], rule) then None
      else Some(t.(chains := t.chains[name := t.chains[name].(rules := t.chains[name].rules + [rule])]))
  }

  function Exec(c: Command, host: Ruleset): Option<Ruleset> {
    match c
    case AddTable(name) => Some(if name in host then host else host[name := Table(map[], map[])])
    case DeleteTable(name) => if name in host then Some(host - {name}) else None
    case _ =>
      if c.table !in host then None
      else match ExecInTable(c, host[c.table])
        case None => None
        case Some(t) => Some(host[c.table := t])
  }

  /** The whole script, or None when any command of it is refused. */
  function Run(script: Script, host: Ruleset): Option<Ruleset> {
    if script == [] then Some(host)
    else match Exec(script[0], host)
      case None => None
      case Some(next) => Run(script[1..], next)
  }

  /** `nft -f -`: all of the script or nothing. */
  function Commit(script: Script, host: Ruleset): Ruleset {
    match Run(script, host)
    case Some(next) => next
    case None => host
  }

  lemma {:induction false} RunAppend(a: Script, b: Script, host: Ruleset)
    ensures Run(a + b, host) == match Run(a, host) case None => None case Some(next) => Run(b, next)
  {
    if a == [] {
      assert a + b == b;
    } else {
      assert (a + b)[1..] == a[1..] + b;
      match Exec(a[0], host)
      case None =>
      case Some(next) => RunAppend(a[1..], b, next);
    }
  }

  /** A script whose every command works inside one existing table changes that table only. */
  ghost predicate WithinTable(script: Script, name: string) {
    forall i :: 0 <= i < |script| ==>
      !script[i].AddTable? && !script[i].DeleteTable? && script[i].table == name
  }

  function RunInTable(script: Script, t: Table): Option<Table>
  {
    if script == [] then Some(t)
    else match ExecInTable(script[0], t)
      case None => None
      case Some(next) => RunInTable(script[1..], next)
  }

  lemma {:induction false} RunWithinTable(script: Script, name: string, host: Ruleset)
    requires WithinTable(script, name) && name in host
    ensures Run(script, host) == match RunInTable(script, host[name])
                                 case None => None
                                 case Some(t) => Some(host[name := t])
  {
    if script == [] {
      assert host == host[name := host[name]];
    } else {
      match ExecInTable(script[0], host[name])
      case None =>
      case Some(next) =>
        RunWithinTable(script[1..], name, host[name := next]);
        match RunInTable(script[1..], next)
        case None =>
        case Some(t) => assert host[name := next][name := t] == host[name := t];
    }
  }

  lemma {:induction false} RunInTableAppend(a: Script, b: Script, t: Table)
    ensures RunInTable(a + b, t) == match RunInTable(a, t) case None => None case Some(next) => RunInTable(b, next)
  {
    if a == [] {
      assert a + b == b;
    } else {
      assert (a + b)[1..] == a[1..] + b;
      match ExecInTable(a[0], t)
      case None =>
      case Some(next) => RunInTableAppend(a[1..], b, next);
    }
  }

  /** Scripts run one after the other inside a table. */
  lemma RunFourInTable(a: Script, b: Script, c: Script, d: Script, t0: Table, t1: Table, t2: Table, t3: Table, t4: Table)
    requires RunInTable(a, t0) == Some(t1) && RunInTable(b, t1) == Some(t2)
    requires RunInTable(c, t2) == Some(t3) && RunInTable(d, t3) == Some(t4)
    ensures RunInTable(a + b + c + d, t0) == Some(t4)
  {
    RunInTableAppend(a, b, t0);
    RunInTableAppend(a + b, c, t0);
    RunInTableAppend(a + b + c, d, t0);
  }

  lemma RunOne(c: Command, t: Table)
    ensures RunInTable([c], t) == ExecInTable(c, t)
  {
    assert [c][1..] == [];
  }

  lemma RunTwo(c: Command, d: Command, t: Table)
    ensures RunInTable([c, d], t)
            == match ExecInTable(c, t) case None => None case Some(next) => ExecInTable(d, next)
  {
    assert [c, d] == [c] + [d];
    RunInTableAppend([c], [d], t);
    RunOne(c, t);
    if ExecInTable(c, t).Some? {
      RunOne(d, ExecInTable(c, t).value);
    }
  }

  /** A new chain with one rule. */
  lemma RunNewChain(table: string, name: ChainName, kind: ChainKind, hook: Hook, priority: int, rule: Rule, t: Table)
    requires name !in t.chains && Admissible(t, Chain(kind, hook, priority, []), rule)
    ensures RunInTable([AddChain(table, name, kind, hook, priority), AddRule(table, name, rule)], t)
            == Some(t.(chains := t.chains[name := Chain(kind, hook, priority, [rule])]))
  {
    var next := t.(chains := t.chains[name := Chain(kind, hook, priority, [])]);
    RunTwo(AddChain(table, name, kind, hook, priority), AddRule(table, name, rule), t);
    assert Admissible(next, next.chains[name], rule) by {
      forall k | 0 <= k < |rule| ensures AllowedIn(next.chains[name], rule[k]) && Resolves(next, rule[k]) {
        assert AllowedIn(Chain(kind, hook, priority, []), rule[k]) && Resolves(t, rule[k]);
      }
    }
    assert [] + [rule] == [rule];
    assert next.chains[name := Chain(kind, hook, priority, [rule])]
        == t.chains[name := Chain(kind, hook, priority, [rule])];
  }

  // ---------------------------------------------------------------- evaluation

  datatype Verdict = Continue | Accepted | Dropped | Masqueraded | Redirected(address: string, port: int)

  predicate Matches(s: Statement, sets: map<SetName, Set>, p: Packet) {
    match s
    case IifName(name) => p.iif == name
    case OifName(name) => p.oif == name
    case OifNameNot(name) => p.oif != name
    case DaddrIn(name) => name in sets && p.daddr in sets[name].elements
    case DaddrNotIn(excluded) => !(exists i | 0 <= i < |excluded| :: Covers(excluded[i], p.daddr))
    case L4UdpOrTcp => p.l4 == Udp || p.l4 == Tcp
    case DestinationPort(port) => p.dport == port
    case SocketUid(uid) => p.skuid == Some(uid)
    case MarkIs(value) => p.mark == value
    case CtMarkIs(value) => p.ctMark == value
    case CtStatusDnat => p.dnat
    case CtDirectionReply => p.reply
    case CtEstablishedRelated => p.established
    case _ => true
  }

  /** An entry of an anonymous address set: one address, or a CIDR block. */
  predicate Covers(entry: string, address: string) {
    entry == address || Ipv4.IsIpv4InCidr(address, entry)
  }

  /** One rule: statements left to right until one fails to match or gives a verdict. */
  function EvalRule(rule: Rule, sets: map<SetName, Set>, p: Packet): (Verdict, Packet) {
    if rule == [] then (Continue, p)
    else match rule[0]
      case Accept => (Accepted, p)
      case Drop => (Dropped, p)
      case Masquerade => (Masqueraded, p)
      case DnatTo(address, port) => (Redirected(address, port), p)
      case SetMark(value) => EvalRule(rule[1..], sets, p.(mark := value))
      case SetCtMark(value) => EvalRule(rule[1..], sets, p.(ctMark := value))
      case _ => if Matches(rule[0], sets, p) then EvalRule(rule[1..], sets, p) else (Continue, p)
  }

  function EvalRules(rules: seq<Rule>, sets: map<SetName, Set>, p: Packet): (Verdict, Packet) {
    if rules == [] then (Continue, p)
    else
      var (verdict, p') := EvalRule(rules[0], sets, p);
      if verdict != Continue then (verdict, p') else EvalRules(rules[1..], sets, p')
  }

  /** The rules of a chain, provided it really is attached to the given hook. */
  function RulesAt(t: Table, chain: ChainName, hook: Hook): seq<Rule> {
    if chain in t.chains && t.chains[chain].hook == hook then t.chains[chain].rules else []
  }

  lemma {:induction false} EvalRulesAppend(a: seq<Rule>, b: seq<Rule>, sets: map<SetName, Set>, p: Packet)
    ensures var (verdict, p') := EvalRules(a, sets, p);
            EvalRules(a + b, sets, p) == if verdict != Continue then (verdict, p') else EvalRules(b, sets, p')
  {
    if a == [] {
      assert a + b == b;
    } else {
      assert (a + b)[1..] == a[1..] + b;
      var (verdict, p') := EvalRule(a[0], sets, p);
      if verdict == Continue {
        EvalRulesAppend(a[1..], b, sets, p');
      }
    }
  }
}
