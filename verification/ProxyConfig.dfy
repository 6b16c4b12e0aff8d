/**
 `proxy/src/explicit-proxy/config-builder.ts`: the text of the 3proxy configuration. Values are
 embedded in its lines, so what matters is that none of them can break out of its line or its list.
 */
module ProxyConfig {
  import opened Wrappers
  import opened Text
  import opened Ipv4

  datatype ConfigInput = ConfigInput(
    allowedCidrs: seq<string>, socksPort: int, httpPort: int, nameServer: Option<string>)

  datatype ConfigError =
    | NoCidrs
    | InvalidCidr(cidr: string)
    | InvalidPort(port: int)
    | SamePorts
    | InvalidNameServer(nameServer: string)

  predicate IsPort(port: int) { 1 <= port <= 65535 }

  predicate IsDigits(s: string, least: nat, most: nat) { least <= |s| <= most && AllDigits(s) }

  /** Four groups of one to three digits, and optionally a port of one to five digits. */
  predicate IsNameServer(s: string) {
    var parts := Split(s, ':');
    var groups := Split(parts[0], '.');
    && |parts| <= 2
    && |groups| == 4
    && (forall k | 0 <= k < 4 :: IsDigits(groups[k], 1, 3))
    && (|parts| == 2 ==> IsDigits(parts[1], 1, 5))
  }

  predicate ValidConfig(i: ConfigInput) {
    && i.allowedCidrs != []
    && (forall k :: 0 <= k < |i.allowedCidrs| ==> IsIpv4Cidr(i.allowedCidrs[k]))
    && IsPort(i.socksPort) && IsPort(i.httpPort) && i.socksPort != i.httpPort
    && (i.nameServer.Some? ==> IsNameServer(i.nameServer.value))
  }

  predicate Justifies(i: ConfigInput, e: ConfigError) {
    match e
    case NoCidrs => i.allowedCidrs == []
    case InvalidCidr(cidr) => cidr in i.allowedCidrs && !IsIpv4Cidr(cidr)
    case InvalidPort(port) => port in [i.socksPort, i.httpPort] && !IsPort(port)
    case SamePorts => i.socksPort == i.httpPort
    case InvalidNameServer(n) => i.nameServer == Some(n) && !IsNameServer(n)
  }

  function NameServerLines(nameServer: Option<string>): seq<string> {
    match nameServer
    case Some(n) => ["nserver " + n]
    case None => []
  }

  function AllowLine(cidrs: seq<string>): string { "allow * " + Join(cidrs, ',') }

  function ConfigLines(i: ConfigInput): seq<string>
    requires IsPort(i.socksPort) && IsPort(i.httpPort)
  {
    ["auth iponly"] + NameServerLines(i.nameServer) +
    [AllowLine(i.allowedCidrs), "deny *", "socks -p" + Decimal(i.socksPort), "proxy -p" + Decimal(i.httpPort), ""]
  }

  function ConfigText(i: ConfigInput): string
    requires IsPort(i.socksPort) && IsPort(i.httpPort)
  {
    Join(ConfigLines(i), '\n')
  }

  method BuildExplicitProxyConfig(i: ConfigInput) returns (r: Result<string, ConfigError>)
    ensures r.Success? <==> ValidConfig(i)
    ensures r.Success? ==> r.value == ConfigText(i)
    ensures r.Failure? ==> Justifies(i, r.error)
  {
    hide IsIpv4Cidr, IsNameServer, Join, Decimal;
    if |i.allowedCidrs| == 0 {
      return Failure(NoCidrs);
    }
    for k := 0 to |i.allowedCidrs|
      invariant forall j :: 0 <= j < k ==> IsIpv4Cidr(i.allowedCidrs[j])
    {
      if !IsIpv4Cidr(i.allowedCidrs[k]) {
        return Failure(InvalidCidr(i.allowedCidrs[k]));
      }
    }
    var ports := [i.socksPort, i.httpPort];
    for k := 0 to 2
      invariant forall j :: 0 <= j < k ==> IsPort(ports[j])
    {
      if ports[k] < 1 || ports[k] > 65535 {
        return Failure(InvalidPort(ports[k]));
      }
    }
    assert IsPort(ports[0]) && IsPort(ports[1]);
    if i.socksPort == i.httpPort {
      return Failure(SamePorts);
    }
    if i.nameServer.Some? && !IsNameServer(i.nameServer.value) {
      return Failure(InvalidNameServer(i.nameServer.value));
    }
    return Success(Join(["auth iponly"] + NameServerLines(i.nameServer) +
      ["allow * " + Join(i.allowedCidrs, ','), "deny *",
       "socks -p" + Decimal(i.socksPort), "proxy -p" + Decimal(i.httpPort), ""], '\n'));
  }

  // ---------------------------------------------------------------- nothing breaks out

  lemma {:induction false} JoinChars(parts: seq<string>, sep: char, c: char)
    requires c in Join(parts, sep) && c != sep
    ensures exists k :: 0 <= k < |parts| && c in parts[k]
  {
    if |parts| > 1 && c !in parts[0] {
      assert c in Join(parts[1..], sep);
      JoinChars(parts[1..], sep, c);
      var k :| 0 <= k < |parts[1..]| && c in parts[1..][k];
      assert parts[k + 1] == parts[1..][k];
    }
  }

  /** What is left of a text after two levels of splitting is digits. */
  lemma DigitsAndSeparators(s: string, sep: char, c: char)
    requires c in s && c != sep && !IsDigit(c)
    ensures exists k :: 0 <= k < |Split(s, sep)| && c in Split(s, sep)[k]
  {
    JoinSplit(s, sep);
    JoinChars(Split(s, sep), sep, c);
  }

  lemma AddressChars(s: string, c: char)
    requires IsIpv4Address(s) && c in s
    ensures IsDigit(c) || c == '.'
  {
    hide Split;
    if !IsDigit(c) && c != '.' {
      DigitsAndSeparators(s, '.', c);
    }
  }

  lemma CidrChars(s: string, c: char)
    requires IsIpv4Cidr(s) && c in s
    ensures IsDigit(c) || c == '.' || c == '/'
  {
    hide Split, IsIpv4Address;
    if !IsDigit(c) && c != '/' {
      DigitsAndSeparators(s, '/', c);
      var k :| 0 <= k < |Split(s, '/')| && c in Split(s, '/')[k];
      if k == 0 {
        AddressChars(Split(s, '/')[0], c);
      }
    }
  }

  lemma NameServerChars(s: string, c: char)
    requires IsNameServer(s) && c in s
    ensures IsDigit(c) || c == '.' || c == ':'
  {
    hide Split;
    if !IsDigit(c) && c != ':' && c != '.' {
      DigitsAndSeparators(s, ':', c);
      var parts := Split(s, ':');
      var k :| 0 <= k < |parts| && c in parts[k];
      if k == 0 {
        DigitsAndSeparators(parts[0], '.', c);
      }
    }
  }

  lemma AllowLineSound(cidrs: seq<string>)
    requires cidrs != [] && forall k :: 0 <= k < |cidrs| ==> IsIpv4Cidr(cidrs[k])
    ensures '\n' !in AllowLine(cidrs)
    ensures Split(Join(cidrs, ','), ',') == cidrs
  {
    hide IsIpv4Cidr, Join, Split;
    forall k | 0 <= k < |cidrs| ensures ',' !in cidrs[k] && '\n' !in cidrs[k] {
      if ',' in cidrs[k] {
        CidrChars(cidrs[k], ',');
      }
      if '\n' in cidrs[k] {
        CidrChars(cidrs[k], '\n');
      }
    }
    SplitJoin(cidrs, ',');
    if '\n' in Join(cidrs, ',') {
      JoinChars(cidrs, ',', '\n');
    }
  }

  lemma LinesSound(i: ConfigInput)
    requires ValidConfig(i)
    ensures Separable(ConfigLines(i), '\n')
  {
    hide IsIpv4Cidr, IsNameServer, Join, Split, Decimal, AllowLine;
    AllowLineSound(i.allowedCidrs);
    if i.nameServer.Some? && '\n' in i.nameServer.value {
      NameServerChars(i.nameServer.value, '\n');
    }
    NumeralLine("socks -p", i.socksPort);
    NumeralLine("proxy -p", i.httpPort);
  }

  lemma NumeralLine(prefix: string, n: nat)
    requires '\n' !in prefix
    ensures '\n' !in prefix + Decimal(n)
  {
    hide Decimal;
  }

  /**
   Reading the file line by line gives back exactly the intended lines, and reading the list of the
   one `allow` line gives back exactly the permitted CIDRs: no value can add a line or an entry.
   */
  lemma ConfigReadsBack(i: ConfigInput)
    requires ValidConfig(i)
    ensures Split(ConfigText(i), '\n') == ConfigLines(i)
    ensures forall k :: 0 <= k < |ConfigLines(i)| && StartsWith(ConfigLines(i)[k], "allow * ") ==>
              ConfigLines(i)[k] == AllowLine(i.allowedCidrs)
    ensures Split(AllowLine(i.allowedCidrs)[8..], ',') == i.allowedCidrs
  {
    hide IsIpv4Cidr, IsNameServer, Join, Split, Decimal;
    LinesSound(i);
    SplitJoin(ConfigLines(i), '\n');
    AllowLineSound(i.allowedCidrs);
    assert AllowLine(i.allowedCidrs)[8..] == Join(i.allowedCidrs, ',');
    OneAllowLine(i);
  }

  lemma OneAllowLine(i: ConfigInput)
    requires IsPort(i.socksPort) && IsPort(i.httpPort)
    ensures forall k :: 0 <= k < |ConfigLines(i)| && StartsWith(ConfigLines(i)[k], "allow * ") ==>
              ConfigLines(i)[k] == AllowLine(i.allowedCidrs)
  {
    hide Join, Decimal, AllowLine;
    NotAllow("auth iponly", "");
    NotAllow("deny *", "");
    NotAllow("socks -p", Decimal(i.socksPort));
    NotAllow("proxy -p", Decimal(i.httpPort));
    assert !StartsWith("", "allow * ");
    if i.nameServer.Some? {
      NotAllow("nserver ", i.nameServer.value);
    }
    hide StartsWith;
  }

  lemma NotAllow(prefix: string, rest: string)
    requires (prefix != "" && prefix[0] != 'a') || (|prefix| > 1 && prefix[1] != 'l')
    ensures !StartsWith(prefix + rest, "allow * ")
    ensures rest == "" ==> !StartsWith(prefix, "allow * ")
  {
    assert "allow * "[0] == 'a' && "allow * "[1] == 'l';
    var line := prefix + rest;
    assert |line| >= 8 ==> line[..8][0] == line[0] && line[..8][1] == line[1];
    if rest == "" {
      assert prefix + rest == prefix;
    }
  }

  // ---------------------------------------------------------------- who may use the proxy

  /** Whether some block of a comma-separated list holds the client's address. */
  predicate Lists(list: string, client: string) {
    var cidrs := Split(list, ',');
    exists k | 0 <= k < |cidrs| :: IsIpv4InCidr(client, cidrs[k])
  }

  /** 3proxy's access rules: the first one that applies decides. */
  predicate Permits(lines: seq<string>, client: string) {
    lines != [] &&
    if lines[0] == "deny *" then false
    else (StartsWith(lines[0], "allow * ") && Lists(lines[0][8..], client)) || Permits(lines[1..], client)
  }

  lemma PermitsStep(line: string, rest: seq<string>, client: string)
    ensures Permits([line] + rest, client)
            <==> line != "deny *"
                 && ((StartsWith(line, "allow * ") && Lists(line[8..], client)) || Permits(rest, client))
  {
    hide StartsWith, Lists;
    assert ([line] + rest)[1..] == rest;
  }

  lemma NotDeny(prefix: string, rest: string)
    requires prefix != "" && prefix[0] != 'd'
    ensures prefix + rest != "deny *"
  {
    assert (prefix + rest)[0] == prefix[0];
    assert "deny *"[0] == 'd';
  }

  lemma AllowLineText(cidrs: seq<string>)
    ensures StartsWith(AllowLine(cidrs), "allow * ") && AllowLine(cidrs)[8..] == Join(cidrs, ',')
    ensures AllowLine(cidrs) != "deny *"
  {
    hide Join;
    NotDeny("allow * ", Join(cidrs, ','));
  }

  /**
   The file grants exactly what was asked: of the rules that stand before the services, a client passes
   exactly if its address is in one of the permitted blocks; and the services listen on the two ports.
   */
  lemma AccessExactly(i: ConfigInput, client: string)
    requires ValidConfig(i)
    ensures var lines := Split(ConfigText(i), '\n');
            && |lines| >= 6
            && var rules := lines[..|lines| - 3];
               && rules[0] == "auth iponly"
               && (Permits(rules, client)
                   <==> exists k :: 0 <= k < |i.allowedCidrs| && IsIpv4InCidr(client, i.allowedCidrs[k]))
               && (forall n :: i.nameServer == Some(n) ==> "nserver " + n in rules)
               && lines[|lines| - 3..] == ["socks -p" + Decimal(i.socksPort), "proxy -p" + Decimal(i.httpPort), ""]
  {
    hide IsIpv4Cidr, IsNameServer, Join, Split, Decimal, StartsWith, AllowLine, ConfigText, IsIpv4InCidr, Permits;
    ConfigReadsBack(i);
    var names := NameServerLines(i.nameServer);
    var lines, rules := ConfigLines(i), ["auth iponly"] + (names + [AllowLine(i.allowedCidrs), "deny *"]);
    assert lines == rules + ["socks -p" + Decimal(i.socksPort), "proxy -p" + Decimal(i.httpPort), ""];
    assert lines[..|lines| - 3] == rules;
    assert lines[|lines| - 3..] == ["socks -p" + Decimal(i.socksPort), "proxy -p" + Decimal(i.httpPort), ""];
    RulesPermit(i, client);
    assert forall n :: i.nameServer == Some(n) ==> rules[1] == "nserver " + n;
  }

  lemma RulesPermit(i: ConfigInput, client: string)
    requires ValidConfig(i)
    ensures Permits(["auth iponly"] + (NameServerLines(i.nameServer) + [AllowLine(i.allowedCidrs), "deny *"]), client)
            <==> exists k :: 0 <= k < |i.allowedCidrs| && IsIpv4InCidr(client, i.allowedCidrs[k])
  {
    hide IsIpv4Cidr, IsNameServer, Join, Split, StartsWith, AllowLine, IsIpv4InCidr, Permits;
    var names, allow := NameServerLines(i.nameServer), AllowLine(i.allowedCidrs);
    var tail := [allow, "deny *"];
    NotAllow("auth iponly", "");
    NotDeny("auth iponly", "");
    assert "auth iponly" + "" == "auth iponly";
    PermitsStep("auth iponly", names + tail, client);
    if i.nameServer.Some? {
      NotAllow("nserver ", i.nameServer.value);
      NotDeny("nserver ", i.nameServer.value);
      PermitsStep("nserver " + i.nameServer.value, tail, client);
    } else {
      assert names + tail == tail;
    }
    AllowLineText(i.allowedCidrs);
    AllowLineSound(i.allowedCidrs);
    assert tail == [allow] + ["deny *"];
    PermitsStep(allow, ["deny *"], client);
    assert ["deny *"] == ["deny *"] + [];
    PermitsStep("deny *", [], client);
  }
}
