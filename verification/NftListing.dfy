/**
 `proxy/src/verification/nft-listing.ts`: reading back what `nft list table` prints. Listings are text,
 one rule a line; proved here is that the line loop recovers the rules of every chain.
 */
module NftListing {
  import opened Wrappers
  import opened Text

  // ---------------------------------------------------------------- trimming

  /** White space as `trim` and `\S` know it. */
  predicate IsSpace(c: char) {
    || c == ' ' || '\t' <= c <= '\r'
    || c == '\U{A0}' || c == '\U{1680}' || '\U{2000}' <= c <= '\U{200A}' || c == '\U{2028}' || c == '\U{2029}'
    || c == '\U{202F}' || c == '\U{205F}' || c == '\U{3000}' || c == '\U{FEFF}'
  }

  function TrimLeft(s: string): string {
    if s != "" && IsSpace(s[0]) then TrimLeft(s[1..]) else s
  }

  function TrimRight(s: string): string {
    if s != "" && IsSpace(s[|s| - 1]) then TrimRight(s[..|s| - 1]) else s
  }

  function Trim(s: string): string { TrimRight(TrimLeft(s)) }

  /** Nothing to trim, and something there. */
  predicate IsTrimmed(s: string) { s != "" && !IsSpace(s[0]) && !IsSpace(s[|s| - 1]) }

  lemma TrimIndented(s: string)
    ensures Trim("\t" + s) == Trim(s) && Trim("\t\t" + s) == Trim(s)
    ensures IsTrimmed(s) ==> Trim(s) == s
  {
    assert ("\t" + s)[1..] == s && ("\t\t" + s)[1..] == "\t" + s;
    assert TrimLeft("\t" + s) == TrimLeft(s);
    assert TrimLeft("\t\t" + s) == TrimLeft("\t" + s);
  }

  // ---------------------------------------------------------------- the line loop

  predicate HasNoSpace(s: string) { forall i :: 0 <= i < |s| ==> !IsSpace(s[i]) }

  /** `/^chain (\S+) \{$/`. */
  function ChainStart(line: string): Option<string> {
    if |line| >= 9 && StartsWith(line, "chain ") && EndsWith(line, " {") && HasNoSpace(line[6..|line| - 2])
    then Some(line[6..|line| - 2]) else None
  }

  type Chains = map<string, seq<string>>

  /** The rules found so far, and the chain being read. */
  datatype Parsing = Parsing(chains: Chains, current: Option<string>)

  predicate IsSound(p: Parsing) { p.current.Some? ==> p.current.value in p.chains }

  function ParseLine(p: Parsing, rawLine: string): (p': Parsing)
    requires IsSound(p)
    ensures IsSound(p')
  {
    var line := Trim(rawLine);
    match ChainStart(line)
    case Some(name) => Parsing(p.chains[name := []], Some(name))
    case None =>
      if p.current.None? then p
      else if line == "}" then p.(current := None)
      else if line == "" || StartsWith(line, "type ") then p
      else p.(chains := p.chains[p.current.value := p.chains[p.current.value] + [line]])
  }

  function ParseFrom(p: Parsing, lines: seq<string>): (p': Parsing)
    requires IsSound(p)
    ensures IsSound(p')
    decreases |lines|
  {
    if lines == [] then p else ParseFrom(ParseLine(p, lines[0]), lines[1..])
  }

  function ChainsOf(text: string): Chains {
    ParseFrom(Parsing(map[], None), Split(text, '\n')).chains
  }

  method ParseTableListing(text: string) returns (chains: Chains)
    ensures chains == ChainsOf(text)
  {
    hide Trim, ChainStart, StartsWith, Split;
    var lines := Split(text, '\n');
    chains := map[];
    var current: Option<string> := None;
    for i := 0 to |lines|
      invariant IsSound(Parsing(chains, current))
      invariant ParseFrom(Parsing(map[], None), lines) == ParseFrom(Parsing(chains, current), lines[i..])
    {
      var line := Trim(lines[i]);
      assert lines[i..][0] == lines[i] && lines[i..][1..] == lines[i + 1..];
      var chainStart := ChainStart(line);
      if chainStart.Some? {
        current := chainStart;
        chains := chains[chainStart.value := []];
        continue;
      }
      if current.None? {
        continue;
      }
      if line == "}" {
        current := None;
        continue;
      }
      if line == "" || StartsWith(line, "type ") {
        continue;
      }
      chains := chains[current.value := chains[current.value] + [line]];
    }
    assert lines[|lines|..] == [];
  }

  // ---------------------------------------------------------------- listings

  /** What a table listing consists of, in order. */
  datatype Block =
    | SetBlock(name: string, body: seq<string>)
    | ChainBlock(name: string, declaration: string, rules: seq<string>)

  function Indented(lines: seq<string>): (r: seq<string>)
    ensures |r| == |lines| && forall i :: 0 <= i < |lines| ==> r[i] == "\t\t" + lines[i]
  {
    seq(|lines|, i requires 0 <= i < |lines| => "\t\t" + lines[i])
  }

  function BlockLines(b: Block): seq<string> {
    match b
    case SetBlock(name, body) => ["\t" + ("set " + name + " {")] + Indented(body) + ["\t}"]
    case ChainBlock(name, declaration, rules) =>
      ["\t" + ("chain " + name + " {"), "\t\t" + ("type " + declaration)] + Indented(rules) + ["\t}"]
  }

  function BlocksLines(blocks: seq<Block>): seq<string> {
    if blocks == [] then []
    else BlockLines(blocks[0]) + (if |blocks| > 1 then [""] else []) + BlocksLines(blocks[1..])
  }

  function ListingLines(table: string, blocks: seq<Block>): seq<string> {
    ["table inet " + table + " {"] + BlocksLines(blocks) + ["}", ""]
  }

  function Listing(table: string, blocks: seq<Block>): string {
    Join(ListingLines(table, blocks), '\n')
  }

  /** A rule as listed: one trimmed line that cannot be taken for anything else. */
  predicate IsRuleLine(s: string) {
    && IsTrimmed(s) && '\n' !in s
    && ChainStart(s).None? && s != "}" && !StartsWith(s, "type ")
  }

  predicate IsBodyLine(s: string) {
    '\n' !in s && ChainStart(Trim(s)).None?
  }

  /** The declaration line as nft prints it: `type ... hook ... priority ...; policy ...;`. */
  predicate IsDeclaration(s: string) {
    '\n' !in s && s != "" && !IsSpace(s[|s| - 1])
  }

  predicate IsBlock(b: Block) {
    match b
    case SetBlock(name, body) =>
      name != "" && HasNoSpace(name) && forall i :: 0 <= i < |body| ==> IsBodyLine(body[i])
    case ChainBlock(name, declaration, rules) =>
      && name != "" && HasNoSpace(name) && IsDeclaration(declaration)
      && forall i :: 0 <= i < |rules| ==> IsRuleLine(rules[i])
  }

  predicate AreBlocks(blocks: seq<Block>) { forall i :: 0 <= i < |blocks| ==> IsBlock(blocks[i]) }

  /** The chains of a listing; a chain listed twice would count as listed last. */
  function ChainsIn(blocks: seq<Block>): Chains {
    if blocks == [] then map[]
    else
      var b := blocks[|blocks| - 1];
      var before := ChainsIn(blocks[..|blocks| - 1]);
      if b.ChainBlock? then before[b.name := b.rules] else before
  }

  // ---------------------------------------------------------------- reading listings back

  lemma {:induction false} ParseAppend(p: Parsing, a: seq<string>, b: seq<string>)
    requires IsSound(p)
    ensures ParseFrom(p, a + b) == ParseFrom(ParseFrom(p, a), b)
    decreases |a|
  {
    hide ParseLine;
    if a == [] {
      assert [] + b == b;
    } else {
      assert (a + b)[1..] == a[1..] + b;
      ParseAppend(ParseLine(p, a[0]), a[1..], b);
    }
  }

  lemma ParseOne(p: Parsing, line: string)
    requires IsSound(p)
    ensures ParseFrom(p, [line]) == ParseLine(p, line)
  {
    hide ParseLine;
    assert [line][1..] == [];
  }

  lemma ChainLine(name: string)
    requires name != "" && HasNoSpace(name)
    ensures IsTrimmed("chain " + name + " {") && ChainStart("chain " + name + " {") == Some(name)
  {
    var line := "chain " + name + " {";
    assert line[6..|line| - 2] == name;
    assert line[..6] == "chain ";
    assert line[|line| - 2..] == " {";
  }

  lemma OtherLine(keyword: string, rest: string)
    requires |keyword| >= 1 && keyword[0] != 'c' && !IsSpace(keyword[0])
    requires rest != "" && !IsSpace(rest[|rest| - 1])
    ensures IsTrimmed(keyword + rest) && ChainStart(keyword + rest).None?
  {
    var line := keyword + rest;
    assert |line| >= 6 ==> line[..6][0] == line[0];
    assert "chain "[0] == 'c';
  }

  lemma CloseLine(p: Parsing)
    requires IsSound(p)
    ensures ParseLine(p, "\t}") == p.(current := None) && ParseLine(p, "}") == p.(current := None)
    ensures ParseLine(p, "") == p
  {
    hide Trim, ChainStart, StartsWith;
    CloseTrimmed();
  }

  lemma CloseTrimmed()
    ensures Trim("\t}") == "}" && Trim("}") == "}" && Trim("") == ""
    ensures ChainStart("}").None? && ChainStart("").None?
  {
    hide StartsWith, EndsWith;
    TrimIndented("}");
    assert "\t" + "}" == "\t}";
  }

  lemma {:induction false} ParseBody(p: Parsing, body: seq<string>)
    requires IsSound(p) && p.current.None?
    requires forall i :: 0 <= i < |body| ==> IsBodyLine(body[i])
    ensures ParseFrom(p, Indented(body)) == p
  {
    hide Trim, ChainStart;
    if body != [] {
      TrimIndented(body[0]);
      assert Indented(body)[1..] == Indented(body[1..]);
      ParseBody(p, body[1..]);
    }
  }

  lemma {:induction false} ParseRules(p: Parsing, rules: seq<string>)
    requires IsSound(p) && p.current.Some?
    requires forall i :: 0 <= i < |rules| ==> IsRuleLine(rules[i])
    ensures ParseFrom(p, Indented(rules))
            == p.(chains := p.chains[p.current.value := p.chains[p.current.value] + rules])
    decreases |rules|
  {
    hide Trim, ChainStart, StartsWith, IsSpace;
    if rules == [] {
      assert p.chains[p.current.value] + [] == p.chains[p.current.value];
    } else {
      TrimIndented(rules[0]);
      var p1 := ParseLine(p, "\t\t" + rules[0]);
      assert Indented(rules)[1..] == Indented(rules[1..]);
      ParseRules(p1, rules[1..]);
      assert p.chains[p.current.value] + [rules[0]] + rules[1..] == p.chains[p.current.value] + rules;
    }
  }

  lemma ParseSetBlock(p: Parsing, name: string, body: seq<string>)
    requires IsSound(p) && p.current.None? && IsBlock(SetBlock(name, body))
    ensures ParseFrom(p, BlockLines(SetBlock(name, body))) == p
  {
    hide Trim, ChainStart, IsBodyLine, IsTrimmed, IsSpace;
    var head := "set " + name + " {";
    OtherSetLine(name);
    TrimIndented(head);
    ParseOne(p, "\t" + head);
    ParseBody(p, body);
    CloseLine(p);
    ParseOne(p, "\t}");
    ParseAppend(p, ["\t" + head], Indented(body));
    ParseAppend(p, ["\t" + head] + Indented(body), ["\t}"]);
  }

  lemma OtherSetLine(name: string)
    ensures IsTrimmed("set " + name + " {") && ChainStart("set " + name + " {").None?
  {
    OtherLine("set ", name + " {");
    assert "set " + (name + " {") == "set " + name + " {";
  }

  lemma TypeLine(declaration: string)
    requires IsDeclaration(declaration)
    ensures IsTrimmed("type " + declaration) && ChainStart("type " + declaration).None?
    ensures StartsWith("type " + declaration, "type ")
  {
    OtherLine("type ", declaration);
  }

  lemma ParseChainBlock(p: Parsing, name: string, declaration: string, rules: seq<string>)
    requires IsSound(p) && p.current.None? && IsBlock(ChainBlock(name, declaration, rules))
    ensures ParseFrom(p, BlockLines(ChainBlock(name, declaration, rules))) == p.(chains := p.chains[name := rules])
  {
    hide Trim, ChainStart, IsRuleLine, IsTrimmed, StartsWith, IsDeclaration, IsSpace;
    var head, decl := "chain " + name + " {", "type " + declaration;
    ChainLine(name);
    TrimIndented(head);
    ParseOne(p, "\t" + head);
    var p1 := Parsing(p.chains[name := []], Some(name));
    TypeLine(declaration);
    TrimIndented(decl);
    ParseOne(p1, "\t\t" + decl);
    ParseRules(p1, rules);
    assert [] + rules == rules;
    var p2 := p1.(chains := p1.chains[name := rules]);
    CloseLine(p2);
    ParseOne(p2, "\t}");
    assert ["\t" + head, "\t\t" + decl] == ["\t" + head] + ["\t\t" + decl];
    ParseAppend(p, ["\t" + head], ["\t\t" + decl]);
    ParseAppend(p, ["\t" + head, "\t\t" + decl], Indented(rules));
    ParseAppend(p, ["\t" + head, "\t\t" + decl] + Indented(rules), ["\t}"]);
  }

  lemma {:induction false} ParseBlocks(p: Parsing, blocks: seq<Block>)
    requires IsSound(p) && p.current.None? && AreBlocks(blocks)
    ensures ParseFrom(p, BlocksLines(blocks)) == p.(chains := p.chains + ChainsIn(blocks))
    decreases |blocks|
  {
    hide IsBlock, BlockLines, ParseLine, ChainsIn;
    if blocks == [] {
      NoChains();
      assert p.chains + map[] == p.chains;
    } else {
      var b := blocks[0];
      var gap := if |blocks| > 1 then [""] else [];
      var p1 := if b.ChainBlock? then p.(chains := p.chains[b.name := b.rules]) else p;
      assert ParseFrom(p, BlockLines(b)) == p1 by {
        match b
        case SetBlock(name, body) => ParseSetBlock(p, name, body);
        case ChainBlock(name, declaration, rules) => ParseChainBlock(p, name, declaration, rules);
      }
      CloseLine(p1);
      ParseOne(p1, "");
      ParseAppend(p, BlockLines(b), gap);
      ParseAppend(p, BlockLines(b) + gap, BlocksLines(blocks[1..]));
      ParseBlocks(p1, blocks[1..]);
      ChainsInFirst(blocks);
      assert p.chains + ChainsIn(blocks) == p1.chains + ChainsIn(blocks[1..]);
    }
  }

  lemma NoChains()
    ensures ChainsIn([]) == map[]
  {
  }

  lemma {:induction false} ChainsInFirst(blocks: seq<Block>)
    requires blocks != []
    ensures ChainsIn(blocks)
            == (if blocks[0].ChainBlock? then map[blocks[0].name := blocks[0].rules] else map[]) + ChainsIn(blocks[1..])
    decreases |blocks|
  {
    if |blocks| == 1 {
      assert blocks[..0] == [] && blocks[1..] == [];
    } else {
      ChainsInFirst(blocks[..|blocks| - 1]);
      assert blocks[..|blocks| - 1][1..] == blocks[1..][..|blocks[1..]| - 1];
    }
  }

  lemma NoBreaks(b: Block)
    requires IsBlock(b)
    ensures Separable(BlockLines(b), '\n')
  {
    hide IsTrimmed, ChainStart, StartsWith, Trim;
    assert IsSpace('\n');
    assert '\n' !in b.name;
  }

  lemma {:induction false} NoBreaksInBlocks(blocks: seq<Block>)
    requires AreBlocks(blocks)
    ensures Separable(BlocksLines(blocks), '\n')
    decreases |blocks|
  {
    hide IsBlock, BlockLines;
    if blocks != [] {
      NoBreaks(blocks[0]);
      NoBreaksInBlocks(blocks[1..]);
    }
  }

  lemma TableLine(p: Parsing, table: string)
    requires IsSound(p) && p.current.None?
    ensures ParseLine(p, "table inet " + table + " {") == p
  {
    hide IsSpace, Trim, ChainStart, IsTrimmed, StartsWith;
    var line := "table inet " + table + " {";
    TableLineTrimmed(table);
    TrimIndented(line);
  }

  lemma TableLineTrimmed(table: string)
    ensures IsTrimmed("table inet " + table + " {") && ChainStart("table inet " + table + " {").None?
  {
    OtherLine("table inet ", table + " {");
    assert "table inet " + (table + " {") == "table inet " + table + " {";
  }

  /**
   Reading a listing gives back every chain with exactly its rules, in order, whatever else is in it:
   declarations, sets with any elements, and blank lines.
   */
  lemma ListingReadsBack(table: string, blocks: seq<Block>)
    requires HasNoSpace(table) && AreBlocks(blocks)
    ensures ChainsOf(Listing(table, blocks)) == ChainsIn(blocks)
  {
    hide BlocksLines, IsBlock, ParseLine, Trim, ChainStart, Split, Join, HasNoSpace, IsSpace;
    var start, head, tail := Parsing(map[], None), ["table inet " + table + " {"], ["}", ""];
    var lines := ListingLines(table, blocks);
    LinesSeparable(table, blocks);
    SplitJoin(lines, '\n');
    TableLine(start, table);
    ParseOne(start, head[0]);
    ParseBlocks(start, blocks);
    var p := Parsing(ChainsIn(blocks), None);
    assert map[] + ChainsIn(blocks) == ChainsIn(blocks);
    CloseLine(p);
    ParseOne(p, "}");
    ParseOne(p, "");
    assert tail == ["}"] + [""];
    ParseAppend(p, ["}"], [""]);
    ParseAppend(start, head, BlocksLines(blocks));
    ParseAppend(start, head + BlocksLines(blocks), tail);
  }

  lemma LinesSeparable(table: string, blocks: seq<Block>)
    requires HasNoSpace(table) && AreBlocks(blocks)
    ensures Separable(ListingLines(table, blocks), '\n')
  {
    hide BlocksLines, IsBlock;
    NoBreaksInBlocks(blocks);
    assert IsSpace('\n');
    assert '\n' !in "table inet " + table + " {";
  }
}
