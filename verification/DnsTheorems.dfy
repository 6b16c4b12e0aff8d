/**
 What the DNS codec guarantees: its reading of names is that of section 4.1.4 of RFC 1035, truncating
 a message never changes what was already readable, and messages it builds read back as intended.
 */
module DnsTheorems {
  import opened Wrappers
  import opened Text
  import opened Ipv4
  import opened DnsMessage
  import BS = BypassSet

  // ---------------------------------------------------------------- names as the standard defines them

  /** The bytes at `off` spell `labels`, passing through exactly `hops` pointers. */
  ghost predicate Spells(b: Buffer, off: nat, labels: seq<string>, hops: nat)
    decreases hops, |labels|
  {
    off < |b| &&
    var length := b[off];
    || (length == 0 && labels == [] && hops == 0)
    || (IsPointer(length) && off + 1 < |b| && hops > 0 && Spells(b, Target(b, off), labels, hops - 1))
    || (0 < length < 0x40 && off + 1 + length <= |b| && labels != []
        && labels[0] == Latin1(b[off + 1..off + 1 + length])
        && Spells(b, off + 1 + length, labels[1..], hops))
  }

  lemma {:induction false} ReadIsSpelled(b: Buffer, off: nat, limit: nat)
    ensures LabelsFrom(b, off, limit).Some? ==>
              exists hops: nat :: hops <= limit && Spells(b, off, LabelsFrom(b, off, limit).value, hops)
    decreases limit, if off < |b| then |b| - off else 0
  {
    if off < |b| && LabelsFrom(b, off, limit).Some? {
      var labels := LabelsFrom(b, off, limit).value;
      var length := b[off];
      if length == 0 {
        assert Spells(b, off, labels, 0);
      } else if IsPointer(length) {
        ReadIsSpelled(b, Target(b, off), limit - 1);
        var hops: nat :| hops <= limit - 1 && Spells(b, Target(b, off), labels, hops);
        assert Spells(b, off, labels, hops + 1);
      } else {
        var after := off + 1 + length;
        ReadIsSpelled(b, after, limit);
        var rest := LabelsFrom(b, after, limit).value;
        var hops: nat :| hops <= limit && Spells(b, after, rest, hops);
        assert labels[1..] == rest;
        assert Spells(b, off, labels, hops);
      }
    }
  }

  lemma {:induction false} SpelledIsRead(b: Buffer, off: nat, labels: seq<string>, hops: nat, limit: nat)
    requires Spells(b, off, labels, hops) && hops <= limit
    ensures LabelsFrom(b, off, limit) == Some(labels)
    decreases hops, |labels|
  {
    var length := b[off];
    if IsPointer(length) {
      SpelledIsRead(b, Target(b, off), labels, hops - 1, limit - 1);
    } else if length != 0 {
      SpelledIsRead(b, off + 1 + length, labels[1..], hops, limit);
      assert [labels[0]] + labels[1..] == labels;
    }
  }

  /**
   The reader returns labels exactly when the bytes spell them through at most 32 pointers; in
   particular it gives up on every cycle, and what is spelled is unique.
   */
  lemma ReaderMatchesStandard(b: Buffer, off: nat, labels: seq<string>)
    ensures LabelsFrom(b, off, MAX_NAME_JUMPS) == Some(labels)
            <==> exists hops: nat :: hops <= MAX_NAME_JUMPS && Spells(b, off, labels, hops)
  {
    ReadIsSpelled(b, off, MAX_NAME_JUMPS);
    if hops: nat :| hops <= MAX_NAME_JUMPS && Spells(b, off, labels, hops) {
      SpelledIsRead(b, off, labels, hops, MAX_NAME_JUMPS);
    }
  }

  // ---------------------------------------------------------------- truncation

  lemma {:induction false} LabelsSurviveExtension(b: Buffer, longer: Buffer, off: nat, hops: nat)
    requires b <= longer
    ensures LabelsFrom(b, off, hops).Some? ==> LabelsFrom(longer, off, hops) == LabelsFrom(b, off, hops)
    decreases hops, if off < |b| then |b| - off else 0
  {
    if off < |b| {
      var length := b[off];
      if length == 0 {
      } else if IsPointer(length) {
        if off + 1 < |b| && hops > 0 {
          LabelsSurviveExtension(b, longer, Target(b, off), hops - 1);
        }
      } else if !IsReserved(length) && off + 1 + length <= |b| {
        LabelsSurviveExtension(b, longer, off + 1 + length, hops);
        assert longer[off + 1..off + 1 + length] == b[off + 1..off + 1 + length];
      }
    }
  }

  lemma {:induction false} EndSurvivesExtension(b: Buffer, longer: Buffer, off: nat)
    requires b <= longer
    ensures EndOf(b, off).Some? ==> EndOf(longer, off) == EndOf(b, off)
    decreases if off < |b| then |b| - off else 0
  {
    if off < |b| && 0 < b[off] < 0x40 && off + 1 + b[off] <= |b| {
      EndSurvivesExtension(b, longer, off + 1 + b[off]);
    }
  }

  /** A name read successfully from a buffer reads identically from every extension of it. */
  lemma NameSurvivesExtension(b: Buffer, longer: Buffer, off: nat)
    requires b <= longer
    ensures NameAt(b, off).Some? ==> NameAt(longer, off) == NameAt(b, off)
  {
    LabelsSurviveExtension(b, longer, off, MAX_NAME_JUMPS);
    EndSurvivesExtension(b, longer, off);
  }

  lemma {:induction false} QuestionsSurviveExtension(b: Buffer, longer: Buffer, off: nat, n: nat)
    requires b <= longer
    ensures SkipQuestions(b, off, n).Some? ==> SkipQuestions(longer, off, n) == SkipQuestions(b, off, n)
    decreases n
  {
    NameSurvivesExtension(b, longer, off);
    if n > 0 && NameAt(b, off).Some? && NameAt(b, off).value.next + 4 <= |b| {
      QuestionsSurviveExtension(b, longer, NameAt(b, off).value.next + 4, n - 1);
    }
  }

  lemma RecordSurvivesExtension(b: Buffer, longer: Buffer, off: nat)
    requires b <= longer
    ensures RecordAt(b, off).Some? ==>
              RecordAt(longer, off) == RecordAt(b, off)
              && ARecordsIn(longer, RecordAt(b, off).value) == ARecordsIn(b, RecordAt(b, off).value)
  {
    hide NameAt, RenderIpv4;
    NameSurvivesExtension(b, longer, off);
    if RecordAt(b, off).Some? {
      var rr := RecordAt(b, off).value;
      assert longer[rr.dataStart..rr.dataStart + rr.dataLength] == b[rr.dataStart..rr.dataStart + rr.dataLength];
      if rr.dataLength == 4 {
        assert longer[rr.dataStart..rr.dataStart + 4] == b[rr.dataStart..rr.dataStart + 4];
      }
    }
  }

  lemma {:induction false} RecordsSurviveExtension(b: Buffer, longer: Buffer, off: nat, n: nat)
    requires b <= longer
    ensures RecordsFrom(b, off, n).aRecords <= RecordsFrom(longer, off, n).aRecords
    decreases n
  {
    hide RecordAt, ARecordsIn, PtrNamesIn;
    RecordSurvivesExtension(b, longer, off);
    if n > 0 && RecordAt(b, off).Some? {
      var rr := RecordAt(b, off).value;
      var a := ARecordsIn(b, rr);
      var next := rr.dataStart + rr.dataLength;
      RecordsSurviveExtension(b, longer, next, n - 1);
      var x, y := RecordsFrom(b, next, n - 1).aRecords, RecordsFrom(longer, next, n - 1).aRecords;
      assert (a + y)[..|a + x|] == a + x by {
        assert y[..|x|] == x;
      }
    }
  }

  /**
   Truncation is monotone: what a cut-off message yields, the full message yields too, with the same
   response code and flag and with the cut-off list of addresses as a prefix of the full one.
   */
  lemma AnswerSurvivesExtension(b: Buffer, longer: Buffer)
    requires b <= longer && AnswerOf(b).Some?
    ensures AnswerOf(longer).Some?
    ensures var short, full := AnswerOf(b).value, AnswerOf(longer).value;
            short.rcode == full.rcode && short.truncated == full.truncated && short.aRecords <= full.aRecords
  {
    hide SkipQuestions, RecordsFrom;
    assert U16(longer, 4) == U16(b, 4) && U16(longer, 6) == U16(b, 6);
    QuestionsSurviveExtension(b, longer, HEADER_LENGTH, U16(b, 4));
    RecordsSurviveExtension(b, longer, SkipQuestions(b, HEADER_LENGTH, U16(b, 4)).value, U16(b, 6));
  }

  // ---------------------------------------------------------------- reading what was encoded

  /** What `Buffer.from(s, "latin1").toString("latin1")` gives back. */
  function LowText(s: string): (r: string)
    ensures |r| == |s| && forall i :: 0 <= i < |s| ==> r[i] == (s[i] as int % 256) as char
  {
    if s == "" then "" else [(s[0] as int % 256) as char] + LowText(s[1..])
  }

  function LowTexts(labels: seq<string>): (r: seq<string>)
    ensures |r| == |labels|
  {
    if labels == [] then [] else [LowText(labels[0])] + LowTexts(labels[1..])
  }

  lemma LatinLow(s: string)
    ensures Latin1(LowBytes(s)) == LowText(s)
  {
  }

  /** Where three adjoining pieces lie. */
  lemma SliceAt(b: Buffer, off: nat, x: Buffer, y: Buffer, z: Buffer)
    requires off + |x| + |y| + |z| <= |b|
    requires b[off..off + |x| + |y| + |z|] == x + y + z
    ensures b[off..off + |x|] == x
    ensures b[off + |x|..off + |x| + |y|] == y
    ensures b[off + |x| + |y|..off + |x| + |y| + |z|] == z
  {
    var all := x + y + z;
    assert all[..|x|] == x && all[|x|..|x| + |y|] == y && all[|x| + |y|..] == z;
    SubSlice(b, off, |all|, 0, |x|);
    SubSlice(b, off, |all|, |x|, |x| + |y|);
    SubSlice(b, off, |all|, |x| + |y|, |all|);
  }

  lemma SubSlice(b: Buffer, off: nat, n: nat, i: nat, j: nat)
    requires off + n <= |b| && i <= j <= n
    ensures b[off..off + n][i..j] == b[off + i..off + j]
  {
    var all, s, t := b[off..off + n], b[off..off + n][i..j], b[off + i..off + j];
    forall k | 0 <= k < j - i ensures s[k] == t[k] {
      assert s[k] == all[i + k] == b[off + i + k];
    }
    assert s == t;
  }

  lemma ReadLabel(b: Buffer, off: nat, text: string, hops: nat)
    requires 1 <= |text| <= 63 && off + 1 + |text| <= |b|
    requires b[off] == |text| && b[off + 1..off + 1 + |text|] == LowBytes(text)
    ensures LabelsFrom(b, off, hops) == Prepend([LowText(text)], LabelsFrom(b, off + 1 + |text|, hops))
    ensures EndOf(b, off) == EndOf(b, off + 1 + |text|)
  {
    hide Latin1, LowBytes, LowText;
    LatinLow(text);
  }

  lemma {:induction false} ReadEncoded(b: Buffer, off: nat, labels: seq<string>, hops: nat)
    requires AreLabels(labels)
    requires off + |EncodeLabels(labels)| <= |b|
    requires b[off..off + |EncodeLabels(labels)|] == EncodeLabels(labels)
    ensures LabelsFrom(b, off, hops) == Some(LowTexts(labels))
    ensures EndOf(b, off) == Some(off + |EncodeLabels(labels)|)
    decreases |labels|
  {
    hide LabelsFrom, EndOf, LowBytes, Latin1, LowText;
    if labels == [] {
      assert b[off] == b[off..off + 1][0];
      ReadEnd(b, off, hops);
    } else {
      var n, text, tail := |labels[0]|, LowBytes(labels[0]), EncodeLabels(labels[1..]);
      SliceAt(b, off, [n], text, tail);
      assert b[off] == b[off..off + 1][0];
      ReadLabel(b, off, labels[0], hops);
      ReadEncoded(b, off + 1 + n, labels[1..], hops);
    }
  }

  lemma ReadEnd(b: Buffer, off: nat, hops: nat)
    requires off < |b| && b[off] == 0
    ensures LabelsFrom(b, off, hops) == Some([]) && EndOf(b, off) == Some(off + 1)
  {
  }

  lemma {:induction false} JoinLow(labels: seq<string>)
    ensures Join(LowTexts(labels), '.') == LowText(Join(labels, '.'))
  {
    if |labels| > 1 {
      JoinLow(labels[1..]);
      assert LowTexts(labels)[1..] == LowTexts(labels[1..]);
      var a, rest := labels[0], Join(labels[1..], '.');
      assert LowText(a + ['.'] + rest) == LowText(a) + ['.'] + LowText(rest);
    } else if |labels| == 1 {
      assert LowTexts(labels) == [LowText(labels[0])];
    }
  }

  lemma EncodedNameAt(b: Buffer, off: nat, labels: seq<string>)
    requires AreLabels(labels)
    requires off + |EncodeLabels(labels)| <= |b|
    requires b[off..off + |EncodeLabels(labels)|] == EncodeLabels(labels)
    ensures NameAt(b, off) == Some(NameResult(Lower(LowText(Join(labels, '.'))), off + |EncodeLabels(labels)|))
  {
    hide EncodeLabels, LabelsFrom, EndOf, LowText, Lower, Join, LowTexts;
    ReadEncoded(b, off, labels, MAX_NAME_JUMPS);
    JoinLow(labels);
  }

  /** Bytes of a query, by position. */
  lemma QueryLayout(labels: seq<string>, qtype: nat, id: int)
    requires AreLabels(labels) && qtype < 0x1_0000
    ensures var q := QueryFor(labels, qtype, id);
            var n := |EncodeLabels(labels)|;
            && |q| == 16 + n
            && U16(q, 0) == id % 0x1_0000
            && q[2] == 1 && q[3] == 0 && U16(q, 4) == 1 && U16(q, 6) == 0 && U16(q, 10) == 0
            && q[12..12 + n] == EncodeLabels(labels)
            && U16(q, 12 + n) == qtype
  {
    hide EncodeLabels;
    var head := Bytes16(id % 0x1_0000) + [1, 0, 0, 1, 0, 0, 0, 0, 0, 0];
    var code := EncodeLabels(labels);
    var q := QueryFor(labels, qtype, id);
    assert q == head + code + (Bytes16(qtype) + [0, 1]);
    assert |head| == 12;
    assert q[0] == head[0] && q[1] == head[1] && q[2] == head[2] && q[3] == head[3];
    assert q[4] == head[4] && q[5] == head[5] && q[6] == head[6] && q[7] == head[7];
    assert q[10] == head[10] && q[11] == head[11];
    assert q[12 + |code|] == Bytes16(qtype)[0] && q[13 + |code|] == Bytes16(qtype)[1];
  }

  /** Reading back a query built from labels. */
  lemma ParseQueryFor(labels: seq<string>, qtype: nat, id: int)
    requires AreLabels(labels) && qtype < 0x1_0000
    ensures var q := QueryFor(labels, qtype, id);
            ParseQuery(q) == Some(Question(id % 0x1_0000, Lower(LowText(Join(labels, '.'))), qtype, |q|, 0))
  {
    hide EncodeLabels, QueryFor, NameAt, LowText, Lower, Join;
    var q := QueryFor(labels, qtype, id);
    QueryLayout(labels, qtype, id);
    EncodedNameAt(q, HEADER_LENGTH, labels);
  }

  /**
   `parseQuery` inverts `buildAQuery`: the same id, and the name lower-cased without its trailing dot
   (characters outside Latin-1 come back as their low byte). The builder refuses exactly the names
   with an empty or overlong label.
   */
  lemma ParseInvertsBuildA(name: string, id: int)
    ensures BuildAQuery(name, id).Some? <==> AreLabels(Split(StripDot(name), '.'))
    ensures BuildAQuery(name, id).Some? ==>
              var q := BuildAQuery(name, id).value;
              ParseQuery(q) == Some(Question(id % 0x1_0000, Lower(LowText(StripDot(name))), TYPE_A, |q|, 0))
  {
    hide QueryFor, ParseQuery, StripDot;
    var labels := Split(StripDot(name), '.');
    if AreLabels(labels) {
      ParseQueryFor(labels, TYPE_A, id);
      JoinSplit(StripDot(name), '.');
    }
  }

  /** Latin-1 names, in particular ASCII ones, come back exactly, lower-cased and without the dot. */
  lemma {:induction false} Latin1NamesUnchanged(s: string)
    requires forall i :: 0 <= i < |s| ==> s[i] as int < 256
    ensures LowText(s) == s
  {
    if s != "" {
      Latin1NamesUnchanged(s[1..]);
      SmallRemainder(s[0] as int, 256);
      assert s == [s[0]] + s[1..];
    }
  }

  lemma SmallRemainder(x: nat, d: nat)
    requires x < d
    ensures x % d == x
  {
  }

  /** The name a reverse query asks for. */
  function PtrName(address: string): string
    requires IsIpv4Address(address)
  {
    var p := Split(address, '.');
    p[3] + "." + p[2] + "." + p[1] + "." + p[0] + ".in-addr.arpa"
  }

  lemma JoinStep(first: string, rest: seq<string>)
    requires rest != []
    ensures Join([first] + rest, '.') == first + "." + Join(rest, '.')
  {
    assert ([first] + rest)[1..] == rest;
  }

  lemma JoinSix(a: string, b: string, c: string, d: string, e: string, f: string)
    ensures Join([a, b, c, d, e, f], '.') == a + "." + b + "." + c + "." + d + "." + (e + "." + f)
  {
    hide Join;
    JoinStep(a, [b, c, d, e, f]);
    JoinStep(b, [c, d, e, f]);
    JoinStep(c, [d, e, f]);
    JoinStep(d, [e, f]);
    JoinStep(e, [f]);
    JoinOne(f);
    assert [a] + [b, c, d, e, f] == [a, b, c, d, e, f];
    assert [b] + [c, d, e, f] == [b, c, d, e, f];
    assert [c] + [d, e, f] == [c, d, e, f];
    assert [d] + [e, f] == [d, e, f];
    assert [e] + [f] == [e, f];
    var x := Join([c, d, e, f], '.');
    assert a + "." + (b + "." + x) == a + "." + b + "." + x;
    var y := e + "." + f;
    assert x == c + "." + (d + "." + y);
    assert a + "." + b + "." + (c + "." + (d + "." + y)) == a + "." + b + "." + c + "." + d + "." + y;
  }

  lemma JoinOne(f: string)
    ensures Join([f], '.') == f
  {
  }

  /** Characters that reading a name leaves as they are. */
  predicate Plain(s: string) { forall i :: 0 <= i < |s| ==> s[i] as int < 128 && !('A' <= s[i] <= 'Z') }

  lemma PlainKept(s: string)
    requires Plain(s)
    ensures Lower(LowText(s)) == s
  {
  }

  lemma PtrNameText(address: string)
    requires IsIpv4Address(address)
    ensures Join(ReverseLabels(address), '.') == PtrName(address)
  {
    hide Split, Join;
    var p := Split(address, '.');
    JoinSix(p[3], p[2], p[1], p[0], "in-addr", "arpa");
    assert "in-addr" + "." + "arpa" == "in-addr.arpa";
    assert "." + "in-addr.arpa" == ".in-addr.arpa";
  }

  lemma PtrNamePlain(address: string)
    requires IsIpv4Address(address)
    ensures Plain(PtrName(address))
  {
    hide Split;
    OctetTextsPlain(address);
    assert Plain(".in-addr.arpa") && Plain(".");
  }

  lemma OctetTextsPlain(address: string)
    requires IsIpv4Address(address)
    ensures var p := Split(address, '.'); |p| == 4 && Plain(p[0]) && Plain(p[1]) && Plain(p[2]) && Plain(p[3])
  {
    hide Split;
  }

  /** `parseQuery` inverts `buildPtrQuery`: the octets' texts reversed, under in-addr.arpa. */
  lemma ParseInvertsBuildPtr(address: string, id: int)
    ensures BuildPtrQuery(address, id).Some? <==> IsIpv4Address(address)
    ensures BuildPtrQuery(address, id).Some? ==>
              var q := BuildPtrQuery(address, id).value;
              ParseQuery(q) == Some(Question(id % 0x1_0000, PtrName(address), TYPE_PTR, |q|, 0))
  {
    hide QueryFor, ParseQuery, ReverseLabels, Join, Lower, LowText, PtrName, Plain, IsIpv4Address;
    if IsIpv4Address(address) {
      ParseQueryFor(ReverseLabels(address), TYPE_PTR, id);
      PtrNameText(address);
      PtrNamePlain(address);
      PlainKept(PtrName(address));
    }
  }

  // ---------------------------------------------------------------- names after a rewrite

  /** Every byte met in reading the name at `off` in `b` is the same in `c`. */
  ghost predicate Kept(b: Buffer, c: Buffer, off: nat, hops: nat)
    decreases hops, if off < |b| then |b| - off else 0
  {
    && off < |b| && off < |c| && b[off] == c[off]
    && var length := b[off];
       || length == 0
       || (IsPointer(length) && off + 1 < |b| && off + 1 < |c| && b[off + 1] == c[off + 1]
           && hops > 0 && Kept(b, c, Target(b, off), hops - 1))
       || (0 < length < 0x40 && off + 1 + length <= |b| && off + 1 + length <= |c|
           && b[off + 1..off + 1 + length] == c[off + 1..off + 1 + length] && Kept(b, c, off + 1 + length, hops))
  }

  /** The same, except that the text of labels may differ: lengths and pointers are the same. */
  ghost predicate SameShape(b: Buffer, c: Buffer, off: nat, hops: nat)
    decreases hops, if off < |b| then |b| - off else 0
  {
    && off < |b| && off < |c| && b[off] == c[off]
    && var length := b[off];
       || length == 0
       || (IsPointer(length) && off + 1 < |b| && off + 1 < |c| && b[off + 1] == c[off + 1]
           && hops > 0 && SameShape(b, c, Target(b, off), hops - 1))
       || (0 < length < 0x40 && off + 1 + length <= |b| && off + 1 + length <= |c|
           && SameShape(b, c, off + 1 + length, hops))
  }

  /**
   Reading in `b` comes, over lengths and pointers that `c` shares, to a byte that `c` lacks, to a length
   that `c` has as a reserved one, or to a label or pointer that `c` cuts off.
   */
  ghost predicate Lost(b: Buffer, c: Buffer, off: nat, hops: nat)
    decreases hops, if off < |b| then |b| - off else 0
  {
    && off < |b|
    && (|| off >= |c|
        || IsReserved(c[off])
        || (&& b[off] == c[off]
            && var length := b[off];
               || (IsPointer(length) && off + 1 < |b| && hops > 0
                   && (off + 1 >= |c| || (b[off + 1] == c[off + 1] && Lost(b, c, Target(b, off), hops - 1))))
               || (0 < length < 0x40 && off + 1 + length <= |b|
                   && (off + 1 + length > |c| || Lost(b, c, off + 1 + length, hops)))))
  }

  /**
   Reading in `b` comes, over lengths and pointers that `c` shares, to a pointer that `c` has with another
   target, or to a length that `c` has as another usable one: what `c` reads then lies elsewhere.
   */
  ghost predicate Redirected(b: Buffer, c: Buffer, off: nat, hops: nat)
    decreases hops, if off < |b| then |b| - off else 0
  {
    && off < |b| && off < |c|
    && (|| (b[off] != c[off] && !IsReserved(c[off]))
        || (&& b[off] == c[off]
            && var length := b[off];
               || (IsPointer(length) && off + 1 < |b| && off + 1 < |c| && hops > 0
                   && (b[off + 1] != c[off + 1] || Redirected(b, c, Target(b, off), hops - 1)))
               || (0 < length < 0x40 && off + 1 + length <= |b| && off + 1 + length <= |c|
                   && Redirected(b, c, off + 1 + length, hops))))
  }

  /** There is no other way for a name that can be read in `b` to fare in `c`. */
  lemma {:induction false} ThreeFates(b: Buffer, c: Buffer, off: nat, hops: nat)
    requires LabelsFrom(b, off, hops).Some?
    ensures SameShape(b, c, off, hops) || Lost(b, c, off, hops) || Redirected(b, c, off, hops)
    decreases hops, |b| - off
  {
    if off < |c| && b[off] == c[off] {
      var length := b[off];
      if IsPointer(length) {
        if off + 1 < |c| && b[off + 1] == c[off + 1] {
          ThreeFates(b, c, Target(b, off), hops - 1);
        }
      } else if length != 0 && off + 1 + length <= |c| {
        ThreeFates(b, c, off + 1 + length, hops);
      }
    }
  }

  lemma {:induction false} KeptReadsAlike(b: Buffer, c: Buffer, off: nat, hops: nat)
    requires Kept(b, c, off, hops)
    ensures LabelsFrom(b, off, hops).Some? && LabelsFrom(c, off, hops) == LabelsFrom(b, off, hops)
    ensures EndOf(b, off).Some? && EndOf(c, off) == EndOf(b, off)
    ensures SameShape(b, c, off, hops)
    decreases hops, |b| - off
  {
    var length := b[off];
    if IsPointer(length) {
      KeptReadsAlike(b, c, Target(b, off), hops - 1);
    } else if length != 0 {
      KeptReadsAlike(b, c, off + 1 + length, hops);
    }
  }

  lemma {:induction false} LostUnreadable(b: Buffer, c: Buffer, off: nat, hops: nat)
    requires Lost(b, c, off, hops)
    ensures LabelsFrom(c, off, hops) == None
    decreases hops, |b| - off
  {
    if off < |c| && !IsReserved(c[off]) {
      var length := b[off];
      if IsPointer(length) {
        if off + 1 < |c| {
          LostUnreadable(b, c, Target(b, off), hops - 1);
        }
      } else if off + 1 + length <= |c| {
        LostUnreadable(b, c, off + 1 + length, hops);
      }
    }
  }

  /** Where a name's own bytes end depends on those bytes only. */
  lemma {:induction false} EndKept(b: Buffer, c: Buffer, off: nat)
    requires EndOf(b, off).Some? && EndOf(b, off).value <= |c|
    requires forall i :: off <= i < EndOf(b, off).value ==> b[i] == c[i]
    ensures EndOf(c, off) == EndOf(b, off)
    decreases |b| - off
  {
    if 0 < b[off] < 0x40 {
      EndKept(b, c, off + 1 + b[off]);
    }
  }

  /** An uncompressed name is read from its own bytes only. */
  ghost predicate Uncompressed(b: Buffer, off: nat)
    decreases if off < |b| then |b| - off else 0
  {
    off < |b| && (b[off] == 0 || (0 < b[off] < 0x40 && off + 1 + b[off] <= |b| && Uncompressed(b, off + 1 + b[off])))
  }

  lemma {:induction false} UncompressedIsKept(b: Buffer, c: Buffer, off: nat, hops: nat)
    requires Uncompressed(b, off) && EndOf(b, off).Some? && EndOf(b, off).value <= |c|
    requires forall i :: off <= i < EndOf(b, off).value ==> b[i] == c[i]
    ensures Kept(b, c, off, hops)
    decreases |b| - off
  {
    if b[off] != 0 {
      var after := off + 1 + b[off];
      UncompressedIsKept(b, c, after, hops);
      assert b[off + 1..after] == c[off + 1..after];
    }
  }

  // ---------------------------------------------------------------- names that differ in their text

  /** Written over the text of a name, the new byte always changes the name. */
  predicate Distinguishes(before: Byte, after: Byte) {
    before == after || LowerChar(before as char) != LowerChar(after as char)
  }

  ghost predicate AlwaysDistinguished(b: Buffer, c: Buffer) {
    forall i :: 0 <= i < |b| && i < |c| ==> Distinguishes(b[i], c[i])
  }

  lemma {:induction false} JoinedAlike(labels: seq<string>, others: seq<string>)
    requires LabelsAlike(labels, others)
    ensures |Join(labels, '.')| == |Join(others, '.')|
    ensures Lower(Join(labels, '.')) == Lower(Join(others, '.')) <==> Lowers(labels) == Lowers(others)
    decreases |labels|
  {
    hide Lower, Lowers;
    if |labels| == 0 {
      assert labels == others;
    } else if |labels| == 1 {
      LabelsAlikeStep(labels[0], others[0], [], []);
      assert labels == [labels[0]] + [] && others == [others[0]] + [];
    } else {
      var a, x := Join(labels[1..], '.'), Join(others[1..], '.');
      JoinedAlike(labels[1..], others[1..]);
      LabelsAlikeStep(labels[0], others[0], labels[1..], others[1..]);
      assert labels == [labels[0]] + labels[1..] && others == [others[0]] + others[1..];
      LowerJoined(labels[0], a);
      LowerJoined(others[0], x);
      SplitEqual(Lower(labels[0]), Lower(['.']), Lower(a), Lower(others[0]), Lower(x));
    }
  }

  lemma LowerJoined(first: string, rest: string)
    ensures Lower(first + ['.'] + rest) == Lower(first) + Lower(['.']) + Lower(rest)
  {
    hide Lower;
    LowerAppend(first + ['.'], rest);
    LowerAppend(first, ['.']);
  }

  lemma SplitEqual(p: string, dot: string, q: string, r: string, t: string)
    requires |p| == |r|
    ensures p + dot + q == r + dot + t <==> p == r && q == t
  {
    var n := |p| + |dot|;
    assert (p + dot + q)[..|p|] == p && (p + dot + q)[n..] == q;
    assert (r + dot + t)[..|r|] == r && (r + dot + t)[n..] == t;
  }

  lemma LabelsDistinguished(b: Buffer, c: Buffer, from: nat, to: nat)
    requires from <= to <= |b| && to <= |c| && AlwaysDistinguished(b, c)
    ensures Lower(Latin1(b[from..to])) == Lower(Latin1(c[from..to])) <==> b[from..to] == c[from..to]
  {
    var x, y := Latin1(b[from..to]), Latin1(c[from..to]);
    if Lower(x) == Lower(y) {
      forall i | 0 <= i < to - from ensures b[from..to][i] == c[from..to][i] {
        assert Lower(x)[i] == Lower(y)[i];
        assert Distinguishes(b[from + i], c[from + i]);
      }
    }
  }

  lemma {:induction false} ShapeReads(b: Buffer, c: Buffer, off: nat, hops: nat)
    requires SameShape(b, c, off, hops) && AlwaysDistinguished(b, c)
    ensures var x, y := LabelsFrom(b, off, hops), LabelsFrom(c, off, hops);
            && x.Some? && y.Some? && LabelsAlike(x.value, y.value)
            && (Lowers(x.value) == Lowers(y.value) <==> Kept(b, c, off, hops))
    ensures EndOf(b, off).Some? && EndOf(c, off) == EndOf(b, off)
    decreases hops, |b| - off
  {
    hide Lower, Latin1, AlwaysDistinguished, LabelsFrom, EndOf, LabelsAlike;
    var length := b[off];
    if length == 0 {
      ReadEnd(b, off, hops);
      ReadEnd(c, off, hops);
      NothingAlike();
    } else if IsPointer(length) {
      ShapeReads(b, c, Target(b, off), hops - 1);
      NameStep(b, off, hops, []);
      NameStep(c, off, hops, []);
    } else {
      var after := off + 1 + length;
      ShapeReads(b, c, after, hops);
      LabelsDistinguished(b, c, off + 1, after);
      NameStep(b, off, hops, []);
      NameStep(c, off, hops, []);
      PrependNothing(LabelsFrom(b, off, hops));
      PrependNothing(LabelsFrom(c, off, hops));
      var x, y := Latin1(b[off + 1..after]), Latin1(c[off + 1..after]);
      LabelsAlikeStep(x, y, LabelsFrom(b, after, hops).value, LabelsFrom(c, after, hops).value);
      assert [] + [x] == [x] && [] + [y] == [y];
    }
  }

  lemma NothingAlike()
    ensures LabelsAlike([], []) && Lowers([]) == Lowers([])
  {
  }

  /** As many labels, each of the same length. */
  ghost predicate LabelsAlike(x: seq<string>, y: seq<string>) {
    |x| == |y| && forall k :: 0 <= k < |x| ==> |x[k]| == |y[k]|
  }

  function Lowers(labels: seq<string>): (r: seq<string>)
    ensures |r| == |labels|
  {
    if labels == [] then [] else [Lower(labels[0])] + Lowers(labels[1..])
  }

  lemma LabelsAlikeStep(a: string, b: string, x: seq<string>, y: seq<string>)
    requires |a| == |b| && LabelsAlike(x, y)
    ensures LabelsAlike([a] + x, [b] + y)
    ensures Lowers([a] + x) == Lowers([b] + y) <==> Lower(a) == Lower(b) && Lowers(x) == Lowers(y)
  {
    hide Lower, Lowers;
    LowersStep(a, x);
    LowersStep(b, y);
    SameFirst(Lower(a), Lowers(x), Lower(b), Lowers(y));
  }

  lemma LowersStep(a: string, x: seq<string>)
    ensures Lowers([a] + x) == [Lower(a)] + Lowers(x)
  {
    hide Lower;
    assert ([a] + x)[1..] == x;
  }

  lemma SameFirst(a: string, x: seq<string>, b: string, y: seq<string>)
    ensures [a] + x == [b] + y <==> a == b && x == y
  {
    assert ([a] + x)[0] == a && ([b] + y)[0] == b;
    assert ([a] + x)[1..] == x && ([b] + y)[1..] == y;
  }

  /** When lengths and pointers are the same, the name is the same exactly when all its bytes are. */
  lemma SameNameExactly(b: Buffer, c: Buffer, off: nat)
    requires SameShape(b, c, off, MAX_NAME_JUMPS) && AlwaysDistinguished(b, c)
    ensures NameAt(b, off).Some? && NameAt(c, off).Some?
    ensures NameAt(c, off) == NameAt(b, off) <==> Kept(b, c, off, MAX_NAME_JUMPS)
  {
    hide LabelsFrom, EndOf, Join, Lower, Lowers, LabelsAlike, Kept, SameShape, AlwaysDistinguished;
    ShapeReads(b, c, off, MAX_NAME_JUMPS);
    JoinedAlike(LabelsFrom(b, off, MAX_NAME_JUMPS).value, LabelsFrom(c, off, MAX_NAME_JUMPS).value);
  }

  // ---------------------------------------------------------------- replies made from a query

  function ErrorReply(query: Buffer, rcode: nat): Buffer
    requires ParseQuery(query).Some? && rcode < 16
  {
    BuildErrorResponse(query, ParseQuery(query).value, rcode)
  }

  /** What a reply keeps of the query, and what it writes over it. */
  lemma ErrorReplyBytes(query: Buffer, rcode: nat)
    requires ParseQuery(query).Some? && rcode < 16
    ensures var reply, end := ErrorReply(query, rcode), ParseQuery(query).value.questionEnd;
            && |reply| == end <= |query| && end >= 16
            && reply[0] == query[0] && reply[1] == query[1]
            && reply[2] == 0x80 + query[2] % 2 && reply[3] == 0x80 + rcode
            && reply[4] == 0 && reply[5] == 1
            && (forall i :: 6 <= i < 12 ==> reply[i] == 0)
            && (forall i :: 12 <= i < end ==> reply[i] == query[i])
            && query[2] < 0x80
  {
    hide NameAt;
    var reply, end := ErrorReply(query, rcode), ParseQuery(query).value.questionEnd;
    forall i | 12 <= i < end ensures reply[i] == query[i] {
      assert reply[12..][i - 12] == query[12..end][i - 12];
    }
  }

  /** The bytes written are such that no text they end up in is the text it was. */
  lemma ErrorReplyDistinguished(query: Buffer, rcode: nat)
    requires ParseQuery(query).Some? && rcode < 16
    ensures AlwaysDistinguished(query, ErrorReply(query, rcode))
  {
    hide ErrorReply, ParseQuery;
    ErrorReplyBytes(query, rcode);
    var reply := ErrorReply(query, rcode);
    forall i | 0 <= i < |query| && i < |reply| ensures Distinguishes(query[i], reply[i]) {
      WrittenByte(query[i], reply[i]);
    }
  }

  lemma WrittenByte(before: Byte, after: Byte)
    requires before == after || after <= 1 || 0x80 <= after < 0x90
    ensures Distinguishes(before, after)
  {
  }

  lemma ErrorReplyEnds(query: Buffer, rcode: nat)
    requires ParseQuery(query).Some? && rcode < 16
    ensures EndOf(ErrorReply(query, rcode), HEADER_LENGTH) == Some(ParseQuery(query).value.questionEnd - 4)
  {
    hide ErrorReply, EndOf, LabelsFrom, Join, Lower;
    ErrorReplyBytes(query, rcode);
    EndKept(query, ErrorReply(query, rcode), HEADER_LENGTH);
  }

  /** Reading a message of one question and no records. */
  lemma OneQuestionAnswer(reply: Buffer)
    requires |reply| >= HEADER_LENGTH && U16(reply, 4) == 1 && U16(reply, 6) == 0
    requires EndOf(reply, HEADER_LENGTH) == Some(|reply| - 4)
    ensures AnswerOf(reply)
            == if NameAt(reply, HEADER_LENGTH).Some?
               then Some(Answer(reply[3] % 16, (reply[2] / 2) % 2 == 1, [], [])) else None
  {
    hide LabelsFrom, EndOf, Join, Lower;
    if NameAt(reply, HEADER_LENGTH).Some? {
      SkipOne(reply, HEADER_LENGTH);
      assert RecordsFrom(reply, |reply|, 0) == Records([], []);
    }
  }

  /**
   SERVFAIL and NXDOMAIN replies, for every query the parser accepts: they carry its id, and read back
   with the intended code, no TC bit and no records, unless their question's name cannot be read. If the
   bytes met in reading it are all kept, the name is the query's; if one is lost, it cannot be read; and
   if only the text of labels was written over, it is another name.
   */
  lemma ErrorReplyReadsBack(query: Buffer, rcode: nat)
    requires ParseQuery(query).Some? && rcode < 16
    ensures var reply := ErrorReply(query, rcode);
            && IsResponse(reply) && U16(reply, 0) == ParseQuery(query).value.id
            && AnswerOf(reply) == (if NameAt(reply, HEADER_LENGTH).Some? then Some(Answer(rcode, false, [], [])) else None)
            && (Kept(query, reply, HEADER_LENGTH, MAX_NAME_JUMPS) ==>
                  AnswerOf(reply).Some? && NameAt(reply, HEADER_LENGTH) == NameAt(query, HEADER_LENGTH))
            && (Lost(query, reply, HEADER_LENGTH, MAX_NAME_JUMPS) ==> AnswerOf(reply).None?)
            && (SameShape(query, reply, HEADER_LENGTH, MAX_NAME_JUMPS) ==>
                  && AnswerOf(reply).Some?
                  && (NameAt(reply, HEADER_LENGTH) == NameAt(query, HEADER_LENGTH)
                      <==> Kept(query, reply, HEADER_LENGTH, MAX_NAME_JUMPS)))
  {
    hide ErrorReply, EndOf, LabelsFrom, Join, Lower, Kept, Lost, SameShape, AlwaysDistinguished, AnswerOf;
    var reply := ErrorReply(query, rcode);
    ErrorReplyBytes(query, rcode);
    ErrorReplyEnds(query, rcode);
    OneQuestionAnswer(reply);
    if Kept(query, reply, HEADER_LENGTH, MAX_NAME_JUMPS) {
      KeptReadsAlike(query, reply, HEADER_LENGTH, MAX_NAME_JUMPS);
    }
    if Lost(query, reply, HEADER_LENGTH, MAX_NAME_JUMPS) {
      LostUnreadable(query, reply, HEADER_LENGTH, MAX_NAME_JUMPS);
    }
    if SameShape(query, reply, HEADER_LENGTH, MAX_NAME_JUMPS) {
      ErrorReplyDistinguished(query, rcode);
      SameNameExactly(query, reply, HEADER_LENGTH);
    }
  }

  /** Every uncompressed question is kept. */
  lemma UncompressedQuestionIsKept(query: Buffer, rcode: nat)
    requires ParseQuery(query).Some? && rcode < 16 && Uncompressed(query, HEADER_LENGTH)
    ensures Kept(query, ErrorReply(query, rcode), HEADER_LENGTH, MAX_NAME_JUMPS)
  {
    hide ErrorReply, LabelsFrom, EndOf, Join, Lower;
    ErrorReplyBytes(query, rcode);
    UncompressedIsKept(query, ErrorReply(query, rcode), HEADER_LENGTH, MAX_NAME_JUMPS);
  }

  const HEADER_POINTER_QUERY: Buffer := [0, 0, 1, 0, 0, 1, 0, 0, 0, 0, 0, 0, 0xc0, 2, 0, 1, 0, 1]

  /**
   Losing the question happens: a query whose name is a pointer to its flags is accepted, and the
   SERVFAIL made from it, which rewrites the flags, cannot be read at all.
   */
  lemma HeaderPointerBreaksServfail()
    ensures ParseQuery(HEADER_POINTER_QUERY).Some?
    ensures AnswerOf(BuildServfail(HEADER_POINTER_QUERY, ParseQuery(HEADER_POINTER_QUERY).value)).None?
  {
    var q := HEADER_POINTER_QUERY;
    HeaderPointerAccepted();
    hide ParseQuery, ErrorReply, AnswerOf, Lost, Kept, SameShape, NameAt;
    var reply := ErrorReply(q, RCODE_SERVFAIL);
    ErrorReplyBytes(q, RCODE_SERVFAIL);
    ErrorReplyReadsBack(q, RCODE_SERVFAIL);
    FlagsLost(q, reply);
    SameReply(q);
  }

  lemma SameReply(query: Buffer)
    requires ParseQuery(query).Some?
    ensures ErrorReply(query, RCODE_SERVFAIL) == BuildServfail(query, ParseQuery(query).value)
  {
  }

  lemma FlagsLost(query: Buffer, reply: Buffer)
    requires |query| >= 14 && query[12] == 0xc0 && query[13] == 2
    requires |reply| >= 14 && reply[12] == 0xc0 && reply[13] == 2 && IsReserved(reply[2])
    ensures Lost(query, reply, HEADER_LENGTH, MAX_NAME_JUMPS)
  {
    assert Target(query, 12) == 2;
    assert Lost(query, reply, 2, MAX_NAME_JUMPS - 1);
  }

  lemma HeaderPointerAccepted()
    ensures ParseQuery(HEADER_POINTER_QUERY).Some?
    ensures ParseQuery(HEADER_POINTER_QUERY).value.questionEnd == 18
  {
    var q := HEADER_POINTER_QUERY;
    assert q[2] == 1 && q[4] == 0 && q[12] == 0xc0 && q[13] == 2;
    assert LabelsFrom(q, 4, 31) == Some([]);
    assert LabelsFrom(q, 2, 31).Some?;
    assert Target(q, 12) == 2;
    assert LabelsFrom(q, 12, 32).Some?;
    assert EndOf(q, 12) == Some(14);
  }

  // ---------------------------------------------------------------- truncated replies

  /** Each of `n` questions from `off` on is met with the same bytes in `c`, and ends within it. */
  ghost predicate KeptQuestions(b: Buffer, c: Buffer, off: nat, n: nat)
    decreases n
  {
    n == 0 ||
    (Kept(b, c, off, MAX_NAME_JUMPS)
     && NameAt(b, off).Some? && NameAt(b, off).value.next + 4 <= |b| && NameAt(b, off).value.next + 4 <= |c|
     && KeptQuestions(b, c, NameAt(b, off).value.next + 4, n - 1))
  }

  lemma {:induction false} KeptQuestionsSkipAlike(b: Buffer, c: Buffer, off: nat, n: nat)
    requires KeptQuestions(b, c, off, n)
    ensures SkipQuestions(b, off, n).Some? && SkipQuestions(c, off, n) == SkipQuestions(b, off, n)
    decreases n
  {
    hide Kept, LabelsFrom, EndOf, Join, Lower;
    if n > 0 {
      KeptReadsAlike(b, c, off, MAX_NAME_JUMPS);
      KeptQuestionsSkipAlike(b, c, NameAt(b, off).value.next + 4, n - 1);
    }
  }

  lemma TruncatedBytes(response: Buffer, question: Question, limit: nat)
    requires HEADER_LENGTH <= question.questionEnd && HEADER_LENGTH <= limit < |response|
    ensures var reply := TruncateForUdp(response, question, limit);
            && |reply| == (if question.questionEnd < |response| then question.questionEnd else |response|)
            && reply[0] == response[0] && reply[1] == response[1]
            && reply[2] == WithTc(response[2]) && reply[3] == response[3]
            && reply[4] == response[4] && reply[5] == response[5] && reply[6] == 0 && reply[7] == 0
            && (forall i :: 12 <= i < |reply| ==> reply[i] == response[i])
  {
    var reply := TruncateForUdp(response, question, limit);
    forall i | 12 <= i < |reply| ensures reply[i] == response[i] {
      assert reply[12..][i - 12] == response[12..|reply|][i - 12];
    }
  }

  /**
   A truncated reply, for every response over the limit: it keeps the id, and reads back with the
   response's code, the TC bit and no records, unless its questions cannot be read; they are readable
   and the same if the bytes met in reading them are kept, and a single one that is lost cannot be read.
   */
  lemma TruncatedReplyReadsBack(response: Buffer, question: Question, limit: nat)
    requires HEADER_LENGTH <= question.questionEnd && HEADER_LENGTH <= limit < |response|
    ensures var reply := TruncateForUdp(response, question, limit);
            && U16(reply, 0) == U16(response, 0)
            && AnswerOf(reply)
               == (if SkipQuestions(reply, HEADER_LENGTH, U16(response, 4)).Some?
                   then Some(Answer(response[3] % 16, true, [], [])) else None)
            && (KeptQuestions(response, reply, HEADER_LENGTH, U16(response, 4)) ==> AnswerOf(reply).Some?)
            && (Kept(response, reply, HEADER_LENGTH, MAX_NAME_JUMPS) ==>
                  NameAt(reply, HEADER_LENGTH) == NameAt(response, HEADER_LENGTH))
            && (U16(response, 4) > 0 && Lost(response, reply, HEADER_LENGTH, MAX_NAME_JUMPS) ==> AnswerOf(reply).None?)
  {
    hide TruncateForUdp, LabelsFrom, EndOf, Join, Lower, Kept, Lost, KeptQuestions;
    var reply, n := TruncateForUdp(response, question, limit), U16(response, 4);
    TruncatedBytes(response, question, limit);
    TcSet(response[2]);
    assert U16(reply, 4) == n && U16(reply, 6) == 0;
    if KeptQuestions(response, reply, HEADER_LENGTH, n) {
      KeptQuestionsSkipAlike(response, reply, HEADER_LENGTH, n);
    }
    if Kept(response, reply, HEADER_LENGTH, MAX_NAME_JUMPS) {
      KeptReadsAlike(response, reply, HEADER_LENGTH, MAX_NAME_JUMPS);
    }
    if Lost(response, reply, HEADER_LENGTH, MAX_NAME_JUMPS) {
      LostUnreadable(response, reply, HEADER_LENGTH, MAX_NAME_JUMPS);
    }
  }

  lemma TcSet(flags: Byte)
    ensures (WithTc(flags) / 2) % 2 == 1
  {
  }

  /** A response that repeats an uncompressed question of the query keeps it when truncated. */
  lemma RepeatedQuestionIsKept(query: Buffer, response: Buffer, limit: nat)
    requires ParseQuery(query).Some? && Uncompressed(query, HEADER_LENGTH)
    requires HEADER_LENGTH <= limit < |response| && U16(response, 4) == 1
    requires var end := ParseQuery(query).value.questionEnd;
             end <= |response| && response[12..end] == query[12..end]
    ensures var reply := TruncateForUdp(response, ParseQuery(query).value, limit);
            && KeptQuestions(response, reply, HEADER_LENGTH, 1)
            && NameAt(reply, HEADER_LENGTH) == NameAt(query, HEADER_LENGTH)
  {
    hide TruncateForUdp, LabelsFrom, EndOf, Join, Lower, Kept, Uncompressed;
    var question := ParseQuery(query).value;
    var reply := TruncateForUdp(response, question, limit);
    TruncatedBytes(response, question, limit);
    forall i | 12 <= i < question.questionEnd ensures response[i] == query[i] {
      assert response[12..question.questionEnd][i - 12] == query[12..question.questionEnd][i - 12];
    }
    UncompressedIsKept(query, response, HEADER_LENGTH, MAX_NAME_JUMPS);
    KeptReadsAlike(query, response, HEADER_LENGTH, MAX_NAME_JUMPS);
    UncompressedElsewhere(query, response, HEADER_LENGTH);
    UncompressedIsKept(response, reply, HEADER_LENGTH, MAX_NAME_JUMPS);
    KeptReadsAlike(response, reply, HEADER_LENGTH, MAX_NAME_JUMPS);
    assert KeptQuestions(response, reply, question.questionEnd, 0);
  }

  lemma {:induction false} UncompressedElsewhere(b: Buffer, c: Buffer, off: nat)
    requires Uncompressed(b, off) && EndOf(b, off).Some? && EndOf(b, off).value <= |c|
    requires forall i :: off <= i < EndOf(b, off).value ==> b[i] == c[i]
    ensures Uncompressed(c, off)
    decreases |b| - off
  {
    if b[off] != 0 {
      UncompressedElsewhere(b, c, off + 1 + b[off]);
    }
  }

  /** The result fits the limit exactly when the response did already or the question itself does. */
  lemma TruncationFitsExactly(response: Buffer, question: Question, limit: nat)
    requires HEADER_LENGTH <= question.questionEnd && HEADER_LENGTH <= limit
    ensures |TruncateForUdp(response, question, limit)| <= limit
            <==> |response| <= limit || question.questionEnd <= limit
  {
  }

  /** Names are not limited to 255 bytes: a legal query can ask for a question beyond the UDP limit. */
  lemma QuestionMayExceedLimit(name: string, id: int, response: Buffer)
    requires BuildAQuery(name, id).Some? && |StripDot(name)| > 512
    ensures var q := BuildAQuery(name, id).value;
            && ParseQuery(q).Some?
            && UdpLimitFor(ParseQuery(q).value) == 512
            && (|response| > |q| ==> |TruncateForUdp(response, ParseQuery(q).value, 512)| > 512)
  {
    ParseInvertsBuildA(name, id);
    var labels := Split(StripDot(name), '.');
    JoinSplit(StripDot(name), '.');
    EncodedLength(labels);
    QueryLayout(labels, TYPE_A, id);
    hide ParseQuery, QueryFor, EncodeLabels, Join, Split;
  }

  lemma {:induction false} EncodedLength(labels: seq<string>)
    requires AreLabels(labels) && |labels| >= 1
    ensures |EncodeLabels(labels)| == |Join(labels, '.')| + 2
  {
    if |labels| > 1 {
      EncodedLength(labels[1..]);
    } else {
      assert labels[1..] == [];
    }
  }

  // ---------------------------------------------------------------- answers built from records

  /** A resource record of class IN as it is sent. */
  datatype WireRecord = WireRecord(rtype: nat, ttl: nat, data: Buffer)

  /** Any record except one that names a host. */
  predicate IsWire(r: WireRecord) {
    r.rtype < 0x1_0000 && r.rtype != TYPE_PTR && r.ttl < 0x1_0000_0000 && |r.data| < 0x1_0000
  }

  predicate AreWire(records: seq<WireRecord>) { forall i :: 0 <= i < |records| ==> IsWire(records[i]) }

  /** The address record of the answer encoder. */
  function AddressRecord(octets: Octets, ttl: nat): WireRecord {
    WireRecord(TYPE_A, ttl, [octets[0], octets[1], octets[2], octets[3]])
  }

  function FixedPart(r: WireRecord): (b: Buffer)
    requires IsWire(r)
    ensures |b| == 12
  {
    [0xc0, 0x0c] + Bytes16(r.rtype) + [0, 1] + Bytes32(r.ttl) + Bytes16(|r.data|)
  }

  /** The record with a pointer to the question for its owner's name. */
  function EncodeRecord(r: WireRecord): (b: Buffer)
    requires IsWire(r)
    ensures |b| == 12 + |r.data|
  {
    FixedPart(r) + r.data
  }

  function EncodeRecords(records: seq<WireRecord>): Buffer
    requires AreWire(records)
  {
    if records == [] then [] else EncodeRecord(records[0]) + EncodeRecords(records[1..])
  }

  /** A name, with its type A and its class. */
  function EncodeQuestion(labels: seq<string>): Buffer
    requires AreLabels(labels)
  {
    EncodeLabels(labels) + [0, 1, 0, 1]
  }

  predicate AreNames(names: seq<seq<string>>) { forall i :: 0 <= i < |names| ==> AreLabels(names[i]) }

  function EncodeQuestions(names: seq<seq<string>>): Buffer
    requires AreNames(names)
  {
    if names == [] then [] else EncodeQuestion(names[0]) + EncodeQuestions(names[1..])
  }

  /** The answer encoder: header, the questions, then the records. */
  function BuildAnswer(names: seq<seq<string>>, records: seq<WireRecord>, rcode: nat, id: int): Buffer
    requires AreNames(names) && |names| < 0x1_0000 && rcode < 16 && |records| < 0x1_0000 && AreWire(records)
  {
    Bytes16(id % 0x1_0000) + [0x81, 0x80 + rcode] + Bytes16(|names|) + Bytes16(|records|) + [0, 0, 0, 0]
    + EncodeQuestions(names) + EncodeRecords(records)
  }

  /** The addresses among the records, in order. */
  function AddressesOf(records: seq<WireRecord>): seq<BS.ARecord> {
    if records == [] then []
    else
      var r := records[0];
      (if r.rtype == TYPE_A && |r.data| == 4
       then [BS.ARecord(RenderIpv4([r.data[0], r.data[1], r.data[2], r.data[3]]), r.ttl)] else [])
      + AddressesOf(records[1..])
  }

  /** The encoder's own case: addresses only, each of which comes back. */
  lemma {:induction false} AddressRecordsGive(octets: seq<Octets>, ttl: nat)
    ensures var records := seq(|octets|, i requires 0 <= i < |octets| => AddressRecord(octets[i], ttl));
            AddressesOf(records) == seq(|octets|, i requires 0 <= i < |octets| => BS.ARecord(RenderIpv4(octets[i]), ttl))
  {
    hide RenderIpv4;
    if octets != [] {
      AddressRecordsGive(octets[1..], ttl);
      var records := seq(|octets|, i requires 0 <= i < |octets| => AddressRecord(octets[i], ttl));
      var o := octets[0];
      assert records[1..] == seq(|octets[1..]|, i requires 0 <= i < |octets[1..]| => AddressRecord(octets[1..][i], ttl));
      assert [o[0], o[1], o[2], o[3]] == o;
    }
  }

  lemma FixedLayout(b: Buffer, off: nat, r: WireRecord)
    requires IsWire(r) && off + 12 <= |b| && b[off..off + 12] == FixedPart(r)
    ensures b[off] == 0xc0 && b[off + 1] == 0x0c
    ensures U16(b, off + 2) == r.rtype && U32(b, off + 6) == r.ttl && U16(b, off + 10) == |r.data|
  {
    var kind, time, length := Bytes16(r.rtype), Bytes32(r.ttl), Bytes16(|r.data|);
    var code := FixedPart(r);
    assert code == [0xc0, 0x0c] + kind + [0, 1] + time + length;
    forall k | 0 <= k < 12 ensures b[off + k] == code[k] {
      assert b[off..off + 12][k] == code[k];
    }
    assert b[off] == code[0] && b[off + 1] == code[1];
    assert b[off + 2] == code[2] == kind[0] && b[off + 3] == code[3] == kind[1];
    assert b[off + 6] == code[6] == time[0] && b[off + 7] == code[7] == time[1];
    assert b[off + 8] == code[8] == time[2] && b[off + 9] == code[9] == time[3];
    assert b[off + 10] == code[10] == length[0] && b[off + 11] == code[11] == length[1];
  }

  lemma ReadRecordAt(b: Buffer, off: nat, r: WireRecord)
    requires IsWire(r) && off + 12 + |r.data| <= |b| && b[off..off + 12 + |r.data|] == EncodeRecord(r)
    requires LabelsFrom(b, HEADER_LENGTH, MAX_NAME_JUMPS - 1).Some?
    ensures var rr := Rr(r.rtype, r.ttl, off + 12, |r.data|);
            && RecordAt(b, off) == Some(rr)
            && ARecordsIn(b, rr) == AddressesOf([r])
            && PtrNamesIn(b, rr) == []
  {
    hide RenderIpv4, NameAt, LabelsFrom, FixedPart;
    SliceAt(b, off, FixedPart(r), r.data, []);
    assert FixedPart(r) + r.data + [] == EncodeRecord(r);
    FixedLayout(b, off, r);
    PointerNameAt(b, off);
    assert AddressesOf([]) == [] && [r][1..] == [];
    if r.rtype == TYPE_A && |r.data| == 4 {
      assert b[off + 12..off + 16] == r.data;
    }
  }

  /** A pointer to the question is read as a name of two bytes. */
  lemma PointerNameAt(b: Buffer, off: nat)
    requires off + 2 <= |b| && b[off] == 0xc0 && b[off + 1] == 0x0c
    requires LabelsFrom(b, HEADER_LENGTH, MAX_NAME_JUMPS - 1).Some?
    ensures NameAt(b, off).Some? && NameAt(b, off).value.next == off + 2
  {
    hide Join, Lower;
    assert Target(b, off) == HEADER_LENGTH;
    assert LabelsFrom(b, off, MAX_NAME_JUMPS) == LabelsFrom(b, HEADER_LENGTH, MAX_NAME_JUMPS - 1);
    assert EndOf(b, off) == Some(off + 2);
  }

  lemma AddressesSplit(records: seq<WireRecord>)
    requires records != []
    ensures AddressesOf(records) == AddressesOf([records[0]]) + AddressesOf(records[1..])
  {
    hide RenderIpv4;
    assert AddressesOf([]) == [] && [records[0]][1..] == [];
  }

  lemma {:induction false} ReadRecordsAt(b: Buffer, off: nat, records: seq<WireRecord>)
    requires AreWire(records)
    requires off + |EncodeRecords(records)| <= |b| && b[off..off + |EncodeRecords(records)|] == EncodeRecords(records)
    requires LabelsFrom(b, HEADER_LENGTH, MAX_NAME_JUMPS - 1).Some?
    ensures RecordsFrom(b, off, |records|) == Records(AddressesOf(records), [])
    decreases |records|
  {
    hide EncodeRecord, AddressesOf, RecordAt, ARecordsIn, PtrNamesIn, LabelsFrom;
    if records == [] {
      NoAddresses();
    } else {
      var first, rest := EncodeRecord(records[0]), EncodeRecords(records[1..]);
      SliceAt(b, off, [], first, rest);
      assert [] + first + rest == EncodeRecords(records);
      ReadRecordAt(b, off, records[0]);
      ReadRecordsAt(b, off + |first|, records[1..]);
      AddressesSplit(records);
    }
  }

  lemma NoAddresses()
    ensures AddressesOf([]) == []
  {
  }

  lemma {:induction false} SkipEncoded(b: Buffer, off: nat, names: seq<seq<string>>)
    requires AreNames(names)
    requires off + |EncodeQuestions(names)| <= |b| && b[off..off + |EncodeQuestions(names)|] == EncodeQuestions(names)
    ensures SkipQuestions(b, off, |names|) == Some(off + |EncodeQuestions(names)|)
    decreases |names|
  {
    hide EncodeLabels, NameAt, LowText, Lower, Join;
    if names != [] {
      var code, rest := EncodeLabels(names[0]), EncodeQuestions(names[1..]);
      QuestionsStart(names);
      SliceAt(b, off, code, [0, 1, 0, 1], rest);
      EncodedNameAt(b, off, names[0]);
      SkipEncoded(b, off + |code| + 4, names[1..]);
    }
  }

  lemma AnswerLayout(names: seq<seq<string>>, records: seq<WireRecord>, rcode: nat, id: int)
    requires AreNames(names) && |names| < 0x1_0000 && rcode < 16 && |records| < 0x1_0000 && AreWire(records)
    ensures var b, n := BuildAnswer(names, records, rcode, id), |EncodeQuestions(names)|;
            && |b| == 12 + n + |EncodeRecords(records)|
            && b[2] == 0x81 && b[3] == 0x80 + rcode && U16(b, 4) == |names| && U16(b, 6) == |records|
            && b[12..12 + n] == EncodeQuestions(names)
            && b[12 + n..12 + n + |EncodeRecords(records)|] == EncodeRecords(records)
  {
    hide EncodeQuestions, EncodeRecords;
    var head: Buffer := Bytes16(id % 0x1_0000) + [0x81, 0x80 + rcode] + Bytes16(|names|) + Bytes16(|records|) + [0, 0, 0, 0];
    var code, tail := EncodeQuestions(names), EncodeRecords(records);
    var b := BuildAnswer(names, records, rcode, id);
    assert b == head + code + tail && |head| == 12;
    assert b[2] == head[2] && b[3] == head[3];
    assert b[4] == head[4] == Bytes16(|names|)[0] && b[5] == head[5] == Bytes16(|names|)[1];
    assert b[6] == head[6] == Bytes16(|records|)[0] && b[7] == head[7] == Bytes16(|records|)[1];
  }

  /**
   Any uncompressed questions and any records pointing at the first of them, of whatever types, read back
   as exactly the addresses among the records, in order.
   */
  lemma AnswerReadsBack(names: seq<seq<string>>, records: seq<WireRecord>, rcode: nat, id: int)
    requires AreNames(names) && 1 <= |names| < 0x1_0000 && rcode < 16 && |records| < 0x1_0000 && AreWire(records)
    ensures AnswerOf(BuildAnswer(names, records, rcode, id)) == Some(Answer(rcode, false, AddressesOf(records), []))
  {
    hide BuildAnswer, EncodeQuestions, EncodeRecords, AddressesOf, LowTexts, LabelsFrom, EndOf, SkipQuestions, RecordsFrom;
    var b, n := BuildAnswer(names, records, rcode, id), |EncodeQuestions(names)|;
    AnswerLayout(names, records, rcode, id);
    SkipEncoded(b, HEADER_LENGTH, names);
    FirstName(b, names);
    ReadRecordsAt(b, HEADER_LENGTH + n, records);
    ClearFlags(b, rcode);
  }

  lemma QuestionsStart(names: seq<seq<string>>)
    requires AreNames(names) && names != []
    ensures EncodeQuestions(names) == EncodeLabels(names[0]) + [0, 1, 0, 1] + EncodeQuestions(names[1..])
  {
    hide EncodeLabels;
  }

  lemma FirstName(b: Buffer, names: seq<seq<string>>)
    requires AreNames(names) && names != []
    requires 12 + |EncodeQuestions(names)| <= |b| && b[12..12 + |EncodeQuestions(names)|] == EncodeQuestions(names)
    ensures LabelsFrom(b, HEADER_LENGTH, MAX_NAME_JUMPS - 1).Some?
  {
    hide EncodeLabels, EncodeQuestions, LabelsFrom, EndOf, LowTexts;
    QuestionsStart(names);
    SliceAt(b, HEADER_LENGTH, EncodeLabels(names[0]), [0, 1, 0, 1], EncodeQuestions(names[1..]));
    ReadEncoded(b, HEADER_LENGTH, names[0], MAX_NAME_JUMPS - 1);
  }

  lemma SkipOne(b: Buffer, off: nat)
    requires NameAt(b, off).Some? && NameAt(b, off).value.next + 4 <= |b|
    ensures SkipQuestions(b, off, 1) == Some(NameAt(b, off).value.next + 4)
  {
    hide NameAt;
    assert SkipQuestions(b, NameAt(b, off).value.next + 4, 0) == Some(NameAt(b, off).value.next + 4);
  }

  // ---------------------------------------------------------------- names in answers

  /** One PTR record whose owner name is a pointer to the question. */
  function EncodePtr(ttl: nat, target: seq<string>): (b: Buffer)
    requires ttl < 0x1_0000_0000 && AreLabels(target) && |EncodeLabels(target)| < 0x1_0000
    ensures |b| == 12 + |EncodeLabels(target)|
  {
    [0xc0, 0x0c, 0, 12, 0, 1] + Bytes32(ttl) + Bytes16(|EncodeLabels(target)|) + EncodeLabels(target)
  }

  /** A message with an uncompressed question and this record. */
  function BuildPtrAnswer(labels: seq<string>, ttl: nat, target: seq<string>, rcode: nat, id: int): Buffer
    requires AreLabels(labels) && rcode < 16
    requires ttl < 0x1_0000_0000 && AreLabels(target) && |EncodeLabels(target)| < 0x1_0000
  {
    Bytes16(id % 0x1_0000) + [0x81, 0x80 + rcode, 0, 1, 0, 1, 0, 0, 0, 0]
    + EncodeLabels(labels) + [0, 12, 0, 1] + EncodePtr(ttl, target)
  }

  lemma PtrLayout(b: Buffer, off: nat, ttl: nat, target: seq<string>)
    requires ttl < 0x1_0000_0000 && AreLabels(target) && |EncodeLabels(target)| < 0x1_0000
    requires off + |EncodePtr(ttl, target)| <= |b| && b[off..off + |EncodePtr(ttl, target)|] == EncodePtr(ttl, target)
    ensures b[off] == 0xc0 && b[off + 1] == 0x0c
    ensures U16(b, off + 2) == TYPE_PTR && U32(b, off + 6) == ttl && U16(b, off + 10) == |EncodeLabels(target)|
    ensures b[off + 12..off + 12 + |EncodeLabels(target)|] == EncodeLabels(target)
  {
    hide EncodeLabels;
    var code, start, time, length := EncodeLabels(target), [0xc0, 0x0c, 0, 12, 0, 1], Bytes32(ttl), Bytes16(|EncodeLabels(target)|);
    var head: Buffer := start + time + length;
    assert EncodePtr(ttl, target) == head + code + [];
    SliceAt(b, off, head, code, []);
    forall k | 0 <= k < 12 ensures b[off + k] == head[k] {
      assert b[off..off + 12][k] == head[k];
    }
    assert b[off] == head[0] && b[off + 1] == head[1] && b[off + 2] == head[2] && b[off + 3] == head[3];
    assert b[off + 6] == head[6] == time[0] && b[off + 7] == head[7] == time[1];
    assert b[off + 8] == head[8] == time[2] && b[off + 9] == head[9] == time[3];
    assert b[off + 10] == head[10] == length[0] && b[off + 11] == head[11] == length[1];
  }

  lemma ReadPtr(b: Buffer, off: nat, ttl: nat, target: seq<string>)
    requires ttl < 0x1_0000_0000 && AreLabels(target) && |EncodeLabels(target)| < 0x1_0000
    requires off + |EncodePtr(ttl, target)| <= |b| && b[off..off + |EncodePtr(ttl, target)|] == EncodePtr(ttl, target)
    requires LabelsFrom(b, HEADER_LENGTH, MAX_NAME_JUMPS - 1).Some?
    ensures var rr := Rr(TYPE_PTR, ttl, off + 12, |EncodeLabels(target)|);
            && RecordAt(b, off) == Some(rr)
            && ARecordsIn(b, rr) == []
            && PtrNamesIn(b, rr) == if target == [] then [] else [Lower(LowText(Join(target, '.')))]
  {
    hide EncodePtr, EncodeLabels, NameAt, LabelsFrom, LowText, Join, Lower;
    PtrLayout(b, off, ttl, target);
    PointerNameAt(b, off);
    EncodedNameAt(b, off + 12, target);
    JoinedLength(target);
  }

  lemma JoinedLength(labels: seq<string>)
    requires AreLabels(labels)
    ensures Join(labels, '.') == "" <==> labels == []
  {
  }

  lemma PtrAnswerLayout(labels: seq<string>, ttl: nat, target: seq<string>, rcode: nat, id: int)
    requires AreLabels(labels) && rcode < 16
    requires ttl < 0x1_0000_0000 && AreLabels(target) && |EncodeLabels(target)| < 0x1_0000
    ensures var b, n := BuildPtrAnswer(labels, ttl, target, rcode, id), |EncodeLabels(labels)|;
            && |b| == 16 + n + |EncodePtr(ttl, target)|
            && b[2] == 0x81 && b[3] == 0x80 + rcode && U16(b, 4) == 1 && U16(b, 6) == 1
            && b[12..12 + n] == EncodeLabels(labels)
            && b[16 + n..16 + n + |EncodePtr(ttl, target)|] == EncodePtr(ttl, target)
  {
    hide EncodeLabels, EncodePtr;
    var head: Buffer := Bytes16(id % 0x1_0000) + [0x81, 0x80 + rcode, 0, 1, 0, 1, 0, 0, 0, 0];
    var code, tail := EncodeLabels(labels), EncodePtr(ttl, target);
    var b := BuildPtrAnswer(labels, ttl, target, rcode, id);
    assert b == head + code + [0, 12, 0, 1] + tail;
    assert |head| == 12;
    assert b[2] == head[2] && b[3] == head[3] && b[4] == head[4] && b[5] == head[5] && b[6] == head[6] && b[7] == head[7];
  }

  /** A PTR record reads back as the name it was made of, lower-cased; the root names nobody. */
  lemma PtrAnswerReadsBack(labels: seq<string>, ttl: nat, target: seq<string>, rcode: nat, id: int)
    requires AreLabels(labels) && rcode < 16
    requires ttl < 0x1_0000_0000 && AreLabels(target) && |EncodeLabels(target)| < 0x1_0000
    ensures AnswerOf(BuildPtrAnswer(labels, ttl, target, rcode, id))
            == Some(Answer(rcode, false, [], if target == [] then [] else [Lower(LowText(Join(target, '.')))]))
  {
    hide BuildPtrAnswer, EncodeLabels, EncodePtr, NameAt, LowTexts, Lower, Join, LowText, LabelsFrom, EndOf, SkipQuestions, RecordAt, ARecordsIn, PtrNamesIn;
    var b, n := BuildPtrAnswer(labels, ttl, target, rcode, id), |EncodeLabels(labels)|;
    PtrAnswerLayout(labels, ttl, target, rcode, id);
    EncodedNameAt(b, HEADER_LENGTH, labels);
    ReadEncoded(b, HEADER_LENGTH, labels, MAX_NAME_JUMPS - 1);
    SkipOne(b, HEADER_LENGTH);
    ReadPtr(b, 16 + n, ttl, target);
    OneRecord(b, 16 + n);
    ClearFlags(b, rcode);
  }

  lemma ClearFlags(b: Buffer, rcode: nat)
    requires |b| >= 4 && b[2] == 0x81 && rcode < 16 && b[3] == 0x80 + rcode
    ensures b[3] % 16 == rcode && (b[2] / 2) % 2 == 0
  {
  }

  lemma OneRecord(b: Buffer, off: nat)
    requires RecordAt(b, off).Some?
    ensures RecordsFrom(b, off, 1) == Records(ARecordsIn(b, RecordAt(b, off).value), PtrNamesIn(b, RecordAt(b, off).value))
  {
    hide RecordAt, ARecordsIn, PtrNamesIn;
    var rr := RecordAt(b, off).value;
    assert RecordsFrom(b, rr.dataStart + rr.dataLength, 0) == Records([], []);
    assert ARecordsIn(b, rr) + [] == ARecordsIn(b, rr) && PtrNamesIn(b, rr) + [] == PtrNamesIn(b, rr);
  }

  // ---------------------------------------------------------------- questions, byte by byte

  /**
   A query is accepted exactly when it has a header, is no response, announces a question, and holds its
   name, type and class; and what is taken from it are these bytes. A query that announces additional
   records may be answered in 1232 bytes, any other in 512.
   */
  lemma QuestionExactly(query: Buffer)
    ensures ParseQuery(query).Some?
            <==> && |query| >= 12 && query[2] < 0x80 && (query[4] != 0 || query[5] != 0)
                 && NameAt(query, 12).Some? && NameAt(query, 12).value.next + 4 <= |query|
    ensures ParseQuery(query).Some? ==>
              var question, next := ParseQuery(query).value, NameAt(query, 12).value.next;
              && question.name == NameAt(query, 12).value.name
              && question.id == 0x100 * query[0] as int + query[1] as int
              && question.qtype == 0x100 * query[next] as int + query[next + 1] as int
              && question.questionEnd == next + 4
              && UdpLimitFor(question) == if query[10] == 0 && query[11] == 0 then 512 else 1232
  {
    hide NameAt;
  }
}
