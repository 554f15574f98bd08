/** The rule parser and the rule commands in plain terms: texts, numbers and fields written out. */
module RoutingLaws {
  import opened Results
  import opened RoutingRule
  import opened RoutingTable
  import opened ProtectedRoute

  /** Two fields of a line: what each word does to the rule so far, and how far the parser moves on. */
  lemma FieldAnswers(rule: Rule, key: string, value: string, rest: seq<string>)
    ensures var line, n, p := [key, value] + rest, Number(value), Decimal(value, 255);
            Fields(rule, line) ==
              if key == "from" then
                Fields(rule.(exact := rule.exact && !rule.hasFrom && (value == "all" || value == "0.0.0.0/0"),
                             hasFrom := true), rest)
              else if key == "to" then
                Fields(rule.(exact := rule.exact && (value == "all" || value == "0.0.0.0/0")), rest)
              else if key == "lookup" || key == "table" then
                Fields(rule.(exact := rule.exact && !rule.hasTable && n.ok, table := n.value, hasTable := n.ok), rest)
              else if key == "protocol" || key == "proto" then
                Fields(if p.ok && rule.protocol.None? then rule.(protocol := Some(p.value)) else rule.(exact := false),
                       rest)
              else if key == "fwmark" then Fields(TakeMark(rule, value), rest)
              else Fields(rule.(exact := false), [value] + rest)
  {
    var line := [key, value] + rest;
    hide Number, Decimal, TakeMark;
    assert line[2..] == rest && line[1..] == [value] + rest;
  }

  /** A mark may come alone, with every bit of it compared, or with a mask. */
  lemma MarkAnswers(rule: Rule, mark: U32, mask: U32)
    requires !rule.hasMark && rule.mask == 0xFFFF_FFFF
    ensures TakeMark(rule, Hex(mark)) == rule.(mark := mark, hasMark := true)
    ensures TakeMark(rule, Hex(mark) + "/" + Hex(mask)) == rule.(mark := mark, mask := mask, hasMark := true)
  {
    MarkRoundTrip(rule, Mark(mark, FULL));
    HexPlain(mark);
    HexPlain(mask);
    NumbersRoundTrip(mark);
    NumbersRoundTrip(mask);
    HexHasNoSlash(mark);
    HexHasNoSlash(mask);
    hide TakeMark, Number, Print, Hex, Slash, MarkText;
    MaskedMark(rule, Hex(mark), Hex(mask), mark, mask);
    AloneText(mark);
  }

  /** A number that does not fit is no number: 32 bits for priorities, marks and tables, eight for a protocol. */
  lemma OutOfRange(n: nat)
    ensures Number(Print(n, 10)).ok <==> n < 0x1_0000_0000
    ensures Number(Hex(n)).ok <==> n < 0x1_0000_0000
    ensures Decimal(Print(n, 10), FULL).ok <==> n < 0x1_0000_0000
    ensures Decimal(Print(n, 10), 255).ok <==> n < 256
  {
    hide Print, Scan;
    ScanPrint(n, 10);
    ScanPrint(n, 16);
    assert Hex(n)[2..] == Print(n, 16);
    PlainDecimal(n);
  }

  lemma EmptyIsNoNumber()
    ensures !Number("").ok && !Number("0x").ok && !Decimal("", FULL).ok && !Decimal("", 255).ok
  {}

  /** Which addresses a prefix of 8, 24 or 32 bits matches: those with the same leading bits. */
  lemma MatchesMeans(address: U32, other: U32)
    ensures Matches(Some(Net(address, 8)), other) <==> address / 0x100_0000 == other / 0x100_0000
    ensures Matches(Some(Net(address, 24)), other) <==> address / 0x100 == other / 0x100
    ensures Matches(Some(Net(address, 32)), other) <==> address == other
  {
    PowersOfTwo();
    assert Power(0) == 1;
    hide Power;
  }

  /** A malformed mark or mask, a second mark or a second slash is never exact. */
  lemma MarkExactIff(rule: Rule, value: string, mask: string)
    requires '/' !in value
    ensures TakeMark(rule, value).exact <==> rule.exact && !rule.hasMark && Number(value).ok
    ensures TakeMark(rule, value + "/" + mask).exact <==>
            rule.exact && !rule.hasMark && Number(value).ok && Number(mask).ok && '/' !in mask
  {
    var text := value + "/" + mask;
    SlashAfter(value, "");
    assert value + "" == value;
    SlashAfter(value, "/" + mask);
    assert value + ("/" + mask) == text;
    assert text[..|value|] == value && text[|value| + 1..] == mask;
    SlashIff(mask);
    hide Number, Slash;
  }

  lemma {:induction false} SlashIff(text: string)
    ensures Slash(text) == |text| <==> '/' !in text
  {
    if text != "" {
      SlashIff(text[1..]);
      assert text == [text[0]] + text[1..];
    }
  }

  lemma AloneText(mark: U32)
    ensures MarkText(Mark(mark, FULL)) == Hex(mark)
  {
    assert Hex(mark) + "" == Hex(mark);
  }

  lemma HexHasNoSlash(n: U32)
    ensures forall i | 0 <= i < |Hex(n)| :: Hex(n)[i] != '/'
  {
    HexPlain(n);
  }

  lemma MaskedMark(rule: Rule, value: string, rest: string, mark: U32, mask: U32)
    requires !rule.hasMark && Number(value) == Parsed(mark, true) && Number(rest) == Parsed(mask, true)
    requires forall i | 0 <= i < |value| :: value[i] != '/'
    requires forall i | 0 <= i < |rest| :: rest[i] != '/'
    ensures TakeMark(rule, value + "/" + rest) == rule.(mark := mark, mask := mask, hasMark := true)
  {
    hide Number, Slash;
    SlashAfter(value, "/" + rest);
    SlashAfter(rest, "");
    var text := value + ("/" + rest);
    assert rest + "" == rest && value + "/" + rest == text;
    assert text[..|value|] == value && text[|value| + 1..] == rest;
  }

  /** A line without its priority is no rule, a word alone at the end is not exact, and nothing else decides. */
  lemma LineAnswers(line: seq<string>)
    ensures ParseRule(line).Some? <==>
            line != [] && line[0] != "" && line[0][|line[0]| - 1] == ':' && Decimal(line[0][..|line[0]| - 1], FULL).ok
    ensures ParseRule(line).Some? ==>
              var rule := ParseRule(line).value;
              rule.exact ==> rule.hasFrom && rule.hasMark && rule.hasTable
  {
    hide Fields, Decimal;
  }

  lemma LoneWord(rule: Rule, word: string)
    ensures Fields(rule, [word]) == rule.(exact := false)
  {}

  /** The rule that an installation leaves, as it is listed and read: octet 0x56 in the mark, no other selector. */
  lemma InstalledLine()
    ensures Line(Protected(Identity(24567, 0x5601_2345, 24567), None))
            == ["24567:", "from", "all", "fwmark", "0x56012345", "lookup", "24567"]
  {
    DecimalText();
    HexText();
    hide Print, Hex;
    var r := Protected(Identity(24567, 0x5601_2345, 24567), None);
    AloneText(0x5601_2345);
    assert EndWords(r) == ["lookup", "24567"] by { assert [] + (["lookup", "24567"] + []) == ["lookup", "24567"]; }
    assert FromIif(r) == [] + ([] + EndWords(r)) == ["lookup", "24567"];
    assert FromMark(r) == ["fwmark", "0x56012345"] + ["lookup", "24567"];
    assert FromTos(r) == [] + FromMark(r);
    assert FromSource(r) == ["from", "all"] + ([] + FromTos(r));
    assert Words(r) == [] + FromSource(r) && "24567" + ":" == "24567:";
  }

  lemma LastDigit(n: nat, high: nat, d: nat, base: nat)
    requires 2 <= base <= 16 && n / base == high && n % base == d
    ensures n >= base ==> Print(n, base) == Print(high, base) + [DigitChar(d)]
    ensures n < base ==> Print(n, base) == [DigitChar(n)]
  {
    hide DigitChar;
  }

  lemma DecimalText()
    ensures Print(24567, 10) == "24567"
  {
    hide Print;
    LastDigit(2, 0, 2, 10);
    LastDigit(24, 2, 4, 10);
    LastDigit(245, 24, 5, 10);
    LastDigit(2456, 245, 6, 10);
    LastDigit(24567, 2456, 7, 10);
    assert "2" + "4" + "5" + "6" + "7" == "24567";
  }

  lemma HexText()
    ensures Hex(0x5601_2345) == "0x56012345"
  {
    hide Print;
    LastDigit(0x5, 0, 5, 16);
    LastDigit(0x56, 0x5, 6, 16);
    LastDigit(0x560, 0x56, 0, 16);
    LastDigit(0x5601, 0x560, 1, 16);
    LastDigit(0x56012, 0x5601, 2, 16);
    LastDigit(0x560123, 0x5_6012, 3, 16);
    LastDigit(0x5601234, 0x56_0123, 4, 16);
    LastDigit(0x56012345, 0x560_1234, 5, 16);
    assert "5" + "6" + "0" + "1" + "2" + "3" + "4" + "5" == "56012345";
    assert "0x" + "56012345" == "0x56012345";
  }

  /** A source prefix as it is printed. */
  lemma PrefixText()
    ensures NetText(Some(Net(10 * 0x100_0000, 8))) == "10.0.0.0/8"
    ensures NetText(Some(Net(10 * 0x100_0000 + 1, 32))) == "10.0.0.1"
  {
    assert Print(10, 10) == "10" by { assert Print(1, 10) == "1"; }
    assert Print(0, 10) == "0" && Print(8, 10) == "8" && Print(1, 10) == "1";
    hide Print;
    DottedText(10 * 0x100_0000, 10, 0, 0, 0);
    DottedText(10 * 0x100_0000 + 1, 10, 0, 0, 1);
    assert Dotted(10 * 0x100_0000) == "10" + "." + "0" + "." + "0" + "." + "0" == "10.0.0.0";
    assert Dotted(10 * 0x100_0000 + 1) == "10" + "." + "0" + "." + "0" + "." + "1" == "10.0.0.1";
    hide Dotted;
    assert "10.0.0.0" + ("/" + "8") == "10.0.0.0/8";
    assert "10.0.0.1" + "" == "10.0.0.1";
  }

  /** Selectors as they are printed: one port alone, two ports as a range, users always as a range. */
  lemma SelectorText(quality: Quality, low: nat, high: nat)
    ensures var text := SelectorWords([Selector(quality, low, high)])[1];
            && (quality != UidRange && low == high ==> text == Print(low, 10))
            && (quality == UidRange || low != high ==> text == Print(low, 10) + "-" + Print(high, 10))
  {}

  lemma GotoText(n: nat, resolved: bool)
    requires n < 0x1_0000_0000
    ensures TargetWords(Goto(n, resolved))
            == if resolved then ["goto", Print(n, 10)] else ["goto", Print(n, 10), "[unresolved]"]
  {}

  /** Both alphabets of hexadecimal digits are read. */
  lemma DigitsMean(d: nat)
    requires d < 16
    ensures DigitValue("0123456789abcdef"[d]) == DigitValue("0123456789ABCDEF"[d]) == Some(d)
  {}

  lemma DottedText(n: U32, a: nat, b: nat, c: nat, d: nat)
    requires n / 0x100_0000 == a && n / 0x1_0000 % 0x100 == b && n / 0x100 % 0x100 == c && n % 0x100 == d
    ensures Dotted(n) == Print(a, 10) + "." + Print(b, 10) + "." + Print(c, 10) + "." + Print(d, 10)
  {
    hide Print;
  }

  /** What a delete compares: priority, mark, table, and the protocol if one is given; everything else is a wildcard. */
  lemma DeleteCompares(r: KernelRule, id: Identity, protocol: Option<U32>)
    ensures Deletable(r, id, protocol) <==>
            && r.priority == id.priority && r.mark == Some(Mark(id.mark, 0xFFFF_FFFF))
            && r.target.Lookup? && r.target.table == id.table && (protocol.None? || r.protocol == protocol)
  {}

  lemma {:induction false} DeletesOne(rules: seq<KernelRule>, id: Identity, protocol: Option<U32>, k: nat)
    requires k < |rules| && Deletable(rules[k], id, protocol)
    requires forall i | 0 <= i < k :: !Deletable(rules[i], id, protocol)
    ensures DeleteFirst(rules, id, protocol) == rules[..k] + rules[k + 1..]
  {
    hide Deletable;
    if k > 0 {
      DeletesOne(rules[1..], id, protocol, k - 1);
      assert rules[1..][..k - 1] == rules[1..k] && rules[1..][k..] == rules[k + 1..];
      assert [rules[0]] + rules[1..k] == rules[..k];
    }
  }

  /** An added rule stands behind every rule of the same or a smaller priority and ahead of the others. */
  lemma {:induction false} AddedInPlace(rules: seq<KernelRule>, r: KernelRule) returns (k: nat)
    ensures k <= |rules| && Insert(rules, r) == rules[..k] + [r] + rules[k..]
    ensures (forall i | 0 <= i < k :: rules[i].priority <= r.priority)
            && (k < |rules| ==> r.priority < rules[k].priority)
  {
    if rules == [] || r.priority < rules[0].priority {
      k := 0;
    } else {
      var n := AddedInPlace(rules[1..], r);
      k := n + 1;
      assert rules[..k] == [rules[0]] + rules[1..][..n] && rules[k..] == rules[1..][n..];
    }
  }

  lemma {:induction false} ForeignMembers(rules: seq<KernelRule>, id: Identity, r: KernelRule)
    ensures r in Foreign(rules, id) <==> r in rules && !IsOwned(r, id)
  {
    hide IsOwned;
    if rules != [] { ForeignMembers(rules[1..], id, r); }
  }

  /** A rule for a source or a destination prefix survives every teardown of a table without exposed rules. */
  lemma PrefixRuleSurvives(before: seq<KernelRule>, after: seq<KernelRule>, id: Identity, ok: bool, r: KernelRule)
    requires TornDown(before, after, id, ok) && !Exposed(before, id)
    requires r in before && (r.src.Some? || r.dst.Some?)
    ensures r in after
  {
    hide TornDown, Exposed, IsOwned, Foreign;
    OwnedIsForEveryPacket(r, id);
    TeardownSparesForeign(before, after, id, ok);
    ForeignMembers(before, id, r);
    ForeignMembers(after, id, r);
  }
}
