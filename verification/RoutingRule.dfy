/**
 The protected routing rule: recognising this interface's own rule in the output of `ip -N rule show`,
 installing it, and removing it with a kernel delete that treats every omitted selector as a wildcard.
 */
module RoutingRule {
  import opened Results

  type U32 = x: int | 0 <= x < 0x1_0000_0000
  const FULL: U32 := 0xFFFF_FFFF

  // ---- Numbers in text ------------------------------------------------------------------------

  function DigitChar(d: nat): char
    requires d < 16
  {
    "0123456789abcdef"[d]
  }

  function DigitValue(c: char): Option<nat> {
    if '0' <= c <= '9' then Some((c - '0') as nat)
    else if 'a' <= c <= 'f' then Some((c - 'a') as nat + 10)
    else if 'A' <= c <= 'F' then Some((c - 'A') as nat + 10)
    else None
  }

  function Print(n: nat, base: nat): string
    requires 2 <= base <= 16
  {
    if n < base then [DigitChar(n)] else Print(n / base, base) + [DigitChar(n % base)]
  }

  function Scan(text: string, base: nat): Option<nat>
    requires 2 <= base <= 16
  {
    if text == "" then Some(0)
    else
      match (Scan(text[..|text| - 1], base), DigitValue(text[|text| - 1]))
      case (Some(high), Some(d)) => if d < base then Some(high * base + d) else None
      case _ => None
  }

  lemma DigitRoundTrip(d: nat)
    requires d < 16
    ensures DigitValue(DigitChar(d)) == Some(d) && DigitChar(d) != '/'
    ensures d < 10 ==> '0' <= DigitChar(d) <= '9'
  {
    assert DigitChar(d) == "0123456789abcdef"[d];
  }

  lemma ScanLast(high: string, n: nat, d: nat, base: nat)
    requires 2 <= base <= 16 && d < base && Scan(high, base) == Some(n)
    ensures Scan(high + [DigitChar(d)], base) == Some(n * base + d)
  {
    DigitRoundTrip(d);
    var text := high + [DigitChar(d)];
    assert text[..|text| - 1] == high;
  }

  lemma {:induction false} ScanPrint(n: nat, base: nat)
    requires 2 <= base <= 16
    ensures Print(n, base) != "" && Scan(Print(n, base), base) == Some(n)
  {
    hide DigitChar, DigitValue, Scan;
    if n < base {
      assert Scan("", base) == Some(0) by { EmptyScan(base); }
      ScanLast("", 0, n, base);
      assert "" + [DigitChar(n)] == [DigitChar(n)];
    } else {
      ScanPrint(n / base, base);
      ScanLast(Print(n / base, base), n / base, n % base, base);
      assert n == (n / base) * base + n % base;
    }
  }

  lemma EmptyScan(base: nat)
    requires 2 <= base <= 16
    ensures Scan("", base) == Some(0)
  {}

  datatype Parsed = Parsed(value: U32, ok: bool)

  // An unsigned number of at most 32 bits: zero on a bad digit, all ones when it is out of range.
  function Bounded(n: Option<nat>, limit: nat): Parsed
    requires limit < 0x1_0000_0000
  {
    match n
    case None => Parsed(0, false)
    case Some(v) => if v <= limit then Parsed(v, true) else Parsed(limit, false)
  }

  function Decimal(text: string, limit: nat): Parsed
    requires limit < 0x1_0000_0000
  {
    Bounded(if text == "" then None else Scan(text, 10), limit)
  }

  // parseRuleNumber: hexadecimal after 0x, and decimal otherwise.
  function Number(text: string): Parsed {
    if |text| >= 2 && text[0] == '0' && (text[1] == 'x' || text[1] == 'X')
    then Bounded(if |text| == 2 then None else Scan(text[2..], 16), FULL)
    else Decimal(text, FULL)
  }

  function Hex(n: nat): string { "0x" + Print(n, 16) }

  lemma NumbersRoundTrip(n: U32)
    ensures Number(Hex(n)) == Parsed(n, true) && Number(Print(n, 10)) == Parsed(n, true)
    ensures Decimal(Print(n, 10), FULL) == Parsed(n, true)
    ensures n < 256 ==> Decimal(Print(n, 10), 255) == Parsed(n, true)
  {
    ScanPrint(n, 16);
    ScanPrint(n, 10);
    assert Hex(n)[2..] == Print(n, 16);
    PlainDecimal(n);
  }

  lemma {:induction false} PlainDecimal(n: nat)
    ensures forall i | 0 <= i < |Print(n, 10)| :: '0' <= Print(n, 10)[i] <= '9'
  {
    hide DigitChar;
    DigitRoundTrip(n % 10);
    if n >= 10 { PlainDecimal(n / 10); }
  }

  // ---- The parser -------------------------------------------------------------------------------

  datatype Rule = Rule(
    priority: U32, mark: U32, mask: U32, table: U32,
    hasMark: bool, hasTable: bool, hasFrom: bool, exact: bool, protocol: Option<U32>)

  predicate Everything(value: string) { value == "all" || value == "0.0.0.0/0" }

  function Slash(value: string): (i: nat)
    ensures i <= |value|
  {
    if value == "" || value[0] == '/' then 0 else 1 + Slash(value[1..])
  }

  // The fwmark value: a mark, or a mark and a mask.
  function TakeMark(rule: Rule, value: string): Rule {
    var cut := Slash(value);
    var mark := Number(value[..cut]);
    var masked := cut < |value|;
    var rest := if masked then value[cut + 1..] else "";
    var single := Slash(rest) == |rest|;
    var mask := Number(rest);
    rule.(
      exact := rule.exact && !rule.hasMark && mark.ok && (!masked || (single && mask.ok)),
      mark := mark.value, hasMark := mark.ok,
      mask := if masked && single then mask.value else rule.mask)
  }

  function TakeTable(rule: Rule, value: string): Rule {
    var table := Number(value);
    rule.(exact := rule.exact && !rule.hasTable && table.ok, table := table.value, hasTable := table.ok)
  }

  function TakeProtocol(rule: Rule, value: string): Rule {
    var protocol := Decimal(value, 255);
    if !protocol.ok || rule.protocol.Some? then rule.(exact := false) else rule.(protocol := Some(protocol.value))
  }

  const KEYWORDS := {"from", "to", "fwmark", "lookup", "table", "protocol", "proto"}

  function Take(rule: Rule, key: string, value: string): Rule
    requires key in KEYWORDS
  {
    if key == "from" then rule.(exact := rule.exact && !rule.hasFrom && Everything(value), hasFrom := true)
    else if key == "to" then rule.(exact := rule.exact && Everything(value))
    else if key == "fwmark" then TakeMark(rule, value)
    else if key == "lookup" || key == "table" then TakeTable(rule, value)
    else TakeProtocol(rule, value)
  }

  // The fields after the priority, from left to right.
  function Fields(rule: Rule, fields: seq<string>): Rule
    decreases |fields|
  {
    if fields == [] then rule
    else if |fields| == 1 then rule.(exact := false)
    else if fields[0] in KEYWORDS then Fields(Take(rule, fields[0], fields[1]), fields[2..])
    else Fields(rule.(exact := false), fields[1..])
  }

  function Blank(priority: U32): Rule { Rule(priority, 0, FULL, 0, false, false, false, true, None) }

  function Closed(rule: Rule): Rule {
    rule.(exact := rule.exact && rule.hasFrom && rule.hasMark && rule.hasTable)
  }

  // parseExportProxyRule on the fields of one line.
  function ParseRule(line: seq<string>): Option<Rule> {
    if line == [] || line[0] == "" || line[0][|line[0]| - 1] != ':' then None
    else
      var priority := Decimal(line[0][..|line[0]| - 1], FULL);
      if !priority.ok then None else Some(Closed(Fields(Blank(priority.value), line[1..])))
  }

  method ParseExportProxyRule(line: seq<string>) returns (r: Option<Rule>)
    ensures r == ParseRule(line)
  {
    if line == [] || line[0] == "" || line[0][|line[0]| - 1] != ':' { return None; }
    var priority := Decimal(line[0][..|line[0]| - 1], FULL);
    if !priority.ok { return None; }
    var rule := Blank(priority.value);
    var index := 1;
    while index < |line|
      invariant 1 <= index <= |line|
      invariant Fields(rule, line[index..]) == Fields(Blank(priority.value), line[1..])
      decreases |line| - index
    {
      if index + 1 == |line| {
        rule := rule.(exact := false);
        break;
      }
      var key, value := line[index], line[index + 1];
      if key in KEYWORDS {
        assert line[index..][2..] == line[index + 2..];
        rule := Take(rule, key, value);
        index := index + 2;
      } else {
        assert line[index..][1..] == line[index + 1..];
        rule := rule.(exact := false);
        index := index + 1;
      }
    }
    return Some(Closed(rule));
  }

  datatype Identity = Identity(priority: U32, mark: U32, table: U32)

  predicate SameIdentity(rule: Rule, id: Identity) {
    && rule.priority == id.priority && rule.hasMark && rule.hasTable
    && rule.mark == id.mark && rule.table == id.table && rule.mask == FULL
  }

  // matchingExportProxyRules: this interface's own rules, and whether another rule shares their identity.
  function Owned(lines: seq<seq<string>>, id: Identity): seq<Rule> {
    if lines == [] then []
    else
      (match ParseRule(lines[0])
       case None => []
       case Some(rule) => if SameIdentity(rule, id) && rule.exact then [rule] else [])
      + Owned(lines[1..], id)
  }

  function Conflict(lines: seq<seq<string>>, id: Identity): bool {
    lines != []
    && ((match ParseRule(lines[0])
         case None => false
         case Some(rule) => SameIdentity(rule, id) && !rule.exact)
        || Conflict(lines[1..], id))
  }

  lemma MatchStep(lines: seq<seq<string>>, i: nat, id: Identity, owned: seq<Rule>)
    requires i < |lines|
    ensures var mine := match ParseRule(lines[i])
                        case None => []
                        case Some(rule) => if SameIdentity(rule, id) && rule.exact then [rule] else [];
            owned + Owned(lines[i..], id) == (owned + mine) + Owned(lines[i + 1..], id)
    ensures var other := match ParseRule(lines[i])
                         case None => false
                         case Some(rule) => SameIdentity(rule, id) && !rule.exact;
            Conflict(lines[i..], id) <==> other || Conflict(lines[i + 1..], id)
  {
    hide ParseRule, SameIdentity;
    var rest := lines[i..];
    assert rest[0] == lines[i] && rest[1..] == lines[i + 1..];
  }

  lemma MatchEnds(id: Identity, owned: seq<Rule>)
    ensures owned + Owned([], id) == owned && !Conflict([], id)
  {}

  method MatchingExportProxyRules(lines: seq<seq<string>>, id: Identity) returns (owned: seq<Rule>, conflict: bool)
    ensures owned == Owned(lines, id) && conflict == Conflict(lines, id)
  {
    hide ParseRule, SameIdentity, Owned, Conflict;
    owned, conflict := [], false;
    assert lines[0..] == lines && [] + Owned(lines, id) == Owned(lines, id);
    var i := 0;
    while i < |lines|
      invariant 0 <= i <= |lines|
      invariant owned + Owned(lines[i..], id) == Owned(lines, id)
      invariant conflict || Conflict(lines[i..], id) <==> Conflict(lines, id)
    {
      MatchStep(lines, i, id, owned);
      assert owned + [] == owned;
      var rule := ParseExportProxyRule(lines[i]);
      if rule.Some? && SameIdentity(rule.value, id) {
        if rule.value.exact { owned := owned + [rule.value]; } else { conflict := true; }
      }
      i := i + 1;
    }
    assert lines[i..] == [];
    MatchEnds(id, owned);
  }
}
