/**
 The kernel's rule table and its listing. The words of a rule come in the order in which iproute2 prints them;
 the only ones an administrator chooses freely are the addresses and the names of the two interfaces, and an
 interface that is named like a keyword can put the parser out of step.
 */
module RoutingTable {
  import opened Results
  import opened RoutingRule

  datatype Mark = Mark(value: U32, mask: U32)

  // The addresses that begin with the same `length` bits; a rule without one asks for nothing.
  type Length = x: int | 1 <= x <= 32 witness 32

  datatype Net = Net(address: U32, length: Length)

  function Power(n: nat): (p: nat)
    ensures p > 0
  {
    if n == 0 then 1 else 2 * Power(n - 1)
  }

  predicate Matches(n: Option<Net>, address: U32) {
    n.Some? ==> address / Power(32 - n.value.length) == n.value.address / Power(32 - n.value.length)
  }

  // Whether a packet with this source and destination is within the rule's prefixes.
  predicate Within(r: KernelRule, source: U32, destination: U32) {
    Matches(r.src, source) && Matches(r.dst, destination)
  }

  // `detached` is printed while no interface of that name exists.
  datatype Interface = Interface(name: string, detached: bool)

  datatype Quality = UidRange | IpProto | SourcePort | DestinationPort | TunnelId

  // A further selector, with the number or the range it asks for.
  datatype Selector = Selector(quality: Quality, low: nat, high: nat)

  datatype Suppressor = PrefixLength(length: nat) | InterfaceGroup(group: nat) | Realms(source: nat, target: nat)

  datatype Target =
    | Lookup(table: U32, suppressors: seq<Suppressor>)
    | MasterLookup                     // the table of the interface's layer-3 master
    | Goto(to: U32, resolved: bool)
    | NoOperation | Unreachable | Blackhole | Prohibit

  type Protocol = x: U32 | 0 < x < 256 witness 3

  datatype KernelRule = KernelRule(
    priority: U32, inverted: bool, src: Option<Net>, dst: Option<Net>, tos: Option<nat>, mark: Option<Mark>,
    iif: Option<Interface>, oif: Option<Interface>, selectors: seq<Selector>, target: Target,
    protocol: Option<Protocol>)

  // ---- The listing ----------------------------------------------------------------------------

  function MarkText(m: Mark): string {
    Hex(m.value) + (if m.mask == FULL then "" else "/" + Hex(m.mask))
  }

  function Dotted(address: U32): string {
    Print(address / 0x100_0000, 10) + "." + Print(address / 0x1_0000 % 0x100, 10) + "."
    + Print(address / 0x100 % 0x100, 10) + "." + Print(address % 0x100, 10)
  }

  function NetText(n: Option<Net>): string {
    if n.None? then "all"
    else Dotted(n.value.address) + (if n.value.length == 32 then "" else "/" + Print(n.value.length, 10))
  }

  function Range(low: nat, high: nat, between: string): string {
    Print(low, 10) + (if low == high then "" else between + Print(high, 10))
  }

  function QualityWord(q: Quality): string {
    match q
    case UidRange => "uidrange"
    case IpProto => "ipproto"
    case SourcePort => "sport"
    case DestinationPort => "dport"
    case TunnelId => "tun_id"
  }

  // A range of users is printed with both ends, a range of ports only if it has two.
  function QualityText(s: Selector): string {
    if s.quality == UidRange then Print(s.low, 10) + "-" + Print(s.high, 10) else Range(s.low, s.high, "-")
  }

  function SelectorWords(selectors: seq<Selector>): seq<string> {
    if selectors == [] then []
    else
      [QualityWord(selectors[0].quality), QualityText(selectors[0])]
      + SelectorWords(selectors[1..])
  }

  function SuppressorWords(s: Suppressor): seq<string> {
    match s
    case PrefixLength(n) => ["suppress_prefixlength", Print(n, 10)]
    case InterfaceGroup(n) => ["suppress_ifgroup", Print(n, 10)]
    case Realms(a, b) => ["realms", Range(a, b, "/")]
  }

  function AllSuppressors(ss: seq<Suppressor>): seq<string> {
    if ss == [] then [] else SuppressorWords(ss[0]) + AllSuppressors(ss[1..])
  }

  function DetachedWord(detached: bool): seq<string> { if detached then ["[detached]"] else [] }

  function InterfaceWords(key: string, i: Option<Interface>): seq<string> {
    if i.None? then [] else [key, i.value.name] + DetachedWord(i.value.detached)
  }

  // The lookup pair, if there is one, and the words after it.
  function LookupWords(t: Target): seq<string> {
    match t
    case Lookup(table, _) => ["lookup", Print(table, 10)]
    case MasterLookup => ["lookup", "[l3mdev-table]"]
    case _ => []
  }

  function TargetWords(t: Target): seq<string> {
    match t
    case Lookup(_, suppressors) => AllSuppressors(suppressors)
    case MasterLookup => []
    case Goto(n, resolved) => ["goto", Print(n, 10)] + (if resolved then [] else ["[unresolved]"])
    case NoOperation => ["nop"]
    case Unreachable => ["unreachable"]
    case Blackhole => ["blackhole"]
    case Prohibit => ["prohibit"]
  }

  function ProtocolWords(p: Option<Protocol>): seq<string> {
    if p.Some? then ["proto", Print(p.value, 10)] else []
  }

  // Only the master's table is printed before the selectors.
  function EndWords(r: KernelRule): seq<string> {
    if r.target.MasterLookup? then LookupWords(r.target) + (SelectorWords(r.selectors) + ProtocolWords(r.protocol))
    else
      SelectorWords(r.selectors)
      + (LookupWords(r.target) + (TargetWords(r.target) + ProtocolWords(r.protocol)))
  }

  function FromOif(r: KernelRule): seq<string> { InterfaceWords("oif", r.oif) + EndWords(r) }

  function FromIif(r: KernelRule): seq<string> { InterfaceWords("iif", r.iif) + FromOif(r) }

  function FromMark(r: KernelRule): seq<string> {
    (if r.mark.Some? then ["fwmark", MarkText(r.mark.value)] else []) + FromIif(r)
  }

  function FromTos(r: KernelRule): seq<string> {
    (if r.tos.Some? then ["tos", Hex(r.tos.value)] else []) + FromMark(r)
  }

  function FromSource(r: KernelRule): seq<string> {
    ["from", NetText(r.src)] + ((if r.dst.Some? then ["to", NetText(r.dst)] else []) + FromTos(r))
  }

  function Words(r: KernelRule): seq<string> {
    (if r.inverted then ["not"] else []) + FromSource(r)
  }

  function Line(r: KernelRule): seq<string> { [Print(r.priority, 10) + ":"] + Words(r) }

  function Listing(rules: seq<KernelRule>): seq<seq<string>> {
    seq(|rules|, i requires 0 <= i < |rules| => Line(rules[i]))
  }

  predicate Plain(r: KernelRule) {
    && !r.inverted && r.src.None? && r.dst.None? && r.tos.None?
    && r.iif.None? && r.oif.None? && r.selectors == [] && r.target.Lookup? && r.target.suppressors == []
  }

  // ---- Reading the listing back --------------------------------------------------------------

  lemma {:induction false} HexPlain(n: nat)
    ensures forall i | 0 <= i < |Print(n, 16)| :: Print(n, 16)[i] != '/'
  {
    hide DigitChar;
    DigitRoundTrip(n % 16);
    if n >= 16 { HexPlain(n / 16); }
  }

  lemma {:induction false} SlashAfter(text: string, rest: string)
    requires forall i | 0 <= i < |text| :: text[i] != '/'
    requires rest == "" || rest[0] == '/'
    ensures Slash(text + rest) == |text|
  {
    if text == "" {
      assert text + rest == rest;
    } else {
      SlashAfter(text[1..], rest);
      assert (text + rest)[1..] == text[1..] + rest;
    }
  }

  lemma MarkRoundTrip(rule: Rule, m: Mark)
    requires !rule.hasMark && rule.mask == FULL
    ensures TakeMark(rule, MarkText(m)) == rule.(mark := m.value, mask := m.mask, hasMark := true)
  {
    hide Print, Number, Slash;
    var value, mask := Hex(m.value), Hex(m.mask);
    HexPlain(m.value);
    HexPlain(m.mask);
    NumbersRoundTrip(m.value);
    NumbersRoundTrip(m.mask);
    SlashAfter(mask, "");
    assert mask + "" == mask;
    var tail := if m.mask == FULL then "" else "/" + mask;
    SlashAfter(value, tail);
    var text := MarkText(m);
    assert text == value + tail && text[..|value|] == value;
    assert m.mask != FULL ==> text[|value| + 1..] == mask;
  }

  lemma TakePair(rule: Rule, key: string, value: string, rest: seq<string>)
    requires key in KEYWORDS
    ensures Fields(rule, [key, value] + rest) == Fields(Take(rule, key, value), rest)
  {
    var fields := [key, value] + rest;
    assert fields[2..] == rest;
  }

  lemma {:induction false} SkipWords(rule: Rule, words: seq<string>, rest: seq<string>)
    requires forall i | 0 <= i < |words| :: words[i] !in KEYWORDS
    ensures Fields(rule, words + rest) == Fields(rule.(exact := rule.exact && words == []), rest)
    decreases |words|
  {
    hide Take;
    if words == [] {
      assert words + rest == rest;
    } else {
      SkipWords(rule.(exact := false), words[1..], rest);
      assert (words + rest)[1..] == words[1..] + rest;
      if |words + rest| == 1 { assert rest == []; }
    }
  }

  // A word that is neither a keyword's name nor a number: it starts with no digit and has no slash.
  predicate Wordy(w: string) { w != "" && !('0' <= w[0] <= '9') && Slash(w) == |w| }

  lemma {:induction false} NoDigitNoNumber(w: string)
    requires w != "" && !('0' <= w[0] <= '9')
    ensures Scan(w, 10).None?
    decreases |w|
  {
    if |w| > 1 {
      NoDigitNoNumber(w[..|w| - 1]);
    } else {
      assert w[..0] == "" && w[|w| - 1] == w[0];
    }
  }

  lemma WordyIsNoNumber(w: string)
    requires Wordy(w)
    ensures Number(w) == Parsed(0, false) && Decimal(w, 255) == Parsed(0, false)
  {
    NoDigitNoNumber(w);
  }

  // What a keyword costs a rule that is narrowed already, when it takes such a word as its value.
  function Touched(rule: Rule, name: string): Rule {
    if name == "fwmark" then rule.(mark := 0, hasMark := false)
    else if name == "lookup" || name == "table" then rule.(table := 0, hasTable := false)
    else if name == "from" then rule.(hasFrom := true)
    else rule
  }

  lemma TakesWord(rule: Rule, name: string, w: string)
    requires !rule.exact && name in KEYWORDS && Wordy(w)
    ensures Take(rule, name, w) == Touched(rule, name)
  {
    hide Number, Decimal, Slash;
    WordyIsNoNumber(w);
    assert w[..|w|] == w;
    assert Slash("") == 0 by { EmptySlash(); }
  }

  lemma EmptySlash()
    ensures Slash("") == 0
  {}

  // The name of an interface, and what follows it: a keyword takes the next word with it.
  lemma PastName(rule: Rule, key: string, i: Interface, next: string, rest: seq<string>)
    requires key !in KEYWORDS && Wordy(next) && Wordy("[detached]") && "[detached]" !in KEYWORDS
    requires next in KEYWORDS ==> rest != []
    ensures var after := rule.(exact := false);
            Fields(rule, InterfaceWords(key, Some(i)) + ([next] + rest)) ==
              if i.name !in KEYWORDS then Fields(after, [next] + rest)
              else if i.detached || next !in KEYWORDS then Fields(Touched(after, i.name), [next] + rest)
              else Fields(Touched(after, i.name), rest)
  {
    hide Take, Fields, Touched;
    var after := rule.(exact := false);
    var mine := DetachedWord(i.detached) + ([next] + rest);
    assert InterfaceWords(key, Some(i)) + ([next] + rest) == [key] + ([i.name] + mine);
    SkipWords(rule, [key], [i.name] + mine);
    if i.name !in KEYWORDS {
      SkipWords(after, [i.name], mine);
      SkipWords(after, DetachedWord(i.detached), [next] + rest);
    } else if i.detached {
      assert [i.name] + mine == [i.name, "[detached]"] + ([next] + rest);
      TakePair(after, i.name, "[detached]", [next] + rest);
      TakesWord(after, i.name, "[detached]");
    } else {
      assert [i.name] + mine == [i.name, next] + rest;
      TakePair(after, i.name, next, rest);
      TakesWord(after, i.name, next);
      TouchedStays(after, i.name);
      if next !in KEYWORDS { SkipWords(Touched(after, i.name), [next], rest); }
    }
  }

  lemma TouchedStays(rule: Rule, name: string)
    requires !rule.exact
    ensures !Touched(rule, name).exact && Touched(rule, name).(exact := false) == Touched(rule, name)
  {}

  // ---- The words that are no keywords ----------------------------------------------------------

  lemma {:induction false} PrintStartsWithDigit(n: nat)
    ensures Print(n, 10) != "" && '0' <= Print(n, 10)[0] <= '9'
  {
    hide DigitChar;
    DigitRoundTrip(n % 10);
    if n >= 10 { PrintStartsWithDigit(n / 10); }
  }

  lemma NoKeyword(w: string)
    requires w != "" && w[0] !in "ftlp"
    ensures w !in KEYWORDS
  {
    assert forall k | k in KEYWORDS :: k != "" && k[0] in "ftlp";
  }

  lemma DigitNoKeyword(w: string)
    requires w != "" && '0' <= w[0] <= '9'
    ensures w !in KEYWORDS
  {
    NoKeyword(w);
  }

  lemma NumbersAreNoKeywords(low: nat, high: nat, between: string)
    ensures Print(low, 10) !in KEYWORDS && Range(low, high, between) !in KEYWORDS
    ensures Print(low, 10) + between + Print(high, 10) !in KEYWORDS
  {
    hide Print;
    PrintStartsWithDigit(low);
    DigitNoKeyword(Print(low, 10));
    DigitNoKeyword(Print(low, 10) + between + Print(high, 10));
    DigitNoKeyword(Range(low, high, between));
  }

  lemma QualityIsWordy(q: Quality)
    ensures Wordy(QualityWord(q)) && QualityWord(q) !in KEYWORDS
  {
    NoSlash(QualityWord(q));
  }

  lemma {:induction false} NoSlash(w: string)
    requires forall i | 0 <= i < |w| :: w[i] != '/'
    ensures Slash(w) == |w|
  {
    SlashAfter(w, "");
    assert w + "" == w;
  }

  // A printed word of ours with a first letter that no keyword and no number has.
  lemma Apart(w: string)
    requires w != "" && w[0] !in "ftlp" && !('0' <= w[0] <= '9') && '/' !in w
    ensures Wordy(w) && w !in KEYWORDS
  {
    NoSlash(w);
    NoKeyword(w);
  }

  lemma FixedWords()
    ensures Wordy("oif") && "oif" !in KEYWORDS && "iif" !in KEYWORDS && "not" !in KEYWORDS && "tos" !in KEYWORDS
    ensures Wordy("[detached]") && "[detached]" !in KEYWORDS && Wordy("[l3mdev-table]") && "[l3mdev-table]" !in KEYWORDS
    ensures Wordy("lookup")
  {
    hide Wordy, KEYWORDS;
    Apart("oif");
    Apart("iif");
    Apart("not");
    Apart("[detached]");
    Apart("[l3mdev-table]");
    TosAndLookup();
  }

  lemma TosAndLookup()
    ensures "tos" !in KEYWORDS && Wordy("lookup")
  {
    assert forall k | k in KEYWORDS :: |k| != 3;
    assert |"tos"| == 3;
    NoSlash("lookup");
  }

  predicate NoKeywords(words: seq<string>) { forall i | 0 <= i < |words| :: words[i] !in KEYWORDS }

  lemma {:induction false} SelectorsAreNoKeywords(selectors: seq<Selector>)
    ensures NoKeywords(SelectorWords(selectors)) && (SelectorWords(selectors) == [] <==> selectors == [])
  {
    hide Range, QualityWord;
    if selectors != [] {
      SelectorsAreNoKeywords(selectors[1..]);
      QualityIsWordy(selectors[0].quality);
      NumbersAreNoKeywords(selectors[0].low, selectors[0].high, "-");
    }
  }

  lemma {:induction false} SuppressorsAreNoKeywords(ss: seq<Suppressor>)
    ensures NoKeywords(AllSuppressors(ss)) && (AllSuppressors(ss) == [] <==> ss == [])
  {
    hide Range, Print;
    if ss != [] {
      SuppressorsAreNoKeywords(ss[1..]);
      match ss[0] {
        case PrefixLength(n) => NumbersAreNoKeywords(n, n, "/");
        case InterfaceGroup(n) => NumbersAreNoKeywords(n, n, "/");
        case Realms(a, b) => NumbersAreNoKeywords(a, b, "/");
      }
    }
  }

  lemma TargetIsNoKeyword(t: Target)
    ensures NoKeywords(TargetWords(t))
    ensures TargetWords(t) == [] <==> t.MasterLookup? || (t.Lookup? && t.suppressors == [])
  {
    hide Print;
    if t.Lookup? { SuppressorsAreNoKeywords(t.suppressors); }
    if t.Goto? { NumbersAreNoKeywords(t.to, t.to, "/"); }
  }

  // ---- What the parser makes of a listed rule --------------------------------------------------

  predicate Keyword(i: Option<Interface>) { i.Some? && i.value.name in KEYWORDS }

  // A name that takes the following word with it, if that is a keyword too.
  predicate Swallows(i: Option<Interface>) { Keyword(i) && !i.value.detached }

  predicate LookupComesFirst(r: KernelRule) { r.target.MasterLookup? || (r.target.Lookup? && r.selectors == []) }

  // The last interface name stands right before `lookup` and takes that word.
  predicate TableLost(r: KernelRule) {
    LookupComesFirst(r) && Swallows(if r.oif.Some? then r.oif else r.iif)
  }

  predicate Named(i: Option<Interface>, name: string) { i.Some? && i.value.name == name }

  predicate MarkLost(r: KernelRule) { Named(r.iif, "fwmark") || Named(r.oif, "fwmark") }

  function Reading(r: KernelRule): Rule {
    var marked := r.mark.Some? && !MarkLost(r);
    var tabled := r.target.Lookup? && !TableLost(r);
    Rule(
      r.priority,
      if marked then r.mark.value.value else 0,
      if r.mark.Some? then r.mark.value.mask else FULL,
      if tabled then r.target.table else 0,
      marked, tabled, true,
      Plain(r) && r.mark.Some?,
      r.protocol)
  }

  lemma ProtocolRead(u: Rule, p: Option<Protocol>)
    requires u.protocol.None?
    ensures Fields(u, ProtocolWords(p)) == u.(protocol := p)
  {
    hide Fields, Print, Decimal;
    if p.Some? {
      assert ProtocolWords(p) == ["proto", Print(p.value, 10)] + [];
      TakePair(u, "proto", Print(p.value, 10), []);
      NumbersRoundTrip(p.value);
      NoFields(u.(protocol := p));
    } else {
      NoFields(u);
    }
  }

  lemma NoFields(rule: Rule)
    ensures Fields(rule, []) == rule
  {}

  // The end of a line, read in step.
  lemma EndRead(u: Rule, r: KernelRule)
    requires !u.hasTable && u.table == 0 && u.protocol.None?
    ensures Fields(u, EndWords(r)) ==
            u.(table := if r.target.Lookup? then r.target.table else 0, hasTable := r.target.Lookup?,
               protocol := r.protocol,
               exact := u.exact && r.selectors == [] && r.target.Lookup? && r.target.suppressors == [])
  {
    hide Fields, Print, Number, SelectorWords, TargetWords, ProtocolWords;
    SelectorsAreNoKeywords(r.selectors);
    TargetIsNoKeyword(r.target);
    var selectors, protocol := SelectorWords(r.selectors), ProtocolWords(r.protocol);
    if r.target.MasterLookup? {
      TakePair(u, "lookup", "[l3mdev-table]", selectors + protocol);
      FixedWords();
      WordyIsNoNumber("[l3mdev-table]");
      var v := u.(exact := false);
      assert Take(u, "lookup", "[l3mdev-table]") == v;
      SkipWords(v, selectors, protocol);
      ProtocolRead(v, r.protocol);
    } else {
      var tail := TargetWords(r.target) + protocol;
      SkipWords(u, selectors, LookupWords(r.target) + tail);
      var v := u.(exact := u.exact && selectors == []);
      if r.target.Lookup? {
        TakePair(v, "lookup", Print(r.target.table, 10), tail);
        NumbersRoundTrip(r.target.table);
        var w := v.(table := r.target.table, hasTable := true);
        assert Take(v, "lookup", Print(r.target.table, 10)) == w;
        SkipWords(w, TargetWords(r.target), protocol);
        ProtocolRead(w.(exact := w.exact && TargetWords(r.target) == []), r.protocol);
      } else {
        assert LookupWords(r.target) + tail == tail;
        SkipWords(v, TargetWords(r.target), protocol);
        ProtocolRead(v.(exact := false), r.protocol);
      }
    }
  }

  // The same after the word `lookup` has been taken away: no table is found any more.
  lemma EndReadWithoutLookup(u: Rule, r: KernelRule)
    requires !u.exact && u.protocol.None? && LookupComesFirst(r)
    ensures EndWords(r) != [] && EndWords(r)[0] == "lookup" && |EndWords(r)| > 1
    ensures Fields(u, EndWords(r)[1..]) == u.(protocol := r.protocol)
  {
    hide Fields, KEYWORDS;
    if r.target.MasterLookup? {
      hide Print;
      var rest := SelectorWords(r.selectors) + ProtocolWords(r.protocol);
      assert EndWords(r)[1..] == ["[l3mdev-table]"] + rest;
      SelectorsAreNoKeywords(r.selectors);
      FixedWords();
      SkipThrough(u, "[l3mdev-table]", SelectorWords(r.selectors), r.protocol);
    } else {
      var rest := TargetWords(r.target) + ProtocolWords(r.protocol);
      var table := Print(r.target.table, 10);
      assert SelectorWords(r.selectors) == [];
      assert EndWords(r) == ["lookup"] + ([table] + rest);
      TargetIsNoKeyword(r.target);
      NumbersAreNoKeywords(r.target.table, r.target.table, "");
      SkipThrough(u, table, TargetWords(r.target), r.protocol);
    }
  }

  // A narrowed rule reads over words that are no keywords.
  lemma SkipThrough(u: Rule, first: string, words: seq<string>, p: Option<Protocol>)
    requires !u.exact && u.protocol.None? && first !in KEYWORDS && NoKeywords(words)
    ensures Fields(u, [first] + (words + ProtocolWords(p))) == u.(protocol := p)
  {
    hide Fields, ProtocolWords, KEYWORDS;
    assert u.(exact := false) == u;
    SkipWords(u, [first], words + ProtocolWords(p));
    SkipWords(u, words, ProtocolWords(p));
    ProtocolRead(u, p);
  }

  lemma EndStarts(r: KernelRule)
    ensures EndWords(r) != [] && Wordy(EndWords(r)[0])
    ensures EndWords(r)[0] in KEYWORDS <==> LookupComesFirst(r)
  {
    hide Print, Range, Wordy;
    FixedWords();
    if !r.target.MasterLookup? && !r.target.Lookup? { TargetWordy(r.target); }
    if r.selectors != [] { QualityIsWordy(r.selectors[0].quality); }
  }

  lemma TargetWordy(t: Target)
    requires !t.MasterLookup? && !t.Lookup?
    ensures TargetWords(t) != [] && Wordy(TargetWords(t)[0]) && TargetWords(t)[0] !in KEYWORDS
  {
    hide Wordy, Print, KEYWORDS;
    match t {
      case Goto(_, _) => Apart("goto");
      case NoOperation => Apart("nop");
      case Unreachable => Apart("unreachable");
      case Blackhole => Apart("blackhole");
      case Prohibit => ProhibitIsWordy();
    }
  }

  lemma ProhibitIsWordy()
    ensures Wordy("prohibit") && "prohibit" !in KEYWORDS
  {
    NoSlash("prohibit");
    assert "prohibit"[3] == 'h' && "protocol"[3] == 't';
    assert forall k | k in KEYWORDS :: |k| == 8 ==> k == "protocol";
  }

  // What one interface leaves of a rule, ahead of the end of the line.
  function AfterInterface(u: Rule, i: Option<Interface>): Rule {
    if i.None? then u
    else if i.value.name == "fwmark" then u.(exact := false, mark := 0, hasMark := false)
    else u.(exact := false)
  }

  predicate Fresh(u: Rule) { !u.hasTable && u.table == 0 && u.protocol.None? && u.hasFrom }

  lemma TouchedIsAfter(u: Rule, i: Interface)
    requires Fresh(u) && i.name in KEYWORDS
    ensures Touched(u.(exact := false), i.name) == AfterInterface(u, Some(i)) && Fresh(AfterInterface(u, Some(i)))
  {}

  // The last interface, and the end of the line.
  lemma LastInterfaceRead(u: Rule, key: string, i: Interface, r: KernelRule)
    requires Fresh(u) && key !in KEYWORDS
    ensures var v := AfterInterface(u, Some(i));
            Fields(u, InterfaceWords(key, Some(i)) + EndWords(r)) ==
              if LookupComesFirst(r) && Swallows(Some(i)) then v.(protocol := r.protocol) else Fields(v, EndWords(r))
  {
    hide Fields, Wordy, Touched, EndWords, LookupComesFirst;
    EndStarts(r);
    FixedWords();
    var v := AfterInterface(u, Some(i));
    var next, rest := EndWords(r)[0], EndWords(r)[1..];
    assert EndWords(r) == [next] + rest;
    if LookupComesFirst(r) {
      EndReadWithoutLookup(v, r);
    }
    if i.name in KEYWORDS { TouchedIsAfter(u, i); }
    PastName(u, key, i, next, rest);
  }

  // Everything after the mark.
  lemma InterfacesRead(u: Rule, r: KernelRule)
    requires Fresh(u)
    ensures var v := AfterInterface(AfterInterface(u, r.iif), r.oif);
            Fields(u, FromIif(r)) ==
              if TableLost(r) then v.(protocol := r.protocol) else Fields(v, EndWords(r))
  {
    hide Fields, Wordy, EndWords, LookupComesFirst, Touched;
    FixedWords();
    if r.oif.None? {
      assert FromOif(r) == EndWords(r);
      if r.iif.None? {
        assert FromIif(r) == EndWords(r);
      } else {
        LastInterfaceRead(u, "iif", r.iif.value, r);
      }
    } else {
      var v := AfterInterface(u, r.iif);
      if r.iif.None? {
        assert FromIif(r) == FromOif(r);
      } else {
        var rest := [r.oif.value.name] + DetachedWord(r.oif.value.detached) + EndWords(r);
        assert FromOif(r) == ["oif"] + rest;
        PastName(u, "iif", r.iif.value, "oif", rest);
        if r.iif.value.name in KEYWORDS { TouchedIsAfter(u, r.iif.value); }
      }
      assert Fields(u, FromIif(r)) == Fields(v, FromOif(r));
      LastInterfaceRead(v, "oif", r.oif.value, r);
    }
  }

  lemma SkipWord(u: Rule, word: string, rest: seq<string>)
    requires word !in KEYWORDS
    ensures Fields(u, [word] + rest) == Fields(u.(exact := false), rest)
  {
    hide Fields, KEYWORDS;
    SkipWords(u, [word], rest);
  }

  lemma SkipPair(u: Rule, a: string, b: string, rest: seq<string>)
    requires a !in KEYWORDS && b !in KEYWORDS
    ensures Fields(u, [a, b] + rest) == Fields(u.(exact := false), rest)
  {
    hide Fields, KEYWORDS;
    assert [a, b] + rest == [a] + ([b] + rest);
    SkipWord(u, a, [b] + rest);
    SkipWord(u.(exact := false), b, rest);
  }

  // From the type of service on, and from the mark on.
  lemma MiddleRead(u: Rule, r: KernelRule)
    requires Fresh(u) && u.priority == r.priority && !u.hasMark && u.mark == 0 && u.mask == FULL
    requires u.exact == (!r.inverted && r.src.None? && r.dst.None?)
    ensures Closed(Fields(u, FromTos(r))) == Reading(r)
  {
    hide Fields, FromMark, Reading, Hex, KEYWORDS, Everything;
    if r.tos.Some? {
      FixedWords();
      HexNoKeyword(r.tos.value);
      SkipPair(u, "tos", Hex(r.tos.value), FromMark(r));
      MarkRead(u.(exact := false), r);
    } else {
      assert FromTos(r) == FromMark(r);
      MarkRead(u, r);
    }
  }

  lemma MarkRead(u: Rule, r: KernelRule)
    requires Fresh(u) && u.priority == r.priority && !u.hasMark && u.mark == 0 && u.mask == FULL
    requires u.exact == (!r.inverted && r.src.None? && r.dst.None? && r.tos.None?)
    ensures Closed(Fields(u, FromMark(r))) == Reading(r)
  {
    hide Fields, FromIif, Reading, MarkText, KEYWORDS, Everything;
    if r.mark.Some? {
      TakeMarkPair(u, r.mark.value, FromIif(r));
      EndOfReading(u.(mark := r.mark.value.value, mask := r.mark.value.mask, hasMark := true), r);
    } else {
      assert FromMark(r) == FromIif(r);
      EndOfReading(u, r);
    }
  }

  lemma HexNoKeyword(n: nat)
    ensures Hex(n) !in KEYWORDS
  {
    NoKeyword(Hex(n));
  }

  lemma TakeMarkPair(u: Rule, m: Mark, rest: seq<string>)
    requires !u.hasMark && u.mask == FULL
    ensures Fields(u, ["fwmark", MarkText(m)] + rest) ==
            Fields(u.(mark := m.value, mask := m.mask, hasMark := true), rest)
  {
    hide Fields, TakeMark, MarkText;
    TakePair(u, "fwmark", MarkText(m), rest);
    MarkRoundTrip(u, m);
  }

  lemma FieldsOfWords(r: KernelRule)
    ensures Closed(Fields(Blank(r.priority), Words(r))) == Reading(r)
  {
    hide Fields, FromTos, Reading, Everything, KEYWORDS;
    var r1 := Blank(r.priority);
    if r.inverted {
      FixedWords();
      assert Words(r) == ["not"] + FromSource(r);
      SkipWord(r1, "not", FromSource(r));
      SourceRead(r1.(exact := false), r);
    } else {
      assert Words(r) == FromSource(r);
      SourceRead(r1, r);
    }
  }

  lemma {:induction false} DecimalsPlain(address: U32)
    ensures var text := Dotted(address);
            text != "" && '0' <= text[0] <= '9' && forall i | 0 <= i < |text| :: text[i] != '/'
  {
    hide Print;
    PlainDecimal(address / 0x100_0000);
    PlainDecimal(address / 0x1_0000 % 0x100);
    PlainDecimal(address / 0x100 % 0x100);
    PlainDecimal(address % 0x100);
    PrintStartsWithDigit(address / 0x100_0000);
  }

  /** A printed prefix is one of the two texts for everything if and only if there is no prefix. */
  lemma NetIsEverythingIff(n: Option<Net>)
    ensures NetText(n) == "all" || NetText(n) == "0.0.0.0/0" <==> n.None?
    ensures Everything(NetText(n)) <==> n.None?
  {
    hide Print, Dotted;
    if n.Some? {
      var text, head := NetText(n), Dotted(n.value.address);
      DecimalsPlain(n.value.address);
      var tail := if n.value.length == 32 then "" else "/" + Print(n.value.length, 10);
      assert text == head + tail && text[0] == head[0] && "all"[0] == 'a';
      SlashAfter(head, tail);
      SlashAfter("0.0.0.0", "/0");
      assert "0.0.0.0" + "/0" == "0.0.0.0/0";
      if text == "0.0.0.0/0" {
        assert |head| == 7 && |tail| == 2 && tail == text[7..] && tail[1..] == "0";
        NumbersRoundTrip(n.value.length);
        ZeroText();
        assert false;
      }
    }
  }

  lemma ZeroText()
    ensures Number("0") == Parsed(0, true)
  {
    NumbersRoundTrip(0);
    assert Print(0, 10) == "0";
  }

  lemma SourceRead(u: Rule, r: KernelRule)
    requires u == Blank(r.priority).(exact := !r.inverted)
    ensures Closed(Fields(u, FromSource(r))) == Reading(r)
  {
    hide Fields, FromTos, Reading, Everything, NetText;
    NetIsEverythingIff(r.src);
    NetIsEverythingIff(r.dst);
    var v := u.(exact := u.exact && r.src.None?, hasFrom := true);
    var s2 := (if r.dst.Some? then ["to", NetText(r.dst)] else []) + FromTos(r);
    TakePair(u, "from", NetText(r.src), s2);
    if r.dst.Some? {
      TakePair(v, "to", NetText(r.dst), FromTos(r));
      MiddleRead(v.(exact := false), r);
    } else {
      assert s2 == FromTos(r);
      MiddleRead(v, r);
    }
  }

  lemma EndOfReading(u: Rule, r: KernelRule)
    requires Fresh(u) && u.priority == r.priority
    requires u.hasMark == r.mark.Some? && u.mark == (if r.mark.Some? then r.mark.value.value else 0)
    requires u.mask == if r.mark.Some? then r.mark.value.mask else FULL
    requires u.exact == (!r.inverted && r.src.None? && r.dst.None? && r.tos.None?)
    ensures Closed(Fields(u, FromIif(r))) == Reading(r)
  {
    hide Fields, FromIif, EndWords, Everything;
    InterfacesRead(u, r);
    EndRead(AfterInterface(AfterInterface(u, r.iif), r.oif), r);
  }

  /** The parser's reading of every rule of the kernel, whatever its interfaces are called. */
  lemma ListedRuleReadBack(r: KernelRule)
    ensures ParseRule(Line(r)) == Some(Reading(r))
  {
    hide Fields, Print, Words, Reading;
    FieldsOfWords(r);
    NumbersRoundTrip(r.priority);
    var line := Line(r);
    assert line[1..] == Words(r);
    assert line[0][..|line[0]| - 1] == Print(r.priority, 10);
  }

  // ---- Identity and ownership -----------------------------------------------------------------

  // Everything the teardown's delete compares, apart from the protocol.
  predicate HasIdentity(r: KernelRule, id: Identity) {
    && r.priority == id.priority && r.mark == Some(Mark(id.mark, FULL))
    && r.target.Lookup? && r.target.table == id.table
  }

  predicate IsOwned(r: KernelRule, id: Identity) { HasIdentity(r, id) && Plain(r) }

  // The names of the interfaces leave the parser where the mark and the table can be read.
  predicate InStep(r: KernelRule) { !MarkLost(r) && !TableLost(r) }

  /** A rule that has the identity is recognised if and only if its interface names keep the parser in step. */
  lemma RecognisedIff(r: KernelRule, id: Identity)
    ensures HasIdentity(r, id) ==> (SameIdentity(Reading(r), id) <==> InStep(r))
    ensures SameIdentity(Reading(r), id) ==> HasIdentity(r, id) && (Reading(r).exact <==> Plain(r))
    ensures Plain(r) ==> InStep(r)
  {
    hide KEYWORDS;
  }

  /** Only a rule without a prefix matches every address. */
  lemma NoPrefixIffEverywhere(n: Option<Net>)
    ensures (forall address: U32 :: Matches(n, address)) <==> n.None?
  {
    if n.Some? {
      var p := Power(32 - n.value.length);
      PowerGrows(32 - n.value.length, 31);
      PowersOfTwo();
      TopDiffers(p);
      hide Power;
      var other: U32 := if n.value.address / p == 0 then 0xFFFF_FFFF else 0;
      assert !Matches(n, other);
    }
  }

  lemma {:induction false} PowerGrows(m: nat, n: nat)
    requires m <= n
    ensures Power(m) <= Power(n)
  {
    if m < n { PowerGrows(m, n - 1); }
  }

  lemma PowersOfTwo()
    ensures Power(8) == 0x100 && Power(16) == 0x1_0000 && Power(24) == 0x100_0000 && Power(31) == 0x8000_0000
  {
    assert Power(4) == 16;
    assert Power(8) == 256;
    assert Power(12) == 4096;
    assert Power(16) == 0x1_0000;
    assert Power(20) == 0x10_0000;
    assert Power(24) == 0x100_0000;
    assert Power(28) == 0x1000_0000;
  }

  lemma TopDiffers(p: nat)
    requires 0 < p <= 0x8000_0000
    ensures 0xFFFF_FFFF / p > 0 && 0 / p == 0
  {}

  /** What is owned is meant for every packet with the mark; one prefix, and a rule is neither exact nor owned. */
  lemma OwnedIsForEveryPacket(r: KernelRule, id: Identity)
    ensures IsOwned(r, id) ==>
              && !r.inverted && r.tos.None? && r.iif.None? && r.oif.None? && r.selectors == []
              && r.target == Lookup(id.table, []) && r.priority == id.priority
              && r.mark == Some(Mark(id.mark, 0xFFFF_FFFF))
              && forall source: U32, destination: U32 :: Within(r, source, destination)
    ensures r.src.Some? || r.dst.Some? ==>
              && !Reading(r).exact && !IsOwned(r, id)
              && exists source: U32, destination: U32 :: !Within(r, source, destination)
  {
    NoPrefixIffEverywhere(r.src);
    NoPrefixIffEverywhere(r.dst);
    if r.src.Some? {
      var source: U32 :| !Matches(r.src, source);
      assert !Within(r, source, 0);
    } else if r.dst.Some? {
      var destination: U32 :| !Matches(r.dst, destination);
      assert !Within(r, 0, destination);
    }
  }

  function OwnedRules(rules: seq<KernelRule>, id: Identity): seq<KernelRule> {
    if rules == [] then []
    else (if IsOwned(rules[0], id) then [rules[0]] else []) + OwnedRules(rules[1..], id)
  }

  function Foreign(rules: seq<KernelRule>, id: Identity): seq<KernelRule> {
    if rules == [] then []
    else (if IsOwned(rules[0], id) then [] else [rules[0]]) + Foreign(rules[1..], id)
  }

  predicate Narrowed(r: KernelRule, id: Identity) { HasIdentity(r, id) && !Plain(r) }

  // Some rule shares the identity and asks for more; and one that also shows in the listing.
  ghost predicate HasConflict(rules: seq<KernelRule>, id: Identity) {
    exists i | 0 <= i < |rules| :: Narrowed(rules[i], id)
  }

  ghost predicate Detected(rules: seq<KernelRule>, id: Identity) {
    exists i | 0 <= i < |rules| :: Narrowed(rules[i], id) && InStep(rules[i])
  }

  lemma ListingTail(rules: seq<KernelRule>)
    requires rules != []
    ensures Listing(rules)[1..] == Listing(rules[1..]) && Listing(rules)[0] == Line(rules[0])
  {
    hide Line;
  }

  lemma DetectedTail(rules: seq<KernelRule>, id: Identity)
    requires rules != []
    ensures Detected(rules, id) <==> (Narrowed(rules[0], id) && InStep(rules[0])) || Detected(rules[1..], id)
  {
    hide Narrowed, InStep;
    if Detected(rules[1..], id) {
      var i :| 0 <= i < |rules[1..]| && Narrowed(rules[1..][i], id) && InStep(rules[1..][i]);
      assert rules[i + 1] == rules[1..][i];
    }
    if Detected(rules, id) && !(Narrowed(rules[0], id) && InStep(rules[0])) {
      var i :| 0 <= i < |rules| && Narrowed(rules[i], id) && InStep(rules[i]);
      assert rules[1..][i - 1] == rules[i];
    }
  }

  /** What the listing of any table shows: the owned rules one by one, and the conflicts that are in step. */
  lemma {:induction false} RecognisesExactly(rules: seq<KernelRule>, id: Identity)
    ensures Conflict(Listing(rules), id) <==> Detected(rules, id)
    ensures |Owned(Listing(rules), id)| == |OwnedRules(rules, id)|
    ensures forall i | 0 <= i < |OwnedRules(rules, id)| ::
              Owned(Listing(rules), id)[i].protocol == OwnedRules(rules, id)[i].protocol
  {
    hide ParseRule, Line, InStep, Plain, SameIdentity, HasIdentity, Detected;
    if rules != [] {
      ListedRuleReadBack(rules[0]);
      RecognisedIff(rules[0], id);
      ReadingProtocol(rules[0]);
      ListingTail(rules);
      RecognisesExactly(rules[1..], id);
      DetectedTail(rules, id);
    } else {
      assert !Detected(rules, id) by { NothingDetected(id); }
    }
  }

  lemma NothingDetected(id: Identity)
    ensures !Detected([], id)
  {}

  lemma ReadingProtocol(r: KernelRule)
    ensures Reading(r).protocol == r.protocol
  {}
}
