/**
 Round trips of the TLV codec: what the encoder writes for a forest of elements, the tree decoder
 reads back, and different forests are never written alike.
 */
module TlvForest {
  import opened Results
  import opened Bytes
  import opened BerTlv

  const VALUE_LIMIT := 0x100_0000

  // Tags whose own octets are identifier octets, up to four of them.
  predicate ValidTag(tag: int) {
    && 0 <= tag < 0x1_0000_0000
    && (if tag < 0x100 then tag % 32 != 31
        else if tag < 0x1_0000 then tag / 0x100 % 32 == 31 && tag % 0x100 < 0x80
        else if tag < 0x100_0000 then
          tag / 0x1_0000 % 32 == 31 && tag / 0x100 % 0x100 >= 0x80 && tag % 0x100 < 0x80
        else
          && tag / 0x100_0000 % 32 == 31 && tag / 0x1_0000 % 0x100 >= 0x80
          && tag / 0x100 % 0x100 >= 0x80 && tag % 0x100 < 0x80)
  }

  lemma FoldFromFirst(octets: Octets)
    requires 1 <= |octets| <= 4
    ensures Fold(octets[0], octets[1..]) == BigEndian(octets)
  {
    assert octets == [octets[0]] + octets[1..];
    FoldFirst(0, octets[0], octets[1..]);
    Append8Small(0, octets[0]);
    FoldIsBigEndian(octets);
  }

  lemma BigEndianOfFew(a: Byte, b: Byte, c: Byte, d: Byte)
    ensures BigEndian([a]) == a
    ensures BigEndian([a, b]) == a * 0x100 + b
    ensures BigEndian([a, b, c]) == a * 0x1_0000 + b * 0x100 + c
    ensures BigEndian([a, b, c, d]) == a * 0x100_0000 + b * 0x1_0000 + c * 0x100 + d
  {
    assert [a, b][..1] == [a] && [a, b, c][..2] == [a, b] && [a, b, c, d][..3] == [a, b, c];
    assert [a][..0] == [];
  }

  lemma OctetsAreDigits(tag: int)
    requires 0 <= tag < 0x1_0000_0000
    ensures tag / 0x1_0000 == tag / 0x100 / 0x100 && tag / 0x100_0000 == tag / 0x100 / 0x100 / 0x100
    ensures tag == (tag / 0x100_0000) * 0x100_0000 + (tag / 0x1_0000 % 0x100) * 0x1_0000
                   + (tag / 0x100 % 0x100) * 0x100 + tag % 0x100
    ensures tag / 0x100_0000 % 0x100 == tag / 0x100_0000
  {
    var c := tag / 0x100;
    var b := c / 0x100;
    assert tag == c * 0x100 + tag % 0x100 && c == b * 0x100 + c % 0x100 && b == (b / 0x100) * 0x100 + b % 0x100;
  }

  // The octets written for a tag in range: as many as it has, without leading zeros.
  lemma TagOctets(tag: int)
    requires 0 <= tag < 0x1_0000_0000
    ensures tag < 0x100 ==> EncodeTag(tag) == [tag]
    ensures 0x100 <= tag < 0x1_0000 ==> EncodeTag(tag) == [tag / 0x100, tag % 0x100]
    ensures 0x1_0000 <= tag < 0x100_0000 ==>
      EncodeTag(tag) == [tag / 0x1_0000, tag / 0x100 % 0x100, tag % 0x100]
    ensures 0x100_0000 <= tag ==>
      EncodeTag(tag) == [tag / 0x100_0000, tag / 0x1_0000 % 0x100, tag / 0x100 % 0x100, tag % 0x100]
  {
    OctetsAreDigits(tag);
    var a: Byte, b: Byte := tag / 0x100_0000 % 256, tag / 0x1_0000 % 256;
    var c: Byte, d: Byte := tag / 0x100 % 256, tag % 256;
    assert [a, b, c, d][1..] == [b, c, d] && [b, c, d][1..] == [c, d];
    if a == 0 {
      assert StripZeros([a, b, c, d]) == StripZeros([b, c, d]);
      if b == 0 { assert StripZeros([b, c, d]) == StripZeros([c, d]); }
    }
  }

  lemma BigEndianOfTag(tag: int)
    requires 0 <= tag < 0x1_0000_0000
    ensures 1 <= |EncodeTag(tag)| <= 4 && BigEndian(EncodeTag(tag)) == tag
  {
    TagOctets(tag);
    OctetsAreDigits(tag);
    if tag < 0x100 {
      BigEndianOfFew(tag, 0, 0, 0);
    } else if tag < 0x1_0000 {
      BigEndianOfFew(tag / 0x100, tag % 0x100, 0, 0);
    } else if tag < 0x100_0000 {
      BigEndianOfFew(tag / 0x1_0000, tag / 0x100 % 0x100, tag % 0x100, 0);
    } else {
      BigEndianOfFew(tag / 0x100_0000, tag / 0x1_0000 % 0x100, tag / 0x100 % 0x100, tag % 0x100);
    }
  }

  // Within four octets, a tag is written as identifier octets of itself exactly when it is valid.
  lemma TagRoundTripIff(tag: int)
    requires 0 <= tag < 0x1_0000_0000
    ensures IsIdentifier(EncodeTag(tag), tag) <==> ValidTag(tag)
  {
    BigEndianOfTag(tag);
    FoldFromFirst(EncodeTag(tag));
    TagOctets(tag);
    OctetsAreDigits(tag);
    hide EncodeTag, Fold, BigEndian, StripZeros;
    var t := EncodeTag(tag);
    if tag < 0x100 {
      assert IsIdentifier(t, tag) <==> tag % 32 != 31;
    } else if tag < 0x1_0000 {
      assert |t| == 2 && t[0] == tag / 0x100 && t[1] == tag % 0x100;
    } else if tag < 0x100_0000 {
      assert |t| == 3 && t[0] == tag / 0x1_0000 && t[1] == tag / 0x100 % 0x100 && t[2] == tag % 0x100;
      assert (forall i | 1 <= i < |t| - 1 :: t[i] >= 0x80) <==> t[1] >= 0x80;
    } else {
      assert |t| == 4 && t[0] == tag / 0x100_0000 && t[3] == tag % 0x100;
      assert t[1] == tag / 0x1_0000 % 0x100 && t[2] == tag / 0x100 % 0x100;
      assert (forall i | 1 <= i < |t| - 1 :: t[i] >= 0x80) <==> t[1] >= 0x80 && t[2] >= 0x80;
    }
  }

  lemma LengthRoundTrip(length: nat)
    requires length < VALUE_LIMIT
    ensures IsLength(EncodeLength(length), length)
  {
    if length >= 0x1_0000 {
      BigEndianOfFew(length / 0x1_0000, length / 0x100 % 0x100, length % 0x100, 0);
      assert EncodeLength(length)[1..] == [length / 0x1_0000, length / 0x100 % 0x100, length % 0x100];
    } else if length >= 0x100 {
      BigEndianOfFew(length / 0x100, length % 0x100, 0, 0);
      assert EncodeLength(length)[1..] == [length / 0x100, length % 0x100];
    } else if length >= 0x80 {
      BigEndianOfFew(length, 0, 0, 0);
      assert EncodeLength(length)[1..] == [length];
    }
  }

  function HeaderSize(tag: int, length: nat): nat {
    |EncodeTag(tag)| + |EncodeLength(length)|
  }

  lemma EncodedIsElement(tag: int, value: Octets)
    requires ValidTag(tag) && |value| < VALUE_LIMIT
    ensures IsElement(Encode(tag, value), tag, HeaderSize(tag, |value|))
    ensures Encode(tag, value)[HeaderSize(tag, |value|)..] == value
    ensures EncodeTag(tag) != [] && Encode(tag, value)[0] == EncodeTag(tag)[0]
  {
    TagRoundTripIff(tag);
    LengthRoundTrip(|value|);
    var e, t, h := Encode(tag, value), |EncodeTag(tag)|, HeaderSize(tag, |value|);
    assert e[..t] == EncodeTag(tag) && e[t..h] == EncodeLength(|value|);
    assert IsElementSplit(e, tag, h, t);
  }

  // ---- Forests ------------------------------------------------------------------------------

  datatype Tlv = Primitive(tag: int, value: Octets) | Compound(tag: int, parts: seq<Tlv>)

  function EncodeTlv(t: Tlv): Octets {
    match t
    case Primitive(tag, value) => Encode(tag, value)
    case Compound(tag, parts) => Encode(tag, EncodeForest(parts))
  }

  function EncodeForest(ts: seq<Tlv>): Octets {
    if ts == [] then [] else EncodeTlv(ts[0]) + EncodeForest(ts[1..])
  }

  function Content(t: Tlv): Octets {
    match t
    case Primitive(_, value) => value
    case Compound(_, parts) => EncodeForest(parts)
  }

  // Valid tags whose bit 6 (section 8.1.2.5 of X.690) tells the two kinds apart, and values that three
  // length octets can count.
  predicate WellFormed(t: Tlv) {
    && ValidTag(t.tag) && |Content(t)| < VALUE_LIMIT
    && EncodeTag(t.tag) != [] && (EncodeTag(t.tag)[0] % 64 >= 32 <==> t.Compound?)
    && (t.Compound? ==> WellFormedForest(t.parts))
  }

  predicate WellFormedForest(ts: seq<Tlv>) {
    ts == [] || (WellFormed(ts[0]) && WellFormedForest(ts[1..]))
  }

  function NodeOf(t: Tlv): Node {
    match t
    case Primitive(tag, value) => Node(tag, value, [])
    case Compound(tag, parts) => Node(tag, EncodeForest(parts), NodesOf(parts))
  }

  function NodesOf(ts: seq<Tlv>): seq<Node> {
    if ts == [] then [] else [NodeOf(ts[0])] + NodesOf(ts[1..])
  }

  lemma BitTells(t: Tlv)
    requires WellFormed(t)
    ensures ValidTag(t.tag) && |Content(t)| < VALUE_LIMIT && EncodeTag(t.tag) != []
    ensures Constructed(EncodeTag(t.tag)[0]) <==> t.Compound?
  {
    hide ValidTag, EncodeTag;
  }

  // One written element, wherever it stands, is read back whole.
  lemma ElementReadBack(before: Octets, t: Tlv, after: Octets)
    requires WellFormed(t)
    ensures var data := before + EncodeTlv(t) + after;
      && DecodeOne(data, |before|).Some?
      && DecodeOne(data, |before|).value.1 == |before| + |EncodeTlv(t)|
      && DecodeOne(data, |before|).value.0.tag == t.tag
      && DecodeOne(data, |before|).value.0.value == Content(t)
      && DecodeOne(data, |before|).value.0.children == if t.Compound? then Parse(Content(t), 0) else []
  {
    BitTells(t);
    hide Parse, DecodeOne, ElementAt, IsElement, ValidTag, EncodeForest, Constructed, WellFormed;
    var e := EncodeTlv(t);
    var data := before + e + after;
    assert e == Encode(t.tag, Content(t));
    EncodedIsElement(t.tag, Content(t));
    var h := HeaderSize(t.tag, |Content(t)|);
    assert data[|before|..|before| + |e|] == e;
    ElementIsDecoded(data, |before|, |e|, t.tag, h);
    DecodersAgree(data, |before|);
    Slices(data, |before|, |before| + |e|, h, |e|);
    assert e[h..|e|] == e[h..];
    assert data[|before|] == e[0];
  }

  lemma ParseOne(data: Octets, index: nat)
    requires DecodeOne(data, index).Some?
    ensures var (node, next) := DecodeOne(data, index).value;
      next <= |data| && Parse(data, index) == [node] + Parse(data, next)
  {}

  lemma FirstReadBack(before: Octets, t: Tlv, after: Octets)
    requires WellFormed(t)
    requires NodeOf(t) == Node(t.tag, Content(t), if t.Compound? then Parse(Content(t), 0) else [])
    ensures Parse(before + EncodeTlv(t) + after, |before|)
            == [NodeOf(t)] + Parse(before + EncodeTlv(t) + after, |before + EncodeTlv(t)|)
  {
    hide Parse, DecodeOne;
    ElementReadBack(before, t, after);
    ParseOne(before + EncodeTlv(t) + after, |before|);
  }

  lemma ParseEnds(data: Octets)
    ensures Parse(data, |data|) == []
  {}

  // Parsing the encoding of a forest returns the forest, from wherever it starts.
  lemma {:induction false} ForestReadBack(before: Octets, ts: seq<Tlv>)
    requires WellFormedForest(ts)
    ensures Parse(before + EncodeForest(ts), |before|) == NodesOf(ts)
    decreases ts
  {
    hide Parse, DecodeOne, WellFormed, NodeOf, EncodeTlv;
    if ts == [] {
      assert before + EncodeForest(ts) == before;
      ParseEnds(before);
    } else {
      var t, rest := ts[0], ts[1..];
      PartsReadBack(t);
      FirstReadBack(before, t, EncodeForest(rest));
      ForestReadBack(before + EncodeTlv(t), rest);
      assert before + EncodeForest(ts) == before + EncodeTlv(t) + EncodeForest(rest);
    }
  }

  lemma {:induction false} PartsReadBack(t: Tlv)
    requires WellFormed(t)
    ensures NodeOf(t) == Node(t.tag, Content(t), if t.Compound? then Parse(Content(t), 0) else [])
    decreases t
  {
    if t.Compound? {
      ForestReadBack([], t.parts);
      assert [] + EncodeForest(t.parts) == EncodeForest(t.parts);
    }
  }

  lemma ParseEncode(ts: seq<Tlv>)
    requires WellFormedForest(ts)
    ensures Parse(EncodeForest(ts), 0) == NodesOf(ts)
  {
    ForestReadBack([], ts);
    assert [] + EncodeForest(ts) == EncodeForest(ts);
  }

  lemma {:induction false} NodesTellForests(ts: seq<Tlv>, us: seq<Tlv>)
    requires WellFormedForest(ts) && WellFormedForest(us) && NodesOf(ts) == NodesOf(us)
    ensures ts == us
    decreases ts
  {
    if ts != [] {
      assert us != [];
      assert NodesOf(ts)[0] == NodeOf(ts[0]) && NodesOf(us)[0] == NodeOf(us[0]);
      assert NodesOf(ts)[1..] == NodesOf(ts[1..]) && NodesOf(us)[1..] == NodesOf(us[1..]);
      if ts[0].Compound? { NodesTellForests(ts[0].parts, us[0].parts); }
      NodesTellForests(ts[1..], us[1..]);
      assert ts == [ts[0]] + ts[1..] && us == [us[0]] + us[1..];
    }
  }

  // No two forests share an encoding.
  lemma EncodingIsUnambiguous(ts: seq<Tlv>, us: seq<Tlv>)
    requires WellFormedForest(ts) && WellFormedForest(us) && EncodeForest(ts) == EncodeForest(us)
    ensures ts == us
  {
    ParseEncode(ts);
    ParseEncode(us);
    NodesTellForests(ts, us);
  }

  // ---- Exact forms ----------------------------------------------------------------------------

  /** A first octet of class c and number n stands before children with the constructed bit, and only with it. */
  lemma {:induction false} ChildrenByBit(data: Octets, start: nat, c: nat, n: nat)
    requires DecodeOne(data, start).Some? && start < |data| && c < 4 && n < 32
    ensures data[start] == 64 * c + 32 + n ==>
              DecodeOne(data, start).value.0.children == Parse(DecodeOne(data, start).value.0.value, 0)
    ensures data[start] == 64 * c + n ==> DecodeOne(data, start).value.0.children == []
  {
    hide Parse, DecodeOne, ElementAt, Constructed;
    BitOf(c, n);
    DecodersAgree(data, start);
    var node := DecodeOne(data, start).value.0;
    assert node.children == if Constructed(data[start]) then Parse(node.value, 0) else [];
  }

  lemma BitOf(c: nat, n: nat)
    requires c < 4 && n < 32
    ensures Constructed(64 * c + 32 + n) && !Constructed(64 * c + n)
  {
    assert (64 * c + 32 + n) / 32 == 2 * c + 1 && (64 * c + n) / 32 == 2 * c;
  }

  /** Lengths are written in the fewest octets, the short form below 128. */
  lemma LengthIsShortest(length: nat)
    requires length < 0x100_0000
    ensures |EncodeLength(length)| == if length < 128 then 1 else if length < 256 then 2
                                      else if length < 65536 then 3 else 4
    ensures length < 128 ==> EncodeLength(length) == [length]
    ensures length >= 128 ==> EncodeLength(length)[0] == 0x80 + |EncodeLength(length)| - 1
  {}

  predicate Heads(nodes: seq<Node>, tag: int, value: Octets, rest: seq<Node>) {
    nodes != [] && nodes[0].tag == tag && nodes[0].value == value && nodes[1..] == rest
  }

  lemma ElementHeads(data: Octets, index: nat, next: nat, tag: int, headerLen: nat)
    requires index <= next <= |data| && IsElement(data[index..next], tag, headerLen)
    ensures headerLen <= next - index
    ensures Heads(Parse(data, index), tag, data[index + headerLen..next], Parse(data, next))
  {
    hide IsElement, ElementAt, Parse, DecodeOne;
    ElementIsDecoded(data, index, next - index, tag, headerLen);
    DecodersAgree(data, index);
    ElementBounds(data, index);
    ParseOne(data, index);
  }

  /** The tree decoder takes the elements of the grammar one after the other, and stops where there is none. */
  lemma ParseFollowsGrammar(data: Octets, index: nat)
    requires index <= |data|
    ensures Parse(data, index) == [] <==>
            forall next: nat, tag, headerLen: nat | index <= next <= |data| ::
              !IsElement(data[index..next], tag, headerLen)
    ensures forall next: nat, tag, headerLen: nat |
              index <= next <= |data| && IsElement(data[index..next], tag, headerLen) ::
              headerLen <= next - index
              && Heads(Parse(data, index), tag, data[index + headerLen..next], Parse(data, next))
  {
    if Parse(data, index) != [] {
      DecodersAgree(data, index);
      DecodedIsElement(data, index);
    }
    hide IsElement, Parse;
    forall next: nat, tag, headerLen: nat | index <= next <= |data| && IsElement(data[index..next], tag, headerLen)
      ensures headerLen <= next - index
      ensures Heads(Parse(data, index), tag, data[index + headerLen..next], Parse(data, next))
    {
      ElementHeads(data, index, next, tag, headerLen);
    }
  }

  lemma ElementBounds(data: Octets, index: nat)
    requires ElementAt(data, index).Some?
    ensures ElementAt(data, index).value.headerLen <= ElementAt(data, index).value.totalLen
  {}

  // ---- Searching ----------------------------------------------------------------------------

  function FindAll(nodes: seq<Node>, tag: int): seq<Node> {
    if nodes == [] then []
    else (if nodes[0].tag == tag then [nodes[0]] else []) + FindAll(nodes[0].children, tag) + FindAll(nodes[1..], tag)
  }

  lemma FindStep(nodes: seq<Node>, i: nat, tag: int, found: seq<Node>)
    requires i < |nodes|
    ensures var here := if nodes[i].tag == tag then [nodes[i]] else [];
            found + FindAll(nodes[i..], tag)
              == (found + here + FindAll(nodes[i].children, tag)) + FindAll(nodes[i + 1..], tag)
  {
    var rest := nodes[i..];
    assert rest[0] == nodes[i] && rest[1..] == nodes[i + 1..];
  }

  lemma FindEnds(tag: int, found: seq<Node>)
    ensures found + FindAll([], tag) == found
  {}

  method DerFindAll(nodes: seq<Node>, tag: int) returns (found: seq<Node>)
    ensures found == FindAll(nodes, tag)
    decreases nodes
  {
    hide FindAll;
    found := [];
    assert nodes[0..] == nodes && [] + FindAll(nodes, tag) == FindAll(nodes, tag);
    var i := 0;
    while i < |nodes|
      invariant 0 <= i <= |nodes| && found + FindAll(nodes[i..], tag) == FindAll(nodes, tag)
    {
      FindStep(nodes, i, tag, found);
      var here := if nodes[i].tag == tag then [nodes[i]] else [];
      var below := DerFindAll(nodes[i].children, tag);
      found := found + here + below;
      i := i + 1;
    }
    assert nodes[i..] == [];
    FindEnds(tag, found);
  }

  // derFindValue: the value of the first node with the tag, in depth-first order.
  function FindValue(data: Octets, tag: int): Option<Octets> {
    var nodes := FindAll(Parse(data, 0), tag);
    if nodes == [] then None else Some(nodes[0].value)
  }

  lemma ForestStep(t: Tlv, rest: seq<Tlv>)
    ensures EncodeForest([t] + rest) == EncodeTlv(t) + EncodeForest(rest)
    ensures NodesOf([t] + rest) == [NodeOf(t)] + NodesOf(rest)
    ensures WellFormedForest([t] + rest) <==> WellFormed(t) && WellFormedForest(rest)
    ensures EncodeForest([]) == [] && NodesOf([]) == [] && WellFormedForest([])
  {
    hide WellFormed, NodeOf, EncodeTlv;
    assert ([t] + rest)[1..] == rest;
  }

  lemma Leaf(tag: Byte, a: Byte)
    requires tag % 64 < 31
    ensures WellFormed(Primitive(tag, [a])) && EncodeTlv(Primitive(tag, [a])) == [tag, 1, a]
    ensures NodeOf(Primitive(tag, [a])) == Node(tag, [a], [])
  {
    assert EncodeTag(tag) == [tag];
    assert Encode(tag, [a]) == [tag] + [1] + [a];
  }

  lemma SequenceOfLeaf(tag: Byte, a: Byte)
    requires tag % 64 < 31
    ensures var t := Compound(0x30, [Primitive(tag, [a])]);
            WellFormed(t) && EncodeTlv(t) == [0x30, 3, tag, 1, a]
            && NodeOf(t) == Node(0x30, [tag, 1, a], [Node(tag, [a], [])])
  {
    Leaf(tag, a);
    var leaf := Primitive(tag, [a]);
    hide WellFormed;
    ForestStep(leaf, []);
    assert [leaf] + [] == [leaf] && EncodeTag(0x30) == [0x30];
    assert EncodeForest([leaf]) == [tag, 1, a];
    assert Encode(0x30, [tag, 1, a]) == [0x30] + [3] + [tag, 1, a];
    assert NodesOf([leaf]) == [Node(tag, [a], [])];
    SequenceIsWellFormed([leaf]);
  }

  lemma SequenceIsWellFormed(parts: seq<Tlv>)
    requires WellFormedForest(parts) && |EncodeForest(parts)| < 128
    ensures WellFormed(Compound(0x30, parts))
  {
    assert EncodeTag(0x30) == [0x30];
  }

  lemma FindsHead(node: Node, rest: seq<Node>, tag: int)
    ensures FindAll([node] + rest, tag)
            == (if node.tag == tag then [node] else []) + FindAll(node.children, tag) + FindAll(rest, tag)
    ensures FindAll([], tag) == []
  {
    assert ([node] + rest)[1..] == rest;
  }

  /** A value inside a universal SEQUENCE is found, and of two candidates the one met first in depth-first order. */
  lemma FindsInOrder(a: Byte, b: Byte, c: Byte)
    ensures var data := [0x30, 3, 0x80, 1, a, 0x80, 1, b, 0x81, 1, c];
            FindValue(data, 0x80) == Some([a]) && FindValue(data, 0x81) == Some([c]) && FindValue(data, 0x82) == None
  {
    SequenceOfLeaf(0x80, a);
    Leaf(0x80, b);
    Leaf(0x81, c);
    var outer, second, last := Compound(0x30, [Primitive(0x80, [a])]), Primitive(0x80, [b]), Primitive(0x81, [c]);
    hide WellFormed, WellFormedForest, EncodeTlv, NodeOf, Parse, FindAll, EncodeForest, NodesOf;
    ForestStep(last, []);
    ForestStep(second, [last] + []);
    ForestStep(outer, [second] + ([last] + []));
    var ts := [outer] + ([second] + ([last] + []));
    ParseEncode(ts);
    assert EncodeForest(ts) == [0x30, 3, 0x80, 1, a] + ([0x80, 1, b] + ([0x81, 1, c] + []));
    assert EncodeForest(ts) == [0x30, 3, 0x80, 1, a, 0x80, 1, b, 0x81, 1, c];
    var x, y, z, w := Node(0x30, [0x80, 1, a], [Node(0x80, [a], [])]), Node(0x80, [b], []), Node(0x81, [c], []),
                      Node(0x80, [a], []);
    assert NodesOf(ts) == [x] + ([y] + ([z] + []));
    assert [w] == [w] + [];
    FindsEach(x, y, z, w, 0x80);
    FindsEach(x, y, z, w, 0x81);
    FindsEach(x, y, z, w, 0x82);
  }

  lemma FindsEach(x: Node, y: Node, z: Node, w: Node, tag: int)
    requires x.children == [w] && y.children == [] && z.children == [] && w.children == [] && x.tag != tag
    ensures FindAll([x] + ([y] + ([z] + [])), tag)
            == (if w.tag == tag then [w] else []) + (if y.tag == tag then [y] else [])
               + (if z.tag == tag then [z] else [])
  {
    hide FindAll;
    FindsHead(z, [], tag);
    FindsHead(y, [z] + [], tag);
    FindsHead(w, [], tag);
    assert [w] + [] == [w];
    FindsHead(x, [y] + ([z] + []), tag);
  }
}
