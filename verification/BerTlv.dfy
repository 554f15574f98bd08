/**
 The BER-TLV codec: the encoder, the recursive tree decoder and the offset decoder. The grammar
 of sections 8.1.2 and 8.1.3 of ITU-T X.690, as the decoders read it, is the meaning both are
 measured against.
 */
module BerTlv {
  import opened Results
  import opened Bytes

  // ---- Encoding -----------------------------------------------------------------------------

  function StripZeros(octets: Octets): Octets {
    if octets == [] || octets[0] != 0 then octets else StripZeros(octets[1..])
  }

  function EncodeTag(tag: int): Octets {
    if tag < 0x100 then [tag % 256]
    else StripZeros([tag / 0x100_0000 % 256, tag / 0x1_0000 % 256, tag / 0x100 % 256, tag % 256])
  }

  function EncodeLength(length: nat): Octets {
    if length < 0x80 then [length]
    else if length < 0x100 then [0x81, length]
    else if length < 0x1_0000 then [0x82, length / 0x100, length % 0x100]
    else [0x83, length / 0x1_0000 % 0x100, length / 0x100 % 0x100, length % 0x100]
  }

  function Encode(tag: int, value: Octets): Octets {
    EncodeTag(tag) + EncodeLength(|value|) + value
  }

  function Construct(tag: int, children: seq<Octets>): Octets {
    Encode(tag, Flatten(children))
  }

  // derEncodeTag: four shifts, skipping the zero octets before the first other one.
  method DerEncodeTag(tag: int) returns (out: Octets)
    ensures out == EncodeTag(tag)
  {
    if tag < 0x100 { return [tag % 256]; }
    var octets := [tag / 0x100_0000 % 256, tag / 0x1_0000 % 256, tag / 0x100 % 256, tag % 256];
    out := [];
    var started := false;
    var k := 0;
    while k < 4
      invariant 0 <= k <= 4
      invariant !started ==> out == [] && StripZeros(octets) == StripZeros(octets[k..])
      invariant started ==> out + octets[k..] == StripZeros(octets)
    {
      var b := octets[k];
      if b != 0 || started {
        assert [b] + octets[k + 1..] == octets[k..];
        assert (out + [b]) + octets[k + 1..] == out + octets[k..];
        out := out + [b];
        started := true;
      } else {
        assert octets[k..][1..] == octets[k + 1..];
      }
      k := k + 1;
    }
  }

  // ---- Decoding -----------------------------------------------------------------------------

  // The tag octets that follow a long-form first octet: up to one below 0x80, or to the end.
  function TagRest(data: Octets, index: nat, tag: int): (r: (int, nat))
    requires index <= |data|
    ensures index <= r.1 <= |data|
    decreases |data| - index
  {
    if index == |data| then (tag, index)
    else if data[index] < 0x80 then (Append8(tag, data[index]), index + 1)
    else TagRest(data, index + 1, Append8(tag, data[index]))
  }

  // The tag at start, and the offset after its octets.
  function TagAt(data: Octets, start: nat): (r: (int, nat))
    requires start < |data|
    ensures start < r.1 <= |data|
  {
    if data[start] % 32 == 31 then TagRest(data, start + 1, data[start]) else (data[start] as int, start + 1)
  }

  // The length at index, and the offset after its octets.
  function LengthAt(data: Octets, index: nat): (r: Option<(nat, nat)>)
    ensures r.Some? ==> index < r.value.1 <= |data|
  {
    if index >= |data| then None
    else if data[index] < 0x80 then Some((data[index] as nat, index + 1))
    else
      var count := data[index] - 0x80;
      if count == 0 || count > 4 || index + 1 + count > |data| then None
      else Some((BigEndian(data[index + 1..index + 1 + count]), index + 1 + count))
  }

  datatype Header = Header(tag: int, end: nat, length: nat)

  // Tag and length at start: the tag, the offset after the length octets, and the length.
  function ReadHeader(data: Octets, start: nat): (r: Option<Header>)
    ensures r.Some? ==> start + 2 <= r.value.end <= |data|
  {
    if start >= |data| then None
    else
      var (tag, index) := TagAt(data, start);
      match LengthAt(data, index)
      case None => None
      case Some((length, end)) => Some(Header(tag, end, length))
  }

  datatype Node = Node(tag: int, value: Octets, children: seq<Node>)

  function Constructed(first: Byte): bool { first / 32 % 2 == 1 }

  // The tree decoder: one element, and a sequence of elements up to the first that does not decode.
  function DecodeOne(data: Octets, start: nat): (r: Option<(Node, nat)>)
    ensures r.Some? ==> start + 2 <= r.value.1 <= |data| && |r.value.0.value| <= r.value.1 - start - 2
    decreases |data|, |data| - start, 0
  {
    match ReadHeader(data, start)
    case None => None
    case Some(h) =>
      if h.end + h.length > |data| then None
      else
        var value := data[h.end..h.end + h.length];
        Some((Node(h.tag, value, if Constructed(data[start]) then Parse(value, 0) else []), h.end + h.length))
  }

  function Parse(data: Octets, index: nat): seq<Node>
    decreases |data|, |data| - index, 1
  {
    if index >= |data| then []
    else
      match DecodeOne(data, index)
      case None => []
      case Some((node, next)) => [node] + Parse(data, next)
  }

  datatype Element = Element(tag: int, headerLen: nat, totalLen: nat)

  // The offset decoder, without recursion.
  function ElementAt(buf: Octets, offset: nat): (r: Option<Element>)
    ensures r.Some? ==> 2 <= r.value.headerLen <= r.value.totalLen && offset + r.value.totalLen <= |buf|
  {
    match ReadHeader(buf, offset)
    case None => None
    case Some(h) =>
      if (h.end - offset) + h.length > |buf| - offset then None
      else Some(Element(h.tag, h.end - offset, (h.end - offset) + h.length))
  }

  // ---- The decoders as the program writes them ------------------------------------------------

  method ScanTagRest(data: Octets, start: nat, first: int) returns (tag: int, index: nat)
    requires start <= |data|
    ensures (tag, index) == TagRest(data, start, first)
  {
    tag, index := first, start;
    while index < |data|
      invariant index <= |data| && TagRest(data, index, tag) == TagRest(data, start, first)
      decreases |data| - index
    {
      var b := data[index];
      index := index + 1;
      tag := Append8(tag, b);
      if b < 0x80 { return; }
    }
  }

  // The length octets are at most four, so nothing is lost in a 64-bit int.
  method ScanLength(data: Octets, start: nat, count: nat) returns (length: int)
    requires count <= 4 && start + count <= |data|
    ensures length == BigEndian(data[start..start + count])
  {
    length := 0;
    var i := 0;
    while i < count
      invariant 0 <= i <= count && length == Fold(0, data[start..start + i])
    {
      assert data[start..start + i + 1] == data[start..start + i] + [data[start + i]];
      FoldAppend(0, data[start..start + i], data[start + i]);
      length := Append8(length, data[start + i]);
      i := i + 1;
    }
    FoldIsBigEndian(data[start..start + count]);
  }

  method DerElementAt(buf: Octets, offset: nat) returns (r: Option<Element>)
    ensures r == ElementAt(buf, offset)
  {
    hide TagRest, BigEndian;
    var index := offset;
    if index >= |buf| { return None; }
    var first := buf[index];
    index := index + 1;
    var tag: int := first;
    if first % 32 == 31 { tag, index := ScanTagRest(buf, index, first); }
    if index >= |buf| { return None; }
    var lengthByte := buf[index];
    index := index + 1;
    var length: int := 0;
    if lengthByte < 0x80 {
      length := lengthByte;
    } else {
      var count := lengthByte - 0x80;
      if count == 0 || count > 4 || index + count > |buf| { return None; }
      length := ScanLength(buf, index, count);
      index := index + count;
    }
    var headerLen := index - offset;
    if headerLen + length > |buf| - offset { return None; }
    return Some(Element(tag, headerLen, headerLen + length));
  }

  // The part of the tree decoder before the value.
  method DerDecodeHeader(data: Octets, start: nat) returns (r: Option<Header>)
    ensures r == ReadHeader(data, start)
  {
    hide TagRest, BigEndian;
    var index := start;
    if index >= |data| { return None; }
    var first := data[index];
    index := index + 1;
    var tag: int := first;
    if first % 32 == 31 { tag, index := ScanTagRest(data, index, first); }
    if index >= |data| { return None; }
    var lengthByte := data[index];
    index := index + 1;
    var length: int := 0;
    if lengthByte < 0x80 {
      length := lengthByte;
    } else {
      var count := lengthByte - 0x80;
      if count == 0 || count > 4 || index + count > |data| { return None; }
      length := ScanLength(data, index, count);
      index := index + count;
    }
    return Some(Header(tag, index, length));
  }

  method DerDecodeOne(data: Octets, start: nat) returns (r: Option<(Node, nat)>)
    ensures r == DecodeOne(data, start)
    decreases |data|, |data| - start, 0
  {
    var header := DerDecodeHeader(data, start);
    if header.None? { return None; }
    var index, length := header.value.end, header.value.length;
    if index + length > |data| { return None; }
    var value := data[index..index + length];
    var children := [];
    if Constructed(data[start]) { children := DerParse(value); }
    return Some((Node(header.value.tag, value, children), index + length));
  }

  method DerParse(data: Octets) returns (nodes: seq<Node>)
    ensures nodes == Parse(data, 0)
    decreases |data|, |data| + 1
  {
    nodes := [];
    var index := 0;
    while index < |data|
      invariant 0 <= index <= |data| && nodes + Parse(data, index) == Parse(data, 0)
      decreases |data| - index
    {
      var one := DerDecodeOne(data, index);
      if one.None? {
        assert nodes + [] == nodes;
        return;
      }
      assert nodes + ([one.value.0] + Parse(data, one.value.1)) == (nodes + [one.value.0]) + Parse(data, one.value.1);
      nodes := nodes + [one.value.0];
      index := one.value.1;
    }
    assert nodes + [] == nodes;
  }

  // ---- The grammar ----------------------------------------------------------------------------

  // Identifier octets (section 8.1.2): one octet, or a leading one with five set bits, octets with
  // the top bit set, and a last one without it. Their value is the tag.
  predicate IsIdentifier(t: Octets, tag: int) {
    && t != []
    && tag == Fold(t[0], t[1..])
    && (if t[0] % 32 != 31 then |t| == 1
        else |t| >= 2 && t[|t| - 1] < 0x80 && forall i | 1 <= i < |t| - 1 :: t[i] >= 0x80)
  }

  // Length octets (section 8.1.3), definite form, with at most four octets after the first.
  predicate IsLength(l: Octets, length: nat) {
    && l != []
    && (if l[0] < 0x80 then |l| == 1 && length == l[0]
        else 0x81 <= l[0] <= 0x84 && |l| == 1 + (l[0] - 0x80) && length == BigEndian(l[1..]))
  }

  // One element: identifier octets up to t, length octets up to headerLen, and the value.
  predicate IsElementSplit(e: Octets, tag: int, headerLen: nat, t: nat) {
    && t <= headerLen <= |e|
    && IsIdentifier(e[..t], tag)
    && IsLength(e[t..headerLen], |e| - headerLen)
  }

  ghost predicate IsElement(e: Octets, tag: int, headerLen: nat) {
    exists t: nat :: IsElementSplit(e, tag, headerLen, t)
  }

  lemma {:induction false} TagRestScans(data: Octets, index: nat, tag: int)
    requires index <= |data|
    ensures var (value, next) := TagRest(data, index, tag);
      && value == Fold(tag, data[index..next])
      && (forall i | index <= i < next - 1 :: data[i] >= 0x80)
      && (next < |data| ==> next > index && data[next - 1] < 0x80)
    decreases |data| - index
  {
    if index < |data| {
      FoldFirst(tag, data[index], []);
      assert data[index..index + 1] == [data[index]] + [];
      if data[index] >= 0x80 {
        TagRestScans(data, index + 1, Append8(tag, data[index]));
        var next := TagRest(data, index + 1, Append8(tag, data[index])).1;
        FoldFirst(tag, data[index], data[index + 1..next]);
        assert data[index..next] == [data[index]] + data[index + 1..next];
      }
    }
  }

  lemma {:induction false} FoldFirst(value: int, octet: Byte, rest: Octets)
    ensures Fold(value, [octet] + rest) == Fold(Append8(value, octet), rest)
  {
    if rest == [] {
      assert [octet] + rest == [octet] && [octet][..0] == [];
    } else {
      var front := rest[..|rest| - 1];
      assert ([octet] + rest)[..|rest|] == [octet] + front;
      FoldFirst(value, octet, front);
    }
  }

  // The scan stops exactly where the grammar says the identifier ends.
  lemma {:induction false} TagRestStops(data: Octets, index: nat, tag: int, last: nat)
    requires index <= last < |data| && data[last] < 0x80
    requires forall i | index <= i < last :: data[i] >= 0x80
    ensures TagRest(data, index, tag) == (Fold(tag, data[index..last + 1]), last + 1)
    decreases last - index
  {
    FoldFirst(tag, data[index], data[index + 1..last + 1]);
    assert data[index..last + 1] == [data[index]] + data[index + 1..last + 1];
    if index < last {
      TagRestStops(data, index + 1, Append8(tag, data[index]), last);
    }
  }

  lemma TagAtIsIdentifier(data: Octets, start: nat)
    requires start < |data| && TagAt(data, start).1 < |data|
    ensures IsIdentifier(data[start..TagAt(data, start).1], TagAt(data, start).0)
  {
    var next := TagAt(data, start).1;
    var t := data[start..next];
    assert t[1..] == data[start + 1..next];
    if data[start] % 32 == 31 {
      TagRestScans(data, start + 1, data[start]);
    }
  }

  lemma IdentifierIsTagAt(data: Octets, start: nat, next: nat, tag: int)
    requires start <= next <= |data| && IsIdentifier(data[start..next], tag)
    ensures start < |data| && TagAt(data, start) == (tag, next)
  {
    var t := data[start..next];
    assert t[1..] == data[start + 1..next];
    if data[start] % 32 == 31 {
      forall i | start + 1 <= i < next - 1 ensures data[i] >= 0x80 { assert data[i] == t[i - start]; }
      TagRestStops(data, start + 1, data[start], next - 1);
    }
  }

  lemma LengthAtIffLength(data: Octets, index: nat, end: nat, length: nat)
    ensures LengthAt(data, index) == Some((length, end))
            <==> index <= end <= |data| && IsLength(data[index..end], length)
  {
    if index <= end <= |data| {
      var l := data[index..end];
      if l != [] { assert l[1..] == data[index + 1..end]; }
    }
  }

  predicate IsHeader(data: Octets, start: nat, mid: nat, end: nat, tag: int, length: nat) {
    && start <= mid <= end <= |data|
    && IsIdentifier(data[start..mid], tag)
    && IsLength(data[mid..end], length)
  }

  lemma ReadHeaderIsHeader(data: Octets, start: nat)
    requires ReadHeader(data, start).Some?
    ensures var h := ReadHeader(data, start).value;
      start < |data| && IsHeader(data, start, TagAt(data, start).1, h.end, h.tag, h.length)
  {
    var h := ReadHeader(data, start).value;
    TagAtIsIdentifier(data, start);
    LengthAtIffLength(data, TagAt(data, start).1, h.end, h.length);
  }

  lemma HeaderIsRead(data: Octets, start: nat, mid: nat, end: nat, tag: int, length: nat)
    requires IsHeader(data, start, mid, end, tag, length)
    ensures ReadHeader(data, start) == Some(Header(tag, end, length))
  {
    IdentifierIsTagAt(data, start, mid, tag);
    LengthAtIffLength(data, mid, end, length);
  }

  // An element in place is a header in place, with its value inside the buffer.
  lemma SplitIsHeader(buf: Octets, offset: nat, total: nat, tag: int, headerLen: nat, t: nat)
    requires offset + total <= |buf| && t <= headerLen <= total
    ensures IsElementSplit(buf[offset..offset + total], tag, headerLen, t)
            <==> IsHeader(buf, offset, offset + t, offset + headerLen, tag, total - headerLen)
  {
    Slices(buf, offset, offset + total, 0, t);
    Slices(buf, offset, offset + total, t, headerLen);
  }

  // Whatever the offset decoder accepts is an element of the grammar, in place.
  lemma DecodedIsElement(buf: Octets, offset: nat)
    requires ElementAt(buf, offset).Some?
    ensures var e := ElementAt(buf, offset).value;
      && offset + e.totalLen <= |buf| && 2 <= e.headerLen <= e.totalLen
      && IsElement(buf[offset..offset + e.totalLen], e.tag, e.headerLen)
  {
    var e := ElementAt(buf, offset).value;
    var t := TagAt(buf, offset).1 - offset;
    ReadHeaderIsHeader(buf, offset);
    SplitIsHeader(buf, offset, e.totalLen, e.tag, e.headerLen, t);
    assert IsElementSplit(buf[offset..offset + e.totalLen], e.tag, e.headerLen, t);
  }

  // Whatever is an element of the grammar is accepted wherever it stands, with exactly its parts.
  lemma ElementIsDecoded(buf: Octets, offset: nat, total: nat, tag: int, headerLen: nat)
    requires offset + total <= |buf| && IsElement(buf[offset..offset + total], tag, headerLen)
    ensures ElementAt(buf, offset) == Some(Element(tag, headerLen, total))
  {
    var t: nat :| IsElementSplit(buf[offset..offset + total], tag, headerLen, t);
    assert t <= headerLen <= total;
    hide IsElementSplit, IsHeader, ReadHeader;
    SplitIsHeader(buf, offset, total, tag, headerLen, t);
    HeaderIsRead(buf, offset, offset + t, offset + headerLen, tag, total - headerLen);
  }

  // The two decoders accept the same inputs, and report the same tag, header, value and next offset;
  // each success consumes two octets or more, and its value is shorter than what is left.
  lemma DecodersAgree(data: Octets, start: nat)
    ensures DecodeOne(data, start).Some? <==> ElementAt(data, start).Some?
    ensures DecodeOne(data, start).Some? ==>
      var (node, next) := DecodeOne(data, start).value;
      var e := ElementAt(data, start).value;
      && node.tag == e.tag && next == start + e.totalLen <= |data| && e.totalLen >= 2
      && node.value == data[start + e.headerLen..next] && |node.value| < |data| - start
      && node.children == (if Constructed(data[start]) then Parse(node.value, 0) else [])
  {
    hide ReadHeader, Parse;
    var header := ReadHeader(data, start);
    if header.Some? {
      var h := header.value;
      if h.end + h.length <= |data| {
        var value := data[h.end..h.end + h.length];
        assert DecodeOne(data, start).value ==
          (Node(h.tag, value, if Constructed(data[start]) then Parse(value, 0) else []), h.end + h.length);
      }
    }
  }

  // The tree decoder against the grammar: it finds an element exactly where there is one.
  lemma DecodeOneIffElement(data: Octets, start: nat, next: nat)
    requires start <= next <= |data|
    ensures (exists node :: DecodeOne(data, start) == Some((node, next)))
            <==> exists tag, headerLen :: IsElement(data[start..next], tag, headerLen)
  {
    DecodersAgree(data, start);
    if node :| DecodeOne(data, start) == Some((node, next)) {
      DecodedIsElement(data, start);
      assert IsElement(data[start..next], ElementAt(data, start).value.tag, ElementAt(data, start).value.headerLen);
    }
    if tag, headerLen :| IsElement(data[start..next], tag, headerLen) {
      assert data[start..start + (next - start)] == data[start..next];
      ElementIsDecoded(data, start, next - start, tag, headerLen);
      assert DecodeOne(data, start) == Some((DecodeOne(data, start).value.0, next));
    }
  }
}
