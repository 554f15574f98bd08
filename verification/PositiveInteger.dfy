/**
 Sequence numbers as INTEGER contents octets (section 8.3 of ITU-T X.690), and the notification
 requests that carry them.
 */
module PositiveInteger {
  import opened Results
  import opened Bytes
  import opened BerTlv
  import opened TlvForest

  function Digits(value: nat): Octets {
    if value == 0 then [] else Digits(value / 256) + [value % 256]
  }

  // The shortest contents octets of a non-negative integer.
  function EncodePositive(value: nat): Octets {
    if value == 0 then [0]
    else if Digits(value) != [] && Digits(value)[0] >= 0x80 then [0] + Digits(value)
    else Digits(value)
  }

  function DecodePositive(encoded: Octets): Option<nat> {
    if encoded == [] || |encoded| > 9 || encoded[0] >= 0x80 then None
    else if |encoded| == 9 then
      if encoded[0] != 0 then None else Some(BigEndian(encoded[1..]))
    else Some(BigEndian(encoded))
  }

  lemma {:induction false} BigEndianFirst(first: Byte, rest: Octets)
    ensures BigEndian([first] + rest) == first * Pow256(|rest|) + BigEndian(rest)
  {
    if rest == [] {
      assert [first] + rest == [first] && [first][..0] == [];
    } else {
      var front := rest[..|rest| - 1];
      assert ([first] + rest)[..|rest|] == [first] + front;
      BigEndianFirst(first, front);
    }
  }

  // Digits without a leading zero are determined by their value.
  lemma {:induction false} DigitsUnique(octets: Octets)
    requires octets == [] || octets[0] != 0
    ensures Digits(BigEndian(octets)) == octets
  {
    if octets != [] {
      var front := octets[..|octets| - 1];
      DigitsUnique(front);
      if front == [] {
        assert BigEndian(octets) == octets[0] && octets == [octets[0]];
        assert Digits(octets[0] as int / 256) == [];
      } else {
        assert BigEndian(octets) / 256 == BigEndian(front) && BigEndian(octets) % 256 == octets[|octets| - 1];
        BigEndianFirst(front[0], front[1..]);
        assert front == [front[0]] + front[1..];
        PowGrows(0, |front[1..]|);
        assert octets == front + [octets[|octets| - 1]];
      }
    }
  }

  lemma {:induction false} DigitsValue(value: nat)
    ensures BigEndian(Digits(value)) == value
    ensures value > 0 ==> Digits(value) != [] && Digits(value)[0] != 0
  {
    if value > 0 {
      DigitsValue(value / 256);
      FoldAppend(0, Digits(value / 256), value % 256);
    }
  }

  lemma {:induction false} DigitsShort(value: nat, n: nat)
    requires value < Pow256(n)
    ensures |Digits(value)| <= n
  {
    if value > 0 { DigitsShort(value / 256, n - 1); }
  }

  lemma LeadingZero(octets: Octets)
    ensures BigEndian([0] + octets) == BigEndian(octets)
  {
    BigEndianFirst(0, octets);
  }

  // The buffer holds the low octets of the value, and `rest` what is still to come.
  predicate Filled(value: nat, rest: nat, tail: Octets) {
    && |tail| <= 8 && rest < Pow256(8 - |tail|)
    && value == rest * Pow256(|tail|) + BigEndian(tail)
  }

  lemma FillStarts(value: nat)
    requires value < TWO64
    ensures Filled(value, value, [])
  {
    assert Pow256(8) == TWO64;
  }

  lemma FillStep(value: nat, rest: nat, tail: Octets)
    requires Filled(value, rest, tail) && |tail| < 8
    ensures Filled(value, rest / 256, [rest % 256] + tail)
  {
    BigEndianFirst(rest % 256, tail);
    Carry(rest, Pow256(|tail|));
  }

  lemma FillEnds(value: nat, rest: nat, tail: Octets)
    requires Filled(value, rest, tail) && |tail| == 8
    ensures BigEndian(tail) == value
  {}

  // encodePositiveInteger: an eight-octet buffer filled from the end, then trimmed and padded.
  method EncodePositiveInteger(value: nat) returns (encoded: Octets)
    requires value < TWO64
    ensures encoded == EncodePositive(value)
  {
    if value == 0 { return [0]; }
    hide Filled, BigEndian, Digits;
    var buffer := new Byte[8];
    var rest := value;
    var index := 7;
    FillStarts(value);
    assert buffer[8..] == [];
    while index >= 0
      invariant -1 <= index <= 7
      invariant Filled(value, rest, buffer[index + 1..])
    {
      ghost var tail := buffer[index + 1..];
      FillStep(value, rest, tail);
      buffer[index] := rest % 256;
      assert buffer[index..] == [buffer[index]] + buffer[index + 1..] && buffer[index + 1..] == tail;
      rest := rest / 256;
      index := index - 1;
    }
    FillEnds(value, rest, buffer[0..]);
    encoded := buffer[..];
    assert encoded == buffer[0..];
    while |encoded| > 1 && encoded[0] == 0
      invariant encoded != [] && BigEndian(encoded) == value
    {
      LeadingZero(encoded[1..]);
      assert encoded == [0] + encoded[1..];
      encoded := encoded[1..];
    }
    assert BigEndian([0]) == 0 by { LeadingZero([]); var none: Octets := []; assert [0] + none == [0]; }
    assert encoded[0] == 0 ==> encoded == [0];
    DigitsUnique(encoded);
    if encoded[0] >= 0x80 { encoded := [0] + encoded; }
  }

  lemma Carry(value: nat, scale: nat)
    ensures value * scale == (value / 256) * (256 * scale) + (value % 256) * scale
  {
    assert value == (value / 256) * 256 + value % 256;
    assert ((value / 256) * 256 + value % 256) * scale == (value / 256) * 256 * scale + (value % 256) * scale;
  }

  // Every 64-bit sequence number survives the trip.
  lemma DecodeEncode(value: nat)
    requires value < TWO64
    ensures DecodePositive(EncodePositive(value)) == Some(value)
    ensures 1 <= |EncodePositive(value)| <= 9
  {
    assert Pow256(8) == TWO64;
    DigitsValue(value);
    DigitsShort(value, 8);
    LeadingZero(Digits(value));
    if value == 0 { LeadingZero([]); var none: Octets := []; assert [0] + none == [0]; }
    else if Digits(value)[0] >= 0x80 { assert ([0] + Digits(value))[1..] == Digits(value); }
  }

  // The first nine bits are not all alike (section 8.3.2), as far as a non-negative integer has them.
  predicate Shortest(e: Octets) {
    e != [] && (|e| == 1 || e[0] != 0 || e[1] >= 0x80)
  }

  // Among all octets that decode to a number, the encoder's are the only shortest ones.
  lemma EncodeDecodeIff(e: Octets)
    requires DecodePositive(e).Some?
    ensures EncodePositive(DecodePositive(e).value) == e <==> Shortest(e)
    ensures |EncodePositive(DecodePositive(e).value)| <= |e|
  {
    var value := DecodePositive(e).value;
    if |e| == 9 { LeadingZero(e[1..]); assert e == [0] + e[1..]; }
    assert BigEndian(e) == value;
    DigitsValue(value);
    BigEndianBound(e);
    DigitsShort(value, |e|);
    if e[0] != 0 {
      DigitsUnique(e);
      EncodesAsItself(e, value);
    } else if |e| == 1 {
      assert e == [0] && [0][..0] == [];
    } else {
      LeadingZero(e[1..]);
      assert e == [0] + e[1..];
      BigEndianBound(e[1..]);
      DigitsShort(value, |e| - 1);
      if e[1] != 0 { DigitsUnique(e[1..]); }
    }
  }

  lemma EncodesAsItself(e: Octets, value: nat)
    requires e != [] && 0 < e[0] < 0x80 && Digits(value) == e
    ensures EncodePositive(value) == e
  {}

  // ---- Requests that carry a sequence number ----------------------------------------------------

  function BuildRetrieve(sequence: Option<nat>): Octets {
    match sequence
    case None => Construct(0xBF2B, [])
    case Some(n) => Construct(0xBF2B, [Construct(0xA0, [Encode(0x80, EncodePositive(n))])])
  }

  function BuildRemove(sequence: nat): Octets {
    Construct(0xBF30, [Encode(0x80, EncodePositive(sequence))])
  }

  lemma FlattenOne(part: Octets)
    ensures Flatten([part]) == part
  {
    assert [part][1..] == [] && part + [] == part;
  }

  lemma ForestOfOne(t: Tlv)
    ensures EncodeForest([t]) == EncodeTlv(t) && NodesOf([t]) == [NodeOf(t)]
    ensures WellFormed(t) ==> WellFormedForest([t])
  {
    assert [t][1..] == [] && EncodeTlv(t) + [] == EncodeTlv(t);
  }

  // A sequence number under 0x80, inside the given constructed tags.
  function Wrapped(tags: seq<int>, n: nat): Tlv {
    if tags == [] then Primitive(0x80, EncodePositive(n)) else Compound(tags[0], [Wrapped(tags[1..], n)])
  }

  predicate Wrapper(tag: int) {
    ValidTag(tag) && tag != 0x80 && EncodeTag(tag) != [] && EncodeTag(tag)[0] % 64 >= 32
  }

  lemma {:induction false} WrappedIsWellFormed(tags: seq<int>, n: nat)
    requires n < TWO64 && |tags| <= 2 && forall t | t in tags :: Wrapper(t)
    ensures WellFormed(Wrapped(tags, n)) && |EncodeTlv(Wrapped(tags, n))| <= 20 + 10 * |tags|
    ensures FindAll([NodeOf(Wrapped(tags, n))], 0x80) != []
    ensures FindAll([NodeOf(Wrapped(tags, n))], 0x80)[0].value == EncodePositive(n)
  {
    DecodeEncode(n);
    var t := Wrapped(tags, n);
    assert EncodeTag(0x80) == [0x80];
    if tags != [] {
      assert Wrapper(tags[0]) by { assert tags[0] in tags; }
      var inner := Wrapped(tags[1..], n);
      WrappedIsWellFormed(tags[1..], n);
      ForestOfOne(inner);
      TagOctets(tags[0]);
      assert NodeOf(t) == Node(tags[0], EncodeTlv(inner), [NodeOf(inner)]);
      assert [NodeOf(t)][1..] == [];
      assert FindAll([NodeOf(t)], 0x80) == [] + FindAll([NodeOf(inner)], 0x80) + [];
    }
  }

  // Searching a built request for its sequence number finds exactly the number it was built for.
  lemma RequestsCarrySequence(n: nat)
    requires n < TWO64
    ensures FindValue(BuildRetrieve(Some(n)), 0x80) == Some(EncodePositive(n))
    ensures FindValue(BuildRemove(n), 0x80) == Some(EncodePositive(n))
    ensures DecodePositive(EncodePositive(n)) == Some(n)
  {
    assert Wrapper(0xBF2B) && Wrapper(0xA0) && Wrapper(0xBF30) by {
      TagOctets(0xBF2B);
      TagOctets(0xA0);
      TagOctets(0xBF30);
    }
    DecodeEncode(n);
    RequestIsWrapped([0xBF2B, 0xA0], n);
    RequestIsWrapped([0xBF30], n);
    var leaf, inner := Encode(0x80, EncodePositive(n)), Wrapped([0xA0], n);
    FlattenOne(leaf);
    FlattenOne(Construct(0xA0, [leaf]));
    ForestOfOne(Wrapped([], n));
    ForestOfOne(inner);
    assert [0xA0][1..] == [] && [0xBF30][1..] == [] && [0xBF2B, 0xA0][1..] == [0xA0];
    assert EncodeTlv(inner) == Encode(0xA0, leaf);
  }

  lemma RequestIsWrapped(tags: seq<int>, n: nat)
    requires n < TWO64 && |tags| <= 2 && forall t | t in tags :: Wrapper(t)
    ensures FindValue(EncodeTlv(Wrapped(tags, n)), 0x80) == Some(EncodePositive(n))
  {
    var t := Wrapped(tags, n);
    WrappedIsWellFormed(tags, n);
    ForestOfOne(t);
    ParseEncode([t]);
  }

  lemma ShortForm(tag: int, head: Octets, value: Octets)
    requires EncodeTag(tag) == head && |value| < 128
    ensures Encode(tag, value) == head + [|value|] + value
  {}

  // The element every request ends with.
  lemma LeafOctets(n: nat)
    requires n < TWO64
    ensures var e := EncodePositive(n); |e| <= 9 && Flatten([Encode(0x80, e)]) == Encode(0x80, e) == [0x80, |e|] + e
  {
    DecodeEncode(n);
    TagOctets(0x80);
    hide EncodeTag, EncodePositive, Encode, Flatten;
    ShortForm(0x80, [0x80], EncodePositive(n));
    FlattenOne(Encode(0x80, EncodePositive(n)));
  }

  lemma RemoveOctets(n: nat)
    requires n < TWO64
    ensures var e := EncodePositive(n); BuildRemove(n) == [0xBF, 0x30, |e| + 2, 0x80, |e|] + e
  {
    LeafOctets(n);
    TagOctets(0xBF30);
    hide EncodeTag, EncodePositive, Encode, Flatten;
    ShortForm(0xBF30, [0xBF, 0x30], [0x80, |EncodePositive(n)|] + EncodePositive(n));
  }

  lemma RetrieveOctets(n: nat)
    requires n < TWO64
    ensures var e := EncodePositive(n);
            BuildRetrieve(Some(n)) == [0xBF, 0x2B, |e| + 4, 0xA0, |e| + 2, 0x80, |e|] + e
  {
    LeafOctets(n);
    TagOctets(0xA0);
    TagOctets(0xBF2B);
    hide EncodeTag, EncodePositive, Encode, Flatten, Construct;
    var e := EncodePositive(n);
    var l, k, m := |e|, |e| + 2, |e| + 4;
    var leaf: Octets := [0x80, l] + e;
    ShortConstruct(0xA0, [0xA0], [Encode(0x80, e)], leaf);
    Glue([0xA0], [k], [0x80, l], e);
    var inner: Octets := [0xA0] + [k] + leaf;
    FlattenOne(inner);
    ShortConstruct(0xBF2B, [0xBF, 0x2B], [inner], inner);
    Glue([0xBF, 0x2B], [m], [0xA0] + [k] + [0x80, l], e);
    assert [0xBF, 0x2B] + [m] + ([0xA0] + [k] + [0x80, l]) == [0xBF, 0x2B, m, 0xA0, k, 0x80, l];
  }

  lemma Glue(a: Octets, b: Octets, c: Octets, e: Octets)
    ensures a + b + (c + e) == (a + b + c) + e
  {}

  lemma ShortConstruct(tag: int, head: Octets, parts: seq<Octets>, content: Octets)
    requires EncodeTag(tag) == head && Flatten(parts) == content && |content| < 128
    ensures Construct(tag, parts) == head + [|content|] + content
  {
    hide Flatten, EncodeTag;
    ShortForm(tag, head, content);
  }

  /** The three requests, octet by octet. */
  lemma RequestOctets(n: nat)
    requires n < TWO64
    ensures var e := EncodePositive(n);
            && BuildRetrieve(None) == [0xBF, 0x2B, 0]
            && BuildRetrieve(Some(n)) == [0xBF, 0x2B, |e| + 4, 0xA0, |e| + 2, 0x80, |e|] + e
            && BuildRemove(n) == [0xBF, 0x30, |e| + 2, 0x80, |e|] + e
  {
    hide BuildRemove, EncodePositive;
    RetrieveOctets(n);
    RemoveOctets(n);
    TagOctets(0xBF2B);
    hide EncodeTag, Encode, Flatten;
    FlattenNone();
    ShortForm(0xBF2B, [0xBF, 0x2B], []);
  }

  lemma FlattenNone()
    ensures Flatten([]) == []
  {}
}
