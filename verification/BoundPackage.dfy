/**
 Cutting a BoundProfilePackage (BF36) into the slices the card loads: the package header with its
 first child, then every further child whole, except that the sequences A1 and A3 go as their
 header followed by each of their children (section 2.5.5 of SGP.22).
 */
module BoundPackage {
  import opened Results
  import opened Bytes
  import opened BerTlv
  import opened TlvForest

  // The first BF36 element at top level: its offset and its element.
  function FindPackage(bpp: Octets, offset: nat): Option<(nat, Element)>
    decreases |bpp| - offset
  {
    if offset >= |bpp| then None
    else
      match ElementAt(bpp, offset)
      case None => None
      case Some(e) => if e.tag == 0xBF36 then Some((offset, e)) else FindPackage(bpp, offset + e.totalLen)
  }

  // One slice per element from child on, until the end is reached or passed.
  function ChildSegments(bpp: Octets, child: nat, end: nat): Option<seq<Octets>>
    decreases |bpp| - child
  {
    if child >= end then Some([])
    else
      match ElementAt(bpp, child)
      case None => None
      case Some(e) =>
        match ChildSegments(bpp, child + e.totalLen, end)
        case None => None
        case Some(rest) => Some([bpp[child..child + e.totalLen]] + rest)
  }

  predicate Split(tag: int) { tag == 0xA1 || tag == 0xA3 }

  // The slices of the element at cursor.
  function ElementSegments(bpp: Octets, cursor: nat, e: Element): Option<seq<Octets>>
    requires ElementAt(bpp, cursor) == Some(e)
  {
    if Split(e.tag) then
      match ChildSegments(bpp, cursor + e.headerLen, cursor + e.totalLen)
      case None => None
      case Some(children) => Some([bpp[cursor..cursor + e.headerLen]] + children)
    else Some([bpp[cursor..cursor + e.totalLen]])
  }

  function BodySegments(bpp: Octets, cursor: nat, end: nat): Option<seq<Octets>>
    decreases |bpp| - cursor
  {
    if cursor >= end then Some([])
    else
      match ElementAt(bpp, cursor)
      case None => None
      case Some(e) =>
        match ElementSegments(bpp, cursor, e)
        case None => None
        case Some(here) =>
          match BodySegments(bpp, cursor + e.totalLen, end)
          case None => None
          case Some(rest) => Some(here + rest)
  }

  function Segments(bpp: Octets): Option<seq<Octets>> {
    match FindPackage(bpp, 0)
    case None => None
    case Some((start, e)) =>
      match ElementAt(bpp, start + e.headerLen)
      case None => None
      case Some(first) =>
        FindsInside(bpp, 0);
        var cursor := start + e.headerLen + first.totalLen;
        match BodySegments(bpp, cursor, start + e.totalLen)
        case None => None
        case Some(rest) => Some([bpp[start..cursor]] + rest)
  }

  lemma {:induction false} FindsInside(bpp: Octets, offset: nat)
    requires FindPackage(bpp, offset).Some?
    ensures var (start, e) := FindPackage(bpp, offset).value;
      && ElementAt(bpp, start) == Some(e) && e.tag == 0xBF36 && start >= offset
      && 2 <= e.headerLen <= e.totalLen && start + e.totalLen <= |bpp|
    decreases |bpp| - offset
  {
    hide ElementAt;
    var e := ElementAt(bpp, offset).value;
    if e.tag != 0xBF36 { FindsInside(bpp, offset + e.totalLen); }
  }

  // Slices found so far, before those still to come.
  function Before(segments: seq<Octets>, rest: Option<seq<Octets>>): Option<seq<Octets>> {
    match rest case None => None case Some(more) => Some(segments + more)
  }

  lemma BodyStep(bpp: Octets, cursor: nat, end: nat, segments: seq<Octets>)
    requires cursor < end
    ensures var all := Before(segments, BodySegments(bpp, cursor, end));
      match ElementAt(bpp, cursor)
      case None => all == None
      case Some(e) =>
        match ElementSegments(bpp, cursor, e)
        case None => all == None
        case Some(here) => all == Before(segments + here, BodySegments(bpp, cursor + e.totalLen, end))
  {
    hide ElementAt, ElementSegments;
    if ElementAt(bpp, cursor).Some? {
      var e := ElementAt(bpp, cursor).value;
      var rest := BodySegments(bpp, cursor + e.totalLen, end);
      if ElementSegments(bpp, cursor, e).Some? && rest.Some? {
        var here := ElementSegments(bpp, cursor, e).value;
        assert segments + (here + rest.value) == (segments + here) + rest.value;
      }
    }
  }

  lemma BodyEnds(bpp: Octets, cursor: nat, end: nat, segments: seq<Octets>)
    requires cursor >= end
    ensures Before(segments, BodySegments(bpp, cursor, end)) == Some(segments)
  {
    assert segments + [] == segments;
  }

  lemma ChildStep(bpp: Octets, child: nat, end: nat, segments: seq<Octets>)
    requires child < end
    ensures var all := Before(segments, ChildSegments(bpp, child, end));
      match ElementAt(bpp, child)
      case None => all == None
      case Some(e) =>
        all == Before(segments + [bpp[child..child + e.totalLen]], ChildSegments(bpp, child + e.totalLen, end))
  {
    hide ElementAt;
    if ElementAt(bpp, child).Some? {
      var e := ElementAt(bpp, child).value;
      var slice, rest := bpp[child..child + e.totalLen], ChildSegments(bpp, child + e.totalLen, end);
      if rest.Some? { assert segments + ([slice] + rest.value) == (segments + [slice]) + rest.value; }
    }
  }

  lemma ChildrenEnd(bpp: Octets, child: nat, end: nat, segments: seq<Octets>)
    requires child >= end
    ensures Before(segments, ChildSegments(bpp, child, end)) == Some(segments)
  {
    assert segments + [] == segments;
  }

  // segmentBoundProfilePackage, walking the package by offset.
  method SegmentBoundProfilePackage(bpp: Octets) returns (r: Option<seq<Octets>>)
    ensures r == Segments(bpp)
  {
    hide ElementAt, BodySegments, ElementSegments;
    var offset := 0;
    var package: Option<(nat, Element)> := None;
    while offset < |bpp|
      invariant 0 <= offset <= |bpp| && package.None? && FindPackage(bpp, 0) == FindPackage(bpp, offset)
      decreases |bpp| - offset
    {
      var e := DerElementAt(bpp, offset);
      if e.None? { return None; }
      if e.value.tag == 0xBF36 {
        package := Some((offset, e.value));
        break;
      }
      offset := offset + e.value.totalLen;
    }
    if package.None? { return None; }
    FindsInside(bpp, 0);
    var start, e := package.value.0, package.value.1;
    var first := DerElementAt(bpp, start + e.headerLen);
    if first.None? { return None; }
    var cursor := start + e.headerLen + first.value.totalLen;
    r := WalkBody(bpp, cursor, start + e.totalLen, bpp[start..cursor]);
  }

  // The walk over the body, after the header and the first element.
  method WalkBody(bpp: Octets, from: nat, end: nat, head: Octets) returns (r: Option<seq<Octets>>)
    ensures r == Before([head], BodySegments(bpp, from, end))
  {
    hide BodySegments, ElementAt, ElementSegments, Before;
    var segments, cursor := [head], from;
    while cursor < end
      invariant Before(segments, BodySegments(bpp, cursor, end)) == Before([head], BodySegments(bpp, from, end))
      decreases end - cursor
    {
      BodyStep(bpp, cursor, end, segments);
      var e := DerElementAt(bpp, cursor);
      if e.None? { return None; }
      var here := WalkElement(bpp, cursor, e.value);
      if here.None? { return None; }
      segments := segments + here.value;
      cursor := cursor + e.value.totalLen;
    }
    BodyEnds(bpp, cursor, end, segments);
    r := Some(segments);
  }

  // The switch on the tag inside the walk.
  method WalkElement(bpp: Octets, cursor: nat, e: Element) returns (r: Option<seq<Octets>>)
    requires ElementAt(bpp, cursor) == Some(e)
    ensures r == ElementSegments(bpp, cursor, e)
  {
    hide ElementAt, ChildSegments;
    if !Split(e.tag) { return Some([bpp[cursor..cursor + e.totalLen]]); }
    var segments := [bpp[cursor..cursor + e.headerLen]];
    var child, end := cursor + e.headerLen, cursor + e.totalLen;
    ghost var all := Before(segments, ChildSegments(bpp, child, end));
    while child < end
      invariant Before(segments, ChildSegments(bpp, child, end)) == all
      decreases end - child
    {
      ChildStep(bpp, child, end, segments);
      var one := DerElementAt(bpp, child);
      if one.None? { return None; }
      segments := segments + [bpp[child..child + one.value.totalLen]];
      child := child + one.value.totalLen;
    }
    ChildrenEnd(bpp, child, end, segments);
    r := Some(segments);
  }

  // ---- When the slices are the package -----------------------------------------------------------

  // Elements fill the range exactly.
  predicate Tiles(bpp: Octets, from: nat, to: nat)
    decreases |bpp| - from
  {
    from == to || (from < to && ElementAt(bpp, from).Some?
                   && from + ElementAt(bpp, from).value.totalLen <= to
                   && Tiles(bpp, from + ElementAt(bpp, from).value.totalLen, to))
  }

  // Elements fill the range exactly, and so do the children of every A1 and A3 among them.
  predicate BodyTiles(bpp: Octets, from: nat, to: nat)
    decreases |bpp| - from
  {
    from == to || (from < to && ElementAt(bpp, from).Some?
                   && var e := ElementAt(bpp, from).value;
                   && from + e.totalLen <= to
                   && (e.tag == 0xA1 || e.tag == 0xA3 ==> Tiles(bpp, from + e.headerLen, from + e.totalLen))
                   && BodyTiles(bpp, from + e.totalLen, to))
  }

  predicate PackageTiles(bpp: Octets) {
    && FindPackage(bpp, 0).Some?
    && var (start, e) := FindPackage(bpp, 0).value;
    && ElementAt(bpp, start + e.headerLen).Some?
    && BodyTiles(bpp, start + e.headerLen + ElementAt(bpp, start + e.headerLen).value.totalLen, start + e.totalLen)
  }

  lemma {:induction false} ChildrenCover(bpp: Octets, child: nat, end: nat)
    requires child <= end <= |bpp|
    ensures Tiles(bpp, child, end) ==>
      ChildSegments(bpp, child, end).Some? && Flatten(ChildSegments(bpp, child, end).value) == bpp[child..end]
    ensures ChildSegments(bpp, child, end).Some? ==>
      && |Flatten(ChildSegments(bpp, child, end).value)| >= end - child
      && (|Flatten(ChildSegments(bpp, child, end).value)| == end - child ==> Tiles(bpp, child, end))
    decreases |bpp| - child
  {
    hide ElementAt;
    if child < end && ElementAt(bpp, child).Some? {
      var next := child + ElementAt(bpp, child).value.totalLen;
      if next <= end {
        ChildrenCover(bpp, next, end);
        assert bpp[child..next] + bpp[next..end] == bpp[child..end];
      }
    }
  }

  lemma ElementCovers(bpp: Octets, cursor: nat, e: Element)
    requires ElementAt(bpp, cursor) == Some(e)
    ensures var tiled := Split(e.tag) ==> Tiles(bpp, cursor + e.headerLen, cursor + e.totalLen);
      && cursor + e.totalLen <= |bpp|
      && (tiled ==> ElementSegments(bpp, cursor, e).Some?
                    && Flatten(ElementSegments(bpp, cursor, e).value) == bpp[cursor..cursor + e.totalLen])
      && (ElementSegments(bpp, cursor, e).Some? ==>
            && |Flatten(ElementSegments(bpp, cursor, e).value)| >= e.totalLen
            && (|Flatten(ElementSegments(bpp, cursor, e).value)| == e.totalLen ==> tiled))
  {
    hide ElementAt;
    var mid, end := cursor + e.headerLen, cursor + e.totalLen;
    assert bpp[cursor..mid] + bpp[mid..end] == bpp[cursor..end];
    assert [bpp[cursor..end]][1..] == [] && bpp[cursor..end] + [] == bpp[cursor..end];
    if Split(e.tag) { ChildrenCover(bpp, mid, end); }
  }

  lemma {:induction false} BodyCovers(bpp: Octets, cursor: nat, end: nat)
    requires cursor <= end <= |bpp|
    ensures BodyTiles(bpp, cursor, end) ==>
      BodySegments(bpp, cursor, end).Some? && Flatten(BodySegments(bpp, cursor, end).value) == bpp[cursor..end]
    ensures BodySegments(bpp, cursor, end).Some? ==>
      && |Flatten(BodySegments(bpp, cursor, end).value)| >= end - cursor
      && (|Flatten(BodySegments(bpp, cursor, end).value)| == end - cursor ==> BodyTiles(bpp, cursor, end))
    decreases |bpp| - cursor
  {
    hide ElementAt, Tiles, ElementSegments;
    if cursor < end && ElementAt(bpp, cursor).Some? {
      var e := ElementAt(bpp, cursor).value;
      var next := cursor + e.totalLen;
      ElementCovers(bpp, cursor, e);
      var here, rest := ElementSegments(bpp, cursor, e), BodySegments(bpp, next, end);
      if here.Some? && rest.Some? { FlattenAppends(here.value, rest.value); }
      if next <= end {
        BodyCovers(bpp, next, end);
        assert bpp[cursor..next] + bpp[next..end] == bpp[cursor..end];
      }
    }
  }

  // The slices reassemble to the package element exactly when its elements tile their parents.
  // Without that the cutter can succeed on bytes past a parent's end, since it checks elements
  // against the whole buffer only.
  lemma SegmentsReassembleIff(bpp: Octets)
    requires FindPackage(bpp, 0).Some?
    ensures var (start, e) := FindPackage(bpp, 0).value;
      start + e.totalLen <= |bpp|
      && ((Segments(bpp).Some? && Flatten(Segments(bpp).value) == bpp[start..start + e.totalLen])
          <==> PackageTiles(bpp))
  {
    hide ElementAt, FindPackage, BodySegments, BodyTiles;
    FindsInside(bpp, 0);
    var (start, e) := FindPackage(bpp, 0).value;
    var one := ElementAt(bpp, start + e.headerLen);
    if one.Some? {
      var cursor, end := start + e.headerLen + one.value.totalLen, start + e.totalLen;
      if cursor <= end {
        BodyCovers(bpp, cursor, end);
        if BodySegments(bpp, cursor, end).Some? {
          HeadCovers(bpp, start, cursor, end, BodySegments(bpp, cursor, end).value);
        }
      } else {
        PastTheEnd(bpp, cursor, end);
        HeadOverruns(bpp, start, cursor, end);
      }
    }
  }

  lemma ShortElement(buf: Octets, offset: nat)
    requires offset + 2 <= |buf| && buf[offset] % 32 != 31 && buf[offset + 1] < 0x80
    requires offset + 2 + buf[offset + 1] <= |buf|
    ensures ElementAt(buf, offset) == Some(Element(buf[offset], 2, 2 + buf[offset + 1]))
  {}

  // A BF36 element with one A1 whose only child claims three octets beyond it, and beyond the package.
  const OVERRUN: Octets := [0xBF, 0x36, 6, 0x80, 0, 0xA1, 2, 0x81, 3, 0, 0, 0]

  lemma OverrunHead()
    ensures ElementAt(OVERRUN, 0) == Some(Element(0xBF36, 3, 9))
  {
    assert TagRest(OVERRUN, 1, 0xBF) == (0xBF36, 2);
  }

  lemma OverrunElements()
    ensures ElementAt(OVERRUN, 0) == Some(Element(0xBF36, 3, 9))
    ensures ElementAt(OVERRUN, 3) == Some(Element(0x80, 2, 2))
    ensures ElementAt(OVERRUN, 5) == Some(Element(0xA1, 2, 4))
    ensures ElementAt(OVERRUN, 7) == Some(Element(0x81, 2, 5))
  {
    OverrunHead();
    ShortElement(OVERRUN, 3);
    ShortElement(OVERRUN, 5);
    ShortElement(OVERRUN, 7);
  }

  lemma OverrunBody()
    ensures BodySegments(OVERRUN, 5, 9) == Some([OVERRUN[5..7], OVERRUN[7..12]])
    ensures !BodyTiles(OVERRUN, 5, 9)
  {
    OverrunElements();
    hide ElementAt;
    assert ChildSegments(OVERRUN, 12, 9) == Some([]);
    assert ChildSegments(OVERRUN, 7, 9) == Some([OVERRUN[7..12]] + []);
    assert BodySegments(OVERRUN, 9, 9) == Some([]);
    var here := [OVERRUN[5..7]] + ([OVERRUN[7..12]] + []);
    assert ElementSegments(OVERRUN, 5, Element(0xA1, 2, 4)) == Some(here);
    assert BodySegments(OVERRUN, 5, 9) == Some(here + []);
    assert here + [] == [OVERRUN[5..7], OVERRUN[7..12]];
    assert !Tiles(OVERRUN, 7, 9);
  }

  /** It does not tile, yet it is segmented: into all twelve octets, of which the package has nine. */
  lemma OverrunIsSegmented()
    ensures FindPackage(OVERRUN, 0) == Some((0, Element(0xBF36, 3, 9))) && !PackageTiles(OVERRUN)
    ensures Segments(OVERRUN) == Some([OVERRUN[0..5], OVERRUN[5..7], OVERRUN[7..12]])
  {
    OverrunElements();
    OverrunBody();
    hide ElementAt, BodySegments, BodyTiles;
    assert FindPackage(OVERRUN, 0) == Some((0, Element(0xBF36, 3, 9)));
    assert [OVERRUN[0..5]] + [OVERRUN[5..7], OVERRUN[7..12]] == [OVERRUN[0..5], OVERRUN[5..7], OVERRUN[7..12]];
  }

  lemma HeadCovers(bpp: Octets, start: nat, cursor: nat, end: nat, rest: seq<Octets>)
    requires start <= cursor <= end <= |bpp| && |Flatten(rest)| >= end - cursor
    ensures Flatten(rest) == bpp[cursor..end] ==> Flatten([bpp[start..cursor]] + rest) == bpp[start..end]
    ensures Flatten([bpp[start..cursor]] + rest) == bpp[start..end] ==> |Flatten(rest)| == end - cursor
  {
    assert ([bpp[start..cursor]] + rest)[1..] == rest;
    assert bpp[start..cursor] + bpp[cursor..end] == bpp[start..end];
  }

  lemma HeadOverruns(bpp: Octets, start: nat, cursor: nat, end: nat)
    requires start <= end < cursor <= |bpp|
    ensures Flatten([bpp[start..cursor]] + []) != bpp[start..end]
  {
    assert ([bpp[start..cursor]] + [])[1..] == [];
  }

  lemma PastTheEnd(bpp: Octets, cursor: nat, end: nat)
    requires cursor > end
    ensures BodySegments(bpp, cursor, end) == Some([]) && !BodyTiles(bpp, cursor, end)
  {}

  lemma {:induction false} ChildSlicesNonEmpty(bpp: Octets, child: nat, end: nat)
    requires ChildSegments(bpp, child, end).Some?
    ensures forall s | s in ChildSegments(bpp, child, end).value :: s != []
    decreases |bpp| - child
  {
    hide ElementAt;
    if child < end {
      ChildSlicesNonEmpty(bpp, child + ElementAt(bpp, child).value.totalLen, end);
    }
  }

  lemma {:induction false} BodySlicesNonEmpty(bpp: Octets, cursor: nat, end: nat)
    requires BodySegments(bpp, cursor, end).Some?
    ensures forall s | s in BodySegments(bpp, cursor, end).value :: s != []
    decreases |bpp| - cursor
  {
    hide ElementAt;
    if cursor < end {
      var e := ElementAt(bpp, cursor).value;
      if Split(e.tag) { ChildSlicesNonEmpty(bpp, cursor + e.headerLen, cursor + e.totalLen); }
      BodySlicesNonEmpty(bpp, cursor + e.totalLen, end);
    }
  }

  lemma SlicesNonEmpty(bpp: Octets)
    requires Segments(bpp).Some?
    ensures Segments(bpp).value != [] && forall s | s in Segments(bpp).value :: s != []
  {
    hide ElementAt;
    FindsInside(bpp, 0);
    var (start, e) := FindPackage(bpp, 0).value;
    var cursor := start + e.headerLen + ElementAt(bpp, start + e.headerLen).value.totalLen;
    BodySlicesNonEmpty(bpp, cursor, start + e.totalLen);
  }

  // ---- The slices of an encoded package ----------------------------------------------------------

  function HeaderOf(t: Tlv): Octets { EncodeTag(t.tag) + EncodeLength(|Content(t)|) }

  function EncodingsOf(ts: seq<Tlv>): seq<Octets> {
    if ts == [] then [] else [EncodeTlv(ts[0])] + EncodingsOf(ts[1..])
  }

  // What the card is to receive for one child of the package: sequenceOf88 and sequenceOf86 piece by piece.
  function SlicesOf(t: Tlv): seq<Octets> {
    if t.Compound? && (t.tag == 0xA1 || t.tag == 0xA3) then [HeaderOf(t)] + EncodingsOf(t.parts) else [EncodeTlv(t)]
  }

  function AllSlices(ts: seq<Tlv>): seq<Octets> {
    if ts == [] then [] else SlicesOf(ts[0]) + AllSlices(ts[1..])
  }

  lemma {:induction false} ElementInPlace(before: Octets, t: Tlv, after: Octets)
    requires WellFormed(t)
    ensures ElementAt(before + EncodeTlv(t) + after, |before|)
            == Some(Element(t.tag, |HeaderOf(t)|, |EncodeTlv(t)|))
    ensures EncodeTlv(t) == HeaderOf(t) + Content(t)
  {
    hide ElementAt, IsElement, ValidTag;
    var e := EncodeTlv(t);
    var data := before + e + after;
    assert e == Encode(t.tag, Content(t));
    EncodedIsElement(t.tag, Content(t));
    assert data[|before|..|before| + |e|] == e;
    ElementIsDecoded(data, |before|, |e|, t.tag, |HeaderOf(t)|);
  }

  lemma Rejoin(before: Octets, first: Octets, others: Octets, after: Octets)
    ensures before + (first + others) + after == before + first + (others + after)
    ensures before + (first + others) + after == (before + first) + others + after
  {}

  lemma {:induction false} ChildrenInPlace(before: Octets, ts: seq<Tlv>, after: Octets)
    requires WellFormedForest(ts)
    ensures ChildSegments(before + EncodeForest(ts) + after, |before|, |before| + |EncodeForest(ts)|)
            == Some(EncodingsOf(ts))
    decreases |ts|
  {
    hide ElementAt, WellFormed, EncodeTlv, ChildSegments;
    var data := before + EncodeForest(ts) + after;
    if ts == [] {
      ChildrenEnd(data, |before|, |before|, []);
      NoneBefore(ChildSegments(data, |before|, |before|));
    } else {
      var t, rest := ts[0], ts[1..];
      var (first, others) := (EncodeTlv(t), EncodeForest(rest));
      Rejoin(before, first, others, after);
      ElementInPlace(before, t, others + after);
      ChildrenInPlace(before + first, rest, after);
      Inside(before, first, others + after);
      ElementNonEmpty(data, |before|);
      ChildStep(data, |before|, |before| + |EncodeForest(ts)|, []);
      NoneBefore(ChildSegments(data, |before|, |before| + |EncodeForest(ts)|));
      assert [] + [first] == [first];
    }
  }

  lemma NoneBefore(rest: Option<seq<Octets>>)
    ensures Before([], rest) == rest
  {
    if rest.Some? { assert [] + rest.value == rest.value; }
  }

  lemma Inside(before: Octets, x: Octets, after: Octets)
    ensures (before + x + after)[|before|..|before| + |x|] == x
  {}

  lemma ElementNonEmpty(data: Octets, at: nat)
    ensures ElementAt(data, at).Some? ==> ElementAt(data, at).value.totalLen > 0
  {}

  lemma SplitSlices(data: Octets, cursor: nat, e: Element, header: Octets, children: seq<Octets>)
    requires ElementAt(data, cursor) == Some(e) && Split(e.tag)
    requires ChildSegments(data, cursor + e.headerLen, cursor + e.totalLen) == Some(children)
    requires data[cursor..cursor + e.headerLen] == header
    ensures ElementSegments(data, cursor, e) == Some([header] + children)
  {
    hide ElementAt, ChildSegments;
  }

  lemma {:induction false} ElementSlices(before: Octets, t: Tlv, after: Octets)
    requires WellFormed(t)
    ensures var data := before + EncodeTlv(t) + after;
      && ElementAt(data, |before|) == Some(Element(t.tag, |HeaderOf(t)|, |EncodeTlv(t)|))
      && ElementSegments(data, |before|, ElementAt(data, |before|).value) == Some(SlicesOf(t))
  {
    hide ElementAt, EncodeTlv, HeaderOf, WellFormed, ChildSegments, EncodingsOf;
    var data, header, content := before + EncodeTlv(t) + after, HeaderOf(t), Content(t);
    ElementInPlace(before, t, after);
    Regroup(before, header, content, after);
    if Split(t.tag) {
      hide ElementSegments;
      SplitIsCompound(t);
      ChildrenInPlace(before + header, t.parts, after);
      SplitSlices(data, |before|, ElementAt(data, |before|).value, header, EncodingsOf(t.parts));
    }
  }

  lemma SplitIsCompound(t: Tlv)
    requires WellFormed(t) && Split(t.tag)
    ensures t.Compound? && WellFormedForest(t.parts)
  {
    TagOctets(t.tag);
  }

  lemma {:induction false} BodyInPlace(before: Octets, ts: seq<Tlv>, after: Octets)
    requires WellFormedForest(ts)
    ensures BodySegments(before + EncodeForest(ts) + after, |before|, |before| + |EncodeForest(ts)|)
            == Some(AllSlices(ts))
    decreases |ts|
  {
    hide ElementAt, WellFormed, EncodeTlv, ElementSegments, SlicesOf;
    if ts != [] {
      var t, rest := ts[0], ts[1..];
      var data := before + EncodeForest(ts) + after;
      assert data == before + EncodeTlv(t) + (EncodeForest(rest) + after);
      assert data == (before + EncodeTlv(t)) + EncodeForest(rest) + after;
      ElementSlices(before, t, EncodeForest(rest) + after);
      BodyInPlace(before + EncodeTlv(t), rest, after);
    }
  }

  lemma {:induction false} OthersSkipped(done: Octets, ts: seq<Tlv>, rest: Octets)
    requires WellFormedForest(ts) && forall t | t in ts :: t.tag != 0xBF36
    ensures FindPackage(done + EncodeForest(ts) + rest, |done|)
            == FindPackage(done + EncodeForest(ts) + rest, |done + EncodeForest(ts)|)
    decreases |ts|
  {
    hide ElementAt, WellFormed, EncodeTlv;
    if ts != [] {
      assert ts[0] in ts && forall t | t in ts[1..] :: t in ts;
      var (first, others) := (EncodeTlv(ts[0]), EncodeForest(ts[1..]));
      Rejoin(done, first, others, rest);
      ElementInPlace(done, ts[0], others + rest);
      OthersSkipped(done + first, ts[1..], rest);
      assert done + (first + others) == (done + first) + others;
    }
  }

  lemma {:induction false} PackageFound(others: seq<Tlv>, package: Tlv, after: Octets)
    requires WellFormedForest(others) && forall t | t in others :: t.tag != 0xBF36
    requires WellFormed(package) && package.tag == 0xBF36
    ensures var before := EncodeForest(others);
            FindPackage(before + EncodeTlv(package) + after, 0)
            == Some((|before|, Element(0xBF36, |HeaderOf(package)|, |EncodeTlv(package)|)))
  {
    hide ElementAt, EncodeTlv, EncodeForest, HeaderOf, WellFormed;
    var before := EncodeForest(others);
    OthersSkipped([], others, EncodeTlv(package) + after);
    assert [] + before == before && before + (EncodeTlv(package) + after) == before + EncodeTlv(package) + after;
    ElementInPlace(before, package, after);
  }

  // Whatever an SM-DP+ encodes as a package, after any other elements and followed by anything, is cut into
  // the package header with the first child, and then the slices of the other children in order.
  lemma {:induction false} EncodedPackageSlices(others: seq<Tlv>, package: Tlv, after: Octets)
    requires WellFormedForest(others) && forall t | t in others :: t.tag != 0xBF36
    requires WellFormed(package) && package.Compound? && package.tag == 0xBF36 && package.parts != []
    ensures Segments(EncodeForest(others) + EncodeTlv(package) + after)
            == Some([HeaderOf(package) + EncodeTlv(package.parts[0])] + AllSlices(package.parts[1..]))
  {
    hide ElementAt, EncodeTlv, EncodeForest, HeaderOf, WellFormed, BodySegments, FindPackage, AllSlices, Segments;
    hide WellFormedForest;
    PackageFound(others, package, after);
    PackageIsHeaderAndParts(package);
    var before, head := EncodeForest(others), HeaderOf(package);
    var (first, rest) := (EncodeTlv(package.parts[0]), EncodeForest(package.parts[1..]));
    var data := before + EncodeTlv(package) + after;
    Layout(before, head, first, rest, after);
    ElementInPlace(before + head, package.parts[0], rest + after);
    BodyInPlace(before + head + first, package.parts[1..], after);
    Inside(before, head + first, rest + after);
    assert data == before + (head + first) + (rest + after);
    SegmentsFrom(data, |before|, AllSlices(package.parts[1..]));
  }

  lemma {:induction false} SegmentsFrom(bpp: Octets, start: nat, rest: seq<Octets>)
    requires FindPackage(bpp, 0).Some? && FindPackage(bpp, 0).value.0 == start
    requires var e := FindPackage(bpp, 0).value.1;
             && ElementAt(bpp, start + e.headerLen).Some?
             && BodySegments(bpp, start + e.headerLen + ElementAt(bpp, start + e.headerLen).value.totalLen,
                             start + e.totalLen) == Some(rest)
    ensures start + FindPackage(bpp, 0).value.1.headerLen
            + ElementAt(bpp, start + FindPackage(bpp, 0).value.1.headerLen).value.totalLen <= |bpp|
    ensures var cursor := start + FindPackage(bpp, 0).value.1.headerLen
                          + ElementAt(bpp, start + FindPackage(bpp, 0).value.1.headerLen).value.totalLen;
            Segments(bpp) == Some([bpp[start..cursor]] + rest)
  {
    hide ElementAt, BodySegments, FindPackage;
  }

  lemma {:induction false} PackageIsHeaderAndParts(package: Tlv)
    requires WellFormed(package) && package.Compound? && package.parts != []
    ensures WellFormed(package.parts[0]) && WellFormedForest(package.parts[1..])
    ensures EncodeTlv(package)
            == HeaderOf(package) + (EncodeTlv(package.parts[0]) + EncodeForest(package.parts[1..]))
  {
    ElementInPlace([], package, []);
    hide EncodeTlv, HeaderOf, ElementAt;
  }

  lemma Layout(before: Octets, head: Octets, first: Octets, rest: Octets, after: Octets)
    ensures before + (head + (first + rest)) + after == (before + head) + first + (rest + after)
    ensures before + (head + (first + rest)) + after == (before + head + first) + rest + after
  {}

  /** A child goes in pieces exactly when its tag is A1 or A3. */
  lemma {:induction false} SlicesByTag(t: Tlv)
    requires WellFormed(t)
    ensures t.tag == 0xA1 || t.tag == 0xA3 ==> t.Compound? && SlicesOf(t) == [HeaderOf(t)] + EncodingsOf(t.parts)
    ensures t.tag != 0xA1 && t.tag != 0xA3 ==> SlicesOf(t) == [EncodeTlv(t)]
  {
    if t.tag == 0xA1 || t.tag == 0xA3 { SplitIsCompound(t); }
  }

  /** The package of section 2.5.5 with all its parts: BF23, A0, A1, A2 and A3. */
  lemma {:induction false} FullPackageSlices(package: Tlv, after: Octets)
    requires WellFormed(package) && package.Compound? && package.tag == 0xBF36 && |package.parts| == 5
    requires var p := package.parts;
             p[0].tag == 0xBF23 && p[1].tag == 0xA0 && p[2].tag == 0xA1 && p[3].tag == 0xA2 && p[4].tag == 0xA3
    ensures var p := package.parts;
            && p[2].Compound? && p[4].Compound?
            && Segments(EncodeTlv(package) + after)
               == Some([HeaderOf(package) + EncodeTlv(p[0]), EncodeTlv(p[1])]
                       + [HeaderOf(p[2])] + EncodingsOf(p[2].parts)
                       + [EncodeTlv(p[3]), HeaderOf(p[4])] + EncodingsOf(p[4].parts))
  {
    hide WellFormed, WellFormedForest, EncodeTlv, HeaderOf, SlicesOf, EncodingsOf, Segments, AllSlices;
    var p := package.parts;
    NoForest();
    EncodedPackageSlices([], package, after);
    assert [] + EncodeTlv(package) + after == EncodeTlv(package) + after;
    PackageParts(package);
    PartsWellFormed(p, 1);
    PartsWellFormed(p, 2);
    PartsWellFormed(p, 3);
    PartsWellFormed(p, 4);
    SlicesByTag(p[1]);
    SlicesByTag(p[2]);
    SlicesByTag(p[3]);
    SlicesByTag(p[4]);
    assert p[1..] == [p[1], p[2], p[3], p[4]];
    FourSlices(p[1], p[2], p[3], p[4]);
    Assemble5(HeaderOf(package) + EncodeTlv(p[0]), EncodeTlv(p[1]), SlicesOf(p[2]), EncodeTlv(p[3]), SlicesOf(p[4]));
    assert SlicesOf(p[2]) == [HeaderOf(p[2])] + EncodingsOf(p[2].parts);
    Pieces([HeaderOf(package) + EncodeTlv(p[0]), EncodeTlv(p[1])], HeaderOf(p[2]), EncodingsOf(p[2].parts),
           EncodeTlv(p[3]), HeaderOf(p[4]), EncodingsOf(p[4].parts));
  }

  lemma NoForest()
    ensures WellFormedForest([]) && EncodeForest([]) == []
  {}

  lemma {:induction false} PackageParts(package: Tlv)
    requires WellFormed(package) && package.Compound?
    ensures WellFormedForest(package.parts)
  {}

  lemma {:induction false} FourSlices(a: Tlv, b: Tlv, c: Tlv, d: Tlv)
    ensures AllSlices([a, b, c, d]) == SlicesOf(a) + (SlicesOf(b) + (SlicesOf(c) + SlicesOf(d)))
  {
    hide SlicesOf;
    MoreSlices(d, []);
    MoreSlices(c, [d]);
    MoreSlices(b, [c, d]);
    MoreSlices(a, [b, c, d]);
    assert [d] + [] == [d] && [c] + [d] == [c, d] && [b] + [c, d] == [b, c, d] && [a] + [b, c, d] == [a, b, c, d];
    assert AllSlices([]) == [] && SlicesOf(d) + [] == SlicesOf(d);
  }

  lemma {:induction false} MoreSlices(t: Tlv, ts: seq<Tlv>)
    ensures AllSlices([t] + ts) == SlicesOf(t) + AllSlices(ts)
  {
    hide SlicesOf;
    assert ([t] + ts)[1..] == ts;
  }

  lemma Assemble5(h: Octets, a: Octets, b: seq<Octets>, c: Octets, d: seq<Octets>)
    ensures [h] + ([a] + (b + ([c] + d))) == [h, a] + b + ([c] + d)
  {}

  lemma Pieces(first: seq<Octets>, b: Octets, bs: seq<Octets>, c: Octets, d: Octets, ds: seq<Octets>)
    ensures first + ([b] + bs) + ([c] + ([d] + ds)) == first + [b] + bs + [c, d] + ds
  {}

  lemma {:induction false} PartsWellFormed(ts: seq<Tlv>, i: nat)
    requires WellFormedForest(ts) && i < |ts|
    ensures WellFormed(ts[i])
  {
    hide WellFormed;
    if i > 0 { PartsWellFormed(ts[1..], i - 1); }
  }
}
