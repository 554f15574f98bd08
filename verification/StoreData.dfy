/**
 Chained STORE DATA (sections 5.7.2 and 5.7.6 of SGP.22): a request body cut into blocks of at most 120 octets,
 P1 telling the last block, P2 counting the blocks in one octet. The card answers arbitrarily.
 */
module StoreData {
  import opened Results
  import opened Bytes
  import opened BerTlv
  import opened BoundPackage

  const MSS := 120
  const MORE: Byte := 0x11
  const LAST: Byte := 0x91

  datatype Block = Block(p1: Byte, p2: Byte, data: Octets)

  // The blocks of one request, numbered from k.
  function Blocks(request: Octets, k: nat): seq<Block> {
    if request == [] then []
    else if |request| <= MSS then [Block(LAST, k % 256, request)]
    else [Block(MORE, k % 256, request[..MSS])] + Blocks(request[MSS..], k + 1)
  }

  function Data(blocks: seq<Block>): seq<Octets> {
    if blocks == [] then [] else [blocks[0].data] + Data(blocks[1..])
  }

  lemma {:induction false} BlocksData(request: Octets, k: nat)
    ensures Flatten(Data(Blocks(request, k))) == request
    decreases |request|
  {
    if |request| > MSS {
      BlocksData(request[MSS..], k + 1);
      assert Blocks(request, k)[1..] == Blocks(request[MSS..], k + 1);
      assert request == request[..MSS] + request[MSS..];
    } else if request != [] {
      assert Blocks(request, k)[1..] == [] && request + [] == request;
    }
  }

  // How the i-th of n blocks looks, when they are numbered from k.
  predicate Shaped(b: Block, i: nat, n: nat, k: nat) {
    && b.p2 == (k + i) % 256 && 1 <= |b.data| <= 120
    && (if i < n - 1 then b.p1 == 0x11 && |b.data| == 120 else b.p1 == 0x91)
  }

  lemma {:induction false} BlocksShaped(request: Octets, k: nat)
    ensures var bs := Blocks(request, k);
      && |bs| == (|request| + MSS - 1) / MSS
      && forall i | 0 <= i < |bs| :: Shaped(bs[i], i, |bs|, k)
    decreases |request|
  {
    var bs := Blocks(request, k);
    if |request| > MSS {
      var rest := Blocks(request[MSS..], k + 1);
      BlocksShaped(request[MSS..], k + 1);
      assert |request| + MSS - 1 == (|request[MSS..]| + MSS - 1) + MSS;
      forall i | 0 <= i < |bs| ensures Shaped(bs[i], i, |bs|, k) {
        if i > 0 { assert bs[i] == rest[i - 1] && Shaped(rest[i - 1], i - 1, |rest|, k + 1); }
      }
    }
  }

  // Every block is full but the last, which alone is marked last; the counter follows the position
  // modulo 256; and the data fields are the request.
  lemma BlocksOfRequest(request: Octets, k: nat)
    ensures Flatten(Data(Blocks(request, k))) == request && AllShort(Blocks(request, k))
    ensures Blocks(request, k) == [] <==> request == []
    ensures forall i | 0 <= i < |Blocks(request, k)| :: Shaped(Blocks(request, k)[i], i, |Blocks(request, k)|, k)
  {
    hide Blocks;
    BlocksData(request, k);
    BlocksShaped(request, k);
  }

  // ---- The card's side ---------------------------------------------------------------------------

  // Requests as the card puts them together: each block extends the pending one, a last block ends it.
  function Assemble(blocks: seq<Block>, pending: Octets): seq<Octets> {
    if blocks == [] then []
    else if blocks[0].p1 == LAST then [pending + blocks[0].data] + Assemble(blocks[1..], [])
    else Assemble(blocks[1..], pending + blocks[0].data)
  }

  function AllBlocks(segments: seq<Octets>): seq<Block> {
    if segments == [] then [] else Blocks(segments[0], 0) + AllBlocks(segments[1..])
  }

  lemma AssembleHead(b: Block, rest: seq<Block>, pending: Octets)
    ensures Assemble([b] + rest, pending) ==
            if b.p1 == LAST then [pending + b.data] + Assemble(rest, []) else Assemble(rest, pending + b.data)
  {
    assert ([b] + rest)[1..] == rest;
  }

  lemma BlocksHead(request: Octets, k: nat)
    requires request != []
    ensures Blocks(request, k) ==
            if |request| <= MSS then [Block(LAST, k % 256, request)]
            else [Block(MORE, k % 256, request[..MSS])] + Blocks(request[MSS..], k + 1)
  {}

  lemma {:induction false} AssembleRequest(request: Octets, k: nat, pending: Octets, rest: seq<Block>)
    requires request != []
    ensures Assemble(Blocks(request, k) + rest, pending) == [pending + request] + Assemble(rest, [])
    decreases |request|
  {
    hide Assemble, Blocks;
    BlocksHead(request, k);
    if |request| <= MSS {
      AssembleHead(Block(LAST, k % 256, request), rest, pending);
    } else {
      var first, tail := Block(MORE, k % 256, request[..MSS]), request[MSS..];
      assert ([first] + Blocks(tail, k + 1)) + rest == [first] + (Blocks(tail, k + 1) + rest);
      AssembleHead(first, Blocks(tail, k + 1) + rest, pending);
      AssembleRequest(tail, k + 1, pending + request[..MSS], rest);
      assert (pending + request[..MSS]) + tail == pending + request;
    }
  }

  // Two stacked cuts lose nothing: from the stream of blocks alone the card recovers every segment.
  lemma {:induction false} AssembleAll(segments: seq<Octets>)
    requires forall s | s in segments :: s != []
    ensures Assemble(AllBlocks(segments), []) == segments
    ensures Flatten(Data(AllBlocks(segments))) == Flatten(segments)
  {
    if segments != [] {
      assert segments[0] in segments;
      assert forall s | s in segments[1..] :: s in segments;
      AssembleRequest(segments[0], 0, [], AllBlocks(segments[1..]));
      AssembleAll(segments[1..]);
      assert [] + segments[0] == segments[0];
      BlocksOfRequest(segments[0], 0);
      DataAppends(Blocks(segments[0], 0), AllBlocks(segments[1..]));
      FlattenAppends(Data(Blocks(segments[0], 0)), Data(AllBlocks(segments[1..])));
    }
  }

  lemma {:induction false} DataAppends(front: seq<Block>, back: seq<Block>)
    ensures Data(front + back) == Data(front) + Data(back)
  {
    if front == [] {
      assert front + back == back;
    } else {
      assert (front + back)[1..] == front[1..] + back;
      DataAppends(front[1..], back);
    }
  }

  // Every package that tiles reaches the card octet for octet, whatever the blocks' boundaries.
  lemma PackageReachesCard(bpp: Octets)
    requires PackageTiles(bpp)
    ensures Segments(bpp).Some?
    ensures var (start, e) := FindPackage(bpp, 0).value;
      && start + e.totalLen <= |bpp|
      && Flatten(Data(AllBlocks(Segments(bpp).value))) == bpp[start..start + e.totalLen]
      && Assemble(AllBlocks(Segments(bpp).value), []) == Segments(bpp).value
  {
    hide ElementAt;
    SegmentsReassembleIff(bpp);
    SlicesNonEmpty(bpp);
    AssembleAll(Segments(bpp).value);
  }

  // ---- The channel -------------------------------------------------------------------------------

  datatype Answer = Answer(payload: Octets, sw: nat)

  // A command that was sent, and what came back, if anything did.
  datatype Exchange = Exchange(apdu: Octets, answer: Option<Answer>)

  function PayloadOf(x: Exchange): Octets { if x.answer.Some? then x.answer.value.payload else [] }

  // The octets of a STORE DATA command for a block, on a channel whose class octet is cla.
  function Apdu(b: Block, cla: Byte): Octets
    requires |b.data| <= MSS
  {
    [cla, 0xE2, b.p1, b.p2, |b.data|] + b.data + [0]
  }

  predicate IsStoreData(x: Exchange) { |x.apdu| >= 2 && x.apdu[1] == 0xE2 }

  // The STORE DATA commands among the exchanges, in order.
  function Stored(log: seq<Exchange>): seq<Octets> {
    if log == [] then []
    else Stored(log[..|log| - 1]) + if IsStoreData(log[|log| - 1]) then [log[|log| - 1].apdu] else []
  }

  function Payloads(log: seq<Exchange>): Octets {
    if log == [] then [] else Payloads(log[..|log| - 1]) + PayloadOf(log[|log| - 1])
  }

  function Apdus(blocks: seq<Block>, cla: Byte): seq<Octets>
    requires AllShort(blocks)
  {
    seq(|blocks|, i requires 0 <= i < |blocks| => Apdu(blocks[i], cla))
  }

  predicate StatusOK(sw: nat) { sw == 0x9000 || sw / 0x100 == 0x91 }

  // A command and the GET RESPONSE commands that drain it, each asked for by the status before it.
  predicate Conversation(part: seq<Exchange>, apdu: Octets, cla: Byte) {
    && 1 <= |part| <= 25 && part[0].apdu == apdu
    && forall i | 0 <= i < |part| - 1 :: Drains(part, i, cla)
  }

  predicate Drains(part: seq<Exchange>, i: nat, cla: Byte)
    requires i + 1 < |part|
  {
    && part[i].answer.Some? && part[i].answer.value.sw / 0x100 == 0x61
    && part[i + 1].apdu == [cla, 0xC0, 0, 0, part[i].answer.value.sw % 0x100]
  }

  // ... which has come to its end.
  predicate Concluded(part: seq<Exchange>, apdu: Octets, cla: Byte) {
    Conversation(part, apdu, cla) && part[|part| - 1].answer.Some?
    && (part[|part| - 1].answer.value.sw / 0x100 != 0x61 || |part| == 25)
  }

  // ... or was cut short by a command without an answer.
  predicate Torn(part: seq<Exchange>, apdu: Octets, cla: Byte) {
    Conversation(part, apdu, cla) && part[|part| - 1].answer.None?
  }

  predicate Success(x: Exchange) {
    x.answer.Some? && (x.answer.value.sw == 0x9000 || 0x9100 <= x.answer.value.sw <= 0x91FF)
  }

  predicate Accepted(part: seq<Exchange>) { part != [] && Success(part[|part| - 1]) }

  function Joined(parts: seq<seq<Exchange>>): seq<Exchange> {
    if parts == [] then [] else Joined(parts[..|parts| - 1]) + parts[|parts| - 1]
  }

  // The conversations of one request: every command answered, in the order of the blocks, all but the last
  // accepted; and after them possibly one that was cut short.
  predicate Talk(parts: seq<seq<Exchange>>, torn: seq<Exchange>, apdus: seq<Octets>, cla: Byte) {
    && |parts| <= |apdus|
    && (forall i | 0 <= i < |parts| :: Concluded(parts[i], apdus[i], cla))
    && (forall i | 0 <= i < |parts| - 1 :: Accepted(parts[i]))
    && (torn != [] ==> |parts| < |apdus| && (forall i | 0 <= i < |parts| :: Accepted(parts[i]))
                       && Torn(torn, apdus[|parts|], cla))
  }

  class Channel {
    const cla: Byte
    var log: seq<Exchange>     // every command that was sent

    // The logical channel is the low part of the class octet.
    constructor (channel: nat)
      requires channel < 16
      ensures log == [] && cla == 0x80 + channel
    {
      cla := 0x80 + channel;
      log := [];
    }

    // One APDU over whichever transport the channel has; it may fail, and its answer is arbitrary.
    method Send(apdu: Octets) returns (answer: Option<Answer>)
      modifies this`log
      ensures log == old(log) + [Exchange(apdu, answer)]
    {
      answer := *;
      log := log + [Exchange(apdu, answer)];
    }

    // One command and its GET RESPONSE continuations, at most 24 of them, with their payloads joined; the
    // status is that of the last exchange. There is no answer if and only if some command got none.
    method Transmit(apdu: Octets) returns (answer: Option<Answer>, ghost part: seq<Exchange>)
      requires |apdu| >= 2 && apdu[1] == 0xE2
      modifies this`log
      ensures log == old(log) + part
      ensures answer.Some? ==>
                && Concluded(part, apdu, cla)
                && answer.value == Answer(Payloads(part), part[|part| - 1].answer.value.sw)
      ensures answer.None? ==> Torn(part, apdu, cla)
    {
      hide Payloads;
      answer := Send(apdu);
      part := [Exchange(apdu, answer)];
      if answer.None? { return; }
      var assembled, sw := answer.value.payload, answer.value.sw;
      PayloadGrows([], part[0]);
      NoPayload();
      assert [] + part == part;
      var guard := 0;
      while sw / 0x100 == 0x61 && guard < 24
        invariant 0 <= guard <= 24 && |part| == 1 + guard && log == old(log) + part
        invariant Conversation(part, apdu, cla)
        invariant part[guard].answer.Some? && sw == part[guard].answer.value.sw
        invariant assembled == Payloads(part)
      {
        guard := guard + 1;
        var getResponse := [cla, 0xC0, 0, 0, sw % 0x100];
        answer := Send(getResponse);
        ghost var x := Exchange(getResponse, answer);
        PayloadGrows(part, x);
        ConversationGrows(part, x, apdu, cla);
        part := part + [x];
        if answer.None? { return; }
        assembled, sw := assembled + answer.value.payload, answer.value.sw;
      }
      answer := Some(Answer(assembled, sw));
    }

    // storeDataChained: the blocks of the request in order, until one is refused. There is a response if and
    // only if every block was answered and accepted.
    method StoreDataChained(request: Octets)
      returns (response: Option<Octets>, ghost parts: seq<seq<Exchange>>, ghost torn: seq<Exchange>)
      modifies this`log
      ensures AllShort(Blocks(request, 0)) && log == old(log) + Joined(parts) + torn
      ensures Talk(parts, torn, Apdus(Blocks(request, 0), cla), cla)
      ensures response.Some? <==>
              |parts| == |Blocks(request, 0)| && AllAccepted(parts)
      ensures response.Some? ==> torn == [] && response.value == Payloads(Joined(parts))
      ensures response.None? ==> torn != [] || (parts != [] && !Accepted(parts[|parts| - 1]))
    {
      hide Blocks, Payloads, Apdu, Shaped, AllShort, Concluded, Torn, Joined, Talk, Accepted, Success;
      BlocksOfRequest(request, 0);
      ghost var blocks := Blocks(request, 0);
      ghost var all := Apdus(blocks, cla);
      var assembled: Octets, sequence: Byte, offset := [], 0, 0;
      parts, torn := [], [];
      NoParts();
      NoTalk(all, cla);
      assert request[0..] == request && blocks[0..] == blocks;
      while offset < |request|
        invariant 0 <= offset <= |request| && |parts| <= |blocks| && sequence == |parts| % 256 && torn == []
        invariant blocks[|parts|..] == Blocks(request[offset..], |parts|)
        invariant log == old(log) + Joined(parts) && assembled == Payloads(Joined(parts))
        invariant Talk(parts, [], all, cla) && AllAccepted(parts)
      {
        ghost var k := |parts|;
        var size, last := |request| - offset, true;
        if size > MSS { size, last := MSS, false; }
        var p1 := if last then LAST else MORE;
        var apdu := [cla, 0xE2, p1, sequence, size] + request[offset..offset + size] + [0];
        NextBlock(request, offset, k, blocks);
        ApduIs(blocks[k], cla);
        assert apdu == all[k];
        ghost var before := log;
        var answer;
        ghost var part;
        answer, part := Transmit(apdu);
        if answer.None? {
          torn := part;
          TalkTorn(parts, part, all, cla);
          return None, parts, torn;
        }
        JoinedGrows(parts, part);
        StatusAccepted(part, apdu, cla);
        TalkGrows(parts, part, all, cla);
        parts := parts + [part];
        if !StatusOK(answer.value.sw) { return None, parts, torn; }
        assembled := assembled + answer.value.payload;
        offset := offset + size;
        sequence := (sequence + 1) % 256;
      }
      NoBlocks(|parts|);
      assert request[offset..] == [] && blocks[|parts|..] == [];
      response := Some(assembled);
    }

    // loadBoundProfilePackage: every slice chained in turn, until one fails; the last response with content
    // is returned.
    method LoadBoundProfilePackage(bpp: Octets) returns (result: Option<Octets>, ghost responses: seq<Octets>)
      modifies this`log
      ensures result.Some? ==> Segments(bpp).Some? && |responses| == |Segments(bpp).value|
      ensures result.Some? ==>
                exists i | 0 <= i < |responses| ::
                  result.value == responses[i] != [] && forall j | i < j < |responses| :: responses[j] == []
      ensures result.None? ==>
                || Segments(bpp).None? || |responses| < |Segments(bpp).value|
                || forall i | 0 <= i < |responses| :: responses[i] == []
      ensures Segments(bpp).Some? ==> |responses| <= |Segments(bpp).value|
      // Short of the last slice only a command without an answer, or without success, stops it.
      ensures Segments(bpp).Some? && |responses| < |Segments(bpp).value| ==>
                |log| > |old(log)| && !Success(log[|log| - 1])
      ensures Segments(bpp).Some? && |responses| == |Segments(bpp).value| ==>
                && AllShort(AllBlocks(Segments(bpp).value))
                && Stored(log) == Stored(old(log)) + Apdus(AllBlocks(Segments(bpp).value), cla)
    {
      hide Segments, Stored, Apdus, Blocks, AllShort, Talk, Joined, Payloads, Accepted, Success;
      responses := [];
      var cut := SegmentBoundProfilePackage(bpp);
      if cut.None? { return None, responses; }
      var segments, last: Octets := cut.value, [];
      AllBlocksShort(segments);
      ghost var all := AllBlocks(segments);
      ghost var sent: seq<Block> := [];
      assert segments[0..] == segments && [] + all == all;
      NoApdus(cla);
      var i := 0;
      while i < |segments|
        invariant 0 <= i <= |segments| && |responses| == i
        invariant sent + AllBlocks(segments[i..]) == all && AllShort(sent)
        invariant Stored(log) == Stored(old(log)) + Apdus(sent, cla) && |log| >= |old(log)|
        invariant last == [] ==> forall k | 0 <= k < i :: responses[k] == []
        invariant last != [] ==>
                    exists n | 0 <= n < i :: last == responses[n] && forall k | n < k < i :: responses[k] == []
      {
        ghost var blocks, before := Blocks(segments[i], 0), log;
        var response;
        ghost var parts, torn;
        response, parts, torn := StoreDataChained(segments[i]);
        if response.None? {
          FailureIsLast(before, parts, torn, Apdus(blocks, cla), cla);
          return None, responses;
        }
        TalkStores(before, parts, blocks, cla);
        ApduCount(blocks, cla);
        assert before + Joined(parts) + [] == before + Joined(parts);
        ghost var earlier := responses;
        responses := responses + [response.value];
        assert forall k | 0 <= k < i :: earlier[k] == responses[k];
        assert responses[i] == response.value;
        if response.value != [] { last := response.value; }
        AllBlocksSplit(segments, i);
        assert sent + (blocks + AllBlocks(segments[i + 1..])) == (sent + blocks) + AllBlocks(segments[i + 1..]);
        ApdusAppend(sent, blocks, cla);
        sent := sent + blocks;
        i := i + 1;
      }
      assert segments[i..] == [] && sent + AllBlocks([]) == sent;
      result := if last == [] then None else Some(last);
    }
  }

  lemma StatusAccepted(part: seq<Exchange>, apdu: Octets, cla: Byte)
    requires Concluded(part, apdu, cla)
    ensures part != [] && part[|part| - 1].answer.Some?
    ensures Accepted(part) <==> StatusOK(part[|part| - 1].answer.value.sw)
  {}

  predicate AllAccepted(parts: seq<seq<Exchange>>) { forall i | 0 <= i < |parts| :: Accepted(parts[i]) }

  lemma NoTalk(apdus: seq<Octets>, cla: Byte)
    ensures Talk([], [], apdus, cla) && AllAccepted([])
  {}

  lemma TalkTorn(parts: seq<seq<Exchange>>, torn: seq<Exchange>, apdus: seq<Octets>, cla: Byte)
    requires Talk(parts, [], apdus, cla) && AllAccepted(parts) && |parts| < |apdus|
    requires Torn(torn, apdus[|parts|], cla)
    ensures Talk(parts, torn, apdus, cla) && torn != []
  {
    hide Concluded, Accepted;
  }

  lemma TalkGrows(parts: seq<seq<Exchange>>, part: seq<Exchange>, apdus: seq<Octets>, cla: Byte)
    requires Talk(parts, [], apdus, cla) && AllAccepted(parts) && |parts| < |apdus|
    requires Concluded(part, apdus[|parts|], cla)
    ensures Talk(parts + [part], [], apdus, cla) && (AllAccepted(parts + [part]) <==> Accepted(part))
  {
    hide Concluded, Accepted, Torn;
    assert (parts + [part])[|parts|] == part;
  }

  lemma ConversationGrows(part: seq<Exchange>, x: Exchange, apdu: Octets, cla: Byte)
    requires Conversation(part, apdu, cla) && |part| < 25
    requires var last := part[|part| - 1].answer;
             last.Some? && last.value.sw / 0x100 == 0x61 && x.apdu == [cla, 0xC0, 0, 0, last.value.sw % 0x100]
    ensures Conversation(part + [x], apdu, cla)
  {
    var longer := part + [x];
    forall i | 0 <= i < |longer| - 1 ensures Drains(longer, i, cla) {
      if i < |part| - 1 { assert Drains(part, i, cla); }
    }
  }

  lemma ApduCount(blocks: seq<Block>, cla: Byte)
    requires AllShort(blocks)
    ensures |Apdus(blocks, cla)| == |blocks| && Apdus(blocks, cla)[..|blocks|] == Apdus(blocks, cla)
  {}

  lemma NoPayload()
    ensures Payloads([]) == []
  {}

  lemma PayloadGrows(log: seq<Exchange>, x: Exchange)
    ensures Payloads(log + [x]) == Payloads(log) + PayloadOf(x)
  {
    assert (log + [x])[..|log|] == log;
  }

  lemma NoParts()
    ensures Joined([]) == [] && Payloads([]) == []
  {}

  lemma {:induction false} PayloadsAppend(a: seq<Exchange>, b: seq<Exchange>)
    ensures Payloads(a + b) == Payloads(a) + Payloads(b)
    decreases |b|
  {
    if b == [] {
      assert a + b == a;
    } else {
      assert (a + b)[..|a + b| - 1] == a + b[..|b| - 1];
      PayloadsAppend(a, b[..|b| - 1]);
    }
  }

  lemma JoinedGrows(parts: seq<seq<Exchange>>, part: seq<Exchange>)
    ensures Joined(parts + [part]) == Joined(parts) + part
    ensures Payloads(Joined(parts + [part])) == Payloads(Joined(parts)) + Payloads(part)
  {
    assert (parts + [part])[..|parts|] == parts;
    PayloadsAppend(Joined(parts), part);
  }

  lemma FailureIsLast(
      log: seq<Exchange>, parts: seq<seq<Exchange>>, torn: seq<Exchange>, apdus: seq<Octets>, cla: Byte)
    requires Talk(parts, torn, apdus, cla)
    requires torn != [] || (parts != [] && !Accepted(parts[|parts| - 1]))
    ensures var all := log + Joined(parts) + torn; |all| > |log| && !Success(all[|all| - 1])
  {
    var all := log + Joined(parts) + torn;
    if torn != [] {
      assert all[|all| - 1] == torn[|torn| - 1];
    } else {
      var n := |parts| - 1;
      assert Concluded(parts[n], apdus[n], cla) && Joined(parts) == Joined(parts[..n]) + parts[n];
      assert all[|all| - 1] == parts[n][|parts[n]| - 1];
    }
  }

  // A conversation stores its one command, and a talk those of its blocks.
  lemma {:induction false} ConversationStores(log: seq<Exchange>, part: seq<Exchange>, apdu: Octets, cla: Byte, n: nat)
    requires Conversation(part, apdu, cla) && |apdu| >= 2 && apdu[1] == 0xE2 && 1 <= n <= |part|
    ensures Stored(log + part[..n]) == Stored(log) + [apdu]
    decreases n
  {
    assert n > 1 ==> Drains(part, n - 2, cla);
    assert (log + part[..n])[..|log| + n - 1] == log + part[..n - 1];
    if n == 1 {
      assert log + part[..0] == log;
    } else {
      ConversationStores(log, part, apdu, cla, n - 1);
    }
  }

  lemma {:induction false} TalkStores(log: seq<Exchange>, parts: seq<seq<Exchange>>, blocks: seq<Block>, cla: Byte)
    requires AllShort(blocks) && Talk(parts, [], Apdus(blocks, cla), cla)
    ensures Stored(log + Joined(parts)) == Stored(log) + Apdus(blocks, cla)[..|parts|]
    decreases |parts|
  {
    hide Stored, Conversation;
    var all := Apdus(blocks, cla);
    if parts == [] {
      assert log + Joined(parts) == log && all[..0] == [];
    } else {
      var n := |parts| - 1;
      var front, part := parts[..n], parts[n];
      TalkStores(log, front, blocks, cla);
      assert Concluded(part, all[n], cla) && all[n] == Apdu(blocks[n], cla);
      assert blocks[n] in blocks;
      ApduIs(blocks[n], cla);
      StatusAccepted(part, all[n], cla);
      ConversationStores(log + Joined(front), part, all[n], cla, |part|);
      assert part[..|part|] == part;
      assert log + (Joined(front) + part) == (log + Joined(front)) + part;
      PrefixGrows(Stored(log), all, n);
    }
  }

  predicate AllShort(blocks: seq<Block>) { forall b | b in blocks :: |b.data| <= MSS }

  lemma {:induction false} AllBlocksShort(segments: seq<Octets>)
    ensures AllShort(AllBlocks(segments))
  {
    if segments != [] {
      BlocksOfRequest(segments[0], 0);
      AllBlocksShort(segments[1..]);
    }
  }

  lemma AllBlocksSplit(segments: seq<Octets>, i: nat)
    requires i < |segments|
    ensures AllBlocks(segments[i..]) == Blocks(segments[i], 0) + AllBlocks(segments[i + 1..])
  {
    hide Blocks;
    assert segments[i..][1..] == segments[i + 1..];
  }

  lemma ApduIs(b: Block, cla: Byte)
    requires |b.data| <= MSS
    ensures Apdu(b, cla) == [cla, 0xE2, b.p1, b.p2, |b.data|] + b.data + [0]
  {}

  lemma NoBlocks(k: nat)
    ensures Blocks([], k) == []
  {}

  lemma PrefixGrows(before: seq<Octets>, all: seq<Octets>, k: nat)
    requires k < |all|
    ensures (before + all[..k]) + [all[k]] == before + all[..k + 1]
  {}

  lemma NoApdus(cla: Byte)
    ensures AllShort([]) && Apdus([], cla) == []
  {}

  lemma ApdusAppend(front: seq<Block>, back: seq<Block>, cla: Byte)
    requires AllShort(front) && AllShort(back)
    ensures AllShort(front + back) && Apdus(front + back, cla) == Apdus(front, cla) + Apdus(back, cla)
  {
    hide Apdu;
  }

  // The first block of what is left of a request.
  lemma NextBlock(request: Octets, offset: nat, k: nat, blocks: seq<Block>)
    requires offset < |request| && k <= |blocks| && blocks[k..] == Blocks(request[offset..], k)
    ensures k < |blocks|
    ensures var size := if |request| - offset > MSS then MSS else |request| - offset;
      && blocks[k] == Block(if |request| - offset > MSS then MORE else LAST, k % 256, request[offset..offset + size])
      && blocks[k + 1..] == Blocks(request[offset + size..], k + 1)
  {
    var rest := request[offset..];
    assert blocks[k..] != [] && blocks[k] == blocks[k..][0] && blocks[k + 1..] == blocks[k..][1..];
    if |rest| > MSS {
      assert rest[..MSS] == request[offset..offset + MSS] && rest[MSS..] == request[offset + MSS..];
      assert Blocks(rest, k)[1..] == Blocks(rest[MSS..], k + 1);
    } else {
      assert request[offset..|request|] == rest && request[|request|..] == [];
    }
  }
}
