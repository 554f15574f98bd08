/**
 Delivering the notifications kept on the card: each receiver's notifications oldest first, acknowledged by the
 receiver before they are removed from the card, and a failure stopping that receiver's group only.
 */
module NotificationDelivery {
  import opened Results

  type Octet = x: int | 0 <= x < 256

  datatype Notification = Notification(address: string, sequence: nat, raw: seq<Octet>)

  // ---- The order of the list ------------------------------------------------------------------

  predicate Less(a: string, b: string) {
    b != "" && (a == "" || a[0] < b[0] || (a[0] == b[0] && Less(a[1..], b[1..])))
  }

  lemma {:induction false} LessIsTotal(a: string, b: string)
    ensures (Less(a, b) || a == b || Less(b, a)) && !(Less(a, b) && Less(b, a)) && !Less(a, a)
  {
    if a != "" && b != "" {
      LessIsTotal(a[1..], b[1..]);
      assert a == [a[0]] + a[1..] && b == [b[0]] + b[1..];
    }
    if a != "" { LessIsTotal(a[1..], a[1..]); }
  }

  /** Receivers are ordered by their first different character, and a shorter name goes before its continuations. */
  lemma {:induction false} LessMeans(a: string, b: string, k: nat)
    requires k <= |a| && k <= |b| && a[..k] == b[..k]
    requires k == |a| || k == |b| || a[k] != b[k]
    ensures Less(a, b) <==> (k == |a| < |b|) || (k < |a| && k < |b| && a[k] < b[k])
  {
    if k > 0 {
      assert a[0] == a[..k][0] && b[0] == b[..k][0];
      assert a[1..][..k - 1] == a[..k][1..] && b[1..][..k - 1] == b[..k][1..];
      LessMeans(a[1..], b[1..], k - 1);
    }
  }

  lemma {:induction false} LessIsTransitive(a: string, b: string, c: string)
    requires Less(a, b) && Less(b, c)
    ensures Less(a, c)
  {
    if a != "" && a[0] == b[0] == c[0] { LessIsTransitive(a[1..], b[1..], c[1..]); }
  }

  predicate Before(a: Notification, b: Notification) {
    if a.address == b.address then a.sequence < b.sequence else Less(a.address, b.address)
  }

  lemma BeforeChains(a: Notification, b: Notification, c: Notification)
    requires !Before(b, a) && !Before(c, b)
    ensures !Before(c, a)
  {
    LessIsTotal(a.address, b.address);
    LessIsTotal(b.address, c.address);
    LessIsTotal(a.address, c.address);
    if Less(a.address, b.address) && Less(b.address, c.address) {
      LessIsTransitive(a.address, b.address, c.address);
    }
  }

  predicate Ordered(list: seq<Notification>) {
    forall i, j | 0 <= i < j < |list| :: !Before(list[j], list[i])
  }

  function Insert(list: seq<Notification>, n: Notification): seq<Notification> {
    if list == [] || Before(n, list[0]) then [n] + list else [list[0]] + Insert(list[1..], n)
  }

  // The stable sort by receiver and sequence number.
  function Arrange(list: seq<Notification>): seq<Notification> {
    if list == [] then [] else Insert(Arrange(list[..|list| - 1]), list[|list| - 1])
  }

  lemma {:induction false} InsertKeepsOrder(list: seq<Notification>, n: Notification)
    requires Ordered(list)
    ensures Ordered(Insert(list, n)) && multiset(Insert(list, n)) == multiset(list) + multiset{n}
  {
    hide Before;
    if list != [] {
      assert list == [list[0]] + list[1..];
      if Before(n, list[0]) {
        Irreflexive(n, list[0]);
        forall j | 0 <= j < |list| ensures !Before(list[j], n) {
          Irreflexive(list[0], list[0]);
          BeforeChains(n, list[0], list[j]);
        }
      } else {
        InsertKeepsOrder(list[1..], n);
        var rest := Insert(list[1..], n);
        forall k | 0 <= k < |rest| ensures !Before(rest[k], list[0]) {
          assert rest[k] in multiset(list[1..]) + multiset{n};
        }
      }
    }
  }

  lemma Irreflexive(a: Notification, b: Notification)
    ensures !Before(a, a) && (Before(a, b) ==> !Before(b, a))
  {
    LessIsTotal(a.address, b.address);
  }

  lemma {:induction false} ArrangeSorts(list: seq<Notification>)
    ensures Ordered(Arrange(list)) && multiset(Arrange(list)) == multiset(list)
    ensures forall i, j | 0 <= i < j < |Arrange(list)| ::
              var a, b := Arrange(list)[i], Arrange(list)[j];
              Less(a.address, b.address) || (a.address == b.address && a.sequence <= b.sequence)
  {
    if list != [] {
      ArrangeSorts(list[..|list| - 1]);
      InsertKeepsOrder(Arrange(list[..|list| - 1]), list[|list| - 1]);
      assert list == list[..|list| - 1] + [list[|list| - 1]];
    }
    var sorted := Arrange(list);
    forall i, j | 0 <= i < j < |sorted|
      ensures Less(sorted[i].address, sorted[j].address)
              || (sorted[i].address == sorted[j].address && sorted[i].sequence <= sorted[j].sequence)
    {
      LessIsTotal(sorted[i].address, sorted[j].address);
      assert !Before(sorted[j], sorted[i]);
    }
  }

  // ---- What one attempt leaves behind ------------------------------------------------------------

  datatype Answer = Listed(pending: seq<Notification>) | Refused(code: seq<Octet>) | Broken

  datatype Event =
    | Asked(sequence: nat, legacy: bool, answer: Answer)
    | Cancelled                                            // before the older request
    | Posted(notification: Notification, accepted: bool)   // to the receiver, and its acknowledgement
    | Removed(removal: nat, confirmed: bool)

  function First(pending: seq<Notification>, sequence: nat): (r: Option<Notification>)
    ensures r.Some? ==> r.value in pending && r.value.sequence == sequence
    ensures r.None? ==> forall i | 0 <= i < |pending| :: pending[i].sequence != sequence
  {
    if pending == [] then None
    else if pending[0].sequence == sequence then Some(pending[0])
    else First(pending[1..], sequence)
  }

  // The request; and exactly after the card's explicit undefinedError (127) the older encoding of it, unless
  // the context was cancelled in between.
  predicate Asking(sequence: nat, asks: seq<Event>) {
    && 1 <= |asks| <= 2 && asks[0].Asked? && asks[0].sequence == sequence && !asks[0].legacy
    && (|asks| == 2 <==> asks[0].answer == Refused([127]))
    && (|asks| == 2 ==> asks[1].Cancelled? || (asks[1].Asked? && asks[1].sequence == sequence && asks[1].legacy))
  }

  function LastAnswer(asks: seq<Event>): Answer {
    if asks != [] && asks[|asks| - 1].Asked? then asks[|asks| - 1].answer else Broken
  }

  // The first returned notification with the sequence number, if the card returned one.
  function Candidate(sequence: nat, asks: seq<Event>): Option<Notification> {
    match LastAnswer(asks)
    case Listed(pending) => First(Arrange(pending), sequence)
    case _ => None
  }

  datatype Outcome =
    | Skipped
    | Missing(asks: seq<Event>)
    | Rejected(asks: seq<Event>, sent: Notification)
    | Retained(asks: seq<Event>, sent: Notification)
    | Delivered(asks: seq<Event>, sent: Notification)

  // What card, context and receiver answer in one turn: to the request, to the older one unless the context was
  // cancelled before it, to the delivery, and to the removal, which may take effect without an answer.
  datatype Reply = Reply(answer: Answer, cancelled: bool, older: Answer, accepted: bool, acted: bool, answered: bool)

  function Asks(sequence: nat, r: Reply): seq<Event> {
    [Asked(sequence, false, r.answer)]
    + (if r.answer != Refused([127]) then [] else if r.cancelled then [Cancelled] else [Asked(sequence, true, r.older)])
  }

  // The outcome is that of the last step taken.
  predicate Follows(sequence: nat, o: Outcome, r: Reply) {
    && !o.Skipped? && o.asks == Asks(sequence, r)
    && (o.Missing? <==> Candidate(sequence, o.asks).None?)
    && (o.Rejected? ==> !r.accepted)
    && (o.Retained? ==> r.accepted && !(r.acted && r.answered))
    && (o.Delivered? ==> r.accepted && r.acted && r.answered)
  }

  predicate Possible(sequence: nat, o: Outcome) {
    o.Skipped? || (Asking(sequence, o.asks)
                   && if o.Missing? then Candidate(sequence, o.asks).None?
                      else Candidate(sequence, o.asks) == Some(o.sent))
  }

  function Events(o: Outcome): seq<Event> {
    match o
    case Skipped => []
    case Missing(asks) => asks
    case Rejected(asks, n) => asks + [Posted(n, false)]
    case Retained(asks, n) => asks + [Posted(n, true), Removed(n.sequence, false)]
    case Delivered(asks, n) => asks + [Posted(n, true), Removed(n.sequence, true)]
  }

  function AllEvents(outcomes: seq<Outcome>): seq<Event> {
    if outcomes == [] then [] else AllEvents(outcomes[..|outcomes| - 1]) + Events(outcomes[|outcomes| - 1])
  }

  // Some earlier notification to this receiver did not end delivered.
  predicate Blocked(list: seq<Notification>, outcomes: seq<Outcome>, address: string)
    requires |list| == |outcomes|
  {
    exists i | 0 <= i < |list| :: list[i].address == address && !outcomes[i].Delivered?
  }

  predicate Delivery(list: seq<Notification>, outcomes: seq<Outcome>)
    decreases |list|
  {
    && |list| == |outcomes|
    && (list != [] ==>
          var last := |list| - 1;
          && Delivery(list[..last], outcomes[..last])
          && Possible(list[last].sequence, outcomes[last])
          && (outcomes[last].Skipped? <==> Blocked(list[..last], outcomes[..last], list[last].address)))
  }

  // The sequence numbers whose removal was asked for, and those whose removal was confirmed.
  ghost function Sent(outcomes: seq<Outcome>): set<nat> {
    set o | o in outcomes && (o.Retained? || o.Delivered?) :: o.sent.sequence
  }

  ghost function Confirmed(outcomes: seq<Outcome>): set<nat> {
    set o | o in outcomes && o.Delivered? :: o.sent.sequence
  }

  lemma PossibleSends(sequence: nat, o: Outcome)
    requires Possible(sequence, o)
    ensures o.Delivered? || o.Retained? || o.Rejected? ==> o.sent.sequence == sequence
  {}

  lemma OneMore(list: seq<Notification>, outcomes: seq<Outcome>, i: nat, o: Outcome)
    requires i < |list| && Delivery(list[..i], outcomes) && Possible(list[i].sequence, o)
    requires o.Skipped? <==> Blocked(list[..i], outcomes, list[i].address)
    ensures Delivery(list[..i + 1], outcomes + [o])
    ensures AllEvents(outcomes + [o]) == AllEvents(outcomes) + Events(o)
  {
    hide Possible, Blocked, Events;
    var shown, all := list[..i + 1], outcomes + [o];
    assert shown[..i] == list[..i] && all[..i] == outcomes;
  }

  lemma NoneYet()
    ensures Delivery([], []) && AllEvents([]) == [] && Sent([]) == {} == Confirmed([])
    ensures forall a: string :: !Blocked([], [], a)
  {}

  lemma SkippedIsPossible(sequence: nat)
    ensures Possible(sequence, Skipped) && Events(Skipped) == []
  {}

  lemma OneMoreSent(outcomes: seq<Outcome>, o: Outcome)
    ensures Sent(outcomes + [o]) == Sent(outcomes) + (if o.Retained? || o.Delivered? then {o.sent.sequence} else {})
    ensures Confirmed(outcomes + [o]) == Confirmed(outcomes) + (if o.Delivered? then {o.sent.sequence} else {})
  {
    forall p | p in outcomes + [o] ensures p in outcomes || p == o {}
    assert forall p | p in outcomes || p == o :: p in outcomes + [o];
  }

  lemma OneMoreBlocked(list: seq<Notification>, outcomes: seq<Outcome>, i: nat, o: Outcome, address: string)
    requires i == |outcomes| < |list|
    ensures Blocked(list[..i + 1], outcomes + [o], address) <==>
            Blocked(list[..i], outcomes, address) || (list[i].address == address && !o.Delivered?)
  {
    var shown, all := list[..i + 1], outcomes + [o];
    if Blocked(list[..i], outcomes, address) {
      var k :| 0 <= k < i && list[..i][k].address == address && !outcomes[k].Delivered?;
      assert shown[k].address == address && !all[k].Delivered?;
    }
    if list[i].address == address && !o.Delivered? {
      assert shown[i].address == address && !all[i].Delivered?;
    }
    if Blocked(shown, all, address) && !(list[i].address == address && !o.Delivered?) {
      var k :| 0 <= k < i + 1 && shown[k].address == address && !all[k].Delivered?;
      assert list[..i][k].address == address && !outcomes[k].Delivered?;
    }
  }

  // ---- The card and the delivery loop --------------------------------------------------------------

  class Channel {
    var log: seq<Event>
    var held: set<nat>

    constructor (initial: set<nat>)
      ensures log == [] && held == initial
    {
      log, held := [], initial;
    }

    // One request to the card.
    method Ask(sequence: nat, legacy: bool, answer: Answer)
      modifies this`log
      ensures log == old(log) + [Asked(sequence, legacy, answer)]
    {
      log := log + [Asked(sequence, legacy, answer)];
    }

    // retrieveNotifications, for one sequence number.
    method Retrieve(sequence: nat, r: Reply) returns (pending: Option<seq<Notification>>, ghost asks: seq<Event>)
      modifies this`log
      ensures Asking(sequence, asks) && log == old(log) + asks && asks == Asks(sequence, r)
      ensures pending == match LastAnswer(asks) case Listed(p) => Some(Arrange(p)) case _ => None
    {
      Ask(sequence, false, r.answer);
      asks := [Asked(sequence, false, r.answer)];
      if r.answer != Refused([127]) {
        return if r.answer.Listed? then Some(Arrange(r.answer.pending)) else None, asks;
      }
      if r.cancelled {
        log := log + [Cancelled];
        return None, asks + [Cancelled];
      }
      Ask(sequence, true, r.older);
      asks := asks + [Asked(sequence, true, r.older)];
      pending := if r.older.Listed? then Some(Arrange(r.older.pending)) else None;
    }

    // removeNotification: a confirmation means the card no longer has it; without one either may be true.
    method Remove(sequence: nat, r: Reply) returns (confirmed: bool)
      modifies this
      ensures log == old(log) + [Removed(sequence, confirmed)]
      ensures held == if r.acted then old(held) - {sequence} else old(held)
      ensures confirmed <==> r.acted && r.answered
    {
      if r.acted { held := held - {sequence}; }
      confirmed := r.acted && r.answered;
      log := log + [Removed(sequence, confirmed)];
    }

    // One turn of the loop, and deliverNotification.
    method Attempt(n: Notification, r: Reply) returns (ok: bool, ghost o: Outcome)
      modifies this
      ensures Possible(n.sequence, o) && Follows(n.sequence, o, r) && (ok <==> o.Delivered?)
      ensures log == old(log) + Events(o)
      ensures held == if (o.Retained? || o.Delivered?) && r.acted then old(held) - {n.sequence} else old(held)
    {
      var pending, asks := Retrieve(n.sequence, r);
      ok, o := false, Missing(asks);
      if pending.None? { return; }
      var candidate := First(pending.value, n.sequence);
      if candidate.None? { return; }
      log := log + [Posted(candidate.value, r.accepted)];
      if !r.accepted {
        o := Rejected(asks, candidate.value);
        return;
      }
      ok := Remove(candidate.value.sequence, r);
      o := if ok then Delivered(asks, candidate.value) else Retained(asks, candidate.value);
    }

    // deliverPendingNotifications, on the list the card gave.
    method Deliver(listed: seq<Notification>, replies: nat -> Reply) returns (ok: bool, ghost outcomes: seq<Outcome>)
      modifies this
      ensures Delivery(Arrange(listed), outcomes)
      ensures ok <==> forall i | 0 <= i < |outcomes| :: outcomes[i].Delivered?
      ensures forall i | 0 <= i < |outcomes| && !outcomes[i].Skipped? ::
                Follows(Arrange(listed)[i].sequence, outcomes[i], replies(i))
      ensures log == old(log) + AllEvents(outcomes)
      ensures held <= old(held) && old(held) - held <= Sent(outcomes) && Confirmed(outcomes) !! held
    {
      hide Arrange, Events, Possible, Follows, Delivery, Blocked, AllEvents, Sent, Confirmed;
      NoneYet();
      var list := Arrange(listed);
      var blocked: set<string> := {};
      outcomes, ok := [], true;
      var i := 0;
      while i < |list|
        invariant i == |outcomes| <= |list| && Delivery(list[..i], outcomes)
        invariant forall a: string :: a in blocked <==> Blocked(list[..i], outcomes, a)
        invariant ok <==> forall k | 0 <= k < i :: outcomes[k].Delivered?
        invariant ok ==> blocked == {}
        invariant forall k | 0 <= k < i && !outcomes[k].Skipped? :: Follows(list[k].sequence, outcomes[k], replies(k))
        invariant log == old(log) + AllEvents(outcomes)
        invariant held <= old(held) && old(held) - held <= Sent(outcomes) && Confirmed(outcomes) !! held
      {
        var n := list[i];
        ghost var o := Skipped;
        if n.address !in blocked {
          var done;
          done, o := Attempt(n, replies(i));
          PossibleSends(n.sequence, o);
          if !done { blocked, ok := blocked + {n.address}, false; }
        } else {
          SkippedIsPossible(n.sequence);
        }
        OneMore(list, outcomes, i, o);
        OneMoreSent(outcomes, o);
        forall a: string ensures a in blocked <==> Blocked(list[..i + 1], outcomes + [o], a) {
          OneMoreBlocked(list, outcomes, i, o, a);
        }
        ghost var before := outcomes;
        outcomes := outcomes + [o];
        assert forall k | 0 <= k < i :: before[k] == outcomes[k];
        assert outcomes[i] == o;
        i := i + 1;
      }
      assert list[..|list|] == list;
    }
  }
}
