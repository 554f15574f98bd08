/** What a delivery means for each receiver, and for the order of events. */
module NotificationOrder {
  import opened NotificationDelivery

  // The notifications of one receiver, and their outcomes, in the order of the list.
  function Group(list: seq<Notification>, address: string): seq<Notification> {
    if list == [] then []
    else
      var last := |list| - 1;
      Group(list[..last], address) + (if list[last].address == address then [list[last]] else [])
  }

  function Mine(list: seq<Notification>, outcomes: seq<Outcome>, address: string): (r: seq<Outcome>)
    requires |list| == |outcomes|
    ensures |r| == |Group(list, address)|
  {
    if list == [] then []
    else
      var last := |list| - 1;
      Mine(list[..last], outcomes[..last], address) + (if list[last].address == address then [outcomes[last]] else [])
  }

  lemma {:induction false} GroupHasOneAddress(list: seq<Notification>, address: string)
    ensures forall i | 0 <= i < |Group(list, address)| ::
              Group(list, address)[i].address == address && Group(list, address)[i] in list
  {
    if list != [] {
      GroupHasOneAddress(list[..|list| - 1], address);
    }
  }

  lemma GroupGrows(list: seq<Notification>, outcomes: seq<Outcome>, address: string)
    requires |list| == |outcomes| > 0
    ensures var last := |list| - 1;
            var group, mine := Group(list[..last], address), Mine(list[..last], outcomes[..last], address);
            var own := list[last].address == address;
            && Group(list, address) == (if own then group + [list[last]] else group)
            && Mine(list, outcomes, address) == (if own then mine + [outcomes[last]] else mine)
  {}

  lemma BlockedGrows(list: seq<Notification>, outcomes: seq<Outcome>, n: Notification, o: Outcome, address: string)
    requires |list| == |outcomes|
    ensures Blocked(list + [n], outcomes + [o], address) <==>
            Blocked(list, outcomes, address) || (n.address == address && !o.Delivered?)
  {
    hide Blocked;
    var i := |list|;
    OneMoreBlocked(list + [n], outcomes, i, o, address);
    assert (list + [n])[..i] == list && (list + [n])[..i + 1] == list + [n];
  }

  lemma {:induction false} BlockedInGroup(list: seq<Notification>, outcomes: seq<Outcome>, address: string)
    requires |list| == |outcomes|
    ensures Blocked(list, outcomes, address) <==> Blocked(Group(list, address), Mine(list, outcomes, address), address)
    decreases |list|
  {
    EmptyIsClear(address);
    if list != [] {
      hide Blocked, Group, Mine;
      var last := |list| - 1;
      var group, mine := Group(list[..last], address), Mine(list[..last], outcomes[..last], address);
      GroupGrows(list, outcomes, address);
      BlockedInGroup(list[..last], outcomes[..last], address);
      assert list[..last] + [list[last]] == list && outcomes[..last] + [outcomes[last]] == outcomes;
      BlockedGrows(list[..last], outcomes[..last], list[last], outcomes[last], address);
      if list[last].address == address { BlockedGrows(group, mine, list[last], outcomes[last], address); }
    }
  }

  lemma EmptyIsClear(address: string)
    ensures !Blocked([], [], address)
  {}

  ghost predicate EachReceiverAlone(list: seq<Notification>, outcomes: seq<Outcome>)
    requires |list| == |outcomes|
  {
    forall address: string :: Delivery(Group(list, address), Mine(list, outcomes, address))
  }

  /** Delivering the list is delivering every receiver's group on its own: receivers do not affect each other. */
  lemma {:induction false} GroupsAreIndependent(list: seq<Notification>, outcomes: seq<Outcome>)
    requires |list| == |outcomes|
    ensures Delivery(list, outcomes) <==> EachReceiverAlone(list, outcomes)
    decreases |list|
  {
    hide Blocked, Possible;
    if list != [] {
      var last := |list| - 1;
      var before, past := list[..last], outcomes[..last];
      var a := list[last].address;
      GroupsAreIndependent(before, past);
      BlockedInGroup(before, past, a);
      LastOfGroup(list, outcomes, a);
      OthersUnchanged(list, outcomes);
      if Delivery(list, outcomes) {
        forall address: string ensures Delivery(Group(list, address), Mine(list, outcomes, address)) {
          assert Delivery(Group(before, address), Mine(before, past, address));
        }
      }
      if EachReceiverAlone(list, outcomes) {
        forall address: string ensures Delivery(Group(before, address), Mine(before, past, address)) {
          assert Delivery(Group(list, address), Mine(list, outcomes, address));
        }
        assert Delivery(Group(list, a), Mine(list, outcomes, a));
      }
    }
  }

  lemma OthersUnchanged(list: seq<Notification>, outcomes: seq<Outcome>)
    requires |list| == |outcomes| > 0
    ensures forall address: string | address != list[|list| - 1].address ::
              && Group(list, address) == Group(list[..|list| - 1], address)
              && Mine(list, outcomes, address) == Mine(list[..|list| - 1], outcomes[..|list| - 1], address)
  {}

  lemma LastOfGroup(list: seq<Notification>, outcomes: seq<Outcome>, a: string)
    requires |list| == |outcomes| > 0 && list[|list| - 1].address == a
    ensures var before, past := list[..|list| - 1], outcomes[..|list| - 1];
            Delivery(Group(list, a), Mine(list, outcomes, a)) <==>
            && Delivery(Group(before, a), Mine(before, past, a))
            && Possible(list[|list| - 1].sequence, outcomes[|list| - 1])
            && (outcomes[|list| - 1].Skipped? <==> Blocked(Group(before, a), Mine(before, past, a), a))
  {
    hide Blocked, Possible;
    var before, past := list[..|list| - 1], outcomes[..|list| - 1];
    var group, mine := Group(list, a), Mine(list, outcomes, a);
    assert group[..|group| - 1] == Group(before, a) && mine[..|group| - 1] == Mine(before, past, a);
  }

  // How many notifications were delivered before the first that was not.
  function Leading(outcomes: seq<Outcome>): (k: nat)
    ensures k <= |outcomes|
    ensures forall i | 0 <= i < k :: outcomes[i].Delivered?
    ensures k < |outcomes| ==> !outcomes[k].Delivered?
  {
    if outcomes == [] || !outcomes[0].Delivered? then 0 else 1 + Leading(outcomes[1..])
  }

  lemma {:induction false} DeliveryAt(list: seq<Notification>, outcomes: seq<Outcome>, i: nat)
    requires Delivery(list, outcomes) && i < |list|
    ensures Possible(list[i].sequence, outcomes[i])
    ensures outcomes[i].Skipped? <==> Blocked(list[..i], outcomes[..i], list[i].address)
    decreases |list|
  {
    hide Blocked, Possible;
    var last := |list| - 1;
    if i < last {
      DeliveryAt(list[..last], outcomes[..last], i);
      assert list[..last][..i] == list[..i] && outcomes[..last][..i] == outcomes[..i];
    }
  }

  /**
   For every receiver the delivered notifications are the first ones of its group, at most the next one
   was tried besides, nothing after that was, and the group is in the order of the sequence numbers.
   */
  lemma ReceiverSeesPrefix(list: seq<Notification>, outcomes: seq<Outcome>, address: string)
    requires Ordered(list) && Delivery(list, outcomes)
    ensures var group, mine := Group(list, address), Mine(list, outcomes, address);
            var k := Leading(mine);
            && (forall i | 0 <= i < k :: mine[i].Delivered? && mine[i].sent.sequence == group[i].sequence)
            && (k < |mine| ==> mine[k].Missing? || ((mine[k].Rejected? || mine[k].Retained?)
                                                     && mine[k].sent.sequence == group[k].sequence))
            && (forall i | k < i < |mine| :: mine[i].Skipped?)
            && (forall i, j | 0 <= i < j < |group| :: group[i].sequence <= group[j].sequence)
  {
    hide Possible;
    var group, mine := Group(list, address), Mine(list, outcomes, address);
    var k := Leading(mine);
    GroupsAreIndependent(list, outcomes);
    assert Delivery(Group(list, address), Mine(list, outcomes, address));
    GroupHasOneAddress(list, address);
    forall i | 0 <= i < |mine|
      ensures mine[i].Skipped? <==> k < i
      ensures mine[i].Delivered? || mine[i].Retained? || mine[i].Rejected? ==>
                mine[i].sent.sequence == group[i].sequence
    {
      DeliveryAt(group, mine, i);
      PossibleSends(group[i].sequence, mine[i]);
      if k < i { assert group[..i][k].address == address && !mine[..i][k].Delivered?; }
    }
    GroupIsOrdered(list, address);
    forall i, j | 0 <= i < j < |group| ensures group[i].sequence <= group[j].sequence {
      assert !Before(group[j], group[i]);
    }
  }

  lemma {:induction false} GroupIsOrdered(list: seq<Notification>, address: string)
    requires Ordered(list)
    ensures Ordered(Group(list, address))
  {
    hide Before;
    if list != [] {
      var last := |list| - 1;
      GroupIsOrdered(list[..last], address);
      GroupHasOneAddress(list[..last], address);
      var group := Group(list[..last], address);
      forall i | 0 <= i < |group| ensures !Before(list[last], group[i]) {
        var k :| 0 <= k < last && list[..last][k] == group[i];
        assert list[k] == group[i];
      }
    }
  }

  /** Every removal the card is asked for directly follows the receiver's acknowledgement of that notification. */
  lemma {:induction false} NothingRemovedBeforeAcknowledged(list: seq<Notification>, outcomes: seq<Outcome>, k: nat)
    requires Delivery(list, outcomes) && k < |AllEvents(outcomes)| && AllEvents(outcomes)[k].Removed?
    ensures var log := AllEvents(outcomes);
            && k > 0 && log[k - 1].Posted? && log[k - 1].accepted && log[k - 1].notification.sequence == log[k].removal
            && exists i | 0 <= i < |list| :: list[i].sequence == log[k].removal
    decreases |list|
  {
    var last := |list| - 1;
    var earlier := AllEvents(outcomes[..last]);
    var own := Events(outcomes[last]);
    assert AllEvents(outcomes) == earlier + own;
    if k < |earlier| {
      NothingRemovedBeforeAcknowledged(list[..last], outcomes[..last], k);
      var i :| 0 <= i < last && list[..last][i].sequence == earlier[k].removal;
      assert list[i].sequence == AllEvents(outcomes)[k].removal;
    } else {
      OwnRemoval(list[last].sequence, outcomes[last], k - |earlier|);
      assert list[last].sequence == AllEvents(outcomes)[k].removal;
    }
  }

  lemma OwnRemoval(sequence: nat, o: Outcome, k: nat)
    requires Possible(sequence, o) && k < |Events(o)| && Events(o)[k].Removed?
    ensures k > 0 && Events(o)[k - 1].Posted? && Events(o)[k - 1].accepted
            && Events(o)[k - 1].notification.sequence == Events(o)[k].removal == sequence
  {
    PossibleSends(sequence, o);
  }
}
