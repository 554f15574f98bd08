/**
 The manager's side of the gate in the form the program has: maps and counters updated in place,
 one method per critical section. Each method is tied to the function of ProfileSwitchGate that
 SwitchProtocol interleaves, so what is proved of every run is proved of these updates.
 */
module SwitchGateObject {
  import opened Results
  import P = ProfileSwitchGate

  class Gate {
    var pending: bool
    var lease: Option<P.LeaseId>
    var refs: seq<int>
    var unlocks: seq<nat>
    var recovery: Option<P.RecoveryId>
    var last: Option<P.RecoveryId>
    var closed: seq<bool>
    var writer: bool
    var readers: int
    var fatal: bool

    function View(): P.Shared
      reads this
    {
      P.Shared(pending, lease, refs, unlocks, recovery, last, closed, writer, readers, fatal)
    }

    constructor ()
      ensures View() == P.Initial
    {
      pending, lease, refs, unlocks := false, None, [], [];
      recovery, last, closed := None, None, [];
      writer, readers, fatal := false, 0, false;
    }

    // The reservation loop's critical section.
    method Reserve(initiating: bool) returns (outcome: P.Reservation)
      requires P.Sound(View())
      modifies this
      ensures (View(), outcome) == P.Reserve(old(View()), initiating)
    {
      if !initiating && lease.Some? {
        refs := refs[lease.value := refs[lease.value] + 1];
        return P.Joined(lease.value);
      }
      var active := lease.Some? || (initiating && (pending || recovery.Some?));
      if active { return P.Busy; }
      if !pending {
        pending := true;
        return P.Reserved;
      }
      return P.Wait;
    }

    // The deferred removal of the reservation.
    method Unreserve()
      modifies this`pending
      ensures View() == old(View()).(pending := false)
    {
      pending := false;
    }

    method TryLock() returns (ok: bool)
      modifies this`writer
      ensures (View(), ok) == P.TryLock(old(View()))
    {
      ok := !writer && readers == 0;
      if ok { writer := true; }
    }

    method Unlock()
      modifies this
      ensures View() == P.Unlock(old(View()))
    {
      if writer { writer := false; } else { fatal := true; }
    }

    method TryRLock() returns (ok: bool)
      modifies this`readers
      ensures (View(), ok) == P.TryRLock(old(View()))
    {
      ok := !writer;
      if ok { readers := readers + 1; }
    }

    method RUnlock()
      modifies this
      ensures View() == P.RUnlock(old(View()))
    {
      if readers > 0 { readers := readers - 1; } else { fatal := true; }
    }

    // Publication of a new lease, or the refusal that a recovery forces on a fresh switch.
    method Publish(initiating: bool) returns (published: Option<P.LeaseId>)
      requires P.Sound(View())
      modifies this
      ensures (View(), published) == P.Publish(old(View()), initiating)
    {
      if lease.Some? || (initiating && recovery.Some?) { return None; }
      published := Some(|refs|);
      refs, unlocks := refs + [1], unlocks + [0];
      lease := published;
      if initiating { last := None; }
    }

    method Release(held: P.LeaseId)
      requires P.Sound(View()) && held < |refs|
      modifies this
      ensures View() == P.Release(old(View()), held)
    {
      refs := refs[held := refs[held] - 1];
      var finished := refs[held] == 0;
      if finished && lease == Some(held) { lease := None; }
      if finished {
        unlocks := unlocks[held := unlocks[held] + 1];
        Unlock();
      }
    }

    // The two checks of a reader, with the lease its context carries.
    method CheckRead(retained: Option<P.LeaseId>) returns (admission: P.Admission)
      ensures admission == P.CheckRead(View(), retained)
    {
      var owner := retained.Some? && lease == retained;
      var active := pending || lease.Some? || recovery.Some?;
      if owner { return P.OwnerBypass; }
      if active { return P.Denied; }
      return P.Attempt;
    }

    // Registration of a recovery, which joins the published lease if there is one.
    method Register() returns (registration: P.Registration)
      requires P.Sound(View())
      modifies this
      ensures (View(), registration) == P.Register(old(View()))
    {
      if recovery.Some? { return P.Registration(recovery.value, false, None); }
      var r := |closed|;
      closed := closed + [false];
      recovery, last := Some(r), Some(r);
      if lease.Some? { refs := refs[lease.value := refs[lease.value] + 1]; }
      return P.Registration(r, true, lease);
    }

    // The closing critical section of a recovery goroutine.
    method Finish(r: P.RecoveryId, kept: Option<P.LeaseId>)
      requires P.Sound(View()) && r < |closed| && (kept.Some? ==> kept.value < |refs|)
      modifies this
      ensures View() == P.Finish(old(View()), r, kept)
    {
      if kept.Some? { Release(kept.value); }
      if recovery == Some(r) { recovery := None; }
      if closed[r] { fatal := true; } else { closed := closed[r := true]; }
    }
  }
}
