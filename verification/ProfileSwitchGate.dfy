/**
 The profile-switch gate of one device: the reservation, the reference-counted
 lease, the reader/writer lock that is only ever tried, and the recovery entry.

 `Shared` is the state behind esimRecoveryMu together with the lock. Every
 function on it is one critical section of that mutex, or one atomic operation
 of the lock. Go aborts the process on a bad unlock and on a double close, so
 those set `fatal`, and the protocol is shown never to do so.
 */
module ProfileSwitchGate {
  import opened Results

  type LeaseId = nat
  type RecoveryId = nat

  datatype Shared = Shared(
    pending: bool,                  // a reservation is recorded
    lease: Option<LeaseId>,         // the published lease
    refs: seq<int>,                 // the count inside every lease ever created
    unlocks: seq<nat>,              // how often each lease has unlocked the writer
    recovery: Option<RecoveryId>,   // the active recovery
    last: Option<RecoveryId>,       // the most recent recovery
    closed: seq<bool>,              // whether each recovery has published its result
    writer: bool,
    readers: int,
    fatal: bool)

  const Initial := Shared(false, None, [], [], None, None, [], false, 0, false)

  predicate Active(g: Shared) {
    g.pending || g.lease.Some? || g.recovery.Some?
  }

  datatype Reservation = Joined(lease: LeaseId) | Busy | Reserved | Wait

  ghost predicate Sound(g: Shared) {
    && |g.unlocks| == |g.refs|
    && (g.lease.Some? ==> g.lease.value < |g.refs|)
    && (g.recovery.Some? ==> g.recovery.value < |g.closed|)
  }

  function Reserve(g: Shared, initiating: bool): (Shared, Reservation)
    requires g.lease.Some? ==> g.lease.value < |g.refs|
  {
    if !initiating && g.lease.Some? then
      (g.(refs := g.refs[g.lease.value := g.refs[g.lease.value] + 1]), Joined(g.lease.value))
    else if g.lease.Some? || (initiating && (g.pending || g.recovery.Some?)) then (g, Busy)
    else if !g.pending then (g.(pending := true), Reserved)
    else (g, Wait)
  }

  function TryLock(g: Shared): (Shared, bool) {
    if !g.writer && g.readers == 0 then (g.(writer := true), true) else (g, false)
  }

  function Unlock(g: Shared): Shared {
    if g.writer then g.(writer := false) else g.(fatal := true)
  }

  function TryRLock(g: Shared): (Shared, bool) {
    if g.writer then (g, false) else (g.(readers := g.readers + 1), true)
  }

  function RUnlock(g: Shared): Shared {
    if g.readers > 0 then g.(readers := g.readers - 1) else g.(fatal := true)
  }

  function Publish(g: Shared, initiating: bool): (Shared, Option<LeaseId>) {
    if g.lease.Some? || (initiating && g.recovery.Some?) then (g, None)
    else
      var lease := |g.refs|;
      (g.(lease := Some(lease), refs := g.refs + [1], unlocks := g.unlocks + [0],
          last := if initiating then None else g.last),
       Some(lease))
  }

  function Release(g: Shared, lease: LeaseId): Shared
    requires lease < |g.refs| == |g.unlocks|
  {
    var count := g.refs[lease] - 1;
    var counted := g.(refs := g.refs[lease := count]);
    if count != 0 then counted
    else
      var dropped := if counted.lease == Some(lease) then counted.(lease := None) else counted;
      Unlock(dropped.(unlocks := dropped.unlocks[lease := dropped.unlocks[lease] + 1]))
  }

  datatype Admission = OwnerBypass | Denied | Attempt

  function CheckRead(g: Shared, retained: Option<LeaseId>): Admission {
    if retained.Some? && g.lease == retained then OwnerBypass
    else if Active(g) then Denied else Attempt
  }

  datatype Registration = Registration(recovery: RecoveryId, started: bool, lease: Option<LeaseId>)

  function Register(g: Shared): (Shared, Registration)
    requires g.lease.Some? ==> g.lease.value < |g.refs|
  {
    if g.recovery.Some? then (g, Registration(g.recovery.value, false, None))
    else
      var r := |g.closed|;
      var refs := if g.lease.Some? then g.refs[g.lease.value := g.refs[g.lease.value] + 1] else g.refs;
      (g.(recovery := Some(r), last := Some(r), closed := g.closed + [false], refs := refs),
       Registration(r, true, g.lease))
  }

  function Finish(g: Shared, r: RecoveryId, lease: Option<LeaseId>): Shared
    requires r < |g.closed| && |g.refs| == |g.unlocks|
    requires lease.Some? ==> lease.value < |g.refs|
  {
    var g1 := if lease.Some? then Release(g, lease.value) else g;
    var g2 := if g1.recovery == Some(r) then g1.(recovery := None) else g1;
    if g2.closed[r] then g2.(fatal := true) else g2.(closed := g2.closed[r := true])
  }
}
