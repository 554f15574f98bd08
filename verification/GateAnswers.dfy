/** What each critical section answers, in terms of the gate's fields alone. */
module GateAnswers {
  import opened Results
  import opened ProfileSwitchGate

  /** A fresh switch is let in exactly by a clear gate, and then only the reservation is recorded. */
  lemma FreshReservation(g: Shared)
    requires g.lease.Some? ==> g.lease.value < |g.refs|
    ensures var (g', answer) := Reserve(g, true);
            if g.lease.None? && !g.pending && g.recovery.None?
            then answer == Reserved && g' == g.(pending := true)
            else answer == Busy && g' == g
  {}

  /** A recovery joins the published lease, counting itself; without one it reserves, or waits for the reserver. */
  lemma DetachedReservation(g: Shared)
    requires g.lease.Some? ==> g.lease.value < |g.refs|
    ensures var (g', answer) := Reserve(g, false);
            if g.lease.Some?
            then answer == Joined(g.lease.value)
                 && g' == g.(refs := g.refs[g.lease.value := g.refs[g.lease.value] + 1])
            else if g.pending then answer == Wait && g' == g
            else answer == Reserved && g' == g.(pending := true)
  {}

  /** Publication fails exactly where another lease stands, or a recovery in the way of a fresh switch. */
  lemma Publication(g: Shared, initiating: bool)
    ensures var (g', lease) := Publish(g, initiating);
            if g.lease.Some? || (initiating && g.recovery.Some?)
            then lease.None? && g' == g
            else lease == Some(|g.refs|) && g'.lease == lease && g'.refs == g.refs + [1]
                 && g'.unlocks == g.unlocks + [0] && g'.last == (if initiating then None else g.last)
                 && (g'.pending, g'.recovery, g'.closed, g'.writer, g'.readers, g'.fatal)
                    == (g.pending, g.recovery, g.closed, g.writer, g.readers, g.fatal)
  {}

  /** The lock of the section: one writer or any number of readers. */
  lemma LockAnswers(g: Shared)
    ensures TryLock(g).1 <==> !g.writer && g.readers == 0
    ensures TryLock(g).0 == if TryLock(g).1 then g.(writer := true) else g
    ensures TryRLock(g).1 <==> !g.writer
    ensures TryRLock(g).0 == if TryRLock(g).1 then g.(readers := g.readers + 1) else g
  {}

  /** A reader bypasses with the published lease, is denied by anything else that is recorded, and may try otherwise. */
  lemma ReadAnswers(g: Shared, retained: Option<LeaseId>)
    ensures CheckRead(g, retained) ==
            if retained.Some? && g.lease == retained then OwnerBypass
            else if g.pending || g.lease.Some? || g.recovery.Some? then Denied
            else Attempt
  {}

  /** A registration finds the active recovery, or records a new one that counts itself into the published lease. */
  lemma RegistrationAnswers(g: Shared)
    requires g.lease.Some? ==> g.lease.value < |g.refs|
    ensures var (g', answer) := Register(g);
            if g.recovery.Some? then answer == Registration(g.recovery.value, false, None) && g' == g
            else answer == Registration(|g.closed|, true, g.lease)
                 && g'.recovery == g'.last == Some(|g.closed|) && g'.closed == g.closed + [false]
                 && |g'.refs| == |g.refs|
                 && (forall l: LeaseId | l < |g.refs| ::
                       g'.refs[l] == g.refs[l] + if g.lease == Some(l) then 1 else 0)
                 && (g'.pending, g'.lease, g'.unlocks, g'.writer, g'.readers, g'.fatal)
                    == (g.pending, g.lease, g.unlocks, g.writer, g.readers, g.fatal)
  {}

  /** The last holder withdraws the lease and unlocks the writer; any other only counts itself out. */
  lemma ReleaseAnswers(g: Shared, l: LeaseId)
    requires l < |g.refs| == |g.unlocks| && g.writer
    ensures var g' := Release(g, l);
            && g'.refs == g.refs[l := g.refs[l] - 1]
            && (if g.refs[l] == 1
                then g'.lease == (if g.lease == Some(l) then None else g.lease)
                     && !g'.writer && g'.unlocks == g.unlocks[l := g.unlocks[l] + 1]
                else g'.lease == g.lease && g'.writer && g'.unlocks == g.unlocks)
            && (g'.pending, g'.recovery, g'.last, g'.closed, g'.readers, g'.fatal)
               == (g.pending, g.recovery, g.last, g.closed, g.readers, g.fatal)
  {}
}
