/**
 What every step of the gate's protocol keeps. For each role a thread can play the invariant counts who plays it,
 and ties those counts to the lease's references, the writer, the readers, the reservation and the recoveries.
 */
module SwitchInvariant {
  import opened Results
  import opened ProfileSwitchGate
  import opened SwitchProtocol

  // ---- What a program counter stands for --------------------------------------------------

  datatype Role =
    | HolderOf(lease: LeaseId) | Reserver | Locker | RHolder | WorkerOf(r: RecoveryId) | FreshHolder | Unleased | Bare

  predicate Is(pc: PC, role: Role) {
    match role
    case HolderOf(l) =>
      || (pc.Unreserve? && pc.got == Some(l)) || (pc.Switching? && pc.lease == l)
      || (pc.Recovering? && pc.held == l) || (pc.Finishing? && pc.kept == Some(l))
    case Reserver => pc.Drain? || pc.Drained? || pc.Refused? || pc.Unreserve?
    case Bare => pc.Drain? || pc.Drained? || pc.Refused? || (pc.Unreserve? && pc.got.None?)
    case Locker => pc.Drained? || pc.Refused?
    case RHolder => pc.ReadRecheck? || pc.ReadBack? || pc.Reading?
    case WorkerOf(r) =>
      || ((pc.Begin? || pc.Drain? || pc.Drained? || pc.Refused? || pc.Unreserve?) && pc.who == Detached(r))
      || (pc.Recovering? && pc.r == r) || (pc.Finishing? && pc.r == r)
    case FreshHolder => pc.Switching? || (pc.Unreserve? && pc.who.Fresh? && pc.got.Some?)
    case Unleased =>
      || ((pc.Begin? || pc.Drain? || pc.Drained? || pc.Refused?) && pc.who.Detached?)
      || (pc.Unreserve? && pc.who.Detached? && pc.got.None?)
      || (pc.Finishing? && pc.kept.None?)
  }

  ghost function Those(pcs: map<Tid, PC>, role: Role): set<Tid> {
    set t | t in pcs && Is(pcs[t], role)
  }

  ghost function Count(pcs: map<Tid, PC>, role: Role): nat {
    |Those(pcs, role)|
  }

  function One(b: bool): nat { if b then 1 else 0 }

  // Adding one member, or removing it, moves a cardinality by one.
  lemma Toggled(before: set<Tid>, after: set<Tid>, t: Tid)
    requires before - {t} == after - {t}
    ensures |after| == |before| - One(t in before) + One(t in after)
  {
    var rest := before - {t};
    assert before == if t in before then rest + {t} else rest;
    assert after == if t in after then rest + {t} else rest;
  }

  lemma IdleIsNothing(role: Role)
    ensures !Is(Idle, role)
  {}

  lemma CountMove(pcs: map<Tid, PC>, t: Tid, pc: PC, role: Role)
    ensures Count(pcs[t := pc], role) == Count(pcs, role) - One(Is(At(pcs, t), role)) + One(Is(pc, role))
  {
    IdleIsNothing(role);
    Toggled(Those(pcs, role), Those(pcs[t := pc], role), t);
  }

  lemma CountMoves(pcs: map<Tid, PC>, t: Tid, pc: PC)
    ensures forall role :: Count(pcs[t := pc], role) == Count(pcs, role) - One(Is(At(pcs, t), role)) + One(Is(pc, role))
  {
    forall role ensures Count(pcs[t := pc], role) == Count(pcs, role) - One(Is(At(pcs, t), role)) + One(Is(pc, role)) {
      CountMove(pcs, t, pc, role);
    }
  }

  lemma CountsIn(pcs: map<Tid, PC>, t: Tid, role: Role)
    requires Is(At(pcs, t), role)
    ensures Count(pcs, role) >= 1
  {
    assert Those(pcs, role) >= {t};
    assert Those(pcs, role) == Those(pcs, role) - {t} + {t};
  }

  lemma CountWitness(pcs: map<Tid, PC>, role: Role) returns (t: Tid)
    requires Count(pcs, role) >= 1
    ensures Is(At(pcs, t), role)
  {
    t :| t in Those(pcs, role);
  }

  lemma CountZero(pcs: map<Tid, PC>, role: Role)
    requires forall t: Tid :: !Is(At(pcs, t), role)
    ensures Count(pcs, role) == 0
  {
    if Count(pcs, role) >= 1 { var t := CountWitness(pcs, role); }
  }

  lemma CountsTwo(pcs: map<Tid, PC>, t: Tid, u: Tid, role: Role)
    requires t != u && Is(At(pcs, t), role) && Is(At(pcs, u), role)
    ensures Count(pcs, role) >= 2
  {
    var rest := Those(pcs, role) - {t, u};
    assert Those(pcs, role) == rest + {t} + {u};
  }

  // ---- The inductive invariant ------------------------------------------------------------

  // The count in every lease is the number of its live holders; only the published one has any,
  // and every other lease has unlocked the writer exactly once.
  ghost predicate LeasesCounted(s: Sys)
    requires Sound(s.g)
  {
    && (forall l: LeaseId | l < |s.g.refs| :: Count(s.pcs, HolderOf(l)) == s.g.refs[l])
    && (forall l: LeaseId | l < |s.g.refs| ::
          && s.g.unlocks[l] == One(s.g.lease != Some(l))
          && (s.g.refs[l] > 0 <==> s.g.lease == Some(l)))
  }

  // The reservation, the writer bit and the reader count are exactly what threads have taken.
  ghost predicate GateCounted(s: Sys) {
    && Count(s.pcs, Reserver) == One(s.g.pending)
    && Count(s.pcs, Locker) + One(s.g.lease.Some?) == One(s.g.writer)
    && Count(s.pcs, RHolder) == s.g.readers
    && (s.g.writer ==> s.g.readers == 0)
    && (Count(s.pcs, Bare) > 0 ==> s.g.lease.None?)
  }

  // An active recovery has exactly one goroutine, a finished one has none and a published result.
  ghost predicate RecoveriesCounted(s: Sys) {
    && (forall r: RecoveryId | r < |s.g.closed| :: Count(s.pcs, WorkerOf(r)) == One(s.g.recovery == Some(r)))
    && (forall r: RecoveryId | r < |s.g.closed| :: s.g.closed[r] <==> s.g.recovery != Some(r))
    && (s.g.recovery.Some? ==> s.g.last == s.g.recovery)
    && (Count(s.pcs, FreshHolder) > 0 ==> Count(s.pcs, Unleased) == 0)
  }

  // The eSIM lock serialises the starters, and one that has waited sees no recovery.
  ghost predicate StartersSerialised(s: Sys) {
    && (forall t: Tid :: !PhaseOf(At(s.pcs, t)).Free? <==> s.esim == Some(t))
    && (forall t: Tid :: PhaseOf(At(s.pcs, t)).Clear? ==> s.g.recovery.None?)
    && (forall t: Tid :: PhaseOf(At(s.pcs, t)).Waiting? && s.g.recovery.Some? ==>
          s.g.recovery.value == PhaseOf(At(s.pcs, t)).r)
    && (forall t: Tid :: !(At(s.pcs, t).Direct? && PhaseOf(At(s.pcs, t)).Free?))
  }

  ghost predicate Inv(s: Sys) {
    && !s.g.fatal
    && Sound(s.g)
    && NamesKnown(s)
    && LeasesCounted(s)
    && GateCounted(s)
    && RecoveriesCounted(s)
    && StartersSerialised(s)
  }

  // ---- Preservation -----------------------------------------------------------------------

  lemma StartHolds()
    ensures Inv(Start)
  {
    forall role ensures Count(Start.pcs, role) == 0 {
      assert Those(Start.pcs, role) == {};
    }
  }

  lemma KeepsNames(s: Sys, s': Sys, t: Tid, pc: PC)
    requires NamesKnown(s) && s'.pcs == s.pcs[t := pc]
    requires |s.g.refs| <= |s'.g.refs| && |s.g.closed| <= |s'.g.closed|
    requires NamesKnownAt(s'.g, pc)
    ensures NamesKnown(s')
  {
    forall u: Tid ensures NamesKnownAt(s'.g, At(s'.pcs, u)) {
      assert NamesKnownAt(s.g, At(s.pcs, u));
    }
  }

  lemma KeepsStarters(s: Sys, s': Sys, t: Tid, pc: PC)
    requires StartersSerialised(s) && s'.pcs == s.pcs[t := pc] && s'.esim == s.esim
    requires PhaseOf(pc) == PhaseOf(At(s.pcs, t)) && (pc.Direct? ==> At(s.pcs, t).Direct?)
    requires s'.g.recovery == s.g.recovery || s'.g.recovery.None?
    ensures StartersSerialised(s')
  {
    forall u: Tid ensures PhaseOf(At(s'.pcs, u)) == PhaseOf(At(s.pcs, u)) {}
  }

  // A thread's move that keeps the lease and the recovery it stands for.
  lemma QuietKeeps(s: Sys, s': Sys, t: Tid, before: PC, after: PC)
    requires Inv(s) && before == At(s.pcs, t) && s'.pcs == s.pcs[t := after] && s'.esim == s.esim
    requires s'.g == s.g.(pending := s'.g.pending, writer := s'.g.writer, readers := s'.g.readers)
    requires NamesKnownAt(s.g, after)
    requires PhaseOf(after) == PhaseOf(before) && !after.Direct?
    requires forall l: LeaseId :: Is(after, HolderOf(l)) == Is(before, HolderOf(l))
    requires forall r: RecoveryId :: Is(after, WorkerOf(r)) == Is(before, WorkerOf(r))
    requires Is(after, FreshHolder) == Is(before, FreshHolder) && (Is(after, Unleased) ==> Is(before, Unleased))
    requires One(s'.g.pending) == One(s.g.pending) - One(Is(before, Reserver)) + One(Is(after, Reserver))
    requires One(s'.g.writer) == One(s.g.writer) - One(Is(before, Locker)) + One(Is(after, Locker))
    requires s'.g.readers == s.g.readers - One(Is(before, RHolder)) + One(Is(after, RHolder))
    requires s'.g.writer ==> s'.g.readers == 0
    requires Is(after, Bare) ==> Is(before, Bare) || s.g.lease.None?
    ensures Inv(s')
  {
    CountMoves(s.pcs, t, after);
    KeepsNames(s, s', t, after);
    KeepsStarters(s, s', t, after);
  }

  lemma RUnlockKeeps(s: Sys, t: Tid)
    requires Inv(s) && (At(s.pcs, t).ReadBack? || At(s.pcs, t).Reading?)
    ensures Inv(s.(g := RUnlock(s.g), pcs := s.pcs[t := Idle]))
  {
    CountsIn(s.pcs, t, RHolder);
    QuietKeeps(s, s.(g := RUnlock(s.g), pcs := s.pcs[t := Idle]), t, At(s.pcs, t), Idle);
  }

  lemma ReadKeeps(s: Sys, t: Tid, a: Action)
    requires Inv(s) && ReadMove(s.g, At(s.pcs, t), a).To?
    ensures Inv(Alone(s, t, ReadMove(s.g, At(s.pcs, t), a)).value)
  {
    var before, m := At(s.pcs, t), ReadMove(s.g, At(s.pcs, t), a);
    hide Count, Sound;
    if a.RUnlockStep? { RUnlockKeeps(s, t); }
    else { QuietKeeps(s, Alone(s, t, m).value, t, before, m.pc); }
  }

  lemma WriterKeeps(s: Sys, t: Tid, a: Action)
    requires Inv(s) && BeginMove(s.g, At(s.pcs, t), a).To?
    requires a.TryLockStep? || a.AbortDrained? || a.UnlockRefused?
    ensures Inv(Alone(s, t, BeginMove(s.g, At(s.pcs, t), a)).value)
  {
    var before, m := At(s.pcs, t), BeginMove(s.g, At(s.pcs, t), a);
    assert NamesKnownAt(s.g, before);
    if Is(before, Locker) { CountsIn(s.pcs, t, Locker); }
    QuietKeeps(s, Alone(s, t, m).value, t, before, m.pc);
  }

  lemma CallKeeps(s: Sys, t: Tid, a: Action)
    requires Inv(s) && BeginMove(s.g, At(s.pcs, t), a).To?
    requires a.CallSwitch? || a.GiveUp?
    ensures Inv(Alone(s, t, BeginMove(s.g, At(s.pcs, t), a)).value)
  {
    var before, m := At(s.pcs, t), BeginMove(s.g, At(s.pcs, t), a);
    assert NamesKnownAt(s.g, before);
    QuietKeeps(s, Alone(s, t, m).value, t, before, m.pc);
  }

  lemma ResumeKeepsRoles(who: Who, got: Option<LeaseId>)
    ensures forall l: LeaseId :: Is(Resume(who, got), HolderOf(l)) == Is(Unreserve(who, got), HolderOf(l))
    ensures forall r: RecoveryId :: Is(Resume(who, got), WorkerOf(r)) == Is(Unreserve(who, got), WorkerOf(r))
    ensures Is(Resume(who, got), FreshHolder) == Is(Unreserve(who, got), FreshHolder)
    ensures Is(Resume(who, got), Unleased) ==> Is(Unreserve(who, got), Unleased)
    ensures !Is(Resume(who, got), Reserver) && !Is(Resume(who, got), Locker) && !Is(Resume(who, got), RHolder)
    ensures !Is(Resume(who, got), Bare) && PhaseOf(Resume(who, got)).Free? && !Resume(who, got).Direct?
  {}

  lemma UnreserveKeeps(s: Sys, t: Tid, who: Who, got: Option<LeaseId>)
    requires Inv(s) && At(s.pcs, t) == Unreserve(who, got)
    ensures Inv(s.(g := s.g.(pending := false), pcs := s.pcs[t := Resume(who, got)]))
  {
    assert NamesKnownAt(s.g, Unreserve(who, got));
    CountsIn(s.pcs, t, Reserver);
    ResumeKeepsRoles(who, got);
    QuietKeeps(s, s.(g := s.g.(pending := false), pcs := s.pcs[t := Resume(who, got)]), t, Unreserve(who, got),
               Resume(who, got));
  }

  // A recovery goroutine that joins the published lease.
  ghost predicate Joins(s: Sys, s': Sys, t: Tid, r: RecoveryId, l: LeaseId) {
    && Inv(s) && At(s.pcs, t) == Begin(Detached(r)) && s.g.lease == Some(l)
    && s' == s.(g := s.g.(refs := s.g.refs[l := s.g.refs[l] + 1]), pcs := s.pcs[t := Recovering(r, l)])
  }

  lemma JoinCountsLeases(s: Sys, s': Sys, t: Tid, r: RecoveryId, l: LeaseId)
    requires Joins(s, s', t, r, l)
    ensures LeasesCounted(s') && GateCounted(s')
  {
    hide RecoveriesCounted, NamesKnown, StartersSerialised;
    CountMoves(s.pcs, t, Recovering(r, l));
  }

  lemma JoinCountsRecoveries(s: Sys, s': Sys, t: Tid, r: RecoveryId, l: LeaseId)
    requires Joins(s, s', t, r, l)
    ensures RecoveriesCounted(s')
  {
    hide NamesKnown, StartersSerialised, LeasesCounted;
    CountMoves(s.pcs, t, Recovering(r, l));
  }

  lemma JoinKeeps(s: Sys, s': Sys, t: Tid, r: RecoveryId, l: LeaseId)
    requires Inv(s) && At(s.pcs, t) == Begin(Detached(r)) && s.g.lease == Some(l)
    requires s' == s.(g := s.g.(refs := s.g.refs[l := s.g.refs[l] + 1]), pcs := s.pcs[t := Recovering(r, l)])
    ensures Inv(s')
  {
    assert NamesKnownAt(s.g, At(s.pcs, t));
    JoinCountsLeases(s, s', t, r, l);
    JoinCountsRecoveries(s, s', t, r, l);
    hide LeasesCounted, GateCounted, RecoveriesCounted;
    KeepsNames(s, s', t, Recovering(r, l));
    KeepsStarters(s, s', t, Recovering(r, l));
  }

  lemma ReserveKeeps(s: Sys, t: Tid)
    requires Inv(s) && At(s.pcs, t).Begin?
    ensures Inv(Alone(s, t, BeginMove(s.g, At(s.pcs, t), ReserveStep)).value)
  {
    var before, m := At(s.pcs, t), BeginMove(s.g, At(s.pcs, t), ReserveStep);
    assert NamesKnownAt(s.g, before);
    if before.who.Detached? && s.g.lease.Some? {
      JoinKeeps(s, Alone(s, t, m).value, t, before.who.r, s.g.lease.value);
    } else {
      QuietKeeps(s, Alone(s, t, m).value, t, before, m.pc);
    }
  }

  // Nobody stands for a lease or a recovery that does not exist yet.
  lemma NoStrangers(s: Sys)
    requires NamesKnown(s)
    ensures forall l: LeaseId | l >= |s.g.refs| :: Count(s.pcs, HolderOf(l)) == 0
    ensures forall r: RecoveryId | r >= |s.g.closed| :: Count(s.pcs, WorkerOf(r)) == 0
  {
    forall l: LeaseId | l >= |s.g.refs| ensures Count(s.pcs, HolderOf(l)) == 0 {
      forall t: Tid ensures !Is(At(s.pcs, t), HolderOf(l)) { assert NamesKnownAt(s.g, At(s.pcs, t)); }
      CountZero(s.pcs, HolderOf(l));
    }
    forall r: RecoveryId | r >= |s.g.closed| ensures Count(s.pcs, WorkerOf(r)) == 0 {
      forall t: Tid ensures !Is(At(s.pcs, t), WorkerOf(r)) { assert NamesKnownAt(s.g, At(s.pcs, t)); }
      CountZero(s.pcs, WorkerOf(r));
    }
  }

  function WorkOf(pc: PC): RecoveryId
    requires Is(pc, Unleased)
  {
    if pc.Finishing? then pc.r else pc.who.r
  }

  lemma UnleasedIsActive(s: Sys)
    requires Inv(s) && Count(s.pcs, Unleased) >= 1
    ensures s.g.recovery.Some?
  {
    var t := CountWitness(s.pcs, Unleased);
    assert NamesKnownAt(s.g, At(s.pcs, t));
    CountsIn(s.pcs, t, WorkerOf(WorkOf(At(s.pcs, t))));
  }

  lemma FreshHolderIsPublished(s: Sys)
    requires Inv(s) && Count(s.pcs, FreshHolder) >= 1
    ensures s.g.lease.Some?
  {
    var t := CountWitness(s.pcs, FreshHolder);
    var pc := At(s.pcs, t);
    assert NamesKnownAt(s.g, pc);
    CountsIn(s.pcs, t, HolderOf(if pc.Switching? then pc.lease else pc.got.value));
  }

  ghost predicate Publishes(s: Sys, s': Sys, t: Tid, who: Who) {
    && Inv(s) && At(s.pcs, t) == Drained(who) && s.g.lease.None? && (who.Fresh? ==> s.g.recovery.None?)
    && s'.esim == s.esim && s'.g == Publish(s.g, who.Fresh?).0
    && s'.pcs == s.pcs[t := Unreserve(who, Some(|s.g.refs|))]
  }

  lemma PublishCountsLeases(s: Sys, s': Sys, t: Tid, who: Who)
    requires Publishes(s, s', t, who)
    ensures Sound(s'.g) && LeasesCounted(s')
  {
    NoStrangers(s);
    CountMoves(s.pcs, t, Unreserve(who, Some(|s.g.refs|)));
  }

  lemma BareReserves(pcs: map<Tid, PC>)
    ensures Count(pcs, Bare) <= Count(pcs, Reserver)
  {
    var bare, all := Those(pcs, Bare), Those(pcs, Reserver);
    assert all == bare + (all - bare);
  }

  lemma PublishCountsGate(s: Sys, s': Sys, t: Tid, who: Who)
    requires Publishes(s, s', t, who)
    ensures GateCounted(s')
  {
    BareReserves(s.pcs);
    CountsIn(s.pcs, t, Bare);
    CountMoves(s.pcs, t, Unreserve(who, Some(|s.g.refs|)));
    CountsIn(s.pcs, t, Locker);
  }

  lemma PublishCountsRecoveries(s: Sys, s': Sys, t: Tid, who: Who)
    requires Publishes(s, s', t, who)
    ensures RecoveriesCounted(s')
  {
    hide LeasesCounted, NamesKnown, StartersSerialised;
    CountMoves(s.pcs, t, Unreserve(who, Some(|s.g.refs|)));
    if Count(s.pcs, Unleased) >= 1 { UnleasedIsActive(s); }
    if Count(s.pcs, FreshHolder) >= 1 { FreshHolderIsPublished(s); }
  }

  // Thread t publishes a new lease under the writer it has just locked.
  lemma PublishesLease(s: Sys, s': Sys, t: Tid, who: Who)
    requires Publishes(s, s', t, who)
    ensures Inv(s')
  {
    assert NamesKnownAt(s.g, At(s.pcs, t));
    PublishCountsLeases(s, s', t, who);
    PublishCountsGate(s, s', t, who);
    PublishCountsRecoveries(s, s', t, who);
    KeepsNames(s, s', t, Unreserve(who, Some(|s.g.refs|)));
    KeepsStarters(s, s', t, Unreserve(who, Some(|s.g.refs|)));
  }

  lemma PublishKeeps(s: Sys, t: Tid, who: Who)
    requires Inv(s) && At(s.pcs, t) == Drained(who)
    ensures Inv(Alone(s, t, BeginMove(s.g, At(s.pcs, t), PublishStep)).value)
  {
    var before, m := At(s.pcs, t), BeginMove(s.g, At(s.pcs, t), PublishStep);
    var s' := Alone(s, t, m).value;
    assert NamesKnownAt(s.g, before);
    if m.pc.Refused? {
      QuietKeeps(s, s', t, before, m.pc);
    } else {
      PublishesLease(s, s', t, who);
    }
  }

  // A thread that holds a lease holds the published one, and its writer is locked.
  lemma HolderIsPublished(s: Sys, t: Tid, l: LeaseId)
    requires Inv(s) && Is(At(s.pcs, t), HolderOf(l))
    ensures s.g.lease == Some(l) && s.g.writer && l < |s.g.refs| && s.g.refs[l] >= 1
  {
    assert NamesKnownAt(s.g, At(s.pcs, t));
    CountsIn(s.pcs, t, HolderOf(l));
  }

  // What a holder's release does: the last holder also withdraws the lease and unlocks the writer.
  lemma ReleaseBy(g: Shared, l: LeaseId)
    requires Sound(g) && g.lease == Some(l) && g.writer && g.refs[l] >= 1 && g.unlocks[l] == 0
    ensures g.refs[l] > 1 ==> Release(g, l) == g.(refs := g.refs[l := g.refs[l] - 1])
    ensures g.refs[l] == 1 ==>
      Release(g, l) == g.(refs := g.refs[l := 0], lease := None, unlocks := g.unlocks[l := 1], writer := false)
  {}

  // Thread t gives its share of lease l back, and becomes idle.
  lemma GivesBackLease(s: Sys, g: Shared, t: Tid, l: LeaseId)
    requires Inv(s) && Is(At(s.pcs, t), HolderOf(l)) && !Is(At(s.pcs, t), Reserver)
    requires l < |s.g.refs| && g == Release(s.g, l)
    ensures !g.fatal && Sound(g)
    ensures g == s.g.(refs := g.refs, lease := g.lease, unlocks := g.unlocks, writer := g.writer)
    ensures |g.refs| == |s.g.refs| && (g.lease == s.g.lease || g.lease.None?)
    ensures LeasesCounted(s.(g := g, pcs := s.pcs[t := Idle]))
    ensures GateCounted(s.(g := g, pcs := s.pcs[t := Idle]))
  {
    HolderIsPublished(s, t, l);
    ReleaseBy(s.g, l);
    CountMoves(s.pcs, t, Idle);
  }

  lemma ReleaseCountsRecoveries(s: Sys, s': Sys, t: Tid)
    requires Inv(s) && At(s.pcs, t).Switching? && s'.pcs == s.pcs[t := Idle]
    requires s'.g.closed == s.g.closed && s'.g.recovery == s.g.recovery && s'.g.last == s.g.last
    ensures RecoveriesCounted(s')
  {
    CountMoves(s.pcs, t, Idle);
  }

  lemma ReleaseKeeps(s: Sys, t: Tid, l: LeaseId)
    requires Inv(s) && At(s.pcs, t) == Switching(l, Free) && l < |s.g.refs|
    ensures Inv(s.(g := Release(s.g, l), pcs := s.pcs[t := Idle]))
  {
    var s' := s.(g := Release(s.g, l), pcs := s.pcs[t := Idle]);
    GivesBackLease(s, s'.g, t, l);
    ReleaseCountsRecoveries(s, s', t);
    KeepsNames(s, s', t, Idle);
    KeepsStarters(s, s', t, Idle);
  }

  lemma FinishCountsRecoveries(s: Sys, s': Sys, t: Tid, r: RecoveryId)
    requires Inv(s) && At(s.pcs, t).Finishing? && At(s.pcs, t).r == r && s'.pcs == s.pcs[t := Idle]
    requires r < |s.g.closed| && s'.g.closed == s.g.closed[r := true] && s'.g.recovery.None?
    ensures RecoveriesCounted(s')
  {
    CountMoves(s.pcs, t, Idle);
    CountsIn(s.pcs, t, WorkerOf(r));
  }

  lemma FinishCountsLeases(s: Sys, t: Tid, r: RecoveryId, kept: Option<LeaseId>)
    requires Inv(s) && At(s.pcs, t) == Finishing(r, kept)
    requires r < |s.g.closed| && (kept.Some? ==> kept.value < |s.g.refs|)
    ensures var s' := s.(g := Finish(s.g, r, kept), pcs := s.pcs[t := Idle]);
      && !s'.g.fatal && Sound(s'.g) && LeasesCounted(s') && GateCounted(s')
      && |s'.g.refs| == |s.g.refs| && s'.g.closed == s.g.closed[r := true] && s'.g.recovery.None?
  {
    CountsIn(s.pcs, t, WorkerOf(r));
    if kept.Some? {
      GivesBackLease(s, Release(s.g, kept.value), t, kept.value);
    } else {
      CountMoves(s.pcs, t, Idle);
    }
  }

  lemma FinishKeeps(s: Sys, t: Tid, r: RecoveryId, kept: Option<LeaseId>)
    requires Inv(s) && At(s.pcs, t) == Finishing(r, kept)
    requires r < |s.g.closed| && (kept.Some? ==> kept.value < |s.g.refs|)
    ensures Inv(s.(g := Finish(s.g, r, kept), pcs := s.pcs[t := Idle]))
  {
    var s' := s.(g := Finish(s.g, r, kept), pcs := s.pcs[t := Idle]);
    FinishCountsLeases(s, t, r, kept);
    FinishCountsRecoveries(s, s', t, r);
    KeepsNames(s, s', t, Idle);
    KeepsStarters(s, s', t, Idle);
  }

  lemma SameRoles(pcs: map<Tid, PC>, t: Tid, after: PC)
    requires forall role :: Is(after, role) == Is(At(pcs, t), role)
    ensures forall role :: Count(pcs[t := after], role) == Count(pcs, role)
  {
    CountMoves(pcs, t, after);
  }

  // A starter's move between phases, which changes nothing it stands for.
  lemma PhaseKeeps(s: Sys, s': Sys, t: Tid, after: PC)
    requires Inv(s) && s'.g == s.g && s'.pcs == s.pcs[t := after]
    requires after == WithPhase(At(s.pcs, t), PhaseOf(after))
    requires At(s.pcs, t).Idle? || At(s.pcs, t).Switching? || At(s.pcs, t).Direct?
    requires NamesKnownAt(s.g, after) && StartersSerialised(s')
    ensures Inv(s')
  {
    SameRoles(s.pcs, t, after);
    KeepsNames(s, s', t, after);
  }

  lemma PhaseMoves(s: Sys, t: Tid, a: Action)
    requires Inv(s) && OfStarter(a) && !a.StartRecovery?
    requires NamesKnownAt(s.g, At(s.pcs, t)) && StarterStep(s, t, a).Some?
    ensures var s' := StarterStep(s, t, a).value;
            var before, after := At(s.pcs, t), At(s'.pcs, t);
            && s'.g == s.g && s'.pcs == s.pcs[t := after] && after == WithPhase(before, PhaseOf(after))
            && (before.Idle? || before.Switching? || before.Direct?) && NamesKnownAt(s.g, after)
  {
    hide LeasesCounted, GateCounted, RecoveriesCounted, Count;
  }

  lemma PhaseSerialises(s: Sys, t: Tid, a: Action)
    requires Inv(s) && OfStarter(a) && !a.StartRecovery?
    requires NamesKnownAt(s.g, At(s.pcs, t)) && StarterStep(s, t, a).Some?
    ensures StartersSerialised(StarterStep(s, t, a).value)
  {
    hide LeasesCounted, GateCounted, Count, Is;
    var s' := StarterStep(s, t, a).value;
    PhaseMoves(s, t, a);
    forall u: Tid | u != t ensures At(s'.pcs, u) == At(s.pcs, u) {}
  }

  lemma PhaseStepKeeps(s: Sys, t: Tid, a: Action)
    requires Inv(s) && OfStarter(a) && !a.StartRecovery?
    requires NamesKnownAt(s.g, At(s.pcs, t)) && StarterStep(s, t, a).Some?
    ensures Inv(StarterStep(s, t, a).value)
  {
    PhaseMoves(s, t, a);
    PhaseSerialises(s, t, a);
    hide Inv, StarterStep, StartersSerialised, WithPhase, PhaseOf;
    PhaseKeeps(s, StarterStep(s, t, a).value, t, At(StarterStep(s, t, a).value.pcs, t));
  }

  // Thread t registers a recovery, which cannot exist yet, and thread child becomes its goroutine.
  ghost predicate Registers(s: Sys, s': Sys, t: Tid, child: Tid, after: PC, goroutine: PC) {
    && Inv(s) && PhaseOf(At(s.pcs, t)).Clear? && child != t && At(s.pcs, child).Idle?
    && after == WithPhase(At(s.pcs, t), Started)
    && s.g.recovery.None? && s'.g == Register(s.g).0 && s'.esim == s.esim
    && goroutine == (if s.g.lease.Some? then Recovering(|s.g.closed|, s.g.lease.value)
                     else Begin(Detached(|s.g.closed|)))
    && s'.pcs == s.pcs[t := after][child := goroutine]
  }

  lemma RegisterMoves(s: Sys, s': Sys, t: Tid, child: Tid, after: PC, goroutine: PC)
    requires Registers(s, s', t, child, after, goroutine)
    ensures forall role :: Count(s'.pcs, role) == Count(s.pcs, role) + One(Is(goroutine, role))
  {
    hide Inv;
    SameRoles(s.pcs, t, after);
    CountMoves(s.pcs[t := after], child, goroutine);
    forall role ensures !Is(Idle, role) {}
  }

  lemma RegisterCountsLeases(s: Sys, s': Sys, t: Tid, child: Tid, after: PC, goroutine: PC)
    requires Registers(s, s', t, child, after, goroutine)
    ensures !s'.g.fatal && Sound(s'.g) && LeasesCounted(s') && GateCounted(s')
  {
    RegisterMoves(s, s', t, child, after, goroutine);
  }

  lemma RegisterCountsRecoveries(s: Sys, s': Sys, t: Tid, child: Tid, after: PC, goroutine: PC)
    requires Registers(s, s', t, child, after, goroutine)
    ensures RecoveriesCounted(s')
  {
    hide NamesKnown, StartersSerialised, LeasesCounted;
    RegisterMoves(s, s', t, child, after, goroutine);
    NoStrangers(s);
    if Count(s.pcs, FreshHolder) >= 1 { FreshHolderIsPublished(s); }
    if Count(s.pcs, Unleased) >= 1 { UnleasedIsActive(s); }
  }

  lemma RegisterSerialises(s: Sys, s': Sys, t: Tid, child: Tid, after: PC, goroutine: PC)
    requires Registers(s, s', t, child, after, goroutine)
    ensures StartersSerialised(s') && NamesKnown(s')
  {
    forall u: Tid | u != t && u != child ensures At(s'.pcs, u) == At(s.pcs, u) {}
    assert s.esim == Some(t);
    forall u: Tid | u != t ensures PhaseOf(At(s'.pcs, u)).Free? {
      assert PhaseOf(At(s.pcs, u)).Free?;
    }
    assert NamesKnownAt(s.g, At(s.pcs, t));
    var mid := s.(g := s'.g, pcs := s.pcs[t := after]);
    KeepsNames(s, mid, t, after);
    KeepsNames(mid, s', child, goroutine);
  }

  lemma StartRecoveryKeeps(s: Sys, t: Tid, child: Tid)
    requires Inv(s) && NamesKnownAt(s.g, At(s.pcs, t)) && StarterStep(s, t, StartRecovery(child)).Some?
    ensures Inv(StarterStep(s, t, StartRecovery(child)).value)
  {
    var s' := StarterStep(s, t, StartRecovery(child)).value;
    var after, goroutine := WithPhase(At(s.pcs, t), Started), At(s'.pcs, child);
    assert PhaseOf(At(s.pcs, t)).Clear?;
    assert Registers(s, s', t, child, after, goroutine);
    RegisterCountsLeases(s, s', t, child, after, goroutine);
    RegisterCountsRecoveries(s, s', t, child, after, goroutine);
    RegisterSerialises(s, s', t, child, after, goroutine);
  }

  lemma HardwareDoneKeeps(s: Sys, t: Tid)
    requires Inv(s) && At(s.pcs, t).Recovering?
    ensures Inv(Alone(s, t, To(s.g, Finishing(At(s.pcs, t).r, Some(At(s.pcs, t).held)))).value)
  {
    var pc := At(s.pcs, t);
    assert NamesKnownAt(s.g, pc);
    var after := Finishing(pc.r, Some(pc.held));
    QuietKeeps(s, Alone(s, t, To(s.g, after)).value, t, pc, after);
  }

  lemma BeginKeeps(s: Sys, t: Tid, a: Action)
    requires Inv(s) && BeginMove(s.g, At(s.pcs, t), a).To?
    ensures Inv(Alone(s, t, BeginMove(s.g, At(s.pcs, t), a)).value)
  {
    if a.ReserveStep? { ReserveKeeps(s, t); }
    else if a.PublishStep? { PublishKeeps(s, t, At(s.pcs, t).who); }
    else if a.UnreserveStep? { UnreserveKeeps(s, t, At(s.pcs, t).who, At(s.pcs, t).got); }
    else if a.CallSwitch? || a.GiveUp? { CallKeeps(s, t, a); }
    else { WriterKeeps(s, t, a); }
  }

  lemma HolderKeeps(s: Sys, t: Tid, a: Action)
    requires Inv(s) && NamesKnownAt(s.g, At(s.pcs, t)) && HolderMove(s.g, At(s.pcs, t), a).To?
    ensures Inv(Alone(s, t, HolderMove(s.g, At(s.pcs, t), a)).value)
  {
    var pc := At(s.pcs, t);
    if a.HardwareDone? { HardwareDoneKeeps(s, t); }
    else if a.FinishStep? { FinishKeeps(s, t, pc.r, pc.kept); }
    else { ReleaseKeeps(s, t, pc.lease); }
  }

  // Every step of every thread keeps the invariant.
  lemma StepKeeps(s: Sys, t: Tid, a: Action)
    requires Inv(s) && Step(s, t, a).Some?
    ensures Inv(Step(s, t, a).value)
  {
    assert NamesKnownAt(s.g, At(s.pcs, t));
    if OfBegin(a) { BeginKeeps(s, t, a); }
    else if OfHolder(a) { HolderKeeps(s, t, a); }
    else if a.StartRecovery? { StartRecoveryKeeps(s, t, a.child); }
    else if OfStarter(a) { PhaseStepKeeps(s, t, a); }
    else { ReadKeeps(s, t, a); }
  }
}
