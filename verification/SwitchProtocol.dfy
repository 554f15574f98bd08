/**
 Any number of threads running the profile-switch gate: fresh switches, direct
 recovery starters, detached recoveries and readers, interleaved step by step.
 A step is one critical section of esimRecoveryMu, one try or unlock of the
 reader/writer lock, or one move of the manager-wide eSIM lock. Contexts may be
 cancelled and devices may vanish at any point.
 */
module SwitchProtocol {
  import opened Results
  import opened ProfileSwitchGate

  type Tid = nat

  // Who is inside beginProfileSwitchLease: a fresh switch, or a recovery goroutine.
  datatype Who = Fresh | Detached(r: RecoveryId)

  // A starter's progress with the eSIM lock and the wait for an earlier recovery.
  datatype Phase = Free | Locked | Waiting(r: RecoveryId) | Clear | Started

  datatype PC =
    | Idle
    | Begin(who: Who)                                   // head of the reservation loop
    | Drain(who: Who)                                   // reserved, trying the writer
    | Drained(who: Who)                                 // writer held, nothing published
    | Refused(who: Who)                                 // publication refused, writer still held
    | Unreserve(who: Who, got: Option<LeaseId>)         // deferred removal of the reservation
    | Switching(lease: LeaseId, phase: Phase)           // a fresh switch inside its transaction
    | Direct(phase: Phase)                              // a starter without a lease
    | Recovering(r: RecoveryId, held: LeaseId)          // hardware phase of a recovery
    | Finishing(r: RecoveryId, kept: Option<LeaseId>)   // before the closing critical section
    | ReadCheck(retained: Option<LeaseId>)
    | ReadTry
    | ReadRecheck
    | ReadBack
    | Reading
    | Bypassing(owner: LeaseId)

  datatype Sys = Sys(g: Shared, esim: Option<Tid>, pcs: map<Tid, PC>)

  const Start := Sys(Initial, None, map[])

  function At(pcs: map<Tid, PC>, t: Tid): PC {
    if t in pcs then pcs[t] else Idle
  }

  datatype Action =
    | CallSwitch | CallRead(retained: Option<LeaseId>)
    | LockESIM | LookAtRecovery | WakeUp | StartRecovery(child: Tid) | UnlockESIM
    | ReserveStep | GiveUp | TryLockStep | AbortDrained | PublishStep | UnlockRefused | UnreserveStep
    | HardwareDone | FinishStep | ReleaseStep
    | CheckStep | TryRLockStep | RecheckStep | RUnlockStep | EndBypass

  // Where a failed begin leaves its caller.
  function Failed(who: Who): PC {
    match who
    case Fresh => Idle
    case Detached(r) => Finishing(r, None)
  }

  // Where a successful begin leaves its caller.
  function Holding(who: Who, lease: LeaseId): PC {
    match who
    case Fresh => Switching(lease, Free)
    case Detached(r) => Recovering(r, lease)
  }

  function Resume(who: Who, got: Option<LeaseId>): PC {
    if got.Some? then Holding(who, got.value) else Failed(who)
  }

  function PhaseOf(pc: PC): Phase {
    match pc
    case Switching(_, p) => p
    case Direct(p) => p
    case _ => Free
  }

  function WithPhase(pc: PC, p: Phase): PC {
    match pc
    case Switching(l, _) => Switching(l, p)
    case _ => if p == Free then Idle else Direct(p)
  }

  datatype Move = Stuck | To(g: Shared, pc: PC)

  // beginProfileSwitchLease, one step at a time.
  function BeginMove(g: Shared, pc: PC, a: Action): Move
    requires Sound(g)
  {
    match (a, pc)
    case (CallSwitch, Idle) => To(g, Begin(Fresh))
    case (ReserveStep, Begin(who)) =>
      var (g', outcome) := Reserve(g, who.Fresh?);
      To(g', match outcome
             case Joined(l) => Holding(who, l)
             case Busy => Failed(who)
             case Reserved => Drain(who)
             case Wait => Begin(who))
    case (GiveUp, Begin(who)) => To(g, Failed(who))
    case (GiveUp, Drain(who)) => To(g, Unreserve(who, None))
    case (TryLockStep, Drain(who)) =>
      var (g', ok) := TryLock(g);
      To(g', if ok then Drained(who) else Drain(who))
    case (AbortDrained, Drained(who)) => To(Unlock(g), Unreserve(who, None))
    case (PublishStep, Drained(who)) =>
      var (g', lease) := Publish(g, who.Fresh?);
      To(g', if lease.Some? then Unreserve(who, lease) else Refused(who))
    case (UnlockRefused, Refused(who)) => To(Unlock(g), Unreserve(who, None))
    case (UnreserveStep, Unreserve(who, got)) =>
      To(g.(pending := false), Resume(who, got))
    case _ => Stuck
  }

  // The end of a recovery goroutine, and of a fresh switch.
  function HolderMove(g: Shared, pc: PC, a: Action): Move
    requires Sound(g) && NamesKnownAt(g, pc)
  {
    match (a, pc)
    case (HardwareDone, Recovering(r, l)) => To(g, Finishing(r, Some(l)))
    case (FinishStep, Finishing(r, kept)) => To(Finish(g, r, kept), Idle)
    case (ReleaseStep, Switching(l, Free)) => To(Release(g, l), Idle)
    case _ => Stuck
  }

  // lockProfileSwitchRead and the section it admits.
  function ReadMove(g: Shared, pc: PC, a: Action): Move {
    match (a, pc)
    case (CallRead(retained), Idle) => To(g, ReadCheck(retained))
    case (CheckStep, ReadCheck(retained)) =>
      To(g, match CheckRead(g, retained)
            case OwnerBypass => Bypassing(retained.value)
            case Denied => Idle
            case Attempt => ReadTry)
    case (TryRLockStep, ReadTry) =>
      var (g', ok) := TryRLock(g);
      To(g', if ok then ReadRecheck else Idle)
    case (RecheckStep, ReadRecheck) => To(g, if Active(g) then ReadBack else Reading)
    case (RUnlockStep, ReadBack) => To(RUnlock(g), Idle)
    case (RUnlockStep, Reading) => To(RUnlock(g), Idle)
    case (EndBypass, Bypassing(_)) => To(g, Idle)
    case _ => Stuck
  }

  // The eSIM lock, the wait for an earlier recovery, and the start of a new one.
  function StarterStep(s: Sys, t: Tid, a: Action): Option<Sys>
    requires Sound(s.g) && NamesKnownAt(s.g, At(s.pcs, t))
  {
    var pc := At(s.pcs, t);
    match (a, PhaseOf(pc))
    case (LockESIM, Free) =>
      if s.esim.None? && (pc.Idle? || pc.Switching?)
      then Some(s.(esim := Some(t), pcs := s.pcs[t := WithPhase(pc, Locked)])) else None
    case (LookAtRecovery, Locked) =>
      Some(s.(pcs := s.pcs[t := WithPhase(pc, if s.g.recovery.None? then Clear else Waiting(s.g.recovery.value))]))
    case (WakeUp, Waiting(r)) =>
      if s.g.closed[r] then Some(s.(pcs := s.pcs[t := WithPhase(pc, Clear)])) else None
    case (StartRecovery(child), Clear) =>
      if child == t || !At(s.pcs, child).Idle? then None
      else
        var (g, reg) := Register(s.g);
        var mine := s.pcs[t := WithPhase(pc, Started)];
        var goroutine := if reg.lease.Some? then Recovering(reg.recovery, reg.lease.value)
                         else Begin(Detached(reg.recovery));
        Some(s.(g := g, pcs := if reg.started then mine[child := goroutine] else mine))
    case (UnlockESIM, Free) => None
    case (UnlockESIM, _) => Some(s.(esim := None, pcs := s.pcs[t := WithPhase(pc, Free)]))
    case _ => None
  }

  function Alone(s: Sys, t: Tid, m: Move): Option<Sys> {
    if m.Stuck? then None else Some(s.(g := m.g, pcs := s.pcs[t := m.pc]))
  }

  predicate OfBegin(a: Action) {
    || a.CallSwitch? || a.ReserveStep? || a.GiveUp? || a.TryLockStep? || a.AbortDrained? || a.PublishStep?
    || a.UnlockRefused? || a.UnreserveStep?
  }

  predicate OfHolder(a: Action) { a.HardwareDone? || a.FinishStep? || a.ReleaseStep? }

  predicate OfStarter(a: Action) {
    a.LockESIM? || a.LookAtRecovery? || a.WakeUp? || a.StartRecovery? || a.UnlockESIM?
  }

  // Every lease and recovery a thread names has been created.
  ghost predicate NamesKnown(s: Sys) {
    forall t: Tid :: NamesKnownAt(s.g, At(s.pcs, t))
  }

  predicate NamesKnownAt(g: Shared, pc: PC) {
    && (pc.Unreserve? && pc.got.Some? ==> pc.got.value < |g.refs|)
    && (pc.Switching? ==> pc.lease < |g.refs|)
    && (pc.Recovering? ==> pc.held < |g.refs| && pc.r < |g.closed|)
    && (pc.Finishing? ==> pc.r < |g.closed| && (pc.kept.Some? ==> pc.kept.value < |g.refs|))
    && ((pc.Begin? || pc.Drain? || pc.Drained? || pc.Refused? || pc.Unreserve?) && pc.who.Detached? ==>
          pc.who.r < |g.closed|)
    && (PhaseOf(pc).Waiting? ==> PhaseOf(pc).r < |g.closed|)
  }

  // One step of thread t, or None where the step is not enabled.
  function Step(s: Sys, t: Tid, a: Action): Option<Sys>
    requires Sound(s.g) && NamesKnown(s)
  {
    assert NamesKnownAt(s.g, At(s.pcs, t));
    if OfBegin(a) then Alone(s, t, BeginMove(s.g, At(s.pcs, t), a))
    else if OfHolder(a) then Alone(s, t, HolderMove(s.g, At(s.pcs, t), a))
    else if OfStarter(a) then StarterStep(s, t, a)
    else Alone(s, t, ReadMove(s.g, At(s.pcs, t), a))
  }
}
