/**
 What the profile-switch gate promises over every run of any number of threads:
 one lease, one writer, no leak on any error path, no reader inside a switch or
 a recovery, no bypass by a finished owner, and a draining loop that makes progress.
 */
module SwitchSafety {
  import opened Results
  import opened ProfileSwitchGate
  import opened SwitchProtocol
  import opened SwitchInvariant

  // Runs from s; None where some step is not enabled.
  ghost function Run(s: Sys, steps: seq<(Tid, Action)>): (r: Option<Sys>)
    requires Inv(s)
    ensures r.Some? ==> Inv(r.value)
    decreases |steps|
  {
    if steps == [] then Some(s)
    else
      var (t, a) := steps[0];
      match Step(s, t, a)
      case None => None
      case Some(s') =>
        StepKeeps(s, t, a);
        Run(s', steps[1..])
  }

  ghost predicate Reachable(s: Sys) {
    StartHolds();
    exists steps :: Run(Start, steps) == Some(s)
  }

  // No run ever unlocks an unlocked writer or reader, or publishes a result twice; and the
  // books always balance.
  lemma ReachableIsSound(s: Sys)
    requires Reachable(s)
    ensures Inv(s) && !s.g.fatal
  {
    StartHolds();
    var steps :| Run(Start, steps) == Some(s);
  }

  // A thread that is inside a switch transaction, or about to enter it with its lease.
  predicate Holds(pc: PC, l: LeaseId) { Is(pc, HolderOf(l)) }

  // Two leases never coexist: all live holders hold the published lease, which counts exactly
  // them, keeps the writer locked, and has not unlocked it yet.
  lemma OneLease(s: Sys, t: Tid, l: LeaseId)
    requires Reachable(s) && Holds(At(s.pcs, t), l)
    ensures s.g.lease == Some(l) && s.g.writer && l < |s.g.refs| == |s.g.unlocks| && s.g.unlocks[l] == 0
    ensures s.g.refs[l] == |Those(s.pcs, HolderOf(l))| >= 1
    ensures forall u: Tid, k: LeaseId :: Holds(At(s.pcs, u), k) ==> k == l
  {
    ReachableIsSound(s);
    HolderIsPublished(s, t, l);
    assert Count(s.pcs, HolderOf(l)) == s.g.refs[l];
    forall u: Tid, k: LeaseId | Holds(At(s.pcs, u), k) ensures k == l {
      HolderIsPublished(s, u, k);
    }
  }

  // The writer is locked exactly while a lease is published or one reserver stands between
  // locking it and publishing, never both.
  lemma WriterAccounted(s: Sys)
    requires Reachable(s)
    ensures s.g.writer <==> s.g.lease.Some? || exists t: Tid :: Is(At(s.pcs, t), Locker)
    ensures forall t: Tid :: Is(At(s.pcs, t), Locker) ==> s.g.lease.None?
    ensures forall t: Tid, u: Tid :: Is(At(s.pcs, t), Reserver) && Is(At(s.pcs, u), Reserver) ==> t == u
    ensures s.g.pending <==> exists t: Tid :: Is(At(s.pcs, t), Reserver)
  {
    ReachableIsSound(s);
    if s.g.writer && s.g.lease.None? { var t := CountWitness(s.pcs, Locker); }
    if s.g.pending { var t := CountWitness(s.pcs, Reserver); }
    forall t: Tid | Is(At(s.pcs, t), Locker) ensures s.g.lease.None? && s.g.writer { CountsIn(s.pcs, t, Locker); }
    forall t: Tid, u: Tid | Is(At(s.pcs, t), Reserver) && Is(At(s.pcs, u), Reserver) ensures t == u && s.g.pending {
      CountsIn(s.pcs, t, Reserver);
      if t != u { CountsTwo(s.pcs, t, u, Reserver); }
    }
  }

  // Each lease unlocks the writer exactly once: when its last holder lets go, and never again.
  lemma UnlocksOnce(s: Sys, l: LeaseId)
    requires Reachable(s) && l < |s.g.refs|
    ensures |s.g.unlocks| == |s.g.refs|
    ensures s.g.unlocks[l] == if exists t: Tid :: Holds(At(s.pcs, t), l) then 0 else 1
  {
    ReachableIsSound(s);
    assert Count(s.pcs, HolderOf(l)) == s.g.refs[l];
    if s.g.refs[l] > 0 { var t := CountWitness(s.pcs, HolderOf(l)); }
    if t: Tid :| Holds(At(s.pcs, t), l) { HolderIsPublished(s, t, l); }
  }

  // No path leaks: once every thread has returned, by success, refusal or cancellation, the gate
  // is exactly as it was created and every recovery has published its result.
  lemma NothingLeaks(s: Sys)
    requires Reachable(s) && forall t: Tid :: At(s.pcs, t).Idle?
    ensures !s.g.pending && s.g.lease.None? && s.g.recovery.None?
    ensures !s.g.writer && s.g.readers == 0 && s.esim.None?
    ensures forall r: RecoveryId | r < |s.g.closed| :: s.g.closed[r]
    ensures |s.g.unlocks| == |s.g.refs| && forall l: LeaseId | l < |s.g.refs| :: s.g.unlocks[l] == 1 && s.g.refs[l] == 0
  {
    ReachableIsSound(s);
    forall role ensures Count(s.pcs, role) == 0 {
      CountZero(s.pcs, role);
    }
    forall r: RecoveryId | r < |s.g.closed| ensures s.g.recovery != Some(r) {
      assert Count(s.pcs, WorkerOf(r)) == 0;
    }
    assert s.esim.Some? ==> !PhaseOf(At(s.pcs, s.esim.value)).Free?;
  }

  // While a switch transaction or the hardware phase of a recovery runs, no ordinary reader
  // section is open, not even one that is about to be turned back.
  lemma SwitchExcludesReaders(s: Sys, t: Tid, u: Tid)
    requires Reachable(s) && (At(s.pcs, t).Switching? || At(s.pcs, t).Recovering?)
    ensures !Is(At(s.pcs, u), RHolder) && !At(s.pcs, u).Reading?
  {
    ReachableIsSound(s);
    HolderIsPublished(s, t, if At(s.pcs, t).Switching? then At(s.pcs, t).lease else At(s.pcs, t).held);
    if Is(At(s.pcs, u), RHolder) { CountsIn(s.pcs, u, RHolder); }
  }

  lemma ReaderAdmission(g: Shared, pc: PC, a: Action)
    requires ReadMove(g, pc, a).To?
    ensures !pc.Reading? && ReadMove(g, pc, a).pc.Reading? ==> !g.pending && g.lease.None? && g.recovery.None?
    ensures !pc.Bypassing? && ReadMove(g, pc, a).pc.Bypassing? ==> g.lease == Some(ReadMove(g, pc, a).pc.owner)
  {}

  lemma OthersAdmitNothing(s: Sys, t: Tid, a: Action)
    requires Inv(s) && Step(s, t, a).Some? && (OfBegin(a) || OfHolder(a) || OfStarter(a))
    ensures !At(Step(s, t, a).value.pcs, t).Reading? && !At(Step(s, t, a).value.pcs, t).Bypassing?
  {
    assert NamesKnownAt(s.g, At(s.pcs, t));
    if OfBegin(a) {}
    else if OfHolder(a) {}
    else {}
  }

  // A section is opened only on a clear gate, and bypassed only by the published lease.
  lemma AdmissionNeedsClearGate(s: Sys, t: Tid, a: Action)
    requires Inv(s) && Step(s, t, a).Some?
    ensures !At(s.pcs, t).Reading? && At(Step(s, t, a).value.pcs, t).Reading? ==>
              !s.g.pending && s.g.lease.None? && s.g.recovery.None?
    ensures !At(s.pcs, t).Bypassing? && At(Step(s, t, a).value.pcs, t).Bypassing? ==>
              s.g.lease == Some(At(Step(s, t, a).value.pcs, t).owner)
  {
    if OfBegin(a) || OfHolder(a) || OfStarter(a) {
      OthersAdmitNothing(s, t, a);
    } else {
      ReaderAdmission(s.g, At(s.pcs, t), a);
    }
  }

  // ---- A retained context never bypasses a later transaction ---------------------------------

  ghost predicate Finished(s: Sys, l: LeaseId) {
    l < |s.g.refs| && s.g.lease != Some(l)
  }

  lemma BeginStaysFinished(g: Shared, pc: PC, a: Action, l: LeaseId)
    requires Sound(g) && BeginMove(g, pc, a).To? && l < |g.refs| && g.lease != Some(l)
    ensures l < |BeginMove(g, pc, a).g.refs| && BeginMove(g, pc, a).g.lease != Some(l)
  {}

  lemma ReleaseStaysFinished(g: Shared, k: LeaseId, l: LeaseId)
    requires Sound(g) && k < |g.refs| && l < |g.refs| && g.lease != Some(l)
    ensures l < |Release(g, k).refs| == |g.refs| == |Release(g, k).unlocks| && Release(g, k).lease != Some(l)
    ensures Release(g, k).closed == g.closed
  {}

  lemma HolderStaysFinished(g: Shared, pc: PC, a: Action, l: LeaseId)
    requires Sound(g) && NamesKnownAt(g, pc) && HolderMove(g, pc, a).To? && l < |g.refs| && g.lease != Some(l)
    ensures l < |HolderMove(g, pc, a).g.refs| && HolderMove(g, pc, a).g.lease != Some(l)
  {
    match a {
      case FinishStep => if pc.kept.Some? { ReleaseStaysFinished(g, pc.kept.value, l); }
      case ReleaseStep => ReleaseStaysFinished(g, pc.lease, l);
      case _ =>
    }
  }

  lemma StepStaysFinished(s: Sys, t: Tid, a: Action, l: LeaseId)
    requires Inv(s) && Step(s, t, a).Some? && Finished(s, l)
    ensures Finished(Step(s, t, a).value, l)
  {
    var pc := At(s.pcs, t);
    assert NamesKnownAt(s.g, pc);
    if OfBegin(a) { BeginStaysFinished(s.g, pc, a, l); }
    else if OfHolder(a) { HolderStaysFinished(s.g, pc, a, l); }
    else if OfStarter(a) {}
    else {}
  }

  lemma {:induction false} RunStaysFinished(s: Sys, steps: seq<(Tid, Action)>, l: LeaseId)
    requires Inv(s) && Finished(s, l) && Run(s, steps).Some?
    ensures Finished(Run(s, steps).value, l)
    decreases |steps|
  {
    if steps != [] {
      var (t, a) := steps[0];
      StepKeeps(s, t, a);
      StepStaysFinished(s, t, a, l);
      RunStaysFinished(Step(s, t, a).value, steps[1..], l);
    }
  }

  // However a run continues, a reader carrying a finished owner's lease is not let past the gate.
  lemma NoLateBypass(s: Sys, steps: seq<(Tid, Action)>, t: Tid, l: LeaseId)
    requires Inv(s) && Finished(s, l) && Run(s, steps).Some?
    requires At(Run(s, steps).value.pcs, t) == ReadCheck(Some(l))
    ensures var s' := Run(s, steps).value;
      Step(s', t, CheckStep).Some? && !At(Step(s', t, CheckStep).value.pcs, t).Bypassing?
  {
    RunStaysFinished(s, steps, l);
  }

  // ---- A fresh switch racing a recovery -----------------------------------------------------

  // A fresh switch publishes only when no recovery is active, and a recovery that is active while
  // a fresh switch holds its lease runs on that same lease: the switch came first.
  lemma FreshYieldsOrIsJoined(s: Sys, t: Tid, r: RecoveryId, u: Tid)
    requires Reachable(s) && Is(At(s.pcs, t), FreshHolder) && Is(At(s.pcs, u), WorkerOf(r))
    ensures s.g.recovery == Some(r) && s.g.lease.Some?
    ensures Holds(At(s.pcs, u), s.g.lease.value) && Holds(At(s.pcs, t), s.g.lease.value)
  {
    ReachableIsSound(s);
    assert NamesKnownAt(s.g, At(s.pcs, u));
    CountsIn(s.pcs, u, WorkerOf(r));
    CountsIn(s.pcs, t, FreshHolder);
    if Is(At(s.pcs, u), Unleased) { CountsIn(s.pcs, u, Unleased); }
    var pc, tc := At(s.pcs, u), At(s.pcs, t);
    HolderIsPublished(s, u, if pc.Recovering? then pc.held else if pc.Finishing? then pc.kept.value else pc.got.value);
    HolderIsPublished(s, t, if tc.Switching? then tc.lease else tc.got.value);
  }

  // Every recovery a starter starts is its own: the registration never finds another one active.
  lemma StarterOwnsRecovery(s: Sys, t: Tid, child: Tid)
    requires Reachable(s) && Inv(s) && Step(s, t, StartRecovery(child)).Some?
    ensures s.g.recovery.None?
    ensures Step(s, t, StartRecovery(child)).value.g.recovery == Some(|s.g.closed|)
    ensures Is(At(Step(s, t, StartRecovery(child)).value.pcs, child), WorkerOf(|s.g.closed|))
    ensures forall u: Tid :: !PhaseOf(At(s.pcs, u)).Free? ==> u == t
  {
    assert NamesKnownAt(s.g, At(s.pcs, t));
    assert PhaseOf(At(s.pcs, t)).Clear?;
    forall u: Tid | !PhaseOf(At(s.pcs, u)).Free? ensures u == t {
      assert s.esim == Some(u) && s.esim == Some(t);
    }
  }

  // ---- The draining loop ----------------------------------------------------------------------

  // How many steps a reader may still take after the gate has closed.
  function Weight(pc: PC): nat {
    match pc
    case ReadTry => 3
    case ReadRecheck => 2
    case ReadBack => 1
    case Reading => 1
    case _ => 0
  }

  ghost function Heavy(pcs: map<Tid, PC>, w: nat): set<Tid> {
    set t | t in pcs && Weight(pcs[t]) >= w
  }

  // Admitted and in-flight readers, weighed by the steps they have left.
  ghost function Undrained(pcs: map<Tid, PC>): nat {
    |Heavy(pcs, 1)| + |Heavy(pcs, 2)| + |Heavy(pcs, 3)|
  }

  lemma HeavyMoves(pcs: map<Tid, PC>, t: Tid, pc: PC, w: nat)
    requires w >= 1
    ensures |Heavy(pcs[t := pc], w)| == |Heavy(pcs, w)| - One(Weight(At(pcs, t)) >= w) + One(Weight(pc) >= w)
  {
    Toggled(Heavy(pcs, w), Heavy(pcs[t := pc], w), t);
  }

  lemma UndrainedMoves(pcs: map<Tid, PC>, t: Tid, pc: PC)
    ensures Undrained(pcs[t := pc]) == Undrained(pcs) - Weight(At(pcs, t)) + Weight(pc)
  {
    HeavyMoves(pcs, t, pc, 1);
    HeavyMoves(pcs, t, pc, 2);
    HeavyMoves(pcs, t, pc, 3);
  }

  lemma ReaderWeighsLess(g: Shared, pc: PC, a: Action)
    requires Active(g) && ReadMove(g, pc, a).To?
    ensures Weight(ReadMove(g, pc, a).pc) <= Weight(pc)
    ensures Weight(pc) > 0 ==> Weight(ReadMove(g, pc, a).pc) < Weight(pc)
  {}

  lemma OthersWeighNothing(s: Sys, t: Tid, a: Action)
    requires Inv(s) && NamesKnownAt(s.g, At(s.pcs, t))
    ensures BeginMove(s.g, At(s.pcs, t), a).To? ==>
              Weight(At(s.pcs, t)) == 0 == Weight(BeginMove(s.g, At(s.pcs, t), a).pc)
    ensures HolderMove(s.g, At(s.pcs, t), a).To? ==>
              Weight(At(s.pcs, t)) == 0 == Weight(HolderMove(s.g, At(s.pcs, t), a).pc)
  {}

  lemma StarterWeighsNothing(s: Sys, t: Tid, a: Action)
    requires Inv(s) && NamesKnownAt(s.g, At(s.pcs, t)) && StarterStep(s, t, a).Some?
    ensures Weight(At(s.pcs, t)) == 0
    ensures Undrained(StarterStep(s, t, a).value.pcs) == Undrained(s.pcs)
  {
    var s' := StarterStep(s, t, a).value;
    if a.StartRecovery? {
      var after := WithPhase(At(s.pcs, t), Started);
      assert s'.pcs == s.pcs[t := after] || s'.pcs == s.pcs[t := after][a.child := At(s'.pcs, a.child)];
      UndrainedMoves(s.pcs, t, after);
      UndrainedMoves(s.pcs[t := after], a.child, At(s'.pcs, a.child));
    } else {
      UndrainedMoves(s.pcs, t, At(s'.pcs, t));
    }
  }

  // From the reservation on, every step of a reader that is past its first check uses up weight,
  // and no step of any thread adds any.
  lemma ClosedGateDrains(s: Sys, t: Tid, a: Action)
    requires Inv(s) && (s.g.pending || s.g.lease.Some? || s.g.recovery.Some?) && Step(s, t, a).Some?
    ensures Undrained(Step(s, t, a).value.pcs) <= Undrained(s.pcs)
    ensures Weight(At(s.pcs, t)) > 0 ==> Undrained(Step(s, t, a).value.pcs) < Undrained(s.pcs)
  {
    var s' := Step(s, t, a).value;
    assert NamesKnownAt(s.g, At(s.pcs, t));
    if OfStarter(a) {
      StarterWeighsNothing(s, t, a);
    } else {
      UndrainedMoves(s.pcs, t, At(s'.pcs, t));
      if OfBegin(a) || OfHolder(a) { OthersWeighNothing(s, t, a); }
      else { ReaderWeighsLess(s.g, At(s.pcs, t), a); }
    }
  }

  // Once the readers are drained the reserver's next try takes the writer.
  lemma DrainedTrySucceeds(s: Sys, t: Tid)
    requires Inv(s) && At(s.pcs, t).Drain? && Undrained(s.pcs) == 0
    ensures Step(s, t, TryLockStep).Some? && At(Step(s, t, TryLockStep).value.pcs, t).Drained?
  {
    forall u: Tid ensures !Is(At(s.pcs, u), RHolder) {
      assert u !in Heavy(s.pcs, 1);
    }
    CountZero(s.pcs, RHolder);
    forall u: Tid ensures !Is(At(s.pcs, u), Locker) {
      if Is(At(s.pcs, u), Locker) { CountsTwo(s.pcs, t, u, Reserver); }
    }
    CountZero(s.pcs, Locker);
    CountsIn(s.pcs, t, Bare);
  }
}
