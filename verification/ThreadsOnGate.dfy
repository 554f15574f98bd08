/**
 Threads that work on one gate object. Every sequence of steps that calls the object's methods is a run of the
 protocol and leaves the object in that run's state, so what is proved of every run holds of the object.
 */
module ThreadsOnGate {
  import opened Results
  import P = ProfileSwitchGate
  import opened SwitchProtocol
  import opened SwitchInvariant
  import opened SwitchGateObject
  import opened SwitchSafety

  class Manager {
    const gate: Gate
    var esim: Option<Tid>
    var pcs: map<Tid, PC>

    ghost function View(): Sys
      reads this, gate
    {
      Sys(gate.View(), esim, pcs)
    }

    constructor ()
      ensures View() == Start && fresh(gate)
    {
      gate := new Gate();
      esim, pcs := None, map[];
    }

    // beginProfileSwitchLease, one step of it.
    method BeginStep(pc: PC, a: Action) returns (moved: bool, pc': PC)
      requires P.Sound(gate.View())
      modifies gate
      ensures BeginMove(old(gate.View()), pc, a) == if moved then To(gate.View(), pc') else Stuck
      ensures !moved ==> gate.View() == old(gate.View())
    {
      hide P.Reserve, P.Publish, P.TryLock, P.Unlock;
      moved, pc' := true, pc;
      if a.CallSwitch? && pc.Idle? {
        pc' := Begin(Fresh);
      } else if a.ReserveStep? && pc.Begin? {
        var outcome := gate.Reserve(pc.who.Fresh?);
        pc' := match outcome
          case Joined(l) => Holding(pc.who, l)
          case Busy => Failed(pc.who)
          case Reserved => Drain(pc.who)
          case Wait => pc;
      } else if a.GiveUp? && pc.Begin? {
        pc' := Failed(pc.who);
      } else if a.GiveUp? && pc.Drain? {
        pc' := Unreserve(pc.who, None);
      } else if a.TryLockStep? && pc.Drain? {
        var ok := gate.TryLock();
        pc' := if ok then Drained(pc.who) else pc;
      } else if a.AbortDrained? && pc.Drained? {
        gate.Unlock();
        pc' := Unreserve(pc.who, None);
      } else if a.PublishStep? && pc.Drained? {
        var lease := gate.Publish(pc.who.Fresh?);
        pc' := if lease.Some? then Unreserve(pc.who, lease) else Refused(pc.who);
      } else if a.UnlockRefused? && pc.Refused? {
        gate.Unlock();
        pc' := Unreserve(pc.who, None);
      } else if a.UnreserveStep? && pc.Unreserve? {
        gate.Unreserve();
        pc' := Resume(pc.who, pc.got);
      } else {
        moved := false;
      }
    }

    // The end of a recovery goroutine, and of a fresh switch.
    method HolderStep(pc: PC, a: Action) returns (moved: bool, pc': PC)
      requires P.Sound(gate.View()) && NamesKnownAt(gate.View(), pc)
      modifies gate
      ensures HolderMove(old(gate.View()), pc, a) == if moved then To(gate.View(), pc') else Stuck
      ensures !moved ==> gate.View() == old(gate.View())
    {
      hide P.Release, P.Finish;
      moved, pc' := true, Idle;
      if a.HardwareDone? && pc.Recovering? {
        pc' := Finishing(pc.r, Some(pc.held));
      } else if a.FinishStep? && pc.Finishing? {
        gate.Finish(pc.r, pc.kept);
      } else if a.ReleaseStep? && pc.Switching? && pc.phase.Free? {
        gate.Release(pc.lease);
      } else {
        moved := false;
      }
    }

    // lockProfileSwitchRead and the section it admits.
    method ReadStep(pc: PC, a: Action) returns (moved: bool, pc': PC)
      modifies gate
      ensures ReadMove(old(gate.View()), pc, a) == if moved then To(gate.View(), pc') else Stuck
      ensures !moved ==> gate.View() == old(gate.View())
    {
      hide P.CheckRead, P.TryRLock, P.RUnlock;
      moved, pc' := true, Idle;
      if a.CallRead? && pc.Idle? {
        pc' := ReadCheck(a.retained);
      } else if a.CheckStep? && pc.ReadCheck? {
        var admission := gate.CheckRead(pc.retained);
        if admission.OwnerBypass? {
          OnlyOwnersBypass(gate.View(), pc.retained);
          pc' := Bypassing(pc.retained.value);
        } else if admission.Attempt? {
          pc' := ReadTry;
        }
      } else if a.TryRLockStep? && pc.ReadTry? {
        var ok := gate.TryRLock();
        pc' := if ok then ReadRecheck else Idle;
      } else if a.RecheckStep? && pc.ReadRecheck? {
        pc' := if gate.pending || gate.lease.Some? || gate.recovery.Some? then ReadBack else Reading;
      } else if a.RUnlockStep? && (pc.ReadBack? || pc.Reading?) {
        gate.RUnlock();
      } else if a.EndBypass? && pc.Bypassing? {
      } else {
        moved := false;
      }
    }

    // The eSIM lock, the wait for an earlier recovery, and the start of a new one.
    method StarterMove(t: Tid, a: Action) returns (moved: bool)
      requires P.Sound(gate.View()) && NamesKnownAt(gate.View(), At(pcs, t))
      modifies this, gate
      ensures StarterStep(old(View()), t, a) == if moved then Some(View()) else None
      ensures !moved ==> View() == old(View())
    {
      hide P.Register;
      moved := true;
      var pc := At(pcs, t);
      var phase := PhaseOf(pc);
      if a.LockESIM? && phase.Free? && esim.None? && (pc.Idle? || pc.Switching?) {
        esim, pcs := Some(t), pcs[t := WithPhase(pc, Locked)];
      } else if a.LookAtRecovery? && phase.Locked? {
        var next := if gate.recovery.None? then Clear else Waiting(gate.recovery.value);
        pcs := pcs[t := WithPhase(pc, next)];
      } else if a.WakeUp? && phase.Waiting? && gate.closed[phase.r] {
        pcs := pcs[t := WithPhase(pc, Clear)];
      } else if a.StartRecovery? && phase.Clear? && a.child != t && At(pcs, a.child).Idle? {
        var reg := gate.Register();
        pcs := pcs[t := WithPhase(pc, Started)];
        if reg.started {
          pcs := pcs[a.child := if reg.lease.Some? then Recovering(reg.recovery, reg.lease.value)
                                else Begin(Detached(reg.recovery))];
        }
      } else if a.UnlockESIM? && !phase.Free? {
        esim, pcs := None, pcs[t := WithPhase(pc, Free)];
      } else {
        moved := false;
      }
    }

    // One step of thread t, if it is enabled.
    method Take(t: Tid, a: Action) returns (moved: bool)
      requires Inv(View())
      modifies this, gate
      ensures InvStep(old(View()), t, a) == if moved then Some(View()) else None
      ensures !moved ==> View() == old(View())
    {
      hide BeginMove, HolderMove, ReadMove, StarterStep;
      assert NamesKnownAt(gate.View(), At(pcs, t));
      var pc := At(pcs, t);
      var pc' := pc;
      if OfBegin(a) {
        moved, pc' := BeginStep(pc, a);
      } else if OfHolder(a) {
        moved, pc' := HolderStep(pc, a);
      } else if OfStarter(a) {
        moved := StarterMove(t, a);
        return;
      } else {
        moved, pc' := ReadStep(pc, a);
      }
      if moved { pcs := pcs[t := pc']; }
    }

    /** Any sequence of steps of any threads, up to the first that is not enabled, is a run of the protocol. */
    method Perform(steps: seq<(Tid, Action)>) returns (done: nat)
      requires Inv(View())
      modifies this, gate
      ensures done <= |steps| && Run(old(View()), steps[..done]) == Some(View()) && Inv(View())
      ensures old(View()) == Start ==> Reachable(View())
      ensures done < |steps| ==> Disabled(View(), steps[done].0, steps[done].1)
    {
      hide Inv, Step, InvStep, Disabled, Run, Reachable;
      NoSteps(View());
      done := 0;
      assert steps[..0] == [];
      var moved := true;
      while moved && done < |steps|
        invariant done <= |steps| && Inv(View()) && Run(old(View()), steps[..done]) == Some(View())
        invariant !moved ==> done < |steps| && Disabled(View(), steps[done].0, steps[done].1)
        decreases |steps| - done, moved
      {
        ghost var before := View();
        var (t, a) := steps[done];
        moved := Take(t, a);
        Taken(before, View(), t, a, moved);
        if moved {
          OneMoreStep(old(View()), steps[..done], before, t, a);
          assert steps[..done + 1] == steps[..done] + [(t, a)];
          done := done + 1;
        }
      }
      if old(View()) == Start { RunIsReachable(View(), steps[..done]); }
    }
  }

  ghost predicate Disabled(s: Sys, t: Tid, a: Action)
    requires Inv(s)
  {
    InvAllows(s);
    Step(s, t, a).None?
  }

  lemma Taken(s: Sys, s': Sys, t: Tid, a: Action, moved: bool)
    requires Inv(s) && InvStep(s, t, a) == if moved then Some(s') else None
    requires !moved ==> s' == s
    ensures Inv(s') && (!moved ==> Disabled(s', t, a))
  {
    InvAllows(s);
    if moved { StepKeeps(s, t, a); }
  }

  // A step of a state that keeps the invariant.
  ghost function InvStep(s: Sys, t: Tid, a: Action): Option<Sys>
    requires Inv(s)
  {
    InvAllows(s);
    Step(s, t, a)
  }

  lemma OnlyOwnersBypass(g: P.Shared, retained: Option<P.LeaseId>)
    requires P.CheckRead(g, retained).OwnerBypass?
    ensures retained.Some?
  {}

  lemma NoSteps(s: Sys)
    requires Inv(s)
    ensures Run(s, []) == Some(s)
  {}

  lemma {:induction false} OneMoreStep(s: Sys, steps: seq<(Tid, Action)>, s': Sys, t: Tid, a: Action)
    requires Inv(s) && Run(s, steps) == Some(s') && Inv(s')
    ensures Run(s, steps + [(t, a)]) == InvStep(s', t, a)
    decreases |steps|
  {
    InvAllows(s);
    InvAllows(s');
    hide Inv, Step;
    var longer := steps + [(t, a)];
    if steps == [] {
      assert longer[1..] == [];
      if Step(s, t, a).Some? {
        StepKeeps(s, t, a);
        NoSteps(Step(s, t, a).value);
      }
    } else {
      var (u, b) := steps[0];
      StepKeeps(s, u, b);
      assert longer[1..] == steps[1..] + [(t, a)] && longer[0] == steps[0];
      OneMoreStep(Step(s, u, b).value, steps[1..], s', t, a);
    }
  }

  lemma InvAllows(s: Sys)
    requires Inv(s)
    ensures P.Sound(s.g) && NamesKnown(s)
  {}

  lemma RunIsReachable(s: Sys, steps: seq<(Tid, Action)>)
    requires Inv(Start) && Run(Start, steps) == Some(s)
    ensures Reachable(s)
  {}
}
