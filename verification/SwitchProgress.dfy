/** What a thread achieves on a gate that nothing stands against: each kind of thread runs to its end. */
module SwitchProgress {
  import opened Results
  import opened ProfileSwitchGate
  import opened SwitchProtocol
  import opened SwitchInvariant
  import opened SwitchSafety

  // Nothing is reserved, published or recovering, and no lock is held.
  predicate Free(g: Shared) {
    !g.pending && g.lease.None? && g.recovery.None? && !g.writer && g.readers == 0
  }

  // The same thread takes these actions in turn.
  function By(t: Tid, actions: seq<Action>): seq<(Tid, Action)> {
    seq(|actions|, i requires 0 <= i < |actions| => (t, actions[i]))
  }

  // A thread's own view: the gate, and where it stands.
  datatype Stage = Stage(g: Shared, pc: PC)

  // One step of a thread that changes nothing of anybody else.
  ghost predicate Leads(now: Stage, a: Action, next: Stage) {
    && Sound(now.g) && NamesKnownAt(now.g, now.pc) && !OfStarter(a)
    && To(next.g, next.pc) == (if OfBegin(a) then BeginMove(now.g, now.pc, a)
                               else if OfHolder(a) then HolderMove(now.g, now.pc, a)
                               else ReadMove(now.g, now.pc, a))
  }

  ghost predicate Passes(stages: seq<Stage>, actions: seq<Action>) {
    && |stages| == |actions| + 1
    && forall i | 0 <= i < |actions| :: Leads(stages[i], actions[i], stages[i + 1])
  }

  // The state with thread t moved on and the gate changed.
  function Put(s: Sys, t: Tid, stage: Stage): Sys { s.(g := stage.g, pcs := s.pcs[t := stage.pc]) }

  lemma LeadIsStep(s: Sys, t: Tid, a: Action, next: Stage)
    requires Inv(s) && Leads(Stage(s.g, At(s.pcs, t)), a, next)
    ensures Inv(Put(s, t, next)) && Sound(s.g) && NamesKnown(s) && Step(s, t, a) == Some(Put(s, t, next))
  {
    hide LeasesCounted, GateCounted, RecoveriesCounted, StartersSerialised;
    StepKeeps(s, t, a);
  }

  lemma {:induction false} PassingIsRun(s: Sys, t: Tid, stages: seq<Stage>, actions: seq<Action>)
    requires Inv(s) && Passes(stages, actions) && actions != [] && stages[0] == Stage(s.g, At(s.pcs, t))
    ensures Run(s, By(t, actions)) == Some(Put(s, t, stages[|actions|]))
    decreases |actions|
  {
    hide Inv, Leads, Step;
    var steps := By(t, actions);
    LeadIsStep(s, t, actions[0], stages[1]);
    assert steps[0] == (t, actions[0]) && steps[1..] == By(t, actions[1..]);
    var s1 := Put(s, t, stages[1]);
    if |actions| > 1 {
      PassingIsRun(s1, t, stages[1..], actions[1..]);
      assert s.pcs[t := stages[1].pc][t := stages[|actions|].pc] == s.pcs[t := stages[|actions|].pc];
    } else {
      NoSteps(s1);
      assert By(t, actions[1..]) == [];
    }
  }

  lemma NoSteps(s: Sys)
    requires Inv(s)
    ensures Run(s, []) == Some(s)
  {}

  // ---- A switch, from its call to its end ----------------------------------------------------------

  // The gate while one new lease is held once, and after it was given back.
  function Held(g: Shared, last: Option<RecoveryId>): Shared {
    g.(lease := Some(|g.refs|), refs := g.refs + [1], unlocks := g.unlocks + [0], last := last, writer := true)
  }

  function GivenBack(g: Shared, last: Option<RecoveryId>): Shared {
    g.(refs := g.refs + [0], unlocks := g.unlocks + [1], last := last)
  }

  function Within(g: Shared): PC { Switching(|g.refs|, SwitchProtocol.Free) }

  const ENTER := [CallSwitch, ReserveStep, TryLockStep, PublishStep, UnreserveStep]

  lemma EnteringPasses(g: Shared)
    requires Sound(g) && Free(g)
    ensures Passes(
              [Stage(g, Idle), Stage(g, Begin(Fresh)), Stage(g.(pending := true), Drain(Fresh)),
               Stage(g.(pending := true, writer := true), Drained(Fresh)),
               Stage(Held(g, None).(pending := true), Unreserve(Fresh, Some(|g.refs|))),
               Stage(Held(g, None), Within(g))],
              ENTER)
  {}

  /** Alone on a free gate a fresh switch gets in, with the only lease and the writer. */
  lemma FreshSwitchEnters(s: Sys, t: Tid)
    requires Inv(s) && Free(s.g) && At(s.pcs, t).Idle?
    ensures Run(s, By(t, ENTER)) == Some(Put(s, t, Stage(Held(s.g, None), Within(s.g))))
  {
    EnteringPasses(s.g);
    var g := s.g;
    PassingIsRun(s, t,
      [Stage(g, Idle), Stage(g, Begin(Fresh)), Stage(g.(pending := true), Drain(Fresh)),
       Stage(g.(pending := true, writer := true), Drained(Fresh)),
       Stage(Held(g, None).(pending := true), Unreserve(Fresh, Some(|g.refs|))),
       Stage(Held(g, None), Within(g))],
      ENTER);
  }

  const LEAVE := [ReleaseStep]

  /** Its release returns the gate to where it was, the lease closed and the writer unlocked. */
  lemma FreshSwitchLeaves(s: Sys, t: Tid, g: Shared)
    requires Inv(s) && Free(g) && Sound(g) && s.g == Held(g, None) && At(s.pcs, t) == Within(g)
    ensures Run(s, By(t, LEAVE)) == Some(Put(s, t, Stage(GivenBack(g, None), Idle)))
  {
    assert Leads(Stage(s.g, Within(g)), ReleaseStep, Stage(GivenBack(g, None), Idle));
    PassingIsRun(s, t, [Stage(s.g, Within(g)), Stage(GivenBack(g, None), Idle)], LEAVE);
  }

  // ---- A recovery goroutine -------------------------------------------------------------------------

  const RECOVER := [ReserveStep, TryLockStep, PublishStep, UnreserveStep, HardwareDone, FinishStep]

  function Done(g: Shared, r: RecoveryId): Shared
    requires r < |g.closed|
  {
    GivenBack(g, g.last).(recovery := None, closed := g.closed[r := true])
  }

  lemma RecoveryPasses(g: Shared, r: RecoveryId)
    requires Sound(g) && Free(g.(recovery := None)) && g.recovery == Some(r) && !g.closed[r]
    ensures var who, l := Detached(r), |g.refs|;
            Passes(
              [Stage(g, Begin(who)), Stage(g.(pending := true), Drain(who)),
               Stage(g.(pending := true, writer := true), Drained(who)),
               Stage(Held(g, g.last).(pending := true), Unreserve(who, Some(l))),
               Stage(Held(g, g.last), Recovering(r, l)), Stage(Held(g, g.last), Finishing(r, Some(l))),
               Stage(Done(g, r), Idle)],
              RECOVER)
  {
    FinishingPasses(g, r);
    hide Finish, Release, Done;
  }

  lemma FinishingPasses(g: Shared, r: RecoveryId)
    requires Sound(g) && Free(g.(recovery := None)) && g.recovery == Some(r) && !g.closed[r]
    ensures Leads(Stage(Held(g, g.last), Finishing(r, Some(|g.refs|))), FinishStep, Stage(Done(g, r), Idle))
  {}

  /** A recovery without a lease takes its own on a drained gate, recovers, and closes its result behind it. */
  lemma RecoveryRuns(s: Sys, t: Tid, r: RecoveryId)
    requires Inv(s) && Free(s.g.(recovery := None)) && At(s.pcs, t) == Begin(Detached(r))
    requires s.g.recovery == Some(r) && !s.g.closed[r]
    ensures Run(s, By(t, RECOVER)) == Some(Put(s, t, Stage(Done(s.g, r), Idle)))
  {
    var g, who, l := s.g, Detached(r), |s.g.refs|;
    RecoveryPasses(g, r);
    PassingIsRun(s, t,
      [Stage(g, Begin(who)), Stage(g.(pending := true), Drain(who)),
       Stage(g.(pending := true, writer := true), Drained(who)),
       Stage(Held(g, g.last).(pending := true), Unreserve(who, Some(l))),
       Stage(Held(g, g.last), Recovering(r, l)), Stage(Held(g, g.last), Finishing(r, Some(l))),
       Stage(Done(g, r), Idle)],
      RECOVER);
  }

  /** One that meets a published lease joins it in one step. */
  lemma RecoveryJoins(s: Sys, t: Tid, r: RecoveryId, l: LeaseId)
    requires Inv(s) && At(s.pcs, t) == Begin(Detached(r)) && s.g.lease == Some(l)
    ensures l < |s.g.refs|
    ensures Run(s, By(t, [ReserveStep]))
            == Some(Put(s, t, Stage(s.g.(refs := s.g.refs[l := s.g.refs[l] + 1]), Recovering(r, l))))
  {
    InvAllows(s, t);
    var next := Stage(s.g.(refs := s.g.refs[l := s.g.refs[l] + 1]), Recovering(r, l));
    assert Leads(Stage(s.g, Begin(Detached(r))), ReserveStep, next);
    PassingIsRun(s, t, [Stage(s.g, Begin(Detached(r))), next], [ReserveStep]);
  }

  lemma InvAllows(s: Sys, t: Tid)
    requires Inv(s)
    ensures Sound(s.g) && NamesKnown(s) && NamesKnownAt(s.g, At(s.pcs, t))
  {}

  // ---- A reader ----------------------------------------------------------------------------------------

  const READ := [CallRead(None), CheckStep, TryRLockStep, RecheckStep]

  function ReadStages(g: Shared): seq<Stage> {
    [Stage(g, Idle), Stage(g, ReadCheck(None)), Stage(g, ReadTry),
     Stage(g.(readers := g.readers + 1), ReadRecheck), Stage(g.(readers := g.readers + 1), Reading)]
  }

  lemma ReadingPasses(g: Shared)
    requires Sound(g) && !g.pending && g.lease.None? && g.recovery.None? && !g.writer
    ensures Passes(ReadStages(g), READ)
  {}

  /** On a gate with nothing recorded and no writer a reader's section opens, beside any other readers. */
  lemma ReaderEnters(s: Sys, t: Tid)
    requires Inv(s) && At(s.pcs, t).Idle?
    requires !s.g.pending && s.g.lease.None? && s.g.recovery.None? && !s.g.writer
    ensures Run(s, By(t, READ)) == Some(Put(s, t, Stage(s.g.(readers := s.g.readers + 1), Reading)))
  {
    InvAllows(s, t);
    ReadingPasses(s.g);
    PassingIsRun(s, t, ReadStages(s.g), READ);
  }

  /** A section closes by counting itself out. */
  lemma ReaderLeaves(s: Sys, t: Tid)
    requires Inv(s) && At(s.pcs, t).Reading? && s.g.readers > 0
    ensures Run(s, By(t, [RUnlockStep])) == Some(Put(s, t, Stage(s.g.(readers := s.g.readers - 1), Idle)))
  {
    InvAllows(s, t);
    var stages := [Stage(s.g, Reading), Stage(s.g.(readers := s.g.readers - 1), Idle)];
    assert Leads(stages[0], RUnlockStep, stages[1]);
    PassingIsRun(s, t, stages, [RUnlockStep]);
  }

  /** The owner of the published lease passes the gate whatever else is recorded. */
  lemma OwnerBypasses(s: Sys, t: Tid, l: LeaseId)
    requires Inv(s) && At(s.pcs, t).Idle? && s.g.lease == Some(l)
    ensures Run(s, By(t, [CallRead(Some(l)), CheckStep])) == Some(Put(s, t, Stage(s.g, Bypassing(l))))
  {
    InvAllows(s, t);
    var stages := [Stage(s.g, Idle), Stage(s.g, ReadCheck(Some(l))), Stage(s.g, Bypassing(l))];
    assert Passes(stages, [CallRead(Some(l)), CheckStep]);
    PassingIsRun(s, t, stages, [CallRead(Some(l)), CheckStep]);
  }

  // ---- A starter of recoveries --------------------------------------------------------------------------

  /** The eSIM lock goes to a caller when nobody has it; who holds it looks, waits for the result, and starts. */
  lemma StarterAnswers(s: Sys, t: Tid, child: Tid)
    requires Sound(s.g) && NamesKnownAt(s.g, At(s.pcs, t))
    ensures At(s.pcs, t).Idle? ==>
              StarterStep(s, t, LockESIM)
              == if s.esim.None? then Some(s.(esim := Some(t), pcs := s.pcs[t := Direct(Locked)])) else None
    ensures At(s.pcs, t) == Direct(Locked) ==>
              StarterStep(s, t, LookAtRecovery)
              == Some(s.(pcs := s.pcs[t := Direct(if s.g.recovery.None? then Clear
                                                  else Waiting(s.g.recovery.value))]))
    ensures forall r: RecoveryId :: At(s.pcs, t) == Direct(Waiting(r)) ==>
              StarterStep(s, t, WakeUp) == if s.g.closed[r] then Some(s.(pcs := s.pcs[t := Direct(Clear)])) else None
    ensures At(s.pcs, t) == Direct(Clear) && child != t && At(s.pcs, child).Idle? && s.g.recovery.None? ==>
              StarterStep(s, t, StartRecovery(child)).Some?
              && At(StarterStep(s, t, StartRecovery(child)).value.pcs, child)
                 == (if s.g.lease.Some? then Recovering(|s.g.closed|, s.g.lease.value)
                     else Begin(Detached(|s.g.closed|)))
    ensures At(s.pcs, t).Direct? && At(s.pcs, t).phase != SwitchProtocol.Free ==>
              StarterStep(s, t, UnlockESIM) == Some(s.(esim := None, pcs := s.pcs[t := Idle]))
  {}
}
