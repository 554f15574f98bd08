/** Any history of observations and completions of one device, and what happens within one episode of it. */
module RecoveryEpisodes {
  import opened Results
  import opened Text
  import opened RecoveryTracker

  datatype Event =
    | Seen(snapshot: Snapshot, now: int)
    | Finished(iccid: string, action: Action, issued: bool, now: int)

  datatype Step = Step(before: Option<Episode>, event: Event, action: Action, after: Option<Episode>)

  // Only an action that was asked for is completed.
  predicate Valid(d: Delays, s: Step) {
    match s.event
    case Seen(snapshot, now) => Observed(s.after, s.action) == Observe(d, s.before, snapshot, now)
    case Finished(iccid, action, issued, now) =>
      action != Nothing && s.action == Nothing && s.after == Complete(s.before, iccid, action, issued, now)
  }

  predicate Run(d: Delays, steps: seq<Step>) {
    && (forall i | 0 <= i < |steps| :: Valid(d, steps[i]))
    && (|steps| > 0 ==> steps[0].before == None)
    && (forall i | 0 < i < |steps| :: steps[i].before == steps[i - 1].after)
  }

  // ---- Episodes -----------------------------------------------------------------------------------

  predicate Continues(s: Step) { s.before.Some? && s.after.Some? && s.before.value.iccid == s.after.value.iccid }

  predicate Begins(s: Step) { s.after.Some? && !Continues(s) }

  // Step `b` begins an episode that steps b+1..i all belong to.
  ghost predicate Spans(steps: seq<Step>, b: nat, i: nat) {
    b <= i < |steps| && Begins(steps[b]) && forall k | b < k <= i :: Continues(steps[k])
  }

  predicate Issues(s: Step) {
    s.event.Finished? && s.event.issued && Answers(s.before, s.event.iccid, s.event.action)
  }

  predicate Settles(s: Step) { s.event.Finished? && Answers(s.before, s.event.iccid, s.event.action) }

  // The attempts issued in steps from..until, in order.
  function Issued(steps: seq<Step>, from: nat, until: nat): seq<Action>
    requires from <= until <= |steps|
    decreases until - from
  {
    if from == until then []
    else Issued(steps, from, until - 1) + (if Issues(steps[until - 1]) then [steps[until - 1].event.action] else [])
  }

  predicate Sound(e: Episode) {
    && e.attempts <= 2
    && (e.pending == Reregister ==> e.attempts == 0)
    && (e.pending == Reboot ==> e.attempts == 1)
  }

  /** What one step does within an episode, and how an episode begins. */
  lemma StepKeeps(d: Delays, s: Step)
    requires Valid(d, s) && s.after.Some? && (Continues(s) ==> Sound(s.before.value))
    ensures Sound(s.after.value)
    ensures Begins(s) ==>
              && s.event.Seen? && s.event.snapshot.Stuck() && s.action == Nothing
              && s.after.value == Episode(Trim(s.event.snapshot.iccid), s.event.now, 0, 0, Nothing)
    ensures Continues(s) ==>
              var e, e' := s.before.value, s.after.value;
              && e'.searchingAt == e.searchingAt
              && (if Issues(s) then e'.attempts == e.attempts + 1 && e'.lastAttempt == s.event.now
                  else e'.attempts == e.attempts && e'.lastAttempt == e.lastAttempt)
              && (Settles(s) ==> e'.pending == Nothing && e.pending == s.event.action != Nothing)
              && (s.action != Nothing ==> e.pending == Nothing && e'.pending == s.action == Due(d, e, s.event.now))
              && (!Settles(s) && s.action == Nothing ==> e'.pending == e.pending)
  {
    hide Trim, Snapshot.IsEC20;
  }

  lemma {:induction false} EpisodeHasBeginning(d: Delays, steps: seq<Step>, i: nat) returns (b: nat)
    requires Run(d, steps) && i < |steps| && steps[i].after.Some?
    ensures Spans(steps, b, i)
  {
    assert i == 0 ==> steps[i].before == None;
    assert i > 0 ==> steps[i].before == steps[i - 1].after;
    if Begins(steps[i]) {
      b := i;
    } else {
      assert Continues(steps[i]);
      b := EpisodeHasBeginning(d, steps, i - 1);
    }
  }

  /** In one episode the issued attempts are, in this order, at most a registration and then a reboot. */
  lemma {:induction false} AtMostTwoAttempts(d: Delays, steps: seq<Step>, b: nat, i: nat)
    requires Run(d, steps) && Spans(steps, b, i)
    ensures Issued(steps, b, i + 1) <= [Reregister, Reboot]
    ensures var e := steps[i].after.value;
            && e.attempts == |Issued(steps, b, i + 1)| && Sound(e)
            && e.searchingAt == steps[b].event.now
    decreases i
  {
    hide Valid, Settles, Due, Answers;
    assert Valid(d, steps[i]);
    if b == i {
      StepKeeps(d, steps[i]);
      assert Issued(steps, b, i) == [];
    } else {
      AtMostTwoAttempts(d, steps, b, i - 1);
      assert Continues(steps[i]);
      StepKeeps(d, steps[i]);
      assert steps[i].before == steps[i - 1].after;
      IssuedIsSettled(steps[i]);
      var issued, e := Issued(steps, b, i), steps[i].before.value;
      assert e.attempts == 0 ==> issued == [];
      assert e.attempts == 1 ==> issued == [Reregister];
      assert Issues(steps[i]) ==> e.pending == (if e.attempts == 0 then Reregister else Reboot);
    }
  }

  lemma IssuedIsSettled(s: Step)
    ensures Issues(s) ==> Settles(s)
  {}

  /** Between two offers of one episode the first was settled: at most one action is ever pending. */
  lemma {:induction false} OnePendingAction(d: Delays, steps: seq<Step>, b: nat, i: nat, j: nat)
    requires Run(d, steps) && Spans(steps, b, j) && b <= i < j
    requires steps[i].action != Nothing && steps[j].action != Nothing
    ensures exists k | i < k < j :: Settles(steps[k]) && steps[k].event.action == steps[i].action
  {
    hide Valid, Due, Answers, Settles;
    var k := SettledWhenClear(d, steps, b, i, j - 1);
    assert Continues(steps[j]);
    StepSound(d, steps, b, j);
  }

  // From an offer on, either the action is still pending or it was settled.
  lemma {:induction false} SettledWhenClear(d: Delays, steps: seq<Step>, b: nat, i: nat, j: nat) returns (k: nat)
    requires Run(d, steps) && Spans(steps, b, j) && b <= i <= j && steps[i].action != Nothing
    ensures (steps[j].after.value.pending == steps[i].action && k == i)
            || (i < k <= j && Settles(steps[k]) && steps[k].event.action == steps[i].action)
    decreases j
  {
    hide Valid, Due, Answers, Settles;
    StepSound(d, steps, b, j);
    k := i;
    if i < j {
      k := SettledWhenClear(d, steps, b, i, j - 1);
      if k == i && Settles(steps[j]) { k := j; }
    }
  }

  // StepKeeps at any step of an episode.
  lemma StepSound(d: Delays, steps: seq<Step>, b: nat, i: nat)
    requires Run(d, steps) && Spans(steps, b, i)
    ensures b < i ==> Continues(steps[i]) && Sound(steps[i].before.value) && steps[i].before == steps[i - 1].after
    ensures b == i ==> steps[i].action == Nothing && steps[i].after.value.attempts == 0
    ensures Continues(steps[i]) ==>
              var s := steps[i];
              var e, e' := s.before.value, s.after.value;
              && (if Issues(s) then e'.lastAttempt == s.event.now && e'.attempts == e.attempts + 1
                  else e'.lastAttempt == e.lastAttempt && e'.attempts == e.attempts)
              && (Settles(s) ==> e'.pending == Nothing && e.pending == s.event.action)
              && (s.action != Nothing ==> e.pending == Nothing && e'.pending == s.action == Due(d, e, s.event.now))
              && (!Settles(s) && s.action == Nothing ==> e'.pending == e.pending)
  {
    hide Due, Settles, Issues;
    assert Valid(d, steps[i]);
    if b < i { AtMostTwoAttempts(d, steps, b, i - 1); }
    StepKeeps(d, steps[i]);
  }

  /** A registration is offered no earlier than the grace period after the episode began. */
  lemma RegistrationWaitsForGrace(d: Delays, steps: seq<Step>, b: nat, i: nat)
    requires Run(d, steps) && Spans(steps, b, i) && steps[i].action == Reregister
    ensures steps[i].event.now - steps[b].event.now >= d.grace
    ensures Issued(steps, b, i) == []
  {
    hide Valid, Answers, Settles;
    StepSound(d, steps, b, i);
    AtMostTwoAttempts(d, steps, b, i - 1);
  }

  /** A reboot is offered no earlier than the escalation delay after an issued registration, the only attempt so far. */
  lemma RebootWaitsForEscalation(d: Delays, steps: seq<Step>, b: nat, i: nat)
    requires Run(d, steps) && Spans(steps, b, i) && steps[i].action == Reboot
    ensures Issued(steps, b, i) == [Reregister]
    ensures exists k | b < k < i :: Issues(steps[k]) && steps[k].event.action == Reregister
                                    && steps[i].event.now - steps[k].event.now >= d.escalation
  {
    hide Valid, Answers, Settles, Issues, Run, Issued;
    StepSound(d, steps, b, i);
    EarlierSpan(steps, b, i);
    AtMostTwoAttempts(d, steps, b, i - 1);
    var k := LatestIssue(d, steps, b, i - 1);
    assert Issued(steps, b, i) == [Reregister];
  }

  lemma EarlierSpan(steps: seq<Step>, b: nat, i: nat)
    requires Spans(steps, b, i) && b < i
    ensures Spans(steps, b, i - 1)
  {}

  // The step that issued the latest attempt of the episode.
  lemma {:induction false} LatestIssue(d: Delays, steps: seq<Step>, b: nat, i: nat) returns (k: nat)
    requires Run(d, steps) && Spans(steps, b, i) && steps[i].after.value.attempts > 0
    ensures b < k <= i && Issues(steps[k]) && steps[k].event.now == steps[i].after.value.lastAttempt
    ensures var issued := Issued(steps, b, i + 1); issued != [] && issued[|issued| - 1] == steps[k].event.action
    decreases i
  {
    hide Valid, Answers, Settles, Due;
    StepSound(d, steps, b, i);
    AtMostTwoAttempts(d, steps, b, i);
    if Issues(steps[i]) && b < i {
      k := i;
    } else {
      k := LatestIssue(d, steps, b, i - 1);
    }
  }

  /** What an observation says, in the snapshot's own values. */
  lemma SnapshotMeans(s: Snapshot)
    ensures s.Recovered() <==> (s.modeKnown && s.operatingMode == 4) || s.status == 1 || s.status == 5
    ensures var m := Trim(s.model);
            s.Stuck() <==>
            && s.simReady && Trim(s.iccid) != "" && (s.status == 0 || s.status == 2)
            && |m| >= 4 && m[0] in "Ee" && m[1] in "Cc" && m[2..4] == "20"
  {
    var m := Trim(s.model);
    hide Trim;
    assert "20"[0] == '2' && "20"[1] == '0';
    if |m| >= 4 { assert m[2..4][0] == m[2] && m[2..4][1] == m[3]; }
  }

  /** An observation of a stuck modem begins an episode, or offers what is due in it: both directions. */
  lemma OffersWhenDue(d: Delays, s: Snapshot, now: int, e: Episode)
    requires s.Stuck() && !s.Recovered()
    ensures Observe(d, None, s, now) == Observed(Some(Episode(Trim(s.iccid), now, 0, 0, Nothing)), Nothing)
    ensures e.iccid == Trim(s.iccid) ==>
              Observe(d, Some(e), s, now) ==
                if e.pending == Nothing && e.attempts == 0 && now - e.searchingAt >= d.grace
                then Observed(Some(e.(pending := Reregister)), Reregister)
                else if e.pending == Nothing && e.attempts == 1 && now - e.lastAttempt >= d.escalation
                then Observed(Some(e.(pending := Reboot)), Reboot)
                else Observed(Some(e), Nothing)
  {
    hide Trim, Snapshot.IsEC20;
  }

  /** A completion of the pending action of the same card clears it, and counts when it was issued. */
  lemma CompletionCounts(e: Episode, iccid: string, action: Action, issued: bool, now: int)
    requires e.iccid == Trim(iccid) && e.pending == action
    ensures Complete(Some(e), iccid, action, issued, now) ==
            Some(if issued then Episode(e.iccid, e.searchingAt, now, e.attempts + 1, Nothing)
                 else Episode(e.iccid, e.searchingAt, e.lastAttempt, e.attempts, Nothing))
  {}

  /** An episode ends, or gives way to another, only when the modem recovered or another card was read. */
  lemma EpisodeEndsForCause(d: Delays, s: Step)
    requires Valid(d, s) && s.before.Some?
    ensures !Continues(s) <==>
            s.event.Seen?
            && var seen := s.event.snapshot;
               || (seen.modeKnown && seen.operatingMode == 4) || seen.status == 1 || seen.status == 5
               || Trim(seen.iccid) !in ["", s.before.value.iccid]
  {
    hide Trim, Snapshot.IsEC20;
  }

  /**
   An observation of a card that is unreadable or not ready asks for nothing. It keeps the episode if and only
   if it reads no ICCID or the same one; another ICCID ends the episode, ready or not.
   */
  lemma UnreadyCardKeepsIff(d: Delays, s: Step)
    requires Valid(d, s) && s.before.Some? && s.event.Seen? && !s.event.snapshot.Recovered()
    requires Trim(s.event.snapshot.iccid) == "" || !s.event.snapshot.simReady
    ensures s.action == Nothing
    ensures var iccid := Trim(s.event.snapshot.iccid);
            && (s.after == s.before <==> iccid == "" || iccid == s.before.value.iccid)
            && (s.after != s.before ==> s.after.None?)
  {
    hide Trim, Snapshot.IsEC20;
  }

  // ---- How one reading of another card re-arms the tracker ---------------------------------------

  function Stuck(card: string): Snapshot { Snapshot(false, 0, 2, true, card, "EC20") }

  function Unready(card: string): Snapshot { Snapshot(false, 0, 2, false, card, "EC20") }

  predicate IsCard(card: string) { card != "" && Trim(card) == card }

  // The whole of one episode: both offers, both issued.
  function Spent(d: Delays, card: string, t: int): seq<Step> {
    var (t1, t2) := (t + d.grace, t + d.grace + d.escalation);
    var e0 := Episode(card, t, 0, 0, Nothing);
    var e1 := e0.(pending := Reregister);
    var e2 := Episode(card, t, t1, 1, Nothing);
    var e3 := e2.(pending := Reboot);
    var e4 := Episode(card, t, t2, 2, Nothing);
    [Step(None, Seen(Stuck(card), t), Nothing, Some(e0)),
     Step(Some(e0), Seen(Stuck(card), t1), Reregister, Some(e1)),
     Step(Some(e1), Finished(card, Reregister, true, t1), Nothing, Some(e2)),
     Step(Some(e2), Seen(Stuck(card), t2), Reboot, Some(e3)),
     Step(Some(e3), Finished(card, Reboot, true, t2), Nothing, Some(e4))]
  }

  lemma StuckIsStuck(card: string)
    requires IsCard(card)
    ensures Stuck(card).Stuck() && !Stuck(card).Recovered() && !Unready(card).Recovered()
  {
    assert Trim("EC20") == "EC20";
  }

  lemma SpentIsRun(d: Delays, card: string, t: int)
    requires IsCard(card)
    ensures Run(d, Spent(d, card, t))
  {
    StuckIsStuck(card);
    hide Trim, Snapshot.IsEC20, Snapshot.Stuck, Snapshot.Recovered;
    var steps := Spent(d, card, t);
    assert Valid(d, steps[0]) && Valid(d, steps[1]) && Valid(d, steps[2]) && Valid(d, steps[3]) && Valid(d, steps[4]);
  }

  function Interlude(d: Delays, card: string, other: string, t: int): Step {
    Step(Spent(d, card, t)[4].after, Seen(Unready(other), t + d.grace + d.escalation), Nothing, None)
  }

  function Rearmed(d: Delays, card: string, other: string): seq<Step> {
    Spent(d, card, 0) + [Interlude(d, card, other, 0)] + Spent(d, card, d.grace + d.escalation)
  }

  /** A not-ready reading of another card in between, and the first card is rebooted a second time. */
  lemma OtherCardRearms(d: Delays, card: string, other: string)
    requires IsCard(card) && IsCard(other) && card != other
    ensures var steps := Rearmed(d, card, other);
            && Run(d, steps) && |steps| == 11
            && !steps[5].event.snapshot.simReady
            && (forall i | i in [4, 10] :: Issues(steps[i]) && steps[i].event.action == Reboot
                                           && steps[i].before.value.iccid == card)
  {
    var t := d.grace + d.escalation;
    SpentIsRun(d, card, 0);
    SpentIsRun(d, card, t);
    StuckIsStuck(other);
    var first, middle, second := Spent(d, card, 0), Interlude(d, card, other, 0), Spent(d, card, t);
    assert Valid(d, middle) && first[4].after == middle.before by { hide Trim, Snapshot.IsEC20, Snapshot.Stuck; }
    hide Trim, Valid;
    var steps := Rearmed(d, card, other);
    forall i | 0 <= i < |steps| ensures Valid(d, steps[i]) {
      assert steps[i] == if i < 5 then first[i] else if i == 5 then middle else second[i - 6];
    }
    forall i | 0 < i < |steps| ensures steps[i].before == steps[i - 1].after {
      assert i < 5 ==> first[i].before == first[i - 1].after;
      assert i > 6 ==> second[i - 6].before == second[i - 7].after;
    }
  }

  /** A completion for another card, or for an action that is not pending, changes nothing. */
  lemma StrayCompletionChangesNothing(d: Delays, s: Step)
    requires Valid(d, s) && s.event.Finished?
    requires s.before.None? || Trim(s.event.iccid) != s.before.value.iccid || s.event.action != s.before.value.pending
    ensures s.after == s.before
  {}
}
