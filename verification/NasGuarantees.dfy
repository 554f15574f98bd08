/** What the monitor's verdict on a whole log means for the requests in it. */
module NasGuarantees {
  import opened Results
  import opened NasRegistration

  function Only(log: seq<Event>, keep: Event -> bool): seq<Event> {
    if log == [] then []
    else Only(log[..|log| - 1], keep) + (if keep(log[|log| - 1]) then [log[|log| - 1]] else [])
  }

  const isPoll: Event -> bool := (e: Event) => e.ReadServing?
  const isRegister: Event -> bool := (e: Event) => e.Register?
  const isSearch: Event -> bool := (e: Event) => e.Search?
  const isLowering: Event -> bool := (e: Event) => e.SetMode? && e.wanted == LowPower

  lemma {:induction false} WatchCounts(goal: Goal, log: seq<Event>)
    ensures var w := Watched(goal, log);
            && w.polls == |Only(log, isPoll)| && w.registers == |Only(log, isRegister)|
            && w.searches == |Only(log, isSearch)| && w.cycles == |Only(log, isLowering)|
            && (w.refused <==> exists i | 0 <= i < |log| :: log[i] == Search(Unsupported))
            && (w.justRefused <==> log != [] && log[|log| - 1] == Search(Unsupported))
  {
    hide Allowed;
    if log != [] {
      var before := log[..|log| - 1];
      WatchCounts(goal, before);
      if exists i | 0 <= i < |log| :: log[i] == Search(Unsupported) {
        var i :| 0 <= i < |log| && log[i] == Search(Unsupported);
        if i < |log| - 1 { assert before[i] == Search(Unsupported); }
      }
      if exists i | 0 <= i < |before| :: before[i] == Search(Unsupported) {
        var i :| 0 <= i < |before| && before[i] == Search(Unsupported);
        assert log[i] == Search(Unsupported);
      }
      assert log[|log| - 1] == Search(Unsupported) ==> exists i | 0 <= i < |log| :: log[i] == Search(Unsupported);
    }
  }

  /** The goal: registered at home or roaming, and on the very network that was asked for, country and network code. */
  lemma GoalMeans(goal: Goal, s: Serving)
    ensures goal.Reached(s) <==>
            && (s.state == Registered || s.state == Roaming)
            && (goal.target.Some? ==> s.network.mcc == goal.target.value.mcc && s.network.mnc == goal.target.value.mnc)
    ensures goal.Complete(Got(s)) <==> goal.Reached(s) && s.attached
    ensures RatOf(4) == 4 && RatOf(5) == 5 && RatOf(8) == 8 && RatOf(10) == 0x0C
    ensures forall radio: nat | radio !in [4, 5, 8, 10] :: RatOf(radio) == 0
  {}

  /** For a network that the caller named in manual mode, a registration only answers a search that is unsupported. */
  lemma ManualSearchesFirst(goal: Goal, log: seq<Event>, i: nat)
    requires Watched(goal, log).sane && i < |log| && log[i].Register? && goal.target.Some? && goal.manualMode
    ensures i > 0 && log[i - 1] == Search(Unsupported) && log[i].rat != 0
  {
    SaneAt(goal, log, i);
    WatchCounts(goal, log[..i]);
  }

  /** There an answered search stands for the registration; for any other goal it does not. */
  lemma SearchStandsForRegistration(goal: Goal, w: Watch)
    ensures Observe(goal, w, Search(Done)).outstanding <==> w.outstanding || (goal.target.Some? && goal.manualMode)
  {}

  /** What an attempt must not leave undone before its wait, in numbers. */
  lemma DutiesMean(goal: Goal, w: Watch, s: Serving)
    requires w.last == Got(s) && w.radio == Up
    ensures var away := (s.state == Registered || s.state == Roaming) && !goal.Reached(s);
            Owes(goal, w) <==>
            || (goal.Reached(s) && !s.attached && !w.attachTried)
            || (!goal.Reached(s) && s.state != Denied && !w.outstanding && !w.cycledNow)
            || ((s.state == Searching || away) && w.outstanding && w.searches == 0 && w.polls >= 2)
            || ((s.state == Searching || away) && w.outstanding && w.cycles == 0
                && (w.polls >= 30 || (w.refused && w.polls >= 3)))
  {}

  /** Every wait of a run, outside a radio cycle, comes with nothing owed to the latest reading. */
  lemma NothingIsLeftUndone(goal: Goal, log: seq<Event>, i: nat)
    requires Watched(goal, log).sane && i < |log| && log[i].Wait?
    ensures !Owes(goal, Watched(goal, log[..i]))
    ensures forall j | 0 < j < |log| && log[j].ReadServing? :: Watched(goal, log[..j]).polls > 0 ==> log[j - 1].Wait?
  {
    SaneAt(goal, log, i);
    forall j | 0 < j < |log| && log[j].ReadServing? && Watched(goal, log[..j]).polls > 0 ensures log[j - 1].Wait? {
      SaneAt(goal, log, j);
      assert log[..j][..j - 1] == log[..j - 1];
    }
  }

  lemma {:induction false} SaneAt(goal: Goal, log: seq<Event>, i: nat)
    requires Watched(goal, log).sane && i < |log|
    ensures Watched(goal, log[..i]).sane && Allowed(goal, Watched(goal, log[..i]), log[i])
    decreases |log|
  {
    hide Allowed;
    if i < |log| - 1 {
      SaneAt(goal, log[..|log| - 1], i);
      assert log[..|log| - 1][..i] == log[..i];
    }
  }

  lemma {:induction false} LastIsLatest(goal: Goal, log: seq<Event>)
    ensures var last := Watched(goal, log).last;
            last != Unreadable ==>
              exists k | 0 <= k < |log| ::
                log[k] == ReadServing(last) && forall j | k < j < |log| :: !log[j].ReadServing?
  {
    hide Allowed;
    if log != [] {
      var before := log[..|log| - 1];
      var last := Watched(goal, log).last;
      LastIsLatest(goal, before);
      if last != Unreadable {
        if log[|log| - 1].ReadServing? {
          assert log[|log| - 1] == ReadServing(last);
        } else {
          var k :| 0 <= k < |before| && before[k] == ReadServing(last)
                   && forall j | k < j < |before| :: !before[j].ReadServing?;
          assert log[k] == ReadServing(last);
          assert forall j | k < j < |before| :: log[j] == before[j];
        }
      }
    }
  }

  /** Success comes with the log's last reading: registered or roaming, on the target, packet service attached. */
  lemma SuccessIsWitnessed(goal: Goal, log: seq<Event>)
    requires Watched(goal, log).sane && goal.Complete(Watched(goal, log).last)
    ensures log != [] && log[|log| - 1] == ReadServing(Watched(goal, log).last)
  {
    var last := Watched(goal, log).last;
    LastIsLatest(goal, log);
    assert log != [] ==> Watched(goal, log[..|log| - 1]).last == last || log[|log| - 1].ReadServing?;
  }

  /** The radio is never lowered before thirty readings, or three once a search was refused as unsupported. */
  lemma NoEarlyCycle(goal: Goal, log: seq<Event>, i: nat)
    requires Watched(goal, log).sane && i < |log| && isLowering(log[i])
    ensures |Only(log[..i], isPoll)| >= 30
            || (|Only(log[..i], isPoll)| >= 3 && exists j | 0 <= j < i :: log[j] == Search(Unsupported))
  {
    SaneAt(goal, log, i);
    WatchCounts(goal, log[..i]);
    assert forall j | 0 <= j < i :: log[..i][j] == log[j];
  }

  lemma RadioBefore(goal: Goal, log: seq<Event>, i: nat)
    requires Watched(goal, log).sane && i < |log| && isLowering(log[i])
    ensures var w := Watched(goal, log[..i]); w.radio == Up && w.polls > 0
    ensures var w := Watched(goal, log[..i + 1]);
            w.radio == (if log[i].ok then Lowered else Up) && w.polls > 0 && w.cycles > 0
  {
    SaneAt(goal, log, i);
    assert log[..i + 1][..i] == log[..i];
  }

  /** A lowered radio is waited for and commanded up in the next two events, if and only if the modem acknowledged. */
  lemma RaisedIffAcknowledged(goal: Goal, log: seq<Event>, i: nat)
    requires Settled(Watched(goal, log)) && i < |log| && isLowering(log[i])
    ensures (i + 2 < |log| && log[i + 1].Wait? && log[i + 2].SetMode? && log[i + 2].wanted == Online) <==> log[i].ok
  {
    RadioBefore(goal, log, i);
    assert log[..|log|] == log;
    if i + 1 < |log| {
      SaneAt(goal, log, i + 1);
      assert log[..i + 2][..i + 1] == log[..i + 1];
      if i + 2 < |log| { SaneAt(goal, log, i + 2); }
    }
  }

  lemma {:induction false} CyclesGrow(goal: Goal, log: seq<Event>, k: nat)
    requires k <= |log|
    ensures Watched(goal, log[..k]).cycles <= Watched(goal, log).cycles
    decreases |log|
  {
    hide Allowed;
    if k < |log| {
      CyclesGrow(goal, log[..|log| - 1], k);
      assert log[..|log| - 1][..k] == log[..k];
    } else {
      assert log[..k] == log;
    }
  }

  lemma StaysUp(goal: Goal, w: Watch, e: Event)
    requires Allowed(goal, w, e) && w.radio == Up && w.polls > 0 && w.cycles > 0 && Observe(goal, w, e).cycles <= 1
    ensures var w' := Observe(goal, w, e); w'.radio == Up && w'.polls > 0 && w'.cycles > 0
    ensures !e.SetMode?
  {}

  // After a lowering that was not acknowledged the mode is not commanded again.
  lemma {:induction false} NoCommandAfter(goal: Goal, log: seq<Event>, i: nat, k: nat)
    requires Settled(Watched(goal, log)) && i < k <= |log| && log[i] == SetMode(LowPower, false)
    ensures var w := Watched(goal, log[..k]); w.radio == Up && w.polls > 0 && w.cycles > 0
    ensures forall j | i < j < k :: !log[j].SetMode?
    decreases k
  {
    hide Allowed, Observe;
    if k == i + 1 {
      RadioBefore(goal, log, i);
    } else {
      NoCommandAfter(goal, log, i, k - 1);
      SaneAt(goal, log, k - 1);
      CyclesGrow(goal, log, k);
      assert log[..k][..k - 1] == log[..k - 1];
      StaysUp(goal, Watched(goal, log[..k - 1]), log[k - 1]);
    }
  }

  // The radio was asked down, and not asked up again.
  ghost predicate MayStayLowered(log: seq<Event>) {
    exists i | 0 <= i < |log| ::
      isLowering(log[i]) && forall j | i < j < |log| :: !(log[j].SetMode? && log[j].wanted == Online)
  }

  /** Over every run: that happens if and only if a lowering was not acknowledged, taken effect or not. */
  lemma MayStayLoweredIff(goal: Goal, log: seq<Event>)
    requires Settled(Watched(goal, log))
    ensures MayStayLowered(log) <==> exists i | 0 <= i < |log| :: log[i] == SetMode(LowPower, false)
  {
    if MayStayLowered(log) {
      var i :| 0 <= i < |log| && isLowering(log[i])
               && forall j | i < j < |log| :: !(log[j].SetMode? && log[j].wanted == Online);
      RaisedIffAcknowledged(goal, log, i);
      assert log[i] == SetMode(LowPower, false);
    }
    if i :| 0 <= i < |log| && log[i] == SetMode(LowPower, false) {
      NoCommandAfter(goal, log, i, |log|);
    }
  }

  lemma Appended(goal: Goal, log: seq<Event>, e: Event)
    ensures Watched(goal, log + [e]) == Observe(goal, Watched(goal, log), e)
  {
    assert (log + [e])[..|log|] == log;
  }

  // A modem that keeps searching refuses the search, and does not answer the command to go down.
  function Opening(s: Serving): seq<Event> {
    [ReadMode(Some(Online)), ReadServing(Got(s)), Register(0, Done), Wait(true), ReadServing(Got(s))]
  }

  function UnansweredLowering(s: Serving): seq<Event> {
    Opening(s) + [Search(Unsupported), Wait(true), ReadServing(Got(s)), SetMode(LowPower, false), Wait(false)]
  }

  lemma FirstReadingWatched(goal: Goal, s: Serving)
    ensures Watched(goal, [ReadMode(Some(Online)), ReadServing(Got(s))])
            == Watch(1, 0, 0, 0, Got(s), false, false, Up, true, false, false, false, false, false)
  {
    var l0: seq<Event> := [];
    assert Watched(goal, l0) == BEGIN;
    hide Watched;
    var l1 := l0 + [ReadMode(Some(Online))];
    Appended(goal, l0, ReadMode(Some(Online)));
    Appended(goal, l1, ReadServing(Got(s)));
    assert l1 + [ReadServing(Got(s))] == [ReadMode(Some(Online)), ReadServing(Got(s))];
  }

  lemma OpeningWatched(goal: Goal, s: Serving)
    requires s.state == Searching && !goal.Manual()
    ensures Watched(goal, Opening(s))
            == Watch(2, 1, 0, 0, Got(s), false, false, Up, true, true, false, false, false, false)
  {
    hide Watched;
    FirstReadingWatched(goal, s);
    var l2 := [ReadMode(Some(Online)), ReadServing(Got(s))];
    var l3 := l2 + [Register(0, Done)];
    var l4 := l3 + [Wait(true)];
    Appended(goal, l2, Register(0, Done));
    Appended(goal, l3, Wait(true));
    Appended(goal, l4, ReadServing(Got(s)));
    assert l4 + [ReadServing(Got(s))] == Opening(s);
  }

  lemma LoweringWatched(goal: Goal, s: Serving)
    requires s.state == Searching && !goal.Manual()
    ensures Watched(goal, UnansweredLowering(s))
            == Watch(3, 1, 1, 1, Got(s), true, false, Up, true, true, false, true, true, true)
  {
    hide Watched;
    OpeningWatched(goal, s);
    var l5 := Opening(s);
    var l6 := l5 + [Search(Unsupported)];
    var l7 := l6 + [Wait(true)];
    var l8 := l7 + [ReadServing(Got(s))];
    var l9 := l8 + [SetMode(LowPower, false)];
    Appended(goal, l5, Search(Unsupported));
    Appended(goal, l6, Wait(true));
    Appended(goal, l7, ReadServing(Got(s)));
    Appended(goal, l8, SetMode(LowPower, false));
    Appended(goal, l9, Wait(false));
    assert l9 + [Wait(false)] == UnansweredLowering(s);
  }

  /** Such a run keeps every rule of the monitor, ends with the wait cut short, and never commands the radio up. */
  lemma UnansweredLoweringIsLeft(goal: Goal, s: Serving)
    requires s.state == Searching && !goal.Manual()
    ensures Settled(Watched(goal, UnansweredLowering(s))) && MayStayLowered(UnansweredLowering(s))
    ensures EndsBadly(UnansweredLowering(s))
  {
    hide Watched;
    var log := UnansweredLowering(s);
    LoweringWatched(goal, s);
    assert log[8] == SetMode(LowPower, false) && log[9] == Wait(false) && |log| == 10;
    MayStayLoweredIff(goal, log);
  }

  /** A network search waits for the second reading, unless the network was named in manual mode. */
  lemma NoEarlySearch(goal: Goal, log: seq<Event>, i: nat)
    requires Watched(goal, log).sane && i < |log| && isSearch(log[i]) && !(goal.target.Some? && goal.manualMode)
    ensures |Only(log[..i], isPoll)| >= 2
  {
    SaneAt(goal, log, i);
    WatchCounts(goal, log[..i]);
  }

  /**
   Whatever ends a run is the last of its log: a failed attach, search, registration or preference, an unreadable
   mode, and a cancelled wait, the one inside a radio cycle excepted.
   */
  lemma RefusalIsLast(goal: Goal, log: seq<Event>, i: nat)
    requires Watched(goal, log).sane && i < |log|
    requires log[i] in [Attach(false), Search(Failed), SetPreference(Failed), ReadMode(None), Wait(false)]
             || (log[i].Register? && log[i].answer == Failed)
    requires log[i] == Wait(false) ==> i > 0 && log[i - 1] != SetMode(LowPower, true)
    ensures i == |log| - 1
  {
    if log[i] == Wait(false) {
      assert log[..i][..i - 1] == log[..i - 1];
      NotInCycle(goal, log, i);
    }
    assert log[..i + 1][..i] == log[..i];
    if i < |log| - 1 { SaneAt(goal, log, i + 1); }
  }

  lemma NotInCycle(goal: Goal, log: seq<Event>, i: nat)
    requires Watched(goal, log).sane && 0 < i < |log| && log[i].Wait? && log[i - 1] != SetMode(LowPower, true)
    ensures Watched(goal, log[..i]).radio == Up
  {
    hide Ends;
    SaneAt(goal, log, i);
    assert log[..i][..i - 1] == log[..i - 1];
  }

  /** Registering, searching and lowering the radio only ever answer a latest reading away from the goal. */
  lemma DisturbsOnlyAwayFromGoal(goal: Goal, log: seq<Event>, i: nat)
    requires Watched(goal, log).sane && i < |log| && (isRegister(log[i]) || isSearch(log[i]) || isLowering(log[i]))
    ensures exists k | 0 <= k < i ::
              && log[k].ReadServing? && log[k].reading.Got? && !goal.Reached(log[k].reading.serving)
              && forall j | k < j < i :: !log[j].ReadServing?
    ensures goal.Manual() && isRegister(log[i]) ==> log[i].rat != 0 && log[i - 1] == Search(Unsupported)
  {
    SaneAt(goal, log, i);
    LastIsLatest(goal, log[..i]);
    WatchCounts(goal, log[..i]);
    var last := Watched(goal, log[..i]).last;
    var k :| 0 <= k < i && log[..i][k] == ReadServing(last) && forall j | k < j < i :: !log[..i][j].ReadServing?;
    assert log[k] == ReadServing(last) && forall j | k < j < i :: log[..i][j] == log[j];
  }

  /** The budgets of one run, counted in its log. */
  lemma BudgetsHold(goal: Goal, log: seq<Event>)
    requires Settled(Watched(goal, log))
    ensures |Only(log, isPoll)| <= 45 && |Only(log, isRegister)| <= 2
    ensures |Only(log, isSearch)| <= 2 && |Only(log, isLowering)| <= 1
  {
    WatchCounts(goal, log);
  }
}
