/**
 Registering through the modem's NAS service. The modem may answer every request as it likes; a monitor
 that reads only the log of requests and answers says what is allowed.
 */
module NasRegistration {
  import opened Results

  const MAX_ATTEMPTS := 45
  const CYCLE_AFTER := 30
  const CYCLE_AFTER_UNSUPPORTED := 3

  datatype State = NotSearching | Registered | Searching | Denied | Unknown | Roaming
  datatype Network = Network(mcc: nat, mnc: nat)
  datatype Serving = Serving(state: State, network: Network, attached: bool, radio: nat)
  datatype Reading = Unreadable | NoData | Got(serving: Serving)
  datatype Mode = Online | LowPower | Offline | Shutdown | Resetting | AnotherMode
  datatype Answer = Done | Unsupported | Failed

  datatype Event =
    | ReadMode(mode: Option<Mode>)
    | SetMode(wanted: Mode, ok: bool)
    | SetPreference(answer: Answer)
    | ReadServing(reading: Reading)
    | Attach(ok: bool)
    | Register(rat: nat, answer: Answer)
    | Search(answer: Answer)
    | Wait(ok: bool)

  // What the caller asked for.
  datatype Goal = Goal(target: Option<Network>, manualMode: bool) {
    predicate Manual() { target.Some? && manualMode }

    predicate Reached(s: Serving) {
      (s.state == Registered || s.state == Roaming) && (target.Some? ==> s.network == target.value)
    }

    predicate Complete(reading: Reading) {
      reading.Got? && Reached(reading.serving) && reading.serving.attached
    }
  }

  predicate Down(mode: Mode) { mode == LowPower || mode == Offline || mode == Shutdown || mode == Resetting }

  // qmiRATFromServingRadioInterface.
  function RatOf(radio: nat): nat {
    if radio == 4 || radio == 5 || radio == 8 then radio else if radio == 10 then 12 else 0
  }

  // ---- The monitor ----------------------------------------------------------------------------

  datatype Radio = Up | Lowered | Waited

  datatype Watch = Watch(
    polls: nat, registers: nat, searches: nat, cycles: nat, last: Reading,
    refused: bool, justRefused: bool, radio: Radio, sane: bool,
    outstanding: bool,       // a registration was requested and not undone by lowering the radio
    attachTried: bool, cycledNow: bool,   // since the latest reading
    paused: bool,            // the latest event was a wait
    over: bool)              // a refusal or a cancellation has ended the run

  const BEGIN := Watch(0, 0, 0, 0, Unreadable, false, false, Up, true, false, false, false, false, false)

  // Nothing may follow a denial, a missing reading or success.
  predicate Final(goal: Goal, reading: Reading) {
    reading.NoData? || (reading.Got? && reading.serving.state == Denied) || goal.Complete(reading)
  }

  // A request that disturbs the registration: only while the last reading is not on the requested network.
  predicate MayDisturb(goal: Goal, w: Watch) { w.last.Got? && !goal.Reached(w.last.serving) }

  predicate MayCycle(w: Watch) {
    w.polls >= CYCLE_AFTER || (w.refused && w.polls >= CYCLE_AFTER_UNSUPPORTED)
  }

  // Searching, or registered somewhere else.
  predicate Hunting(goal: Goal, s: Serving) {
    s.state == Searching || ((s.state == Registered || s.state == Roaming) && !goal.Reached(s))
  }

  // What the latest reading asks for and has not been done: the attach, the registration, the one search from the
  // second attempt on, and the one radio cycle once it is due. An attempt may not end while anything is owed.
  predicate Owes(goal: Goal, w: Watch) {
    w.last.Got? && w.radio == Up &&
    var s := w.last.serving;
    || (goal.Reached(s) && !s.attached && !w.attachTried)
    || (!goal.Reached(s) && s.state != Denied && !w.outstanding && !w.cycledNow)
    || (Hunting(goal, s) && w.outstanding && w.searches == 0 && w.polls >= 2)
    || (Hunting(goal, s) && w.outstanding && w.cycles == 0 && MayCycle(w))
  }

  // What ends the run: a request that was refused or not answered, and a wait that was cancelled. A radio cycle
  // goes on in any case.
  predicate Ends(goal: Goal, w: Watch, e: Event) {
    match e
    case ReadMode(mode) => mode.None?
    case SetMode(wanted, ok) => !ok && wanted == Online && w.radio == Up
    case SetPreference(answer) => answer == Failed
    case ReadServing(_) => false
    case Attach(ok) => !ok
    case Register(_, answer) => answer == Failed || (goal.Manual() && answer == Unsupported)
    case Search(answer) => answer == Failed
    case Wait(ok) => !ok && w.radio == Up
  }

  predicate Allowed(goal: Goal, w: Watch, e: Event) {
    && !Final(goal, w.last) && !w.over
    && (w.radio == Lowered ==> e.Wait?)
    && (w.radio == Waited ==> e.SetMode? && e.wanted == Online)
    && match e
       case SetMode(LowPower, _) => MayDisturb(goal, w) && MayCycle(w)
       case SetMode(_, _) => w.radio == Waited || w.polls == 0
       case Attach(_) => w.last.Got? && goal.Reached(w.last.serving) && !w.last.serving.attached
       case Register(rat, _) => MayDisturb(goal, w) && (goal.Manual() ==> w.justRefused && rat != 0)
       case Search(_) => MayDisturb(goal, w) && (goal.Manual() || w.polls >= 2)
       case Wait(_) => !Owes(goal, w)
       case ReadServing(_) => w.polls == 0 || w.paused
       case _ => true
  }

  function Observe(goal: Goal, w: Watch, e: Event): Watch {
    Watch(
      w.polls + (if e.ReadServing? then 1 else 0),
      w.registers + (if e.Register? then 1 else 0),
      w.searches + (if e.Search? then 1 else 0),
      w.cycles + (if e.SetMode? && e.wanted == LowPower then 1 else 0),
      if e.ReadServing? then e.reading else w.last,
      w.refused || e == Search(Unsupported),
      e == Search(Unsupported),
      if e == SetMode(LowPower, true) then Lowered else if w.radio == Lowered then Waited else Up,
      w.sane && Allowed(goal, w, e),
      if e == SetMode(LowPower, true) then false
      else w.outstanding || e.Register? || (goal.Manual() && e == Search(Done)),
      !e.ReadServing? && (w.attachTried || e.Attach?),
      !e.ReadServing? && (w.cycledNow || (e.SetMode? && e.wanted == LowPower)),
      e.Wait?,
      w.over || Ends(goal, w, e))
  }

  function Watched(goal: Goal, log: seq<Event>): Watch {
    if log == [] then BEGIN else Observe(goal, Watched(goal, log[..|log| - 1]), log[|log| - 1])
  }

  // The answers that end the attempt without success.
  predicate GivesUp(e: Event) {
    match e
    case ReadMode(mode) => mode.None? || mode.value in [LowPower, Offline, Shutdown, Resetting]
    case SetMode(_, ok) => !ok
    case SetPreference(answer) => answer == Failed
    case ReadServing(reading) => reading.NoData? || (reading.Got? && reading.serving.state == Denied)
    case Attach(ok) => !ok
    case Register(_, answer) => answer != Done
    case Search(answer) => answer != Done
    case Wait(ok) => !ok
  }

  // A manual trigger: a search, and after an unsupported one a registration with the technology of the request,
  // or with that of the serving cell.
  ghost predicate Triggered(
      before: seq<Event>, after: seq<Event>, rat: nat, rat': nat, radio: nat, ok: bool, unsupported: bool) {
    if !unsupported then rat' == rat && after == before + [Search(if ok then Done else Failed)]
    else
      && rat' == (if rat == 0 then RatOf(radio) else rat)
      && if rat' == 0 then !ok && after == before + [Search(Unsupported)]
         else exists a: Answer :: after == before + [Search(Unsupported), Register(rat', a)] && (ok <==> a == Done)
  }

  // What is answered before the first reading: the mode, the command to go online and the wait for it, the mode
  // again, and the automatic preference.
  datatype Startup = Startup(mode: Option<Mode>, powered: bool, waited: bool, again: Option<Mode>, preference: Answer) {
    predicate Serves(setAutomatic: bool) {
      && mode.Some?
      && (mode.value in [LowPower, Offline, Shutdown, Resetting] ==>
            && powered && waited && again.Some? && again.value !in [LowPower, Offline, Shutdown, Resetting])
      && (setAutomatic ==> preference == Done || preference == Unsupported)
    }
  }

  // The modem's mode at the start; a modem that is down is powered, waited for and read again.
  ghost predicate Prepared(log: seq<Event>, setAutomatic: bool) {
    && log != [] && log[0].ReadMode? && log[0].mode.Some?
    && var rest := if log[0].mode.value in [LowPower, Offline, Shutdown, Resetting] then 3 else 0;
    && |log| == 1 + rest + (if setAutomatic then 1 else 0)
    && (rest == 3 ==>
          && log[1] == SetMode(Online, true) && log[2] == Wait(true) && log[3].ReadMode?
          && log[3].mode.Some? && log[3].mode.value !in [LowPower, Offline, Shutdown, Resetting])
    && (setAutomatic ==> log[rest + 1].SetPreference? && log[rest + 1].answer != Failed)
  }

  ghost predicate EndsBadly(log: seq<Event>) { log != [] && GivesUp(log[|log| - 1]) }

  // Within every budget, and with no acknowledged lowering of the radio still to be undone.
  predicate Settled(w: Watch) {
    && w.sane && w.radio == Up && w.polls <= MAX_ATTEMPTS && w.registers <= 2 && w.searches <= 2 && w.cycles <= 1
  }

  // ---- The session with the modem -------------------------------------------------------------

  class Session {
    const goal: Goal
    var log: seq<Event>

    constructor (goal: Goal)
      ensures this.goal == goal && log == []
    {
      this.goal := goal;
      log := [];
    }

    ghost function Now(): Watch
      reads this
    {
      Watched(goal, log)
    }

    method Note(e: Event)
      modifies this
      ensures log == old(log) + [e] && Now() == Observe(goal, old(Now()), e)
    {
      log := log + [e];
      assert log[..|log| - 1] == old(log);
    }

    method Pause() returns (ok: bool)
      modifies this
      ensures log == old(log) + [Wait(ok)] && Now() == Observe(goal, old(Now()), Wait(ok))
    {
      ok := *;
      Note(Wait(ok));
    }

    method Serve() returns (r: Reading)
      modifies this
      ensures log == old(log) + [ReadServing(r)] && Now() == Observe(goal, old(Now()), ReadServing(r))
    {
      r := *;
      Note(ReadServing(r));
    }

    method ForceSearch() returns (answer: Answer)
      modifies this
      ensures log == old(log) + [Search(answer)] && Now() == Observe(goal, old(Now()), Search(answer))
    {
      answer := *;
      Note(Search(answer));
    }

    method Initiate(rat: nat) returns (answer: Answer)
      modifies this
      ensures log == old(log) + [Register(rat, answer)] && Now() == Observe(goal, old(Now()), Register(rat, answer))
    {
      answer := *;
      Note(Register(rat, answer));
    }

    method Power(mode: Mode) returns (ok: bool)
      modifies this
      ensures log == old(log) + [SetMode(mode, ok)] && Now() == Observe(goal, old(Now()), SetMode(mode, ok))
    {
      ok := *;
      Note(SetMode(mode, ok));
    }

    // triggerNativeQMIManualRegistration; the request keeps the technology it settled on.
    method TriggerManual(rat: nat, serving: Serving) returns (ok: bool, issued: bool, unsupported: bool, rat': nat)
      requires Now().sane && Now().radio == Up && !Now().over && Now().last == Got(serving) && goal.Manual()
      requires !goal.Reached(serving) && serving.state != Denied
      modifies this
      ensures Now().sane && Now().radio == Up && Now().last == Got(serving)
      ensures Now().polls == old(Now().polls) && Now().cycles == old(Now().cycles)
      ensures Now().searches == old(Now().searches) + 1
      ensures old(Now().registers) <= Now().registers <= old(Now().registers) + 1
      ensures old(Now().refused) ==> Now().refused
      ensures !ok ==> EndsBadly(log)
      ensures ok ==> issued == !unsupported && Now().outstanding && !Now().over
      ensures unsupported ==> Now().refused
      ensures issued ==> Now().refused == old(Now().refused)
      ensures Triggered(old(log), log, rat, rat', serving.radio, ok, unsupported)
    {
      issued, unsupported, rat' := false, false, rat;
      var answer := ForceSearch();
      if answer == Done { return true, true, false, rat; }
      if answer == Failed { return false, false, false, rat; }
      unsupported := true;
      if rat' == 0 { rat' := RatOf(serving.radio); }
      if rat' == 0 { return false, false, true, rat'; }
      answer := Initiate(rat');
      ok := answer == Done;
    }

    // The operating mode and the automatic preference, before the first reading.
    method Prepare(a: Startup, setAutomatic: bool) returns (ok: bool)
      requires log == []
      modifies this
      ensures Now() == BEGIN.(paused := Now().paused, over := Now().over)
      ensures ok ==> Prepared(log, setAutomatic) && !Now().over
      ensures !ok ==> EndsBadly(log)
      ensures ok <==> a.Serves(setAutomatic)
    {
      Note(ReadMode(a.mode));
      if a.mode.None? { return false; }
      if Down(a.mode.value) {
        Note(SetMode(Online, a.powered));
        if !a.powered { return false; }
        Note(Wait(a.waited));
        if !a.waited { return false; }
        Note(ReadMode(a.again));
        if a.again.None? || Down(a.again.value) { return false; }
      }
      if setAutomatic {
        Note(SetPreference(a.preference));
        if a.preference == Failed { return false; }
      }
      ok := true;
    }

    // The flags of the loop before the given attempt: the budgets they account for.
    ghost predicate Polling(attempt: nat, registering: bool, searched: bool, unsupported: bool, cycled: bool)
      reads this
    {
      var w := Now();
      var rounds := (if cycled then 1 else 0) + (if registering then 1 else 0);
      && w.sane && w.radio == Up && w.polls + 1 == attempt && !w.over
      && w.cycles == (if cycled then 1 else 0)
      && w.registers <= rounds
      && (if goal.Manual() then (registering ==> searched || unsupported) && w.searches <= rounds
          else w.searches == if searched then 1 else 0)
      && (unsupported ==> w.refused) && (w.refused && !cycled ==> unsupported)
      && (searched || unsupported <==> w.searches > 0) && w.outstanding == registering
    }

    lemma PollingSettles(attempt: nat, registering: bool, searched: bool, unsupported: bool, cycled: bool)
      requires Polling(attempt, registering, searched, unsupported, cycled)
      ensures Settled'(attempt)
    {}

    lemma FirstAttempt()
      requires Now() == BEGIN.(paused := Now().paused)
      ensures Polling(1, false, false, false, false)
    {}

    lemma NothingOwed(attempt: nat, searched: bool, unsupported: bool, cycled: bool)
      requires Polling(attempt, true, searched, unsupported, cycled) && Now().last.Got?
      requires !goal.Reached(Now().last.serving) && !Hunting(goal, Now().last.serving)
      ensures !Owes(goal, Now())
    {}

    // The reading that opens an attempt.
    method Poll(
        ghost attempt: nat, ghost registering: bool, ghost searched: bool, ghost unsupported: bool, ghost cycled: bool)
      returns (r: Reading)
      requires Polling(attempt, registering, searched, unsupported, cycled) && !Final(goal, Now().last)
      requires attempt == 1 || Now().paused
      modifies this
      ensures Polling(attempt + 1, registering, searched, unsupported, cycled) && Now().last == r
      ensures !Now().attachTried && !Now().cycledNow && (!r.Got? ==> !Owes(goal, Now()))
      ensures r.NoData? || (r.Got? && r.serving.state == Denied) ==> EndsBadly(log)
    {
      r := Serve();
    }

    // The wait that closes an attempt, and packet attach.
    method Settle(
        ghost attempt: nat, ghost registering: bool, ghost searched: bool, ghost unsupported: bool, ghost cycled: bool)
      returns (ok: bool)
      requires Polling(attempt, registering, searched, unsupported, cycled) && !Final(goal, Now().last)
      requires !Owes(goal, Now())
      modifies this
      ensures ok ==> Polling(attempt, registering, searched, unsupported, cycled)
      ensures Settled'(attempt) && Now().last == old(Now().last) && Now().paused
      ensures !ok ==> EndsBadly(log)
    {
      ok := Pause();
    }

    method AttachPacket(
        ghost attempt: nat, ghost registering: bool, ghost searched: bool, ghost unsupported: bool, ghost cycled: bool)
      returns (ok: bool)
      requires Polling(attempt, registering, searched, unsupported, cycled) && Now().last.Got?
      requires var s := Now().last.serving; goal.Reached(s) && !s.attached
      modifies this
      ensures ok ==> Polling(attempt, registering, searched, unsupported, cycled) && !Owes(goal, Now())
      ensures Settled'(attempt) && Now().last == old(Now().last)
      ensures !ok ==> EndsBadly(log)
    {
      ok := *;
      Note(Attach(ok));
    }

    // One registration request, manual or automatic, when none is outstanding.
    method Start(
        rat: nat, serving: Serving, tolerant: bool,
        ghost attempt: nat, searched: bool, unsupported: bool, ghost cycled: bool)
      returns (ok: bool, searched': bool, unsupported': bool, rat': nat)
      requires Polling(attempt, false, searched, unsupported, cycled)
      requires Now().last == Got(serving) && !goal.Reached(serving) && serving.state != Denied
      modifies this
      ensures !ok ==> EndsBadly(log) && Settled'(attempt)
      ensures ok ==> Polling(attempt, true, searched', unsupported', cycled)
      ensures Now().last == Got(serving)
      ensures ok && !Hunting(goal, serving) ==> !Owes(goal, Now())
      ensures goal.Manual() ==> Triggered(old(log), log, rat, rat', serving.radio, ok, unsupported')
      ensures !goal.Manual() ==>
                && (searched', unsupported', rat') == (searched, unsupported, rat)
                && exists a: Answer :: log == old(log) + [Register(rat, a)]
                                     && (ok <==> a == Done || (a == Unsupported && tolerant))
    {
      searched', unsupported', rat' := searched, unsupported, rat;
      if goal.Manual() {
        ok, searched', unsupported', rat' := TriggerManual(rat, serving);
      } else {
        var answer := Initiate(rat);
        ok := answer == Done || (answer == Unsupported && tolerant);
      }
    }

    // Every budget, whatever comes of this attempt.
    ghost predicate Settled'(attempt: nat)
      reads this
    {
      && Now().sane && Now().radio == Up && Now().polls + 1 == attempt
      && Now().registers <= 2 && Now().searches <= 2 && Now().cycles <= 1
    }

    // Lowering the radio and raising it again; a fresh registration request may follow only if it went down.
    method CycleRadio(ghost attempt: nat, searched: bool, unsupported: bool) returns (registering: bool)
      requires Polling(attempt, true, searched, unsupported, false)
      requires MayDisturb(goal, Now()) && MayCycle(Now()) && Now().last.serving.state != Denied
      modifies this
      ensures Polling(attempt, registering, searched, unsupported, true) && Now().last == old(Now().last)
      ensures Now().cycledNow && Now().searches == old(Now().searches) && Now().polls == old(Now().polls)
    {
      registering := true;
      var lowered := Power(LowPower);
      if lowered {
        var _ := Pause();
        var _ := Power(Online);
        registering := false;
      }
    }

    // What a modem that keeps searching gets: one network search, and once a radio cycle when it took too long.
    method SearchOn(attempt: nat, searched: bool, unsupported: bool, cycled: bool)
      returns (ok: bool, registering': bool, searched': bool, unsupported': bool, cycled': bool)
      requires attempt > 0 && Polling(attempt, true, searched, unsupported, cycled)
      requires MayDisturb(goal, Now()) && Now().last.serving.state != Denied
      modifies this
      ensures Now().last == old(Now().last)
      ensures ok ==> Polling(attempt, registering', searched', unsupported', cycled') && !Owes(goal, Now())
      ensures !ok ==> EndsBadly(log) && Settled'(attempt)
    {
      hide Watched;
      ok, registering', searched', unsupported', cycled' := true, true, searched, unsupported, cycled;
      if !searched && !unsupported && attempt - 1 >= 2 {
        searched' := true;
        var answer := ForceSearch();
        if answer == Unsupported {
          unsupported' := true;
        } else if answer == Failed {
          ok := false;
          return;
        }
      }
      if !cycled && attempt - 1 >= (if unsupported' then CYCLE_AFTER_UNSUPPORTED else CYCLE_AFTER) {
        cycled' := true;
        registering' := CycleRadio(attempt, searched', unsupported');
      }
    }

    // ensureNativeQMIRegistrationForTarget.
    method EnsureRegistration(request: nat, setAutomatic: bool, a: Startup) returns (ok: bool)
      requires log == []
      modifies this
      ensures Settled(Now())
      ensures ok <==> goal.Complete(Now().last)
      ensures !ok ==> Now().polls == 45 || EndsBadly(log)
      ensures !a.Serves(setAutomatic) ==> !ok && Now().polls == 0
    {
      hide Watched, Observe, Allowed, GivesUp, EndsBadly, Polling, MayCycle, Owes, Prepared, Triggered;
      var prepared := Prepare(a, setAutomatic);
      if !prepared { return false; }
      FirstAttempt();
      var rat := request;
      var registering, searched, unsupported, cycled := false, false, false, false;
      var attempt := 1;
      while attempt <= MAX_ATTEMPTS
        invariant 1 <= attempt <= MAX_ATTEMPTS + 1
        invariant Polling(attempt, registering, searched, unsupported, cycled)
        invariant !Final(goal, Now().last) && (attempt == 1 || Now().paused)
      {
        var reading := Poll(attempt, registering, searched, unsupported, cycled);
        attempt := attempt + 1;
        PollingSettles(attempt, registering, searched, unsupported, cycled);
        if reading.NoData? { return false; }
        if reading.Got? {
          var s := reading.serving;
          var registered := s.state == Registered || s.state == Roaming;
          if registered && goal.Reached(s) {
            if s.attached { return true; }
            var attached := AttachPacket(attempt, registering, searched, unsupported, cycled);
            if !attached { return false; }
          } else if s.state == Denied {
            return false;
          } else if !registering {
            var started;
            started, searched, unsupported, rat :=
              Start(rat, s, !registered && setAutomatic, attempt, searched, unsupported, cycled);
            if !started { return false; }
            registering := true;
          }
          var searching := s.state == Searching || (registered && !goal.Reached(s));
          if registering && !searching && !goal.Reached(s) {
            NothingOwed(attempt, searched, unsupported, cycled);
          }
          if searching && registering {
            var searchedOn;
            searchedOn, registering, searched, unsupported, cycled := SearchOn(attempt, searched, unsupported, cycled);
            if !searchedOn { return false; }
          }
        }
        var waited := Settle(attempt, registering, searched, unsupported, cycled);
        if !waited { return false; }
      }
      PollingSettles(attempt, registering, searched, unsupported, cycled);
      ok := false;
    }
  }
}
