/**
 Every interleaving of DHCP records, the exit of the DHCP process and any number of Close calls on
 one AT host data session. A step is one section under the event lock, one section under the session
 lock, or one wait; each external command may fail.
 */
module AtSessionRuns {
  import opened Results
  import opened AtSession

  type Tid = nat
  type AttemptId = nat

  datatype Process = Absent | Alive | Exited

  // The goroutine that reads the pipe; it may also end because opening or reading fails.
  datatype Reader = NotStarted | Reading | Gone

  // The goroutine that waits for the process: it stops the events, then deconfigures, then is done.
  datatype Watcher = NoWatcher | Watching | Stopped | Done

  // A Close call. `bad` is whether some step of the attempt has failed so far.
  datatype PC =
    | Outside
    | Awaiting(a: AttemptId)               // shares another caller's attempt
    | Stopping(a: AttemptId, first: bool)  // has cancelled, is to stop the events
    | Killing(a: AttemptId, first: bool)   // events stopped, is to stop the process
    | Joining(a: AttemptId, bad: bool)     // waits for the goroutines
    | Cleaning(a: AttemptId, bad: bool)
    | Publishing(a: AttemptId, bad: bool)
    | Returned(of: Option<AttemptId>, ok: bool)

  datatype Sys = Sys(
    h: Host, foreign: set<Cidr>,
    process: Process, reader: Reader, watcher: Watcher,
    eventsStopped: bool,
    closed: bool, closing: bool, complete: bool,
    results: seq<Option<bool>>,            // one entry per attempt, filled when it ends
    stops: nat,                            // how often the DHCP process has been told to stop
    pcs: map<Tid, PC>)

  function At(s: Sys, t: Tid): PC { if t in s.pcs then s.pcs[t] else Outside }

  predicate Working(pc: PC) { pc.Stopping? || pc.Killing? || pc.Joining? || pc.Cleaning? || pc.Publishing? }

  datatype Action =
    | StartReader | Launch | ProcessExits | Event(record: Record) | ReaderExits
    | WatcherStops | WatcherCleans
    | CallClose(t: Tid) | StopEvents(t: Tid) | StopProcess(t: Tid, failed: bool) | Join(t: Tid)
    | CleanHost(t: Tid, failed: bool) | Publish(t: Tid, failed: bool) | Receive(t: Tid) | CallAgain(t: Tid)

  function Move(s: Sys, t: Tid, pc: PC): Sys { s.(pcs := s.pcs[t := pc]) }

  // What one step may lead to.
  ghost predicate Next(s: Sys, a: Action, s': Sys) {
    match a
    case StartReader => !s.closed && s.reader.NotStarted? && s.process.Absent? && s' == s.(reader := Reading)
    case Launch =>
      !s.closed && !s.reader.NotStarted? && s.process.Absent? && s' == s.(process := Alive, watcher := Watching)
    case ProcessExits => s.process.Alive? && s' == s.(process := Exited)
    case Event(record) =>
      // Records come from the DHCP client's hook, through the reader.
      && s.reader.Reading? && !s.process.Absent?
      && (if s.eventsStopped then s' == s else Applies(s.h, s'.h, record) && s' == s.(h := s'.h))
    case ReaderExits => s.reader.Reading? && s' == s.(reader := Gone)
    case WatcherStops => s.watcher.Watching? && s.process.Exited? && s' == s.(eventsStopped := true, watcher := Stopped)
    case WatcherCleans =>
      s.watcher.Stopped? && (exists ok :: Deconfigures(s.h, s'.h, ok)) && s' == s.(h := s'.h, watcher := Done)
    case CallClose(t) =>
      && At(s, t).Outside?
      && s' == (if s.complete then Move(s, t, Returned(None, true))
                else if s.closing then if s.results == [] then s else Move(s, t, Awaiting(|s.results| - 1))
                else Move(s.(closed := true, closing := true, results := s.results + [None]), t,
                          Stopping(|s.results|, !s.closed)))
    case StopEvents(t) =>
      At(s, t).Stopping? && s' == Move(s.(eventsStopped := true), t, Killing(At(s, t).a, At(s, t).first))
    case StopProcess(t, failed) =>
      && At(s, t).Killing?
      && (if At(s, t).first && !s.process.Absent?
          then (s'.process.Exited? || (failed && s'.process == s.process))
               && s' == Move(s.(stops := s.stops + 1, process := s'.process), t, Joining(At(s, t).a, failed))
          else s' == Move(s, t, Joining(At(s, t).a, false)))
    case Join(t) =>
      && At(s, t).Joining? && !s.reader.Reading? && (s.watcher.NoWatcher? || s.watcher.Done?)
      && s' == Move(s, t, Cleaning(At(s, t).a, At(s, t).bad))
    case CleanHost(t, failed) =>
      && At(s, t).Cleaning?
      && (exists ok :: Removes(s.h, s'.h, s.h.owned, ok)
            && s' == Move(s.(h := s'.h), t, Publishing(At(s, t).a, At(s, t).bad || failed || !ok)))
    case Publish(t, failed) =>
      && At(s, t).Publishing? && At(s, t).a < |s.results|
      && var ok := !At(s, t).bad && !failed;
         s' == Move(s.(closing := false, complete := ok, results := s.results[At(s, t).a := Some(ok)]), t,
                    Returned(Some(At(s, t).a), ok))
    case Receive(t) =>
      && At(s, t).Awaiting? && At(s, t).a < |s.results| && s.results[At(s, t).a].Some?
      && s' == Move(s, t, Returned(Some(At(s, t).a), s.results[At(s, t).a].value))
    case CallAgain(t) => At(s, t).Returned? && s' == Move(s, t, Outside)
  }

  function Initial(present: set<Cidr>): Sys {
    Sys(Host(present, {}, {}, None), present, Absent, NotStarted, NoWatcher, false, false, false, false, [], 0, map[])
  }

  // ---- The inductive invariant ----------------------------------------------------------------

  ghost predicate GoroutinesFit(s: Sys) {
    && (s.process.Absent? <==> s.watcher.NoWatcher?)
    && (s.process.Absent? ==> s.h.lease.None? && s.h.owned == {})
    && (s.watcher.Stopped? || s.watcher.Done? ==> s.eventsStopped && s.process.Exited?)
    && (s.watcher.Done? ==> s.h.lease.None?)
  }

  // One attempt at a time, and it is the last one; the process is stopped by the first attempt only.
  ghost predicate AttemptsFit(s: Sys) {
    && (s.closed <==> s.results != [])
    && (s.closing <==> s.results != [] && s.results[|s.results| - 1].None?)
    && (s.complete ==> s.closed && !s.closing && s.results[|s.results| - 1] == Some(true))
    && (forall a | 0 <= a < |s.results| - 1 :: s.results[a] == Some(false))
    && (!s.closing && !s.complete && s.closed ==> s.results[|s.results| - 1] == Some(false))
    && s.stops <= 1 && (s.stops == 1 ==> s.closed)
  }

  ghost predicate CallersFit(s: Sys) {
    && (forall t: Tid :: CallerFits(s, At(s, t)))
    && (forall t: Tid, u: Tid :: Working(At(s, t)) && Working(At(s, u)) ==> t == u)
  }

  predicate CallerFits(s: Sys, pc: PC) {
    && (Working(pc) ==> s.closing && pc.a == |s.results| - 1)
    && (pc.Awaiting? ==> pc.a < |s.results|)
    && (pc.Stopping? || pc.Killing? ==> (pc.first <==> pc.a == 0) && (pc.first ==> s.stops == 0))
    && (pc.Killing? || pc.Joining? || pc.Cleaning? || pc.Publishing? ==> s.eventsStopped)
    && (pc.Cleaning? || pc.Publishing? ==> !s.reader.Reading? && (s.watcher.NoWatcher? || s.watcher.Done?))
    && (pc.Publishing? && !pc.bad ==> s.h.owned == {})
    && (pc.Returned? ==> match pc.of
                         case None => pc.ok && s.complete
                         case Some(a) => a < |s.results| && s.results[a] == Some(pc.ok))
  }

  ghost predicate Inv(s: Sys) {
    && Accounted(s.h, s.foreign)
    && GoroutinesFit(s) && AttemptsFit(s) && CallersFit(s)
    && (s.complete ==> Settled(s))
  }

  // Nothing of the session is left, and nothing of it can come back.
  predicate Settled(s: Sys) {
    && s.h.owned == {} && s.h.lease.None? && s.eventsStopped
    && !s.reader.Reading? && (s.watcher.NoWatcher? || s.watcher.Done?)
  }

  lemma InitialHolds(present: set<Cidr>)
    ensures Inv(Initial(present))
  {}

  // A caller's move keeps what is known of the others, when the shared state serves them all.
  lemma CallersKept(s: Sys, s': Sys, t: Tid, pc: PC)
    requires CallersFit(s) && s'.pcs == s.pcs[t := pc] && CallerFits(s', pc)
    requires forall u: Tid | u != t :: CallerFits(s', At(s, u))
    requires Working(pc) ==> forall u: Tid | u != t :: !Working(At(s, u))
    ensures CallersFit(s')
  {
    forall u: Tid | u != t ensures At(s', u) == At(s, u) {}
    assert At(s', t) == pc;
    forall u: Tid ensures CallerFits(s', At(s', u)) {
      if u != t { assert CallerFits(s', At(s, u)); }
    }
  }

  lemma SharedKept(s: Sys, s': Sys)
    requires CallersFit(s) && s'.pcs == s.pcs && forall u: Tid :: CallerFits(s', At(s, u))
    ensures CallersFit(s')
  {
    forall u: Tid ensures At(s', u) == At(s, u) {}
    forall u: Tid ensures CallerFits(s', At(s', u)) { assert CallerFits(s', At(s, u)); }
  }

  lemma GoroutineStepKeeps(s: Sys, a: Action, s': Sys)
    requires Inv(s) && Next(s, a, s')
    requires a.StartReader? || a.Launch? || a.ProcessExits? || a.ReaderExits? || a.WatcherStops?
    ensures Inv(s')
  {
    forall u: Tid ensures CallerFits(s', At(s, u)) { assert CallerFits(s, At(s, u)); }
    SharedKept(s, s');
  }

  lemma HostStepKeeps(s: Sys, a: Action, s': Sys)
    requires Inv(s) && Next(s, a, s') && (a.Event? || a.WatcherCleans?)
    ensures Inv(s')
  {
    forall u: Tid ensures CallerFits(s', At(s, u)) { assert CallerFits(s, At(s, u)); }
    SharedKept(s, s');
    if a.WatcherCleans? {
      assert Applies(s.h, s'.h, Deconfig);
      AppliesAccounted(s.h, s'.h, Deconfig, s.foreign);
    } else if !s.eventsStopped {
      AppliesAccounted(s.h, s'.h, a.record, s.foreign);
    }
  }

  lemma OthersIdle(s: Sys, t: Tid)
    requires CallersFit(s)
    ensures Working(At(s, t)) ==> forall u: Tid | u != t :: !Working(At(s, u))
    ensures !s.closing ==> forall u: Tid :: !Working(At(s, u))
  {
    if !s.closing {
      forall u: Tid ensures !Working(At(s, u)) { assert CallerFits(s, At(s, u)); }
    }
  }

  lemma EnterKeeps(s: Sys, a: Action, s': Sys)
    requires Inv(s) && Next(s, a, s') && a.CallClose?
    ensures Inv(s')
  {
    hide Accounted, Removes;
    var t := a.t;
    assert CallerFits(s, At(s, t));
    OthersIdle(s, t);
    forall u: Tid | u != t ensures CallerFits(s', At(s, u)) { assert CallerFits(s, At(s, u)); }
    if s'.pcs != s.pcs { CallersKept(s, s', t, At(s', t)); }
  }

  lemma StopKeeps(s: Sys, a: Action, s': Sys)
    requires Inv(s) && Next(s, a, s') && (a.StopEvents? || a.StopProcess?)
    ensures Inv(s')
  {
    hide Accounted, Removes;
    var t := a.t;
    assert CallerFits(s, At(s, t));
    OthersIdle(s, t);
    forall u: Tid | u != t ensures CallerFits(s', At(s, u)) { assert CallerFits(s, At(s, u)); }
    if s'.pcs != s.pcs { CallersKept(s, s', t, At(s', t)); }
  }

  lemma WaitKeeps(s: Sys, a: Action, s': Sys)
    requires Inv(s) && Next(s, a, s') && (a.Join? || a.Receive? || a.CallAgain?)
    ensures Inv(s')
  {
    hide Accounted, Removes;
    var t := a.t;
    assert CallerFits(s, At(s, t));
    OthersIdle(s, t);
    forall u: Tid | u != t ensures CallerFits(s', At(s, u)) { assert CallerFits(s, At(s, u)); }
    if s'.pcs != s.pcs { CallersKept(s, s', t, At(s', t)); }
  }

  lemma PublishKeeps(s: Sys, a: Action, s': Sys)
    requires Inv(s) && Next(s, a, s') && a.Publish?
    ensures Inv(s')
  {
    hide Accounted, Removes;
    var t := a.t;
    assert CallerFits(s, At(s, t));
    OthersIdle(s, t);
    forall u: Tid | u != t ensures CallerFits(s', At(s, u)) { assert CallerFits(s, At(s, u)); }
    if s'.pcs != s.pcs { CallersKept(s, s', t, At(s', t)); }
  }

  lemma CleanKeeps(s: Sys, a: Action, s': Sys)
    requires Inv(s) && Next(s, a, s') && a.CleanHost?
    ensures Inv(s')
  {
    var t := a.t;
    assert CallerFits(s, At(s, t));
    OthersIdle(s, t);
    var ok :| Removes(s.h, s'.h, s.h.owned, ok)
              && s' == Move(s.(h := s'.h), t, Publishing(At(s, t).a, At(s, t).bad || a.failed || !ok));
    RemovesAccounted(s.h, s'.h, s.h.owned, ok, s.foreign);
    forall u: Tid | u != t ensures CallerFits(s', At(s, u)) { assert CallerFits(s, At(s, u)); }
    CallersKept(s, s', t, At(s', t));
  }

  lemma NextKeeps(s: Sys, a: Action, s': Sys)
    requires Inv(s) && Next(s, a, s')
    ensures Inv(s')
  {
    hide Inv, Next;
    if a.StartReader? || a.Launch? || a.ProcessExits? || a.ReaderExits? || a.WatcherStops? {
      GoroutineStepKeeps(s, a, s');
    }
    else if a.Event? || a.WatcherCleans? { HostStepKeeps(s, a, s'); }
    else if a.CallClose? { EnterKeeps(s, a, s'); }
    else if a.StopEvents? || a.StopProcess? { StopKeeps(s, a, s'); }
    else if a.Join? || a.Receive? || a.CallAgain? { WaitKeeps(s, a, s'); }
    else if a.CleanHost? { CleanKeeps(s, a, s'); }
    else { PublishKeeps(s, a, s'); }
  }

  // ---- Whole runs ---------------------------------------------------------------------------

  ghost predicate IsRun(states: seq<Sys>, actions: seq<Action>) {
    && |states| == |actions| + 1
    && states[0] == Initial(states[0].foreign)
    && forall i | 0 <= i < |actions| :: Next(states[i], actions[i], states[i + 1])
  }

  lemma {:induction false} RunKeeps(states: seq<Sys>, actions: seq<Action>, i: nat)
    requires IsRun(states, actions) && i < |states|
    ensures Inv(states[i])
  {
    hide Inv, Next;
    if i == 0 {
      InitialHolds(states[0].foreign);
    } else {
      RunKeeps(states, actions, i - 1);
      NextKeeps(states[i - 1], actions[i - 1], states[i]);
    }
  }

  // Whenever a lease is reported, the session owns exactly that address, and it is on the interface;
  // whatever the session installed and is still there is owned; and every foreign address that shares no
  // subnet with one of the session's is still there.
  lemma LeaseDescribesHost(states: seq<Sys>, actions: seq<Action>, i: nat)
    requires IsRun(states, actions) && i < |states|
    ensures var h := states[i].h;
      && (h.lease.Some? ==> h.owned == {h.lease.value} && h.lease.value in h.addresses)
      && h.addresses * h.attempted <= h.owned
      && Bystanders(states[i].foreign, h.attempted) <= h.addresses
  {
    RunKeeps(states, actions, i);
  }

  // A Close that returned nil left nothing: no attempted address is on the interface, no lease is
  // reported, and what is left are foreign addresses, among them all that share no subnet with the session.
  lemma CloseNilLeavesNothing(states: seq<Sys>, actions: seq<Action>, i: nat, t: Tid)
    requires IsRun(states, actions) && i < |states| && At(states[i], t).Returned? && At(states[i], t).ok
    ensures states[i].complete && Settled(states[i])
    ensures states[i].h.addresses !! states[i].h.attempted
    ensures var foreign, attempted := states[i].foreign, states[i].h.attempted;
      && Bystanders(foreign, attempted) <= states[i].h.addresses <= foreign - attempted
      && (Bystanders(foreign, attempted) == foreign - attempted ==> states[i].h.addresses == foreign - attempted)
  {
    RunKeeps(states, actions, i);
    assert CallerFits(states[i], At(states[i], t));
    var h, foreign := states[i].h, states[i].foreign;
    forall c | c in h.addresses ensures c !in h.attempted && c in foreign - h.attempted {
      assert c in h.attempted ==> c in h.addresses * h.attempted;
    }
  }

  // At most one attempt is at work, DHCP is told to stop at most once, and callers that shared an
  // attempt all hold its one result.
  lemma AttemptsAreShared(states: seq<Sys>, actions: seq<Action>, i: nat, t: Tid, u: Tid)
    requires IsRun(states, actions) && i < |states|
    ensures states[i].stops <= 1
    ensures Working(At(states[i], t)) && Working(At(states[i], u)) ==> t == u
    ensures At(states[i], t).Returned? && At(states[i], u).Returned? && At(states[i], t).of == At(states[i], u).of
            ==> At(states[i], t).ok == At(states[i], u).ok
  {
    RunKeeps(states, actions, i);
    assert CallerFits(states[i], At(states[i], t)) && CallerFits(states[i], At(states[i], u));
  }

  // A failed attempt can be tried again, without another stop of the process.
  lemma FailedAttemptCanBeRetried(s: Sys, t: Tid)
    requires Inv(s) && s.closed && !s.closing && !s.complete && At(s, t).Outside?
    ensures exists s' :: Next(s, CallClose(t), s') && At(s', t) == Stopping(|s.results|, false)
  {
    var s' := Move(s.(closed := true, closing := true, results := s.results + [None]), t, Stopping(|s.results|, false));
    assert Next(s, CallClose(t), s') && At(s', t) == Stopping(|s.results|, false);
  }

  // No step takes an address beyond the reach of deleting the session's own.
  lemma DeletesOnlyOwned(s: Sys, a: Action, s': Sys)
    requires Inv(s) && Next(s, a, s')
    ensures s.h.addresses - s'.h.addresses <= Reach(s.h.addresses, s.h.owned)
  {
    if a.Event? && !s.eventsStopped && a.record.BoundTo? {
      var c := a.record.c;
      var mid: Host, removed: bool :| Removes(s.h, mid, s.h.owned - {c}, removed)
        && (s'.h.addresses == mid.addresses || s'.h.addresses == mid.addresses + {c});
      assert s.h.addresses - s'.h.addresses <= s.h.addresses - mid.addresses;
    }
  }

  // What never comes back between an earlier and a later state.
  predicate ForGood(s: Sys, s': Sys) {
    && (s.eventsStopped ==> s'.eventsStopped)
    && (s.watcher.Done? ==> s'.watcher.Done?)
    && (s.complete ==> s'.complete && s'.h == s.h && s'.results == s.results && s'.stops == s.stops)
  }

  // Once the events are stopped no record changes anything, a dropped lease stays dropped, and the
  // end of the watcher, and of a successful Close, is for good.
  lemma StepsAreIrrevocable(s: Sys, a: Action, s': Sys)
    requires Inv(s) && Next(s, a, s')
    ensures ForGood(s, s')
    ensures s.eventsStopped && a.Event? ==> s' == s
    ensures s.eventsStopped && s.h.lease.None? ==> s'.h.lease.None?
  {
    if s.complete && (a.StopEvents? || a.StopProcess? || a.Join? || a.CleanHost? || a.Publish?) {
      assert CallerFits(s, At(s, a.t));
    }
  }

  lemma DoneDropsLease(states: seq<Sys>, actions: seq<Action>, j: nat)
    requires IsRun(states, actions) && j < |states|
    ensures states[j].watcher.Done? ==> states[j].h.lease.None?
  {
    hide Next;
    RunKeeps(states, actions, j);
  }

  // After the exit cleanup the lease stays nil forever, and after a successful Close the host, the
  // attempts and the process are never touched again, whoever calls Close and whatever is delivered.
  lemma {:induction false} EndsAreForGood(states: seq<Sys>, actions: seq<Action>, i: nat, j: nat)
    requires IsRun(states, actions) && i <= j < |states|
    ensures ForGood(states[i], states[j])
    ensures states[i].watcher.Done? ==> states[j].h.lease.None?
    decreases j - i
  {
    DoneDropsLease(states, actions, j);
    if i < j {
      EndsAreForGood(states, actions, i, j - 1);
      RunKeeps(states, actions, j - 1);
      hide Inv, Next;
      StepsAreIrrevocable(states[j - 1], actions[j - 1], states[j]);
    }
  }

  // ---- A Close that nothing stands against -----------------------------------------------------------

  function Called(s: Sys, t: Tid): Sys {
    Move(s.(closed := true, closing := true, results := s.results + [None]), t, Stopping(|s.results|, !s.closed))
  }

  // The host after everything of the session was removed.
  function Cleared(h: Host): Host { h.(addresses := h.addresses - Reach(h.addresses, h.owned), owned := {}) }

  lemma ClearedIsRemoval(h: Host)
    ensures Removes(h, Cleared(h), h.owned, true)
    ensures Deconfigures(h, Cleared(h).(lease := None), true)
  {
    assert forall a | a in h.owned && a in h.addresses :: SameSubnet(a, a) && a in Reach(h.addresses, h.owned);
  }

  ghost predicate Three(s: Sys, a: Action, s1: Sys, b: Action, s2: Sys, c: Action, s3: Sys) {
    Next(s, a, s1) && Next(s1, b, s2) && Next(s2, c, s3)
  }

  lemma MovedAt(s: Sys, t: Tid, pc: PC)
    ensures At(Move(s, t, pc), t) == pc
  {}

  // The call takes the attempt, stops the events and the process.
  lemma CallsAndStops(s: Sys, t: Tid) returns (s1: Sys, s2: Sys, s3: Sys)
    requires !s.closed && !s.closing && !s.complete && s.results == [] && At(s, t).Outside? && s.process.Alive?
    ensures Three(s, CallClose(t), s1, StopEvents(t), s2, StopProcess(t, false), s3)
    ensures At(s3, t) == Joining(0, false) && s3.results == [None] && s3.stops == s.stops + 1
    ensures s3.eventsStopped && s3.process.Exited? && s3.closed
    ensures s3.reader == s.reader && s3.watcher == s.watcher && s3.h == s.h
  {
    s1 := Called(s, t);
    s2 := Move(s1.(eventsStopped := true), t, Killing(0, true));
    s3 := Move(s2.(stops := s2.stops + 1, process := Exited), t, Joining(0, false));
    MovedAt(s.(closed := true, closing := true, results := s.results + [None]), t, Stopping(0, true));
    MovedAt(s1.(eventsStopped := true), t, Killing(0, true));
    MovedAt(s2.(stops := s2.stops + 1, process := Exited), t, Joining(0, false));
    assert Next(s, CallClose(t), s1);
    assert Next(s1, StopEvents(t), s2);
    assert Next(s2, StopProcess(t, false), s3);
  }

  // The goroutines end.
  lemma GoroutinesEnd(s: Sys) returns (s1: Sys, s2: Sys, s3: Sys)
    requires s.reader.Reading? && s.watcher.Watching? && s.process.Exited? && s.eventsStopped
    ensures Three(s, ReaderExits, s1, WatcherStops, s2, WatcherCleans, s3)
    ensures s3 == s.(reader := Gone, watcher := Done, h := Cleared(s.h).(lease := None))
  {
    s1 := s.(reader := Gone);
    s2 := s1.(eventsStopped := true, watcher := Stopped);
    s3 := s2.(h := Cleared(s2.h).(lease := None), watcher := Done);
    ClearedIsRemoval(s2.h);
    hide Reach, Removes, Deconfigures;
    assert Next(s, ReaderExits, s1);
    assert Next(s1, WatcherStops, s2);
    assert Next(s2, WatcherCleans, s3);
  }

  // The host is cleared once more, and the result published.
  lemma ClearsAndPublishes(s: Sys, t: Tid) returns (s1: Sys, s2: Sys, s3: Sys)
    requires At(s, t) == Joining(0, false) && s.reader.Gone? && s.watcher.Done? && s.results == [None]
    requires s.eventsStopped && s.h.lease.None?
    ensures Three(s, Join(t), s1, CleanHost(t, false), s2, Publish(t, false), s3)
    ensures At(s3, t) == Returned(Some(0), true) && s3.complete && Settled(s3)
    ensures s3.stops == s.stops && s3.results == [Some(true)]
  {
    s1 := Move(s, t, Cleaning(0, false));
    s2 := Move(s1.(h := Cleared(s1.h)), t, Publishing(0, false));
    s3 := Move(s2.(closing := false, complete := true, results := [Some(true)]), t, Returned(Some(0), true));
    ClearedIsRemoval(s1.h);
    hide Reach, Removes;
    MovedAt(s, t, Cleaning(0, false));
    MovedAt(s1.(h := Cleared(s1.h)), t, Publishing(0, false));
    MovedAt(s2.(closing := false, complete := true, results := [Some(true)]), t, Returned(Some(0), true));
    assert Next(s, Join(t), s1);
    assert Next(s1, CleanHost(t, false), s2);
    assert Next(s2, Publish(t, false), s3);
  }

  /**
   A first Close of a running session, with every command and the process obeying: each step is enabled, in this
   order, and the call returns nil with nothing of the session left.
   */
  lemma CloseCanSucceed(s: Sys, t: Tid) returns (states: seq<Sys>, actions: seq<Action>)
    requires !s.closed && !s.closing && !s.complete && s.results == [] && At(s, t).Outside?
    requires s.process.Alive? && s.watcher.Watching? && s.reader.Reading?
    ensures |states| == 10 && |actions| == 9 && states[0] == s
    ensures forall i | 0 <= i < 9 :: Next(states[i], actions[i], states[i + 1])
    ensures At(states[9], t) == Returned(Some(0), true) && states[9].complete && Settled(states[9])
    ensures states[9].stops == s.stops + 1 && states[9].results == [Some(true)]
  {
    hide Next, Settled, Reach;
    var s1, s2, s3 := CallsAndStops(s, t);
    var s4, s5, s6 := GoroutinesEnd(s3);
    var s7, s8, s9 := ClearsAndPublishes(s6, t);
    states := [s, s1, s2, s3, s4, s5, s6, s7, s8, s9];
    actions := [CallClose(t), StopEvents(t), StopProcess(t, false), ReaderExits, WatcherStops, WatcherCleans,
                Join(t), CleanHost(t, false), Publish(t, false)];
  }

  /** A new session gets from its start to a reported lease, and then meets all that CloseCanSucceed asks for. */
  lemma SessionCanReport(present: set<Cidr>, c: Cidr) returns (s1: Sys, s2: Sys, s3: Sys)
    ensures Three(Initial(present), StartReader, s1, Launch, s2, Event(BoundTo(c)), s3)
    ensures s3.h == Host(present + {c}, {c}, {c}, Some(c)) && s3.foreign == present
    ensures s3.process.Alive? && s3.watcher.Watching? && s3.reader.Reading?
    ensures !s3.closed && !s3.closing && !s3.complete && s3.results == [] && s3.stops == 0 && s3.pcs == map[]
  {
    var s := Initial(present);
    s1 := s.(reader := Reading);
    s2 := s1.(process := Alive, watcher := Watching);
    BoundCanBeReported(s2.h, c);
    assert present - Reach(present, {}) + {c} == present + {c};
    s3 := s2.(h := Host(present + {c}, {c}, {c}, Some(c)));
    hide Applies, Reach;
    assert Next(s2, Event(BoundTo(c)), s3);
  }
}
