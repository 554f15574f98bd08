/**
 Who owns a device's host interface: the QMI backend with a WDS session, or the AT backend with a DHCP
 session. Every external command may fail at every call. The effects of a run are recorded in order,
 and a discipline over them says who owns what and which transfers are allowed.
 */
module DataPath {
  import opened Results

  type SessionId = nat

  // The operations: the AT backend's enable and disable, the QMI backend's, and the teardown before a reset.
  datatype Call = AtCall | QmiCall | ResetCall

  datatype Effect =
    | Entered(call: Call) | Left
    | DhcpStarted(id: SessionId) | DhcpCleaned | DhcpCleanupFailed
    | WdsStarted(id: SessionId)
    | WdsStopped | WdsStopFailed
    | HostCleared | HostClearFailed | HostUnknown    // removing the QMI host path
    | WdsHandedOver                                  // released for the AT backend
    | WdsClosed                                      // closed by the QMI backend itself, or by a reset

  // The owners, how far a handover has come, and the current or latest call: the QMI owner it found,
  // whether removing that path or stopping a WDS session failed in it, and whether it can only return.
  datatype Owners = Owners(
    qmi: Option<SessionId>, at: Option<SessionId>, hostGone: bool, stopped: bool,
    inCall: bool, call: Call, found: Option<SessionId>, failed: bool, halted: bool)

  const NOBODY := Owners(None, None, false, false, false, AtCall, None, false, false)

  predicate Fails(e: Effect) { e == HostClearFailed || e == WdsStopFailed }

  function Follow(o: Owners, e: Effect): Option<Owners> {
    if e.Entered? then
      if o.inCall then None
      else Some(Owners(o.qmi, o.at, false, false, true, e.call, o.qmi, false, false))
    else if !o.inCall then None
    else if e == Left then
      if o.call != AtCall && o.failed && o.qmi.Some? then None else Some(o.(inCall := false))
    else if o.halted then None
    else Work(o, e)
  }

  // An effect within a call. After a failure the AT backend only returns; the QMI backend starts nothing.
  function Work(o: Owners, e: Effect): Option<Owners>
    requires !e.Entered? && e != Left
  {
    match e
    case DhcpStarted(id) => if o.call == AtCall && o.qmi.None? && o.at.None? then Some(o.(at := Some(id))) else None
    case DhcpCleaned => if o.at.Some? then Some(o.(at := None)) else None
    case DhcpCleanupFailed => if o.at.Some? then Some(o.(halted := true)) else None
    case WdsStarted(id) =>
      if o.call == QmiCall && o.qmi.None? && o.at.None? && !o.failed
      then Some(o.(qmi := Some(id), hostGone := false, stopped := false)) else None
    case HostCleared => if MayClear(o) then Some(o.(hostGone := true, stopped := false)) else None
    case HostUnknown => if MayClear(o) then Some(o.(hostGone := true, stopped := false)) else None
    case HostClearFailed =>
      if MayClear(o) then Some(o.(hostGone := false, failed := true, halted := o.call == AtCall)) else None
    case WdsStopped => if o.qmi.Some? then Some(o.(stopped := true)) else None
    case WdsStopFailed =>
      if o.qmi.Some? then Some(o.(stopped := false, failed := true, halted := o.call == AtCall)) else None
    case WdsHandedOver =>
      if o.call == AtCall && o.qmi.Some? && o.hostGone && o.stopped then Some(o.(qmi := None)) else None
    case WdsClosed => if o.call != AtCall && o.qmi.Some? then Some(o.(qmi := None)) else None
  }

  // The QMI backend also clears a host path whose session is already closed or was never its own.
  predicate MayClear(o: Owners) { o.qmi.Some? || o.call == QmiCall }

  function OwnersAfter(log: seq<Effect>): Option<Owners> {
    if log == [] then Some(NOBODY)
    else
      match OwnersAfter(log[..|log| - 1])
      case None => None
      case Some(o) => Follow(o, log[|log| - 1])
  }

  // What the host, the modem and the network answer during one call.
  datatype World = World(
    dhcpCleaned: bool, undone: bool,                             // cleanup of the AT session found, of a failed one
    found: bool, routes: bool, addresses: bool, link: bool,      // removing the QMI host path for a takeover
    stopped: bool, closed: bool,                                 // WDS Stop and Close
    deactivated: bool, activated: bool, started: bool, kept: bool,
    registered: bool, ipKnown: bool, pathKnown: bool, formatted: bool, connected: bool, dialled: bool,
    configured: bool, cleared: bool, reclaimed: bool)

  // The AT backend has taken the QMI owner over, if there was one.
  predicate TakesOver(w: World, owner: Option<SessionId>, interfaceKnown: bool) {
    owner.Some? ==>
      (interfaceKnown ==> w.found && w.routes && w.addresses && w.link) && w.stopped && w.closed
  }

  class Device {
    var qmi: Option<SessionId>
    var at: Option<SessionId>
    var backend: string
    var nextId: SessionId
    var log: seq<Effect>

    constructor ()
      ensures Valid() && qmi.None? && at.None? && log == [] && !Now().inCall
    {
      qmi, at, backend, nextId, log := None, None, "", 0, [];
    }

    ghost predicate Valid()
      reads this
    {
      && OwnersAfter(log).Some?
      && OwnersAfter(log).value.qmi == qmi && OwnersAfter(log).value.at == at
      && (qmi.Some? ==> qmi.value < nextId) && (at.Some? ==> at.value < nextId)
    }

    ghost function Now(): Owners
      requires Valid()
      reads this
    {
      OwnersAfter(log).value
    }

    method Emit(e: Effect)
      requires OwnersAfter(log).Some? && Follow(OwnersAfter(log).value, e).Some?
      modifies this`log
      ensures log == old(log) + [e] && OwnersAfter(log) == Follow(OwnersAfter(old(log)).value, e)
    {
      assert (log + [e])[..|log|] == log;
      log := log + [e];
    }

    // Inside a call that may still do something.
    ghost predicate Working(call: Call)
      requires Valid()
      reads this
    {
      Now().inCall && Now().call == call && !Now().halted
    }

    // Inside a call that has done what it could; a failure of the QMI backend has cost it its session.
    ghost predicate Returning(call: Call, found: Option<SessionId>)
      requires Valid()
      reads this
    {
      && Now().inCall && Now().call == call && Now().found == found
      && (call != AtCall && Now().failed ==> qmi.None?)
    }

    // closeATHostSessionLocked: the session stays owned until its cleanup has succeeded.
    method CloseATHost(ghost call: Call, cleaned: bool) returns (ok: bool)
      requires Valid() && Working(call)
      modifies this`at, this`log
      ensures Valid() && old(log) <= log
      ensures ok <==> at.None?
      ensures ok <==> old(at).None? || cleaned
      ensures !ok ==> at == old(at)
      ensures Now() == old(Now()).(at := at, halted := !ok)
    {
      if at.None? { return true; }
      ok := cleaned;
      if !ok {
        Emit(DhcpCleanupFailed);
        return;
      }
      Emit(DhcpCleaned);
      at := None;
    }

    // stopOwnedQMIDataSessionLocked: host path first, then WDS Stop; either failing keeps the owner.
    method StopOwnedQMI(interfaceKnown: bool, w: World) returns (ok: bool)
      requires Valid() && Working(AtCall) && Now().found == qmi && !Now().failed
      modifies this`qmi, this`log
      ensures Valid() && old(log) <= log
      ensures qmi == old(qmi) || qmi.None?
      ensures ok ==> qmi.None?
      ensures Returning(AtCall, old(qmi)) && Now().at == old(Now()).at
      ensures Now().halted <==> Now().failed
      ensures old(qmi).Some? ==> (qmi.Some? <==> Now().failed)
      ensures old(qmi).Some? && qmi.None? ==> Now().hostGone && Now().stopped
      ensures old(qmi).None? ==> ok && log == old(log)
      ensures ok <==> TakesOver(w, old(qmi), interfaceKnown)
    {
      hide OwnersAfter;
      if qmi.None? { return true; }
      if interfaceKnown {
        if !w.found || !w.routes || !w.addresses || !w.link {
          Emit(HostClearFailed);
          return false;
        }
        Emit(HostCleared);
      } else {
        Emit(HostUnknown);
      }
      if !w.stopped {
        Emit(WdsStopFailed);
        return false;
      }
      Emit(WdsStopped);
      // Close is terminal even when it reports an error.
      Emit(WdsHandedOver);
      qmi := None;
      ok := w.closed;
    }

    // setATNetwork, disabling: the host path is removed before the modem is asked to deactivate.
    method DisableAT(interfaceKnown: bool, w: World) returns (ok: bool)
      requires Valid() && Working(AtCall) && Now().found == qmi && !Now().failed
      modifies this`qmi, this`at, this`log
      ensures Valid() && old(log) <= log
      ensures Returning(AtCall, old(qmi))
      ensures at == old(at) || at.None?
      ensures qmi == old(qmi) || qmi.None?
      ensures at.Some? ==> !ok && qmi == old(qmi)
      ensures qmi.Some? ==> !ok
      ensures ok <==>
              (old(at).None? || w.dhcpCleaned) && TakesOver(w, old(qmi), interfaceKnown) && w.deactivated
    {
      ok := CloseATHost(AtCall, w.dhcpCleaned);
      if !ok { return; }
      ok := StopOwnedQMI(interfaceKnown, w);
      if !ok { return; }
      ok := w.deactivated;
    }

    // setATNetwork, enabling.
    method EnableAT(interfaceKnown: bool, linkKnown: bool, w: World) returns (ok: bool)
      requires Valid() && Working(AtCall) && Now().found == qmi && !Now().failed
      modifies this`qmi, this`at, this`nextId, this`log
      ensures Valid() && old(log) <= log
      ensures Returning(AtCall, old(qmi))
      ensures ok ==> at == Some(old(nextId)) && qmi.None?
      // A failure keeps an old owner whose cleanup failed, or a new one that could not be undone.
      ensures !ok ==> at.None? || at == old(at) || (at == Some(old(nextId)) && qmi.None?)
      ensures qmi.Some? ==> !ok && qmi == old(qmi)
      ensures ok <==>
              && interfaceKnown && linkKnown && (old(at).None? || w.dhcpCleaned)
              && TakesOver(w, old(qmi), interfaceKnown) && w.activated && w.started
    {
      if !interfaceKnown || !linkKnown { return false; }
      ok := CloseATHost(AtCall, w.dhcpCleaned);
      if !ok { return; }
      ok := StopOwnedQMI(interfaceKnown, w);
      if !ok { return; }
      // The PDP commands, up to the activation.
      if !w.activated { return false; }
      if !w.started && !w.kept {
        // The PDP rollback does not change the outcome.
        return false;
      }
      Emit(DhcpStarted(nextId));
      at := Some(nextId);
      nextId := nextId + 1;
      if !w.started {
        var cleaned := CloseATHost(AtCall, w.undone);
        return false;
      }
      return true;
    }

    // closeQMIDataSession.
    method CloseQMI(ghost call: Call)
      requires Valid() && Working(call) && call != AtCall
      modifies this`qmi, this`log
      ensures Valid() && qmi.None?
      ensures log == old(log) + if old(qmi).Some? then [WdsClosed] else []
      ensures Now() == old(Now()).(qmi := None)
    {
      if qmi.Some? { Emit(WdsClosed); }
      qmi := None;
    }

    // rollbackQMIDataHost: best effort; the session is closed whatever fails, and its path cleared after that.
    method RollbackQMI(stopped: bool, cleared: bool)
      requires Valid() && Working(QmiCall) && qmi.Some?
      modifies this`qmi, this`log
      ensures Valid() && qmi.None? && Working(QmiCall)
      ensures log == old(log) + [if stopped then WdsStopped else WdsStopFailed, WdsClosed,
                                 if cleared then HostCleared else HostClearFailed]
      ensures Now().found == old(Now()).found && Now().at == old(Now()).at
      ensures Now().failed == (old(Now()).failed || !stopped || !cleared)
    {
      hide OwnersAfter;
      Emit(if stopped then WdsStopped else WdsStopFailed);
      CloseQMI(QmiCall);
      Emit(if cleared then HostCleared else HostClearFailed);
    }

    // configureQMIDataHost: a failing step rolls the session back.
    method ConfigureQMIHost(w: World) returns (ok: bool)
      requires Valid() && Working(QmiCall) && qmi.Some? && !Now().failed
      modifies this`qmi, this`log
      ensures Valid() && old(log) <= log
      ensures Returning(QmiCall, old(Now()).found) && Now().at == old(Now()).at
      ensures qmi == if ok then old(qmi) else None
      ensures Now().failed ==> !ok
      ensures ok <==> w.configured
    {
      ok := w.configured;
      if !ok { RollbackQMI(w.stopped, w.cleared); }
    }

    // setQMINetwork, disabling: the path is cleared as far as it goes, and the owner is given up even when
    // the Stop fails. Only the Stop decides the result. `reclaimed` is the answer without a session of ours.
    method DisableQMI(ipKnown: bool, cleared: bool, stopped: bool, reclaimed: bool) returns (ok: bool)
      requires Valid() && Working(QmiCall) && at.None? && Now().found == qmi && !Now().failed
      modifies this`qmi, this`log
      ensures Valid() && Returning(QmiCall, old(qmi)) && Now().at == old(Now()).at
      ensures !ipKnown ==> !ok && qmi == old(qmi) && log == old(log)
      ensures ipKnown ==> qmi.None? && ok == (if old(qmi).Some? then stopped else reclaimed)
      ensures ipKnown ==>
                log == old(log) + ([if cleared then HostCleared else HostClearFailed]
                + (if old(qmi).Some? then [if stopped then WdsStopped else WdsStopFailed, WdsClosed] else []))
    {
      if !ipKnown { return false; }
      Emit(if cleared then HostCleared else HostClearFailed);
      if qmi.Some? {
        Emit(if stopped then WdsStopped else WdsStopFailed);
        CloseQMI(QmiCall);
        return stopped;
      }
      return reclaimed;
    }

    // setQMINetwork, enabling: a live session is reused, and otherwise replaced.
    method EnableQMI(w: World) returns (ok: bool)
      requires Valid() && Working(QmiCall) && at.None? && Now().found == qmi && !Now().failed
      modifies this`qmi, this`nextId, this`log
      ensures Valid() && old(log) <= log
      ensures Returning(QmiCall, old(qmi)) && Now().at == old(Now()).at
      ensures ok ==> qmi.Some? && (qmi == old(qmi) || qmi == Some(old(nextId)))
      ensures !ok ==> qmi.None? || (qmi == old(qmi) && log == old(log))
      // A failed Stop or host cleanup of a rollback keeps no owner.
      ensures Now().failed ==> !ok && qmi.None?
      // A live session that is connected is configured again; any other is replaced by one that is dialled.
      ensures ok <==>
              && w.ipKnown && w.configured
              && (if old(qmi).Some? then w.pathKnown && w.formatted && (w.connected || w.dialled) else w.dialled)
      ensures ok ==> (qmi == old(qmi) <==> old(qmi).Some? && w.connected)
    {
      if !w.ipKnown { return false; }
      if qmi.Some? {
        if !w.pathKnown { return false; }
        if !w.formatted {
          RollbackQMI(w.stopped, w.cleared);
          return false;
        }
        if w.connected {
          ok := ConfigureQMIHost(w);
          return;
        }
        CloseQMI(QmiCall);
      }
      // Opening, reclaiming stale calls, the data format and the start; a failure closes what was opened.
      if !w.dialled { return false; }
      Emit(WdsStarted(nextId));
      qmi := Some(nextId);
      nextId := nextId + 1;
      ok := ConfigureQMIHost(w);
    }

    // SetNetwork: the QMI backend closes the AT session before anything else of its own.
    method SetNetwork(useQMI: bool, enabled: bool, interfaceKnown: bool, linkKnown: bool, w: World) returns (ok: bool)
      requires Valid() && !Now().inCall
      modifies this
      ensures Valid() && old(log) <= log && !Now().inCall
      ensures ok ==> if enabled then (if useQMI then qmi.Some? && at.None? else at.Some? && qmi.None?)
                     else qmi.None? && at.None?
      // An AT session whose cleanup failed stops the QMI backend short of everything else.
      ensures useQMI && at.Some? ==> !ok && at == old(at) && qmi == old(qmi)
      ensures !useQMI && qmi.Some? ==> !ok && qmi == old(qmi)
      // After a failed Stop or host cleanup the QMI owner is kept by the AT backend, and only by it.
      ensures Now().found == old(qmi) && Now().call == if useQMI then QmiCall else AtCall
      ensures old(qmi).Some? && Now().failed ==> (qmi == old(qmi) <==> !useQMI)
      ensures backend == if useQMI then "qmi" else "at"
      // Exactly these answers make a call succeed.
      ensures ok <==>
              && (old(at).None? || w.dhcpCleaned)
              && (if !useQMI then
                    && TakesOver(w, old(qmi), interfaceKnown)
                    && (if enabled then interfaceKnown && linkKnown && w.activated && w.started else w.deactivated)
                  else if enabled then
                    && w.registered && w.ipKnown && w.configured
                    && (if old(qmi).Some? then w.pathKnown && w.formatted && (w.connected || w.dialled)
                        else w.dialled)
                  else w.ipKnown && if old(qmi).Some? then w.stopped else w.reclaimed)
    {
      hide OwnersAfter, TakesOver, KeptOrDropped;
      backend := if useQMI then "qmi" else "at";
      Emit(Entered(if useQMI then QmiCall else AtCall));
      if !useQMI {
        if enabled { ok := EnableAT(interfaceKnown, linkKnown, w); } else { ok := DisableAT(interfaceKnown, w); }
      } else {
        ok := UseQMI(enabled, w);
      }
      AtKeeps(log);
      Emit(Left);
    }

    method UseQMI(enabled: bool, w: World) returns (ok: bool)
      requires Valid() && Working(QmiCall) && Now().found == qmi && !Now().failed
      modifies this`qmi, this`at, this`nextId, this`log
      ensures Valid() && old(log) <= log && Returning(QmiCall, old(qmi))
      ensures ok ==> at.None? && if enabled then qmi.Some? else qmi.None?
      ensures at.Some? ==> !ok && at == old(at) && qmi == old(qmi)
      ensures ok <==>
              && (old(at).None? || w.dhcpCleaned)
              && (if enabled then
                    && w.registered && w.ipKnown && w.configured
                    && (if old(qmi).Some? then w.pathKnown && w.formatted && (w.connected || w.dialled)
                        else w.dialled)
                  else w.ipKnown && if old(qmi).Some? then w.stopped else w.reclaimed)
    {
      ok := CloseATHost(QmiCall, w.dhcpCleaned);
      if !ok { return; }
      if enabled {
        if !w.registered { return false; }
        ok := EnableQMI(w);
      } else {
        ok := DisableQMI(w.ipKnown, w.cleared, w.stopped, w.reclaimed);
      }
    }

    // invalidateNetworkSessions, before a reset: the QMI owner is forgotten, the AT owner only once clean.
    method Invalidate(cleaned: bool) returns (ok: bool)
      requires Valid() && !Now().inCall
      modifies this`qmi, this`at, this`log
      ensures Valid() && old(log) <= log && qmi.None? && !Now().inCall
      ensures ok <==> at.None?
      ensures ok <==> old(at).None? || cleaned
      ensures !ok ==> at == old(at)
    {
      Emit(Entered(ResetCall));
      CloseQMI(ResetCall);
      ok := CloseATHost(ResetCall, cleaned);
      Emit(Left);
    }
  }

  // ---- What the discipline means over every run ------------------------------------------------

  lemma {:induction false} PrefixOwners(log: seq<Effect>, k: nat)
    requires k <= |log| && OwnersAfter(log).Some?
    ensures OwnersAfter(log[..k]).Some?
    ensures k < |log| ==> Follow(OwnersAfter(log[..k]).value, log[k]) == OwnersAfter(log[..k + 1])
    ensures k < |log| ==> OwnersAfter(log[..k + 1]).Some?
    decreases |log|
  {
    if k == |log| {
      assert log[..k] == log;
    } else {
      var front := log[..|log| - 1];
      PrefixOwners(front, k);
      assert front[..k] == log[..k] && log[..k + 1][..k] == log[..k];
      if k + 1 == |log| { assert log[..k + 1] == log; } else { assert front[..k + 1] == log[..k + 1]; }
    }
  }

  // At no moment of any run do the two backends both own a session.
  lemma {:induction false} NeverBoth(log: seq<Effect>)
    requires OwnersAfter(log).Some?
    ensures OwnersAfter(log).value.qmi.None? || OwnersAfter(log).value.at.None?
    decreases |log|
  {
    if log != [] { NeverBoth(log[..|log| - 1]); }
  }

  // No backend starts a session while any session is still owned.
  lemma StartsOnFreeInterface(log: seq<Effect>, i: nat)
    requires OwnersAfter(log).Some? && i < |log| && (log[i].DhcpStarted? || log[i].WdsStarted?)
    ensures OwnersAfter(log[..i]).Some?
    ensures OwnersAfter(log[..i]).value.qmi.None? && OwnersAfter(log[..i]).value.at.None?
  {
    PrefixOwners(log, i);
  }

  // Effect h settles the host path of the session that is handed over at i, and s stops it after that;
  // no session starts, and neither step is undone, between them and the handover.
  ghost predicate Released(log: seq<Effect>, h: nat, s: nat, i: nat) {
    && h < s < i <= |log| && (log[h] == HostCleared || log[h] == HostUnknown) && log[s] == WdsStopped
    && (forall j | h < j < i :: log[j] != HostClearFailed && !log[j].WdsStarted?)
    && (forall j | s < j < i :: log[j] != WdsStopFailed)
  }

  ghost predicate Cleared(log: seq<Effect>, h: nat) {
    && h < |log| && (log[h] == HostCleared || log[h] == HostUnknown)
    && forall j | h < j < |log| :: log[j] != HostClearFailed && !log[j].WdsStarted?
  }

  lemma {:induction false} FlagsAreWitnessed(log: seq<Effect>)
    requires OwnersAfter(log).Some?
    ensures OwnersAfter(log).value.hostGone ==> exists h :: Cleared(log, h)
    ensures OwnersAfter(log).value.hostGone && OwnersAfter(log).value.stopped ==>
              exists h, s :: Released(log, h, s, |log|)
    decreases |log|
  {
    if log != [] {
      var front, e, n := log[..|log| - 1], log[|log| - 1], |log|;
      FlagsAreWitnessed(front);
      var o := OwnersAfter(log).value;
      if o.hostGone {
        if e == HostCleared || e == HostUnknown {
          assert Cleared(log, n - 1);
        } else {
          var h :| Cleared(front, h);
          assert Cleared(log, h);
          if e == WdsStopped {
            assert Released(log, h, n - 1, n);
          } else if o.stopped {
            var h1, s1 :| Released(front, h1, s1, |front|);
            assert Released(log, h1, s1, n);
          }
        }
      }
    }
  }

  // The AT backend takes the interface over only after this process's QMI host path is gone and, after
  // that, its WDS session has stopped.
  lemma HandoverIsReleased(log: seq<Effect>, i: nat)
    requires OwnersAfter(log).Some? && i < |log| && log[i] == WdsHandedOver
    ensures exists h, s :: Released(log[..i], h, s, i)
  {
    PrefixOwners(log, i);
    FlagsAreWitnessed(log[..i]);
  }

  // ---- A failed cleanup of the QMI session ------------------------------------------------------

  // What the discipline keeps of a call: the AT backend never loses the owner it found to a failure,
  // and no other call returns with one.
  ghost predicate KeptOrDropped(o: Owners) {
    && (o.call == AtCall ==> o.qmi == o.found || (o.qmi.None? && !o.failed))
    && (!o.inCall && o.call != AtCall && o.failed ==> o.qmi.None?)
    && (o.call == AtCall && o.failed ==> o.halted && o.found.Some?)
  }

  lemma {:induction false} CallsKeepOrDrop(log: seq<Effect>)
    requires OwnersAfter(log).Some?
    ensures KeptOrDropped(OwnersAfter(log).value)
    decreases |log|
  {
    if log != [] { CallsKeepOrDrop(log[..|log| - 1]); }
  }

  lemma StepOfCall(o: Owners, e: Effect)
    requires Follow(o, e).Some? && e != Left
    ensures var o' := Follow(o, e).value;
            && o'.inCall
            && (if e.Entered? then !o.inCall && o'.call == e.call && o'.found == o.qmi && !o'.failed
                else o.inCall && o'.call == o.call && o'.found == o.found && o'.failed == (o.failed || Fails(e)))
  {}

  lemma AtKeeps(log: seq<Effect>)
    requires OwnersAfter(log).Some?
    ensures var o := OwnersAfter(log).value; o.call == AtCall && o.failed ==> o.qmi == o.found
  {
    CallsKeepOrDrop(log);
  }

  // The call that enters at i, seen after its effects up to k.
  lemma {:induction false} CallSoFar(log: seq<Effect>, i: nat, k: nat)
    requires OwnersAfter(log).Some? && i < k <= |log| && log[i].Entered?
    requires forall n | i < n < k :: log[n] != Left
    ensures OwnersAfter(log[..i]).Some? && OwnersAfter(log[..k]).Some?
    ensures var o := OwnersAfter(log[..k]).value;
            && o.inCall && o.call == log[i].call && o.found == OwnersAfter(log[..i]).value.qmi
            && (o.failed <==> exists n :: i < n < k && Fails(log[n]))
    decreases k
  {
    hide OwnersAfter, Follow, Work;
    PrefixOwners(log, i);
    PrefixOwners(log, k - 1);
    StepOfCall(OwnersAfter(log[..k - 1]).value, log[k - 1]);
    if i < k - 1 {
      CallSoFar(log, i, k - 1);
      assert Fails(log[k - 1]) ==> exists n :: i < n < k && Fails(log[n]);
    }
  }

  /**
   In every run, a call that finds a QMI owner and meets a failed Stop or host cleanup returns with that
   owner if and only if it is a call of the AT backend.
   */
  lemma OwnerKeptIff(log: seq<Effect>, i: nat, j: nat, n: nat)
    requires OwnersAfter(log).Some? && i < n < j < |log| && log[i].Entered? && log[j] == Left
    requires (forall k | i < k < j :: log[k] != Left) && Fails(log[n])
    requires OwnersAfter(log[..i]).Some? && OwnersAfter(log[..i]).value.qmi.Some?
    ensures OwnersAfter(log[..j + 1]).Some?
    ensures OwnersAfter(log[..j + 1]).value.qmi == OwnersAfter(log[..i]).value.qmi <==> log[i].call == AtCall
  {
    CallSoFar(log, i, j);
    PrefixOwners(log, j);
    CallsKeepOrDrop(log[..j + 1]);
  }

  /** An AT owner whose cleanup failed stays the owner: the call does nothing more and returns. */
  lemma AtOwnerKept(log: seq<Effect>, n: nat)
    requires OwnersAfter(log).Some? && n + 1 < |log| && log[n] == DhcpCleanupFailed
    ensures log[n + 1] == Left
    ensures OwnersAfter(log[..n]).Some? && OwnersAfter(log[..n]).value.at.Some? && OwnersAfter(log[..n + 2]).Some?
    ensures OwnersAfter(log[..n + 2]).value.at == OwnersAfter(log[..n]).value.at
  {
    PrefixOwners(log, n);
    PrefixOwners(log, n + 1);
  }

  // The failing call: a session is up, and the QMI backend's disable meets a failed Stop.
  function StartedCall(id: SessionId): seq<Effect> { [Entered(QmiCall), WdsStarted(id), Left] }

  function FailingDisable(): seq<Effect> { [Entered(QmiCall), HostCleared, WdsStopFailed, WdsClosed, Left] }

  lemma StartedRuns(id: SessionId)
    ensures OwnersAfter(StartedCall(id))
            == Some(Owners(Some(id), None, false, false, false, QmiCall, None, false, false))
  {
    var none: seq<Effect> := [];
    assert OwnersAfter(none) == Some(NOBODY);
    hide OwnersAfter;
    var l1 := none + [Entered(QmiCall)];
    var l2 := l1 + [WdsStarted(id)];
    Appended(none, Entered(QmiCall));
    Appended(l1, WdsStarted(id));
    Appended(l2, Left);
    assert l2 + [Left] == StartedCall(id);
  }

  /** It drops the owner, with nothing left to retry the Stop on. */
  lemma QmiDisableDropsOwner(id: SessionId)
    ensures OwnersAfter(StartedCall(id)).Some? && OwnersAfter(StartedCall(id)).value.qmi == Some(id)
    ensures OwnersAfter(StartedCall(id) + FailingDisable()).Some?
    ensures OwnersAfter(StartedCall(id) + FailingDisable()).value.qmi.None?
  {
    hide OwnersAfter;
    StartedRuns(id);
    var up := StartedCall(id);
    var l3 := up + [Entered(QmiCall)];
    var l4 := l3 + [HostCleared];
    var l5 := l4 + [WdsStopFailed];
    var l6 := l5 + [WdsClosed];
    Appended(up, Entered(QmiCall));
    Appended(l3, HostCleared);
    Appended(l4, WdsStopFailed);
    Appended(l5, WdsClosed);
    Appended(l6, Left);
    assert l6 + [Left] == up + FailingDisable();
  }

  lemma Appended(log: seq<Effect>, e: Effect)
    ensures OwnersAfter(log + [e]) == match OwnersAfter(log) case None => None case Some(o) => Follow(o, e)
  {
    assert (log + [e])[..|log|] == log;
  }
}
