/**
 When a modem that keeps searching for a network gets help: a fresh registration after a grace period,
 one reboot after a further delay, and then nothing until the episode ends.
 */
module RecoveryTracker {
  import opened Results
  import opened Text

  datatype Action = Nothing | Reregister | Reboot

  datatype Episode = Episode(iccid: string, searchingAt: int, lastAttempt: int, attempts: nat, pending: Action)

  datatype Snapshot = Snapshot(
    modeKnown: bool, operatingMode: int, status: int, simReady: bool, iccid: string, model: string) {

    // Explicit flight mode, or registered at home or roaming: nothing to recover.
    predicate Recovered() { (modeKnown && operatingMode == 4) || status == 1 || status == 5 }

    predicate Searching() { status == 0 || status == 2 }

    predicate IsEC20() {
      var m := Trim(model);
      |m| >= 4 && (m[0] == 'E' || m[0] == 'e') && (m[1] == 'C' || m[1] == 'c') && m[2] == '2' && m[3] == '0'
    }

    predicate Stuck() { simReady && IsEC20() && Trim(iccid) != "" && Searching() }
  }

  datatype Delays = Delays(grace: int, escalation: int)

  // ---- One device -------------------------------------------------------------------------------

  // An episode goes when the modem recovered or another card showed up; an unreadable card keeps it.
  function Kept(e: Option<Episode>, s: Snapshot): Option<Episode> {
    if s.Recovered() || (e.Some? && Trim(s.iccid) != "" && e.value.iccid != Trim(s.iccid)) then None else e
  }

  function Due(d: Delays, e: Episode, now: int): Action {
    if e.pending != Nothing then Nothing
    else if e.attempts == 0 && now - e.searchingAt >= d.grace then Reregister
    else if e.attempts == 1 && now - e.lastAttempt >= d.escalation then Reboot
    else Nothing
  }

  datatype Observed = Observed(after: Option<Episode>, action: Action)

  function Observe(d: Delays, e: Option<Episode>, s: Snapshot, now: int): Observed {
    var kept := Kept(e, s);
    if s.Recovered() || !s.Stuck() then Observed(kept, Nothing)
    else if kept.None? then Observed(Some(Episode(Trim(s.iccid), now, 0, 0, Nothing)), Nothing)
    else
      var action := Due(d, kept.value, now);
      Observed(if action == Nothing then kept else Some(kept.value.(pending := action)), action)
  }

  // A completion speaks about the pending action of the episode of its own card, or about nothing.
  predicate Answers(e: Option<Episode>, iccid: string, action: Action) {
    e.Some? && e.value.iccid == Trim(iccid) && e.value.pending == action
  }

  function Complete(e: Option<Episode>, iccid: string, action: Action, issued: bool, now: int): Option<Episode> {
    if !Answers(e, iccid, action) then e
    else if issued then Some(e.value.(pending := Nothing, attempts := e.value.attempts + 1, lastAttempt := now))
    else Some(e.value.(pending := Nothing))
  }

  // ---- The tracker --------------------------------------------------------------------------------

  class Tracker {
    const delays: Delays
    var episodes: map<string, Episode>

    constructor (delays: Delays)
      ensures this.delays == delays && episodes == map[]
    {
      this.delays := delays;
      episodes := map[];
    }

    function Of(device: string): Option<Episode>
      reads this
    {
      if device in episodes then Some(episodes[device]) else None
    }

    // observe.
    method ObserveDevice(device: string, snapshot: Option<Snapshot>, now: int) returns (action: Action)
      modifies this
      ensures forall other: string | other != device :: Of(other) == old(Of(other))
      ensures snapshot.None? ==> action == Nothing && Of(device) == old(Of(device))
      ensures snapshot.Some? ==> Observed(Of(device), action) == Observe(delays, old(Of(device)), snapshot.value, now)
    {
      if snapshot.None? { return Nothing; }
      var s := snapshot.value;
      if s.Recovered() {
        episodes := episodes - {device};
        return Nothing;
      }
      var iccid := Trim(s.iccid);
      if device in episodes && iccid != "" && episodes[device].iccid != iccid {
        episodes := episodes - {device};
      }
      if !s.simReady || !s.IsEC20() || iccid == "" || (s.status != 0 && s.status != 2) { return Nothing; }
      if device !in episodes {
        episodes := episodes[device := Episode(iccid, now, 0, 0, Nothing)];
        return Nothing;
      }
      var episode := episodes[device];
      if episode.pending != Nothing { return Nothing; }
      if episode.attempts == 0 && now - episode.searchingAt >= delays.grace {
        episodes := episodes[device := episode.(pending := Reregister)];
        return Reregister;
      }
      if episode.attempts == 1 && now - episode.lastAttempt >= delays.escalation {
        episodes := episodes[device := episode.(pending := Reboot)];
        return Reboot;
      }
      return Nothing;
    }

    // complete.
    method CompleteAction(device: string, iccid: string, action: Action, issued: bool, now: int)
      modifies this
      ensures forall other: string | other != device :: Of(other) == old(Of(other))
      ensures Of(device) == Complete(old(Of(device)), iccid, action, issued, now)
    {
      if device !in episodes || episodes[device].iccid != Trim(iccid) || episodes[device].pending != action { return; }
      var episode := episodes[device].(pending := Nothing);
      if issued { episode := episode.(attempts := episode.attempts + 1, lastAttempt := now); }
      episodes := episodes[device := episode];
    }
  }
}
