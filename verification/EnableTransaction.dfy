/**
 The EnableProfile transaction that runs inside the gate: a non-idempotent commit to the card,
 one fallback commit by AID, bounded retries, and the recovery that must cover every commit
 whose outcome is unknown. The card, the transport and the caller's context answer arbitrarily.
 */
module EnableTransaction {
  import opened Results

  type Iccid = string

  // What one commit APDU brings back: a lost exchange, a body without a result, or a result code.
  datatype Reply = Lost(transient: bool) | NoResult | Code(value: nat)

  predicate Uncertain(r: Reply) { r.Lost? || r.NoResult? }

  // commandError, undefinedError and notFound permit the second commit, by ISD-P AID.
  predicate PermitsFallback(r: Reply) { r == Code(7) || r == Code(0x7F) || r == Code(1) }

  const CAT_BUSY := 5
  const CAT_RETRIES := 11
  const CME_RETRIES := 2

  datatype Effect =
    | LockESIM | UnlockESIM
    | WaitedOut                  // no earlier recovery is left
    | Commit(reply: Reply)
    | StartRecovery | SoftReset
    | ReadLive(iccid: Iccid)

  // ---- The discipline a transaction's effects must follow -----------------------------------

  datatype Mode =
    | Free(owns: bool, verified: bool)     // eSIM lock not held; owns: its recovery is registered
    | Entered                              // locked, an earlier recovery may still run
    | Ready                                // locked, no recovery is active
    | Sent(reply: Reply, fallback: bool, verified: bool)
    | Covered(accepted: bool)              // its own recovery is registered, still locked
    | ResetIssued
    | Abandoned                            // left to its recovery after an uncertain commit

  function Follow(m: Mode, e: Effect, target: Iccid): Option<Mode> {
    match e
    case LockESIM => if m.Free? && !m.owns then Some(Entered) else None
    case WaitedOut => if m.Entered? then Some(Ready) else None
    case Commit(r) =>
      if m.Ready? then Some(Sent(r, false, false))
      else if m.Sent? && !m.fallback && PermitsFallback(m.reply) then Some(Sent(r, true, false))
      else None
    case StartRecovery =>
      if m.Sent? && (Uncertain(m.reply) || m.reply == Code(0)) then Some(Covered(m.reply == Code(0))) else None
    case SoftReset => if m.Sent? && m.reply == Lost(true) then Some(ResetIssued) else None
    case ReadLive(live) =>
      if MayRead(m) then Some(Verified(m, live == target)) else None
    case UnlockESIM =>
      match m
      case Entered => Some(Free(false, false))
      case Ready => Some(Free(false, false))
      case Sent(Code(c), _, verified) =>
        if c != 0 then Some(Free(false, false)) else if verified then Some(Free(false, true)) else None
      case Covered(accepted) => Some(if accepted then Free(true, false) else Abandoned)
      case ResetIssued => Some(Free(false, false))
      case _ => None
  }

  // Accepted by the card, or after the lock is back under the transaction's own recovery.
  predicate MayRead(m: Mode) { (m.Sent? && m.reply == Code(0)) || (m.Free? && m.owns) }

  function Verified(m: Mode, verified: bool): Mode
    requires MayRead(m)
  {
    match m
    case Sent(reply, fallback, _) => Sent(reply, fallback, verified)
    case Free(owns, _) => Free(owns, verified)
  }

  function ModeAfter(log: seq<Effect>, target: Iccid): Option<Mode> {
    if log == [] then Some(Free(false, false))
    else
      match ModeAfter(log[..|log| - 1], target)
      case None => None
      case Some(m) => Follow(m, log[|log| - 1], target)
  }

  function Commits(log: seq<Effect>): nat {
    if log == [] then 0 else Commits(log[..|log| - 1]) + if log[|log| - 1].Commit? then 1 else 0
  }

  lemma Appended(log: seq<Effect>, e: Effect, target: Iccid)
    ensures ModeAfter(log + [e], target) ==
      (match ModeAfter(log, target) case None => None case Some(m) => Follow(m, e, target))
    ensures Commits(log + [e]) == Commits(log) + if e.Commit? then 1 else 0
  {
    assert (log + [e])[..|log|] == log;
  }

  // ---- What the environment answers ----------------------------------------------------------

  // One round of identity reads, and whether the context is cancelled during the pause after it.
  datatype Round = Round(identities: seq<Option<Iccid>>, cancelled: bool)

  // Everything one attempt meets: the way to the open channel, the replies to the commit and to the fallback,
  // a cancellation before a retry, the probes, and the recovery with its own verification.
  datatype Answers = Answers(
    present: bool, locked: bool, waited: bool, channelOpen: bool, refreshRegistered: bool, built: bool,
    first: Reply, aidKnown: bool, second: Reply, cancelled: bool,
    probes: nat -> Round, recovered: bool, finals: nat -> Round)

  predicate Opens(a: Answers, native: bool) {
    a.present && a.locked && a.waited && a.channelOpen && (native ==> a.refreshRegistered) && a.built
  }

  // The reply that counts: the fallback's, after commandError, undefinedError or notFound to the ICCID.
  function Final(a: Answers, byAID: bool): Reply {
    if !byAID && a.aidKnown && (a.first == Code(0x07) || a.first == Code(0x7F) || a.first == Code(0x01))
    then a.second else a.first
  }

  // The first command that is answered at all reads the target.
  predicate Reads(round: Round, target: Iccid) {
    exists i | 0 <= i < |round.identities| ::
      round.identities[i] == Some(target) && forall k | 0 <= k < i :: round.identities[k].None?
  }

  predicate VerifiesWithin(attempts: nat, rounds: nat -> Round, target: Iccid) {
    exists j | 0 <= j < attempts :: Reads(rounds(j), target) && forall k | 0 <= k < j :: !rounds(k).cancelled
  }

  // A device that keeps its identity fresh may prove the switch in three rounds; everything else, or after
  // that, the recovery must succeed and prove it in six.
  predicate Confirms(a: Answers, needsRecovery: bool, target: Iccid) {
    || (!needsRecovery && VerifiesWithin(3, a.probes, target))
    || (a.recovered && VerifiesWithin(6, a.finals, target))
  }

  class Transaction {
    const target: Iccid
    const byAID: bool
    const native: bool
    const pcsc: bool
    const atCSIM: bool
    var log: seq<Effect>

    constructor (target: Iccid, byAID: bool, native: bool, pcsc: bool, atCSIM: bool)
      ensures log == [] && this.target == target
    {
      this.target, this.byAID, this.native, this.pcsc, this.atCSIM := target, byAID, native, pcsc, atCSIM;
      log := [];
    }

    ghost function Current(): Option<Mode>
      reads this
    {
      ModeAfter(log, target)
    }

    method Emit(e: Effect)
      requires Current().Some? && Follow(Current().value, e, target).Some?
      modifies this`log
      ensures log == old(log) + [e]
      ensures Current() == Follow(old(Current()).value, e, target)
      ensures Commits(log) == Commits(old(log)) + if e.Commit? then 1 else 0
    {
      Appended(log, e, target);
      log := log + [e];
    }

    // One round of live reads, the commands in turn until one answers.
    method ReadRound(round: Round) returns (ok: bool)
      requires Current().Some?
      requires MayRead(Current().value)
      requires Current() == Some(Verified(Current().value, false))
      modifies this`log
      ensures Current() == Some(Verified(old(Current()).value, ok))
      ensures ok ==> log != [] && log[|log| - 1] == ReadLive(target)
      ensures Commits(log) == Commits(old(log))
      ensures ok <==> Reads(round, target)
    {
      ok := false;
      var index := 0;
      while index < |round.identities|
        invariant !ok && Current() == old(Current()) && Commits(log) == Commits(old(log))
        invariant index <= |round.identities| && forall i | 0 <= i < index :: round.identities[i].None?
      {
        var live := round.identities[index];
        if live.Some? {
          Emit(ReadLive(live.value));
          ok := live.value == target;
          return;
        }
        index := index + 1;
      }
    }

    // verifySwitchedICCIDAttempts: nil exactly when one of the rounds reads the target before a cancellation.
    method VerifyAttempts(attempts: nat, rounds: nat -> Round) returns (ok: bool)
      requires Current().Some?
      requires MayRead(Current().value)
      requires Current() == Some(Verified(Current().value, false))
      modifies this`log
      ensures Current() == Some(Verified(old(Current()).value, ok))
      ensures ok ==> log != [] && log[|log| - 1] == ReadLive(target)
      ensures Commits(log) == Commits(old(log))
      ensures ok <==> VerifiesWithin(attempts, rounds, target)
    {
      ok := false;
      var attempt := 0;
      while attempt < attempts
        invariant !ok && Current() == old(Current()) && Commits(log) == Commits(old(log))
        invariant attempt <= attempts
        invariant forall k | 0 <= k < attempt :: !Reads(rounds(k), target)
        invariant forall k | 0 <= k < attempt && k + 1 < attempts :: !rounds(k).cancelled
      {
        ok := ReadRound(rounds(attempt));
        if ok { return; }
        if attempt + 1 < attempts && rounds(attempt).cancelled { return; }
        attempt := attempt + 1;
      }
    }

    // The commit by the profile's own identifier, and the fallback by ISD-P AID on the same channel.
    method CommitProfile(a: Answers) returns (reply: Reply)
      requires Current() == Some(Ready)
      modifies this`log
      ensures exists fallback :: Current() == Some(Sent(reply, fallback, false))
      ensures Commits(old(log)) < Commits(log) <= Commits(old(log)) + 2
      ensures reply == Final(a, byAID)
    {
      reply := a.first;
      Emit(Commit(reply));
      if !byAID && PermitsFallback(reply) && a.aidKnown {
        reply := a.second;
        Emit(Commit(reply));
      }
    }

    // Up to the open channel: the lock, the wait for an earlier recovery, the built request.
    method Prepare(a: Answers) returns (ready: bool)
      requires Current() == Some(Free(false, false))
      modifies this`log
      ensures Current() == Some(if ready then Ready else Free(false, false))
      ensures Commits(log) == Commits(old(log))
      ensures ready <==> Opens(a, native)
    {
      ready := false;
      if !a.present || !a.locked { return; }
      Emit(LockESIM);
      if !a.waited { Emit(UnlockESIM); return; }
      Emit(WaitedOut);
      ready := a.channelOpen && (!native || a.refreshRegistered) && a.built;
      if !ready { Emit(UnlockESIM); }
    }

    // Leaves a registered recovery behind.
    method LeaveToRecovery()
      requires Current().Some? && Follow(Current().value, StartRecovery, target).Some?
      modifies this`log
      ensures Current() == Some(if old(Current()).value.reply == Code(0) then Free(true, false) else Abandoned)
      ensures Commits(log) == Commits(old(log))
    {
      Emit(StartRecovery);
      Emit(UnlockESIM);
    }

    // After the card accepted: a short probe, and otherwise the recovery and its own verification.
    method Confirm(a: Answers) returns (ok: bool)
      requires Current().Some? && Current().value.Sent? && Current().value.reply == Code(0)
      requires !Current().value.verified
      modifies this`log
      ensures exists owns :: Current() == Some(Free(owns, ok))
      ensures Commits(log) == Commits(old(log))
      ensures ok <==> Confirms(a, native || pcsc, target)
    {
      if !native && !pcsc {
        ok := VerifyAttempts(3, a.probes);
        if ok {
          Emit(UnlockESIM);
          return;
        }
      }
      LeaveToRecovery();
      // The recovery's retained result is nil only after its own reset and its own live read.
      if !a.recovered { return false; }
      ok := VerifyAttempts(6, a.finals);
    }

    // One attempt of the transaction, and the attempts it retries with. The discipline holds
    // throughout and the lock is given back; success is exactly a last live read, since the last
    // commit, of the target; and there are at most fourteen attempts of at most two commits. Every attempt
    // before the last was answered busy or lost, within the budget and uncancelled; the last one decides.
    method Switch(w: nat -> Answers, n: nat, catBusy: nat, cme: nat) returns (ok: bool, ghost last: nat)
      requires catBusy <= CAT_RETRIES && cme <= CME_RETRIES
      requires Current() == Some(Free(false, false))
      modifies this`log
      ensures (exists owns :: Current() == Some(Free(owns, ok))) || (Current() == Some(Abandoned) && !ok)
      ensures Commits(log) <= Commits(old(log)) + 2 * (CAT_RETRIES + CME_RETRIES + 1 - catBusy - cme)
      ensures n <= last && forall k | n <= k < last :: Opens(w(k), native) && !w(k).cancelled && Retries(w(k))
      ensures catBusy + Counted(w, n, last, Code(5)) <= 11 && cme + Counted(w, n, last, Lost(true)) <= 2
      ensures Opens(w(last), native) && !w(last).cancelled && Final(w(last), byAID) == Code(5) ==>
                catBusy + Counted(w, n, last, Code(5)) == 11
      ensures Opens(w(last), native) && !w(last).cancelled && Final(w(last), byAID) == Lost(true) && atCSIM ==>
                cme + Counted(w, n, last, Lost(true)) == 2
      ensures ok <==>
              && Opens(w(last), native) && Final(w(last), byAID) == Code(0)
              && Confirms(w(last), native || pcsc, target)
      decreases CAT_RETRIES + CME_RETRIES - catBusy - cme
    {
      hide Opens, Confirms, Final, Counted, ModeAfter, Commits;
      last := n;
      var a := w(n);
      NoneCounted(w, n);
      var ready := Prepare(a);
      if !ready { return false, n; }
      var reply := CommitProfile(a);
      if reply.Lost? && reply.transient && cme < CME_RETRIES && atCSIM {
        Emit(SoftReset);
        Emit(UnlockESIM);
        if a.cancelled { return false, n; }
        ok, last := Switch(w, n + 1, catBusy, cme + 1);
        CountedFromStart(w, n, last);
      } else if Uncertain(reply) {
        LeaveToRecovery();
        ok := false;
      } else if reply.value != 0 {
        Emit(UnlockESIM);
        if reply.value != CAT_BUSY || catBusy >= CAT_RETRIES || a.cancelled { return false, n; }
        ok, last := Switch(w, n + 1, catBusy + 1, cme);
        CountedFromStart(w, n, last);
      } else {
        ok := Confirm(a);
      }
    }

    // How often the attempts from..until ended with this reply.
    ghost function Counted(w: nat -> Answers, from: nat, until: nat, reply: Reply): nat
      requires from <= until
      decreases until - from
    {
      if from == until then 0
      else (if Final(w(from), byAID) == reply then 1 else 0) + Counted(w, from + 1, until, reply)
    }

    lemma NoneCounted(w: nat -> Answers, n: nat)
      ensures forall reply :: Counted(w, n, n, reply) == 0
    {}

    lemma CountedFromStart(w: nat -> Answers, n: nat, last: nat)
      requires n < last
      ensures forall reply :: Counted(w, n, last, reply)
                              == (if Final(w(n), byAID) == reply then 1 else 0) + Counted(w, n + 1, last, reply)
    {}

    // A busy card is asked again, and a lost answer of the transient kind behind AT+CSIM.
    predicate Retries(a: Answers) {
      Final(a, byAID) == Code(5) || (Final(a, byAID) == Lost(true) && atCSIM)
    }
  }

  // ---- What the discipline means, for every log that keeps it --------------------------------

  lemma {:induction false} PrefixKept(log: seq<Effect>, k: nat, target: Iccid)
    requires k <= |log| && ModeAfter(log, target).Some?
    ensures ModeAfter(log[..k], target).Some?
    ensures k < |log| ==> Follow(ModeAfter(log[..k], target).value, log[k], target).Some?
    ensures k < |log| ==> Follow(ModeAfter(log[..k], target).value, log[k], target) == ModeAfter(log[..k + 1], target)
    decreases |log|
  {
    if k < |log| {
      var front := log[..|log| - 1];
      PrefixKept(front, k, target);
      assert front[..k] == log[..k] && log[..k + 1][..k] == log[..k];
      if k + 1 == |log| { assert log[..k + 1] == log; } else { assert front[..k + 1] == log[..k + 1]; }
    } else {
      assert log[..k] == log;
    }
  }

  // Where a transaction may end.
  predicate Ended(m: Mode) { m.Free? || m.Abandoned? }

  // A commit whose outcome is unknown is never left alone: the very next effect registers the
  // transaction's recovery, or is the soft reset of the +CME ERROR 0 path.
  lemma UncertainCommitIsCovered(log: seq<Effect>, i: nat, target: Iccid)
    requires ModeAfter(log, target).Some? && Ended(ModeAfter(log, target).value)
    requires i < |log| && log[i].Commit? && Uncertain(log[i].reply)
    ensures i + 1 < |log|
    ensures log[i + 1] == StartRecovery || (log[i].reply == Lost(true) && log[i + 1] == SoftReset)
  {
    PrefixKept(log, i, target);
    assert log[..|log|] == log;
    if i + 1 < |log| { PrefixKept(log, i + 1, target); }
  }

  // A definite refusal by the card starts no recovery, and nothing is committed twice in a row
  // except by the one fallback that the card's answer permits.
  lemma RefusalStartsNothing(log: seq<Effect>, i: nat, target: Iccid)
    requires ModeAfter(log, target).Some? && i + 1 < |log|
    requires log[i].Commit? && log[i].reply.Code? && log[i].reply.value != 0
    ensures log[i + 1] == UnlockESIM || (log[i + 1].Commit? && PermitsFallback(log[i].reply))
  {
    PrefixKept(log, i, target);
    PrefixKept(log, i + 1, target);
  }

  lemma {:induction false} OwnerOnlyReads(log: seq<Effect>, i: nat, target: Iccid)
    requires ModeAfter(log, target).Some? && i < |log| && log[i] == StartRecovery
    ensures var m := ModeAfter(log, target).value; m.Covered? || m.Abandoned? || (m.Free? && m.owns)
    ensures forall j | i < j < |log| :: log[j] == UnlockESIM || log[j].ReadLive?
    decreases |log|
  {
    var front := log[..|log| - 1];
    PrefixKept(log, |log| - 1, target);
    assert log[..|log| - 1 + 1] == log;
    if i < |log| - 1 { OwnerOnlyReads(front, i, target); }
  }

  // In which modes an earlier recovery has been waited out under the lock still held.
  predicate Waited(m: Mode) { m.Ready? || m.Sent? }

  ghost predicate WaitedSince(log: seq<Effect>, w: nat) {
    && w < |log| && log[w] == WaitedOut
    && forall j | w < j < |log| :: !log[j].LockESIM? && !log[j].UnlockESIM? && !log[j].StartRecovery?
  }

  lemma {:induction false} WaitedUnderThisLock(log: seq<Effect>, target: Iccid)
    requires ModeAfter(log, target).Some? && Waited(ModeAfter(log, target).value)
    ensures exists w :: WaitedSince(log, w)
    decreases |log|
  {
    var front, e := log[..|log| - 1], log[|log| - 1];
    if e == WaitedOut {
      assert WaitedSince(log, |log| - 1);
    } else {
      WaitedUnderThisLock(front, target);
      var w :| WaitedSince(front, w);
      assert WaitedSince(log, w);
    }
  }

  // A transaction starts at most one recovery, after waiting out any earlier one under the same
  // hold of the eSIM lock; from then on it only gives the lock back and reads.
  lemma StartsOnlyItsOwn(log: seq<Effect>, i: nat, target: Iccid)
    requires ModeAfter(log, target).Some? && i < |log| && log[i] == StartRecovery
    ensures exists w :: WaitedSince(log[..i], w)
    ensures forall j | i < j < |log| :: log[j] == UnlockESIM || log[j].ReadLive?
  {
    PrefixKept(log, i, target);
    WaitedUnderThisLock(log[..i], target);
    OwnerOnlyReads(log, i, target);
  }

  ghost predicate Witnessed(log: seq<Effect>, target: Iccid, c: nat, r: nat) {
    && c < r < |log| && log[c] == Commit(Code(0)) && log[r] == ReadLive(target)
    && (forall j | c < j < |log| :: !log[j].Commit?)
    && (forall j | r < j < |log| :: !log[j].ReadLive?)
  }

  ghost predicate AcceptedAt(log: seq<Effect>, c: nat) {
    c < |log| && log[c] == Commit(Code(0)) && forall j | c < j < |log| :: !log[j].Commit?
  }

  predicate Accepted(m: Mode) {
    (m.Sent? && m.reply == Code(0)) || (m.Covered? && m.accepted) || (m.Free? && (m.owns || m.verified))
  }

  lemma {:induction false} AcceptedHasCommit(log: seq<Effect>, target: Iccid)
    requires ModeAfter(log, target).Some? && Accepted(ModeAfter(log, target).value)
    ensures exists c :: AcceptedAt(log, c)
    decreases |log|
  {
    var front, e := log[..|log| - 1], log[|log| - 1];
    if e.Commit? {
      assert AcceptedAt(log, |log| - 1);
    } else {
      AcceptedHasCommit(front, target);
      var c :| AcceptedAt(front, c);
      assert AcceptedAt(log, c);
    }
  }

  predicate Seen(m: Mode) { Accepted(m) && (m.Sent? || m.Free?) && m.verified }

  // The transaction reports success only after a live read of the target that follows the accepted
  // commit; no later commit and no later read contradict it.
  lemma {:induction false} SuccessIsWitnessed(log: seq<Effect>, target: Iccid)
    requires ModeAfter(log, target).Some? && Seen(ModeAfter(log, target).value)
    ensures exists c, r :: Witnessed(log, target, c, r)
    decreases |log|
  {
    var front, e := log[..|log| - 1], log[|log| - 1];
    if e.ReadLive? {
      AcceptedHasCommit(front, target);
      var c :| AcceptedAt(front, c);
      assert Witnessed(log, target, c, |log| - 1);
    } else {
      SuccessIsWitnessed(front, target);
      var c, r :| Witnessed(front, target, c, r);
      assert Witnessed(log, target, c, r);
    }
  }

  // ---- DisableProfile ------------------------------------------------------------------------

  // One call: whether the earlier recovery ended well and the channel opened, how the profile was
  // named, and what the card answered to the commit and to the fallback commit, if one is sent.
  datatype DisableCall = DisableCall(
    waited: bool, channelOpen: bool, byAID: bool, first: Reply, aidKnown: bool, second: Reply)

  predicate FallsBack(call: DisableCall) {
    call.waited && call.channelOpen && !call.byAID && PermitsFallback(call.first) && call.aidKnown
  }

  // The reply the call acts on: the fallback's only when it carries a result.
  function Effective(call: DisableCall): Reply {
    if FallsBack(call) && call.second.Code? then call.second else call.first
  }

  function DisableEffects(call: DisableCall): seq<Effect> {
    if !call.waited then [LockESIM, UnlockESIM]
    else if !call.channelOpen then [LockESIM, WaitedOut, UnlockESIM]
    else
      [LockESIM, WaitedOut, Commit(call.first)]
      + (if FallsBack(call) then [Commit(call.second)] else [])
      + (if Uncertain(Effective(call)) || Effective(call) == Code(0) then [StartRecovery] else [])
      + [UnlockESIM]
  }

  /** A second commit follows only the three refusals that permit it, and only where the profile's AID is known. */
  lemma DisableCallMeans(call: DisableCall)
    ensures var effects := DisableEffects(call);
            var sends := call.waited && call.channelOpen;
            var again := !call.byAID && call.aidKnown && call.first in [Code(1), Code(7), Code(0x7F)];
            var decided := if again && call.second.Code? then call.second else call.first;
            && Commits(effects) == (if !sends then 0 else if again then 2 else 1)
            && (StartRecovery in effects <==> sends && (decided == Code(0) || !decided.Code?))
  {
    var effects := DisableEffects(call);
    Count2(LockESIM, UnlockESIM);
    Count2(LockESIM, WaitedOut);
    Count3(LockESIM, WaitedOut, UnlockESIM);
    var (head, again) := ([LockESIM, WaitedOut, Commit(call.first)], [Commit(call.second)]);
    Count3(LockESIM, WaitedOut, Commit(call.first));
    Appended(head, Commit(call.second), "");
    var sent := if FallsBack(call) then head + again else head;
    Appended(sent, StartRecovery, "");
    Appended(sent, UnlockESIM, "");
    Appended(sent + [StartRecovery], UnlockESIM, "");
    hide Commits, ModeAfter;
    if call.waited && call.channelOpen {
      var starts := Uncertain(Effective(call)) || Effective(call) == Code(0);
      assert effects == if starts then sent + [StartRecovery] + [UnlockESIM] else sent + [UnlockESIM];
      assert starts ==> effects[|sent|] == StartRecovery;
      assert StartRecovery !in sent;
    }
  }

  lemma Count2(a: Effect, b: Effect)
    ensures Commits([a, b]) == (if a.Commit? then 1 else 0) + if b.Commit? then 1 else 0
  {
    var none: seq<Effect> := [];
    Appended(none, a, "");
    Appended([a], b, "");
    assert none + [a] == [a] && [a] + [b] == [a, b];
  }

  lemma Count3(a: Effect, b: Effect, c: Effect)
    ensures Commits([a, b, c]) == Commits([a, b]) + if c.Commit? then 1 else 0
  {
    Appended([a, b], c, "");
    assert [a, b] + [c] == [a, b, c];
  }

  lemma DisableSends(call: DisableCall, target: Iccid)
    requires call.waited && call.channelOpen
    ensures ModeAfter([LockESIM, WaitedOut, Commit(call.first)], target) == Some(Sent(call.first, false, false))
    ensures FallsBack(call) ==>
      ModeAfter([LockESIM, WaitedOut, Commit(call.first)] + [Commit(call.second)], target)
        == Some(Sent(call.second, true, false))
  {
    var none: seq<Effect> := [];
    Appended(none, LockESIM, target);
    Appended([LockESIM], WaitedOut, target);
    Appended([LockESIM, WaitedOut], Commit(call.first), target);
    Appended([LockESIM, WaitedOut, Commit(call.first)], Commit(call.second), target);
    assert none + [LockESIM] == [LockESIM] && [LockESIM] + [WaitedOut] == [LockESIM, WaitedOut];
    assert [LockESIM, WaitedOut] + [Commit(call.first)] == [LockESIM, WaitedOut, Commit(call.first)];
  }

  // DisableProfile keeps the same discipline exactly when no fallback commit ends uncertain. The
  // code drops an unreadable fallback answer and reports the first refusal, so that commit may
  // have taken effect with no recovery behind it.
  lemma DisableKeepsDisciplineIff(call: DisableCall, target: Iccid)
    ensures (ModeAfter(DisableEffects(call), target).Some? && Ended(ModeAfter(DisableEffects(call), target).value))
            <==> !(FallsBack(call) && Uncertain(call.second))
  {
    assert ModeAfter([], target) == Some(Free(false, false));
    hide ModeAfter;
    if !call.waited {
      assert [LockESIM, UnlockESIM] == [] + [LockESIM] + [UnlockESIM];
      Appended([], LockESIM, target);
      Appended([] + [LockESIM], UnlockESIM, target);
    } else if !call.channelOpen {
      assert [LockESIM, WaitedOut, UnlockESIM] == [] + [LockESIM] + [WaitedOut] + [UnlockESIM];
      Appended([], LockESIM, target);
      Appended([] + [LockESIM], WaitedOut, target);
      Appended([] + [LockESIM] + [WaitedOut], UnlockESIM, target);
    } else {
      DisableSends(call, target);
      var head := [LockESIM, WaitedOut, Commit(call.first)];
      var sent := if FallsBack(call) then head + [Commit(call.second)] else head;
      var reply := if FallsBack(call) then call.second else call.first;
      var starts := Uncertain(Effective(call)) || Effective(call) == Code(0);
      TailKept(sent, reply, FallsBack(call), starts, target);
      assert DisableEffects(call) == sent + (if starts then [StartRecovery, UnlockESIM] else [UnlockESIM]);
    }
  }

  // How a call may end after its last commit.
  lemma TailKept(sent: seq<Effect>, reply: Reply, fallback: bool, starts: bool, target: Iccid)
    requires ModeAfter(sent, target) == Some(Sent(reply, fallback, false))
    ensures var m := ModeAfter(sent + (if starts then [StartRecovery, UnlockESIM] else [UnlockESIM]), target);
            (m.Some? && Ended(m.value)) <==> (starts <==> Uncertain(reply) || reply == Code(0))
  {
    hide ModeAfter;
    Appended(sent, StartRecovery, target);
    Appended(sent + [StartRecovery], UnlockESIM, target);
    Appended(sent, UnlockESIM, target);
    assert sent + [StartRecovery] + [UnlockESIM] == sent + [StartRecovery, UnlockESIM];
  }

  // The failing case: commandError to the ICCID, then no answer to the commit by AID.
  lemma DisableLosesAnUncertainCommit()
    ensures var call := DisableCall(true, true, false, Code(7), true, Lost(false));
      && DisableEffects(call) == [LockESIM, WaitedOut, Commit(Code(7)), Commit(Lost(false)), UnlockESIM]
      && StartRecovery !in DisableEffects(call)
  {
    var call := DisableCall(true, true, false, Code(7), true, Lost(false));
    assert DisableEffects(call) == [LockESIM, WaitedOut, Commit(Code(7)), Commit(Lost(false)), UnlockESIM];
  }
}
