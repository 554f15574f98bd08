/**
 Installing and tearing down the protected rule. Any command may fail, and a command that fails
 may still have taken effect; nothing else edits the table between the listing and the last command.
 */
module ProtectedRoute {
  import opened Results
  import opened RoutingRule
  import opened RoutingTable

  // ---- The kernel -----------------------------------------------------------------------------

  predicate Deletable(r: KernelRule, id: Identity, protocol: Option<U32>) {
    HasIdentity(r, id) && (protocol.Some? ==> r.protocol == protocol)
  }

  // `rule del`: the first rule that agrees with every selector given; missing when there is none.
  function DeleteFirst(rules: seq<KernelRule>, id: Identity, protocol: Option<U32>): seq<KernelRule> {
    if rules == [] then []
    else if Deletable(rules[0], id, protocol) then rules[1..]
    else [rules[0]] + DeleteFirst(rules[1..], id, protocol)
  }

  // `rule add`: behind every rule of the same or a smaller priority.
  function Insert(rules: seq<KernelRule>, r: KernelRule): seq<KernelRule> {
    if rules == [] || r.priority < rules[0].priority then [r] + rules
    else [rules[0]] + Insert(rules[1..], r)
  }

  // The rule the add command describes; the kernel records some protocol for it.
  function Protected(id: Identity, protocol: Option<Protocol>): KernelRule {
    KernelRule(id.priority, false, None, None, None, Some(Mark(id.mark, FULL)), None, None, [],
               Lookup(id.table, []), protocol)
  }

  // One delete for each protocol, in order; `acts` says which of them take effect.
  function DeleteEach(rules: seq<KernelRule>, id: Identity, ps: seq<Option<U32>>, acts: seq<bool>): seq<KernelRule>
    requires |ps| == |acts|
    decreases |ps|
  {
    if ps == [] then rules
    else DeleteEach(if acts[0] then DeleteFirst(rules, id, ps[0]) else rules, id, ps[1..], acts[1..])
  }

  function Protocols(rules: seq<KernelRule>): seq<Option<U32>> {
    if rules == [] then [] else [rules[0].protocol] + Protocols(rules[1..])
  }

  // The deletes that a teardown of this table issues, once no conflict shows.
  function Issued(rules: seq<KernelRule>, id: Identity): seq<Option<U32>> { Protocols(OwnedRules(rules, id)) }

  lemma IssuedTail(rules: seq<KernelRule>, id: Identity)
    requires rules != []
    ensures Issued(rules, id) ==
            (if IsOwned(rules[0], id) then [rules[0].protocol] else []) + Issued(rules[1..], id)
  {
    hide IsOwned;
    var owned := OwnedRules(rules[1..], id);
    assert ([rules[0]] + owned)[1..] == owned && [] + owned == owned;
    assert [] + Protocols(owned) == Protocols(owned);
  }

  // ---- When a delete may take a foreign rule ------------------------------------------------------

  // A foreign rule that the delete for a later owned rule matches as well.
  ghost predicate InDanger(rules: seq<KernelRule>, id: Identity) {
    exists k, m | 0 <= k < m < |rules| ::
      Narrowed(rules[k], id) && IsOwned(rules[m], id) && Deletable(rules[k], id, rules[m].protocol)
  }

  // The teardown goes ahead, and a foreign rule is in the way.
  ghost predicate Exposed(rules: seq<KernelRule>, id: Identity) { !Detected(rules, id) && InDanger(rules, id) }

  lemma {:induction false} ProtocolOf(rules: seq<KernelRule>, id: Identity, p: Option<U32>)
    ensures p in Issued(rules, id) <==> exists m | 0 <= m < |rules| :: IsOwned(rules[m], id) && rules[m].protocol == p
  {
    hide IsOwned, Issued;
    if rules == [] {
      assert Issued(rules, id) == [] by { NothingIssued(id); }
    } else {
      var rest := rules[1..];
      IssuedTail(rules, id);
      ProtocolOf(rest, id, p);
      if p in Issued(rest, id) {
        var m :| 0 <= m < |rest| && IsOwned(rest[m], id) && rest[m].protocol == p;
        assert rules[m + 1] == rest[m];
      }
      if m :| 0 <= m < |rules| && IsOwned(rules[m], id) && rules[m].protocol == p {
        if m > 0 { assert rest[m - 1] == rules[m]; }
      }
    }
  }

  lemma NothingIssued(id: Identity)
    ensures Issued([], id) == []
  {}

  lemma DangerTail(rules: seq<KernelRule>, id: Identity)
    requires rules != []
    ensures InDanger(rules, id) <==>
            || InDanger(rules[1..], id)
            || (Narrowed(rules[0], id) && exists p :: p in Issued(rules[1..], id) && Deletable(rules[0], id, p))
  {
    hide IsOwned, Deletable, Narrowed, Issued;
    var rest := rules[1..];
    if InDanger(rest, id) {
      var k, m :| 0 <= k < m < |rest| && Narrowed(rest[k], id) && IsOwned(rest[m], id)
                  && Deletable(rest[k], id, rest[m].protocol);
      assert rules[k + 1] == rest[k] && rules[m + 1] == rest[m];
    }
    if Narrowed(rules[0], id) && exists p :: p in Issued(rest, id) && Deletable(rules[0], id, p) {
      var p :| p in Issued(rest, id) && Deletable(rules[0], id, p);
      ProtocolOf(rest, id, p);
      var m :| 0 <= m < |rest| && IsOwned(rest[m], id) && rest[m].protocol == p;
      assert rules[m + 1] == rest[m];
    }
    if InDanger(rules, id) {
      var k, m :| 0 <= k < m < |rules| && Narrowed(rules[k], id) && IsOwned(rules[m], id)
                  && Deletable(rules[k], id, rules[m].protocol);
      assert rest[m - 1] == rules[m];
      if k > 0 { assert rest[k - 1] == rules[k]; } else { ProtocolOf(rest, id, rules[m].protocol); }
    }
  }

  // The owned rules that the deletes stand for are there, in order, and no foreign rule is in their way.
  ghost predicate Guarded(rules: seq<KernelRule>, id: Identity, ps: seq<Option<U32>>)
    decreases |rules|
  {
    if ps == [] then true
    else if rules == [] then false
    else if IsOwned(rules[0], id) then
      Guarded(rules[1..], id, ps) || (rules[0].protocol == ps[0] && Guarded(rules[1..], id, ps[1..]))
    else (forall p | p in ps :: !Deletable(rules[0], id, p)) && Guarded(rules[1..], id, ps)
  }

  lemma {:induction false} GuardedFromStart(rules: seq<KernelRule>, id: Identity)
    requires !InDanger(rules, id)
    ensures Guarded(rules, id, Issued(rules, id))
  {
    hide IsOwned, Deletable, InDanger;
    if rules != [] {
      DangerTail(rules, id);
      GuardedFromStart(rules[1..], id);
      OnlyNarrowedInTheWay(rules[0], id);
      IssuedTail(rules, id);
      if IsOwned(rules[0], id) {
        assert Issued(rules, id)[1..] == Issued(rules[1..], id);
      } else {
        assert [] + Issued(rules[1..], id) == Issued(rules[1..], id);
        assert Narrowed(rules[0], id) || forall p :: !Deletable(rules[0], id, p);
      }
    }
  }

  lemma OnlyNarrowedInTheWay(r: KernelRule, id: Identity)
    ensures !IsOwned(r, id) && !Narrowed(r, id) ==> forall p :: !Deletable(r, id, p)
  {}

  lemma {:induction false} GuardedFewer(rules: seq<KernelRule>, id: Identity, ps: seq<Option<U32>>)
    requires ps != [] && Guarded(rules, id, ps)
    ensures Guarded(rules, id, ps[1..])
    decreases |rules|
  {
    hide IsOwned, Deletable;
    if Guarded(rules[1..], id, ps) { GuardedFewer(rules[1..], id, ps); }
  }

  // One guarded delete takes an owned rule, and guards the rest.
  lemma {:induction false} GuardedDelete(rules: seq<KernelRule>, id: Identity, ps: seq<Option<U32>>)
    requires ps != [] && Guarded(rules, id, ps)
    ensures var after := DeleteFirst(rules, id, ps[0]);
            && Foreign(after, id) == Foreign(rules, id) && |after| == |rules| - 1
            && Guarded(after, id, ps[1..])
    decreases |rules|
  {
    hide HasIdentity, Plain;
    var rest := rules[1..];
    if Deletable(rules[0], id, ps[0]) {
      if Guarded(rest, id, ps) { GuardedFewer(rest, id, ps); }
    } else {
      assert Guarded(rest, id, ps);
      GuardedDelete(rest, id, ps);
      var shorter := DeleteFirst(rest, id, ps[0]);
      assert ([rules[0]] + shorter)[1..] == shorter;
    }
  }

  function Trues(acts: seq<bool>): nat {
    if acts == [] then 0 else (if acts[0] then 1 else 0) + Trues(acts[1..])
  }

  lemma {:induction false} GuardedDeletes(rules: seq<KernelRule>, id: Identity, ps: seq<Option<U32>>, acts: seq<bool>)
    requires |ps| == |acts| && Guarded(rules, id, ps)
    ensures var after := DeleteEach(rules, id, ps, acts);
            Foreign(after, id) == Foreign(rules, id) && |after| == |rules| - Trues(acts)
    decreases |ps|
  {
    hide Guarded, Foreign, DeleteFirst;
    if ps != [] {
      GuardedDelete(rules, id, ps);
      GuardedFewer(rules, id, ps);
      GuardedDeletes(if acts[0] then DeleteFirst(rules, id, ps[0]) else rules, id, ps[1..], acts[1..]);
    }
  }

  lemma {:induction false} ForeignOnlyShrinks(rules: seq<KernelRule>, id: Identity, p: Option<U32>)
    ensures |Foreign(DeleteFirst(rules, id, p), id)| <= |Foreign(rules, id)|
  {
    hide IsOwned, Deletable;
    if rules != [] && !Deletable(rules[0], id, p) {
      ForeignOnlyShrinks(rules[1..], id, p);
      var shorter := DeleteFirst(rules[1..], id, p);
      assert ([rules[0]] + shorter)[1..] == shorter;
    }
  }

  lemma {:induction false} ForeignNeverGrows(
      rules: seq<KernelRule>, id: Identity, ps: seq<Option<U32>>, acts: seq<bool>)
    requires |ps| == |acts|
    ensures |Foreign(DeleteEach(rules, id, ps, acts), id)| <= |Foreign(rules, id)|
    decreases |ps|
  {
    hide Foreign, DeleteFirst;
    if ps != [] {
      var next := if acts[0] then DeleteFirst(rules, id, ps[0]) else rules;
      if acts[0] { ForeignOnlyShrinks(rules, id, ps[0]); }
      ForeignNeverGrows(next, id, ps[1..], acts[1..]);
    }
  }

  // The first delete takes a foreign rule, or the first owned one and leaves the danger where it is.
  lemma {:induction false} FirstDelete(rules: seq<KernelRule>, id: Identity)
    requires OwnedRules(rules, id) != []
    ensures var after := DeleteFirst(rules, id, OwnedRules(rules, id)[0].protocol);
            || |Foreign(after, id)| < |Foreign(rules, id)|
            || (OwnedRules(after, id) == OwnedRules(rules, id)[1..] && (InDanger(rules, id) ==> InDanger(after, id)))
  {
    hide HasIdentity, Plain, InDanger;
    var p := OwnedRules(rules, id)[0].protocol;
    DangerTail(rules, id);
    if !IsOwned(rules[0], id) && !Deletable(rules[0], id, p) {
      var rest := rules[1..];
      FirstDelete(rest, id);
      var shorter := DeleteFirst(rest, id, p);
      var after := [rules[0]] + shorter;
      assert after[1..] == shorter;
      DangerTail(after, id);
      if |Foreign(shorter, id)| >= |Foreign(rest, id)| {
        assert Issued(rest, id) == [p] + Issued(shorter, id);
      }
    }
  }

  // Out of danger, that delete takes the owned rule it is issued for.
  lemma DeleteTakesFirstOwned(rules: seq<KernelRule>, id: Identity)
    requires OwnedRules(rules, id) != [] && !InDanger(rules, id)
    ensures var after := DeleteFirst(rules, id, OwnedRules(rules, id)[0].protocol);
            OwnedRules(after, id) == OwnedRules(rules, id)[1..] && Foreign(after, id) == Foreign(rules, id)
  {
    GuardedFromStart(rules, id);
    GuardedDelete(rules, id, Issued(rules, id));
    FirstDelete(rules, id);
  }

  function AllActing(n: nat): seq<bool> { seq(n, _ => true) }

  lemma {:induction false} DangerStrikes(rules: seq<KernelRule>, id: Identity)
    requires InDanger(rules, id)
    ensures var ps := Issued(rules, id);
            |Foreign(DeleteEach(rules, id, ps, AllActing(|ps|)), id)| < |Foreign(rules, id)|
    decreases |OwnedRules(rules, id)|
  {
    hide InDanger, Foreign, OwnedRules, DeleteFirst;
    var ps := Issued(rules, id);
    DangerHasOwned(rules, id);
    FirstDelete(rules, id);
    var next := DeleteFirst(rules, id, ps[0]);
    assert AllActing(|ps|)[1..] == AllActing(|ps| - 1);
    if |Foreign(next, id)| < |Foreign(rules, id)| {
      ForeignNeverGrows(next, id, ps[1..], AllActing(|ps| - 1));
    } else {
      assert Issued(next, id) == ps[1..];
      ForeignOnlyShrinks(rules, id, ps[0]);
      DangerStrikes(next, id);
    }
  }

  lemma DangerHasOwned(rules: seq<KernelRule>, id: Identity)
    requires InDanger(rules, id)
    ensures OwnedRules(rules, id) != []
  {
    var k, m :| 0 <= k < m < |rules| && Narrowed(rules[k], id) && IsOwned(rules[m], id)
                && Deletable(rules[k], id, rules[m].protocol);
    ProtocolOf(rules, id, rules[m].protocol);
  }

  /**
   The deletes of a teardown leave every foreign rule in place, whichever of them take effect, if and only
   if no foreign rule is in danger.
   */
  lemma DeletesSpareForeignIff(rules: seq<KernelRule>, id: Identity)
    ensures var ps := Issued(rules, id);
            (forall acts: seq<bool> | |acts| == |ps| ::
               Foreign(DeleteEach(rules, id, ps, acts), id) == Foreign(rules, id))
            <==> !InDanger(rules, id)
  {
    hide InDanger, Foreign, OwnedRules, DeleteEach;
    var ps := Issued(rules, id);
    if InDanger(rules, id) {
      DangerStrikes(rules, id);
      assert |AllActing(|ps|)| == |ps|;
    } else {
      GuardedFromStart(rules, id);
      forall acts: seq<bool> | |acts| == |ps|
        ensures Foreign(DeleteEach(rules, id, ps, acts), id) == Foreign(rules, id)
      {
        GuardedDeletes(rules, id, ps, acts);
      }
    }
  }

  /** No rule out of step, no exposure: conflicts are then seen before anything is deleted. */
  lemma InStepIsNotExposed(rules: seq<KernelRule>, id: Identity)
    requires forall i | 0 <= i < |rules| :: InStep(rules[i])
    ensures !Exposed(rules, id) && (HasConflict(rules, id) <==> Detected(rules, id))
  {
    if InDanger(rules, id) {
      var k, m :| 0 <= k < m < |rules| && Narrowed(rules[k], id) && IsOwned(rules[m], id)
                  && Deletable(rules[k], id, rules[m].protocol);
      assert Narrowed(rules[k], id) && InStep(rules[k]);
    }
  }

  // ---- What the two operations promise ----------------------------------------------------------

  // A teardown: nothing when a conflict shows, and otherwise the deletes, some of which took effect.
  ghost predicate TornDown(before: seq<KernelRule>, after: seq<KernelRule>, id: Identity, ok: bool) {
    && (Detected(before, id) ==> !ok && after == before)
    && exists acts: seq<bool> ::
         && |acts| == |Issued(before, id)| && after == DeleteEach(before, id, Issued(before, id), acts)
         && (ok ==> acts == AllActing(|acts|))
  }

  predicate Adds(before: seq<KernelRule>, after: seq<KernelRule>, id: Identity, p: Option<Protocol>) {
    after == Insert(before, Protected(id, p))
  }

  ghost predicate Ensured(before: seq<KernelRule>, after: seq<KernelRule>, id: Identity, ok: bool) {
    && (Detected(before, id) ==> !ok && after == before)
    && (after == before || (OwnedRules(before, id) == [] && exists p: Option<Protocol> :: Adds(before, after, id, p)))
    && (ok ==> OwnedRules(after, id) != [])
  }

  // Whether a command took effect, and whether the host reported success or, for a delete, a missing rule.
  datatype Reply = Reply(acted: bool, answered: bool)

  function Acted(replies: nat -> Reply, n: nat): seq<bool> { seq(n, i requires 0 <= i < n => replies(i).acted) }

  class RuleTable {
    var rules: seq<KernelRule>

    constructor (initial: seq<KernelRule>)
      ensures rules == initial
    {
      rules := initial;
    }

    // One delete command; a missing rule is tolerated like a removed one.
    method Delete(id: Identity, protocol: Option<U32>, reply: Reply) returns (tolerated: bool)
      modifies this
      ensures rules == if reply.acted then DeleteFirst(old(rules), id, protocol) else old(rules)
      ensures tolerated == (reply.acted && reply.answered)
    {
      if reply.acted { rules := DeleteFirst(rules, id, protocol); }
      tolerated := reply.acted && reply.answered;
    }

    // clearExportProxyRouteWithError, its part on the rules: what the host answers decides everything.
    method Teardown(id: Identity, listed: bool, replies: nat -> Reply) returns (ok: bool)
      modifies this
      ensures TornDown(old(rules), rules, id, ok)
      ensures !listed || Detected(old(rules), id) ==> !ok && rules == old(rules)
      ensures listed && !Detected(old(rules), id) ==>
                var ps := Issued(old(rules), id);
                && rules == DeleteEach(old(rules), id, ps, Acted(replies, |ps|))
                && (ok <==> forall i | 0 <= i < |ps| :: replies(i).acted && replies(i).answered)
    {
      hide Conflict, Owned, OwnedRules, Protocols, DeleteEach, Listing, DeleteFirst, Detected;
      ghost var start := rules;
      ghost var ps := Issued(start, id);
      NothingDeleted(start, id, ps);
      ghost var none := seq(|ps|, _ => false);
      assert |none| == |ps| && rules == DeleteEach(start, id, ps, none);
      if !listed { return false; }
      var owned, conflict := MatchingExportProxyRules(Listing(rules), id);
      RecognisesExactly(rules, id);
      ProtocolsOf(OwnedRules(start, id));
      if conflict { return false; }
      ok := true;
      DeleteNone(start, id);
      var i := 0;
      assert Acted(replies, 0) == [];
      while i < |owned|
        invariant i <= |owned| == |ps|
        invariant rules == DeleteEach(start, id, ps[..i], Acted(replies, i))
        invariant ok <==> forall k | 0 <= k < i :: replies(k).acted && replies(k).answered
      {
        var tolerated := Delete(id, owned[i].protocol, replies(i));
        DeleteMore(start, id, ps[..i], Acted(replies, i), owned[i].protocol, replies(i).acted);
        assert ps[..i + 1] == ps[..i] + [owned[i].protocol];
        assert Acted(replies, i + 1) == Acted(replies, i) + [replies(i).acted];
        ok := ok && tolerated;
        i := i + 1;
      }
      assert ps[..i] == ps;
      assert ok ==> Acted(replies, |ps|) == AllActing(|ps|);
    }

    // ensureExportProxyRule; `code` is the protocol the kernel records.
    method EnsureRule(id: Identity, listed: bool, reply: Reply, code: int) returns (ok: bool)
      modifies this
      ensures Ensured(old(rules), rules, id, ok)
      ensures var recorded: Option<Protocol> := if 0 < code < 256 then Some(code) else None;
              if !listed || Detected(old(rules), id) then !ok && rules == old(rules)
              else if OwnedRules(old(rules), id) != [] then ok && rules == old(rules)
              else ok == (reply.acted && reply.answered)
                   && rules == if reply.acted then Insert(old(rules), Protected(id, recorded)) else old(rules)
    {
      hide Conflict, Owned, OwnedRules, Listing, Insert, Protected, Detected;
      if !listed { return false; }
      var owned, conflict := MatchingExportProxyRules(Listing(rules), id);
      RecognisesExactly(rules, id);
      if conflict { return false; }
      if owned != [] { return true; }
      var recorded: Option<Protocol> := if 0 < code < 256 then Some(code) else None;
      InsertAddsOwned(rules, id, recorded);
      if reply.acted {
        rules := Insert(rules, Protected(id, recorded));
        assert Adds(old(rules), rules, id, recorded);
      }
      ok := reply.acted && reply.answered;
    }
  }

  lemma {:induction false} ProtocolsOf(rules: seq<KernelRule>)
    ensures |Protocols(rules)| == |rules|
    ensures forall i | 0 <= i < |rules| :: Protocols(rules)[i] == rules[i].protocol
  {
    if rules != [] { ProtocolsOf(rules[1..]); }
  }

  lemma DeleteNone(rules: seq<KernelRule>, id: Identity)
    ensures DeleteEach(rules, id, [], []) == rules
  {}

  lemma {:induction false} NothingDeleted(rules: seq<KernelRule>, id: Identity, ps: seq<Option<U32>>)
    ensures DeleteEach(rules, id, ps, seq(|ps|, _ => false)) == rules
    decreases |ps|
  {
    if ps != [] {
      NothingDeleted(rules, id, ps[1..]);
      assert seq(|ps|, _ => false)[1..] == seq(|ps[1..]|, _ => false);
    }
  }

  lemma {:induction false} DeleteMore(
      rules: seq<KernelRule>, id: Identity, ps: seq<Option<U32>>, acts: seq<bool>, p: Option<U32>, act: bool)
    requires |ps| == |acts|
    ensures var before := DeleteEach(rules, id, ps, acts);
            DeleteEach(rules, id, ps + [p], acts + [act]) == if act then DeleteFirst(before, id, p) else before
    decreases |ps|
  {
    hide DeleteFirst;
    if ps == [] {
      var next := if act then DeleteFirst(rules, id, p) else rules;
      assert ([] + [p])[1..] == ps && ([] + [act])[1..] == acts;
      DeleteNone(next, id);
    } else {
      DeleteMore(if acts[0] then DeleteFirst(rules, id, ps[0]) else rules, id, ps[1..], acts[1..], p, act);
      assert (ps + [p])[1..] == ps[1..] + [p] && (acts + [act])[1..] == acts[1..] + [act];
    }
  }

  lemma {:induction false} InsertAddsOwned(rules: seq<KernelRule>, id: Identity, p: Option<Protocol>)
    ensures var after := Insert(rules, Protected(id, p));
            && Foreign(after, id) == Foreign(rules, id)
            && |OwnedRules(after, id)| == |OwnedRules(rules, id)| + 1
  {
    var own := Protected(id, p);
    var after := Insert(rules, own);
    if rules == [] || own.priority < rules[0].priority {
      assert after[1..] == rules;
    } else {
      InsertAddsOwned(rules[1..], id, p);
      assert after[1..] == Insert(rules[1..], own);
    }
  }

  lemma {:induction false} NothingOwned(rules: seq<KernelRule>, id: Identity)
    ensures |OwnedRules(rules, id)| + |Foreign(rules, id)| == |rules|
    ensures OwnedRules(rules, id) == [] ==> Foreign(rules, id) == rules
  {
    if rules != [] { NothingOwned(rules[1..], id); }
  }

  /** Whenever no foreign rule is exposed, a teardown keeps them all, and a successful one leaves nothing else. */
  lemma TeardownSparesForeign(before: seq<KernelRule>, after: seq<KernelRule>, id: Identity, ok: bool)
    requires TornDown(before, after, id, ok) && !Exposed(before, id)
    ensures Foreign(after, id) == Foreign(before, id)
    ensures ok ==> after == Foreign(before, id)
  {
    hide Detected, InDanger, DeleteEach, OwnedRules, Foreign;
    if !Detected(before, id) {
      var ps := Issued(before, id);
      var acts: seq<bool> :| |acts| == |ps| && after == DeleteEach(before, id, ps, acts)
                             && (ok ==> acts == AllActing(|acts|));
      GuardedFromStart(before, id);
      GuardedDeletes(before, id, ps, acts);
      if ok {
        AllCount(|acts|);
        NothingOwned(before, id);
        NothingOwned(after, id);
        ProtocolsOf(OwnedRules(before, id));
      }
    }
  }

  lemma {:induction false} AllCount(n: nat)
    ensures Trues(AllActing(n)) == n
  {
    if n > 0 {
      assert AllActing(n)[1..] == AllActing(n - 1);
      AllCount(n - 1);
    }
  }

  /** And exactly then: an exposed table has a teardown that takes a foreign rule away. */
  lemma TeardownSparesForeignIff(before: seq<KernelRule>, id: Identity)
    ensures (forall after, ok | TornDown(before, after, id, ok) :: Foreign(after, id) == Foreign(before, id))
            <==> !Exposed(before, id)
  {
    hide Detected, InDanger, DeleteEach, OwnedRules, Foreign;
    if Exposed(before, id) {
      DangerStrikes(before, id);
      var ps := Issued(before, id);
      var acts := AllActing(|ps|);
      assert |acts| == |ps| && acts == AllActing(|acts|);
      assert TornDown(before, DeleteEach(before, id, ps, acts), id, true);
    } else {
      forall after, ok | TornDown(before, after, id, ok) ensures Foreign(after, id) == Foreign(before, id) {
        TeardownSparesForeign(before, after, id, ok);
      }
    }
  }

  /** Installing leaves every foreign rule in its place, in every table. */
  lemma EnsureSparesForeign(before: seq<KernelRule>, after: seq<KernelRule>, id: Identity, ok: bool)
    requires Ensured(before, after, id, ok)
    ensures Foreign(after, id) == Foreign(before, id)
    ensures |OwnedRules(after, id)| <= |OwnedRules(before, id)| + 1
  {
    if after != before {
      var p: Option<Protocol> :| Adds(before, after, id, p);
      InsertAddsOwned(before, id, p);
    }
  }

  // ---- Over several operations ------------------------------------------------------------------

  /** A second install after a successful one changes nothing, whatever it answers. */
  lemma EnsureIsIdempotent(a: seq<KernelRule>, b: seq<KernelRule>, c: seq<KernelRule>, id: Identity, ok: bool)
    requires Ensured(a, b, id, true) && Ensured(b, c, id, ok)
    ensures c == b
  {}

  /**
   Installing on a table without the rule, whatever came of it, and then a successful teardown that exposes
   no rule, restores the table.
   */
  lemma TeardownUndoesEnsure(a: seq<KernelRule>, b: seq<KernelRule>, c: seq<KernelRule>, id: Identity, ok: bool)
    requires OwnedRules(a, id) == [] && Ensured(a, b, id, ok) && TornDown(b, c, id, true) && !Exposed(b, id)
    ensures c == a
  {
    hide Ensured, TornDown, Exposed;
    NothingOwned(a, id);
    EnsureSparesForeign(a, b, id, ok);
    TeardownSparesForeign(b, c, id, true);
  }

  // One operation for some interface, succeeding or not.
  datatype Operation = Operation(teardown: bool, id: Identity, ok: bool)

  ghost predicate Performs(op: Operation, before: seq<KernelRule>, after: seq<KernelRule>) {
    if op.teardown then TornDown(before, after, op.id, op.ok) else Ensured(before, after, op.id, op.ok)
  }

  ghost predicate History(tables: seq<seq<KernelRule>>, ops: seq<Operation>) {
    |tables| == |ops| + 1 && forall i | 0 <= i < |ops| :: Performs(ops[i], tables[i], tables[i + 1])
  }

  predicate OwnedByAny(r: KernelRule, ids: set<Identity>) { exists id | id in ids :: IsOwned(r, id) }

  // The rules that belong to none of the identities in use.
  function Strangers(rules: seq<KernelRule>, ids: set<Identity>): seq<KernelRule> {
    if rules == [] then []
    else Stranger(rules[0], ids) + Strangers(rules[1..], ids)
  }

  function Stranger(r: KernelRule, ids: set<Identity>): seq<KernelRule> { if OwnedByAny(r, ids) then [] else [r] }

  lemma StrangersHead(first: KernelRule, rest: seq<KernelRule>, ids: set<Identity>)
    ensures Strangers([first] + rest, ids) == Stranger(first, ids) + Strangers(rest, ids)
  {
    assert ([first] + rest)[1..] == rest;
  }

  lemma {:induction false} StrangersSplit(a: seq<KernelRule>, b: seq<KernelRule>, ids: set<Identity>)
    ensures Strangers(a + b, ids) == Strangers(a, ids) + Strangers(b, ids)
    decreases |a|
  {
    if a == [] {
      assert a + b == b;
    } else {
      hide Strangers, Stranger;
      StrangersSplit(a[1..], b, ids);
      StrangersHead(a[0], a[1..] + b, ids);
      StrangersHead(a[0], a[1..], ids);
      assert a + b == [a[0]] + (a[1..] + b) && a == [a[0]] + a[1..];
    }
  }

  lemma {:induction false} StrangersAreForeign(rules: seq<KernelRule>, id: Identity, ids: set<Identity>)
    requires id in ids
    ensures Strangers(Foreign(rules, id), ids) == Strangers(rules, ids)
  {
    hide IsOwned;
    if rules != [] {
      StrangersAreForeign(rules[1..], id, ids);
      StrangersSplit(if IsOwned(rules[0], id) then [] else [rules[0]], Foreign(rules[1..], id), ids);
    }
  }

  lemma StepSparesStrangers(op: Operation, before: seq<KernelRule>, after: seq<KernelRule>, ids: set<Identity>)
    requires Performs(op, before, after) && op.id in ids && (op.teardown ==> !Exposed(before, op.id))
    ensures Strangers(after, ids) == Strangers(before, ids)
  {
    hide Strangers, Foreign, OwnedRules, TornDown, Ensured, Exposed;
    if op.teardown {
      TeardownSparesForeign(before, after, op.id, op.ok);
    } else {
      EnsureSparesForeign(before, after, op.id, op.ok);
    }
    StrangersAreForeign(before, op.id, ids);
    StrangersAreForeign(after, op.id, ids);
  }

  /**
   Over any history of installs and teardowns by any interfaces, none of the teardowns meeting an exposed
   rule, every rule that belongs to none of them stays, in its order.
   */
  lemma {:induction false} StrangersStay(tables: seq<seq<KernelRule>>, ops: seq<Operation>, ids: set<Identity>)
    requires History(tables, ops) && forall i | 0 <= i < |ops| :: ops[i].id in ids
    requires forall i | 0 <= i < |ops| && ops[i].teardown :: !Exposed(tables[i], ops[i].id)
    ensures Strangers(tables[|ops|], ids) == Strangers(tables[0], ids)
  {
    hide Strangers, Performs, Exposed;
    if |ops| > 0 {
      var last := |ops| - 1;
      assert History(tables[..|ops|], ops[..last]);
      StrangersStay(tables[..|ops|], ops[..last], ids);
      assert Performs(ops[last], tables[last], tables[last + 1]);
      StepSparesStrangers(ops[last], tables[last], tables[last + 1], ids);
    }
  }

  // ---- Where recognition ends -------------------------------------------------------------------

  // A rule of somebody else, for packets from one interface, ahead of our own.
  function FromInterface(id: Identity, name: string, p: Option<Protocol>): KernelRule {
    Protected(id, p).(iif := Some(Interface(name, false)))
  }

  function Pair(id: Identity, name: string, p: Option<Protocol>): seq<KernelRule> {
    [FromInterface(id, name, p), Protected(id, p)]
  }

  /** It is exposed if and only if the interface is named like a keyword of the listing. */
  lemma KeywordNameExposesIff(id: Identity, name: string, p: Option<Protocol>)
    ensures Exposed(Pair(id, name, p), id) <==> name in KEYWORDS
  {
    hide KEYWORDS;
    var table := Pair(id, name, p);
    assert Narrowed(table[0], id) && IsOwned(table[1], id) && Deletable(table[0], id, table[1].protocol);
    FwmarkIsKeyword();
    assert InStep(table[0]) <==> name !in KEYWORDS;
    assert Detected(table, id) <==> InStep(table[0]);
  }

  lemma FwmarkIsKeyword()
    ensures "fwmark" in KEYWORDS
  {}

  /** Its teardown then succeeds, removes the foreign rule, and leaves our own behind. */
  lemma KeywordNameTakesForeignRule(id: Identity, name: string, p: Option<Protocol>)
    requires name in KEYWORDS
    ensures TornDown(Pair(id, name, p), [Protected(id, p)], id, true)
  {
    hide KEYWORDS;
    var table := Pair(id, name, p);
    KeywordNameExposesIff(id, name, p);
    assert table[1..] == [Protected(id, p)] && table[1..][1..] == [];
    assert !IsOwned(table[0], id) && IsOwned(table[1], id);
    assert OwnedRules([], id) == [];
    assert OwnedRules(table[1..], id) == [Protected(id, p)];
    assert OwnedRules(table, id) == [Protected(id, p)];
    var mine := [Protected(id, p)];
    assert mine[1..] == [] && Protocols([]) == [];
    assert Protocols(mine) == [p] + [];
    assert Issued(table, id) == [p];
    assert DeleteFirst(table, id, p) == table[1..];
    var acts := AllActing(1);
    assert DeleteEach(table, id, [p], acts) == table[1..] by { DeleteNone(table[1..], id); }
  }
}
