/** The data-call table: one slot per call, the first free slot picked once when
    a call is requested and again when the reply arrives. */
module DataCalls {

  const SLOTS := 4

  /** The five cells; only the first four are ever used. */
  const EMPTY_TABLE: seq<int> := [-1, -1, -1, -1, -1]

  /** The first of the four slots that is free, or 4. */
  function FirstFree(table: seq<int>): (i: nat)
    requires |table| == 5
    ensures i <= SLOTS && (i < SLOTS ==> table[i] < 0)
    ensures forall j :: 0 <= j < i ==> table[j] >= 0
  {
    if table[0] < 0 then 0 else if table[1] < 0 then 1 else if table[2] < 0 then 2 else if table[3] < 0 then 3 else 4
  }

  /** The first of the four slots that holds the cid, or 4. */
  function SlotOf(table: seq<int>, cid: int): (i: nat)
    requires |table| == 5
    ensures i <= SLOTS && (i < SLOTS ==> table[i] == cid)
    ensures forall j :: 0 <= j < i ==> table[j] != cid
  {
    if table[0] == cid then 0 else if table[1] == cid then 1 else if table[2] == cid then 2
    else if table[3] == cid then 3 else 4
  }

  /** The interface id written into a setup request: slot number plus one, or 0. */
  function RequestedId(table: seq<int>): int
    requires |table| == 5
  {
    if FirstFree(table) < SLOTS then FirstFree(table) + 1 else 0
  }

  function AfterReply(table: seq<int>, cid: int): seq<int>
    requires |table| == 5
  {
    if cid >= 0 && FirstFree(table) < SLOTS then table[FirstFree(table) := cid] else table
  }

  function AfterDeactivate(table: seq<int>, cid: int): seq<int>
    requires |table| == 5
  {
    if SlotOf(table, cid) < SLOTS then table[SlotOf(table, cid) := -1] else table
  }

  /** Reply(k, cid) answers the setup that was event number k of the run. */
  datatype Event = Setup | Reply(setup: nat, cid: int) | Deactivate(cid: int)

  /** The table, the id each setup asked for, and for each slot the setup whose
      call occupies it. */
  datatype Calls = Calls(table: seq<int>, requested: map<nat, int>, owner: seq<nat>)

  function Step(s: Calls, e: Event, time: nat): (t: Calls)
    requires |s.table| == 5 && |s.owner| == 5
    ensures |t.table| == 5 && |t.owner| == 5
  {
    match e
    case Setup => s.(requested := s.requested[time := RequestedId(s.table)])
    case Reply(setup, cid) =>
      s.(table := AfterReply(s.table, cid),
         owner := if cid >= 0 && FirstFree(s.table) < SLOTS then s.owner[FirstFree(s.table) := setup] else s.owner)
    case Deactivate(cid) => s.(table := AfterDeactivate(s.table, cid))
  }

  function Run(events: seq<Event>): (s: Calls)
    ensures |s.table| == 5 && |s.owner| == 5
  {
    if events == [] then Calls(EMPTY_TABLE, map[], [0, 0, 0, 0, 0])
    else Step(Run(events[..|events| - 1]), events[|events| - 1], |events| - 1)
  }

  lemma {:induction false} RunStep(events: seq<Event>, k: nat)
    requires k < |events|
    ensures Run(events[..k + 1]) == Step(Run(events[..k]), events[k], k)
  {
    assert events[..k + 1][..k] == events[..k];
  }

  // ---- Accounting, for every run ----

  function Occupied(table: seq<int>): nat
    requires |table| == 5
  {
    (if table[0] >= 0 then 1 else 0) + (if table[1] >= 0 then 1 else 0)
    + (if table[2] >= 0 then 1 else 0) + (if table[3] >= 0 then 1 else 0)
  }

  /** A reply is stored when it reports a cid and some slot is free. */
  predicate Stores(table: seq<int>, e: Event)
    requires |table| == 5
  {
    e.Reply? && e.cid >= 0 && Occupied(table) < SLOTS
  }

  /** A deactivation frees a slot when one of the four holds its cid. */
  predicate Frees(table: seq<int>, e: Event)
    requires |table| == 5
  {
    e.Deactivate? && e.cid >= 0 && e.cid in table[..SLOTS]
  }

  function StoredCount(events: seq<Event>): nat {
    if events == [] then 0
    else
      var front := events[..|events| - 1];
      StoredCount(front) + if Stores(Run(front).table, events[|events| - 1]) then 1 else 0
  }

  function FreedCount(events: seq<Event>): nat {
    if events == [] then 0
    else
      var front := events[..|events| - 1];
      FreedCount(front) + if Frees(Run(front).table, events[|events| - 1]) then 1 else 0
  }

  ghost predicate Reported(events: seq<Event>, cid: int) {
    exists i :: 0 <= i < |events| && events[i].Reply? && events[i].cid == cid
  }

  lemma {:induction false} OneStepAccounts(s: Calls, e: Event, time: nat)
    requires |s.table| == 5 && |s.owner| == 5
    requires forall i :: 0 <= i < 5 ==> s.table[i] >= -1
    ensures Occupied(Step(s, e, time).table)
         == Occupied(s.table) + (if Stores(s.table, e) then 1 else 0) - (if Frees(s.table, e) then 1 else 0)
    ensures forall i :: 0 <= i < 5 ==>
      var c := Step(s, e, time).table[i];
      c == s.table[i] || (c == -1 && e.Deactivate? && e.cid == s.table[i])
      || (c == e.cid && e.Reply? && c >= 0 && s.table[i] == -1 && i < SLOTS)
  {
  }

  /** In every run the occupied slots number the stored replies minus the freeing
      deactivations, at most four; a slot holds -1 or a cid some reply reported;
      the fifth cell is never written. */
  lemma {:induction false} EveryRunAccounts(events: seq<Event>)
    ensures var table := Run(events).table;
      && Occupied(table) == StoredCount(events) - FreedCount(events) <= SLOTS
      && table[4] == -1
      && forall i :: 0 <= i < 5 ==> table[i] == -1 || (table[i] >= 0 && Reported(events, table[i]))
  {
    if events != [] {
      var front := events[..|events| - 1];
      var e := events[|events| - 1];
      EveryRunAccounts(front);
      OneStepAccounts(Run(front), e, |events| - 1);
      forall i | 0 <= i < 5
        ensures Run(events).table[i] == -1 || (Run(events).table[i] >= 0 && Reported(events, Run(events).table[i]))
      {
        var c := Run(events).table[i];
        if c != -1 && c == Run(front).table[i] {
          var j :| 0 <= j < |front| && front[j].Reply? && front[j].cid == c;
          assert events[j].Reply?;
        }
      }
    }
  }

  /** Deactivating a call just stored undoes the store if and only if no slot
      below the first free one already held its cid. */
  lemma {:induction false} DeactivateUndoesReply(table: seq<int>, cid: int)
    requires |table| == 5 && cid >= 0
    requires forall i :: 0 <= i < 5 ==> table[i] >= -1
    ensures AfterDeactivate(AfterReply(table, cid), cid) == table <==> FirstFree(table) <= SlotOf(table, cid)
  {
    var after := AfterDeactivate(AfterReply(table, cid), cid);
    var i := SlotOf(table, cid);
    if i < FirstFree(table) { assert after[i] == -1 && table[i] == cid; }
  }

  // ---- Requested ids and slots ----

  /** Nothing between setup r and time k changes which slot is first free: only
      setups, replies without a cid, and deactivations of calls further up. */
  ghost predicate Undisturbed(events: seq<Event>, r: nat, k: nat)
    requires k <= |events|
  {
    forall j :: r < j < k ==> KeepsFirstFree(Run(events[..j]).table, events[j])
  }

  predicate KeepsFirstFree(table: seq<int>, e: Event)
    requires |table| == 5
  {
    match e
    case Setup => true
    case Reply(_, cid) => cid < 0
    case Deactivate(cid) => cid < 0 || SlotOf(table, cid) >= FirstFree(table)
  }

  ghost predicate AnswersUndisturbed(events: seq<Event>, k: nat)
    requires k < |events|
  {
    events[k].Reply? && events[k].cid >= 0 ==>
      && events[k].setup < k && events[events[k].setup].Setup?
      && Undisturbed(events, events[k].setup, k)
  }

  ghost predicate Orderly(events: seq<Event>) {
    forall k :: 0 <= k < |events| ==> AnswersUndisturbed(events, k)
  }

  ghost predicate FreshCids(events: seq<Event>) {
    forall k :: 0 <= k < |events| && events[k].Reply? && events[k].cid >= 0 ==> events[k].cid !in Run(events[..k]).table
  }

  lemma {:induction false} FirstFreeKept(s: Calls, e: Event, time: nat)
    requires |s.table| == 5 && |s.owner| == 5
    requires forall i :: 0 <= i < 5 ==> s.table[i] >= -1
    requires KeepsFirstFree(s.table, e)
    ensures FirstFree(Step(s, e, time).table) == FirstFree(s.table)
  {
  }

  lemma {:induction false} RequestStaysOpen(events: seq<Event>, r: nat, k: nat)
    requires r < k <= |events| && events[r].Setup? && Undisturbed(events, r, k)
    ensures FirstFree(Run(events[..k]).table) == FirstFree(Run(events[..r]).table)
    ensures r in Run(events[..k]).requested && Run(events[..k]).requested[r] == RequestedId(Run(events[..r]).table)
    decreases k
  {
    RunStep(events, k - 1);
    if r < k - 1 {
      RequestStaysOpen(events, r, k - 1);
      EveryRunAccounts(events[..k - 1]);
      assert KeepsFirstFree(Run(events[..k - 1]).table, events[k - 1]);
      FirstFreeKept(Run(events[..k - 1]), events[k - 1], k - 1);
    }
  }

  /** Each occupied slot belongs to a setup that asked for exactly that slot. */
  ghost predicate IdsMatchSlots(s: Calls)
    requires |s.table| == 5 && |s.owner| == 5
  {
    forall i :: 0 <= i < SLOTS && s.table[i] >= 0 ==> s.owner[i] in s.requested && s.requested[s.owner[i]] == i + 1
  }

  /** Event k reports a cid while some slot is free. */
  predicate StoresAt(events: seq<Event>, k: nat)
    requires k < |events|
  {
    events[k].Reply? && events[k].cid >= 0 && FirstFree(Run(events[..k]).table) < SLOTS
  }

  /** The reply at k answers an earlier setup, and the slot that was first free
      at the request is first free again at the reply. */
  predicate LandsWhereAsked(events: seq<Event>, k: nat)
    requires k < |events| && events[k].Reply?
  {
    var r := events[k].setup;
    r < k && events[r].Setup? && FirstFree(Run(events[..r]).table) == FirstFree(Run(events[..k]).table)
  }

  ghost predicate AllLandWhereAsked(events: seq<Event>) {
    forall k :: 0 <= k < |events| && StoresAt(events, k) ==> LandsWhereAsked(events, k)
  }

  /** At no point of the run does a slot hold a call that asked for another. */
  ghost predicate AlwaysMatches(events: seq<Event>) {
    forall n :: 0 <= n <= |events| ==> IdsMatchSlots(Run(events[..n]))
  }

  /** The setups known after a run are its setup events, each with the id that
      the table of its time gave it. */
  lemma {:induction false} RequestedAt(events: seq<Event>, r: nat)
    ensures r in Run(events).requested <==> r < |events| && events[r].Setup?
    ensures r in Run(events).requested ==> Run(events).requested[r] == RequestedId(Run(events[..r]).table)
  {
    if events != [] {
      var n := |events| - 1;
      var front := events[..n];
      RequestedAt(front, r);
      if r < n {
        assert front[..r] == events[..r] && front[r] == events[r];
      }
    }
  }

  /** A store keeps the match exactly when it lands where it was asked for. */
  lemma {:induction false} StoreMatches(events: seq<Event>, k: nat)
    requires k < |events| && StoresAt(events, k) && IdsMatchSlots(Run(events[..k]))
    ensures IdsMatchSlots(Run(events[..k + 1])) <==> LandsWhereAsked(events, k)
  {
    var before, after := Run(events[..k]), Run(events[..k + 1]);
    var r := events[k].setup;
    RunStep(events, k);
    RequestedAt(events[..k], r);
    if r < k { assert events[..k][..r] == events[..r]; }
    var i := FirstFree(before.table);
    assert after.table[i] == events[k].cid && after.owner[i] == r && after.requested == before.requested;
  }

  lemma {:induction false} OtherEventsKeepMatch(events: seq<Event>, k: nat)
    requires k < |events| && !StoresAt(events, k) && IdsMatchSlots(Run(events[..k]))
    ensures IdsMatchSlots(Run(events[..k + 1]))
  {
    RunStep(events, k);
    OwnersAreEarlier(events[..k]);
    EveryRunAccounts(events[..k]);
  }

  /** The requested interface ids match the slots throughout a run if and only if
      every stored reply finds the same first free slot as its setup did. */
  lemma {:induction false} MatchesExactly(events: seq<Event>)
    ensures AlwaysMatches(events) <==> AllLandWhereAsked(events)
  {
    if AlwaysMatches(events) {
      forall k | 0 <= k < |events| && StoresAt(events, k) ensures LandsWhereAsked(events, k) {
        StoreMatches(events, k);
      }
    }
    if AllLandWhereAsked(events) {
      forall n | 0 <= n <= |events| ensures IdsMatchSlots(Run(events[..n])) { MatchesUpTo(events, n); }
    }
  }

  lemma {:induction false} MatchesUpTo(events: seq<Event>, n: nat)
    requires AllLandWhereAsked(events) && n <= |events|
    ensures IdsMatchSlots(Run(events[..n]))
  {
    if n > 0 {
      MatchesUpTo(events, n - 1);
      if StoresAt(events, n - 1) {
        assert LandsWhereAsked(events, n - 1);
        StoreMatches(events, n - 1);
      } else {
        OtherEventsKeepMatch(events, n - 1);
      }
    }
  }

  lemma {:induction false} OrderlyLandsWhereAsked(events: seq<Event>)
    requires Orderly(events)
    ensures AllLandWhereAsked(events)
  {
    forall k | 0 <= k < |events| && StoresAt(events, k) ensures LandsWhereAsked(events, k) {
      assert AnswersUndisturbed(events, k);
      RequestStaysOpen(events, events[k].setup, k);
    }
  }

  /** Undisturbed replies are enough: throughout an orderly run every tracked
      call's requested interface id is its slot number plus one, so tracked calls
      have distinct ids in 1..4. */
  lemma {:induction false} OrderlyRunsMatch(events: seq<Event>)
    requires Orderly(events)
    ensures AlwaysMatches(events) && IdsMatchSlots(Run(events))
    ensures var s := Run(events);
      forall i, j :: 0 <= i < j < SLOTS && s.table[i] >= 0 && s.table[j] >= 0 ==>
        1 <= s.requested[s.owner[i]] < s.requested[s.owner[j]] <= SLOTS
  {
    OrderlyLandsWhereAsked(events);
    MatchesExactly(events);
    assert events[..|events|] == events;
  }

  /** Only earlier events are known as setups. */
  lemma {:induction false} OwnersAreEarlier(events: seq<Event>)
    ensures forall r :: r in Run(events).requested ==> r < |events|
  {
    if events != [] { OwnersAreEarlier(events[..|events| - 1]); }
  }

  /** The plainest orderly runs: every setup is answered by the very next event. */
  ghost predicate OneAtATime(events: seq<Event>) {
    forall k :: 0 <= k < |events| && events[k].Reply? ==>
      k > 0 && events[k - 1].Setup? && events[k].setup == k - 1
  }

  lemma {:induction false} OneAtATimeIsOrderly(events: seq<Event>)
    requires OneAtATime(events)
    ensures Orderly(events)
  {
  }

  /** Tracked calls have distinct cids when no reported cid was in the table, so
      a deactivation frees the one slot of its call and the cid is gone. */
  lemma {:induction false} FreshCidsStayDistinct(events: seq<Event>)
    requires FreshCids(events)
    ensures var t := Run(events).table; forall i, j :: 0 <= i < j < 5 && t[i] >= 0 ==> t[i] != t[j]
    ensures forall cid :: cid >= 0 ==> cid !in AfterDeactivate(Run(events).table, cid)
  {
    EveryRunAccounts(events);
    if events != [] {
      var front := events[..|events| - 1];
      assert FreshCids(front) by {
        forall k | 0 <= k < |front| ensures front[..k] == events[..k] {}
      }
      FreshCidsStayDistinct(front);
      EveryRunAccounts(front);
      OneStepAccounts(Run(front), events[|events| - 1], |events| - 1);
    }
  }

  /** A setup sends id 0 exactly when all four slots are taken. */
  lemma {:induction false} IdZeroMeansFull(events: seq<Event>)
    ensures RequestedId(Run(events).table) == 0 <==> Occupied(Run(events).table) == SLOTS
    ensures 0 <= RequestedId(Run(events).table) <= SLOTS
  {
  }

  /** Without that order ids collide: two setups with nothing stored or freed in
      between ask for the same interface, in every run. */
  lemma {:induction false} OverlappingSetupsCollide(events: seq<Event>, r: nat, k: nat)
    requires r < k < |events| && events[r].Setup? && events[k].Setup? && Undisturbed(events, r, k)
    ensures var s := Run(events[..k + 1]); r in s.requested && k in s.requested && s.requested[r] == s.requested[k]
  {
    RequestStaysOpen(events, r, k);
    RunStep(events, k);
  }

  /** The concrete case: two overlapping setups, and the second call lands in a
      slot it never asked for. */
  lemma {:induction false} OverlapBreaksTheMatch()
    ensures !IdsMatchSlots(Run([Setup, Setup, Reply(0, 5), Reply(1, 6)]))
  {
    var es := [Setup, Setup, Reply(0, 5), Reply(1, 6)];
    RunStep(es, 0);
    RunStep(es, 1);
    RunStep(es, 2);
    RunStep(es, 3);
    assert es[..0] == [] && es[..4] == es;
    var s := Run(es);
    assert s.table[1] == 6 && s.owner[1] == 1 && s.requested[1] == 1;
  }

  /** Order is not needed: the same overlap matches throughout when the first
      call is given up before the second reply. */
  lemma {:induction false} DisorderCanMatch()
    ensures var es := [Setup, Setup, Reply(0, 5), Deactivate(5), Reply(1, 6)]; !Orderly(es) && AlwaysMatches(es)
  {
    var es := [Setup, Setup, Reply(0, 5), Deactivate(5), Reply(1, 6)];
    RunStep(es, 0);
    RunStep(es, 1);
    RunStep(es, 2);
    RunStep(es, 3);
    assert es[..0] == [];
    assert Run(es[..2]).table == EMPTY_TABLE && Run(es[..4]).table == EMPTY_TABLE;
    assert !KeepsFirstFree(Run(es[..2]).table, es[2]);
    assert !AnswersUndisturbed(es, 4);
    assert LandsWhereAsked(es, 2) && LandsWhereAsked(es, 4);
    MatchesExactly(es);
  }
}
