// Whole sweeps of the foreman.
module Sweeps {
  import opened Wrappers
  import opened Sequences
  import opened Hunts
  import opened Foreman

  // Three hours in nanoseconds.
  const MAXIMUM_PING_BACKLOG: nat := 3 * 3600 * 1_000_000_000

  // The active hunts, the time of the previous sweep, the time hunts are split
  // at and the time the backlog is computed at.
  datatype Sweep = Sweep(hunts: seq<Hunt>, lastRunTime: int, now: int, backlogNow: int)

  function Clamp(time: int): nat {
    if time < 0 then 0 else time
  }

  predicate NewlyStarted(sw: Sweep, hunt: Hunt) {
    Clamp(sw.lastRunTime) <= hunt.startTime * 1000 < sw.now
  }

  // Clients that pinged after this time are considered for the hunt.
  function WindowStart(sw: Sweep, hunt: Hunt): nat {
    if NewlyStarted(sw, hunt) then Clamp(sw.backlogNow - MAXIMUM_PING_BACKLOG) else Clamp(sw.lastRunTime)
  }

  // A hunt started since the last run is offered to the clients of the last three
  // hours, any other to the clients seen since the last run; times are nanoseconds.
  lemma WindowExact(sw: Sweep, hunt: Hunt, ping: nat)
    requires ping > 0
    ensures WindowStart(sw, hunt) < ping <==>
      if sw.lastRunTime <= hunt.startTime * 1000 < sw.now
      then sw.backlogNow - ping < 10_800_000_000_000
      else sw.lastRunTime < ping
  {
  }

  ghost predicate Planned(docs: seq<ClientDoc>, sw: Sweep, client: ClientId, hunt: Hunt) {
    && hunt in sw.hunts
    && client != "" && PingedAfter(docs, client, WindowStart(sw, hunt))
    && Wants(docs, client, hunt)
  }

  // The declarative meaning of a sweep.
  ghost predicate Eligible(docs: seq<ClientDoc>, sw: Sweep, client: ClientId, id: HuntId) {
    exists h: Hunt :: h.id == id && Planned(docs, sw, client, h) && h.startRequest.Some?
  }

  // The ids a query for recently seen clients delivers, in some order and
  // possibly more than once.
  ghost predicate Enumerates(clients: seq<ClientId>, docs: seq<ClientDoc>, time: nat) {
    forall c :: c in clients <==> c != "" && PingedAfter(docs, c, time)
  }

  function HalfIds(sw: Sweep, started: bool): set<HuntId> {
    set h | h in sw.hunts && NewlyStarted(sw, h) == started :: h.id
  }

  // What one sweep does to the store and the scheduling log.
  datatype State = State(docs: seq<ClientDoc>, log: seq<Pair>)

  // Of the eligible pairs, exactly those of the hunts dealt with are scheduled and
  // recorded, and only others are lost.
  ghost predicate SweepStep(a: State, b: State, sw: Sweep, e: Execution) {
    && b == State(a.docs + AssignmentDocs(e.scheduled), a.log + e.scheduled)
    && NoDuplicates(e.scheduled) && e.done <= Ids(sw.hunts)
    && (forall c, id :: (c, id) in e.scheduled <==> id in e.done && Eligible(a.docs, sw, c, id))
    && (forall c, id :: (c, id) in e.lost ==> id !in e.done && Eligible(a.docs, sw, c, id))
  }

  method SplitHunts(sw: Sweep) returns (started: seq<Hunt>, running: seq<Hunt>)
    ensures forall h :: h in started <==> h in sw.hunts && NewlyStarted(sw, h)
    ensures forall h :: h in running <==> h in sw.hunts && !NewlyStarted(sw, h)
    ensures forall h :: h in started ==> 0 <= h.startTime * 1000 && sw.lastRunTime <= h.startTime * 1000 < sw.now
    ensures forall h :: h in running ==> h.startTime * 1000 < sw.lastRunTime || sw.now <= h.startTime * 1000
  {
    started, running := [], [];
    for i := 0 to |sw.hunts|
      invariant forall h :: h in started <==> h in sw.hunts[..i] && NewlyStarted(sw, h)
      invariant forall h :: h in running <==> h in sw.hunts[..i] && !NewlyStarted(sw, h)
    {
      var hunt := sw.hunts[i];
      assert sw.hunts[..i + 1] == sw.hunts[..i] + [hunt];
      var start := hunt.startTime * 1000;
      var early := if sw.lastRunTime < 0 then 0 else sw.lastRunTime;
      if start >= early && start < sw.now {
        started := started + [hunt];
      } else {
        running := running + [hunt];
      }
    }
    assert sw.hunts[..|sw.hunts|] == sw.hunts;
  }

  // One sweep. Newly started hunts are planned for the backlog of clients while
  // the running hunts are planned for the recent ones; each plan may see any
  // assignments the other one has recorded by then. Each may fail while it is made
  // or while it is executed, and the sweep has failed if the second one has.
  method RunSweep(world: World, sw: Sweep, recent: seq<ClientId>, backlog: seq<ClientId>,
                  seenByMain: nat -> seq<ClientDoc>, seenByBacklog: nat -> seq<ClientDoc>,
                  plans: bool -> bool, outcome: HuntId -> Outcome)
    returns (e: Execution)
    requires DistinctIds(sw.hunts)
    requires Enumerates(recent, world.docs, Clamp(sw.lastRunTime))
    requires Enumerates(backlog, world.docs, Clamp(sw.backlogNow - MAXIMUM_PING_BACKLOG))
    requires forall n: nat :: Foreign(seenByMain(n), HalfIds(sw, false))
    requires forall n: nat :: Foreign(seenByBacklog(n), HalfIds(sw, true))
    modifies world
    ensures SweepStep(State(old(world.docs), old(world.log)), State(world.docs, world.log), sw, e)
    ensures e.ok ==> HalfIds(sw, false) <= e.done
    ensures forall c, id :: (c, id) in e.scheduled ==> outcome(id).Succeeds?
    ensures forall c, id :: (c, id) in e.lost ==> outcome(id).FailsAfter? && c in outcome(id).reached
    ensures !plans(false) ==> !e.ok && e.done <= HalfIds(sw, true)
    ensures !plans(true) ==> e.done <= HalfIds(sw, false)
    ensures plans(false) && (forall id :: outcome(id).Succeeds?) ==> e.ok
    ensures plans(false) && plans(true) && (forall id :: outcome(id).Succeeds?) ==>
      e.done == Ids(sw.hunts) && e.lost == {}
  {
    var docs := world.docs;
    var started, running := SplitHunts(sw);
    var first := PlanAndExecute(world, docs, sw, false, running, recent, seenByMain, plans(false), outcome);
    var second := PlanAndExecute(world, docs, sw, true, started, backlog, seenByBacklog, plans(true), outcome);
    e := Execution(first.ok, first.scheduled + second.scheduled, first.lost + second.lost, first.done + second.done);
    HalvesCombine(docs, old(world.log), sw, first, second, e);
    assert HalfIds(sw, false) + HalfIds(sw, true) == Ids(sw.hunts);
  }

  // Plan one half of the hunts on the store as the sweep found it, then execute
  // the plan.
  method PlanAndExecute(world: World, docs: seq<ClientDoc>, sw: Sweep, started: bool, hunts: seq<Hunt>,
                        clients: seq<ClientId>, seen: nat -> seq<ClientDoc>, plans: bool, outcome: HuntId -> Outcome)
    returns (e: Execution)
    requires DistinctIds(sw.hunts)
    requires forall h :: h in hunts <==> h in sw.hunts && NewlyStarted(sw, h) == started
    requires Enumerates(clients, docs, if started then Clamp(sw.backlogNow - MAXIMUM_PING_BACKLOG) else Clamp(sw.lastRunTime))
    requires forall n: nat :: Foreign(seen(n), HalfIds(sw, started))
    modifies world
    ensures IsHalf(docs, sw, started, e) && NoDuplicates(e.scheduled)
    ensures world.log == old(world.log) + e.scheduled
    ensures world.docs == old(world.docs) + AssignmentDocs(e.scheduled)
    ensures e.ok ==> e.done == HalfIds(sw, started) && e.lost == {}
    ensures if plans then Follows(e, outcome) else e == Execution(false, [], {}, {})
  {
    e := Execution(false, [], {}, {});
    if !plans { return; }
    assert Ids(hunts) == HalfIds(sw, started);
    var plan := new Plan();
    plan.PlanHunts(docs, seen, clients, hunts);
    e := plan.ExecuteHuntUpdate(world, outcome, hunts);
    HalfScheduled(docs, sw, plan.clientIdToHunts, hunts, clients, started, e);
    if e.ok { e := e.(done := Ids(hunts)); }
  }

  // `e` deals with one half of the eligible pairs.
  ghost predicate IsHalf(docs: seq<ClientDoc>, sw: Sweep, started: bool, e: Execution) {
    && e.done <= HalfIds(sw, started)
    && (forall c, id :: (c, id) in e.scheduled <==> id in e.done && HalfEligible(docs, sw, started, c, id))
    && (forall c, id :: (c, id) in e.lost ==> id !in e.done && HalfEligible(docs, sw, started, c, id))
  }

  // What a plan can run is its half of the eligible pairs; when all of it was done,
  // so were all hunts of the half.
  lemma HalfScheduled(docs: seq<ClientDoc>, sw: Sweep, plan: map<ClientId, seq<Hunt>>, hunts: seq<Hunt>,
                      clients: seq<ClientId>, started: bool, e: Execution)
    requires PlanIs(plan, docs, hunts, clients, "", [])
    requires forall h :: h in hunts <==> h in sw.hunts && NewlyStarted(sw, h) == started
    requires Enumerates(clients, docs, if started then Clamp(sw.backlogNow - MAXIMUM_PING_BACKLOG) else Clamp(sw.lastRunTime))
    requires Executed(plan, e) && e.done <= Ids(hunts) == HalfIds(sw, started)
    ensures IsHalf(docs, sw, started, if e.ok then e.(done := Ids(hunts)) else e)
  {
    forall c, id ensures CanRun(plan, c, id) <==> HalfEligible(docs, sw, started, c, id) {
      forall h: Hunt ensures InPlan(plan, c, h) <==> Planned(docs, sw, c, h) && NewlyStarted(sw, h) == started {
      }
    }
    forall c, id | HalfEligible(docs, sw, started, c, id) ensures id in HalfIds(sw, started) {
    }
  }

  lemma HalvesCombine(docs: seq<ClientDoc>, log: seq<Pair>, sw: Sweep, first: Execution, second: Execution, e: Execution)
    requires DistinctIds(sw.hunts) && NoDuplicates(first.scheduled) && NoDuplicates(second.scheduled)
    requires IsHalf(docs, sw, false, first) && IsHalf(docs, sw, true, second)
    requires e.scheduled == first.scheduled + second.scheduled
    requires e.lost == first.lost + second.lost && e.done == first.done + second.done
    ensures SweepStep(State(docs, log),
                      State(docs + AssignmentDocs(first.scheduled) + AssignmentDocs(second.scheduled),
                            log + first.scheduled + second.scheduled), sw, e)
  {
    forall p | p in first.scheduled ensures p !in second.scheduled {
      assert p == (p.0, p.1);
    }
    NoDuplicatesConcat(first.scheduled, second.scheduled);
    forall c, id ensures Eligible(docs, sw, c, id) <==>
      HalfEligible(docs, sw, true, c, id) || HalfEligible(docs, sw, false, c, id) {
    }
    forall c, id, started | HalfEligible(docs, sw, started, c, id) ensures id !in HalfIds(sw, !started) {
    }
    AssignmentDocsConcat(first.scheduled, second.scheduled);
  }

  // The part of the eligible pairs that concerns newly started, or running, hunts.
  ghost predicate HalfEligible(docs: seq<ClientDoc>, sw: Sweep, started: bool, client: ClientId, id: HuntId) {
    exists h: Hunt :: h.id == id && Planned(docs, sw, client, h) && h.startRequest.Some? && NewlyStarted(sw, h) == started
  }

  // Whatever one plan has recorded is no concern of the other one.
  lemma SiblingForeign(docs: seq<ClientDoc>, sw: Sweep, started: bool, e: Execution, k: nat)
    requires DistinctIds(sw.hunts) && IsHalf(docs, sw, started, e) && k <= |e.scheduled|
    ensures Foreign(AssignmentDocs(e.scheduled[..k]), HalfIds(sw, !started))
  {
    var extra := AssignmentDocs(e.scheduled[..k]);
    forall d | d in extra ensures forall h :: h in d.assignedHunts ==> h !in HalfIds(sw, !started) {
      var i :| 0 <= i < |extra| && extra[i] == d;
      var p := e.scheduled[i];
      assert p in e.scheduled && p == (p.0, p.1);
    }
  }

  // Planning the same hunts again on the resulting store finds only the hunts
  // that have no request or were not dealt with.
  lemma ReplanFindsNothing(a: State, b: State, sw: Sweep, e: Execution, c: ClientId, hunt: Hunt)
    requires SweepStep(a, b, sw, e) && DistinctIds(sw.hunts)
    ensures Planned(b.docs, sw, c, hunt) <==>
      Planned(a.docs, sw, c, hunt) && (hunt.startRequest.None? || hunt.id !in e.done)
    ensures Eligible(b.docs, sw, c, hunt.id) <==> Eligible(a.docs, sw, c, hunt.id) && hunt.id !in e.done
  {
    forall h: Hunt ensures Planned(b.docs, sw, c, h) <==>
      Planned(a.docs, sw, c, h) && (h.startRequest.None? || h.id !in e.done) {
      var extra := AssignmentDocs(e.scheduled);
      WantsAppend(a.docs, extra, c, h);
      PingsUnchanged(a.docs, extra, c, WindowStart(sw, h));
      AssignmentsRecorded(e.scheduled, c, h.id);
      if Planned(a.docs, sw, c, h) && Eligible(a.docs, sw, c, h.id) {
        var g: Hunt :| g.id == h.id && Planned(a.docs, sw, c, g) && g.startRequest.Some?;
        assert g == h;
      }
    }
  }

  // A hunt without a start request is planned, not scheduled, and planned again.
  lemma RequestlessPlannedAgain(hunt: Hunt, docs: seq<ClientDoc>)
    requires hunt.condition.None? && hunt.startRequest.None? && docs == [ClientDoc("C", 10, [], [], "")]
    ensures var a, sw := State(docs, []), Sweep([hunt], 0, 0, 0);
      SweepStep(a, a, sw, Execution(true, [], {}, {hunt.id})) && Planned(a.docs, sw, "C", hunt)
  {
    assert docs[0] in docs;
    assert AssignmentDocs([]) == [];
  }
}
