// The foreman's sweeps: planning hunts for clients, scheduling the plan and
// recording the assignments.
module Foreman {
  import opened Wrappers
  import opened Sequences
  import opened Hunts

  type Pair = (ClientId, HuntId)

  ghost predicate DistinctIds(hunts: seq<Hunt>) {
    forall g, h :: g in hunts && h in hunts && g.id == h.id ==> g == h
  }

  function Ids(hunts: seq<Hunt>): set<HuntId> {
    set h | h in hunts :: h.id
  }

  // The record that a hunt ran on a client.
  function AssignmentDoc(p: Pair): ClientDoc {
    ClientDoc(p.0, 0, [], [p.1], "")
  }

  function AssignmentDocs(pairs: seq<Pair>): (docs: seq<ClientDoc>)
    ensures |docs| == |pairs|
    ensures forall i :: 0 <= i < |pairs| ==> docs[i] == AssignmentDoc(pairs[i])
  {
    seq(|pairs|, i requires 0 <= i < |pairs| => AssignmentDoc(pairs[i]))
  }

  lemma AssignmentsRecorded(pairs: seq<Pair>, client: ClientId, hunt: HuntId)
    ensures Assigned(AssignmentDocs(pairs), client, hunt) <==> (client, hunt) in pairs
  {
  }

  // What becomes of the call that schedules a hunt on its clients.
  datatype Outcome = Succeeds | FailsAfter(reached: set<ClientId>)

  // What executing a plan did: the pairs scheduled and recorded, those that a call
  // had reached when it failed, and the hunts it dealt with.
  datatype Execution = Execution(ok: bool, scheduled: seq<Pair>, lost: set<Pair>, done: set<HuntId>)

  // The client store and the log of scheduling calls that succeeded.
  class World {
    var docs: seq<ClientDoc>
    var log: seq<Pair>

    constructor (docs: seq<ClientDoc>)
      ensures this.docs == docs && log == []
    {
      this.docs, log := docs, [];
    }
  }

  ghost predicate InPlan(plan: map<ClientId, seq<Hunt>>, client: ClientId, hunt: Hunt) {
    client in plan && hunt in plan[client]
  }

  ghost predicate IdInPlan(plan: map<ClientId, seq<Hunt>>, client: ClientId, id: HuntId) {
    exists h: Hunt :: h.id == id && InPlan(plan, client, h)
  }

  // The plan holds exactly the wanted hunts of the clients considered so far,
  // and those among `some` for the client being considered.
  ghost predicate PlanIs(plan: map<ClientId, seq<Hunt>>, docs: seq<ClientDoc>, hunts: seq<Hunt>,
                         clients: seq<ClientId>, current: ClientId, some: seq<Hunt>) {
    forall c, h :: InPlan(plan, c, h) <==>
      Wants(docs, c, h) && ((c in clients && h in hunts) || (c == current && h in some))
  }

  // `inverse` lists, once each, the clients among `done` that a hunt is planned for.
  ghost predicate Transposed(plan: map<ClientId, seq<Hunt>>, inverse: map<HuntId, seq<ClientId>>, done: set<ClientId>) {
    && (forall id, c :: Lists(inverse, id, c) <==> c in done && IdInPlan(plan, c, id))
    && (forall id :: id in inverse ==> NoDuplicates(inverse[id]) && inverse[id] != [])
  }

  class Plan {
    var clientIdToHunts: map<ClientId, seq<Hunt>>
    var huntsToClients: map<HuntId, seq<ClientId>>
    var huntsByHuntId: map<HuntId, Hunt>

    constructor ()
      ensures clientIdToHunts == map[]
    {
      clientIdToHunts, huntsToClients, huntsByHuntId := map[], map[], map[];
    }

    method AssignClientToHunt(client: ClientId, hunt: Hunt)
      modifies this`clientIdToHunts
      ensures forall c, h :: InPlan(clientIdToHunts, c, h) <==>
        InPlan(old(clientIdToHunts), c, h) || (c == client && h == hunt && !IdInPlan(old(clientIdToHunts), client, hunt.id))
      ensures clientIdToHunts == old(clientIdToHunts) || clientIdToHunts == old(clientIdToHunts)[
        client := (if client in old(clientIdToHunts) then old(clientIdToHunts)[client] else []) + [hunt]]
    {
      var planned := if client in clientIdToHunts then clientIdToHunts[client] else [];
      var contained := HuntsContain(planned, hunt.id);
      if !contained {
        clientIdToHunts := clientIdToHunts[client := planned + [hunt]];
      }
    }

    // Plan every wanted hunt for every client. The n-th client is looked up in
    // a store that may already hold `extra(n)`, assignments of other hunts
    // recorded by a plan that runs at the same time.
    method PlanHunts(docs: seq<ClientDoc>, extra: nat -> seq<ClientDoc>, clients: seq<ClientId>, hunts: seq<Hunt>)
      requires clientIdToHunts == map[] && DistinctIds(hunts)
      requires forall n: nat :: Foreign(extra(n), Ids(hunts))
      modifies this`clientIdToHunts
      ensures PlanIs(clientIdToHunts, docs, hunts, clients, "", [])
    {
      var ids := seq(|hunts|, i requires 0 <= i < |hunts| => hunts[i].id);
      for i := 0 to |clients|
        invariant PlanIs(clientIdToHunts, docs, hunts, clients[..i], "", [])
      {
        PlanClient(docs, extra(i), clients[..i], clients[i], hunts, ids);
        assert clients[..i + 1] == clients[..i] + [clients[i]];
      }
      assert clients[..|clients|] == clients;
    }

    method PlanClient(docs: seq<ClientDoc>, extra: seq<ClientDoc>, ghost before: seq<ClientId>, client: ClientId,
                      hunts: seq<Hunt>, ids: seq<HuntId>)
      requires DistinctIds(hunts) && Foreign(extra, Ids(hunts))
      requires |ids| == |hunts| && forall i :: 0 <= i < |hunts| ==> ids[i] == hunts[i].id
      requires PlanIs(clientIdToHunts, docs, hunts, before, "", [])
      modifies this`clientIdToHunts
      ensures PlanIs(clientIdToHunts, docs, hunts, before + [client], "", [])
    {
      var store := docs + extra;
      var info := GetMinimalClientInfo(store, client);
      var seen := GetClientHuntMembership(store, client, ids);
      for j := 0 to |hunts|
        invariant PlanIs(clientIdToHunts, docs, hunts, before, client, hunts[..j])
      {
        var hunt := hunts[j];
        assert ids[j] in ids && hunt in hunts && hunt.id in Ids(hunts);
        assert hunts[..j + 1] == hunts[..j] + [hunt];
        NotForeign(docs, extra, client, hunt, hunts);
        if hunt.id !in seen {
          var assign := ShouldAssign(info, hunt, store);
          if assign {
            PlannedIds(clientIdToHunts, docs, hunts, before, client, hunts[..j], hunt);
            AssignClientToHunt(client, hunt);
          }
        }
      }
      assert hunts[..|hunts|] == hunts;
    }

    // Build the inverse mapping; the clients come in no particular order.
    method Invert(ghost hunts: seq<Hunt>)
      requires forall c, h :: InPlan(clientIdToHunts, c, h) ==> h in hunts
      modifies this`huntsToClients, this`huntsByHuntId
      ensures Transposed(clientIdToHunts, huntsToClients, clientIdToHunts.Keys)
      ensures forall id :: id in huntsToClients ==> id in huntsByHuntId
      ensures forall id :: id in huntsByHuntId ==> huntsByHuntId[id].id == id && huntsByHuntId[id] in hunts
    {
      huntsToClients, huntsByHuntId := map[], map[];
      var remaining := clientIdToHunts.Keys;
      ghost var done: set<ClientId> := {};
      while remaining != {}
        invariant remaining !! done && remaining + done == clientIdToHunts.Keys
        invariant Transposed(clientIdToHunts, huntsToClients, done)
        invariant forall id :: id in huntsToClients ==> id in huntsByHuntId
        invariant forall id :: id in huntsByHuntId ==> huntsByHuntId[id].id == id && huntsByHuntId[id] in hunts
        decreases remaining
      {
        var client :| client in remaining;
        InvertClient(client, done, hunts);
        remaining, done := remaining - {client}, done + {client};
      }
      assert done == clientIdToHunts.Keys;
    }

    method InvertClient(client: ClientId, ghost done: set<ClientId>, ghost hunts: seq<Hunt>)
      requires client in clientIdToHunts && client !in done
      requires forall c, h :: InPlan(clientIdToHunts, c, h) ==> h in hunts
      requires Transposed(clientIdToHunts, huntsToClients, done)
      requires forall id :: id in huntsToClients ==> id in huntsByHuntId
      requires forall id :: id in huntsByHuntId ==> huntsByHuntId[id].id == id && huntsByHuntId[id] in hunts
      modifies this`huntsToClients, this`huntsByHuntId
      ensures Transposed(clientIdToHunts, huntsToClients, done + {client})
      ensures forall id :: id in huntsToClients ==> id in huntsByHuntId
      ensures forall id :: id in huntsByHuntId ==> huntsByHuntId[id].id == id && huntsByHuntId[id] in hunts
    {
      var planned := clientIdToHunts[client];
      ghost var before := huntsToClients;
      for j := 0 to |planned|
        invariant forall id :: id in huntsToClients ==> id in huntsByHuntId
        invariant forall id :: id in huntsByHuntId ==> huntsByHuntId[id].id == id && huntsByHuntId[id] in hunts
        invariant Extended(before, huntsToClients, client, planned[..j])
      {
        var h := planned[j];
        assert InPlan(clientIdToHunts, client, h);
        assert planned[..j + 1] == planned[..j] + [h];
        var clients := if h.id in huntsToClients then huntsToClients[h.id] else [];
        ExtendStep(before, huntsToClients, client, planned[..j], h);
        if client !in clients {
          huntsToClients := huntsToClients[h.id := [client] + clients];
        }
        huntsByHuntId := huntsByHuntId[h.id := h];
      }
      assert planned[..|planned|] == planned;
      ExtendedTransposed(clientIdToHunts, before, huntsToClients, client, done);
    }

    // Schedule every hunt that has a request on its clients and record it, until a
    // call fails.
    method ExecuteHuntUpdate(world: World, outcome: HuntId -> Outcome, ghost hunts: seq<Hunt>) returns (e: Execution)
      requires DistinctIds(hunts)
      requires forall c, h :: InPlan(clientIdToHunts, c, h) ==> h in hunts
      modifies this, world
      ensures clientIdToHunts == old(clientIdToHunts)
      ensures Transposed(clientIdToHunts, huntsToClients, clientIdToHunts.Keys)
      ensures world.log == old(world.log) + e.scheduled && NoDuplicates(e.scheduled)
      ensures world.docs == old(world.docs) + AssignmentDocs(e.scheduled)
      ensures Executed(clientIdToHunts, e) && e.done <= Ids(hunts) && Follows(e, outcome)
      ensures !e.ok ==> exists id :: LostAt(clientIdToHunts, e, outcome, id)
    {
      Invert(hunts);
      e := ScheduleHunts(world, outcome);
      ExecutedPlan(clientIdToHunts, huntsToClients, huntsByHuntId, hunts, e, outcome);
    }

    // Go through the hunts in no particular order.
    method ScheduleHunts(world: World, outcome: HuntId -> Outcome) returns (e: Execution)
      requires forall id :: id in huntsToClients ==> id in huntsByHuntId && NoDuplicates(huntsToClients[id])
      modifies world
      ensures world.log == old(world.log) + e.scheduled && NoDuplicates(e.scheduled)
      ensures world.docs == old(world.docs) + AssignmentDocs(e.scheduled)
      ensures Scheduled(huntsToClients, huntsByHuntId, e) && Follows(e, outcome)
      ensures !e.ok ==> exists id :: LostRunning(huntsToClients, huntsByHuntId, e, outcome, id)
    {
      var scheduled: seq<Pair>, done: set<HuntId> := [], {};
      var remaining := huntsToClients.Keys;
      while remaining != {}
        invariant remaining !! done && remaining + done == huntsToClients.Keys
        invariant world.log == old(world.log) + scheduled && NoDuplicates(scheduled)
        invariant world.docs == old(world.docs) + AssignmentDocs(scheduled)
        invariant forall c, id :: (c, id) in scheduled <==> Runnable(huntsToClients, huntsByHuntId, done, c, id)
        invariant forall c, id :: (c, id) in scheduled ==> outcome(id).Succeeds?
        decreases remaining
      {
        var id :| id in remaining;
        var pairs, lost, ok := ScheduleHunt(world, id, outcome(id));
        if !ok {
          e := Execution(false, scheduled, lost, done);
          assert LostRunning(huntsToClients, huntsByHuntId, e, outcome, id);
          return;
        }
        ScheduleStep(huntsToClients, huntsByHuntId, done, id, scheduled, pairs);
        RecordStep(old(world.docs), old(world.log), scheduled, pairs);
        scheduled := scheduled + pairs;
        remaining, done := remaining - {id}, done + {id};
      }
      assert done == huntsToClients.Keys;
      e := Execution(true, scheduled, {}, done);
    }

    // Schedule one hunt on its clients, unless it has no request. Nothing is recorded
    // when the call fails, although it may have reached some of the clients.
    method ScheduleHunt(world: World, id: HuntId, outcome: Outcome) returns (pairs: seq<Pair>, lost: set<Pair>, ok: bool)
      requires id in huntsToClients && id in huntsByHuntId
      modifies world
      ensures ok <==> huntsByHuntId[id].startRequest.None? || outcome.Succeeds?
      ensures pairs == if ok then PairsFor(huntsToClients[id], huntsByHuntId[id], id) else []
      ensures lost == if ok then {} else Reached(huntsToClients[id], outcome.reached, id)
      ensures world.log == old(world.log) + pairs
      ensures world.docs == old(world.docs) + AssignmentDocs(pairs)
    {
      var clients := huntsToClients[id];
      var hunt := huntsByHuntId[id];
      pairs, lost, ok := [], {}, true;
      if hunt.startRequest.None? { return; }
      if outcome.FailsAfter? {
        lost, ok := Reached(clients, outcome.reached, id), false;
        return;
      }
      pairs := seq(|clients|, i requires 0 <= i < |clients| => (clients[i], id));
      world.log := world.log + pairs;
      world.docs := world.docs + AssignmentDocs(pairs);
    }
  }

  function Reached(clients: seq<ClientId>, reached: set<ClientId>, id: HuntId): set<Pair> {
    set c | c in clients && c in reached :: (c, id)
  }

  // The plan has the hunt for the client, and there is a request to schedule.
  ghost predicate CanRun(plan: map<ClientId, seq<Hunt>>, client: ClientId, id: HuntId) {
    exists h: Hunt :: h.id == id && InPlan(plan, client, h) && h.startRequest.Some?
  }

  // Of what the plan can run, exactly the hunts dealt with are scheduled, and only
  // others are lost; if all went well that is everything.
  ghost predicate Executed(plan: map<ClientId, seq<Hunt>>, e: Execution) {
    && (forall c, id :: (c, id) in e.scheduled <==> id in e.done && CanRun(plan, c, id))
    && (forall c, id :: (c, id) in e.lost ==> id !in e.done && CanRun(plan, c, id))
    && (e.ok ==> e.lost == {} && forall c, id :: CanRun(plan, c, id) ==> id in e.done)
  }

  // Calls that succeed are scheduled, and what is lost was reached by one that failed;
  // the execution fails if and only if a call does.
  ghost predicate Follows(e: Execution, outcome: HuntId -> Outcome) {
    && (forall c, id :: (c, id) in e.scheduled ==> outcome(id).Succeeds?)
    && (forall c, id :: (c, id) in e.lost ==> outcome(id).FailsAfter? && c in outcome(id).reached)
    && (!e.ok ==> exists id :: id !in e.done && outcome(id).FailsAfter?)
  }

  // The execution ended with the failed call for a hunt, which lost exactly the
  // clients that it had for the hunt and that the call had reached.
  ghost predicate LostAt(plan: map<ClientId, seq<Hunt>>, e: Execution, outcome: HuntId -> Outcome, id: HuntId) {
    && id !in e.done && outcome(id).FailsAfter?
    && forall c, g :: (c, g) in e.lost <==> g == id && CanRun(plan, c, id) && c in outcome(id).reached
  }

  // The same in terms of the inverse.
  ghost predicate LostRunning(inverse: map<HuntId, seq<ClientId>>, byId: map<HuntId, Hunt>, e: Execution,
                              outcome: HuntId -> Outcome, id: HuntId) {
    && id !in e.done && outcome(id).FailsAfter?
    && forall c, g :: (c, g) in e.lost <==> g == id && Runnable(inverse, byId, {id}, c, id) && c in outcome(id).reached
  }

  // `Executed` in terms of the inverse.
  ghost predicate Scheduled(inverse: map<HuntId, seq<ClientId>>, byId: map<HuntId, Hunt>, e: Execution) {
    && e.done <= inverse.Keys
    && (forall c, id :: (c, id) in e.scheduled <==> Runnable(inverse, byId, e.done, c, id))
    && (forall c, id :: (c, id) in e.lost ==> id !in e.done && Runnable(inverse, byId, {id}, c, id))
    && (e.ok ==> e.lost == {} && e.done == inverse.Keys)
  }

  function PairsFor(clients: seq<ClientId>, hunt: Hunt, id: HuntId): seq<Pair> {
    if hunt.startRequest.None? then []
    else seq(|clients|, i requires 0 <= i < |clients| => (clients[i], id))
  }

  // The hunt is among `done`, lists the client and has a request to schedule.
  ghost predicate Runnable(inverse: map<HuntId, seq<ClientId>>, byId: map<HuntId, Hunt>, done: set<HuntId>,
                           client: ClientId, id: HuntId) {
    id in done && Lists(inverse, id, client) && id in byId && byId[id].startRequest.Some?
  }

  method HuntsContain(hunts: seq<Hunt>, id: HuntId) returns (found: bool)
    ensures found <==> exists h :: h in hunts && h.id == id
  {
    for i := 0 to |hunts|
      invariant forall k :: 0 <= k < i ==> hunts[k].id != id
    {
      if hunts[i].id == id { return true; }
    }
    return false;
  }

  // Assignments of other hunts do not change what a client wants.
  lemma NotForeign(docs: seq<ClientDoc>, extra: seq<ClientDoc>, client: ClientId, hunt: Hunt, hunts: seq<Hunt>)
    requires Foreign(extra, Ids(hunts)) && hunt in hunts
    ensures Wants(docs + extra, client, hunt) <==> Wants(docs, client, hunt)
    ensures Assigned(docs + extra, client, hunt.id) <==> Assigned(docs, client, hunt.id)
  {
    assert hunt.id in Ids(hunts);
    WantsAppend(docs, extra, client, hunt);
    AssignedAppend(docs, extra, client, hunt.id);
  }

  lemma PlannedIds(plan: map<ClientId, seq<Hunt>>, docs: seq<ClientDoc>, hunts: seq<Hunt>,
                   clients: seq<ClientId>, client: ClientId, some: seq<Hunt>, hunt: Hunt)
    requires PlanIs(plan, docs, hunts, clients, client, some) && DistinctIds(hunts)
    requires hunt in hunts && forall h :: h in some ==> h in hunts
    ensures IdInPlan(plan, client, hunt.id) <==> InPlan(plan, client, hunt)
  {
  }

  ghost predicate HasId(hunts: seq<Hunt>, id: HuntId) {
    exists h :: h in hunts && h.id == id
  }

  lemma HasIdSnoc(hunts: seq<Hunt>, h: Hunt, id: HuntId)
    ensures HasId(hunts + [h], id) <==> HasId(hunts, id) || h.id == id
  {
  }

  // `after` is `before` with the client added to each of the hunts.
  ghost predicate Extended(before: map<HuntId, seq<ClientId>>, after: map<HuntId, seq<ClientId>>,
                           client: ClientId, hunts: seq<Hunt>) {
    && (forall id, c :: Lists(after, id, c) <==>
          Lists(before, id, c) || (c == client && HasId(hunts, id)))
    && (forall id :: id in after ==> NoDuplicates(after[id]) && after[id] != [])
  }

  lemma ExtendStep(before: map<HuntId, seq<ClientId>>, now: map<HuntId, seq<ClientId>>,
                   client: ClientId, hunts: seq<Hunt>, h: Hunt)
    requires Extended(before, now, client, hunts)
    ensures var clients := if h.id in now then now[h.id] else [];
      Extended(before, if client in clients then now else now[h.id := [client] + clients], client, hunts + [h])
  {
    var clients := if h.id in now then now[h.id] else [];
    var after := if client in clients then now else now[h.id := [client] + clients];
    if client !in clients { NoDuplicatesPrepend(client, clients); }
    forall id, c ensures Lists(after, id, c) <==>
      Lists(before, id, c) || (c == client && HasId(hunts + [h], id)) {
      HasIdSnoc(hunts, h, id);
      assert Lists(after, id, c) <==> Lists(now, id, c) || (id == h.id && c == client);
    }
  }

  lemma ExtendedTransposed(plan: map<ClientId, seq<Hunt>>, before: map<HuntId, seq<ClientId>>,
                           after: map<HuntId, seq<ClientId>>, client: ClientId, done: set<ClientId>)
    requires client in plan && Transposed(plan, before, done)
    requires Extended(before, after, client, plan[client])
    ensures Transposed(plan, after, done + {client})
  {
  }

  lemma PairsOf(clients: seq<ClientId>, id: HuntId, pairs: seq<Pair>)
    requires |pairs| == |clients| && forall i :: 0 <= i < |clients| ==> pairs[i] == (clients[i], id)
    ensures forall c, g :: (c, g) in pairs <==> g == id && c in clients
    ensures NoDuplicates(clients) ==> NoDuplicates(pairs)
  {
  }

  // Scheduling one more hunt.
  lemma ScheduleStep(inverse: map<HuntId, seq<ClientId>>, byId: map<HuntId, Hunt>, done: set<HuntId>, id: HuntId,
                     scheduled: seq<Pair>, pairs: seq<Pair>)
    requires id in inverse && id in byId && id !in done && NoDuplicates(inverse[id])
    requires pairs == PairsFor(inverse[id], byId[id], id)
    requires NoDuplicates(scheduled)
    requires forall c, g :: (c, g) in scheduled <==> Runnable(inverse, byId, done, c, g)
    ensures NoDuplicates(scheduled + pairs)
    ensures forall c, g :: (c, g) in scheduled + pairs <==> Runnable(inverse, byId, done + {id}, c, g)
  {
    if byId[id].startRequest.Some? { PairsOf(inverse[id], id, pairs); }
    forall p | p in scheduled ensures p !in pairs {
      assert p == (p.0, p.1);
      assert Runnable(inverse, byId, done, p.0, p.1);
    }
    NoDuplicatesConcat(scheduled, pairs);
  }

  lemma RecordStep(docs: seq<ClientDoc>, log: seq<Pair>, scheduled: seq<Pair>, pairs: seq<Pair>)
    ensures docs + AssignmentDocs(scheduled) + AssignmentDocs(pairs) == docs + AssignmentDocs(scheduled + pairs)
    ensures log + scheduled + pairs == log + (scheduled + pairs)
  {
    AssignmentDocsConcat(scheduled, pairs);
  }

  lemma AssignmentDocsConcat(a: seq<Pair>, b: seq<Pair>)
    ensures AssignmentDocs(a + b) == AssignmentDocs(a) + AssignmentDocs(b)
  {
  }

  lemma ScheduledExact(plan: map<ClientId, seq<Hunt>>, inverse: map<HuntId, seq<ClientId>>, byId: map<HuntId, Hunt>,
                       hunts: seq<Hunt>, c: ClientId, id: HuntId)
    requires DistinctIds(hunts) && Transposed(plan, inverse, plan.Keys)
    requires forall c, h :: InPlan(plan, c, h) ==> h in hunts
    requires forall id :: id in inverse ==> id in byId
    requires forall id :: id in byId ==> byId[id].id == id && byId[id] in hunts
    ensures Runnable(inverse, byId, {id}, c, id) <==> CanRun(plan, c, id)
  {
    if CanRun(plan, c, id) {
      assert Lists(inverse, id, c) && byId[id] in hunts;
    }
    if Runnable(inverse, byId, {id}, c, id) {
      var h: Hunt :| h.id == id && InPlan(plan, c, h);
      assert h == byId[id];
    }
  }

  lemma ExecutedPlan(plan: map<ClientId, seq<Hunt>>, inverse: map<HuntId, seq<ClientId>>, byId: map<HuntId, Hunt>,
                     hunts: seq<Hunt>, e: Execution, outcome: HuntId -> Outcome)
    requires DistinctIds(hunts) && Transposed(plan, inverse, plan.Keys)
    requires forall c, h :: InPlan(plan, c, h) ==> h in hunts
    requires forall id :: id in inverse ==> id in byId
    requires forall id :: id in byId ==> byId[id].id == id && byId[id] in hunts
    requires Scheduled(inverse, byId, e)
    ensures Executed(plan, e) && e.done <= Ids(hunts)
    ensures forall id :: LostRunning(inverse, byId, e, outcome, id) ==> LostAt(plan, e, outcome, id)
  {
    forall c, id ensures Runnable(inverse, byId, {id}, c, id) <==> CanRun(plan, c, id) {
      ScheduledExact(plan, inverse, byId, hunts, c, id);
    }
    forall id | id in e.done ensures id in Ids(hunts) {
      assert byId[id] in hunts;
    }
  }
}
