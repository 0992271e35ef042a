// The foreman's loop: one sweep after the other, while clients ping and hunts are
// created.
module Rounds {
  import opened Wrappers
  import opened Sequences
  import opened Hunts
  import opened Foreman
  import opened Sweeps

  // One turn of the loop: the run times, the moments at which it listed the hunts
  // and queried for clients, the clients it found to be active since the last run,
  // the store and scheduling log before and after, and what it did.
  datatype Round = Round(
    sw: Sweep, nextRunTime: nat, listed: nat, queried: nat, recent: seq<ClientId>,
    before: State, after: State, did: Execution)

  // What the loop cannot know: the readings of the clock, the active hunts at each
  // moment, what others do to the client store before each round, the clients a
  // query enumerates, which of each other's assignments the two plans of a round
  // see, which plans of a round can be made, and what becomes of its scheduling calls.
  datatype Environment = Environment(
    clock: nat -> nat,
    hunts: nat -> seq<Hunt>,
    elsewhere: (nat, seq<ClientDoc>) -> seq<ClientDoc>,
    clients: (seq<ClientDoc>, nat) -> seq<ClientId>,
    sibling: (Sweep, bool, nat) -> seq<ClientDoc>,
    plans: (nat, bool) -> bool,
    outcome: (nat, HuntId) -> Outcome)

  // Recorded assignments stay visible.
  ghost predicate KeepsAssignments(docs: seq<ClientDoc>, docs': seq<ClientDoc>) {
    forall c, h :: Assigned(docs, c, h) ==> Assigned(docs', c, h)
  }

  ghost predicate ValidEnvironment(env: Environment) {
    && (forall m, n :: m < n ==> env.clock(m) < env.clock(n))
    && (forall t :: DistinctIds(env.hunts(t)))
    && (forall n, docs :: KeepsAssignments(docs, env.elsewhere(n, docs)))
    && (forall docs, t :: Enumerates(env.clients(docs, t), docs, t))
    && (forall sw, started, n :: Foreign(env.sibling(sw, started, n), HalfIds(sw, started)))
  }

  // ------------------------------------------------------------------- the loop

  ghost predicate RoundOk(r: Round) {
    && DistinctIds(r.sw.hunts)
    && Enumerates(r.recent, r.before.docs, Clamp(r.sw.lastRunTime))
    && SweepStep(r.before, r.after, r.sw, r.did)
    && (r.did.ok ==> HalfIds(r.sw, false) <= r.did.done)
  }

  ghost predicate Linked(r: Round, r': Round) {
    r'.before.log == r.after.log && KeepsAssignments(r.after.docs, r'.before.docs)
  }

  ghost predicate History(rounds: seq<Round>) {
    && (forall i :: 0 <= i < |rounds| ==> RoundOk(rounds[i]))
    && (forall i, j :: 0 <= i && j == i + 1 && j < |rounds| ==> Linked(rounds[i], rounds[j]))
  }

  // Within a round the run time is taken first, then the hunts are listed, then
  // the clock is read to split them, then clients are looked up.
  ghost predicate Timed(r: Round) {
    r.nextRunTime < r.listed < r.sw.now && r.sw.now < r.sw.backlogNow && r.sw.now < r.queried
  }

  // A round starts after the one before, whose run time is its last run time.
  ghost predicate Follows(r: Round, r': Round) {
    r'.sw.lastRunTime == r.nextRunTime && r.queried < r'.nextRunTime && r.sw.backlogNow < r'.nextRunTime
  }

  ghost predicate Timeline(rounds: seq<Round>) {
    && |rounds| > 0 && rounds[0].sw.lastRunTime == rounds[0].nextRunTime
    && (forall i :: 0 <= i < |rounds| ==> Timed(rounds[i]))
    && (forall i, j :: 0 <= i && j == i + 1 && j < |rounds| ==> Follows(rounds[i], rounds[j]))
  }

  class Service {
    var lastRunTime: nat
    var nextRunTime: nat

    constructor (now: nat)
      ensures lastRunTime == nextRunTime == now
    {
      lastRunTime, nextRunTime := now, now;
    }

    // Round k, which reads the clock from reading `tick` on.
    method RunOnce(env: Environment, world: World, k: nat, tick: nat) returns (r: Round)
      requires ValidEnvironment(env)
      modifies world
      ensures RoundOk(r) && r.sw.lastRunTime == lastRunTime && r.nextRunTime == nextRunTime
      ensures r.before == State(env.elsewhere(k, old(world.docs)), old(world.log))
      ensures KeepsAssignments(old(world.docs), r.before.docs)
      ensures r.sw.hunts == env.hunts(r.listed) && r.recent == env.clients(r.before.docs, Clamp(r.sw.lastRunTime))
      ensures forall c, id :: (c, id) in r.did.scheduled ==> env.outcome(k, id).Succeeds?
      ensures forall c, id :: (c, id) in r.did.lost ==> env.outcome(k, id).FailsAfter? && c in env.outcome(k, id).reached
      ensures env.plans(k, false) && (forall id :: env.outcome(k, id).Succeeds?) ==> r.did.ok
      ensures !env.plans(k, false) ==> !r.did.ok
      ensures r.after == State(world.docs, world.log)
      ensures Reads(env, r, tick)
    {
      var listed, queried := env.clock(tick), env.clock(tick + 3);
      var sw := Sweep(env.hunts(listed), lastRunTime, env.clock(tick + 1), env.clock(tick + 2));
      world.docs := env.elsewhere(k, world.docs);
      var before := State(world.docs, world.log);
      var recent := env.clients(world.docs, Clamp(sw.lastRunTime));
      var backlog := env.clients(world.docs, Clamp(sw.backlogNow - MAXIMUM_PING_BACKLOG));
      var did := RunSweep(world, sw, recent, backlog,
                          (n: nat) => env.sibling(sw, false, n), (n: nat) => env.sibling(sw, true, n),
                          started => env.plans(k, started), id => env.outcome(k, id));
      r := Round(sw, nextRunTime, listed, queried, recent, before, State(world.docs, world.log), did);
    }
  }

  lemma HistorySnoc(rounds: seq<Round>, r: Round)
    requires History(rounds) && rounds != [] && RoundOk(r) && Linked(rounds[|rounds| - 1], r)
    ensures History(rounds + [r])
  {
  }

  lemma TimelineSnoc(rounds: seq<Round>, r: Round)
    requires Timeline(rounds) && Timed(r) && Follows(rounds[|rounds| - 1], r)
    ensures Timeline(rounds + [r])
  {
  }

  // The rounds so far, the clock being about to give reading `tick`.
  ghost predicate SoFar(env: Environment, rounds: seq<Round>, tick: nat) {
    && Timeline(rounds) && History(rounds) && rounds[0].before.log == []
    && rounds[|rounds| - 1].queried < env.clock(tick) && rounds[|rounds| - 1].sw.backlogNow < env.clock(tick)
  }

  // The round's times are four successive readings of the clock.
  ghost predicate Reads(env: Environment, r: Round, tick: nat) {
    && r.listed == env.clock(tick) && r.sw.now == env.clock(tick + 1)
    && r.sw.backlogNow == env.clock(tick + 2) && r.queried == env.clock(tick + 3)
  }

  lemma FirstRound(env: Environment, r: Round)
    requires ValidEnvironment(env) && RoundOk(r) && r.before.log == []
    requires r.sw.lastRunTime == r.nextRunTime == env.clock(0) && Reads(env, r, 1)
    ensures SoFar(env, [r], 5)
  {
  }

  lemma RoundAdded(env: Environment, rounds: seq<Round>, r: Round, tick: nat)
    requires ValidEnvironment(env) && SoFar(env, rounds, tick) && RoundOk(r) && Linked(rounds[|rounds| - 1], r)
    requires r.sw.lastRunTime == rounds[|rounds| - 1].nextRunTime && r.nextRunTime == env.clock(tick)
    requires Reads(env, r, tick + 1)
    ensures SoFar(env, rounds + [r], tick + 5)
  {
    HistorySnoc(rounds, r);
    TimelineSnoc(rounds, r);
  }

  // The first round runs inline and its failure ends the service; then there is a
  // round after every interval, and the last run time advances whether or not the
  // round succeeded.
  method Start(env: Environment, docs: seq<ClientDoc>, count: nat) returns (rounds: seq<Round>)
    requires ValidEnvironment(env)
    ensures Timeline(rounds) && History(rounds) && rounds[0].before.log == []
    ensures |rounds| == if rounds[0].did.ok then 1 + count else 1
  {
    var world := new World(docs);
    var service := new Service(env.clock(0));
    var round := service.RunOnce(env, world, 0, 1);
    FirstRound(env, round);
    if !round.did.ok { return [round]; }
    rounds := KeepRunning(env, world, service, round, count);
  }

  method KeepRunning(env: Environment, world: World, service: Service, first: Round, count: nat)
    returns (rounds: seq<Round>)
    requires ValidEnvironment(env) && SoFar(env, [first], 5)
    requires service.lastRunTime == first.nextRunTime && first.after == State(world.docs, world.log)
    modifies world, service
    ensures |rounds| == 1 + count && rounds[0] == first && Timeline(rounds) && History(rounds)
  {
    rounds := [first];
    var tick := 5;
    for k := 1 to count + 1
      invariant |rounds| == k && rounds[0] == first && SoFar(env, rounds, tick)
      invariant service.lastRunTime == rounds[k - 1].nextRunTime
      invariant rounds[k - 1].after == State(world.docs, world.log)
    {
      service.nextRunTime := env.clock(tick);
      var round := service.RunOnce(env, world, k, tick + 1);
      service.lastRunTime := service.nextRunTime;
      RoundAdded(env, rounds, round, tick);
      rounds := rounds + [round];
      tick := tick + 5;
    }
  }

  // --------------------------------------------------------------- at most once

  ghost predicate Recorded(s: State) {
    NoDuplicates(s.log) && forall c, h :: (c, h) in s.log ==> Assigned(s.docs, c, h)
  }

  lemma SweepRecords(a: State, b: State, sw: Sweep, e: Execution)
    requires Recorded(a) && SweepStep(a, b, sw, e)
    ensures Recorded(b)
  {
    forall p | p in a.log ensures p !in e.scheduled {
      assert p == (p.0, p.1);
    }
    NoDuplicatesConcat(a.log, e.scheduled);
    forall c, h | (c, h) in b.log ensures Assigned(b.docs, c, h) {
      AssignedAppend(a.docs, AssignmentDocs(e.scheduled), c, h);
      AssignmentsRecorded(e.scheduled, c, h);
    }
  }

  // In no history do two successful calls schedule the same hunt on the same client.
  lemma {:induction false} AtMostOnce(rounds: seq<Round>)
    requires History(rounds) && rounds != [] && rounds[0].before.log == []
    ensures forall i :: 0 <= i < |rounds| ==> Recorded(rounds[i].before) && Recorded(rounds[i].after)
  {
    for i := 0 to |rounds|
      invariant forall k :: 0 <= k < i ==> Recorded(rounds[k].before) && Recorded(rounds[k].after)
    {
      if i > 0 { assert Linked(rounds[i - 1], rounds[i]); }
      SweepRecords(rounds[i].before, rounds[i].after, rounds[i].sw, rounds[i].did);
    }
  }

  lemma {:induction false} StaysAssigned(rounds: seq<Round>, i: nat, j: nat, client: ClientId, id: HuntId)
    requires History(rounds) && i < j < |rounds| && Assigned(rounds[i].after.docs, client, id)
    ensures Assigned(rounds[j].before.docs, client, id)
    decreases j
  {
    assert Linked(rounds[j - 1], rounds[j]);
    if i < j - 1 {
      StaysAssigned(rounds, i, j - 1, client, id);
      AssignedAppend(rounds[j - 1].before.docs, AssignmentDocs(rounds[j - 1].did.scheduled), client, id);
    }
  }

  // A call that succeeds is the last that reaches the client: only calls that failed
  // are ever repeated.
  lemma OnlyFailedRepeat(rounds: seq<Round>, i: nat, j: nat, client: ClientId, id: HuntId)
    requires History(rounds) && i <= j < |rounds| && (client, id) in rounds[i].did.scheduled
    ensures (client, id) !in rounds[j].did.lost
    ensures i < j ==> (client, id) !in rounds[j].did.scheduled
  {
    if i < j {
      AssignedAppend(rounds[i].before.docs, AssignmentDocs(rounds[i].did.scheduled), client, id);
      AssignmentsRecorded(rounds[i].did.scheduled, client, id);
      StaysAssigned(rounds, i, j, client, id);
    }
  }

  // ------------------------------------------------------------- sweep windows

  lemma {:induction false} WindowsAdvance(rounds: seq<Round>, i: nat, j: nat)
    requires Timeline(rounds) && i < j < |rounds|
    ensures rounds[i].sw.lastRunTime <= rounds[i].nextRunTime <= rounds[j].sw.lastRunTime
    ensures rounds[i].sw.now < rounds[j].nextRunTime && rounds[i].sw.backlogNow < rounds[j].sw.backlogNow
    decreases j
  {
    assert Follows(rounds[j - 1], rounds[j]);
    if i < j - 1 {
      WindowsAdvance(rounds, i, j - 1);
      assert Timed(rounds[j - 1]) && Follows(rounds[j - 2], rounds[j - 1]);
    } else if i > 0 {
      assert Timed(rounds[i - 1]) && Follows(rounds[i - 1], rounds[i]);
    }
  }

  // The client's last ping.
  ghost predicate LatestPing(docs: seq<ClientDoc>, client: ClientId, ping: nat) {
    && (exists d :: d in docs && d.clientId == client && d.ping == ping)
    && (forall d :: d in docs && d.clientId == client ==> d.ping <= ping)
  }

  lemma PingedAfterLatest(docs: seq<ClientDoc>, client: ClientId, ping: nat, time: nat)
    requires LatestPing(docs, client, ping)
    ensures PingedAfter(docs, client, time) <==> time < ping
  {
  }

  // A ping that is seen from round k on is inside the window of some round if and
  // only if it was stamped after the round before k began. That is so whenever a
  // ping is visible as soon as it is stamped.
  lemma PingCoveredExactly(rounds: seq<Round>, k: nat, client: ClientId, ping: nat)
    requires Timeline(rounds) && History(rounds) && k < |rounds| && client != ""
    requires forall j :: k <= j < |rounds| ==> LatestPing(rounds[j].before.docs, client, ping)
    ensures (exists j :: k <= j < |rounds| && client in rounds[j].recent) <==> rounds[k].sw.lastRunTime < ping
    ensures (if k > 0 then rounds[k - 1].queried <= ping else rounds[0].sw.lastRunTime < ping) ==> client in rounds[k].recent
  {
    forall j | k <= j < |rounds| ensures client in rounds[j].recent <==> Clamp(rounds[j].sw.lastRunTime) < ping {
      PingedAfterLatest(rounds[j].before.docs, client, ping, Clamp(rounds[j].sw.lastRunTime));
    }
    forall j | k <= j < |rounds| ensures 0 <= rounds[k].sw.lastRunTime <= rounds[j].sw.lastRunTime {
      if k < j { WindowsAdvance(rounds, k, j); }
      if k > 0 { assert Follows(rounds[k - 1], rounds[k]); }
    }
    if k > 0 { assert Timed(rounds[k - 1]) && Follows(rounds[k - 1], rounds[k]); }
  }

  // A hunt that is active from its creation on is treated as newly started by some
  // round if and only if its recorded start is not before the window of the first
  // round that lists it. That is so when the recorded start is the creation time.
  lemma HuntCoveredExactly(rounds: seq<Round>, i: nat, created: nat, hunt: Hunt)
    requires Timeline(rounds) && FirstListed(rounds, i, created, hunt)
    ensures (exists j :: 0 <= j < |rounds| && hunt in rounds[j].sw.hunts && NewlyStarted(rounds[j].sw, hunt)) <==>
      rounds[i].sw.lastRunTime <= hunt.startTime * 1000
    ensures hunt.startTime * 1000 == created ==> NewlyStarted(rounds[i].sw, hunt)
  {
    FirstListedWindow(rounds, i, created, hunt);
    forall j | 0 <= j < |rounds| && hunt in rounds[j].sw.hunts && NewlyStarted(rounds[j].sw, hunt)
      ensures rounds[i].sw.lastRunTime <= hunt.startTime * 1000 {
      NotListedBefore(rounds, i, j, created, hunt);
      if i < j { WindowsAdvance(rounds, i, j); }
    }
    if rounds[i].sw.lastRunTime <= hunt.startTime * 1000 { assert NewlyStarted(rounds[i].sw, hunt); }
  }

  // The hunt was created after the service started and active ever since; round i
  // is the first to list it. Its recorded start may have been rounded down.
  ghost predicate FirstListed(rounds: seq<Round>, i: nat, created: nat, hunt: Hunt) {
    && i < |rounds| && rounds[0].sw.lastRunTime < created && hunt.startTime * 1000 <= created
    && (forall j :: 0 <= j < |rounds| ==> (hunt in rounds[j].sw.hunts <==> created < rounds[j].listed))
    && created < rounds[i].listed && (i > 0 ==> rounds[i - 1].listed <= created)
  }

  lemma FirstListedWindow(rounds: seq<Round>, i: nat, created: nat, hunt: Hunt)
    requires Timeline(rounds) && FirstListed(rounds, i, created, hunt)
    ensures 0 <= rounds[i].sw.lastRunTime < created && hunt.startTime * 1000 < rounds[i].sw.now
    ensures hunt in rounds[i].sw.hunts
  {
    assert Timed(rounds[i]);
    if i > 0 { assert Timed(rounds[i - 1]) && Follows(rounds[i - 1], rounds[i]); }
  }

  lemma {:induction false} NotListedBefore(rounds: seq<Round>, i: nat, j: nat, created: nat, hunt: Hunt)
    requires Timeline(rounds) && FirstListed(rounds, i, created, hunt) && j < |rounds|
    requires hunt in rounds[j].sw.hunts
    ensures i <= j
  {
    if j < i {
      assert Timed(rounds[j]) && Timed(rounds[i - 1]);
      if j < i - 1 { WindowsAdvance(rounds, j, i - 1); }
    }
  }

  // ------------------------------------------------------------- at least once

  // The round lists the hunt, and the hunt can be scheduled and suits the client,
  // whose last ping it sees.
  ghost predicate Ready(r: Round, client: ClientId, hunt: Hunt, ping: nat) {
    && hunt in r.sw.hunts && hunt.startRequest.Some?
    && client != "" && LatestPing(r.before.docs, client, ping)
    && (hunt.condition.Some? ==> Meets(r.before.docs, client, hunt.condition.value))
  }

  lemma RoundSchedules(r: Round, client: ClientId, hunt: Hunt, ping: nat)
    requires RoundOk(r) && Ready(r, client, hunt, ping)
    ensures (client, hunt.id) in r.did.scheduled <==>
      hunt.id in r.did.done && WindowStart(r.sw, hunt) < ping && !Assigned(r.before.docs, client, hunt.id)
    ensures Assigned(r.after.docs, client, hunt.id) <==>
      Assigned(r.before.docs, client, hunt.id) || (client, hunt.id) in r.did.scheduled
  {
    PingedAfterLatest(r.before.docs, client, ping, WindowStart(r.sw, hunt));
    assert Eligible(r.before.docs, r.sw, client, hunt.id) <==> Planned(r.before.docs, r.sw, client, hunt);
    AssignedAppend(r.before.docs, AssignmentDocs(r.did.scheduled), client, hunt.id);
    AssignmentsRecorded(r.did.scheduled, client, hunt.id);
  }

  // From round k on the hunt suits the client, who does not ping again; it is not
  // assigned yet, and only the foreman assigns it.
  ghost predicate Awaits(rounds: seq<Round>, k: nat, client: ClientId, hunt: Hunt, ping: nat) {
    && k < |rounds| && !Assigned(rounds[k].before.docs, client, hunt.id)
    && (forall j :: k <= j < |rounds| ==> Ready(rounds[j], client, hunt, ping))
    && (forall i, j :: k <= i && j == i + 1 && j < |rounds| ==>
          (Assigned(rounds[j].before.docs, client, hunt.id) ==> Assigned(rounds[i].after.docs, client, hunt.id)))
  }

  ghost predicate ScheduledFrom(rounds: seq<Round>, k: nat, client: ClientId, hunt: Hunt) {
    exists j :: k <= j < |rounds| && (client, hunt.id) in rounds[j].did.scheduled
  }

  // The round deals with the hunt and the ping lies in its window.
  ghost predicate InWindow(r: Round, hunt: Hunt, ping: nat) {
    hunt.id in r.did.done && WindowStart(r.sw, hunt) < ping
  }

  ghost predicate InWindowFrom(rounds: seq<Round>, k: nat, hunt: Hunt, ping: nat) {
    exists j :: k <= j < |rounds| && InWindow(rounds[j], hunt, ping)
  }

  // The hunt is scheduled on the client if and only if the ping lies in the window
  // of some round that deals with the hunt.
  lemma {:induction false} ScheduledExactly(rounds: seq<Round>, k: nat, client: ClientId, hunt: Hunt, ping: nat)
    requires History(rounds) && Awaits(rounds, k, client, hunt, ping)
    ensures ScheduledFrom(rounds, k, client, hunt) <==> InWindowFrom(rounds, k, hunt, ping)
    decreases |rounds| - k
  {
    var r := rounds[k];
    RoundSchedules(r, client, hunt, ping);
    if InWindow(r, hunt, ping) {
      assert (client, hunt.id) in rounds[k].did.scheduled;
    } else if k + 1 < |rounds| {
      assert Awaits(rounds, k + 1, client, hunt, ping);
      ScheduledExactly(rounds, k + 1, client, hunt, ping);
    }
  }

  // A client that a failed call reached is scheduled again under the same condition,
  // because nothing was recorded.
  lemma LostRepeatedExactly(rounds: seq<Round>, k: nat, client: ClientId, hunt: Hunt, ping: nat)
    requires History(rounds) && Awaits(rounds, k, client, hunt, ping) && k + 1 < |rounds|
    requires (client, hunt.id) in rounds[k].did.lost
    ensures ScheduledFrom(rounds, k + 1, client, hunt) <==> InWindowFrom(rounds, k + 1, hunt, ping)
  {
    RoundSchedules(rounds[k], client, hunt, ping);
    assert Awaits(rounds, k + 1, client, hunt, ping);
    ScheduledExactly(rounds, k + 1, client, hunt, ping);
  }

  // Of the rounds from k on, m is the first that deals with the hunt, and n the first
  // that does so without treating it as newly started; both are |rounds| if there
  // is none.
  ghost predicate Decisive(rounds: seq<Round>, k: nat, hunt: Hunt, m: nat, n: nat) {
    && k <= m <= n <= |rounds|
    && (forall j :: k <= j < m ==> hunt.id !in rounds[j].did.done)
    && (forall j :: m <= j < n && hunt.id in rounds[j].did.done ==> NewlyStarted(rounds[j].sw, hunt))
    && (m < |rounds| ==> hunt.id in rounds[m].did.done)
    && (n < |rounds| ==> hunt.id in rounds[n].did.done && !NewlyStarted(rounds[n].sw, hunt))
  }

  lemma DecisiveExist(rounds: seq<Round>, k: nat, hunt: Hunt) returns (m: nat, n: nat)
    requires k <= |rounds|
    ensures Decisive(rounds, k, hunt, m, n)
  {
    m := k;
    while m < |rounds| && hunt.id !in rounds[m].did.done
      invariant k <= m <= |rounds| && forall j :: k <= j < m ==> hunt.id !in rounds[j].did.done
    {
      m := m + 1;
    }
    n := m;
    while n < |rounds| && (hunt.id !in rounds[n].did.done || NewlyStarted(rounds[n].sw, hunt))
      invariant m <= n <= |rounds|
      invariant forall j :: m <= j < n && hunt.id in rounds[j].did.done ==> NewlyStarted(rounds[j].sw, hunt)
    {
      n := n + 1;
    }
  }

  // The ping lies in one of the two decisive windows.
  ghost predicate Decides(rounds: seq<Round>, hunt: Hunt, ping: nat, m: nat, n: nat) {
    || (m < |rounds| && WindowStart(rounds[m].sw, hunt) < ping)
    || (n < |rounds| && rounds[n].sw.lastRunTime < ping)
  }

  lemma TimesNatural(rounds: seq<Round>, j: nat)
    requires Timeline(rounds) && j < |rounds|
    ensures 0 <= rounds[j].sw.lastRunTime <= rounds[j].nextRunTime < rounds[j].sw.now
  {
    assert Timed(rounds[j]);
    if j > 0 { assert Timed(rounds[j - 1]) && Follows(rounds[j - 1], rounds[j]); }
  }

  // Windows of each kind only move on.
  lemma WindowDecided(rounds: seq<Round>, k: nat, hunt: Hunt, ping: nat, m: nat, n: nat, j: nat)
    requires Timeline(rounds) && Decisive(rounds, k, hunt, m, n) && k <= j < |rounds|
    requires m < |rounds| && hunt.startTime * 1000 < rounds[m].sw.now
    requires InWindow(rounds[j], hunt, ping)
    ensures Decides(rounds, hunt, ping, m, n)
  {
    TimesNatural(rounds, j);
    if NewlyStarted(rounds[j].sw, hunt) {
      if m < j {
        TimesNatural(rounds, m);
        WindowsAdvance(rounds, m, j);
      }
    } else {
      if n < j { WindowsAdvance(rounds, n, j); }
    }
  }

  // At least once, exactly: a client that awaits the hunt from round k on gets it if
  // and only if its ping lies in the window of the first round that deals with the
  // hunt, or of the first that does so without treating it as newly started.
  lemma ReachedExactly(rounds: seq<Round>, k: nat, client: ClientId, hunt: Hunt, ping: nat, m: nat, n: nat)
    requires Timeline(rounds) && History(rounds) && Awaits(rounds, k, client, hunt, ping)
    requires Decisive(rounds, k, hunt, m, n) && (m < |rounds| ==> hunt.startTime * 1000 < rounds[m].sw.now)
    ensures ScheduledFrom(rounds, k, client, hunt) <==> Decides(rounds, hunt, ping, m, n)
  {
    ScheduledExactly(rounds, k, client, hunt, ping);
    if j :| k <= j < |rounds| && InWindow(rounds[j], hunt, ping) {
      WindowDecided(rounds, k, hunt, ping, m, n, j);
    }
    if m < |rounds| && WindowStart(rounds[m].sw, hunt) < ping { assert InWindow(rounds[m], hunt, ping); }
    if n < |rounds| && rounds[n].sw.lastRunTime < ping {
      TimesNatural(rounds, n);
      assert InWindow(rounds[n], hunt, ping);
    }
  }

  // For a ping after the hunt's creation, seen as soon as it is stamped, the first
  // round that knows of both reaches the client if it deals with the hunt, unless it
  // treats it as newly started more than three hours after the ping. Otherwise a
  // later round has to.
  lemma PingAfterCreationReached(rounds: seq<Round>, i: nat, k: nat, created: nat, client: ClientId, hunt: Hunt,
                                 ping: nat, m: nat, n: nat)
    requires Timeline(rounds) && History(rounds) && FirstListed(rounds, i, created, hunt)
    requires created <= ping && i <= k && Awaits(rounds, k, client, hunt, ping)
    requires k > i ==> rounds[k - 1].queried <= ping
    requires Decisive(rounds, k, hunt, m, n)
    ensures ScheduledFrom(rounds, k, client, hunt) <==>
      || (m < |rounds| && if NewlyStarted(rounds[m].sw, hunt)
                          then rounds[m].sw.backlogNow - MAXIMUM_PING_BACKLOG < ping
                          else m == k || rounds[m].sw.lastRunTime < ping)
      || (n < |rounds| && rounds[n].sw.lastRunTime < ping)
  {
    FirstListedWindow(rounds, i, created, hunt);
    TimesNatural(rounds, k);
    if i < k {
      WindowsAdvance(rounds, i, k);
      assert Timed(rounds[k]) && Timed(rounds[k - 1]) && Follows(rounds[k - 1], rounds[k]);
    }
    if m < |rounds| {
      TimesNatural(rounds, m);
      if i < m { WindowsAdvance(rounds, i, m); }
    }
    ReachedExactly(rounds, k, client, hunt, ping, m, n);
  }

  // Whether or not round k deals with the hunt, the window moves on: once the hunt is
  // no longer new, a client whom round k did not reach gets it if and only if its
  // ping was stamped after round k began.
  lemma AfterMissedRound(rounds: seq<Round>, k: nat, client: ClientId, hunt: Hunt, ping: nat)
    requires Timeline(rounds) && History(rounds) && Awaits(rounds, k, client, hunt, ping)
    requires hunt.id !in rounds[k].did.done && k + 1 < |rounds| && hunt.id in rounds[k + 1].did.done
    requires hunt.startTime * 1000 < rounds[k].nextRunTime
    ensures ScheduledFrom(rounds, k, client, hunt) <==> rounds[k].nextRunTime < ping
  {
    TimesNatural(rounds, k + 1);
    WindowsAdvance(rounds, k, k + 1);
    assert Follows(rounds[k], rounds[k + 1]);
    assert !NewlyStarted(rounds[k + 1].sw, hunt);
    ReachedExactly(rounds, k, client, hunt, ping, k + 1, k + 1);
  }

  // ---------------------------------------------------- pings and hunts missed

  function QuietRound(hunts: seq<Hunt>, last: nat, next: nat, docs: seq<ClientDoc>): Round {
    Round(Sweep(hunts, last, next + 20, next + 30), next, next + 10, next + 40, [],
          State(docs, []), State(docs, []), Execution(true, [], {}, Ids(hunts)))
  }

  lemma QuietRoundOk(hunts: seq<Hunt>, last: nat, next: nat, docs: seq<ClientDoc>)
    requires DistinctIds(hunts) && (hunts == [] || docs == []) && forall c :: !PingedAfter(docs, c, last)
    ensures RoundOk(QuietRound(hunts, last, next, docs))
  {
    assert AssignmentDocs([]) == [];
  }

  // A ping stamped before round 1 began and visible only after its query is in no
  // window.
  lemma LatePingMissed(docs: seq<ClientDoc>)
    requires docs == [ClientDoc("C", 1999, [], [], "")]
    ensures var rounds := [QuietRound([], 1000, 1000, []), QuietRound([], 1000, 2000, []), QuietRound([], 2000, 3000, docs)];
      && Timeline(rounds) && History(rounds) && rounds[0].sw.lastRunTime < 1999
      && LatestPing(docs, "C", 1999) && forall j :: 0 <= j < |rounds| ==> "C" !in rounds[j].recent
  {
    assert docs[0] in docs;
    QuietRoundOk([], 1000, 1000, []);
    QuietRoundOk([], 1000, 2000, []);
    QuietRoundOk([], 2000, 3000, docs);
    ThreeRounds(QuietRound([], 1000, 1000, []), QuietRound([], 1000, 2000, []), QuietRound([], 2000, 3000, docs));
  }

  // Start times are kept in whole microseconds, and that can lose a hunt: one
  // created 500ns into a microsecond in which the previous round began falls
  // before the window, and no round gives it the backlog of clients.
  lemma TruncatedHuntMissed(hunt: Hunt)
    requires hunt.startTime == 1500 / 1000
    ensures var rounds := [QuietRound([], 1100, 1100, []), QuietRound([hunt], 1100, 5000, [])];
      && Timeline(rounds) && History(rounds) && FirstListed(rounds, 1, 1500, hunt)
      && forall j :: 0 <= j < |rounds| ==> !NewlyStarted(rounds[j].sw, hunt)
  {
    QuietRoundOk([], 1100, 1100, []);
    QuietRoundOk([hunt], 1100, 5000, []);
  }

  // A round that finds one client active since the last run and schedules nothing.
  function IdleRound(hunt: Hunt, last: nat, next: nat, docs: seq<ClientDoc>, ok: bool): Round {
    QuietRound([hunt], last, next, docs).(recent := ["C"], did := Execution(ok, [], {}, if ok then {hunt.id} else {}))
  }

  function OnePing(ping: nat): seq<ClientDoc> {
    [ClientDoc("C", ping, [], [], "")]
  }

  lemma OnePingFacts(ping: nat)
    ensures LatestPing(OnePing(ping), "C", ping) && forall h :: !Assigned(OnePing(ping), "C", h)
    ensures forall c, time: int :: PingedAfter(OnePing(ping), c, time) <==> c == "C" && time < ping
  {
    assert OnePing(ping)[0] in OnePing(ping);
  }

  lemma IdleRoundOk(hunt: Hunt, last: nat, next: nat, ping: nat, ok: bool)
    requires last < ping && (ok ==> ping <= WindowStart(IdleRound(hunt, last, next, OnePing(ping), ok).sw, hunt))
    ensures RoundOk(IdleRound(hunt, last, next, OnePing(ping), ok))
  {
    OnePingFacts(ping);
    var r := IdleRound(hunt, last, next, OnePing(ping), ok);
    forall c, id | id in r.did.done ensures !Eligible(r.before.docs, r.sw, c, id) {
    }
    assert AssignmentDocs([]) == [] && r.after == State(r.before.docs + [], r.before.log + []);
  }

  // The next sweep comes more than three hours after the ping, and the hunt, created
  // just before the ping, is new to it.
  lemma LongGapMissed(hunt: Hunt)
    requires hunt.startTime == 2 && hunt.condition.None? && hunt.startRequest.Some?
    ensures var rounds := [QuietRound([], 1000, 1000, []),
                           IdleRound(hunt, 1000, MAXIMUM_PING_BACKLOG + 5000, OnePing(3000), true)];
      && Timeline(rounds) && History(rounds) && FirstListed(rounds, 1, 2000, hunt)
      && Awaits(rounds, 1, "C", hunt, 3000) && !ScheduledFrom(rounds, 1, "C", hunt)
  {
    OnePingFacts(3000);
    QuietRoundOk([], 1000, 1000, []);
    var next := MAXIMUM_PING_BACKLOG + 5000;
    IdleRoundOk(hunt, 1000, next, 3000, true);
    TwoRounds(QuietRound([], 1000, 1000, []), IdleRound(hunt, 1000, next, OnePing(3000), true));
    assert Ready(IdleRound(hunt, 1000, next, OnePing(3000), true), "C", hunt, 3000);
  }

  lemma PassedRoundOk(hunt: Hunt, last: nat, next: nat, ping: nat)
    requires ping <= last && ping <= WindowStart(QuietRound([hunt], last, next, OnePing(ping)).sw, hunt)
    ensures RoundOk(QuietRound([hunt], last, next, OnePing(ping)))
  {
    OnePingFacts(ping);
    assert AssignmentDocs([]) == [];
  }

  lemma TwoRounds(a: Round, b: Round)
    requires RoundOk(a) && RoundOk(b) && Linked(a, b)
    requires Timed(a) && Timed(b) && Follows(a, b) && a.sw.lastRunTime == a.nextRunTime
    ensures Timeline([a, b]) && History([a, b])
  {
  }

  lemma ThreeRounds(a: Round, b: Round, c: Round)
    requires RoundOk(a) && RoundOk(b) && RoundOk(c) && Linked(a, b) && Linked(b, c)
    requires Timed(a) && Timed(b) && Timed(c) && Follows(a, b) && Follows(b, c) && a.sw.lastRunTime == a.nextRunTime
    ensures Timeline([a, b, c]) && History([a, b, c])
  {
  }

  // The sweep that sees the ping fails, and the next one looks only at later pings.
  lemma FailedRoundMissed(hunt: Hunt)
    requires hunt.startTime == 0 && hunt.condition.None? && hunt.startRequest.Some?
    ensures var last := QuietRound([hunt], 5000, 9000, OnePing(3000));
      var rounds := [QuietRound([hunt], 1000, 1000, []), IdleRound(hunt, 1000, 5000, OnePing(3000), false), last];
      && Timeline(rounds) && History(rounds)
      && Awaits(rounds, 1, "C", hunt, 3000) && !ScheduledFrom(rounds, 1, "C", hunt)
  {
    var first, failed := QuietRound([hunt], 1000, 1000, []), IdleRound(hunt, 1000, 5000, OnePing(3000), false);
    var last := QuietRound([hunt], 5000, 9000, OnePing(3000));
    QuietRoundOk([hunt], 1000, 1000, []);
    IdleRoundOk(hunt, 1000, 5000, 3000, false);
    PassedRoundOk(hunt, 5000, 9000, 3000);
    OnePingFacts(3000);
    ThreeRounds(first, failed, last);
    assert Ready(failed, "C", hunt, 3000) && Ready(last, "C", hunt, 3000);
  }

  // The first round's call reaches the client and fails; the second schedules it again.
  function FirstCall(hunt: Hunt): Round {
    IdleRound(hunt, 1000, 1000, OnePing(1015), false).(did := Execution(false, [], {("C", hunt.id)}, {}))
  }

  function SecondCall(hunt: Hunt): Round {
    var pairs := [("C", hunt.id)];
    IdleRound(hunt, 1000, 5000, OnePing(1015), true).(
      after := State(OnePing(1015) + AssignmentDocs(pairs), pairs), did := Execution(true, pairs, {}, {hunt.id}))
  }

  lemma CallEligible(hunt: Hunt, r: Round, c: ClientId, id: HuntId)
    requires hunt.startTime == 0 && hunt.condition.None? && hunt.startRequest.Some?
    requires r.sw.hunts == [hunt] && r.sw.lastRunTime == 1000 && r.before.docs == OnePing(1015)
    ensures Eligible(r.before.docs, r.sw, c, id) <==> c == "C" && id == hunt.id
  {
    OnePingFacts(1015);
    assert !NewlyStarted(r.sw, hunt);
    if c == "C" && id == hunt.id { assert Planned(r.before.docs, r.sw, c, hunt); }
  }

  lemma FailedCallRepeated(hunt: Hunt)
    requires hunt.startTime == 0 && hunt.condition.None? && hunt.startRequest.Some?
    ensures var rounds := [FirstCall(hunt), SecondCall(hunt)];
      && Timeline(rounds) && History(rounds)
      && ("C", hunt.id) in rounds[0].did.lost && ("C", hunt.id) in rounds[1].did.scheduled
  {
    OnePingFacts(1015);
    FirstCallOk(hunt);
    SecondCallOk(hunt);
    TwoRounds(FirstCall(hunt), SecondCall(hunt));
  }

  lemma FirstCallOk(hunt: Hunt)
    requires hunt.startTime == 0 && hunt.condition.None? && hunt.startRequest.Some?
    ensures RoundOk(FirstCall(hunt))
  {
    OnePingFacts(1015);
    var r := FirstCall(hunt);
    forall c, id | (c, id) in r.did.lost ensures Eligible(r.before.docs, r.sw, c, id) {
      CallEligible(hunt, r, c, id);
    }
    assert AssignmentDocs([]) == [] && r.after == State(r.before.docs + [], r.before.log + []);
  }

  lemma SecondCallOk(hunt: Hunt)
    requires hunt.startTime == 0 && hunt.condition.None? && hunt.startRequest.Some?
    ensures RoundOk(SecondCall(hunt))
  {
    OnePingFacts(1015);
    var r := SecondCall(hunt);
    assert hunt in r.sw.hunts && hunt.id in Ids(r.sw.hunts);
    assert r.after == State(r.before.docs + AssignmentDocs(r.did.scheduled), r.before.log + r.did.scheduled);
    forall c, id ensures (c, id) in r.did.scheduled <==> id in r.did.done && Eligible(r.before.docs, r.sw, c, id) {
      CallEligible(hunt, r, c, id);
    }
  }
}
