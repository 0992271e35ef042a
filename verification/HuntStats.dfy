// Hunt counters batched in memory and flushed to the hunt's record.
module HuntStats {

  datatype Kind = Scheduled | Completed | Failed

  type Counts = Kind -> nat

  // An updater object for one hunt.
  datatype Updater = Updater(hunt: string, pending: Counts)

  // Counts taken from an updater and not yet applied to the hunt's record.
  datatype Delta = Delta(hunt: string, counts: Counts)

  datatype State = State(
    updaters: seq<Updater>,
    cache: map<string, nat>,              // hunt id to live updater
    expired: set<nat>,                    // evicted updaters whose flush has not begun
    inFlight: seq<Delta>,
    persisted: (string, Kind) -> nat,
    dropped: (string, Kind) -> nat,       // taken, and lost with a failed index update
    stopped: bool,                        // the service's context is finished
    increments: (string, Kind) -> nat)    // how often each counter was incremented

  const START := State([], map[], {}, [], (h, k) => 0, (h, k) => 0, false, (h, k) => 0)

  datatype Step =
    | Update(hunt: string)                // look up or create the hunt's updater
    | Miss(hunt: string)                  // a look-up that finds nothing and creates an updater
    | Store(updater: nat)                 // and puts it into the cache
    | Inc(updater: nat, kind: Kind)       // count on an updater obtained before
    | UpdateInc(hunt: string, kind: Kind) // look up and count as one step
    | Expire(hunt: string)
    | Take(updater: nat)                  // the locked phase of a flush
    | Apply(delta: nat)                   // its index update
    | Drop(delta: nat)                    // its index update, when that fails
    | Stop                                // the context ends
    | Purge                               // and then every hunt expires

  // Only expired updaters are flushed, and with a finished context no index update
  // succeeds.
  predicate Enabled(s: State, step: Step) {
    match step
    case Update(_) => true
    case Miss(hunt) => hunt !in s.cache
    case Store(u) => u < |s.updaters|
    case Inc(u, _) => u < |s.updaters|
    case UpdateInc(_, _) => true
    case Expire(hunt) => hunt in s.cache
    case Take(u) => u < |s.updaters| && u in s.expired
    case Apply(i) => i < |s.inFlight| && !s.stopped
    case Drop(i) => i < |s.inFlight|
    case Stop => true
    case Purge => s.stopped
  }

  function DoUpdate(s: State, hunt: string): State {
    if hunt in s.cache then s
    else s.(updaters := s.updaters + [Updater(hunt, _ => 0)], cache := s.cache[hunt := |s.updaters|])
  }

  function DoInc(s: State, u: nat, kind: Kind): State
    requires u < |s.updaters|
  {
    var up := s.updaters[u];
    var before: Counts := up.pending;
    var after: Counts := (k: Kind) => before(k) + if k == kind then 1 else 0;
    s.(updaters := s.updaters[u := up.(pending := after)],
       increments := (h, k) => s.increments(h, k) + if h == up.hunt && k == kind then 1 else 0)
  }

  // Cached updaters exist and are those of their hunts.
  ghost predicate CacheOk(s: State) {
    forall h :: h in s.cache ==> s.cache[h] < |s.updaters| && s.updaters[s.cache[h]].hunt == h
  }

  function Next(s: State, step: Step): (s': State)
    requires Enabled(s, step) && CacheOk(s)
    ensures CacheOk(s')
  {
    match step
    case Update(hunt) => DoUpdate(s, hunt)
    case Miss(hunt) => s.(updaters := s.updaters + [Updater(hunt, _ => 0)])
    case Store(u) => s.(cache := s.cache[s.updaters[u].hunt := u])
    case Inc(u, kind) => DoInc(s, u, kind)
    case UpdateInc(hunt, kind) =>
      var s' := DoUpdate(s, hunt);
      DoInc(s', s'.cache[hunt], kind)
    case Expire(hunt) =>
      s.(cache := s.cache - {hunt}, expired := s.expired + {s.cache[hunt]})
    case Take(u) =>
      var up := s.updaters[u];
      s.(updaters := s.updaters[u := up.(pending := _ => 0)],
         inFlight := s.inFlight + [Delta(up.hunt, up.pending)],
         expired := s.expired - {u})
    case Apply(i) =>
      var d := s.inFlight[i];
      s.(inFlight := s.inFlight[..i] + s.inFlight[i + 1..],
         persisted := (h, k) => s.persisted(h, k) + if h == d.hunt then d.counts(k) else 0)
    case Drop(i) =>
      var d := s.inFlight[i];
      s.(inFlight := s.inFlight[..i] + s.inFlight[i + 1..],
         dropped := (h, k) => s.dropped(h, k) + if h == d.hunt then d.counts(k) else 0)
    case Stop => s.(stopped := true)
    case Purge => s.(cache := map[], expired := s.expired + s.cache.Values)
  }

  // --------------------------------------------------------------- conservation

  function Pending(updaters: seq<Updater>, hunt: string, kind: Kind): nat {
    if updaters == [] then 0
    else Pending(updaters[..|updaters| - 1], hunt, kind) + PendingOf(updaters[|updaters| - 1], hunt, kind)
  }

  function PendingOf(u: Updater, hunt: string, kind: Kind): nat {
    if u.hunt == hunt then u.pending(kind) else 0
  }

  function InFlight(deltas: seq<Delta>, hunt: string, kind: Kind): nat {
    if deltas == [] then 0
    else InFlight(deltas[..|deltas| - 1], hunt, kind) + InFlightOf(deltas[|deltas| - 1], hunt, kind)
  }

  function InFlightOf(d: Delta, hunt: string, kind: Kind): nat {
    if d.hunt == hunt then d.counts(kind) else 0
  }

  // Nothing disappears or is counted twice, for each hunt and counter.
  ghost predicate Conserved(s: State, hunt: string, kind: Kind) {
    s.persisted(hunt, kind) + s.dropped(hunt, kind) + InFlight(s.inFlight, hunt, kind)
    + Pending(s.updaters, hunt, kind) == s.increments(hunt, kind)
  }

  lemma {:induction false} PendingAt(updaters: seq<Updater>, u: nat, up: Updater, hunt: string, kind: Kind)
    requires u < |updaters|
    ensures Pending(updaters[u := up], hunt, kind) + PendingOf(updaters[u], hunt, kind)
         == Pending(updaters, hunt, kind) + PendingOf(up, hunt, kind)
  {
    var n := |updaters| - 1;
    if u == n {
      assert updaters[u := up][..n] == updaters[..n];
    } else {
      PendingAt(updaters[..n], u, up, hunt, kind);
      assert updaters[u := up][..n] == updaters[..n][u := up];
    }
  }

  lemma {:induction false} InFlightWithout(deltas: seq<Delta>, i: nat, hunt: string, kind: Kind)
    requires i < |deltas|
    ensures InFlight(deltas[..i] + deltas[i + 1..], hunt, kind) + InFlightOf(deltas[i], hunt, kind)
         == InFlight(deltas, hunt, kind)
  {
    var n := |deltas| - 1;
    var cut := deltas[..i] + deltas[i + 1..];
    if i == n {
      assert cut == deltas[..n];
    } else {
      InFlightWithout(deltas[..n], i, hunt, kind);
      assert cut[..n - 1] == deltas[..n][..i] + deltas[..n][i + 1..];
    }
  }

  lemma UpdateConserves(s: State, name: string, hunt: string, kind: Kind)
    requires Conserved(s, hunt, kind)
    ensures Conserved(DoUpdate(s, name), hunt, kind)
  {
  }

  lemma IncConserves(s: State, u: nat, k: Kind, hunt: string, kind: Kind)
    requires Conserved(s, hunt, kind) && u < |s.updaters|
    ensures Conserved(DoInc(s, u, k), hunt, kind)
  {
    PendingAt(s.updaters, u, DoInc(s, u, k).updaters[u], hunt, kind);
  }

  lemma TakeConserves(s: State, u: nat, hunt: string, kind: Kind)
    requires CacheOk(s) && Enabled(s, Take(u)) && Conserved(s, hunt, kind)
    ensures Conserved(Next(s, Take(u)), hunt, kind)
  {
    var s' := Next(s, Take(u));
    PendingAt(s.updaters, u, s'.updaters[u], hunt, kind);
    InFlightSnoc(s.inFlight, Delta(s.updaters[u].hunt, s.updaters[u].pending), hunt, kind);
  }

  lemma InFlightSnoc(deltas: seq<Delta>, d: Delta, hunt: string, kind: Kind)
    ensures InFlight(deltas + [d], hunt, kind) == InFlight(deltas, hunt, kind) + InFlightOf(d, hunt, kind)
  {
    assert (deltas + [d])[..|deltas|] == deltas;
  }

  lemma FlushEndConserves(s: State, step: Step, hunt: string, kind: Kind)
    requires (step.Apply? || step.Drop?) && CacheOk(s) && Enabled(s, step) && Conserved(s, hunt, kind)
    ensures Conserved(Next(s, step), hunt, kind)
  {
    InFlightWithout(s.inFlight, step.delta, hunt, kind);
  }

  lemma MissConserves(s: State, name: string, hunt: string, kind: Kind)
    requires CacheOk(s) && name !in s.cache && Conserved(s, hunt, kind)
    ensures Conserved(Next(s, Miss(name)), hunt, kind)
  {
    assert (s.updaters + [Updater(name, _ => 0)])[..|s.updaters|] == s.updaters;
  }

  lemma StepConserves(s: State, step: Step, hunt: string, kind: Kind)
    requires CacheOk(s) && Enabled(s, step) && Conserved(s, hunt, kind)
    ensures Conserved(Next(s, step), hunt, kind)
  {
    match step {
      case Update(name) => UpdateConserves(s, name, hunt, kind);
      case Inc(u, k) => IncConserves(s, u, k, hunt, kind);
      case UpdateInc(name, k) =>
        UpdateConserves(s, name, hunt, kind);
        var mid := DoUpdate(s, name);
        IncConserves(mid, mid.cache[name], k, hunt, kind);
      case Miss(name) => MissConserves(s, name, hunt, kind);
      case Take(u) => TakeConserves(s, u, hunt, kind);
      case Apply(_) => FlushEndConserves(s, step, hunt, kind);
      case Drop(_) => FlushEndConserves(s, step, hunt, kind);
      case _ =>
    }
  }

  // ---------------------------------------------------------------- whole runs

  // Each step of the run is enabled when its turn comes.
  ghost predicate Possible(steps: seq<Step>)
    decreases |steps|, 0
  {
    steps == [] ||
    (Possible(steps[..|steps| - 1]) && Enabled(After(steps[..|steps| - 1]), steps[|steps| - 1]))
  }

  // The state a run leads to.
  ghost function After(steps: seq<Step>): (s: State)
    requires Possible(steps)
    ensures CacheOk(s)
    decreases |steps|, 1
  {
    if steps == [] then START else Next(After(steps[..|steps| - 1]), steps[|steps| - 1])
  }

  // In every interleaving persisted + dropped + in flight + pending is the number
  // of increments, for each hunt and counter.
  lemma {:induction false} RunConserves(steps: seq<Step>, hunt: string, kind: Kind)
    requires Possible(steps)
    ensures Conserved(After(steps), hunt, kind)
  {
    if steps != [] {
      var before := steps[..|steps| - 1];
      RunConserves(before, hunt, kind);
      StepConserves(After(before), steps[|steps| - 1], hunt, kind);
    }
  }

  // ------------------------------------------------------------------ delivery

  // The step counts `kind` on updater u.
  ghost predicate CountsOn(s: State, step: Step, u: nat, kind: Kind) {
    match step
    case Inc(v, k) => v == u && k == kind
    case UpdateInc(hunt, k) => DoUpdate(s, hunt).cache[hunt] == u && k == kind
    case _ => false
  }

  // Step i of the run counts on the updater, and no later step flushes it.
  ghost predicate StrandedAt(steps: seq<Step>, i: nat, u: nat, kind: Kind) {
    && i < |steps| && Possible(steps[..i]) && CountsOn(After(steps[..i]), steps[i], u, kind)
    && forall j :: i < j < |steps| ==> steps[j] != Take(u)
  }

  ghost predicate Stranded(steps: seq<Step>, u: nat, kind: Kind) {
    exists i: nat :: StrandedAt(steps, i, u, kind)
  }

  lemma StrandedLater(before: seq<Step>, step: Step, u: nat, kind: Kind, i: nat)
    requires i < |before|
    ensures StrandedAt(before + [step], i, u, kind) <==> StrandedAt(before, i, u, kind) && step != Take(u)
  {
    var steps := before + [step];
    assert steps[..i] == before[..i] && steps[|before|] == step;
    assert forall j :: 0 <= j < |before| ==> before[j] == steps[j];
  }

  lemma StrandedSnoc(before: seq<Step>, step: Step, u: nat, kind: Kind)
    requires Possible(before)
    ensures Stranded(before + [step], u, kind) <==>
      CountsOn(After(before), step, u, kind) || (Stranded(before, u, kind) && step != Take(u))
  {
    var steps, n := before + [step], |before|;
    assert steps[..n] == before;
    assert StrandedAt(steps, n, u, kind) <==> CountsOn(After(before), step, u, kind);
    forall i: nat | i < n ensures StrandedAt(steps, i, u, kind) <==> StrandedAt(before, i, u, kind) && step != Take(u) {
      StrandedLater(before, step, u, kind, i);
    }
  }

  ghost predicate Waits(s: State, u: nat, kind: Kind) {
    u < |s.updaters| && s.updaters[u].pending(kind) > 0
  }

  lemma UpdateWaits(s: State, hunt: string, u: nat, kind: Kind)
    ensures Waits(DoUpdate(s, hunt), u, kind) <==> Waits(s, u, kind)
  {
  }

  lemma IncWaits(s: State, v: nat, k: Kind, u: nat, kind: Kind)
    requires v < |s.updaters|
    ensures Waits(DoInc(s, v, k), u, kind) <==> (v == u && k == kind) || Waits(s, u, kind)
  {
  }

  lemma StepWaits(s: State, step: Step, u: nat, kind: Kind)
    requires CacheOk(s) && Enabled(s, step)
    ensures Waits(Next(s, step), u, kind) <==> CountsOn(s, step, u, kind) || (Waits(s, u, kind) && step != Take(u))
  {
    match step {
      case Inc(v, k) => IncWaits(s, v, k, u, kind);
      case UpdateInc(hunt, k) =>
        UpdateWaits(s, hunt, u, kind);
        IncWaits(DoUpdate(s, hunt), DoUpdate(s, hunt).cache[hunt], k, u, kind);
      case _ => OtherWaits(s, step, u, kind);
    }
  }

  lemma OtherWaits(s: State, step: Step, u: nat, kind: Kind)
    requires CacheOk(s) && Enabled(s, step) && !step.Inc? && !step.UpdateInc?
    ensures Waits(Next(s, step), u, kind) <==> Waits(s, u, kind) && step != Take(u)
  {
  }

  // Something is pending in an updater exactly when it has a stranded increment.
  lemma {:induction false} PendingIffStranded(steps: seq<Step>, u: nat, kind: Kind)
    requires Possible(steps)
    ensures Stranded(steps, u, kind) <==> Waits(After(steps), u, kind)
  {
    if steps != [] {
      var before, step := steps[..|steps| - 1], steps[|steps| - 1];
      assert steps == before + [step];
      PendingIffStranded(before, u, kind);
      StrandedSnoc(before, step, u, kind);
      StepWaits(After(before), step, u, kind);
    }
  }

  lemma {:induction false} PendingSome(updaters: seq<Updater>, hunt: string, kind: Kind)
    ensures Pending(updaters, hunt, kind) > 0 <==>
      exists u :: 0 <= u < |updaters| && updaters[u].hunt == hunt && updaters[u].pending(kind) > 0
  {
    if updaters != [] { PendingSome(updaters[..|updaters| - 1], hunt, kind); }
  }

  // Delivery, exactly: once no flush is under way, every increment of a counter
  // has reached the hunt's record if and only if no failed flush dropped any and
  // none was made on an updater of that hunt after the updater's last flush.
  lemma DeliveredExactly(steps: seq<Step>, hunt: string, kind: Kind)
    requires Possible(steps) && After(steps).inFlight == []
    ensures var s := After(steps);
      s.persisted(hunt, kind) == s.increments(hunt, kind) <==>
      && s.dropped(hunt, kind) == 0
      && forall u :: 0 <= u < |s.updaters| && s.updaters[u].hunt == hunt ==> !Stranded(steps, u, kind)
  {
    var s := After(steps);
    RunConserves(steps, hunt, kind);
    PendingSome(s.updaters, hunt, kind);
    forall u: nat ensures Stranded(steps, u, kind) <==> Waits(s, u, kind) {
      PendingIffStranded(steps, u, kind);
    }
  }

  // Counts wait only in updaters that are live or about to be flushed.
  ghost predicate Tracked(s: State) {
    forall u, k :: 0 <= u < |s.updaters| && s.updaters[u].pending(k) > 0 ==>
      u in s.expired || (s.updaters[u].hunt in s.cache && s.cache[s.updaters[u].hunt] == u)
  }

  // Looking up and counting as one step.
  ghost predicate Orderly(s: State, step: Step) {
    Enabled(s, step) && !step.Inc? && !step.Miss? && !step.Store?
  }

  ghost predicate OrderlyRun(steps: seq<Step>)
    requires Possible(steps)
  {
    steps == [] ||
    (OrderlyRun(steps[..|steps| - 1]) && Orderly(After(steps[..|steps| - 1]), steps[|steps| - 1]))
  }

  lemma StepTracks(s: State, step: Step)
    requires CacheOk(s) && Tracked(s) && Orderly(s, step)
    ensures Tracked(Next(s, step))
  {
  }

  lemma {:induction false} RunTracks(steps: seq<Step>)
    requires Possible(steps) && OrderlyRun(steps)
    ensures Tracked(After(steps))
  {
    if steps != [] {
      RunTracks(steps[..|steps| - 1]);
      StepTracks(After(steps[..|steps| - 1]), steps[|steps| - 1]);
    }
  }

  // In an orderly run no increment is stranded once all updaters have expired and
  // all flushes have finished, so all are delivered unless a flush failed.
  lemma AllDelivered(steps: seq<Step>, hunt: string, kind: Kind)
    requires Possible(steps) && OrderlyRun(steps)
    requires Quiet(After(steps))
    ensures var s := After(steps); s.persisted(hunt, kind) == s.increments(hunt, kind) <==> s.dropped(hunt, kind) == 0
  {
    RunTracks(steps);
    var s := After(steps);
    forall u | 0 <= u < |s.updaters| && s.updaters[u].hunt == hunt ensures !Stranded(steps, u, kind) {
      PendingIffStranded(steps, u, kind);
    }
    DeliveredExactly(steps, hunt, kind);
  }

  // Nothing is cached, waits to be flushed or is being flushed.
  ghost predicate Quiet(s: State) {
    s.cache == map[] && s.expired == {} && s.inFlight == []
  }

  // ------------------------------------------------------------------ shutdown

  lemma StoppedStep(s: State, step: Step, hunt: string, kind: Kind)
    requires CacheOk(s) && Enabled(s, step) && s.stopped
    ensures var s' := Next(s, step);
      s'.stopped && s'.persisted == s.persisted && s'.increments(hunt, kind) >= s.increments(hunt, kind)
  {
  }

  // `later` continues `steps`, and the context had ended by then: nothing more is
  // persisted, and no increment is taken back.
  lemma {:induction false} NothingAfterStop(steps: seq<Step>, later: seq<Step>, hunt: string, kind: Kind)
    requires Possible(steps + later) && Possible(steps) && After(steps).stopped
    ensures After(steps + later).stopped
    ensures After(steps + later).persisted(hunt, kind) == After(steps).persisted(hunt, kind)
    ensures After(steps + later).increments(hunt, kind) >= After(steps).increments(hunt, kind)
  {
    if later == [] {
      assert steps + later == steps;
    } else {
      var before := later[..|later| - 1];
      assert (steps + later)[..|steps + later| - 1] == steps + before;
      NothingAfterStop(steps, before, hunt, kind);
      StoppedStep(After(steps + before), later[|later| - 1], hunt, kind);
    }
  }

  // Shutdown, exactly: whatever is purged and flushed after the context has ended,
  // all increments are persisted in the end if and only if all had been when it
  // ended and none was made since.
  lemma ShutdownExactly(steps: seq<Step>, later: seq<Step>, hunt: string, kind: Kind)
    requires Possible(steps + later) && Possible(steps) && After(steps).stopped
    ensures var s, t := After(steps), After(steps + later);
      t.persisted(hunt, kind) == t.increments(hunt, kind) <==>
      s.persisted(hunt, kind) == s.increments(hunt, kind) && t.increments(hunt, kind) == s.increments(hunt, kind)
  {
    NothingAfterStop(steps, later, hunt, kind);
    RunConserves(steps, hunt, kind);
  }

  lemma Then(before: seq<Step>, step: Step) returns (steps: seq<Step>, s: State)
    requires Possible(before) && Enabled(After(before), step)
    ensures steps == before + [step] && Possible(steps) && s == After(steps) == Next(After(before), step)
  {
    steps := before + [step];
    assert steps[..|before|] == before;
    s := After(steps);
  }

  // What matters of a state with one hunt: its updaters all belong to "H" and nothing
  // else is going on.
  ghost predicate OnlyH(s: State, updaters: nat, persisted: nat, increments: nat) {
    && |s.updaters| == updaters && (forall u :: 0 <= u < updaters ==> s.updaters[u].hunt == "H")
    && s.inFlight == [] && !s.stopped && s.expired == {}
    && s.persisted("H", Completed) == persisted && s.increments("H", Completed) == increments
  }

  // The run is possible, ends in a quiet state, and one increment is not persisted.
  ghost predicate Loses(steps: seq<Step>) {
    && Possible(steps) && Quiet(After(steps))
    && After(steps).persisted("H", Completed) == 0 && After(steps).increments("H", Completed) == 1
  }

  // An updater is created, expires and is flushed.
  lemma FlushedOnce() returns (steps: seq<Step>, s: State)
    ensures steps == [Update("H"), Expire("H"), Take(0), Apply(0)] && Possible(steps) && s == After(steps)
    ensures OnlyH(s, 1, 0, 0) && s.cache == map[]
  {
    var r1, s1 := Then([], Update("H"));
    var r2, s2 := Then(r1, Expire("H"));
    var r3, s3 := Then(r2, Take(0));
    steps, s := Then(r3, Apply(0));
  }

  // Counting on an updater that was looked up before it expired and was flushed
  // is never delivered.
  lemma LateIncrementLost()
    ensures Loses([Update("H"), Expire("H"), Take(0), Apply(0), Inc(0, Completed)])
  {
    var before, _ := FlushedOnce();
    var steps, _ := Then(before, Inc(0, Completed));
    assert steps == [Update("H"), Expire("H"), Take(0), Apply(0), Inc(0, Completed)];
  }

  // The context ends while one increment waits, and the updater is purged.
  lemma PurgedAfterStop() returns (steps: seq<Step>, s: State)
    ensures steps == [UpdateInc("H", Completed), Stop, Purge] && Possible(steps) && s == After(steps)
    ensures s.cache == map[] && s.expired == {0} && s.inFlight == [] && |s.updaters| == 1
    ensures s.persisted("H", Completed) == 0 && s.increments("H", Completed) == 1
  {
    var r1, s1 := Then([], UpdateInc("H", Completed));
    var r2, s2 := Then(r1, Stop);
    steps, s := Then(r2, Purge);
  }

  // The purge at shutdown flushes with the context that has just ended: what waits
  // then is zeroed and dropped.
  lemma PurgeLoses()
    ensures Loses([UpdateInc("H", Completed), Stop, Purge, Take(0), Drop(0)])
  {
    var before, _ := PurgedAfterStop();
    var r1, _ := Then(before, Take(0));
    var steps, _ := Then(r1, Drop(0));
    assert steps == [UpdateInc("H", Completed), Stop, Purge, Take(0), Drop(0)];
  }

  // Two look-ups at the same time both miss.
  lemma MissedTwice() returns (steps: seq<Step>, s: State)
    ensures steps == [Miss("H"), Miss("H"), Store(0)] && Possible(steps) && s == After(steps)
    ensures OnlyH(s, 2, 0, 0) && s.cache == map["H" := 0] && s.updaters[1].pending(Completed) == 0
  {
    var r1, s1 := Then([], Miss("H"));
    var r2, s2 := Then(r1, Miss("H"));
    steps, s := Then(r2, Store(0));
  }

  // The first counts on its updater; the second replaces it in the cache.
  lemma Orphaned() returns (steps: seq<Step>, s: State)
    ensures steps == [Miss("H"), Miss("H"), Store(0), Inc(0, Completed), Store(1)] && Possible(steps) && s == After(steps)
    ensures OnlyH(s, 2, 0, 1) && s.cache == map["H" := 1] && s.updaters[1].pending(Completed) == 0
  {
    var r3, _ := MissedTwice();
    var r4, _ := Then(r3, Inc(0, Completed));
    steps, s := Then(r4, Store(1));
  }

  // And nothing ever flushes the first.
  lemma OrphanLost()
    ensures Loses([Miss("H"), Miss("H"), Store(0), Inc(0, Completed), Store(1), Expire("H"), Take(1), Apply(0)])
  {
    var r5, _ := Orphaned();
    var r6, s6 := Then(r5, Expire("H"));
    var r7, s7 := Then(r6, Take(1));
    var r8, s8 := Then(r7, Apply(0));
    assert r8 == [Miss("H"), Miss("H"), Store(0), Inc(0, Completed), Store(1), Expire("H"), Take(1), Apply(0)];
  }
}
