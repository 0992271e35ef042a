// Client monitoring tables, memoised per set of relevant labels.
module Monitoring {
  import opened Sequences
  import opened Text
  import opened Wrappers

  // A compiled event query; a MaxWait of 0 means not set.
  datatype Event = Event(query: string, maxWait: nat, timeout: nat)

  datatype LabelTable = LabelTable(name: string, events: seq<Event>)

  datatype EventTable = EventTable(version: nat, events: seq<Event>, labelTables: seq<LabelTable>)

  // Time and state of a client as the planner sees it.
  datatype Client = Client(id: string, labels: seq<string>, lastLabelTimestamp: nat, lastEventTableVersion: nat)

  const EVENT_TIMEOUT: nat := 99999999
  const DEFAULT_MAX_WAIT: nat := 120

  ghost predicate ValidLabels(labels: seq<string>) {
    forall name :: name in labels ==> ValidLabel(name)
  }

  // ------------------------------------------------------------ specification

  // The tables that apply to a client, in table order.
  function Applicable(labels: seq<string>, tables: seq<LabelTable>): seq<LabelTable> {
    if tables == [] then []
    else
      var t := tables[|tables| - 1];
      Applicable(labels, tables[..|tables| - 1]) + if t.name in labels then [t] else []
  }

  function Names(tables: seq<LabelTable>): (names: seq<string>)
    ensures |names| == |tables|
    ensures forall i :: 0 <= i < |tables| ==> names[i] == tables[i].name
  {
    seq(|tables|, i requires 0 <= i < |tables| => tables[i].name)
  }

  function EventsOf(tables: seq<LabelTable>): seq<Event> {
    if tables == [] then [] else EventsOf(tables[..|tables| - 1]) + tables[|tables| - 1].events
  }

  function Adjusted(e: Event, defaultMaxWait: nat): Event {
    var wait := if e.maxWait == 0 then defaultMaxWait else e.maxWait;
    Event(e.query, if wait == 0 then DEFAULT_MAX_WAIT else wait, EVENT_TIMEOUT)
  }

  function AllAdjusted(events: seq<Event>, defaultMaxWait: nat): (r: seq<Event>)
    ensures |r| == |events|
    ensures forall i :: 0 <= i < |events| ==> r[i] == Adjusted(events[i], defaultMaxWait)
  {
    seq(|events|, i requires 0 <= i < |events| => Adjusted(events[i], defaultMaxWait))
  }

  // The events a client with these labels should run.
  function Message(state: EventTable, labels: seq<string>, defaultMaxWait: nat): seq<Event> {
    AllAdjusted(state.events + EventsOf(Applicable(labels, state.labelTables)), defaultMaxWait)
  }

  function JoinBar(parts: seq<string>): string {
    if parts == [] then "" else if |parts| == 1 then parts[0] else parts[0] + "|" + JoinBar(parts[1..])
  }

  function Key(labels: seq<string>, state: EventTable): string {
    JoinBar(Names(Applicable(labels, state.labelTables)))
  }

  // ---------------------------------------------------------------- the loops

  lemma ApplicableSnoc(labels: seq<string>, tables: seq<LabelTable>, t: LabelTable)
    ensures Applicable(labels, tables + [t]) == Applicable(labels, tables) + if t.name in labels then [t] else []
  {
    assert (tables + [t])[..|tables|] == tables;
  }

  lemma EventsOfSnoc(tables: seq<LabelTable>, t: LabelTable)
    ensures EventsOf(tables + [t]) == EventsOf(tables) + t.events
  {
    assert (tables + [t])[..|tables|] == tables;
  }

  method GetClientUpdateEventTableMessage(state: EventTable, labels: seq<string>, defaultMaxWait: nat)
    returns (message: seq<Event>)
    ensures message == Message(state, labels, defaultMaxWait)
  {
    var events := state.events;
    for i := 0 to |state.labelTables|
      invariant events == state.events + EventsOf(Applicable(labels, state.labelTables[..i]))
    {
      var table := state.labelTables[i];
      assert state.labelTables[..i + 1] == state.labelTables[..i] + [table];
      TableStep(state.events, labels, state.labelTables[..i], table);
      if table.name in labels {
        events := events + table.events;
      }
    }
    assert state.labelTables[..|state.labelTables|] == state.labelTables;
    message := AdjustEvents(events, defaultMaxWait);
  }

  lemma TableStep(events: seq<Event>, labels: seq<string>, tables: seq<LabelTable>, t: LabelTable)
    ensures events + EventsOf(Applicable(labels, tables + [t])) ==
      if t.name in labels then events + EventsOf(Applicable(labels, tables)) + t.events
      else events + EventsOf(Applicable(labels, tables))
  {
    var before := Applicable(labels, tables);
    ApplicableSnoc(labels, tables, t);
    if t.name in labels {
      EventsOfSnoc(before, t);
      Associative(events, EventsOf(before), t.events);
    } else {
      assert before + [] == before;
    }
  }

  lemma NameStep(labels: seq<string>, tables: seq<LabelTable>, t: LabelTable)
    ensures Names(Applicable(labels, tables + [t])) ==
      if t.name in labels then Names(Applicable(labels, tables)) + [t.name] else Names(Applicable(labels, tables))
  {
  }

  // Fill in the waits, and let no event query time out.
  method AdjustEvents(events: seq<Event>, defaultMaxWait: nat) returns (message: seq<Event>)
    ensures message == AllAdjusted(events, defaultMaxWait)
  {
    message := events;
    for i := 0 to |message|
      invariant |message| == |events|
      invariant forall k :: 0 <= k < i ==> message[k] == Adjusted(events[k], defaultMaxWait)
      invariant forall k :: i <= k < |message| ==> message[k] == events[k]
    {
      var event := message[i];
      if event.maxWait == 0 { event := event.(maxWait := defaultMaxWait); }
      if event.maxWait == 0 { event := event.(maxWait := DEFAULT_MAX_WAIT); }
      message := message[i := event.(timeout := EVENT_TIMEOUT)];
    }
  }

  method LabelsKey(labels: seq<string>, state: EventTable) returns (key: string)
    ensures key == Key(labels, state)
  {
    var names := [];
    for i := 0 to |state.labelTables|
      invariant names == Names(Applicable(labels, state.labelTables[..i]))
    {
      var table := state.labelTables[i];
      assert state.labelTables[..i + 1] == state.labelTables[..i] + [table];
      NameStep(labels, state.labelTables[..i], table);
      if table.name in labels { names := names + [table.name]; }
    }
    assert state.labelTables[..|state.labelTables|] == state.labelTables;
    key := JoinBar(names);
  }

  // ------------------------------------------------------- the key determines

  // Text up to the first bar.
  function Head(s: string): string {
    if s == "" || s[0] == '|' then "" else [s[0]] + Head(s[1..])
  }

  lemma {:induction false} HeadOfJoin(part: string, rest: string)
    requires '|' !in part && (rest == "" || rest[0] == '|')
    ensures Head(part + rest) == part
  {
    if part == "" {
      assert part + rest == rest;
    } else {
      assert (part + rest)[1..] == part[1..] + rest;
      HeadOfJoin(part[1..], rest);
    }
  }

  lemma JoinEmpty(parts: seq<string>)
    requires forall s :: s in parts ==> s != ""
    ensures JoinBar(parts) == "" ==> parts == []
  {
    if parts != [] { assert parts[0] in parts; }
  }

  function JoinRest(parts: seq<string>): string
    requires parts != []
  {
    if |parts| == 1 then "" else "|" + JoinBar(parts[1..])
  }

  lemma JoinSplits(parts: seq<string>)
    requires parts != [] && '|' !in parts[0]
    ensures Head(JoinBar(parts)) == parts[0]
    ensures JoinBar(parts) == parts[0] + JoinRest(parts)
  {
    HeadOfJoin(parts[0], JoinRest(parts));
    if |parts| == 1 {
      assert parts[0] + "" == parts[0];
    } else {
      assert parts[0] + "|" + JoinBar(parts[1..]) == parts[0] + ("|" + JoinBar(parts[1..]));
    }
  }

  lemma JoinHeads(a: seq<string>, b: seq<string>)
    requires a != [] && '|' !in a[0] && b != [] && '|' !in b[0]
    requires JoinBar(a) == JoinBar(b)
    ensures a[0] == b[0] && JoinRest(a) == JoinRest(b)
  {
    JoinSplits(a);
    JoinSplits(b);
    assert JoinRest(a) == JoinBar(a)[|a[0]|..] == JoinRest(b);
  }

  // Joining by bars can be undone when no part is empty or contains a bar.
  lemma {:induction false} JoinInjective(a: seq<string>, b: seq<string>)
    requires forall s :: s in a ==> s != "" && '|' !in s
    requires forall s :: s in b ==> s != "" && '|' !in s
    requires JoinBar(a) == JoinBar(b)
    ensures a == b
    decreases |a|
  {
    JoinEmpty(a);
    JoinEmpty(b);
    if a != [] {
      assert a[0] in a && b[0] in b;
      JoinHeads(a, b);
      if |a| > 1 && |b| > 1 {
        assert (forall s :: s in a[1..] ==> s in a) && (forall s :: s in b[1..] ==> s in b);
        assert JoinRest(a)[1..] == JoinBar(a[1..]) && JoinRest(b)[1..] == JoinBar(b[1..]);
        JoinInjective(a[1..], b[1..]);
        assert a == [a[0]] + a[1..] && b == [b[0]] + b[1..];
      }
    }
  }

  lemma ApplicableValid(labels: seq<string>, tables: seq<LabelTable>)
    requires ValidLabels(labels)
    ensures forall s :: s in Names(Applicable(labels, tables)) ==> s != "" && '|' !in s
  {
    AllApplicableIn(labels, tables);
    forall s | s in Names(Applicable(labels, tables)) ensures s != "" && '|' !in s {
      assert ValidLabel(s);
    }
  }

  lemma ApplicableMember(labels: seq<string>, tables: seq<LabelTable>, t: LabelTable)
    requires t in tables
    ensures t.name in Names(Applicable(labels, tables)) <==> t.name in labels
  {
    AllApplicableIn(labels, tables);
    if t.name in labels {
      FoundApplicable(labels, tables, t);
      var i :| 0 <= i < |Applicable(labels, tables)| && Applicable(labels, tables)[i] == t;
      assert Names(Applicable(labels, tables))[i] == t.name;
    }
  }

  lemma {:induction false} AllApplicableIn(labels: seq<string>, tables: seq<LabelTable>)
    ensures forall t :: t in Applicable(labels, tables) ==> t.name in labels
    ensures forall s :: s in Names(Applicable(labels, tables)) ==> s in labels
  {
    if tables != [] { AllApplicableIn(labels, tables[..|tables| - 1]); }
    var found := Applicable(labels, tables);
    forall s | s in Names(found) ensures s in labels {
      var i :| 0 <= i < |found| && Names(found)[i] == s;
      assert found[i] in found;
    }
  }

  lemma {:induction false} FoundApplicable(labels: seq<string>, tables: seq<LabelTable>, t: LabelTable)
    requires t in tables && t.name in labels
    ensures t in Applicable(labels, tables)
  {
    if t != tables[|tables| - 1] { FoundApplicable(labels, tables[..|tables| - 1], t); }
  }

  lemma {:induction false} SameMembersSameTables(a: seq<string>, b: seq<string>, tables: seq<LabelTable>)
    requires forall t :: t in tables ==> (t.name in a <==> t.name in b)
    ensures Applicable(a, tables) == Applicable(b, tables)
  {
    if tables != [] {
      assert tables[|tables| - 1] in tables;
      SameMembersSameTables(a, b, tables[..|tables| - 1]);
    }
  }

  // Memo soundness: two clients with accepted labels and equal keys get the
  // same events, whatever the event table.
  lemma KeyDeterminesMessage(state: EventTable, a: seq<string>, b: seq<string>, defaultMaxWait: nat)
    requires ValidLabels(a) && ValidLabels(b)
    requires Key(a, state) == Key(b, state)
    ensures Message(state, a, defaultMaxWait) == Message(state, b, defaultMaxWait)
  {
    var tables := state.labelTables;
    var na, nb := Names(Applicable(a, tables)), Names(Applicable(b, tables));
    ApplicableValid(a, tables);
    ApplicableValid(b, tables);
    JoinInjective(na, nb);
    forall t | t in tables ensures t.name in a <==> t.name in b {
      ApplicableMember(a, tables, t);
      ApplicableMember(b, tables, t);
    }
    SameMembersSameTables(a, b, tables);
  }

  // The events are those of the tables whose label the client has.
  lemma {:induction false} EventsExact(labels: seq<string>, tables: seq<LabelTable>, e: Event)
    ensures e in EventsOf(Applicable(labels, tables)) <==>
            exists t :: t in tables && t.name in labels && e in t.events
  {
    if tables != [] {
      var before, t := tables[..|tables| - 1], tables[|tables| - 1];
      EventsExact(labels, before, e);
      assert tables == before + [t];
      TableStep([], labels, before, t);
      assert [] + EventsOf(Applicable(labels, before)) == EventsOf(Applicable(labels, before));
      assert [] + EventsOf(Applicable(labels, tables)) == EventsOf(Applicable(labels, tables));
    }
  }

  // The tables that apply are those whose label the client has, in table order.
  lemma {:induction false} ApplicableExact(labels: seq<string>, tables: seq<LabelTable>,
                                           select: LabelTable -> Option<LabelTable>)
    returns (at: seq<nat>)
    requires forall t :: select(t) == (if t.name in labels then Some(t) else None)
    ensures PicksAt(select, tables, Applicable(labels, tables), at)
  {
    if tables == [] {
      at := [];
    } else {
      var before, last := tables[..|tables| - 1], tables[|tables| - 1];
      assert tables == before + [last];
      at := ApplicableExact(labels, before, select);
      PicksSnoc(select, before, last, Applicable(labels, before), at);
      if select(last).Some? { at := at + [|before|]; }
    }
  }

  // The events of table k are those from offset k on, and the next table's follow.
  ghost predicate Sliced(events: seq<Event>, tables: seq<LabelTable>, offsets: seq<nat>) {
    && |offsets| == |tables| + 1 && offsets[0] == 0 && offsets[|tables|] == |events|
    && forall k :: 0 <= k < |tables| ==> SliceAt(events, tables, offsets, k)
  }

  ghost predicate SliceAt(events: seq<Event>, tables: seq<LabelTable>, offsets: seq<nat>, k: nat)
    requires k < |tables| && |offsets| == |tables| + 1
  {
    && offsets[k] <= offsets[k + 1] <= |events|
    && events[offsets[k]..offsets[k + 1]] == tables[k].events
  }

  // The label events come table by table.
  lemma {:induction false} EventsInOrder(tables: seq<LabelTable>) returns (offsets: seq<nat>)
    ensures Sliced(EventsOf(tables), tables, offsets)
  {
    if tables == [] {
      offsets := [0];
    } else {
      var before, last := tables[..|tables| - 1], tables[|tables| - 1];
      var earlier := EventsInOrder(before);
      var events, earlierEvents := EventsOf(tables), EventsOf(before);
      offsets := earlier + [|events|];
      forall k | 0 <= k < |tables| ensures SliceAt(events, tables, offsets, k) {
        if k < |before| {
          assert SliceAt(earlierEvents, before, earlier, k);
          assert events[offsets[k]..offsets[k + 1]] == earlierEvents[earlier[k]..earlier[k + 1]];
        } else {
          assert events[|earlierEvents|..] == last.events;
        }
      }
    }
  }

  // And after the events that every client runs.
  lemma BaseEventsFirst(state: EventTable, labels: seq<string>, defaultMaxWait: nat, i: nat)
    ensures |Message(state, labels, defaultMaxWait)| == |state.events| + |EventsOf(Applicable(labels, state.labelTables))|
    ensures i < |state.events| ==> Message(state, labels, defaultMaxWait)[i].query == state.events[i].query
    ensures i < |EventsOf(Applicable(labels, state.labelTables))| ==>
      Message(state, labels, defaultMaxWait)[|state.events| + i].query == EventsOf(Applicable(labels, state.labelTables))[i].query
  {
  }

  // Every event sent waits for some time and never times out; a wait the event
  // sets itself is kept, and the queries are those of the tables, in order.
  lemma MessageWaits(state: EventTable, labels: seq<string>, defaultMaxWait: nat, i: nat)
    requires i < |Message(state, labels, defaultMaxWait)|
    ensures var events := state.events + EventsOf(Applicable(labels, state.labelTables));
      var m := Message(state, labels, defaultMaxWait);
      && |m| == |events| && m[i].query == events[i].query
      && m[i].maxWait > 0 && m[i].timeout == 99999999
      && (events[i].maxWait > 0 ==> m[i].maxWait == events[i].maxWait)
      && (events[i].maxWait == 0 && defaultMaxWait > 0 ==> m[i].maxWait == defaultMaxWait)
      && (events[i].maxWait == 0 && defaultMaxWait == 0 ==> m[i].maxWait == 120)
  {
  }

  // Without the labeler's restriction the key is ambiguous: under these tables
  // the label "a|b" and the labels "a" and "b" share a key but not a message.
  function AmbiguousTable(): EventTable {
    EventTable(1, [], [LabelTable("a|b", [Event("X", 1, 0)]), LabelTable("a", []), LabelTable("b", [])])
  }

  // The tables of the ambiguous table, one after the other.
  lemma ThreeTables(labels: seq<string>, t0: LabelTable, t1: LabelTable, t2: LabelTable)
    ensures Applicable(labels, [t0, t1, t2]) ==
      (if t0.name in labels then [t0] else []) + (if t1.name in labels then [t1] else []) +
      (if t2.name in labels then [t2] else [])
  {
    var one, two := [t0], [t0, t1];
    assert [] + [t0] == one && one + [t1] == two && two + [t2] == [t0, t1, t2];
    assert Applicable(labels, one) == (if t0.name in labels then [t0] else []) by {
      ApplicableSnoc(labels, [], t0);
    }
    ApplicableSnoc(labels, one, t1);
    ApplicableSnoc(labels, two, t2);
  }

  lemma BarredLabel()
    ensures Key(["a|b"], AmbiguousTable()) == "a|b" && |Message(AmbiguousTable(), ["a|b"], 0)| == 1
  {
    var t0, t1, t2 := LabelTable("a|b", [Event("X", 1, 0)]), LabelTable("a", []), LabelTable("b", []);
    ThreeTables(["a|b"], t0, t1, t2);
    EventsOfSnoc([], t0);
    assert [] + [t0] == [t0];
  }

  lemma PlainEvents()
    ensures |EventsOf([LabelTable("a", []), LabelTable("b", [])])| == 0
  {
  }

  lemma PlainKey()
    ensures JoinBar(Names([LabelTable("a", []), LabelTable("b", [])])) == "a|b"
  {
  }

  lemma PlainTables()
    ensures Applicable(["a", "b"], AmbiguousTable().labelTables) == [LabelTable("a", []), LabelTable("b", [])]
  {
    var t0, t1, t2 := LabelTable("a|b", [Event("X", 1, 0)]), LabelTable("a", []), LabelTable("b", []);
    ThreeTables(["a", "b"], t0, t1, t2);
    assert [] + [t1] + [t2] == [t1, t2];
  }

  lemma PlainLabels()
    ensures Key(["a", "b"], AmbiguousTable()) == "a|b" && |Message(AmbiguousTable(), ["a", "b"], 0)| == 0
  {
    PlainTables();
    PlainEvents();
    PlainKey();
  }

  lemma BarredLabelsCollide()
    ensures Key(["a|b"], AmbiguousTable()) == Key(["a", "b"], AmbiguousTable())
    ensures Message(AmbiguousTable(), ["a|b"], 0) != Message(AmbiguousTable(), ["a", "b"], 0)
  {
    BarredLabel();
    PlainLabels();
  }

  // ------------------------------------------------------------- the planner

  // The message memoised under the key of these labels is their message.
  ghost predicate Served(state: EventTable, wait: nat, tables: map<string, seq<Event>>, labels: seq<string>) {
    && ValidLabels(labels)
    && Key(labels, state) in tables
    && tables[Key(labels, state)] == Message(state, labels, wait)
  }

  // A client together with the labels it was planned with. A client that is
  // enumerated twice while its labels change is planned twice.
  type Planned = set<(string, seq<string>)>

  ghost predicate PlannedUnder(state: EventTable, planned: Planned, key: string, client: string) {
    exists p :: p in planned && p.0 == client && Key(p.1, state) == key
  }

  // The client lists group the planned clients by key.
  ghost predicate Grouped(state: EventTable, listed: map<string, seq<string>>, planned: Planned) {
    && (forall key :: key in listed ==> NoDuplicates(listed[key]))
    && (forall key, c :: Lists(listed, key, c) <==> PlannedUnder(state, planned, key, c))
  }

  ghost predicate Sound(state: EventTable, wait: nat, tables: map<string, seq<Event>>,
                        listed: map<string, seq<string>>, planned: Planned) {
    && Grouped(state, listed, planned)
    && (forall p :: p in planned ==> Served(state, wait, tables, p.1))
    && (forall key :: key in tables ==> exists c :: Lists(listed, key, c))
  }

  function Listed(listed: map<string, seq<string>>, key: string, id: string): map<string, seq<string>> {
    var clients := if key in listed then listed[key] else [];
    if id in clients then listed else listed[key := [id] + clients]
  }

  lemma ListedAdds(listed: map<string, seq<string>>, key: string, id: string)
    requires forall k :: k in listed ==> NoDuplicates(listed[k])
    ensures var after := Listed(listed, key, id);
      && (forall k :: k in after ==> NoDuplicates(after[k]))
      && (forall k, c :: Lists(after, k, c) <==> Lists(listed, k, c) || (k == key && c == id))
  {
  }

  lemma GroupClient(state: EventTable, listed: map<string, seq<string>>, planned: Planned,
                    id: string, labels: seq<string>, key: string)
    requires Grouped(state, listed, planned) && key == Key(labels, state)
    ensures Grouped(state, Listed(listed, key, id), planned + {(id, labels)})
  {
    ListedAdds(listed, key, id);
    var planned' := planned + {(id, labels)};
    forall k, c ensures PlannedUnder(state, planned', k, c) <==> PlannedUnder(state, planned, k, c) || (k == key && c == id) {
      if PlannedUnder(state, planned, k, c) {
        var p :| p in planned && p.0 == c && Key(p.1, state) == k;
        assert p in planned';
      }
      if k == key && c == id { assert (id, labels) in planned'; }
    }
  }

  // A memoised message is right for every further client with the same key.
  lemma MemoServes(state: EventTable, wait: nat, tables: map<string, seq<Event>>,
                   listed: map<string, seq<string>>, planned: Planned, labels: seq<string>)
    requires Sound(state, wait, tables, listed, planned) && ValidLabels(labels)
    requires Key(labels, state) in tables
    ensures Served(state, wait, tables, labels)
  {
    var c :| Lists(listed, Key(labels, state), c);
    var p :| p in planned && p.0 == c && Key(p.1, state) == Key(labels, state);
    assert Served(state, wait, tables, p.1);
    KeyDeterminesMessage(state, p.1, labels, wait);
  }

  lemma PlanClient(state: EventTable, wait: nat, tables: map<string, seq<Event>>, listed: map<string, seq<string>>,
                   planned: Planned, id: string, labels: seq<string>, key: string,
                   tables': map<string, seq<Event>>, listed': map<string, seq<string>>, planned': Planned)
    requires Sound(state, wait, tables, listed, planned) && ValidLabels(labels) && key == Key(labels, state)
    requires tables' == if key in tables then tables else tables[key := Message(state, labels, wait)]
    requires listed' == Listed(listed, key, id) && planned' == planned + {(id, labels)}
    ensures Sound(state, wait, tables', listed', planned')
  {
    if key in tables { MemoServes(state, wait, tables, listed, planned, labels); }
    GroupClient(state, listed, planned, id, labels, key);
    StillListed(tables, listed, key, id);
    forall p | p in planned' ensures Served(state, wait, tables', p.1) {
      if p in planned { assert Served(state, wait, tables, p.1); }
    }
  }

  // Every memoised message, the one for the new key included, has a client.
  lemma StillListed(tables: map<string, seq<Event>>, listed: map<string, seq<string>>, key: string, id: string)
    requires forall k :: k in listed ==> NoDuplicates(listed[k])
    requires forall k :: k in tables ==> exists c :: Lists(listed, k, c)
    ensures Lists(Listed(listed, key, id), key, id)
    ensures forall k :: k in tables ==> exists c :: Lists(Listed(listed, key, id), k, c)
  {
    ListedAdds(listed, key, id);
    forall k | k in tables ensures exists c :: Lists(Listed(listed, key, id), k, c) {
      var c :| Lists(listed, k, c);
      assert Lists(Listed(listed, key, id), k, c);
    }
  }

  // The message is computed only when there is none for the key.
  method Regrouped(state: EventTable, wait: nat, tables: map<string, seq<Event>>, listed: map<string, seq<string>>,
                   ghost planned: Planned, id: string, labels: seq<string>)
    returns (tables': map<string, seq<Event>>, listed': map<string, seq<string>>, ghost planned': Planned)
    requires Sound(state, wait, tables, listed, planned) && ValidLabels(labels)
    ensures listed' == Listed(listed, Key(labels, state), id)
    ensures Sound(state, wait, tables', listed', planned') && planned' == planned + {(id, labels)}
  {
    var key := LabelsKey(labels, state);
    tables', listed' := tables, Listed(listed, key, id);
    if key !in tables {
      var message := GetClientUpdateEventTableMessage(state, labels, wait);
      tables' := tables[key := message];
    }
    planned' := planned + {(id, labels)};
    PlanClient(state, wait, tables, listed, planned, id, labels, key, tables', listed', planned');
  }

  class MonitoringPlan {
    const state: EventTable
    const defaultMaxWait: nat
    var tables: map<string, seq<Event>>
    var tableClients: map<string, seq<string>>
    var clientRecords: map<string, Client>
    // Every client planned so far.
    ghost var planned: Planned

    ghost predicate Valid() reads this {
      Sound(state, defaultMaxWait, tables, tableClients, planned)
    }

    constructor (state: EventTable, defaultMaxWait: nat)
      ensures Valid() && planned == {} && this.state == state && this.defaultMaxWait == defaultMaxWait
    {
      this.state, this.defaultMaxWait := state, defaultMaxWait;
      tables, tableClients, clientRecords, planned := map[], map[], map[], {};
    }

    // Only clients with new labels, or an older table than the current one,
    // need an update.
    method PlanMonitoringForClient(client: Client, lastRunTime: nat)
      requires Valid() && ValidLabels(client.labels)
      modifies this
      ensures Valid()
      ensures planned ==
        if client.lastLabelTimestamp >= lastRunTime || client.lastEventTableVersion < state.version
        then old(planned) + {(client.id, client.labels)} else old(planned)
      ensures clientRecords ==
        if client.lastLabelTimestamp >= lastRunTime || client.lastEventTableVersion < state.version
        then old(clientRecords)[client.id := client.(lastEventTableVersion := state.version)] else old(clientRecords)
    {
      if !(client.lastLabelTimestamp >= lastRunTime || client.lastEventTableVersion < state.version) {
        return;
      }
      PlanTable(client);
      clientRecords := clientRecords[client.id := client.(lastEventTableVersion := state.version)];
    }

    // List the client under its key, with the message for that key.
    method PlanTable(client: Client)
      requires Valid() && ValidLabels(client.labels)
      modifies this`tables, this`tableClients, this`planned
      ensures Valid() && planned == old(planned) + {(client.id, client.labels)}
    {
      tables, tableClients, planned :=
        Regrouped(state, defaultMaxWait, tables, tableClients, planned, client.id, client.labels);
    }
  }
}
