// Flows are stored as many partial records. The slow path loads one flow by
// folding its records; the index folds the records of all flows in one pass.
module FlowIndex {
  import opened Wrappers
  import opened Sequences

  datatype QueryStatus = Progress | GenericError | Fine

  datatype FlowState = Unset | Running | Finished | Error

  datatype Context = Context(
    clientId: string, sessionId: string, request: Option<string>,
    totalUploadedFiles: nat, totalExpectedUploadedBytes: nat, totalUploadedBytes: nat,
    totalCollectedRows: nat, totalLogs: nat, activeTime: nat, createTime: nat,
    queryStats: seq<QueryStatus>, state: FlowState, status: string,
    totalRequests: int, outstandingRequests: int, startTime: nat)

  // A stored document. `raw` is None when the embedded context does not parse;
  // a malformed document is no record at all.
  datatype Record =
    | Record(clientId: string, sessionId: string, raw: Option<Context>)
    | Malformed(clientId: string, sessionId: string)

  function ToProto(r: Record): (item: Option<Context>) {
    if r.Malformed? || r.raw.None? then None
    else
      var c := r.raw.value;
      Some(c.(clientId := if c.clientId == "" then r.clientId else c.clientId,
              sessionId := if c.sessionId == "" then r.sessionId else c.sessionId))
  }

  // The context names no other flow than its document.
  predicate Consistent(r: Record) {
    ToProto(r).Some? ==> ToProto(r).value.sessionId == r.sessionId
  }

  // ------------------------------------------------------------ merging

  predicate IsRunning(c: Context) {
    c.state != Error && Progress in c.queryStats
  }

  // A later positive number replaces an earlier one.
  function Newer(earlier: nat, later: nat): nat {
    if later > 0 then later else earlier
  }

  predicate TakesStats(c: Context, stats: Context) {
    stats.queryStats != [] && (c.queryStats == [] || (IsRunning(c) && !IsRunning(stats)))
  }

  function Merge(c: Context, stats: Context): Context {
    Context(
      c.clientId, c.sessionId,
      if stats.request.Some? then stats.request else c.request,
      Newer(c.totalUploadedFiles, stats.totalUploadedFiles),
      Newer(c.totalExpectedUploadedBytes, stats.totalExpectedUploadedBytes),
      Newer(c.totalUploadedBytes, stats.totalUploadedBytes),
      Newer(c.totalCollectedRows, stats.totalCollectedRows),
      Newer(c.totalLogs, stats.totalLogs),
      Newer(c.activeTime, stats.activeTime),
      Newer(c.createTime, stats.createTime),
      if TakesStats(c, stats) then stats.queryStats else c.queryStats,
      if stats.state == Error then Error else c.state,
      if stats.state == Error then stats.status else c.status,
      c.totalRequests, c.outstandingRequests, c.startTime)
  }

  // Copy the positive totals and times.
  method MergeTotals(collection: Context, stats: Context) returns (merged: Context)
    ensures merged == Merge(collection, stats).(
      request := collection.request, queryStats := collection.queryStats,
      state := collection.state, status := collection.status)
  {
    var files, expectedBytes := collection.totalUploadedFiles, collection.totalExpectedUploadedBytes;
    var bytes, rows, logs := collection.totalUploadedBytes, collection.totalCollectedRows, collection.totalLogs;
    var activeTime, createTime := collection.activeTime, collection.createTime;
    if stats.totalUploadedFiles > 0 { files := stats.totalUploadedFiles; }
    if stats.totalExpectedUploadedBytes > 0 { expectedBytes := stats.totalExpectedUploadedBytes; }
    if stats.totalUploadedBytes > 0 { bytes := stats.totalUploadedBytes; }
    if stats.totalCollectedRows > 0 { rows := stats.totalCollectedRows; }
    if stats.totalLogs > 0 { logs := stats.totalLogs; }
    if stats.activeTime > 0 { activeTime := stats.activeTime; }
    if stats.createTime > 0 { createTime := stats.createTime; }
    merged := collection.(
      totalUploadedFiles := files, totalExpectedUploadedBytes := expectedBytes, totalUploadedBytes := bytes,
      totalCollectedRows := rows, totalLogs := logs, activeTime := activeTime, createTime := createTime);
  }

  method MergeRecords(collection: Context, stats: Context) returns (merged: Context)
    ensures merged == Merge(collection, stats)
  {
    var request, queryStats := collection.request, collection.queryStats;
    if stats.request.Some? { request := stats.request; }
    if |stats.queryStats| > 0 {
      if |queryStats| == 0 || (IsRunning(collection) && !IsRunning(stats)) { queryStats := stats.queryStats; }
    }
    var state, status := collection.state, collection.status;
    if stats.state == Error { state, status := stats.state, stats.status; }
    var totals := MergeTotals(collection, stats);
    merged := totals.(request := request, queryStats := queryStats, state := state, status := status);
  }

  // ---------------------------------------------------------------- two folds

  // The contexts of one flow's parsable records, in order.
  function ItemsOf(records: seq<Record>, id: string): seq<Context> {
    if records == [] then []
    else
      var r := records[|records| - 1];
      ItemsOf(records[..|records| - 1], id) +
      if r.sessionId == id && ToProto(r).Some? then [ToProto(r).value] else []
  }

  // They are the contexts of exactly the documents of the flow that parse, with the
  // ids of the document where they have none of their own.
  lemma {:induction false} ItemsExact(records: seq<Record>, id: string, select: Record -> Option<Context>)
    returns (at: seq<nat>)
    requires forall r ::
      select(r) == (if r.Record? && r.raw.Some? && r.sessionId == id
                    then Some(r.raw.value.(
                      clientId := if r.raw.value.clientId != "" then r.raw.value.clientId else r.clientId,
                      sessionId := if r.raw.value.sessionId != "" then r.raw.value.sessionId else r.sessionId))
                    else None)
    ensures PicksAt(select, records, ItemsOf(records, id), at)
  {
    if records == [] {
      at := [];
    } else {
      var before, last := records[..|records| - 1], records[|records| - 1];
      assert records == before + [last];
      at := ItemsExact(before, id, select);
      PicksSnoc(select, before, last, ItemsOf(before, id), at);
      if select(last).Some? { at := at + [|before|]; }
    }
  }

  // The slow path starts from the first context itself.
  function SlowFold(items: seq<Context>): Context
    requires items != []
  {
    if |items| == 1 then items[0] else Merge(SlowFold(items[..|items| - 1]), items[|items| - 1])
  }

  // The index starts from an almost empty context.
  function Skeleton(item: Context, clientId: string, sessionId: string): Context {
    Context(clientId, sessionId, None, 0, 0, 0, 0, 0, 0, 0, [], item.state, "",
            item.totalRequests, item.outstandingRequests, 0)
  }

  function IndexFold(items: seq<Context>, clientId: string, sessionId: string): Context
    requires items != []
  {
    if |items| == 1 then Merge(Skeleton(items[0], clientId, sessionId), items[0])
    else Merge(IndexFold(items[..|items| - 1], clientId, sessionId), items[|items| - 1])
  }

  // Everything about a flow that both paths promise.
  ghost predicate Agree(a: Context, b: Context) {
    && a.request == b.request
    && a.totalUploadedFiles == b.totalUploadedFiles
    && a.totalExpectedUploadedBytes == b.totalExpectedUploadedBytes
    && a.totalUploadedBytes == b.totalUploadedBytes
    && a.totalCollectedRows == b.totalCollectedRows
    && a.totalLogs == b.totalLogs
    && a.activeTime == b.activeTime
    && a.createTime == b.createTime
    && a.queryStats == b.queryStats
    && a.state == b.state
    && a.totalRequests == b.totalRequests
    && a.outstandingRequests == b.outstandingRequests
  }

  lemma {:induction false} FoldsAgree(items: seq<Context>, clientId: string, sessionId: string)
    requires items != []
    ensures Agree(IndexFold(items, clientId, sessionId), SlowFold(items))
    ensures IndexFold(items, clientId, sessionId).sessionId == sessionId
    ensures IndexFold(items, clientId, sessionId).clientId == clientId
    ensures IndexFold(items, clientId, sessionId).startTime == 0
    ensures (forall c :: c in items ==> c.state != Error) ==> IndexFold(items, clientId, sessionId).status == ""
  {
    if |items| > 1 { FoldsAgree(items[..|items| - 1], clientId, sessionId); }
  }

  // The records a query for one flow returns.
  function OwnRecords(records: seq<Record>, id: string): (own: seq<Record>)
    ensures forall r :: r in own ==> r.sessionId == id
  {
    if records == [] then []
    else
      OwnRecords(records[..|records| - 1], id) +
      if records[|records| - 1].sessionId == id then [records[|records| - 1]] else []
  }

  lemma {:induction false} ItemsOfOwnRecords(records: seq<Record>, id: string, own: seq<Record>)
    requires own == OwnRecords(records, id)
    ensures ItemsOf(own, id) == ItemsOf(records, id)
  {
    if records != [] {
      var last, before := records[|records| - 1], OwnRecords(records[..|records| - 1], id);
      ItemsOfOwnRecords(records[..|records| - 1], id, before);
      if last.sessionId == id {
        ItemsStep(before, last, id);
      } else {
        assert own == before && ItemsOf(records, id) == ItemsOf(records[..|records| - 1], id);
      }
    }
  }

  function SlowResult(items: seq<Context>): Option<Context> {
    if items == [] then None else Some(SlowFold(items))
  }

  lemma SlowStep(items: seq<Context>, item: Context)
    ensures SlowResult(items + [item]) == Some(if items == [] then item else Merge(SlowFold(items), item))
  {
  }

  ghost predicate AnyMalformed(records: seq<Record>, id: string) {
    exists r :: r in records && r.Malformed? && r.sessionId == id
  }

  lemma {:induction false} OwnRecordsAll(records: seq<Record>, id: string, r: Record)
    ensures r in OwnRecords(records, id) <==> r in records && r.sessionId == id
  {
    if records != [] {
      OwnRecordsAll(records[..|records| - 1], id, r);
      assert records == records[..|records| - 1] + [records[|records| - 1]];
    }
  }

  lemma OwnMalformed(records: seq<Record>, id: string, own: seq<Record>)
    requires own == OwnRecords(records, id)
    ensures AnyMalformed(records, id) <==> exists i :: 0 <= i < |own| && own[i].Malformed?
  {
    forall r ensures r in own <==> r in records && r.sessionId == id { OwnRecordsAll(records, id, r); }
  }

  function SlowAnswer(items: seq<Context>): Result<Context> {
    if items == [] then Err("not found") else Ok(SlowFold(items))
  }

  // What the slow path answers for one flow.
  ghost function SlowPath(records: seq<Record>, id: string): Result<Context> {
    if AnyMalformed(records, id) then Err("malformed") else SlowAnswer(ItemsOf(records, id))
  }

  // The slow path: query the records of one flow and fold them.
  method LoadCollectionContextSlow(records: seq<Record>, id: string) returns (result: Result<Context>)
    ensures result == SlowPath(records, id)
  {
    var hits := OwnRecords(records, id);
    ItemsOfOwnRecords(records, id, hits);
    OwnMalformed(records, id, hits);
    result := FoldHits(hits, id);
  }

  // The slow path's context after one more hit.
  lemma SlowHit(hits: seq<Record>, i: nat, id: string, context: Option<Context>)
    requires i < |hits| && hits[i].sessionId == id && context == SlowResult(ItemsOf(hits[..i], id))
    ensures var stats := ToProto(hits[i]);
      SlowResult(ItemsOf(hits[..i + 1], id)) ==
      if stats.None? then context
      else if context.None? then stats
      else Some(Merge(context.value, stats.value))
  {
    var items, stats := ItemsOf(hits[..i], id), ToProto(hits[i]);
    assert hits[..i + 1] == hits[..i] + [hits[i]];
    ItemsStep(hits[..i], hits[i], id);
    if stats.None? {
      assert items + [] == items;
    } else {
      SlowStep(items, stats.value);
    }
  }

  method FoldHits(hits: seq<Record>, id: string) returns (result: Result<Context>)
    requires forall r :: r in hits ==> r.sessionId == id
    ensures if exists i :: 0 <= i < |hits| && hits[i].Malformed? then result == Err("malformed")
            else result == SlowAnswer(ItemsOf(hits, id))
  {
    var context: Option<Context> := None;
    for i := 0 to |hits|
      invariant context == SlowResult(ItemsOf(hits[..i], id))
      invariant forall k :: 0 <= k < i ==> !hits[k].Malformed?
    {
      if hits[i].Malformed? { return Err("malformed"); }
      SlowHit(hits, i, id, context);
      var stats := ToProto(hits[i]);
      if stats.None? { continue; }
      if context.None? {
        context := stats;
        continue;
      }
      var merged := MergeRecords(context.value, stats.value);
      context := Some(merged);
    }
    assert hits[..|hits|] == hits;
    result := if context.None? then Err("not found") else Ok(context.value);
  }

  // --------------------------------------------------------- the one-pass index

  // The contexts that name a flow, in order, whatever their documents say.
  function NamedItems(records: seq<Record>, name: string): seq<Context> {
    if records == [] then []
    else NamedItems(records[..|records| - 1], name) + NamedItem(records[|records| - 1], name)
  }

  function NamedItem(r: Record, name: string): seq<Context> {
    if ToProto(r).Some? && ToProto(r).value.sessionId == name then [ToProto(r).value] else []
  }

  // The first document whose context names the flow.
  function FirstNamed(records: seq<Record>, name: string): Record
    requires NamedItems(records, name) != []
  {
    if NamedItems(records[..|records| - 1], name) == [] then records[|records| - 1]
    else FirstNamed(records[..|records| - 1], name)
  }

  function NamedFold(records: seq<Record>, name: string): Context
    requires NamedItems(records, name) != []
  {
    var first := FirstNamed(records, name);
    IndexFold(NamedItems(records, name), first.clientId, first.sessionId)
  }

  ghost predicate Grouped(seen: map<string, Context>, records: seq<Record>) {
    && (forall id :: id in seen <==> NamedItems(records, id) != [])
    && (forall id :: id in seen ==> seen[id] == NamedFold(records, id))
  }

  // One more record changes only the items of its own flow.
  lemma ItemsStep(records: seq<Record>, r: Record, id: string)
    ensures ItemsOf(records + [r], id) ==
      ItemsOf(records, id) + if r.sessionId == id && ToProto(r).Some? then [ToProto(r).value] else []
  {
    assert (records + [r])[..|records|] == records;
  }

  lemma NamedStep(records: seq<Record>, r: Record, name: string)
    ensures var all := records + [r];
      && NamedItems(all, name) == NamedItems(records, name) + NamedItem(r, name)
      && (NamedItems(all, name) != [] ==>
            FirstNamed(all, name) == if NamedItems(records, name) == [] then r else FirstNamed(records, name))
  {
    assert (records + [r])[..|records|] == records;
  }

  lemma FoldStep(items: seq<Context>, item: Context, clientId: string, sessionId: string)
    ensures IndexFold(items + [item], clientId, sessionId) ==
      Merge(if items == [] then Skeleton(item, clientId, sessionId) else IndexFold(items, clientId, sessionId), item)
  {
    assert (items + [item])[..|items|] == items;
  }

  lemma GroupSkip(seen: map<string, Context>, records: seq<Record>, r: Record)
    requires Grouped(seen, records) && ToProto(r).None?
    ensures Grouped(seen, records + [r])
  {
    forall id ensures NamedItems(records + [r], id) == NamedItems(records, id)
      && (id in seen ==> NamedFold(records + [r], id) == NamedFold(records, id)) {
      NamedStep(records, r, id);
    }
  }

  lemma GroupStep(seen: map<string, Context>, records: seq<Record>, r: Record, item: Context)
    requires Grouped(seen, records) && ToProto(r) == Some(item)
    ensures var id := item.sessionId;
      var existing := if id in seen then seen[id] else Skeleton(item, r.clientId, r.sessionId);
      Grouped(seen[id := Merge(existing, item)], records + [r])
  {
    var id := item.sessionId;
    var existing := if id in seen then seen[id] else Skeleton(item, r.clientId, r.sessionId);
    var seen', all := seen[id := Merge(existing, item)], records + [r];
    forall k ensures k in seen' <==> NamedItems(all, k) != [] {
      NamedStep(records, r, k);
    }
    forall k | k in seen' ensures seen'[k] == NamedFold(all, k) {
      if k == id { OwnGroup(records, r, item); } else { OtherGroup(records, r, item, k); }
    }
  }

  lemma OwnGroup(records: seq<Record>, r: Record, item: Context)
    requires ToProto(r) == Some(item)
    ensures var id, all := item.sessionId, records + [r];
      && NamedItems(all, id) != []
      && NamedFold(all, id) == Merge(if NamedItems(records, id) == [] then Skeleton(item, r.clientId, r.sessionId)
                                     else NamedFold(records, id), item)
  {
    var id, all := item.sessionId, records + [r];
    NamedStep(records, r, id);
    var first := FirstNamed(all, id);
    FoldStep(NamedItems(records, id), item, first.clientId, first.sessionId);
  }

  lemma OtherGroup(records: seq<Record>, r: Record, item: Context, k: string)
    requires ToProto(r) == Some(item) && k != item.sessionId && NamedItems(records, k) != []
    ensures NamedItems(records + [r], k) != [] && NamedFold(records + [r], k) == NamedFold(records, k)
  {
    NamedStep(records, r, k);
    assert NamedItems(records, k) + [] == NamedItems(records, k);
  }

  method GroupRecords(records: seq<Record>) returns (seen: map<string, Context>)
    ensures Grouped(seen, records)
  {
    seen := map[];
    for i := 0 to |records|
      invariant Grouped(seen, records[..i])
    {
      var record := records[i];
      assert records[..i + 1] == records[..i] + [record];
      var item := ToProto(record);
      if item.None? {
        GroupSkip(seen, records[..i], record);
        continue;
      }
      GroupStep(seen, records[..i], record, item.value);
      var existing := Skeleton(item.value, record.clientId, record.sessionId);
      if item.value.sessionId in seen { existing := seen[item.value.sessionId]; }
      var merged := MergeRecords(existing, item.value);
      seen := seen[item.value.sessionId := merged];
    }
    assert records[..|records|] == records;
  }

  // --------------------------------------------------------------- the ordering

  // Order of strings.
  predicate Less(a: string, b: string) {
    b != "" && (a == "" || a[0] < b[0] || (a[0] == b[0] && Less(a[1..], b[1..])))
  }

  lemma {:induction false} LessTotal(a: string, b: string)
    ensures a == b || Less(a, b) || Less(b, a)
    ensures !(Less(a, b) && Less(b, a)) && !Less(a, a)
    decreases |a|
  {
    if a != "" && b != "" {
      LessTotal(a[1..], b[1..]);
      LessTotal(a[1..], a[1..]);
      if a[0] == b[0] && a[1..] == b[1..] { assert a == [a[0]] + a[1..] && b == [b[0]] + b[1..]; }
    } else if a != "" {
      LessTotal(a[1..], a[1..]);
    }
  }

  // The texts agree up to k, and `a` ends there or has the smaller character.
  ghost predicate FirstDifference(a: string, b: string, k: nat) {
    k <= |a| && k < |b| && a[..k] == b[..k] && (k == |a| || a[k] < b[k])
  }

  lemma {:induction false} LessExact(a: string, b: string)
    ensures Less(a, b) <==> exists k: nat :: FirstDifference(a, b, k)
    decreases |a|
  {
    if b == "" {
    } else if a == "" || a[0] < b[0] {
      assert FirstDifference(a, b, 0);
    } else if a[0] == b[0] {
      LessExact(a[1..], b[1..]);
      forall k: nat ensures FirstDifference(a, b, k + 1) <==> FirstDifference(a[1..], b[1..], k) {
        if k < |a| && k + 1 < |b| {
          assert a[..k + 1] == [a[0]] + a[1..][..k] && b[..k + 1] == [b[0]] + b[1..][..k];
        }
      }
      if Less(a, b) {
        var k: nat :| FirstDifference(a[1..], b[1..], k);
        assert FirstDifference(a, b, k + 1);
      }
      if k: nat :| FirstDifference(a, b, k) {
        assert k > 0 && FirstDifference(a[1..], b[1..], k - 1);
      }
    } else {
      forall k: nat ensures !FirstDifference(a, b, k) {
        if 0 < k <= |a| && k < |b| { assert a[..k][0] != b[..k][0]; }
      }
    }
  }

  lemma {:induction false} LessTransitive(a: string, b: string, c: string)
    requires Less(a, b) && Less(b, c)
    ensures Less(a, c)
    decreases |a|
  {
    if a != "" && a[0] == b[0] == c[0] { LessTransitive(a[1..], b[1..], c[1..]); }
  }

  predicate AtMost(a: string, b: string) {
    a == b || Less(a, b)
  }

  ghost predicate Descending(flows: seq<Context>) {
    forall i, j :: 0 <= i < j < |flows| ==> AtMost(flows[j].sessionId, flows[i].sessionId)
  }

  ghost predicate StrictlyDescending(flows: seq<Context>) {
    Descending(flows) && forall i, j :: 0 <= i < j < |flows| ==> flows[i].sessionId != flows[j].sessionId
  }

  // Where a flow belongs in a descending list.
  method Place(flows: seq<Context>, flow: Context) returns (n: nat)
    requires Descending(flows)
    ensures n <= |flows| && Descending(flows[..n] + [flow] + flows[n..])
  {
    n := 0;
    while n < |flows| && Less(flow.sessionId, flows[n].sessionId)
      invariant 0 <= n <= |flows|
      invariant forall k :: 0 <= k < n ==> Less(flow.sessionId, flows[k].sessionId)
    {
      n := n + 1;
    }
    if n < |flows| { LessTotal(flows[n].sessionId, flow.sessionId); }
    InsertKeepsOrder(flows, n, flow);
  }

  lemma InsertKeepsOrder(flows: seq<Context>, n: nat, flow: Context)
    requires Descending(flows) && n <= |flows|
    requires forall k :: 0 <= k < n ==> Less(flow.sessionId, flows[k].sessionId)
    requires n < |flows| ==> AtMost(flows[n].sessionId, flow.sessionId)
    ensures Descending(flows[..n] + [flow] + flows[n..])
  {
    forall k | n <= k < |flows| ensures AtMost(flows[k].sessionId, flow.sessionId) {
      if n < k && flows[k].sessionId != flows[n].sessionId && flows[n].sessionId != flow.sessionId {
        LessTransitive(flows[k].sessionId, flows[n].sessionId, flow.sessionId);
      }
    }
  }

  // The entries of the map, each once, next to their keys.
  ghost predicate Entries(seen: map<string, Context>, names: seq<string>, flows: seq<Context>) {
    && |names| == |flows| && NoDuplicates(names)
    && forall i :: 0 <= i < |names| ==> names[i] in seen && flows[i] == seen[names[i]]
  }

  lemma InsertEntry(seen: map<string, Context>, names: seq<string>, flows: seq<Context>, name: string, n: nat)
    requires Entries(seen, names, flows) && name in seen && name !in names && n <= |names|
    ensures Entries(seen, names[..n] + [name] + names[n..], flows[..n] + [seen[name]] + flows[n..])
    ensures forall x :: x in names[..n] + [name] + names[n..] <==> x in names || x == name
  {
    assert names == names[..n] + names[n..];
    var all, all' := names[..n] + [name] + names[n..], flows[..n] + [seen[name]] + flows[n..];
    forall i | 0 <= i < |all| ensures all[i] in seen && all'[i] == seen[all[i]] {
      if i < n { assert all[i] == names[i]; }
      if i > n { assert all[i] == names[i - 1] && all'[i] == flows[i - 1]; }
    }
    NoDuplicatesInsert(names, n, name);
  }

  // All flows of the map, in descending order of id, with the names they were
  // grouped under. The map gives its entries in no particular order.
  method SortFlows(seen: map<string, Context>) returns (flows: seq<Context>, names: seq<string>)
    ensures Descending(flows) && Entries(seen, names, flows)
    ensures forall name :: name in names <==> name in seen
  {
    flows, names := [], [];
    var remaining := seen.Keys;
    while remaining != {}
      invariant remaining <= seen.Keys && Descending(flows) && Entries(seen, names, flows)
      invariant forall name :: name in names <==> name in seen && name !in remaining
      decreases remaining
    {
      var name :| name in remaining;
      var n := Place(flows, seen[name]);
      InsertEntry(seen, names, flows, name, n);
      flows := flows[..n] + [seen[name]] + flows[n..];
      names := names[..n] + [name] + names[n..];
      remaining := remaining - {name};
    }
  }

  // The index has one row for each flow that a context names, in descending order
  // of id; a row merges the contexts that name its flow as the slow path would,
  // and carries the id of the first of their documents.
  ghost predicate IsIndex(records: seq<Record>, flows: seq<Context>, names: seq<string>) {
    && |names| == |flows| && NoDuplicates(names) && Descending(flows)
    && (forall name :: name in names <==> NamedItems(records, name) != [])
    && (forall i :: 0 <= i < |flows| ==> Row(records, names[i], flows[i]))
  }

  ghost predicate Row(records: seq<Record>, name: string, flow: Context) {
    && NamedItems(records, name) != []
    && flow.sessionId == FirstNamed(records, name).sessionId && flow.clientId == FirstNamed(records, name).clientId
    && Agree(flow, SlowFold(NamedItems(records, name)))
  }

  method BuildIndex(records: seq<Record>) returns (flows: seq<Context>, names: seq<string>)
    ensures IsIndex(records, flows, names)
  {
    var seen := GroupRecords(records);
    forall name | name in seen ensures Row(records, name, seen[name]) {
      var first := FirstNamed(records, name);
      FoldsAgree(NamedItems(records, name), first.clientId, first.sessionId);
    }
    flows, names := SortFlows(seen);
  }

  // ------------------------------------------------- the index and the slow path

  lemma {:induction false} NamedAlike(records: seq<Record>, id: string)
    requires AllConsistent(records)
    ensures NamedItems(records, id) == ItemsOf(records, id)
    ensures ItemsOf(records, id) != [] ==> FirstNamed(records, id).sessionId == id
  {
    if records != [] {
      assert records[|records| - 1] in records;
      NamedAlike(records[..|records| - 1], id);
    }
  }

  lemma {:induction false} ItemNamed(records: seq<Record>, name: string, c: Context)
    requires c in NamedItems(records, name)
    ensures c.sessionId == name
  {
    if c in NamedItems(records[..|records| - 1], name) { ItemNamed(records[..|records| - 1], name, c); }
  }

  lemma {:induction false} ItemFound(records: seq<Record>, r: Record)
    requires r in records && ToProto(r).Some?
    ensures ToProto(r).value in ItemsOf(records, r.sessionId)
  {
    if r != records[|records| - 1] { ItemFound(records[..|records| - 1], r); }
  }

  // Index and slow path fold the same contexts for every flow if and only if no
  // context names another flow than its document.
  lemma SameItemsExactly(records: seq<Record>)
    ensures SameItems(records) <==> AllConsistent(records)
  {
    if AllConsistent(records) {
      forall id ensures NamedItems(records, id) == ItemsOf(records, id) { NamedAlike(records, id); }
    }
    if SameItems(records) {
      forall r | r in records ensures Consistent(r) {
        if ToProto(r).Some? {
          ItemFound(records, r);
          assert NamedItems(records, r.sessionId) == ItemsOf(records, r.sessionId);
          ItemNamed(records, r.sessionId, ToProto(r).value);
        }
      }
    }
  }

  ghost predicate SameItems(records: seq<Record>) {
    forall id :: NamedItems(records, id) == ItemsOf(records, id)
  }

  predicate AllConsistent(records: seq<Record>) {
    forall r :: r in records ==> Consistent(r)
  }

  // Then the index lists exactly the flows with a parsable record, once each,
  // strictly descending, and each row agrees with the fold of that flow's records
  // alone, however the records interleave.
  lemma RowsAreFolds(records: seq<Record>, flows: seq<Context>, names: seq<string>)
    requires IsIndex(records, flows, names) && AllConsistent(records)
    ensures StrictlyDescending(flows)
    ensures forall id :: ItemsOf(records, id) != [] <==> exists f :: f in flows && f.sessionId == id
    ensures forall f :: f in flows ==>
      ItemsOf(records, f.sessionId) != [] && Agree(f, SlowFold(ItemsOf(records, f.sessionId)))
  {
    forall i | 0 <= i < |flows|
      ensures flows[i].sessionId == names[i] && NamedItems(records, names[i]) == ItemsOf(records, names[i]) {
      assert Row(records, names[i], flows[i]);
      NamedAlike(records, names[i]);
    }
    forall id ensures ItemsOf(records, id) != [] <==> exists f :: f in flows && f.sessionId == id {
      NamedAlike(records, id);
      if id in names {
        var i :| 0 <= i < |names| && names[i] == id;
        assert flows[i] in flows && flows[i].sessionId == id;
      }
    }
    forall f | f in flows ensures ItemsOf(records, f.sessionId) != [] && Agree(f, SlowFold(ItemsOf(records, f.sessionId))) {
      var i :| 0 <= i < |flows| && flows[i] == f;
      assert Row(records, names[i], flows[i]);
    }
  }

  // The index lists exactly the flows that the slow path finds, and each row agrees
  // with what it finds.
  ghost predicate Refines(records: seq<Record>, flows: seq<Context>) {
    && (forall id :: SlowPath(records, id).Ok? <==> exists f :: f in flows && f.sessionId == id)
    && (forall f :: f in flows ==>
          SlowPath(records, f.sessionId).Ok? && Agree(f, SlowPath(records, f.sessionId).value))
  }

  // No flow that has a parsable record also has a document that is no record.
  ghost predicate CleanFlows(records: seq<Record>) {
    forall id :: AnyMalformed(records, id) ==> ItemsOf(records, id) == []
  }

  // Refinement, exactly: when no context names another flow than its document, the
  // index refines the slow path if and only if no flow with a parsable record has a
  // document that is no record, which the index skips and the slow path fails on.
  lemma IndexRefinesSlow(records: seq<Record>, flows: seq<Context>, names: seq<string>)
    requires IsIndex(records, flows, names) && AllConsistent(records)
    ensures StrictlyDescending(flows)
    ensures Refines(records, flows) <==> CleanFlows(records)
  {
    RowsAreFolds(records, flows, names);
    if Refines(records, flows) {
      forall id | AnyMalformed(records, id) ensures ItemsOf(records, id) == [] {
        assert !SlowPath(records, id).Ok?;
      }
    }
  }

  // A document that is no record beside one that is: the index lists the flow and
  // the slow path fails.
  lemma MalformedRecord(flows: seq<Context>, names: seq<string>)
    requires IsIndex(OneMalformed(), flows, names)
    ensures AllConsistent(OneMalformed()) && (exists f :: f in flows && f.sessionId == "F")
    ensures SlowPath(OneMalformed(), "F") == Err("malformed") && !Refines(OneMalformed(), flows)
  {
    var good, bad := Record("C", "F", Some(Plain([Fine], Finished))), Malformed("C", "F");
    assert bad in OneMalformed();
    ItemFound(OneMalformed(), good);
    RowsAreFolds(OneMalformed(), flows, names);
  }

  function OneMalformed(): seq<Record> {
    [Record("C", "F", Some(Plain([Fine], Finished))), Malformed("C", "F")]
  }

  // A context that names another flow than its document: the slow path finds the
  // flow of the document, the index has no row for it but one for the other.
  lemma MisnamedRecord()
    ensures var records := [Record("C", "F.1", Some(Plain([Fine], Finished)))];
      ItemsOf(records, "F.1") != [] && NamedItems(records, "F.1") == [] && NamedItems(records, "F") != []
  {
    var r := Record("C", "F.1", Some(Plain([Fine], Finished)));
    assert [r][..0] == [];
  }

  // ------------------------------------------------------- order of the records

  // Stats of a flow none of whose queries is still running.
  ghost predicate Completed(stats: seq<QueryStatus>) {
    stats != [] && Progress !in stats
  }

  // The ingestor's view of a set of stats.
  method CalcFlowOutcome(stats: seq<QueryStatus>) returns (failed: bool, completed: bool)
    ensures completed <==> Progress !in stats
    ensures failed <==> completed && GenericError in stats
    ensures stats != [] ==> (completed <==> Completed(stats))
  {
    failed := false;
    for i := 0 to |stats|
      invariant Progress !in stats[..i]
      invariant failed <==> GenericError in stats[..i]
    {
      assert stats[..i + 1] == stats[..i] + [stats[i]];
      match stats[i] {
        case Progress => return false, false;
        case GenericError => failed := true;
        case Fine =>
      }
    }
    assert stats[..|stats|] == stats;
    completed := true;
  }

  // The merged state is ERROR exactly when some record is in ERROR.
  lemma {:induction false} ErrorSticks(items: seq<Context>)
    requires items != []
    ensures SlowFold(items).state == Error <==> exists c :: c in items && c.state == Error
  {
    if |items| == 1 {
      assert items[0] in items;
    } else {
      var before, last := items[..|items| - 1], items[|items| - 1];
      ErrorSticks(before);
      assert last in items && forall c :: c in items <==> c in before || c == last;
    }
  }

  // The record at j has completed stats, and either no stats came before it or no
  // error did.
  ghost predicate Decides(items: seq<Context>, j: nat) {
    && j < |items| && Completed(items[j].queryStats)
    && (NoStats(items[..j]) || NoError(items[..j]))
  }

  ghost predicate NoStats(items: seq<Context>) {
    forall i :: 0 <= i < |items| ==> items[i].queryStats == []
  }

  ghost predicate NoError(items: seq<Context>) {
    forall i :: 0 <= i < |items| ==> items[i].state != Error
  }

  ghost predicate SomeDecides(items: seq<Context>) {
    exists j: nat :: Decides(items, j)
  }

  lemma DecidesSnoc(before: seq<Context>, last: Context)
    ensures SomeDecides(before + [last]) <==>
      SomeDecides(before) || (Completed(last.queryStats) && (NoStats(before) || NoError(before)))
  {
    var items, n := before + [last], |before|;
    assert items[..n] == before;
    if SomeDecides(before) {
      var j: nat :| Decides(before, j);
      assert items[..j] == before[..j];
      assert Decides(items, j);
    }
    if Completed(last.queryStats) && (NoStats(before) || NoError(before)) { assert Decides(items, n); }
    if SomeDecides(items) {
      var j: nat :| Decides(items, j);
      if j < n {
        assert items[..j] == before[..j];
        assert Decides(before, j);
      }
    }
  }

  // Completion, exactly: the merged stats are completed if and only if some
  // record's are and it came before any other stats or before any error.
  lemma {:induction false} CompletionExact(items: seq<Context>)
    requires items != []
    ensures Completed(SlowFold(items).queryStats) <==> SomeDecides(items)
    ensures SlowFold(items).queryStats == [] <==> NoStats(items)
    ensures SlowFold(items).state != Error <==> NoError(items)
  {
    if |items| == 1 {
      assert items == [] + [items[0]];
      DecidesSnoc([], items[0]);
    } else {
      var before, last := items[..|items| - 1], items[|items| - 1];
      assert items == before + [last];
      CompletionExact(before);
      DecidesSnoc(before, last);
    }
  }

  // Record f is the first with stats.
  ghost predicate FirstStats(items: seq<Context>, f: nat) {
    f < |items| && items[f].queryStats != [] && NoStats(items[..f])
  }

  // A record with stats that no longer runs: it shows no progress, or it failed.
  predicate Final(c: Context) {
    c.queryStats != [] && (Progress !in c.queryStats || c.state == Error)
  }

  // Record k replaces the progress of f: it is the first final one after f, and
  // nothing has failed before it.
  ghost predicate Replaces(items: seq<Context>, f: nat, k: nat) {
    && f < k < |items| && Progress in items[f].queryStats && NoError(items[..k])
    && Final(items[k]) && forall j :: f < j < k ==> !Final(items[j])
  }

  lemma ReplacesBefore(before: seq<Context>, last: Context, f: nat, k: nat)
    requires k < |before|
    ensures Replaces(before + [last], f, k) <==> Replaces(before, f, k)
  {
    var items := before + [last];
    assert items[..k] == before[..k] && forall j :: 0 <= j < |before| ==> items[j] == before[j];
  }

  lemma ReplacesLast(before: seq<Context>, last: Context, f: nat)
    requires f < |before| && forall k: nat :: !Replaces(before, f, k)
    ensures Replaces(before + [last], f, |before|) <==>
      Progress in before[f].queryStats && NoError(before) && Final(last)
  {
    var items, n := before + [last], |before|;
    assert items[..n] == before && items[f] == before[f] && items[n] == last;
    if Progress in before[f].queryStats && NoError(before) {
      if j :| f < j < n && Final(before[j]) && forall i :: f < i < j ==> !Final(before[i]) {
        assert Replaces(before, f, j);
      }
      NoneFinal(before, f, n);
    }
  }

  // Without a replacement nothing after f is final.
  lemma {:induction false} NoneFinal(items: seq<Context>, f: nat, n: nat)
    requires f < |items| && n <= |items| && Progress in items[f].queryStats && NoError(items)
    requires forall k: nat :: !Replaces(items, f, k)
    ensures forall j :: f < j < n ==> !Final(items[j])
  {
    if n > 0 {
      NoneFinal(items, f, n - 1);
      if f < n - 1 && Final(items[n - 1]) { assert Replaces(items, f, n - 1); }
    }
  }

  // The stats of a flow are those of its first record with stats, or those of the
  // record that replaces them.
  lemma {:induction false} StatsExact(items: seq<Context>, f: nat)
    requires FirstStats(items, f)
    ensures forall k: nat :: Replaces(items, f, k) ==> SlowFold(items).queryStats == items[k].queryStats
    ensures (forall k: nat :: !Replaces(items, f, k)) ==> SlowFold(items).queryStats == items[f].queryStats
  {
    var n := |items| - 1;
    var before, last := items[..n], items[n];
    assert items == before + [last];
    if n > 0 { CompletionExact(before); }
    if f < n {
      assert before[..f] == items[..f];
      StatsExact(before, f);
      forall k: nat | k < n ensures Replaces(items, f, k) <==> Replaces(before, f, k) {
        ReplacesBefore(before, last, f, k);
      }
      if k: nat :| Replaces(before, f, k) {
        assert !Replaces(items, f, n);
      } else {
        ReplacesLast(before, last, f);
      }
    }
  }

  // Without errors a completion always replaces progress.
  lemma CompletionFound(items: seq<Context>)
    requires items != [] && NoError(items)
    ensures Completed(SlowFold(items).queryStats) <==> exists c :: c in items && Completed(c.queryStats)
  {
    CompletionExact(items);
    if c :| c in items && Completed(c.queryStats) {
      var j :| 0 <= j < |items| && items[j] == c;
      assert Decides(items, j);
    }
  }

  lemma SameMembers(a: seq<Context>, b: seq<Context>)
    requires multiset(a) == multiset(b)
    ensures |a| == |b| && forall c :: c in a <==> c in b
  {
    assert |multiset(a)| == |a| && |multiset(b)| == |b|;
    forall c ensures c in a <==> c in b {
      assert c in a <==> c in multiset(a);
      assert c in b <==> c in multiset(b);
    }
  }

  // The state does not depend on the order of a flow's records.
  lemma StateOrderInsensitive(a: seq<Context>, b: seq<Context>)
    requires a != [] && multiset(a) == multiset(b)
    ensures b != [] && (SlowFold(a).state == Error <==> SlowFold(b).state == Error)
  {
    SameMembers(a, b);
    ErrorSticks(a);
    ErrorSticks(b);
  }

  // The records for which the order cannot matter to completion: none is completed,
  // or every error carries completed stats, or no stats show progress.
  ghost predicate OrderFree(items: seq<Context>) {
    || (forall c :: c in items ==> !Completed(c.queryStats))
    || (forall c :: c in items && c.state == Error ==> Completed(c.queryStats))
    || (forall c :: c in items ==> Progress !in c.queryStats)
  }

  ghost predicate CompletesInAnyOrder(items: seq<Context>, completed: bool)
    requires items != []
  {
    forall b :: b != [] && multiset(b) == multiset(items) ==> (Completed(SlowFold(b).queryStats) <==> completed)
  }

  lemma {:induction false} FirstCompleted(items: seq<Context>, c: Context) returns (j: nat)
    requires c in items && Completed(c.queryStats)
    ensures j < |items| && Completed(items[j].queryStats)
    ensures forall i :: 0 <= i < j ==> !Completed(items[i].queryStats)
  {
    j := 0;
    while !Completed(items[j].queryStats)
      invariant j < |items| && forall i :: 0 <= i < j ==> !Completed(items[i].queryStats)
      invariant exists i :: j <= i < |items| && items[i] == c
      decreases |items| - j
    {
      j := j + 1;
    }
  }

  lemma OrderFreeCompletes(items: seq<Context>, c: Context)
    requires OrderFree(items) && c in items && Completed(c.queryStats)
    ensures SomeDecides(items)
  {
    var j := FirstCompleted(items, c);
    assert forall i :: 0 <= i < j ==> items[..j][i] in items;
    assert Decides(items, j);
  }

  function ToFront(items: seq<Context>, i: nat): (r: seq<Context>)
    requires i < |items|
    ensures multiset(r) == multiset(items)
  {
    assert items == items[..i] + [items[i]] + items[i + 1..];
    [items[i]] + items[..i] + items[i + 1..]
  }

  // A completed record in front completes the flow.
  lemma CompletesInFront(items: seq<Context>, c: Context)
    requires c in items && Completed(c.queryStats)
    ensures exists b :: b != [] && multiset(b) == multiset(items) && Completed(SlowFold(b).queryStats)
  {
    var i :| 0 <= i < |items| && items[i] == c;
    var b := ToFront(items, i);
    assert Decides(b, 0);
    CompletionExact(b);
  }

  lemma Blocked(items: seq<Context>, k: nat)
    requires k < |items| && items[0].state == Error && Progress in items[k].queryStats
    requires forall i :: 0 <= i <= k ==> !Completed(items[i].queryStats)
    ensures !SomeDecides(items)
  {
    forall j: nat ensures !Decides(items, j) {
      if k < j < |items| { assert items[..j][0] == items[0] && items[..j][k] == items[k]; }
    }
  }

  lemma FrontMember(items: seq<Context>, c: Context) returns (b: seq<Context>)
    requires c in items
    ensures multiset(b) == multiset(items) && |b| == |items| > 0 && b[0] == c
    ensures |b| > 1 && c != items[0] ==> b[1] == items[0]
  {
    var i :| 0 <= i < |items| && items[i] == c && (c == items[0] ==> i == 0);
    b := ToFront(items, i);
  }

  // An error and then progress in front keep it from completing.
  lemma BlockedInFront(items: seq<Context>, e: Context, r: Context)
    requires e in items && e.state == Error && !Completed(e.queryStats)
    requires r in items && Progress in r.queryStats
    ensures exists b :: b != [] && multiset(b) == multiset(items) && !Completed(SlowFold(b).queryStats)
  {
    var a := FrontMember(items, r);
    SameMembers(items, a);
    var b := FrontMember(a, e);
    Blocked(b, if e == r then 0 else 1);
    CompletionExact(b);
  }

  // Order-insensitivity, exactly: every order of the records agrees on whether the
  // merged stats are completed if and only if the records are order free.
  lemma OrderInsensitiveExactly(items: seq<Context>)
    requires items != []
    ensures OrderFree(items) <==> CompletesInAnyOrder(items, Completed(SlowFold(items).queryStats))
  {
    if OrderFree(items) {
      forall b | b != [] && multiset(b) == multiset(items)
        ensures Completed(SlowFold(b).queryStats) <==> exists c :: c in items && Completed(c.queryStats) {
        SameMembers(items, b);
        CompletionExact(b);
        if c :| c in items && Completed(c.queryStats) { OrderFreeCompletes(b, c); }
      }
    } else {
      var c :| c in items && Completed(c.queryStats);
      var e :| e in items && e.state == Error && !Completed(e.queryStats);
      var r :| r in items && Progress in r.queryStats;
      CompletesInFront(items, c);
      BlockedInFront(items, e, r);
    }
  }

  datatype Total = UploadedFiles | ExpectedBytes | UploadedBytes | CollectedRows | Logs | ActiveTime | CreateTime

  function Value(c: Context, t: Total): nat {
    match t
    case UploadedFiles => c.totalUploadedFiles
    case ExpectedBytes => c.totalExpectedUploadedBytes
    case UploadedBytes => c.totalUploadedBytes
    case CollectedRows => c.totalCollectedRows
    case Logs => c.totalLogs
    case ActiveTime => c.activeTime
    case CreateTime => c.createTime
  }

  // The last record with a positive value, or with a request, decides; what the
  // merge does not carry over is the first record's.
  lemma {:induction false} LastValueWins(items: seq<Context>, t: Total, i: nat)
    requires i < |items| && Value(items[i], t) > 0
    requires forall k :: i < k < |items| ==> Value(items[k], t) == 0
    ensures Value(SlowFold(items), t) == Value(items[i], t)
  {
    var before := items[..|items| - 1];
    if i < |before| { LastValueWins(before, t, i); }
  }

  lemma {:induction false} LastRequestWins(items: seq<Context>, i: nat)
    requires i < |items| && items[i].request.Some?
    requires forall k :: i < k < |items| ==> items[k].request.None?
    ensures SlowFold(items).request == items[i].request
  {
    var before := items[..|items| - 1];
    if i < |before| { LastRequestWins(before, i); }
  }

  lemma {:induction false} NothingStaysNothing(items: seq<Context>, t: Total)
    requires items != []
    ensures (forall k :: 0 <= k < |items| ==> Value(items[k], t) == 0) ==> Value(SlowFold(items), t) == 0
    ensures (forall k :: 0 <= k < |items| ==> items[k].request.None?) ==> SlowFold(items).request.None?
    ensures (forall k :: 0 <= k < |items| ==> items[k].state != Error) ==>
      SlowFold(items).state == items[0].state && SlowFold(items).status == items[0].status
  {
    if |items| > 1 { NothingStaysNothing(items[..|items| - 1], t); }
  }

  // Field by field, for two records.
  lemma TwoRecords(a: Context, b: Context)
    ensures var r := SlowFold([a, b]);
      && r.clientId == a.clientId && r.sessionId == a.sessionId && r.startTime == a.startTime
      && r.request == (if b.request.Some? then b.request else a.request)
      && r.totalUploadedFiles == (if b.totalUploadedFiles > 0 then b.totalUploadedFiles else a.totalUploadedFiles)
      && r.totalExpectedUploadedBytes ==
           (if b.totalExpectedUploadedBytes > 0 then b.totalExpectedUploadedBytes else a.totalExpectedUploadedBytes)
      && r.totalUploadedBytes == (if b.totalUploadedBytes > 0 then b.totalUploadedBytes else a.totalUploadedBytes)
      && r.totalCollectedRows == (if b.totalCollectedRows > 0 then b.totalCollectedRows else a.totalCollectedRows)
      && r.totalLogs == (if b.totalLogs > 0 then b.totalLogs else a.totalLogs)
      && r.activeTime == (if b.activeTime > 0 then b.activeTime else a.activeTime)
      && r.createTime == (if b.createTime > 0 then b.createTime else a.createTime)
  {
    assert [a, b][..1] == [a];
  }

  // The status is that of the last record in ERROR.
  lemma {:induction false} LastErrorStatus(items: seq<Context>, i: nat)
    requires i < |items| && items[i].state == Error
    requires forall k :: i < k < |items| ==> items[k].state != Error
    ensures SlowFold(items).status == items[i].status && SlowFold(items).state == Error
  {
    var before := items[..|items| - 1];
    if i < |before| { LastErrorStatus(before, i); }
  }

  lemma {:induction false} FirstRecordKept(items: seq<Context>)
    requires items != []
    ensures var r, first := SlowFold(items), items[0];
      && r.sessionId == first.sessionId && r.clientId == first.clientId && r.startTime == first.startTime
      && r.totalRequests == first.totalRequests && r.outstandingRequests == first.outstandingRequests
      && (r.state == first.state || r.state == Error)
  {
    if |items| > 1 { FirstRecordKept(items[..|items| - 1]); }
  }

  function Plain(stats: seq<QueryStatus>, state: FlowState): Context {
    Context("C", "F", None, 0, 0, 0, 0, 0, 0, 0, stats, state, "", 0, 0, 0)
  }

  // With an error record the order can matter to the stats: an errored record
  // does not count as running, so completed stats no longer replace its own.
  lemma ErrorOrderMatters()
    ensures var e, d := Plain([Progress], Error), Plain([Fine], Finished);
      && !Completed(SlowFold([e, d]).queryStats)
      && Completed(SlowFold([d, e]).queryStats)
      && !OrderFree([e, d])
  {
    var e, d := Plain([Progress], Error), Plain([Fine], Finished);
    assert e in [e, d] && d in [e, d];
  }
}
