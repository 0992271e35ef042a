// Which hunts a client should get, as seen through the client documents.
module Hunts {
  import opened Wrappers
  import opened Sequences
  import opened Text

  type ClientId = string
  type HuntId = string

  datatype Os = AllOs | Windows | Linux | Osx

  datatype Condition = Condition(labels: seq<string>, excludedLabels: seq<string>, os: Os)

  // Start times are in microseconds.
  datatype Hunt = Hunt(
    id: HuntId, startTime: nat, condition: Option<Condition>, startRequest: Option<string>)

  // One of the many partial documents about a client. A ping of 0, an empty
  // system and empty lists mean the field is absent.
  datatype ClientDoc = ClientDoc(
    clientId: ClientId, ping: nat, labels: seq<string>, assignedHunts: seq<HuntId>, system: string)

  datatype ClientInfo = ClientInfo(
    clientId: ClientId, labels: seq<string>, lowerLabels: seq<string>,
    assignedHunts: seq<HuntId>, system: string)

  // ----------------------------------------------------- what the store says

  ghost predicate Assigned(docs: seq<ClientDoc>, client: ClientId, hunt: HuntId) {
    exists d :: d in docs && d.clientId == client && hunt in d.assignedHunts
  }

  ghost predicate Labelled(docs: seq<ClientDoc>, client: ClientId, name: string) {
    exists d, l :: d in docs && d.clientId == client && l in d.labels && Lower(l) == Lower(name)
  }

  ghost predicate LabelledAny(docs: seq<ClientDoc>, client: ClientId, labels: seq<string>) {
    exists name :: name in labels && Labelled(docs, client, name)
  }

  ghost predicate PingedAfter(docs: seq<ClientDoc>, client: ClientId, time: int) {
    exists d :: d in docs && d.clientId == client && d.ping > time
  }

  // The last non-empty system of the client.
  function SystemOf(docs: seq<ClientDoc>, client: ClientId): string {
    if docs == [] then ""
    else
      var d := docs[|docs| - 1];
      if d.clientId == client && d.system != "" then d.system else SystemOf(docs[..|docs| - 1], client)
  }

  function OsName(os: Os): string {
    match os
    case AllOs => ""
    case Windows => "windows"
    case Linux => "linux"
    case Osx => "darwin"
  }

  // The hunt is not assigned to the client and the client meets its condition.
  ghost predicate Wants(docs: seq<ClientDoc>, client: ClientId, hunt: Hunt) {
    && !Assigned(docs, client, hunt.id)
    && (hunt.condition.Some? ==> Meets(docs, client, hunt.condition.value))
  }

  ghost predicate Meets(docs: seq<ClientDoc>, client: ClientId, cond: Condition) {
    && (cond.labels != [] ==> LabelledAny(docs, client, cond.labels))
    && !LabelledAny(docs, client, cond.excludedLabels)
    && (cond.os != AllOs ==> SystemOf(docs, client) == OsName(cond.os))
  }

  // The systems that clients report, and which hunts run on them.
  lemma SystemExact(docs: seq<ClientDoc>, client: ClientId, os: Os)
    ensures Meets(docs, client, Condition([], [], os)) <==>
      || os == AllOs
      || (os == Windows && SystemOf(docs, client) == "windows")
      || (os == Linux && SystemOf(docs, client) == "linux")
      || (os == Osx && SystemOf(docs, client) == "darwin")
  {
  }

  // The system is that of the last document of the client that has one.
  lemma {:induction false} LastSystem(docs: seq<ClientDoc>, client: ClientId, i: nat)
    requires i < |docs| && docs[i].clientId == client && docs[i].system != ""
    requires forall k :: i < k < |docs| && docs[k].clientId == client ==> docs[k].system == ""
    ensures SystemOf(docs, client) == docs[i].system
  {
    if i < |docs| - 1 { LastSystem(docs[..|docs| - 1], client, i); }
  }

  lemma {:induction false} NoSystem(docs: seq<ClientDoc>, client: ClientId)
    requires forall d :: d in docs && d.clientId == client ==> d.system == ""
    ensures SystemOf(docs, client) == ""
  {
    if docs != [] { NoSystem(docs[..|docs| - 1], client); }
  }

  // ------------------------------------------------------ what the code asks

  // The merged record agrees with the documents.
  ghost predicate Faithful(info: ClientInfo, docs: seq<ClientDoc>, client: ClientId) {
    && info.clientId == client
    && info.system == SystemOf(docs, client)
    && (forall h :: h in info.assignedHunts <==> Assigned(docs, client, h))
    && (forall l :: Lower(l) in info.lowerLabels <==> Labelled(docs, client, l))
  }

  // Merge the partial documents of one client, dropping repeated labels and hunts.
  method GetMinimalClientInfo(docs: seq<ClientDoc>, client: ClientId) returns (info: ClientInfo)
    ensures Faithful(info, docs, client)
    ensures NoDuplicates(info.assignedHunts) && NoDuplicates(info.labels)
    ensures forall l :: l in info.labels <==> exists d :: d in docs && d.clientId == client && l in d.labels
  {
    var labels, lowerLabels, members, system := [], [], [], "";
    for i := 0 to |docs|
      invariant system == SystemOf(docs[..i], client)
      invariant NoDuplicates(members) && NoDuplicates(labels)
      invariant |lowerLabels| == |labels|
      invariant forall k :: 0 <= k < |labels| ==> lowerLabels[k] == Lower(labels[k])
      invariant forall l :: l in labels <==> exists d :: d in docs[..i] && d.clientId == client && l in d.labels
      invariant forall h :: h in members <==> Assigned(docs[..i], client, h)
    {
      var d := docs[i];
      assert docs[..i + 1][..i] == docs[..i];
      assert forall e :: e in docs[..i + 1] <==> e in docs[..i] || e == d;
      if d.clientId == client {
        labels, lowerLabels := AddLabels(labels, lowerLabels, d.labels);
        members := AddMissing(members, d.assignedHunts);
        if d.system != "" { system := d.system; }
      }
    }
    assert docs[..|docs|] == docs;
    info := ClientInfo(client, labels, lowerLabels, members, system);
    forall l ensures Lower(l) in lowerLabels <==> Labelled(docs, client, l) {
      LowerLabelsExact(docs, client, labels, lowerLabels, l);
    }
  }

  lemma LowerLabelsExact(docs: seq<ClientDoc>, client: ClientId, labels: seq<string>, lower: seq<string>, l: string)
    requires |lower| == |labels| && forall k :: 0 <= k < |labels| ==> lower[k] == Lower(labels[k])
    requires forall x :: x in labels <==> exists d :: d in docs && d.clientId == client && x in d.labels
    ensures Lower(l) in lower <==> Labelled(docs, client, l)
  {
    if Lower(l) in lower {
      var k :| 0 <= k < |lower| && lower[k] == Lower(l);
      assert labels[k] in labels;
    }
    if Labelled(docs, client, l) {
      var d, x :| d in docs && d.clientId == client && x in d.labels && Lower(x) == Lower(l);
      assert x in labels;
      var k :| 0 <= k < |labels| && labels[k] == x;
      assert lower[k] == Lower(l);
    }
  }

  method AddMissing(have: seq<string>, more: seq<string>) returns (r: seq<string>)
    requires NoDuplicates(have)
    ensures NoDuplicates(r)
    ensures forall x :: x in r <==> x in have || x in more
  {
    r := have;
    for i := 0 to |more|
      invariant NoDuplicates(r)
      invariant forall x :: x in r <==> x in have || x in more[..i]
    {
      assert more[..i + 1] == more[..i] + [more[i]];
      if more[i] !in r { r := r + [more[i]]; }
    }
    assert more[..|more|] == more;
  }

  method AddLabels(labels: seq<string>, lower: seq<string>, more: seq<string>)
    returns (labels': seq<string>, lower': seq<string>)
    requires NoDuplicates(labels) && |lower| == |labels|
    requires forall k :: 0 <= k < |labels| ==> lower[k] == Lower(labels[k])
    ensures NoDuplicates(labels') && |lower'| == |labels'|
    ensures forall k :: 0 <= k < |labels'| ==> lower'[k] == Lower(labels'[k])
    ensures forall x :: x in labels' <==> x in labels || x in more
  {
    labels', lower' := labels, lower;
    for i := 0 to |more|
      invariant NoDuplicates(labels') && |lower'| == |labels'|
      invariant forall k :: 0 <= k < |labels'| ==> lower'[k] == Lower(labels'[k])
      invariant forall x :: x in labels' <==> x in labels || x in more[..i]
    {
      assert more[..i + 1] == more[..i] + [more[i]];
      if more[i] !in labels' {
        labels', lower' := labels' + [more[i]], lower' + [Lower(more[i])];
      }
    }
    assert more[..|more|] == more;
  }

  ghost predicate AnyMatches(lowerLabels: seq<string>, labels: seq<string>) {
    exists i :: 0 <= i < |labels| && Lower(labels[i]) in lowerLabels
  }

  // True if any of the labels match.
  method ClientHasLabels(info: ClientInfo, labels: seq<string>) returns (has: bool)
    ensures has <==> AnyMatches(info.lowerLabels, labels)
  {
    for i := 0 to |labels|
      invariant forall k :: 0 <= k < i ==> Lower(labels[k]) !in info.lowerLabels
    {
      if Lower(labels[i]) in info.lowerLabels { return true; }
    }
    return false;
  }

  // For a faithful record that is a question about the documents.
  lemma AnyMatchesMeans(info: ClientInfo, docs: seq<ClientDoc>, labels: seq<string>)
    requires Faithful(info, docs, info.clientId)
    ensures AnyMatches(info.lowerLabels, labels) <==> LabelledAny(docs, info.clientId, labels)
  {
  }

  // The early returns of the planner, as one decision.
  method ShouldAssign(info: ClientInfo, hunt: Hunt, ghost docs: seq<ClientDoc>) returns (assign: bool)
    requires Faithful(info, docs, info.clientId)
    ensures assign <==> Wants(docs, info.clientId, hunt)
  {
    if hunt.id in info.assignedHunts { return false; }
    assert !Assigned(docs, info.clientId, hunt.id);
    if hunt.condition.None? { return true; }
    assign := MeetsCondition(info, hunt.condition.value, docs);
  }

  method MeetsCondition(info: ClientInfo, cond: Condition, ghost docs: seq<ClientDoc>) returns (meets: bool)
    requires Faithful(info, docs, info.clientId)
    ensures meets <==> Meets(docs, info.clientId, cond)
  {
    AnyMatchesMeans(info, docs, cond.labels);
    AnyMatchesMeans(info, docs, cond.excludedLabels);
    meets := CheckCondition(info, cond);
  }

  method CheckCondition(info: ClientInfo, cond: Condition) returns (meets: bool)
    ensures meets <==>
      && (cond.labels != [] ==> AnyMatches(info.lowerLabels, cond.labels))
      && !AnyMatches(info.lowerLabels, cond.excludedLabels)
      && (cond.os == Windows ==> info.system == "windows")
      && (cond.os == Linux ==> info.system == "linux")
      && (cond.os == Osx ==> info.system == "darwin")
  {
    if |cond.labels| > 0 {
      var has := ClientHasLabels(info, cond.labels);
      if !has { return false; }
    }
    if |cond.excludedLabels| > 0 {
      var has := ClientHasLabels(info, cond.excludedLabels);
      if has { return false; }
    }
    if cond.os != AllOs {
      if OsName(cond.os) != "" && info.system != OsName(cond.os) { return false; }
    }
    return true;
  }

  // The hunts among `ids` the client is already a member of.
  method GetClientHuntMembership(docs: seq<ClientDoc>, client: ClientId, ids: seq<HuntId>) returns (seen: set<HuntId>)
    ensures forall h :: h in ids ==> (h in seen <==> Assigned(docs, client, h))
  {
    seen := {};
    for i := 0 to |docs|
      invariant forall h :: h in ids ==> (h in seen <==> Assigned(docs[..i], client, h))
    {
      var d := docs[i];
      assert forall e :: e in docs[..i + 1] <==> e in docs[..i] || e == d;
      if d.clientId == client && exists h :: h in d.assignedHunts && h in ids {
        seen := seen + set h | h in d.assignedHunts;
      }
    }
    assert docs[..|docs|] == docs;
  }

  // ------------------------------------------------------- harmless documents

  // Documents that only record assignments of other hunts.
  ghost predicate Foreign(extra: seq<ClientDoc>, ids: set<HuntId>) {
    forall d :: d in extra ==>
      d.ping == 0 && d.labels == [] && d.system == "" && forall h :: h in d.assignedHunts ==> h !in ids
  }

  lemma {:induction false} SystemUnchanged(docs: seq<ClientDoc>, extra: seq<ClientDoc>, client: ClientId)
    requires forall d :: d in extra ==> d.system == ""
    ensures SystemOf(docs + extra, client) == SystemOf(docs, client)
  {
    if extra == [] {
      assert docs + extra == docs;
    } else {
      SystemUnchanged(docs, extra[..|extra| - 1], client);
      assert (docs + extra)[..|docs + extra| - 1] == docs + extra[..|extra| - 1];
    }
  }

  lemma LabelsUnchanged(docs: seq<ClientDoc>, extra: seq<ClientDoc>, client: ClientId, labels: seq<string>)
    requires forall d :: d in extra ==> d.labels == []
    ensures LabelledAny(docs + extra, client, labels) <==> LabelledAny(docs, client, labels)
  {
  }

  lemma PingsUnchanged(docs: seq<ClientDoc>, extra: seq<ClientDoc>, client: ClientId, time: nat)
    requires forall d :: d in extra ==> d.ping == 0
    ensures PingedAfter(docs + extra, client, time) <==> PingedAfter(docs, client, time)
  {
  }

  lemma AssignedAppend(docs: seq<ClientDoc>, extra: seq<ClientDoc>, client: ClientId, hunt: HuntId)
    ensures Assigned(docs + extra, client, hunt) <==> Assigned(docs, client, hunt) || Assigned(extra, client, hunt)
  {
  }

  // Assignments only ever take a hunt off the wanted list, each its own hunt.
  lemma WantsAppend(docs: seq<ClientDoc>, extra: seq<ClientDoc>, client: ClientId, hunt: Hunt)
    requires forall d :: d in extra ==> d.labels == [] && d.system == ""
    ensures Wants(docs + extra, client, hunt) <==> Wants(docs, client, hunt) && !Assigned(extra, client, hunt.id)
  {
    AssignedAppend(docs, extra, client, hunt.id);
    SystemUnchanged(docs, extra, client);
    if hunt.condition.Some? {
      LabelsUnchanged(docs, extra, client, hunt.condition.value.labels);
      LabelsUnchanged(docs, extra, client, hunt.condition.value.excludedLabels);
    }
  }
}
