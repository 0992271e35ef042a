// Client labels: two parallel lists, kept in step by the two update scripts.
module Labels {
  import opened Wrappers
  import opened Sequences
  import opened Text

  // A client's label document. The last two fields are what the foreman has
  // already done for the client; 0 makes it start over.
  datatype LabelDoc = LabelDoc(
    labels: seq<string>, lowerLabels: seq<string>, timestamp: nat,
    lastHuntTimestamp: nat, lastEventTableVersion: nat)

  // The lists are parallel, the second is the lower case of the first, and no
  // label occurs twice up to case.
  ghost predicate Good(d: LabelDoc) {
    && |d.labels| == |d.lowerLabels|
    && (forall i :: 0 <= i < |d.labels| ==> d.lowerLabels[i] == Lower(d.labels[i]))
    && NoDuplicates(d.lowerLabels)
  }

  // White space as Unicode defines it.
  predicate Space(ch: char) {
    || '\U{9}' <= ch <= '\U{D}' || ch in [' ', '\U{85}', '\U{A0}', '\U{1680}']
    || '\U{2000}' <= ch <= '\U{200A}' || ch in ['\U{2028}', '\U{2029}', '\U{202F}', '\U{205F}', '\U{3000}']
  }

  function TrimLeft(s: string): string {
    if s != "" && Space(s[0]) then TrimLeft(s[1..]) else s
  }

  function TrimRight(s: string): string {
    if s != "" && Space(s[|s| - 1]) then TrimRight(s[..|s| - 1]) else s
  }

  function TrimSpace(s: string): string {
    TrimRight(TrimLeft(s))
  }

  // The white space characters by their codes.
  lemma SpaceExact(ch: char)
    ensures Space(ch) <==>
      var code := ch as int;
      || 9 <= code <= 13 || 0x2000 <= code <= 0x200A
      || code in {0x20, 0x85, 0xA0, 0x1680, 0x2028, 0x2029, 0x202F, 0x205F, 0x3000}
  {
  }

  ghost predicate AllSpace(s: string) {
    forall i :: 0 <= i < |s| ==> Space(s[i])
  }

  lemma {:induction false} TrimLeftExact(s: string) returns (n: nat)
    ensures n <= |s| && TrimLeft(s) == s[n..] && AllSpace(s[..n]) && (n < |s| ==> !Space(s[n]))
  {
    n := 0;
    if s != "" && Space(s[0]) {
      var k := TrimLeftExact(s[1..]);
      n := k + 1;
      assert s[1..][k..] == s[n..] && s[..n] == [s[0]] + s[1..][..k];
    }
  }

  lemma {:induction false} TrimRightExact(s: string) returns (n: nat)
    ensures n <= |s| && TrimRight(s) == s[..n] && AllSpace(s[n..]) && (n > 0 ==> !Space(s[n - 1]))
  {
    n := |s|;
    if s != "" && Space(s[|s| - 1]) {
      n := TrimRightExact(s[..|s| - 1]);
      assert s[..|s| - 1][..n] == s[..n] && s[n..] == s[..|s| - 1][n..] + [s[|s| - 1]];
    }
  }

  // Trimming cuts off exactly the white space at both ends.
  lemma TrimExact(s: string) returns (lo: nat, hi: nat)
    ensures lo <= hi <= |s| && TrimSpace(s) == s[lo..hi] && AllSpace(s[..lo]) && AllSpace(s[hi..])
    ensures lo < hi ==> !Space(s[lo]) && !Space(s[hi - 1])
  {
    lo := TrimLeftExact(s);
    var n := TrimRightExact(s[lo..]);
    hi := lo + n;
    assert s[lo..][..n] == s[lo..hi] && s[lo..][n..] == s[hi..];
  }

  // The labels other than `name`, in order.
  function Without(labels: seq<string>, name: string): seq<string> {
    if labels == [] then []
    else
      Without(labels[..|labels| - 1], name) + OneWithout(labels[|labels| - 1], name)
  }

  predicate HasLabel(labels: seq<string>, name: string) {
    exists i :: 0 <= i < |labels| && Lower(labels[i]) == Lower(name)
  }

  // ---------------------------------------------------------------- scripts

  class LabelStore {
    // None until the first label is set.
    var doc: Option<LabelDoc>

    ghost predicate Valid() reads this {
      doc.Some? ==> Good(doc.value)
    }

    ghost function Labels(): seq<string> reads this {
      if doc.None? then [] else doc.value.labels
    }

    constructor ()
      ensures Valid() && doc == None
    {
      doc := None;
    }

    // Adds the label unless it is there already in some case. Only labels of
    // the permitted characters are accepted.
    method SetClientLabel(name: string, now: nat) returns (ok: bool)
      requires Valid()
      modifies this
      ensures Valid() && ok == ValidLabel(TrimSpace(name))
      ensures !ok || (old(doc).Some? && HasLabel(old(Labels()), TrimSpace(name))) ==> doc == old(doc)
      ensures ok ==> doc.Some?
      ensures ok && !HasLabel(old(Labels()), TrimSpace(name)) ==>
        Labels() == old(Labels()) + [TrimSpace(name)] && doc.value.timestamp == now
        && doc.value.lastHuntTimestamp == doc.value.lastEventTableVersion == 0
      ensures ok ==> HasLabel(Labels(), TrimSpace(name))
    {
      var trimmed := TrimSpace(name);
      if !ValidLabel(trimmed) { return false; }
      ok := true;
      if doc.None? {
        doc := Some(LabelDoc([trimmed], [Lower(trimmed)], now, 0, 0));
        assert Lower(doc.value.labels[0]) == Lower(trimmed);
        return;
      }
      var d := doc.value;
      if Lower(trimmed) !in d.lowerLabels {
        doc := Some(LabelDoc(d.labels + [trimmed], d.lowerLabels + [Lower(trimmed)], now, 0, 0));
        assert doc.value.labels[|d.labels|] == trimmed;
      } else {
        var i :| 0 <= i < |d.lowerLabels| && d.lowerLabels[i] == Lower(trimmed);
        assert Lower(d.labels[i]) == Lower(trimmed);
      }
    }

    // Walks both lists backwards, deleting in place.
    method RemoveClientLabel(name: string, now: nat) returns (ok: bool)
      requires Valid()
      modifies this
      ensures Valid() && ok == old(doc).Some?
      ensures Labels() == Without(old(Labels()), TrimSpace(name))
      ensures !HasLabel(Labels(), TrimSpace(name))
      ensures !HasLabel(old(Labels()), TrimSpace(name)) ==> doc == old(doc)
      ensures HasLabel(old(Labels()), TrimSpace(name)) ==> doc.Some? && doc.value.timestamp == now
    {
      var trimmed := TrimSpace(name);
      if doc.None? { return false; }
      ok := true;
      var current := RemoveScript(doc.value, trimmed, now);
      doc := Some(current);
    }
  }

  // The script: both lists backwards, deleting at the same index.
  method RemoveScript(d: LabelDoc, name: string, now: nat) returns (current: LabelDoc)
    requires Good(d)
    ensures Good(current) && current.labels == Without(d.labels, name) && !HasLabel(current.labels, name)
    ensures if HasLabel(d.labels, name) then current.timestamp == now else current == d
  {
    current := d;
    var lower := Lower(name);
    WalkStart(d, name, now);
    var n := |current.lowerLabels|;
    while n > 0
      invariant 0 <= n <= |d.labels| && Walked(d, name, n, current, now)
    {
      var i := n - 1;
      ghost var next := WalkStep(d, name, i, current, now);
      if current.lowerLabels[i] == lower {
        current := DeletedAt(current, i, now);
      }
      assert current == next;
      n := i;
    }
    WalkEnd(d, name, current, now);
  }

  lemma WalkStart(d: LabelDoc, name: string, now: nat)
    requires Good(d)
    ensures Walked(d, name, |d.labels|, d, now)
  {
    assert d.labels[|d.labels|..] == [] && d.labels[..|d.labels|] == d.labels;
  }

  lemma WalkEnd(d: LabelDoc, name: string, r: LabelDoc, now: nat)
    requires Walked(d, name, 0, r, now)
    ensures Good(r) && r.labels == Without(d.labels, name) && !HasLabel(r.labels, name)
    ensures if HasLabel(d.labels, name) then r.timestamp == now else r == d
  {
    assert d.labels[0..] == d.labels && d.labels[..0] == [];
    WithoutExact(d.labels, name);
    forall i | 0 <= i < |r.labels| ensures Lower(r.labels[i]) != Lower(name) {
      assert r.labels[i] in Without(d.labels, name);
    }
  }

  // The backward walk has dealt with everything from n on.
  ghost predicate Walked(d: LabelDoc, name: string, n: nat, r: LabelDoc, now: nat) {
    && n <= |d.labels| && Good(r)
    && r.labels == d.labels[..n] + Without(d.labels[n..], name)
    && (if HasLabel(d.labels[n..], name) then r.timestamp == now else r == d)
  }

  function DeletedAt(d: LabelDoc, i: nat, now: nat): LabelDoc
    requires i < |d.labels| == |d.lowerLabels|
  {
    d.(labels := d.labels[..i] + d.labels[i + 1..], lowerLabels := d.lowerLabels[..i] + d.lowerLabels[i + 1..],
       timestamp := now)
  }

  lemma WithoutFrom(labels: seq<string>, i: nat, name: string)
    requires i < |labels|
    ensures Without(labels[i..], name) == OneWithout(labels[i], name) + Without(labels[i + 1..], name)
    ensures HasLabel(labels[i..], name) <==> Lower(labels[i]) == Lower(name) || HasLabel(labels[i + 1..], name)
  {
    var from := labels[i..];
    WithoutFirst(from, name);
    assert from[1..] == labels[i + 1..];
    if Lower(labels[i]) == Lower(name) { assert Lower(from[0]) == Lower(name); }
    if HasLabel(labels[i + 1..], name) {
      var k :| 0 <= k < |labels[i + 1..]| && Lower(labels[i + 1..][k]) == Lower(name);
      assert from[k + 1] == labels[i + 1..][k];
    }
    if HasLabel(from, name) {
      var k :| 0 <= k < |from| && Lower(from[k]) == Lower(name);
      if k > 0 { assert labels[i + 1..][k - 1] == from[k]; }
    }
  }

  lemma CutAt(labels: seq<string>, i: nat, rest: seq<string>, all: seq<string>)
    requires i < |labels| && all == labels[..i + 1] + rest
    ensures i < |all| && all[i] == labels[i]
    ensures all[..i] + all[i + 1..] == labels[..i] + rest
    ensures all == labels[..i] + ([labels[i]] + rest)
  {
  }

  lemma WalkStep(d: LabelDoc, name: string, i: nat, r: LabelDoc, now: nat) returns (next: LabelDoc)
    requires Walked(d, name, i + 1, r, now)
    ensures i < |r.labels| == |r.lowerLabels|
    ensures next == if r.lowerLabels[i] == Lower(name) then DeletedAt(r, i, now) else r
    ensures Walked(d, name, i, next, now)
  {
    next := if r.lowerLabels[i] == Lower(name) then DeletedAt(r, i, now) else r;
    WithoutFrom(d.labels, i, name);
    CutAt(d.labels, i, Without(d.labels[i + 1..], name), r.labels);
    if r.lowerLabels[i] == Lower(name) {
      DeletedGood(r, i, now);
      assert [] + Without(d.labels[i + 1..], name) == Without(d.labels[i + 1..], name);
    }
  }

  lemma DeletedGood(d: LabelDoc, i: nat, now: nat)
    requires Good(d) && i < |d.labels|
    ensures Good(DeletedAt(d, i, now))
  {
  }

  function OneWithout(l: string, name: string): seq<string> {
    if Lower(l) == Lower(name) then [] else [l]
  }

  lemma WithoutSnoc(labels: seq<string>, l: string, name: string)
    ensures Without(labels + [l], name) == Without(labels, name) + OneWithout(l, name)
  {
    assert (labels + [l])[..|labels|] == labels;
  }

  lemma {:induction false} WithoutFirst(labels: seq<string>, name: string)
    requires labels != []
    ensures Without(labels, name) == OneWithout(labels[0], name) + Without(labels[1..], name)
  {
    if |labels| == 1 {
      assert labels == [] + [labels[0]] && labels[1..] == [];
      WithoutSnoc([], labels[0], name);
      assert OneWithout(labels[0], name) + [] == OneWithout(labels[0], name);
    } else {
      var before, last := labels[..|labels| - 1], labels[|labels| - 1];
      assert labels == before + [last] && labels[1..] == before[1..] + [last];
      WithoutFirst(before, name);
      WithoutSnoc(before, last, name);
      WithoutSnoc(before[1..], last, name);
      Associative(OneWithout(labels[0], name), Without(before[1..], name), OneWithout(last, name));
    }
  }

  // Removal keeps exactly the other labels, in their order.
  lemma {:induction false} WithoutExact(labels: seq<string>, name: string)
    ensures forall l :: l in Without(labels, name) <==> l in labels && Lower(l) != Lower(name)
    ensures !HasLabel(labels, name) ==> Without(labels, name) == labels
  {
    if labels != [] {
      var before, last := labels[..|labels| - 1], labels[|labels| - 1];
      WithoutExact(before, name);
      assert labels == before + [last];
      if !HasLabel(labels, name) {
        forall i | 0 <= i < |before| ensures Lower(before[i]) != Lower(name) {
          assert before[i] == labels[i];
        }
        assert Lower(labels[|labels| - 1]) != Lower(name);
      }
    }
  }

  // They are the labels that differ from the name in more than case.
  lemma {:induction false} WithoutPicks(labels: seq<string>, name: string, select: string -> Option<string>)
    returns (at: seq<nat>)
    requires forall l :: select(l) == (if SameUpToCase(l, name) then None else Some(l))
    ensures PicksAt(select, labels, Without(labels, name), at)
  {
    if labels == [] {
      at := [];
    } else {
      var before, last := labels[..|labels| - 1], labels[|labels| - 1];
      assert labels == before + [last];
      at := WithoutPicks(before, name, select);
      LowerExact(last, name);
      PicksSnoc(select, before, last, Without(before, name), at);
      if select(last).Some? { at := at + [|before|]; }
    }
  }

  // ---------------------------------------------------------------- sequences

  datatype Command = SetLabel(name: string) | RemoveLabel(name: string)

  // What a sequence of commands leaves, in terms of label lists alone.
  function Outcome(commands: seq<Command>): seq<string> {
    if commands == [] then []
    else
      var before := Outcome(commands[..|commands| - 1]);
      match commands[|commands| - 1]
      case SetLabel(name) =>
        var trimmed := TrimSpace(name);
        if !ValidLabel(trimmed) || HasLabel(before, trimmed) then before else before + [trimmed]
      case RemoveLabel(name) => Without(before, TrimSpace(name))
  }

  // Every sequence of commands keeps the two lists in step, without repeats,
  // and leaves the labels in the order they were first set.
  method RunCommands(commands: seq<Command>) returns (doc: Option<LabelDoc>)
    ensures doc.Some? ==> Good(doc.value) && doc.value.labels == Outcome(commands)
    ensures doc.None? ==> Outcome(commands) == []
  {
    var store := new LabelStore();
    for i := 0 to |commands|
      invariant store.Valid() && store.Labels() == Outcome(commands[..i])
    {
      assert commands[..i + 1][..i] == commands[..i];
      match commands[i] {
        case SetLabel(name) =>
          var _ := store.SetClientLabel(name, i);
        case RemoveLabel(name) =>
          var _ := store.RemoveClientLabel(name, i);
      }
    }
    assert commands[..|commands|] == commands;
    doc := store.doc;
  }

  // Setting a label twice is the same as setting it once.
  lemma SetIdempotent(commands: seq<Command>, name: string)
    ensures Outcome(commands + [SetLabel(name)] + [SetLabel(name)]) == Outcome(commands + [SetLabel(name)])
  {
    var once := commands + [SetLabel(name)];
    assert once[..|once| - 1] == commands;
    assert (once + [SetLabel(name)])[..|once|] == once;
    var trimmed, before := TrimSpace(name), Outcome(commands);
    if ValidLabel(trimmed) && !HasLabel(before, trimmed) {
      assert (before + [trimmed])[|before|] == trimmed;
    }
  }

  // Setting a new label and removing it again leaves the labels as they were.
  lemma RemoveUndoesSet(commands: seq<Command>, name: string)
    requires ValidLabel(TrimSpace(name)) && !HasLabel(Outcome(commands), TrimSpace(name))
    ensures Outcome(commands + [SetLabel(name)] + [RemoveLabel(name)]) == Outcome(commands)
  {
    var once := commands + [SetLabel(name)];
    assert once[..|once| - 1] == commands;
    assert (once + [RemoveLabel(name)])[..|once|] == once;
    var trimmed, before := TrimSpace(name), Outcome(commands);
    assert (before + [trimmed])[..|before|] == before;
    WithoutExact(before, trimmed);
  }
}
