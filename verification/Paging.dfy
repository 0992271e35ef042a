// Paging through a query with a search_after cursor while the store changes.
module Paging {
  import opened Wrappers

  // A matching document and its value of the sort field, which other documents
  // may share.
  datatype Doc = Doc(key: int, body: string)

  // The matching documents by id.
  type Store = map<string, Doc>

  datatype Hit = Hit(id: string, doc: Doc)

  predicate Beyond(key: int, after: Option<int>) {
    after.None? || key > after.value
  }

  function Remaining(store: Store, after: Option<int>): set<string> {
    set id | id in store && Beyond(store[id].key, after)
  }

  ghost predicate Ordered(hits: seq<Hit>) {
    forall i, j :: 0 <= i < j < |hits| ==> hits[i].doc.key <= hits[j].doc.key && hits[i].id != hits[j].id
  }

  ghost predicate Contains(hits: seq<Hit>, id: string) {
    exists i :: 0 <= i < |hits| && hits[i].id == id
  }

  // The hits match in the store beyond the cursor.
  ghost predicate Match(store: Store, after: Option<int>, hits: seq<Hit>) {
    forall i :: 0 <= i < |hits| ==>
      hits[i].id in store && store[hits[i].id] == hits[i].doc && Beyond(hits[i].doc.key, after)
  }

  // What the search engine promises: `size` matches beyond the cursor with the
  // smallest keys, each once, equal keys in any order.
  ghost predicate IsPage(store: Store, after: Option<int>, size: nat, page: seq<Hit>) {
    && |page| <= size && Ordered(page) && Match(store, after, page)
    && (forall id :: id in Remaining(store, after) && !Contains(page, id) ==>
          |page| == size && forall i :: 0 <= i < |page| ==> page[i].doc.key <= store[id].key)
  }

  lemma NonEmpty(ids: set<string>)
    ensures ids == {} || exists id :: id in ids
  {
    if forall id :: id !in ids { assert ids == {}; }
  }

  method Smallest(store: Store, ids: set<string>) returns (least: string)
    requires ids != {} && ids <= store.Keys
    ensures least in ids && forall id :: id in ids ==> store[least].key <= store[id].key
  {
    NonEmpty(ids);
    least :| least in ids;
    var rest := ids - {least};
    while rest != {}
      invariant rest <= ids && least in ids
      invariant forall id :: id in ids && id !in rest ==> store[least].key <= store[id].key
      decreases rest
    {
      NonEmpty(rest);
      var id :| id in rest;
      if store[id].key < store[least].key { least := id; }
      rest := rest - {id};
    }
  }

  lemma ContainsSnoc(page: seq<Hit>, h: Hit, id: string)
    ensures Contains(page + [h], id) <==> Contains(page, id) || id == h.id
  {
    var all := page + [h];
    assert all[|page|] == h;
    if Contains(page, id) {
      var i :| 0 <= i < |page| && page[i].id == id;
      assert all[i].id == id;
    }
  }

  // A search engine.
  method Search(store: Store, after: Option<int>, size: nat) returns (page: seq<Hit>)
    ensures IsPage(store, after, size, page)
  {
    page := [];
    var left := Remaining(store, after);
    while left != {} && |page| < size
      invariant |page| <= size && Ordered(page) && Match(store, after, page) && left <= Remaining(store, after)
      invariant forall id, i :: id in left && 0 <= i < |page| ==> page[i].doc.key <= store[id].key && page[i].id != id
      invariant forall id :: id in Remaining(store, after) ==> id in left || Contains(page, id)
      decreases left
    {
      var id := Smallest(store, left);
      forall x | x in Remaining(store, after) ensures x in left - {id} || Contains(page + [Hit(id, store[id])], x) {
        ContainsSnoc(page, Hit(id, store[id]), x);
      }
      page := page + [Hit(id, store[id])];
      left := left - {id};
    }
  }

  // ----------------------------------------------------------------- the scan

  function LastKey(page: seq<Hit>): int
    requires page != []
  {
    page[|page| - 1].doc.key
  }

  // The cursor with which page n is requested.
  function Cursor(parts: seq<seq<Hit>>, n: nat): Option<int>
    requires n <= |parts|
  {
    if n == 0 || parts[n - 1] == [] then None else Some(LastKey(parts[n - 1]))
  }

  // Page n shows views(n) behind the last key of the page before, and all pages
  // but the newest are full.
  ghost predicate Pages(parts: seq<seq<Hit>>, views: nat -> Store, size: nat) {
    forall n :: 0 <= n < |parts| ==> PageAt(parts, views, size, n)
  }

  ghost predicate PageAt(parts: seq<seq<Hit>>, views: nat -> Store, size: nat, n: nat)
    requires n < |parts|
  {
    IsPage(views(n), Cursor(parts, n), size, parts[n]) && (n < |parts| - 1 ==> |parts[n]| == size > 0)
  }

  // The last page of a finished scan is not full.
  ghost predicate IsScan(parts: seq<seq<Hit>>, views: nat -> Store, size: nat) {
    && Pages(parts, views, size)
    && |parts| > 0 && (size > 0 ==> |parts[|parts| - 1]| < size)
  }

  function Flat(parts: seq<seq<Hit>>): seq<Hit> {
    if parts == [] then [] else Flat(parts[..|parts| - 1]) + parts[|parts| - 1]
  }

  lemma FlatSnoc(parts: seq<seq<Hit>>, part: seq<Hit>)
    ensures Flat(parts + [part]) == Flat(parts) + part
  {
    assert (parts + [part])[..|parts|] == parts;
  }

  lemma PagesSnoc(parts: seq<seq<Hit>>, views: nat -> Store, size: nat, page: seq<Hit>)
    requires Pages(parts, views, size) && parts != [] && |parts[|parts| - 1]| == size > 0
    requires IsPage(views(|parts|), Cursor(parts, |parts|), size, page)
    ensures Pages(parts + [page], views, size)
  {
    var all := parts + [page];
    forall n | 0 <= n < |all| ensures PageAt(all, views, size, n) {
      assert Cursor(all, n) == Cursor(parts, n);
      if n < |parts| { assert PageAt(parts, views, size, n); }
    }
  }

  // A page that is not empty moves the cursor on.
  lemma CursorAdvances(store: Store, after: Option<int>, size: nat, page: seq<Hit>)
    requires IsPage(store, after, size, page) && page != []
    ensures Remaining(store, Some(LastKey(page))) < Remaining(store, after)
  {
    assert page[|page| - 1].id in Remaining(store, after);
  }

  lemma FirstPage(views: nat -> Store, size: nat, page: seq<Hit>)
    requires IsPage(views(0), None, size, page)
    ensures Pages([page], views, size) && Flat([page]) == [] + page
  {
    FlatSnoc([], page);
    assert [] + [page] == [page];
  }

  // Page n is taken from views(n). Emits the hits of all pages, and ends if the
  // store stops changing at some point.
  method QueryChan(views: nat -> Store, pageSize: nat, ghost stable: nat)
    returns (out: seq<Hit>, parts: seq<seq<Hit>>)
    requires forall n: nat :: n >= stable ==> views(n) == views(stable)
    ensures IsScan(parts, views, pageSize) && out == Flat(parts)
  {
    out := [];
    var part := Search(views(0), None, pageSize);
    var pages := 1;
    parts := [part];
    FirstPage(views, pageSize, part);
    ghost var cursor: Option<int> := None;
    while true
      invariant pages == |parts| > 0 && part == parts[pages - 1] && Pages(parts, views, pageSize)
      invariant Flat(parts) == out + part && cursor == Cursor(parts, pages - 1)
      decreases if pages <= stable then stable + 1 - pages else 0, Remaining(views(stable), cursor)
    {
      if |part| == 0 { break; }
      assert PageAt(parts, views, pageSize, pages - 1);
      out := out + part;
      if |part| < pageSize { return; }
      var searchAfter := Some(LastKey(part));
      if pages - 1 >= stable { CursorAdvances(views(stable), cursor, pageSize, part); }
      cursor := searchAfter;
      part := Search(views(pages), searchAfter, pageSize);
      PagesSnoc(parts, views, pageSize, part);
      FlatSnoc(parts, part);
      parts := parts + [part];
      pages := pages + 1;
    }
    assert out + [] == out;
  }

  // ------------------------------------------------------- what a scan delivers

  // Keys grow strictly from page to page.
  lemma {:induction false} KeysAdvance(parts: seq<seq<Hit>>, views: nat -> Store, size: nat, m: nat, n: nat, i: nat, j: nat)
    requires Pages(parts, views, size) && m < n < |parts| && i < |parts[m]| && j < |parts[n]|
    ensures parts[m][i].doc.key < parts[n][j].doc.key
    decreases n
  {
    assert PageAt(parts, views, size, n) && PageAt(parts, views, size, n - 1);
    assert parts[n][j].doc.key > LastKey(parts[n - 1]);
    if m < n - 1 {
      KeysAdvance(parts, views, size, m, n - 1, i, size - 1);
    } else {
      assert i < size - 1 ==> parts[m][i].doc.key <= parts[m][size - 1].doc.key;
    }
  }

  // The document matches with the same key in every view of the scan.
  ghost predicate Steady(id: string, key: int, views: nat -> Store, n: nat) {
    forall i :: 0 <= i < n ==> id in views(i) && views(i)[id].key == key
  }

  ghost predicate Delivered(parts: seq<seq<Hit>>, id: string) {
    exists n :: 0 <= n < |parts| && Contains(parts[n], id)
  }

  // Some full page ends among the documents with this key and leaves this one out.
  ghost predicate CutOff(parts: seq<seq<Hit>>, size: nat, id: string, key: int) {
    exists n :: 0 <= n < |parts| && |parts[n]| == size > 0 && LastKey(parts[n]) == key && !Contains(parts[n], id)
  }

  lemma CutOffMissed(parts: seq<seq<Hit>>, views: nat -> Store, size: nat, id: string, key: int)
    requires IsScan(parts, views, size) && Steady(id, key, views, |parts|) && CutOff(parts, size, id, key)
    ensures !Delivered(parts, id)
  {
    var n :| 0 <= n < |parts| && |parts[n]| == size > 0 && LastKey(parts[n]) == key && !Contains(parts[n], id);
    forall m | 0 <= m < |parts| ensures !Contains(parts[m], id) {
      if i :| 0 <= i < |parts[m]| && parts[m][i].id == id {
        assert PageAt(parts, views, size, m);
        assert parts[m][i].doc.key == key;
        if m < n { KeysAdvance(parts, views, size, m, n, i, size - 1); }
        if n < m { KeysAdvance(parts, views, size, n, m, size - 1, i); }
      }
    }
  }

  // Until it is delivered, a document that is never cut off stays ahead of the cursor.
  lemma {:induction false} StaysAhead(parts: seq<seq<Hit>>, views: nat -> Store, size: nat, id: string, key: int, n: nat)
    requires Pages(parts, views, size) && Steady(id, key, views, |parts|) && !CutOff(parts, size, id, key)
    requires n < |parts|
    ensures Delivered(parts, id) || id in Remaining(views(n), Cursor(parts, n))
  {
    if n > 0 {
      StaysAhead(parts, views, size, id, key, n - 1);
      assert PageAt(parts, views, size, n - 1);
      if !Contains(parts[n - 1], id) && !Delivered(parts, id) {
        assert parts[n - 1][size - 1].doc.key <= key;
      }
    }
  }

  // A document that matches throughout with an unchanged key is delivered, exactly
  // if no page cuts it off from the others with its key, whatever else is added or
  // stops matching meanwhile.
  lemma DeliveredExactly(parts: seq<seq<Hit>>, views: nat -> Store, size: nat, id: string, key: int)
    requires size > 0 && IsScan(parts, views, size) && Steady(id, key, views, |parts|)
    ensures Delivered(parts, id) <==> !CutOff(parts, size, id, key)
  {
    var last := |parts| - 1;
    if CutOff(parts, size, id, key) {
      CutOffMissed(parts, views, size, id, key);
    } else {
      assert PageAt(parts, views, size, last);
      StaysAhead(parts, views, size, id, key, last);
    }
  }

  // And never more than once.
  lemma DeliveredOnce(parts: seq<seq<Hit>>, views: nat -> Store, size: nat, id: string, key: int,
                      m: nat, i: nat, n: nat, j: nat)
    requires IsScan(parts, views, size) && Steady(id, key, views, |parts|)
    requires m < |parts| && i < |parts[m]| && parts[m][i].id == id
    requires n < |parts| && j < |parts[n]| && parts[n][j].id == id
    ensures m == n && i == j
  {
    assert PageAt(parts, views, size, m) && PageAt(parts, views, size, n);
    if m < n { KeysAdvance(parts, views, size, m, n, i, j); }
    if n < m { KeysAdvance(parts, views, size, n, m, j, i); }
  }

  // With a unique key it is always delivered.
  lemma UniqueKeyDelivered(parts: seq<seq<Hit>>, views: nat -> Store, size: nat, id: string, key: int)
    requires size > 0 && IsScan(parts, views, size) && Steady(id, key, views, |parts|)
    requires forall n, other :: 0 <= n < |parts| && other in views(n) && views(n)[other].key == key ==> other == id
    ensures Delivered(parts, id)
  {
    DeliveredExactly(parts, views, size, id, key);
    if n :| 0 <= n < |parts| && |parts[n]| == size > 0 && LastKey(parts[n]) == key {
      assert PageAt(parts, views, size, n);
      assert parts[n][size - 1].id in views(n);
      assert Contains(parts[n], id);
    }
  }

  // ------------------------------------------------- when a scan misses nothing

  function UpTo(store: Store, after: Option<int>, key: int): set<string> {
    set id | id in Remaining(store, after) && store[id].key <= key
  }

  function Below(store: Store, after: Option<int>, key: int): set<string> {
    set id | id in Remaining(store, after) && store[id].key < key
  }

  // A full page behind the cursor ends at this key.
  predicate Boundary(store: Store, after: Option<int>, size: nat, key: int) {
    |Below(store, after, key)| < size <= |UpTo(store, after, key)|
  }

  // No page boundary falls inside a run of equal keys.
  ghost predicate Clean(store: Store, after: Option<int>, size: nat)
    decreases Remaining(store, after)
  {
    forall key :: Boundary(store, after, size, key) ==>
      |UpTo(store, after, key)| == size && (BoundaryAdvances(store, after, size, key); Clean(store, Some(key), size))
  }

  lemma BoundaryAdvances(store: Store, after: Option<int>, size: nat, key: int)
    requires Boundary(store, after, size, key)
    ensures Beyond(key, after) && Remaining(store, Some(key)) < Remaining(store, after)
    ensures Remaining(store, after) == UpTo(store, after, key) + Remaining(store, Some(key))
  {
    NonEmpty(UpTo(store, after, key));
    var id :| id in UpTo(store, after, key);
    assert id in Remaining(store, after) && id !in Remaining(store, Some(key));
  }

  lemma Larger(a: set<string>, b: set<string>)
    requires a <= b
    ensures |a| <= |b| && (|a| == |b| ==> a == b)
  {
    assert b == a + (b - a);
    if |a| == |b| { assert |b - a| == 0; }
  }

  lemma OneBoundary(store: Store, after: Option<int>, size: nat, a: int, b: int)
    requires Boundary(store, after, size, a) && Boundary(store, after, size, b)
    ensures a == b
  {
    if a < b { Larger(UpTo(store, after, a), Below(store, after, b)); }
    if b < a { Larger(UpTo(store, after, b), Below(store, after, a)); }
  }

  function IdsOf(page: seq<Hit>): set<string> {
    set i | 0 <= i < |page| :: page[i].id
  }

  lemma {:induction false} IdsCounted(page: seq<Hit>)
    requires Ordered(page)
    ensures |IdsOf(page)| == |page|
  {
    if page != [] {
      var before, last := page[..|page| - 1], page[|page| - 1];
      IdsCounted(before);
      assert IdsOf(page) == IdsOf(before) + {last.id};
      assert last.id !in IdsOf(before);
    }
  }

  // A full page ends at the boundary, and holds all up to it exactly when that
  // is clean.
  lemma FullPage(store: Store, after: Option<int>, size: nat, page: seq<Hit>)
    requires IsPage(store, after, size, page) && |page| == size > 0
    ensures Boundary(store, after, size, LastKey(page)) && IdsOf(page) <= UpTo(store, after, LastKey(page))
    ensures |UpTo(store, after, LastKey(page))| == size <==> IdsOf(page) == UpTo(store, after, LastKey(page))
  {
    var key, last := LastKey(page), page[size - 1].id;
    IdsCounted(page);
    Larger(IdsOf(page), UpTo(store, after, key));
    forall id | id in Below(store, after, key) ensures id in IdsOf(page) - {last} {
      assert Contains(page, id);
      assert store[last].key == key;
    }
    Larger(Below(store, after, key), IdsOf(page) - {last});
  }

  lemma ShortPage(store: Store, after: Option<int>, size: nat, page: seq<Hit>)
    requires IsPage(store, after, size, page) && |page| < size
    ensures Clean(store, after, size) && Remaining(store, after) <= IdsOf(page)
  {
    IdsCounted(page);
    forall id | id in Remaining(store, after) ensures id in IdsOf(page) {
      assert Contains(page, id);
    }
    forall key ensures !Boundary(store, after, size, key) {
      Larger(UpTo(store, after, key), IdsOf(page));
    }
  }

  // Delivered by page n or later.
  ghost predicate DeliveredFrom(parts: seq<seq<Hit>>, n: nat, id: string) {
    exists m :: n <= m < |parts| && id in IdsOf(parts[m])
  }

  ghost predicate CompleteFrom(parts: seq<seq<Hit>>, n: nat, store: Store)
    requires n <= |parts|
  {
    forall id :: id in Remaining(store, Cursor(parts, n)) ==> DeliveredFrom(parts, n, id)
  }

  // What the page leaves out up to its last key no later page delivers.
  lemma OnlyHere(parts: seq<seq<Hit>>, views: nat -> Store, store: Store, size: nat, n: nat, id: string)
    requires Pages(parts, views, size) && (forall i :: views(i) == store) && n < |parts| && parts[n] != []
    requires id in store && store[id].key <= LastKey(parts[n])
    ensures DeliveredFrom(parts, n, id) <==> id in IdsOf(parts[n])
  {
    forall m | n < m < |parts| ensures id !in IdsOf(parts[m]) {
      assert PageAt(parts, views, size, m);
      if i :| 0 <= i < |parts[m]| && parts[m][i].id == id {
        KeysAdvance(parts, views, size, n, m, |parts[n]| - 1, i);
      }
    }
  }

  lemma CompleteStep(parts: seq<seq<Hit>>, views: nat -> Store, store: Store, size: nat, n: nat)
    requires Pages(parts, views, size) && (forall i :: views(i) == store) && n + 1 < |parts| && parts[n] != []
    ensures Boundary(store, Cursor(parts, n), size, LastKey(parts[n]))
    ensures CompleteFrom(parts, n, store) <==>
      |UpTo(store, Cursor(parts, n), LastKey(parts[n]))| == size && CompleteFrom(parts, n + 1, store)
  {
    assert PageAt(parts, views, size, n);
    var after, key := Cursor(parts, n), LastKey(parts[n]);
    FullPage(store, after, size, parts[n]);
    BoundaryAdvances(store, after, size, key);
    forall id | id in UpTo(store, after, key) ensures DeliveredFrom(parts, n, id) <==> id in IdsOf(parts[n]) {
      OnlyHere(parts, views, store, size, n, id);
    }
    forall id | id in Remaining(store, Some(key)) ensures DeliveredFrom(parts, n, id) <==> DeliveredFrom(parts, n + 1, id) {
      assert id !in UpTo(store, after, key);
    }
  }

  lemma {:induction false} CompleteFromExactly(parts: seq<seq<Hit>>, views: nat -> Store, store: Store, size: nat, n: nat)
    requires size > 0 && IsScan(parts, views, size) && (forall i :: views(i) == store) && n < |parts|
    ensures CompleteFrom(parts, n, store) <==> Clean(store, Cursor(parts, n), size)
    decreases |parts| - n
  {
    assert PageAt(parts, views, size, n);
    var after := Cursor(parts, n);
    if n == |parts| - 1 {
      ShortPage(store, after, size, parts[n]);
    } else {
      var key := LastKey(parts[n]);
      CompleteStep(parts, views, store, size, n);
      CompleteFromExactly(parts, views, store, size, n + 1);
      forall other | Boundary(store, after, size, other) ensures other == key {
        OneBoundary(store, after, size, other, key);
      }
    }
  }

  // A scan of a store that does not change delivers everything if and only if no
  // page boundary falls inside a run of equal keys.
  lemma ScanCompleteExactly(parts: seq<seq<Hit>>, views: nat -> Store, store: Store, size: nat)
    requires size > 0 && IsScan(parts, views, size) && forall i :: views(i) == store
    ensures (forall id :: id in store ==> DeliveredFrom(parts, 0, id)) <==> Clean(store, None, size)
  {
    CompleteFromExactly(parts, views, store, size, 0);
    assert Remaining(store, None) == store.Keys;
  }

  // When all keys are equal, as in the queries for one client's documents sorted by
  // client id, everything is delivered if and only if it fits on one page.
  lemma OneKeyOnePage(store: Store, size: nat, key: int)
    requires size > 0 && forall id :: id in store ==> store[id].key == key
    ensures Clean(store, None, size) <==> |store| <= size
  {
    assert |store| == |store.Keys|;
    assert Remaining(store, None) == store.Keys == UpTo(store, None, key);
    assert Below(store, None, key) == {};
    forall other ensures Boundary(store, None, size, other) ==> other == key {
      assert other < key ==> UpTo(store, None, other) == {};
      assert other > key ==> Below(store, None, other) == store.Keys == UpTo(store, None, other);
    }
    forall other ensures !Boundary(store, Some(key), size, other) {
      assert UpTo(store, Some(key), other) == {};
    }
    if |store| > size { assert Boundary(store, None, size, key); }
  }

  // More documents than a page holds, all with one key: some are never delivered.
  lemma OneKeyLoses(parts: seq<seq<Hit>>, views: nat -> Store, store: Store, size: nat, key: int)
    requires size > 0 && IsScan(parts, views, size) && forall i :: views(i) == store
    requires (forall id :: id in store ==> store[id].key == key) && |store| > size
    ensures exists id :: id in store && !DeliveredFrom(parts, 0, id)
  {
    ScanCompleteExactly(parts, views, store, size);
    OneKeyOnePage(store, size, key);
  }
}
