// The document store behind result sets, and the packet walk of the reader.
//
// The index is append only: a packet document carries some JSONL and the row
// interval it spans, a metadata document names the current version of a result
// set. Because nothing is ever changed or deleted, whatever a reader can see at
// some moment is a prefix of the documents that exist at any later moment.
module ResultSets {
  import opened Jsonl
  import opened Wrappers

  type Path = seq<string>

  // The id used by result sets that have no metadata document.
  const LEGACY_ID: nat := 0

  datatype Metadata = Metadata(timestamp: nat, id: nat, endRow: int, totalRows: int)

  datatype Doc =
    | Packet(path: Path, id: nat, startRow: int, endRow: int, data: string)
    | Meta(path: Path, md: Metadata)

  // What a reader keeps from the moment it was opened.
  datatype Pinned = Pinned(path: Path, id: nat, endRow: int, mtime: nat)

  // The documents of a whole run; `seen(n)` is how many of them the n-th
  // packet query can see and `pick` is the unspecified order of its hits.
  datatype View = View(docs: seq<Doc>, seen: nat -> nat, pick: seq<Doc> -> nat)

  // Every query sees all documents.
  function FullView(docs: seq<Doc>, pick: seq<Doc> -> nat): (v: View)
    ensures v.docs == docs && v.pick == pick && forall i: nat :: v.seen(i) == |docs|
  {
    View(docs, _ => |docs|, pick)
  }

  predicate OfVersion(d: Doc, path: Path, id: nat) {
    d.Packet? && d.path == path && d.id == id
  }

  predicate Covers(d: Doc, path: Path, id: nat, row: int) {
    OfVersion(d, path, id) && d.startRow <= row < d.endRow
  }

  // ------------------------------------------------------------------ queries

  // The metadata record with the newest timestamp; a record with the legacy id
  // when there is none.
  function GetMetadata(docs: seq<Doc>, path: Path): (md: Metadata)
  {
    if docs == [] then Metadata(0, LEGACY_ID, 0, 0)
    else
      var rest := GetMetadata(docs[..|docs| - 1], path);
      var d := docs[|docs| - 1];
      if d.Meta? && d.path == path && d.md.timestamp > rest.timestamp then d.md else rest
  }

  // The largest end row of a version's packets, 0 without packets.
  function LastEnd(docs: seq<Doc>, path: Path, id: nat): (end: nat)
  {
    if docs == [] then 0
    else
      var rest := LastEnd(docs[..|docs| - 1], path, id);
      var d := docs[|docs| - 1];
      if OfVersion(d, path, id) && d.endRow > rest then d.endRow else rest
  }

  function Hits(docs: seq<Doc>, path: Path, id: nat, row: int): (hits: seq<Doc>)
    ensures forall i :: 0 <= i < |hits| ==> hits[i] in docs && Covers(hits[i], path, id, row)
  {
    if docs == [] then []
    else
      (if Covers(docs[0], path, id, row) then [docs[0]] else []) + Hits(docs[1..], path, id, row)
  }

  lemma {:induction false} HitsAll(docs: seq<Doc>, d: Doc, row: int)
    requires d in docs && d.Packet? && d.startRow <= row < d.endRow
    ensures d in Hits(docs, d.path, d.id, row)
  {
    if d != docs[0] { HitsAll(docs[1..], d, row); }
  }

  function Seen(v: View, n: nat): (docs: seq<Doc>)
    ensures docs <= v.docs && |docs| == if v.seen(n) < |v.docs| then v.seen(n) else |v.docs|
  {
    if v.seen(n) < |v.docs| then v.docs[..v.seen(n)] else v.docs
  }

  function GetPacket(v: View, n: nat, path: Path, id: nat, row: int): (r: Option<Doc>)
    ensures r.Some? ==> r.value in Seen(v, n) && Covers(r.value, path, id, row)
  {
    var hits := Hits(Seen(v, n), path, id, row);
    if hits == [] then None
    else Some(if v.pick(hits) < |hits| then hits[v.pick(hits)] else hits[0])
  }

  lemma GetPacketFinds(v: View, n: nat, d: Doc, row: int)
    requires d in Seen(v, n) && d.Packet? && d.startRow <= row < d.endRow
    ensures GetPacket(v, n, d.path, d.id, row).Some?
  {
    HitsAll(Seen(v, n), d, row);
  }

  // The order of the hits is not specified: every packet that covers the row may be
  // the one that is found.
  lemma AnyPacketFirst(v: View, n: nat, d: Doc, row: int) returns (pick: seq<Doc> -> nat)
    requires d in Seen(v, n) && d.Packet? && d.startRow <= row < d.endRow
    ensures GetPacket(v.(pick := pick), n, d.path, d.id, row) == Some(d)
  {
    HitsAll(Seen(v, n), d, row);
    var hits := Hits(Seen(v, n), d.path, d.id, row);
    var i :| 0 <= i < |hits| && hits[i] == d;
    pick := _ => i;
    assert Seen(v.(pick := pick), n) == Seen(v, n);
  }

  function OpenReader(docs: seq<Doc>, path: Path): (r: Option<Pinned>)
  {
    var md := GetMetadata(docs, path);
    if md.totalRows < 0 then None
    else
      var end := if md.endRow == 0 then LastEnd(docs, path, md.id) else md.endRow;
      Some(Pinned(path, md.id, end, md.timestamp))
  }

  // ---------------------------------------------------------- the packet walk

  function After(lines: seq<string>, k: nat): seq<string> {
    if k < |lines| then lines[k..] else []
  }

  lemma AfterSplit(lines: seq<string>, k: nat, m: nat)
    requires k <= m <= |lines|
    ensures lines[k..m] + After(lines, m) == After(lines, k)
  {
    if m < |lines| { assert lines[k..] == lines[k..m] + lines[m..]; }
  }

  function MaxEnd(docs: seq<Doc>): (end: nat)
    ensures forall d :: d in docs && d.Packet? ==> d.endRow <= end
  {
    if docs == [] then 0
    else
      var rest := MaxEnd(docs[1..]);
      if docs[0].Packet? && docs[0].endRow > rest then docs[0].endRow else rest
  }

  // How far row is from the end of every packet there will ever be.
  function Distance(docs: seq<Doc>, row: int): nat {
    if row < MaxEnd(docs) then MaxEnd(docs) - row else 0
  }

  // The lines of a packet from the wanted row on.
  function Taken(p: Doc, row: int): seq<string>
    requires p.Packet? && p.startRow <= row
  {
    After(Lines(p.data), row - p.startRow)
  }

  function NextRow(p: Doc, row: int): (next: int)
    requires p.Packet? && p.startRow <= row
    ensures row <= next
  {
    row + |Taken(p, row)|
  }

  // The lines a reader emits from `row` on. The store is arbitrary: packets may
  // overlap, leave gaps or declare wrong row counts.
  function Walk(v: View, r: Pinned, row: int, last: int, n: nat): (out: seq<string>)
    decreases Distance(v.docs, row), if last == row then 0 else 1
  {
    if last == row || (r.endRow > 0 && row >= r.endRow) then []
    else
      var got := GetPacket(v, n, r.path, r.id, row);
      if got.None? then []
      else
        assert got.value in v.docs;
        var next := NextRow(got.value, row);
        Taken(got.value, row) + Walk(v, r, next, row, n + 1)
  }

  // ------------------------------------------------------------ the invariant

  // Every line of one version, in the order its packets were written.
  function VersionLines(docs: seq<Doc>, path: Path, id: nat): (lines: seq<string>)
  {
    if docs == [] then []
    else
      var d := docs[|docs| - 1];
      VersionLines(docs[..|docs| - 1], path, id) +
      if OfVersion(d, path, id) then Lines(d.data) else []
  }

  ghost predicate Newest(docs: seq<Doc>, timestamp: nat) {
    forall d :: d in docs && d.Meta? ==> d.md.timestamp < timestamp
  }

  // A document that may follow `docs`: a packet starts where its version ends
  // and spans as many rows as it has lines; a metadata record is the newest and
  // its end row is the length of its version, a packet boundary.
  ghost predicate DocOk(docs: seq<Doc>, d: Doc) {
    match d
    case Packet(path, id, startRow, endRow, data) =>
      && startRow == |VersionLines(docs, path, id)|
      && endRow == startRow + |Lines(data)|
      && data != ""
    case Meta(path, md) =>
      && 0 < md.timestamp && Newest(docs, md.timestamp)
      && md.endRow == |VersionLines(docs, path, md.id)|
  }

  ghost predicate GoodDocs(docs: seq<Doc>) {
    docs == [] || (GoodDocs(docs[..|docs| - 1]) && DocOk(docs[..|docs| - 1], docs[|docs| - 1]))
  }

  lemma {:induction false} GoodPrefix(docs: seq<Doc>, t: nat)
    requires GoodDocs(docs) && t <= |docs|
    ensures GoodDocs(docs[..t])
  {
    if t < |docs| {
      GoodPrefix(docs[..|docs| - 1], t);
      assert docs[..|docs| - 1][..t] == docs[..t];
    } else {
      assert docs[..t] == docs;
    }
  }

  // Versions only grow.
  lemma {:induction false} VersionPrefix(docs: seq<Doc>, t: nat, path: Path, id: nat)
    requires t <= |docs|
    ensures VersionLines(docs[..t], path, id) <= VersionLines(docs, path, id)
  {
    if t < |docs| {
      VersionPrefix(docs[..|docs| - 1], t, path, id);
      assert docs[..|docs| - 1][..t] == docs[..t];
    } else {
      assert docs[..t] == docs;
    }
  }

  // Packets of one version tile it: each holds exactly the lines of the row
  // interval it declares.
  lemma {:induction false} PacketHolds(docs: seq<Doc>, d: Doc)
    requires GoodDocs(docs) && d in docs && d.Packet?
    ensures 0 <= d.startRow < d.endRow <= |VersionLines(docs, d.path, d.id)|
    ensures VersionLines(docs, d.path, d.id)[d.startRow..d.endRow] == Lines(d.data)
  {
    var pre := docs[..|docs| - 1];
    var before := VersionLines(pre, d.path, d.id);
    if d == docs[|docs| - 1] {
      assert (before + Lines(d.data))[|before|..] == Lines(d.data);
    } else {
      PacketHolds(pre, d);
      assert before <= VersionLines(docs, d.path, d.id);
    }
  }

  // Every row of a version is in some packet.
  lemma {:induction false} PacketExists(docs: seq<Doc>, path: Path, id: nat, row: nat)
    requires GoodDocs(docs) && row < |VersionLines(docs, path, id)|
    ensures exists d :: d in docs && Covers(d, path, id, row)
  {
    var pre := docs[..|docs| - 1];
    if row < |VersionLines(pre, path, id)| {
      PacketExists(pre, path, id, row);
    } else {
      assert Covers(docs[|docs| - 1], path, id, row);
    }
  }

  // The length a version had at some moment stays a packet boundary for ever.
  lemma {:induction false} Boundary(docs: seq<Doc>, t: nat, d: Doc)
    requires GoodDocs(docs) && t <= |docs| && d in docs && d.Packet?
    ensures var end := |VersionLines(docs[..t], d.path, d.id)|; d.startRow < end ==> d.endRow <= end
  {
    if t == |docs| {
      assert docs[..t] == docs;
      PacketHolds(docs, d);
    } else {
      var pre := docs[..|docs| - 1];
      assert pre[..t] == docs[..t];
      if d == docs[|docs| - 1] {
        VersionPrefix(pre, t, d.path, d.id);
      } else {
        Boundary(pre, t, d);
      }
    }
  }

  lemma {:induction false} LastEndIsLength(docs: seq<Doc>, path: Path, id: nat)
    requires GoodDocs(docs)
    ensures LastEnd(docs, path, id) == |VersionLines(docs, path, id)|
  {
    if docs != [] { LastEndIsLength(docs[..|docs| - 1], path, id); }
  }

  // The metadata query finds the newest record of the path, or none at all.
  lemma {:induction false} MetadataNewest(docs: seq<Doc>, path: Path)
    requires GoodDocs(docs)
    ensures var md := GetMetadata(docs, path);
      && (forall d :: d in docs && d.Meta? && d.path == path ==> d.md.timestamp <= md.timestamp)
      && (if md.timestamp == 0 then md == Metadata(0, LEGACY_ID, 0, 0) else Meta(path, md) in docs)
  {
    if docs != [] {
      var pre, last := docs[..|docs| - 1], docs[|docs| - 1];
      MetadataNewest(pre, path);
      assert forall d :: d in docs ==> d in pre || d == last;
    }
  }

  // A metadata record that may follow `docs` is found by the next query.
  lemma MetadataAppended(docs: seq<Doc>, path: Path, md: Metadata)
    requires GoodDocs(docs) && DocOk(docs, Meta(path, md))
    ensures GetMetadata(docs + [Meta(path, md)], path) == md
  {
    MetadataNewest(docs, path);
    assert (docs + [Meta(path, md)])[..|docs|] == docs;
  }

  // Its end row was the version's length when it was written.
  lemma {:induction false} MetadataBoundary(docs: seq<Doc>, path: Path) returns (t: nat)
    requires GoodDocs(docs)
    ensures t <= |docs|
    ensures var md := GetMetadata(docs, path); md.endRow == |VersionLines(docs[..t], path, md.id)|
  {
    if docs == [] {
      t := 0;
    } else {
      var pre, last := docs[..|docs| - 1], docs[|docs| - 1];
      t := MetadataBoundary(pre, path);
      assert pre[..t] == docs[..t];
      if GetMetadata(docs, path) != GetMetadata(pre, path) {
        t := |docs| - 1;
      }
    }
  }

  // ------------------------------------------------------ reading is exact

  // Rows present when the reader was opened on `docs`.
  function RowsWhenOpened(docs: seq<Doc>, r: Pinned): (rows: seq<string>)
  {
    var lines := VersionLines(docs, r.path, r.id);
    if 0 <= r.endRow <= |lines| then lines[..r.endRow] else []
  }

  lemma OpenedAtBoundary(docs: seq<Doc>, path: Path) returns (t: nat)
    requires GoodDocs(docs) && OpenReader(docs, path).Some?
    ensures var r := OpenReader(docs, path).value;
      && t <= |docs| && r.endRow == |VersionLines(docs[..t], path, r.id)|
      && RowsWhenOpened(docs, r) == VersionLines(docs[..t], path, r.id)
  {
    var r := OpenReader(docs, path).value;
    t := MetadataBoundary(docs, path);
    if GetMetadata(docs, path).endRow == 0 {
      LastEndIsLength(docs, path, r.id);
      t := |docs|;
      assert docs[..t] == docs;
    }
    VersionPrefix(docs, t, path, r.id);
  }

  lemma Stretch(part: seq<string>, start: nat, end: nat, row: nat, lines: seq<string>, all: seq<string>)
    requires start <= row < end <= |all| && all <= lines && part == lines[start..end]
    ensures After(part, row - start) == all[row..end]
  {
  }

  // What is taken of a packet is a stretch of its version.
  lemma TakenIs(p: Doc, row: int, lines: seq<string>, all: seq<string>)
    requires p.Packet? && 0 <= p.startRow <= row < p.endRow <= |all| && all <= lines
    requires lines[p.startRow..p.endRow] == Lines(p.data)
    ensures NextRow(p, row) == p.endRow && Taken(p, row) == all[row..p.endRow]
  {
    Stretch(Lines(p.data), p.startRow, p.endRow, row, lines, all);
  }

  // Below the pinned end row every query finds a packet that holds the wanted
  // row and does not reach past the pinned end row.
  lemma PacketFound(v: View, t: nat, r: Pinned, row: nat, n: nat)
    requires GoodDocs(v.docs) && t <= |v.docs| && t <= v.seen(n)
    requires row < r.endRow == |VersionLines(v.docs[..t], r.path, r.id)|
    ensures var got := GetPacket(v, n, r.path, r.id, row);
      && got.Some? && got.value in v.docs
      && got.value.startRow <= row < got.value.endRow <= r.endRow
      && NextRow(got.value, row) == got.value.endRow
      && Taken(got.value, row) == VersionLines(v.docs[..t], r.path, r.id)[row..NextRow(got.value, row)]
  {
    var all := VersionLines(v.docs[..t], r.path, r.id);
    var now := Seen(v, n);
    assert now == v.docs[..|now|];
    GoodPrefix(v.docs, |now|);
    assert now[..t] == v.docs[..t];
    VersionPrefix(now, t, r.path, r.id);
    PacketExists(now, r.path, r.id, row);
    var d :| d in now && Covers(d, r.path, r.id, row);
    GetPacketFinds(v, n, d, row);
    var p := GetPacket(v, n, r.path, r.id, row).value;
    PacketHolds(now, p);
    Boundary(now, t, p);
    TakenIs(p, row, VersionLines(now, r.path, r.id), all);
  }

  // From any row at or above 0 the walk emits exactly the lines up to the
  // pinned end row, whatever each single query sees beyond that.
  lemma {:induction false} WalkExact(v: View, t: nat, r: Pinned, row: nat, last: int, n: nat)
    requires GoodDocs(v.docs) && t <= |v.docs|
    requires forall i: nat :: t <= v.seen(i)
    requires r.endRow == |VersionLines(v.docs[..t], r.path, r.id)| > 0
    requires last != row
    ensures Walk(v, r, row, last, n) == After(VersionLines(v.docs[..t], r.path, r.id), row)
    decreases Distance(v.docs, row)
  {
    if row < r.endRow {
      var all := VersionLines(v.docs[..t], r.path, r.id);
      PacketFound(v, t, r, row, n);
      var p := GetPacket(v, n, r.path, r.id, row).value;
      Progress(v.docs, p, row);
      WalkStep(v, r, row, last, n, p);
      WalkExact(v, t, r, NextRow(p, row), row, n + 1);
      AfterSplit(all, row, NextRow(p, row));
    }
  }

  // A turn either makes progress or is the last one.
  lemma Progress(docs: seq<Doc>, p: Doc, row: int)
    requires p in docs && p.Packet? && p.startRow <= row < p.endRow
    ensures NextRow(p, row) == row || Distance(docs, NextRow(p, row)) < Distance(docs, row)
  {
  }

  // One turn of the walk.
  lemma WalkStep(v: View, r: Pinned, row: int, last: int, n: nat, p: Doc)
    requires last != row && !(r.endRow > 0 && row >= r.endRow)
    requires GetPacket(v, n, r.path, r.id, row) == Some(p)
    ensures Walk(v, r, row, last, n) == Taken(p, row) + Walk(v, r, NextRow(p, row), row, n + 1)
  {
  }

  // Nothing is emitted from a row the first query finds no packet for.
  lemma WalkEmpty(v: View, r: Pinned, row: int)
    requires GoodDocs(v.docs) && r.endRow == 0
    ensures Walk(v, r, row, -1, 0) == [] <==>
            row < 0 || |VersionLines(Seen(v, 0), r.path, r.id)| <= row
  {
    var now := Seen(v, 0);
    GoodPrefix(v.docs, |now|);
    var got := GetPacket(v, 0, r.path, r.id, row);
    if got.Some? {
      PacketHolds(now, got.value);
    } else if 0 <= row < |VersionLines(now, r.path, r.id)| {
      PacketExists(now, r.path, r.id, row);
      var d :| d in now && Covers(d, r.path, r.id, row);
      GetPacketFinds(v, 0, d, row);
    }
  }

  // A reader opened on a non-empty result set and positioned at `row` delivers
  // exactly the rows present at that moment from `row` on, whatever is appended
  // or truncated while it reads. A reader opened on an empty set is not pinned:
  // it delivers nothing exactly when the set has not grown past `row` by its
  // first query.
  lemma SnapshotIsolation(v: View, t: nat, path: Path, row: int)
    requires GoodDocs(v.docs) && t <= |v.docs|
    requires OpenReader(v.docs[..t], path).Some?
    requires forall i: nat :: t <= v.seen(i)
    ensures var r := OpenReader(v.docs[..t], path).value;
      var out := Walk(v, r, row, -1, 0);
      if r.endRow > 0 then
        out == if row < 0 then [] else After(RowsWhenOpened(v.docs[..t], r), row)
      else
        out == [] <==> row < 0 || |VersionLines(Seen(v, 0), path, r.id)| <= row
  {
    var r := OpenReader(v.docs[..t], path).value;
    GoodPrefix(v.docs, t);
    var b := OpenedAtBoundary(v.docs[..t], path);
    assert v.docs[..t][..b] == v.docs[..b];
    if r.endRow == 0 {
      WalkEmpty(v, r, row);
    } else if row >= 0 {
      WalkExact(v, b, r, row, -1, 0);
    } else if row < -1 {
      var got := GetPacket(v, 0, path, r.id, row);
      if got.Some? { PacketHolds(v.docs, got.value); }
    }
  }
}
