// How writers change the store: opening with or without truncation, buffering,
// flushing, closing and aborting, and what whole histories of writer sessions
// leave for readers.
module ResultSetProtocol {
  import opened Jsonl
  import opened Sequences
  import opened Wrappers
  import opened ResultSets

  // The index together with the sources of fresh timestamps and version ids.
  datatype Store = Store(docs: seq<Doc>, clock: nat, nextId: nat)

  const EMPTY_STORE := Store([], 0, LEGACY_ID + 1)

  datatype Limits = Limits(rowsPerResultSet: nat, maxSizePerPacket: nat)

  datatype Writer = Writer(
    path: Path, version: nat, md: Metadata, startRow: int,
    buff: string, bufferedRows: nat, limits: Limits)

  // ------------------------------------------------------------- transitions

  // A limit of 0 in the configuration means the default.
  function EffectiveLimits(config: Limits): Limits {
    Limits(
      if config.rowsPerResultSet == 0 then 1000 else config.rowsPerResultSet,
      if config.maxSizePerPacket == 0 then 1024 * 1024 else config.maxSizePerPacket)
  }

  function SetMetadata(s: Store, path: Path, md: Metadata): (Store, Metadata) {
    var stamped := md.(timestamp := s.clock + 1);
    (s.(docs := s.docs + [Meta(path, stamped)], clock := s.clock + 1), stamped)
  }

  // Truncating publishes a metadata record with a new id; appending continues
  // the newest version and publishes nothing.
  function OpenWriter(s: Store, path: Path, truncate: bool, config: Limits): (Store, Writer) {
    var drawn := s.(nextId := s.nextId + 1);
    var (s', md) :=
      if truncate then SetMetadata(drawn, path, Metadata(s.clock, s.nextId, 0, 0))
      else (drawn, GetMetadata(s.docs, path));
    (s', Writer(path, md.id, md, md.endRow, "", 0, EffectiveLimits(config)))
  }

  function Flush(s: Store, w: Writer): (Store, Writer) {
    if w.bufferedRows == 0 then (s, w)
    else
      var end := w.startRow + w.bufferedRows;
      var packet := Packet(w.path, w.version, w.startRow, end, w.buff);
      var (s', md) := SetMetadata(s.(docs := s.docs + [packet]), w.path, w.md.(endRow := end));
      (s', w.(md := md, startRow := end, buff := "", bufferedRows := 0))
  }

  predicate Full(w: Writer) {
    w.bufferedRows > w.limits.rowsPerResultSet || |w.buff| > w.limits.maxSizePerPacket
  }

  // Keeps documents below the configured number of rows and bytes.
  function FlushIfFull(s: Store, w: Writer): (Store, Writer) {
    if Full(w) then Flush(s, w) else (s, w)
  }

  function WriteJSONL(s: Store, w: Writer, text: string, rows: nat): (Store, Writer) {
    FlushIfFull(s, w.(buff := w.buff + text, bufferedRows := w.bufferedRows + rows))
  }

  // One serialised row.
  function Write(s: Store, w: Writer, json: string): (Store, Writer) {
    WriteJSONL(s, w, json + "\n", 1)
  }

  function Marked(w: Writer): Writer {
    w.(md := w.md.(totalRows := -1, endRow := -1))
  }

  // Marks the set incomplete, then closes it.
  function Abort(s: Store, w: Writer): (Store, Writer) {
    Flush(s, Marked(w))
  }

  // A flush whose first `failures` attempts to store the packet fail. Each failed
  // attempt has already moved the row on; it aborts, which flushes the same buffer
  // again, and then publishes the metadata once more.
  function FlushAttempts(s: Store, w: Writer, failures: nat): (r: (Store, Writer))
    ensures w.bufferedRows > 0 ==> r.1.buff == "" && r.1.bufferedRows == 0
    decreases failures
  {
    if w.bufferedRows == 0 || failures == 0 then Flush(s, w)
    else
      var moved := w.(startRow := w.startRow + w.bufferedRows);
      var (s', w') := FlushAttempts(s, Marked(moved), failures - 1);
      var (s'', md) := SetMetadata(s', w.path, w'.md);
      (s'', w'.(md := md))
  }

  // --------------------------------------------------------------- invariants

  // The rows of the newest version of a path.
  function Content(s: Store, path: Path): seq<string> {
    VersionLines(s.docs, path, GetMetadata(s.docs, path).id)
  }

  ghost predicate Known(s: Store, d: Doc) {
    match d
    case Packet(_, id, _, _, _) => id < s.nextId
    case Meta(_, md) => md.id < s.nextId && md.timestamp <= s.clock
  }

  ghost predicate GoodStore(s: Store) {
    && GoodDocs(s.docs)
    && LEGACY_ID < s.nextId
    && forall d :: d in s.docs ==> Known(s, d)
  }

  // The newest metadata record of the path tells the length of its version.
  ghost predicate Settled(s: Store, path: Path) {
    GetMetadata(s.docs, path).endRow == |Content(s, path)|
  }

  ghost predicate GoodWriter(s: Store, w: Writer) {
    && w.md == GetMetadata(s.docs, w.path)
    && w.version == w.md.id
    && w.startRow == w.md.endRow == |Content(s, w.path)|
    && Terminated(w.buff)
    && |Lines(w.buff)| == w.bufferedRows
  }

  // Everything written so far, flushed or not.
  function AllRows(s: Store, w: Writer): seq<string> {
    Content(s, w.path) + Lines(w.buff)
  }

  ghost predicate Untouched(s: Store, s': Store, path: Path) {
    && GetMetadata(s'.docs, path) == GetMetadata(s.docs, path)
    && forall id :: VersionLines(s'.docs, path, id) == VersionLines(s.docs, path, id)
  }

  // Nothing that concerns another path has changed.
  ghost predicate SameElsewhere(s: Store, s': Store, path: Path) {
    s.docs <= s'.docs && forall q :: q != path ==> Untouched(s, s', q)
  }

  lemma {:induction false} FreshVersionEmpty(s: Store, docs: seq<Doc>, path: Path, id: nat)
    requires forall d :: d in docs ==> Known(s, d)
    requires s.nextId <= id
    ensures VersionLines(docs, path, id) == []
  {
    if docs != [] {
      assert Known(s, docs[|docs| - 1]);
      FreshVersionEmpty(s, docs[..|docs| - 1], path, id);
    }
  }

  lemma AppendDoc(s: Store, d: Doc)
    requires GoodStore(s) && DocOk(s.docs, d) && Known(s, d)
    ensures GoodStore(s.(docs := s.docs + [d]))
  {
  }

  lemma AppendElsewhere(s: Store, s': Store, d: Doc)
    requires s'.docs == s.docs + [d]
    ensures SameElsewhere(s, s', d.path)
  {
    assert s'.docs[..|s'.docs| - 1] == s.docs;
  }

  lemma SameElsewhereTransitive(s0: Store, s1: Store, s2: Store, path: Path)
    requires SameElsewhere(s0, s1, path) && SameElsewhere(s1, s2, path)
    ensures SameElsewhere(s0, s2, path)
  {
    forall q | q != path ensures Untouched(s0, s2, q) {
      assert Untouched(s0, s1, q) && Untouched(s1, s2, q);
    }
  }

  // A write whose flush, if it comes to one, fails that often.
  function WriteAttempts(s: Store, w: Writer, text: string, rows: nat, failures: nat): (Store, Writer) {
    var w1 := w.(buff := w.buff + text, bufferedRows := w.bufferedRows + rows);
    if Full(w1) then FlushAttempts(s, w1, failures) else (s, w1)
  }

  lemma {:induction false} NoNewerMetadata(docs: seq<Doc>, path: Path, clock: nat)
    requires forall d :: d in docs && d.Meta? ==> d.md.timestamp <= clock
    ensures GetMetadata(docs, path).timestamp <= clock
  {
    if docs != [] {
      assert docs[|docs| - 1] in docs;
      NoNewerMetadata(docs[..|docs| - 1], path, clock);
    }
  }

  ghost predicate NoneNewer(s: Store) {
    forall d :: d in s.docs && d.Meta? ==> d.md.timestamp <= s.clock
  }

  // Whatever else the store holds, the record published last is found.
  lemma Published(s: Store, path: Path, md: Metadata) returns (s': Store, md': Metadata)
    requires NoneNewer(s)
    ensures (s', md') == SetMetadata(s, path, md) && md'.totalRows == md.totalRows
    ensures GetMetadata(s'.docs, path) == md' && NoneNewer(s')
  {
    NoNewerMetadata(s.docs, path, s.clock);
    var set' := SetMetadata(s, path, md);
    s', md' := set'.0, set'.1;
    assert s'.docs[..|s.docs|] == s.docs;
  }

  ghost predicate Unreadable(s: Store, w: Writer) {
    GetMetadata(s.docs, w.path) == w.md && w.md.totalRows < 0 && OpenReader(s.docs, w.path) == None
  }

  lemma MarkedUnopened(s: Store, path: Path)
    requires GetMetadata(s.docs, path).totalRows < 0
    ensures OpenReader(s.docs, path) == None
  {
  }

  lemma MarkedFlushUnreadable(s: Store, w: Writer)
    requires NoneNewer(s) && w.bufferedRows > 0 && w.md.totalRows < 0
    ensures var (s', w') := Flush(s, w); NoneNewer(s') && Unreadable(s', w') && w'.path == w.path
  {
    var end := w.startRow + w.bufferedRows;
    var stored := s.(docs := s.docs + [Packet(w.path, w.version, w.startRow, end, w.buff)]);
    assert NoneNewer(stored);
    var s', md := Published(stored, w.path, w.md.(endRow := end));
    assert Flush(s, w) == (s', w.(md := md, startRow := end, buff := "", bufferedRows := 0));
    MarkedUnopened(s', w.path);
  }

  // After a failed attempt the set cannot be opened: the gap that the failure
  // leaves in its version is never read.
  lemma {:induction false} FailedFlushUnreadable(s: Store, w: Writer, failures: nat)
    requires NoneNewer(s) && w.bufferedRows > 0 && (failures > 0 || w.md.totalRows < 0)
    ensures var (s', w') := FlushAttempts(s, w, failures);
      NoneNewer(s') && Unreadable(s', w') && w'.path == w.path
    decreases failures
  {
    if failures == 0 {
      MarkedFlushUnreadable(s, w);
    } else {
      var moved := Marked(w.(startRow := w.startRow + w.bufferedRows));
      FailedFlushUnreadable(s, moved, failures - 1);
      var (s', w') := FlushAttempts(s, moved, failures - 1);
      var s'', md := Published(s', w.path, w'.md);
      assert FlushAttempts(s, w, failures) == (s'', w'.(md := md));
      MarkedUnopened(s'', w.path);
    }
  }

  // The buffered lines are stored once, behind a gap as long as the attempts that
  // failed; everything else stored is metadata.
  lemma {:induction false} FailedFlushGap(s: Store, w: Writer, failures: nat)
    requires w.bufferedRows > 0
    ensures var (s', w') := FlushAttempts(s, w, failures);
      && w'.startRow == w.startRow + (failures + 1) * w.bufferedRows
      && |s'.docs| == |s.docs| + failures + 2 && s.docs == s'.docs[..|s.docs|]
      && s'.docs[|s.docs|] == Packet(w.path, w.version, w'.startRow - w.bufferedRows, w'.startRow, w.buff)
      && (forall i :: |s.docs| < i < |s'.docs| ==> s'.docs[i].Meta?)
      && w'.md.endRow == w'.startRow && w'.md.totalRows == (if failures > 0 then -1 else w.md.totalRows)
    decreases failures
  {
    if failures > 0 {
      var moved := Marked(w.(startRow := w.startRow + w.bufferedRows));
      FailedFlushGap(s, moved, failures - 1);
      var (s', w') := FlushAttempts(s, moved, failures - 1);
      var (s'', md) := SetMetadata(s', w.path, w'.md);
      assert FlushAttempts(s, w, failures) == (s'', w'.(md := md));
      assert (failures + 1) * w.bufferedRows == w.bufferedRows + failures * w.bufferedRows;
      assert forall i :: 0 <= i < |s'.docs| ==> s''.docs[i] == s'.docs[i];
    }
  }

  // A write stores nothing while the buffer stays within the limits, and leaves the
  // set unreadable when it goes beyond them and storing fails.
  lemma WriteAttemptsExact(s: Store, w: Writer, text: string, rows: nat, failures: nat)
    requires NoneNewer(s) && rows > 0
    ensures WriteAttempts(s, w, text, rows, 0) == WriteJSONL(s, w, text, rows)
    ensures var (s', w') := WriteAttempts(s, w, text, rows, failures);
      if w.bufferedRows + rows <= w.limits.rowsPerResultSet && |w.buff| + |text| <= w.limits.maxSizePerPacket
      then s' == s && w'.buff == w.buff + text && w'.bufferedRows == w.bufferedRows + rows
      else w'.bufferedRows == 0 && (failures > 0 ==> Unreadable(s', w'))
  {
    var w1 := w.(buff := w.buff + text, bufferedRows := w.bufferedRows + rows);
    if failures > 0 { FailedFlushUnreadable(s, w1, failures); }
  }

  // Publishing metadata whose end row is the version's length.
  lemma SetMetadataGood(s: Store, path: Path, md: Metadata)
    requires GoodStore(s) && md.id < s.nextId
    requires md.endRow == |VersionLines(s.docs, path, md.id)|
    ensures var (s', md') := SetMetadata(s, path, md);
      && GoodStore(s') && GetMetadata(s'.docs, path) == md'
      && Content(s', path) == VersionLines(s.docs, path, md.id)
      && SameElsewhere(s, s', path)
  {
    var (s', md') := SetMetadata(s, path, md);
    var later := s.(clock := s.clock + 1);
    assert forall d :: d in s.docs ==> Known(s, d) && Known(later, d);
    AppendDoc(later, Meta(path, md'));
    MetadataAppended(s.docs, path, md');
    AppendElsewhere(s, s', Meta(path, md'));
    assert s'.docs[..|s'.docs| - 1] == s.docs;
  }

  lemma IdDrawn(s: Store)
    requires GoodStore(s)
    ensures GoodStore(s.(nextId := s.nextId + 1))
  {
  }

  lemma OpenWriterGood(s: Store, path: Path, truncate: bool, config: Limits)
    requires GoodStore(s) && Settled(s, path)
    ensures var (s', w) := OpenWriter(s, path, truncate, config);
      && GoodStore(s') && GoodWriter(s', w) && w.path == path
      && AllRows(s', w) == (if truncate then [] else Content(s, path))
      && w.md.totalRows == (if truncate then 0 else GetMetadata(s.docs, path).totalRows)
      && (truncate ==> s.clock < w.md.timestamp)
      && SameElsewhere(s, s', path)
  {
    IdDrawn(s);
    var drawn := s.(nextId := s.nextId + 1);
    var (s', w) := OpenWriter(s, path, truncate, config);
    if truncate {
      FreshVersionEmpty(s, s.docs, path, s.nextId);
      SetMetadataGood(drawn, path, Metadata(s.clock, s.nextId, 0, 0));
      SameDocsElsewhere(s, drawn, s', path);
    }
    OpenedGood(s', path, w);
  }

  // A writer just opened on the newest metadata has nothing buffered.
  lemma OpenedGood(s: Store, path: Path, w: Writer)
    requires w.path == path && w.md == GetMetadata(s.docs, path) && w.version == w.md.id
    requires w.startRow == w.md.endRow == |Content(s, path)| && w.buff == "" && w.bufferedRows == 0
    ensures GoodWriter(s, w) && AllRows(s, w) == Content(s, path)
  {
  }

  lemma SameDocsElsewhere(s: Store, s1: Store, s2: Store, path: Path)
    requires s1.docs == s.docs && SameElsewhere(s1, s2, path)
    ensures SameElsewhere(s, s2, path)
  {
    forall q | q != path ensures Untouched(s, s2, q) {
      assert Untouched(s1, s2, q);
    }
  }

  lemma MetadataKnown(s: Store, path: Path)
    requires GoodStore(s)
    ensures var md := GetMetadata(s.docs, path); md.id < s.nextId && md.timestamp <= s.clock
  {
    MetadataNewest(s.docs, path);
  }

  // Appending the buffered packet extends the version by the buffered lines.
  lemma PacketAppended(s: Store, w: Writer)
    requires GoodStore(s) && w.version < s.nextId && w.bufferedRows > 0
    requires w.startRow == |VersionLines(s.docs, w.path, w.version)|
    requires |Lines(w.buff)| == w.bufferedRows
    ensures var s' := s.(docs := s.docs +
        [Packet(w.path, w.version, w.startRow, w.startRow + w.bufferedRows, w.buff)]);
      && GoodStore(s') && SameElsewhere(s, s', w.path)
      && VersionLines(s'.docs, w.path, w.version) == VersionLines(s.docs, w.path, w.version) + Lines(w.buff)
  {
  }

  // A flush, whatever metadata it publishes, moves the buffered lines into the
  // current version.
  lemma FlushGood(s: Store, w: Writer)
    requires GoodStore(s) && w.md.id == w.version == GetMetadata(s.docs, w.path).id
    requires w.startRow == |Content(s, w.path)|
    requires |Lines(w.buff)| == w.bufferedRows > 0
    ensures var (s', w') := Flush(s, w);
      && GoodStore(s') && GoodWriter(s', w') && w'.buff == "" && w'.path == w.path
      && Content(s', w.path) == AllRows(s, w) == AllRows(s', w')
      && w'.md.totalRows == w.md.totalRows && w'.limits == w.limits
      && s.clock < w'.md.timestamp
      && SameElsewhere(s, s', w.path)
  {
    MetadataKnown(s, w.path);
    PacketAppended(s, w);
    var end := w.startRow + w.bufferedRows;
    var s1 := s.(docs := s.docs + [Packet(w.path, w.version, w.startRow, end, w.buff)]);
    var md := w.md.(endRow := end);
    SetMetadataGood(s1, w.path, md);
    var (s', w') := Flush(s, w);
    assert (s', w'.md) == SetMetadata(s1, w.path, md);
    FlushConcludes(s, w, s1, s', w');
  }

  lemma FlushConcludes(s: Store, w: Writer, s1: Store, s': Store, w': Writer)
    requires w.version == GetMetadata(s.docs, w.path).id
    requires w.startRow == |Content(s, w.path)| && |Lines(w.buff)| == w.bufferedRows
    requires SameElsewhere(s, s1, w.path) && SameElsewhere(s1, s', w.path)
    requires VersionLines(s1.docs, w.path, w.version) == VersionLines(s.docs, w.path, w.version) + Lines(w.buff)
    requires GetMetadata(s'.docs, w.path) == w'.md && Content(s', w.path) == VersionLines(s1.docs, w.path, w.version)
    requires w'.path == w.path && w'.md.id == w'.version && w'.buff == "" && w'.bufferedRows == 0
    requires w'.startRow == w'.md.endRow == w.startRow + w.bufferedRows
    ensures GoodWriter(s', w') && Content(s', w.path) == AllRows(s, w) == AllRows(s', w')
    ensures SameElsewhere(s, s', w.path)
  {
    SameElsewhereTransitive(s, s1, s', w.path);
    OpenedGood(s', w.path, w');
  }

  // What every operation on a writer keeps; it adds `lines` to what was written,
  // and if it publishes anything the set becomes newer than all before.
  ghost predicate Advances(s: Store, w: Writer, s': Store, w': Writer, lines: seq<string>) {
    && GoodStore(s') && GoodWriter(s', w') && w'.path == w.path
    && AllRows(s', w') == AllRows(s, w) + lines
    && w'.md.totalRows == w.md.totalRows && w'.version == w.version
    && ((s'.docs == s.docs && w'.md == w.md) || s.clock < w'.md.timestamp)
    && SameElsewhere(s, s', w.path)
  }

  // Flushing adds nothing to what was written, buffered or not.
  lemma FlushAdvances(s: Store, w: Writer)
    requires GoodStore(s) && GoodWriter(s, w)
    ensures var (s', w') := Flush(s, w); Advances(s, w, s', w', [])
  {
    assert AllRows(s, w) + [] == AllRows(s, w);
    if w.bufferedRows > 0 { FlushGood(s, w); }
  }

  lemma WriteJSONLGood(s: Store, w: Writer, text: string, rows: nat) returns (s': Store, w': Writer)
    requires GoodStore(s) && GoodWriter(s, w)
    requires Terminated(text) && |Lines(text)| == rows
    ensures (s', w') == WriteJSONL(s, w, text, rows) && Advances(s, w, s', w', Lines(text))
  {
    var w1 := w.(buff := w.buff + text, bufferedRows := w.bufferedRows + rows);
    BufferGood(s, w, text, rows);
    s', w' := BufferThenFlushIfFull(s, w, w1, Lines(text));
  }

  lemma BufferThenFlushIfFull(s: Store, w: Writer, w1: Writer, lines: seq<string>) returns (s': Store, w': Writer)
    requires GoodStore(s) && GoodWriter(s, w1) && w1.path == w.path && w1.md == w.md
    requires AllRows(s, w1) == AllRows(s, w) + lines && w1.version == w.version
    ensures (s', w') == FlushIfFull(s, w1) && Advances(s, w, s', w', lines)
  {
    var flushed := FlushIfFull(s, w1);
    s', w' := flushed.0, flushed.1;
    if flushed == (s, w1) {
      BufferOnly(s, w, w1, lines);
    } else {
      FlushAdvances(s, w1);
      BufferThenFlush(s, w, w1, s', w', lines);
    }
  }

  // After a write what stays buffered is within the limits, so no packet is ever
  // larger than the limits and the one batch that crossed them.
  lemma BufferBounded(s: Store, w: Writer, text: string, rows: nat)
    requires GoodStore(s) && GoodWriter(s, w) && Terminated(text) && |Lines(text)| == rows
    ensures var w' := WriteJSONL(s, w, text, rows).1;
      w'.bufferedRows <= w.limits.rowsPerResultSet && |w'.buff| <= w.limits.maxSizePerPacket
  {
    BufferGood(s, w, text, rows);
  }

  // A write is stored at once only when the buffer goes beyond 1000 rows or a
  // megabyte, unless other limits are configured.
  lemma FlushesExactly(s: Store, path: Path, truncate: bool, config: Limits, text: string, rows: nat)
    requires rows > 0
    ensures var (s', w) := OpenWriter(s, path, truncate, config);
      WriteJSONL(s', w, text, rows).0 == s' <==>
      && rows <= (if config.rowsPerResultSet == 0 then 1000 else config.rowsPerResultSet)
      && |text| <= (if config.maxSizePerPacket == 0 then 1048576 else config.maxSizePerPacket)
  {
    var (s', w) := OpenWriter(s, path, truncate, config);
    assert "" + text == text;
  }

  lemma BufferOnly(s: Store, w: Writer, w1: Writer, lines: seq<string>)
    requires GoodStore(s) && GoodWriter(s, w1) && w1.path == w.path && w1.md == w.md
    requires AllRows(s, w1) == AllRows(s, w) + lines && w1.version == w.version
    ensures Advances(s, w, s, w1, lines)
  {
  }

  lemma BufferThenFlush(s: Store, w: Writer, w1: Writer, s': Store, w': Writer, lines: seq<string>)
    requires w1.path == w.path && w1.md == w.md && AllRows(s, w1) == AllRows(s, w) + lines && w1.version == w.version
    requires Advances(s, w1, s', w', [])
    ensures Advances(s, w, s', w', lines)
  {
    assert AllRows(s, w1) + [] == AllRows(s, w1);
  }

  lemma BufferGood(s: Store, w: Writer, text: string, rows: nat)
    requires GoodWriter(s, w) && Terminated(text) && |Lines(text)| == rows
    ensures var w1 := w.(buff := w.buff + text, bufferedRows := w.bufferedRows + rows);
      GoodWriter(s, w1) && AllRows(s, w1) == AllRows(s, w) + Lines(text)
  {
    LinesAppend(w.buff, text);
    Associative(Content(s, w.path), Lines(w.buff), Lines(text));
  }

  // ---------------------------------------------------------------- histories

  datatype Op =
    | WriteRow(json: string)
    | WriteBatch(text: string, rows: nat)
    | FlushBuffer

  // One writer, opened, used and closed.
  datatype Session = Session(truncate: bool, config: Limits, ops: seq<Op>)

  // Serialised rows have no newline; batches declare how many lines they hold.
  ghost predicate ValidOp(op: Op) {
    match op
    case WriteRow(json) => '\n' !in json
    case WriteBatch(text, rows) => Terminated(text) && |Lines(text)| == rows
    case FlushBuffer => true
  }

  ghost predicate ValidHistory(history: seq<Session>) {
    forall session :: session in history ==> forall op :: op in session.ops ==> ValidOp(op)
  }

  function Apply(s: Store, w: Writer, op: Op): (Store, Writer) {
    match op
    case WriteRow(json) => Write(s, w, json)
    case WriteBatch(text, rows) => WriteJSONL(s, w, text, rows)
    case FlushBuffer => Flush(s, w)
  }

  function ApplyAll(s: Store, w: Writer, ops: seq<Op>): (Store, Writer)
    decreases |ops|
  {
    if ops == [] then (s, w)
    else var (s', w') := Apply(s, w, ops[0]); ApplyAll(s', w', ops[1..])
  }

  function RunSession(s: Store, path: Path, session: Session): Store {
    var (s', w) := OpenWriter(s, path, session.truncate, session.config);
    var (s'', w') := ApplyAll(s', w, session.ops);
    Flush(s'', w').0
  }

  function Run(path: Path, history: seq<Session>): Store {
    if history == [] then EMPTY_STORE
    else RunSession(Run(path, history[..|history| - 1]), path, history[|history| - 1])
  }

  // What was written, without any notion of packets, buffers or versions.
  function OpLines(op: Op): seq<string> {
    match op
    case WriteRow(json) => [json + "\n"]
    case WriteBatch(text, _) => Lines(text)
    case FlushBuffer => []
  }

  function OpsLines(ops: seq<Op>): seq<string> {
    if ops == [] then [] else OpLines(ops[0]) + OpsLines(ops[1..])
  }

  function Written(history: seq<Session>): seq<string> {
    if history == [] then []
    else
      var last := history[|history| - 1];
      (if last.truncate then [] else Written(history[..|history| - 1])) + OpsLines(last.ops)
  }

  lemma ApplyGood(s: Store, w: Writer, op: Op)
    requires GoodStore(s) && GoodWriter(s, w) && ValidOp(op)
    ensures var (s', w') := Apply(s, w, op); Advances(s, w, s', w', OpLines(op))
  {
    match op
    case WriteRow(json) =>
      OneLine(json);
      var _, _ := WriteJSONLGood(s, w, json + "\n", 1);
    case WriteBatch(text, rows) =>
      var _, _ := WriteJSONLGood(s, w, text, rows);
    case FlushBuffer =>
      FlushAdvances(s, w);
  }

  lemma {:induction false} ApplyAllGood(s: Store, w: Writer, ops: seq<Op>)
    requires GoodStore(s) && GoodWriter(s, w)
    requires forall op :: op in ops ==> ValidOp(op)
    ensures var (s', w') := ApplyAll(s, w, ops);
      && GoodStore(s') && GoodWriter(s', w') && w'.path == w.path
      && AllRows(s', w') == AllRows(s, w) + OpsLines(ops)
      && w'.md.totalRows == w.md.totalRows && w'.version == w.version && s.docs <= s'.docs
    decreases |ops|
  {
    if ops != [] {
      ApplyGood(s, w, ops[0]);
      var (s', w') := Apply(s, w, ops[0]);
      ApplyAllGood(s', w', ops[1..]);
      Associative(AllRows(s, w), OpLines(ops[0]), OpsLines(ops[1..]));
    }
  }

  lemma CloseGood(s: Store, w: Writer)
    requires GoodStore(s) && GoodWriter(s, w)
    ensures var (s', w') := Flush(s, w);
      && GoodStore(s') && Settled(s', w.path) && GoodWriter(s', w')
      && Content(s', w.path) == AllRows(s, w)
      && GetMetadata(s'.docs, w.path).totalRows == w.md.totalRows
      && w.md.timestamp <= GetMetadata(s'.docs, w.path).timestamp
      && (if w.bufferedRows > 0 then s.clock < GetMetadata(s'.docs, w.path).timestamp else s' == s)
      && SameElsewhere(s, s', w.path)
  {
    MetadataKnown(s, w.path);
    if w.bufferedRows > 0 {
      FlushGood(s, w);
    } else {
      assert Lines(w.buff) == [];
      assert AllRows(s, w) == Content(s, w.path);
    }
  }

  // A session that truncates leaves what it wrote; one that appends leaves that
  // behind what was there, in the same version.
  lemma SessionGood(s: Store, path: Path, session: Session)
    requires GoodStore(s) && Settled(s, path)
    requires forall op :: op in session.ops ==> ValidOp(op)
    ensures var s', md := RunSession(s, path, session), GetMetadata(s.docs, path);
      && GoodStore(s') && Settled(s', path) && s.docs <= s'.docs
      && Content(s', path) == (if session.truncate then [] else Content(s, path)) + OpsLines(session.ops)
      && GetMetadata(s'.docs, path).totalRows == (if session.truncate then 0 else md.totalRows)
      && (!session.truncate ==> GetMetadata(s'.docs, path).id == md.id)
  {
    OpenWriterGood(s, path, session.truncate, session.config);
    var (s1, w1) := OpenWriter(s, path, session.truncate, session.config);
    ApplyAllGood(s1, w1, session.ops);
    var (s2, w2) := ApplyAll(s1, w1, session.ops);
    CloseGood(s2, w2);
  }

  // After every history of sessions the newest version holds exactly what was
  // written since the last truncation.
  lemma {:induction false} HistoryContent(path: Path, history: seq<Session>)
    requires ValidHistory(history)
    ensures var s := Run(path, history);
      && GoodStore(s) && Settled(s, path)
      && Content(s, path) == Written(history)
      && GetMetadata(s.docs, path).totalRows == 0
  {
    if history != [] {
      var before := history[..|history| - 1];
      HistoryContent(path, before);
      SessionGood(Run(path, before), path, history[|history| - 1]);
    }
  }

  // Round trip: a reader opened after any history and seeked to any row
  // delivers exactly what was written since the last truncation from that row
  // on, each row once and in order, and knows how many rows there are.
  lemma ReadBack(path: Path, history: seq<Session>, v: View, row: int)
    requires ValidHistory(history)
    requires v.docs == Run(path, history).docs
    requires forall i: nat :: |v.docs| <= v.seen(i)
    ensures OpenReader(v.docs, path).Some?
    ensures var r := OpenReader(v.docs, path).value;
      && r.endRow == |Written(history)|
      && Walk(v, r, row, -1, 0) == if row < 0 then [] else After(Written(history), row)
  {
    HistoryContent(path, history);
    var r := OpenReader(v.docs, path).value;
    assert v.docs[..|v.docs|] == v.docs;
    LastEndIsLength(v.docs, path, r.id);
    SnapshotIsolation(v, |v.docs|, path, row);
    assert Seen(v, 0) == v.docs;
    assert r.endRow > 0 ==> RowsWhenOpened(v.docs, r) == Written(history);
  }

  // The bytes that were written since the last truncation.
  function OpsText(ops: seq<Op>): string {
    if ops == [] then ""
    else
      (match ops[0]
       case WriteRow(json) => json + "\n"
       case WriteBatch(text, _) => text
       case FlushBuffer => "") + OpsText(ops[1..])
  }

  function WrittenText(history: seq<Session>): string {
    if history == [] then ""
    else
      var last := history[|history| - 1];
      (if last.truncate then "" else WrittenText(history[..|history| - 1])) + OpsText(last.ops)
  }

  lemma {:induction false} JoinOps(ops: seq<Op>)
    ensures Join(OpsLines(ops)) == OpsText(ops)
  {
    if ops != [] {
      JoinOps(ops[1..]);
      JoinAppend(OpLines(ops[0]), OpsLines(ops[1..]));
      match ops[0]
      case WriteRow(json) => assert [json + "\n"][1..] == [];
      case WriteBatch(text, _) => JoinLines(text);
      case FlushBuffer =>
    }
  }

  lemma {:induction false} JoinWritten(history: seq<Session>)
    ensures Join(Written(history)) == WrittenText(history)
  {
    if history != [] {
      var before, last := history[..|history| - 1], history[|history| - 1];
      JoinWritten(before);
      JoinOps(last.ops);
      JoinAppend(if last.truncate then [] else Written(before), OpsLines(last.ops));
    }
  }

  // What a reader streams from row 0 is byte for byte what was written.
  lemma ReadBackBytes(path: Path, history: seq<Session>, v: View)
    requires ValidHistory(history)
    requires v.docs == Run(path, history).docs
    requires forall i: nat :: |v.docs| <= v.seen(i)
    ensures OpenReader(v.docs, path).Some?
    ensures Join(Walk(v, OpenReader(v.docs, path).value, 0, -1, 0)) == WrittenText(history)
  {
    ReadBack(path, history, v, 0);
    JoinWritten(history);
    assert After(Written(history), 0) == Written(history);
  }

  // The same holds at every moment of every history: a reader opened when only
  // the first `t` documents existed is not disturbed by the rest of the history.
  lemma HistorySnapshot(path: Path, history: seq<Session>, v: View, t: nat, row: int)
    requires ValidHistory(history)
    requires v.docs == Run(path, history).docs && t <= |v.docs|
    requires forall i: nat :: t <= v.seen(i)
    requires OpenReader(v.docs[..t], path).Some? && OpenReader(v.docs[..t], path).value.endRow > 0
    ensures var r := OpenReader(v.docs[..t], path).value;
      Walk(v, r, row, -1, 0) == if row < 0 then [] else After(RowsWhenOpened(v.docs[..t], r), row)
  {
    HistoryContent(path, history);
    SnapshotIsolation(v, t, path, row);
  }

  // A reader opened on an empty set is not pinned: when a truncation is followed by
  // one appended row, a reader opened in between delivers that row.
  lemma UnpinnedReader(s: Store, path: Path, config: Limits, json: string, pick: seq<Doc> -> nat)
    requires GoodStore(s) && Settled(s, path) && '\n' !in json
    ensures var before := RunSession(s, path, Session(true, config, []));
      var after := RunSession(before, path, Session(false, config, [WriteRow(json)]));
      var reader := OpenReader(before.docs, path);
      && GoodDocs(after.docs) && before.docs <= after.docs
      && reader.Some? && RowsWhenOpened(before.docs, reader.value) == []
      && Walk(FullView(after.docs, pick), reader.value, 0, -1, 0) != []
  {
    var before := Truncated(s, path, config);
    EmptyOpened(before, path);
    AppendDelivers(before, path, RowSession(config, json), pick);
  }

  // A session that only truncates.
  lemma Truncated(s: Store, path: Path, config: Limits) returns (before: Store)
    requires GoodStore(s) && Settled(s, path)
    ensures before == RunSession(s, path, Session(true, config, []))
    ensures GoodStore(before) && Settled(before, path) && Content(before, path) == []
    ensures GetMetadata(before.docs, path).totalRows == 0
  {
    before := RunSession(s, path, Session(true, config, []));
    SessionGood(s, path, Session(true, config, []));
  }

  // A session that appends one row.
  function RowSession(config: Limits, json: string): (session: Session)
    ensures session == Session(false, config, [WriteRow(json)]) && OpsLines(session.ops) == [json + "\n"]
  {
    assert [WriteRow(json)][1..] == [];
    Session(false, config, [WriteRow(json)])
  }

  lemma AppendDelivers(s: Store, path: Path, session: Session, pick: seq<Doc> -> nat)
    requires GoodStore(s) && Settled(s, path) && !session.truncate
    requires OpenReader(s.docs, path).Some? && OpenReader(s.docs, path).value.endRow == 0
    requires (forall op :: op in session.ops ==> ValidOp(op)) && OpsLines(session.ops) != []
    ensures var s' := RunSession(s, path, session);
      && GoodDocs(s'.docs) && s.docs <= s'.docs
      && Walk(FullView(s'.docs, pick), OpenReader(s.docs, path).value, 0, -1, 0) != []
  {
    SessionGood(s, path, session);
    GrownDelivers(s, RunSession(s, path, session), path, pick);
  }

  lemma EmptyOpened(s: Store, path: Path)
    requires GoodStore(s) && Content(s, path) == [] && Settled(s, path) && GetMetadata(s.docs, path).totalRows == 0
    ensures var reader := OpenReader(s.docs, path);
      && reader.Some? && reader.value.endRow == 0 && reader.value.id == GetMetadata(s.docs, path).id
      && RowsWhenOpened(s.docs, reader.value) == []
  {
    LastEndIsLength(s.docs, path, GetMetadata(s.docs, path).id);
  }

  lemma GrownDelivers(s: Store, s': Store, path: Path, pick: seq<Doc> -> nat)
    requires GoodStore(s) && GoodStore(s') && s.docs <= s'.docs && Content(s', path) != []
    requires GetMetadata(s'.docs, path).id == GetMetadata(s.docs, path).id
    requires OpenReader(s.docs, path).Some? && OpenReader(s.docs, path).value.endRow == 0
    ensures Walk(FullView(s'.docs, pick), OpenReader(s.docs, path).value, 0, -1, 0) != []
  {
    var v := FullView(s'.docs, pick);
    assert v.docs[..|s.docs|] == s.docs && Seen(v, 0) == s'.docs;
    SnapshotIsolation(v, |s.docs|, path, 0);
  }
}
