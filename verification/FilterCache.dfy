// Filtered views of a result set. A filtered table is built once into a result
// set of its own and reused for as long as it is newer than its base table.
module FilterCache {
  import opened Jsonl
  import opened Sequences
  import opened Wrappers
  import opened ResultSets
  import opened ResultSetObjects
  import P = ResultSetProtocol

  // Foreign code: the JSON encoding of a row and the regular expression engine.
  datatype Codec = Codec(
    parse: string -> Option<Row>,
    encode: Row -> string,
    matches: (string, string) -> bool)

  ghost predicate ValidCodec(c: Codec) {
    forall row: Row :: '\n' !in c.encode(row) && c.parse(c.encode(row) + "\n") == Some(row)
  }

  datatype Filter = Filter(column: string, regex: Option<string>, exclude: bool)

  predicate Active(f: Filter) {
    f.column != "" && f.regex.Some?
  }

  // The row has the column, and it matches or, under exclude, does not.
  predicate Keeps(c: Codec, f: Filter, row: Row)
    requires Active(f)
  {
    f.column in row &&
    if f.exclude then !c.matches(f.regex.value, row[f.column]) else c.matches(f.regex.value, row[f.column])
  }

  function Kept(c: Codec, f: Filter, rows: seq<Row>): seq<Row>
    requires Active(f)
  {
    if rows == [] then []
    else (if Keeps(c, f, rows[0]) then [rows[0]] else []) + Kept(c, f, rows[1..])
  }

  // Where the filtered table is stored.
  function CachePath(path: Path, f: Filter): Path
    requires Active(f)
  {
    path + ["filter", f.column, f.regex.value] + if f.exclude then ["exclude"] else []
  }

  // The rows of a result set as a fresh reader at row 0 delivers them.
  function RowsOf(c: Codec, docs: seq<Doc>, r: Pinned, pick: seq<Doc> -> nat): seq<Row> {
    Parsed(c.parse, Walk(FullView(docs, pick), r, 0, -1, 0))
  }

  function WriteKept(c: Codec, f: Filter, s: P.Store, w: P.Writer, rows: seq<Row>): (P.Store, P.Writer)
    requires Active(f)
    decreases |rows|
  {
    if rows == [] then (s, w)
    else
      var (s', w') := if Keeps(c, f, rows[0]) then P.Write(s, w, c.encode(rows[0])) else (s, w);
      WriteKept(c, f, s', w', rows[1..])
  }

  // The state of a build just before it is closed or aborted. It consumes all of
  // the base rows, or as many as it got to see before it was cancelled.
  function Build(c: Codec, s: P.Store, path: Path, base: Pinned, f: Filter, config: P.Limits,
                 cancel: Option<nat>, pick: seq<Doc> -> nat): (P.Store, P.Writer)
    requires Active(f)
  {
    var (s', w) := P.OpenWriter(s, CachePath(path, f), true, config);
    WriteKept(c, f, s', w, Limited(RowsOf(c, s.docs, base, pick), cancel))
  }

  predicate Usable(cached: Option<Pinned>, base: Pinned) {
    cached.Some? && cached.value.mtime > base.mtime
  }

  function FilteredRead(c: Codec, s: P.Store, path: Path, f: Filter, config: P.Limits,
                        cancel: Option<nat>, pick: seq<Doc> -> nat): (P.Store, Result<Pinned>)
  {
    match OpenReader(s.docs, path)
    case None => (s, Err("not found"))
    case Some(base) =>
      if !Active(f) then (s, Ok(base))
      else
        var cached := OpenReader(s.docs, CachePath(path, f));
        if Usable(cached, base) then (s, Ok(cached.value))
        else
          var (s', w) := Build(c, s, path, base, f, config, cancel, pick);
          if cancel.Some? then (P.Abort(s', w).0, Err("io error"))
          else
            var s'' := P.Flush(s', w).0;
            match OpenReader(s''.docs, CachePath(path, f))
            case None => (s'', Err("not found"))
            case Some(r) => (s'', Ok(r))
  }

  // -------------------------------------------------------------- the builder

  // The select loop that feeds the matching rows to the writer.
  method FeedWriter(writer: ResultSetWriter, c: Codec, f: Filter, rows: seq<Row>)
    requires Active(f)
    modifies writer, writer.index
    ensures (writer.index.State(), writer.State())
         == WriteKept(c, f, old(writer.index.State()), old(writer.State()), rows)
  {
    ghost var goal := WriteKept(c, f, writer.index.State(), writer.State(), rows);
    for i := 0 to |rows|
      invariant WriteKept(c, f, writer.index.State(), writer.State(), rows[i..]) == goal
    {
      assert rows[i..][1..] == rows[i + 1..];
      if f.column in rows[i] {
        var matched := c.matches(f.regex.value, rows[i][f.column]);
        if (f.exclude && !matched) || (!f.exclude && matched) {
          writer.Write(Some(c.encode(rows[i])));
        }
      }
    }
  }

  // Open the filtered table: the cached one if it is newer than the base,
  // otherwise a new one built now.
  method GetFilteredReader(index: Index, c: Codec, path: Path, f: Filter, config: P.Limits,
                           cancel: Option<nat>, pick: seq<Doc> -> nat)
    returns (result: Result<Pinned>)
    modifies index
    ensures (index.State(), result)
         == FilteredRead(c, old(index.State()), path, f, config, cancel, pick)
  {
    var base := OpenReader(index.docs, path);
    if base.None? { return Err("not found"); }
    if !Active(f) { return Ok(base.value); }
    var cached := OpenReader(index.docs, CachePath(path, f));
    if Usable(cached, base.value) { return Ok(cached.value); }

    var docs := index.docs;
    var reader := new ResultSetReader(base.value);
    var rows := reader.Rows(FullView(docs, pick), c.parse, cancel);
    var writer := new ResultSetWriter(index, CachePath(path, f), true, config);
    FeedWriter(writer, c, f, rows);
    if cancel.Some? {
      writer.Abort();
      return Err("io error");
    }
    writer.Close();
    match OpenReader(index.docs, CachePath(path, f)) {
      case None => return Err("not found");
      case Some(r) => return Ok(r);
    }
  }

  // -------------------------------------------------------------- cache paths

  lemma CachePathInjective(path: Path, f: Filter, g: Filter)
    requires Active(f) && Active(g)
    ensures CachePath(path, f) != path
    ensures CachePath(path, f) == CachePath(path, g) ==> f == g
  {
    var n := |path|;
    assert CachePath(path, f)[n + 1] == f.column && CachePath(path, f)[n + 2] == f.regex.value;
    assert CachePath(path, g)[n + 1] == g.column && CachePath(path, g)[n + 2] == g.regex.value;
  }

  // ------------------------------------------------------------ what is built

  function Encoded(c: Codec, rows: seq<Row>): seq<string> {
    if rows == [] then [] else [c.encode(rows[0]) + "\n"] + Encoded(c, rows[1..])
  }

  lemma {:induction false} ParsedEncoded(c: Codec, rows: seq<Row>)
    requires ValidCodec(c)
    ensures Parsed(c.parse, Encoded(c, rows)) == rows
  {
    if rows != [] {
      var line := c.encode(rows[0]) + "\n";
      ParsedEncoded(c, rows[1..]);
      ParsedAppend(c.parse, [line], Encoded(c, rows[1..]));
      assert [] + [line] == [line];
      ParsedSnoc(c.parse, [], line);
    }
  }

  lemma {:induction false} KeptAppend(c: Codec, f: Filter, a: seq<Row>, b: seq<Row>)
    requires Active(f)
    ensures Kept(c, f, a + b) == Kept(c, f, a) + Kept(c, f, b)
  {
    if a == [] {
      assert a + b == b;
    } else {
      assert (a + b)[1..] == a[1..] + b;
      KeptAppend(c, f, a[1..], b);
    }
  }

  // The rows a filter is about: those that have the column and match, or do not match
  // if the filter excludes, in order.
  lemma {:induction false} KeptExact(c: Codec, f: Filter, rows: seq<Row>, select: Row -> Option<Row>) returns (at: seq<nat>)
    requires Active(f)
    requires forall row: Row ::
      select(row) == (if f.column in row && c.matches(f.regex.value, row[f.column]) != f.exclude then Some(row) else None)
    ensures PicksAt(select, rows, Kept(c, f, rows), at)
  {
    if rows == [] {
      at := [];
    } else {
      var before, last := rows[..|rows| - 1], rows[|rows| - 1];
      assert rows == before + [last] && [last][1..] == [];
      at := KeptExact(c, f, before, select);
      KeptAppend(c, f, before, [last]);
      PicksSnoc(select, before, last, Kept(c, f, before), at);
      if select(last).Some? { at := at + [|before|]; }
    }
  }

  lemma {:induction false} WriteKeptGood(c: Codec, f: Filter, s: P.Store, w: P.Writer, rows: seq<Row>)
    requires ValidCodec(c) && Active(f)
    requires P.GoodStore(s) && P.GoodWriter(s, w)
    ensures var (s', w') := WriteKept(c, f, s, w, rows);
      && P.GoodStore(s') && P.GoodWriter(s', w') && w'.path == w.path
      && P.AllRows(s', w') == P.AllRows(s, w) + Encoded(c, Kept(c, f, rows))
      && w'.md.totalRows == w.md.totalRows && w.md.timestamp <= w'.md.timestamp
      && P.SameElsewhere(s, s', w.path)
    decreases |rows|
  {
    if rows != [] {
      if Keeps(c, f, rows[0]) {
        var line := c.encode(rows[0]) + "\n";
        OneLine(c.encode(rows[0]));
        var s', w' := P.WriteJSONLGood(s, w, line, 1);
        P.MetadataKnown(s, w.path);
        WriteKeptGood(c, f, s', w', rows[1..]);
        P.SameElsewhereTransitive(s, s', WriteKept(c, f, s', w', rows[1..]).0, w.path);
        Associative(P.AllRows(s, w), [line], Encoded(c, Kept(c, f, rows[1..])));
        assert Kept(c, f, rows)[1..] == Kept(c, f, rows[1..]);
      } else {
        WriteKeptGood(c, f, s, w, rows[1..]);
        assert Kept(c, f, rows) == Kept(c, f, rows[1..]);
      }
    }
  }

  // Reading a settled, complete result set delivers its content.
  lemma RowsOfContent(c: Codec, s: P.Store, path: Path, pick: seq<Doc> -> nat)
    requires P.GoodStore(s) && P.Settled(s, path) && OpenReader(s.docs, path).Some?
    ensures RowsOf(c, s.docs, OpenReader(s.docs, path).value, pick) == Parsed(c.parse, P.Content(s, path))
  {
    var v := FullView(s.docs, pick);
    var r := OpenReader(s.docs, path).value;
    assert s.docs[..|s.docs|] == s.docs;
    LastEndIsLength(s.docs, path, r.id);
    SnapshotIsolation(v, |s.docs|, path, 0);
    assert Seen(v, 0) == s.docs;
    assert Walk(v, r, 0, -1, 0) == P.Content(s, path);
  }

  // The base is read while the cache is written; since nothing but the cache
  // changes meanwhile, it makes no difference what each query can see of it.
  lemma BaseReadUndisturbed(c: Codec, s: P.Store, s': P.Store, path: Path, other: Path, v: View)
    requires P.GoodStore(s) && P.Settled(s, path) && OpenReader(s.docs, path).Some?
    requires P.GoodStore(s') && other != path && P.SameElsewhere(s, s', other)
    requires v.docs == s'.docs && forall i: nat :: |s.docs| <= v.seen(i)
    ensures Parsed(c.parse, Walk(v, OpenReader(s.docs, path).value, 0, -1, 0)) == Parsed(c.parse, P.Content(s, path))
  {
    var r := OpenReader(s.docs, path).value;
    assert v.docs[..|s.docs|] == s.docs;
    LastEndIsLength(s.docs, path, r.id);
    SnapshotIsolation(v, |s.docs|, path, 0);
    assert P.Untouched(s, s', path);
    var now := Seen(v, 0);
    assert now == v.docs[..|now|];
    VersionPrefix(v.docs, |now|, path, r.id);
    assert Walk(v, r, 0, -1, 0) == P.Content(s, path);
  }

  // ----------------------------------------------------------- the invariant

  // Whenever the cached table would be used, it is the filtered base table.
  ghost predicate CacheRight(c: Codec, s: P.Store, path: Path, f: Filter)
    requires Active(f)
  {
    var base, cached := OpenReader(s.docs, path), OpenReader(s.docs, CachePath(path, f));
    base.Some? && Usable(cached, base.value) ==>
      Parsed(c.parse, P.Content(s, CachePath(path, f))) == Kept(c, f, Parsed(c.parse, P.Content(s, path)))
  }

  ghost predicate CacheGood(c: Codec, s: P.Store, path: Path, f: Filter) {
    Active(f) ==> P.Settled(s, CachePath(path, f)) && CacheRight(c, s, path, f)
  }

  datatype System = System(store: P.Store, writer: Option<P.Writer>)

  ghost predicate BaseGood(path: Path, sys: System) {
    && P.GoodStore(sys.store) && P.Settled(sys.store, path)
    && (sys.writer.Some? ==> sys.writer.value.path == path && P.GoodWriter(sys.store, sys.writer.value))
  }

  ghost predicate Inv(c: Codec, path: Path, sys: System) {
    && BaseGood(path, sys)
    && forall f :: CacheGood(c, sys.store, path, f)
  }

  // Base writes that publish anything make the base newer than every cache.
  lemma BaseWritten(c: Codec, s: P.Store, s': P.Store, path: Path, f: Filter)
    requires P.GoodStore(s) && CacheGood(c, s, path, f)
    requires P.SameElsewhere(s, s', path)
    requires GetMetadata(s'.docs, path).timestamp > s.clock || s'.docs == s.docs
    ensures CacheGood(c, s', path, f)
  {
    if Active(f) {
      CachePathInjective(path, f, f);
      assert P.Untouched(s, s', CachePath(path, f));
      P.MetadataKnown(s, CachePath(path, f));
    }
  }

  // Building the cache for one filter leaves the base and all others alone.
  lemma OtherBuilt(c: Codec, s: P.Store, s': P.Store, path: Path, f: Filter, g: Filter)
    requires Active(f) && f != g && CacheGood(c, s, path, g)
    requires P.SameElsewhere(s, s', CachePath(path, f))
    ensures CacheGood(c, s', path, g)
  {
    if Active(g) {
      CachePathInjective(path, f, g);
      assert P.Untouched(s, s', CachePath(path, g));
      assert P.Untouched(s, s', path);
    }
  }

  // What a build has written when it is closed or aborted.
  lemma BuildGood(c: Codec, s: P.Store, path: Path, base: Pinned, f: Filter, config: P.Limits,
                  cancel: Option<nat>, pick: seq<Doc> -> nat)
    requires ValidCodec(c) && Active(f)
    requires P.GoodStore(s) && P.Settled(s, path) && P.Settled(s, CachePath(path, f))
    requires OpenReader(s.docs, path) == Some(base)
    ensures var (s', w) := Build(c, s, path, base, f, config, cancel, pick);
      && P.GoodStore(s') && P.GoodWriter(s', w) && w.path == CachePath(path, f)
      && P.AllRows(s', w) == Encoded(c, Kept(c, f, Limited(Parsed(c.parse, P.Content(s, path)), cancel)))
      && w.md.totalRows == 0 && s.clock < w.md.timestamp
      && P.SameElsewhere(s, s', CachePath(path, f))
  {
    RowsOfContent(c, s, path, pick);
    P.OpenWriterGood(s, CachePath(path, f), true, config);
    var (s1, w1) := P.OpenWriter(s, CachePath(path, f), true, config);
    var rows := Limited(Parsed(c.parse, P.Content(s, path)), cancel);
    WriteKeptGood(c, f, s1, w1, rows);
    var s2 := WriteKept(c, f, s1, w1, rows).0;
    P.SameElsewhereTransitive(s, s1, s2, CachePath(path, f));
    assert [] + Encoded(c, Kept(c, f, rows)) == Encoded(c, Kept(c, f, rows));
  }

  // A completed build leaves a usable cache holding exactly the kept rows.
  lemma CompleteBuild(c: Codec, s: P.Store, path: Path, base: Pinned, f: Filter, config: P.Limits, pick: seq<Doc> -> nat)
    requires ValidCodec(c) && Active(f)
    requires P.GoodStore(s) && P.Settled(s, path) && P.Settled(s, CachePath(path, f))
    requires OpenReader(s.docs, path) == Some(base)
    ensures var (s', w) := Build(c, s, path, base, f, config, None, pick);
      var s'' := P.Flush(s', w).0;
      && P.GoodStore(s'') && P.Settled(s'', CachePath(path, f))
      && OpenReader(s''.docs, CachePath(path, f)).Some?
      && Parsed(c.parse, P.Content(s'', CachePath(path, f))) == Kept(c, f, Parsed(c.parse, P.Content(s, path)))
      && P.SameElsewhere(s, s'', CachePath(path, f))
  {
    BuildGood(c, s, path, base, f, config, None, pick);
    var (s', w) := Build(c, s, path, base, f, config, None, pick);
    P.CloseGood(s', w);
    P.SameElsewhereTransitive(s, s', P.Flush(s', w).0, CachePath(path, f));
    ParsedEncoded(c, Kept(c, f, Parsed(c.parse, P.Content(s, path))));
  }

  // A build cancelled after `n` base rows does no harm: rows were still buffered,
  // so aborting could mark the table incomplete, or no later row is kept.
  ghost predicate AbortSafe(c: Codec, s: P.Store, path: Path, base: Pinned, f: Filter, config: P.Limits,
                            n: nat, pick: seq<Doc> -> nat)
    requires Active(f)
  {
    || Build(c, s, path, base, f, config, Some(n), pick).1.bufferedRows > 0
    || Kept(c, f, Unconsumed(Parsed(c.parse, P.Content(s, path)), n)) == []
  }

  function Unconsumed(rows: seq<Row>, n: nat): seq<Row> {
    if n < |rows| then rows[n..] else []
  }

  lemma ConsumedKept(c: Codec, f: Filter, rows: seq<Row>, n: nat)
    requires Active(f)
    ensures Kept(c, f, rows) == Kept(c, f, Limited(rows, Some(n))) + Kept(c, f, Unconsumed(rows, n))
  {
    KeptAppend(c, f, Limited(rows, Some(n)), Unconsumed(rows, n));
    assert Limited(rows, Some(n)) + Unconsumed(rows, n) == rows;
  }

  // The abort leaves a correct cache exactly when it is safe.
  lemma AbortExact(c: Codec, s: P.Store, path: Path, base: Pinned, f: Filter, config: P.Limits,
                   n: nat, pick: seq<Doc> -> nat)
    requires ValidCodec(c) && Active(f)
    requires P.GoodStore(s) && P.Settled(s, path) && P.Settled(s, CachePath(path, f))
    requires OpenReader(s.docs, path) == Some(base)
    ensures var (s', w) := Build(c, s, path, base, f, config, Some(n), pick);
      var s'' := P.Abort(s', w).0;
      && P.GoodStore(s'') && P.SameElsewhere(s, s'', CachePath(path, f))
      && (CacheGood(c, s'', path, f) <==> AbortSafe(c, s, path, base, f, config, n, pick))
  {
    var tp := CachePath(path, f);
    BuildGood(c, s, path, base, f, config, Some(n), pick);
    var (s', w) := Build(c, s, path, base, f, config, Some(n), pick);
    var s'' := P.Abort(s', w).0;
    CachePathInjective(path, f, f);
    assert P.Untouched(s, s', path);
    if w.bufferedRows > 0 {
      P.FlushGood(s', P.Marked(w));
      P.SameElsewhereTransitive(s, s', s'', tp);
    } else {
      var rows := Parsed(c.parse, P.Content(s, path));
      var got := Kept(c, f, Limited(rows, Some(n)));
      assert Lines(w.buff) == [] && P.AllRows(s', w) == P.Content(s', tp);
      ParsedEncoded(c, got);
      ConsumedKept(c, f, rows, n);
      P.MetadataKnown(s, path);
      assert Usable(OpenReader(s''.docs, tp), OpenReader(s''.docs, path).value);
      assert Kept(c, f, Unconsumed(rows, n)) == [] <==> got + Kept(c, f, Unconsumed(rows, n)) == got;
    }
  }

  // ---------------------------------------------------------------- whole runs

  datatype Event =
    | BaseOpen(truncate: bool, config: P.Limits)
    | BaseOp(op: P.Op)
    | BaseClose
    | BaseAbort
    | Read(filter: Filter, config: P.Limits, cancel: Option<nat>, pick: seq<Doc> -> nat)

  function Step(c: Codec, path: Path, sys: System, e: Event): System {
    match e
    case BaseOpen(truncate, config) =>
      var (s, w) := P.OpenWriter(sys.store, path, truncate, config);
      System(s, Some(w))
    case BaseOp(op) =>
      if sys.writer.None? then sys
      else var (s, w) := P.Apply(sys.store, sys.writer.value, op); System(s, Some(w))
    case BaseClose =>
      if sys.writer.None? then sys else System(P.Flush(sys.store, sys.writer.value).0, None)
    case BaseAbort =>
      if sys.writer.None? then sys else System(P.Abort(sys.store, sys.writer.value).0, None)
    case Read(f, config, cancel, pick) =>
      System(FilteredRead(c, sys.store, path, f, config, cancel, pick).0, sys.writer)
  }

  // Rows are serialised and counted properly, and every cancelled build is
  // cancelled at a safe moment.
  ghost predicate Allowed(c: Codec, path: Path, sys: System, e: Event) {
    match e
    case BaseOp(op) => P.ValidOp(op)
    case Read(f, config, cancel, pick) =>
      var base := OpenReader(sys.store.docs, path);
      base.Some? && Active(f) && cancel.Some? ==>
        AbortSafe(c, sys.store, path, base.value, f, config, cancel.value, pick)
    case _ => true
  }

  // A base write concerns the base alone, and if it publishes anything the base
  // becomes newer than all before.
  lemma BaseStepGood(c: Codec, path: Path, sys: System, e: Event)
    requires BaseGood(path, sys) && !e.Read? && Allowed(c, path, sys, e)
    ensures var s, sys' := sys.store, Step(c, path, sys, e);
      && BaseGood(path, sys') && P.SameElsewhere(s, sys'.store, path)
      && (GetMetadata(sys'.store.docs, path).timestamp > s.clock || sys'.store.docs == s.docs)
  {
    var s := sys.store;
    match e {
      case BaseOpen(truncate, config) =>
        P.OpenWriterGood(s, path, truncate, config);
      case BaseOp(op) =>
        if sys.writer.Some? { P.ApplyGood(s, sys.writer.value, op); }
      case BaseClose =>
        if sys.writer.Some? && sys.writer.value.bufferedRows > 0 { P.FlushGood(s, sys.writer.value); }
      case BaseAbort =>
        if sys.writer.Some? && sys.writer.value.bufferedRows > 0 {
          var w := sys.writer.value;
          P.FlushGood(s, P.Marked(w));
        }
    }
  }

  // Everything written to the base so far, stored or still buffered.
  function BaseRows(path: Path, sys: System): seq<string> {
    match sys.writer
    case Some(w) => P.AllRows(sys.store, w)
    case None => P.Content(sys.store, path)
  }

  // What a base write does to it: truncating starts from nothing, appending from what
  // is stored, a write adds its lines, and closing stores everything.
  lemma BaseStepWrites(c: Codec, path: Path, sys: System, e: Event)
    requires BaseGood(path, sys) && !e.Read? && Allowed(c, path, sys, e)
    ensures var sys' := Step(c, path, sys, e);
      match e
      case BaseOpen(truncate, _) =>
        sys'.writer.Some? && BaseRows(path, sys') == if truncate then [] else P.Content(sys.store, path)
      case BaseOp(op) =>
        BaseRows(path, sys') == if sys.writer.Some? then BaseRows(path, sys) + P.OpLines(op) else BaseRows(path, sys)
      case BaseClose => sys'.writer.None? && P.Content(sys'.store, path) == BaseRows(path, sys)
      case BaseAbort => sys'.writer.None? && P.Content(sys'.store, path) == BaseRows(path, sys)
      case _ => true
  {
    var s := sys.store;
    match e {
      case BaseOpen(truncate, config) => P.OpenWriterGood(s, path, truncate, config);
      case BaseOp(op) => if sys.writer.Some? { P.ApplyGood(s, sys.writer.value, op); }
      case BaseClose => if sys.writer.Some? { P.CloseGood(s, sys.writer.value); }
      case BaseAbort => if sys.writer.Some? { AbortStores(s, sys.writer.value); }
      case _ =>
    }
  }

  // Aborting stores what is buffered and marks the set, and does nothing else.
  lemma AbortStores(s: P.Store, w: P.Writer)
    requires P.GoodStore(s) && P.GoodWriter(s, w)
    ensures var s' := P.Abort(s, w).0;
      && P.Content(s', w.path) == P.AllRows(s, w)
      && (if w.bufferedRows > 0 then OpenReader(s'.docs, w.path).None? else s' == s)
  {
    if w.bufferedRows > 0 {
      P.FlushGood(s, P.Marked(w));
    } else {
      assert Lines(w.buff) == [] && P.AllRows(s, w) == P.Content(s, w.path);
    }
  }

  lemma BaseStepKeeps(c: Codec, path: Path, sys: System, e: Event)
    requires Inv(c, path, sys) && !e.Read? && Allowed(c, path, sys, e)
    ensures Inv(c, path, Step(c, path, sys, e))
  {
    BaseStepGood(c, path, sys, e);
    forall f ensures CacheGood(c, Step(c, path, sys, e).store, path, f) {
      BaseWritten(c, sys.store, Step(c, path, sys, e).store, path, f);
    }
  }

  lemma ReadStepKeeps(c: Codec, path: Path, sys: System, e: Event)
    requires ValidCodec(c)
    requires Inv(c, path, sys) && e.Read? && Allowed(c, path, sys, e)
    ensures Inv(c, path, Step(c, path, sys, e))
  {
    var s, f := sys.store, e.filter;
    var base := OpenReader(s.docs, path);
    if base.Some? && Active(f) && !Usable(OpenReader(s.docs, CachePath(path, f)), base.value) {
      var s' := Step(c, path, sys, e).store;
      assert CacheGood(c, s, path, f);
      CachePathInjective(path, f, f);
      if e.cancel.Some? {
        AbortExact(c, s, path, base.value, f, e.config, e.cancel.value, e.pick);
      } else {
        CompleteBuild(c, s, path, base.value, f, e.config, e.pick);
      }
      assert P.Untouched(s, s', path);
      forall g ensures CacheGood(c, s', path, g) {
        if g != f { OtherBuilt(c, s, s', path, f, g); }
      }
    }
  }

  function RunEvents(c: Codec, path: Path, events: seq<Event>): System {
    if events == [] then System(P.EMPTY_STORE, None)
    else Step(c, path, RunEvents(c, path, events[..|events| - 1]), events[|events| - 1])
  }

  ghost predicate AllowedRun(c: Codec, path: Path, events: seq<Event>) {
    events == [] ||
    (var before := events[..|events| - 1];
     && AllowedRun(c, path, before)
     && Allowed(c, path, RunEvents(c, path, before), events[|events| - 1]))
  }

  lemma {:induction false} RunKeeps(c: Codec, path: Path, events: seq<Event>)
    requires ValidCodec(c) && AllowedRun(c, path, events)
    ensures Inv(c, path, RunEvents(c, path, events))
  {
    if events != [] {
      var before, e := events[..|events| - 1], events[|events| - 1];
      RunKeeps(c, path, before);
      var sys := RunEvents(c, path, before);
      if e.Read? { ReadStepKeeps(c, path, sys, e); } else { BaseStepKeeps(c, path, sys, e); }
    }
  }

  // Cache agreement: after every run of base writes, filtered reads and safely
  // cancelled builds, a filtered read that completes delivers exactly the base
  // rows the filter keeps, in base order, whether or not it hits the cache; it
  // fails only when the base cannot be opened.
  lemma FilteredReadAgrees(c: Codec, path: Path, events: seq<Event>, f: Filter,
                           config: P.Limits, pick: seq<Doc> -> nat)
    requires ValidCodec(c) && AllowedRun(c, path, events) && Active(f)
    ensures var s := RunEvents(c, path, events).store;
      var (s', result) := FilteredRead(c, s, path, f, config, None, pick);
      && (result.Ok? <==> OpenReader(s.docs, path).Some?)
      && (result.Ok? ==>
            RowsOf(c, s'.docs, result.value, pick) == Kept(c, f, Parsed(c.parse, P.Content(s, path))))
  {
    RunKeeps(c, path, events);
    var s := RunEvents(c, path, events).store;
    assert CacheGood(c, s, path, f);
    var base := OpenReader(s.docs, path);
    if base.Some? {
      if Usable(OpenReader(s.docs, CachePath(path, f)), base.value) {
        RowsOfContent(c, s, CachePath(path, f), pick);
      } else {
        CompleteBuild(c, s, path, base.value, f, config, pick);
        var s' := FilteredRead(c, s, path, f, config, None, pick).0;
        RowsOfContent(c, s', CachePath(path, f), pick);
      }
    }
  }

  // A read whose build is cancelled delivers nothing; one that finds a usable table
  // does not build.
  lemma CancelledRead(c: Codec, s: P.Store, path: Path, f: Filter, config: P.Limits, n: nat, pick: seq<Doc> -> nat)
    requires Active(f) && OpenReader(s.docs, path).Some?
    ensures var cached := OpenReader(s.docs, CachePath(path, f));
      var (s', result) := FilteredRead(c, s, path, f, config, Some(n), pick);
      if cached.Some? && OpenReader(s.docs, path).value.mtime < cached.value.mtime
      then s' == s && result == Ok(cached.value)
      else result.Err?
  {
  }

  // ------------------------------------------------------ runs in terms of writes

  predicate WriterOpen(events: seq<Event>) {
    events != [] &&
    match events[|events| - 1]
    case BaseOpen(_, _) => true
    case BaseClose => false
    case BaseAbort => false
    case _ => WriterOpen(events[..|events| - 1])
  }

  // What the events write to the base, without any notion of stores or caches.
  function WrittenTo(events: seq<Event>): seq<string> {
    if events == [] then []
    else
      var earlier := events[..|events| - 1];
      match events[|events| - 1]
      case BaseOpen(truncate, _) => if truncate then [] else WrittenTo(earlier)
      case BaseOp(op) => if WriterOpen(earlier) then WrittenTo(earlier) + P.OpLines(op) else WrittenTo(earlier)
      case _ => WrittenTo(earlier)
  }

  // A writer is opened only when none is open.
  ghost predicate OneWriter(events: seq<Event>) {
    events == [] ||
    (OneWriter(events[..|events| - 1]) && (events[|events| - 1].BaseOpen? ==> !WriterOpen(events[..|events| - 1])))
  }

  lemma ReadLeavesBase(c: Codec, path: Path, sys: System, e: Event)
    requires ValidCodec(c) && Inv(c, path, sys) && e.Read? && Allowed(c, path, sys, e)
    ensures var sys' := Step(c, path, sys, e);
      sys'.writer == sys.writer && P.Untouched(sys.store, sys'.store, path)
  {
    var s, f := sys.store, e.filter;
    var base := OpenReader(s.docs, path);
    if base.Some? && Active(f) && !Usable(OpenReader(s.docs, CachePath(path, f)), base.value) {
      assert CacheGood(c, s, path, f);
      CachePathInjective(path, f, f);
      if e.cancel.Some? {
        AbortExact(c, s, path, base.value, f, e.config, e.cancel.value, e.pick);
      } else {
        CompleteBuild(c, s, path, base.value, f, e.config, e.pick);
      }
    }
  }

  // After every run the base holds, stored or buffered, what was written to it since
  // it was last truncated.
  lemma {:induction false} RunWrites(c: Codec, path: Path, events: seq<Event>)
    requires ValidCodec(c) && AllowedRun(c, path, events) && OneWriter(events)
    ensures RunEvents(c, path, events).writer.Some? <==> WriterOpen(events)
    ensures BaseRows(path, RunEvents(c, path, events)) == WrittenTo(events)
  {
    if events != [] {
      var before, e := events[..|events| - 1], events[|events| - 1];
      RunWrites(c, path, before);
      RunKeeps(c, path, before);
      var sys := RunEvents(c, path, before);
      if e.Read? { ReadLeavesBase(c, path, sys, e); } else { BaseStepWrites(c, path, sys, e); }
    }
  }

  // So a filtered read between sessions delivers exactly what the filter keeps of the
  // rows written since the last truncation.
  lemma FilteredReadOfWritten(c: Codec, path: Path, events: seq<Event>, f: Filter,
                              config: P.Limits, pick: seq<Doc> -> nat)
    requires ValidCodec(c) && AllowedRun(c, path, events) && OneWriter(events) && !WriterOpen(events) && Active(f)
    ensures var s := RunEvents(c, path, events).store;
      var (s', result) := FilteredRead(c, s, path, f, config, None, pick);
      result.Ok? ==> RowsOf(c, s'.docs, result.value, pick) == Kept(c, f, Parsed(c.parse, WrittenTo(events)))
  {
    RunWrites(c, path, events);
    FilteredReadAgrees(c, path, events, f, config, pick);
  }

  // Without a filter the base itself is read, and nothing is written.
  lemma UnfilteredRead(c: Codec, path: Path, events: seq<Event>, f: Filter,
                       config: P.Limits, cancel: Option<nat>, pick: seq<Doc> -> nat)
    requires ValidCodec(c) && AllowedRun(c, path, events) && (f.column == "" || f.regex.None?)
    ensures var s := RunEvents(c, path, events).store;
      var (s', result) := FilteredRead(c, s, path, f, config, cancel, pick);
      && s' == s && (result.Ok? <==> OpenReader(s.docs, path).Some?)
      && (result.Ok? ==> RowsOf(c, s.docs, result.value, pick) == Parsed(c.parse, P.Content(s, path)))
  {
    RunKeeps(c, path, events);
    var s := RunEvents(c, path, events).store;
    if OpenReader(s.docs, path).Some? { RowsOfContent(c, s, path, pick); }
  }

  // Cancelled builds are not always safe: with three kept rows, two rows to a
  // packet and a cancellation after the second row, the abort finds its buffer
  // empty, records nothing, and the two rows already stored pass for the whole
  // filtered table.
  lemma UnsafeAbort(c: Codec, s: P.Store, path: Path, base: Pinned, f: Filter, r: Row, pick: seq<Doc> -> nat)
    requires ValidCodec(c) && Active(f) && Keeps(c, f, r)
    requires P.GoodStore(s) && P.Settled(s, path) && P.Settled(s, CachePath(path, f))
    requires OpenReader(s.docs, path) == Some(base)
    requires Parsed(c.parse, P.Content(s, path)) == [r, r, r]
    ensures var config := P.Limits(1, 2 * |c.encode(r)| + 2);
      var (s', w) := Build(c, s, path, base, f, config, Some(2), pick);
      && w.bufferedRows == 0
      && !CacheGood(c, P.Abort(s', w).0, path, f)
  {
    var config := P.Limits(1, 2 * |c.encode(r)| + 2);
    RowsOfContent(c, s, path, pick);
    var (s0, w0) := P.OpenWriter(s, CachePath(path, f), true, config);
    var (s1, w1) := P.Write(s0, w0, c.encode(r));
    var (s2, w2) := P.Write(s1, w1, c.encode(r));
    assert w1.bufferedRows == 1 && w2.bufferedRows == 0;
    assert Limited([r, r, r], Some(2)) == [r, r] && [r, r][1..] == [r] && [r][1..] == [];
    assert WriteKept(c, f, s1, w1, [r]) == (s2, w2);
    assert Unconsumed([r, r, r], 2) == [r];
    AbortExact(c, s, path, base, f, config, 2, pick);
  }
}
