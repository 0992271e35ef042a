// A filtered table built while its base table is being written.
module FilterRaces {
  import opened Jsonl
  import opened Wrappers
  import opened ResultSets
  import opened ResultSetObjects
  import opened FilterCache
  import P = ResultSetProtocol

  // The store and the base writer, the writer of the filtered table, and the rows
  // the base reader still has to deliver.
  datatype Building = Building(sys: System, writer: P.Writer, left: seq<Row>)

  // The build takes a row, or something happens to the base.
  datatype Move = TakeRow | BaseMove(e: Event)

  function StartBuild(sys: System, path: Path, f: Filter, config: P.Limits, rows: seq<Row>): Building
    requires Active(f)
  {
    var (s, w) := P.OpenWriter(sys.store, CachePath(path, f), true, config);
    Building(sys.(store := s), w, rows)
  }

  function MakeMove(c: Codec, path: Path, f: Filter, b: Building, m: Move): Building
    requires Active(f)
  {
    match m
    case TakeRow =>
      if b.left == [] then b
      else
        var (s, w) := WriteKept(c, f, b.sys.store, b.writer, [b.left[0]]);
        Building(b.sys.(store := s), w, b.left[1..])
    case BaseMove(e) => b.(sys := Step(c, path, b.sys, e))
  }

  function MakeMoves(c: Codec, path: Path, f: Filter, b: Building, moves: seq<Move>): Building
    requires Active(f)
  {
    if moves == [] then b
    else MakeMove(c, path, f, MakeMoves(c, path, f, b, moves[..|moves| - 1]), moves[|moves| - 1])
  }

  // Base writes only, with rows serialised and counted properly.
  ghost predicate ValidMove(m: Move) {
    m.BaseMove? ==> !m.e.Read? && (m.e.BaseOp? ==> P.ValidOp(m.e.op))
  }

  // The build and the base writer have not disturbed each other.
  ghost predicate Undisturbed(c: Codec, path: Path, f: Filter, b: Building, rows: seq<Row>)
    requires Active(f)
  {
    && BaseGood(path, b.sys)
    && P.GoodWriter(b.sys.store, b.writer) && b.writer.path == CachePath(path, f)
    && b.writer.md.totalRows == 0
    && |b.left| <= |rows| && b.left == rows[|rows| - |b.left|..]
    && P.AllRows(b.sys.store, b.writer) == Encoded(c, Kept(c, f, rows[..|rows| - |b.left|]))
  }

  lemma StartUndisturbed(c: Codec, sys: System, path: Path, f: Filter, config: P.Limits, rows: seq<Row>)
    requires Active(f) && BaseGood(path, sys) && P.Settled(sys.store, CachePath(path, f))
    ensures Undisturbed(c, path, f, StartBuild(sys, path, f, config, rows), rows)
  {
    CachePathInjective(path, f, f);
    P.OpenWriterGood(sys.store, CachePath(path, f), true, config);
    var s := StartBuild(sys, path, f, config, rows).sys.store;
    assert P.Untouched(sys.store, s, path);
    assert rows[..0] == [] && rows[|rows| - |rows|..] == rows;
  }

  lemma EncodedAppend(c: Codec, a: seq<Row>, b: seq<Row>)
    ensures Encoded(c, a + b) == Encoded(c, a) + Encoded(c, b)
  {
    if a == [] {
      assert a + b == b;
    } else {
      assert (a + b)[1..] == a[1..] + b;
      EncodedAppend(c, a[1..], b);
    }
  }

  // One more row of the base has been dealt with.
  lemma OneMoreRow(c: Codec, f: Filter, rows: seq<Row>, left: seq<Row>)
    requires Active(f) && left != [] && |left| <= |rows| && left == rows[|rows| - |left|..]
    ensures left[1..] == rows[|rows| - |left[1..]|..]
    ensures Encoded(c, Kept(c, f, rows[..|rows| - |left|])) + Encoded(c, Kept(c, f, [left[0]]))
         == Encoded(c, Kept(c, f, rows[..|rows| - |left[1..]|]))
  {
    var n, row := |rows| - |left|, left[0];
    assert rows[..n + 1] == rows[..n] + [row];
    KeptAppend(c, f, rows[..n], [row]);
    EncodedAppend(c, Kept(c, f, rows[..n]), Kept(c, f, [row]));
  }

  lemma WriterElsewhere(s: P.Store, s': P.Store, w: P.Writer)
    requires P.GoodWriter(s, w) && P.Untouched(s, s', w.path)
    ensures P.GoodWriter(s', w) && P.AllRows(s', w) == P.AllRows(s, w)
  {
  }

  lemma BaseElsewhere(path: Path, sys: System, s': P.Store)
    requires BaseGood(path, sys) && P.GoodStore(s') && P.Untouched(sys.store, s', path)
    ensures BaseGood(path, sys.(store := s'))
  {
    if sys.writer.Some? { WriterElsewhere(sys.store, s', sys.writer.value); }
  }

  lemma TakeUndisturbed(c: Codec, path: Path, f: Filter, b: Building, rows: seq<Row>)
    requires ValidCodec(c) && Active(f) && Undisturbed(c, path, f, b, rows) && b.left != []
    ensures Undisturbed(c, path, f, MakeMove(c, path, f, b, TakeRow), rows)
  {
    CachePathInjective(path, f, f);
    WriteKeptGood(c, f, b.sys.store, b.writer, [b.left[0]]);
    BaseElsewhere(path, b.sys, WriteKept(c, f, b.sys.store, b.writer, [b.left[0]]).0);
    OneMoreRow(c, f, rows, b.left);
  }

  lemma BaseUndisturbed(c: Codec, path: Path, f: Filter, b: Building, rows: seq<Row>, e: Event)
    requires Active(f) && Undisturbed(c, path, f, b, rows) && ValidMove(BaseMove(e))
    ensures Undisturbed(c, path, f, MakeMove(c, path, f, b, BaseMove(e)), rows)
  {
    BaseStepGood(c, path, b.sys, e);
    BaseChanged(c, path, f, b, rows, Step(c, path, b.sys, e));
  }

  lemma BaseChanged(c: Codec, path: Path, f: Filter, b: Building, rows: seq<Row>, sys': System)
    requires Active(f) && Undisturbed(c, path, f, b, rows)
    requires BaseGood(path, sys') && P.SameElsewhere(b.sys.store, sys'.store, path)
    ensures Undisturbed(c, path, f, b.(sys := sys'), rows)
  {
    CachePathInjective(path, f, f);
    WriterElsewhere(b.sys.store, sys'.store, b.writer);
  }

  lemma {:induction false} MovesUndisturbed(c: Codec, path: Path, f: Filter, b: Building, rows: seq<Row>, moves: seq<Move>)
    requires ValidCodec(c) && Active(f) && Undisturbed(c, path, f, b, rows)
    requires forall m :: m in moves ==> ValidMove(m)
    ensures Undisturbed(c, path, f, MakeMoves(c, path, f, b, moves), rows)
  {
    if moves != [] {
      var before, m := moves[..|moves| - 1], moves[|moves| - 1];
      MovesUndisturbed(c, path, f, b, rows, before);
      assert m in moves;
      var b' := MakeMoves(c, path, f, b, before);
      match m {
        case TakeRow => if b'.left != [] { TakeUndisturbed(c, path, f, b', rows); }
        case BaseMove(e) => BaseUndisturbed(c, path, f, b', rows, e);
      }
    }
  }

  // Closing the build now does no harm: the base cannot be read, or the filter keeps
  // of it what the build has seen, or nothing is buffered and the base has been
  // published since the filtered table was.
  ghost predicate CloseSafe(c: Codec, path: Path, f: Filter, b: Building, rows: seq<Row>)
    requires Active(f)
  {
    var s := b.sys.store;
    || OpenReader(s.docs, path).None?
    || Kept(c, f, Parsed(c.parse, P.Content(s, path))) == Kept(c, f, rows)
    || (b.writer.bufferedRows == 0 && b.writer.md.timestamp <= GetMetadata(s.docs, path).timestamp)
  }

  // What closing leaves: the base as it was, and the kept rows in the filtered
  // table, which is newer than the base if anything was still buffered.
  lemma Closed(c: Codec, path: Path, f: Filter, b: Building, rows: seq<Row>) returns (s': P.Store)
    requires ValidCodec(c) && Active(f) && Undisturbed(c, path, f, b, rows) && b.left == []
    ensures s' == P.Flush(b.sys.store, b.writer).0 && P.GoodStore(s') && P.Untouched(b.sys.store, s', path)
    ensures var md := GetMetadata(s'.docs, CachePath(path, f));
      && md.totalRows == 0 && md.endRow == |P.Content(s', CachePath(path, f))|
      && (if b.writer.bufferedRows > 0 then GetMetadata(b.sys.store.docs, path).timestamp < md.timestamp
          else md.timestamp == b.writer.md.timestamp)
    ensures Parsed(c.parse, P.Content(s', CachePath(path, f))) == Kept(c, f, rows)
  {
    var s := b.sys.store;
    s' := P.Flush(s, b.writer).0;
    CachePathInjective(path, f, f);
    P.CloseGood(s, b.writer);
    P.MetadataKnown(s, path);
    AllKept(c, f, b, rows);
  }

  lemma AllKept(c: Codec, f: Filter, b: Building, rows: seq<Row>)
    requires ValidCodec(c) && Active(f) && b.left == []
    requires P.AllRows(b.sys.store, b.writer) == Encoded(c, Kept(c, f, rows[..|rows| - |b.left|]))
    ensures Parsed(c.parse, P.AllRows(b.sys.store, b.writer)) == Kept(c, f, rows)
  {
    assert rows[..|rows|] == rows;
    ParsedEncoded(c, Kept(c, f, rows));
  }

  lemma CloseExact(c: Codec, path: Path, f: Filter, b: Building, rows: seq<Row>)
    requires ValidCodec(c) && Active(f) && Undisturbed(c, path, f, b, rows) && b.left == []
    ensures CacheGood(c, P.Flush(b.sys.store, b.writer).0, path, f) <==> CloseSafe(c, path, f, b, rows)
  {
    var s' := Closed(c, path, f, b, rows);
    assert P.Content(s', path) == P.Content(b.sys.store, path);
  }

  // However base writes and the build interleave, the build leaves a correct cache
  // if and only if it is safe to close when it does.
  lemma InterleavedExact(c: Codec, sys: System, path: Path, f: Filter, config: P.Limits, rows: seq<Row>, moves: seq<Move>)
    requires ValidCodec(c) && Active(f) && BaseGood(path, sys) && P.Settled(sys.store, CachePath(path, f))
    requires forall m :: m in moves ==> ValidMove(m)
    requires MakeMoves(c, path, f, StartBuild(sys, path, f, config, rows), moves).left == []
    ensures var b := MakeMoves(c, path, f, StartBuild(sys, path, f, config, rows), moves);
      CacheGood(c, P.Flush(b.sys.store, b.writer).0, path, f) <==> CloseSafe(c, path, f, b, rows)
  {
    var b := StartBuild(sys, path, f, config, rows);
    StartUndisturbed(c, sys, path, f, config, rows);
    MovesUndisturbed(c, path, f, b, rows, moves);
    CloseExact(c, path, f, MakeMoves(c, path, f, b, moves), rows);
  }

  // ------------------------------------------------------ reading during a build

  // What is stored, buffered and still to be taken make up the kept rows.
  lemma StoredSoFar(c: Codec, path: Path, f: Filter, b: Building, rows: seq<Row>) returns (stored: seq<Row>)
    requires ValidCodec(c) && Active(f) && Undisturbed(c, path, f, b, rows)
    ensures stored == Parsed(c.parse, P.Content(b.sys.store, CachePath(path, f))) && stored <= Kept(c, f, rows)
    ensures stored == Kept(c, f, rows) <==> b.writer.bufferedRows == 0 && Kept(c, f, b.left) == []
    ensures b.writer.bufferedRows == 0 ==> stored == Kept(c, f, rows[..|rows| - |b.left|])
  {
    var s, n := b.sys.store, |rows| - |b.left|;
    assert rows == rows[..n] + b.left;
    KeptAppend(c, f, rows[..n], b.left);
    stored := ParsedPrefix(c, P.Content(s, b.writer.path), Lines(b.writer.buff), Kept(c, f, rows[..n]), Kept(c, f, b.left));
  }

  lemma ParsedPrefix(c: Codec, content: seq<string>, buffer: seq<string>, taken: seq<Row>, rest: seq<Row>)
    returns (stored: seq<Row>)
    requires ValidCodec(c) && content + buffer == Encoded(c, taken)
    ensures stored == Parsed(c.parse, content) && stored <= taken + rest
    ensures stored == taken + rest <==> buffer == [] && rest == []
    ensures buffer == [] ==> stored == taken
  {
    EncodedLength(c, taken);
    stored := taken[..|content|];
    EncodedPrefix(c, taken, content);
    ParsedEncoded(c, stored);
  }

  lemma {:induction false} EncodedLength(c: Codec, rows: seq<Row>)
    ensures |Encoded(c, rows)| == |rows|
  {
    if rows != [] { EncodedLength(c, rows[1..]); }
  }

  lemma EncodedPrefix(c: Codec, rows: seq<Row>, lines: seq<string>)
    requires lines <= Encoded(c, rows) && |Encoded(c, rows)| == |rows|
    ensures lines == Encoded(c, rows[..|lines|])
  {
    var a, z := rows[..|lines|], rows[|lines|..];
    assert rows == a + z;
    EncodedAppend(c, a, z);
    EncodedLength(c, a);
  }

  // A filtered read that begins during a build of the same filter, on a base not
  // published since, takes the half-written table for the cached one. It delivers
  // what is stored so far, and that is right if and only if nothing is buffered and
  // no remaining row is kept.
  lemma ReadDuringBuild(c: Codec, path: Path, f: Filter, b: Building, rows: seq<Row>,
                        config: P.Limits, cancel: Option<nat>, pick: seq<Doc> -> nat)
    requires ValidCodec(c) && Active(f) && Undisturbed(c, path, f, b, rows)
    requires OpenReader(b.sys.store.docs, path).Some?
    requires GetMetadata(b.sys.store.docs, path).timestamp < b.writer.md.timestamp
    requires Parsed(c.parse, P.Content(b.sys.store, path)) == rows
    ensures var s := b.sys.store;
      var (s', result) := FilteredRead(c, s, path, f, config, cancel, pick);
      && s' == s && result.Ok? && RowsOf(c, s.docs, result.value, pick) <= Kept(c, f, rows)
      && (RowsOf(c, s.docs, result.value, pick) == Kept(c, f, rows) <==>
            b.writer.bufferedRows == 0 && Kept(c, f, b.left) == [])
  {
    var s, tp := b.sys.store, CachePath(path, f);
    var stored := StoredSoFar(c, path, f, b, rows);
    assert OpenReader(s.docs, tp).Some? && Usable(OpenReader(s.docs, tp), OpenReader(s.docs, path).value);
    RowsOfContent(c, s, tp, pick);
  }

  // So a read right after another has begun its build delivers nothing at all.
  lemma ReadAtStartEmpty(c: Codec, s: P.Store, path: Path, f: Filter, rows: seq<Row>,
                         config: P.Limits, cancel: Option<nat>, pick: seq<Doc> -> nat)
    requires ValidCodec(c) && Active(f) && BaseGood(path, System(s, None)) && P.Settled(s, CachePath(path, f))
    requires OpenReader(s.docs, path).Some? && Parsed(c.parse, P.Content(s, path)) == rows
    ensures var s1 := StartBuild(System(s, None), path, f, config, rows).sys.store;
      var (s2, result) := FilteredRead(c, s1, path, f, config, cancel, pick);
      result.Ok? && RowsOf(c, s2.docs, result.value, pick) == []
  {
    var b := StartBuild(System(s, None), path, f, config, rows);
    StartUndisturbed(c, System(s, None), path, f, config, rows);
    BaseAtStart(s, path, f, config, rows);
    StartNewer(s, path, f, config, rows);
    ReadDuringBuild(c, path, f, b, rows, config, cancel, pick);
    var stored := StoredSoFar(c, path, f, b, rows);
    assert rows[..0] == [];
    RowsOfContent(c, b.sys.store, CachePath(path, f), pick);
  }

  // The filtered table is newer than the base as soon as it is opened.
  lemma StartNewer(s: P.Store, path: Path, f: Filter, config: P.Limits, rows: seq<Row>)
    requires Active(f) && P.GoodStore(s) && P.Settled(s, CachePath(path, f))
    ensures var b := StartBuild(System(s, None), path, f, config, rows);
      && GetMetadata(b.sys.store.docs, path).timestamp < b.writer.md.timestamp
      && b.writer.bufferedRows == 0
  {
    CachePathInjective(path, f, f);
    P.OpenWriterGood(s, CachePath(path, f), true, config);
    P.MetadataKnown(s, path);
    assert P.Untouched(s, StartBuild(System(s, None), path, f, config, rows).sys.store, path);
  }

  // ----------------------------------------------------- writing during a build

  // The rows the base reader delivers to the build: on a non-empty base those that
  // were there when it was opened, whatever is written meanwhile.
  lemma RowsPinned(c: Codec, s: P.Store, path: Path, base: Pinned, v: View)
    requires P.GoodStore(s) && P.Settled(s, path) && OpenReader(s.docs, path) == Some(base) && base.endRow > 0
    requires GoodDocs(v.docs) && s.docs <= v.docs && forall i: nat :: |s.docs| <= v.seen(i)
    ensures Parsed(c.parse, Walk(v, base, 0, -1, 0)) == Parsed(c.parse, P.Content(s, path))
  {
    assert v.docs[..|s.docs|] == s.docs;
    LastEndIsLength(s.docs, path, base.id);
    SnapshotIsolation(v, |s.docs|, path, 0);
    assert Walk(v, base, 0, -1, 0) == P.Content(s, path);
  }

  // If the last row that the build takes is kept and the base differs by then in
  // what the filter keeps of it, the filtered table is wrong and passes for right.
  lemma StaleBuild(c: Codec, path: Path, f: Filter, b: Building, rows: seq<Row>)
    requires ValidCodec(c) && Active(f) && Undisturbed(c, path, f, b, rows)
    requires |b.left| == 1 && Keeps(c, f, b.left[0])
    requires OpenReader(b.sys.store.docs, path).Some?
    requires Kept(c, f, Parsed(c.parse, P.Content(b.sys.store, path))) != Kept(c, f, rows)
    ensures var b' := MakeMove(c, path, f, b, TakeRow);
      b'.left == [] && !CacheGood(c, P.Flush(b'.sys.store, b'.writer).0, path, f)
  {
    var s, row := b.sys.store, b.left[0];
    var b' := MakeMove(c, path, f, b, TakeRow);
    TakeUndisturbed(c, path, f, b, rows);
    CachePathInjective(path, f, f);
    WriteKeptGood(c, f, s, b.writer, [row]);
    assert P.Untouched(s, b'.sys.store, path);
    P.MetadataKnown(s, path);
    assert [row][1..] == [];
    assert (b'.sys.store, b'.writer) == P.Write(s, b.writer, c.encode(row));
    CloseExact(c, path, f, b', rows);
  }

  // One row is appended to the base.
  lemma AppendRow(c: Codec, path: Path, sys: System, config: P.Limits, json: string) returns (sys': System)
    requires BaseGood(path, sys) && '\n' !in json && OpenReader(sys.store.docs, path).Some?
    ensures var open := Step(c, path, sys, BaseOpen(false, config));
      sys' == Step(c, path, Step(c, path, open, BaseOp(P.WriteRow(json))), BaseClose)
    ensures P.Content(sys'.store, path) == P.Content(sys.store, path) + [json + "\n"]
    ensures OpenReader(sys'.store.docs, path).Some?
  {
    var (s1, w1) := P.OpenWriter(sys.store, path, false, config);
    P.OpenWriterGood(sys.store, path, false, config);
    P.ApplyGood(s1, w1, P.WriteRow(json));
    var (s2, w2) := P.Apply(s1, w1, P.WriteRow(json));
    P.CloseGood(s2, w2);
    sys' := System(P.Flush(s2, w2).0, None);
  }

  // That happens: one kept row is appended to the base after the build has begun
  // and before it takes its only row.
  lemma AppendDuringBuild(c: Codec, s: P.Store, path: Path, f: Filter, config: P.Limits, r: Row)
    requires ValidCodec(c) && Active(f) && Keeps(c, f, r)
    requires BaseGood(path, System(s, None)) && P.Settled(s, CachePath(path, f))
    requires OpenReader(s.docs, path).Some? && Parsed(c.parse, P.Content(s, path)) == [r]
    ensures var start := StartBuild(System(s, None), path, f, config, [r]);
      var b := MakeMoves(c, path, f, start, Appending(c, config, r));
      b.left == [] && !CacheGood(c, P.Flush(b.sys.store, b.writer).0, path, f)
  {
    var b := AppendedBuild(c, s, path, f, config, r);
    AppendMoves(c, path, f, StartBuild(System(s, None), path, f, config, [r]), config, r);
    StaleBuild(c, path, f, b, [r]);
  }

  lemma KeptTwice(c: Codec, f: Filter, r: Row, lines: seq<string>, line: string)
    requires Active(f) && Keeps(c, f, r) && Parsed(c.parse, lines) == [r] && c.parse(line) == Some(r)
    ensures Kept(c, f, Parsed(c.parse, lines + [line])) != Kept(c, f, [r])
  {
    ParsedSnoc(c.parse, lines, line);
    KeptAppend(c, f, [r], [r]);
    assert [r][1..] == [];
    assert |Kept(c, f, [r])| == 1;
  }

  // The build when the row has been appended.
  lemma AppendedBuild(c: Codec, s: P.Store, path: Path, f: Filter, config: P.Limits, r: Row) returns (b: Building)
    requires ValidCodec(c) && Active(f) && Keeps(c, f, r)
    requires BaseGood(path, System(s, None)) && P.Settled(s, CachePath(path, f))
    requires OpenReader(s.docs, path).Some? && Parsed(c.parse, P.Content(s, path)) == [r]
    ensures b == MakeMoves(c, path, f, StartBuild(System(s, None), path, f, config, [r]), Appending(c, config, r)[..3])
    ensures Undisturbed(c, path, f, b, [r]) && b.left == [r] && OpenReader(b.sys.store.docs, path).Some?
    ensures Kept(c, f, Parsed(c.parse, P.Content(b.sys.store, path))) != Kept(c, f, [r])
  {
    var start, json := StartBuild(System(s, None), path, f, config, [r]), c.encode(r);
    StartUndisturbed(c, System(s, None), path, f, config, [r]);
    BaseAtStart(s, path, f, config, [r]);
    b := AppendedMoves(c, path, f, start, config, r, [r]);
    KeptTwice(c, f, r, P.Content(s, path), json + "\n");
  }

  lemma AppendedMoves(c: Codec, path: Path, f: Filter, start: Building, config: P.Limits, r: Row, rows: seq<Row>)
    returns (b: Building)
    requires ValidCodec(c) && Active(f) && Undisturbed(c, path, f, start, rows)
    requires OpenReader(start.sys.store.docs, path).Some?
    ensures b == MakeMoves(c, path, f, start, Appending(c, config, r)[..3])
    ensures Undisturbed(c, path, f, b, rows) && b.left == start.left && OpenReader(b.sys.store.docs, path).Some?
    ensures P.Content(b.sys.store, path) == P.Content(start.sys.store, path) + [c.encode(r) + "\n"]
  {
    var sys' := AppendRow(c, path, start.sys, config, c.encode(r));
    b := start.(sys := sys');
    AppendMoves(c, path, f, start, config, r);
    var moves := Appending(c, config, r)[..3];
    forall m | m in moves ensures ValidMove(m) {
    }
    MovesUndisturbed(c, path, f, start, rows, moves);
  }

  // Opening the filtered table leaves the base as it is.
  lemma BaseAtStart(s: P.Store, path: Path, f: Filter, config: P.Limits, rows: seq<Row>)
    requires Active(f) && P.GoodStore(s) && P.Settled(s, CachePath(path, f))
    ensures var s' := StartBuild(System(s, None), path, f, config, rows).sys.store;
      P.Content(s', path) == P.Content(s, path) && (OpenReader(s.docs, path).Some? <==> OpenReader(s'.docs, path).Some?)
  {
    CachePathInjective(path, f, f);
    P.OpenWriterGood(s, CachePath(path, f), true, config);
    assert P.Untouched(s, StartBuild(System(s, None), path, f, config, rows).sys.store, path);
  }

  function Appending(c: Codec, config: P.Limits, r: Row): seq<Move> {
    [BaseMove(BaseOpen(false, config)), BaseMove(BaseOp(P.WriteRow(c.encode(r)))), BaseMove(BaseClose), TakeRow]
  }

  lemma AppendMoves(c: Codec, path: Path, f: Filter, b: Building, config: P.Limits, r: Row)
    requires Active(f)
    ensures var moves := Appending(c, config, r);
      && MakeMoves(c, path, f, b, moves[..3]) ==
           b.(sys := Step(c, path, Step(c, path, Step(c, path, b.sys, BaseOpen(false, config)),
                                        BaseOp(P.WriteRow(c.encode(r)))), BaseClose))
      && MakeMoves(c, path, f, b, moves) == MakeMove(c, path, f, MakeMoves(c, path, f, b, moves[..3]), TakeRow)
  {
    var moves := Appending(c, config, r);
    var b1 := b.(sys := Step(c, path, b.sys, BaseOpen(false, config)));
    var b2 := b1.(sys := Step(c, path, b1.sys, BaseOp(P.WriteRow(c.encode(r)))));
    assert moves[..3][..2] == moves[..2] && moves[..2][..1] == moves[..1] && moves[..1][..0] == [];
    assert MakeMoves(c, path, f, b, moves[..1]) == b1;
    assert MakeMoves(c, path, f, b, moves[..2]) == b2;
  }
}
