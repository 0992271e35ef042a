// The objects that do the work: the index, the buffering writer and the packet
// reader. Each method is proved against the transition it implements.
module ResultSetObjects {
  import opened Jsonl
  import opened Sequences
  import opened Wrappers
  import opened ResultSets
  import P = ResultSetProtocol

  class Index {
    var docs: seq<Doc>
    var clock: nat
    var nextId: nat

    function State(): P.Store reads this {
      P.Store(docs, clock, nextId)
    }

    constructor ()
      ensures State() == P.EMPTY_STORE
    {
      docs, clock, nextId := [], 0, LEGACY_ID + 1;
    }

    method Add(doc: Doc)
      modifies this`docs
      ensures docs == old(docs) + [doc]
    {
      docs := docs + [doc];
    }

    method NewId() returns (id: nat)
      modifies this`nextId
      ensures id == old(nextId) && nextId == id + 1
    {
      id := nextId;
      nextId := nextId + 1;
    }

    method SetResultSetMetadata(path: Path, md: Metadata) returns (stamped: Metadata)
      modifies this
      ensures (State(), stamped) == P.SetMetadata(old(State()), path, md)
    {
      clock := clock + 1;
      stamped := md.(timestamp := clock);
      Add(Meta(path, stamped));
    }
  }

  class ResultSetWriter {
    const index: Index
    const path: Path
    const version: nat
    const limits: P.Limits
    var md: Metadata
    var startRow: int
    var buff: string
    var bufferedRows: nat

    function State(): P.Writer reads this {
      P.Writer(path, version, md, startRow, buff, bufferedRows, limits)
    }

    constructor (index: Index, path: Path, truncate: bool, config: P.Limits)
      modifies index
      ensures this.index == index
      ensures (index.State(), State()) == P.OpenWriter(old(index.State()), path, truncate, config)
    {
      var newId := index.NewId();
      var md := Metadata(index.clock, newId, 0, 0);
      if truncate {
        md := index.SetResultSetMetadata(path, md);
      } else {
        md := GetMetadata(index.docs, path);
      }
      this.index, this.path, this.version, this.md := index, path, md.id, md;
      startRow, buff, bufferedRows := md.endRow, "", 0;
      limits := P.EffectiveLimits(config);
    }

    // Store the lines as a single document. When that fails, as the next `failures`
    // attempts will, the set is aborted.
    method WritePacket(serialized: string, totalRows: nat, failures: nat := 0)
      modifies this, index
      ensures failures == 0 ==>
        && index.State() == old(index.State()).(
             docs := old(index.docs) + [Packet(path, version, old(startRow), startRow, serialized)])
        && State() == old(State()).(startRow := old(startRow) + totalRows, md := old(md).(endRow := startRow))
      ensures failures > 0 ==>
        (index.State(), State()) == P.FlushAttempts(
          old(index.State()), P.Marked(old(State()).(startRow := old(startRow) + totalRows)), failures - 1)
      decreases failures, 0
    {
      var record := Packet(path, version, startRow, startRow + totalRows, serialized);
      startRow := record.endRow;
      md := md.(endRow := record.endRow);
      if failures > 0 {
        Abort(failures - 1);
        return;
      }
      index.Add(record);
    }

    method Flush(failures: nat := 0)
      modifies this, index
      ensures (index.State(), State()) == P.FlushAttempts(old(index.State()), old(State()), failures)
      decreases failures, 1
    {
      if bufferedRows == 0 { return; }
      WritePacket(buff, bufferedRows, failures);
      buff, bufferedRows := "", 0;
      md := index.SetResultSetMetadata(path, md);
    }

    method WriteJSONL(serialized: string, totalRows: nat, failures: nat := 0)
      modifies this, index
      ensures (index.State(), State()) ==
        P.WriteAttempts(old(index.State()), old(State()), serialized, totalRows, failures)
    {
      buff := buff + serialized;
      bufferedRows := bufferedRows + totalRows;
      if bufferedRows > limits.rowsPerResultSet || |buff| > limits.maxSizePerPacket {
        Flush(failures);
      }
    }

    // A row that does not serialise is dropped.
    method Write(row: Option<string>, failures: nat := 0)
      modifies this, index
      ensures (index.State(), State()) ==
        if row.None? then old((index.State(), State()))
        else P.WriteAttempts(old(index.State()), old(State()), row.value + "\n", 1, failures)
    {
      if row.None? { return; }
      buff := buff + row.value;
      buff := buff + "\n";
      bufferedRows := bufferedRows + 1;
      assert old(buff) + row.value + "\n" == old(buff) + (row.value + "\n");
      if bufferedRows > limits.rowsPerResultSet || |buff| > limits.maxSizePerPacket {
        Flush(failures);
      }
    }

    method Close(failures: nat := 0)
      modifies this, index
      ensures (index.State(), State()) == P.FlushAttempts(old(index.State()), old(State()), failures)
      decreases failures, 2
    {
      Flush(failures);
    }

    method Abort(failures: nat := 0)
      modifies this, index
      ensures (index.State(), State()) == P.FlushAttempts(old(index.State()), P.Marked(old(State())), failures)
      decreases failures, 3
    {
      md := md.(totalRows := -1);
      md := md.(endRow := -1);
      Close(failures);
    }
  }

  // A parsed row: the text of each of its columns.
  type Row = map<string, string>

  // The row of a parsable line.
  function ParsedLine(parse: string -> Option<Row>, line: string): seq<Row> {
    match parse(line)
    case Some(row) => [row]
    case None => []
  }

  // The parsable lines, parsed.
  function Parsed(parse: string -> Option<Row>, lines: seq<string>): seq<Row> {
    if lines == [] then []
    else Parsed(parse, lines[..|lines| - 1]) + ParsedLine(parse, lines[|lines| - 1])
  }

  lemma ParsedSnoc(parse: string -> Option<Row>, lines: seq<string>, line: string)
    ensures Parsed(parse, lines + [line]) == Parsed(parse, lines) + ParsedLine(parse, line)
  {
    assert (lines + [line])[..|lines|] == lines;
  }

  lemma {:induction false} ParsedAppend(parse: string -> Option<Row>, a: seq<string>, b: seq<string>)
    ensures Parsed(parse, a + b) == Parsed(parse, a) + Parsed(parse, b)
  {
    if b == [] {
      assert a + b == a;
    } else {
      var front, last := b[..|b| - 1], b[|b| - 1];
      assert b == front + [last] && a + b == (a + front) + [last];
      ParsedAppend(parse, a, front);
      ParsedSnoc(parse, a + front, last);
      ParsedSnoc(parse, front, last);
    }
  }

  // Exactly the lines that parse are delivered, in order; the others are dropped.
  lemma {:induction false} ParsedExact(parse: string -> Option<Row>, lines: seq<string>) returns (at: seq<nat>)
    ensures PicksAt(parse, lines, Parsed(parse, lines), at)
  {
    if lines == [] {
      at := [];
    } else {
      var before, last := lines[..|lines| - 1], lines[|lines| - 1];
      assert lines == before + [last];
      at := ParsedExact(parse, before);
      PicksSnoc(parse, before, last, Parsed(parse, before), at);
      if parse(last).Some? { at := at + [|before|]; }
    }
  }

  // What the inner loops still have to emit of a packet: the lines of `rest`,
  // which starts at `startRow`, from `row` on.
  ghost function Remaining(rest: string, startRow: int, row: int): seq<string>
    requires startRow <= row
  {
    After(Lines(rest), row - startRow)
  }

  lemma ReadLine(rest: string, startRow: int, row: int) returns (left: seq<string>)
    requires startRow <= row && rest != ""
    ensures var n := LineLength(rest);
      if startRow < row then
        left == Remaining(rest[n..], startRow + 1, row) == Remaining(rest, startRow, row)
      else
        left == Remaining(rest[n..], startRow + 1, row + 1) && Remaining(rest, startRow, row) == [rest[..n]] + left
  {
    left := Remaining(rest[LineLength(rest)..], startRow + 1, if startRow < row then row else row + 1);
  }

  lemma RowsStep(v: View, r: Pinned, row: int, last: int, n: nat, p: Doc, parse: string -> Option<Row>)
    returns (left: seq<Row>)
    requires last != row && !(r.endRow > 0 && row >= r.endRow)
    requires GetPacket(v, n, r.path, r.id, row) == Some(p)
    ensures left == Parsed(parse, Walk(v, r, NextRow(p, row), row, n + 1))
    ensures Parsed(parse, Walk(v, r, row, last, n)) == Parsed(parse, Taken(p, row)) + left
  {
    WalkStep(v, r, row, last, n, p);
    ParsedAppend(parse, Taken(p, row), Walk(v, r, NextRow(p, row), row, n + 1));
    left := Parsed(parse, Walk(v, r, NextRow(p, row), row, n + 1));
  }

  class ResultSetReader {
    const pinned: Pinned
    var row: int

    constructor (pinned: Pinned)
      ensures this.pinned == pinned && row == 0
    {
      this.pinned := pinned;
      row := 0;
    }

    method SeekToRow(start: int)
      modifies this
      ensures row == start
    {
      row := start;
    }

    function TotalRows(): int {
      pinned.endRow
    }

    // The inner loop of JSON: skip to the wanted row, then take every line.
    method PacketLines(packet: Doc) returns (out: seq<string>)
      requires packet.Packet? && packet.startRow <= row
      modifies this
      ensures out == Taken(packet, old(row)) && row == NextRow(packet, old(row))
    {
      out := [];
      var startRow := packet.startRow;
      var rest := packet.data;
      ghost var left := Remaining(rest, startRow, row);
      while rest != ""
        invariant startRow <= row == old(row) + |out|
        invariant left == Remaining(rest, startRow, row)
        invariant out + left == Taken(packet, old(row))
        decreases |rest|
      {
        left := ReadLine(rest, startRow, row);
        var line := rest[..LineLength(rest)];
        rest := rest[LineLength(rest)..];
        if startRow < row {
          startRow := startRow + 1;
          continue;
        }
        row := row + 1;
        startRow := startRow + 1;
        Associative(out, [line], left);
        out := out + [line];
      }
    }

    // The inner loop of Rows: the same, but a line that does not parse is
    // counted and dropped.
    method PacketRows(packet: Doc, parse: string -> Option<Row>) returns (rows: seq<Row>, ghost taken: seq<string>)
      requires packet.Packet? && packet.startRow <= row
      modifies this
      ensures taken == Taken(packet, old(row)) && row == NextRow(packet, old(row))
      ensures rows == Parsed(parse, taken)
    {
      rows, taken := [], [];
      var startRow := packet.startRow;
      var rest := packet.data;
      ghost var left := Remaining(rest, startRow, row);
      while rest != ""
        invariant startRow <= row == old(row) + |taken|
        invariant left == Remaining(rest, startRow, row)
        invariant taken + left == Taken(packet, old(row))
        invariant rows == Parsed(parse, taken)
        decreases |rest|
      {
        left := ReadLine(rest, startRow, row);
        var line := rest[..LineLength(rest)];
        rest := rest[LineLength(rest)..];
        if startRow < row {
          startRow := startRow + 1;
          continue;
        }
        row := row + 1;
        startRow := startRow + 1;
        Associative(taken, [line], left);
        ParsedSnoc(parse, taken, line);
        taken := taken + [line];
        rows := rows + ParsedLine(parse, line);
      }
    }

    // Emits the raw lines of every packet from the current row on. When the context is
    // cancelled after `limit` lines, nobody receives the others.
    method JSON(v: View, limit: Option<nat> := None) returns (out: seq<string>)
      modifies this
      ensures out == Limited(Walk(v, pinned, old(row), -1, 0), limit)
    {
      out := [];
      var lastRow, n := -1, 0;
      ghost var goal := Walk(v, pinned, row, -1, 0);
      ghost var left := goal;
      while true
        invariant left == Walk(v, pinned, row, lastRow, n)
        invariant out + left == goal
        decreases Distance(v.docs, row), if lastRow == row then 0 else 1
      {
        if lastRow == row { break; }
        if pinned.endRow > 0 && row >= pinned.endRow { break; }
        var got := GetPacket(v, n, pinned.path, pinned.id, row);
        if got.None? { break; }
        WalkStep(v, pinned, row, lastRow, n, got.value);
        Progress(v.docs, got.value, row);
        lastRow := row;
        var taken := PacketLines(got.value);
        left := Walk(v, pinned, row, lastRow, n + 1);
        Associative(out, taken, left);
        out := out + taken;
        n := n + 1;
      }
      assert out == goal;
      out := Limited(out, limit);
    }

    // The same walk, delivering parsed rows and dropping what does not parse.
    method Rows(v: View, parse: string -> Option<Row>, limit: Option<nat> := None) returns (rows: seq<Row>)
      modifies this
      ensures rows == Limited(Parsed(parse, Walk(v, pinned, old(row), -1, 0)), limit)
      ensures limit.None? ==> Picks(parse, Walk(v, pinned, old(row), -1, 0), rows)
    {
      rows := [];
      var lastRow, n := -1, 0;
      ghost var goal := Parsed(parse, Walk(v, pinned, row, -1, 0));
      ghost var left := goal;
      while true
        invariant left == Parsed(parse, Walk(v, pinned, row, lastRow, n))
        invariant rows + left == goal
        decreases Distance(v.docs, row), if lastRow == row then 0 else 1
      {
        if lastRow == row { break; }
        if pinned.endRow > 0 && row >= pinned.endRow { break; }
        var got := GetPacket(v, n, pinned.path, pinned.id, row);
        if got.None? { break; }
        left := RowsStep(v, pinned, row, lastRow, n, got.value, parse);
        Progress(v.docs, got.value, row);
        lastRow := row;
        var more, taken := PacketRows(got.value, parse);
        Associative(rows, more, left);
        rows := rows + more;
        n := n + 1;
      }
      assert rows == goal;
      rows := Limited(rows, limit);
      ghost var at := ParsedExact(parse, Walk(v, pinned, old(row), -1, 0));
    }
  }

  // Every history, run on the objects themselves and read back from any row.
  method WriteThenRead(path: Path, history: seq<P.Session>, pick: seq<Doc> -> nat, start: int)
    returns (total: int, out: seq<string>)
    requires P.ValidHistory(history)
    ensures total == |P.Written(history)|
    ensures out == if start < 0 then [] else After(P.Written(history), start)
  {
    var index := new Index();
    for i := 0 to |history|
      invariant index.State() == P.Run(path, history[..i])
    {
      var session := history[i];
      ghost var before := index.State();
      assert history[..i + 1][..i] == history[..i];
      var writer := new ResultSetWriter(index, path, session.truncate, session.config);
      ghost var atOpen := (index.State(), writer.State());
      for j := 0 to |session.ops|
        invariant P.ApplyAll(index.State(), writer.State(), session.ops[j..]) == P.ApplyAll(atOpen.0, atOpen.1, session.ops)
        invariant writer.index == index
      {
        assert session.ops[j..][1..] == session.ops[j + 1..];
        match session.ops[j] {
          case WriteRow(json) => writer.Write(Some(json));
          case WriteBatch(text, rows) => writer.WriteJSONL(text, rows);
          case FlushBuffer => writer.Flush();
        }
      }
      writer.Close();
    }
    assert history[..|history|] == history;
    var count := |index.docs|;
    var v := View(index.docs, _ => count, pick);
    P.ReadBack(path, history, v, start);
    var reader := new ResultSetReader(OpenReader(index.docs, path).value);
    reader.SeekToRow(start);
    total := reader.TotalRows();
    out := reader.JSON(v);
  }
}
