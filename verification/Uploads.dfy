// Uploading a file in numbered parts through a fixed size buffer, and sparse
// files with an index of their ranges.
module Uploads {
  import opened Wrappers

  newtype Byte = b: int | 0 <= b < 256

  datatype Part = Part(number: nat, data: seq<Byte>)

  // The status message sent after each part and at the end.
  datatype FileBuffer = FileBuffer(
    offset: nat, size: nat, storedSize: nat, dataLength: nat, eof: bool, isSparse: bool)

  // A run of the source file.
  datatype Range = Range(offset: nat, length: nat, isSparse: bool)

  datatype IndexRange = IndexRange(fileOffset: nat, originalOffset: nat, fileLength: nat, length: nat)

  // All bytes received, in the order of the parts.
  function Stored(parts: seq<Part>): seq<Byte> {
    if parts == [] then [] else Stored(parts[..|parts| - 1]) + parts[|parts| - 1].data
  }

  function Numbers(parts: seq<Part>): (numbers: seq<nat>)
    ensures |numbers| == |parts|
    ensures forall i :: 0 <= i < |parts| ==> numbers[i] == parts[i].number
  {
    seq(|parts|, i requires 0 <= i < |parts| => parts[i].number)
  }

  lemma StoredSnoc(parts: seq<Part>, p: Part)
    ensures Stored(parts + [p]) == Stored(parts) + p.data
  {
    assert (parts + [p])[..|parts|] == parts;
  }

  // Parts are numbered 1, 2, ... in the order they were sent.
  ghost predicate Numbered(parts: seq<Part>) {
    forall i :: 0 <= i < |parts| ==> parts[i].number == i + 1
  }

  // The stored size reported before message i.
  function ReportedBefore(messages: seq<FileBuffer>, i: nat): nat
    requires i <= |messages|
  {
    if i == 0 then 0 else messages[i - 1].storedSize
  }

  // The messages tile the stored bytes: each starts where the previous ended.
  ghost predicate Tile(messages: seq<FileBuffer>, end: nat) {
    && (forall i :: 0 <= i < |messages| ==> TileAt(messages, i))
    && end == ReportedBefore(messages, |messages|)
  }

  ghost predicate TileAt(messages: seq<FileBuffer>, i: nat)
    requires i < |messages|
  {
    && messages[i].offset == ReportedBefore(messages, i)
    && messages[i].storedSize == messages[i].offset + messages[i].dataLength
  }

  // Message i reports part i.
  ghost predicate Reports(messages: seq<FileBuffer>, parts: seq<Part>) {
    && |messages| == |parts|
    && forall i :: 0 <= i < |parts| ==> messages[i].dataLength == |parts[i].data| && !messages[i].eof
  }

  lemma TileSnoc(messages: seq<FileBuffer>, end: nat, m: FileBuffer)
    requires Tile(messages, end) && m.offset == end && m.storedSize == end + m.dataLength
    ensures Tile(messages + [m], m.storedSize)
  {
    var all := messages + [m];
    forall i | 0 <= i < |all| ensures TileAt(all, i) {
      if i < |messages| { assert TileAt(messages, i); }
    }
  }

  lemma NumbersSnoc(parts: seq<Part>, p: Part)
    ensures Numbers(parts + [p]) == Numbers(parts) + [p.number]
  {
  }

  // The state of an open uploader.
  ghost predicate Open(sent: seq<Part>, parts: seq<nat>, offset: nat, messages: seq<FileBuffer>) {
    && Numbered(sent) && parts == Numbers(sent)
    && offset == |Stored(sent)| && Tile(messages, offset) && Reports(messages, sent)
  }

  lemma PartAdded(sent: seq<Part>, parts: seq<nat>, offset: nat, messages: seq<FileBuffer>, p: Part, m: FileBuffer)
    requires Open(sent, parts, offset, messages) && p.number == |sent| + 1
    requires m.offset == offset && m.dataLength == |p.data| && m.storedSize == offset + |p.data| && !m.eof
    ensures Open(sent + [p], parts + [p.number], offset + |p.data|, messages + [m])
  {
    StoredSnoc(sent, p);
    NumbersSnoc(sent, p);
    TileSnoc(messages, offset, m);
  }

  class Uploader {
    // What the server has received.
    var sent: seq<Part>
    var commits: seq<seq<nat>>
    var messages: seq<FileBuffer>
    // The uploader's own state.
    var part: nat
    var parts: seq<nat>
    var offset: nat
    var size: nat
    var index: Option<seq<IndexRange>>
    var closed: bool

    ghost predicate Valid() reads this {
      && part == |sent| + 1
      && if closed then
           // Exactly one commit, of all the parts, and one EOF message, the last.
           && commits == [parts] && messages != []
           && messages[|messages| - 1].eof && messages[|messages| - 1].dataLength == 0
           && Open(sent, parts, offset, messages[..|messages| - 1]) && Tile(messages, offset)
         else
           commits == [] && Open(sent, parts, offset, messages)
    }

    constructor (size: nat)
      ensures Valid() && !closed && sent == [] && this.size == size && index == None
    {
      sent, commits, messages := [], [], [];
      part, parts, offset, closed := 1, [], 0, false;
      this.size := size;
      index := None;
    }

    method Put(buf: seq<Byte>)
      requires Valid() && !closed
      modifies this
      ensures Valid() && !closed
      ensures sent == old(sent) + [Part(old(part), buf)]
      ensures size == old(size) && index == old(index)
    {
      ghost var m := FileBuffer(offset, size, offset + |buf|, |buf|, false, index.Some?);
      PartAdded(sent, parts, offset, messages, Part(part, buf), m);
      sent := sent + [Part(part, buf)];
      parts := parts + [part];
      part := part + 1;
      UpdateServerStat(false, |buf|);
      offset := offset + |buf|;
    }

    method UpdateServerStat(eof: bool, bufferSize: nat)
      modifies this`messages
      ensures messages == old(messages) +
        [FileBuffer(offset, size, offset + bufferSize, bufferSize, eof, index.Some?)]
    {
      messages := messages + [FileBuffer(offset, size, offset + bufferSize, bufferSize, eof, index.Some?)];
    }

    // The size becomes the end of the last range.
    method SetIndex(ranges: seq<IndexRange>)
      requires Valid()
      modifies this
      ensures Valid() && closed == old(closed) && sent == old(sent) && commits == old(commits) && messages == old(messages)
      ensures ranges == [] ==> index == old(index) && size == old(size)
      ensures ranges != [] ==>
        && index == Some(ranges)
        && size == ranges[|ranges| - 1].originalOffset + ranges[|ranges| - 1].length
    {
      if ranges == [] { return; }
      index := Some(ranges);
      var last := ranges[|ranges| - 1];
      size := last.originalOffset + last.length;
    }

    // Commits the first time, does nothing the next time.
    method Close()
      requires Valid()
      modifies this
      ensures Valid() && closed && sent == old(sent) && size == old(size) && index == old(index)
      ensures old(closed) ==> commits == old(commits) && messages == old(messages)
    {
      if closed { return; }
      closed := true;
      commits := commits + [parts];
      TileSnoc(messages, offset, FileBuffer(offset, size, offset, 0, true, index.Some?));
      UpdateServerStat(true, 0);
      assert messages[..|messages| - 1] == old(messages);
    }
  }

  // A source that may return fewer bytes than asked for, at any time. A steady one
  // returns none only at its end or when the read fails.
  class Reader {
    const source: seq<Byte>
    const steady: bool
    var pos: nat
    // How many reads returned no bytes, and how many of those failed.
    ghost var emptyReads: nat
    ghost var failedReads: nat

    constructor (source: seq<Byte>, steady: bool)
      ensures this.source == source && this.steady == steady && pos == 0
    {
      this.source, this.steady := source, steady;
      pos, emptyReads, failedReads := 0, 0, 0;
    }

    method Seek(offset: nat)
      modifies this`pos
      ensures pos == offset
    {
      pos := offset;
    }

    method Read(buf: array<Byte>, lo: nat, hi: nat) returns (n: nat, failed: bool)
      requires lo <= hi <= buf.Length
      modifies this, buf
      ensures n <= hi - lo && pos == old(pos) + n
      ensures n > 0 ==> pos <= |source| && buf[lo..lo + n] == source[old(pos)..pos]
      ensures buf[..lo] == old(buf[..lo])
      ensures emptyReads == old(emptyReads) + (if n == 0 then 1 else 0)
      ensures failedReads == old(failedReads) + (if n == 0 && failed then 1 else 0)
      ensures steady && lo < hi && n == 0 && !failed ==> |source| <= pos
    {
      var available := if pos < |source| then |source| - pos else 0;
      var most := if hi - lo < available then hi - lo else available;
      failed := *;
      n :| 0 <= n <= most && (steady && !failed && most > 0 ==> n > 0);
      var i := 0;
      while i < n
        invariant 0 <= i <= n
        invariant pos == old(pos) && emptyReads == old(emptyReads) && failedReads == old(failedReads)
        invariant forall k :: lo <= k < lo + i ==> buf[k] == source[pos + (k - lo)]
        invariant forall k :: 0 <= k < lo ==> buf[k] == old(buf[k])
      {
        buf[lo + i] := source[pos + i];
        i := i + 1;
      }
      if n > 0 {
        ghost var got, wanted := buf[lo..lo + n], source[pos..pos + n];
        forall k | 0 <= k < n ensures got[k] == wanted[k] {
          assert buf[lo + k] == source[pos + (lo + k - lo)];
        }
        assert got == wanted;
      }
      assert buf[..lo] == old(buf[..lo]);
      pos := pos + n;
      if n == 0 {
        emptyReads := emptyReads + 1;
        if failed { failedReads := failedReads + 1; }
      }
    }
  }

  // Every part so far is exactly one buffer long.
  ghost predicate FullParts(parts: seq<Part>, length: nat) {
    forall i :: 0 <= i < |parts| ==> |parts[i].data| == length
  }

  // The first parts are one buffer long and the last is at most that.
  ghost predicate Chunked(parts: seq<Part>, length: nat) {
    && parts != []
    && FullParts(parts[..|parts| - 1], length)
    && |parts[|parts| - 1].data| <= length
  }

  class BufferedWriter {
    const buf: array<Byte>
    const uploader: Uploader
    var bufIdx: nat
    var total: nat
    var sentFirstBuffer: bool

    // Everything copied so far: sent or still buffered.
    ghost function Copied(): seq<Byte>
      reads this, buf, uploader
      requires bufIdx <= buf.Length
    {
      Stored(uploader.sent) + buf[..bufIdx]
    }

    ghost predicate Valid() reads this, buf, uploader {
      && uploader.Valid() && !uploader.closed
      && bufIdx < buf.Length
      && FullParts(uploader.sent, buf.Length)
      && sentFirstBuffer == (uploader.sent != [])
      && total == |Copied()|
    }

    constructor (uploader: Uploader, length: nat)
      requires length > 0 && uploader.Valid() && !uploader.closed && uploader.sent == []
      ensures Valid() && this.uploader == uploader && fresh(buf) && buf.Length == length
      ensures Copied() == [] && total == 0
    {
      buf := new Byte[length](_ => 0);
      this.uploader := uploader;
      bufIdx, total, sentFirstBuffer := 0, 0, false;
    }

    method Flush()
      requires uploader.Valid() && !uploader.closed && bufIdx <= buf.Length
      modifies this, uploader
      ensures uploader.Valid() && !uploader.closed && bufIdx == 0 && sentFirstBuffer && total == old(total)
      ensures uploader.sent == old(uploader.sent) + [Part(old(uploader.part), old(buf[..bufIdx]))]
      ensures uploader.size == old(uploader.size) && uploader.index == old(uploader.index)
    {
      sentFirstBuffer := true;
      uploader.Put(buf[..bufIdx]);
      bufIdx := 0;
    }

    // Moves `length` bytes, unless a read returns none; fails if that read does.
    method Copy(reader: Reader, length: nat) returns (failed: bool)
      requires Valid()
      modifies this, buf, uploader, reader
      ensures Valid() && uploader.size == old(uploader.size) && uploader.index == old(uploader.index)
      ensures var moved := total - old(total);
        && 0 <= moved <= length && reader.pos == old(reader.pos) + moved
        && (moved == 0 ==> Copied() == old(Copied()))
        && (moved > 0 ==>
              && reader.pos <= |reader.source|
              && Copied() == old(Copied()) + reader.source[old(reader.pos)..reader.pos])
        && reader.emptyReads == old(reader.emptyReads) + (if moved < length then 1 else 0)
        && (reader.steady && !failed && moved < length ==> |reader.source| <= reader.pos)
      ensures reader.failedReads == old(reader.failedReads) + (if failed then 1 else 0)
    {
      var left := length;
      failed := false;
      while left > 0
        invariant Valid() && uploader.size == old(uploader.size) && uploader.index == old(uploader.index)
        invariant 0 <= left <= length && total == old(total) + (length - left)
        invariant reader.pos == old(reader.pos) + (length - left)
        invariant left < length ==>
          && reader.pos <= |reader.source|
          && Copied() == old(Copied()) + reader.source[old(reader.pos)..reader.pos]
        invariant left == length ==> Copied() == old(Copied())
        invariant reader.emptyReads == old(reader.emptyReads) && reader.failedReads == old(reader.failedReads)
        decreases left
      {
        var n, bad := Fill(reader, left);
        if n == 0 { failed := bad; return; }
        left := left - n;
      }
    }

    // Read into the free part of the buffer.
    method ReadSome(reader: Reader, left: nat) returns (n: nat, failed: bool)
      requires Valid() && left > 0
      modifies this, buf, reader
      ensures n <= left && bufIdx == old(bufIdx) + n <= buf.Length && sentFirstBuffer == old(sentFirstBuffer)
      ensures total == old(total) + n && reader.pos == old(reader.pos) + n
      ensures n == 0 ==> Copied() == old(Copied())
      ensures n > 0 ==>
        && reader.pos <= |reader.source|
        && Copied() == old(Copied()) + reader.source[old(reader.pos)..reader.pos]
      ensures reader.emptyReads == old(reader.emptyReads) + (if n == 0 then 1 else 0)
      ensures reader.failedReads == old(reader.failedReads) + (if n == 0 && failed then 1 else 0)
      ensures reader.steady && n == 0 && !failed ==> |reader.source| <= reader.pos
    {
      var toRead := if left > buf.Length - bufIdx then buf.Length - bufIdx else left;
      n, failed := reader.Read(buf, bufIdx, bufIdx + toRead);
      if n == 0 { return; }
      assert buf[..bufIdx + n] == buf[..bufIdx] + buf[bufIdx..bufIdx + n];
      total := total + n;
      bufIdx := bufIdx + n;
    }

    // One turn of the copy loop: a full buffer is flushed.
    method Fill(reader: Reader, left: nat) returns (n: nat, failed: bool)
      requires Valid() && left > 0
      modifies this, buf, uploader, reader
      ensures Valid() && uploader.size == old(uploader.size) && uploader.index == old(uploader.index)
      ensures n <= left && total == old(total) + n && reader.pos == old(reader.pos) + n
      ensures n == 0 ==> Copied() == old(Copied())
      ensures n > 0 ==>
        && reader.pos <= |reader.source|
        && Copied() == old(Copied()) + reader.source[old(reader.pos)..reader.pos]
      ensures reader.emptyReads == old(reader.emptyReads) + (if n == 0 then 1 else 0)
      ensures reader.failedReads == old(reader.failedReads) + (if n == 0 && failed then 1 else 0)
      ensures reader.steady && n == 0 && !failed ==> |reader.source| <= reader.pos
    {
      n, failed := ReadSome(reader, left);
      if bufIdx >= buf.Length {
        ghost var all := Copied();
        StoredSnoc(uploader.sent, Part(uploader.part, buf[..bufIdx]));
        Flush();
        assert buf[..bufIdx] == [];
        assert Copied() == all;
      }
    }

    // A single short buffer is sent whole; otherwise the rest is flushed, the
    // upload committed and closed.
    method Close()
      requires Valid()
      modifies this, uploader
      ensures uploader.Valid() && Stored(uploader.sent) == old(Copied())
      ensures Chunked(uploader.sent, buf.Length)
      ensures uploader.closed == old(sentFirstBuffer)
      ensures uploader.size == old(uploader.size) && uploader.index == old(uploader.index)
    {
      ghost var last := Part(uploader.part, buf[..bufIdx]);
      StoredSnoc(uploader.sent, last);
      if !sentFirstBuffer {
        uploader.Put(buf[..bufIdx]);
        assert uploader.sent[..|uploader.sent| - 1] == old(uploader.sent);
        return;
      }
      Flush();
      assert uploader.sent[..|uploader.sent| - 1] == old(uploader.sent);
      uploader.Close();
    }
  }

  // A finished upload: the bytes arrived in numbered parts, all but the last
  // one buffer long; the messages tile them; one commit and one EOF were sent.
  ghost predicate Finished(u: Uploader, content: seq<Byte>, length: nat)
    reads u
  {
    u.Valid() && u.closed && Stored(u.sent) == content && Chunked(u.sent, length)
  }

  const MAX_FILE_LENGTH: nat := 10 * 1000000000

  // Upload of a plain file; the uploader is closed again on the way out.
  method UploadPlain(uploader: Uploader, reader: Reader, bufferLength: nat) returns (failed: bool)
    requires bufferLength > 0 && uploader.Valid() && !uploader.closed && uploader.sent == []
    requires reader.pos == 0
    modifies uploader, reader
    ensures !failed ==>
      && reader.pos <= |reader.source| && reader.pos <= 10_000_000_000
      && Finished(uploader, reader.source[..reader.pos], bufferLength)
      && (reader.steady ==> reader.pos == |reader.source| || reader.pos == 10_000_000_000)
    ensures failed <==> reader.failedReads > old(reader.failedReads)
    ensures uploader.Valid() && uploader.closed
    ensures failed ==> FullParts(uploader.sent, bufferLength) && Stored(uploader.sent) <= reader.source
  {
    var buffer := new BufferedWriter(uploader, bufferLength);
    failed := buffer.Copy(reader, MAX_FILE_LENGTH);
    assert buffer.Copied() == if reader.pos == 0 then [] else reader.source[..reader.pos];
    if !failed { buffer.Close(); }
    uploader.Close();
  }
}
