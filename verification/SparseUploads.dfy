// Sparse files: only the non-sparse ranges are stored, and an index tells where
// each range of the original went.
module SparseUploads {
  import opened Wrappers
  import opened Uploads

  datatype Response = Response(size: nat, storedSize: nat)

  // ------------------------------------------------------------ specification

  function Slice(source: seq<Byte>, offset: nat, length: nat): seq<Byte> {
    if length == 0 || offset + length > |source| then [] else source[offset..offset + length]
  }

  // The bytes of the non-sparse ranges, one after the other.
  function Content(source: seq<Byte>, ranges: seq<Range>): seq<Byte> {
    if ranges == [] then []
    else
      var r := ranges[|ranges| - 1];
      Content(source, ranges[..|ranges| - 1]) + if r.isSparse then [] else Slice(source, r.offset, r.length)
  }

  function ExpectedSize(ranges: seq<Range>): nat {
    if ranges == [] then 0
    else
      var r := ranges[|ranges| - 1];
      ExpectedSize(ranges[..|ranges| - 1]) + if r.isSparse then 0 else r.length
  }

  // The largest end of a range.
  function RealSize(ranges: seq<Range>): nat {
    if ranges == [] then 0
    else
      var r, before := ranges[|ranges| - 1], RealSize(ranges[..|ranges| - 1]);
      if before < r.offset + r.length then r.offset + r.length else before
  }

  function IndexOf(ranges: seq<Range>): (index: seq<IndexRange>)
    ensures |index| == |ranges|
  {
    if ranges == [] then []
    else
      var r, before := ranges[|ranges| - 1], ranges[..|ranges| - 1];
      IndexOf(before) +
      [IndexRange(ExpectedSize(before), r.offset, if r.isSparse then 0 else r.length, r.length)]
  }

  predicate AnySparse(ranges: seq<Range>) {
    exists r :: r in ranges && r.isSparse
  }

  // ---------------------------------------------------------------- the loops

  // Inspect the ranges and prepare an index.
  method PrepareIndex(ranges: seq<Range>) returns (index: seq<IndexRange>, expectedSize: nat, realSize: nat, isSparse: bool)
    ensures index == IndexOf(ranges) && expectedSize == ExpectedSize(ranges)
    ensures realSize == RealSize(ranges) && isSparse == AnySparse(ranges)
  {
    index, expectedSize, realSize, isSparse := [], 0, 0, false;
    for i := 0 to |ranges|
      invariant index == IndexOf(ranges[..i]) && expectedSize == ExpectedSize(ranges[..i])
      invariant realSize == RealSize(ranges[..i])
      invariant isSparse <==> exists k :: 0 <= k < i && ranges[k].isSparse
    {
      var rng := ranges[i];
      assert ranges[..i + 1][..i] == ranges[..i];
      var fileLength := rng.length;
      if rng.isSparse { fileLength := 0; }
      index := index + [IndexRange(expectedSize, rng.offset, fileLength, rng.length)];
      if !rng.isSparse {
        expectedSize := expectedSize + rng.length;
      } else {
        isSparse := true;
      }
      if realSize < rng.offset + rng.length {
        realSize := rng.offset + rng.length;
      }
    }
    assert ranges[..|ranges|] == ranges;
  }

  // What has been copied is never more than expected, and if it is all that was
  // expected then it is the content of the ranges.
  ghost predicate CopiedSoFar(copied: seq<Byte>, source: seq<Byte>, ranges: seq<Range>) {
    && |copied| <= ExpectedSize(ranges)
    && (|copied| == ExpectedSize(ranges) ==> copied == Content(source, ranges))
  }

  // The ranges to be copied lie inside the source.
  predicate Inside(ranges: seq<Range>, source: seq<Byte>) {
    forall r :: r in ranges && !r.isSparse ==> r.offset + r.length <= |source|
  }

  // A steady reader delivers ranges inside its source in full.
  ghost predicate Delivered(copied: seq<Byte>, steady: bool, source: seq<Byte>, ranges: seq<Range>) {
    steady && Inside(ranges, source) ==> |copied| == ExpectedSize(ranges)
  }

  lemma DeliveredRange(copied: seq<Byte>, steady: bool, source: seq<Byte>, ranges: seq<Range>, r: Range, more: seq<Byte>)
    requires Delivered(copied, steady, source, ranges) && !r.isSparse
    requires steady && r.offset + r.length <= |source| ==> |more| == r.length
    ensures Delivered(copied + more, steady, source, ranges + [r])
  {
    assert (ranges + [r])[..|ranges|] == ranges;
    if Inside(ranges + [r], source) {
      assert r in ranges + [r] && forall q :: q in ranges ==> q in ranges + [r];
    }
  }

  lemma DeliveredSparse(copied: seq<Byte>, steady: bool, source: seq<Byte>, ranges: seq<Range>, r: Range)
    requires Delivered(copied, steady, source, ranges) && r.isSparse
    ensures Delivered(copied, steady, source, ranges + [r])
  {
    assert (ranges + [r])[..|ranges|] == ranges;
    if Inside(ranges + [r], source) {
      assert forall q :: q in ranges ==> q in ranges + [r];
    }
  }

  lemma CopiedRange(copied: seq<Byte>, source: seq<Byte>, ranges: seq<Range>, r: Range, more: seq<Byte>)
    requires CopiedSoFar(copied, source, ranges) && !r.isSparse
    requires |more| <= r.length && (|more| == r.length ==> more == Slice(source, r.offset, r.length))
    ensures CopiedSoFar(copied + more, source, ranges + [r])
  {
    assert (ranges + [r])[..|ranges|] == ranges;
  }

  method CopyRanges(buffer: BufferedWriter, reader: Reader, ranges: seq<Range>) returns (failed: bool)
    requires buffer.Valid() && buffer.Copied() == []
    modifies buffer, buffer.buf, buffer.uploader, reader
    ensures buffer.Valid() && buffer.uploader.index == old(buffer.uploader.index)
    ensures buffer.uploader.size == old(buffer.uploader.size)
    ensures !failed ==>
      && CopiedSoFar(buffer.Copied(), reader.source, ranges)
      && Delivered(buffer.Copied(), reader.steady, reader.source, ranges)
    ensures failed <==> reader.failedReads > old(reader.failedReads)
  {
    failed := false;
    for i := 0 to |ranges|
      invariant buffer.Valid() && buffer.uploader.index == old(buffer.uploader.index)
      invariant buffer.uploader.size == old(buffer.uploader.size)
      invariant CopiedSoFar(buffer.Copied(), reader.source, ranges[..i])
      invariant Delivered(buffer.Copied(), reader.steady, reader.source, ranges[..i])
      invariant !failed && reader.failedReads == old(reader.failedReads)
    {
      var rng := ranges[i];
      assert ranges[..i + 1] == ranges[..i] + [rng];
      assert ranges[..i + 1][..i] == ranges[..i];
      if rng.isSparse {
        DeliveredSparse(buffer.Copied(), reader.steady, reader.source, ranges[..i], rng);
        continue;
      }
      reader.Seek(rng.offset);
      ghost var before := buffer.Copied();
      failed := buffer.Copy(reader, rng.length);
      if failed { return; }
      ghost var more := if reader.pos == rng.offset then [] else reader.source[rng.offset..reader.pos];
      assert buffer.Copied() == before + more;
      CopiedRange(before, reader.source, ranges[..i], rng, more);
      DeliveredRange(before, reader.steady, reader.source, ranges[..i], rng, more);
    }
    assert ranges[..|ranges|] == ranges;
  }

  method SendIndex(idxUploader: Uploader, index: seq<IndexRange>, encode: seq<IndexRange> -> seq<Byte>)
    requires idxUploader.Valid() && !idxUploader.closed && idxUploader.sent == []
    modifies idxUploader
    ensures idxUploader.Valid() && !idxUploader.closed && Stored(idxUploader.sent) == encode(index)
  {
    idxUploader.Put(encode(index));
    StoredSnoc([], idxUploader.sent[0]);
    assert idxUploader.sent == [] + [idxUploader.sent[0]];
  }

  // Upload the ranges and, if any is sparse, the index. The buffer is closed on
  // every way out.
  method UploadSparse(idxUploader: Uploader, uploader: Uploader, reader: Reader, ranges: seq<Range>,
                      bufferLength: nat, encode: seq<IndexRange> -> seq<Byte>)
    returns (result: Result<Response>)
    requires bufferLength > 0 && idxUploader != uploader
    requires uploader.Valid() && !uploader.closed && uploader.sent == [] && uploader.index == None
    requires idxUploader.Valid() && !idxUploader.closed && idxUploader.sent == []
    modifies idxUploader, uploader, reader
    ensures uploader.Valid() && Chunked(uploader.sent, bufferLength) && idxUploader.Valid() && !idxUploader.closed
    ensures result.Ok? ==>
      && result.value == Response(RealSize(ranges), |Stored(uploader.sent)|)
      && CopiedSoFar(Stored(uploader.sent), reader.source, ranges)
      && Delivered(Stored(uploader.sent), reader.steady, reader.source, ranges)
      && (if AnySparse(ranges) then
            && Stored(idxUploader.sent) == encode(IndexOf(ranges))
            && uploader.index == Some(IndexOf(ranges))
            && uploader.size == ranges[|ranges| - 1].offset + ranges[|ranges| - 1].length
          else idxUploader.sent == [] && uploader.index == None)
    ensures result.Err? <==> reader.failedReads > old(reader.failedReads)
  {
    var index, _, realSize, isSparse := PrepareIndex(ranges);
    var buffer := new BufferedWriter(uploader, bufferLength);
    var failed := CopyRanges(buffer, reader, ranges);
    if failed {
      buffer.Close();
      return Err("read error");
    }
    var storedSize := FinishSparse(buffer, idxUploader, index, isSparse, encode);
    result := Ok(Response(realSize, storedSize));
  }

  // Send the index if there is one, and close the buffer.
  method FinishSparse(buffer: BufferedWriter, idxUploader: Uploader, index: seq<IndexRange>, isSparse: bool,
                      encode: seq<IndexRange> -> seq<Byte>)
    returns (storedSize: nat)
    requires buffer.Valid() && idxUploader != buffer.uploader && (isSparse ==> index != [])
    requires idxUploader.Valid() && !idxUploader.closed && idxUploader.sent == []
    modifies buffer, buffer.uploader, idxUploader
    ensures buffer.uploader.Valid() && Chunked(buffer.uploader.sent, buffer.buf.Length)
    ensures Stored(buffer.uploader.sent) == old(buffer.Copied()) && storedSize == |old(buffer.Copied())|
    ensures idxUploader.Valid() && !idxUploader.closed
    ensures if isSparse then
              && Stored(idxUploader.sent) == encode(index) && buffer.uploader.index == Some(index)
              && buffer.uploader.size == index[|index| - 1].originalOffset + index[|index| - 1].length
            else idxUploader.sent == [] && buffer.uploader.index == old(buffer.uploader.index)
  {
    if isSparse {
      SendIndex(idxUploader, index, encode);
      buffer.uploader.SetIndex(index);
    }
    storedSize := buffer.total;
    buffer.Close();
  }

  // The upload function: both uploaders are closed on the way out, the one that
  // the buffer already closed for the second time.
  method UploadRanges(idxUploader: Uploader, uploader: Uploader, reader: Reader, ranges: seq<Range>,
                      bufferLength: nat, encode: seq<IndexRange> -> seq<Byte>)
    returns (result: Result<Response>)
    requires bufferLength > 0 && idxUploader != uploader
    requires uploader.Valid() && !uploader.closed && uploader.sent == [] && uploader.index == None
    requires idxUploader.Valid() && !idxUploader.closed && idxUploader.sent == []
    modifies idxUploader, uploader, reader
    ensures Finished(uploader, Stored(uploader.sent), bufferLength) && idxUploader.Valid() && idxUploader.closed
    ensures result.Ok? ==>
      && result.value == Response(RealSize(ranges), |Stored(uploader.sent)|)
      && CopiedSoFar(Stored(uploader.sent), reader.source, ranges)
      && Delivered(Stored(uploader.sent), reader.steady, reader.source, ranges)
      && (AnySparse(ranges) ==> Stored(idxUploader.sent) == encode(IndexOf(ranges)))
      && (|Stored(uploader.sent)| == ExpectedSize(ranges) ==>
            Reconstructs(IndexOf(ranges), ranges, Stored(uploader.sent), reader.source))
    ensures result.Err? <==> reader.failedReads > old(reader.failedReads)
  {
    result := UploadSparse(idxUploader, uploader, reader, ranges, bufferLength, encode);
    if result.Ok? && |Stored(uploader.sent)| == ExpectedSize(ranges) {
      StoredReconstructs(Stored(uploader.sent), reader.source, ranges);
    }
    idxUploader.Close();
    uploader.Close();
  }

  // ------------------------------------------------------------- what it means

  // Never more than expected is there to be copied.
  lemma {:induction false} ContentBounded(source: seq<Byte>, ranges: seq<Range>)
    ensures |Content(source, ranges)| <= ExpectedSize(ranges)
  {
    if ranges != [] { ContentBounded(source, ranges[..|ranges| - 1]); }
  }

  // The index is exact: when every range could be delivered in full, each entry
  // points at the bytes of its range in the stored file, and sparse entries at
  // nothing.
  lemma {:induction false} IndexReconstructs(source: seq<Byte>, ranges: seq<Range>, i: nat)
    requires i < |ranges| && |Content(source, ranges)| == ExpectedSize(ranges)
    ensures Points(IndexOf(ranges)[i], ranges[i], Content(source, ranges), source)
  {
    var before, r := ranges[..|ranges| - 1], ranges[|ranges| - 1];
    ContentBounded(source, before);
    if i < |before| {
      IndexReconstructs(source, before, i);
      PointsCarry(Content(source, before), Content(source, ranges), IndexOf(before)[i], ranges[i], source);
    } else {
      PointsLast(Content(source, before), r, source);
    }
  }

  // Entry `e` describes range `r` of the source as stored in `content`.
  ghost predicate Points(e: IndexRange, r: Range, content: seq<Byte>, source: seq<Byte>) {
    && e.originalOffset == r.offset && e.length == r.length
    && (if r.isSparse then e.fileLength == 0
        else
          && e.fileLength == e.length && e.fileOffset + e.fileLength <= |content|
          && (e.length > 0 ==>
                && e.originalOffset + e.length <= |source|
                && content[e.fileOffset..e.fileOffset + e.fileLength] ==
                   source[e.originalOffset..e.originalOffset + e.length]))
  }

  // Every entry of the index points at the bytes of its range.
  ghost predicate Reconstructs(index: seq<IndexRange>, ranges: seq<Range>, content: seq<Byte>, source: seq<Byte>) {
    |index| == |ranges| && forall i :: 0 <= i < |ranges| ==> Points(index[i], ranges[i], content, source)
  }

  lemma StoredReconstructs(stored: seq<Byte>, source: seq<Byte>, ranges: seq<Range>)
    requires CopiedSoFar(stored, source, ranges) && |stored| == ExpectedSize(ranges)
    ensures Reconstructs(IndexOf(ranges), ranges, stored, source)
  {
    forall i | 0 <= i < |ranges| ensures Points(IndexOf(ranges)[i], ranges[i], stored, source) {
      IndexReconstructs(source, ranges, i);
    }
  }

  lemma PointsCarry(content: seq<Byte>, all: seq<Byte>, e: IndexRange, r: Range, source: seq<Byte>)
    requires content <= all && Points(e, r, content, source)
    ensures Points(e, r, all, source)
  {
  }

  lemma PointsLast(content: seq<Byte>, r: Range, source: seq<Byte>)
    requires !r.isSparse ==> |Slice(source, r.offset, r.length)| == r.length
    ensures Points(IndexRange(|content|, r.offset, if r.isSparse then 0 else r.length, r.length), r,
                   content + (if r.isSparse then [] else Slice(source, r.offset, r.length)), source)
  {
  }

  // The index entries tile the stored file, sparse ones taking up nothing.
  lemma {:induction false} IndexTiles(ranges: seq<Range>, i: nat)
    requires i < |ranges|
    ensures i == 0 ==> IndexOf(ranges)[i].fileOffset == 0
    ensures i > 0 ==> IndexOf(ranges)[i].fileOffset == IndexOf(ranges)[i - 1].fileOffset + IndexOf(ranges)[i - 1].fileLength
    ensures IndexOf(ranges)[i].fileLength == if ranges[i].isSparse then 0 else ranges[i].length
    ensures i == |ranges| - 1 ==> ExpectedSize(ranges) == IndexOf(ranges)[i].fileOffset + IndexOf(ranges)[i].fileLength
  {
    var before := ranges[..|ranges| - 1];
    if i < |before| {
      IndexTiles(before, i);
    } else if i > 0 {
      IndexTiles(before, i - 1);
    }
  }

  // The reported size is the largest range end.
  lemma {:induction false} RealSizeIsMax(ranges: seq<Range>)
    ensures forall r :: r in ranges ==> r.offset + r.length <= RealSize(ranges)
    ensures RealSize(ranges) == 0 || exists r :: r in ranges && RealSize(ranges) == r.offset + r.length
  {
    if ranges != [] {
      var before, last := ranges[..|ranges| - 1], ranges[|ranges| - 1];
      RealSizeIsMax(before);
      assert forall r :: r in ranges ==> r in before || r == last;
      if RealSize(before) != 0 {
        var r :| r in before && RealSize(before) == r.offset + r.length;
        assert r in ranges;
      }
      assert last in ranges;
    }
  }

  // The size set with the index, the end of the last range, is the reported
  // size exactly when no range ends after the last one.
  lemma LastEndIsSize(ranges: seq<Range>)
    requires ranges != []
    ensures var last := ranges[|ranges| - 1];
      last.offset + last.length == RealSize(ranges) <==>
      forall r :: r in ranges ==> r.offset + r.length <= last.offset + last.length
  {
    RealSizeIsMax(ranges);
    var last := ranges[|ranges| - 1];
    assert last in ranges;
  }
}
