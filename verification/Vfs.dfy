// Directory views assembled from a stream of listing and download records.
module Vfs {
  import opened Sequences
  import opened Wrappers

  datatype Record = Record(id: string, docId: string, jsonData: string, downloads: seq<string>, timestamp: nat)

  // The parts of a listing and of a download the assembler looks at.
  datatype Listing = Listing(text: string, downloadVersion: nat)
  datatype Download = Download(text: string, mtime: nat, inFlight: bool, sha256: string)

  const EMPTY_LISTING := Listing("", 0)
  const MAX_HITS: nat := 10000

  // Foreign code: the JSON encodings.
  datatype Codec = Codec(listing: string -> Option<Listing>, download: string -> Option<Download>)

  // All records of a directory in ascending order of distinct timestamps.
  ghost predicate Scan(records: seq<Record>, id: string) {
    && (forall i, j :: 0 <= i < j < |records| ==> records[i].timestamp < records[j].timestamp)
    && (forall i :: 0 <= i < |records| ==> records[i].id == id && WellFormed(records[i]))
  }

  // A listing record carries data and the id of its directory; a download
  // record carries one download and a document id of its own.
  ghost predicate WellFormed(r: Record) {
    if r.jsonData != "" then r.docId == r.id
    else |r.downloads| == 1 && r.docId != r.id
  }

  // ------------------------------------------------------------ specification

  function LastListing(records: seq<Record>): string {
    if records == [] then ""
    else if records[|records| - 1].jsonData != "" then records[|records| - 1].jsonData
    else LastListing(records[..|records| - 1])
  }

  // The latest download per document id.
  ghost predicate Latest(downloads: map<string, string>, records: seq<Record>) {
    && (forall d :: d in downloads <==> exists i :: IsDownload(records, i, d))
    && (forall d :: d in downloads ==> exists i :: IsLatest(records, i, d, downloads[d]))
  }

  // Record i is the last download for the document id.
  ghost predicate IsLatest(records: seq<Record>, i: int, docId: string, text: string) {
    && IsDownload(records, i, docId) && text == records[i].downloads[0]
    && forall j :: IsDownload(records, j, docId) ==> j <= i
  }

  ghost predicate IsDownload(records: seq<Record>, i: int, docId: string) {
    0 <= i < |records| && records[i].jsonData == "" && |records[i].downloads| == 1 && records[i].docId == docId
  }

  // The version shown is the largest of the listing's own and the downloads' times.
  ghost predicate IsMax(version: nat, base: nat, texts: set<string>, c: Codec) {
    && base <= version
    && (forall t :: t in texts && c.download(t).Some? ==> c.download(t).value.mtime <= version)
    && (version == base || exists t :: t in texts && c.download(t).Some? && c.download(t).value.mtime == version)
  }

  // The listing is that of the last record that carries one.
  lemma {:induction false} LastListingExact(records: seq<Record>, i: nat)
    requires i < |records| && records[i].jsonData != ""
    requires forall k :: i < k < |records| ==> records[k].jsonData == ""
    ensures LastListing(records) == records[i].jsonData
  {
    if i < |records| - 1 { LastListingExact(records[..|records| - 1], i); }
  }

  // ------------------------------------------------------------- the full scan

  lemma LatestStep(downloads: map<string, string>, records: seq<Record>, r: Record)
    requires Latest(downloads, records)
    ensures Latest(if r.jsonData == "" && |r.downloads| == 1 then downloads[r.docId := r.downloads[0]] else downloads,
                   records + [r])
  {
    var all := records + [r];
    var downloads' := if r.jsonData == "" && |r.downloads| == 1 then downloads[r.docId := r.downloads[0]] else downloads;
    forall d, i ensures IsDownload(all, i, d) <==>
      IsDownload(records, i, d) || (i == |records| && d == r.docId && r.jsonData == "" && |r.downloads| == 1) {
    }
    forall d ensures d in downloads' <==> exists i :: IsDownload(all, i, d) {
      if d in downloads {
        var i :| IsDownload(records, i, d);
        assert IsDownload(all, i, d);
      } else if d in downloads' {
        assert IsDownload(all, |records|, d);
      }
    }
    forall d | d in downloads' ensures exists i :: IsLatest(all, i, d, downloads'[d]) {
      if r.jsonData == "" && |r.downloads| == 1 && d == r.docId {
        assert IsLatest(all, |records|, d, downloads'[d]);
      } else {
        var i :| IsLatest(records, i, d, downloads[d]);
        assert IsLatest(all, i, d, downloads[d]);
      }
    }
  }

  // Collect the last listing and the latest downloads.
  method Assemble(hits: seq<Record>) returns (listing: string, downloads: map<string, string>)
    ensures listing == LastListing(hits) && Latest(downloads, hits)
  {
    listing, downloads := "", map[];
    for i := 0 to |hits|
      invariant listing == LastListing(hits[..i]) && Latest(downloads, hits[..i])
    {
      var record := hits[i];
      assert hits[..i + 1] == hits[..i] + [record] && hits[..i + 1][..i] == hits[..i];
      LatestStep(downloads, hits[..i], record);
      if record.jsonData != "" {
        listing := record.jsonData;
      } else if |record.downloads| == 1 {
        downloads := downloads[record.docId := record.downloads[0]];
      }
    }
    assert hits[..|hits|] == hits;
  }

  function Texts(found: map<string, string>, keys: set<string>): set<string>
    requires keys <= found.Keys
  {
    set k | k in keys :: found[k]
  }

  // The download decoded from the text is shown: it is in flight, or stored.
  ghost predicate Shown(text: string, c: Codec) {
    c.download(text).Some? && (c.download(text).value.inFlight || c.download(text).value.sha256 != "")
  }

  // The downloads are those of the files `shown`, which are exactly the files among
  // `keys` with a download to show, each once.
  ghost predicate OnePerFile(downloads: seq<Download>, shown: seq<string>, found: map<string, string>, keys: set<string>, c: Codec)
    requires keys <= found.Keys
  {
    && |downloads| == |shown| && NoDuplicates(shown)
    && (forall k :: k in shown <==> k in keys && Shown(found[k], c))
    && (forall i :: 0 <= i < |shown| && shown[i] in keys ==> c.download(found[shown[i]]) == Some(downloads[i]))
  }

  lemma OneMoreFile(downloads: seq<Download>, shown: seq<string>, found: map<string, string>, keys: set<string>, k: string, c: Codec)
    requires keys <= found.Keys && k in found && k !in keys && OnePerFile(downloads, shown, found, keys, c)
    ensures if Shown(found[k], c)
            then OnePerFile(downloads + [c.download(found[k]).value], shown + [k], found, keys + {k}, c)
            else OnePerFile(downloads, shown, found, keys + {k}, c)
  {
  }

  lemma VersionStep(version: nat, base: nat, texts: set<string>, t: string, c: Codec)
    requires IsMax(version, base, texts, c)
    ensures var d := c.download(t);
      IsMax(if d.Some? && d.value.mtime > version then d.value.mtime else version, base, texts + {t}, c)
  {
  }

  // Decode the latest downloads, in no particular order.
  method DecodeDownloads(found: map<string, string>, base: nat, c: Codec)
    returns (downloads: seq<Download>, version: nat, ghost shown: seq<string>)
    ensures IsMax(version, base, Texts(found, found.Keys), c)
    ensures OnePerFile(downloads, shown, found, found.Keys, c)
  {
    downloads, version, shown := [], base, [];
    var remaining := found.Keys;
    ghost var done: set<string> := {};
    while remaining != {}
      invariant remaining !! done && remaining + done == found.Keys
      invariant IsMax(version, base, Texts(found, done), c)
      invariant OnePerFile(downloads, shown, found, done, c)
      decreases remaining
    {
      var k :| k in remaining;
      VersionStep(version, base, Texts(found, done), found[k], c);
      assert Texts(found, done + {k}) == Texts(found, done) + {found[k]};
      OneMoreFile(downloads, shown, found, done, k, c);
      remaining, done := remaining - {k}, done + {k};
      var download := c.download(found[k]);
      if download.None? { continue; }
      if download.value.mtime > version { version := download.value.mtime; }
      if !download.value.inFlight && download.value.sha256 == "" { continue; }
      downloads := downloads + [download.value];
      shown := shown + [k];
    }
    assert done == found.Keys;
  }

  // The listing with the latest downloads. The query returns the oldest
  // MAX_HITS records.
  method ReadDirectoryWithDownloads(records: seq<Record>, c: Codec)
    returns (downloads: seq<Download>, stat: Listing, found: map<string, string>)
    ensures var hits := if |records| > 10000 then records[..10000] else records;
      && Latest(found, hits)
      && var listing := LastListing(hits);
         if listing == "" || c.listing(listing).None? then downloads == [] && stat == EMPTY_LISTING
         else
           var base := c.listing(listing).value;
           && stat.text == base.text
           && IsMax(stat.downloadVersion, base.downloadVersion, Texts(found, found.Keys), c)
           && exists shown :: OnePerFile(downloads, shown, found, found.Keys, c)
  {
    var hits := if |records| > MAX_HITS then records[..MAX_HITS] else records;
    var listing;
    listing, found := Assemble(hits);
    downloads, stat := [], EMPTY_LISTING;
    if listing == "" { return; }
    var parsed := c.listing(listing);
    if parsed.None? { return; }
    var version;
    ghost var shown;
    downloads, version, shown := DecodeDownloads(found, parsed.value.downloadVersion, c);
    stat := parsed.value.(downloadVersion := version);
  }

  // ---------------------------------------------------------- the side panel

  // The newest record whose document id is the directory itself.
  function NewestOwn(records: seq<Record>, id: string): Option<Record> {
    if records == [] then None
    else
      var rest, r := NewestOwn(records[..|records| - 1], id), records[|records| - 1];
      if r.id == id && r.docId == id && (rest.None? || r.timestamp > rest.value.timestamp) then Some(r) else rest
  }

  function SidePanel(records: seq<Record>, id: string, c: Codec): Result<Listing> {
    match NewestOwn(records, id)
    case None => Ok(EMPTY_LISTING)
    case Some(r) =>
      match c.listing(r.jsonData)
      case None => Err("bad listing")
      case Some(l) => Ok(l)
  }

  lemma {:induction false} NewestOwnIsLastListing(records: seq<Record>, id: string)
    requires Scan(records, id)
    ensures match NewestOwn(records, id)
      case None => LastListing(records) == ""
      case Some(r) => r in records && LastListing(records) == r.jsonData != ""
  {
    if records != [] { NewestOwnIsLastListing(records[..|records| - 1], id); }
  }

  lemma {:induction false} ListingBeforeLimit(records: seq<Record>, limit: nat)
    requires limit <= |records| && forall i :: limit <= i < |records| ==> records[i].jsonData == ""
    ensures LastListing(records[..limit]) == LastListing(records)
  {
    if limit < |records| {
      var before := records[..|records| - 1];
      ListingBeforeLimit(before, limit);
      assert before[..limit] == records[..limit];
    } else {
      assert records[..limit] == records;
    }
  }

  // The newest record whose document id is the directory, by timestamp.
  lemma {:induction false} NewestOwnExact(records: seq<Record>, id: string)
    ensures match NewestOwn(records, id)
      case None => forall r :: r in records ==> r.id != id || r.docId != id
      case Some(n) =>
        && n in records && n.id == id && n.docId == id
        && forall r :: r in records && r.id == id && r.docId == id ==> r.timestamp <= n.timestamp
  {
    if records != [] {
      NewestOwnExact(records[..|records| - 1], id);
      assert records == records[..|records| - 1] + [records[|records| - 1]];
    }
  }

  // What the single document query finds is within the scan's limit exactly when no
  // listing lies past it.
  lemma {:induction false} PanelSeenExactly(records: seq<Record>, id: string, limit: nat)
    requires Scan(records, id) && limit <= |records| && NewestOwn(records, id).Some?
    ensures NewestOwn(records, id).value in records[..limit] <==>
      forall i :: limit <= i < |records| ==> records[i].jsonData == ""
  {
    NewestOwnExact(records, id);
    NewestOwnIsLastListing(records, id);
    var r := NewestOwn(records, id).value;
    var n :| 0 <= n < |records| && records[n] == r;
    if i :| limit <= i < |records| && records[i].jsonData != "" {
      assert records[i] in records && records[i].docId == id;
      assert r.timestamp >= records[i].timestamp;
      forall k | 0 <= k < limit ensures records[..limit][k] != r {
        assert records[k].timestamp < records[i].timestamp;
      }
    } else {
      assert n < limit && records[..limit][n] == r;
    }
  }

  // The single document query shows the same listing as the full scan for every
  // history in which no listing lies past the scan's limit.
  method PanelsAgree(records: seq<Record>, id: string, c: Codec) returns (panel: Result<Listing>, stat: Listing)
    requires Scan(records, id)
    requires forall i :: 10000 <= i < |records| ==> records[i].jsonData == ""
    ensures if panel.Err? then stat == EMPTY_LISTING else panel.value.text == stat.text
    ensures panel.Err? <==> LastListing(records) != "" && c.listing(LastListing(records)).None?
    ensures panel.Ok? && LastListing(records) != "" ==> Some(panel.value) == c.listing(LastListing(records))
    ensures LastListing(records) == "" ==> panel == Ok(EMPTY_LISTING)
  {
    NewestOwnIsLastListing(records, id);
    if |records| > MAX_HITS { ListingBeforeLimit(records, MAX_HITS); }
    panel := SidePanel(records, id, c);
    var _, s, _ := ReadDirectoryWithDownloads(records, c);
    stat := s;
  }
}
