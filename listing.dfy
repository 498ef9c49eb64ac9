/** The file-listing and upload endpoints: the entry built for each stored blob,
    the size label, the type label, and where an upload's filename comes from.
    Date formatting, the blob service and the decimal rendering of the KB and MB
    figures are outside the model. */
module Listing {
  import opened Wrappers
  import opened Text
  import Server

  // ---------------------------------------------------------------------
  // getFileType of the API routes
  // ---------------------------------------------------------------------

  /** `filename.split('.').pop().toLowerCase()`. */
  function FileType(filename: string): string {
    var parts := Split(filename, '.');
    Lower(parts[|parts| - 1])
  }

  /** Where the last piece after a separator starts: just after the last
      separator, or at 0 when there is none. */
  function AfterLast(s: string, sep: char): (k: nat)
    ensures k <= |s|
  {
    match Server.LastIndexOf(s, sep)
    case None => 0
    case Some(i) => i + 1
  }

  lemma {:induction false} LastPiece(s: string, sep: char)
    ensures var parts := Split(s, sep); parts[|parts| - 1] == s[AfterLast(s, sep)..]
    decreases |s|
  {
    if s != [] {
      var tail := s[1..];
      var rest := Split(tail, sep);
      var parts := Split(s, sep);
      LastIndexShift(s, sep);
      if sep in tail {
        LastPiece(tail, sep);
        SplitHasSeveralPieces(tail, sep);
        assert parts[|parts| - 1] == rest[|rest| - 1];
        assert s[AfterLast(s, sep)..] == tail[AfterLast(tail, sep)..];
      } else {
        SplitWithoutSeparator(tail, sep);
        if s[0] == sep {
          assert parts == [""] + [tail];
        } else {
          assert parts == [[s[0]] + tail];
          assert [s[0]] + tail == s;
        }
      }
    }
  }

  /** A separator in the text splits it into at least two pieces. */
  lemma {:induction false} SplitHasSeveralPieces(s: string, sep: char)
    requires sep in s
    ensures |Split(s, sep)| >= 2
    decreases |s|
  {
    if s[0] != sep {
      assert sep in s[1..];
      SplitHasSeveralPieces(s[1..], sep);
    }
  }

  /** Without a separator the text is its only piece. */
  lemma {:induction false} SplitWithoutSeparator(s: string, sep: char)
    requires sep !in s
    ensures Split(s, sep) == [s]
    decreases |s|
  {
    if s != [] {
      assert sep !in s[1..];
      SplitWithoutSeparator(s[1..], sep);
      assert [s[0]] + s[1..] == s;
    }
  }

  /** The last separator of `s` is the last one of `s[1..]`, shifted by one, or
      the first character when `s[1..]` has none. */
  lemma LastIndexShift(s: string, sep: char)
    requires s != []
    ensures sep in s[1..] ==> AfterLast(s, sep) == AfterLast(s[1..], sep) + 1
    ensures sep !in s[1..] && s[0] == sep ==> AfterLast(s, sep) == 1
    ensures sep !in s[1..] && s[0] != sep ==> AfterLast(s, sep) == 0
  {
    var tail := s[1..];
    assert forall k :: 1 <= k < |s| ==> s[k] == tail[k - 1];
    if sep in tail {
      var j := Server.LastIndexOf(tail, sep).value;
      var i := Server.LastIndexOf(s, sep).value;
      assert s[j + 1] == sep;
      assert i >= j + 1;
      assert i >= 1;
      assert tail[i - 1] == sep;
    } else if s[0] == sep {
      assert Server.LastIndexOf(s, sep).value == 0;
    } else {
      assert sep !in s;
    }
  }

  /** The type is the lower-cased text after the last '.', or the whole name
      lower-cased when there is no '.'. */
  lemma FileTypeIsSuffix(filename: string)
    ensures FileType(filename) == Lower(filename[AfterLast(filename, '.')..])
    ensures '.' !in filename ==> FileType(filename) == Lower(filename)
  {
    LastPiece(filename, '.');
  }

  /** The type never contains a '.'. */
  lemma FileTypeHasNoDot(filename: string)
    ensures '.' !in FileType(filename)
  {
    var parts := Split(filename, '.');
    var last := parts[|parts| - 1];
    assert '.' !in last;
    var r := FileType(filename);
    assert forall k :: 0 <= k < |r| ==> r[k] == LowerChar(last[k]);
  }

  // ---------------------------------------------------------------------
  // formatFileSize of the API routes
  // ---------------------------------------------------------------------

  /** A size label: a server size text, or 'NaN MB' when the size is missing and
      nothing guards against it. */
  datatype SizeLabel = Sized(text: Server.SizeText) | NaNMegabytes

  /** The attachments route: a missing or zero size is '0 B'. */
  function AttachmentSize(bytes: Option<nat>): (r: SizeLabel)
    ensures bytes.None? || bytes == Some(0) ==> r == Sized(Server.Bytes("0 B"))
    ensures bytes.Some? ==> r == Sized(Server.FormatFileSize(bytes.value))
  {
    match bytes
    case None => Sized(Server.Bytes("0 B"))
    case Some(n) => if n == 0 then ZeroBytes(); Sized(Server.Bytes("0 B")) else Sized(Server.FormatFileSize(n))
  }

  /** The files route has no guard: a missing size fails both comparisons and
      falls through to the megabyte branch, where it is not a number. */
  function ListingSize(bytes: Option<nat>): (r: SizeLabel)
    ensures bytes.None? <==> r == NaNMegabytes
    ensures bytes.Some? ==> r == Sized(Server.FormatFileSize(bytes.value))
  {
    match bytes
    case None => NaNMegabytes
    case Some(n) => Sized(Server.FormatFileSize(n))
  }

  /** The two routes label every present size alike, and small sizes as
      'n B'. */
  lemma SizesAgree(bytes: nat)
    ensures AttachmentSize(Some(bytes)) == ListingSize(Some(bytes))
    ensures bytes < 1024 ==> ListingSize(Some(bytes)) == Sized(Server.Bytes(NatToDecimal(bytes) + " B"))
  {
  }

  lemma ZeroBytes()
    ensures Server.FormatFileSize(0) == Server.Bytes("0 B")
  {
    assert NatToDecimal(0) == "0";
  }

  // ---------------------------------------------------------------------
  // Listing entries
  // ---------------------------------------------------------------------

  /** What the blob service lists for one stored file. */
  datatype BlobInfo = BlobInfo(pathname: string, url: string, size: Option<nat>, uploadedAt: int)

  /** One listed file. `path` is present only in the attachments listing; `date`
      is the upload time, whose text formatting is not modelled. */
  datatype Entry = Entry(name: string, url: string, path: Option<string>, size: SizeLabel,
                         kind: string, date: int)

  function AttachmentEntry(b: BlobInfo): Entry {
    Entry(b.pathname, b.url, Some(b.url), AttachmentSize(b.size), FileType(b.pathname), b.uploadedAt)
  }

  function FileEntry(b: BlobInfo): Entry {
    Entry(b.pathname, b.url, None, ListingSize(b.size), FileType(b.pathname), b.uploadedAt)
  }

  datatype Verb = OPTIONS | GET | POST | OtherVerb

  datatype ListResponse = MethodNotAllowed | Listed(entries: seq<Entry>)

  /** `api/files.js`: only GET lists; the entries follow the blobs one for one,
      in order. */
  function FilesHandler(verb: Verb, blobs: seq<BlobInfo>): (r: ListResponse)
    ensures verb != GET <==> r == MethodNotAllowed
    ensures r.Listed? ==> |r.entries| == |blobs|
    ensures r.Listed? ==> forall k :: 0 <= k < |blobs| ==> r.entries[k] == FileEntry(blobs[k])
  {
    if verb != GET then MethodNotAllowed
    else Listed(seq(|blobs|, k requires 0 <= k < |blobs| => FileEntry(blobs[k])))
  }

  /** A listed entry is named by its blob's pathname and typed by that name. */
  lemma FilesEntryNames(blobs: seq<BlobInfo>, k: nat)
    requires k < |blobs|
    ensures FilesHandler(GET, blobs).entries[k].name == blobs[k].pathname
    ensures '.' !in FilesHandler(GET, blobs).entries[k].kind
    ensures FilesHandler(GET, blobs).entries[k].path.None?
  {
    FileTypeHasNoDot(blobs[k].pathname);
  }

  // ---------------------------------------------------------------------
  // api/attachments.js
  // ---------------------------------------------------------------------

  /** `req.query.filename || req.headers['x-filename'] || 'file-' + Date.now()`. */
  function FilenameCandidate(query: Option<string>, header: Option<string>, now: nat): (name: string)
    ensures query.Some? && query.value != "" ==> name == query.value
    ensures (query.None? || query.value == "") && header.Some? && header.value != "" ==> name == header.value
    ensures (query.None? || query.value == "") && (header.None? || header.value == "") ==>
      |name| > 5 && name[..5] == "file-" && AllDigits(name[5..]) && ParseDecimal(name[5..]) == now
  {
    if query.Some? && query.value != "" then query.value
    else if header.Some? && header.value != "" then header.value
    else
      var n := "file-" + NatToDecimal(now);
      assert n[5..] == NatToDecimal(now);
      ParseNatToDecimal(now);
      n
  }

  datatype Upload = Upload(name: string, url: string, path: string, size: SizeLabel)

  datatype AttachmentsResponse =
    | Preflight
    | Files(entries: seq<Entry>)
    | Uploaded(file: Upload)
    | NotAllowed

  /** The attachments handler. The blob listing, the service's answer to the
      upload (`url`, `size`), the clock and `decodeURIComponent` (absent when it
      throws) are inputs. */
  method Attachments(verb: Verb, blobs: seq<BlobInfo>, query: Option<string>, header: Option<string>,
                     now: nat, decode: string -> Option<string>, putUrl: string, putSize: Option<nat>)
    returns (r: AttachmentsResponse)
    ensures verb == OPTIONS <==> r == Preflight
    ensures verb == OtherVerb <==> r == NotAllowed
    ensures verb == GET <==> r.Files?
    ensures r.Files? ==> |r.entries| == |blobs|
    ensures r.Files? ==> forall k :: 0 <= k < |blobs| ==> r.entries[k] == AttachmentEntry(blobs[k])
    ensures r.Uploaded? ==>
      var candidate := FilenameCandidate(query, header, now);
      && r.file.name == (match decode(candidate) case Some(d) => d case None => candidate)
      && r.file.url == putUrl && r.file.path == putUrl
      && r.file.size == AttachmentSize(putSize)
  {
    if verb == OPTIONS {
      return Preflight;
    }
    if verb == GET {
      var files: seq<Entry> := [];
      var i := 0;
      while i < |blobs|
        invariant 0 <= i <= |blobs|
        invariant |files| == i
        invariant forall k :: 0 <= k < i ==> files[k] == AttachmentEntry(blobs[k])
      {
        var blob := blobs[i];
        files := files + [Entry(blob.pathname, blob.url, Some(blob.url), AttachmentSize(blob.size),
                                FileType(blob.pathname), blob.uploadedAt)];
        i := i + 1;
      }
      return Files(files);
    }
    if verb == POST {
      var filename := FilenameCandidate(query, header, now);
      var decoded := decode(filename);
      if decoded.Some? {
        filename := decoded.value;
      }
      return Uploaded(Upload(filename, putUrl, putUrl, AttachmentSize(putSize)));
    }
    return NotAllowed;
  }
}
