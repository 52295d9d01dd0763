/** The upload middleware of the file routes: where the multipart parser parks an
    upload, which content types it lets through and how large a file may be. */
module FileRoutes {
  import opened Outcomes
  import Text

  /** The content types the upload filter allows, in the order listed. */
  const AllowedMimeTypes: seq<string> := [
    "image/png",
    "image/jpeg",
    "image/gif",
    "application/pdf",
    "text/plain",
    "application/zip",
    "application/x-zip-compressed"
  ]

  /** The upload size limit: 50 MiB. */
  const MaxUploadBytes: int := 50 * 1024 * 1024

  datatype FilterResult = Accept | Reject(message: string)

  /** `fileFilter`: an allowed type passes; any other is refused with an error naming it. */
  function FileFilter(mimetype: string): (r: FilterResult)
    ensures r.Accept? <==> mimetype in AllowedMimeTypes
    ensures r.Reject? ==>
      && |r.message| == 23 + |mimetype|
      && r.message[..23] == "Unsupported file type: "
      && r.message[23..] == mimetype
  {
    if mimetype in AllowedMimeTypes then Accept else Reject("Unsupported file type: " + mimetype)
  }

  /** The allow-list names exactly these seven types: images, PDF, plain text and zip. */
  lemma AllowList(mimetype: string)
    ensures FileFilter(mimetype).Accept? <==>
      mimetype == "image/png" || mimetype == "image/jpeg" || mimetype == "image/gif" ||
      mimetype == "application/pdf" || mimetype == "text/plain" ||
      mimetype == "application/zip" || mimetype == "application/x-zip-compressed"
  {
  }

  /** Executables, HTML and unlabelled binary uploads are refused. */
  lemma RiskyTypesRejected()
    ensures FileFilter("application/x-msdownload").Reject?
    ensures FileFilter("text/html").Reject?
    ensures FileFilter("application/octet-stream").Reject?
    ensures FileFilter("").Reject?
  {
  }

  /** Whether the parser lets an upload of `size` bytes through. */
  predicate WithinLimit(size: int) {
    size <= MaxUploadBytes
  }

  lemma LimitBoundary()
    ensures WithinLimit(52428800) && !WithinLimit(52428801)
  {
  }

  /** The name a parked upload gets: `{timestamp}-{random}-{originalname}`, where the
      timestamp is the clock in milliseconds and the random part a rounded draw from
      [0, 1e9]. */
  function TempFilename(now: nat, random: nat, originalname: string): (r: string)
    ensures |r| > |originalname| && r[|r| - |originalname| - 1..] == "-" + originalname
  {
    Text.NatToString(now) + "-" + Text.NatToString(random) + "-" + originalname
  }

  /** The part of `s` after its first `c`, or nothing when `c` does not occur. */
  function AfterFirst(s: string, c: char): (r: string)
    ensures |r| <= |s|
  {
    if s == [] then [] else if s[0] == c then s[1..] else AfterFirst(s[1..], c)
  }

  lemma {:induction false} AfterFirstOfPrefix(head: string, c: char, tail: string)
    requires c !in head
    ensures AfterFirst(head + [c] + tail, c) == tail
  {
    if head == [] {
      assert head + [c] + tail == [c] + tail;
    } else {
      assert (head + [c] + tail)[1..] == head[1..] + [c] + tail;
      AfterFirstOfPrefix(head[1..], c, tail);
    }
  }

  /** The original name can be read back from a temp filename by dropping everything up
      to its second dash, whatever dashes the original name holds itself. */
  lemma TempFilenameRoundTrip(now: nat, random: nat, originalname: string)
    ensures AfterFirst(AfterFirst(TempFilename(now, random, originalname), '-'), '-') == originalname
  {
    var t := Text.NatToString(now);
    var u := Text.NatToString(random);
    assert '-' !in t && '-' !in u;
    assert TempFilename(now, random, originalname) == t + ['-'] + (u + "-" + originalname);
    AfterFirstOfPrefix(t, '-', u + "-" + originalname);
    assert u + "-" + originalname == u + ['-'] + originalname;
    AfterFirstOfPrefix(u, '-', originalname);
  }

  /** What becomes of a request on the upload route before the upload handler runs:
      the sign-in guard comes first, then the type filter, then the size limit. */
  datatype Admission = Unauthenticated | UnsupportedType(message: string) | TooLarge | Admitted

  function AdmitUpload(principal: Option<int>, mimetype: string, size: int): (a: Admission)
    ensures a == Admitted <==> principal.Some? && mimetype in AllowedMimeTypes && WithinLimit(size)
    ensures a == Unauthenticated <==> principal.None?
    ensures a.UnsupportedType? <==> principal.Some? && mimetype !in AllowedMimeTypes
    ensures a.UnsupportedType? ==> a.message == FileFilter(mimetype).message
  {
    if principal.None? then Unauthenticated
    else match FileFilter(mimetype)
      case Reject(msg) => UnsupportedType(msg)
      case Accept => if WithinLimit(size) then Admitted else TooLarge
  }
}
