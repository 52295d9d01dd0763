/** Share links: an owner publishes a folder under an unguessable token for a number of
    days; anyone holding the token may list the folder and fetch its files until then. */
module ShareController {
  import opened Outcomes
  import opened Metadata
  import Ordering
  import BlobStorage
  import FolderController

  /** Milliseconds in a day: clock readings and expiry instants are in milliseconds. */
  const MsPerDay: int := 24 * 60 * 60 * 1000

  /** The expiry instant of a link created at `now` for `days` days. `None` stands for
      any falsy `days` value (absent, the empty string, and in a JSON body also `0`,
      `false` or `null`), which means one day; `Some(d)` is the parsed number of a
      truthy value, so a form field "0" gives zero days. */
  function ExpiresAt(now: int, days: Option<int>): int {
    now + days.GetOr(1) * MsPerDay
  }

  /** A link is still usable at its expiry instant and refused strictly after it. */
  predicate IsExpired(link: ShareLink, now: int) {
    now > link.expiresAt
  }

  /** The largest distance from the epoch, in milliseconds, that a JavaScript `Date`
      can hold; further out `new Date` gives an invalid date, which the store refuses. */
  const MaxTimeMs: int := 8_640_000_000_000_000

  predicate IsValidTime(t: int) {
    -MaxTimeMs <= t <= MaxTimeMs
  }

  /** Any day count up to 99 million, from any clock reading before the year 2286, gives
      an expiry a `Date` can hold. */
  lemma ModerateDaysAreStorable(now: int, d: int)
    requires 0 <= now < 10_000_000_000_000 && -99_000_000 <= d <= 99_000_000
    ensures IsValidTime(ExpiresAt(now, Some(d)))
  {
  }

  /** A day count above 100 million never gives a storable expiry after the epoch. */
  lemma HugeDaysAreNotStorable(now: int, d: int)
    requires now >= 0 && d > 100_000_000
    ensures !IsValidTime(ExpiresAt(now, Some(d)))
  {
  }

  /** Once expired, a link stays expired. */
  lemma ExpiryIsPermanent(link: ShareLink, t: int, t': int)
    requires IsExpired(link, t) && t <= t'
    ensures IsExpired(link, t')
  {
  }

  /** A link made for `d >= 0` days is usable from its creation up to and including
      `d` days later, and no longer. */
  lemma LifetimeOfNewLink(folderId: int, token: string, now: int, d: int, t: int)
    requires d >= 0 && now <= t
    ensures !IsExpired(ShareLink(folderId, token, ExpiresAt(now, Some(d))), t) <==> t - now <= d * MsPerDay
  {
  }

  /** Without a `days` field a link lasts exactly one day. */
  lemma DefaultLifetimeIsOneDay(folderId: int, token: string, now: int)
    ensures !IsExpired(ShareLink(folderId, token, ExpiresAt(now, None)), now + 86400000)
    ensures IsExpired(ShareLink(folderId, token, ExpiresAt(now, None)), now + 86400001)
  {
  }

  /** A link made for zero days is usable only at its creation instant. */
  lemma ZeroDaysLastOneInstant(folderId: int, token: string, now: int)
    ensures !IsExpired(ShareLink(folderId, token, ExpiresAt(now, Some(0))), now)
    ensures IsExpired(ShareLink(folderId, token, ExpiresAt(now, Some(0))), now + 1)
  {
  }

  /** A link made for a negative number of days is refused from the start. */
  lemma NegativeDaysExpireAtOnce(folderId: int, token: string, now: int, d: int)
    requires d < 0
    ensures IsExpired(ShareLink(folderId, token, ExpiresAt(now, Some(d))), now)
  {
  }

  /** `createShare`: 404 for an unknown folder, 403 unless the principal owns it; a token
      that already names a link breaks the store's uniqueness rule, and an expiry outside
      the range of a `Date` cannot be stored, both ending in a server error; otherwise
      exactly one link is added. */
  method CreateShare(db: MetadataStore, principal: int, folderId: int, days: Option<int>, token: string, now: int)
    returns (status: Status)
    requires db.Valid()
    modifies db
    ensures db.Valid()
    ensures status == (
      if folderId !in old(db.folders) then NotFound
      else if old(db.folders[folderId].ownerId) != principal then Forbidden
      else if token in old(db.shares) || !IsValidTime(ExpiresAt(now, days)) then ServerError
      else Ok)
    ensures status != Ok ==> unchanged(db)
    ensures status == Ok ==>
      && db.shares == old(db.shares)[token := ShareLink(folderId, token, ExpiresAt(now, days))]
      && db.users == old(db.users) && db.folders == old(db.folders) && db.files == old(db.files)
      && db.nextUserId == old(db.nextUserId) && db.nextFolderId == old(db.nextFolderId)
      && db.nextFileId == old(db.nextFileId)
  {
    if folderId !in db.folders {
      return NotFound;
    }
    if db.folders[folderId].ownerId != principal {
      return Forbidden;
    }
    if token in db.shares || !IsValidTime(ExpiresAt(now, days)) {
      return ServerError;
    }
    db.shares := db.shares[token := ShareLink(folderId, token, ExpiresAt(now, days))];
    status := Ok;
  }

  /** One file of a shared folder, with a download URL unless signing failed. */
  datatype SharedEntry = SharedEntry(id: int, file: FileRecord, url: Option<BlobStorage.SignedUrl>)

  datatype SharedView = SharedView(folderId: int, folder: Folder, files: seq<SharedEntry>, token: string)

  function SharedId(e: SharedEntry): int { e.id }

  /** The URL a shared file is listed with: `null` when the bucket would not sign one. */
  predicate ListedUrl(file: FileRecord, signed: bool, url: Option<BlobStorage.SignedUrl>) {
    url == if signed then Some(BlobStorage.SignedUrl(file.storagePath, BlobStorage.SignedExpires)) else None
  }

  /** `viewShare`, open to anyone: 404 for an unknown token, 410 once expired; otherwise
      every file of the shared folder exactly once, each with its own URL or none, and
      nothing from any other folder. `signSucceeds` says, per file, whether signing works. */
  method ViewShare(db: MetadataStore, token: string, now: int, signSucceeds: int -> bool)
    returns (r: Response<SharedView>)
    ensures token !in db.shares ==> r == Fail(NotFound)
    ensures token in db.shares && IsExpired(db.shares[token], now) ==> r == Fail(Gone)
    ensures token in db.shares && !IsExpired(db.shares[token], now) && db.shares[token].folderId !in db.folders ==>
      r == Fail(ServerError)
    ensures r.Done? <==>
      token in db.shares && !IsExpired(db.shares[token], now) && db.shares[token].folderId in db.folders
    ensures r.Done? ==>
      && r.value.token == token
      && r.value.folderId == db.shares[token].folderId
      && r.value.folder == db.folders[r.value.folderId]
      && multiset(Ordering.Ids(r.value.files, SharedId)) == multiset(FilesOf(db.files, r.value.folderId))
      && (forall i | 0 <= i < |r.value.files| ::
            && r.value.files[i].id in db.files
            && r.value.files[i].file == db.files[r.value.files[i].id]
            && ListedUrl(r.value.files[i].file, signSucceeds(r.value.files[i].id), r.value.files[i].url))
  {
    if token !in db.shares {
      return Fail(NotFound);
    }
    var link := db.shares[token];
    if IsExpired(link, now) {
      return Fail(Gone);
    }
    if link.folderId !in db.folders {
      return Fail(ServerError);
    }
    var entries := ListShared(db.files, link.folderId, signSucceeds);
    r := Done(SharedView(link.folderId, db.folders[link.folderId], entries, token));
  }

  /** Signs every file of one folder, in no particular order. */
  method ListShared(files: map<int, FileRecord>, folderId: int, signSucceeds: int -> bool)
    returns (entries: seq<SharedEntry>)
    ensures multiset(Ordering.Ids(entries, SharedId)) == multiset(FilesOf(files, folderId))
    ensures forall i | 0 <= i < |entries| ::
      && entries[i].id in files
      && entries[i].file == files[entries[i].id]
      && ListedUrl(entries[i].file, signSucceeds(entries[i].id), entries[i].url)
  {
    var all := FilesOf(files, folderId);
    var rest := all;
    entries := [];
    while rest != {}
      invariant rest <= all
      invariant multiset(Ordering.Ids(entries, SharedId)) == multiset(all - rest)
      invariant forall i | 0 <= i < |entries| ::
        && entries[i].id in files
        && entries[i].file == files[entries[i].id]
        && ListedUrl(entries[i].file, signSucceeds(entries[i].id), entries[i].url)
      decreases |rest|
    {
      Ordering.HasMember(rest);
      var id :| id in rest;
      var url := BlobStorage.CreateSignedUrl(files[id].storagePath, BlobStorage.SignedExpires, signSucceeds(id));
      AppendShared(entries, SharedEntry(id, files[id], url), all, rest);
      entries := entries + [SharedEntry(id, files[id], url)];
      rest := rest - {id};
    }
    assert all - rest == all;
  }

  /** Listing one more file of the set moves its id from the pending part to the done part. */
  lemma AppendShared(entries: seq<SharedEntry>, e: SharedEntry, all: set<int>, rest: set<int>)
    requires e.id in rest && rest <= all
    requires multiset(Ordering.Ids(entries, SharedId)) == multiset(all - rest)
    ensures multiset(Ordering.Ids(entries + [e], SharedId)) == multiset(all - (rest - {e.id}))
  {
    assert Ordering.Ids(entries + [e], SharedId) == Ordering.Ids(entries, SharedId) + [e.id];
    assert all - (rest - {e.id}) == (all - rest) + {e.id};
    assert e.id !in all - rest;
  }

  /** `downloadSharedFile`, open to anyone: 404 for an unknown token, 410 once expired,
      404 unless the id names a file of the shared folder (a non-numeric id never does);
      then a signed URL for that file, or 500 if signing fails. */
  method DownloadSharedFile(db: MetadataStore, token: string, fileIdParam: Option<int>, now: int, signSucceeds: bool)
    returns (r: Response<BlobStorage.SignedUrl>)
    ensures token !in db.shares ==> r == Fail(NotFound)
    ensures token in db.shares && IsExpired(db.shares[token], now) ==> r == Fail(Gone)
    ensures token in db.shares && !IsExpired(db.shares[token], now) ==>
      var folderId := db.shares[token].folderId;
      r == (
        if folderId !in db.folders then Fail(ServerError)
        else if fileIdParam.None? || fileIdParam.value !in FilesOf(db.files, folderId) then Fail(NotFound)
        else if !signSucceeds then Fail(ServerError)
        else Done(BlobStorage.SignedUrl(db.files[fileIdParam.value].storagePath, BlobStorage.SignedExpires)))
  {
    if token !in db.shares {
      return Fail(NotFound);
    }
    var link := db.shares[token];
    if IsExpired(link, now) {
      return Fail(Gone);
    }
    if link.folderId !in db.folders {
      return Fail(ServerError);
    }
    var inFolder := FilesOf(db.files, link.folderId);
    if fileIdParam.None? || fileIdParam.value !in inFolder {
      return Fail(NotFound);
    }
    var file := db.files[fileIdParam.value];
    var url := BlobStorage.CreateSignedUrl(file.storagePath, BlobStorage.SignedExpires, signSucceeds);
    if url.None? {
      return Fail(ServerError);
    }
    r := Done(url.value);
  }

  /** Deleting a shared folder withdraws its links: the token is unknown afterwards,
      whether or not the bucket removed the folder's objects. */
  method ShareDiesWithFolder(db: MetadataStore, blobs: BlobStorage.BlobStore, principal: int, token: string,
                             now: int, removeSucceeds: bool, signSucceeds: int -> bool)
    returns (deleted: Status, view: Response<SharedView>)
    requires db.Valid() && Consistent(db, blobs)
    requires token in db.shares && db.folders[db.shares[token].folderId].ownerId == principal
    modifies db, blobs
    ensures deleted == Ok && view == Fail(NotFound)
  {
    var warning;
    deleted, warning := FolderController.DeleteFolder(db, blobs, principal, Some(db.shares[token].folderId), removeSucceeds);
    view := ViewShare(db, token, now, signSucceeds);
  }
}
