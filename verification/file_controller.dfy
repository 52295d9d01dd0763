/** The file handlers: upload into a folder, download through a signed URL, delete.
    Every handler runs for a signed-in principal. */
module FileController {
  import opened Outcomes
  import opened Metadata
  import Text
  import BlobStorage
  import LocalDisk

  /** The file the multipart parser left on disk: `req.file`. */
  datatype UploadedFile = UploadedFile(path: string, originalname: string, mimetype: string, size: int)

  /** The object key of an upload: `{userId}/{folderId}/{uuid}-{originalname}`. */
  function StorageKey(userId: int, folderId: int, uuid: string, originalname: string): string {
    Text.IntToString(userId) + "/" + Text.IntToString(folderId) + "/" + uuid + "-" + originalname
  }

  /** The `filename` column, `path.basename(key)`, is `{uuid}-{originalname}` whenever the
      original name holds no slash. */
  lemma StorageKeyBasename(userId: int, folderId: int, uuid: string, originalname: string)
    requires Text.IsUuidV4(uuid) && '/' !in originalname
    ensures Text.Basename(StorageKey(userId, folderId, uuid, originalname)) == uuid + "-" + originalname
  {
    Text.UuidHasNoSlash(uuid);
    var tail := uuid + "-" + originalname;
    assert '/' !in tail by {
      forall k | 0 <= k < |tail| ensures tail[k] != '/' {
        if k < |uuid| { assert tail[k] == uuid[k]; }
        else if k > |uuid| { assert tail[k] == originalname[k - |uuid| - 1]; }
      }
    }
    var prefix := Text.IntToString(userId) + "/" + Text.IntToString(folderId);
    assert StorageKey(userId, folderId, uuid, originalname) == prefix + "/" + tail;
    Text.BasenameOfTail(prefix, tail);
  }

  /** Two uploads of one name into one folder by one user get distinct keys as long as
      their UUIDs differ. */
  lemma DistinctUuidsGiveDistinctKeys(userId: int, folderId: int, u1: string, u2: string, originalname: string)
    requires Text.IsUuidV4(u1) && Text.IsUuidV4(u2) && u1 != u2
    ensures StorageKey(userId, folderId, u1, originalname) != StorageKey(userId, folderId, u2, originalname)
  {
    var prefix := Text.IntToString(userId) + "/" + Text.IntToString(folderId) + "/";
    var k1 := StorageKey(userId, folderId, u1, originalname);
    var k2 := StorageKey(userId, folderId, u2, originalname);
    assert k1 == prefix + u1 + "-" + originalname;
    assert k2 == prefix + u2 + "-" + originalname;
    var i :| 0 <= i < 36 && u1[i] != u2[i];
    assert k1[|prefix| + i] == u1[i];
    assert k2[|prefix| + i] == u2[i];
  }

  /** `uploadFile`. With no file: 400 and nothing touched. Otherwise the temp file is gone
      afterwards on every path; a missing (404) or foreign (403) folder leaves the bucket
      and the store alone; the object is written under a fresh key without overwriting,
      and a file row pointing at it is added only if that write succeeded. */
  method UploadFile(db: MetadataStore, blobs: BlobStorage.BlobStore, temp: LocalDisk.TempDir,
                    principal: int, folderId: int, file: Option<UploadedFile>, uuid: string,
                    uploadSucceeds: bool, now: int)
    returns (status: Status, fileId: int)
    requires db.Valid() && Consistent(db, blobs)
    modifies db, blobs, temp
    ensures db.Valid() && Consistent(db, blobs)
    ensures file.None? ==> status == BadRequest && unchanged(db) && unchanged(blobs) && unchanged(temp)
    ensures file.Some? ==> temp.paths == old(temp.paths) - {file.value.path}
    ensures file.Some? ==>
      var key := StorageKey(principal, folderId, uuid, file.value.originalname);
      status == (
        if folderId !in old(db.folders) then NotFound
        else if old(db.folders[folderId].ownerId) != principal then Forbidden
        else if !uploadSucceeds || key in old(blobs.objects) then ServerError
        else Ok)
    ensures status in {BadRequest, NotFound, Forbidden} ==> unchanged(db) && unchanged(blobs)
    ensures status in {ServerError, Ok} ==>
      blobs.calls == old(blobs.calls) + [BlobStorage.PutObject(StorageKey(principal, folderId, uuid, file.value.originalname), file.value.mimetype)]
    ensures status == ServerError ==> unchanged(db) && blobs.objects == old(blobs.objects)
    ensures status == Ok ==>
      var key := StorageKey(principal, folderId, uuid, file.value.originalname);
      && fileId == old(db.nextFileId) && fileId !in old(db.files)
      && blobs.objects == old(blobs.objects) + {key}
      && db.files == old(db.files)[fileId := FileRecord(folderId, principal, Text.Basename(key),
           file.value.originalname, file.value.mimetype, Some(file.value.size), key, now)]
      && db.nextFileId == fileId + 1
      && db.users == old(db.users) && db.folders == old(db.folders) && db.shares == old(db.shares)
      && db.nextUserId == old(db.nextUserId) && db.nextFolderId == old(db.nextFolderId)
  {
    fileId := -1;
    if file.None? {
      return BadRequest, fileId;
    }
    var upload := file.value;
    if folderId !in db.folders {
      temp.Unlink(upload.path);
      return NotFound, fileId;
    }
    if db.folders[folderId].ownerId != principal {
      temp.Unlink(upload.path);
      return Forbidden, fileId;
    }
    var key := StorageKey(principal, folderId, uuid, upload.originalname);
    var ok := blobs.Upload(key, upload.mimetype, uploadSucceeds);
    temp.Unlink(upload.path);
    if !ok {
      return ServerError, fileId;
    }
    var record := FileRecord(folderId, principal, Text.Basename(key), upload.originalname, upload.mimetype,
                             Some(upload.size), key, now);
    InsertKeepsPaths(db.files, old(blobs.objects), db.nextFileId, record);
    fileId := InsertFile(db, record);
    status := Ok;
  }

  /** Adds a file row under the next id; the row must lie in a folder of its own owner. */
  method InsertFile(db: MetadataStore, record: FileRecord) returns (id: int)
    requires db.Valid()
    requires record.folderId in db.folders && record.ownerId == db.folders[record.folderId].ownerId
    modifies db
    ensures db.Valid()
    ensures id == old(db.nextFileId) && id !in old(db.files)
    ensures db.files == old(db.files)[id := record] && db.nextFileId == id + 1
    ensures db.users == old(db.users) && db.folders == old(db.folders) && db.shares == old(db.shares)
    ensures db.nextUserId == old(db.nextUserId) && db.nextFolderId == old(db.nextFolderId)
  {
    id := db.nextFileId;
    db.files := db.files[id := record];
    db.nextFileId := id + 1;
  }

  /** A new row whose object was just written, under a key that was free, keeps every
      file pointing at its own object in the bucket. */
  lemma InsertKeepsPaths(files: map<int, FileRecord>, objects: set<string>, id: int, record: FileRecord)
    requires PathsConsistent(files, objects) && id !in files
    requires record.storagePath != [] && record.storagePath !in objects
    ensures PathsConsistent(files[id := record], objects + {record.storagePath})
  {
  }

  /** Download is open to the file's owner and to the owner of its folder. When the row
      names a folder that is not there and the principal does not own the file, reading
      the folder's owner fails: the request ends in a server error. */
  datatype Access = Allowed | Denied | Broken

  function DownloadAccess(folders: map<int, Folder>, f: FileRecord, principal: int): (a: Access)
    ensures a == Allowed <==> f.ownerId == principal || (f.folderId in folders && folders[f.folderId].ownerId == principal)
    ensures a == Broken <==> f.ownerId != principal && f.folderId !in folders
  {
    if f.ownerId == principal then Allowed
    else if f.folderId !in folders then Broken
    else if folders[f.folderId].ownerId == principal then Allowed
    else Denied
  }

  /** Deletion is stricter than download: whoever may delete a file may download it, and
      in a valid store the two rules agree, since a file has its folder's owner. */
  lemma DeleteRuleImpliesDownloadRule(folders: map<int, Folder>, files: map<int, FileRecord>, id: int, principal: int)
    requires id in files
    ensures files[id].ownerId == principal ==> DownloadAccess(folders, files[id], principal) == Allowed
    ensures FilesInOwnFolders(folders, files) ==>
      (DownloadAccess(folders, files[id], principal) == Allowed <==> files[id].ownerId == principal)
  {
  }

  /** `downloadFile`: 404 for an unknown id, 403 unless the principal owns the file or its
      folder; then a signed URL for the file's object with the configured lifetime, or
      500 if the bucket will not sign one. */
  method DownloadFile(db: MetadataStore, principal: int, fileId: int, signSucceeds: bool)
    returns (r: Response<BlobStorage.SignedUrl>)
    ensures fileId !in db.files ==> r == Fail(NotFound)
    ensures fileId in db.files ==>
      match DownloadAccess(db.folders, db.files[fileId], principal)
      case Denied => r == Fail(Forbidden)
      case Broken => r == Fail(ServerError)
      case Allowed => r == if signSucceeds then Done(BlobStorage.SignedUrl(db.files[fileId].storagePath, BlobStorage.SignedExpires))
                           else Fail(ServerError)
  {
    if fileId !in db.files {
      return Fail(NotFound);
    }
    var f := db.files[fileId];
    var access := DownloadAccess(db.folders, f, principal);
    if access == Broken {
      return Fail(ServerError);
    }
    if access == Denied {
      return Fail(Forbidden);
    }
    var url := BlobStorage.CreateSignedUrl(f.storagePath, BlobStorage.SignedExpires, signSucceeds);
    if url.None? {
      return Fail(ServerError);
    }
    r := Done(url.value);
  }

  /** `deleteFile`: 404 for an unknown id, 403 unless the principal owns the file; then
      one removal call for its object, and the row goes whatever the bucket answered. */
  method DeleteFile(db: MetadataStore, blobs: BlobStorage.BlobStore, principal: int, id: int, removeSucceeds: bool)
    returns (status: Status)
    requires db.Valid() && Consistent(db, blobs)
    modifies db, blobs
    ensures db.Valid() && Consistent(db, blobs)
    ensures status == (
      if id !in old(db.files) then NotFound
      else if old(db.files[id].ownerId) != principal then Forbidden
      else Ok)
    ensures status != Ok ==> unchanged(db) && unchanged(blobs)
    ensures status == Ok ==>
      var path := old(db.files[id].storagePath);
      && blobs.calls == old(blobs.calls) + [BlobStorage.RemoveObjects({path})]
      && blobs.objects == (if removeSucceeds then old(blobs.objects) - {path} else old(blobs.objects))
      && db.files == old(db.files) - {id} && id !in db.files
      && db.users == old(db.users) && db.folders == old(db.folders) && db.shares == old(db.shares)
      && db.nextUserId == old(db.nextUserId) && db.nextFolderId == old(db.nextFolderId)
      && db.nextFileId == old(db.nextFileId)
  {
    if id !in db.files {
      return NotFound;
    }
    var f := db.files[id];
    if f.ownerId != principal {
      return Forbidden;
    }
    RemoveKeepsPaths(db.files, blobs.objects, id, removeSucceeds);
    var ok := blobs.Remove({f.storagePath}, removeSucceeds);
    db.files := db.files - {id};
    status := Ok;
  }

  lemma RemoveKeepsPaths(files: map<int, FileRecord>, objects: set<string>, id: int, removed: bool)
    requires PathsConsistent(files, objects) && id in files
    ensures PathsConsistent(files - {id}, if removed then objects - {files[id].storagePath} else objects)
  {
  }

  /** An upload that succeeds can be fetched straight back by its uploader: the signed URL
      names the very key the object was written under. */
  method UploadThenDownload(db: MetadataStore, blobs: BlobStorage.BlobStore, temp: LocalDisk.TempDir,
                            principal: int, folderId: int, file: UploadedFile, uuid: string, now: int)
    returns (status: Status, r: Response<BlobStorage.SignedUrl>)
    requires db.Valid() && Consistent(db, blobs)
    requires folderId in db.folders && db.folders[folderId].ownerId == principal
    requires StorageKey(principal, folderId, uuid, file.originalname) !in blobs.objects
    modifies db, blobs, temp
    ensures status == Ok
    ensures r == Done(BlobStorage.SignedUrl(StorageKey(principal, folderId, uuid, file.originalname), BlobStorage.SignedExpires))
    ensures StorageKey(principal, folderId, uuid, file.originalname) in blobs.objects
  {
    var id;
    status, id := UploadFile(db, blobs, temp, principal, folderId, Some(file), uuid, true, now);
    r := DownloadFile(db, principal, id, true);
  }
}
