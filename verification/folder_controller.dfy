/** The folder pages: the dashboard listing, and creating, viewing, renaming and
    deleting one folder. Every handler runs for a signed-in principal. */
module FolderController {
  import opened Outcomes
  import opened Metadata
  import Text
  import Ordering
  import BlobStorage

  /** A dashboard row: a folder with the number of files in it. */
  datatype FolderSummary = FolderSummary(id: int, folder: Folder, fileCount: nat)

  datatype FileEntry = FileEntry(id: int, file: FileRecord)

  /** The folder page: the folder, its files newest first, and two derived figures. */
  datatype FolderView = FolderView(id: int, folder: Folder, files: seq<FileEntry>, totalSize: int, fileCount: nat)

  function SummaryId(s: FolderSummary): int { s.id }

  function EntryId(e: FileEntry): int { e.id }

  /** A file's size as the page adds it up: a missing size counts as 0. */
  function SizeOrZero(f: FileRecord): int {
    f.size.GetOr(0)
  }

  /** The folder page's total size: the sizes of the listed files added up from the
      first to the last, a file without a size adding nothing. */
  function SumSizes(entries: seq<FileEntry>): int {
    if entries == [] then 0 else SumSizes(entries[..|entries| - 1]) + SizeOrZero(entries[|entries| - 1].file)
  }

  lemma {:induction false} SumSizesAppend(a: seq<FileEntry>, b: seq<FileEntry>)
    ensures SumSizes(a + b) == SumSizes(a) + SumSizes(b)
    decreases |b|
  {
    if b == [] {
      assert a + b == a;
    } else {
      var b' := b[..|b| - 1];
      assert (a + b)[..|a + b| - 1] == a + b';
      SumSizesAppend(a, b');
    }
  }

  /** The total does not depend on the order the files are listed in. */
  lemma {:induction false} SumSizesPermutation(a: seq<FileEntry>, b: seq<FileEntry>)
    requires multiset(a) == multiset(b)
    ensures SumSizes(a) == SumSizes(b)
    decreases |a|
  {
    if a == [] {
      assert |b| == |multiset(b)| == 0;
    } else {
      var x := a[|a| - 1];
      var a' := a[..|a| - 1];
      assert a == a' + [x];
      assert x in multiset(b);
      var k :| 0 <= k < |b| && b[k] == x;
      var b' := b[..k] + b[k + 1..];
      assert b == b[..k] + [x] + b[k + 1..];
      assert multiset(b) == multiset(b[..k]) + multiset{x} + multiset(b[k + 1..]);
      assert multiset(a) == multiset(a') + multiset{x};
      assert multiset(b') == multiset(b[..k]) + multiset(b[k + 1..]);
      assert multiset(a') == multiset(a) - multiset{x};
      assert multiset(b') == multiset(b) - multiset{x};
      SumSizesPermutation(a', b');
      SumSizesAppend(b[..k] + [x], b[k + 1..]);
      SumSizesAppend(b[..k], [x]);
      SumSizesAppend(b[..k], b[k + 1..]);
      assert SumSizes([x]) == SizeOrZero(x.file) by {
        assert [x][..0] == [];
      }
    }
  }

  /** When every size is known and not negative, so is the total. */
  lemma {:induction false} SumSizesNonNegative(entries: seq<FileEntry>)
    requires forall i | 0 <= i < |entries| :: entries[i].file.size.Some? ==> entries[i].file.size.value >= 0
    ensures SumSizes(entries) >= 0
  {
    if entries != [] {
      SumSizesNonNegative(entries[..|entries| - 1]);
    }
  }

  /** The running sum of `reduce`, file by file. */
  method TotalSize(entries: seq<FileEntry>) returns (total: int)
    ensures total == SumSizes(entries)
  {
    total := 0;
    for i := 0 to |entries|
      invariant total == SumSizes(entries[..i])
    {
      assert entries[..i + 1][..i] == entries[..i];
      total := total + SizeOrZero(entries[i].file);
    }
    assert entries[..|entries|] == entries;
  }

  /** `dashboard`: the principal's folders, most recently updated first, each with its
      file count; nobody else's folders appear. */
  method Dashboard(db: MetadataStore, principal: int) returns (list: seq<FolderSummary>)
    ensures multiset(Ordering.Ids(list, SummaryId)) == multiset(FoldersOf(db.folders, principal))
    ensures forall i | 0 <= i < |list| ::
      && list[i].id in db.folders
      && list[i].folder == db.folders[list[i].id]
      && list[i].folder.ownerId == principal
      && list[i].fileCount == |FilesOf(db.files, list[i].id)|
    ensures forall i, j | 0 <= i < j < |list| :: list[i].folder.updatedAt >= list[j].folder.updatedAt
  {
    var folders := db.folders;
    var files := db.files;
    var key := (id: int) => if id in folders then folders[id].updatedAt else 0;
    var order := Ordering.SortDesc(FoldersOf(folders, principal), key);
    assert forall i | 0 <= i < |order| :: order[i] in FoldersOf(folders, principal) by {
      forall i | 0 <= i < |order| ensures order[i] in FoldersOf(folders, principal) {
        assert order[i] in multiset(order);
      }
    }
    list := seq(|order|, i requires 0 <= i < |order| =>
      FolderSummary(order[i], folders[order[i]], |FilesOf(files, order[i])|));
    assert Ordering.Ids(list, SummaryId) == order;
  }

  /** `createFolder`: a blank name is refused; so is a trimmed name the principal already
      uses for a folder; otherwise exactly one folder is added, under the trimmed name. */
  method CreateFolder(db: MetadataStore, principal: int, name: Option<string>, now: int)
    returns (status: Status, id: int)
    requires db.Valid()
    modifies db
    ensures db.Valid()
    ensures status == (
      if name.None? || Text.IsBlank(name.value) then BadRequest
      else if NameTaken(old(db.folders), principal, Text.Trim(name.value), None) then Conflict
      else Ok)
    ensures status != Ok ==> unchanged(db)
    ensures status == Ok ==>
      && id == old(db.nextFolderId) && id !in old(db.folders)
      && db.folders == old(db.folders)[id := Folder(Text.Trim(name.value), principal, now, now)]
      && db.nextFolderId == id + 1
      && db.users == old(db.users) && db.files == old(db.files) && db.shares == old(db.shares)
      && db.nextUserId == old(db.nextUserId) && db.nextFileId == old(db.nextFileId)
  {
    id := -1;
    if name.None? || Text.Trim(name.value) == [] {
      return BadRequest, id;
    }
    var trimmed := Text.Trim(name.value);
    if NameTaken(db.folders, principal, trimmed, None) {
      return Conflict, id;
    }
    id := AddFolder(db, Folder(trimmed, principal, now, now));
    status := Ok;
  }

  /** Adds a folder under the next id; its name must be trimmed and free for its owner. */
  method AddFolder(db: MetadataStore, f: Folder) returns (id: int)
    requires db.Valid() && Text.IsTrimmed(f.name) && !NameTaken(db.folders, f.ownerId, f.name, None)
    modifies db
    ensures db.Valid()
    ensures id == old(db.nextFolderId) && id !in old(db.folders)
    ensures db.folders == old(db.folders)[id := f] && db.nextFolderId == id + 1
    ensures db.users == old(db.users) && db.files == old(db.files) && db.shares == old(db.shares)
    ensures db.nextUserId == old(db.nextUserId) && db.nextFileId == old(db.nextFileId)
  {
    id := db.nextFolderId;
    AddKeepsInvariants(db.folders, db.files, db.shares, id, f);
    db.folders := db.folders[id := f];
    db.nextFolderId := id + 1;
  }

  lemma AddKeepsInvariants(folders: map<int, Folder>, files: map<int, FileRecord>,
                           shares: map<string, ShareLink>, id: int, f: Folder)
    requires FolderNamesValid(folders) && FilesInOwnFolders(folders, files) && SharesInFolders(folders, shares)
    requires id !in folders && Text.IsTrimmed(f.name) && !NameTaken(folders, f.ownerId, f.name, None)
    ensures var added := folders[id := f];
      FolderNamesValid(added) && FilesInOwnFolders(added, files) && SharesInFolders(added, shares)
  {
  }

  /** `viewFolder`: checks, in order, a numeric id, an existing folder and ownership, and
      hands out no folder data unless all three pass. */
  method ViewFolder(db: MetadataStore, principal: int, idParam: Option<int>) returns (r: Response<FolderView>)
    ensures idParam.None? ==> r == Fail(BadRequest)
    ensures idParam.Some? && idParam.value !in db.folders ==> r == Fail(NotFound)
    ensures idParam.Some? && idParam.value in db.folders && db.folders[idParam.value].ownerId != principal ==>
      r == Fail(Forbidden)
    ensures r.Done? <==> idParam.Some? && idParam.value in db.folders && db.folders[idParam.value].ownerId == principal
    ensures r.Done? ==>
      && r.value.id == idParam.value
      && r.value.folder == db.folders[r.value.id]
      && multiset(Ordering.Ids(r.value.files, EntryId)) == multiset(FilesOf(db.files, r.value.id))
      && (forall i | 0 <= i < |r.value.files| ::
            r.value.files[i].id in db.files && r.value.files[i].file == db.files[r.value.files[i].id])
      && (forall i, j | 0 <= i < j < |r.value.files| ::
            r.value.files[i].file.uploadedAt >= r.value.files[j].file.uploadedAt)
      && r.value.fileCount == |FilesOf(db.files, r.value.id)|
      && r.value.totalSize == SumSizes(r.value.files)
  {
    if idParam.None? {
      return Fail(BadRequest);
    }
    var id := idParam.value;
    if id !in db.folders {
      return Fail(NotFound);
    }
    var folder := db.folders[id];
    if folder.ownerId != principal {
      return Fail(Forbidden);
    }
    var files := db.files;
    var key := (f: int) => if f in files then files[f].uploadedAt else 0;
    var order := Ordering.SortDesc(FilesOf(files, id), key);
    assert forall i | 0 <= i < |order| :: order[i] in FilesOf(files, id) by {
      forall i | 0 <= i < |order| ensures order[i] in FilesOf(files, id) {
        assert order[i] in multiset(order);
      }
    }
    var entries := seq(|order|, i requires 0 <= i < |order| => FileEntry(order[i], files[order[i]]));
    assert Ordering.Ids(entries, EntryId) == order;
    var totalSize := TotalSize(entries);
    assert |FilesOf(files, id)| == |multiset(FilesOf(files, id))| == |multiset(order)| == |entries|;
    r := Done(FolderView(id, folder, entries, totalSize, |entries|));
  }

  /** `updateFolder`: checks, in order, a numeric id, a non-blank name, an existing folder,
      ownership and a name not used by another of the principal's folders; then changes
      the name (trimmed) and nothing else. */
  method UpdateFolder(db: MetadataStore, principal: int, idParam: Option<int>, name: Option<string>, now: int)
    returns (status: Status)
    requires db.Valid()
    modifies db
    ensures db.Valid()
    ensures status == (
      if idParam.None? then BadRequest
      else if name.None? || Text.IsBlank(name.value) then BadRequest
      else if idParam.value !in old(db.folders) then NotFound
      else if old(db.folders[idParam.value].ownerId) != principal then Forbidden
      else if NameTaken(old(db.folders), principal, Text.Trim(name.value), idParam) then Conflict
      else Ok)
    ensures status != Ok ==> unchanged(db)
    ensures status == Ok ==>
      && db.folders == old(db.folders)[idParam.value :=
           old(db.folders[idParam.value]).(name := Text.Trim(name.value), updatedAt := now)]
      && db.users == old(db.users) && db.files == old(db.files) && db.shares == old(db.shares)
      && db.nextUserId == old(db.nextUserId) && db.nextFolderId == old(db.nextFolderId)
      && db.nextFileId == old(db.nextFileId)
  {
    if idParam.None? {
      return BadRequest;
    }
    var id := idParam.value;
    if name.None? || Text.Trim(name.value) == [] {
      return BadRequest;
    }
    if id !in db.folders {
      return NotFound;
    }
    var folder := db.folders[id];
    if folder.ownerId != principal {
      return Forbidden;
    }
    var trimmed := Text.Trim(name.value);
    if NameTaken(db.folders, principal, trimmed, Some(id)) {
      return Conflict;
    }
    RenameFolder(db, id, trimmed, now);
    status := Ok;
  }

  /** Renames one folder and refreshes its update time; the new name must be trimmed and
      unused by the owner's other folders. */
  method RenameFolder(db: MetadataStore, id: int, name: string, now: int)
    requires db.Valid() && id in db.folders && Text.IsTrimmed(name)
    requires !NameTaken(db.folders, db.folders[id].ownerId, name, Some(id))
    modifies db
    ensures db.Valid()
    ensures db.folders == old(db.folders)[id := old(db.folders[id]).(name := name, updatedAt := now)]
    ensures db.users == old(db.users) && db.files == old(db.files) && db.shares == old(db.shares)
    ensures db.nextUserId == old(db.nextUserId) && db.nextFolderId == old(db.nextFolderId)
    ensures db.nextFileId == old(db.nextFileId)
  {
    RenameKeepsInvariants(db.folders, db.files, db.shares, id, name, now);
    db.folders := db.folders[id := db.folders[id].(name := name, updatedAt := now)];
  }

  lemma RenameKeepsInvariants(folders: map<int, Folder>, files: map<int, FileRecord>,
                              shares: map<string, ShareLink>, id: int, name: string, now: int)
    requires FolderNamesValid(folders) && FilesInOwnFolders(folders, files) && SharesInFolders(folders, shares)
    requires id in folders && Text.IsTrimmed(name)
    requires !NameTaken(folders, folders[id].ownerId, name, Some(id))
    ensures var renamed := folders[id := folders[id].(name := name, updatedAt := now)];
      FolderNamesValid(renamed) && FilesInOwnFolders(renamed, files) && SharesInFolders(renamed, shares)
  {
    var renamed := folders[id := folders[id].(name := name, updatedAt := now)];
    forall a, b | a in renamed && b in renamed && a != b && renamed[a].ownerId == renamed[b].ownerId
      ensures renamed[a].name != renamed[b].name
    {
      if a == id {
        assert folders[b].name != name;
      } else if b == id {
        assert folders[a].name != name;
      }
    }
  }

  lemma DeleteKeepsInvariants(folders: map<int, Folder>, files: map<int, FileRecord>,
                              shares: map<string, ShareLink>, id: int)
    requires FolderNamesValid(folders) && FilesInOwnFolders(folders, files) && SharesInFolders(folders, shares)
    ensures FolderNamesValid(folders - {id})
    ensures FilesInOwnFolders(folders - {id}, FilesOutside(files, id))
    ensures SharesInFolders(folders - {id}, SharesOutside(shares, id))
  {
  }

  /** Deleting a folder's files keeps every remaining file's object in the bucket, whether
      or not the removal of the folder's objects went through. */
  lemma DeleteKeepsPaths(files: map<int, FileRecord>, objects: set<string>, id: int, removed: bool)
    requires PathsConsistent(files, objects)
    ensures PathsConsistent(FilesOutside(files, id),
                            if removed then objects - StoragePathsOf(files, id) else objects)
  {
  }

  /** The object keys a folder deletion asks the bucket to remove: the non-empty
      storage paths of the folder's files. */
  function StoragePathsOf(files: map<int, FileRecord>, folderId: int): set<string> {
    set id | id in files && files[id].folderId == folderId && files[id].storagePath != [] :: files[id].storagePath
  }

  /** The store after a folder row is deleted: its files and share links go with it. */
  function FilesOutside(files: map<int, FileRecord>, folderId: int): map<int, FileRecord> {
    map id | id in files && files[id].folderId != folderId :: files[id]
  }

  function SharesOutside(shares: map<string, ShareLink>, folderId: int): map<string, ShareLink> {
    map t | t in shares && shares[t].folderId != folderId :: shares[t]
  }

  /** `deleteFolder`: after the id, existence and ownership checks, one removal call for
      exactly the folder's non-empty storage paths (none when there are none), then the
      folder and everything in it leave the store whatever the bucket answered; a failed
      removal only raises a warning. */
  method DeleteFolder(db: MetadataStore, blobs: BlobStorage.BlobStore, principal: int, idParam: Option<int>,
                      removeSucceeds: bool)
    returns (status: Status, warning: bool)
    requires db.Valid() && Consistent(db, blobs)
    modifies db, blobs
    ensures db.Valid() && Consistent(db, blobs)
    ensures status == (
      if idParam.None? then BadRequest
      else if idParam.value !in old(db.folders) then NotFound
      else if old(db.folders[idParam.value].ownerId) != principal then Forbidden
      else Ok)
    ensures status != Ok ==> unchanged(db) && unchanged(blobs) && !warning
    ensures status == Ok ==>
      var id := idParam.value;
      var paths := StoragePathsOf(old(db.files), id);
      && (paths == {} ==> unchanged(blobs) && !warning)
      && (paths != {} ==>
            && blobs.calls == old(blobs.calls) + [BlobStorage.RemoveObjects(paths)]
            && blobs.objects == (if removeSucceeds then old(blobs.objects) - paths else old(blobs.objects))
            && warning == !removeSucceeds)
      && db.folders == old(db.folders) - {id}
      && db.files == FilesOutside(old(db.files), id)
      && db.shares == SharesOutside(old(db.shares), id)
      && db.users == old(db.users)
      && db.nextUserId == old(db.nextUserId) && db.nextFolderId == old(db.nextFolderId)
      && db.nextFileId == old(db.nextFileId)
  {
    warning := false;
    if idParam.None? {
      return BadRequest, warning;
    }
    var id := idParam.value;
    if id !in db.folders {
      return NotFound, warning;
    }
    if db.folders[id].ownerId != principal {
      return Forbidden, warning;
    }
    var paths := StoragePathsOf(db.files, id);
    DeleteKeepsInvariants(db.folders, db.files, db.shares, id);
    DeleteKeepsPaths(db.files, blobs.objects, id, paths != {} && removeSucceeds);
    if paths != {} {
      var ok := blobs.Remove(paths, removeSucceeds);
      warning := !ok;
    }
    db.folders := db.folders - {id};
    db.files := FilesOutside(db.files, id);
    db.shares := SharesOutside(db.shares, id);
    status := Ok;
  }

  /** Creating a folder twice under names that trim alike: the first succeeds, the
      second is refused as a duplicate and adds nothing. */
  method CreateTwice(db: MetadataStore, principal: int, first: string, second: string, now: int)
    returns (s1: Status, s2: Status)
    requires db.Valid() && !Text.IsBlank(first) && Text.Trim(second) == Text.Trim(first)
    requires !NameTaken(db.folders, principal, Text.Trim(first), None)
    modifies db
    ensures db.Valid()
    ensures s1 == Ok && s2 == Conflict
    ensures |db.folders.Keys| == |old(db.folders).Keys| + 1
  {
    var id;
    s1, id := CreateFolder(db, principal, Some(first), now);
    assert db.folders[id].ownerId == principal && db.folders[id].name == Text.Trim(first);
    assert !Text.IsBlank(second);
    s2, id := CreateFolder(db, principal, Some(second), now);
  }
}
