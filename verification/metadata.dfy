/** The relational store of users, folders, files and share links, with the rules that
    keep it consistent with itself and with the object store. */
module Metadata {
  import opened Outcomes
  import Text
  import BlobStorage

  datatype User = User(email: string, password: string, name: Option<string>)

  datatype Folder = Folder(name: string, ownerId: int, createdAt: int, updatedAt: int)

  /** `size` may be missing in a stored row; `storagePath` is the object key. */
  datatype FileRecord = FileRecord(
    folderId: int,
    ownerId: int,
    filename: string,
    originalName: string,
    mimeType: string,
    size: Option<int>,
    storagePath: string,
    uploadedAt: int)

  datatype ShareLink = ShareLink(folderId: int, token: string, expiresAt: int)

  /** The ids of the files stored in folder `folderId`. */
  function FilesOf(files: map<int, FileRecord>, folderId: int): set<int> {
    set id | id in files && files[id].folderId == folderId
  }

  /** The ids of the folders owned by `ownerId`. */
  function FoldersOf(folders: map<int, Folder>, ownerId: int): set<int> {
    set id | id in folders && folders[id].ownerId == ownerId
  }

  /** Whether `ownerId` has a folder called `name`, other than `except`. */
  predicate NameTaken(folders: map<int, Folder>, ownerId: int, name: string, except: Option<int>) {
    exists id | id in folders :: folders[id].ownerId == ownerId && folders[id].name == name && except != Some(id)
  }

  predicate EmailTaken(users: map<int, User>, email: string) {
    exists id | id in users :: users[id].email == email
  }

  /** No owner has two folders of one name, and every name is trimmed and not empty. */
  ghost predicate FolderNamesValid(folders: map<int, Folder>) {
    && (forall id | id in folders :: Text.IsTrimmed(folders[id].name))
    && (forall a, b | a in folders && b in folders && a != b && folders[a].ownerId == folders[b].ownerId ::
          folders[a].name != folders[b].name)
  }

  /** Every file lies in an existing folder, and has that folder's owner. */
  ghost predicate FilesInOwnFolders(folders: map<int, Folder>, files: map<int, FileRecord>) {
    forall id | id in files :: files[id].folderId in folders && files[id].ownerId == folders[files[id].folderId].ownerId
  }

  ghost predicate SharesInFolders(folders: map<int, Folder>, shares: map<string, ShareLink>) {
    forall t | t in shares :: shares[t].token == t && shares[t].folderId in folders
  }

  ghost predicate EmailsUnique(users: map<int, User>) {
    forall a, b | a in users && b in users && a != b :: users[a].email != users[b].email
  }

  class MetadataStore {
    var users: map<int, User>
    var folders: map<int, Folder>
    var files: map<int, FileRecord>
    var shares: map<string, ShareLink>   // by token, which is unique
    var nextUserId: int                  // autoincrement counters
    var nextFolderId: int
    var nextFileId: int

    ghost predicate Valid()
      reads this
    {
      && 0 <= nextUserId && 0 <= nextFolderId && 0 <= nextFileId
      && (forall id | id in users :: 0 <= id < nextUserId)
      && (forall id | id in folders :: 0 <= id < nextFolderId)
      && (forall id | id in files :: 0 <= id < nextFileId)
      && EmailsUnique(users)
      && FolderNamesValid(folders)
      && FilesInOwnFolders(folders, files)
      && SharesInFolders(folders, shares)
    }

    constructor ()
      ensures Valid()
      ensures users == map[] && folders == map[] && files == map[] && shares == map[]
    {
      users, folders, files, shares := map[], map[], map[], map[];
      nextUserId, nextFolderId, nextFileId := 0, 0, 0;
    }
  }

  /** No file points at an object that is not in the bucket, and no two files share an
      object. Objects with no file pointing at them are tolerated. */
  ghost predicate PathsConsistent(files: map<int, FileRecord>, objects: set<string>) {
    && (forall id | id in files :: files[id].storagePath != [] && files[id].storagePath in objects)
    && (forall a, b | a in files && b in files && a != b :: files[a].storagePath != files[b].storagePath)
  }

  ghost predicate Consistent(db: MetadataStore, blobs: BlobStorage.BlobStore)
    reads db, blobs
  {
    PathsConsistent(db.files, blobs.objects)
  }

  /** A folder's own (stored, trimmed) name never counts as taken when the folder itself
      is excluded, so renaming a folder to its current name always passes the check. */
  lemma OwnNameIsFree(folders: map<int, Folder>, id: int)
    requires FolderNamesValid(folders) && id in folders
    ensures !NameTaken(folders, folders[id].ownerId, Text.Trim(folders[id].name), Some(id))
  {
    Text.TrimOfTrimmed(folders[id].name);
  }
}
