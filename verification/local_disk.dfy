/** The server's upload directory, where the multipart parser leaves each incoming file
    before the controller moves it to the object store. */
module LocalDisk {

  class TempDir {
    var paths: set<string>

    constructor ()
      ensures paths == {}
    {
      paths := {};
    }

    /** `fs.promises.unlink(path)` with its error ignored: afterwards the path is gone. */
    method Unlink(path: string)
      modifies this
      ensures paths == old(paths) - {path}
    {
      paths := paths - {path};
    }
  }
}
