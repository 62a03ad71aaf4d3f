/**
 * Folder contents and the file index both programs build from them: the
 * server's `list_files` reply and the client's `_get_local_file_data`. A
 * folder is a map from entry name to entry; MD5 is a parameter.
 */
module Index {
  import opened Wrappers
  import opened Text

  /** A directory entry: a regular file (which may be unreadable) or anything else. */
  datatype Entry =
    | File(content: seq<byte>, mtime: real, readable: bool)
    | Other

  type Folder = map<string, Entry>

  /** An MD5 hex digest: always 32 characters, so never falsy. */
  type Digest = s: string | |s| == 32 witness "d41d8cd98f00b204e9800998ecf8427e"

  /** The record kept per file: `{'size': ..., 'hash': ..., 'mtime': ...}`. */
  datatype FileInfo = FileInfo(size: nat, hash: Digest, mtime: real)

  /** Whether an entry is indexed: a regular file whose content could be read and hashed. */
  predicate Indexed(e: Entry) {
    e.File? && e.readable
  }

  /** `get_file_info` of a readable file. */
  function InfoOf(e: Entry, md5: seq<byte> -> Digest): FileInfo
    requires e.File?
  {
    FileInfo(|e.content|, md5(e.content), e.mtime)
  }

  /** The index of a folder: one record for each readable regular file, and nothing else. */
  function Listed(folder: Folder, md5: seq<byte> -> Digest): (r: map<string, FileInfo>)
    ensures forall n | n in r :: n in folder && Indexed(folder[n])
    ensures forall n | n in folder && Indexed(folder[n]) :: n in r && r[n] == InfoOf(folder[n], md5)
  {
    map n | n in folder && Indexed(folder[n]) :: InfoOf(folder[n], md5)
  }

  /**
   * The server's `list_files` loop: every listed entry that is a regular
   * file and whose information could be read gets a record. The order in
   * which the directory is listed does not matter.
   */
  method ListFiles(folder: Folder, md5: seq<byte> -> Digest) returns (files: map<string, FileInfo>)
    ensures files == Listed(folder, md5)
  {
    files := map[];
    var todo := folder.Keys;
    while todo != {}
      invariant todo <= folder.Keys
      invariant forall n :: n in files <==> n in folder && n !in todo && Indexed(folder[n])
      invariant forall n | n in files :: files[n] == InfoOf(folder[n], md5)
      decreases todo
    {
      var name :| name in todo;
      var entry := folder[name];
      if entry.File? {
        if entry.readable {
          files := files[name := InfoOf(entry, md5)];
        }
      }
      todo := todo - {name};
    }
  }

  /**
   * The client's `_get_local_file_data`: an empty index when the folder does
   * not exist, otherwise a record for each regular file that could be hashed.
   */
  method LocalFileData(folder: Option<Folder>, md5: seq<byte> -> Digest) returns (files: map<string, FileInfo>)
    ensures folder.None? ==> files == map[]
    ensures folder.Some? ==> files == Listed(folder.value, md5)
  {
    files := map[];
    if folder.None? {
      return;
    }
    var entries := folder.value;
    var todo := entries.Keys;
    while todo != {}
      invariant todo <= entries.Keys
      invariant forall n :: n in files <==> n in entries && n !in todo && Indexed(entries[n])
      invariant forall n | n in files :: files[n] == InfoOf(entries[n], md5)
      decreases todo
    {
      var name :| name in todo;
      if entries[name].File? {
        var hash := if entries[name].readable then Some(md5(entries[name].content)) else None;
        if hash.Some? {
          files := files[name := FileInfo(|entries[name].content|, hash.value, entries[name].mtime)];
        }
      }
      todo := todo - {name};
    }
  }

  /** Indexing only looks at regular readable files: adding anything else changes nothing. */
  lemma ListedIgnoresOthers(folder: Folder, name: string, e: Entry, md5: seq<byte> -> Digest)
    requires name !in folder && !Indexed(e)
    ensures Listed(folder[name := e], md5) == Listed(folder, md5)
  {
    var a := Listed(folder[name := e], md5);
    var b := Listed(folder, md5);
    assert a.Keys == b.Keys;
  }

  /** Writing a readable file adds or replaces exactly its own record. */
  lemma ListedAfterWrite(folder: Folder, name: string, content: seq<byte>, mtime: real, md5: seq<byte> -> Digest)
    ensures Listed(folder[name := File(content, mtime, true)], md5)
      == Listed(folder, md5)[name := FileInfo(|content|, md5(content), mtime)]
  {
    var a := Listed(folder[name := File(content, mtime, true)], md5);
    var b := Listed(folder, md5)[name := FileInfo(|content|, md5(content), mtime)];
    assert a.Keys == b.Keys;
  }
}
