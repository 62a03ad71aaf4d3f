/**
 * `smart_sync_thread`: after highlighting, the rows tagged as newer or only
 * on the server are downloaded, then the rows tagged as newer or only on
 * this side are uploaded, then the lists are refreshed.
 */
module SmartSync {
  import opened Wrappers
  import opened Classifier

  /** `{'name': ..., 'size': ..., 'mtime': ...}`, one file to download. */
  datatype DownloadEntry = DownloadEntry(name: Name, size: int, mtime: real)

  /** `tree.item(iid, 'tags')`: a row without tags has none. */
  function TagsAt(tags: map<Name, seq<Tag>>, n: Name): seq<Tag> {
    if n in tags then tags[n] else []
  }

  predicate WantsDownload(tags: map<Name, seq<Tag>>, row: Row) {
    ServerNewer in TagsAt(tags, row.name) || ServerOnly in TagsAt(tags, row.name)
  }

  predicate WantsUpload(tags: map<Name, seq<Tag>>, row: Row) {
    LocalNewer in TagsAt(tags, row.name) || LocalOnly in TagsAt(tags, row.name)
  }

  function EntryOf(row: Row): DownloadEntry {
    DownloadEntry(row.name, row.size, row.mtime)
  }

  /** The download list: the server rows tagged `server_newer` or `server_only`, in tree order. */
  function DownloadList(rows: seq<Row>, tags: map<Name, seq<Tag>>): (r: seq<DownloadEntry>)
    ensures |r| <= |rows|
  {
    if rows == [] then []
    else (if WantsDownload(tags, rows[0]) then [EntryOf(rows[0])] else []) + DownloadList(rows[1..], tags)
  }

  /** The upload list: the names of the local rows tagged `local_newer` or `local_only`, in tree order. */
  function UploadList(rows: seq<Row>, tags: map<Name, seq<Tag>>): (r: seq<Name>)
    ensures |r| <= |rows|
  {
    if rows == [] then []
    else (if WantsUpload(tags, rows[0]) then [rows[0].name] else []) + UploadList(rows[1..], tags)
  }

  /**
   * The download list holds exactly the entries of the rows that ask for a
   * download, and is empty exactly when no row does.
   */
  lemma {:induction false} DownloadListExact(rows: seq<Row>, tags: map<Name, seq<Tag>>)
    ensures var r := DownloadList(rows, tags);
      forall e | e in r :: exists i | 0 <= i < |rows| :: WantsDownload(tags, rows[i]) && e == EntryOf(rows[i])
    ensures forall i | 0 <= i < |rows| && WantsDownload(tags, rows[i]) :: EntryOf(rows[i]) in DownloadList(rows, tags)
    ensures DownloadList(rows, tags) == [] <==> forall i | 0 <= i < |rows| :: !WantsDownload(tags, rows[i])
  {
    if rows != [] {
      var head := if WantsDownload(tags, rows[0]) then [EntryOf(rows[0])] else [];
      var tail := DownloadList(rows[1..], tags);
      assert DownloadList(rows, tags) == head + tail;
      DownloadListExact(rows[1..], tags);
      forall e | e in head + tail
        ensures exists i | 0 <= i < |rows| :: WantsDownload(tags, rows[i]) && e == EntryOf(rows[i])
      {
        if e !in head {
          var j :| 0 <= j < |rows| - 1 && WantsDownload(tags, rows[1..][j]) && e == EntryOf(rows[1..][j]);
          assert rows[1..][j] == rows[j + 1];
        }
      }
      forall i | 0 <= i < |rows| && WantsDownload(tags, rows[i]) ensures EntryOf(rows[i]) in head + tail {
        if i > 0 {
          assert rows[i] == rows[1..][i - 1];
        }
      }
    }
  }

  /**
   * The upload list holds exactly the names of the rows that ask for an
   * upload, and is empty exactly when no row does.
   */
  lemma {:induction false} UploadListExact(rows: seq<Row>, tags: map<Name, seq<Tag>>)
    ensures var r := UploadList(rows, tags);
      forall n | n in r :: exists i | 0 <= i < |rows| :: WantsUpload(tags, rows[i]) && n == rows[i].name
    ensures forall i | 0 <= i < |rows| && WantsUpload(tags, rows[i]) :: rows[i].name in UploadList(rows, tags)
    ensures UploadList(rows, tags) == [] <==> forall i | 0 <= i < |rows| :: !WantsUpload(tags, rows[i])
  {
    if rows != [] {
      var head := if WantsUpload(tags, rows[0]) then [rows[0].name] else [];
      var tail := UploadList(rows[1..], tags);
      assert UploadList(rows, tags) == head + tail;
      UploadListExact(rows[1..], tags);
      forall n | n in head + tail
        ensures exists i | 0 <= i < |rows| :: WantsUpload(tags, rows[i]) && n == rows[i].name
      {
        if n !in head {
          var j :| 0 <= j < |rows| - 1 && WantsUpload(tags, rows[1..][j]) && n == rows[1..][j].name;
          assert rows[1..][j] == rows[j + 1];
        }
      }
      forall i | 0 <= i < |rows| && WantsUpload(tags, rows[i]) ensures rows[i].name in head + tail {
        if i > 0 {
          assert rows[i] == rows[1..][i - 1];
        }
      }
    }
  }

  /** The download list keeps tree order: the list of a concatenation is the concatenation of the lists. */
  lemma {:induction false} DownloadListAppend(a: seq<Row>, b: seq<Row>, tags: map<Name, seq<Tag>>)
    ensures DownloadList(a + b, tags) == DownloadList(a, tags) + DownloadList(b, tags)
  {
    if a == [] {
      assert a + b == b;
    } else {
      var head := if WantsDownload(tags, a[0]) then [EntryOf(a[0])] else [];
      assert (a + b)[0] == a[0];
      assert (a + b)[1..] == a[1..] + b;
      assert DownloadList(a + b, tags) == head + DownloadList(a[1..] + b, tags);
      DownloadListAppend(a[1..], b, tags);
      assert DownloadList(a, tags) == head + DownloadList(a[1..], tags);
    }
  }

  /** The upload list keeps tree order in the same way. */
  lemma {:induction false} UploadListAppend(a: seq<Row>, b: seq<Row>, tags: map<Name, seq<Tag>>)
    ensures UploadList(a + b, tags) == UploadList(a, tags) + UploadList(b, tags)
  {
    if a == [] {
      assert a + b == b;
    } else {
      var head := if WantsUpload(tags, a[0]) then [a[0].name] else [];
      assert (a + b)[0] == a[0];
      assert (a + b)[1..] == a[1..] + b;
      assert UploadList(a + b, tags) == head + UploadList(a[1..] + b, tags);
      UploadListAppend(a[1..], b, tags);
      assert UploadList(a, tags) == head + UploadList(a[1..], tags);
    }
  }

  /** A row whose name took part in highlighting carries exactly the classifier's tag. */
  lemma TagAfterRetag(tags0: map<Name, seq<Tag>>, all: set<Name>, own: map<Name, Item>,
                      local: map<Name, Item>, server: map<Name, Item>, n: Name)
    requires n in all && n in own
    ensures TagsAt(Retag(tags0, all, own, local, server), n) == TagsOf(Classify(local, server, n))
  {
  }

  /** One tag cannot ask for both a download and an upload. */
  lemma NotBoth(t: seq<Tag>, row: Row, other: Row, stags: map<Name, seq<Tag>>, ltags: map<Name, seq<Tag>>)
    requires |t| <= 1 && row.name == other.name
    requires TagsAt(stags, row.name) == t && TagsAt(ltags, other.name) == t
    ensures !(WantsDownload(stags, row) && WantsUpload(ltags, other))
  {
  }

  /**
   * After both trees have been highlighted, no name is both downloaded and
   * uploaded: the two trees carry the same single tag for a name listed on
   * both sides.
   */
  lemma ListsDisjoint(localRows: seq<Row>, serverRows: seq<Row>,
                      localTags0: map<Name, seq<Tag>>, serverTags0: map<Name, seq<Tag>>)
    ensures var local := Items(localRows); var server := Items(serverRows);
      var all := local.Keys + server.Keys;
      var downloads := DownloadList(serverRows, Retag(serverTags0, all, server, local, server));
      var uploads := UploadList(localRows, Retag(localTags0, all, local, local, server));
      forall e | e in downloads :: e.name !in uploads
  {
    var local := Items(localRows);
    var server := Items(serverRows);
    var all := local.Keys + server.Keys;
    var stags := Retag(serverTags0, all, server, local, server);
    var ltags := Retag(localTags0, all, local, local, server);
    DownloadListExact(serverRows, stags);
    UploadListExact(localRows, ltags);
    forall e | e in DownloadList(serverRows, stags) ensures e.name !in UploadList(localRows, ltags) {
      var i :| 0 <= i < |serverRows| && WantsDownload(stags, serverRows[i]) && e == EntryOf(serverRows[i]);
      if e.name in UploadList(localRows, ltags) {
        var j :| 0 <= j < |localRows| && WantsUpload(ltags, localRows[j]) && e.name == localRows[j].name;
        assert e.name in Names(serverRows) && e.name in Names(localRows);
        TagAfterRetag(serverTags0, all, server, local, server, e.name);
        TagAfterRetag(localTags0, all, local, local, server, e.name);
        NotBoth(TagsOf(Classify(local, server, e.name)), serverRows[i], localRows[j], stags, ltags);
        assert false;
      }
    }
  }

  /** One phase of a smart sync. */
  datatype Phase =
    | Download(entries: seq<DownloadEntry>)   // `download_thread` with `run_uploads` as its callback
    | Upload(names: seq<Name>)                // `upload_thread` with `final_update` as its callback
    | Refresh                                 // `final_update`: status text and a fresh listing

  /**
   * The phases a smart sync runs, in order. Each phase's callback is posted
   * from a `finally` block, or before returning when the connection cannot
   * be opened, so the uploads run even when the download batch stops early or
   * never connects.
   */
  function Plan(downloads: seq<DownloadEntry>, uploads: seq<Name>): (p: seq<Phase>)
    ensures p == [] <==> downloads == [] && uploads == []
    ensures p != [] ==> p[|p| - 1] == Refresh && Refresh !in p[..|p| - 1]
    ensures Download(downloads) in p <==> downloads != []
    ensures Upload(uploads) in p <==> uploads != []
    ensures downloads != [] ==> p[0] == Download(downloads)
    ensures forall i | 0 <= i < |p| && p[i].Upload? :: forall j | i < j < |p| :: !p[j].Download?
  {
    if downloads == [] && uploads == [] then []
    else
      (if downloads != [] then [Download(downloads)] else [])
      + (if uploads != [] then [Upload(uploads)] else [])
      + [Refresh]
  }

  /** The phases of a smart sync of one folder type, from the two trees as highlighted. */
  function SmartSync(localTree: seq<Row>, localTags: map<Name, seq<Tag>>,
                     serverTree: seq<Row>, serverTags: map<Name, seq<Tag>>): seq<Phase>
  {
    Plan(DownloadList(serverTree, serverTags), UploadList(localTree, localTags))
  }
}
