/**
 * `download_thread`: for each file of a batch, request it, read its size
 * line, receive exactly that many bytes into a temporary file, then move the
 * temporary file over the target with the server's modification time. The
 * batch stops at the first error; a file the server does not have is
 * skipped. The local folder is a map from file name to entry, and the reply
 * stream is the connection's pending bytes.
 */
module Download {
  import opened Wrappers
  import opened Text
  import opened Transport
  import opened Framing
  import opened Index
  import opened Classifier
  import opened SmartSync

  /** The most the client asks `recv` for while receiving file content. */
  const CHUNK: nat := 8192

  /** What the reply stream holds for one requested file. */
  datatype Fetch =
    | BadSize                                   // the size line does not decode or parse as an integer
    | Absent(rest: seq<byte>)                   // size 0: the server does not have the file
    | Received(data: seq<byte>, rest: seq<byte>)  // the whole content arrived
    | Cut(data: seq<byte>)                      // the stream ended before the declared size

  /**
   * How the client reads one file's reply from the stream `s`: the size
   * line, then exactly that many bytes (none for a negative size).
   */
  function FetchFile(s: seq<byte>): Fetch {
    Fetched(SizeOfLine(s), AfterLine(s))
  }

  /** The reply once the size line has been read as `size`, `r` being the stream after it. */
  function Fetched(size: Option<int>, r: seq<byte>): Fetch {
    match size
    case None => BadSize
    case Some(n) =>
      if n == 0 then Absent(r)
      else if n < 0 then Received([], r)
      else if n <= |r| then Received(r[..n], r[n..])
      else Cut(r)
  }

  lemma FetchedMeaning(size: Option<int>, r: seq<byte>)
    ensures var f := Fetched(size, r);
      && (f == BadSize <==> size.None?)
      && (f.Absent? <==> size == Some(0))
      && (f.Absent? ==> f.rest == r)
      && (f.Received? ==> r == f.data + f.rest && |f.data| == if size.value < 0 then 0 else size.value)
      && (f.Cut? ==> f.data == r && |f.data| < size.value)
  {
    if size.Some? && 0 < size.value <= |r| {
      assert r == r[..size.value] + r[size.value..];
    }
  }

  /**
   * What a fetch means: a bad size line, the not-found size 0, or the size
   * line followed by exactly the declared number of bytes (none for a
   * negative size) or by fewer when the stream ends first.
   */
  lemma FetchFileMeaning(s: seq<byte>)
    ensures var f := FetchFile(s);
      && (f == BadSize <==> SizeOfLine(s).None?)
      && (f.Absent? <==> SizeOfLine(s) == Some(0))
      && (f.Absent? ==> f.rest == AfterLine(s))
      && (f.Received? ==> AfterLine(s) == f.data + f.rest && |f.data| == if SizeOfLine(s).value < 0 then 0 else SizeOfLine(s).value)
      && (f.Cut? ==> f.data == AfterLine(s) && |f.data| < SizeOfLine(s).value)
  {
    FetchedMeaning(SizeOfLine(s), AfterLine(s));
  }

  /** `f"{filename}.{int(time.time())}.tmp"`; the clock reading is a parameter. */
  function TempName(name: Name, stamp: nat): string {
    name + "." + DecimalText(stamp) + ".tmp"
  }

  /** The file after `os.utime` and `os.replace`: the temporary file becomes the target. */
  function Stored(folder: Folder, temp: string, name: string, data: seq<byte>, mtime: real): Folder {
    (folder - {temp})[name := File(data, mtime, true)]
  }

  /** The request bytes sent for each of `files`, in order. */
  function Requests(files: seq<DownloadEntry>, getFile: Name -> seq<byte>): (r: seq<seq<byte>>)
    ensures |r| == |files|
    ensures forall k | 0 <= k < |files| :: r[k] == getFile(files[k].name)
  {
    seq(|files|, k requires 0 <= k < |files| => getFile(files[k].name))
  }

  /** The first `i + 1` requests are the first `i` followed by the `i`-th. */
  lemma RequestsPrefix(files: seq<DownloadEntry>, getFile: Name -> seq<byte>, i: nat)
    requires i < |files|
    ensures Requests(files, getFile)[..i + 1] == Requests(files, getFile)[..i] + [getFile(files[i].name)]
  {
    var r := Requests(files, getFile);
    assert r[..i + 1] == r[..i] + [r[i]];
  }

  /** The outcome of a batch (or of its tail): the folder, the unread stream, how many requests were sent and how many content bytes were received. */
  datatype Batch = Batch(folder: Folder, rest: seq<byte>, requests: nat, bytes: nat)

  function Add(o: Batch, requests: nat, bytes: nat): Batch {
    Batch(o.folder, o.rest, o.requests + requests, o.bytes + bytes)
  }

  /**
   * One file of the batch: what the loop body leaves behind (folder, unread
   * stream, whether the request went out, content bytes received) and
   * whether the batch goes on. A failed request, a bad size line or a cut
   * stream ends the batch, removing the temporary file if it was created; a
   * size of 0 skips the file.
   */
  datatype Step = Step(folder: Folder, rest: seq<byte>, requested: bool, bytes: nat, goOn: bool)

  function FileStep(folder: Folder, f: DownloadEntry, temp: string, s: seq<byte>, left: Option<nat>): (st: Step)
    ensures st.goOn ==> st.requested
  {
    if left == Some(0) then Step(folder, s, false, 0, false)
    else ReplyStep(folder, f, temp, s)
  }

  /** The part of a file's step after its request went out: the reply decides the rest. */
  function ReplyStep(folder: Folder, f: DownloadEntry, temp: string, s: seq<byte>): (st: Step)
    ensures st.requested
  {
    FetchStep(folder, f, temp, FetchFile(s), AfterLine(s))
  }

  /** The step for a reply read as `fetch`, `r` being the stream after its size line. */
  function FetchStep(folder: Folder, f: DownloadEntry, temp: string, fetch: Fetch, r: seq<byte>): (st: Step)
    ensures st.requested
  {
    match fetch
    case BadSize => Step(folder, r, true, 0, false)
    case Cut(d) => Step(folder - {temp}, [], true, |d|, false)
    case Absent(r) => Step(folder, r, true, 0, true)
    case Received(d, r) => Step(Stored(folder, temp, f.name, d, f.mtime), r, true, |d|, true)
  }

  /** The batch from the `i`-th file on, over the stream `s`, when the server accepts `left` more requests. */
  function Downloads(folder: Folder, files: seq<DownloadEntry>, i: nat, s: seq<byte>,
                     left: Option<nat>, stamp: nat -> nat): (o: Batch)
    requires i <= |files|
    ensures o.requests <= |files| - i
    ensures o.requests == 0 <==> i == |files| || left == Some(0)
    decreases |files| - i
  {
    if i == |files| then Batch(folder, s, 0, 0)
    else
      var st := FileStep(folder, files[i], TempName(files[i].name, stamp(i)), s, left);
      if !st.goOn then Batch(st.folder, st.rest, if st.requested then 1 else 0, st.bytes)
      else Add(Downloads(st.folder, files, i + 1, st.rest, Spend(left, 1), stamp), 1, st.bytes)
  }

  /** Every value posted to the progress bar is larger than the one before. */
  predicate Increasing(p: seq<nat>) {
    forall j, k | 0 <= j < k < |p| :: p[j] < p[k]
  }

  lemma IncreasingAppend(p: seq<nat>, q: seq<nat>)
    requires p != [] && Increasing(p) && Increasing([p[|p| - 1]] + q)
    ensures Increasing(p + q)
  {
    var last := p[|p| - 1];
    var tail := [last] + q;
    forall j, k | 0 <= j < k < |p + q| ensures (p + q)[j] < (p + q)[k] {
      if k < |p| {
        assert (p + q)[j] == p[j] && (p + q)[k] == p[k];
      } else {
        assert (p + q)[k] == tail[k - |p| + 1];
        assert tail[0] < tail[k - |p| + 1];
        if j < |p| {
          assert (p + q)[j] == p[j];
          if j < |p| - 1 {
            assert p[j] < p[|p| - 1];
          }
        } else {
          assert (p + q)[j] == tail[j - |p| + 1];
        }
      }
    }
  }

  /** The values posted to the progress bar: first the reset to 0, then ever larger counts ending at `bytesDone`. */
  predicate ProgressLog(progress: seq<nat>, bytesDone: nat) {
    progress != [] && progress[0] == 0 && Increasing(progress) && progress[|progress| - 1] == bytesDone
  }

  lemma ProgressExtend(progress: seq<nat>, posted: seq<nat>, before: nat, after: nat)
    requires ProgressLog(progress, before)
    requires Increasing([before] + posted) && ([before] + posted)[|posted|] == after
    ensures ProgressLog(progress + posted, after)
  {
    IncreasingAppend(progress, posted);
    if posted != [] {
      assert (progress + posted)[|progress + posted| - 1] == posted[|posted| - 1] == ([before] + posted)[|posted|];
    }
  }

  /**
   * The receive loop of `download_thread`: asks for at most
   * `min(8192, file_size - received)` bytes at a time, so it never reads past
   * the declared size; an empty read means the server closed the connection.
   * Each chunk advances the byte counter and posts it to the progress bar.
   */
  method ReceiveContent(conn: Connection, fileSize: int, bytesDone0: nat)
    returns (content: seq<byte>, complete: bool, bytesDone: nat, posted: seq<nat>)
    requires conn.Valid()
    modifies conn`segments
    ensures conn.Valid()
    ensures var s := old(conn.Pending());
      var n := if fileSize < 0 then 0 else fileSize;
      if n <= |s| then complete && content == s[..n] && conn.Pending() == s[n..]
      else !complete && content == s && conn.Pending() == []
    ensures bytesDone == bytesDone0 + |content|
    ensures Increasing([bytesDone0] + posted) && ([bytesDone0] + posted)[|posted|] == bytesDone
  {
    ghost var s := conn.Pending();
    content, bytesDone, posted := [], bytesDone0, [];
    var received := 0;
    while received < fileSize
      invariant 0 <= received <= |s| && received <= (if fileSize < 0 then 0 else fileSize)
      invariant content == s[..received] && conn.Pending() == s[received..]
      invariant conn.Valid()
      invariant bytesDone == bytesDone0 + received
      invariant Increasing([bytesDone0] + posted) && ([bytesDone0] + posted)[|posted|] == bytesDone
      decreases fileSize - received
    {
      ghost var segs := conn.segments;
      var chunk := conn.Recv(Min(CHUNK, fileSize - received));
      if chunk == [] {
        assert conn.segments == [] && conn.Pending() == [];
        assert received == |s| by {
          assert s[received..] == [];
        }
        complete := false;
        return;
      }
      assert s[received..] == chunk + conn.Pending();
      assert s[..received + |chunk|] == content + chunk by {
        assert s[..received + |chunk|] == s[..received] + s[received..][..|chunk|];
      }
      assert s[received + |chunk|..] == conn.Pending() by {
        assert s[received + |chunk|..] == s[received..][|chunk|..];
      }
      content := content + chunk;
      received := received + |chunk|;
      bytesDone := bytesDone + |chunk|;
      IncreasingAppend([bytesDone0] + posted, [bytesDone]);
      assert [bytesDone0] + (posted + [bytesDone]) == ([bytesDone0] + posted) + [bytesDone];
      posted := posted + [bytesDone];
    }
    complete := true;
  }

  /**
   * The loop body of `download_thread` after the request: read the size
   * line, then receive the content or stop the batch.
   */
  method ReceiveReply(conn: Connection, folder: Folder, f: DownloadEntry, temp: string,
                      bytesDone0: nat, progress0: seq<nat>)
    returns (result: Folder, goOn: bool, bytesDone: nat, progress: seq<nat>)
    requires conn.Valid() && ProgressLog(progress0, bytesDone0)
    modifies conn`segments
    ensures conn.Valid() && ProgressLog(progress, bytesDone)
    ensures var st := ReplyStep(folder, f, temp, old(conn.Pending()));
      && result == st.folder && conn.Pending() == st.rest && goOn == st.goOn && bytesDone == bytesDone0 + st.bytes
  {
    ghost var s := conn.Pending();
    result, goOn, bytesDone, progress := folder, false, bytesDone0, progress0;
    var line := RecvLine(conn);
    var fileSize := if line.Some? then IntOfText(line.value) else None;
    ghost var r := conn.Pending();
    assert FetchFile(s) == Fetched(fileSize, r);
    if fileSize.None? {
      return;
    }
    if fileSize.value == 0 {
      goOn := true;
      return;
    }
    result, goOn, bytesDone, progress := ReceiveSized(conn, folder, f, temp, fileSize.value, bytesDone0, progress0);
  }

  /**
   * The reply once its size line announced `fileSize` bytes (not the
   * not-found 0): receive the content into the temporary file and move it
   * into place, or remove the temporary file when the stream ends first.
   */
  method ReceiveSized(conn: Connection, folder: Folder, f: DownloadEntry, temp: string, fileSize: int,
                      bytesDone0: nat, progress0: seq<nat>)
    returns (result: Folder, goOn: bool, bytesDone: nat, progress: seq<nat>)
    requires conn.Valid() && ProgressLog(progress0, bytesDone0) && fileSize != 0
    modifies conn`segments
    ensures conn.Valid() && ProgressLog(progress, bytesDone)
    ensures var r := old(conn.Pending());
      var st := FetchStep(folder, f, temp, Fetched(Some(fileSize), r), r);
      && result == st.folder && conn.Pending() == st.rest && goOn == st.goOn && bytesDone == bytesDone0 + st.bytes
  {
    ghost var r := conn.Pending();
    var content, complete, done, posted := ReceiveContent(conn, fileSize, bytesDone0);
    ProgressExtend(progress0, posted, bytesDone0, done);
    progress := progress0 + posted;
    bytesDone := done;
    if !complete {
      assert Fetched(Some(fileSize), r) == Cut(content);
      result, goOn := folder - {temp}, false;
      return;
    }
    assert Fetched(Some(fileSize), r) == Received(content, conn.Pending());
    result, goOn := Stored(folder, temp, f.name, content, f.mtime), true;
  }

  /** One pass of the loop body of `download_thread`: request the file, then handle the reply. */
  method DownloadFile(conn: Connection, folder: Folder, f: DownloadEntry, temp: string,
                      getFile: Name -> seq<byte>, bytesDone0: nat, progress0: seq<nat>)
    returns (result: Folder, goOn: bool, bytesDone: nat, progress: seq<nat>)
    requires conn.Valid() && ProgressLog(progress0, bytesDone0)
    modifies conn`segments, conn`sent, conn`sendsLeft
    ensures conn.Valid() && ProgressLog(progress, bytesDone)
    ensures var st := FileStep(folder, f, temp, old(conn.Pending()), old(conn.sendsLeft));
      && result == st.folder && conn.Pending() == st.rest && goOn == st.goOn && bytesDone == bytesDone0 + st.bytes
      && conn.sent == old(conn.sent) + (if st.requested then [getFile(f.name)] else [])
      && conn.sendsLeft == (if st.requested then Spend(old(conn.sendsLeft), 1) else old(conn.sendsLeft))
  {
    result, goOn, bytesDone, progress := folder, false, bytesDone0, progress0;
    var ok := conn.SendAll(getFile(f.name));
    if !ok {
      return;
    }
    result, goOn, bytesDone, progress := ReceiveReply(conn, folder, f, temp, bytesDone0, progress0);
  }

  /**
   * One file of the batch on the connection, stated against the batch: the
   * batch from the `i`-th file on is this step followed, when it goes on, by
   * the batch from the next file.
   */
  method BatchStep(conn: Connection, folder: Folder, files: seq<DownloadEntry>, i: nat,
                   getFile: Name -> seq<byte>, stamp: nat -> nat, bytesDone0: nat, progress0: seq<nat>)
    returns (result: Folder, goOn: bool, bytesDone: nat, progress: seq<nat>, ghost requested: bool)
    requires i < |files| && conn.Valid() && ProgressLog(progress0, bytesDone0)
    modifies conn`segments, conn`sent, conn`sendsLeft
    ensures conn.Valid() && ProgressLog(progress, bytesDone) && bytesDone0 <= bytesDone
    ensures conn.sent == old(conn.sent) + (if requested then [getFile(files[i].name)] else [])
    ensures goOn ==> requested
    ensures var o := Downloads(folder, files, i, old(conn.Pending()), old(conn.sendsLeft), stamp);
      if goOn then o == Add(Downloads(result, files, i + 1, conn.Pending(), conn.sendsLeft, stamp), 1, bytesDone - bytesDone0)
      else o == Batch(result, conn.Pending(), if requested then 1 else 0, bytesDone - bytesDone0)
  {
    ghost var s, left := conn.Pending(), conn.sendsLeft;
    var temp := TempName(files[i].name, stamp(i));
    result, goOn, bytesDone, progress := DownloadFile(conn, folder, files[i], temp, getFile, bytesDone0, progress0);
    ghost var st := FileStep(folder, files[i], temp, s, left);
    requested := st.requested;
  }

  /**
   * `download_thread` on an open connection: `getFile` gives the encoded
   * `get_file` request for a name and `stamp(i)` the clock reading when the
   * `i`-th temporary file is named. Returns the local folder afterwards, the
   * byte counter, and every value posted to the progress bar (it starts at 0).
   */
  method DownloadThread(conn: Connection, folder: Folder, files: seq<DownloadEntry>,
                        getFile: Name -> seq<byte>, stamp: nat -> nat)
    returns (result: Folder, bytesDone: nat, progress: seq<nat>)
    requires conn.Valid()
    modifies conn`segments, conn`sent, conn`sendsLeft
    ensures conn.Valid()
    ensures var o := Downloads(folder, files, 0, old(conn.Pending()), old(conn.sendsLeft), stamp);
      result == o.folder && conn.Pending() == o.rest && bytesDone == o.bytes
      && conn.sent == old(conn.sent) + Requests(files, getFile)[..o.requests]
    ensures ProgressLog(progress, bytesDone)
  {
    ghost var sent0 := conn.sent;
    ghost var total := Downloads(folder, files, 0, conn.Pending(), conn.sendsLeft, stamp);
    result, bytesDone, progress := folder, 0, [0];
    var i := 0;
    while i < |files|
      invariant i <= |files| && conn.Valid()
      invariant var o := Downloads(result, files, i, conn.Pending(), conn.sendsLeft, stamp);
        total.folder == o.folder && total.rest == o.rest && total.requests == o.requests + i && total.bytes == o.bytes + bytesDone
      invariant conn.sent == sent0 + Requests(files, getFile)[..i]
      invariant ProgressLog(progress, bytesDone)
    {
      RequestsPrefix(files, getFile, i);
      AppendAssoc(sent0, Requests(files, getFile)[..i], [getFile(files[i].name)]);
      var goOn;
      ghost var requested;
      result, goOn, bytesDone, progress, requested := BatchStep(conn, result, files, i, getFile, stamp, bytesDone, progress);
      if !goOn {
        assert total == Batch(result, conn.Pending(), if requested then i + 1 else i, bytesDone);
        return;
      }
      i := i + 1;
    }
    assert total == Batch(result, conn.Pending(), |files|, bytesDone);
  }

  /** Both folders hold the same entry (or none) under `k`. */
  predicate SameAt(a: Folder, b: Folder, k: string) {
    (k in a <==> k in b) && (k in a ==> a[k] == b[k])
  }

  /** `k` is neither the name nor the temporary name of any of the files from the `i`-th on. */
  predicate Untouched(files: seq<DownloadEntry>, i: nat, stamp: nat -> nat, k: string)
    decreases |files| - i
  {
    i >= |files| || (k != files[i].name && k != TempName(files[i].name, stamp(i)) && Untouched(files, i + 1, stamp, k))
  }

  /** One file's step changes the folder only at the file's name and its temporary name. */
  lemma FileStepTouches(folder: Folder, f: DownloadEntry, temp: string, s: seq<byte>, left: Option<nat>, k: string)
    requires k != f.name && k != temp
    ensures SameAt(FileStep(folder, f, temp, s, left).folder, folder, k)
  {
    if left != Some(0) {
      assert FileStep(folder, f, temp, s, left) == FetchStep(folder, f, temp, FetchFile(s), AfterLine(s));
      FetchStepTouches(folder, f, temp, FetchFile(s), AfterLine(s), k);
    }
  }

  lemma FetchStepTouches(folder: Folder, f: DownloadEntry, temp: string, fetch: Fetch, r: seq<byte>, k: string)
    requires k != f.name && k != temp
    ensures SameAt(FetchStep(folder, f, temp, fetch, r).folder, folder, k)
  {
    if fetch.Cut? {
      var r := folder - {temp};
      assert k in r <==> k in folder;
    } else if fetch.Received? {
      var r := Stored(folder, temp, f.name, fetch.data, f.mtime);
      assert k in r <==> k in folder;
    }
  }

  /**
   * A batch changes the folder only at the names it downloads and at their
   * temporary names: every other entry is as it was.
   */
  lemma {:induction false} DownloadsTouchOnlyBatch(folder: Folder, files: seq<DownloadEntry>, i: nat, s: seq<byte>,
                                                   left: Option<nat>, stamp: nat -> nat, k: string)
    requires i <= |files| && Untouched(files, i, stamp, k)
    ensures SameAt(Downloads(folder, files, i, s, left, stamp).folder, folder, k)
    decreases |files| - i
  {
    if i < |files| {
      var temp := TempName(files[i].name, stamp(i));
      var st := FileStep(folder, files[i], temp, s, left);
      FileStepTouches(folder, files[i], temp, s, left, k);
      if st.goOn {
        DownloadsTouchOnlyBatch(st.folder, files, i + 1, st.rest, Spend(left, 1), stamp, k);
      }
    }
  }

  /**
   * A file that arrives whole is stored under its name with the server's
   * modification time, and none of the batch's later files undo it unless
   * they have the same name or temporary name.
   */
  lemma {:induction false} DownloadedFileKept(folder: Folder, files: seq<DownloadEntry>, i: nat, s: seq<byte>,
                                              left: Option<nat>, stamp: nat -> nat)
    requires i < |files| && left != Some(0)
    requires FetchFile(s).Received?
    requires Untouched(files, i + 1, stamp, files[i].name)
    ensures var r := Downloads(folder, files, i, s, left, stamp).folder;
      files[i].name in r && r[files[i].name] == File(FetchFile(s).data, files[i].mtime, true)
  {
    var f := files[i];
    var temp := TempName(f.name, stamp(i));
    var st := FileStep(folder, f, temp, s, left);
    ReceivedStep(folder, f, temp, s, left);
    var later := Downloads(st.folder, files, i + 1, st.rest, Spend(left, 1), stamp);
    assert Downloads(folder, files, i, s, left, stamp) == Add(later, 1, st.bytes);
    DownloadsTouchOnlyBatch(st.folder, files, i + 1, st.rest, Spend(left, 1), stamp, f.name);
  }

  /** The step of a file that arrives whole stores it and goes on after its content. */
  lemma ReceivedStep(folder: Folder, f: DownloadEntry, temp: string, s: seq<byte>, left: Option<nat>)
    requires left != Some(0) && FetchFile(s).Received?
    ensures var fetch := FetchFile(s);
      FileStep(folder, f, temp, s, left) == Step(Stored(folder, temp, f.name, fetch.data, f.mtime), fetch.rest, true, |fetch.data|, true)
  {
    var fetch := FetchFile(s);
    assert FileStep(folder, f, temp, s, left) == FetchStep(folder, f, temp, fetch, AfterLine(s));
  }

  /** A bad size line or a cut stream abandons every later file: no further request is sent. */
  lemma DownloadErrorStops(folder: Folder, files: seq<DownloadEntry>, i: nat, s: seq<byte>,
                           left: Option<nat>, stamp: nat -> nat)
    requires i < |files| && left != Some(0)
    requires FetchFile(s).BadSize? || FetchFile(s).Cut?
    ensures Downloads(folder, files, i, s, left, stamp).requests == 1
    ensures FetchFile(s).BadSize? ==> Downloads(folder, files, i, s, left, stamp).folder == folder
    ensures FetchFile(s).Cut? ==>
      Downloads(folder, files, i, s, left, stamp).folder == folder - {TempName(files[i].name, stamp(i))}
  {
    var temp := TempName(files[i].name, stamp(i));
    var st := FileStep(folder, files[i], temp, s, left);
    assert st == FetchStep(folder, files[i], temp, FetchFile(s), AfterLine(s));
    assert !st.goOn && st.requested;
  }

  /** A file the server does not have is skipped and the batch goes on with the rest of the stream. */
  lemma AbsentFileSkipped(folder: Folder, files: seq<DownloadEntry>, i: nat, s: seq<byte>,
                          left: Option<nat>, stamp: nat -> nat)
    requires i < |files| && left != Some(0)
    requires SizeOfLine(s) == Some(0)
    ensures Downloads(folder, files, i, s, left, stamp)
      == Add(Downloads(folder, files, i + 1, AfterLine(s), Spend(left, 1), stamp), 1, 0)
  {
    var temp := TempName(files[i].name, stamp(i));
    var st := FileStep(folder, files[i], temp, s, left);
    assert FetchFile(s) == Absent(AfterLine(s));
    assert st == Step(folder, AfterLine(s), true, 0, true);
  }
}
