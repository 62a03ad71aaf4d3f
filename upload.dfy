/**
 * `upload_thread`: for each name of a batch that is a regular file, send the
 * `upload_file` request, then the content in pieces of at most 8192 bytes.
 * The batch stops at the first file that cannot be read and at the first
 * failed send. The size sum computed up front raises when a name does not
 * exist, before anything is sent.
 */
module Upload {
  import opened Wrappers
  import opened Text
  import opened Transport
  import opened Index
  import opened Classifier
  import opened Download

  /** The most the client reads from a file at a time. */
  const READ_SIZE: nat := 8192

  /** One `sendall` of the upload: a request, or a piece of file content. */
  datatype Message = Request(bytes: seq<byte>) | Content(bytes: seq<byte>)

  /** The bytes handed to each `sendall`, in order. */
  function Wire(ms: seq<Message>): (r: seq<seq<byte>>)
    ensures |r| == |ms|
  {
    if ms == [] then [] else [ms[0].bytes] + Wire(ms[1..])
  }

  /** The content bytes among the messages: what the progress counter counts. */
  function Counted(ms: seq<Message>): nat {
    if ms == [] then 0 else (if ms[0].Content? then |ms[0].bytes| else 0) + Counted(ms[1..])
  }

  /** The pieces of a file as content messages. */
  function Contents(cs: seq<seq<byte>>): (r: seq<Message>)
    ensures |r| == |cs|
  {
    if cs == [] then [] else [Content(cs[0])] + Contents(cs[1..])
  }

  lemma {:induction false} WireAppend(a: seq<Message>, b: seq<Message>)
    ensures Wire(a + b) == Wire(a) + Wire(b)
    ensures Counted(a + b) == Counted(a) + Counted(b)
  {
    if a == [] {
      assert a + b == b;
    } else {
      assert (a + b)[0] == a[0];
      assert (a + b)[1..] == a[1..] + b;
      WireAppend(a[1..], b);
    }
  }

  lemma {:induction false} ContentsAppend(a: seq<seq<byte>>, b: seq<seq<byte>>)
    ensures Contents(a + b) == Contents(a) + Contents(b)
  {
    if a == [] {
      assert a + b == b;
    } else {
      assert (a + b)[0] == a[0];
      assert (a + b)[1..] == a[1..] + b;
      ContentsAppend(a[1..], b);
    }
  }

  /** The content messages of a file carry exactly the file, and count every byte of it. */
  lemma {:induction false} ContentsCarryFile(cs: seq<seq<byte>>)
    ensures Flatten(Wire(Contents(cs))) == Flatten(cs)
    ensures Counted(Contents(cs)) == |Flatten(cs)|
  {
    if cs != [] {
      ContentsCarryFile(cs[1..]);
      assert Contents(cs)[1..] == Contents(cs[1..]);
      assert Wire(Contents(cs))[1..] == Wire(Contents(cs[1..]));
    }
  }

  /** The messages for one regular file: the request, then the content unless the file cannot be opened. */
  function FileMessages(name: Name, e: Entry, request: (Name, nat, real) -> seq<byte>): (ms: seq<Message>)
    requires e.File?
    ensures ms != [] && ms[0] == Request(request(name, |e.content|, e.mtime))
  {
    [Request(request(name, |e.content|, e.mtime))] + (if e.readable then Contents(Chunks(e.content, READ_SIZE)) else [])
  }

  /** Every name of the batch exists, so the up-front size sum does not raise. */
  predicate AllPresent(folder: Folder, names: seq<Name>) {
    forall k | 0 <= k < |names| :: names[k] in folder
  }

  /**
   * What the batch from the `i`-th name on sends when every send succeeds:
   * anything but a regular file is skipped, and a file that cannot be opened
   * ends the batch after its request.
   */
  function UploadFrom(folder: Folder, names: seq<Name>, i: nat, request: (Name, nat, real) -> seq<byte>): seq<Message>
    requires i <= |names| && AllPresent(folder, names)
    decreases |names| - i
  {
    if i == |names| then []
    else
      var e := folder[names[i]];
      if !e.File? then UploadFrom(folder, names, i + 1, request)
      else if !e.readable then FileMessages(names[i], e, request)
      else FileMessages(names[i], e, request) + UploadFrom(folder, names, i + 1, request)
  }

  /** The bytes of a prefix of the messages are the prefix of their bytes. */
  lemma {:induction false} WirePrefix(ms: seq<Message>, k: nat)
    requires k <= |ms|
    ensures Wire(ms[..k]) == Wire(ms)[..k]
  {
    assert ms == ms[..k] + ms[k..];
    WireAppend(ms[..k], ms[k..]);
  }

  /**
   * After trying to send `ms` to a peer that accepts `left0` more sends, the
   * log holds exactly the accepted prefix, the allowance is spent by as
   * much, and the counter has grown by the content bytes of that prefix.
   */
  predicate Delivered(sent0: seq<seq<byte>>, left0: Option<nat>, bytes0: nat, ms: seq<Message>,
                      sent: seq<seq<byte>>, left: Option<nat>, bytes: nat)
  {
    Sends(sent0, left0, Wire(ms), sent, left) && bytes == bytes0 + Counted(ms[..Accepted(left0, |ms|)])
  }

  /** All of `ms` was accepted. */
  predicate Whole(left0: Option<nat>, ms: seq<Message>) {
    AllAccepted(left0, Wire(ms))
  }

  /** One `sendall` of a message: accepted, logged and counted, or refused with nothing logged. */
  lemma SendOne(sent: seq<seq<byte>>, left: Option<nat>, bytes: nat, m: Message, ok: bool,
                sent1: seq<seq<byte>>, left1: Option<nat>)
    requires ok <==> left != Some(0)
    requires ok ==> sent1 == sent + [m.bytes] && left1 == Spend(left, 1)
    requires !ok ==> sent1 == sent && left1 == left
    ensures Delivered(sent, left, bytes, [m], sent1, left1,
                      if ok && m.Content? then bytes + |m.bytes| else bytes)
    ensures Whole(left, [m]) <==> ok
  {
    assert Wire([m]) == [m.bytes];
    SendsOne(sent, left, m.bytes, ok, sent1, left1);
    if ok {
      assert [m][..1] == [m];
    } else {
      assert [m][..0] == [];
    }
  }

  /** Sending `a` whole and then `b` is sending `a + b`. */
  lemma DeliveredThen(sent0: seq<seq<byte>>, left0: Option<nat>, bytes0: nat, a: seq<Message>,
                      sent1: seq<seq<byte>>, left1: Option<nat>, bytes1: nat, b: seq<Message>,
                      sent2: seq<seq<byte>>, left2: Option<nat>, bytes2: nat)
    requires Delivered(sent0, left0, bytes0, a, sent1, left1, bytes1) && Whole(left0, a)
    requires Delivered(sent1, left1, bytes1, b, sent2, left2, bytes2)
    ensures Delivered(sent0, left0, bytes0, a + b, sent2, left2, bytes2)
    ensures Whole(left0, a + b) <==> Whole(left1, b)
  {
    WireAppend(a, b);
    SendsThen(sent0, left0, Wire(a), sent1, left1, Wire(b), sent2, left2);
    var kb := Accepted(left1, |b|);
    AcceptedAppend(left0, |a|, |b|);
    assert a[..|a|] == a;
    assert (a + b)[..|a| + kb] == a + b[..kb];
    WireAppend(a, b[..kb]);
  }

  /** A send refused inside `a` leaves everything after it unsent. */
  lemma DeliveredCut(sent0: seq<seq<byte>>, left0: Option<nat>, bytes0: nat, a: seq<Message>,
                     sent1: seq<seq<byte>>, left1: Option<nat>, bytes1: nat, b: seq<Message>)
    requires Delivered(sent0, left0, bytes0, a, sent1, left1, bytes1) && !Whole(left0, a)
    ensures Delivered(sent0, left0, bytes0, a + b, sent1, left1, bytes1) && !Whole(left0, a + b)
  {
    WireAppend(a, b);
    SendsCut(sent0, left0, Wire(a), sent1, left1, Wire(b));
    var k := Accepted(left0, |a|);
    assert (a + b)[..k] == a[..k];
  }

  lemma DeliveredNothing(sent: seq<seq<byte>>, left: Option<nat>, bytes: nat)
    ensures Delivered(sent, left, bytes, [], sent, left, bytes) && Whole(left, [])
  {
    SendsNothing(sent, left);
  }

  /** The content messages from `pos` on are the next piece's message followed by those after it. */
  lemma ContentsNext(c: seq<byte>, pos: nat)
    requires pos < |c|
    ensures var n := Min(READ_SIZE, |c| - pos);
      Contents(Chunks(c[pos..], READ_SIZE)) == [Content(c[pos..pos + n])] + Contents(Chunks(c[pos + n..], READ_SIZE))
  {
    var n := Min(READ_SIZE, |c| - pos);
    ChunksNext(c, pos, READ_SIZE);
    ContentsAppend([c[pos..pos + n]], Chunks(c[pos + n..], READ_SIZE));
    assert Contents([c[pos..pos + n]]) == [Content(c[pos..pos + n])];
  }

  /**
   * The read loop of one file: `f.read(8192)` until it returns nothing,
   * each piece sent and then counted and posted to the progress bar; a
   * failed send ends the loop.
   */
  method SendContent(conn: Connection, c: seq<byte>, bytes0: nat, progress0: seq<nat>)
    returns (ok: bool, bytesDone: nat, progress: seq<nat>)
    requires ProgressLog(progress0, bytes0)
    modifies conn`sent, conn`sendsLeft
    ensures ProgressLog(progress, bytesDone)
    ensures Delivered(old(conn.sent), old(conn.sendsLeft), bytes0, Contents(Chunks(c, READ_SIZE)),
                      conn.sent, conn.sendsLeft, bytesDone)
    ensures ok <==> Whole(old(conn.sendsLeft), Contents(Chunks(c, READ_SIZE)))
  {
    ghost var sent0, left0 := conn.sent, conn.sendsLeft;
    ghost var all := Contents(Chunks(c, READ_SIZE));
    ghost var done: seq<Message> := [];
    ok, bytesDone, progress := true, bytes0, progress0;
    var pos := 0;
    DeliveredNothing(sent0, left0, bytes0);
    assert c[0..] == c;
    ghost var todo := all;
    while pos < |c|
      invariant pos <= |c|
      invariant todo == Contents(Chunks(c[pos..], READ_SIZE))
      invariant all == done + todo
      invariant Delivered(sent0, left0, bytes0, done, conn.sent, conn.sendsLeft, bytesDone)
      invariant Whole(left0, done)
      invariant ProgressLog(progress, bytesDone)
      decreases |c| - pos
    {
      var n := Min(READ_SIZE, |c| - pos);
      var chunk := c[pos..pos + n];
      ghost var later := Contents(Chunks(c[pos + n..], READ_SIZE));
      ContentsNext(c, pos);
      assert todo == [Content(chunk)] + later;
      ghost var sent1, left1, bytes1 := conn.sent, conn.sendsLeft, bytesDone;
      var sendOk;
      sendOk, bytesDone, progress := SendPiece(conn, chunk, bytesDone, progress);
      if !sendOk {
        DeliveredCut(sent1, left1, bytes1, [Content(chunk)], conn.sent, conn.sendsLeft, bytesDone, later);
        DeliveredThen(sent0, left0, bytes0, done, sent1, left1, bytes1, todo, conn.sent, conn.sendsLeft, bytesDone);
        ok := false;
        return;
      }
      DeliveredStep(sent0, left0, bytes0, done, sent1, left1, bytes1, Content(chunk), later, conn.sent, conn.sendsLeft, bytesDone);
      assert all == (done + [Content(chunk)]) + later;
      done := done + [Content(chunk)];
      todo := later;
      pos := pos + n;
    }
    assert c[pos..] == [];
    assert all == done;
  }

  /**
   * One piece of the read loop: `sock.sendall(chunk)`, then on success the
   * piece is counted into `bytes_done` and the new total posted.
   */
  method SendPiece(conn: Connection, chunk: seq<byte>, bytes0: nat, progress0: seq<nat>)
    returns (ok: bool, bytesDone: nat, progress: seq<nat>)
    requires chunk != [] && ProgressLog(progress0, bytes0)
    modifies conn`sent, conn`sendsLeft
    ensures ProgressLog(progress, bytesDone)
    ensures Delivered(old(conn.sent), old(conn.sendsLeft), bytes0, [Content(chunk)], conn.sent, conn.sendsLeft, bytesDone)
    ensures ok <==> Whole(old(conn.sendsLeft), [Content(chunk)])
  {
    ghost var sent1, left1 := conn.sent, conn.sendsLeft;
    ok := conn.SendAll(chunk);
    SendOne(sent1, left1, bytes0, Content(chunk), ok, conn.sent, conn.sendsLeft);
    bytesDone, progress := bytes0, progress0;
    if ok {
      bytesDone := bytes0 + |chunk|;
      ProgressExtend(progress0, [bytesDone], bytes0, bytesDone);
      progress := progress0 + [bytesDone];
    }
  }

  /** A fully accepted prefix followed by one more accepted message. */
  lemma DeliveredStep(sent0: seq<seq<byte>>, left0: Option<nat>, bytes0: nat, done: seq<Message>,
                      sent1: seq<seq<byte>>, left1: Option<nat>, bytes1: nat, m: Message, later: seq<Message>,
                      sent2: seq<seq<byte>>, left2: Option<nat>, bytes2: nat)
    requires Delivered(sent0, left0, bytes0, done, sent1, left1, bytes1) && Whole(left0, done)
    requires Delivered(sent1, left1, bytes1, [m], sent2, left2, bytes2) && Whole(left1, [m])
    ensures Delivered(sent0, left0, bytes0, done + [m], sent2, left2, bytes2) && Whole(left0, done + [m])
    ensures done + ([m] + later) == (done + [m]) + later
  {
    DeliveredThen(sent0, left0, bytes0, done, sent1, left1, bytes1, [m], sent2, left2, bytes2);
    AppendAssoc(done, [m], later);
  }

  /** After its request, a readable file's messages carry exactly its content. */
  lemma FileMessagesCarryContent(name: Name, e: Entry, request: (Name, nat, real) -> seq<byte>)
    requires e.File? && e.readable
    ensures Flatten(Wire(FileMessages(name, e, request)[1..])) == e.content
    ensures Counted(FileMessages(name, e, request)) == |e.content|
  {
    var cs := Chunks(e.content, READ_SIZE);
    ChunksMeaning(e.content, READ_SIZE);
    ContentsCarryFile(cs);
    assert FileMessages(name, e, request)[1..] == Contents(cs);
    WireAppend([Request(request(name, |e.content|, e.mtime))], Contents(cs));
  }

  /**
   * One file of the batch: the request, then the content; the batch goes on
   * only when every send succeeded and the file could be opened.
   */
  method UploadFile(conn: Connection, name: Name, e: Entry, request: (Name, nat, real) -> seq<byte>,
                    bytes0: nat, progress0: seq<nat>)
    returns (goOn: bool, bytesDone: nat, progress: seq<nat>)
    requires e.File? && ProgressLog(progress0, bytes0)
    modifies conn`sent, conn`sendsLeft
    ensures ProgressLog(progress, bytesDone)
    ensures Delivered(old(conn.sent), old(conn.sendsLeft), bytes0, FileMessages(name, e, request),
                      conn.sent, conn.sendsLeft, bytesDone)
    ensures goOn <==> e.readable && Whole(old(conn.sendsLeft), FileMessages(name, e, request))
  {
    ghost var sent0, left0 := conn.sent, conn.sendsLeft;
    var req := Request(request(name, |e.content|, e.mtime));
    ghost var rest: seq<Message> := if e.readable then Contents(Chunks(e.content, READ_SIZE)) else [];
    assert FileMessages(name, e, request) == [req] + rest;
    goOn, bytesDone, progress := false, bytes0, progress0;
    var ok := conn.SendAll(req.bytes);
    SendOne(sent0, left0, bytes0, req, ok, conn.sent, conn.sendsLeft);
    if !ok {
      DeliveredCut(sent0, left0, bytes0, [req], conn.sent, conn.sendsLeft, bytesDone, rest);
      return;
    }
    if !e.readable {
      assert [req] + rest == [req];
      return;
    }
    ghost var sent1, left1 := conn.sent, conn.sendsLeft;
    goOn, bytesDone, progress := SendContent(conn, e.content, bytes0, progress0);
    DeliveredThen(sent0, left0, bytes0, [req], sent1, left1, bytes0, rest, conn.sent, conn.sendsLeft, bytesDone);
  }

  /**
   * `upload_thread` on an open connection, `request` standing for the
   * encoded `upload_file` request of a name, size and modification time.
   * When some name does not exist the size sum raises before anything is
   * sent or posted; otherwise the sent log is the accepted prefix of the
   * batch's messages and the counter and progress bar follow it.
   */
  method UploadThread(conn: Connection, folder: Folder, names: seq<Name>, request: (Name, nat, real) -> seq<byte>)
    returns (started: bool, bytesDone: nat, progress: seq<nat>)
    modifies conn`sent, conn`sendsLeft
    ensures started <==> AllPresent(folder, names)
    ensures !started ==> conn.sent == old(conn.sent) && conn.sendsLeft == old(conn.sendsLeft) && progress == []
    ensures started ==> ProgressLog(progress, bytesDone)
    ensures started ==> Delivered(old(conn.sent), old(conn.sendsLeft), 0, UploadFrom(folder, names, 0, request),
                                  conn.sent, conn.sendsLeft, bytesDone)
  {
    started, bytesDone, progress := false, 0, [];
    if !(forall k | 0 <= k < |names| :: names[k] in folder) {
      return;
    }
    started, progress := true, [0];
    ghost var sent0, left0 := conn.sent, conn.sendsLeft;
    ghost var all := UploadFrom(folder, names, 0, request);
    ghost var done: seq<Message> := [];
    DeliveredNothing(sent0, left0, 0);
    var i := 0;
    while i < |names|
      invariant i <= |names|
      invariant all == done + UploadFrom(folder, names, i, request)
      invariant Delivered(sent0, left0, 0, done, conn.sent, conn.sendsLeft, bytesDone) && Whole(left0, done)
      invariant ProgressLog(progress, bytesDone)
    {
      var e := folder[names[i]];
      if !e.File? {
        i := i + 1;
        continue;
      }
      ghost var fm := FileMessages(names[i], e, request);
      ghost var later := UploadFrom(folder, names, i + 1, request);
      ghost var sent1, left1, bytes1 := conn.sent, conn.sendsLeft, bytesDone;
      var goOn;
      goOn, bytesDone, progress := UploadFile(conn, names[i], e, request, bytesDone, progress);
      if !goOn {
        if e.readable {
          DeliveredCut(sent1, left1, bytes1, fm, conn.sent, conn.sendsLeft, bytesDone, later);
          DeliveredThen(sent0, left0, 0, done, sent1, left1, bytes1, fm + later, conn.sent, conn.sendsLeft, bytesDone);
        } else {
          DeliveredThen(sent0, left0, 0, done, sent1, left1, bytes1, fm, conn.sent, conn.sendsLeft, bytesDone);
        }
        return;
      }
      DeliveredThen(sent0, left0, 0, done, sent1, left1, bytes1, fm, conn.sent, conn.sendsLeft, bytesDone);
      AppendAssoc(done, fm, later);
      done := done + fm;
      i := i + 1;
    }
    assert done == all;
  }

  /** The total of the sizes of the names from the `i`-th on: `total_size` when they are all regular files. */
  function TotalSize(folder: Folder, names: seq<Name>, i: nat): nat
    requires i <= |names| && AllPresent(folder, names)
    decreases |names| - i
  {
    if i == |names| then 0
    else (if folder[names[i]].File? then |folder[names[i]].content| else 0) + TotalSize(folder, names, i + 1)
  }

  /** Every name from the `i`-th on is a regular file that can be read. */
  predicate AllReadable(folder: Folder, names: seq<Name>, i: nat)
    requires AllPresent(folder, names)
  {
    forall k | i <= k < |names| :: folder[names[k]].File? && folder[names[k]].readable
  }

  /**
   * When every name is a readable regular file, the batch's content adds up
   * to `total_size`, so a batch whose sends all succeed brings the progress
   * bar to its maximum.
   */
  lemma {:induction false} UploadCountsEverything(folder: Folder, names: seq<Name>, i: nat, request: (Name, nat, real) -> seq<byte>)
    requires i <= |names| && AllPresent(folder, names) && AllReadable(folder, names, i)
    ensures Counted(UploadFrom(folder, names, i, request)) == TotalSize(folder, names, i)
    decreases |names| - i
  {
    if i < |names| {
      var e := folder[names[i]];
      UploadCountsEverything(folder, names, i + 1, request);
      FileMessagesCarryContent(names[i], e, request);
      WireAppend(FileMessages(names[i], e, request), UploadFrom(folder, names, i + 1, request));
    }
  }

  /** The requests the batch sends: one per regular file, in order, up to and including the first that cannot be read. */
  function RequestedNames(folder: Folder, names: seq<Name>, i: nat): (r: seq<Name>)
    requires i <= |names| && AllPresent(folder, names)
    ensures forall k | 0 <= k < |r| :: r[k] in folder && folder[r[k]].File?
    decreases |names| - i
  {
    if i == |names| then []
    else
      var e := folder[names[i]];
      if !e.File? then RequestedNames(folder, names, i + 1)
      else if !e.readable then [names[i]]
      else [names[i]] + RequestedNames(folder, names, i + 1)
  }

  /** The request messages of a batch. */
  function RequestsOf(ms: seq<Message>): seq<seq<byte>> {
    if ms == [] then [] else (if ms[0].Request? then [ms[0].bytes] else []) + RequestsOf(ms[1..])
  }

  lemma {:induction false} RequestsOfAppend(a: seq<Message>, b: seq<Message>)
    ensures RequestsOf(a + b) == RequestsOf(a) + RequestsOf(b)
  {
    if a == [] {
      assert a + b == b;
    } else {
      assert (a + b)[0] == a[0];
      assert (a + b)[1..] == a[1..] + b;
      RequestsOfAppend(a[1..], b);
    }
  }

  lemma {:induction false} NoRequestsInContents(cs: seq<seq<byte>>)
    ensures RequestsOf(Contents(cs)) == []
  {
    if cs != [] {
      NoRequestsInContents(cs[1..]);
      assert Contents(cs)[1..] == Contents(cs[1..]);
    }
  }

  /**
   * `r` holds one request per name of `rn`, in order, each carrying the
   * name, size and modification time of that regular file.
   */
  predicate RequestsFor(r: seq<seq<byte>>, rn: seq<Name>, folder: Folder, request: (Name, nat, real) -> seq<byte>) {
    && |r| == |rn|
    && forall k | 0 <= k < |rn| ::
         rn[k] in folder && folder[rn[k]].File? && r[k] == request(rn[k], |folder[rn[k]].content|, folder[rn[k]].mtime)
  }

  lemma RequestsForCons(r: seq<seq<byte>>, rn: seq<Name>, folder: Folder, request: (Name, nat, real) -> seq<byte>, n: Name)
    requires RequestsFor(r, rn, folder, request) && n in folder && folder[n].File?
    ensures RequestsFor([request(n, |folder[n].content|, folder[n].mtime)] + r, [n] + rn, folder, request)
  {
    var r' := [request(n, |folder[n].content|, folder[n].mtime)] + r;
    var rn' := [n] + rn;
    forall k | 0 < k < |rn'|
      ensures rn'[k] in folder && folder[rn'[k]].File? && r'[k] == request(rn'[k], |folder[rn'[k]].content|, folder[rn'[k]].mtime)
    {
      assert r'[k] == r[k - 1] && rn'[k] == rn[k - 1];
    }
  }

  /**
   * The batch sends exactly one request per regular file, skipping anything
   * else, in the order of the names, and none after a file that cannot be
   * opened; each carries the file's name, size and modification time.
   */
  lemma {:induction false} UploadRequestsInOrder(folder: Folder, names: seq<Name>, i: nat, request: (Name, nat, real) -> seq<byte>)
    requires i <= |names| && AllPresent(folder, names)
    ensures RequestsFor(RequestsOf(UploadFrom(folder, names, i, request)), RequestedNames(folder, names, i), folder, request)
    decreases |names| - i
  {
    if i < |names| {
      var e := folder[names[i]];
      UploadRequestsInOrder(folder, names, i + 1, request);
      if e.File? {
        var later := UploadFrom(folder, names, i + 1, request);
        var fm := FileMessages(names[i], e, request);
        var req := Request(request(names[i], |e.content|, e.mtime));
        var rest: seq<Message> := if e.readable then Contents(Chunks(e.content, READ_SIZE)) else [];
        assert fm == [req] + rest;
        RequestsOfAppend([req], rest);
        NoRequestsInContents(Chunks(e.content, READ_SIZE));
        assert RequestsOf([req]) == [req.bytes];
        if e.readable {
          RequestsOfAppend(fm, later);
          RequestsForCons(RequestsOf(later), RequestedNames(folder, names, i + 1), folder, request, names[i]);
        } else {
          assert RequestsOf([]) == [];
          RequestsForCons([], [], folder, request, names[i]);
        }
      }
    }
  }
}
