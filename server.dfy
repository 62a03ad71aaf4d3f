/**
 * The server: `handle_client` reads one `recv(4096)` at a time, decodes it
 * as one JSON request and answers it: the version, the update, a folder's
 * index, a file, or an upload it writes into the shared folder. The two
 * shared folders are the server's mutable state.
 */
module Server {
  import opened Wrappers
  import opened Text
  import opened Transport
  import opened Framing
  import opened Json
  import opened Index

  const SERVER_VERSION: string := "0.6.26"

  /** The most the server asks `recv` for, and reads from a file, at a time. */
  const BUFFER_SIZE: nat := 4096

  /** The `check_update` reply. */
  const VERSION_REPLY: seq<byte> := Ascii(SERVER_VERSION)

  /** `json.dumps({'error': 'Invalid folder specified'}).encode()`. */
  const INVALID_FOLDER: seq<byte> := Ascii("{\"error\": \"Invalid folder specified\"}")

  /** The two shared folders a request can name. */
  datatype Share = Cards | Mods

  /** `{'cards': CARD_FOLDER, 'mods': MOD_FOLDER}.get(folder)` for a hashable value. */
  function ShareOf(folder: Json): (r: Option<Share>)
    ensures r == Some(Cards) <==> folder == JStr("cards")
    ensures r == Some(Mods) <==> folder == JStr("mods")
  {
    if folder == JStr("cards") then Some(Cards)
    else if folder == JStr("mods") then Some(Mods)
    else None
  }

  /** The files of both shared folders. */
  class Storage {
    var cards: Folder
    var mods: Folder

    constructor (cards0: Folder, mods0: Folder)
      ensures cards == cards0 && mods == mods0
    {
      cards := cards0;
      mods := mods0;
    }

    function FolderOf(share: Share): Folder
      reads this
    {
      if share == Cards then cards else mods
    }

    /** Writes one entry of one folder; the other folder is untouched. */
    method Write(share: Share, name: string, e: Entry)
      modifies this
      ensures FolderOf(share) == old(FolderOf(share))[name := e]
      ensures share == Cards ==> mods == old(mods)
      ensures share == Mods ==> cards == old(cards)
    {
      if share == Cards {
        cards := cards[name := e];
      } else {
        mods := mods[name := e];
      }
    }
  }

  /**
   * How `receive_file` sizes its reads: as written it always asks for 4096
   * bytes (`Unbounded`), so it can take bytes past the declared size; the
   * `Bounded` rule asks for at most what is still missing.
   */
  datatype ReadRule = Unbounded | Bounded

  function ReadSize(rule: ReadRule, missing: int): (n: nat)
    requires missing > 0
    ensures 0 < n <= BUFFER_SIZE
    ensures rule == Bounded ==> n <= missing
  {
    if rule == Unbounded then BUFFER_SIZE else Min(BUFFER_SIZE, missing)
  }

  /** What arrives for an upload: everything read once the declared size is reached, or the bytes read before the client closed. */
  datatype Incoming = Complete(data: seq<byte>, rest: seq<seq<byte>>) | Reset(data: seq<byte>)

  function Prepend(d: seq<byte>, x: Incoming): Incoming {
    match x
    case Complete(data, rest) => Complete(d + data, rest)
    case Reset(data) => Reset(d + data)
  }

  /**
   * The receive loop of `receive_file` over the incoming segments, `need`
   * bytes still missing: it reads until at least `need` bytes arrived, or
   * until the stream ends.
   */
  function ReceiveSpec(segs: seq<seq<byte>>, need: int, rule: ReadRule): Incoming
    requires NoEmpty(segs)
    decreases |Flatten(segs)|
  {
    if need <= 0 then Complete([], segs)
    else if segs == [] then Reset([])
    else
      var got := RecvFrom(segs, ReadSize(rule, need));
      Prepend(got.0, ReceiveSpec(got.1, need - |got.0|, rule))
  }

  /**
   * What a receive result says about the stream `flat` it was read from:
   * on completion at least `need` bytes were read, and they are exactly what
   * precedes the unread rest; on a reset everything there was was read, and
   * it is less than `need`.
   */
  predicate ReadFrom(r: Incoming, flat: seq<byte>, need: int) {
    && (r.Complete? ==> NoEmpty(r.rest) && flat == r.data + Flatten(r.rest) && |r.data| >= need)
    && (r.Reset? ==> flat == r.data && |r.data| < need)
  }

  /** The receive loop reads the front of the stream, as `ReadFrom` says. */
  lemma {:induction false} ReceiveSpecMeaning(segs: seq<seq<byte>>, need: int, rule: ReadRule)
    requires NoEmpty(segs)
    ensures ReadFrom(ReceiveSpec(segs, need, rule), Flatten(segs), need)
    decreases |Flatten(segs)|
  {
    var r := ReceiveSpec(segs, need, rule);
    if need <= 0 {
      assert r == Complete([], segs) && [] + Flatten(segs) == Flatten(segs);
    } else if segs == [] {
      assert r == Reset([]);
    } else {
      var got := RecvFrom(segs, ReadSize(rule, need));
      var chunk, rest := got.0, got.1;
      ReceiveStep(segs, need, rule, chunk, rest);
      var tail := ReceiveSpec(rest, need - |chunk|, rule);
      ReceiveSpecMeaning(rest, need - |chunk|, rule);
      PrependKeepsMeaning(chunk, tail, Flatten(rest), need);
      assert Flatten(segs) == chunk + Flatten(rest);
    }
  }

  /** A read in front of what follows it: the read bytes come first, and count towards the size. */
  lemma PrependKeepsMeaning(chunk: seq<byte>, tail: Incoming, flat: seq<byte>, need: int)
    requires ReadFrom(tail, flat, need - |chunk|)
    ensures ReadFrom(Prepend(chunk, tail), chunk + flat, need)
  {
    if tail.Complete? {
      AppendAssoc(chunk, tail.data, Flatten(tail.rest));
    }
  }

  /** One read of the receive loop. */
  lemma ReceiveStep(segs: seq<seq<byte>>, need: int, rule: ReadRule, chunk: seq<byte>, rest: seq<seq<byte>>)
    requires NoEmpty(segs) && segs != [] && need > 0
    requires (chunk, rest) == RecvFrom(segs, ReadSize(rule, need))
    ensures NoEmpty(rest)
    ensures ReceiveSpec(segs, need, rule) == Prepend(chunk, ReceiveSpec(rest, need - |chunk|, rule))
  {
  }

  lemma PrependTwice(a: seq<byte>, b: seq<byte>, x: Incoming)
    ensures Prepend(a, Prepend(b, x)) == Prepend(a + b, x)
  {
    assert a + (b + x.data) == (a + b) + x.data;
  }

  lemma Overwrite(f: Folder, name: string, e1: Entry, e2: Entry)
    ensures f[name := e1][name := e2] == f[name := e2]
  {
    assert f[name := e1][name := e2].Keys == f[name := e2].Keys;
  }

  /** `open(path, 'wb')` succeeds: the name is free or a regular file. */
  predicate Writable(folder: Folder, name: string) {
    name !in folder || folder[name].File?
  }

  /**
   * One `connection.recv(...)` of the receive loop, `need` bytes still
   * missing after `done`: an empty read ends the loop with a reset, any
   * other read moves its bytes from the stream to `done`.
   */
  method ReadPiece(conn: Connection, size: int, received: int, rule: ReadRule, ghost pending: Incoming)
    returns (chunk: seq<byte>, ghost next: Incoming)
    requires conn.Valid() && received < size
    requires pending == ReceiveSpec(conn.segments, size - received, rule)
    modifies conn`segments
    ensures conn.Valid()
    ensures chunk == [] ==> conn.segments == [] && pending == Reset([])
    ensures chunk != [] ==> |Flatten(conn.segments)| < |Flatten(old(conn.segments))|
    ensures chunk != [] ==> next == ReceiveSpec(conn.segments, size - (received + |chunk|), rule) && pending == Prepend(chunk, next)
  {
    ghost var segs := conn.segments;
    var need := size - received;
    chunk := conn.Recv(ReadSize(rule, need));
    next := pending;
    if chunk == [] {
      assert ReceiveSpec(segs, need, rule) == Reset([]);
    } else {
      ReceiveStep(segs, need, rule, chunk, conn.segments);
      assert need - |chunk| == size - (received + |chunk|);
      next := ReceiveSpec(conn.segments, need - |chunk|, rule);
    }
  }

  /**
   * The receive loop of `receive_file`: reads pieces until the declared
   * size is reached or the stream ends, and returns what it read.
   */
  method ReceiveLoop(conn: Connection, size: int, rule: ReadRule) returns (data: seq<byte>, reset: bool)
    requires conn.Valid()
    modifies conn`segments
    ensures conn.Valid()
    ensures ReceiveSpec(old(conn.segments), size, rule) == if reset then Reset(data) else Complete(data, conn.segments)
    ensures reset ==> conn.segments == []
  {
    ghost var total := ReceiveSpec(conn.segments, size, rule);
    ghost var pending := total;
    assert Prepend([], total) == total;
    data, reset := [], false;
    var received := 0;
    while received < size
      invariant conn.Valid()
      invariant received == |data|
      invariant pending == ReceiveSpec(conn.segments, size - received, rule)
      invariant total == Prepend(data, pending)
      decreases |Flatten(conn.segments)|
    {
      var chunk;
      ghost var next;
      chunk, next := ReadPiece(conn, size, received, rule, pending);
      if chunk == [] {
        assert data + [] == data;
        reset := true;
        return;
      }
      PrependTwice(data, chunk, next);
      data := data + chunk;
      received := received + |chunk|;
      pending := next;
    }
    assert pending == Complete([], conn.segments);
    assert data + [] == data;
  }

  /**
   * `receive_file`: truncates the file, writes every piece read until the
   * declared size is reached, then sets the modification time. A stream
   * that ends first leaves the partial file (written at `now`) and reports a
   * reset; a name that cannot be opened for writing is logged and nothing
   * is read.
   */
  method ReceiveFile(conn: Connection, store: Storage, share: Share, name: string, size: int,
                     mtime: real, now: real, rule: ReadRule)
    returns (reset: bool)
    requires conn.Valid() && conn != store as object
    modifies conn`segments, store
    ensures conn.Valid()
    ensures share == Cards ==> store.mods == old(store.mods)
    ensures share == Mods ==> store.cards == old(store.cards)
    ensures var f := old(store.FolderOf(share));
      if !Writable(f, name) then !reset && conn.segments == old(conn.segments) && store.FolderOf(share) == f
      else match ReceiveSpec(old(conn.segments), size, rule)
        case Complete(d, rest) => !reset && conn.segments == rest && store.FolderOf(share) == f[name := File(d, mtime, true)]
        case Reset(d) => reset && conn.segments == [] && store.FolderOf(share) == f[name := File(d, now, true)]
  {
    var f := store.FolderOf(share);
    reset := false;
    if !Writable(f, name) {
      return;
    }
    store.Write(share, name, File([], now, true));
    var data;
    data, reset := ReceiveLoop(conn, size, rule);
    store.Write(share, name, File(data, now, true));
    Overwrite(f, name, File([], now, true), File(data, now, true));
    if reset {
      return;
    }
    store.Write(share, name, File(data, mtime, true));
    Overwrite(f, name, File(data, now, true), File(data, mtime, true));
  }

  /** What `send_file` sends: the size line, then the content in pieces of 4096 bytes unless the file cannot be opened. */
  function FileReply(size: nat, content: Option<seq<byte>>): (out: seq<seq<byte>>)
    ensures out != [] && out[0] == SizeLine(size)
  {
    [SizeLine(size)] + (if content.Some? then Chunks(content.value, BUFFER_SIZE) else [])
  }

  /**
   * `send_file`: the size line, then the file read 4096 bytes at a time.
   * Every error (a failed send, a file that cannot be opened) is logged and
   * ends the reply; the client connection carries on.
   */
  method SendFile(conn: Connection, size: nat, content: Option<seq<byte>>)
    modifies conn`sent, conn`sendsLeft
    ensures Sends(old(conn.sent), old(conn.sendsLeft), FileReply(size, content), conn.sent, conn.sendsLeft)
  {
    ghost var sent0, left0 := conn.sent, conn.sendsLeft;
    ghost var rest: seq<seq<byte>> := if content.Some? then Chunks(content.value, BUFFER_SIZE) else [];
    assert FileReply(size, content) == [SizeLine(size)] + rest;
    var ok := conn.SendAll(SizeLine(size));
    SendsOne(sent0, left0, SizeLine(size), ok, conn.sent, conn.sendsLeft);
    if !ok {
      SendsCut(sent0, left0, [SizeLine(size)], conn.sent, conn.sendsLeft, rest);
      return;
    }
    if content.None? {
      assert [SizeLine(size)] + rest == [SizeLine(size)];
      return;
    }
    ghost var sent1, left1 := conn.sent, conn.sendsLeft;
    SendPieces(conn, content.value);
    SendsThen(sent0, left0, [SizeLine(size)], sent1, left1, rest, conn.sent, conn.sendsLeft);
  }

  /**
   * The read loop of `send_file`: `file.read(4096)` until it returns
   * nothing, each piece sent in turn; a failed send ends the loop.
   */
  method SendPieces(conn: Connection, c: seq<byte>)
    modifies conn`sent, conn`sendsLeft
    ensures Sends(old(conn.sent), old(conn.sendsLeft), Chunks(c, BUFFER_SIZE), conn.sent, conn.sendsLeft)
  {
    ghost var sent1, left1 := conn.sent, conn.sendsLeft;
    ghost var rest := Chunks(c, BUFFER_SIZE);
    ghost var done: seq<seq<byte>> := [];
    SendsNothing(sent1, left1);
    assert c[0..] == c;
    var pos := 0;
    ghost var todo := rest;
    while pos < |c|
      invariant pos <= |c|
      invariant todo == Chunks(c[pos..], BUFFER_SIZE)
      invariant rest == done + todo
      invariant Sends(sent1, left1, done, conn.sent, conn.sendsLeft)
      invariant AllAccepted(left1, done)
      decreases |c| - pos
    {
      var n := Min(BUFFER_SIZE, |c| - pos);
      var data := c[pos..pos + n];
      ghost var later := Chunks(c[pos + n..], BUFFER_SIZE);
      ChunksNext(c, pos, BUFFER_SIZE);
      assert todo == [data] + later;
      AppendAssoc(done, [data], later);
      ghost var sent2, left2 := conn.sent, conn.sendsLeft;
      var ok := conn.SendAll(data);
      SendsOne(sent2, left2, data, ok, conn.sent, conn.sendsLeft);
      if !ok {
        SendsCut(sent2, left2, [data], conn.sent, conn.sendsLeft, later);
        SendsThen(sent1, left1, done, sent2, left2, todo, conn.sent, conn.sendsLeft);
        return;
      }
      SendsThen(sent1, left1, done, sent2, left2, [data], conn.sent, conn.sendsLeft);
      done := done + [data];
      todo := later;
      pos := pos + n;
    }
    assert c[pos..] == [];
    assert rest == done;
  }

  // ---------------------------------------------------------------------
  // handle_client
  // ---------------------------------------------------------------------

  /**
   * What the server cannot see into: `json.loads` of a received piece
   * (`None` on `JSONDecodeError`), `json.dumps` of an index, MD5, `float` of
   * a text, the update file, the size `os.path.getsize` reports for a
   * directory, the clock, and how `receive_file` sizes its reads.
   */
  datatype Env = Env(
    loads: seq<byte> -> Option<Json>,
    dumpsIndex: map<string, FileInfo> -> seq<byte>,
    md5: seq<byte> -> Digest,
    floatOfText: string -> Option<real>,
    update: Option<Entry>,
    dirSize: nat,
    now: real,
    rule: ReadRule)

  /** What one request asks of the server. */
  datatype Action =
    | Stop                                  // an exception ends the client loop
    | Skip                                  // logged, no reply
    | Reply(bytes: seq<byte>)               // one `sendall`
    | SendStored(size: nat, content: Option<seq<byte>>)   // `send_file`; `None`: the file cannot be opened
    | Accept(share: Share, name: string, size: nat, mtime: real)   // `receive_file`

  /** `send_file` of an existing path: its size, and its content when it can be opened. */
  function SendEntry(e: Entry, dirSize: nat): (a: Action)
    ensures a.SendStored?
    ensures e.File? ==> a.size == |e.content| && (a.content.Some? <==> e.readable)
    ensures e.File? && e.readable ==> a.content == Some(e.content)
  {
    match e
    case File(c, _, readable) => SendStored(|c|, if readable then Some(c) else None)
    case Other => SendStored(dirSize, None)
  }

  /** The `get_file` branch once the folder is known. */
  function GetFile(env: Env, fields: map<string, Json>, folder: Folder): Action {
    var filename := GetOr(fields, "filename", JNull);
    if !Truthy(filename) then Skip
    else if !filename.JStr? then Stop
    else if filename.s in folder && folder[filename.s].File? then SendEntry(folder[filename.s], env.dirSize)
    else Reply(NOT_FOUND)
  }

  /** The `upload_file` branch once the folder is known. */
  function UploadFileRequest(env: Env, fields: map<string, Json>, share: Share): Action {
    var filename := GetOr(fields, "filename", JNull);
    var size := IntOf(GetOr(fields, "size", JInt(0)));
    if size.None? then Stop
    else
      var mtime := FloatOf(GetOr(fields, "mtime", JInt(0)), env.floatOfText);
      if mtime.None? then Stop
      else if Truthy(filename) && size.value > 0 then
        if filename.JStr? then Accept(share, filename.s, size.value as nat, mtime.value) else Stop
      else Skip
  }

  /** The three commands that name a shared folder. */
  predicate FolderCommand(command: Json) {
    command == JStr("list_files") || command == JStr("get_file") || command == JStr("upload_file")
  }

  /**
   * The decision `handle_client` takes for one decoded request, given the
   * current contents of the two shared folders.
   */
  function Dispatch(env: Env, request: Option<Json>, cards: Folder, mods: Folder): Action {
    if request.None? then Skip
    else if !request.value.JObject? then Stop
    else
      var fields := request.value.fields;
      var command := GetOr(fields, "command", JNull);
      var folder := GetOr(fields, "folder", JNull);
      if !Truthy(command) then Skip
      else if Truthy(folder) && !folder.JStr? then Stop
      else if command == JStr("check_update") then Reply(VERSION_REPLY)
      else if command == JStr("get_update") then
        if env.update.Some? then SendEntry(env.update.value, env.dirSize) else Reply(NOT_FOUND)
      else if FolderCommand(command) then
        if !Hashable(folder) then Stop
        else
          var share := ShareOf(folder);
          if share.None? then Reply(INVALID_FOLDER)
          else
            var f := if share.value == Cards then cards else mods;
            if command == JStr("list_files") then Reply(env.dumpsIndex(Listed(f, env.md5)))
            else if command == JStr("get_file") then GetFile(env, fields, f)
            else UploadFileRequest(env, fields, share.value)
      else Skip
  }

  /** Everything one client connection sees and changes. */
  datatype World = World(segs: seq<seq<byte>>, cards: Folder, mods: Folder, sent: seq<seq<byte>>, left: Option<nat>)

  function FolderIn(w: World, share: Share): Folder {
    if share == Cards then w.cards else w.mods
  }

  function WithFolder(w: World, share: Share, f: Folder): World {
    if share == Cards then w.(cards := f) else w.(mods := f)
  }

  /**
   * Carrying out one action: the new world, and whether the client loop
   * goes on. A failed `sendall` of a reply ends the loop; `send_file`
   * swallows its own errors; an upload cut short by the client ends it.
   */
  function Perform(env: Env, a: Action, w: World): (r: (World, bool))
    requires NoEmpty(w.segs)
    ensures NoEmpty(r.0.segs) && |Flatten(r.0.segs)| <= |Flatten(w.segs)|
  {
    match a
    case Stop => (w, false)
    case Skip => (w, true)
    case Reply(b) =>
      if w.left == Some(0) then (w, false)
      else (w.(sent := w.sent + [b], left := Spend(w.left, 1)), true)
    case SendStored(size, content) =>
      var out := FileReply(size, content);
      var k := Accepted(w.left, |out|);
      (w.(sent := w.sent + out[..k], left := Spend(w.left, k)), true)
    case Accept(share, name, size, mtime) =>
      var f := FolderIn(w, share);
      if !Writable(f, name) then (w, true)
      else
        ReceiveSpecMeaning(w.segs, size, env.rule);
        match ReceiveSpec(w.segs, size, env.rule)
        case Complete(d, rest) => (WithFolder(w, share, f[name := File(d, mtime, true)]).(segs := rest), true)
        case Reset(d) => (WithFolder(w, share, f[name := File(d, env.now, true)]).(segs := []), false)
  }

  /**
   * `handle_client`: receive at most 4096 bytes, decode them as one request,
   * act on it, and repeat until the stream ends or an action ends the loop.
   */
  function Serve(env: Env, w: World): (r: World)
    requires NoEmpty(w.segs)
    decreases |Flatten(w.segs)|
  {
    if w.segs == [] then w
    else
      var got := RecvFrom(w.segs, BUFFER_SIZE);
      var step := Perform(env, Dispatch(env, env.loads(got.0), w.cards, w.mods), w.(segs := got.1));
      if step.1 then Serve(env, step.0) else step.0
  }

  /** The world as the connection and the storage hold it. */
  function StateOf(conn: Connection, store: Storage): World
    reads conn, store
  {
    World(conn.segments, store.cards, store.mods, conn.sent, conn.sendsLeft)
  }

  /** Carries out one action on the connection and the storage. */
  method Answer(conn: Connection, store: Storage, env: Env, a: Action) returns (goOn: bool)
    requires conn.Valid() && conn != store as object
    modifies conn, store
    ensures conn.Valid()
    ensures (StateOf(conn, store), goOn) == Perform(env, a, old(StateOf(conn, store)))
  {
    match a
    case Stop =>
      goOn := false;
    case Skip =>
      goOn := true;
    case Reply(b) =>
      goOn := conn.SendAll(b);
    case SendStored(size, content) =>
      SendFile(conn, size, content);
      goOn := true;
    case Accept(share, name, size, mtime) =>
      var reset := ReceiveFile(conn, store, share, name, size, mtime, env.now, env.rule);
      goOn := !reset;
  }

  /** The client loop of `handle_client` over one connection. */
  method HandleClient(conn: Connection, store: Storage, env: Env)
    requires conn.Valid() && conn != store as object
    modifies conn, store
    ensures StateOf(conn, store) == Serve(env, old(StateOf(conn, store)))
  {
    ghost var w0 := StateOf(conn, store);
    while true
      invariant conn.Valid()
      invariant Serve(env, w0) == Serve(env, StateOf(conn, store))
      decreases |Flatten(conn.segments)|
    {
      var data := conn.Recv(BUFFER_SIZE);
      if data == [] {
        return;
      }
      var goOn := Answer(conn, store, env, Dispatch(env, env.loads(data), store.cards, store.mods));
      if !goOn {
        return;
      }
    }
  }

  // ---------------------------------------------------------------------
  // Properties of the dispatcher
  // ---------------------------------------------------------------------

  /** A request naming a shared folder that the log line at the top of the dispatch accepts. */
  predicate FolderRequest(fields: map<string, Json>) {
    var folder := GetOr(fields, "folder", JNull);
    FolderCommand(GetOr(fields, "command", JNull)) && Hashable(folder) && (folder.JStr? || !Truthy(folder))
  }

  /**
   * Only `cards` and `mods` resolve to a folder: any other folder gets the
   * error reply, and a request for one share does not depend on the other.
   */
  lemma FolderLookup(env: Env, fields: map<string, Json>, cards: Folder, mods: Folder, other: Folder)
    requires FolderRequest(fields)
    ensures var folder := GetOr(fields, "folder", JNull);
      folder != JStr("cards") && folder != JStr("mods") ==> Dispatch(env, Some(JObject(fields)), cards, mods) == Reply(INVALID_FOLDER)
    ensures GetOr(fields, "folder", JNull) == JStr("cards") ==>
      Dispatch(env, Some(JObject(fields)), cards, mods) == Dispatch(env, Some(JObject(fields)), cards, other)
    ensures GetOr(fields, "folder", JNull) == JStr("mods") ==>
      Dispatch(env, Some(JObject(fields)), cards, mods) == Dispatch(env, Some(JObject(fields)), other, mods)
  {
  }

  /**
   * `get_file`: a regular file of the share is sent with its length as the
   * size line (content included when it can be opened), anything else is
   * answered with `0\n`, and a request without a file name gets no reply.
   */
  lemma GetFileReplies(env: Env, fields: map<string, Json>, cards: Folder, mods: Folder, share: Share)
    requires GetOr(fields, "command", JNull) == JStr("get_file")
    requires GetOr(fields, "folder", JNull) == JStr(if share == Cards then "cards" else "mods")
    ensures var a := Dispatch(env, Some(JObject(fields)), cards, mods);
      var filename := GetOr(fields, "filename", JNull);
      var f := if share == Cards then cards else mods;
      && (!Truthy(filename) ==> a == Skip)
      && (filename.JStr? && filename.s != "" && filename.s in f && f[filename.s].File? ==>
            a == SendStored(|f[filename.s].content|, if f[filename.s].readable then Some(f[filename.s].content) else None))
      && (filename.JStr? && filename.s != "" && !(filename.s in f && f[filename.s].File?) ==> a == Reply(NOT_FOUND))
  {
  }

  /**
   * An upload is received exactly when the request is an `upload_file` for
   * a shared folder with a non-empty file name, a size that converts to a
   * positive integer and an mtime that converts to a float; `size` and
   * `mtime` default to 0.
   */
  lemma UploadAccepted(env: Env, request: Option<Json>, cards: Folder, mods: Folder)
    ensures var a := Dispatch(env, request, cards, mods);
      a.Accept? <==>
        && request.Some? && request.value.JObject?
        && var fields := request.value.fields;
           var filename := GetOr(fields, "filename", JNull);
           var size := IntOf(GetOr(fields, "size", JInt(0)));
           && GetOr(fields, "command", JNull) == JStr("upload_file")
           && ShareOf(GetOr(fields, "folder", JNull)).Some?
           && filename.JStr? && filename.s != ""
           && size.Some? && size.value > 0
           && FloatOf(GetOr(fields, "mtime", JInt(0)), env.floatOfText).Some?
    ensures var a := Dispatch(env, request, cards, mods);
      a.Accept? ==>
        var fields := request.value.fields;
        && Some(a.share) == ShareOf(GetOr(fields, "folder", JNull))
        && JStr(a.name) == GetOr(fields, "filename", JNull)
        && Some(a.size as int) == IntOf(GetOr(fields, "size", JInt(0)))
        && Some(a.mtime) == FloatOf(GetOr(fields, "mtime", JInt(0)), env.floatOfText)
  {
  }

  /**
   * An upload request whose size converts to 0 or less, be it the explicit
   * `"size": 0` the client sends for an empty file or a missing size,
   * receives nothing and changes nothing, whatever its file name.
   */
  lemma ZeroSizeUploadConsumesNothing(env: Env, fields: map<string, Json>, w: World)
    requires NoEmpty(w.segs)
    requires GetOr(fields, "command", JNull) == JStr("upload_file")
    requires GetOr(fields, "folder", JNull) in {JStr("cards"), JStr("mods")}
    requires var size := IntOf(GetOr(fields, "size", JInt(0))); size.Some? && size.value <= 0
    requires FloatOf(GetOr(fields, "mtime", JInt(0)), env.floatOfText).Some?
    ensures Perform(env, Dispatch(env, Some(JObject(fields)), w.cards, w.mods), w) == (w, true)
  {
  }

  /**
   * Requests that get no reply and leave the loop running: undecodable
   * data, a missing or empty command, an unknown command. `check_update`
   * gets the bare version string.
   */
  lemma NoReplyRequests(env: Env, request: Option<Json>, cards: Folder, mods: Folder)
    ensures request.None? ==> Dispatch(env, request, cards, mods) == Skip
    ensures request.Some? && request.value.JObject? && "command" !in request.value.fields ==>
      Dispatch(env, request, cards, mods) == Skip
    ensures request.Some? && request.value.JObject? ==>
      var fields := request.value.fields;
      var command := GetOr(fields, "command", JNull);
      var folder := GetOr(fields, "folder", JNull);
      (command.JStr? && command.s !in {"check_update", "get_update", "list_files", "get_file", "upload_file"}
       && (folder.JStr? || !Truthy(folder)))
        ==> Dispatch(env, request, cards, mods) == Skip
    ensures request.Some? && request.value.JObject? ==>
      var fields := request.value.fields;
      var folder := GetOr(fields, "folder", JNull);
      GetOr(fields, "command", JNull) == JStr("check_update") && (folder.JStr? || !Truthy(folder)) ==>
        Dispatch(env, request, cards, mods) == Reply(VERSION_REPLY) && VERSION_REPLY == [48, 46, 54, 46, 50, 54]
  {
  }

  // ---------------------------------------------------------------------
  // Properties of the receive loop
  // ---------------------------------------------------------------------

  /** The receive loop completes exactly when the stream holds the declared size, whichever read rule. */
  lemma ReceiveCompletesIffEnough(segs: seq<seq<byte>>, need: int, rule: ReadRule)
    requires NoEmpty(segs)
    ensures ReceiveSpec(segs, need, rule).Complete? <==> |Flatten(segs)| >= need
  {
    ReceiveSpecMeaning(segs, need, rule);
  }

  /** Under the bounded rule no read goes past the declared size. */
  lemma {:induction false} BoundedNeverOvershoots(segs: seq<seq<byte>>, need: int)
    requires NoEmpty(segs)
    ensures |ReceiveSpec(segs, need, Bounded).data| <= if need < 0 then 0 else need
    decreases |Flatten(segs)|
  {
    if need > 0 && segs != [] {
      var got := RecvFrom(segs, ReadSize(Bounded, need));
      BoundedNeverOvershoots(got.1, need - |got.0|);
    }
  }

  /**
   * Under the bounded rule a completed upload is exactly the declared
   * number of bytes at the front of the stream, and everything after them
   * is left for the next request.
   */
  lemma BoundedReadsExactly(segs: seq<seq<byte>>, need: nat)
    requires NoEmpty(segs) && |Flatten(segs)| >= need
    ensures var r := ReceiveSpec(segs, need, Bounded);
      r.Complete? && r.data == Flatten(segs)[..need] && Flatten(r.rest) == Flatten(segs)[need..]
  {
    var r := ReceiveSpec(segs, need, Bounded);
    ReceiveSpecMeaning(segs, need, Bounded);
    BoundedNeverOvershoots(segs, need);
    assert Flatten(segs) == r.data + Flatten(r.rest);
    assert |r.data| == need;
    assert Flatten(segs)[..need] == r.data;
    assert Flatten(segs)[need..] == Flatten(r.rest);
  }

  /**
   * As written (always `recv(4096)`) the loop still reads exactly the
   * declared bytes when the upload ends where a segment ends.
   */
  lemma {:induction false} UnboundedExactWhenAligned(a: seq<seq<byte>>, b: seq<seq<byte>>, need: int)
    requires NoEmpty(a) && NoEmpty(b) && need == |Flatten(a)|
    ensures ReceiveSpec(a + b, need, Unbounded) == Complete(Flatten(a), b)
    decreases |Flatten(a)|
  {
    if a == [] {
      assert a + b == b;
    } else {
      var got := RecvFrom(a, BUFFER_SIZE);
      RecvFromAppend(a, b, BUFFER_SIZE);
      UnboundedExactWhenAligned(got.1, b, need - |got.0|);
      assert ReceiveSpec(a + b, need, Unbounded) == Prepend(got.0, ReceiveSpec(got.1 + b, need - |got.0|, Unbounded));
    }
  }

  /** A read that the first segments can satisfy does not look at the segments after them. */
  lemma RecvFromAppend(a: seq<seq<byte>>, b: seq<seq<byte>>, n: nat)
    requires NoEmpty(a) && NoEmpty(b) && a != [] && n > 0
    ensures NoEmpty(a + b)
    ensures RecvFrom(a + b, n) == (RecvFrom(a, n).0, RecvFrom(a, n).1 + b)
  {
    assert (a + b)[0] == a[0];
    assert (a + b)[1..] == a[1..] + b;
    if |a[0]| > n {
      AppendAssoc([a[0][n..]], a[1..], b);
    }
  }


  // ---------------------------------------------------------------------
  // Properties of the client loop
  // ---------------------------------------------------------------------

  /** `b` ends with `a`. */
  predicate SuffixOf(a: seq<byte>, b: seq<byte>) {
    |a| <= |b| && a == b[|b| - |a|..]
  }

  /** What serving never undoes: no file name disappears, no sent reply is taken back, and only the front of the stream is consumed. */
  predicate Keeps(w: World, w': World) {
    && w.cards.Keys <= w'.cards.Keys
    && w.mods.Keys <= w'.mods.Keys
    && w.sent <= w'.sent
    && SuffixOf(Flatten(w'.segs), Flatten(w.segs))
  }

  lemma KeepsTrans(w1: World, w2: World, w3: World)
    requires Keeps(w1, w2) && Keeps(w2, w3)
    ensures Keeps(w1, w3)
  {
    var a, b, c := Flatten(w1.segs), Flatten(w2.segs), Flatten(w3.segs);
    assert c == a[|a| - |b|..][|b| - |c|..];
    assert a[|a| - |b|..][|b| - |c|..] == a[|a| - |c|..];
  }

  lemma PerformKeeps(env: Env, a: Action, w: World)
    requires NoEmpty(w.segs)
    ensures Keeps(w, Perform(env, a, w).0)
  {
    var w' := Perform(env, a, w).0;
    if a.Accept? && Writable(FolderIn(w, a.share), a.name) {
      ReceiveSpecMeaning(w.segs, a.size, env.rule);
      var r := ReceiveSpec(w.segs, a.size, env.rule);
      assert Flatten(w'.segs) == Flatten(w.segs)[|r.data|..];
    } else {
      assert Flatten(w'.segs) == Flatten(w.segs)[|Flatten(w.segs)| - |Flatten(w'.segs)|..];
    }
  }

  /** Serving a client keeps every file name of both folders and every reply already sent, and consumes only the front of the stream. */
  lemma {:induction false} ServeKeeps(env: Env, w: World)
    requires NoEmpty(w.segs)
    ensures Keeps(w, Serve(env, w))
    decreases |Flatten(w.segs)|
  {
    if w.segs == [] {
      assert Flatten(w.segs) == Flatten(w.segs)[|Flatten(w.segs)|..];
    } else {
      var got := RecvFrom(w.segs, BUFFER_SIZE);
      var w1 := w.(segs := got.1);
      assert Keeps(w, w1) by {
        assert Flatten(w1.segs) == Flatten(w.segs)[|got.0|..];
      }
      var step := Perform(env, Dispatch(env, env.loads(got.0), w.cards, w.mods), w1);
      PerformKeeps(env, Dispatch(env, env.loads(got.0), w.cards, w.mods), w1);
      KeepsTrans(w, w1, step.0);
      if step.1 {
        ServeKeeps(env, step.0);
        KeepsTrans(w, step.0, Serve(env, step.0));
      }
    }
  }
}
