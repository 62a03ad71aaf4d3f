/**
 * The two programs against each other: what the server's `send_file` and
 * `0\n` replies look like to the client's download loop, and what the
 * client's upload messages look like to the server's `receive_file`.
 */
module RoundTrip {
  import opened Wrappers
  import opened Text
  import opened Transport
  import opened Framing
  import opened Index
  import opened Classifier
  import opened Download
  import opened Upload
  import opened Server

  /** The bytes of a `send_file` reply for a readable file are its size line followed by its content. */
  lemma FileReplyBytes(c: seq<byte>)
    ensures Flatten(FileReply(|c|, Some(c))) == SizeLine(|c|) + c
  {
    var chunks := Chunks(c, BUFFER_SIZE);
    ChunksMeaning(c, BUFFER_SIZE);
    assert FileReply(|c|, Some(c)) == [SizeLine(|c|)] + chunks;
    FlattenAppend([SizeLine(|c|)], chunks);
    assert Flatten([SizeLine(|c|)]) == SizeLine(|c|) + Flatten([SizeLine(|c|)][1..]);
  }

  /**
   * A non-empty file sent by the server arrives whole at the client, and
   * whatever follows the reply is left unread.
   */
  lemma SendFileThenFetch(c: seq<byte>, rest: seq<byte>)
    requires c != []
    ensures FetchFile(Flatten(FileReply(|c|, Some(c))) + rest) == Received(c, rest)
  {
    FileReplyBytes(c);
    SizeLineRoundTrip(|c|, c + rest);
    AppendAssoc(SizeLine(|c|), c, rest);
    var r := c + rest;
    assert r[..|c|] == c && r[|c|..] == rest;
  }

  /**
   * The size 0 that marks a missing file is also the header of an empty
   * file: the client reads both as absent and cannot download an empty file.
   */
  lemma EmptyFileLooksAbsent(rest: seq<byte>)
    ensures Flatten(FileReply(0, Some([]))) == NOT_FOUND
    ensures FetchFile(NOT_FOUND + rest) == Absent(rest)
  {
    FileReplyBytes([]);
    NotFoundIsSizeZero(rest);
  }

  /**
   * The client's messages for one readable file carry, after the request,
   * exactly the bytes that a server receiving under the bounded rule writes
   * into the file, whatever the segmentation; the bytes after them are left
   * for the next request.
   */
  lemma UploadReceivedExactly(name: Name, e: Entry, request: (Name, nat, real) -> seq<byte>,
                              segs: seq<seq<byte>>, more: seq<byte>)
    requires e.File? && e.readable
    requires NoEmpty(segs) && Flatten(segs) == Flatten(Wire(FileMessages(name, e, request)[1..])) + more
    ensures var r := ReceiveSpec(segs, |e.content|, Bounded);
      r.Complete? && r.data == e.content && Flatten(r.rest) == more
  {
    FileMessagesCarryContent(name, e, request);
    BoundedReadsExactly(segs, |e.content|);
    assert Flatten(segs)[..|e.content|] == e.content;
    assert Flatten(segs)[|e.content|..] == more;
  }

  /** An accepted upload under the bounded rule stores exactly the declared bytes with the client's mtime. */
  lemma BoundedUploadStores(env: Env, w: World, share: Share, name: string, c: seq<byte>, mtime: real, more: seq<byte>)
    requires env.rule == Bounded && NoEmpty(w.segs) && Flatten(w.segs) == c + more
    requires Writable(FolderIn(w, share), name)
    ensures var r := Perform(env, Accept(share, name, |c|, mtime), w);
      && r.1
      && FolderIn(r.0, share) == FolderIn(w, share)[name := File(c, mtime, true)]
      && Flatten(r.0.segs) == more
  {
    BoundedReadsExactly(w.segs, |c|);
    assert (c + more)[..|c|] == c && (c + more)[|c|..] == more;
  }

  /** An upload of one byte followed, in the same segment, by the `{` that opens the next request. */
  const OVERSHOOT_INPUT: seq<seq<byte>> := [[1, 123]]

  function OvershootWorld(): World {
    World(OVERSHOOT_INPUT, map[], map[], [], None)
  }

  /**
   * As written, `receive_file` asks for 4096 bytes whatever is still
   * missing: when the client's next request follows the content in the same
   * segment, it is written into the uploaded file and lost to the client
   * loop.
   */
  lemma UnboundedSwallowsNextRequest(env: Env)
    requires env.rule == Unbounded
    ensures var r := Perform(env, Accept(Cards, "a", 1, 0.0), OvershootWorld());
      r.1 && r.0.cards == map["a" := File([1, 123], 0.0, true)] && r.0.segs == []
  {
    var segs := OVERSHOOT_INPUT;
    assert segs[0] == [1, 123] && segs[1..] == [];
    assert RecvFrom(segs, BUFFER_SIZE) == ([1, 123], []);
    assert ReceiveSpec([], -1, Unbounded) == Complete([], []);
    assert ReceiveSpec(segs, 1, Unbounded) == Complete([1, 123], []);
  }

  /** With reads bounded by what is missing, the same input stores the one byte and keeps the next request. */
  lemma BoundedKeepsNextRequest(env: Env)
    requires env.rule == Bounded
    ensures var r := Perform(env, Accept(Cards, "a", 1, 0.0), OvershootWorld());
      r.1 && r.0.cards == map["a" := File([1], 0.0, true)] && r.0.segs == [[123]]
  {
    var segs := OVERSHOOT_INPUT;
    var s: seq<byte> := [1, 123];
    assert segs[0] == s && segs[1..] == [];
    assert s[..1] == [1] && s[1..] == [123];
    assert [s[1..]] + segs[1..] == [[123]];
    assert RecvFrom(segs, 1) == ([1], [[123]]);
    assert ReceiveSpec([[123]], 0, Bounded) == Complete([], [[123]]);
    assert ReceiveSpec(segs, 1, Bounded) == Complete([1], [[123]]);
  }
}
