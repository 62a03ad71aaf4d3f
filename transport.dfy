/**
 * The TCP connection as both programs see it: `recv(n)` and `sendall(data)`.
 *
 * Incoming data is a sequence of segments, each the most that one `recv`
 * can return at once (a `recv(n)` returns at most `n` bytes of the first
 * segment and leaves the rest of it for the next call); the end of the
 * segments is the peer's close, where `recv` returns `b''`. Outgoing data is
 * the log of `sendall` calls. A peer that stops accepting data after some
 * number of `sendall` calls makes every later call fail.
 */
module Transport {
  import opened Wrappers
  import opened Text

  /** The byte stream carried by a sequence of segments. */
  function Flatten(ss: seq<seq<byte>>): seq<byte> {
    if ss == [] then [] else ss[0] + Flatten(ss[1..])
  }

  lemma {:induction false} FlattenAppend(a: seq<seq<byte>>, b: seq<seq<byte>>)
    ensures Flatten(a + b) == Flatten(a) + Flatten(b)
  {
    if a == [] {
      assert a + b == b;
    } else {
      assert (a + b)[1..] == a[1..] + b;
      FlattenAppend(a[1..], b);
    }
  }

  /** TCP never hands `recv` an empty segment: an empty read means the peer closed. */
  predicate NoEmpty(ss: seq<seq<byte>>) {
    forall k | 0 <= k < |ss| :: ss[k] != []
  }

  /**
   * One `recv(n)`: the bytes it returns and the segments left over. It
   * returns `b''` exactly at the end of the stream, never more than `n`
   * bytes, and what it returns is the front of the stream.
   */
  function RecvFrom(segs: seq<seq<byte>>, n: nat): (res: (seq<byte>, seq<seq<byte>>))
    requires n > 0 && NoEmpty(segs)
    ensures NoEmpty(res.1)
    ensures |res.0| <= n
    ensures res.0 == [] <==> segs == []
    ensures Flatten(segs) == res.0 + Flatten(res.1)
    ensures |Flatten(res.1)| == |Flatten(segs)| - |res.0|
  {
    if segs == [] then ([], [])
    else if |segs[0]| <= n then (segs[0], segs[1..])
    else
      var rest := [segs[0][n..]] + segs[1..];
      assert rest[1..] == segs[1..];
      assert segs[0] == segs[0][..n] + segs[0][n..];
      (segs[0][..n], rest)
  }

  /**
   * The pieces `f.read(k)` returns on successive calls over a file whose
   * content is `c`, up to the empty read that ends the loop.
   */
  function Chunks(c: seq<byte>, k: nat): seq<seq<byte>>
    requires k > 0
    decreases |c|
  {
    if c == [] then []
    else if |c| <= k then [c]
    else [c[..k]] + Chunks(c[k..], k)
  }

  /** Each piece is non-empty and at most `k` long, and together they are `c`. */
  lemma {:induction false} ChunksMeaning(c: seq<byte>, k: nat)
    requires k > 0
    ensures Flatten(Chunks(c, k)) == c
    ensures forall i | 0 <= i < |Chunks(c, k)| :: 0 < |Chunks(c, k)[i]| <= k
    decreases |c|
  {
    if c == [] {
    } else if |c| <= k {
      assert Flatten([c][1..]) == [];
    } else {
      var rest := Chunks(c[k..], k);
      ChunksMeaning(c[k..], k);
      assert ([c[..k]] + rest)[1..] == rest;
      assert c == c[..k] + c[k..];
    }
  }

  /**
   * The next piece a read of `k` bytes returns at offset `pos` of a file,
   * and the pieces after it.
   */
  lemma ChunksNext(c: seq<byte>, pos: nat, k: nat)
    requires pos < |c| && k > 0
    ensures Chunks(c[pos..], k) == [c[pos..pos + Min(k, |c| - pos)]] + Chunks(c[pos + Min(k, |c| - pos)..], k)
  {
    var r := c[pos..];
    if |r| > k {
      assert r[..k] == c[pos..pos + k];
      assert r[k..] == c[pos + k..];
    } else {
      assert c[pos..pos + (|c| - pos)] == r;
      assert c[|c|..] == [];
    }
  }

  function Min(a: int, b: int): int {
    if a < b then a else b
  }

  lemma AppendAssoc<T>(a: seq<T>, b: seq<T>, c: seq<T>)
    ensures a + (b + c) == (a + b) + c
  {
  }

  /** How many of the next `sendall` calls succeed when `left` more are accepted (`None`: all). */
  function Accepted(left: Option<nat>, calls: nat): (k: nat)
    ensures k <= calls
    ensures k < calls ==> left == Some(k)
  {
    match left
    case None => calls
    case Some(m) => if m < calls then m else calls
  }

  /** The allowance left after `k` successful calls (never below zero). */
  function Spend(left: Option<nat>, k: nat): Option<nat> {
    match left
    case None => None
    case Some(m) => Some(if k <= m then m - k else 0)
  }

  /**
   * After trying to send each of `out` in turn to a peer that accepts
   * `left0` more sends, stopping at the first refusal: the log holds exactly
   * the accepted prefix and the allowance is spent by as much.
   */
  predicate Sends(sent0: seq<seq<byte>>, left0: Option<nat>, out: seq<seq<byte>>,
                  sent: seq<seq<byte>>, left: Option<nat>)
  {
    var k := Accepted(left0, |out|);
    sent == sent0 + out[..k] && left == Spend(left0, k)
  }

  /** Every send of `out` was accepted. */
  predicate AllAccepted(left0: Option<nat>, out: seq<seq<byte>>) {
    Accepted(left0, |out|) == |out|
  }

  lemma SendsNothing(sent: seq<seq<byte>>, left: Option<nat>)
    ensures Sends(sent, left, [], sent, left) && AllAccepted(left, [])
  {
    assert sent + [][..0] == sent;
  }

  /** One `sendall`: accepted and logged, or refused with nothing logged. */
  lemma SendsOne(sent: seq<seq<byte>>, left: Option<nat>, x: seq<byte>, ok: bool,
                 sent1: seq<seq<byte>>, left1: Option<nat>)
    requires ok <==> left != Some(0)
    requires ok ==> sent1 == sent + [x] && left1 == Spend(left, 1)
    requires !ok ==> sent1 == sent && left1 == left
    ensures Sends(sent, left, [x], sent1, left1)
    ensures AllAccepted(left, [x]) <==> ok
  {
    if ok {
      assert [x][..1] == [x];
    } else {
      assert [x][..0] == [];
    }
  }

  lemma AcceptedAppend(left: Option<nat>, a: nat, b: nat)
    requires Accepted(left, a) == a
    ensures Accepted(left, a + b) == a + Accepted(Spend(left, a), b)
    ensures Spend(Spend(left, a), Accepted(Spend(left, a), b)) == Spend(left, a + Accepted(Spend(left, a), b))
  {
  }

  /** Sending all of `a` and then `b` is sending `a + b`. */
  lemma SendsThen(sent0: seq<seq<byte>>, left0: Option<nat>, a: seq<seq<byte>>,
                  sent1: seq<seq<byte>>, left1: Option<nat>, b: seq<seq<byte>>,
                  sent2: seq<seq<byte>>, left2: Option<nat>)
    requires Sends(sent0, left0, a, sent1, left1) && AllAccepted(left0, a)
    requires Sends(sent1, left1, b, sent2, left2)
    ensures Sends(sent0, left0, a + b, sent2, left2)
    ensures AllAccepted(left0, a + b) <==> AllAccepted(left1, b)
  {
    var kb := Accepted(left1, |b|);
    AcceptedAppend(left0, |a|, |b|);
    assert Accepted(left0, |a + b|) == |a| + kb;
    assert a[..|a|] == a;
    assert (a + b)[..|a| + kb] == a + b[..kb];
    AppendAssoc(sent0, a, b[..kb]);
  }

  /** A send refused inside `a` leaves everything after it unsent. */
  lemma SendsCut(sent0: seq<seq<byte>>, left0: Option<nat>, a: seq<seq<byte>>,
                 sent1: seq<seq<byte>>, left1: Option<nat>, b: seq<seq<byte>>)
    requires Sends(sent0, left0, a, sent1, left1) && !AllAccepted(left0, a)
    ensures Sends(sent0, left0, a + b, sent1, left1) && !AllAccepted(left0, a + b)
  {
    var k := Accepted(left0, |a|);
    assert (a + b)[..k] == a[..k];
  }

  class Connection {
    /** Data the peer has written and this side has not yet received. */
    var segments: seq<seq<byte>>
    /** One entry per successful `sendall`, oldest first. */
    var sent: seq<seq<byte>>
    /** How many more `sendall` calls the peer accepts; `None` when unlimited. */
    var sendsLeft: Option<nat>

    ghost predicate Valid()
      reads this
    {
      NoEmpty(segments)
    }

    /** The bytes still to be received, however they are segmented. */
    ghost function Pending(): seq<byte>
      reads this
    {
      Flatten(segments)
    }

    constructor (input: seq<seq<byte>>, accepts: Option<nat>)
      requires NoEmpty(input)
      ensures Valid()
      ensures segments == input && sent == [] && sendsLeft == accepts
    {
      segments := input;
      sent := [];
      sendsLeft := accepts;
    }

    /** `sock.recv(n)`. */
    method Recv(n: nat) returns (data: seq<byte>)
      requires Valid() && n > 0
      modifies this`segments
      ensures Valid()
      ensures (data, segments) == RecvFrom(old(segments), n)
    {
      data, segments := RecvFrom(segments, n).0, RecvFrom(segments, n).1;
    }

    /** `sock.sendall(data)`; `ok` is false when it raises a connection error. */
    method SendAll(data: seq<byte>) returns (ok: bool)
      modifies this`sent, this`sendsLeft
      ensures ok <==> old(sendsLeft) != Some(0)
      ensures ok ==> sent == old(sent) + [data] && sendsLeft == Spend(old(sendsLeft), 1)
      ensures !ok ==> sent == old(sent) && sendsLeft == old(sendsLeft)
    {
      ok := sendsLeft != Some(0);
      if ok {
        sent := sent + [data];
        sendsLeft := Spend(sendsLeft, 1);
      }
    }
  }

  /**
   * Receiving one byte at a time sees the stream in order whatever its
   * segmentation: a `recv(1)` returns exactly the first pending byte.
   */
  lemma RecvOneIsFirstByte(segs: seq<seq<byte>>)
    requires NoEmpty(segs) && segs != []
    ensures RecvFrom(segs, 1).0 == Flatten(segs)[..1]
    ensures Flatten(RecvFrom(segs, 1).1) == Flatten(segs)[1..]
  {
  }
}
