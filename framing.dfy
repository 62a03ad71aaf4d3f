/**
 * The client's two readers on the connection: `_recv_line`, which reads the
 * size line in front of a file payload, and `_recv_json_message`, the
 * byte-at-a-time scanner that finds where a JSON reply ends (replies carry no
 * length prefix).
 */
module Framing {
  import opened Wrappers
  import opened Text
  import opened Transport

  // ---------------------------------------------------------------------
  // Size lines
  // ---------------------------------------------------------------------

  /** Index of the first newline in `s`, or `|s|` when there is none. */
  function LineEnd(s: seq<byte>): (i: nat)
    ensures i <= |s|
  {
    if s == [] || s[0] == NEWLINE then 0 else 1 + LineEnd(s[1..])
  }

  /** What `_recv_line` leaves unread: everything after the first newline (nothing at the end of the stream). */
  function AfterLine(s: seq<byte>): seq<byte> {
    var i := LineEnd(s);
    if i < |s| then s[i + 1..] else []
  }

  /** `buffer.decode().strip()` of the bytes before the first newline; `None` when decoding raises. */
  function LineText(s: seq<byte>): Option<string> {
    TextOf(s[..LineEnd(s)])
  }

  /** `line.decode().strip()`: `None` when decoding raises. */
  function TextOf(line: seq<byte>): Option<string> {
    match DecodeAscii(line)
    case None => None
    case Some(t) => Some(Strip(t, IsSpace))
  }

  /** The client's `int(_recv_line(sock))`: `None` when either raises `ValueError`. */
  function SizeOfLine(s: seq<byte>): Option<int> {
    match LineText(s)
    case None => None
    case Some(t) => IntOfText(t)
  }

  /** What the server writes in front of a payload: `str(size).encode() + b'\n'`. */
  function SizeLine(size: nat): seq<byte> {
    Decimal(size) + [NEWLINE]
  }

  /** The literal `b"0\n"` the server sends for a file it does not have. */
  const NOT_FOUND: seq<byte> := [48, 10]

  /** `sock.recv(1)`: the next byte of the stream, or nothing at its end. */
  method RecvByte(conn: Connection) returns (b: seq<byte>)
    requires conn.Valid()
    modifies conn`segments
    ensures conn.Valid()
    ensures b == [] <==> old(conn.Pending()) == []
    ensures b == [] ==> conn.Pending() == []
    ensures b != [] ==> b == [old(conn.Pending())[0]] && conn.Pending() == old(conn.Pending())[1..]
  {
    ghost var segs := conn.segments;
    b := conn.Recv(1);
    if segs != [] {
      RecvOneIsFirstByte(segs);
    }
  }

  /**
   * `_recv_line`: reads one byte at a time up to the first newline or the end
   * of the stream, consumes the newline, and returns the decoded, stripped
   * text before it.
   */
  method RecvLine(conn: Connection) returns (line: Option<string>)
    requires conn.Valid()
    modifies conn`segments
    ensures conn.Valid()
    ensures line == LineText(old(conn.Pending()))
    ensures conn.Pending() == AfterLine(old(conn.Pending()))
  {
    ghost var s := conn.Pending();
    var buffer: seq<byte> := [];
    while true
      invariant conn.Valid()
      invariant |buffer| <= |s| && buffer == s[..|buffer|]
      invariant conn.Pending() == s[|buffer|..]
      invariant forall k | 0 <= k < |buffer| :: buffer[k] != NEWLINE
      decreases |conn.Pending()|
    {
      var b := RecvByte(conn);
      if b != [] {
        assert b == [s[|buffer|]] && conn.Pending() == s[|buffer| + 1..];
      }
      if b == [] || b == [NEWLINE] {
        LineEndAt(s, |buffer|);
        assert s[..LineEnd(s)] == buffer;
        assert AfterLine(s) == conn.Pending();
        line := TextOf(buffer);
        return;
      }
      assert buffer + b == s[..|buffer| + 1];
      buffer := buffer + b;
    }
  }

  /** `LineEnd` is the only index with its two properties. */
  lemma {:induction false} LineEndAt(s: seq<byte>, i: nat)
    requires i <= |s|
    requires forall k | 0 <= k < i :: s[k] != NEWLINE
    requires i < |s| ==> s[i] == NEWLINE
    ensures LineEnd(s) == i
    decreases i
  {
    if i > 0 {
      assert s[0] != NEWLINE;
      forall k | 0 <= k < i - 1 ensures s[1..][k] != NEWLINE {
        assert s[1..][k] == s[k + 1];
      }
      LineEndAt(s[1..], i - 1);
    }
  }

  /**
   * Round trip of the payload framing: reading a line from
   * `str(n) + "\n" + rest` gives the text of `n`, `int` of it is `n`, and
   * exactly `rest` is left unread.
   */
  lemma SizeLineRoundTrip(n: nat, rest: seq<byte>)
    ensures LineText(SizeLine(n) + rest) == Some(DecimalText(n))
    ensures SizeOfLine(SizeLine(n) + rest) == Some(n)
    ensures AfterLine(SizeLine(n) + rest) == rest
  {
    var d := Decimal(n);
    var s := SizeLine(n) + rest;
    assert s[|d|] == NEWLINE;
    LineEndAt(s, |d|);
    assert s[..|d|] == d;
    assert s[|d| + 1..] == rest;
    StripUnchanged(DecimalText(n), IsSpace);
    DecimalRoundTrip(n);
  }

  /** The not-found reply and the header of an empty file are the same bytes: both read as size 0. */
  lemma NotFoundIsSizeZero(rest: seq<byte>)
    ensures NOT_FOUND == SizeLine(0)
    ensures SizeOfLine(NOT_FOUND + rest) == Some(0)
    ensures AfterLine(NOT_FOUND + rest) == rest
  {
    assert Decimal(0) == [48];
    SizeLineRoundTrip(0, rest);
  }

  // ---------------------------------------------------------------------
  // The JSON delimiter scanner
  // ---------------------------------------------------------------------

  /**
   * When a quote counts as a string delimiter. The program checks only the
   * single preceding byte (`PrecedingByte`); `OddRun` is the rule JSON
   * escaping needs: a quote is escaped exactly when an odd number of
   * backslashes precede it.
   */
  datatype EscapeRule = PrecedingByte | OddRun

  /** Number of backslashes at the end of `s`. */
  function TrailingBackslashes(s: seq<byte>): (n: nat)
    ensures n <= |s|
    ensures forall k | |s| - n <= k < |s| :: s[k] == BACKSLASH
    ensures n < |s| ==> s[|s| - n - 1] != BACKSLASH
  {
    if s == [] then 0
    else
      var t := TrailingBackslashes(s[1..]);
      if t == |s| - 1 && s[0] == BACKSLASH then |s| else t
  }

  /**
   * Whether a quote received after the bytes `prev` toggles `in_string`. The
   * program compares `buffer[-2:-1]`, the byte before the quote, with a
   * backslash: the quote counts unless `prev` ends with a backslash.
   */
  predicate Unescaped(rule: EscapeRule, prev: seq<byte>) {
    match rule
    case PrecedingByte => prev == [] || prev[|prev| - 1] != BACKSLASH
    case OddRun => TrailingBackslashes(prev) % 2 == 0
  }

  /** The scanner's variables `buffer`, `open_braces` and `in_string`. */
  datatype ScanState = ScanState(buffer: seq<byte>, openBraces: int, inString: bool)

  const Start: ScanState := ScanState([], 0, false)

  /** One pass of the loop body once a byte `b` has been received. */
  function Step(rule: EscapeRule, st: ScanState, b: byte): ScanState {
    var buffer := st.buffer + [b];
    if b == QUOTE && Unescaped(rule, st.buffer) then ScanState(buffer, st.openBraces, !st.inString)
    else if b == LBRACE && !st.inString then ScanState(buffer, st.openBraces + 1, st.inString)
    else if b == RBRACE && !st.inString then ScanState(buffer, st.openBraces - 1, st.inString)
    else ScanState(buffer, st.openBraces, st.inString)
  }

  /**
   * The scanner's rules, one variable at a time: the byte is appended to the
   * buffer; `in_string` flips exactly on an unescaped quote; the depth rises
   * exactly on an opening brace and falls exactly on a closing brace outside
   * a string, and moves by at most one.
   */
  lemma StepRule(rule: EscapeRule, st: ScanState, b: byte)
    ensures var r := Step(rule, st, b);
      && r.buffer == st.buffer + [b]
      && (r.inString != st.inString <==> b == QUOTE && Unescaped(rule, st.buffer))
      && (r.openBraces == st.openBraces + 1 <==> b == LBRACE && !st.inString)
      && (r.openBraces == st.openBraces - 1 <==> b == RBRACE && !st.inString)
      && st.openBraces - 1 <= r.openBraces <= st.openBraces + 1
  {
  }

  /** The state after feeding `s` to the scanner from `st`. */
  function Run(rule: EscapeRule, st: ScanState, s: seq<byte>): ScanState
    decreases |s|
  {
    if s == [] then st else Run(rule, Step(rule, st, s[0]), s[1..])
  }

  /** `buffer.strip().startswith(b'{')`, with `bytes.strip()`'s whitespace. */
  predicate OpensObject(buffer: seq<byte>) {
    var t := Strip(buffer, IsByteSpace);
    |t| > 0 && t[0] == LBRACE
  }

  /** The test before `json.loads` is attempted: depth back to zero and an object opened. */
  predicate Closes(st: ScanState) {
    st.openBraces == 0 && OpensObject(st.buffer)
  }

  /**
   * What `json.loads(buffer.decode('utf-8'))` does with a buffer: return a
   * value, raise `JSONDecodeError` (the scanner keeps reading), or fail to
   * decode UTF-8 (a `UnicodeDecodeError` the scanner does not catch).
   */
  datatype Parse = Parsed | Malformed | NotUtf8

  /** How `_recv_json_message` ends. */
  datatype JsonReply =
    | Got(doc: seq<byte>)   // the buffer that parsed
    | ConnectionClosed      // empty read: `ConnectionError`
    | Undecodable           // `UnicodeDecodeError` escapes the loop

  /** The reply and the number of bytes read to get it. */
  datatype ScanEnd = ScanEnd(reply: JsonReply, used: nat)

  /** Whether the scanner returns or raises right after the byte that led to `st`. */
  predicate Stops(st: ScanState, parse: seq<byte> -> Parse) {
    Closes(st) && parse(st.buffer) != Malformed
  }

  /** The scanner run on the byte stream `s` from state `st`. */
  function Scan(rule: EscapeRule, st: ScanState, s: seq<byte>, parse: seq<byte> -> Parse): (e: ScanEnd)
    ensures e.used <= |s|
    ensures e.reply == ConnectionClosed ==> e.used == |s|
    ensures e.reply != ConnectionClosed ==> e.used > 0
    decreases |s|
  {
    if s == [] then ScanEnd(ConnectionClosed, 0)
    else
      var next := Step(rule, st, s[0]);
      if Stops(next, parse) then
        ScanEnd(if parse(next.buffer) == Parsed then Got(next.buffer) else Undecodable, 1)
      else
        var e := Scan(rule, next, s[1..], parse);
        ScanEnd(e.reply, e.used + 1)
  }

  /** A scan result seen from `k` bytes earlier in the stream. */
  function Shift(e: ScanEnd, k: nat): ScanEnd {
    ScanEnd(e.reply, e.used + k)
  }

  /** One byte that does not stop the scanner moves it one byte further into the stream. */
  lemma ScanAdvance(rule: EscapeRule, st: ScanState, rest: seq<byte>, parse: seq<byte> -> Parse, k: nat)
    requires rest != [] && !Stops(Step(rule, st, rest[0]), parse)
    ensures Shift(Scan(rule, st, rest, parse), k) == Shift(Scan(rule, Step(rule, st, rest[0]), rest[1..], parse), k + 1)
  {
  }

  /** A byte that stops the scanner ends the scan right there. */
  lemma ScanStopsAt(rule: EscapeRule, st: ScanState, rest: seq<byte>, parse: seq<byte> -> Parse)
    requires rest != [] && Stops(Step(rule, st, rest[0]), parse)
    ensures var next := Step(rule, st, rest[0]);
      Scan(rule, st, rest, parse) == ScanEnd(if parse(next.buffer) == Parsed then Got(next.buffer) else Undecodable, 1)
  {
  }

  /**
   * `_recv_json_message`, with the program's escape rule when `rule` is
   * `PrecedingByte`. It reads one byte per iteration and stops as `Scan`
   * says; what it leaves unread is the rest of the stream.
   */
  method RecvJsonMessage(conn: Connection, parse: seq<byte> -> Parse, rule: EscapeRule) returns (reply: JsonReply)
    requires conn.Valid()
    modifies conn`segments
    ensures conn.Valid()
    ensures reply == Scan(rule, Start, old(conn.Pending()), parse).reply
    ensures conn.Pending() == old(conn.Pending())[Scan(rule, Start, old(conn.Pending()), parse).used..]
  {
    ghost var s := conn.Pending();
    ghost var used := 0;
    var st := Start;
    while true
      invariant conn.Valid()
      invariant used <= |s| && conn.Pending() == s[used..]
      invariant Scan(rule, Start, s, parse) == Shift(Scan(rule, st, s[used..], parse), used)
      decreases |conn.Pending()|
    {
      ghost var e := Scan(rule, st, s[used..], parse);
      var done;
      st, done, reply := ScanByte(conn, parse, rule, st);
      if done {
        assert s[used..][e.used..] == s[used + e.used..];
        return;
      }
      assert s[used..][1..] == s[used + 1..];
      used := used + 1;
    }
  }

  /**
   * One pass of the scanner's loop: receive a byte (none: the connection is
   * closed), add it to the state and, when the state closes an object, try
   * the parse; `done` says whether the scanner returns or raises here.
   */
  method ScanByte(conn: Connection, parse: seq<byte> -> Parse, rule: EscapeRule, st: ScanState)
    returns (next: ScanState, done: bool, reply: JsonReply)
    requires conn.Valid()
    modifies conn`segments
    ensures conn.Valid()
    ensures var e := Scan(rule, st, old(conn.Pending()), parse);
      done ==> reply == e.reply && conn.Pending() == old(conn.Pending())[e.used..]
    ensures !done ==> old(conn.Pending()) != [] && conn.Pending() == old(conn.Pending())[1..]
    ensures !done ==> Scan(rule, st, old(conn.Pending()), parse) == Shift(Scan(rule, next, conn.Pending(), parse), 1)
  {
    ghost var rest := conn.Pending();
    next, reply := st, ConnectionClosed;
    var b := RecvByte(conn);
    if b == [] {
      assert Scan(rule, st, rest, parse) == ScanEnd(ConnectionClosed, 0);
      done := true;
      return;
    }
    assert b[0] == rest[0];
    next := Step(rule, st, b[0]);
    if Closes(next) {
      var p := parse(next.buffer);
      if p == Parsed {
        ScanStopsAt(rule, st, rest, parse);
        reply, done := Got(next.buffer), true;
        return;
      } else if p == NotUtf8 {
        ScanStopsAt(rule, st, rest, parse);
        reply, done := Undecodable, true;
        return;
      }
    }
    ScanAdvance(rule, st, rest, parse, 0);
    done := false;
  }

  /** Each byte the scanner reads is appended to its buffer, and to nothing else. */
  lemma {:induction false} RunBuffer(rule: EscapeRule, st: ScanState, s: seq<byte>)
    ensures Run(rule, st, s).buffer == st.buffer + s
    decreases |s|
  {
    if s != [] {
      RunBuffer(rule, Step(rule, st, s[0]), s[1..]);
      assert st.buffer + [s[0]] + s[1..] == st.buffer + s;
    }
  }

  lemma {:induction false} RunSnoc(rule: EscapeRule, st: ScanState, s: seq<byte>, b: byte)
    ensures Run(rule, st, s + [b]) == Step(rule, Run(rule, st, s), b)
    decreases |s|
  {
    if s == [] {
      assert [b][1..] == [];
    } else {
      assert (s + [b])[1..] == s[1..] + [b];
      RunSnoc(rule, Step(rule, st, s[0]), s[1..], b);
    }
  }

  /** A prefix of `s` run from `st` is the first byte's step followed by a prefix of the tail. */
  lemma RunTail(rule: EscapeRule, st: ScanState, s: seq<byte>, j: nat)
    requires 0 < j <= |s|
    ensures Run(rule, st, s[..j]) == Run(rule, Step(rule, st, s[0]), s[1..][..j - 1])
    ensures st.buffer + s[..j] == Step(rule, st, s[0]).buffer + s[1..][..j - 1]
  {
    assert s[..j][0] == s[0];
    assert s[..j][1..] == s[1..][..j - 1];
  }

  /**
   * The scanner returns exactly at the first prefix of the stream at which
   * it stops: the document is that prefix when it parses, and the rest of
   * the stream is left unread.
   */
  lemma {:induction false} ScanStopsAtFirstStop(rule: EscapeRule, st: ScanState, s: seq<byte>, parse: seq<byte> -> Parse, n: nat)
    requires 0 < n <= |s|
    requires Stops(Run(rule, st, s[..n]), parse)
    requires forall j | 0 < j < n :: !Stops(Run(rule, st, s[..j]), parse)
    ensures Scan(rule, st, s, parse).used == n
    ensures Scan(rule, st, s, parse).reply ==
      if parse(st.buffer + s[..n]) == Parsed then Got(st.buffer + s[..n]) else Undecodable
    decreases n
  {
    var next := Step(rule, st, s[0]);
    var t := s[1..];
    RunTail(rule, st, s, n);
    if n == 1 {
      assert t[..0] == [];
      assert next.buffer + t[..0] == next.buffer;
    } else {
      RunTail(rule, st, s, 1);
      assert t[..0] == [];
      forall j | 0 < j < n - 1
        ensures !Stops(Run(rule, next, t[..j]), parse)
      {
        RunTail(rule, st, s, j + 1);
      }
      ScanStopsAtFirstStop(rule, next, t, parse, n - 1);
    }
  }

  /** Without a stopping prefix the scanner reads the whole stream and reports the closed connection. */
  lemma {:induction false} ScanClosedWithoutStop(rule: EscapeRule, st: ScanState, s: seq<byte>, parse: seq<byte> -> Parse)
    requires forall j | 0 < j <= |s| :: !Stops(Run(rule, st, s[..j]), parse)
    ensures Scan(rule, st, s, parse) == ScanEnd(ConnectionClosed, |s|)
    decreases |s|
  {
    if s != [] {
      var next := Step(rule, st, s[0]);
      RunTail(rule, st, s, 1);
      var t := s[1..];
      forall j | 0 < j <= |t|
        ensures !Stops(Run(rule, next, t[..j]), parse)
      {
        RunTail(rule, st, s, j + 1);
      }
      ScanClosedWithoutStop(rule, next, t, parse);
    }
  }

  /** Conversely, the scanner reads past every shorter prefix of the stream: none of them stops it. */
  lemma {:induction false} ScanPassesEarlierPrefixes(rule: EscapeRule, st: ScanState, s: seq<byte>, parse: seq<byte> -> Parse)
    ensures var e := Scan(rule, st, s, parse);
      forall j | 0 < j < e.used :: !Stops(Run(rule, st, s[..j]), parse)
    decreases |s|
  {
    if s != [] {
      var next := Step(rule, st, s[0]);
      if !Stops(next, parse) {
        var t := s[1..];
        ScanPassesEarlierPrefixes(rule, next, t, parse);
        var e := Scan(rule, st, s, parse);
        assert e.used == Scan(rule, next, t, parse).used + 1;
        forall j | 0 < j < e.used
          ensures !Stops(Run(rule, st, s[..j]), parse)
        {
          RunTail(rule, st, s, j);
          assert t[..0] == [];
        }
      }
    }
  }

  /** Whatever the scanner returns or raises, it does so at a prefix of the stream that stops it. */
  lemma {:induction false} ScanEndsAtStop(rule: EscapeRule, st: ScanState, s: seq<byte>, parse: seq<byte> -> Parse)
    ensures var e := Scan(rule, st, s, parse);
      e.reply != ConnectionClosed ==> Stops(Run(rule, st, s[..e.used]), parse)
    decreases |s|
  {
    if s != [] {
      var next := Step(rule, st, s[0]);
      var t := s[1..];
      var e := Scan(rule, st, s, parse);
      if Stops(next, parse) {
        RunTail(rule, st, s, 1);
        assert t[..0] == [];
      } else if e.reply != ConnectionClosed {
        ScanEndsAtStop(rule, next, t, parse);
        var e' := Scan(rule, next, t, parse);
        assert e.used == e'.used + 1 && e'.reply == e.reply;
        RunTail(rule, st, s, e.used);
      }
    }
  }

  /** A returned document is the buffer up to where the scanner stopped, and it parses. */
  lemma {:induction false} ScanDocument(rule: EscapeRule, st: ScanState, s: seq<byte>, parse: seq<byte> -> Parse)
    ensures var e := Scan(rule, st, s, parse);
      e.reply.Got? ==> e.reply.doc == st.buffer + s[..e.used] && parse(e.reply.doc) == Parsed
    decreases |s|
  {
    if s != [] {
      var next := Step(rule, st, s[0]);
      var t := s[1..];
      var e := Scan(rule, st, s, parse);
      if Stops(next, parse) {
        StepRule(rule, st, s[0]);
        assert s[..1] == [s[0]];
      } else if e.reply.Got? {
        ScanDocument(rule, next, t, parse);
        var e' := Scan(rule, next, t, parse);
        assert e.used == e'.used + 1 && e'.reply == e.reply;
        RunTail(rule, st, s, e.used);
      }
    }
  }

  /** No prefix of `s`, fed from `st`, brings the depth back to zero with an object opened. */
  predicate NeverCloses(rule: EscapeRule, st: ScanState, s: seq<byte>)
    decreases |s|
  {
    s == [] || (!Closes(Step(rule, st, s[0])) && NeverCloses(rule, Step(rule, st, s[0]), s[1..]))
  }

  /** Bytes that never close an object are read past: the scan continues after them. */
  lemma {:induction false} ScanPast(rule: EscapeRule, st: ScanState, a: seq<byte>, b: seq<byte>, parse: seq<byte> -> Parse)
    requires NeverCloses(rule, st, a)
    ensures var e := Scan(rule, Run(rule, st, a), b, parse);
      Scan(rule, st, a + b, parse) == ScanEnd(e.reply, e.used + |a|)
    decreases |a|
  {
    if a == [] {
      assert a + b == b;
    } else {
      assert (a + b)[0] == a[0] && (a + b)[1..] == a[1..] + b;
      ScanPast(rule, Step(rule, st, a[0]), a[1..], b, parse);
    }
  }

  /** `NeverCloses` says that no non-empty prefix closes an object. */
  lemma {:induction false} NeverClosesPrefixes(rule: EscapeRule, st: ScanState, a: seq<byte>, j: nat)
    requires NeverCloses(rule, st, a) && 0 < j <= |a|
    ensures !Closes(Run(rule, st, a[..j]))
    decreases |a|
  {
    RunTail(rule, st, a, j);
    if j > 1 {
      NeverClosesPrefixes(rule, Step(rule, st, a[0]), a[1..], j - 1);
    } else {
      assert a[1..][..0] == [];
    }
  }

  /** A prefix of `a + b` no longer than `a` is a prefix of `a`. */
  lemma PrefixOfAppend(a: seq<byte>, b: seq<byte>, j: nat)
    requires j <= |a|
    ensures (a + b)[..j] == a[..j]
  {
  }

  /**
   * A document `a + [x]` is returned as soon as its last byte `x` closes it,
   * provided nothing in `a` closed an object: the scanner reads exactly the
   * document and leaves `rest` unread.
   */
  lemma ScanFindsDocument(rule: EscapeRule, a: seq<byte>, x: byte, rest: seq<byte>, parse: seq<byte> -> Parse)
    requires NeverCloses(rule, Start, a)
    requires Closes(Run(rule, Start, a + [x])) && parse(a + [x]) == Parsed
    ensures Scan(rule, Start, a + [x] + rest, parse) == ScanEnd(Got(a + [x]), |a| + 1)
  {
    var d := a + [x];
    var s := d + rest;
    var n := |d|;
    PrefixOfAppend(d, rest, n);
    assert d[..n] == d;
    RunBuffer(rule, Start, d);
    assert Start.buffer + d == d;
    AppendAssoc(a, [x], rest);
    forall j | 0 < j < n
      ensures !Stops(Run(rule, Start, s[..j]), parse)
    {
      PrefixOfAppend(a, [x] + rest, j);
      NeverClosesPrefixes(rule, Start, a, j);
    }
    ScanStopsAtFirstStop(rule, Start, s, parse, n);
  }

  /** Whatever the scanner returns after reading past `a` is longer than `a`. */
  lemma ScanPastReturnsLonger(rule: EscapeRule, a: seq<byte>, rest: seq<byte>, parse: seq<byte> -> Parse)
    requires NeverCloses(rule, Start, a)
    ensures Scan(rule, Start, a + rest, parse).reply.Got? ==> |Scan(rule, Start, a + rest, parse).reply.doc| > |a|
  {
    ScanPast(rule, Start, a, rest, parse);
    ScanDocument(rule, Run(rule, Start, a), rest, parse);
    RunBuffer(rule, Start, a);
  }

  /** Feeding `a + b` is feeding `a`, then `b`. */
  lemma {:induction false} RunAppend(rule: EscapeRule, st: ScanState, a: seq<byte>, b: seq<byte>)
    ensures Run(rule, st, a + b) == Run(rule, Run(rule, st, a), b)
    decreases |a|
  {
    if a == [] {
      assert a + b == b;
    } else {
      assert (a + b)[0] == a[0] && (a + b)[1..] == a[1..] + b;
      RunAppend(rule, Step(rule, st, a[0]), a[1..], b);
    }
  }

  /** No close in `a`, then none in `b` from where `a` left the scanner: none in `a + b`. */
  lemma {:induction false} NeverClosesAppend(rule: EscapeRule, st: ScanState, a: seq<byte>, b: seq<byte>)
    requires NeverCloses(rule, st, a) && NeverCloses(rule, Run(rule, st, a), b)
    ensures NeverCloses(rule, st, a + b)
    decreases |a|
  {
    if a == [] {
      assert a + b == b;
    } else {
      assert (a + b)[0] == a[0] && (a + b)[1..] == a[1..] + b;
      NeverClosesAppend(rule, Step(rule, st, a[0]), a[1..], b);
    }
  }

  // ---------------------------------------------------------------------
  // Worked examples
  // ---------------------------------------------------------------------

  /** `{"\"`: an object, a key, a backslash and the quote it escapes. */
  const BRACES_HEAD: seq<byte> := [123, 34, 92, 34]

  /** `}":1`: a brace inside the key, the key's closing quote, a value. */
  const BRACES_TAIL: seq<byte> := [125, 34, 58, 49]

  /** `{"\"}":1}`: a brace and an escaped quote inside a key. */
  const BRACES_IN_STRING: seq<byte> := BRACES_HEAD + BRACES_TAIL + [RBRACE]

  /** `{"\\`: an object, a key and an escaped backslash. */
  const BACKSLASH_HEAD: seq<byte> := [123, 34, 92, 92]

  /** `":1`: the key's closing quote and a value. */
  const BACKSLASH_TAIL: seq<byte> := [34, 58, 49]

  /** `{"\\":1}`: a key holding one backslash, as `json.dumps` writes it. */
  const TRAILING_BACKSLASH: seq<byte> := BACKSLASH_HEAD + BACKSLASH_TAIL + [RBRACE]

  /** The scanner on `{"\"`: the quote after the backslash leaves the key open. */
  lemma BracesHeadTrace()
    ensures NeverCloses(PrecedingByte, Start, BRACES_HEAD)
    ensures Run(PrecedingByte, Start, BRACES_HEAD) == ScanState([123, 34, 92, 34], 1, true)
  {
  }

  /** Then on `}":1`: the brace is inside the key, the next quote closes the key. */
  lemma BracesTailTrace()
    ensures NeverCloses(PrecedingByte, ScanState([123, 34, 92, 34], 1, true), BRACES_TAIL)
    ensures Run(PrecedingByte, ScanState([123, 34, 92, 34], 1, true), BRACES_TAIL).openBraces == 1
    ensures !Run(PrecedingByte, ScanState([123, 34, 92, 34], 1, true), BRACES_TAIL).inString
  {
  }

  /** A buffer starting with `{` and ending with `}` opens an object. */
  lemma BracedOpensObject(a: seq<byte>)
    ensures OpensObject([LBRACE] + a + [RBRACE])
  {
    var d := [LBRACE] + a + [RBRACE];
    assert d[0] == LBRACE && d[|d| - 1] == RBRACE;
    StripUnchanged(d, IsByteSpace);
  }

  /**
   * The final byte of `a + [x]` closes the document when the scanner is
   * outside any string at depth one before it and `x` is a closing brace.
   */
  lemma ClosesWithBrace(rule: EscapeRule, a: seq<byte>)
    requires Run(rule, Start, a).openBraces == 1 && !Run(rule, Start, a).inString
    requires a != [] && a[0] == LBRACE
    ensures Closes(Run(rule, Start, a + [RBRACE]))
  {
    RunSnoc(rule, Start, a, RBRACE);
    RunBuffer(rule, Start, a + [RBRACE]);
    assert Start.buffer + (a + [RBRACE]) == [LBRACE] + a[1..] + [RBRACE];
    BracedOpensObject(a[1..]);
  }

  /**
   * Braces and escaped quotes inside string values do not end the document:
   * the scanner returns the whole of `{"\"}":1}` and leaves what follows
   * unread (the document must parse; no shorter prefix is even tried).
   */
  lemma BracesInStringAreInert(parse: seq<byte> -> Parse, rest: seq<byte>)
    requires parse(BRACES_IN_STRING) == Parsed
    ensures Scan(PrecedingByte, Start, BRACES_IN_STRING + rest, parse) == ScanEnd(Got(BRACES_IN_STRING), |BRACES_IN_STRING|)
  {
    var a := BRACES_HEAD + BRACES_TAIL;
    BracesHeadTrace();
    BracesTailTrace();
    NeverClosesAppend(PrecedingByte, Start, BRACES_HEAD, BRACES_TAIL);
    RunAppend(PrecedingByte, Start, BRACES_HEAD, BRACES_TAIL);
    ClosesWithBrace(PrecedingByte, a);
    ScanFindsDocument(PrecedingByte, a, RBRACE, rest, parse);
  }

  /** The scanner on `{"\\`, under either rule: inside the key after two backslashes. */
  lemma BackslashHeadTrace(rule: EscapeRule)
    ensures NeverCloses(rule, Start, BACKSLASH_HEAD)
    ensures Run(rule, Start, BACKSLASH_HEAD) == ScanState([123, 34, 92, 92], 1, true)
  {
  }

  /** Then on `":1` under the program's rule: the quote follows a backslash, so the key stays open. */
  lemma BackslashTailTrace()
    ensures NeverCloses(PrecedingByte, ScanState([123, 34, 92, 92], 1, true), BACKSLASH_TAIL)
    ensures Run(PrecedingByte, ScanState([123, 34, 92, 92], 1, true), BACKSLASH_TAIL).openBraces == 1
    ensures Run(PrecedingByte, ScanState([123, 34, 92, 92], 1, true), BACKSLASH_TAIL).inString
  {
  }

  /** Inside a string a closing brace changes nothing, so it does not close the document. */
  lemma BraceInStringIsInert(rule: EscapeRule, st: ScanState)
    requires st.openBraces == 1 && st.inString
    ensures NeverCloses(rule, st, [RBRACE])
    ensures Step(rule, st, RBRACE).inString
  {
  }

  /**
   * The program's escape rule on `{"\\":1}`: the closing quote follows a
   * backslash, so it does not end the string and the depth never returns to
   * zero inside the document; the scanner never returns this document on
   * its own, whatever follows it.
   */
  lemma EscapedBackslashKeepsStringOpen(parse: seq<byte> -> Parse, rest: seq<byte>)
    ensures Run(PrecedingByte, Start, TRAILING_BACKSLASH).inString
    ensures Scan(PrecedingByte, Start, TRAILING_BACKSLASH + rest, parse).reply != Got(TRAILING_BACKSLASH)
  {
    var a := BACKSLASH_HEAD + BACKSLASH_TAIL;
    BackslashHeadTrace(PrecedingByte);
    BackslashTailTrace();
    NeverClosesAppend(PrecedingByte, Start, BACKSLASH_HEAD, BACKSLASH_TAIL);
    RunAppend(PrecedingByte, Start, BACKSLASH_HEAD, BACKSLASH_TAIL);
    BraceInStringIsInert(PrecedingByte, Run(PrecedingByte, Start, a));
    NeverClosesAppend(PrecedingByte, Start, a, [RBRACE]);
    RunSnoc(PrecedingByte, Start, a, RBRACE);
    ScanPastReturnsLonger(PrecedingByte, TRAILING_BACKSLASH, rest, parse);
  }

  /** Then on `":1` under the odd-backslash rule: the quote closes the key, the depth stays one. */
  lemma BackslashTailOddRunTrace()
    ensures NeverCloses(OddRun, ScanState([123, 34, 92, 92], 1, true), BACKSLASH_TAIL)
    ensures Run(OddRun, ScanState([123, 34, 92, 92], 1, true), BACKSLASH_TAIL).openBraces == 1
    ensures !Run(OddRun, ScanState([123, 34, 92, 92], 1, true), BACKSLASH_TAIL).inString
  {
  }

  /**
   * With the odd-backslash rule the same document is found: the quote after
   * an escaped backslash closes the string, and the scanner returns exactly
   * `{"\\":1}`.
   */
  lemma OddRunFindsTrailingBackslash(parse: seq<byte> -> Parse, rest: seq<byte>)
    requires parse(TRAILING_BACKSLASH) == Parsed
    ensures Scan(OddRun, Start, TRAILING_BACKSLASH + rest, parse) == ScanEnd(Got(TRAILING_BACKSLASH), |TRAILING_BACKSLASH|)
  {
    var a := BACKSLASH_HEAD + BACKSLASH_TAIL;
    BackslashHeadTrace(OddRun);
    BackslashTailOddRunTrace();
    NeverClosesAppend(OddRun, Start, BACKSLASH_HEAD, BACKSLASH_TAIL);
    RunAppend(OddRun, Start, BACKSLASH_HEAD, BACKSLASH_TAIL);
    ClosesWithBrace(OddRun, a);
    ScanFindsDocument(OddRun, a, RBRACE, rest, parse);
  }
}
