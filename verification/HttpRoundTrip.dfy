/** Chunked framing, section 4.1 of RFC 7230: what the writer of LowHTTPDirect puts
    on the wire is what its parser reads back. */
module HttpRoundTrip {
  import opened Options
  import opened HttpBytes
  import opened HttpReader
  import opened HttpWriter

  // ---- hex numbers ------------------------------------------------------------------

  predicate AllHex(s: seq<int>) { forall i | 0 <= i < |s| :: HexDigit(s[i]) >= 0 }

  lemma {:induction false} HexValueSnoc(s: seq<int>, d: int, before: int)
    requires AllHex(s) && HexDigit(d) >= 0
    ensures HexValue(s + [d], before) == 16 * HexValue(s, before) + HexDigit(d)
  {
    if s == [] {
      assert s + [d] == [d];
    } else {
      assert (s + [d])[1..] == s[1..] + [d];
      HexValueSnoc(s[1..], d, 16 * before + HexDigit(s[0]));
    }
  }

  lemma {:induction false} HexRoundTrip(n: int)
    requires n >= 0
    ensures AllHex(HexText(n)) && HexValue(HexText(n), 0) == n
    decreases n
  {
    if n >= 16 {
      HexRoundTrip(n / 16);
      HexValueSnoc(HexText(n / 16), DigitText(n % 16), 0);
    } else {
      assert HexText(n)[1..] == [];
    }
  }

  /** sscanf reads back what sprintf wrote. */
  lemma ScanText(n: int)
    requires n >= 0
    ensures ScanHex(HexText(n)) == Some(n) && AllHex(HexText(n))
  {
    HexRoundTrip(n);
    var s := HexText(n);
    assert s != [];
    assert HexDigit(s[0]) >= 0;
    assert |s| >= 2 ==> HexDigit(s[1]) >= 0;
  }

  /** What the digits count, in either case. */
  lemma HexDigitIs(k: int)
    ensures 0 <= k < 10 ==> HexDigit('0' as int + k) == k
    ensures 0 <= k < 6 ==> HexDigit('a' as int + k) == HexDigit('A' as int + k) == 10 + k
  {}

  lemma {:induction false} HexValueStops(s: seq<int>, rest: seq<int>, before: int)
    requires AllHex(s) && (rest != [] ==> HexDigit(rest[0]) < 0)
    ensures HexValue(s + rest, before) == HexValue(s, before)
  {
    if s == [] {
      assert s + rest == rest;
    } else {
      assert (s + rest)[1..] == s[1..] + rest;
      HexValueStops(s[1..], rest, 16 * before + HexDigit(s[0]));
    }
  }

  /** A chunk extension behind the size changes nothing, nor does white space in front. */
  lemma ScanExtension(n: int, rest: seq<int>)
    requires n >= 0 && rest != [] && rest[0] == ';' as int
    ensures ScanHex(HexText(n) + rest) == ScanHex([' ' as int] + HexText(n) + rest) == Some(n)
  {
    HexRoundTrip(n);
    var s := HexText(n);
    HexValueStops(s, rest, 0);
    var t := s + rest;
    assert s != [] && t[0] == s[0] && HexDigit(t[0]) >= 0;
    assert |s| >= 2 ==> t[1] == s[1] && HexDigit(s[1]) >= 0;
    assert |s| == 1 ==> t[1] == rest[0];
    assert ([' ' as int] + s + rest)[1..] == t;
  }

  /** Nor does "0x" in front of it. */
  lemma ScanPrefix(n: int, x: int)
    requires n >= 0 && (x == 'x' as int || x == 'X' as int)
    ensures ScanHex(['0' as int, x] + HexText(n)) == Some(n)
  {
    HexRoundTrip(n);
    var s := HexText(n);
    var t := ['0' as int, x] + s;
    assert s != [] && t[2..] == s && t[2] == s[0] && HexDigit(s[0]) >= 0;
  }

  // ---- the parser on framed text ---------------------------------------------------------

  /** Before a chunk: at the blank line that ends the header fields, or where a
      chunk header starts. */
  predicate Ready(p: Parser) {
    && p.Parser? && p.chunked && p.lineEmpty && p.chunkLine == []
    && (if p.phase == HeaderKey then !p.atTrailer && p.dataLen == 0
        else p.phase == ChunkHeader && p.atTrailer && p.dataLen == p.contentLen && p.contentLen >= 0)
  }

  lemma Two(p: Parser, a: int, b: int)
    ensures Feed(p, [a, b]) == Step(Step(p, a), b)
    ensures BodyOf(p, [a, b]) == Given(p, a) + Given(Step(p, a), b)
  {
    FeedEmpty(p);
    FeedSnoc(p, [], a);
    FeedSnoc(p, [a], b);
    assert [] + [a] == [a] && [a] + [b] == [a, b];
  }

  /** The line end that starts a chunk. */
  lemma ReadLineEnd(p: Parser)
    requires Ready(p)
    ensures var q := Feed(p, LineEnd());
            Ready(q) && q.phase == ChunkHeader && !q.eraseNext && BodyOf(p, LineEnd()) == []
  {
    Two(p, CR, LF);
    hide Feed, BodyOf;
  }

  /** After the header fields of a message with a Content-Length, the reader is
      handed exactly that many of the bytes that follow the blank line. */
  lemma ReadContentLength(p: Parser, data: seq<int>)
    requires p.Parser? && p.phase == HeaderKey && p.lineEmpty && !p.atTrailer && !p.chunked && p.contentLen > 0
        && p.dataLen == 0
    ensures BodyOf(p, LineEnd() + data) == if |data| < p.contentLen then data else data[..p.contentLen]
  {
    Two(p, CR, LF);
    FeedConcat(p, LineEnd(), data);
    BlankLine(p);
    hide Feed, BodyOf, Step;
    var q := Feed(p, LineEnd());
    ContentLength(q, data);
    assert [] + BodyOf(q, data) == BodyOf(q, data);
  }

  /** A line feed by itself ends a line as CR and LF do. */
  lemma LineFeedAlone(p: Parser)
    requires p.Parser? && !p.eraseNext && (p.phase == HeaderKey || p.phase == HeaderValue || p.phase == ChunkHeader)
    ensures Step(p, LF) == Step(Step(p, CR), LF)
    ensures Given(p, LF) == [] && Given(Step(p, CR), LF) == []
  {}

  /** White space at the start of a line is as good as none. */
  lemma LeadingBlank(p: Parser, c: int)
    requires AtLine(p) && (c == ' ' as int || c == '\t' as int)
    ensures Step(p, c) == p.(eraseNext := false) && Given(p, c) == []
  {}

  /** Without a length, the kind of message decides what the blank line means: a
      request that has no body is complete; */
  lemma NoBody(p: Parser, data: seq<int>)
    requires AtLine(p) && !p.atTrailer && !p.chunked && p.dataLen == 0
    requires p.contentLen == 0 || (p.contentLen == -1 && p.noBody)
    ensures Feed(p, LineEnd()).Parser? && Feed(p, LineEnd()).phase == Sending && BodyOf(p, LineEnd() + data) == []
  {
    Two(p, CR, LF);
    FeedConcat(p, LineEnd(), data);
    NothingAfter(Feed(p, LineEnd()), data);
    hide Feed, BodyOf;
  }

  /** the body of any other goes on to the end of the connection. */
  lemma EndlessBody(p: Parser, data: seq<int>)
    requires AtLine(p) && !p.atTrailer && !p.chunked && p.dataLen == 0 && p.contentLen == -1 && !p.noBody
    ensures BodyOf(p, LineEnd() + data) == data
    ensures Feed(p, LineEnd() + data).Parser? && Feed(p, LineEnd() + data).phase == Body
  {
    Two(p, CR, LF);
    FeedConcat(p, LineEnd(), data);
    var q := Feed(p, LineEnd());
    FeedEmpty(q);
    if data != [] { FeedBody(q, data); }
    hide Feed, BodyOf;
    assert [] + data == data;
  }

  /** A byte after the message is an error, the second half of a line end excepted. */
  lemma AfterTheEnd(p: Parser, c: int)
    requires p.Parser? && p.phase == Sending
    ensures Step(p, c).Broken? <==> !(p.eraseNext && c == LF)
  {}

  lemma BlankLine(p: Parser)
    requires p.Parser? && p.phase == HeaderKey && p.lineEmpty && !p.atTrailer && !p.chunked && p.contentLen > 0
    ensures Step(Step(p, CR), LF) == p.(atTrailer := true, phase := Body, eraseNext := false)
    ensures Given(p, CR) == [] && Given(Step(p, CR), LF) == []
  {}

  predicate NoLineEnd(s: seq<int>) { forall i | 0 <= i < |s| :: s[i] != CR && s[i] != LF }

  /** What stands between the two line ends of a chunk header, whatever else it
      holds: short enough, and sscanf gets the size out of it. */
  predicate SizeLine(line: seq<int>, n: int) { 0 < |line| < 10 && NoLineEnd(line) && ScanHex(line) == Some(n) }

  lemma {:induction false} ReadText(p: Parser, text: seq<int>)
    requires p.Parser? && p.phase == ChunkHeader && !p.eraseNext && NoLineEnd(text) && |p.chunkLine| + |text| < 10
    ensures Feed(p, text) == p.(chunkLine := p.chunkLine + text) && BodyOf(p, text) == []
  {
    hide Feed, BodyOf, ScanHex;
    FeedEmpty(p);
    if text == [] {
      assert p.chunkLine + [] == p.chunkLine;
    } else {
      var n := |text| - 1;
      var a, d := text[..n], text[n];
      assert text == a + [d];
      ReadText(p, a);
      FeedSnoc(p, a, d);
      assert p.chunkLine + a + [d] == p.chunkLine + text;
    }
  }

  /** The line end after a chunk size. */
  lemma ReadSize(p: Parser, n: int)
    requires p.Parser? && p.phase == ChunkHeader && !p.eraseNext && SizeLine(p.chunkLine, n)
    ensures Feed(p, LineEnd()) == if n == 0 then p.(phase := HeaderKey, chunkLine := [])
                                  else p.(contentLen := p.contentLen + n, phase := Body, chunkLine := [])
    ensures BodyOf(p, LineEnd()) == []
  {
    Two(p, CR, LF);
    hide Feed, BodyOf, ScanHex;
  }

  /** A chunk header, with the line end in front of it. */
  function Header(line: seq<int>): seq<int> { LineEnd() + line + LineEnd() }

  lemma ReadHeader(p: Parser, line: seq<int>, n: int)
    requires Ready(p) && SizeLine(line, n) && n >= 0
    ensures var q := Feed(p, Header(line));
            && q.Parser? && q.lineEmpty && q.chunked && q.chunkLine == [] && !q.eraseNext && q.atTrailer
            && q.dataLen >= 0 && q.contentLen == q.dataLen + n && q.phase == (if n == 0 then HeaderKey else Body)
            && BodyOf(p, Header(line)) == []
  {
    hide Feed, BodyOf, ScanHex;
    var q0 := Feed(p, LineEnd());
    ReadLineEnd(p);
    var q1 := Feed(q0, line);
    ReadText(q0, line);
    assert [] + line == line;
    ReadSize(q1, n);
    FeedConcat(p, LineEnd(), line);
    FeedConcat(p, LineEnd() + line, LineEnd());
  }

  /** The chunk headers of the writer are such. */
  lemma WrittenLine(n: int)
    requires 0 <= n < 0x80000000
    ensures SizeLine(HexText(n), n) && ChunkLine(n) == Header(HexText(n))
  {
    ScanText(n);
    if n > 0 { ChunkLineFits(n); } else { ZeroText(); }
    hide ScanHex, HexText;
    assert HexText(n) != [];
    assert forall i | 0 <= i < |HexText(n)| :: HexDigit(HexText(n)[i]) >= 0;
  }

  lemma ZeroText()
    ensures HexText(0) == [48]
  {}

  // ---- header lines ------------------------------------------------------------------------

  /** A header line without its line end. */
  predicate HeaderLine(l: seq<int>) { l != [] && l[0] != 32 && l[0] != 9 && NoLineEnd(l) }

  predicate HeaderLines(lines: seq<seq<int>>) { forall i | 0 <= i < |lines| :: HeaderLine(lines[i]) }

  function HeaderText(lines: seq<seq<int>>): seq<int> {
    if lines == [] then [] else HeaderText(lines[..|lines| - 1]) + (lines[|lines| - 1] + LineEnd())
  }

  /** Where a header or trailer line starts, and in the middle of one. */
  predicate AtLine(p: Parser) { p.Parser? && p.phase == HeaderKey && p.lineEmpty }

  predicate InLine(p: Parser, q: Parser) {
    && p.Parser? && q.Parser? && (q.phase == HeaderValue || (q.phase == HeaderKey && !q.lineEmpty))
    && q == p.(phase := q.phase, lineEmpty := q.lineEmpty, eraseNext := false)
  }

  lemma LineByte(p: Parser, q: Parser, c: int)
    requires c != CR && c != LF && AtLine(p) && (InLine(p, q) || (q == p && c != 32 && c != 9))
    ensures InLine(p, Step(q, c)) && Given(q, c) == []
  {}

  lemma {:induction false} ReadLine(p: Parser, l: seq<int>)
    requires AtLine(p) && HeaderLine(l)
    ensures InLine(p, Feed(p, l)) && BodyOf(p, l) == []
  {
    hide Feed, BodyOf, Step, AtLine, InLine, Given;
    var n := |l| - 1;
    var a := l[..n];
    assert l == a + [l[n]];
    FeedEmpty(p);
    FeedSnoc(p, a, l[n]);
    if n > 0 {
      ReadLine(p, a);
    } else {
      assert a == [];
    }
    LineByte(p, Feed(p, a), l[n]);
  }

  lemma LineEnds(p: Parser, q: Parser)
    requires AtLine(p) && InLine(p, q)
    ensures Feed(q, LineEnd()) == p.(eraseNext := false) && BodyOf(q, LineEnd()) == []
  {
    Two(q, CR, LF);
    hide Feed, BodyOf;
  }

  /** Header and trailer lines are passed over: the parser is where it was. */
  lemma {:induction false} ReadFields(p: Parser, lines: seq<seq<int>>)
    requires AtLine(p) && HeaderLines(lines)
    ensures var q := Feed(p, HeaderText(lines)); q.Parser? && p == q.(eraseNext := p.eraseNext)
    ensures BodyOf(p, HeaderText(lines)) == []
  {
    hide Feed, BodyOf, InLine, HeaderLine, LineEnd;
    FeedEmpty(p);
    if lines != [] {
      var a, l := lines[..|lines| - 1], lines[|lines| - 1];
      ReadFields(p, a);
      var q := Feed(p, HeaderText(a));
      ReadLine(q, l);
      LineEnds(q, Feed(q, l));
      FeedConcat(q, l, LineEnd());
      FeedConcat(p, HeaderText(a), l + LineEnd());
    }
  }

  // ---- chunked bodies -------------------------------------------------------------------------

  /** A chunk as anybody may write it. */
  datatype Chunk = Chunk(line: seq<int>, data: seq<int>)
  {
    predicate Good() { data != [] && SizeLine(line, |data|) }
  }

  predicate AllGood(chunks: seq<Chunk>) { forall i | 0 <= i < |chunks| :: chunks[i].Good() }

  function ChunkedText(chunks: seq<Chunk>): seq<int> {
    if chunks == [] then []
    else ChunkedText(chunks[..|chunks| - 1]) + (Header(chunks[|chunks| - 1].line) + chunks[|chunks| - 1].data)
  }

  function DataOf(chunks: seq<Chunk>): seq<int> {
    if chunks == [] then [] else DataOf(chunks[..|chunks| - 1]) + chunks[|chunks| - 1].data
  }

  /** One chunk. */
  lemma ReadChunk(p: Parser, c: Chunk)
    requires Ready(p) && c.Good()
    ensures var text := Header(c.line) + c.data; Ready(Feed(p, text)) && BodyOf(p, text) == c.data
  {
    hide Feed, BodyOf, Header, ScanHex;
    ReadHeader(p, c.line, |c.data|);
    FeedConcat(p, Header(c.line), c.data);
    FeedBody(Feed(p, Header(c.line)), c.data);
    assert [] + c.data == c.data;
  }

  lemma {:induction false} ReadChunks(p: Parser, chunks: seq<Chunk>)
    requires Ready(p) && AllGood(chunks)
    ensures Ready(Feed(p, ChunkedText(chunks))) && BodyOf(p, ChunkedText(chunks)) == DataOf(chunks)
  {
    hide Feed, BodyOf, Ready, Chunk.Good, Header;
    if chunks == [] {
      FeedEmpty(p);
    } else {
      var a, c := chunks[..|chunks| - 1], chunks[|chunks| - 1];
      ReadChunks(p, a);
      FeedConcat(p, ChunkedText(a), Header(c.line) + c.data);
      ReadChunk(Feed(p, ChunkedText(a)), c);
    }
  }

  /** The terminating chunk with its trailer, up to the blank line. */
  lemma ReadLast(p: Parser, line: seq<int>, trailer: seq<seq<int>>)
    requires Ready(p) && SizeLine(line, 0) && HeaderLines(trailer)
    ensures var text := Header(line) + HeaderText(trailer) + LineEnd();
            Feed(p, text).Parser? && Feed(p, text).phase == Sending && BodyOf(p, text) == []
  {
    hide Feed, BodyOf, Header, HeaderText, HeaderLines, SizeLine;
    ReadHeader(p, line, 0);
    var q := Feed(p, Header(line));
    ReadFields(q, trailer);
    FeedConcat(p, Header(line), HeaderText(trailer));
    FeedConcat(p, Header(line) + HeaderText(trailer), LineEnd());
    Two(Feed(q, HeaderText(trailer)), CR, LF);
  }

  /** Any chunked body: the reader is handed the data of the chunks, and the parser
      ends up waiting for the response. */
  lemma ReadChunked(p: Parser, chunks: seq<Chunk>, line: seq<int>, trailer: seq<seq<int>>)
    requires Ready(p) && AllGood(chunks) && SizeLine(line, 0) && HeaderLines(trailer)
    ensures var wire := ChunkedText(chunks) + (Header(line) + HeaderText(trailer) + LineEnd());
            && BodyOf(p, wire) == DataOf(chunks)
            && Feed(p, wire).Parser? && Feed(p, wire).phase == Sending
  {
    hide Feed, BodyOf, ChunkedText, DataOf, Header, HeaderText, Ready, SizeLine, HeaderLines, AllGood;
    ReadChunks(p, chunks);
    FeedConcat(p, ChunkedText(chunks), Header(line) + HeaderText(trailer) + LineEnd());
    ReadLast(Feed(p, ChunkedText(chunks)), line, trailer);
    assert DataOf(chunks) + [] == DataOf(chunks);
  }

  /** The writer's chunks. */
  function Written(ws: seq<seq<int>>): seq<Chunk> {
    if ws == [] then []
    else Written(ws[..|ws| - 1]) + [Chunk(HexText(|ws[|ws| - 1]|), ws[|ws| - 1])]
  }

  lemma {:induction false} FramedIsChunked(ws: seq<seq<int>>)
    requires Framable(ws)
    ensures ChunkedText(Written(ws)) == Framed(ws) && DataOf(Written(ws)) == Concat(ws) && AllGood(Written(ws))
  {
    if ws != [] {
      var n := |ws| - 1;
      FramedIsChunked(ws[..n]);
      WrittenLine(|ws[n]|);
      var a, c := Written(ws[..n]), Chunk(HexText(|ws[n]|), ws[n]);
      hide HexText, Header, ChunkLine, SizeLine;
      assert (a + [c])[..|a|] == a && (a + [c])[|a|] == c;
      assert Framed(ws[..n]) + ChunkLine(|ws[n]|) + ws[n] == Framed(ws[..n]) + (ChunkLine(|ws[n]|) + ws[n]);
    }
  }

  /** Framing and parsing undo each other, and the parser ends up waiting for the
      response. */
  lemma RoundTrip(p: Parser, ws: seq<seq<int>>)
    requires Ready(p) && Framable(ws)
    ensures var wire := Framed(ws) + LastChunk();
            && BodyOf(p, wire) == Concat(ws)
            && Feed(p, wire).Parser? && Feed(p, wire).phase == Sending
  {
    hide Feed, BodyOf, Framed, Concat, ChunkedText, DataOf, AllGood, Ready;
    FramedIsChunked(ws);
    WrittenLine(0);
    ZeroText();
    ReadChunked(p, Written(ws), HexText(0), []);
    assert LastChunk() == Header(HexText(0)) + HeaderText([]) + LineEnd();
  }

  lemma WholeWire(w: Writer)
    requires w.Valid() && w.writing && w.chunked && w.done && w.count == 0
    ensures w.sent == w.head + (Framed(w.writes) + LastChunk()) && Framable(w.writes)
  {
    hide Framed, LastChunk, Writer.Pending, Writer.Bytes;
    w.NonePending();
    assert w.sent + [] == w.sent;
    assert w.head + Framed(w.writes) + LastChunk() == w.head + (Framed(w.writes) + LastChunk());
  }

  /** End to end: a finished chunked writer whose header text is a first line and
      any header lines, and a reader that was fed what the writer sent after the
      first line, in any pieces and with any Read sizes. The reader has been handed
      a prefix of the written data, and all of it once nothing is parked. */
  lemma EndToEnd(w: Writer, r: Reader, first: seq<int>, lines: seq<seq<int>>)
    requires w.Valid() && w.writing && w.chunked && w.done && w.count == 0
    requires w.head == first + HeaderText(lines) && HeaderLines(lines)
    requires r.Valid() && Ready(r.start) && r.start.phase == HeaderKey && first + (r.fed + r.remaining) == w.sent
    ensures r.delivered <= Concat(w.writes)
    ensures r.remaining == [] ==> r.delivered == Concat(w.writes) && !r.machine.httpError && r.machine.phase == Sending
  {
    hide Feed, BodyOf, Framed, Concat, LastChunk, HeaderText, HeaderLines, Writer.Valid;
    var tail, fields := Framed(w.writes) + LastChunk(), HeaderText(lines);
    WholeWire(w);
    SameRest(first, fields, tail, r.fed + r.remaining);
    ReadFields(r.start, lines);
    FeedConcat(r.start, fields, tail);
    RoundTrip(Feed(r.start, fields), w.writes);
    HandedOut(r);
    assert [] + Concat(w.writes) == Concat(w.writes);
    assert r.fed + [] == r.fed;
    AtTheEnd(r);
  }

  lemma SameRest(a: seq<int>, b: seq<int>, c: seq<int>, d: seq<int>)
    requires a + d == a + b + c
    ensures d == b + c
  {
    assert d == (a + d)[|a|..] && b + c == (a + b + c)[|a|..];
  }

  lemma AtTheEnd(r: Reader)
    requires r.Valid()
    ensures r.remaining == [] && Feed(r.start, r.fed).Parser? && Feed(r.start, r.fed).phase == Sending ==>
              !r.machine.httpError && r.machine.phase == Sending
  {
    hide Feed, BodyOf;
  }
}
