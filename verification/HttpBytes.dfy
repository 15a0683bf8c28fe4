/** src/LowHTTPDirect.cpp: the message parser as an automaton that reads one byte
    at a time, from the end of the header fields on. Bytes are integers. */
module HttpBytes {
  import opened Options

  const CR := 13
  const LF := 10

  datatype Phase = HeaderKey | HeaderValue | ChunkHeader | Body | Sending

  /** The parser's fields: mPhase, mEraseNextN, mAtTrailer, mChunkedEncoding,
      mNoBodyDefault, mContentLen, mDataLen, the chunk header line, and whether
      the header line being read is still empty. `Broken` is mHTTPError. */
  datatype Parser =
    | Parser(phase: Phase, eraseNext: bool, atTrailer: bool, chunked: bool, noBody: bool,
             contentLen: int, dataLen: int, chunkLine: seq<int>, lineEmpty: bool)
    | Broken

  // ---- sscanf("%x") -----------------------------------------------------------

  function HexDigit(c: int): int {
    if 48 <= c <= 57 then c - 48 else if 97 <= c <= 102 then c - 87 else if 65 <= c <= 70 then c - 55 else -1
  }

  predicate IsSpace(c: int) { c == 32 || 9 <= c <= 13 }

  /** Value of the hex digits at the front, after a value read before them. */
  function HexValue(line: seq<int>, before: int): int {
    if line == [] || HexDigit(line[0]) < 0 then before else HexValue(line[1..], 16 * before + HexDigit(line[0]))
  }

  function ScanHex(line: seq<int>): Option<int> {
    if line == [] then None
    else if IsSpace(line[0]) then ScanHex(line[1..])
    else if |line| >= 2 && line[0] == 48 && (line[1] == 120 || line[1] == 88) then
      if |line| >= 3 && HexDigit(line[2]) >= 0 then Some(HexValue(line[2..], 0)) else None
    else if HexDigit(line[0]) >= 0 then Some(HexValue(line, 0)) else None
  }

  // ---- one byte ---------------------------------------------------------------

  /** The blank line after the header fields. */
  function HeadEnd(p: Parser): Parser
    requires p.Parser?
  {
    var len := if p.contentLen == -1 && !p.chunked && p.noBody then 0 else p.contentLen;
    if p.chunked then p.(atTrailer := true, phase := ChunkHeader, chunkLine := [], contentLen := 0)
    else p.(atTrailer := true, contentLen := len, phase := if len != 0 then Body else Sending)
  }

  function ChunkByte(p: Parser, c: int): Parser
    requires p.Parser?
  {
    if |p.chunkLine| == 10 then Broken
    else if c != CR && c != LF then p.(chunkLine := p.chunkLine + [c])
    else if p.chunkLine == [] then p
    else
      match ScanHex(p.chunkLine)
      case None => Broken
      case Some(n) =>
        if n == 0 then p.(phase := HeaderKey, chunkLine := [])
        else p.(contentLen := p.contentLen + n, phase := Body, chunkLine := [])
  }

  /** A byte of a header field; only where lines end matters here. */
  function FieldByte(p: Parser, c: int): Parser
    requires p.Parser?
  {
    if p.lineEmpty && (c == 32 || c == 9) then p
    else if p.phase == HeaderValue && (c == CR || c == LF) then p.(phase := HeaderKey, lineEmpty := true)
    else if p.phase == HeaderKey && c == 58 then p.(phase := HeaderValue, lineEmpty := true)
    else if p.phase == HeaderKey && (c == CR || c == LF) then
      if !p.lineEmpty then p.(lineEmpty := true)
      else if p.atTrailer then p.(phase := Sending)
      else HeadEnd(p)
    else p.(lineEmpty := false)
  }

  /** n more body bytes. */
  function Advance(p: Parser, n: int): Parser
    requires p.Parser?
  {
    var q := p.(eraseNext := false, dataLen := p.dataLen + n);
    if q.contentLen >= 0 && q.dataLen == q.contentLen then
      if q.chunked then q.(phase := ChunkHeader, chunkLine := []) else q.(phase := Sending)
    else q
  }

  /** Whether the byte is the second half of a line end. */
  predicate Erased(p: Parser, c: int) { p.Parser? && p.eraseNext && c == LF }

  function Step(p: Parser, c: int): Parser {
    if p.Broken? then p
    else if Erased(p, c) then p.(eraseNext := false)
    else
      var q := p.(eraseNext := p.phase != Body && c == CR);
      match p.phase
      case Sending => Broken
      case ChunkHeader => ChunkByte(q, c)
      case Body => Advance(q, 1)
      case _ => FieldByte(q, c)
  }

  /** The body byte that a step hands to the reader. */
  function Given(p: Parser, c: int): seq<int> {
    if p.Parser? && p.phase == Body && !Erased(p, c) then [c] else []
  }

  function Feed(p: Parser, data: seq<int>): Parser {
    if data == [] then p else Step(Feed(p, data[..|data| - 1]), data[|data| - 1])
  }

  function BodyOf(p: Parser, data: seq<int>): seq<int> {
    if data == [] then []
    else BodyOf(p, data[..|data| - 1]) + Given(Feed(p, data[..|data| - 1]), data[|data| - 1])
  }

  lemma FeedSnoc(p: Parser, data: seq<int>, c: int)
    ensures Feed(p, data + [c]) == Step(Feed(p, data), c)
    ensures BodyOf(p, data + [c]) == BodyOf(p, data) + Given(Feed(p, data), c)
  {
    assert (data + [c])[..|data|] == data;
  }

  lemma FeedEmpty(p: Parser)
    ensures Feed(p, []) == p && BodyOf(p, []) == []
  {}

  lemma {:induction false} FeedConcat(p: Parser, a: seq<int>, b: seq<int>)
    ensures Feed(p, a + b) == Feed(Feed(p, a), b)
    ensures BodyOf(p, a + b) == BodyOf(p, a) + BodyOf(Feed(p, a), b)
  {
    FeedEmpty(Feed(p, a));
    hide Feed, BodyOf, Step, Given;
    if b == [] {
      assert a + b == a;
    } else {
      var n := |b| - 1;
      var c, x := b[..n], b[n];
      assert b == c + [x];
      assert a + b == (a + c) + [x];
      FeedConcat(p, a, c);
      FeedSnoc(p, a + c, x);
      FeedSnoc(Feed(p, a), c, x);
    }
  }

  lemma {:induction false} FeedBroken(data: seq<int>)
    ensures Feed(Broken, data) == Broken && BodyOf(Broken, data) == []
  {
    if data != [] {
      FeedBroken(data[..|data| - 1]);
    }
  }

  /** What is still to come of the body, when that is known. */
  predicate FitsBody(p: Parser, n: int) {
    p.Parser? && p.phase == Body && (p.contentLen >= 0 ==> p.dataLen + n <= p.contentLen)
  }

  lemma AdvanceStep(p: Parser, n: int, c: int)
    requires n >= 0 && FitsBody(p, n + 1) && (n == 0 ==> !Erased(p, c))
    ensures var q := if n == 0 then p else Advance(p, n);
            Step(q, c) == Advance(p, n + 1) && Given(q, c) == [c]
  {}

  /** Copying n bytes at once is the same as n steps. */
  lemma {:induction false} FeedBody(p: Parser, data: seq<int>)
    requires data != [] && FitsBody(p, |data|) && !Erased(p, data[0])
    ensures Feed(p, data) == Advance(p, |data|) && BodyOf(p, data) == data
  {
    var n := |data| - 1;
    var c := data[..n];
    FeedEmpty(p);
    FeedSnoc(p, c, data[n]);
    assert data == c + [data[n]];
    AdvanceStep(p, n, data[n]);
    if n > 0 { FeedBody(p, c); }
    hide *;
    assert n == 0 ==> c == [];
  }

  /** After the body nothing more is handed out. */
  lemma {:induction false} NothingAfter(p: Parser, data: seq<int>)
    requires p.Parser? ==> p.phase == Sending
    ensures BodyOf(p, data) == []
    ensures var q := Feed(p, data); q.Parser? ==> q.phase == Sending
  {
    if data != [] { NothingAfter(p, data[..|data| - 1]); }
  }

  /** Content-Length: the body is exactly the announced number of bytes. */
  lemma ContentLength(p: Parser, data: seq<int>)
    requires p.Parser? && p.phase == Body && !p.chunked && p.contentLen > 0 && p.dataLen == 0
    requires data != [] ==> !Erased(p, data[0])
    ensures BodyOf(p, data) == if |data| < p.contentLen then data else data[..p.contentLen]
    ensures |data| >= p.contentLen ==> var q := Feed(p, data); q.Parser? ==> q.phase == Sending
  {
    var n := if |data| < p.contentLen then |data| else p.contentLen;
    var a, b := data[..n], data[n..];
    assert data == a + b;
    FeedEmpty(p);
    if n > 0 { FeedBody(p, a); }
    FeedConcat(p, a, b);
    FeedEmpty(Feed(p, a));
    LastByte(p, n);
    hide Feed, BodyOf, Advance;
    if n == p.contentLen { NothingAfter(Feed(p, a), b); }
    assert a + [] == a;
  }

  lemma LastByte(p: Parser, n: int)
    requires p.Parser? && p.phase == Body && !p.chunked && p.contentLen > 0 && p.dataLen == 0
    ensures n == p.contentLen ==> Advance(p, n).Parser? && Advance(p, n).phase == Sending
  {}

  // ---- what every parser state satisfies ------------------------------------------

  /** Body bytes are only awaited while there are some to come, and between
      chunks the announced length has been read exactly. */
  predicate Sane(p: Parser) {
    p.Parser? ==>
      && (!p.atTrailer ==> p.dataLen == 0 && (p.phase == HeaderKey || p.phase == HeaderValue))
      && (p.phase == Body ==> p.contentLen < 0 || p.dataLen < p.contentLen)
      && (p.atTrailer && p.chunked ==> 0 <= p.dataLen <= p.contentLen)
      && (p.phase == ChunkHeader ==> p.chunked && p.dataLen == p.contentLen)
  }

  lemma {:induction false} HexPositive(line: seq<int>, before: int)
    requires before >= 0
    ensures HexValue(line, before) >= 0
  {
    if line != [] && HexDigit(line[0]) >= 0 {
      HexPositive(line[1..], 16 * before + HexDigit(line[0]));
    }
  }

  lemma {:induction false} ScanPositive(line: seq<int>)
    ensures ScanHex(line).Some? ==> ScanHex(line).value >= 0
  {
    if line != [] {
      HexPositive(line, 0);
      if |line| >= 2 { HexPositive(line[2..], 0); }
      ScanPositive(line[1..]);
    }
  }

  lemma StepSane(p: Parser, c: int)
    requires Sane(p)
    ensures Sane(Step(p, c))
  {
    if p.Parser? { ScanPositive(p.chunkLine); }
    hide ScanHex;
  }

  lemma AdvanceSane(p: Parser, n: int)
    requires Sane(p) && n > 0 && FitsBody(p, n)
    ensures Sane(Advance(p, n))
  {}
}
