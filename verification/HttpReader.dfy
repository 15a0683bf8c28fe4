/** src/LowHTTPDirect.cpp, Read and SocketData: body bytes are copied in bulk into
    the reader's buffer, and input that has no room is parked until the next Read. */
module HttpReader {
  import opened Options
  import opened HttpBytes
  import opened Slices

  /** The parsing fields of LowHTTPDirect. */
  class Machine {
    var phase: Phase
    var eraseNext: bool
    var atTrailer: bool
    var chunked: bool
    var noBody: bool
    var contentLen: int
    var dataLen: int
    var lineEmpty: bool
    /** mChunkedHeaderLine and mChunkedParamStart. */
    const chunkLine: array<int>
    var chunkPos: int
    var httpError: bool

    ghost predicate Shape()
      reads this
    {
      chunkLine.Length == 10 && 0 <= chunkPos <= 10
    }

    ghost function State(): (p: Parser)
      requires Shape()
      reads this, chunkLine
      ensures p.Broken? == httpError
      ensures !httpError ==>
                p.phase == phase && p.eraseNext == eraseNext && p.contentLen == contentLen && p.dataLen == dataLen
    {
      if httpError then Broken
      else Parser(phase, eraseNext, atTrailer, chunked, noBody, contentLen, dataLen,
                  if phase == ChunkHeader then chunkLine[..chunkPos] else [], lineEmpty)
    }

    /** A message whose header fields have been read. */
    constructor (chunked: bool, noBody: bool, contentLen: int)
      ensures Shape() && fresh(chunkLine)
      ensures State() == Parser(HeaderKey, false, false, chunked, noBody, contentLen, 0, [], true)
    {
      phase, eraseNext, atTrailer, lineEmpty := HeaderKey, false, false, true;
      this.chunked, this.noBody, this.contentLen, dataLen := chunked, noBody, contentLen, 0;
      chunkLine, chunkPos, httpError := new int[10], 0, false;
    }

    /** A byte of a chunk header line; the ten-byte line buffer is never overrun. */
    method ChunkHeaderByte(c: int) returns (err: bool)
      requires Shape() && phase == ChunkHeader && !httpError
      modifies this`chunkPos, this`phase, this`contentLen, chunkLine
      ensures Shape() && err == ChunkByte(old(State()), c).Broken?
      ensures !err ==> State() == ChunkByte(old(State()), c)
    {
      if chunkPos == chunkLine.Length { return true; }
      if c == CR || c == LF {
        if chunkPos > 0 {
          var text := chunkLine[..chunkPos];
          chunkLine[chunkPos] := 0;
          chunkPos := chunkPos + 1;
          match ScanHex(text) {
            case None => return true;
            case Some(n) =>
              if n == 0 {
                phase := HeaderKey;
              } else {
                contentLen := contentLen + n;
                phase := Body;
              }
          }
        }
      } else {
        chunkLine[chunkPos] := c;
        chunkPos := chunkPos + 1;
      }
      return false;
    }

    /** A byte of a header field or trailer line. */
    method HeaderByte(c: int)
      requires Shape() && (phase == HeaderKey || phase == HeaderValue) && !httpError
      modifies this`phase, this`lineEmpty, this`atTrailer, this`contentLen, this`chunkPos
      ensures Shape() && State() == FieldByte(old(State()), c)
    {
      if lineEmpty && (c == 32 || c == 9) { return; }
      var end := c == CR || c == LF;
      if phase == HeaderValue && end {
        phase, lineEmpty := HeaderKey, true;
      } else if phase == HeaderKey && c == 58 {
        phase, lineEmpty := HeaderValue, true;
      } else if phase == HeaderKey && end {
        if !lineEmpty {
          lineEmpty := true;
        } else if atTrailer {
          phase := Sending;
        } else {
          atTrailer := true;
          if contentLen == -1 && !chunked && noBody { contentLen := 0; }
          if chunked {
            phase, chunkPos, contentLen := ChunkHeader, 0, 0;
          } else if contentLen != 0 {
            phase := Body;
          } else {
            phase := Sending;
          }
        }
      } else {
        lineEmpty := false;
      }
    }

    lemma FieldNotBroken(p: Parser, c: int)
      requires p.Parser?
      ensures FieldByte(p, c).Parser?
    {}

    /** One byte that is not handed to the reader. */
    method Digest(c: int)
      requires Shape() && !httpError && (phase == Body ==> eraseNext && c == LF)
      modifies this, chunkLine
      ensures Shape() && State() == Step(old(State()), c)
    {
      ghost var p := State();
      if eraseNext && c == LF {
        eraseNext := false;
        return;
      }
      eraseNext := c == CR;
      assert State() == p.(eraseNext := c == CR);
      FieldNotBroken(State(), c);
      hide ChunkByte, FieldByte, HeadEnd, Advance;
      var err := phase == Sending;
      if phase == ChunkHeader {
        err := ChunkHeaderByte(c);
      } else if !err {
        HeaderByte(c);
      }
      if err { httpError := true; }
    }

    /** `size` body bytes at once. */
    method Skip(size: int)
      requires Shape() && !httpError && phase == Body
      modifies this`eraseNext, this`dataLen, this`phase, this`chunkPos
      ensures Shape() && State() == Advance(old(State()), size)
    {
      eraseNext := false;
      dataLen := dataLen + size;
      if contentLen >= 0 && dataLen == contentLen {
        if chunked {
          phase, chunkPos := ChunkHeader, 0;
        } else {
          phase := Sending;
        }
      }
    }
  }

  /** The machine's state p against the automaton's state q. When a body byte
      `next` is looked at and not taken, only the line-end flag is cleared. */
  ghost predicate Agrees(p: Parser, q: Parser, next: Option<int>) {
    && Sane(q)
    && (p == q || (q.Parser? && q.phase == Body && next.Some? && !Erased(q, next.value) && p == q.(eraseNext := false)))
  }

  /** A byte that is not handed out keeps machine and automaton together. */
  lemma AgreesOther(start: Parser, fed: seq<int>, p: Parser, c: int)
    requires Agrees(p, Feed(start, fed), Some(c)) && (p.Parser? && p.phase == Body ==> p.eraseNext && c == LF)
    ensures Agrees(Step(p, c), Feed(start, fed + [c]), None)
    ensures BodyOf(start, fed + [c]) == BodyOf(start, fed)
  {
    FeedSnoc(start, fed, c);
    StepSane(p, c);
    hide Feed, BodyOf;
    assert p == Feed(start, fed) && Given(p, c) == [];
  }

  /** So does a block of body bytes. */
  lemma AgreesBlock(start: Parser, fed: seq<int>, p: Parser, block: seq<int>)
    requires block != [] && Agrees(p, Feed(start, fed), Some(block[0])) && FitsBody(p, |block|) && !Erased(p, block[0])
    ensures Agrees(Advance(p, |block|), Feed(start, fed + block), None)
    ensures BodyOf(start, fed + block) == BodyOf(start, fed) + block
  {
    var q := Feed(start, fed);
    assert FitsBody(q, |block|) && !Erased(q, block[0]) && Advance(q, |block|) == Advance(p, |block|);
    FeedConcat(start, fed, block);
    FeedBody(q, block);
    AdvanceSane(q, |block|);
    hide Feed, BodyOf;
  }

  lemma AgreesBody(p: Parser, q: Parser, c: int)
    requires Agrees(p, q, Some(c)) && p.Parser? && p.phase == Body && !(p.eraseNext && c == LF)
    ensures Agrees(p.(eraseNext := false), q, Some(c)) && !Erased(p, c)
    ensures p.contentLen >= 0 ==> p.dataLen < p.contentLen
  {}

  function Head(s: seq<int>): Option<int> { if s == [] then None else Some(s[0]) }

  class Reader {
    const machine: Machine
    /** Set when the peer closed, and by an error. */
    var closed: bool
    /** mRemainingRead; empty when nothing is parked. */
    var remaining: seq<int>
    var readData: array?<int>
    var readPos: int
    var readLen: int

    /** The automaton at the start of the message, the bytes taken from the
        socket and not parked, the body bytes handed out, and how many of these
        came before the current Read. */
    ghost var start: Parser
    ghost var fed: seq<int>
    ghost var delivered: seq<int>
    ghost var before: int

    /** The machine has read what was fed. */
    ghost predicate Tracks(next: Option<int>)
      reads `delivered, `start, `fed, machine, machine.chunkLine
    {
      machine.Shape() && delivered == BodyOf(start, fed) && Agrees(machine.State(), Feed(start, fed), next)
    }

    /** The current buffer holds what was handed out since the current Read. */
    ghost predicate Filled()
      reads `readData, `readPos, `readLen, `before, `delivered, readData
    {
      readData != null ==>
        && 0 <= readPos <= readLen <= readData.Length
        && 0 <= before && before + readPos == |delivered| && readData[..readPos] == delivered[before..]
    }

    predicate Apart()
      reads `readData
    {
      readData != machine.chunkLine
    }

    predicate NoRoom()
      reads `readData, `readPos, `readLen
    {
      readData == null || readPos == readLen
    }

    /** Input is parked only for want of room for a body byte. */
    ghost predicate Parked()
      reads this, machine
    {
      remaining != [] ==>
        !closed && machine.phase == Body && !machine.eraseNext && NoRoom()
    }

    ghost predicate Valid()
      reads this, machine, machine.chunkLine, readData
    {
      Tracks(Head(remaining)) && Filled() && Apart() && Parked() && (machine.httpError ==> closed)
    }

    constructor (chunked: bool, noBody: bool, contentLen: int)
      ensures Valid() && fed == [] && delivered == [] && remaining == [] && !closed && readData == null
      ensures start == Parser(HeaderKey, false, false, chunked, noBody, contentLen, 0, [], true)
    {
      machine := new Machine(chunked, noBody, contentLen);
      closed, remaining, readData, readPos, readLen := false, [], null, 0, 0;
      start := Parser(HeaderKey, false, false, chunked, noBody, contentLen, 0, [], true);
      fed, delivered, before := [], [], 0;
      FeedEmpty(Parser(HeaderKey, false, false, chunked, noBody, contentLen, 0, [], true));
    }

    /** In the middle of the input: `next` is the byte to be read. */
    ghost predicate Reading(next: Option<int>)
      reads this, machine, machine.chunkLine, readData
    {
      Tracks(next) && Filled() && Apart() && remaining == [] && !closed && !machine.httpError
    }

    /** One byte that is not a body byte. */
    method OtherByte(c: int)
      requires Reading(Some(c)) && (machine.phase == Body ==> machine.eraseNext && c == LF)
      modifies this`closed, this`fed, machine, machine.chunkLine
      ensures fed == old(fed) + [c] && remaining == [] && closed == machine.httpError
      ensures if closed then Valid() else Reading(None)
    {
      hide Feed, BodyOf, Step, Agrees, Filled, Machine.State;
      AgreesOther(start, fed, machine.State(), c);
      machine.Digest(c);
      fed := fed + [c];
      if machine.httpError { closed := true; }
    }

    /** The body bytes of data[i..] that fit, copied at once; none if the input
        has to be parked. */
    method BodyBytes(data: seq<int>, i: int) returns (size: int)
      requires 0 <= i < |data| && Reading(Some(data[i]))
      requires machine.phase == Body && !(machine.eraseNext && data[i] == LF)
      modifies this`readPos, this`delivered, this`fed, this`remaining, machine, readData
      ensures 0 <= size && i + size <= |data|
      ensures fed == old(fed) + Sub(data, i, i + size)
      ensures |delivered| == old(|delivered|) + size && (size == 0 ==> old(NoRoom()))
      ensures if size == 0 then Valid() && remaining == Rest(data, i) else Reading(None)
    {
      hide Feed, BodyOf, Agrees, Sub, Rest;
      AgreesBody(machine.State(), Feed(start, fed), data[i]);
      size := |data| - i;
      if machine.contentLen >= 0 && size > machine.contentLen - machine.dataLen {
        size := machine.contentLen - machine.dataLen;
      }
      if NoRoom() {
        machine.eraseNext := false;
        remaining := Rest(data, i);
        return 0;
      }
      if size > readLen - readPos { size := readLen - readPos; }
      Accept(Sub(data, i, i + size));
    }

    /** Copy a block of body bytes and count it. */
    method Accept(block: seq<int>)
      requires block != [] && Reading(Some(block[0])) && readData != null && |block| <= readLen - readPos
      requires FitsBody(machine.State(), |block|) && !Erased(machine.State(), block[0])
      modifies this`readPos, this`delivered, this`fed, machine, readData
      ensures fed == old(fed) + block && Reading(None) && delivered == old(delivered) + block
    {
      hide Feed, BodyOf, Advance, Agrees, Filled, FitsBody, Erased, Machine.State;
      AgreesBlock(start, fed, machine.State(), block);
      FitsUnbroken(machine.State(), |block|);
      FilledRoom();
      CopyIn(block);
      machine.Skip(|block|);
      fed := fed + block;
    }

    lemma FitsUnbroken(p: Parser, n: int)
      requires FitsBody(p, n)
      ensures p.Parser? && p.phase == Body && Advance(p, n).Parser?
    {}

    lemma FilledRoom()
      requires Filled() && readData != null
      ensures 0 <= readPos <= readLen <= readData.Length
    {}

    /** memcpy into the reader's buffer. */
    method CopyIn(block: seq<int>)
      requires Filled() && readData != null && |block| <= readLen - readPos
      modifies this`readPos, this`delivered, readData
      ensures Filled() && delivered == old(delivered) + block && readPos == old(readPos) + |block|
    {
      ghost var was := delivered;
      forall k | 0 <= k < |block| {
        readData[readPos + k] := block[k];
      }
      readPos := readPos + |block|;
      delivered := delivered + block;
      assert readData[..readPos] == readData[..readPos - |block|] + readData[readPos - |block|..readPos];
      assert delivered[before..] == was[before..] + block;
    }

    /** After an error the rest of the input is ignored. */
    ghost method Ignore(rest: seq<int>)
      requires Valid() && remaining == [] && machine.httpError
      modifies `fed
      ensures Valid() && fed == old(fed) + rest
    {
      FeedConcat(start, fed, rest);
      FeedBroken(rest);
      fed := fed + rest;
    }

    /** The next byte is a body byte and there is room for it. */
    predicate Taking(c: int)
      reads `readData, `readPos, `readLen, machine
    {
      machine.phase == Body && !(machine.eraseNext && c == LF) && !NoRoom()
    }

    /** One turn of the loop: some of data[i..] is taken, or all of it is parked. */
    method TakeSome(data: seq<int>, i: int) returns (j: int)
      requires 0 <= i < |data| && Reading(Some(data[i]))
      modifies this`closed, this`remaining, this`readPos, this`delivered, this`fed, machine, machine.chunkLine, readData
      ensures i <= j <= |data| && fed == old(fed) + Sub(data, i, j)
      ensures closed == machine.httpError && remaining == (if j == i then Rest(data, i) else [])
      ensures if j == i || closed then Valid() else Reading(None)
      ensures closed ==> j > i
      ensures |delivered| >= old(|delivered|) && (old(Taking(data[i])) ==> |delivered| > old(|delivered|))
    {
      hide Feed, BodyOf, Agrees, Filled, Sub, Rest, Machine.State;
      if machine.phase == Body && !(machine.eraseNext && data[i] == LF) {
        var size := BodyBytes(data, i);
        j := i + size;
      } else {
        SubSnoc(data, i, i);
        Associate([], [], [data[i]]);
        OtherByte(data[i]);
        j := i + 1;
      }
    }

    /** Input from the socket, or parked input on the next Read: all of it is
        taken, except what is parked. An error or the end of the stream closes. */
    method SocketData(data: seq<int>) returns (more: bool)
      requires Reading(Head(data))
      modifies this`closed, this`remaining, this`readPos, this`delivered, this`fed, machine, machine.chunkLine, readData
      ensures Valid() && fed + remaining == old(fed) + data
      ensures closed == (data == [] || machine.httpError) && more == (remaining == [] && !closed)
      ensures |delivered| >= old(|delivered|)
      ensures data != [] && old(Taking(data[0])) ==> |delivered| > old(|delivered|)
    {
      hide Feed, BodyOf, Agrees, Filled, Sub, Rest, Machine.State, Taking;
      Associate(fed, [], []);
      if |data| == 0 {
        closed := true;
        return false;
      }
      ghost var was := fed;
      SubWhole(data);
      var i := TakeSome(data, 0);
      while 0 < i < |data| && remaining == [] && !closed
        invariant 0 <= i <= |data| && fed == was + Sub(data, 0, i)
        invariant if remaining != [] || closed then Valid() else Reading(None)
        invariant closed == machine.httpError && (remaining != [] ==> remaining == Rest(data, i))
        invariant |delivered| >= old(|delivered|) && (old(Taking(data[0])) ==> |delivered| > old(|delivered|))
        invariant remaining == [] ==> i > 0
        decreases |data| - i, if remaining == [] then 1 else 0
      {
        Onward(Some(data[i]));
        var j := TakeSome(data, i);
        SubJoin(data, 0, i, j);
        Associate(was, Sub(data, 0, i), Sub(data, i, j));
        i := j;
      }
      SubRest(data, i);
      Associate(was, Sub(data, 0, i), Rest(data, i));
      if closed {
        Ignore(Rest(data, i));
      } else if remaining == [] {
        Onward(None);
      }
      more := remaining == [] && !closed;
    }

    lemma Onward(next: Option<int>)
      requires Reading(None)
      ensures Reading(next) && Valid()
    {}

    /** JavaScript asks for up to `len` bytes. */
    method Read(buffer: array<int>, len: int) returns (refused: bool)
      requires Valid() && buffer != machine.chunkLine && 0 <= len <= buffer.Length
      modifies this, machine, machine.chunkLine, buffer
      ensures Valid() && refused == (old(readData) != null) && start == old(start)
      ensures fed + remaining == old(fed + remaining)
      ensures !refused ==> readData == buffer && readLen == len && before == old(|delivered|)
      // Parked input is made use of: a Read with room gets at least one byte.
      ensures !refused && old(remaining) != [] && len > 0 ==> readPos > 0
    {
      hide Feed, BodyOf, Agrees, Machine.State;
      if readData != null { return true; }
      refused := false;
      before := |delivered|;
      readPos, readLen, readData := 0, len, buffer;
      if remaining != [] && !closed {
        var data := remaining;
        remaining := [];
        var more := SocketData(data);
      }
    }

    /** The callback of a Read gets the bytes in the buffer. */
    method Complete() returns (count: int)
      requires Valid() && readData != null
      modifies this`readData
      ensures Valid() && count == readPos && count == |delivered| - before
      ensures old(readData[..readPos]) == delivered[before..]
    {
      count := readPos;
      readData := null;
    }
  }

  /** Whatever was fed in whatever pieces, and however it was read: what was
      handed out is the body of what was taken, and a prefix of the body of
      everything that came in. */
  lemma HandedOut(r: Reader)
    requires r.Valid()
    ensures r.delivered == BodyOf(r.start, r.fed) <= BodyOf(r.start, r.fed + r.remaining)
    ensures r.remaining == [] ==> r.delivered == BodyOf(r.start, r.fed + r.remaining)
  {
    FeedConcat(r.start, r.fed, r.remaining);
    assert r.fed + [] == r.fed;
  }
}
