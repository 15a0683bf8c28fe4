/** src/LowHTTPDirect.cpp, WriteHeaders, Write and DoWrite: chunks are framed into a
    queue of three buffers that writev drains in pieces of any size. */
module HttpWriter {
  import opened HttpBytes
  import opened Slices

  // ---- sprintf("%x") ----------------------------------------------------------

  function DigitText(d: int): int { if d < 10 then 48 + d else 87 + d }

  function HexText(n: int): seq<int>
    requires n >= 0
  {
    if n < 16 then [DigitText(n)] else HexText(n / 16) + [DigitText(n % 16)]
  }

  function LineEnd(): seq<int> { [CR, LF] }

  /** `"\r\n%x\r\n"` */
  function ChunkLine(n: int): seq<int>
    requires n >= 0
  {
    LineEnd() + HexText(n) + LineEnd()
  }

  function LastChunk(): seq<int> { LineEnd() + [48] + LineEnd() + LineEnd() }

  /** What a chunked body looks like on the wire. */
  function Framed(writes: seq<seq<int>>): seq<int> {
    if writes == [] then []
    else Framed(writes[..|writes| - 1]) + ChunkLine(|writes[|writes| - 1]|) + writes[|writes| - 1]
  }

  function Concat(writes: seq<seq<int>>): seq<int> {
    if writes == [] then [] else Concat(writes[..|writes| - 1]) + writes[|writes| - 1]
  }

  /** No chunk is empty, and each length is an int. */
  predicate Framable(writes: seq<seq<int>>) { forall i | 0 <= i < |writes| :: 0 < |writes[i]| < 0x80000000 }

  /** Every chunk header line fits the line buffer. */
  predicate FitLine(writes: seq<seq<int>>) { forall i | 0 <= i < |writes| :: |ChunkLine(|writes[i]|)| < 10 }

  // ---- the writer ----------------------------------------------------------------

  /** What an iovec points to: the caller's bytes, or the chunk header line
      buffer from some position on. */
  datatype Buffer = Data(bytes: seq<int>) | Line(from: int, to: int)

  function Advanced(b: Buffer, n: int): Buffer
    requires n >= 0
  {
    match b
    case Data(bytes) => Data(if n <= |bytes| then Rest(bytes, n) else [])
    case Line(from, to) => Line(from + n, to)
  }

  /** The bytes of the first `count` of three buffers. */
  function Queue(a: seq<int>, b: seq<int>, c: seq<int>, count: int): seq<int> {
    (if count > 0 then a else []) + (if count > 1 then b else []) + (if count > 2 then c else [])
  }

  /** The first buffer leaves the queue, or part of it does. */
  lemma QueueShift(a: seq<int>, b: seq<int>, c: seq<int>, count: int)
    requires 0 < count <= 3
    ensures Queue(a, b, c, count) == a + Queue(b, c, c, count - 1)
  {}

  lemma QueueSplit(a: seq<int>, b: seq<int>, c: seq<int>, count: int, n: int)
    requires 0 < count <= 3 && 0 <= n <= |a|
    ensures Queue(a, b, c, count) == Sub(a, 0, n) + Queue(Rest(a, n), b, c, count)
  {
    SubRest(a, n);
  }

  // ---- what writev answers --------------------------------------------------------

  /** The answers are a number of bytes, -1 for EAGAIN or EINTR, less for any other
      error, and -1 from then on. What is offered to be sent before the first error: */
  function Offered(answers: seq<int>): (n: int)
    ensures n >= 0
  {
    if answers == [] || answers[0] < 0 then 0 else answers[0] + Offered(answers[1..])
  }

  /** The answer that is not a number of bytes. */
  function Stop(answers: seq<int>): (e: int)
    ensures e < 0
  {
    if answers == [] then -1 else if answers[0] < 0 then answers[0] else Stop(answers[1..])
  }

  function Min(a: int, b: int): int { if a < b then a else b }

  class Writer {
    /** mWriteBuffers and mWriteBufferCount. */
    const buffers: array<Buffer>
    var count: int
    /** mWriteChunkedHeaderLine. */
    const line: array<int>
    var writing: bool
    var done: bool
    var chunked: bool
    var callPending: bool
    var failed: bool
    var shutdown: bool
    /** A chunk header line was longer than the line buffer: sprintf writes past
        its end, and nothing is promised from then on. */
    var overrun: bool
    var writePos: int
    var writeLen: int

    /** Bytes that writev has accepted, the header bytes, and the accepted writes. */
    ghost var sent: seq<int>
    ghost var head: seq<int>
    ghost var writes: seq<seq<int>>

    ghost predicate Shape()
      reads `count
    {
      buffers.Length == 3 && line.Length == 10 && 0 <= count <= 3
    }

    /** The bytes an iovec stands for at this moment. */
    function Bytes(b: Buffer): seq<int>
      reads line
    {
      match b
      case Data(bytes) => bytes
      case Line(from, to) => if 0 <= from <= to <= line.Length then line[from..to] else []
    }

    function Pending(): seq<int>
      requires Shape()
      reads `count, line, buffers
    {
      Queue(Bytes(buffers[0]), Bytes(buffers[1]), Bytes(buffers[2]), count)
    }

    /** Everything this message puts on the socket. */
    ghost function Wire(): seq<int>
      reads `head, `writes, `chunked, `done, `writing
    {
      if !writing then []
      else head + (if chunked then Framed(writes) else Concat(writes)) + (if done && chunked then LastChunk() else [])
    }

    /** The line buffer is only overwritten when no pending iovec points to it. */
    ghost predicate LineFree()
      requires Shape()
      reads `count, `done, buffers
    {
      (count > 0 && !done ==> buffers[count - 1].Data?) && LinesInside()
    }

    ghost predicate LinesInside()
      requires Shape()
      reads `count, buffers
    {
      forall i | 0 <= i < count && buffers[i].Line? :: 0 <= buffers[i].from <= buffers[i].to <= 10
    }

    ghost predicate Valid()
      reads this, line, buffers
    {
      Shape() && LineFree() && sent + Pending() == Wire()
      && (!writing ==> count == 0 && sent == [] && writes == [] && !done) && Framable(writes)
          && (chunked ==> FitLine(writes)) && writePos == |Concat(writes)|
    }

    constructor ()
      ensures Valid() && fresh(buffers) && fresh(line) && !writing && sent == [] && !overrun
    {
      buffers, line := new Buffer[3](_ => Data([])), new int[10](_ => 0);
      count, writing, done, chunked, callPending, failed, shutdown := 0, false, false, false, false, false, false;
      overrun := false;
      writePos, writeLen, sent, head, writes := 0, 0, [], [], [];
    }

    function Length(b: Buffer): int {
      match b
      case Data(bytes) => |bytes|
      case Line(from, to) => to - from
    }

    lemma LengthIs(i: int)
      requires Shape() && LineFree() && 0 <= i < count
      ensures |Bytes(buffers[i])| == Length(buffers[i])
    {}

    /** The first buffer has been sent: the others move up. */
    method Shift()
      requires Shape() && LineFree() && count > 0
      modifies `count, `sent, buffers
      ensures Shape() && LineFree() && count == old(count) - 1
      ensures sent + Pending() == old(sent) + old(Pending()) && |sent| == |old(sent)| + Length(old(buffers[0]))
      ensures |Pending()| == old(|Pending()|) - Length(old(buffers[0]))
    {
      hide Queue, Bytes;
      LengthIs(0);
      Associate(sent, Bytes(buffers[0]), Queue(Bytes(buffers[1]), Bytes(buffers[2]), Bytes(buffers[2]), count - 1));
      QueueShift(Bytes(buffers[0]), Bytes(buffers[1]), Bytes(buffers[2]), count);
      sent := sent + Bytes(buffers[0]);
      buffers[0] := buffers[1];
      buffers[1] := buffers[2];
      count := count - 1;
    }

    /** Part of the first buffer has been sent. */
    method Trim(size: int)
      requires Shape() && LineFree() && count > 0 && 0 <= size < Length(buffers[0])
      modifies `sent, buffers
      ensures Shape() && LineFree()
      ensures sent + Pending() == old(sent) + old(Pending()) && |sent| == |old(sent)| + size
    {
      hide Queue, Sub, Rest, Advanced, Bytes;
      LengthIs(0);
      ghost var part := Sub(Bytes(buffers[0]), 0, size);
      Associate(sent, part, Queue(Rest(Bytes(buffers[0]), size), Bytes(buffers[1]), Bytes(buffers[2]), count));
      AdvancedBytes(buffers[0], size);
      QueueSplit(Bytes(buffers[0]), Bytes(buffers[1]), Bytes(buffers[2]), count, size);
      sent := sent + part;
      buffers[0] := Advanced(buffers[0], size);
    }

    lemma AdvancedBytes(b: Buffer, n: int)
      requires line.Length == 10 && (b.Line? ==> 0 <= b.from <= b.to <= 10) && 0 <= n <= Length(b)
      ensures Bytes(Advanced(b, n)) == Rest(Bytes(b), n) && Advanced(b, n).Data? == b.Data?
      ensures b.Line? ==> Advanced(b, n) == Line(b.from + n, b.to)
    {}

    /** Take the accepted bytes off the queue. */
    method Drain(accepted: int)
      requires Shape() && LineFree() && 0 <= accepted <= |Pending()|
      modifies `count, `sent, buffers
      ensures Shape() && LineFree() && count <= old(count)
      ensures sent + Pending() == old(sent) + old(Pending()) && |sent| == |old(sent)| + accepted
      ensures accepted == |old(Pending())| ==> count == 0
    {
      hide Queue, Bytes, Pending, LineFree;
      var size := accepted;
      while count > 0 && size >= Length(buffers[0])
        invariant Shape() && LineFree() && 0 <= size <= |Pending()| && count <= old(count)
        invariant sent + Pending() == old(sent) + old(Pending()) && |sent| == |old(sent)| + accepted - size
        decreases count
      {
        FirstFits();
        size := size - Length(buffers[0]);
        Shift();
      }
      if count > 0 { FirstFits(); }
      if size > 0 {
        NonePending();
        Trim(size);
      }
    }

    lemma FirstFits()
      requires Shape() && LineFree() && count > 0
      ensures 0 <= Length(buffers[0]) <= |Pending()|
    {}

    lemma NonePending()
      requires Shape()
      ensures count == 0 ==> Pending() == []
    {}

    /** What DoWrite leaves alone. */
    twostate predicate SameMessage()
      reads this
    {
      && writing == old(writing) && done == old(done) && chunked == old(chunked) && head == old(head)
      && writes == old(writes) && callPending == old(callPending) && overrun == old(overrun)
      && writePos == old(writePos) && writeLen == old(writeLen)
    }

    /** `accepts` is what writev answers call by call. */
    method DoWrite(accepts: seq<int>)
      requires Valid()
      modifies `count, `sent, `failed, `shutdown, buffers
      ensures Valid() && SameMessage() && count <= old(count)
      // Everything that writev took is off the queue, and nothing else.
      ensures old(sent) <= sent && |sent| == Min(|old(sent)| + Offered(accepts), |Wire()|)
      ensures count == 0 <==> old(count) == 0 || (accepts != [] && accepts[0] >= 0 && sent == Wire())
      ensures failed == (old(failed) || (count > 0 && Stop(accepts) < -1))
      ensures shutdown == (old(shutdown)
                           || (count == 0 && done && !chunked && (writeLen < 0 || |Concat(writes)| != writeLen)))
    {
      hide Queue, Bytes, Pending, LineFree, Wire, Concat, Offered, Stop;
      var k := 0;
      ghost var wire := Wire();
      assert accepts[0..] == accepts;
      NonePending();
      Associate(sent, [], []);
      while count > 0
        invariant Shape() && LineFree() && 0 <= k <= |accepts| && count <= old(count) && |old(sent)| <= |sent|
        invariant sent + Pending() == wire == Wire() && (!writing ==> count == 0 && sent == old(sent))
        invariant failed == old(failed) && shutdown == old(shutdown)
        invariant count > 0 ==> |old(sent)| + Offered(accepts) == |sent| + Offered(accepts[k..])
        invariant count > 0 ==> Stop(accepts) == Stop(accepts[k..])
        invariant count > 0 && k > 0 ==> |Pending()| > 0
        invariant k > 0 ==> accepts[0] >= 0
        invariant count == 0 ==> sent == Wire() && |sent| <= |old(sent)| + Offered(accepts)
        invariant count == 0 ==> old(count) == 0 || k > 0
        decreases |accepts| - k
      {
        OfferedStep(accepts, k);
        if k == |accepts| || accepts[k] < 0 {
          if k < |accepts| && accepts[k] < -1 { failed := true; }
          assert |wire| == |sent| + |Pending()|;
          Longer(old(sent), sent, old(Pending()), Pending());
          return;
        }
        var total := Total();
        Drain(if accepts[k] > total then total else accepts[k]);
        NonePending();
        Associate(sent, [], []);
        k := k + 1;
      }
      Longer(old(sent), sent, old(Pending()), Pending());
      if count == 0 && done && !chunked && (writeLen < 0 || writePos != writeLen) {
        shutdown := true;
      }
    }

    lemma OfferedStep(accepts: seq<int>, k: int)
      requires 0 <= k <= |accepts|
      ensures var rest := accepts[k..];
              if k == |accepts| then Offered(rest) == 0 && Stop(rest) == -1
              else if accepts[k] < 0 then Offered(rest) == 0 && Stop(rest) == accepts[k]
              else Offered(rest) == accepts[k] + Offered(accepts[k + 1..]) && Stop(rest) == Stop(accepts[k + 1..])
    {
      if k < |accepts| { assert accepts[k..][1..] == accepts[k + 1..]; }
    }

    /** writev accepts no more than there is. */
    function Total(): int
      requires Shape()
      reads this, line, buffers
    {
      |Pending()|
    }

    lemma Longer(a: seq<int>, b: seq<int>, c: seq<int>, d: seq<int>)
      requires b + d == a + c && |a| <= |b|
      ensures a <= b
    {
      assert a == (a + c)[..|a|] == (b + d)[..|a|] == b[..|a|];
    }

    /** One more buffer at the end of the queue. */
    method Push(b: Buffer)
      requires Shape() && count < 3 && LinesInside() && (b.Line? ==> 0 <= b.from <= b.to <= 10)
      modifies `count, buffers
      ensures Shape() && LinesInside() && count == old(count) + 1 && buffers[count - 1] == b
      ensures forall i | 0 <= i < count - 1 :: buffers[i] == old(buffers[i])
      ensures Pending() == old(Pending()) + Bytes(b)
    {
      hide Bytes;
      buffers[count] := b;
      count := count + 1;
    }

    /** Header text; a chunked message leaves its last line end to the first chunk. */
    method WriteHeaders(text: seq<int>, len: int, isChunked: bool, accepts: seq<int>)
      requires Valid() && (isChunked ==> |text| >= 2)
      modifies this, buffers
      ensures Valid() && writing
      ensures old(writing) ==> SameMessage() && sent == old(sent) && count == old(count)
      ensures !old(writing) ==> chunked == isChunked && writes == [] && !done && callPending == old(callPending)
                                && writeLen == len && head == if isChunked then Sub(text, 0, |text| - 2) else text
      ensures !old(writing) ==> |sent| == Min(Offered(accepts), |head|) && (count == 0 ==> sent == head)
    {
      hide Queue, Bytes, Pending, Framed, Concat, LinesInside, Offered, Stop, Framable, FitLine;
      if writing { return; }
      writing, writePos, writeLen, chunked := true, 0, len, isChunked;
      var bytes := if isChunked then Sub(text, 0, |text| - 2) else text;
      buffers[0] := Data(bytes);
      count := 1;
      head := bytes;
      OnlyFirst();
      NoWrites();
      Associate([], bytes, []);
      Associate(bytes, [], []);
      Associate(bytes + [], [], []);
      DoWrite(accepts);
    }

    lemma OnlyFirst()
      requires Shape() && count == 1 && buffers[0].Data?
      ensures Pending() == buffers[0].bytes && [] + Pending() == Pending() && LinesInside()
    {}

    lemma NoWrites()
      ensures Framed([]) == [] && Concat([]) == [] && FitLine([])
    {}

    /** The socket can take more: the rest is sent, and a waiting callback is due
        when nothing is left or on an error. */
    method OnSocketWrite(accepts: seq<int>) returns (more: bool, due: bool)
      requires Valid()
      modifies `count, `sent, `failed, `shutdown, buffers
      ensures Valid() && SameMessage() && old(sent) <= sent
      ensures |sent| == Min(|old(sent)| + Offered(accepts), |Wire()|)
      ensures more == (count != 0 && !failed) && due == (callPending && !more)
      ensures count == 0 ==> sent == Wire()
    {
      hide Queue, Bytes, Pending, LineFree, Wire, Offered, Stop;
      DoWrite(accepts);
      NonePending();
      Associate(sent, [], []);
      more, due := count != 0 && !failed, callPending && (count == 0 || failed);
    }

    /** The event loop calls the callback of a Write. */
    method Complete()
      requires Valid() && callPending && (count == 0 || failed)
      modifies `callPending, `failed
      ensures Valid() && !callPending && count == old(count) && sent == old(sent)
    {
      hide Queue, Bytes, Pending, LineFree, Wire, Concat, Framable, FitLine;
      callPending, failed := false, false;
    }

    /** sprintf into the line buffer, with its terminating zero. */
    method SetLine(text: seq<int>)
      requires Shape() && |text| < 10 && (forall i | 0 <= i < count :: buffers[i].Data?)
      modifies line
      ensures Pending() == old(Pending()) && Bytes(Line(0, |text|)) == text
    {
      assert forall i | 0 <= i < count :: Bytes(buffers[i]) == buffers[i].bytes;
      forall i | 0 <= i < |text| {
        line[i] := text[i];
      }
      line[|text|] := 0;
      assert line[0..|text|] == text;
    }

    /** The terminating chunk. */
    method QueueEnd()
      requires Valid() && writing && !done && chunked && count <= 1
      modifies `count, `done, buffers, line
      ensures Valid() && done
    {
      AllData();
      hide Queue, Framed, LastChunk, Bytes, Pending;
      LastChunkLength();
      ghost var wire := Wire();
      assert wire == head + Framed(writes) + [];
      SetLine(LastChunk());
      Push(Line(0, 7));
      done := true;
      Associate(sent, old(Pending()), LastChunk());
      Associate(head + Framed(writes), [], LastChunk());
    }

    lemma AllData()
      requires Shape() && LineFree() && !done && count <= 1
      ensures forall i | 0 <= i < count :: buffers[i].Data?
    {}

    /** A chunk: its header line and its data. */
    method QueueChunk(data: seq<int>)
      requires Valid() && writing && !done && chunked && count <= 1
      requires 0 < |data| < 0x80000000 && |ChunkLine(|data|)| < 10
      modifies `count, `writes, `writePos, buffers, line
      ensures Valid() && writes == old(writes) + [data]
    {
      hide Queue, Framed, ChunkLine, Bytes, Pending, LinesInside;
      AllData();
      FramedSnoc(writes, data);
      ghost var text := ChunkLine(|data|);
      SetLine(ChunkLine(|data|));
      Push(Line(0, |ChunkLine(|data|)|));
      DataBytes(data);
      Push(Data(data));
      ConcatSnoc(writes, data);
      writes, writePos := writes + [data], writePos + |data|;
      Regroup(sent, old(Pending()), head, Framed(old(writes)), text, data);
    }

    /** Plain data. */
    method QueueData(data: seq<int>)
      requires Valid() && writing && !done && !chunked && count <= 1 && 0 < |data| < 0x80000000
      modifies `count, `writes, `writePos, buffers
      ensures Valid() && writes == old(writes) + [data]
    {
      hide Queue, Concat, Bytes, Pending;
      ConcatSnoc(writes, data);
      DataBytes(data);
      Push(Data(data));
      writes, writePos := writes + [data], writePos + |data|;
      Regroup(sent, old(Pending()), head, Concat(old(writes)), data, []);
      Associate(data, [], []);
      Associate(old(Pending()) + data, [], []);
      Associate(Concat(old(writes)) + data, [], []);
    }

    lemma DataBytes(data: seq<int>)
      ensures Bytes(Data(data)) == data
    {}

    /** The same bytes are added to both sides. */
    lemma Regroup(a: seq<int>, b: seq<int>, c: seq<int>, d: seq<int>, e: seq<int>, f: seq<int>)
      requires a + b == c + d + []
      ensures a + (b + e + f) == c + (d + e + f) + []
    {
      assert a + (b + e + f) == a + b + e + f;
      assert c + (d + e + f) + [] == c + d + [] + e + f;
    }

    /** Another piece of the body; an empty one ends it. `finished` tells that the
        callback runs at once, with the write error if there was one. The line
        buffer is overrun exactly by a chunk of 0x100000 bytes or more. */
    method Write(data: seq<int>, accepts: seq<int>) returns (refused: bool, finished: bool)
      requires Valid() && !overrun && |data| < 0x80000000
      modifies this, buffers, line
      ensures refused == (!old(writing) || old(count) > 1 || old(callPending) || old(done))
      ensures overrun <==> !refused && chunked && |data| >= 0x100000
      ensures !overrun ==> Valid() && chunked == old(chunked)
      ensures refused ==> SameMessage() && sent == old(sent) && count == old(count)
      ensures !refused && !overrun ==>
                && done == (data == []) && writes == old(writes) + (if data == [] then [] else [data])
                && writing && head == old(head) && writeLen == old(writeLen) && callPending == !finished
                && old(sent) <= sent && |sent| == Min(|old(sent)| + Offered(accepts), |Wire()|)
                && (count == 0 ==> sent == Wire())
                && finished == (count == 0 || old(failed) || Stop(accepts) < -1)
    {
      hide Queue, Bytes, Pending, LineFree, Wire, Framed, Concat, ChunkLine, Offered, Stop, Framable, FitLine;
      if !writing || count > 1 || callPending || done { return true, false; }
      if |data| > 0 {
        ChunkLineFits(|data|);
        if chunked && |ChunkLine(|data|)| >= line.Length {
          overrun := true;
          return false, false;
        }
      }
      Enqueue(data);
      DoWrite(accepts);
      NonePending();
      Associate(sent, [], []);
      refused, finished := false, count == 0 || failed;
      if finished {
        failed := false;
      } else {
        callPending := true;
      }
    }

    /** What is written joins the queue. */
    method Enqueue(data: seq<int>)
      requires Valid() && writing && !done && count <= 1 && |data| < 0x80000000
      requires chunked && data != [] ==> |ChunkLine(|data|)| < 10
      modifies `count, `done, `writes, `writePos, buffers, line
      ensures Valid() && done == (data == []) && writes == old(writes) + (if data == [] then [] else [data])
    {
      hide Queue, Bytes, Pending, LineFree, Wire, Framed, Concat, ChunkLine, Framable, FitLine;
      if |data| == 0 {
        if chunked { QueueEnd(); } else { QueueNothing(); }
      } else {
        if chunked { QueueChunk(data); } else { QueueData(data); }
      }
    }

    /** The end of a message that is not chunked puts nothing on the wire. */
    method QueueNothing()
      requires Valid() && writing && !done && !chunked && count <= 1
      modifies `done
      ensures Valid() && done
    {
      hide Queue, Concat, Bytes, Pending;
      done := true;
    }
  }

  lemma LastChunkLength()
    ensures |LastChunk()| == 7
  {}

  lemma {:induction false} HexLength(n: int, bound: int, k: int)
    requires 0 <= n < bound && k >= 1 && bound == Power16(k)
    ensures 1 <= |HexText(n)| <= k
    decreases k
  {
    if n >= 16 {
      if k > 1 { HexLength(n / 16, Power16(k - 1), k - 1); }
    }
  }

  function Power16(k: int): int
    requires k >= 0
  {
    if k == 0 then 1 else 16 * Power16(k - 1)
  }

  lemma {:induction false} HexLonger(n: int, k: int)
    requires k >= 0 && n >= 0 && n >= Power16(k)
    ensures |HexText(n)| > k
    decreases k
  {
    PowerPositive(k);
    if k > 0 {
      PowerPositive(k - 1);
      assert n / 16 >= Power16(k - 1);
      HexLonger(n / 16, k - 1);
    }
  }

  lemma {:induction false} PowerPositive(k: int)
    requires k >= 0
    ensures Power16(k) >= 1 && (k > 0 ==> Power16(k) >= 16)
  {
    if k > 0 { PowerPositive(k - 1); }
  }

  lemma Powers()
    ensures Power16(5) == 0x100000 && Power16(8) == 0x1_0000_0000
  {
    assert Power16(1) == 16 && Power16(2) == 0x100;
    assert Power16(3) == 0x1000 && Power16(4) == 0x10000;
    assert Power16(6) == 0x1000000 && Power16(7) == 0x10000000;
  }

  /** Exactly which chunk sizes have a header line that fits the ten bytes with
      its terminating zero. */
  lemma ChunkLineFits(n: int)
    requires n > 0
    ensures |ChunkLine(n)| < 10 <==> n < 0x100000
    ensures n < 0x80000000 ==> |HexText(n)| <= 8
  {
    Powers();
    if n < 0x100000 { HexLength(n, 0x100000, 5); } else { HexLonger(n, 5); }
    if n < 0x80000000 { HexBelow(n); }
  }

  lemma HexBelow(n: int)
    requires 0 <= n < 0x80000000
    ensures |HexText(n)| <= 8
  {
    Powers();
    HexLength(n, 0x1_0000_0000, 8);
  }

  /** The first size that does not fit. */
  lemma LineOverrun()
    ensures |ChunkLine(0x100000)| == 10 && |ChunkLine(0xFFFFF)| == 9
  {
    Powers();
    HexLonger(0x100000, 5);
    HexLength(0x100000, 0x1000000, 6);
    HexLength(0xFFFFF, 0x100000, 5);
    HexLonger(0xFFFFF, 4);
  }

  lemma FramedSnoc(ws: seq<seq<int>>, w: seq<int>)
    ensures Framed(ws + [w]) == Framed(ws) + ChunkLine(|w|) + w
  {
    assert (ws + [w])[..|ws|] == ws;
  }

  lemma ConcatSnoc(ws: seq<seq<int>>, w: seq<int>)
    ensures Concat(ws + [w]) == Concat(ws) + w
  {
    assert (ws + [w])[..|ws|] == ws;
  }
}
