/**
 How `Datapath._recv_loop` of `controller.py` cuts the byte stream of an OpenFlow connection into
 messages, however the socket splits the stream.
 */
module Framing {

  type Byte = n: nat | n < 256

  const HEADER_SIZE: nat := 8
  const MAX_FRAME: nat := 0xffff

  /** The length field of the header, at least the size of the header itself. */
  function FrameLen(buf: seq<Byte>): (n: nat)
    requires |buf| >= HEADER_SIZE
    ensures HEADER_SIZE <= n <= MAX_FRAME
  {
    var high: nat, low: nat := buf[2], buf[3];
    var n := high * 256 + low;
    if n < HEADER_SIZE then HEADER_SIZE else n
  }

  predicate Incomplete(buf: seq<Byte>) {
    |buf| < HEADER_SIZE || |buf| < FrameLen(buf)
  }

  datatype Parse = Parse(frames: seq<seq<Byte>>, rest: seq<Byte>)

  function Frames(buf: seq<Byte>): (p: Parse)
    ensures Incomplete(p.rest)
  {
    if Incomplete(buf) then Parse([], buf)
    else
      var tail := Frames(buf[FrameLen(buf)..]);
      Parse([buf[..FrameLen(buf)]] + tail.frames, tail.rest)
  }

  function Join(parts: seq<seq<Byte>>): seq<Byte> {
    if parts == [] then [] else parts[0] + Join(parts[1..])
  }

  lemma Assoc<T>(a: seq<T>, b: seq<T>, c: seq<T>)
    ensures (a + b) + c == a + (b + c)
  {
  }

  lemma Cut<T>(s: seq<T>, n: nat)
    requires n <= |s|
    ensures s[..n] + s[n..] == s
  {
  }

  lemma JoinCons(f: seq<Byte>, parts: seq<seq<Byte>>)
    ensures Join([f] + parts) == f + Join(parts)
  {
    assert ([f] + parts)[1..] == parts;
  }

  // ---------------------------------------------------------------- what the frames are

  predicate IsFrame(f: seq<Byte>) {
    |f| >= HEADER_SIZE && |f| == FrameLen(f)
  }

  /** The frames and the leftover, in order, are the stream; the leftover holds no complete frame. */
  lemma {:induction false} FramesAreTheStream(buf: seq<Byte>)
    ensures Join(Frames(buf).frames) + Frames(buf).rest == buf
    ensures forall f :: f in Frames(buf).frames ==> IsFrame(f)
  {
    if !Incomplete(buf) {
      var n := FrameLen(buf);
      FramesAreTheStream(buf[n..]);
      var tail := Frames(buf[n..]);
      JoinCons(buf[..n], tail.frames);
      Assoc(buf[..n], Join(tail.frames), tail.rest);
      Cut(buf, n);
    }
  }

  /** No other way to cut the stream has that property. */
  lemma {:induction false} FramesAreUnique(buf: seq<Byte>, frames: seq<seq<Byte>>, rest: seq<Byte>)
    requires Join(frames) + rest == buf
    requires forall f :: f in frames ==> IsFrame(f)
    requires Incomplete(rest)
    ensures Frames(buf) == Parse(frames, rest)
    decreases |frames|
  {
    if frames == [] {
      assert buf == rest;
    } else {
      var f, tail := frames[0], Join(frames[1..]) + rest;
      assert f in frames;
      assert buf == f + tail;
      assert FrameLen(buf) == FrameLen(f);
      assert buf[|f|..] == tail && buf[..|f|] == f;
      FramesAreUnique(tail, frames[1..], rest);
    }
  }

  lemma FirstFrameStays(buf: seq<Byte>, more: seq<Byte>)
    requires !Incomplete(buf)
    ensures !Incomplete(buf + more) && FrameLen(buf + more) == FrameLen(buf)
    ensures (buf + more)[..FrameLen(buf)] == buf[..FrameLen(buf)]
    ensures (buf + more)[FrameLen(buf)..] == buf[FrameLen(buf)..] + more
  {
  }

  lemma {:induction false} FramesAppend(buf: seq<Byte>, more: seq<Byte>)
    ensures var p := Frames(buf);
      var q := Frames(p.rest + more);
      Frames(buf + more) == Parse(p.frames + q.frames, q.rest)
  {
    if !Incomplete(buf) {
      var n := FrameLen(buf);
      FramesAppend(buf[n..], more);
      FirstFrameStays(buf, more);
      var tail := Frames(buf[n..]);
      Assoc([buf[..n]], tail.frames, Frames(tail.rest + more).frames);
    }
  }

  // ---------------------------------------------------------------- the loop

  /** The buffer between two reads, and how much of the frame in it is missing. */
  datatype Loop = Loop(buf: seq<Byte>, remaining: nat)

  const START := Loop([], HEADER_SIZE)

  function ReadLen(l: Loop): nat {
    if l.remaining > HEADER_SIZE then l.remaining else HEADER_SIZE
  }

  function Feed(l: Loop, chunk: seq<Byte>): Loop {
    var p := Frames(l.buf + chunk);
    Loop(p.rest,
         if |p.rest| >= HEADER_SIZE then FrameLen(p.rest) - |p.rest|
         else if p.frames == [] then l.remaining
         else HEADER_SIZE)
  }

  function FeedAll(l: Loop, chunks: seq<seq<Byte>>): Loop {
    if chunks == [] then l else Feed(FeedAll(l, chunks[..|chunks| - 1]), chunks[|chunks| - 1])
  }

  /** The messages dispatched for the chunks. */
  function Dispatched(l: Loop, chunks: seq<seq<Byte>>): seq<seq<Byte>> {
    if chunks == [] then []
    else
      var front, last := chunks[..|chunks| - 1], chunks[|chunks| - 1];
      Dispatched(l, front) + Frames(FeedAll(l, front).buf + last).frames
  }

  lemma FeedOne(l: Loop, chunks: seq<seq<Byte>>, chunk: seq<Byte>)
    ensures FeedAll(l, chunks + [chunk]) == Feed(FeedAll(l, chunks), chunk)
    ensures Dispatched(l, chunks + [chunk]) == Dispatched(l, chunks) + Frames(FeedAll(l, chunks).buf + chunk).frames
  {
    assert (chunks + [chunk])[..|chunks|] == chunks;
  }

  lemma {:induction false} JoinAppend(parts: seq<seq<Byte>>, last: seq<Byte>)
    ensures Join(parts + [last]) == Join(parts) + last
  {
    if parts == [] {
      assert [last][1..] == [];
    } else {
      JoinAppend(parts[1..], last);
      assert (parts + [last])[1..] == parts[1..] + [last];
    }
  }

  /**
   The messages and the leftover depend on the bytes received alone, not on how the socket splits
   them.
   */
  lemma {:induction false} ChunksDoNotMatter(chunks: seq<seq<Byte>>)
    ensures Dispatched(START, chunks) == Frames(Join(chunks)).frames
    ensures FeedAll(START, chunks).buf == Frames(Join(chunks)).rest
  {
    if chunks != [] {
      var front, last := chunks[..|chunks| - 1], chunks[|chunks| - 1];
      ChunksDoNotMatter(front);
      assert chunks == front + [last];
      JoinAppend(front, last);
      FramesAppend(Join(front), last);
      assert FeedAll(START, chunks) == Feed(FeedAll(START, front), last);
    }
  }

  // ---------------------------------------------------------------- the bound on the buffer

  predicate LoopOk(l: Loop) {
    && Incomplete(l.buf)
    && l.remaining == if |l.buf| < HEADER_SIZE then HEADER_SIZE else FrameLen(l.buf) - |l.buf|
  }

  /** No chunk is longer than what the loop asked for. */
  predicate Fits(l: Loop, chunks: seq<seq<Byte>>) {
    chunks != [] ==>
      var front := chunks[..|chunks| - 1];
      Fits(l, front) && |chunks[|chunks| - 1]| <= ReadLen(FeedAll(l, front))
  }

  lemma {:induction false} LoopStaysOk(chunks: seq<seq<Byte>>)
    ensures LoopOk(FeedAll(START, chunks))
  {
    if chunks != [] {
      var front, last := chunks[..|chunks| - 1], chunks[|chunks| - 1];
      LoopStaysOk(front);
      FramesAreTheStream(FeedAll(START, front).buf + last);
    }
  }

  /** The buffer never holds more than the longest frame and seven bytes. */
  lemma BufferIsBounded(chunks: seq<seq<Byte>>, chunk: seq<Byte>)
    requires Fits(START, chunks + [chunk])
    ensures |FeedAll(START, chunks).buf + chunk| <= MAX_FRAME + HEADER_SIZE - 1
  {
    LoopStaysOk(chunks);
    assert (chunks + [chunk])[..|chunks|] == chunks;
  }

  function Zeros(n: nat): seq<Byte> {
    seq(n, i => 0)
  }

  /** Eight bytes that announce the longest frame. */
  function LongestHeader(): seq<Byte> {
    [0, 0, 255, 255, 0, 0, 0, 0]
  }

  lemma FeedUnfinished(l: Loop, chunk: seq<Byte>)
    requires |l.buf + chunk| >= HEADER_SIZE && Incomplete(l.buf + chunk)
    ensures Feed(l, chunk) == Loop(l.buf + chunk, FrameLen(l.buf + chunk) - |l.buf + chunk|)
  {
  }

  /**
   A run of the loop reaches the bound: the header of the longest frame arrives, then all of that
   frame but one byte, then eight bytes.
   */
  lemma BoundIsReached()
    ensures exists chunks, chunk ::
      Fits(START, chunks + [chunk]) && |FeedAll(START, chunks).buf + chunk| == MAX_FRAME + HEADER_SIZE - 1
  {
    var body: seq<Byte> := Zeros(MAX_FRAME - HEADER_SIZE - 1);
    var last: seq<Byte> := Zeros(HEADER_SIZE);
    var one, two := [LongestHeader()], [LongestHeader(), body];
    FeedUnfinished(START, LongestHeader());
    assert one[..0] == [];
    assert [] + LongestHeader() == LongestHeader();
    assert FeedAll(START, one) == Loop(LongestHeader(), MAX_FRAME - HEADER_SIZE);
    FeedUnfinished(FeedAll(START, one), body);
    assert two[..1] == one;
    assert FeedAll(START, two) == Loop(LongestHeader() + body, 1);
    assert Fits(START, one) && Fits(START, two);
    assert (two + [last])[..2] == two;
    assert Fits(START, two + [last]);
    assert |FeedAll(START, two).buf + last| == MAX_FRAME + HEADER_SIZE - 1;
  }

  // ---------------------------------------------------------------- messages on the wire

  /**
   Bytes 2 and 3 of a message are its length, the high byte first. A message that announces less
   than a header is taken as a header alone.
   */
  predicate IsMessage(m: seq<Byte>) {
    && |m| >= 8
    && var high: nat, low: nat := m[2], m[3];
       |m| == high * 256 + low || (|m| == 8 && high * 256 + low < 8)
  }

  ghost predicate PartOfMessage(part: seq<Byte>) {
    exists m :: IsMessage(m) && part < m
  }

  /** The stream is these messages one after the other, then a part of one more. */
  ghost predicate Carries(stream: seq<Byte>, messages: seq<seq<Byte>>, part: seq<Byte>) {
    && stream == Join(messages) + part
    && (forall m :: m in messages ==> IsMessage(m))
    && PartOfMessage(part)
  }

  lemma PartIsIncomplete(part: seq<Byte>)
    requires PartOfMessage(part)
    ensures Incomplete(part)
  {
    var m :| IsMessage(m) && part < m;
    assert |part| >= 8 ==> part[2] == m[2] && part[3] == m[3];
  }

  /** Every stream of messages is cut into exactly those messages, and the part of the next one is kept. */
  lemma FramesAreTheMessages(stream: seq<Byte>, messages: seq<seq<Byte>>, part: seq<Byte>)
    requires Carries(stream, messages, part)
    ensures Frames(stream) == Parse(messages, part)
  {
    forall m | m in messages ensures IsFrame(m) {
      assert IsMessage(m);
    }
    PartIsIncomplete(part);
    FramesAreUnique(stream, messages, part);
  }

  /** What is left over is always a part of some message. */
  lemma IncompleteIsPart(buf: seq<Byte>)
    requires Incomplete(buf)
    ensures PartOfMessage(buf)
  {
    var zeros: seq<Byte> := if |buf| < 8 then Zeros(8 - |buf|) else [];
    var start := buf + zeros;
    var more: seq<Byte> := Zeros(FrameLen(start) - if |buf| < 8 then 8 else |buf|);
    assert IsMessage(start + more) && buf < start + more;
  }

  /** Any stream at all can be read like that. */
  lemma EveryStreamIsCarried(stream: seq<Byte>)
    ensures Carries(stream, Frames(stream).frames, Frames(stream).rest)
  {
    FramesAreTheStream(stream);
    IncompleteIsPart(Frames(stream).rest);
    forall f | f in Frames(stream).frames ensures IsMessage(f) {
      assert IsFrame(f);
    }
  }

  // ---------------------------------------------------------------- the loop as the code runs it

  /**
   What `recv` gives: bytes, a time-out, or the end of the stream (no bytes, or an error). `dies`:
   the connection's state became DEAD by the time this arrival was handled.
   */
  datatype Arrival = Data(chunk: seq<Byte>, dies: bool) | TimedOut(dies: bool) | Closed

  /** The chunks that are read before the loop ends. */
  function Received(arrivals: seq<Arrival>): seq<seq<Byte>> {
    if arrivals == [] then []
    else match arrivals[0]
      case Closed => []
      case TimedOut(dies) => if dies then [] else Received(arrivals[1..])
      case Data(chunk, dies) =>
        if chunk == [] then [] else if dies then [chunk] else [chunk] + Received(arrivals[1..])
  }

  /** After this arrival the loop reads again. */
  predicate GoesOn(a: Arrival) {
    match a
    case Data(chunk, dies) => chunk != [] && !dies
    case TimedOut(dies) => !dies
    case Closed => false
  }

  /**
   A time-out adds nothing, and bytes are added at the end, also when the connection dies while they
   are handled; nothing is read after the first arrival that ends the loop.
   */
  lemma {:induction false} ReceivedExactly(before: seq<Arrival>, a: Arrival, after: seq<Arrival>)
    requires forall b :: b in before ==> GoesOn(b)
    ensures var got := Received(before) + if a.Data? && a.chunk != [] then [a.chunk] else [];
      if GoesOn(a) then Received(before + [a]) == got else Received(before + [a] + after) == got
  {
    if before == [] {
      assert [a][1..] == [];
      assert ([a] + after)[0] == a;
      assert before + [a] + after == [a] + after;
      assert before + [a] == [a];
    } else {
      var b := before[0];
      assert GoesOn(b);
      ReceivedExactly(before[1..], a, after);
      assert (before + [a])[1..] == before[1..] + [a];
      assert (before + [a] + after)[1..] == before[1..] + [a] + after;
      assert Received(before) == (if b.Data? then [b.chunk] else []) + Received(before[1..]);
    }
  }

  method RecvLoop(arrivals: seq<Arrival>) returns (messages: seq<seq<Byte>>, buf: seq<Byte>, remaining: nat)
    ensures messages == Frames(Join(Received(arrivals))).frames
    ensures buf == Frames(Join(Received(arrivals))).rest
    ensures Loop(buf, remaining) == FeedAll(START, Received(arrivals))
    ensures Carries(Join(Received(arrivals)), messages, buf)
    ensures forall sent, part :: Carries(Join(Received(arrivals)), sent, part) ==> messages == sent && buf == part
  {
    ghost var chunks := [];
    buf, messages, remaining := [], [], HEADER_SIZE;
    var dead, i := false, 0;
    while !dead && i < |arrivals|
      invariant i <= |arrivals|
      invariant Loop(buf, remaining) == FeedAll(START, chunks) && messages == Dispatched(START, chunks)
      invariant Received(arrivals) == chunks + if dead then [] else Received(arrivals[i..])
      decreases |arrivals| - i
    {
      var ret := arrivals[i];
      assert arrivals[i..][0] == ret && arrivals[i..][1..] == arrivals[i + 1..];
      i := i + 1;
      match ret {
        case Closed => break;
        case TimedOut(dies) => dead := dies;
        case Data(chunk, dies) =>
          if chunk == [] {
            break;
          }
          var got: seq<seq<Byte>>;
          got, buf, remaining := Dispatch(buf + chunk, remaining);
          FeedOne(START, chunks, chunk);
          Assoc(chunks, [chunk], Received(arrivals[i..]));
          chunks := chunks + [chunk];
          messages := messages + got;
          dead := dies;
      }
    }
    assert Received(arrivals) == chunks;
    ChunksDoNotMatter(chunks);
    EveryStreamIsCarried(Join(chunks));
    forall sent, part | Carries(Join(chunks), sent, part) ensures messages == sent && buf == part {
      FramesAreTheMessages(Join(chunks), sent, part);
    }
  }

  /** The inner loop: every complete frame of the buffer. */
  method Dispatch(all: seq<Byte>, was: nat) returns (messages: seq<seq<Byte>>, buf: seq<Byte>, remaining: nat)
    ensures messages == Frames(all).frames && buf == Frames(all).rest
    ensures remaining == if |buf| >= HEADER_SIZE then FrameLen(buf) - |buf|
                         else if messages == [] then was else HEADER_SIZE
  {
    messages, buf, remaining := [], all, was;
    while |buf| >= HEADER_SIZE
      invariant Frames(all) == Parse(messages + Frames(buf).frames, Frames(buf).rest)
      invariant |buf| < HEADER_SIZE ==> remaining == if messages == [] then was else HEADER_SIZE
      decreases |buf|
    {
      var msgLen := HeaderLength(buf);
      if |buf| < msgLen {
        remaining := msgLen - |buf|;
        break;
      }
      ghost var tail := Frames(buf[msgLen..]);
      assert Frames(buf) == Parse([buf[..msgLen]] + tail.frames, tail.rest);
      Assoc(messages, [buf[..msgLen]], tail.frames);
      messages := messages + [buf[..msgLen]];
      buf := buf[msgLen..];
      remaining := HEADER_SIZE;
    }
    assert Frames(buf) == Parse([], buf);
    assert messages + [] == messages;
  }

  method HeaderLength(buf: seq<Byte>) returns (msgLen: nat)
    requires |buf| >= HEADER_SIZE
    ensures msgLen == FrameLen(buf)
  {
    var high: nat, low: nat := buf[2], buf[3];
    msgLen := high * 256 + low;
    if msgLen < HEADER_SIZE {
      msgLen := HEADER_SIZE;
    }
  }
}
