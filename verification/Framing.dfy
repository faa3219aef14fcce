/**
 * Cutting a byte stream into frames, and what the two read callbacks make of a stream that arrives in
 * arbitrary pieces through a buffer of fixed size.
 */
module Framing {
  import opened Bytes
  import opened Frame

  datatype Side = Client | Server

  /** The client ignores the reply bit of the command byte, the simulator does not. */
  function CommandOf(side: Side, cmd: byte): byte
  {
    match side
    case Client => cmd % 128
    case Server => cmd
  }

  datatype Verdict = NeedMore(missing: nat) | Bad | Unknown | Accept(len: nat)

  /** What edio24_cli_verify_tcp and edio24_svr_process_tcp say about the bytes buffered so far. */
  function Judge(side: Side, s: seq<byte>): (v: Verdict)
    ensures v.Accept? ==> 7 <= v.len <= |s| && v.len == FrameLen(s)
  {
    if |s| < 7 then NeedMore(7 - |s|)
    else if FrameLen(s) > |s| then NeedMore(FrameLen(s) - |s|)
    else match side
      case Client =>
        if !Verifies(s) then Bad
        else if !IsKnown(CommandOf(side, s[1])) then Unknown
        else Accept(FrameLen(s))
      case Server =>
        if !IsKnown(CommandOf(side, s[1])) then Unknown
        else if !Verifies(s) then Bad
        else Accept(FrameLen(s))
  }

  /** The opcodes both programs answer to: the cases of the two switches. */
  predicate Listed(cmd: int)
  {
    || cmd == 0x00 || cmd == 0x02 || cmd == 0x03 || cmd == 0x04 || cmd == 0x05
    || cmd == 0x30 || cmd == 0x31
    || cmd == 0x40 || cmd == 0x41 || cmd == 0x42 || cmd == 0x43
    || cmd == 0x44 || cmd == 0x45 || cmd == 0x46 || cmd == 0x47
    || cmd == 0x50 || cmd == 0x52 || cmd == 0x54
  }

  /**
   * The verdict on a complete head frame, spelled out on its bytes: the client looks at the checksum
   * first and ignores the reply bit, the simulator looks at the opcode first.
   */
  lemma VerdictOnFrame(side: Side, s: seq<byte>)
    requires |s| >= 7 && 7 + s[4] as int + 256 * s[5] as int <= |s|
    ensures var n := 7 + s[4] as int + 256 * s[5] as int;
      var sound := Sum(s[..n]) % 256 == 0xFF;
      var listed := Listed(if side == Client then s[1] as int % 0x80 else s[1] as int);
      Judge(side, s) ==
        if sound && listed then Accept(n)
        else if sound then Unknown
        else if listed || side == Client then Bad
        else Unknown
    ensures !Listed(0x51) && !Listed(0x60)
  {
    hide Sum;
    VerifiesIsWholeSum(s);
  }

  /**
   * The missing bytes reported are those to the shortest frame, or to the end of the frame once its count
   * is looked at. With fewer the verdict is never settled; with as many it is, if seven bytes were there.
   */
  lemma MissingIsLeast(side: Side, s: seq<byte>, n: nat)
    requires Judge(side, s) == NeedMore(n)
    ensures n == if |s| < 7 then 7 - |s| else 7 + s[4] as int + 256 * s[5] as int - |s|
    ensures n > 0
    ensures forall x: seq<byte> :: |x| < n ==> Judge(side, s + x).NeedMore?
    ensures |s| >= 7 ==> forall x: seq<byte> :: |x| >= n ==> !Judge(side, s + x).NeedMore?
  {
    hide Verifies, IsKnown;
    forall x: seq<byte>
      ensures |s| >= 6 ==> FrameLen(s + x) == FrameLen(s)
    {
    }
  }

  lemma EmptyNeedsMore(side: Side)
    ensures Judge(side, []).NeedMore?
  {
  }

  /** Once the head frame is complete, the verdict depends on that frame alone. */
  lemma JudgeIsStable(side: Side, s: seq<byte>, x: seq<byte>)
    requires !Judge(side, s).NeedMore?
    ensures Judge(side, s + x) == Judge(side, s) == Judge(side, s[..FrameLen(s)])
  {
    var n := FrameLen(s);
    assert (s + x)[..n - 1] == s[..n - 1] == s[..n][..n - 1];
  }

  /** The head frame can be taken from s, and it fits a buffer of cap bytes. */
  predicate Fits(side: Side, cap: nat, s: seq<byte>)
  {
    Judge(side, s).Accept? && Judge(side, s).len <= cap
  }

  lemma FitsIsStable(side: Side, cap: nat, s: seq<byte>, x: seq<byte>)
    requires Fits(side, cap, s)
    ensures Fits(side, cap, s + x) && Judge(side, s + x) == Judge(side, s)
  {
    JudgeIsStable(side, s, x);
  }

  predicate IsFrame(side: Side, cap: nat, f: seq<byte>)
  {
    Judge(side, f) == Accept(|f|) && |f| <= cap
  }

  ghost predicate AllFrames(side: Side, cap: nat, fs: seq<seq<byte>>)
  {
    forall i :: 0 <= i < |fs| ==> IsFrame(side, cap, fs[i])
  }

  datatype Cut = Cut(frames: seq<seq<byte>>, rest: seq<byte>)

  /** Take acceptable frames off the front as long as there are any. */
  function CutStream(side: Side, cap: nat, s: seq<byte>): Cut
    decreases |s|
  {
    if Fits(side, cap, s) then
      var n := Judge(side, s).len;
      var c := CutStream(side, cap, s[n..]);
      Cut([s[..n]] + c.frames, c.rest)
    else
      Cut([], s)
  }

  function Onto(fs: seq<seq<byte>>, c: Cut): Cut
  {
    Cut(fs + c.frames, c.rest)
  }

  lemma DrainStops(side: Side, cap: nat, s: seq<byte>)
    requires !Judge(side, s).Accept?
    ensures CutStream(side, cap, s) == Cut([], s)
  {
  }

  /** One round of the drain loop: a frame was accepted and removed. */
  lemma DrainRound(side: Side, cap: nat, done: seq<seq<byte>>, s: seq<byte>)
    requires |s| <= cap && Judge(side, s).Accept?
    ensures var n := Judge(side, s).len;
      Onto(done, CutStream(side, cap, s)) == Onto(done + [s[..n]], CutStream(side, cap, s[n..]))
  {
    var n := Judge(side, s).len;
    var c := CutStream(side, cap, s[n..]);
    assert done + ([s[..n]] + c.frames) == done + [s[..n]] + c.frames;
  }

  /**
   * The declarative reading: frames followed by rest is the stream, each frame is complete, verified,
   * known and small enough, and the rest does not start with another such frame.
   */
  ghost predicate Segmentation(side: Side, cap: nat, s: seq<byte>, c: Cut)
  {
    && Flatten(c.frames) + c.rest == s
    && AllFrames(side, cap, c.frames)
    && !Fits(side, cap, c.rest)
  }

  /** CutStream computes the one and only segmentation of a stream. */
  lemma {:induction false} CutIsTheSegmentation(side: Side, cap: nat, s: seq<byte>, c: Cut)
    ensures Segmentation(side, cap, s, c) <==> c == CutStream(side, cap, s)
    decreases |s|
  {
    CutSegments(side, cap, s);
    if Segmentation(side, cap, s, c) {
      SegmentationUnique(side, cap, s, c);
    }
  }

  lemma HeadIsFrame(side: Side, cap: nat, s: seq<byte>)
    requires Fits(side, cap, s)
    ensures 7 <= Judge(side, s).len <= |s| && IsFrame(side, cap, s[..Judge(side, s).len])
  {
    JudgeIsStable(side, s, []);
  }

  lemma SegmentationGrows(side: Side, cap: nat, f: seq<byte>, s: seq<byte>, c: Cut)
    requires IsFrame(side, cap, f) && Segmentation(side, cap, s, c)
    ensures Segmentation(side, cap, f + s, Onto([f], c))
  {
    hide IsFrame, Fits;
    var frames := [f] + c.frames;
    assert frames[1..] == c.frames;
    assert f + (Flatten(c.frames) + c.rest) == f + Flatten(c.frames) + c.rest;
  }

  lemma {:induction false} CutSegments(side: Side, cap: nat, s: seq<byte>)
    ensures Segmentation(side, cap, s, CutStream(side, cap, s))
    decreases |s|
  {
    hide Judge, IsFrame, CutStream;
    if Fits(side, cap, s) {
      var n := Judge(side, s).len;
      HeadIsFrame(side, cap, s);
      hide Fits, Segmentation;
      CutSegments(side, cap, s[n..]);
      SegmentationGrows(side, cap, s[..n], s[n..], CutStream(side, cap, s[n..]));
      CutFirst(side, cap, s[..n], s[n..]);
      assert s == s[..n] + s[n..];
    } else {
      CutOfStuck(side, cap, s);
      assert [] + s == s;
    }
  }

  lemma {:induction false} SegmentationUnique(side: Side, cap: nat, s: seq<byte>, c: Cut)
    requires Segmentation(side, cap, s, c)
    ensures c == CutStream(side, cap, s)
    decreases |c.frames|
  {
    hide Judge, IsFrame, Fits, CutStream;
    if c.frames != [] {
      var f := c.frames[0];
      var tail := Flatten(c.frames[1..]) + c.rest;
      assert s == f + tail;
      CutFirst(side, cap, f, tail);
      SegmentationUnique(side, cap, tail, Cut(c.frames[1..], c.rest));
      assert c.frames == [f] + c.frames[1..];
    } else {
      assert c.rest == s;
      CutOfStuck(side, cap, s);
    }
  }

  /** Cutting can stop and resume anywhere: what is cut off s stays cut off when more bytes follow. */
  lemma {:induction false} CutResumes(side: Side, cap: nat, s: seq<byte>, x: seq<byte>)
    ensures var c := CutStream(side, cap, s);
      var d := CutStream(side, cap, c.rest + x);
      CutStream(side, cap, s + x) == Cut(c.frames + d.frames, d.rest)
    decreases |s|
  {
    hide Judge, IsFrame, CutStream;
    if Fits(side, cap, s) {
      var n := Judge(side, s).len;
      HeadIsFrame(side, cap, s);
      hide Fits;
      var f, t := s[..n], s[n..];
      CutResumes(side, cap, t, x);
      CutFirst(side, cap, f, t);
      CutFirst(side, cap, f, t + x);
      assert s == f + t && s + x == f + (t + x);
      var c := CutStream(side, cap, t);
      var d := CutStream(side, cap, c.rest + x);
      assert [f] + (c.frames + d.frames) == ([f] + c.frames) + d.frames;
    } else {
      CutOfStuck(side, cap, s);
      var d := CutStream(side, cap, s + x);
      assert [] + d.frames == d.frames;
    }
  }

  // ----- The read callbacks

  /** One callback: the frames it consumed, the bytes it left in the buffer, the bytes it dropped. */
  datatype Recv = Recv(frames: seq<seq<byte>>, buf: seq<byte>, dropped: seq<byte>)

  /** The copy-and-process loop, entered with buf in the buffer; it stalls when there is no room to copy into. */
  function Fill(side: Side, cap: nat, buf: seq<byte>, chunk: seq<byte>): Recv
    requires |buf| <= cap
    decreases |chunk|
  {
    var room := cap - |buf|;
    var n := if |chunk| <= room then |chunk| else room;
    if n == 0 then
      Recv([], buf, chunk)
    else
      var c := CutStream(side, cap, buf + chunk[..n]);
      CutShrinks(side, cap, buf + chunk[..n]);
      var r := Fill(side, cap, c.rest, chunk[n..]);
      After(c.frames, r)
  }

  /** What r delivers, with fs consumed before it. */
  function After(fs: seq<seq<byte>>, r: Recv): Recv
  {
    Recv(fs + r.frames, r.buf, r.dropped)
  }

  lemma AfterAfter(a: seq<seq<byte>>, b: seq<seq<byte>>, r: Recv)
    ensures After(a, After(b, r)) == After(a + b, r)
    ensures After([], r) == r
  {
    assert a + (b + r.frames) == a + b + r.frames;
    assert [] + r.frames == r.frames;
  }

  /** One round of the copy-and-process loop: n bytes are copied behind now, and the result is cut. */
  lemma FillRound(side: Side, cap: nat, now: seq<byte>, chunk: seq<byte>, n: nat, c: Cut)
    requires |now| <= cap && 0 < n <= |chunk|
    requires n == if |chunk| <= cap - |now| then |chunk| else cap - |now|
    requires c == CutStream(side, cap, now + chunk[..n])
    ensures |c.rest| <= cap
    ensures Fill(side, cap, now, chunk) == After(c.frames, Fill(side, cap, c.rest, chunk[n..]))
  {
    CutShrinks(side, cap, now + chunk[..n]);
  }

  /** The loop ends when all is copied or the buffer is full. */
  lemma FillEnds(side: Side, cap: nat, fs: seq<seq<byte>>, now: seq<byte>, chunk: seq<byte>)
    requires |now| <= cap && (chunk == [] || |now| == cap)
    ensures After(fs, Fill(side, cap, now, chunk)) == Recv(fs, now, chunk)
  {
    assert fs + [] == fs;
  }

  lemma CutShrinks(side: Side, cap: nat, s: seq<byte>)
    ensures |CutStream(side, cap, s).rest| <= |s|
  {
    CutSegments(side, cap, s);
  }

  /** on_tcp_cli_read and on_tcp_svr_read, seen from the buffer: process, then copy and process in turns. */
  function ReadChunk(side: Side, cap: nat, buf: seq<byte>, chunk: seq<byte>): (r: Recv)
    requires |buf| <= cap
  {
    if chunk == [] then
      Recv([], buf, [])
    else
      var c := CutStream(side, cap, buf);
      CutShrinks(side, cap, buf);
      var r := Fill(side, cap, c.rest, chunk);
      After(c.frames, r)
  }

  /** What a buffer of cap bytes keeps of an uncut rest. */
  function Kept(cap: nat, rest: seq<byte>): seq<byte>
  {
    if |rest| <= cap then rest else rest[..cap]
  }

  function Lost(cap: nat, rest: seq<byte>): seq<byte>
  {
    if |rest| <= cap then [] else rest[cap..]
  }

  /** Bytes behind a full buffer cannot make its head acceptable. */
  lemma FullBufferStaysStuck(side: Side, cap: nat, buf: seq<byte>, x: seq<byte>)
    requires |buf| >= cap && !Fits(side, cap, buf)
    ensures !Fits(side, cap, buf + x)
  {
    if Fits(side, cap, buf + x) {
      var n := Judge(side, buf + x).len;
      JudgeIsStable(side, buf + x, []);
      assert (buf + x)[..n] == buf[..n];
      assert buf == buf[..n] + buf[n..];
      JudgeIsStable(side, buf[..n], buf[n..]);
    }
  }

  /** What a cut leaves in and behind a buffer of cap bytes. */
  function FromCut(cap: nat, c: Cut): Recv
  {
    Recv(c.frames, Kept(cap, c.rest), Lost(cap, c.rest))
  }

  lemma CutResumesOnto(side: Side, cap: nat, s: seq<byte>, x: seq<byte>)
    ensures var c := CutStream(side, cap, s);
      CutStream(side, cap, s + x) == Onto(c.frames, CutStream(side, cap, c.rest + x))
    ensures !Fits(side, cap, CutStream(side, cap, s).rest) && |CutStream(side, cap, s).rest| <= |s|
  {
    hide Judge, IsFrame, CutStream;
    CutResumes(side, cap, s, x);
    CutSegments(side, cap, s);
  }

  lemma CutOfStuck(side: Side, cap: nat, s: seq<byte>)
    requires !Fits(side, cap, s)
    ensures CutStream(side, cap, s) == Cut([], s)
  {
  }

  lemma {:induction false} FillCuts(side: Side, cap: nat, buf: seq<byte>, chunk: seq<byte>)
    requires |buf| <= cap && !Fits(side, cap, buf)
    ensures Fill(side, cap, buf, chunk) == FromCut(cap, CutStream(side, cap, buf + chunk))
    decreases |chunk|
  {
    hide Fits, CutStream, Fill;
    var room := cap - |buf|;
    var n := if |chunk| <= room then |chunk| else room;
    if chunk == [] {
      assert buf + chunk == buf;
      CutOfStuck(side, cap, buf);
      FillEnds(side, cap, [], buf, chunk);
      AfterAfter([], [], Fill(side, cap, buf, chunk));
    } else if n == 0 {
      FullBufferStaysStuck(side, cap, buf, chunk);
      CutOfStuck(side, cap, buf + chunk);
      FillEnds(side, cap, [], buf, chunk);
      AfterAfter([], [], Fill(side, cap, buf, chunk));
      assert (buf + chunk)[..cap] == buf && (buf + chunk)[cap..] == chunk;
    } else {
      var s := buf + chunk[..n];
      var c := CutStream(side, cap, s);
      CutResumesOnto(side, cap, s, chunk[n..]);
      FillRound(side, cap, buf, chunk, n, c);
      FillCuts(side, cap, c.rest, chunk[n..]);
      assert s + chunk[n..] == buf + chunk;
    }
  }

  /** Any number of callbacks, starting with an empty buffer. */
  function ReadAll(side: Side, cap: nat, chunks: seq<seq<byte>>): (r: Recv)
    ensures |r.buf| <= cap
  {
    if chunks == [] then
      Recv([], [], [])
    else
      var n := |chunks| - 1;
      var r := ReadAll(side, cap, chunks[..n]);
      var o := ReadChunk(side, cap, r.buf, chunks[n]);
      ReadChunkKeepsSize(side, cap, r.buf, chunks[n]);
      Recv(r.frames + o.frames, o.buf, r.dropped + o.dropped)
  }

  lemma ReadChunkKeepsSize(side: Side, cap: nat, buf: seq<byte>, chunk: seq<byte>)
    requires |buf| <= cap
    ensures |ReadChunk(side, cap, buf, chunk).buf| <= cap
  {
    if chunk != [] {
      CutSegments(side, cap, buf);
      FillCuts(side, cap, CutStream(side, cap, buf).rest, chunk);
    }
  }

  /** The state a reader is in after the stream s, however s was cut into pieces. */
  function Received(side: Side, cap: nat, s: seq<byte>): Recv
  {
    FromCut(cap, CutStream(side, cap, s))
  }

  /** After any stream the buffer holds nothing that could be consumed. */
  lemma ReceivedIsDrained(side: Side, cap: nat, s: seq<byte>)
    ensures var r := Received(side, cap, s);
      && CutStream(side, cap, s) == Cut(r.frames, r.buf + r.dropped)
      && |r.buf| <= cap && (r.dropped != [] ==> |r.buf| == cap)
      && !Fits(side, cap, r.buf) && !Fits(side, cap, r.buf + r.dropped)
  {
    hide Judge;
    var c := CutStream(side, cap, s);
    var r := Received(side, cap, s);
    CutSegments(side, cap, s);
    assert c.rest == r.buf + r.dropped;
    if Fits(side, cap, r.buf) {
      FitsIsStable(side, cap, r.buf, r.dropped);
    }
  }

  lemma ReadChunkOfDrained(side: Side, cap: nat, buf: seq<byte>, chunk: seq<byte>)
    requires |buf| <= cap && !Fits(side, cap, buf)
    ensures ReadChunk(side, cap, buf, chunk) == Received(side, cap, buf + chunk)
  {
    if chunk == [] {
      assert buf + chunk == buf;
    } else {
      FillCuts(side, cap, buf, chunk);
      var r := Fill(side, cap, buf, chunk);
      assert [] + r.frames == r.frames;
    }
  }

  /** One callback takes the state after s to the state after s followed by the chunk, for all bytes. */
  lemma ReadChunkContinues(side: Side, cap: nat, s: seq<byte>, chunk: seq<byte>)
    ensures var r := Received(side, cap, s);
      var o := ReadChunk(side, cap, r.buf, chunk);
      Received(side, cap, s + chunk) == Recv(r.frames + o.frames, o.buf, r.dropped + o.dropped)
  {
    var r := Received(side, cap, s);
    ReceivedIsDrained(side, cap, s);
    ReadChunkOfDrained(side, cap, r.buf, chunk);
    CutResumes(side, cap, s, chunk);
    if r.dropped == [] {
      assert r.buf + r.dropped + chunk == r.buf + chunk;
      var o := ReadChunk(side, cap, r.buf, chunk);
      assert [] + o.dropped == o.dropped;
    } else {
      FullBufferStaysStuck(side, cap, r.buf, chunk);
      FullBufferStaysStuck(side, cap, r.buf + r.dropped, chunk);
      assert (r.buf + chunk)[..cap] == r.buf && (r.buf + chunk)[cap..] == chunk;
      var rest := r.buf + r.dropped + chunk;
      assert rest[..cap] == r.buf && rest[cap..] == r.dropped + chunk;
      assert r.frames + [] == r.frames;
    }
  }

  lemma NothingReceived(side: Side, cap: nat)
    ensures Received(side, cap, []) == Recv([], [], [])
  {
  }

  /**
   * Fragmentation independence, for every byte stream, garbage included, every way of cutting it into
   * chunks and every buffer size: the frames consumed, the bytes left in the buffer and the bytes
   * dropped are those of the unfragmented stream.
   */
  lemma {:induction false} AnyFragmentation(side: Side, cap: nat, chunks: seq<seq<byte>>)
    ensures ReadAll(side, cap, chunks) == Received(side, cap, Flatten(chunks))
  {
    hide Judge, Verifies, CutStream, ReadChunk, Received;
    NothingReceived(side, cap);
    if chunks != [] {
      var n := |chunks| - 1;
      AnyFragmentation(side, cap, chunks[..n]);
      ReadChunkContinues(side, cap, Flatten(chunks[..n]), chunks[n]);
      FlattenConcat(chunks[..n], [chunks[n]]);
      FlattenOne(chunks[n]);
      assert chunks == chunks[..n] + [chunks[n]];
    }
  }

  /**
   * Byte conservation: everything received is consumed in verified frames, buffered, or was dropped
   * in that order; bytes are dropped only when the buffer is full.
   */
  lemma ByteConservation(side: Side, cap: nat, chunks: seq<seq<byte>>)
    ensures var r := ReadAll(side, cap, chunks);
      && Flatten(r.frames) + r.buf + r.dropped == Flatten(chunks)
      && (forall i :: 0 <= i < |r.frames| ==> IsFrame(side, cap, r.frames[i]) && Verifies(r.frames[i]))
      && |r.buf| <= cap
      && (r.dropped != [] ==> |r.buf| == cap)
      && !Fits(side, cap, r.buf)
  {
    hide Judge, Verifies, CutStream, ReadAll, Received, IsFrame;
    AnyFragmentation(side, cap, chunks);
    var s := Flatten(chunks);
    CutSegments(side, cap, s);
    ReceivedIsDrained(side, cap, s);
    var r := Received(side, cap, s);
    assert Flatten(r.frames) + r.buf + r.dropped == Flatten(r.frames) + (r.buf + r.dropped);
    assert AllFrames(side, cap, r.frames);
    forall i | 0 <= i < |r.frames|
      ensures IsFrame(side, cap, r.frames[i]) && Verifies(r.frames[i])
    {
      FrameVerifies(side, cap, r.frames[i]);
    }
  }

  lemma FrameVerifies(side: Side, cap: nat, f: seq<byte>)
    ensures IsFrame(side, cap, f) ==> Verifies(f) && |f| == FrameLen(f)
  {
  }

  /**
   * A stream of good frames and an unfinished tail: every fragmentation yields exactly those frames and
   * keeps the tail, and the stall branch is taken if and only if the tail does not fit the buffer.
   */
  lemma GoodStream(side: Side, cap: nat, fs: seq<seq<byte>>, tail: seq<byte>, chunks: seq<seq<byte>>)
    requires AllFrames(side, cap, fs)
    requires Judge(side, tail).NeedMore?
    requires Flatten(chunks) == Flatten(fs) + tail
    ensures var r := ReadAll(side, cap, chunks);
      && r.frames == fs
      && r.buf == Kept(cap, tail)
      && (r.dropped == [] <==> |tail| <= cap)
      && (|tail| < 7 <= cap || (|tail| >= 6 && FrameLen(tail) <= cap) ==> r.buf == tail && r.dropped == [])
  {
    AnyFragmentation(side, cap, chunks);
    SegmentationUnique(side, cap, Flatten(chunks), Cut(fs, tail));
  }

  /** Running the processing loop again right after a callback does nothing. */
  lemma DrainedStaysDrained(side: Side, cap: nat, chunks: seq<seq<byte>>)
    ensures var r := ReadAll(side, cap, chunks); CutStream(side, cap, r.buf) == Cut([], r.buf)
  {
    ByteConservation(side, cap, chunks);
  }

  // ----- Dead connections

  /** The least length the frame that starts with buf can still turn out to have. */
  function LeastLen(buf: seq<byte>): nat
  {
    var low: nat := if |buf| > 4 then buf[4] else 0;
    var high: nat := if |buf| > 5 then buf[5] else 0;
    7 + low + 256 * high
  }

  /** The head of the buffer can never become an acceptable frame that fits. */
  predicate Hopeless(side: Side, cap: nat, buf: seq<byte>)
  {
    || (|buf| >= 2 && !IsKnown(CommandOf(side, buf[1])))
    || LeastLen(buf) > cap
    || (|buf| >= 7 && FrameLen(buf) <= |buf| && !Verifies(buf))
  }

  /** Enough zeros to finish a started header and payload, and the checksum byte that makes the frame verify. */
  function Completion(buf: seq<byte>): (x: seq<byte>)
    requires |buf| < LeastLen(buf)
    ensures |buf + x| == LeastLen(buf) && Verifies(buf + x) && FrameLen(buf + x) == |buf + x|
    ensures |buf| < 2 ==> (buf + x)[1] == 0
  {
    var zeros: seq<byte> := seq(LeastLen(buf) - 1 - |buf|, i => 0);
    var body := buf + zeros;
    var x := zeros + [255 - Sum(body) % 256];
    assert buf + x == body + [255 - Sum(body) % 256];
    assert (buf + x)[..|body|] == body;
    x
  }

  /**
   * A drained buffer is dead, in the sense that no continuation of the stream is ever consumed, exactly
   * when its command is unknown, its frame is too long for the buffer, or its frame is complete and
   * fails verification. Otherwise there are bytes that finish the frame.
   */
  lemma DeadExactlyWhenHopeless(side: Side, cap: nat, buf: seq<byte>)
    requires !Fits(side, cap, buf)
    ensures Hopeless(side, cap, buf) <==> forall x: seq<byte> :: CutStream(side, cap, buf + x).frames == []
  {
    if Hopeless(side, cap, buf) {
      forall x: seq<byte>
        ensures CutStream(side, cap, buf + x).frames == []
      {
        HopelessIsForever(side, cap, buf, x);
      }
    } else {
      assert |buf| < LeastLen(buf);
      var x := Completion(buf);
      assert IsKnown(CommandOf(side, (buf + x)[1]));
      assert Fits(side, cap, buf + x);
      assert CutStream(side, cap, buf + x).frames != [];
    }
  }

  lemma HopelessIsForever(side: Side, cap: nat, buf: seq<byte>, x: seq<byte>)
    requires Hopeless(side, cap, buf)
    ensures !Fits(side, cap, buf + x) && Hopeless(side, cap, buf + x)
  {
    if |buf| >= 7 && FrameLen(buf) <= |buf| {
      JudgeIsStable(side, buf, x);
      assert (buf + x)[..FrameLen(buf) - 1] == buf[..FrameLen(buf) - 1];
    }
  }

  lemma StickyStream(side: Side, cap: nat, s: seq<byte>, t: seq<byte>)
    requires Hopeless(side, cap, Received(side, cap, s).buf)
    ensures CutStream(side, cap, s + t).frames == CutStream(side, cap, s).frames
  {
    hide Judge, Fits, CutStream, Hopeless, Received;
    var r := Received(side, cap, s);
    ReceivedIsDrained(side, cap, s);
    CutResumes(side, cap, s, t);
    HopelessIsForever(side, cap, r.buf, r.dropped + t);
    assert r.buf + r.dropped + t == r.buf + (r.dropped + t);
    CutOfStuck(side, cap, r.buf + (r.dropped + t));
    assert r.frames + [] == r.frames;
  }

  /** Sticky failure: once the head of the buffer is hopeless, no later chunk changes what was consumed. */
  lemma StickyFailure(side: Side, cap: nat, chunks: seq<seq<byte>>, more: seq<seq<byte>>)
    requires Hopeless(side, cap, ReadAll(side, cap, chunks).buf)
    ensures ReadAll(side, cap, chunks + more).frames == ReadAll(side, cap, chunks).frames
  {
    AnyFragmentation(side, cap, chunks);
    AnyFragmentation(side, cap, chunks + more);
    FlattenConcat(chunks, more);
    StickyStream(side, cap, Flatten(chunks), Flatten(more));
  }

  // ----- Streams of good frames, cut off anywhere

  /** c is the result of cutting a prefix of the frames fs: k whole frames and less than one more. */
  ghost predicate CutShort(fs: seq<seq<byte>>, k: nat, c: Cut, more: seq<byte>)
  {
    && k <= |fs|
    && c.frames == fs[..k]
    && c.rest + more == Flatten(fs[k..])
    && (if k < |fs| then |c.rest| < |fs[k]| else c.rest == [])
  }

  /** A prefix of a stream of good frames: its frames are the first of them, its rest is less than one frame. */
  lemma {:induction false} PrefixOfGood(side: Side, cap: nat, fs: seq<seq<byte>>, s: seq<byte>, more: seq<byte>)
    returns (k: nat)
    requires AllFrames(side, cap, fs) && s + more == Flatten(fs)
    ensures CutShort(fs, k, CutStream(side, cap, s), more)
    decreases |fs|
  {
    if fs == [] {
      k := 0;
      assert s == [];
    } else if |s| < |fs[0]| {
      k := 0;
      ShortPrefixDoesNotFit(side, fs[0], Flatten(fs[1..]), s, more);
      assert CutStream(side, cap, s) == Cut([], s);
    } else {
      var f := fs[0];
      var s' := s[|f|..];
      assert (f + Flatten(fs[1..]))[..|f|] == f && (f + Flatten(fs[1..]))[|f|..] == Flatten(fs[1..]);
      assert s[..|f|] == (s + more)[..|f|];
      assert s' + more == (s + more)[|f|..];
      var k' := PrefixOfGood(side, cap, fs[1..], s', more);
      CutFirst(side, cap, f, s');
      assert s == f + s';
      k := k' + 1;
      CutShortGrows(fs, k', CutStream(side, cap, s'), more);
    }
  }

  lemma CutShortGrows(fs: seq<seq<byte>>, k: nat, c: Cut, more: seq<byte>)
    requires fs != [] && CutShort(fs[1..], k, c, more)
    ensures CutShort(fs, k + 1, Cut([fs[0]] + c.frames, c.rest), more)
  {
    assert fs[..k + 1] == [fs[0]] + fs[1..][..k];
    assert fs[1..][k..] == fs[k + 1..];
  }

  lemma CutFirst(side: Side, cap: nat, f: seq<byte>, s: seq<byte>)
    requires IsFrame(side, cap, f)
    ensures CutStream(side, cap, f + s) == Cut([f] + CutStream(side, cap, s).frames, CutStream(side, cap, s).rest)
  {
    JudgeIsStable(side, f, s);
    assert (f + s)[..|f|] == f && (f + s)[|f|..] == s;
  }

  lemma ShortPrefixDoesNotFit(side: Side, f: seq<byte>, g: seq<byte>, s: seq<byte>, more: seq<byte>)
    requires Judge(side, f) == Accept(|f|) && |s| < |f| && s + more == f + g
    ensures Judge(side, s).NeedMore?
  {
    if |s| >= 7 {
      assert forall i :: 0 <= i < |s| ==> s[i] == (s + more)[i] == f[i];
      assert FrameLen(s) == FrameLen(f);
    }
  }
}
