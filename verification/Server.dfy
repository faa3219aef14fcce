/** The device simulator: request processing, the drain loop with its growing output buffer, the read callback. */
module Server {
  import opened Bytes
  import opened Frame
  import opened Memory
  import opened Codec
  import opened Framing
  import opened Replies

  /** Two bytes of the payload as a number; a failed read leaves the variable as it was, and nobody looks. */
  method ReadTwo(bufferIn: array<byte>, szIn: nat, off: nat, unset: nat) returns (v: nat)
    requires szIn <= bufferIn.Length
    ensures var x := ValueAt(bufferIn[..szIn], off, 2); v == if x.Some? then x.value else unset
  {
    hide Verifies;
    var r, value := ReadValue(bufferIn, szIn, off, 2);
    v := if r == 0 then value else unset;
  }

  /** The switch of edio24_svr_process_tcp: status and payload size, with the values it found or left unset. */
  method PayloadSize(bufferIn: array<byte>, szIn: nat, st0: byte) returns (status: byte, lenData: nat, ghost u: Uninit)
    requires 7 <= szIn <= bufferIn.Length
    ensures Shape(status, lenData) == ReplyShape(bufferIn[..szIn], st0, u)
    ensures forall n: nat :: PlainSize(bufferIn[1], n) ==> status == st0 && lenData == n
    ensures !IsMemRead(bufferIn[1]) || (ValueAt(bufferIn[..szIn], 0, 2).Some? && ValueAt(bufferIn[..szIn], 2, 2).Some?)
      ==> Shape(status, lenData) == ReplyShape(bufferIn[..szIn], st0, Uninit(0, 0))
  {
    hide ValueAt, PlainSize;
    var address: nat := *;
    var szData: nat := *;
    u := Uninit(address, szData);
    status, lenData := st0, 0;
    var cmd := bufferIn[1];
    if cmd == CMD_DIN_R || cmd == CMD_DCONF_R || cmd == CMD_DOUT_R {
      lenData := 3;
    } else if cmd == CMD_COUNTER_R {
      lenData := 4;
    } else if cmd == CMD_STATUS {
      lenData := 2;
    } else if cmd == CMD_NETWORK_CONF {
      lenData := 12;
    } else if cmd == CMD_USR_MEM_R || cmd == CMD_CONF_MEM_R || cmd == CMD_SET_MEM_R {
      address := ReadTwo(bufferIn, szIn, 0, address);
      szData := ReadTwo(bufferIn, szIn, 2, szData);
      if szData < 1 || szData > 1024 || address > MaxAddress(cmd) || address + szData > MaxAddress(cmd) {
        status := MSG_ERROR_PARAMETER;
      } else {
        lenData := szData;
      }
    } else if cmd == CMD_BOOT_MEM_R {
      szData := ReadTwo(bufferIn, szIn, 2, szData);
      lenData := szData % 0x1_0000;
    }
    assert Shape(status, lenData) == ReplyShape(bufferIn[..szIn], st0, u);
    hide ReplyShape;
    forall n: nat | PlainSize(cmd, n)
      ensures status == st0 && lenData == n
    {
      PlainShape(bufferIn[..szIn], st0, u, n);
    }
  }

  /**
   * edio24_svr_process_tcp. The ghost results are the status drawn before the switch and the contents of
   * the uninitialised locals.
   */
  method ProcessTcp(room: Room, force: bool, bufferIn: array<byte>, szIn: nat, bufferOut: array<byte>, capOut: nat)
    returns (ret: int, szOut: nat, szProcessed: nat, szNeededIn: nat, szNeededOut: nat,
             ghost st0: byte, ghost u: Uninit)
    requires szIn <= bufferIn.Length && capOut <= bufferOut.Length && bufferIn != bufferOut
    modifies bufferOut
    ensures st0 == MSG_SUCCESS || (force && 1 <= st0 <= MSG_ERROR_OTHER)
    ensures match Judge(Side.Server, bufferIn[..szIn])
      case NeedMore(n) => ret == 1 && szOut == capOut && szNeededIn == n > 0 && szProcessed == szNeededOut == 0
      case Bad => ret == 2 && szOut == capOut && szProcessed == szNeededIn == szNeededOut == 0
      case Unknown => ret == -1 && szOut == capOut && szProcessed == szNeededIn == szNeededOut == 0
      case Accept(n) =>
        var shape := ReplyShape(bufferIn[..szIn], st0, u);
        && szNeededIn == 0
        && if 7 + shape.len > capOut then
             ret == 1 && szNeededOut == 7 + shape.len - capOut && szOut == szProcessed == 0
           else
             ret == 0 && szNeededOut == 0 && szProcessed == n && szOut == 7 + shape.len
             && bufferOut[..szOut] ==
                  Outgoing(RoomFor(room, capOut), old(bufferOut[..]), bufferIn[1], bufferIn[2], shape)
  {
    hide Sum, Outgoing, ReplyShape;
    ghost var s := bufferIn[..szIn];
    ret, szOut, szProcessed, szNeededIn, szNeededOut := 0, capOut, 0, 0, 0;
    st0, u := MSG_SUCCESS, Uninit(0, 0);
    if szIn < 7 {
      szNeededIn := 7 - szIn;
      ret := 1;
      return;
    }
    var cmd := bufferIn[1];
    var r, count := ReadCount(bufferIn, szIn);
    if 7 + count > szIn {
      szNeededIn := 7 + count - szIn;
      ret := 1;
      return;
    }
    var v := Verify(bufferIn, szIn);
    if v != 0 {
      ret := 2;
    }
    var status := MSG_SUCCESS;
    if force && ret == 0 {
      var roll: nat := *;
      status := roll % 6 + 1;
      st0 := status;
    }
    if !IsKnown(cmd) {
      ret := -1;
    }
    if ret != 0 {
      return;
    }
    var lenData;
    status, lenData, u := PayloadSize(bufferIn, szIn, status);
    ghost var shape := Shape(status, lenData);
    if 7 + lenData > capOut {
      szNeededOut := 7 + lenData - capOut;
      szOut := 0;
      ret := 1;
      return;
    }
    WriteReply(room, bufferOut, capOut, cmd, bufferIn[2], status, lenData);
    szProcessed := 7 + count;
    szOut := 7 + lenData;
  }

  /** The placeholder payload, then the reply builder with the output buffer as its own payload source. */
  method WriteReply(room: Room, bufferOut: array<byte>, capOut: nat, cmd: byte, frame: byte, status: byte, lenData: nat)
    requires 7 + lenData <= capOut <= bufferOut.Length
    modifies bufferOut
    ensures bufferOut[..7 + lenData] ==
      Outgoing(RoomFor(room, capOut), old(bufferOut[..]), cmd, frame, Shape(status, lenData))
  {
    hide Encode;
    ghost var was := bufferOut[..];
    for i := 0 to lenData
      invariant forall k :: 0 <= k < bufferOut.Length && !(6 <= k < 6 + i) ==> bufferOut[k] == was[k]
      invariant forall k :: 6 <= k < 6 + i ==> bufferOut[k] == (1 + (k - 6)) % 256
    {
      bufferOut[6 + i] := (1 + i) % 256;
    }
    assert bufferOut[..] == Prepared(was, lenData);
    assert bufferOut[0..0 + lenData] == Prepared(was, lenData)[..lenData];
    var szRoom := RoomFor(room, capOut);
    var ret := CreateRespond(bufferOut, szRoom, cmd, frame, status, lenData, bufferOut, 0);
  }

  function HeadFrame(s: seq<byte>): seq<byte>
  {
    if |s| >= 6 && FrameLen(s) <= |s| then s[..FrameLen(s)] else s
  }

  ghost predicate AllWellFormed(reqs: seq<seq<byte>>)
  {
    forall i :: 0 <= i < |reqs| ==> WellFormed(reqs[i])
  }

  /** The packets sent answer the requests consumed, one each and in order. */
  ghost predicate AllAnswered(room: Room, randfail: bool, reqs: seq<seq<byte>>, packets: seq<seq<byte>>)
  {
    |packets| == |reqs| && forall i :: 0 <= i < |reqs| ==> Answers(room, randfail, reqs[i], packets[i])
  }

  lemma AllAnsweredSnoc(room: Room, randfail: bool, reqs: seq<seq<byte>>, packets: seq<seq<byte>>,
                        req: seq<byte>, packet: seq<byte>)
    requires AllAnswered(room, randfail, reqs, packets) && Answers(room, randfail, req, packet)
    ensures AllAnswered(room, randfail, reqs + [req], packets + [packet])
  {
    hide Answers;
  }

  /** An accepted round: the packet written is the answer to the head frame. */
  lemma OneMoreAnswered(room: Room, randfail: bool, reqs: seq<seq<byte>>, packets: seq<seq<byte>>,
                        was: seq<byte>, now: seq<byte>, st0: byte, u: Uninit, packet: seq<byte>)
    requires AllAnswered(room, randfail, reqs, packets)
    requires |now| <= CAPACITY && Judge(Side.Server, now).Accept?
    requires st0 == MSG_SUCCESS || (randfail && 1 <= st0 <= MSG_ERROR_OTHER)
    requires 7 + ReplyShape(now, st0, u).len <= |was|
    requires packet == Outgoing(RoomFor(room, |was|), was, now[1], now[2], ReplyShape(now, st0, u))
    ensures AllAnswered(room, randfail, reqs + [HeadFrame(now)], packets + [packet])
  {
    hide Answers, AllAnswered, ReplyShape, Outgoing, Verifies;
    HeadFrameIsAccepted(now);
    OutgoingAnswers(room, randfail, |was|, was, now, st0, u);
    AllAnsweredSnoc(room, randfail, reqs, packets, HeadFrame(now), packet);
  }

  lemma AllAnsweredConcat(room: Room, randfail: bool, reqs: seq<seq<byte>>, packets: seq<seq<byte>>,
                          more: seq<seq<byte>>, morePackets: seq<seq<byte>>)
    requires AllAnswered(room, randfail, reqs, packets) && AllAnswered(room, randfail, more, morePackets)
    ensures AllAnswered(room, randfail, reqs + more, packets + morePackets)
  {
    hide Answers;
  }

  lemma AllWellFormedSnoc(reqs: seq<seq<byte>>, f: seq<byte>)
    ensures AllWellFormed(reqs + [f]) ==> AllWellFormed(reqs) && WellFormed(f)
  {
    if AllWellFormed(reqs + [f]) {
      assert (reqs + [f])[|reqs|] == f;
      assert forall i :: 0 <= i < |reqs| ==> (reqs + [f])[i] == reqs[i];
    }
  }

  lemma HeadFrameIsAccepted(s: seq<byte>)
    requires Judge(Side.Server, s).Accept?
    ensures HeadFrame(s) == s[..Judge(Side.Server, s).len] == s[..FrameLen(s)]
  {
  }

  /** realloc_buffer: never shrinks; the bytes gained are arbitrary. */
  method Realloc(base: array<byte>, suggested: nat) returns (r: array<byte>)
    ensures r == base || fresh(r)
    ensures r.Length == if base.Length >= suggested then base.Length else suggested
    ensures base[..] <= r[..]
  {
    if base.Length >= suggested {
      return base;
    }
    r := new byte[suggested];
    for i := 0 to base.Length
      invariant forall k :: 0 <= k < i ==> r[k] == base[k]
    {
      r[i] := base[i];
    }
  }

  /** Header, the longest payload a 16-bit length allows, and the checksum. */
  const LARGEST_REPLY: nat := LENGTH_MIN + 0xFFFF

  class EdioServer {
    const buffer: array<byte>
    const flgRandfail: bool
    const room: Room
    var szData: nat
    var closed: bool
    /** The packets handed to uv_write, oldest first. */
    var sent: seq<seq<byte>>

    /** History: bytes received, requests consumed, the packet sent for each, bytes lost to a stall. */
    ghost var stream: seq<byte>
    ghost var consumed: seq<seq<byte>>
    ghost var replies: seq<seq<byte>>
    ghost var dropped: seq<byte>
    /** What is sent when processing fails: the output buffer as it happens to be. */
    ghost var junk: seq<seq<byte>>

    /** The packets sent are the answers to the requests consumed, then what was sent for refused ones. */
    ghost predicate Ledger()
      reads this
    {
      && AllAnswered(room, flgRandfail, consumed, replies)
      && sent == replies + junk
    }

    ghost predicate Sound()
      reads this, buffer
    {
      && buffer.Length == CAPACITY && szData <= CAPACITY
      && Ledger()
      && (junk != [] ==> Stuck(Contents()))
    }

    /** The head frame is complete and was refused. */
    static ghost predicate Stuck(s: seq<byte>)
    {
      Judge(Side.Server, s).Bad? || Judge(Side.Server, s).Unknown?
    }

    ghost function Contents(): seq<byte>
      requires szData <= buffer.Length
      reads this, buffer
    {
      buffer[..szData]
    }

    ghost predicate Valid()
      reads this, buffer
    {
      Sound() && Recv(consumed, Contents(), dropped) == Received(Side.Server, CAPACITY, stream)
    }

    constructor (randfail: bool, r: Room)
      ensures Valid() && fresh(buffer) && buffer.Length == 65
      ensures flgRandfail == randfail && room == r && !closed
      ensures stream == [] && sent == []
    {
      buffer := new byte[CAPACITY];
      flgRandfail, room := randfail, r;
      szData, closed, sent := 0, false, [];
      stream, consumed, replies, dropped, junk := [], [], [], [], [];
    }

    /** Drops the processed bytes at the front of the buffer. */
    method TakeHead(szProcessed: nat)
      requires szProcessed <= szData <= buffer.Length
      modifies this`szData, buffer
      ensures szData == old(szData) - szProcessed && Contents() == old(Contents())[szProcessed..]
    {
      if szProcessed > 0 {
        szData := RemoveHead(buffer, szData, szProcessed);
      }
    }

    /** Hands the first szOut bytes of the output buffer to uv_write; f is the request answered, if ret is 0. */
    method Transmit(base: array<byte>, szOut: nat, ret: int, ghost f: seq<byte>)
      requires Ledger() && szOut <= base.Length && (szOut > 0 <==> ret != 1)
      requires ret == 0 ==> junk == [] && AllAnswered(room, flgRandfail, consumed + [f], replies + [base[..szOut]])
      modifies this`sent, this`consumed, this`replies, this`junk
      ensures Ledger()
      ensures consumed == old(consumed) + if ret == 0 then [f] else []
      ensures replies == old(replies) + if ret == 0 then [base[..szOut]] else []
      ensures junk == old(junk) + if ret < 0 || ret > 1 then [base[..szOut]] else []
    {
      hide AllAnswered;
      if szOut > 0 {
        sent := sent + [base[..szOut]];
        if ret == 0 {
          consumed, replies := consumed + [f], replies + [base[..szOut]];
        } else {
          junk := junk + [base[..szOut]];
        }
      }
    }

    /**
     * One round of the drain loop: the head request is answered and removed, or the output buffer is
     * enlarged for it, or the round stops the loop.
     */
    method Round(base: array<byte>) returns (again: bool, base': array<byte>, ghost grew: bool)
      requires Sound() && base != buffer && OUTPUT_MIN <= base.Length <= LARGEST_REPLY
      modifies this`szData, this`sent, this`consumed, this`replies, this`junk, buffer, base
      ensures Sound() && (base' == base || fresh(base')) && base.Length <= base'.Length <= LARGEST_REPLY
      ensures again <==> Judge(Side.Server, old(Contents())).Accept?
      ensures !again || grew ==> Contents() == old(Contents()) && consumed == old(consumed) && replies == old(replies)
      ensures |junk| == |old(junk)| + if !again && Stuck(Contents()) then 1 else 0
      ensures old(junk) <= junk && old(replies) <= replies
      ensures grew ==> again && base.Length < base'.Length
      ensures grew && WellFormed(HeadFrame(old(Contents()))) ==>
                base.Length < 7 + ReplyLen(HeadFrame(old(Contents()))) <= base'.Length
      ensures again && !grew ==>
                && consumed == old(consumed) + [HeadFrame(old(Contents()))]
                && old(Contents()) == HeadFrame(old(Contents())) + Contents()
                && |Contents()| < |old(Contents())|
    {
      hide Judge, Verifies, ReplyShape, Outgoing, Answers, AllAnswered, WellFormed, HeadFrame, ReplyLen;
      ghost var now, was := Contents(), base[..];
      var force := false;
      if flgRandfail {
        var roll: nat := *;
        if roll % 100 < 50 {
          force := true;
        }
      }
      base', grew, again := base, false, true;
      var ret, szOut, szProcessed, szNeededIn, szNeededOut, st0, u :=
        ProcessTcp(room, force, buffer, szData, base, base.Length);
      TakeHead(szProcessed);
      if szNeededIn > 0 {
        again := false;
        return;
      }
      if szNeededOut > 0 {
        HeadFrameIsAccepted(now);
        if WellFormed(HeadFrame(now)) {
          ShapeIsSettled(now, st0, u);
        }
        base' := Realloc(base, base.Length + szNeededOut);
        grew := true;
      }
      if ret == 0 {
        OneMoreAnswered(room, flgRandfail, consumed, replies, was, now, st0, u, base[..szOut]);
        HeadFrameIsAccepted(now);
      }
      Transmit(base, szOut, ret, now[..szProcessed]);
      if ret < 0 {
        again := false;
      } else if ret == 2 {
        again := false;
      }
    }

    /**
     * edio24svr_process_data: consume requests and send one packet for each until processing stops; the
     * output buffer is enlarged on demand and the same request tried again. The loop ends because each
     * round consumes bytes or brings the output buffer closer to the largest possible reply.
     * calls counts the rounds: well-formed requests take at most two each, one growth always being enough.
     */
    method ProcessData() returns (ghost calls: nat)
      requires Sound()
      modifies this`szData, this`sent, this`consumed, this`replies, this`junk, buffer
      ensures Sound()
      ensures old(consumed) <= consumed && old(replies) <= replies && old(junk) <= junk
      ensures Cut(consumed[|old(consumed)|..], Contents()) == CutStream(Side.Server, CAPACITY, old(Contents()))
      ensures |junk| == |old(junk)| + if Stuck(Contents()) then 1 else 0
      ensures AllWellFormed(consumed[|old(consumed)|..]) ==> calls <= 2 * (|consumed| - |old(consumed)|) + 1
    {
      hide Judge, Verifies, CutStream, ReplyShape, Answers, AllAnswered, WellFormed, AllWellFormed, HeadFrame, ReplyLen;
      var base := new byte[OUTPUT_MIN];
      ghost var before := consumed;
      ghost var whole := CutStream(Side.Server, CAPACITY, Contents());
      ghost var grown, easy := false, true;
      calls := 0;
      assert whole == Onto([], whole);
      while true
        invariant Sound() && fresh(base) && OUTPUT_MIN <= base.Length <= LARGEST_REPLY
        invariant before <= consumed && old(replies) <= replies && junk == old(junk)
        invariant whole == Onto(consumed[|before|..], CutStream(Side.Server, CAPACITY, Contents()))
        invariant grown ==> Judge(Side.Server, Contents()).Accept?
        invariant grown && WellFormed(HeadFrame(Contents())) ==> 7 + ReplyLen(HeadFrame(Contents())) <= base.Length
        invariant AllWellFormed(consumed[|before|..]) ==> easy
        invariant easy && !grown ==> calls <= 2 * (|consumed| - |before|)
        invariant easy && grown && WellFormed(HeadFrame(Contents())) ==> calls <= 2 * (|consumed| - |before|) + 1
        decreases szData, LARGEST_REPLY - base.Length
      {
        ghost var now := Contents();
        var again, base', grew := Round(base);
        base := base';
        calls := calls + 1;
        if !again {
          DrainStops(Side.Server, CAPACITY, now);
          break;
        }
        if grew {
          grown := true;
        } else {
          ghost var f := HeadFrame(now);
          HeadFrameIsAccepted(now);
          assert now[..|f|] == f && now[|f|..] == Contents();
          ghost var done := consumed[|before|..|consumed| - 1];
          DrainRound(Side.Server, CAPACITY, done, now);
          assert consumed[|before|..] == done + [f];
          AllWellFormedSnoc(done, f);
          easy := easy && WellFormed(f);
          grown := false;
        }
      }
    }

    /** More bytes behind a refused head frame do not help. */
    static lemma StuckStays(s: seq<byte>, x: seq<byte>)
      requires Stuck(s)
      ensures Stuck(s + x)
    {
      JudgeIsStable(Side.Server, s, x);
    }

    /** Copies n received bytes behind the buffered ones. */
    method CopyIn(buf: array<byte>, from: nat, n: nat)
      requires Sound() && from + n <= buf.Length && buf != buffer && szData + n <= buffer.Length
      modifies this`szData, buffer
      ensures Sound() && Contents() == old(Contents()) + buf[from..from + n]
    {
      hide Judge, AllAnswered;
      ghost var now := Contents();
      MemMove(buffer, szData, buf, from, n);
      szData := szData + n;
      assert Contents() == now + buf[from..from + n];
      if Stuck(now) {
        StuckStays(now, buf[from..from + n]);
      }
    }

    /** One round of the copying loop: n bytes are copied behind the buffered ones, then all is processed. */
    method CopyRound(buf: array<byte>, from: nat, n: nat, nread: nat)
      requires Sound() && buf != buffer && 0 < n && from + n <= nread <= buf.Length
      requires n == if nread - from <= buffer.Length - szData then nread - from else buffer.Length - szData
      modifies this`szData, this`sent, this`consumed, this`replies, this`junk, buffer
      ensures Sound() && old(consumed) <= consumed && old(replies) <= replies
      ensures Fill(Side.Server, CAPACITY, old(Contents()), buf[from..nread]) ==
        After(consumed[|old(consumed)|..], Fill(Side.Server, CAPACITY, Contents(), buf[from + n..nread]))
    {
      hide Judge, Verifies, CutStream, Received, Fill, After, Answers, AllAnswered, Stuck;
      ghost var now, pending, before := Contents(), buf[from..nread], consumed;
      assert pending[..n] == buf[from..from + n] && pending[n..] == buf[from + n..nread];
      CopyIn(buf, from, n);
      assert Contents() == now + pending[..n];
      ghost var calls := ProcessData();
      FillRound(Side.Server, CAPACITY, now, pending, n, Cut(consumed[|before|..], Contents()));
    }

    /** The copying loop of on_tcp_svr_read: copy what fits and process, until all is copied or it stalls. */
    method CopyAndProcess(buf: array<byte>, nread: nat)
      requires Sound() && nread <= buf.Length && buf != buffer
      modifies this`szData, this`closed, this`sent, this`consumed, this`replies, this`junk, this`dropped, buffer
      ensures Sound() && old(consumed) <= consumed && old(replies) <= replies && old(dropped) <= dropped
      ensures Recv(consumed[|old(consumed)|..], Contents(), dropped[|old(dropped)|..])
        == Fill(Side.Server, CAPACITY, old(Contents()), buf[..nread])
      ensures closed == (old(closed) || dropped != old(dropped))
    {
      hide Judge, Verifies, CutStream, Received, Fill, After, Answers, AllAnswered, Stuck;
      ghost var before, replies0, lost := consumed, replies, dropped;
      ghost var all := Fill(Side.Server, CAPACITY, Contents(), buf[..nread]);
      AfterAfter([], [], all);
      assert buf[0..nread] == buf[..nread] && consumed[|before|..] == [];
      var szProcessed := 0;
      while szProcessed < nread
        invariant Sound() && szProcessed <= nread
        invariant before <= consumed && replies0 <= replies && dropped == lost && closed == old(closed)
        invariant all == After(consumed[|before|..], Fill(Side.Server, CAPACITY, Contents(), buf[szProcessed..nread]))
      {
        var szCopy := nread - szProcessed;
        if szCopy + szData > buffer.Length {
          szCopy := buffer.Length - szData;
        }
        if szCopy > 0 {
          ghost var mid := consumed;
          CopyRound(buf, szProcessed, szCopy, nread);
          szProcessed := szProcessed + szCopy;
          ghost var rest := Fill(Side.Server, CAPACITY, Contents(), buf[szProcessed..nread]);
          AfterAfter(mid[|before|..], consumed[|mid|..], rest);
          assert consumed[|before|..] == mid[|before|..] + consumed[|mid|..];
        } else {
          break;
        }
      }
      FillEnds(Side.Server, CAPACITY, consumed[|before|..], Contents(), buf[szProcessed..nread]);
      if szProcessed < nread {
        closed := true;
      }
      dropped := dropped + buf[szProcessed..nread];
      assert dropped[|lost|..] == buf[szProcessed..nread];
    }

    /** on_tcp_svr_read for nread >= 0; a stall closes the connection. */
    method OnRead(buf: array<byte>, nread: nat)
      requires Valid() && nread <= buf.Length && buf != buffer
      modifies this`szData, this`closed, this`sent, this`consumed, this`replies, this`junk, this`dropped
      modifies this`stream, buffer
      ensures Valid()
      ensures stream == old(stream) + buf[..nread]
      ensures var o := ReadChunk(Side.Server, CAPACITY, old(Contents()), buf[..nread]);
        && consumed == old(consumed) + o.frames
        && Contents() == o.buf
        && dropped == old(dropped) + o.dropped
      ensures closed == (old(closed) || dropped != old(dropped))
      ensures old(replies) <= replies
      ensures !Stuck(Contents()) ==> sent == replies
    {
      hide Judge, Verifies, CutStream, Received, Fill, Answers, AllAnswered, Stuck;
      ghost var chunk := buf[..nread];
      ReadChunkContinues(Side.Server, CAPACITY, stream, chunk);
      stream := stream + chunk;
      if nread > 0 {
        ghost var before, lost := consumed, dropped;
        ghost var calls := ProcessData();
        ghost var mid := consumed;
        CopyAndProcess(buf, nread);
        assert consumed == before + (mid[|before|..] + consumed[|mid|..]);
        assert dropped == lost + dropped[|lost|..];
      } else {
        assert chunk == [];
        assert consumed + [] == consumed && dropped + [] == dropped;
      }
    }
  }
}
