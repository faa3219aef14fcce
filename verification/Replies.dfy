/** What the simulator owes for each request: status, payload size and the packet it sends. */
module Replies {
  import opened Bytes
  import opened Frame
  import opened Wrappers
  import opened Memory
  import opened Codec
  import opened Framing

  /** The simulator's receive buffer: (EDIO24_PKT_LENGTH_MIN + 6) * 5 bytes. */
  const CAPACITY: nat := (LENGTH_MIN + 6) * 5

  /** The simulator's output buffer starts with 7 + 30 bytes and never shrinks. */
  const OUTPUT_MIN: nat := LENGTH_MIN + 30

  /**
   * The room the simulator tells the reply builder about. The code passes sizeof of a pointer, 8 bytes;
   * the room it checked just before is the size of the output buffer.
   */
  datatype Room = PointerSize | OutputSize

  function RoomFor(room: Room, szOut: nat): nat
  {
    match room
    case PointerSize => 8
    case OutputSize => szOut
  }

  /** The uninitialised locals that a failed edio24_pkt_read_value leaves as they are. */
  datatype Uninit = Uninit(address: nat, size: nat)

  predicate IsMemRead(cmd: byte)
  {
    cmd == CMD_USR_MEM_R || cmd == CMD_CONF_MEM_R || cmd == CMD_SET_MEM_R || cmd == CMD_BOOT_MEM_R
  }

  function MaxAddress(cmd: byte): nat
  {
    if cmd == CMD_USR_MEM_R then 0x0EEF else if cmd == CMD_CONF_MEM_R then 0x0F else 0xFF
  }

  function AddressOf(s: seq<byte>, u: Uninit): nat
  {
    match ValueAt(s, 0, 2)
    case Some(v) => v
    case None => u.address
  }

  function SizeOf(s: seq<byte>, u: Uninit): nat
  {
    match ValueAt(s, 2, 2)
    case Some(v) => v
    case None => u.size
  }

  predicate OutOfRange(max: nat, address: nat, size: nat)
  {
    size < 1 || size > 1024 || address > max || address + size > max
  }

  datatype Shape = Shape(status: byte, len: nat)

  /** Status and payload size of the reply to the frame at the head of s; status is the one before the switch. */
  function ReplyShape(s: seq<byte>, status: byte, u: Uninit): (r: Shape)
    requires |s| >= 7
    ensures r.len < 0x1_0000
  {
    var cmd := s[1];
    if cmd == CMD_DIN_R || cmd == CMD_DCONF_R || cmd == CMD_DOUT_R then Shape(status, 3)
    else if cmd == CMD_COUNTER_R then Shape(status, 4)
    else if cmd == CMD_STATUS then Shape(status, 2)
    else if cmd == CMD_NETWORK_CONF then Shape(status, 12)
    else if cmd == CMD_BOOT_MEM_R then Shape(status, SizeOf(s, u) % 0x1_0000)
    else if IsMemRead(cmd) then
      if OutOfRange(MaxAddress(cmd), AddressOf(s, u), SizeOf(s, u)) then Shape(MSG_ERROR_PARAMETER, 0)
      else Shape(status, SizeOf(s, u))
    else Shape(status, 0)
  }

  function Pattern(n: nat): (p: seq<byte>)
    ensures |p| == n
  {
    seq(n, i => (1 + i) % 256)
  }

  /** The output buffer after the placeholder payload was written. */
  function Prepared(was: seq<byte>, len: nat): (s: seq<byte>)
    requires 7 + len <= |was|
    ensures |s| == |was|
  {
    Overwrite(was, 6, Pattern(len))
  }

  /** The packet sent: the reply builder takes its payload from the start of the output buffer itself. */
  function Outgoing(room: nat, was: seq<byte>, cmd: byte, frame: byte, shape: Shape): (p: seq<byte>)
    requires 7 + shape.len <= |was|
    ensures |p| == 7 + shape.len
  {
    var mid := Prepared(was, shape.len);
    if 7 + shape.len <= room then Encode(Msg(MSG_START, ReplyCmd(cmd), frame, shape.status, mid[..shape.len]))
    else mid[..7 + shape.len]
  }

  /** A request whose reply is settled by its own bytes: a memory read has its address and size in the frame. */
  predicate WellFormed(req: seq<byte>)
  {
    IsFrame(Server, CAPACITY, req) && (IsMemRead(req[1]) ==> Count(req) >= 4)
  }

  /** The payload size the protocol prescribes for the reply. */
  function ReplyLen(req: seq<byte>): (n: nat)
    ensures n < 0x1_0000
  {
    if |req| < 7 then 0 else ReplyShape(req, MSG_SUCCESS, Uninit(0, 0)).len
  }

  /** MSG_ERROR_PARAMETER for a memory read out of range, MSG_SUCCESS for every other request. */
  function ReplyStatus(req: seq<byte>): byte
    requires |req| >= 7
  {
    ReplyShape(req, MSG_SUCCESS, Uninit(0, 0)).status
  }

  /** The reply builder is given enough room for this request's reply. */
  predicate Replyable(room: Room, req: seq<byte>)
    requires |req| >= 7
  {
    room.OutputSize? || ReplyLen(req) <= 1
  }

  /** m is a proper reply to req: the request's command with the reply bit and its frame id. */
  predicate Mirrors(randfail: bool, req: seq<byte>, m: Msg)
    requires |req| >= 7
  {
    && m.start == MSG_START
    && m.cmd == ReplyCmd(req[1])
    && m.frame == req[2]
    && |m.data| == ReplyLen(req)
    && (if ReplyStatus(req) == MSG_SUCCESS then
          m.status == MSG_SUCCESS || (randfail && 1 <= m.status <= MSG_ERROR_OTHER)
        else m.status == MSG_ERROR_PARAMETER)
  }

  /** What one sent packet owes to the request it answers. */
  predicate Answers(room: Room, randfail: bool, req: seq<byte>, rep: seq<byte>)
  {
    WellFormed(req) ==>
      && |rep| == 7 + ReplyLen(req)
      && (Replyable(room, req) ==>
            && Decode(rep).Some?
            && FrameLen(rep) == |rep|
            && Mirrors(randfail, req, Decode(rep).value))
  }

  /** With the frame complete, the value reads see the frame only if their bytes lie inside it. */
  lemma ReadsStayInside(s: seq<byte>, off: nat, bytes: nat)
    requires Verifies(s) && bytes <= 4 && off + bytes <= Count(s)
    ensures ValueAt(s, off, bytes) == ValueAt(s[..FrameLen(s)], off, bytes) != None
  {
    var f := s[..FrameLen(s)];
    assert f[..6 + Count(s)] == s[..6 + Count(s)];
    assert f[6 + off..6 + off + bytes] == s[6 + off..6 + off + bytes];
  }

  /** The shape of the reply to a well-formed request depends neither on later bytes nor on uninitialised memory. */
  lemma ShapeIsSettled(s: seq<byte>, status: byte, u: Uninit)
    requires Judge(Server, s).Accept? && WellFormed(s[..FrameLen(s)])
    ensures var f := s[..FrameLen(s)];
      && ReplyShape(s, status, u).len == ReplyLen(f)
      && ReplyShape(s, status, u).status == (if ReplyStatus(f) == MSG_SUCCESS then status else MSG_ERROR_PARAMETER)
  {
    var f := s[..FrameLen(s)];
    if IsMemRead(f[1]) {
      ReadsStayInside(s, 0, 2);
      ReadsStayInside(s, 2, 2);
    }
  }

  /** Whatever the output buffer held, the packet sent answers the request. */
  lemma OutgoingAnswers(room: Room, randfail: bool, szOut: nat, was: seq<byte>, s: seq<byte>,
                        status: byte, u: Uninit)
    requires Fits(Server, CAPACITY, s)
    requires status == MSG_SUCCESS || (randfail && 1 <= status <= MSG_ERROR_OTHER)
    requires 7 + ReplyShape(s, status, u).len <= szOut <= |was|
    ensures Answers(room, randfail, s[..FrameLen(s)],
                    Outgoing(RoomFor(room, szOut), was, s[1], s[2], ReplyShape(s, status, u)))
  {
    var f := s[..FrameLen(s)];
    var shape := ReplyShape(s, status, u);
    var p := Outgoing(RoomFor(room, szOut), was, s[1], s[2], shape);
    if WellFormed(f) {
      ShapeIsSettled(s, status, u);
      if Replyable(room, f) {
        var m := Msg(MSG_START, ReplyCmd(s[1]), s[2], shape.status, Prepared(was, shape.len)[..shape.len]);
        EncodeVerifies(m);
      }
    }
  }

  /** was may be the contents of the simulator's output buffer when it replies to req. */
  predicate MayHold(was: seq<byte>, req: seq<byte>)
  {
    OUTPUT_MIN <= |was| && 7 + ReplyLen(req) <= |was|
  }

  /** The packet for a well-formed request when no random failure is drawn. */
  function PacketFor(room: Room, req: seq<byte>, was: seq<byte>): (p: seq<byte>)
    requires |req| >= 7 && MayHold(was, req)
    ensures |p| == 7 + ReplyLen(req)
  {
    Outgoing(RoomFor(room, |was|), was, req[1], req[2], Shape(ReplyStatus(req), ReplyLen(req)))
  }

  /**
   * The code as it stands hands the builder the size of a pointer. Then the packet for a request is a
   * proper reply for every earlier content of the output buffer if and only if the reply has at most one
   * payload byte; for larger replies the stale content goes out.
   */
  lemma PointerSizedRoomSuffices(req: seq<byte>)
    requires WellFormed(req)
    ensures
      (forall was: seq<byte> :: MayHold(was, req) ==>
        var p := PacketFor(PointerSize, req, was);
        Decode(p).Some? && FrameLen(p) == |p| && Mirrors(false, req, Decode(p).value))
      <==> ReplyLen(req) <= 1
  {
    hide Judge, ReplyStatus, ReplyLen, Prepared;
    if ReplyLen(req) <= 1 {
      StatusIsSettled(req);
      forall was: seq<byte> | MayHold(was, req)
        ensures var p := PacketFor(PointerSize, req, was);
          Decode(p).Some? && FrameLen(p) == |p| && Mirrors(false, req, Decode(p).value)
      {
        var data := Prepared(was, ReplyLen(req))[..ReplyLen(req)];
        EncodeVerifies(Msg(MSG_START, ReplyCmd(req[1]), req[2], ReplyStatus(req), data));
      }
    } else {
      StaleZeros(req);
    }
  }

  lemma StatusIsSettled(req: seq<byte>)
    requires |req| >= 7
    ensures ReplyStatus(req) == MSG_SUCCESS || ReplyStatus(req) == MSG_ERROR_PARAMETER
  {
  }

  /** Zeros in the output buffer are such a content: a complete frame goes out that fails verification. */
  lemma StaleZerosOf(req: seq<byte>, was: seq<byte>)
    requires |req| >= 7 && ReplyLen(req) >= 2 && MayHold(was, req)
    requires forall i :: 0 <= i < |was| ==> was[i] == 0
    ensures var p := PacketFor(PointerSize, req, was);
      |p| >= 7 && FrameLen(p) == 7 && !Verifies(p)
  {
    hide Outgoing, PacketFor, Prepared, Verifies, ReplyLen;
    StaleGoesOut(req, was);
    StaleZerosFail(was, ReplyLen(req));
  }

  lemma StaleZeros(req: seq<byte>)
    requires |req| >= 7 && ReplyLen(req) >= 2
    ensures var was: seq<byte> := seq(OUTPUT_MIN + ReplyLen(req), i => 0);
      MayHold(was, req) &&
      var p := PacketFor(PointerSize, req, was);
      |p| >= 7 && FrameLen(p) == 7 && !Verifies(p)
  {
    hide PacketFor, Verifies, ReplyLen;
    StaleZerosOf(req, seq(OUTPUT_MIN + ReplyLen(req), i => 0));
  }

  /** With two or more payload bytes the reply builder refuses, and the output buffer goes out as it is. */
  lemma StaleGoesOut(req: seq<byte>, was: seq<byte>)
    requires |req| >= 7 && ReplyLen(req) >= 2 && MayHold(was, req)
    ensures PacketFor(PointerSize, req, was) == Prepared(was, ReplyLen(req))[..7 + ReplyLen(req)]
  {
    hide ReplyLen, ReplyStatus, Prepared, Encode;
  }

  lemma StaleZerosFail(was: seq<byte>, n: nat)
    requires n >= 2 && 7 + n <= |was| && forall i :: 0 <= i < |was| ==> was[i] == 0
    ensures var p := Prepared(was, n)[..7 + n]; FrameLen(p) == 7 && !Verifies(p)
  {
    var p := Prepared(was, n)[..7 + n];
    hide Sum;
    assert forall k :: 0 <= k < 6 ==> p[k] == was[k];
    assert p[6] == Pattern(n)[0] == 1;
    hide Prepared;
    assert Count(p) == 0;
    SumOfHeader(p[..6]);
  }

  /**
   * Without the payload the protocol asks for, a memory read is answered according to bytes of the next
   * frame: here two streams start with the same accepted request but get replies of different length.
   */
  lemma ShortMemReadPeeksAhead(u: Uninit)
    ensures exists s: seq<byte>, t: seq<byte> ::
      && Judge(Server, s) == Judge(Server, t) == Accept(7) && s[..7] == t[..7]
      && ReplyShape(s, MSG_SUCCESS, u).len != ReplyShape(t, MSG_SUCCESS, u).len
  {
    hide Judge, ReplyShape, Encode;
    PeekedSize(u, 1);
    PeekedSize(u, 2);
  }

  /** A bootloader read without payload takes its size from the bytes behind it. */
  lemma PeekedSize(u: Uninit, a: byte)
    ensures var f := Encode(Request(CMD_BOOT_MEM_R, 0, []));
      var s := f + [0, a, 0, 0];
      Judge(Server, s) == Accept(7) && s[..7] == f && ReplyShape(s, MSG_SUCCESS, u).len == a
  {
    hide Encode, Sum, LE, IsMemRead;
    var m := Request(CMD_BOOT_MEM_R, 0, []);
    var s := Encode(m) + [0, a, 0, 0];
    RoundTrip(m, [0, a, 0, 0]);
    assert s[8..10] == [a, 0];
    LEOfOne(a);
  }

  lemma LEOfOne(a: byte)
    ensures LE([a, 0]) == a
  {
    assert [a, 0][1..] == [0] && [0][1..] == [];
    assert LE([0]) == 0;
  }

  /** The range lies inside the configuration, user or settings memory. The bootloader has no limit. */
  predicate InMemory(cmd: int, address: nat, count: nat)
  {
    || (cmd == 0x40 && 1 <= count <= 1024 && address + count <= 0x0F)
    || (cmd == 0x42 && 1 <= count <= 1024 && address + count <= 0x0EEF)
    || (cmd == 0x44 && 1 <= count <= 1024 && address + count <= 0xFF)
    || cmd == 0x46
  }

  /**
   * What a built memory read is answered with: as many bytes as asked for when the range lies inside the
   * memory, otherwise none and the parameter error.
   */
  lemma MemReadReply(cmd: byte, frame: byte, address: nat, count: nat)
    requires cmd == 0x40 || cmd == 0x42 || cmd == 0x44 || cmd == 0x46
    requires address < 0x1_0000 && count < 0x1_0000
    ensures var req := Encode(Request(cmd, frame, AddressData(address, count)));
      && WellFormed(req)
      && ReplyLen(req) == (if InMemory(cmd, address, count) then count else 0)
      && ReplyStatus(req) == (if InMemory(cmd, address, count) then 0 else 2)
  {
    hide AddressData, ValueAt;
    var m := Request(cmd, frame, AddressData(address, count));
    EncodeVerifies(m);
    AddressRoundTrip(cmd, frame, address, count, []);
    assert Encode(m) + [] == Encode(m);
  }

  // ----- The replies, opcode by opcode

  /** rep is a whole frame: start byte, opcode with the reply bit, the request's frame id, this status, n bytes. */
  predicate IsReply(req: seq<byte>, rep: seq<byte>, status: int, n: int)
    requires |req| >= 7
  {
    && |rep| == 7 + n && Decode(rep).Some?
    && rep[0] == 0xDB && rep[1] as int == req[1] as int + 0x80 && rep[2] == req[2] && rep[3] as int == status
    && |Decode(rep).value.data| == n
  }

  /** The payload sizes of the replies to everything but memory reads. */
  predicate PlainSize(cmd: int, n: int)
  {
    || ((cmd == 0x00 || cmd == 0x02 || cmd == 0x04) && n == 3)
    || (cmd == 0x30 && n == 4)
    || (cmd == 0x52 && n == 2)
    || (cmd == 0x54 && n == 12)
    || ((cmd == 0x03 || cmd == 0x05 || cmd == 0x31 || cmd == 0x50) && n == 0)
    || ((cmd == 0x41 || cmd == 0x43 || cmd == 0x45 || cmd == 0x47) && n == 0)
  }

  /** Whatever the rest of the request, its status passes through and its size is the one of its opcode. */
  lemma PlainShape(s: seq<byte>, status: byte, u: Uninit, n: nat)
    requires |s| >= 7 && PlainSize(s[1], n)
    ensures ReplyShape(s, status, u) == Shape(status, n)
  {
  }

  /** Every answer to a request other than a memory read: success unless a failure was drawn, the fixed size. */
  lemma PlainAnswer(room: Room, randfail: bool, req: seq<byte>, rep: seq<byte>, n: nat)
    requires WellFormed(req) && PlainSize(req[1], n) && (room == OutputSize || n <= 1)
    requires Answers(room, randfail, req, rep)
    ensures exists status :: IsReply(req, rep, status, n) && (status == 0 || (randfail && 1 <= status <= 6))
  {
    hide Judge, Sum;
    PlainShape(req, MSG_SUCCESS, Uninit(0, 0), n);
    assert IsReply(req, rep, rep[3] as int, n);
  }

  /** The packet the simulator writes for such a request when no failure is drawn: success and the fixed size. */
  lemma PlainPacket(room: Room, req: seq<byte>, was: seq<byte>, u: Uninit, n: nat)
    requires WellFormed(req) && PlainSize(req[1], n) && (room == OutputSize || n <= 1) && 7 + n <= |was|
    ensures var p := Outgoing(RoomFor(room, |was|), was, req[1], req[2], Shape(MSG_SUCCESS, n));
      IsReply(req, p, 0, n) && Outgoing(RoomFor(room, |was|), was, req[1], req[2], ReplyShape(req, MSG_SUCCESS, u)) == p
  {
    hide Judge, Sum, Outgoing, ReplyShape, Answers, Verifies;
    PlainShape(req, MSG_SUCCESS, u, n);
    FitsWhole(req);
    OutgoingAnswers(room, false, |was|, was, req, MSG_SUCCESS, u);
    PlainAnswer(room, false, req, Outgoing(RoomFor(room, |was|), was, req[1], req[2], Shape(MSG_SUCCESS, n)), n);
  }

  lemma FitsWhole(req: seq<byte>)
    requires WellFormed(req)
    ensures Fits(Server, CAPACITY, req) && |req| >= 7 && req[..FrameLen(req)] == req
  {
    hide Verifies;
  }

  /** The answer to a built memory read. */
  lemma MemReadAnswer(randfail: bool, cmd: byte, frame: byte, address: nat, count: nat, rep: seq<byte>)
    requires cmd == 0x40 || cmd == 0x42 || cmd == 0x44 || cmd == 0x46
    requires address < 0x1_0000 && count < 0x1_0000
    requires Answers(OutputSize, randfail, Encode(Request(cmd, frame, AddressData(address, count))), rep)
    ensures var req := Encode(Request(cmd, frame, AddressData(address, count)));
      if InMemory(cmd, address, count) then
        exists status :: IsReply(req, rep, status, count) && (status == 0 || (randfail && 1 <= status <= 6))
      else IsReply(req, rep, 2, 0)
  {
    hide Judge, Sum, AddressData, ReplyStatus, ReplyLen;
    var m := Request(cmd, frame, AddressData(address, count));
    MemReadReply(cmd, frame, address, count);
    Layout(m);
    var status, n := rep[3] as int, if InMemory(cmd, address, count) then count else 0;
    assert IsReply(Encode(m), rep, status, n);
  }

  /** The reply size to the frame f is the same whatever bytes follow and whatever the unset locals hold. */
  ghost predicate Settled(f: seq<byte>)
    requires |f| >= 7
  {
    forall x: seq<byte>, u: Uninit :: ReplyShape(f + x, MSG_SUCCESS, u).len == ReplyLen(f)
  }

  /**
   * The reply size to an accepted memory read is settled exactly when the payload holds address and size,
   * or holds an address that no size can make valid.
   */
  lemma MemReadSettledExactly(f: seq<byte>)
    requires IsFrame(Server, CAPACITY, f) && IsMemRead(f[1])
    ensures Settled(f) <==>
      Count(f) >= 4 || (Count(f) >= 2 && f[1] != CMD_BOOT_MEM_R && LE(f[6..8]) >= MaxAddress(f[1]))
  {
    assert Verifies(f) && |f| == FrameLen(f);
    if Count(f) >= 4 {
      forall x: seq<byte>, u: Uninit
        ensures ReplyShape(f + x, MSG_SUCCESS, u).len == ReplyLen(f)
      {
        JudgeIsStable(Server, f, x);
        assert (f + x)[..FrameLen(f)] == f;
        ShapeIsSettled(f + x, MSG_SUCCESS, u);
      }
    } else {
      assert ValueAt(f, 2, 2) == None;
      assert ReplyLen(f) == 0;
      if Count(f) >= 2 && f[1] != CMD_BOOT_MEM_R && LE(f[6..8]) >= MaxAddress(f[1]) {
        forall x: seq<byte>, u: Uninit
          ensures ReplyShape(f + x, MSG_SUCCESS, u).len == ReplyLen(f)
        {
          FrameAddress(f, x);
        }
      } else {
        assert f + [] == f;
        var u := Uninit(0, 1);
        assert ReplyShape(f + [], MSG_SUCCESS, u).len == 1;
      }
    }
  }

  lemma FrameAddress(f: seq<byte>, x: seq<byte>)
    requires Judge(Server, f) == Accept(|f|) && Count(f) >= 2
    ensures ValueAt(f + x, 0, 2) == Some(LE(f[6..8])) && (f + x)[1] == f[1]
  {
    JudgeIsStable(Server, f, x);
    var s := f + x;
    assert s[..FrameLen(s)] == f;
    ReadsStayInside(s, 0, 2);
    assert s[6..8] == f[6..8];
  }
}
