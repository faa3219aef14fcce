/**
 * Client and simulator joined by two byte channels that keep order but deliver any number of bytes at a
 * time: what holds in every state of every run.
 */
module Pipeline {
  import opened Bytes
  import opened Wrappers
  import opened Frame
  import opened Codec
  import opened Framing
  import opened Replies
  import C = Client
  import S = Server

  const CLIENT_CAP: nat := C.CAPACITY
  const SERVER_CAP: nat := Replies.CAPACITY

  /**
   * frame is the client's next frame id; upstream and downstream are the bytes in flight; the two buffers
   * are the receive buffers; lost counts the bytes a stall dropped on either side.
   */
  datatype Net = Net(
    frame: byte, requests: seq<seq<byte>>, upstream: seq<byte>,
    serverBuf: seq<byte>, served: seq<seq<byte>>, replies: seq<seq<byte>>, downstream: seq<byte>,
    clientBuf: seq<byte>, counted: seq<seq<byte>>, lost: nat)

  datatype Config = Config(room: Room, randfail: bool)

  const START: Net := Net(0, [], [], [], [], [], [], [], [], 0)

  /** Requests the run may contain: well-formed, answered with a proper header, and with a reply the client can hold. */
  predicate Admissible(cfg: Config, req: seq<byte>)
  {
    WellFormed(req) && Replyable(cfg.room, req) && 7 + ReplyLen(req) <= CLIENT_CAP
  }

  datatype Action =
    | Send(cmd: byte, data: seq<byte>)
    | ToServer(n: nat, packets: seq<seq<byte>>, junk: seq<byte>)
    | ToClient(n: nat)

  function Served(net: Net, n: nat): Recv
    requires |net.serverBuf| <= SERVER_CAP && n <= |net.upstream|
  {
    ReadChunk(Side.Server, SERVER_CAP, net.serverBuf, net.upstream[..n])
  }

  function Arrived(net: Net, n: nat): Recv
    requires |net.clientBuf| <= CLIENT_CAP && n <= |net.downstream|
  {
    ReadChunk(Side.Client, CLIENT_CAP, net.clientBuf, net.downstream[..n])
  }

  ghost predicate Enabled(cfg: Config, net: Net, a: Action)
  {
    && |net.serverBuf| <= SERVER_CAP && |net.clientBuf| <= CLIENT_CAP
    && match a
       case Send(cmd, data) => Admissible(cfg, Encode(Request(cmd, net.frame, data)))
       case ToServer(n, packets, junk) =>
         && n <= |net.upstream|
         && S.AllAnswered(cfg.room, cfg.randfail, Served(net, n).frames, packets)
         && (junk != [] ==> S.EdioServer.Stuck(Served(net, n).buf))
       case ToClient(n) => n <= |net.downstream|
  }

  /** The state after an action: a request is sent, or a read callback runs on either side. */
  ghost function Next(cfg: Config, net: Net, a: Action): Net
    requires Enabled(cfg, net, a)
  {
    match a
    case Send(cmd, data) =>
      var req := Encode(Request(cmd, net.frame, data));
      net.(frame := (net.frame as int + 1) % 256, requests := net.requests + [req], upstream := net.upstream + req)
    case ToServer(n, packets, junk) =>
      var o := Served(net, n);
      net.(upstream := net.upstream[n..], serverBuf := o.buf, served := net.served + o.frames,
           replies := net.replies + packets, downstream := net.downstream + (Flatten(packets) + junk),
           lost := net.lost + |o.dropped|)
    case ToClient(n) =>
      var o := Arrived(net, n);
      net.(downstream := net.downstream[n..], clientBuf := o.buf, counted := net.counted + o.frames,
           lost := net.lost + |o.dropped|)
  }

  /** A run: the states after each of the actions, all of them enabled. */
  ghost predicate Run(cfg: Config, actions: seq<Action>, net: Net)
    decreases |actions|
  {
    if actions == [] then net == START
    else
      var n := |actions| - 1;
      exists prev ::
        Run(cfg, actions[..n], prev) && Enabled(cfg, prev, actions[n]) && net == Next(cfg, prev, actions[n])
  }

  // ----- The invariant

  /** The requests made so far, numbered by their frame ids. */
  ghost predicate Numbered(cfg: Config, net: Net)
  {
    && net.frame == |net.requests| % 256
    && (forall i :: 0 <= i < |net.requests| ==> Admissible(cfg, net.requests[i]))
    && (forall i :: 0 <= i < |net.requests| ==> net.requests[i][2] == i % 256)
  }

  /** A link: the packets sent are those taken followed by those still buffered or in flight. */
  ghost predicate Link(side: Side, cap: nat, sent: seq<seq<byte>>, taken: seq<seq<byte>>, buf: seq<byte>,
                       flight: seq<byte>)
  {
    && taken <= sent
    && buf + flight == Flatten(sent[|taken|..])
    && |buf| <= cap && Judge(side, buf).NeedMore?
  }

  ghost predicate Inv(cfg: Config, net: Net)
  {
    && Numbered(cfg, net)
    && Link(Side.Server, SERVER_CAP, net.requests, net.served, net.serverBuf, net.upstream)
    && S.AllAnswered(cfg.room, cfg.randfail, net.served, net.replies)
    && Link(Side.Client, CLIENT_CAP, net.replies, net.counted, net.clientBuf, net.downstream)
    && net.lost == 0
  }

  /** Delivering part of a link: whole frames in order are taken, nothing is dropped, the buffer waits for more. */
  lemma LinkDelivers(side: Side, cap: nat, sent: seq<seq<byte>>, taken: seq<seq<byte>>, buf: seq<byte>,
                     flight: seq<byte>, n: nat)
    requires Link(side, cap, sent, taken, buf, flight) && n <= |flight|
    requires cap >= 7 && AllFrames(side, cap, sent)
    ensures var o := ReadChunk(side, cap, buf, flight[..n]);
      && Link(side, cap, sent, taken + o.frames, o.buf, flight[n..])
      && o.dropped == []
  {
    hide Judge, Verifies, CutStream, ReadChunk;
    var fs := sent[|taken|..];
    var s := buf + flight[..n];
    assert s + flight[n..] == buf + flight;
    NeedMoreDoesNotFit(side, cap, buf);
    ReadChunkOfDrained(side, cap, buf, flight[..n]);
    var k := PrefixOfGood(side, cap, fs, s, flight[n..]);
    var c := CutStream(side, cap, s);
    assert taken + fs[..k] == sent[..|taken| + k];
    assert sent[|taken| + k..] == fs[k..];
    if k < |fs| {
      assert IsFrame(side, cap, fs[k]);
      assert Flatten(fs[k..]) == fs[k] + Flatten(fs[k..][1..]);
      ShortPrefixDoesNotFit(side, fs[k], Flatten(fs[k..][1..]), c.rest, flight[n..]);
    } else {
      EmptyNeedsMore(side);
    }
  }

  lemma NeedMoreDoesNotFit(side: Side, cap: nat, s: seq<byte>)
    requires Judge(side, s).NeedMore?
    ensures !Fits(side, cap, s)
  {
  }

  lemma LinkExtends(side: Side, cap: nat, sent: seq<seq<byte>>, taken: seq<seq<byte>>, buf: seq<byte>,
                    flight: seq<byte>, more: seq<seq<byte>>)
    requires Link(side, cap, sent, taken, buf, flight)
    ensures Link(side, cap, sent + more, taken, buf, flight + Flatten(more))
  {
    hide Judge, Flatten;
    FlattenConcat(sent[|taken|..], more);
    assert (sent + more)[|taken|..] == sent[|taken|..] + more;
    assert buf + (flight + Flatten(more)) == buf + flight + Flatten(more);
  }

  /** A proper reply is a frame the client accepts, and it mirrors its request. */
  lemma ReplyIsAccepted(cfg: Config, req: seq<byte>, rep: seq<byte>)
    requires Admissible(cfg, req) && Answers(cfg.room, cfg.randfail, req, rep)
    ensures IsFrame(Side.Client, CLIENT_CAP, rep)
    ensures |req| >= 7 && rep[1] as int == req[1] as int + 0x80 && rep[2] == req[2] && |rep| == 7 + ReplyLen(req)
  {
    assert Judge(Side.Server, req).Accept?;
  }

  /** How many payload bytes the client reads from a reply as one number, or copies as addresses. */
  function ReadWidth(cmd: byte): nat
  {
    if cmd == CMD_DIN_R || cmd == CMD_DCONF_R || cmd == CMD_DOUT_R then 3
    else if cmd == CMD_COUNTER_R then 4
    else if cmd == CMD_STATUS then 2
    else if cmd == CMD_NETWORK_CONF then 12
    else 0
  }

  /**
   * What the simulator puts into a reply is what the client reads from it, as a number or as addresses: the
   * whole payload, no byte more.
   */
  lemma ClientReadsWholeReply(cfg: Config, req: seq<byte>, rep: seq<byte>, n: nat)
    requires Admissible(cfg, req) && Answers(cfg.room, cfg.randfail, req, rep)
    requires PlainSize(req[1], n)
    ensures ReadWidth(req[1]) == n && |rep| == 7 + n
    ensures 1 <= n <= 4 ==> ValueAt(rep, 0, n) == Some(LE(rep[6..|rep| - 1]))
  {
    hide Sum, LE;
    assert Judge(Side.Server, req).Accept?;
  }

  lemma RepliesAreFrames(cfg: Config, reqs: seq<seq<byte>>, packets: seq<seq<byte>>)
    requires S.AllAnswered(cfg.room, cfg.randfail, reqs, packets)
    requires forall i :: 0 <= i < |reqs| ==> Admissible(cfg, reqs[i])
    ensures AllFrames(Side.Client, CLIENT_CAP, packets)
  {
    forall i | 0 <= i < |packets|
      ensures IsFrame(Side.Client, CLIENT_CAP, packets[i])
    {
      ReplyIsAccepted(cfg, reqs[i], packets[i]);
    }
  }

  lemma FrameIdOf(cmd: byte, frame: byte, data: seq<byte>)
    ensures Encode(Request(cmd, frame, data))[2] == frame
  {
  }

  lemma SendKeepsInv(cfg: Config, net: Net, cmd: byte, data: seq<byte>)
    requires Inv(cfg, net) && Enabled(cfg, net, Send(cmd, data))
    ensures Inv(cfg, Next(cfg, net, Send(cmd, data)))
  {
    hide Judge, Admissible, Answers, S.AllAnswered, Encode, Link;
    FrameIdOf(cmd, net.frame, data);
    var req := Encode(Request(cmd, net.frame, data));
    LinkExtends(Side.Server, SERVER_CAP, net.requests, net.served, net.serverBuf, net.upstream, [req]);
    FlattenOne(req);
  }

  lemma RequestsAreFrames(cfg: Config, net: Net)
    requires Numbered(cfg, net)
    ensures AllFrames(Side.Server, SERVER_CAP, net.requests)
  {
    hide IsFrame, ReplyLen, Replyable;
    forall i | 0 <= i < |net.requests|
      ensures IsFrame(Side.Server, SERVER_CAP, net.requests[i])
    {
      assert Admissible(cfg, net.requests[i]);
    }
  }

  lemma ToServerKeepsInv(cfg: Config, net: Net, n: nat, packets: seq<seq<byte>>, junk: seq<byte>)
    requires Inv(cfg, net) && Enabled(cfg, net, ToServer(n, packets, junk))
    ensures Inv(cfg, Next(cfg, net, ToServer(n, packets, junk)))
  {
    hide Judge, ReadChunk, Link, Numbered, S.AllAnswered, AllFrames, S.EdioServer.Stuck, Flatten;
    RequestsAreFrames(cfg, net);
    LinkDelivers(Side.Server, SERVER_CAP, net.requests, net.served, net.serverBuf, net.upstream, n);
    LinkExtends(Side.Client, CLIENT_CAP, net.replies, net.counted, net.clientBuf, net.downstream, packets);
    S.AllAnsweredConcat(cfg.room, cfg.randfail, net.served, net.replies, Served(net, n).frames, packets);
    LinkWaits(SERVER_CAP, net.requests, net.served + Served(net, n).frames, Served(net, n).buf, net.upstream[n..]);
    assert junk == [];
    assert Flatten(packets) + junk == Flatten(packets);
    NumberedStays(cfg, net, Next(cfg, net, ToServer(n, packets, junk)));
  }

  lemma LinkWaits(cap: nat, sent: seq<seq<byte>>, taken: seq<seq<byte>>, buf: seq<byte>, flight: seq<byte>)
    requires Link(Side.Server, cap, sent, taken, buf, flight)
    ensures |buf| <= cap && !S.EdioServer.Stuck(buf)
  {
    hide Verifies;
  }

  lemma NumberedStays(cfg: Config, net: Net, net': Net)
    requires Numbered(cfg, net) && net'.requests == net.requests && net'.frame == net.frame
    ensures Numbered(cfg, net')
  {
    hide Admissible;
  }

  lemma ToClientKeepsInv(cfg: Config, net: Net, n: nat)
    requires Inv(cfg, net) && Enabled(cfg, net, ToClient(n))
    ensures Inv(cfg, Next(cfg, net, ToClient(n)))
  {
    hide Judge, Answers, ReadChunk, Verifies, Admissible;
    assert forall i :: 0 <= i < |net.served| ==> net.served[i] == net.requests[i];
    RepliesAreFrames(cfg, net.served, net.replies);
    LinkDelivers(Side.Client, CLIENT_CAP, net.replies, net.counted, net.clientBuf, net.downstream, n);
  }

  lemma StepKeepsInv(cfg: Config, net: Net, a: Action)
    requires Inv(cfg, net) && Enabled(cfg, net, a)
    ensures Inv(cfg, Next(cfg, net, a))
  {
    hide *;
    match a
    case Send(cmd, data) => SendKeepsInv(cfg, net, cmd, data);
    case ToServer(n, packets, junk) => ToServerKeepsInv(cfg, net, n, packets, junk);
    case ToClient(n) => ToClientKeepsInv(cfg, net, n);
  }

  lemma {:induction false} EveryStateKeepsInv(cfg: Config, actions: seq<Action>, net: Net)
    requires Run(cfg, actions, net)
    ensures Inv(cfg, net)
    decreases |actions|
  {
    hide Enabled, Next;
    if actions == [] {
      EmptyNeedsMore(Side.Server);
      EmptyNeedsMore(Side.Client);
    } else {
      var n := |actions| - 1;
      var prev :| Run(cfg, actions[..n], prev) && Enabled(cfg, prev, actions[n]) && net == Next(cfg, prev, actions[n]);
      EveryStateKeepsInv(cfg, actions[..n], prev);
      StepKeepsInv(cfg, prev, actions[n]);
    }
  }

  /**
   * rep carries the command of the i-th request req with the reply bit, frame id i, and a payload of the
   * prescribed size.
   */
  predicate CountedFor(i: nat, req: seq<byte>, rep: seq<byte>)
  {
    && |req| >= 7 && |rep| == 7 + ReplyLen(req)
    && rep[1] as int == req[1] as int + 0x80
    && rep[2] == req[2] == i % 256
  }

  /**
   * In every state of every run: each request is waiting (buffered or in flight towards the simulator),
   * or its reply is on the way, or its reply was counted, nothing twice and nothing lost; and the i-th
   * response counted answers the i-th request, with the reply bit set and frame id i modulo 256.
   */
  lemma RunInvariant(cfg: Config, actions: seq<Action>, net: Net)
    requires Run(cfg, actions, net)
    ensures |net.counted| <= |net.replies| == |net.served| <= |net.requests|
    ensures net.serverBuf + net.upstream == Flatten(net.requests[|net.served|..])
    ensures net.clientBuf + net.downstream == Flatten(net.replies[|net.counted|..])
    ensures net.lost == 0
    ensures net.frame == |net.requests| % 256
    ensures forall i :: 0 <= i < |net.counted| ==> CountedFor(i, net.requests[i], net.counted[i])
  {
    hide Judge, Answers, Verifies, Admissible, Run;
    EveryStateKeepsInv(cfg, actions, net);
    forall i | 0 <= i < |net.counted|
      ensures CountedFor(i, net.requests[i], net.counted[i])
    {
      assert net.counted[i] == net.replies[i] && net.served[i] == net.requests[i];
      ReplyIsAccepted(cfg, net.requests[i], net.replies[i]);
    }
  }

  /** Once both channels have run empty, every request has been answered and counted, and both buffers are empty. */
  lemma QuietMeansAnswered(cfg: Config, actions: seq<Action>, net: Net)
    requires Run(cfg, actions, net)
    requires net.upstream == [] && net.downstream == []
    ensures |net.counted| == |net.requests|
    ensures net.serverBuf == [] && net.clientBuf == []
  {
    hide Judge, Answers, Verifies, Run;
    EveryStateKeepsInv(cfg, actions, net);
    var waiting := net.requests[|net.served|..];
    if waiting != [] {
      assert Admissible(cfg, net.requests[|net.served|]);
      EmptyLinkIsDone(Side.Server, SERVER_CAP, waiting, net.serverBuf);
    }
    assert forall i :: 0 <= i < |net.served| ==> net.served[i] == net.requests[i];
    RepliesAreFrames(cfg, net.served, net.replies);
    var coming := net.replies[|net.counted|..];
    if coming != [] {
      assert IsFrame(Side.Client, CLIENT_CAP, net.replies[|net.counted|]);
      EmptyLinkIsDone(Side.Client, CLIENT_CAP, coming, net.clientBuf);
    }
  }

  /** A buffer holding whole frames and nothing else does not wait for more. */
  lemma EmptyLinkIsDone(side: Side, cap: nat, fs: seq<seq<byte>>, buf: seq<byte>)
    requires fs != [] && IsFrame(side, cap, fs[0]) && Flatten(fs) == buf
    ensures !Judge(side, buf).NeedMore?
  {
    hide Verifies;
    JudgeIsStable(side, fs[0], Flatten(fs[1..]));
  }

  // ----- The reply capacity as it stands

  /** A client that gets p first never counts a response, whatever arrives after it and however it is split up. */
  ghost predicate Silences(p: seq<byte>)
  {
    forall chunks: seq<seq<byte>> :: p <= Flatten(chunks) ==> ReadAll(Side.Client, CLIENT_CAP, chunks).frames == []
  }

  lemma HopelessSilences(p: seq<byte>)
    requires Hopeless(Side.Client, CLIENT_CAP, p)
    ensures Silences(p)
  {
    hide Judge, Fits, Hopeless, CutStream, ReadAll;
    forall chunks: seq<seq<byte>> | p <= Flatten(chunks)
      ensures ReadAll(Side.Client, CLIENT_CAP, chunks).frames == []
    {
      var s := Flatten(chunks);
      AnyFragmentation(Side.Client, CLIENT_CAP, chunks);
      HopelessIsForever(Side.Client, CLIENT_CAP, p, s[|p|..]);
      assert s == p + s[|p|..];
      CutOfStuck(Side.Client, CLIENT_CAP, s);
    }
  }

  lemma AcceptedDoesNotSilence(p: seq<byte>)
    requires IsFrame(Side.Client, CLIENT_CAP, p)
    ensures !Silences(p)
  {
    hide IsFrame, Judge, ReadAll, CutStream;
    FlattenOne(p);
    assert p + [] == p;
    CutFirst(Side.Client, CLIENT_CAP, p, []);
    AnyFragmentation(Side.Client, CLIENT_CAP, [p]);
  }

  /**
   * The code as it stands gives the reply builder the size of a pointer as capacity. With some content of
   * the output buffer, the packet for a request then silences the client for good, if and only if the
   * reply to the request has two or more payload bytes.
   */
  lemma PointerSizeSilencesExactly(req: seq<byte>)
    requires WellFormed(req)
    ensures (exists was: seq<byte> :: MayHold(was, req) && Silences(PacketFor(PointerSize, req, was)))
      <==> ReplyLen(req) >= 2
  {
    hide Judge, Verifies, ReplyLen, Silences, PacketFor;
    if ReplyLen(req) >= 2 {
      StaleZeros(req);
      var was: seq<byte> := seq(OUTPUT_MIN + ReplyLen(req), i => 0);
      HopelessSilences(PacketFor(PointerSize, req, was));
    } else {
      PointerSizedRoomSuffices(req);
      forall was: seq<byte> | MayHold(was, req)
        ensures !Silences(PacketFor(PointerSize, req, was))
      {
        var p := PacketFor(PointerSize, req, was);
        MirrorIsFrame(req, p);
        AcceptedDoesNotSilence(p);
      }
    }
  }

  lemma MirrorIsFrame(req: seq<byte>, p: seq<byte>)
    requires WellFormed(req) && Decode(p).Some? && FrameLen(p) == |p| && Mirrors(false, req, Decode(p).value)
    requires |p| <= CLIENT_CAP
    ensures IsFrame(Side.Client, CLIENT_CAP, p)
  {
    hide ReplyLen, ReplyStatus, Sum;
    assert Judge(Side.Server, req).Accept?;
  }

  /**
   * For one: reading the inputs as the first request, with the simulator's output buffer at its initial
   * size and zero, brings a packet that fails verification, and no response is ever counted.
   */
  lemma DinReadCanSilence(frame: byte)
    ensures var req := Encode(Request(CMD_DIN_R, frame, []));
      exists was: seq<byte> :: |was| == 37 && MayHold(was, req) &&
        var p := PacketFor(PointerSize, req, was);
        && WellFormed(req) && Judge(Side.Client, p) == Bad
        && Hopeless(Side.Client, CLIENT_CAP, p) && Silences(p)
  {
    hide Verifies, Silences, PacketFor;
    var req := Encode(Request(CMD_DIN_R, frame, []));
    var was: seq<byte> := seq(OUTPUT_MIN, i => 0);
    EncodeVerifies(Request(CMD_DIN_R, frame, []));
    assert ReplyLen(req) == 3 && MayHold(was, req);
    StaleZerosOf(req, was);
    HopelessSilences(PacketFor(PointerSize, req, was));
  }

  // ----- Progress

  /** Every well-formed request has a packet that answers it. */
  lemma SomeAnswer(cfg: Config, req: seq<byte>) returns (rep: seq<byte>)
    requires WellFormed(req)
    ensures Answers(cfg.room, cfg.randfail, req, rep)
  {
    var data: seq<byte> := seq(ReplyLen(req), i => 0);
    var m := Msg(MSG_START, ReplyCmd(req[1]), req[2], ReplyStatus(req), data);
    rep := Encode(m);
    EncodeVerifies(m);
  }

  lemma {:induction false} SomeAnswers(cfg: Config, reqs: seq<seq<byte>>) returns (packets: seq<seq<byte>>)
    requires forall i :: 0 <= i < |reqs| ==> WellFormed(reqs[i])
    ensures S.AllAnswered(cfg.room, cfg.randfail, reqs, packets)
  {
    hide Answers, WellFormed;
    if reqs == [] {
      packets := [];
    } else {
      var n := |reqs| - 1;
      var before := SomeAnswers(cfg, reqs[..n]);
      var last := SomeAnswer(cfg, reqs[n]);
      packets := before + [last];
      assert forall i :: 0 <= i < n ==> reqs[..n][i] == reqs[i];
    }
  }

  lemma RunExtends(cfg: Config, actions: seq<Action>, net: Net, a: Action)
    requires Run(cfg, actions, net) && Enabled(cfg, net, a)
    ensures Run(cfg, actions + [a], Next(cfg, net, a))
  {
    hide Enabled, Next;
    assert (actions + [a])[..|actions|] == actions;
  }

  /**
   * No run gets stuck: from every reachable state, delivering what is in flight leads to a state with the
   * same requests in which every one of them has been answered and counted.
   */
  lemma EveryRunCanFinish(cfg: Config, actions: seq<Action>, net: Net)
    requires Run(cfg, actions, net)
    ensures exists more: seq<Action>, end: Net ::
      Run(cfg, actions + more, end) && end.requests == net.requests && |end.counted| == |net.requests|
  {
    hide Judge, ReadChunk, Answers, Run;
    EveryStateKeepsInv(cfg, actions, net);
    var n := |net.upstream|;
    var packets := AnswersForAll(cfg, net, n);
    var a := ToServer(n, packets, []);
    var mid := Next(cfg, net, a);
    RunExtends(cfg, actions, net, a);
    EveryStateKeepsInv(cfg, actions + [a], mid);
    var b := ToClient(|mid.downstream|);
    var end := Next(cfg, mid, b);
    RunExtends(cfg, actions + [a], mid, b);
    assert actions + [a] + [b] == actions + [a, b];
    assert end.upstream == [] && end.downstream == [];
    QuietMeansAnswered(cfg, actions + [a, b], end);
  }

  lemma AnswersForAll(cfg: Config, net: Net, n: nat) returns (packets: seq<seq<byte>>)
    requires Inv(cfg, net) && n <= |net.upstream|
    ensures S.AllAnswered(cfg.room, cfg.randfail, Served(net, n).frames, packets)
  {
    hide Judge, ReadChunk, Answers;
    RequestsAreFrames(cfg, net);
    LinkDelivers(Side.Server, SERVER_CAP, net.requests, net.served, net.serverBuf, net.upstream, n);
    var fs := Served(net, n).frames;
    forall i | 0 <= i < |fs|
      ensures WellFormed(fs[i])
    {
      assert fs[i] == (net.served + fs)[|net.served| + i] == net.requests[|net.served| + i];
      assert Admissible(cfg, net.requests[|net.served| + i]);
    }
    packets := SomeAnswers(cfg, fs);
  }

  /** The register writes the generators produce may be sent in every configuration, the code as it stands included. */
  lemma WritesAreAdmissible(cfg: Config, config: bool, frame: byte, mask: nat, value: nat)
    ensures Admissible(cfg, Encode(Request(if config then CMD_DCONF_W else CMD_DOUT_W, frame, PairData(mask, value))))
  {
    EncodeVerifies(Request(if config then CMD_DCONF_W else CMD_DOUT_W, frame, PairData(mask, value)));
  }

  // ----- The classes take these steps

  /** The simulator object is in the state the net describes. */
  ghost predicate ServerAt(cfg: Config, svr: S.EdioServer, net: Net)
    reads svr, svr.buffer
  {
    && svr.Valid() && svr.room == cfg.room && svr.flgRandfail == cfg.randfail
    && svr.Contents() == net.serverBuf && svr.consumed == net.served
    && svr.replies == net.replies && svr.sent == net.replies
  }

  /**
   * The client object is in the state the net describes: its receive side, its frame id, and the packets
   * it sent, which are the requests and the empty packets of Sleep lines.
   */
  ghost predicate ClientAt(cli: C.EdioClient, net: Net)
    reads cli, cli.buffer
  {
    && cli.Valid() && cli.Contents() == net.clientBuf && cli.consumed == net.counted
    && cli.frame == net.frame && NonEmpty(cli.sent) == net.requests && cli.numRequests == |cli.sent|
  }

  /** How many Sleep lines the client has processed. */
  ghost function Sleeps(cli: C.EdioClient): int
    reads cli
  {
    |cli.sent| - |NonEmpty(cli.sent)|
  }

  /**
   * The client's own counters: every request counted as sent is a Sleep line, or counted as answered, or
   * its reply is on the way, or it is still waiting; and its next frame id is the number of real requests.
   */
  lemma CountersBalance(cfg: Config, actions: seq<Action>, net: Net, cli: C.EdioClient)
    requires Run(cfg, actions, net) && ClientAt(cli, net)
    ensures cli.numRequests ==
      Sleeps(cli) + cli.numResponds + (|net.replies| - |net.counted|) + (|net.requests| - |net.served|)
    ensures cli.frame == |NonEmpty(cli.sent)| % 256
    ensures net.upstream == [] && net.downstream == [] ==> cli.numRequests == Sleeps(cli) + cli.numResponds
  {
    hide Run, Judge, Answers, Verifies, Admissible, NonEmpty;
    EveryStateKeepsInv(cfg, actions, net);
    if net.upstream == [] && net.downstream == [] {
      QuietMeansAnswered(cfg, actions, net);
    }
  }

  /** Running the simulator's read callback on the next n bytes is a step of the pipeline. */
  method DeliverToServer(cfg: Config, svr: S.EdioServer, ghost net: Net, buf: array<byte>, n: nat)
    returns (ghost net': Net)
    requires Inv(cfg, net) && ServerAt(cfg, svr, net)
    requires n <= |net.upstream| && n <= buf.Length && buf[..n] == net.upstream[..n] && buf != svr.buffer
    modifies svr`szData, svr`closed, svr`sent, svr`consumed, svr`replies, svr`junk, svr`dropped, svr`stream, svr.buffer
    ensures Inv(cfg, net') && ServerAt(cfg, svr, net') && svr.closed == old(svr.closed)
    ensures exists packets ::
      Enabled(cfg, net, ToServer(n, packets, [])) && net' == Next(cfg, net, ToServer(n, packets, []))
  {
    hide Judge, Answers, ReadChunk, Verifies, Received;
    svr.OnRead(buf, n);
    ghost var packets := svr.replies[|net.replies|..];
    ghost var o := Served(net, n);
    assert svr.replies == net.replies + packets;
    forall i | 0 <= i < |o.frames|
      ensures Answers(cfg.room, cfg.randfail, o.frames[i], packets[i])
    {
      assert svr.consumed[|net.served| + i] == o.frames[i] && svr.replies[|net.replies| + i] == packets[i];
    }
    net' := Next(cfg, net, ToServer(n, packets, []));
    ToServerKeepsInv(cfg, net, n, packets, []);
  }

  /** Running the client's read callback on the next n bytes is a step of the pipeline. */
  method DeliverToClient(cfg: Config, cli: C.EdioClient, ghost net: Net, buf: array<byte>, n: nat)
    returns (ghost net': Net)
    requires Inv(cfg, net) && ClientAt(cli, net)
    requires n <= |net.downstream| && n <= buf.Length && buf[..n] == net.downstream[..n] && buf != cli.buffer
    modifies cli`szData, cli`numResponds, cli`consumed, cli`stream, cli`dropped, cli.buffer
    ensures Inv(cfg, net') && ClientAt(cli, net')
    ensures Enabled(cfg, net, ToClient(n)) && net' == Next(cfg, net, ToClient(n))
  {
    hide Judge, Answers, ReadChunk, Verifies, Received;
    cli.OnRead(buf, n);
    net' := Next(cfg, net, ToClient(n));
    ToClientKeepsInv(cfg, net, n);
  }
}
