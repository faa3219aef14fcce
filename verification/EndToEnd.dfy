/**
 * The pieces joined: the client's command interpreter feeds the pipeline of client and simulator, and what
 * the generated text does to the device when it travels through that pipeline.
 */
module EndToEnd {
  import opened Bytes
  import opened Wrappers
  import opened Frame
  import opened Codec
  import opened Replies
  import opened Text
  import opened Gencctcmd
  import opened Commands
  import opened D = Device
  import opened Pipeline
  import F = Framing
  import C = Client

  // ----- The command interpreter takes the Send steps

  /** The payload is an address and a count. */
  ghost predicate IsAddressData(data: seq<byte>)
  {
    exists address: nat, count: nat ::
      address < 0x1_0000 && count < 0x1_0000 && data == AddressData(address, count)
  }

  /**
   * Every packet a line puts on the wire is a request with the client's frame id and one of the listed opcodes;
   * if it reads memory, address and count are in it.
   */
  lemma PacketIsRequest(line: string, frame: byte)
    requires CompileLine(line, frame).Packet? && CompileLine(line, frame).bytes != []
    ensures exists cmd, data ::
      && CompileLine(line, frame) == Sent(cmd, frame, data)
      && F.Listed(cmd as int) && (IsMemRead(cmd) ==> IsAddressData(data))
  {
    hide StartsWith, FirstArg, TwoArgs, AddressData, PairData;
  }

  /**
   * Every packet of at most 65 bytes that a line puts on the wire is one the simulator takes, and the same
   * packet with the reply bit set is one the client takes.
   */
  lemma LineIsAccepted(line: string, frame: byte)
    requires CompileLine(line, frame).Packet? && CompileLine(line, frame).bytes != []
    requires |CompileLine(line, frame).bytes| <= 65
    ensures var bytes := CompileLine(line, frame).bytes;
      && F.IsFrame(F.Side.Server, 65, bytes)
      && Decode(bytes).Some? && Decode(bytes).value.cmd < 0x80
      && var m := Decode(bytes).value;
         F.IsFrame(F.Side.Client, 1031, Encode(m.(cmd := m.cmd as int + 0x80)))
  {
    hide CompileLine, Encode, F.Judge, F.Listed, IsMemRead;
    PacketIsRequest(line, frame);
    var cmd, data :| CompileLine(line, frame) == Sent(cmd, frame, data) && F.Listed(cmd as int);
    ListedIsAccepted(cmd, frame, data);
  }

  lemma ListedIsAccepted(cmd: byte, frame: byte, data: seq<byte>)
    requires F.Listed(cmd as int) && 7 + |data| <= 65
    ensures var m := Request(cmd, frame, data);
      && Decode(Encode(m)) == Some(m) && cmd < 0x80
      && F.IsFrame(F.Side.Server, 65, Encode(m))
      && F.IsFrame(F.Side.Client, 1031, Encode(m.(cmd := m.cmd as int + 0x80)))
  {
    hide Encode, Sum, Verifies, F.Judge;
    var m := Request(cmd, frame, data);
    var m' := m.(cmd := m.cmd as int + 0x80);
    EncodeVerifies(m);
    Layout(m);
    Layout(m');
    assert Encode(m)[..7 + |data|] == Encode(m) && Encode(m')[..7 + |data|] == Encode(m');
    F.VerdictOnFrame(F.Side.Server, Encode(m));
    F.VerdictOnFrame(F.Side.Client, Encode(m'));
  }

  /** The requests that are answered without payload. */
  predicate OnlyWrites(cmd: int)
  {
    || cmd == 0x03 || cmd == 0x05 || cmd == 0x31 || cmd == 0x50
    || cmd == 0x41 || cmd == 0x43 || cmd == 0x45 || cmd == 0x47
  }

  /**
   * And it may be sent in every run with the checked output capacity, unless it asks for more bootloader memory
   * than the client's buffer holds; with the pointer-sized capacity, if its reply has no payload.
   */
  lemma LineIsSendable(cfg: Config, line: string, frame: byte)
    requires !CompileLine(line, frame).Undefined?
    requires var e := CompileLine(line, frame);
      e.Packet? && e.bytes != [] ==>
        && |e.bytes| <= 65 && (cfg.room.OutputSize? || (|e.bytes| > 1 && OnlyWrites(e.bytes[1])))
        && (|e.bytes| == 11 && e.bytes[1] as int == 0x46 ==> LE(e.bytes[8..10]) <= 1024)
    ensures Sendable(cfg, CompileLine(line, frame))
  {
    hide CompileLine, Encode, F.Judge, F.Listed, IsMemRead, Admissible;
    var e := CompileLine(line, frame);
    if e.Packet? && e.bytes != [] {
      PacketIsRequest(line, frame);
      var cmd, data :|
        e == Sent(cmd, frame, data) && F.Listed(cmd as int) && (IsMemRead(cmd) ==> IsAddressData(data));
      RequestHeader(cmd, frame, data);
      assert e.bytes[1] == e.bytes[..4][1];
      ListedIsAdmissible(cfg, cmd, frame, data);
    }
  }

  lemma ListedIsAdmissible(cfg: Config, cmd: byte, frame: byte, data: seq<byte>)
    requires F.Listed(cmd as int) && 7 + |data| <= 65 && (cfg.room.OutputSize? || OnlyWrites(cmd))
    requires IsMemRead(cmd) ==> IsAddressData(data)
    requires |data| == 4 && cmd as int == 0x46 ==> LE(Encode(Request(cmd, frame, data))[8..10]) <= 1024
    ensures Admissible(cfg, Encode(Request(cmd, frame, data)))
  {
    hide Encode, Sum, Verifies, F.Judge, LE, ValueAt, AddressData, ReplyLen;
    var m := Request(cmd, frame, data);
    ListedIsAccepted(cmd, frame, data);
    Layout(m);
    if IsMemRead(cmd) {
      var address: nat, count: nat :|
        address < 0x1_0000 && count < 0x1_0000 && data == AddressData(address, count);
      MemReadReply(cmd, frame, address, count);
      CountInFrame(cmd, frame, address, count);
    } else {
      PlainSizes(cmd, Encode(m));
    }
  }

  lemma PlainSizes(cmd: byte, req: seq<byte>)
    requires F.Listed(cmd as int) && !IsMemRead(cmd) && |req| >= 7 && req[1] == cmd
    ensures ReplyLen(req) <= 12 && (OnlyWrites(cmd) ==> ReplyLen(req) == 0)
  {
  }

  lemma CountInFrame(cmd: byte, frame: byte, address: nat, count: nat)
    requires address < 0x1_0000 && count < 0x1_0000
    ensures LE(Encode(Request(cmd, frame, AddressData(address, count)))[8..10]) == count
  {
    hide Encode, LE, AddressData;
    AddressRoundTrip(cmd, frame, address, count, []);
    var s := Encode(Request(cmd, frame, AddressData(address, count)));
    assert s + [] == s;
  }

  /** The packet of the line, if it puts bytes on the wire, is a request the run may contain. */
  predicate Sendable(cfg: Config, e: Effect)
  {
    match e
    case Undefined => false
    case Ignored => true
    case Packet(bytes, _) => bytes == [] || Admissible(cfg, bytes)
  }

  /** The net after a line: a request was sent, or nothing happened (a Sleep line, or one that is ignored). */
  ghost predicate LineStep(cfg: Config, net: Net, e: Effect, after: Net)
  {
    if e.Packet? && e.bytes != [] then
      exists cmd, data ::
        && e == Sent(cmd, net.frame, data) && Enabled(cfg, net, Send(cmd, data))
        && after == Next(cfg, net, Send(cmd, data))
    else after == net
  }

  /** The net after one packet was sent, empty or not. */
  function AfterOne(net: Net, bytes: seq<byte>, next: byte): Net
  {
    net.(frame := next, requests := net.requests + NonEmpty([bytes]), upstream := net.upstream + bytes)
  }

  /** The net after a line of the given effect. */
  function AfterLine(net: Net, e: Effect): Net
  {
    if e.Packet? then AfterOne(net, e.bytes, e.next) else net
  }

  /** A line that is sent is one Send step, which adds its packet and moves the frame id on. */
  lemma LineIsStep(cfg: Config, net: Net, line: string) returns (after: Net)
    requires Inv(cfg, net) && Sendable(cfg, CompileLine(line, net.frame))
    ensures Inv(cfg, after) && LineStep(cfg, net, CompileLine(line, net.frame), after)
    ensures after == AfterLine(net, CompileLine(line, net.frame))
  {
    hide CompileLine, Admissible, Inv, Encode;
    var e := CompileLine(line, net.frame);
    after := net;
    if e.Packet? {
      NonEmptyOne(e.bytes);
      if e.bytes != [] {
        PacketIsRequest(line, net.frame);
        var cmd, data :| e == Sent(cmd, net.frame, data);
        InvBounds(cfg, net);
        after := Next(cfg, net, Send(cmd, data));
        StepKeepsInv(cfg, net, Send(cmd, data));
      } else {
        EmptyPacketKeepsFrame(line, net.frame);
        assert net.requests + [] == net.requests && net.upstream + [] == net.upstream;
      }
    }
  }

  lemma InvBounds(cfg: Config, net: Net)
    requires Inv(cfg, net)
    ensures |net.serverBuf| <= SERVER_CAP && |net.clientBuf| <= CLIENT_CAP
  {
    hide F.Judge, Numbered;
  }

  lemma EmptyPacketKeepsFrame(line: string, frame: byte)
    requires CompileLine(line, frame).Packet? && CompileLine(line, frame).bytes == []
    ensures CompileLine(line, frame).next == frame
  {
    hide StartsWith, FirstArg, TwoArgs, PlainCommand;
  }

  /** process_command on the client object is that step of the pipeline; a Sleep line only counts as a request. */
  method SendLine(cfg: Config, cli: C.EdioClient, ghost net: Net, line: string) returns (ghost after: Net)
    requires Inv(cfg, net) && ClientAt(cli, net) && Sendable(cfg, CompileLine(line, cli.frame))
    modifies cli`frame, cli`sent, cli`numRequests
    ensures Inv(cfg, after) && ClientAt(cli, after)
    ensures LineStep(cfg, net, CompileLine(line, net.frame), after)
    ensures cli.numRequests == old(cli.numRequests) + if CompileLine(line, net.frame).Packet? then 1 else 0
  {
    hide CompileLine, Admissible, Inv, LineStep;
    after := LineIsStep(cfg, net, line);
    ghost var e, before := CompileLine(line, net.frame), cli.sent;
    ProcessCommand(cli, line);
    if e.Packet? {
      NonEmptyConcat(before, [e.bytes]);
    }
  }

  // ----- A whole file

  /** All lines of the file are defined, and what they send is what the run may contain. */
  predicate AllSendable(cfg: Config, lines: seq<string>, frame: byte)
    decreases |lines|
  {
    lines == [] ||
    var e := CompileLine(lines[0], frame);
    Sendable(cfg, e) && AllSendable(cfg, lines[1..], if e.Packet? then e.next else frame)
  }

  /** What sending the packets of a file leaves behind: the requests made, the bytes in flight, the frame id. */
  function AfterSending(net: Net, p: Program): Net
  {
    net.(frame := p.frame, requests := net.requests + NonEmpty(p.packets),
         upstream := net.upstream + Flatten(p.packets))
  }

  /** One line more in front. */
  lemma AfterSendingMore(net: Net, bytes: seq<byte>, next: byte, p: Program)
    ensures AfterSending(net, Program([bytes] + p.packets, p.frame)) == AfterSending(AfterOne(net, bytes, next), p)
  {
    hide Flatten, NonEmpty;
    NonEmptyConcat([bytes], p.packets);
    FlattenConcat([bytes], p.packets);
    FlattenOne(bytes);
    var one, more := NonEmpty([bytes]), NonEmpty(p.packets);
    assert net.requests + (one + more) == net.requests + one + more;
    assert net.upstream + (bytes + Flatten(p.packets)) == net.upstream + bytes + Flatten(p.packets);
  }

  lemma NothingSent(net: Net)
    ensures AfterSending(net, Program([], net.frame)) == net
  {
    assert net.requests + [] == net.requests && net.upstream + [] == net.upstream;
  }

  lemma RunByLine(cfg: Config, actions: seq<Action>, net: Net, line: string) returns (more: seq<Action>, after: Net)
    requires Run(cfg, actions, net) && Sendable(cfg, CompileLine(line, net.frame))
    ensures Run(cfg, actions + more, after)
    ensures after == AfterLine(net, CompileLine(line, net.frame))
  {
    hide CompileLine, Inv, Run, Enabled, Next, Sendable;
    EveryStateKeepsInv(cfg, actions, net);
    after := LineIsStep(cfg, net, line);
    var e := CompileLine(line, net.frame);
    if e.Packet? && e.bytes != [] {
      var cmd, data :|
        && e == Sent(cmd, net.frame, data) && Enabled(cfg, net, Send(cmd, data))
        && after == Next(cfg, net, Send(cmd, data));
      more := [Send(cmd, data)];
      RunExtends(cfg, actions, net, Send(cmd, data));
    } else {
      more := [];
      assert actions + [] == actions;
    }
  }

  /** From any reachable state, the lines of a file lead to a reachable state: the packets are sent one by one. */
  lemma {:induction false} FileIsRun(cfg: Config, actions: seq<Action>, net: Net, lines: seq<string>)
    returns (more: seq<Action>)
    requires Run(cfg, actions, net) && AllSendable(cfg, lines, net.frame)
    ensures Run(cfg, actions + more, AfterSending(net, CompileAll(lines, net.frame)))
    decreases |lines|
  {
    hide CompileLine, Run, Sendable, AfterSending;
    if lines == [] {
      NothingSent(net);
      more := [];
      assert actions + [] == actions;
    } else {
      var first, after := RunByLine(cfg, actions, net, lines[0]);
      var rest := FileIsRun(cfg, actions + first, after, lines[1..]);
      more := first + rest;
      assert actions + first + rest == actions + more;
      match CompileLine(lines[0], net.frame) {
        case Packet(bytes, next) => AfterSendingMore(net, bytes, next, CompileAll(lines[1..], next));
        case _ =>
      }
    }
  }

  lemma {:induction false} SendableIsDefined(cfg: Config, lines: seq<string>, frame: byte)
    requires AllSendable(cfg, lines, frame)
    ensures AllDefined(lines, frame)
    decreases |lines|
  {
    hide CompileLine, Admissible;
    if lines != [] {
      var e := CompileLine(lines[0], frame);
      SendableIsDefined(cfg, lines[1..], if e.Packet? then e.next else frame);
    }
  }

  /**
   * Reading a command file on the client object takes the run to a state that shows exactly the file's
   * requests, numbered by the frame ids the packets carry.
   */
  method SendFile(cfg: Config, cli: C.EdioClient, ghost actions: seq<Action>, ghost net: Net, lines: seq<string>)
    returns (ghost more: seq<Action>, ghost after: Net)
    requires Run(cfg, actions, net) && ClientAt(cli, net) && AllSendable(cfg, lines, cli.frame)
    modifies cli`frame, cli`sent, cli`numRequests
    ensures Run(cfg, actions + more, after) && ClientAt(cli, after)
    ensures after == AfterSending(net, CompileAll(lines, net.frame))
  {
    hide Run, CompileAll, AllSendable, AllDefined, NonEmpty;
    more := FileIsRun(cfg, actions, net, lines);
    after := AfterSending(net, CompileAll(lines, net.frame));
    SendableIsDefined(cfg, lines, net.frame);
    NonEmptyConcat(cli.sent, CompileAll(lines, net.frame).packets);
    ProcessFile(cli, lines);
  }

  // ----- The generated text in the pipeline

  lemma WriteIsSendable(cfg: Config, config: bool, m: nat, v: nat, frame: byte)
    requires m < 0x100_0000 && v < 0x100_0000
    ensures Sendable(cfg, CompileLine(WriteLine(if config then "DConfigW" else "DOutW", m, v), frame))
  {
    hide CompileLine, WriteLine, Encode, Admissible;
    var line := WriteLine(if config then "DConfigW" else "DOutW", m, v);
    TextToDevice(config, m, v, "", frame, []);
    assert line + "" == line;
    WritesAreAdmissible(cfg, config, frame, m, v);
  }

  lemma PlainIsSendable(cfg: Config, line: string, frame: byte)
    requires Plain(line)
    ensures Sendable(cfg, CompileLine(line, frame)) && Sendable(cfg, CompileLine(line + NEWLINE, frame))
  {
    hide CompileLine, WriteLine, Admissible, Deliverable;
    PlainIsDeliverable(line, frame);
    if m: nat, v: nat :| m < 0x100_0000 && v < 0x100_0000 && line == WriteLine("DConfigW", m, v) {
      WriteIsSendable(cfg, true, m, v, frame);
    } else if m: nat, v: nat :| m < 0x100_0000 && v < 0x100_0000 && line == WriteLine("DOutW", m, v) {
      WriteIsSendable(cfg, false, m, v, frame);
    } else if line == "" {
      CompileBlank("", frame);
    } else {
      CompileSleep("", frame);
      assert "Sleep 1" + "" == "Sleep 1";
    }
  }

  /** The generated text may be sent in every configuration, the code as it stands included. */
  lemma {:induction false} PlainTextIsSendable(cfg: Config, lines: seq<string>, frame: byte)
    requires forall i :: 0 <= i < |lines| ==> Plain(lines[i])
    ensures AllSendable(cfg, Printed(lines), frame)
    decreases |lines|
  {
    hide CompileLine, Plain, Sendable;
    if lines != [] {
      PlainIsSendable(cfg, lines[0], frame);
      assert forall i :: 0 <= i < |lines| - 1 ==> lines[1..][i] == lines[i + 1];
      assert Printed(lines)[1..] == Printed(lines[1..]);
      var e := CompileLine(lines[0] + NEWLINE, frame);
      PlainTextIsSendable(cfg, lines[1..], if e.Packet? then e.next else frame);
    }
  }

  /**
   * A run whose last requests are those of generated text, and in which everything sent was counted as
   * answered: the simulator took all requests in order, so the text has run on the device.
   */
  lemma TextHasRun(cfg: Config, actions: seq<Action>, net: Net, d: Device, before: seq<seq<byte>>,
                   lines: seq<string>, frame: byte)
    requires d.Valid() && Run(cfg, actions, net) && |net.counted| == |net.requests|
    requires forall i :: 0 <= i < |lines| ==> Plain(lines[i])
    requires net.requests == before + NonEmpty(CompileAll(Printed(lines), frame).packets)
    ensures ExecAll(d, net.served) == RunText(ExecAll(d, before), lines, frame)
  {
    hide Run, CompileAll, Plain, ExecAll, NonEmpty, Deliverable, AllDefined;
    AllServed(cfg, actions, net);
    PlainTextIsDeliverable(lines, frame);
    var packets := CompileAll(lines, frame).packets;
    ExecAllConcat(d, before, NonEmpty(packets));
    NonEmptyIsEnough(ExecAll(d, before), packets);
  }

  lemma AllServed(cfg: Config, actions: seq<Action>, net: Net)
    requires Run(cfg, actions, net) && |net.counted| == |net.requests|
    ensures net.served == net.requests
  {
    hide Run, Numbered, F.Judge;
    EveryStateKeepsInv(cfg, actions, net);
  }

  /**
   * The attenuation command through the pipeline: in every run whose last requests are those of the
   * generated text, once both channels have run empty, every request is counted as answered and the
   * attenuators are set, whatever the device did before.
   */
  lemma AttenuationInPipeline(cfg: Config, actions: seq<Action>, net: Net, d: Device, before: seq<seq<byte>>,
                              boards: nat, val: nat, frame: byte)
    requires d.Valid() && Run(cfg, actions, net) && net.upstream == [] && net.downstream == []
    requires net.requests == before + NonEmpty(CompileAll(Printed(DeviceAtten(boards, val)), frame).packets)
    ensures |net.counted| == |net.requests|
    ensures AttenSet(ExecAll(d, before), ExecAll(d, net.served), boards, val / 2 % 0x100, (val - val / 2) % 0x100)
  {
    hide Run, CompileAll, DeviceAtten, Plain, ExecAll, RunText, AttenSet, Printed, NonEmpty;
    QuietMeansAnswered(cfg, actions, net);
    DeviceAttenIsPlain(boards, val);
    TextHasRun(cfg, actions, net, d, before, DeviceAtten(boards, val), frame);
    AttenuationCompiled(ExecAll(d, before), boards, val, frame);
  }

  /** The same for the power command. */
  lemma PowerInPipeline(cfg: Config, actions: seq<Action>, net: Net, d: Device, before: seq<seq<byte>>,
                        mask: nat, frame: byte)
    requires d.Valid() && Run(cfg, actions, net) && net.upstream == [] && net.downstream == []
    requires net.requests == before + NonEmpty(CompileAll(Printed(DevicePower(mask % 0x200 / 2)), frame).packets)
    ensures |net.counted| == |net.requests|
    ensures PowerSet(ExecAll(d, before), ExecAll(d, net.served), mask)
  {
    hide Run, CompileAll, DevicePower, Plain, ExecAll, RunText, PowerSet, Printed, NonEmpty;
    QuietMeansAnswered(cfg, actions, net);
    PowerTextIsPlain(mask % 0x200 / 2);
    TextHasRun(cfg, actions, net, d, before, DevicePower(mask % 0x200 / 2), frame);
    PowerCompiled(ExecAll(d, before), mask, frame);
  }

  /**
   * And such runs exist: from every reachable state the attenuation command can be sent, answered and
   * counted in full, and then the attenuators are set.
   */
  lemma AttenuationReachable(cfg: Config, actions: seq<Action>, net: Net, d: Device, boards: nat, val: nat)
    requires d.Valid() && Run(cfg, actions, net)
    ensures exists more: seq<Action>, end: Net ::
      && Run(cfg, actions + more, end) && |end.counted| == |end.requests|
      && end.requests == net.requests + NonEmpty(CompileAll(Printed(DeviceAtten(boards, val)), net.frame).packets)
      && AttenSet(ExecAll(d, net.requests), ExecAll(d, end.served), boards, val / 2 % 0x100, (val - val / 2) % 0x100)
  {
    hide Run, CompileAll, DeviceAtten, Plain, ExecAll, RunText, AttenSet, Printed, NonEmpty, AllSendable;
    var lines := DeviceAtten(boards, val);
    DeviceAttenIsPlain(boards, val);
    PlainTextIsSendable(cfg, lines, net.frame);
    var sends := FileIsRun(cfg, actions, net, Printed(lines));
    var mid := AfterSending(net, CompileAll(Printed(lines), net.frame));
    EveryRunCanFinish(cfg, actions + sends, mid);
    var tail, end :| Run(cfg, actions + sends + tail, end) && end.requests == mid.requests
                     && |end.counted| == |mid.requests|;
    assert actions + sends + tail == actions + (sends + tail);
    TextHasRun(cfg, actions + (sends + tail), end, d, net.requests, lines, net.frame);
    AttenuationCompiled(ExecAll(d, net.requests), boards, val, net.frame);
  }
}
