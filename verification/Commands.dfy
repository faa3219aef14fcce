/** The client's command interpreter: one text line becomes at most one request packet. */
module Commands {
  import opened Bytes
  import opened Wrappers
  import opened Frame
  import opened Memory
  import opened Codec
  import opened Text
  import opened HexBuf
  import opened Client

  const BUFFER_SIZE: nat := 100

  /**
   * What a line does: nothing, or a packet goes out (an empty one for Sleep) and the frame id may move on.
   * Undefined stands for lines on which the code reads behind the end of the string or writes behind
   * its packet buffer.
   */
  datatype Effect = Ignored | Undefined | Packet(bytes: seq<byte>, next: byte)

  function NextFrame(frame: byte): byte
  {
    (frame as int + 1) % 256
  }

  function Sent(cmd: byte, frame: byte, data: seq<byte>): Effect
  {
    Packet(Encode(Request(cmd, frame, data)), NextFrame(frame))
  }

  /** A long assigned to an unsigned type of 8, 16 or 32 bits. */
  function Cast8(v: int): byte
  {
    v % 0x100
  }

  function Cast16(v: int): (r: nat)
    ensures r < 0x1_0000
  {
    v % 0x1_0000
  }

  function Cast32(v: int): nat
  {
    v % 0x1_0000_0000
  }

  /** One number at an offset, and where the text behind it and one separator starts. */
  datatype Args = Outside | Args(first: int, behind: nat)

  function FirstArg(line: string, off: nat): (a: Args)
    ensures a.Args? ==> off < a.behind
  {
    if off > |line| then Outside else Args(Strtol16(line[off..]).value, off + Strtol16(line[off..]).used + 1)
  }

  /** Two numbers read one after the other, the second one character behind the first. */
  function TwoArgs(line: string, off: nat): Option<(int, int)>
  {
    match FirstArg(line, off)
    case Outside => None
    case Args(v, q) => if q > |line| then None else Some((v, Strtol16(line[q..]).value))
  }

  function PairEffect(line: string, off: nat, cmd: byte, frame: byte): Effect
  {
    match TwoArgs(line, off)
    case None => Undefined
    case Some(p) => Sent(cmd, frame, PairData(Cast32(p.0), Cast32(p.1)))
  }

  /** All three memory reads take their arguments at offset 14, which is right for the shortest name only. */
  function MemREffect(line: string, cmd: byte, frame: byte): Effect
  {
    match TwoArgs(line, 14)
    case None => Undefined
    case Some(p) => Sent(cmd, frame, AddressData(Cast16(p.0), Cast16(p.1)))
  }

  function MemWEffect(line: string, off: nat, cmd: byte, frame: byte): Effect
  {
    match FirstArg(line, off)
    case Outside => Undefined
    case Args(v, q) =>
      if q > |line| then Undefined
      else match ParseHex(line[q..], BUFFER_SIZE)
        case None => Ignored
        case Some(data) =>
          if 9 + |data| > BUFFER_SIZE then Undefined else Sent(cmd, frame, Split(Cast16(v), 2) + data)
  }

  /** The commands without arguments, and the opcode each of them sends. */
  function PlainCommand(line: string): Option<byte>
  {
    if StartsWith(line, "DIn") then Some(CMD_DIN_R)
    else if StartsWith(line, "DOutR") then Some(CMD_DOUT_R)
    else if StartsWith(line, "DConfigR") then Some(CMD_DCONF_R)
    else if StartsWith(line, "CounterR") then Some(CMD_COUNTER_R)
    else if StartsWith(line, "CounterW") then Some(CMD_COUNTER_W)
    else if StartsWith(line, "Reset") then Some(CMD_STATUS)
    else if StartsWith(line, "Status") then Some(CMD_STATUS)
    else if StartsWith(line, "NetworkConfig") then Some(CMD_NETWORK_CONF)
    else None
  }

  /** The whole dispatch; names are matched as prefixes, and no name is a prefix of another. */
  function CompileLine(line: string, frame: byte): Effect
  {
    if StartsWith(line, "DOutW") then PairEffect(line, 6, CMD_DOUT_W, frame)
    else if StartsWith(line, "DConfigW") then PairEffect(line, 9, CMD_DCONF_W, frame)
    else if PlainCommand(line).Some? then Sent(PlainCommand(line).value, frame, [])
    else if StartsWith(line, "BlinkLED") then
      match FirstArg(line, 9)
      case Outside => Undefined
      case Args(v, q) => Sent(CMD_BLINKLED, frame, [Cast8(v)])
    else if StartsWith(line, "FirmwareUpgrade") then Sent(CMD_BLINKLED, frame, [0xAD, 0xAD])
    else if StartsWith(line, "BootloaderMemoryR") then MemREffect(line, CMD_BOOT_MEM_R, frame)
    else if StartsWith(line, "SettingsMemoryR") then MemREffect(line, CMD_SET_MEM_R, frame)
    else if StartsWith(line, "ConfigMemoryR") then MemREffect(line, CMD_CONF_MEM_R, frame)
    else if StartsWith(line, "ConfigMemoryW") then MemWEffect(line, 14, CMD_CONF_MEM_W, frame)
    else if StartsWith(line, "SettingsMemoryW") then MemWEffect(line, 16, CMD_SET_MEM_W, frame)
    else if StartsWith(line, "BootloaderMemoryW") then MemWEffect(line, 18, CMD_BOOT_MEM_W, frame)
    else if StartsWith(line, "Sleep") then Packet([], frame)
    else Ignored
  }

  /** The client's state after sending what a line asks for; an ignored line is not counted as a request. */
  ghost predicate Applied(e: Effect, frame0: byte, sent0: seq<seq<byte>>, count0: nat,
                          frame: byte, sent: seq<seq<byte>>, count: nat)
  {
    match e
    case Packet(bytes, next) => frame == next && sent == sent0 + [bytes] && count == count0 + 1
    case _ => frame == frame0 && sent == sent0 && count == count0
  }

  /** A builder's report, read back as an effect. */
  lemma BuiltIsSent(was: seq<byte>, now: seq<byte>, m: Msg, ret: int, next: byte)
    requires Built(was, now, true, m, ret, next)
    ensures ret == 7 + |m.data| && now[..ret] == Encode(m) && next == NextFrame(m.frame)
  {
    assert Overwrite(was, 0, Encode(m))[..7 + |m.data|] == Encode(m);
  }

  /** The DOutW and DConfigW branches. */
  method BuildPair(line: string, off: nat, config: bool, buffer: array<byte>, frame: byte)
    returns (ret: int, next: byte)
    requires buffer.Length == BUFFER_SIZE
    requires TwoArgs(line, off).Some?
    modifies buffer
    ensures 0 <= ret <= BUFFER_SIZE
    ensures Packet(buffer[..ret], next) == PairEffect(line, off, if config then CMD_DCONF_W else CMD_DOUT_W, frame)
  {
    hide Strtol16, Encode;
    var n := Strtol16(line[off..]);
    var mask := Cast32(n.value);
    var value := Cast32(Strtol16(line[off + n.used + 1..]).value);
    ghost var was := buffer[..];
    if config {
      ret, next := CreateDConfW(buffer, BUFFER_SIZE, frame, mask, value);
      BuiltIsSent(was, buffer[..], Request(CMD_DCONF_W, frame, PairData(mask, value)), ret, next);
    } else {
      ret, next := CreateDOutW(buffer, BUFFER_SIZE, frame, mask, value);
      BuiltIsSent(was, buffer[..], Request(CMD_DOUT_W, frame, PairData(mask, value)), ret, next);
    }
    assert buffer[..][..ret] == buffer[..ret];
  }

  /** The branches without arguments. */
  method BuildPlain(cmd: byte, buffer: array<byte>, frame: byte) returns (ret: int, next: byte)
    requires buffer.Length == BUFFER_SIZE
    modifies buffer
    ensures 0 <= ret <= BUFFER_SIZE
    ensures Packet(buffer[..ret], next) == Sent(cmd, frame, [])
  {
    hide Encode;
    ghost var was := buffer[..];
    if cmd == CMD_DIN_R {
      ret, next := CreateDinR(buffer, BUFFER_SIZE, frame);
    } else {
      ret, next := CreateShort(buffer, BUFFER_SIZE, frame, cmd);
    }
    BuiltIsSent(was, buffer[..], Request(cmd, frame, []), ret, next);
    assert buffer[..][..ret] == buffer[..ret];
  }

  /** The memory-read branches. */
  method BuildMemR(line: string, cmd: byte, buffer: array<byte>, frame: byte) returns (ret: int, next: byte)
    requires buffer.Length == BUFFER_SIZE
    requires TwoArgs(line, 14).Some?
    modifies buffer
    ensures 0 <= ret <= BUFFER_SIZE
    ensures Packet(buffer[..ret], next) == MemREffect(line, cmd, frame)
  {
    hide Strtol16, Encode;
    var n := Strtol16(line[14..]);
    var address := Cast16(n.value);
    var count := Cast16(Strtol16(line[14 + n.used + 1..]).value);
    ghost var was := buffer[..];
    if cmd == CMD_CONF_MEM_R {
      ret, next := CreateConfMemR(buffer, BUFFER_SIZE, frame, address, count);
    } else {
      ret, next := CreateMemR(buffer, BUFFER_SIZE, frame, cmd, address, count);
    }
    BuiltIsSent(was, buffer[..], Request(cmd, frame, AddressData(address, count)), ret, next);
    assert buffer[..][..ret] == buffer[..ret];
  }

  /** The memory-write branches; the hexadecimal argument is collected in a buffer of its own. */
  method BuildMemW(line: string, off: nat, cmd: byte, buffer: array<byte>, frame: byte) returns (ret: int, next: byte)
    requires buffer.Length == BUFFER_SIZE
    requires !MemWEffect(line, off, cmd, frame).Undefined?
    modifies buffer
    ensures -1 <= ret <= BUFFER_SIZE
    ensures MemWEffect(line, off, cmd, frame) == if ret < 0 then Ignored else Packet(buffer[..ret], next)
  {
    hide Strtol16, Encode, ParseHex, Split;
    var n := Strtol16(line[off..]);
    var address := Cast16(n.value);
    var arg := line[off + n.used + 1..];
    var buffer2 := new byte[BUFFER_SIZE];
    var count := ParseHexBuf(arg, buffer2, BUFFER_SIZE);
    if count < 0 {
      return -1, frame;
    }
    ghost var was, data := buffer[..], buffer2[..count];
    assert buffer2[0..0 + count] == data;
    if cmd == CMD_CONF_MEM_W {
      ret, next := CreateConfMemW(buffer, BUFFER_SIZE, frame, address, count, buffer2, 0);
    } else {
      ret, next := CreateMemW(buffer, BUFFER_SIZE, frame, cmd, address, count, buffer2, 0);
    }
    BuiltIsSent(was, buffer[..], Request(cmd, frame, Split(address, 2) + data), ret, next);
    assert buffer[..][..ret] == buffer[..ret];
  }

  /** The BlinkLED branch. */
  method BuildBlinkLed(address: byte, buffer: array<byte>, frame: byte) returns (ret: int, next: byte)
    requires buffer.Length == BUFFER_SIZE
    modifies buffer
    ensures 0 <= ret <= BUFFER_SIZE
    ensures Packet(buffer[..ret], next) == Sent(CMD_BLINKLED, frame, [address])
  {
    hide Encode;
    ghost var was := buffer[..];
    ret, next := CreateBlinkLed(buffer, BUFFER_SIZE, frame, address);
    BuiltIsSent(was, buffer[..], Request(CMD_BLINKLED, frame, [address]), ret, next);
    assert buffer[..][..ret] == buffer[..ret];
  }

  /** The FirmwareUpgrade branch. */
  method BuildFirmware(buffer: array<byte>, frame: byte) returns (ret: int, next: byte)
    requires buffer.Length == BUFFER_SIZE
    modifies buffer
    ensures 0 <= ret <= BUFFER_SIZE
    ensures Packet(buffer[..ret], next) == Sent(CMD_BLINKLED, frame, [0xAD, 0xAD])
  {
    hide Encode;
    ghost var was := buffer[..];
    ret, next := CreateFirmware(buffer, BUFFER_SIZE, frame);
    BuiltIsSent(was, buffer[..], Request(CMD_BLINKLED, frame, [0xAD, 0xAD]), ret, next);
    assert buffer[..][..ret] == buffer[..ret];
  }

  /** process_command: dispatch, build into a local buffer, send a copy, count the request. */
  method ProcessCommand(cli: EdioClient, line: string)
    requires !CompileLine(line, cli.frame).Undefined?
    modifies cli`frame, cli`sent, cli`numRequests
    ensures Applied(CompileLine(line, old(cli.frame)), old(cli.frame), old(cli.sent), old(cli.numRequests),
                    cli.frame, cli.sent, cli.numRequests)
  {
    hide PairEffect, MemREffect, MemWEffect, Strtol16, Sent, StartsWith, PlainCommand;
    var buffer1 := new byte[BUFFER_SIZE];
    var frame := cli.frame;
    var ret, next := -1, frame;
    if StartsWith(line, "DOutW") {
      PairArgsPresent(line, 6, CMD_DOUT_W, frame);
      ret, next := BuildPair(line, 6, false, buffer1, frame);
    } else if StartsWith(line, "DConfigW") {
      PairArgsPresent(line, 9, CMD_DCONF_W, frame);
      ret, next := BuildPair(line, 9, true, buffer1, frame);
    } else if PlainCommand(line).Some? {
      ret, next := BuildPlain(PlainCommand(line).value, buffer1, frame);
    } else if StartsWith(line, "BlinkLED") {
      var address := Strtol16(line[9..]).value;
      ret, next := BuildBlinkLed(Cast8(address), buffer1, frame);
    } else if StartsWith(line, "FirmwareUpgrade") {
      ret, next := BuildFirmware(buffer1, frame);
    } else if StartsWith(line, "BootloaderMemoryR") {
      MemRArgsPresent(line, CMD_BOOT_MEM_R, frame);
      ret, next := BuildMemR(line, CMD_BOOT_MEM_R, buffer1, frame);
    } else if StartsWith(line, "SettingsMemoryR") {
      MemRArgsPresent(line, CMD_SET_MEM_R, frame);
      ret, next := BuildMemR(line, CMD_SET_MEM_R, buffer1, frame);
    } else if StartsWith(line, "ConfigMemoryR") {
      MemRArgsPresent(line, CMD_CONF_MEM_R, frame);
      ret, next := BuildMemR(line, CMD_CONF_MEM_R, buffer1, frame);
    } else if StartsWith(line, "ConfigMemoryW") {
      ret, next := BuildMemW(line, 14, CMD_CONF_MEM_W, buffer1, frame);
    } else if StartsWith(line, "SettingsMemoryW") {
      ret, next := BuildMemW(line, 16, CMD_SET_MEM_W, buffer1, frame);
    } else if StartsWith(line, "BootloaderMemoryW") {
      ret, next := BuildMemW(line, 18, CMD_BOOT_MEM_W, buffer1, frame);
    } else if StartsWith(line, "Sleep") {
      ret := 0;
    }
    if ret < 0 {
      return;
    }
    assert CompileLine(line, frame) == Packet(buffer1[..ret], next);
    cli.frame := next;
    cli.sent := cli.sent + [buffer1[..ret]];
    cli.numRequests := cli.numRequests + 1;
  }

  lemma PairArgsPresent(line: string, off: nat, cmd: byte, frame: byte)
    requires !PairEffect(line, off, cmd, frame).Undefined?
    ensures TwoArgs(line, off).Some?
  {
  }

  lemma MemRArgsPresent(line: string, cmd: byte, frame: byte)
    requires !MemREffect(line, cmd, frame).Undefined?
    ensures TwoArgs(line, 14).Some?
  {
  }

  // ----- A whole file of lines

  datatype Program = Program(packets: seq<seq<byte>>, frame: byte)

  /** No line of the file is undefined, frame ids running from the given one. */
  predicate AllDefined(lines: seq<string>, frame: byte)
    decreases |lines|
  {
    lines == [] ||
    match CompileLine(lines[0], frame)
    case Undefined => false
    case Ignored => AllDefined(lines[1..], frame)
    case Packet(bytes, next) => AllDefined(lines[1..], next)
  }

  /** The packets that a file of lines makes the client send. */
  function CompileAll(lines: seq<string>, frame: byte): Program
    decreases |lines|
  {
    if lines == [] then Program([], frame)
    else match CompileLine(lines[0], frame)
      case Packet(bytes, next) =>
        var rest := CompileAll(lines[1..], next);
        Program([bytes] + rest.packets, rest.frame)
      case _ => CompileAll(lines[1..], frame)
  }

  /** A text file as fgets hands it over: every line with its newline. */
  function Printed(lines: seq<string>): (r: seq<string>)
    ensures |r| == |lines|
  {
    if lines == [] then [] else [lines[0] + NEWLINE] + Printed(lines[1..])
  }

  /** The packets of p, with made sent before them. */
  function Onto(made: seq<seq<byte>>, p: Program): Program
  {
    Program(made + p.packets, p.frame)
  }

  lemma OntoMore(made: seq<seq<byte>>, bytes: seq<byte>, p: Program)
    ensures Onto(made, Program([bytes] + p.packets, p.frame)) == Onto(made + [bytes], p)
  {
    assert made + ([bytes] + p.packets) == made + [bytes] + p.packets;
  }

  /** read_file_lines with process_command as its callback. */
  method ProcessFile(cli: EdioClient, lines: seq<string>)
    requires AllDefined(lines, cli.frame)
    modifies cli`frame, cli`sent, cli`numRequests
    ensures cli.sent == old(cli.sent) + CompileAll(lines, old(cli.frame)).packets
    ensures cli.frame == CompileAll(lines, old(cli.frame)).frame
    ensures cli.numRequests == old(cli.numRequests) + |CompileAll(lines, old(cli.frame)).packets|
  {
    hide CompileLine;
    ghost var whole := CompileAll(lines, cli.frame);
    assert lines[0..] == lines;
    ghost var made: seq<seq<byte>> := [];
    assert cli.sent + made == cli.sent;
    assert made + whole.packets == whole.packets;
    for i := 0 to |lines|
      invariant AllDefined(lines[i..], cli.frame)
      invariant cli.sent == old(cli.sent) + made && cli.numRequests == old(cli.numRequests) + |made|
      invariant whole == Onto(made, CompileAll(lines[i..], cli.frame))
    {
      ghost var e := CompileLine(lines[i], cli.frame);
      assert lines[i..][0] == lines[i] && lines[i..][1..] == lines[i + 1..];
      ProcessCommand(cli, lines[i]);
      if e.Packet? {
        OntoMore(made, e.bytes, CompileAll(lines[i + 1..], cli.frame));
        made := made + [e.bytes];
      }
    }
    assert made + [] == made;
  }

  // ----- What the typed numbers become

  /** A line with two numbers, read at the right offset. */
  lemma TwoArgsReadBack(name: string, a: nat, b: nat, tail: string)
    requires a < 0x100_0000 && b < 0x100_0000 && EndsNumber(tail)
    ensures TwoArgs(WriteLine(name, a, b) + tail, |name| + 1) == Some((a as int, b as int))
  {
    hide Strtol16, ArgText, WriteLine;
    var line := WriteLine(name, a, b) + tail;
    SuffixOfLine(name, a, b, tail, 0);
    ArgTextReadsBack(a, b, tail);
    assert line[|name| + 10..] == line[|name| + 1..][9..];
  }

  /** Two 24-bit numbers are sent as they are. */
  lemma PairSent(line: string, off: nat, cmd: byte, mask: nat, value: nat, frame: byte)
    requires mask < 0x100_0000 && value < 0x100_0000
    requires TwoArgs(line, off) == Some((mask as int, value as int))
    ensures PairEffect(line, off, cmd, frame) == Sent(cmd, frame, PairData(mask, value))
  {
    hide TwoArgs, Sent, PairData;
  }

  /** Two 16-bit numbers are sent as they are. */
  lemma MemRSent(line: string, cmd: byte, address: nat, count: nat, frame: byte)
    requires address < 0x1_0000 && count < 0x1_0000
    requires TwoArgs(line, 14) == Some((address as int, count as int))
    ensures MemREffect(line, cmd, frame) == Sent(cmd, frame, AddressData(address, count))
  {
    hide TwoArgs, Sent, AddressData;
  }

  lemma NotAnother(line: string, name: string, other: string, k: nat)
    requires StartsWith(line, name) && k < |name| && k < |other| && name[k] != other[k]
    ensures !StartsWith(line, other)
  {
    assert line[..|name|][k] == line[k];
    assert |other| <= |line| ==> line[..|other|][k] == line[k];
  }

  lemma CompilePair(line: string, config: bool, frame: byte)
    requires StartsWith(line, if config then "DConfigW" else "DOutW")
    ensures CompileLine(line, frame) ==
      if config then PairEffect(line, 9, CMD_DCONF_W, frame) else PairEffect(line, 6, CMD_DOUT_W, frame)
  {
    hide StartsWith, PairEffect, PlainCommand, MemREffect, MemWEffect, FirstArg;
    if config {
      NotAnother(line, "DConfigW", "DOutW", 1);
    }
  }

  /**
   * Text to device: for every mask and value of 24 bits, the printed line, with or without its newline, is
   * parsed and encoded so that the simulator's two 3-byte reads return exactly mask and value, whatever
   * follows the frame.
   */
  lemma TextToDevice(config: bool, mask: nat, value: nat, tail: string, frame: byte, rest: seq<byte>)
    requires mask < 0x100_0000 && value < 0x100_0000 && EndsNumber(tail)
    ensures var cmd := if config then CMD_DCONF_W else CMD_DOUT_W;
      var e := CompileLine(WriteLine(if config then "DConfigW" else "DOutW", mask, value) + tail, frame);
      && e == Sent(cmd, frame, PairData(mask, value)) && cmd as int == (if config then 0x05 else 0x03)
      && ValueAt(e.bytes + rest, 0, 3) == Some(mask)
      && ValueAt(e.bytes + rest, 3, 3) == Some(value)
  {
    hide CompileLine, WriteLine, Sent, PairData, ValueAt, EndsNumber;
    PairLine(if config then "DConfigW" else "DOutW", config, mask, value, tail, frame, rest);
  }

  lemma PairLine(name: string, config: bool, mask: nat, value: nat, tail: string, frame: byte, rest: seq<byte>)
    requires mask < 0x100_0000 && value < 0x100_0000 && EndsNumber(tail)
    requires name == if config then "DConfigW" else "DOutW"
    ensures var cmd := if config then CMD_DCONF_W else CMD_DOUT_W;
      var e := CompileLine(WriteLine(name, mask, value) + tail, frame);
      && e == Sent(cmd, frame, PairData(mask, value))
      && ValueAt(e.bytes + rest, 0, 3) == Some(mask)
      && ValueAt(e.bytes + rest, 3, 3) == Some(value)
  {
    hide WriteLine, TwoArgs, Encode, ValueAt, PairData, StartsWith, CompileLine, PairEffect;
    var cmd := if config then CMD_DCONF_W else CMD_DOUT_W;
    var off := if config then 9 else 6;
    assert |name| + 1 == off;
    SuffixOfLine(name, mask, value, tail, 0);
    TwoArgsReadBack(name, mask, value, tail);
    PairLineSent(WriteLine(name, mask, value) + tail, config, mask, value, frame);
    PairRoundTrip(cmd, frame, mask, value, rest);
  }

  lemma PairLineSent(line: string, config: bool, mask: nat, value: nat, frame: byte)
    requires mask < 0x100_0000 && value < 0x100_0000
    requires StartsWith(line, if config then "DConfigW" else "DOutW")
    requires TwoArgs(line, if config then 9 else 6) == Some((mask as int, value as int))
    ensures CompileLine(line, frame) == Sent(if config then CMD_DCONF_W else CMD_DOUT_W, frame, PairData(mask, value))
  {
    hide TwoArgs, Sent, PairData, StartsWith, CompileLine, PairEffect;
    CompilePair(line, config, frame);
    if config {
      PairSent(line, 9, CMD_DCONF_W, mask, value, frame);
    } else {
      PairSent(line, 6, CMD_DOUT_W, mask, value, frame);
    }
  }

  /** The memory-read names are told apart from every name compared before them. */
  lemma CompileMemR(line: string, name: string, cmd: byte, frame: byte)
    requires (name == "ConfigMemoryR" && cmd == CMD_CONF_MEM_R) || (name == "SettingsMemoryR" && cmd == CMD_SET_MEM_R)
          || (name == "BootloaderMemoryR" && cmd == CMD_BOOT_MEM_R)
    requires StartsWith(line, name)
    ensures CompileLine(line, frame) == MemREffect(line, cmd, frame)
  {
    hide StartsWith, PairEffect, MemREffect, MemWEffect, FirstArg;
    NotAnother(line, name, "DOutW", 0);
    NotAnother(line, name, "DConfigW", 0);
    NotAnother(line, name, "DIn", 0);
    NotAnother(line, name, "DOutR", 0);
    NotAnother(line, name, "DConfigR", 0);
    NotAnother(line, name, "CounterR", 2);
    NotAnother(line, name, "CounterW", 2);
    NotAnother(line, name, "Reset", 0);
    NotAnother(line, name, "Status", 1);
    NotAnother(line, name, "NetworkConfig", 0);
    NotAnother(line, name, "BlinkLED", 1);
    NotAnother(line, name, "FirmwareUpgrade", 0);
    if cmd != CMD_BOOT_MEM_R {
      NotAnother(line, name, "BootloaderMemoryR", 0);
    }
    if cmd == CMD_CONF_MEM_R {
      NotAnother(line, name, "SettingsMemoryR", 0);
    }
  }

  /**
   * The memory-read commands all take their arguments at the same offset. For ConfigMemoryR the typed
   * address and count are sent; for SettingsMemoryR the address is sent as the count, and for
   * BootloaderMemoryR both are lost.
   */
  lemma MemReadArguments(address: nat, count: nat, tail: string, frame: byte)
    requires address < 0x1_0000 && count < 0x1_0000 && EndsNumber(tail)
    ensures CompileLine(WriteLine("ConfigMemoryR", address, count) + tail, frame)
      == Sent(0x40, frame, AddressData(address, count))
    ensures CompileLine(WriteLine("SettingsMemoryR", address, count) + tail, frame)
      == Sent(0x44, frame, AddressData(0, address))
    ensures CompileLine(WriteLine("BootloaderMemoryR", address, count) + tail, frame)
      == Sent(0x46, frame, AddressData(0, 0))
  {
    hide WriteLine, Encode, CompileLine, AddressData;
    ConfigReadLine("ConfigMemoryR", address, count, tail, frame);
    InsideReadLine("SettingsMemoryR", CMD_SET_MEM_R, address, count, tail, frame);
    InsideReadLine("BootloaderMemoryR", CMD_BOOT_MEM_R, address, count, tail, frame);
  }

  lemma MemReadLineSent(line: string, name: string, cmd: byte, address: nat, count: nat, frame: byte)
    requires (name == "ConfigMemoryR" && cmd == CMD_CONF_MEM_R) || (name == "SettingsMemoryR" && cmd == CMD_SET_MEM_R)
          || (name == "BootloaderMemoryR" && cmd == CMD_BOOT_MEM_R)
    requires StartsWith(line, name)
    requires address < 0x1_0000 && count < 0x1_0000
    requires TwoArgs(line, 14) == Some((address as int, count as int))
    ensures CompileLine(line, frame) == Sent(cmd, frame, AddressData(address, count))
  {
    hide TwoArgs, Sent, AddressData, StartsWith, CompileLine, MemREffect;
    CompileMemR(line, name, cmd, frame);
    MemRSent(line, cmd, address, count, frame);
  }

  lemma ConfigReadLine(name: string, address: nat, count: nat, tail: string, frame: byte)
    requires address < 0x1_0000 && count < 0x1_0000 && name == "ConfigMemoryR" && EndsNumber(tail)
    ensures CompileLine(WriteLine(name, address, count) + tail, frame)
      == Sent(CMD_CONF_MEM_R, frame, AddressData(address, count))
  {
    hide WriteLine, TwoArgs, Encode, StartsWith, CompileLine, AddressData, EndsNumber;
    assert |name| == 13;
    SuffixOfLine(name, address, count, tail, 0);
    TwoArgsReadBack(name, address, count, tail);
    MemReadLineSent(WriteLine(name, address, count) + tail, name, CMD_CONF_MEM_R, address, count, frame);
  }

  lemma InsideName(name: string)
    requires name == "SettingsMemoryR" || name == "BootloaderMemoryR"
    ensures name == "SettingsMemoryR" ==> |name| == 15
    ensures name == "BootloaderMemoryR" ==> |name| == 17
    ensures !IsHex(name[14]) && IsLetter(name[14])
    ensures |name| > 15 ==> !IsHex(name[15]) && IsLetter(name[15])
  {
  }

  lemma InsideReadLine(name: string, cmd: byte, address: nat, count: nat, tail: string, frame: byte)
    requires address < 0x1_0000 && count < 0x1_0000 && EndsNumber(tail)
    requires (name == "SettingsMemoryR" && cmd == CMD_SET_MEM_R)
          || (name == "BootloaderMemoryR" && cmd == CMD_BOOT_MEM_R)
    ensures CompileLine(WriteLine(name, address, count) + tail, frame)
      == Sent(cmd, frame, AddressData(0, if cmd == CMD_SET_MEM_R then address else 0))
  {
    hide WriteLine, TwoArgs, Encode, StartsWith, CompileLine, AddressData, IsHex, IsLetter, EndsNumber;
    InsideName(name);
    SuffixOfLine(name, address, count, tail, 0);
    ArgsFromInsideName(name, address, count, tail);
    var second := if cmd == CMD_SET_MEM_R then address else 0;
    MemReadLineSent(WriteLine(name, address, count) + tail, name, cmd, 0, second, frame);
  }

  /**
   * Reading at offset 14 starts on a letter of the name; the second number is the one behind it, if the
   * name ends there.
   */
  lemma ArgsFromInsideName(name: string, a: nat, b: nat, tail: string)
    requires |name| >= 15 && !IsHex(name[14]) && IsLetter(name[14])
    requires |name| > 15 ==> !IsHex(name[15]) && IsLetter(name[15])
    requires a < 0x100_0000 && b < 0x100_0000 && EndsNumber(tail)
    ensures TwoArgs(WriteLine(name, a, b) + tail, 14) == Some((0, if |name| == 15 then a as int else 0))
  {
    hide Strtol16, ArgText, WriteLine, IsHex;
    var line := WriteLine(name, a, b) + tail;
    SuffixOfLine(name, a, b, tail, 14);
    SuffixOfLine(name, a, b, tail, 15);
    StrtolOnLetter(line[14..]);
    if |name| == 15 {
      assert line[15..] == " " + (ArgText(a, b) + tail);
      StrtolSkipsBlank(ArgText(a, b) + tail);
      ArgTextReadsBack(a, b, tail);
    } else {
      StrtolOnLetter(line[15..]);
    }
  }

  predicate IsLetter(c: char)
  {
    'a' <= c <= 'z' || 'A' <= c <= 'Z'
  }

  lemma CompileMemW(line: string, name: string, cmd: byte, frame: byte)
    requires (name == "ConfigMemoryW" && cmd == CMD_CONF_MEM_W) || (name == "SettingsMemoryW" && cmd == CMD_SET_MEM_W)
          || (name == "BootloaderMemoryW" && cmd == CMD_BOOT_MEM_W)
    requires StartsWith(line, name)
    ensures CompileLine(line, frame) == MemWEffect(line, |name| + 1, cmd, frame)
  {
    hide StartsWith, PairEffect, MemREffect, MemWEffect, FirstArg;
    NotAnother(line, name, "DOutW", 0);
    NotAnother(line, name, "DConfigW", 0);
    NotAnother(line, name, "DIn", 0);
    NotAnother(line, name, "DOutR", 0);
    NotAnother(line, name, "DConfigR", 0);
    NotAnother(line, name, "CounterR", 2);
    NotAnother(line, name, "CounterW", 2);
    NotAnother(line, name, "Reset", 0);
    NotAnother(line, name, "Status", 1);
    NotAnother(line, name, "NetworkConfig", 0);
    NotAnother(line, name, "BlinkLED", 1);
    NotAnother(line, name, "FirmwareUpgrade", 0);
    NotAnother(line, name, "BootloaderMemoryR", if cmd == CMD_BOOT_MEM_W then 16 else 0);
    NotAnother(line, name, "SettingsMemoryR", if cmd == CMD_SET_MEM_W then 14 else 0);
    NotAnother(line, name, "ConfigMemoryR", if cmd == CMD_CONF_MEM_W then 12 else 0);
    if cmd != CMD_CONF_MEM_W {
      NotAnother(line, name, "ConfigMemoryW", 0);
    }
    if cmd == CMD_BOOT_MEM_W {
      NotAnother(line, name, "SettingsMemoryW", 0);
    }
  }

  /**
   * A memory-write line with an address and up to 91 bytes of hexadecimal text, in any letter case, sends
   * exactly that address and those bytes.
   */
  lemma MemWriteArguments(name: string, cmd: byte, address: nat, data: seq<byte>, text: string, tail: string,
                          frame: byte)
    requires (name == "ConfigMemoryW" && cmd == 0x41) || (name == "SettingsMemoryW" && cmd == 0x45)
          || (name == "BootloaderMemoryW" && cmd == 0x47)
    requires address < 0x1_0000 && data != [] && 9 + |data| <= BUFFER_SIZE
    requires IsHexText(data, text) && EndsNumber(tail)
    ensures CompileLine(name + (" " + ("0x" + Hex(address, 6) + (" 0x" + text + tail))), frame)
      == Sent(cmd, frame, Split(address, 2) + data)
  {
    hide Strtol16, Hex, ParseHex, IsHexText, StartsWith, CompileLine, Split, Encode;
    var args := "0x" + Hex(address, 6) + (" 0x" + text + tail);
    var line := name + (" " + args);
    NameAndRest(name, " " + args);
    CompileMemW(line, name, cmd, frame);
    assert line[|name| + 1..] == args;
    StrtolReadsHex(address, " 0x" + text + tail);
    assert line[|name| + 10..] == args[9..] == "0x" + text + tail;
    HexTextRoundTrip(data, text, tail, BUFFER_SIZE);
  }

  /** With no data the address is sent alone; with text that is no hexadecimal data the line is ignored. */
  lemma MemWriteWithoutData(name: string, cmd: byte, address: nat, text: string, frame: byte)
    requires (name == "ConfigMemoryW" && cmd == 0x41) || (name == "SettingsMemoryW" && cmd == 0x45)
          || (name == "BootloaderMemoryW" && cmd == 0x47)
    requires address < 0x1_0000 && !(|text| >= 3 && text[0] == '0' && text[1] == 'x')
    ensures CompileLine(name + (" " + ("0x" + Hex(address, 6) + (" " + text))), frame)
      == if text == "" then Sent(cmd, frame, Split(address, 2)) else Ignored
  {
    hide Strtol16, Hex, ParseHex, StartsWith, CompileLine, Split, Encode;
    var args := "0x" + Hex(address, 6) + (" " + text);
    var line := name + (" " + args);
    NameAndRest(name, " " + args);
    CompileMemW(line, name, cmd, frame);
    assert line[|name| + 1..] == args;
    StrtolReadsHex(address, " " + text);
    assert line[|name| + 10..] == args[9..] == text;
    WhatIsRefused(text, BUFFER_SIZE);
    assert Split(address, 2) + [] == Split(address, 2);
  }

  lemma NameAndRest(name: string, rest: string)
    ensures StartsWith(name + rest, name)
  {
  }

  // ----- Lines as a user may type them

  /** A number with blanks before it, a sign, a prefix and digits in any letter case. */
  datatype Typed = Typed(blanks: string, sign: string, prefix: string, digits: string)
  {
    ghost predicate Valid(tail: string)
    {
      && AllSpace(blanks) && IsSign(sign) && IsPrefix(prefix)
      && digits != "" && AllHex(digits) && EndsNumber(tail) && Unambiguous(prefix, digits, tail)
    }

    function Text(): string
    {
      blanks + (sign + (prefix + digits))
    }

    ghost function Value(): int
      requires AllHex(digits)
    {
      Clamped(if sign == "-" then -(HexValue(digits) as int) else HexValue(digits))
    }
  }

  lemma TypedIsRead(line: string, off: nat, x: Typed, tail: string)
    requires off <= |line| && line[off..] == x.Text() + tail && x.Valid(tail)
    ensures FirstArg(line, off) == Args(x.Value(), off + |x.Text()| + 1)
  {
    hide Strtol16, HexValue, AllHex, EndsNumber, Unambiguous, Clamped, IsSign, IsPrefix, AllSpace;
    StrtolReads(x.blanks, x.sign, x.prefix, x.digits, tail);
    assert x.Text() + tail == x.blanks + (x.sign + (x.prefix + (x.digits + tail)));
  }

  lemma TypedPairIsRead(line: string, off: nat, x: Typed, sep: char, y: Typed, tail: string)
    requires off <= |line| && line[off..] == x.Text() + ([sep] + (y.Text() + tail))
    requires x.Valid([sep] + (y.Text() + tail)) && y.Valid(tail)
    ensures TwoArgs(line, off) == Some((x.Value(), y.Value()))
  {
    hide Strtol16, Typed.Valid, Typed.Value, Typed.Text;
    var q := off + |x.Text()| + 1;
    TypedIsRead(line, off, x, [sep] + (y.Text() + tail));
    assert line[q..] == line[off..][|x.Text()| + 1..] == y.Text() + tail;
    TypedIsRead(line, q, y, tail);
  }

  /**
   * A register write as typed, with any character behind the name and between the numbers: mask and value are
   * cut to 32 bits, of which the packet carries the low 24.
   */
  lemma TypedWrite(config: bool, c: char, x: Typed, sep: char, y: Typed, tail: string, frame: byte)
    requires x.Valid([sep] + (y.Text() + tail)) && y.Valid(tail)
    ensures var name := if config then "DConfigW" else "DOutW";
      CompileLine(name + ([c] + (x.Text() + ([sep] + (y.Text() + tail)))), frame)
        == Sent(if config then 0x05 else 0x03, frame, PairData(x.Value() % 0x1_0000_0000, y.Value() % 0x1_0000_0000))
  {
    hide StartsWith, CompileLine, TwoArgs, Sent, PairData, Typed.Valid, Typed.Value, Typed.Text;
    var name := if config then "DConfigW" else "DOutW";
    var off := if config then 9 else 6;
    var args := x.Text() + ([sep] + (y.Text() + tail));
    var line := name + ([c] + args);
    NameAndRest(name, [c] + args);
    CompilePair(line, config, frame);
    assert |name| + 1 == off && line[off..] == args;
    TypedPairIsRead(line, off, x, sep, y, tail);
  }

  /** ConfigMemoryR as typed: address and count are cut to 16 bits. */
  lemma TypedMemRead(c: char, x: Typed, sep: char, y: Typed, tail: string, frame: byte)
    requires x.Valid([sep] + (y.Text() + tail)) && y.Valid(tail)
    ensures CompileLine("ConfigMemoryR" + ([c] + (x.Text() + ([sep] + (y.Text() + tail)))), frame)
      == Sent(0x40, frame, AddressData(x.Value() % 0x1_0000, y.Value() % 0x1_0000))
  {
    hide StartsWith, CompileLine, TwoArgs, Sent, AddressData, Typed.Valid, Typed.Value, Typed.Text;
    var args := x.Text() + ([sep] + (y.Text() + tail));
    var name := "ConfigMemoryR";
    var line := name + ([c] + args);
    NameAndRest(name, [c] + args);
    CompileMemR(line, name, CMD_CONF_MEM_R, frame);
    assert |name| == 13 && line[14..] == args;
    TypedPairIsRead(line, 14, x, sep, y, tail);
  }

  /**
   * A memory write as typed: the address is cut to 16 bits, the data is what the hexadecimal parser makes of the
   * rest.
   */
  lemma TypedMemWrite(name: string, cmd: byte, c: char, x: Typed, sep: char, text: string, frame: byte)
    requires (name == "ConfigMemoryW" && cmd == 0x41) || (name == "SettingsMemoryW" && cmd == 0x45)
          || (name == "BootloaderMemoryW" && cmd == 0x47)
    requires x.Valid([sep] + text)
    ensures var e := CompileLine(name + ([c] + (x.Text() + ([sep] + text))), frame);
      var data := ParseHex(text, 100);
      if data.None? then e == Ignored
      else if |data.value| > 91 then e == Undefined
      else e == Sent(cmd, frame, Split(x.Value() % 0x1_0000, 2) + data.value)
  {
    hide StartsWith, CompileLine, FirstArg, Sent, Split, ParseHex, Typed.Valid, Typed.Value, Typed.Text;
    var args := x.Text() + ([sep] + text);
    var line := name + ([c] + args);
    NameAndRest(name, [c] + args);
    CompileMemW(line, name, cmd, frame);
    var off := |name| + 1;
    assert line[off..] == args;
    TypedIsRead(line, off, x, [sep] + text);
    assert line[off + |x.Text()| + 1..] == text;
  }

  // ----- The names and what they send

  /** The commands without arguments, whatever follows the name: the opcode of each. */
  lemma PlainNames(tail: string, frame: byte)
    ensures CompileLine("DIn" + tail, frame) == Sent(0x00, frame, [])
    ensures CompileLine("DOutR" + tail, frame) == Sent(0x02, frame, [])
    ensures CompileLine("DConfigR" + tail, frame) == Sent(0x04, frame, [])
    ensures CompileLine("CounterR" + tail, frame) == Sent(0x30, frame, [])
    ensures CompileLine("CounterW" + tail, frame) == Sent(0x31, frame, [])
    ensures CompileLine("Reset" + tail, frame) == Sent(0x52, frame, [])
    ensures CompileLine("Status" + tail, frame) == Sent(0x52, frame, [])
    ensures CompileLine("NetworkConfig" + tail, frame) == Sent(0x54, frame, [])
  {
    hide CompileLine, Sent, StartsWith;
    NameAndRest("DIn", tail);
    DispatchDIn("DIn" + tail, frame);
    NameAndRest("DOutR", tail);
    DispatchDOutR("DOutR" + tail, frame);
    NameAndRest("DConfigR", tail);
    DispatchDConfigR("DConfigR" + tail, frame);
    NameAndRest("CounterR", tail);
    DispatchCounterR("CounterR" + tail, frame);
    NameAndRest("CounterW", tail);
    DispatchCounterW("CounterW" + tail, frame);
    NameAndRest("Reset", tail);
    DispatchReset("Reset" + tail, frame);
    NameAndRest("Status", tail);
    DispatchStatus("Status" + tail, frame);
    NameAndRest("NetworkConfig", tail);
    DispatchNetworkConfig("NetworkConfig" + tail, frame);
  }

  /** A lamp count in two digits, and the two key bytes of the firmware command. */
  lemma BlinkAndFirmware(v: byte, tail: string, frame: byte)
    requires EndsNumber(tail)
    ensures CompileLine("BlinkLED 0x" + Hex(v, 2) + tail, frame) == Sent(0x50, frame, [v])
    ensures CompileLine("FirmwareUpgrade" + tail, frame) == Sent(0x50, frame, [0xAD, 0xAD])
  {
    hide CompileLine, StartsWith, Strtol16, Hex, Sent;
    BlinkText(v, tail);
    var args := " 0x" + Hex(v, 2) + tail;
    var line := "BlinkLED" + args;
    assert "BlinkLED 0x" + Hex(v, 2) + tail == line;
    NameAndRest("BlinkLED", args);
    DispatchBlinkLED(line, frame);
    assert line[9..] == args[1..];
    NameAndRest("FirmwareUpgrade", tail);
    DispatchFirmwareUpgrade("FirmwareUpgrade" + tail, frame);
  }

  lemma BlinkText(v: byte, tail: string)
    requires EndsNumber(tail)
    ensures Strtol16((" 0x" + Hex(v, 2) + tail)[1..]).value == v as int
  {
    hide Strtol16, Hex, HexValue, IsHex, EndsNumber;
    var d := Hex(v, 2);
    assert Pow16(2) == 256;
    HexRoundTrip(v, 2);
    StrtolReads("", "", "0x", d, tail);
    assert (" 0x" + d + tail)[1..] == "" + ("" + ("0x" + (d + tail)));
  }

  lemma DispatchDIn(line: string, frame: byte)
    requires StartsWith(line, "DIn")
    ensures CompileLine(line, frame) == Sent(CMD_DIN_R, frame, [])
  {
    hide StartsWith, PairEffect, MemREffect, MemWEffect, FirstArg, Sent;
    NotAnother(line, "DIn", "DOutW", 1);
    NotAnother(line, "DIn", "DConfigW", 1);
  }

  lemma DispatchDOutR(line: string, frame: byte)
    requires StartsWith(line, "DOutR")
    ensures CompileLine(line, frame) == Sent(CMD_DOUT_R, frame, [])
  {
    hide StartsWith, PairEffect, MemREffect, MemWEffect, FirstArg, Sent;
    NotAnother(line, "DOutR", "DOutW", 4);
    NotAnother(line, "DOutR", "DConfigW", 1);
    NotAnother(line, "DOutR", "DIn", 1);
  }

  lemma DispatchDConfigR(line: string, frame: byte)
    requires StartsWith(line, "DConfigR")
    ensures CompileLine(line, frame) == Sent(CMD_DCONF_R, frame, [])
  {
    hide StartsWith, PairEffect, MemREffect, MemWEffect, FirstArg, Sent;
    NotAnother(line, "DConfigR", "DOutW", 1);
    NotAnother(line, "DConfigR", "DConfigW", 7);
    NotAnother(line, "DConfigR", "DIn", 1);
    NotAnother(line, "DConfigR", "DOutR", 1);
  }

  lemma DispatchCounterR(line: string, frame: byte)
    requires StartsWith(line, "CounterR")
    ensures CompileLine(line, frame) == Sent(CMD_COUNTER_R, frame, [])
  {
    hide StartsWith, PairEffect, MemREffect, MemWEffect, FirstArg, Sent;
    NotAnother(line, "CounterR", "DOutW", 0);
    NotAnother(line, "CounterR", "DConfigW", 0);
    NotAnother(line, "CounterR", "DIn", 0);
    NotAnother(line, "CounterR", "DOutR", 0);
    NotAnother(line, "CounterR", "DConfigR", 0);
  }

  lemma DispatchCounterW(line: string, frame: byte)
    requires StartsWith(line, "CounterW")
    ensures CompileLine(line, frame) == Sent(CMD_COUNTER_W, frame, [])
  {
    hide StartsWith, PairEffect, MemREffect, MemWEffect, FirstArg, Sent;
    NotAnother(line, "CounterW", "DOutW", 0);
    NotAnother(line, "CounterW", "DConfigW", 0);
    NotAnother(line, "CounterW", "DIn", 0);
    NotAnother(line, "CounterW", "DOutR", 0);
    NotAnother(line, "CounterW", "DConfigR", 0);
    NotAnother(line, "CounterW", "CounterR", 7);
  }

  lemma DispatchReset(line: string, frame: byte)
    requires StartsWith(line, "Reset")
    ensures CompileLine(line, frame) == Sent(CMD_STATUS, frame, [])
  {
    hide StartsWith, PairEffect, MemREffect, MemWEffect, FirstArg, Sent;
    NotAnother(line, "Reset", "DOutW", 0);
    NotAnother(line, "Reset", "DConfigW", 0);
    NotAnother(line, "Reset", "DIn", 0);
    NotAnother(line, "Reset", "DOutR", 0);
    NotAnother(line, "Reset", "DConfigR", 0);
    NotAnother(line, "Reset", "CounterR", 0);
    NotAnother(line, "Reset", "CounterW", 0);
  }

  lemma DispatchStatus(line: string, frame: byte)
    requires StartsWith(line, "Status")
    ensures CompileLine(line, frame) == Sent(CMD_STATUS, frame, [])
  {
    hide StartsWith, PairEffect, MemREffect, MemWEffect, FirstArg, Sent;
    NotAnother(line, "Status", "DOutW", 0);
    NotAnother(line, "Status", "DConfigW", 0);
    NotAnother(line, "Status", "DIn", 0);
    NotAnother(line, "Status", "DOutR", 0);
    NotAnother(line, "Status", "DConfigR", 0);
    NotAnother(line, "Status", "CounterR", 0);
    NotAnother(line, "Status", "CounterW", 0);
    NotAnother(line, "Status", "Reset", 0);
  }

  lemma DispatchNetworkConfig(line: string, frame: byte)
    requires StartsWith(line, "NetworkConfig")
    ensures CompileLine(line, frame) == Sent(CMD_NETWORK_CONF, frame, [])
  {
    hide StartsWith, PairEffect, MemREffect, MemWEffect, FirstArg, Sent;
    NotAnother(line, "NetworkConfig", "DOutW", 0);
    NotAnother(line, "NetworkConfig", "DConfigW", 0);
    NotAnother(line, "NetworkConfig", "DIn", 0);
    NotAnother(line, "NetworkConfig", "DOutR", 0);
    NotAnother(line, "NetworkConfig", "DConfigR", 0);
    NotAnother(line, "NetworkConfig", "CounterR", 0);
    NotAnother(line, "NetworkConfig", "CounterW", 0);
    NotAnother(line, "NetworkConfig", "Reset", 0);
    NotAnother(line, "NetworkConfig", "Status", 0);
  }

  lemma DispatchBlinkLED(line: string, frame: byte)
    requires StartsWith(line, "BlinkLED")
    ensures CompileLine(line, frame) ==
      if FirstArg(line, 9).Outside? then Undefined else Sent(CMD_BLINKLED, frame, [Cast8(FirstArg(line, 9).first)])
  {
    hide StartsWith, PairEffect, MemREffect, MemWEffect, FirstArg, Sent;
    NotAnother(line, "BlinkLED", "DOutW", 0);
    NotAnother(line, "BlinkLED", "DConfigW", 0);
    NotAnother(line, "BlinkLED", "DIn", 0);
    NotAnother(line, "BlinkLED", "DOutR", 0);
    NotAnother(line, "BlinkLED", "DConfigR", 0);
    NotAnother(line, "BlinkLED", "CounterR", 0);
    NotAnother(line, "BlinkLED", "CounterW", 0);
    NotAnother(line, "BlinkLED", "Reset", 0);
    NotAnother(line, "BlinkLED", "Status", 0);
    NotAnother(line, "BlinkLED", "NetworkConfig", 0);
  }

  lemma DispatchFirmwareUpgrade(line: string, frame: byte)
    requires StartsWith(line, "FirmwareUpgrade")
    ensures CompileLine(line, frame) == Sent(CMD_BLINKLED, frame, [0xAD, 0xAD])
  {
    hide StartsWith, PairEffect, MemREffect, MemWEffect, FirstArg, Sent;
    NotAnother(line, "FirmwareUpgrade", "DOutW", 0);
    NotAnother(line, "FirmwareUpgrade", "DConfigW", 0);
    NotAnother(line, "FirmwareUpgrade", "DIn", 0);
    NotAnother(line, "FirmwareUpgrade", "DOutR", 0);
    NotAnother(line, "FirmwareUpgrade", "DConfigR", 0);
    NotAnother(line, "FirmwareUpgrade", "CounterR", 0);
    NotAnother(line, "FirmwareUpgrade", "CounterW", 0);
    NotAnother(line, "FirmwareUpgrade", "Reset", 0);
    NotAnother(line, "FirmwareUpgrade", "Status", 0);
    NotAnother(line, "FirmwareUpgrade", "NetworkConfig", 0);
    NotAnother(line, "FirmwareUpgrade", "BlinkLED", 0);
  }

  /** The names of the interpreter, and those of the three commands that write memory. */
  predicate Named(line: string)
  {
    || StartsWith(line, "DIn") || StartsWith(line, "DOutR") || StartsWith(line, "DOutW")
    || StartsWith(line, "DConfigR") || StartsWith(line, "DConfigW")
    || StartsWith(line, "CounterR") || StartsWith(line, "CounterW")
    || StartsWith(line, "BlinkLED") || StartsWith(line, "Reset") || StartsWith(line, "Status")
    || StartsWith(line, "NetworkConfig") || StartsWith(line, "FirmwareUpgrade")
    || StartsWith(line, "ConfigMemoryR") || StartsWith(line, "SettingsMemoryR") || StartsWith(line, "BootloaderMemoryR")
    || WritesMemory(line)
    || StartsWith(line, "Sleep")
  }

  predicate WritesMemory(line: string)
  {
    StartsWith(line, "ConfigMemoryW") || StartsWith(line, "SettingsMemoryW") || StartsWith(line, "BootloaderMemoryW")
  }

  /** Every other line is ignored; and of the named ones only memory writes can be. */
  lemma IgnoredLines(line: string, frame: byte)
    ensures !Named(line) ==> CompileLine(line, frame) == Ignored
    ensures CompileLine(line, frame) == Ignored ==> !Named(line) || WritesMemory(line)
  {
    hide StartsWith, FirstArg, TwoArgs, Encode, PairData, AddressData, ParseHex;
  }

  /** A Sleep line counts as a request without a packet. */
  lemma SleepLine(tail: string, frame: byte)
    ensures CompileLine("Sleep" + tail, frame) == Packet([], frame)
  {
    hide PairEffect, MemREffect, MemWEffect, FirstArg, StartsWith;
    var line := "Sleep" + tail;
    NameAndRest("Sleep", tail);
    NotAnother(line, "Sleep", "DOutW", 0);
    NotAnother(line, "Sleep", "DConfigW", 0);
    NotAnother(line, "Sleep", "DIn", 0);
    NotAnother(line, "Sleep", "DOutR", 0);
    NotAnother(line, "Sleep", "DConfigR", 0);
    NotAnother(line, "Sleep", "CounterR", 0);
    NotAnother(line, "Sleep", "CounterW", 0);
    NotAnother(line, "Sleep", "BlinkLED", 0);
    NotAnother(line, "Sleep", "Reset", 0);
    NotAnother(line, "Sleep", "Status", 1);
    NotAnother(line, "Sleep", "NetworkConfig", 0);
    NotAnother(line, "Sleep", "FirmwareUpgrade", 0);
    NotAnother(line, "Sleep", "BootloaderMemoryR", 0);
    NotAnother(line, "Sleep", "SettingsMemoryR", 1);
    NotAnother(line, "Sleep", "ConfigMemoryR", 0);
    NotAnother(line, "Sleep", "ConfigMemoryW", 0);
    NotAnother(line, "Sleep", "SettingsMemoryW", 1);
    NotAnother(line, "Sleep", "BootloaderMemoryW", 0);
  }
}
