/**
 * What the generated commands do to a device: a 24-bit latch whose bits reach the pins that are outputs. The
 * pins of port 1 clock the value on port 2 into eight attenuators, and those of port 0 switch the power.
 */
module Device {
  import opened Bytes
  import opened Wrappers
  import opened Frame
  import opened Codec
  import opened Framing
  import opened Bits
  import opened Text
  import opened PinList
  import opened Boards
  import opened Gencctcmd
  import opened Commands
  import Replies

  /**
   * The latch, the direction register (a set bit makes the pin an input), the levels the pins have while they
   * are inputs, which nothing here drives, and the values the attenuators took.
   */
  datatype Device = Device(latch: seq<bool>, inputs: seq<bool>, idle: seq<bool>, captured: seq<nat>)
  {
    predicate Valid()
    {
      |latch| == 24 && |inputs| == 24 && |idle| == 24 && |captured| == 8
    }

    predicate AllOutputs()
      requires Valid()
    {
      forall i :: 0 <= i < 24 ==> !inputs[i]
    }
  }

  /** The level at a pin: the latch drives it only if it is an output. */
  function Level(latch: seq<bool>, inputs: seq<bool>, idle: seq<bool>, i: nat): bool
    requires |latch| == |inputs| == |idle| == 24 && i < 24
  {
    if inputs[i] then idle[i] else latch[i]
  }

  /** The levels of the pins of port 2. */
  function Port2(latch: seq<bool>, inputs: seq<bool>, idle: seq<bool>): (s: seq<bool>)
    requires |latch| == |inputs| == |idle| == 24
    ensures |s| == 8 && forall i :: 0 <= i < 8 ==> s[i] == Level(latch, inputs, idle, 16 + i)
  {
    seq(8, (i: nat) requires i < 8 => Level(latch, inputs, idle, 16 + i))
  }

  /** (latch & ~mask) | (value & mask) */
  function Masked(latch: seq<bool>, mask: nat, value: nat): (r: seq<bool>)
    requires |latch| == 24
    ensures |r| == 24
  {
    seq(24, (i: nat) requires i < 24 => if Bit(mask, i) then Bit(value, i) else latch[i])
  }

  /** An attenuator takes the value on port 2 when its pin on port 1 rises. */
  function Taken(d: Device, latch: seq<bool>, inputs: seq<bool>, k: nat): nat
    requires d.Valid() && |latch| == |inputs| == 24 && k < 8
  {
    if !Level(d.latch, d.inputs, d.idle, 8 + k) && Level(latch, inputs, d.idle, 8 + k)
    then FromBits(Port2(latch, inputs, d.idle)) else d.captured[k]
  }

  /** A change of the latch or of the directions. */
  function Moved(d: Device, latch: seq<bool>, inputs: seq<bool>): (r: Device)
    requires d.Valid() && |latch| == |inputs| == 24
    ensures r.Valid() && forall k :: 0 <= k < 8 ==> r.captured[k] == Taken(d, latch, inputs, k)
  {
    Device(latch, inputs, d.idle, seq(8, (k: nat) requires k < 8 => Taken(d, latch, inputs, k)))
  }

  /** DOutW */
  function Write(d: Device, mask: nat, value: nat): (r: Device)
    requires d.Valid()
    ensures r.Valid()
  {
    Moved(d, Masked(d.latch, mask, value), d.inputs)
  }

  /** DConfigW */
  function Configure(d: Device, mask: nat, value: nat): (r: Device)
    requires d.Valid()
    ensures r.Valid()
  {
    Moved(d, d.latch, Masked(d.inputs, mask, value))
  }

  /** The device's reaction to a request: the two register writes take what the two 3-byte reads deliver. */
  function Exec(d: Device, packet: seq<byte>): (r: Device)
    requires d.Valid()
    ensures r.Valid()
  {
    if |packet| >= 7 && (packet[1] == CMD_DOUT_W || packet[1] == CMD_DCONF_W) then
      match (ValueAt(packet, 0, 3), ValueAt(packet, 3, 3))
      case (Some(mask), Some(value)) =>
        if packet[1] == CMD_DOUT_W then Write(d, mask, value) else Configure(d, mask, value)
      case _ => d
    else d
  }

  function ExecAll(d: Device, packets: seq<seq<byte>>): (r: Device)
    requires d.Valid()
    ensures r.Valid()
    decreases |packets|
  {
    if packets == [] then d else ExecAll(Exec(d, packets[0]), packets[1..])
  }

  lemma {:induction false} ExecAllConcat(d: Device, a: seq<seq<byte>>, b: seq<seq<byte>>)
    requires d.Valid()
    ensures ExecAll(d, a + b) == ExecAll(ExecAll(d, a), b)
    decreases |a|
  {
    hide Exec;
    if a == [] {
      assert a + b == b;
    } else {
      assert (a + b)[1..] == a[1..] + b;
      ExecAllConcat(Exec(d, a[0]), a[1..], b);
    }
  }

  /** The device after all packets that the lines compile to. */
  function RunText(d: Device, lines: seq<string>, frame: byte): (r: Device)
    requires d.Valid()
    ensures r.Valid()
  {
    ExecAll(d, CompileAll(lines, frame).packets)
  }

  // ----- Running the generated lines

  lemma RunIgnored(d: Device, line: string, rest: seq<string>, frame: byte)
    requires d.Valid() && CompileLine(line, frame).Ignored?
    ensures RunText(d, [line] + rest, frame) == RunText(d, rest, frame)
    ensures CompileAll([line] + rest, frame) == CompileAll(rest, frame)
  {
    hide CompileLine, Exec;
    assert ([line] + rest)[1..] == rest;
  }

  lemma RunPacket(d: Device, line: string, rest: seq<string>, frame: byte)
    requires d.Valid() && CompileLine(line, frame).Packet?
    ensures var e := CompileLine(line, frame);
      && RunText(d, [line] + rest, frame) == RunText(Exec(d, e.bytes), rest, e.next)
      && CompileAll([line] + rest, frame).packets == [e.bytes] + CompileAll(rest, e.next).packets
  {
    hide CompileLine, Exec;
    var e := CompileLine(line, frame);
    assert ([line] + rest)[1..] == rest;
    var p := CompileAll(rest, e.next).packets;
    assert ([e.bytes] + p)[1..] == p;
  }

  lemma RunWrite(d: Device, mask: nat, value: nat, rest: seq<string>, frame: byte)
    requires d.Valid() && mask < 0x100_0000 && value < 0x100_0000
    ensures RunText(d, [WriteLine("DOutW", mask, value)] + rest, frame)
      == RunText(Write(d, mask, value), rest, NextFrame(frame))
  {
    hide CompileLine, WriteLine, Write, Configure, RunText, ValueAt, PairData;
    RunPacketOfPair(d, "DOutW", false, mask, value, rest, frame);
  }

  lemma RunConfig(d: Device, mask: nat, value: nat, rest: seq<string>, frame: byte)
    requires d.Valid() && mask < 0x100_0000 && value < 0x100_0000
    ensures RunText(d, [WriteLine("DConfigW", mask, value)] + rest, frame)
      == RunText(Configure(d, mask, value), rest, NextFrame(frame))
  {
    hide CompileLine, WriteLine, Write, Configure, RunText, ValueAt, PairData;
    RunPacketOfPair(d, "DConfigW", true, mask, value, rest, frame);
  }

  lemma RunPacketOfPair(d: Device, name: string, config: bool, mask: nat, value: nat, rest: seq<string>, frame: byte)
    requires d.Valid() && mask < 0x100_0000 && value < 0x100_0000
    requires name == if config then "DConfigW" else "DOutW"
    ensures RunText(d, [WriteLine(name, mask, value)] + rest, frame)
      == RunText(if config then Configure(d, mask, value) else Write(d, mask, value), rest, NextFrame(frame))
  {
    hide CompileLine, WriteLine, Write, Configure, RunText, ValueAt, PairData;
    var line := WriteLine(name, mask, value);
    PairLine(name, config, mask, value, "", frame, []);
    assert line + "" == line;
    RunPacket(d, line, rest, frame);
    var bytes := CompileLine(line, frame).bytes;
    assert bytes + [] == bytes;
  }

  lemma CompileSleep(tail: string, frame: byte)
    ensures CompileLine("Sleep 1" + tail, frame) == Packet([], frame)
  {
    hide CompileLine;
    SleepLine(" 1" + tail, frame);
    assert "Sleep 1" + tail == "Sleep" + (" 1" + tail);
  }

  lemma CompileBlank(line: string, frame: byte)
    requires |line| <= 1
    ensures CompileLine(line, frame) == Ignored
  {
    hide PairEffect, MemREffect, MemWEffect, FirstArg;
  }

  lemma RunSleep(d: Device, rest: seq<string>, frame: byte)
    requires d.Valid()
    ensures RunText(d, ["Sleep 1"] + rest, frame) == RunText(d, rest, frame)
  {
    hide CompileLine, RunText;
    CompileSleep("", frame);
    assert "Sleep 1" + "" == "Sleep 1";
    RunPacket(d, "Sleep 1", rest, frame);
  }

  /** The six register writes behind one attenuator argument: all pins become outputs, then the latch is moved. */
  function Latch(d: Device, m: nat, v: nat): (r: Device)
    requires d.Valid()
    ensures r.Valid()
  {
    var d0 := Configure(d, 0xFFFFFF, 0);
    var d1 := Write(d0, m * 0x100, 0);
    var d2 := Write(d1, 0xFF0000, v * 0x1_0000);
    var d3 := Write(d2, m * 0x100, m * 0x100);
    var d4 := Write(d3, m * 0x100, 0);
    Write(d4, 0xFF0000, 0)
  }

  function Frames(frame: byte, n: nat): byte
  {
    (frame as int + n) % 256
  }

  lemma NextOfFrames(frame: byte, n: nat)
    ensures NextFrame(Frames(frame, n)) == Frames(frame, n + 1)
    ensures NextFrame(frame) == Frames(frame, 1)
  {
  }

  /** All outputs, pins low, then the data: one line for each, and a pause. */
  lemma RunFirstHalf(d: Device, m: nat, v: nat, rest: seq<string>, frame: byte)
    requires d.Valid() && m < 0x100 && v < 0x100
    ensures RunText(d, AttenLines(m, v)[..4] + rest, frame) ==
      RunText(Write(Write(Configure(d, 0xFFFFFF, 0), m * 0x100, 0), 0xFF0000, v * 0x1_0000), rest, Frames(frame, 3))
  {
    hide RunText, WriteLine, Write, Configure, NextFrame, Frames;
    var lines := AttenLines(m, v);
    var r4 := [lines[3]] + rest;
    var r3 := [lines[2]] + r4;
    var r2 := [lines[1]] + r3;
    assert lines[..4] + rest == [lines[0]] + r2;
    var d0 := Configure(d, 0xFFFFFF, 0);
    var d1 := Write(d0, m * 0x100, 0);
    NextOfFrames(frame, 1);
    NextOfFrames(frame, 2);
    RunConfig(d, 0xFFFFFF, 0, r2, frame);
    RunWrite(d0, m * 0x100, 0, r3, Frames(frame, 1));
    RunWrite(d1, 0xFF0000, v * 0x1_0000, r4, Frames(frame, 2));
    RunSleep(Write(d1, 0xFF0000, v * 0x1_0000), rest, Frames(frame, 3));
  }

  /** Pins high, a pause, pins low, data zero, an empty line. */
  lemma RunSecondHalf(d: Device, m: nat, v: nat, rest: seq<string>, frame: byte)
    requires d.Valid() && m < 0x100 && v < 0x100
    ensures RunText(d, AttenLines(m, v)[4..] + rest, frame) ==
      RunText(Write(Write(Write(d, m * 0x100, m * 0x100), m * 0x100, 0), 0xFF0000, 0), rest, Frames(frame, 3))
  {
    hide RunText, WriteLine, Write, NextFrame, Frames;
    var lines := AttenLines(m, v);
    var r5 := [lines[8]] + rest;
    var r4 := [lines[7]] + r5;
    var r3 := [lines[6]] + r4;
    var r2 := [lines[5]] + r3;
    assert lines[4..] + rest == [lines[4]] + r2;
    var d1 := Write(d, m * 0x100, m * 0x100);
    var d2 := Write(d1, m * 0x100, 0);
    var d3 := Write(d2, 0xFF0000, 0);
    NextOfFrames(frame, 1);
    NextOfFrames(frame, 2);
    RunWrite(d, m * 0x100, m * 0x100, r2, frame);
    RunSleep(d1, r3, Frames(frame, 1));
    RunWrite(d1, m * 0x100, 0, r4, Frames(frame, 1));
    RunWrite(d2, 0xFF0000, 0, r5, Frames(frame, 2));
    CompileBlank("", Frames(frame, 3));
    RunIgnored(d3, lines[8], rest, Frames(frame, 3));
  }

  lemma RunAttenLines(d: Device, m: nat, v: nat, rest: seq<string>, frame: byte)
    requires d.Valid() && m < 0x100 && v < 0x100
    ensures RunText(d, AttenLines(m, v) + rest, frame) == RunText(Latch(d, m, v), rest, Frames(frame, 6))
  {
    hide RunText, AttenLines, Write, Configure;
    var lines := AttenLines(m, v);
    AttenLinesCount(m, v);
    assert lines + rest == lines[..4] + (lines[4..] + rest);
    RunFirstHalf(d, m, v, lines[4..] + rest, frame);
    var d0 := Configure(d, 0xFFFFFF, 0);
    RunSecondHalf(Write(Write(d0, m * 0x100, 0), 0xFF0000, v * 0x1_0000), m, v, rest, Frames(frame, 3));
  }

  lemma AttenLinesCount(m: nat, v: nat)
    ensures |AttenLines(m, v)| == 9
  {
  }

  lemma PinBits(m: nat, i: nat)
    requires m < 0x100
    ensures Bit(m * 0x100, i) <==> 8 <= i < 16 && Bit(m, i - 8)
  {
    hide Bit;
    PowersOfTwo();
    BitOfShifted(m, 8, i);
    if i >= 8 {
      BitOfLow(m, 8, i - 8);
    }
  }

  lemma DataBits(v: nat, i: nat)
    requires v < 0x100
    ensures Bit(v * 0x1_0000, i) <==> 16 <= i < 24 && Bit(v, i - 16)
    ensures Bit(0xFF0000, i) <==> 16 <= i < 24
  {
    hide Bit;
    PowersOfTwo();
    BitOfShifted(v, 16, i);
    BitOfShifted(0xFF, 16, i);
    if i >= 16 {
      BitOfLow(v, 8, i - 16);
      BitOfOnes(8, i - 16);
    }
  }

  /**
   * What attenuator k holds once all pins are outputs: it takes the value on port 2 already then if its pin
   * was an input at low level and its latch bit is set.
   */
  function Opened(d: Device, k: nat): nat
    requires d.Valid() && k < 8
  {
    if d.inputs[8 + k] && !d.idle[8 + k] && d.latch[8 + k] then FromBits(d.latch[16..]) else d.captured[k]
  }

  /**
   * What latching does, from any directions: the pins of the mask capture v and end low, port 2 ends at zero,
   * all pins end as outputs, all else is as before.
   */
  ghost predicate Latched(d: Device, r: Device, m: nat, v: nat)
    requires d.Valid() && r.Valid()
  {
    && r.AllOutputs()
    && (forall i :: 0 <= i < 8 ==> r.latch[i] == d.latch[i])
    && (forall i :: 8 <= i < 16 ==> r.latch[i] == (!Bit(m, i - 8) && d.latch[i]))
    && (forall i :: 16 <= i < 24 ==> !r.latch[i])
    && (forall k :: 0 <= k < 8 ==> r.captured[k] == if Bit(m, k) then v else Opened(d, k))
  }

  /** With all pins as outputs the latch is what the pins show. */
  lemma WriteOut(d: Device, mask: nat, value: nat)
    requires d.Valid() && d.AllOutputs()
    ensures var r := Write(d, mask, value);
      && r.latch == Masked(d.latch, mask, value) && r.inputs == d.inputs && r.AllOutputs()
      && forall k :: 0 <= k < 8 ==>
        r.captured[k] == if !d.latch[8 + k] && r.latch[8 + k] then FromBits(r.latch[16..]) else d.captured[k]
  {
    hide Bit, FromBits, Masked;
    PortOfOutputs(Masked(d.latch, mask, value), d.inputs, d.idle);
  }

  lemma PortOfOutputs(latch: seq<bool>, inputs: seq<bool>, idle: seq<bool>)
    requires |latch| == |inputs| == |idle| == 24 && forall i :: 16 <= i < 24 ==> !inputs[i]
    ensures Port2(latch, inputs, idle) == latch[16..]
  {
  }

  /** The direction command makes all pins outputs, whatever they were. */
  lemma ConfigureOpens(d: Device)
    requires d.Valid()
    ensures var r := Configure(d, 0xFFFFFF, 0);
      r.AllOutputs() && r.latch == d.latch && forall k :: 0 <= k < 8 ==> r.captured[k] == Opened(d, k)
  {
    hide Bit, FromBits;
    forall i: nat | i < 24
      ensures Bit(0xFFFFFF, i) && !Bit(0, i)
    {
      PowersOfTwo();
      BitOfOnes(24, i);
      BitOfZero(i);
    }
    var inputs := Masked(d.inputs, 0xFFFFFF, 0);
    PortOfOutputs(d.latch, inputs, d.idle);
  }

  lemma LatchCaptures(d: Device, m: nat, v: nat)
    requires d.Valid() && m < 0x100 && v < 0x100
    ensures Latched(d, Latch(d, m, v), m, v)
  {
    hide Bit, FromBits, Write, Configure, Opened;
    forall i: nat
      ensures Bit(m * 0x100, i) <==> 8 <= i < 16 && Bit(m, i - 8)
      ensures Bit(v * 0x1_0000, i) <==> 16 <= i < 24 && Bit(v, i - 16)
      ensures Bit(0xFF0000, i) <==> 16 <= i < 24
      ensures !Bit(0, i)
    {
      PinBits(m, i);
      DataBits(v, i);
      BitOfZero(i);
    }
    var d0 := Configure(d, 0xFFFFFF, 0);
    var d1 := Write(d0, m * 0x100, 0);
    var d2 := Write(d1, 0xFF0000, v * 0x1_0000);
    var d3 := Write(d2, m * 0x100, m * 0x100);
    var d4 := Write(d3, m * 0x100, 0);
    ConfigureOpens(d);
    WriteOut(d0, m * 0x100, 0);
    WriteOut(d1, 0xFF0000, v * 0x1_0000);
    WriteOut(d2, m * 0x100, m * 0x100);
    WriteOut(d3, m * 0x100, 0);
    WriteOut(d4, 0xFF0000, 0);
    assert d3.latch[16..] == BitsOf(v, 0, 8);
    FromBitsOf(v, 8);
    PowersOfTwo();
  }

  // ----- The attenuation compiler

  /**
   * What setting the selected boards to val is to leave behind, from any latch and any directions, low and high
   * being the two halves as stored: all 24 pins are outputs, the attenuators of the selected boards hold the
   * halves, the others what they held when the pins became outputs.
   */
  ghost predicate AttenSet(d: Device, r: Device, boards: nat, low: nat, high: nat)
    requires d.Valid() && r.Valid()
  {
    && r.AllOutputs()
    && (forall i :: 0 <= i < 8 ==> r.latch[i] == d.latch[i])
    && (forall i :: 16 <= i < 24 ==> !r.latch[i])
    && (forall j :: 0 <= j < 2 ==>
          if Bit(boards, j) then
            r.captured[2 * j] == low && r.captured[2 * j + 1] == high && !r.latch[8 + 2 * j] && !r.latch[8 + 2 * j + 1]
          else
            && r.captured[2 * j] == Opened(d, 2 * j) && r.captured[2 * j + 1] == Opened(d, 2 * j + 1)
            && r.latch[8 + 2 * j] == d.latch[8 + 2 * j] && r.latch[8 + 2 * j + 1] == d.latch[8 + 2 * j + 1])
    && (forall k :: 4 <= k < 8 ==> r.captured[k] == Opened(d, k))
    && (forall i :: 12 <= i < 16 ==> r.latch[i] == d.latch[i])
  }

  /**
   * Opening the pins leaves every attenuator alone if no pin of port 1 is an input at low level with its latch
   * bit set, for instance after an earlier command; otherwise that attenuator takes what the latch holds for
   * port 2.
   */
  lemma OpeningIsHarmless(d: Device, k: nat)
    requires d.Valid() && k < 8
    ensures d.AllOutputs() || !d.latch[8 + k] || d.idle[8 + k] ==> Opened(d, k) == d.captured[k]
    ensures d.inputs[8 + k] && !d.idle[8 + k] && d.latch[8 + k] ==>
      (Opened(d, k) == d.captured[k] <==> FromBits(d.latch[16..]) == d.captured[k])
  {
  }

  lemma PinsBelow256(pins: seq<nat>)
    requires forall k :: k in pins ==> k < 8
    ensures SetAll(0, pins) % 0x100 < 0x100
    ensures forall k: nat :: k < 8 ==> (Bit(SetAll(0, pins) % 0x100, k) <==> k in pins)
  {
    hide Bit;
    PowersOfTwo();
    forall k: nat | k < 8
      ensures Bit(SetAll(0, pins) % 0x100, k) <==> k in pins
    {
      BitOfLow(SetAll(0, pins), 8, k);
      BitOfSetAll(0, pins, k);
      BitOfZero(k);
    }
  }

  /** One printed attenuator argument, re-parsed, expanded, compiled and executed. */
  lemma RunArgument(d: Device, value: nat, lead: bool, pins: seq<nat>, rest: seq<string>, frame: byte)
    returns (r: Device)
    requires d.Valid() && forall k :: k in pins ==> k < 8
    ensures r.Valid()
    ensures RunText(d, AttenText(PinText(Val(value), lead, pins, false)) + rest, frame)
      == RunText(r, rest, Frames(frame, 6))
    ensures exists m :: Latched(d, r, m, value % 0x100) && forall k: nat :: k < 8 ==> (Bit(m, k) <==> k in pins)
  {
    hide Bit, AttenText, PinText, AttenLines, RunText, Latch, Latched;
    assert PinNumbers(pins) by {
      assert forall i :: 0 <= i < |pins| ==> pins[i] in pins;
    }
    AttenTextIsExact(value, pins, lead);
    PinsBelow256(pins);
    var m := SetAll(0, pins) % 0x100;
    r := Latch(d, m, value % 0x100);
    RunAttenLines(d, m, value % 0x100, rest, frame);
    LatchCaptures(d, m, value % 0x100);
  }

  lemma RunNothing(d: Device, frame: byte)
    requires d.Valid()
    ensures RunText(d, [], frame) == d
  {
  }

  /**
   * The attenuation compiler is correct: whatever state the device is in, the text generated for it,
   * parsed again, compiled to frames and executed, stores the two halves of val in the two attenuators
   * of every selected board, changes no other attenuator and no bit of port 0, and leaves port 2 and the
   * selected pins at zero. The halves are cut to eight bits.
   */
  lemma AttenuationCompiled(d: Device, boards: nat, val: nat, frame: byte)
    requires d.Valid()
    ensures AttenSet(d, RunText(d, DeviceAtten(boards, val), frame), boards, val / 2 % 0x100, (val - val / 2) % 0x100)
  {
    hide Bit, AttenText, PinText, RunText, Latched, PairArg, SideArg, AttenSet, Dec;
    var low, high := val / 2, val - val / 2;
    var lead := !Bit(boards, 0) && Bit(boards, 1);
    if low == high {
      PairArgIsPinText(low, boards);
      var text := AttenText(PairArg(low, boards));
      assert text + [] == text;
      var r := RunArgument(d, low, lead, PairPins(boards), [], frame);
      RunNothing(r, Frames(frame, 6));
      OnePass(d, r, boards, low % 0x100);
    } else {
      SideArgIsPinText(low, boards, 0);
      SideArgIsPinText(high, boards, 1);
      var second := AttenText(SideArg(high, boards, 1));
      assert second + [] == second;
      var q := RunArgument(d, low, lead, SidePins(boards, 0), second, frame);
      var r := RunArgument(q, high, lead, SidePins(boards, 1), [], Frames(frame, 6));
      RunNothing(r, Frames(Frames(frame, 6), 6));
      TwoPasses(d, q, r, boards, low % 0x100, high % 0x100);
    }
  }

  lemma OnePass(d: Device, r: Device, boards: nat, v: nat)
    requires d.Valid() && r.Valid()
    requires exists m :: Latched(d, r, m, v) && forall k: nat :: k < 8 ==> (Bit(m, k) <==> k in PairPins(boards))
    ensures AttenSet(d, r, boards, v, v)
  {
    hide Bit, Opened;
    var m :| Latched(d, r, m, v) && forall k: nat :: k < 8 ==> (Bit(m, k) <==> k in PairPins(boards));
    PairPinsAre(boards);
    assert Bit(m, 0) == Bit(m, 1) == Bit(boards, 0) && Bit(m, 2) == Bit(m, 3) == Bit(boards, 1);
  }

  lemma PairPinsAre(boards: nat)
    ensures forall k: nat :: k in PairPins(boards) <==>
      (k < 2 && Bit(boards, 0)) || (2 <= k < 4 && Bit(boards, 1))
  {
    hide Bit;
  }

  lemma SidePinsAre(boards: nat, side: nat)
    ensures forall k: nat :: k in SidePins(boards, side) <==>
      (k == side && Bit(boards, 0)) || (k == 2 + side && Bit(boards, 1))
  {
    hide Bit;
  }

  lemma TwoPasses(d: Device, q: Device, r: Device, boards: nat, low: nat, high: nat)
    requires d.Valid() && q.Valid() && r.Valid()
    requires exists m :: Latched(d, q, m, low) && forall k: nat :: k < 8 ==> (Bit(m, k) <==> k in SidePins(boards, 0))
    requires exists m :: Latched(q, r, m, high) && forall k: nat :: k < 8 ==> (Bit(m, k) <==> k in SidePins(boards, 1))
    ensures AttenSet(d, r, boards, low, high)
  {
    hide Bit, FromBits, Opened;
    var m0 :| Latched(d, q, m0, low) && forall k: nat :: k < 8 ==> (Bit(m0, k) <==> k in SidePins(boards, 0));
    var m1 :| Latched(q, r, m1, high) && forall k: nat :: k < 8 ==> (Bit(m1, k) <==> k in SidePins(boards, 1));
    SidePinsAre(boards, 0);
    SidePinsAre(boards, 1);
    OpenedAlready(q);
    assert Bit(m0, 0) == Bit(m1, 1) == Bit(boards, 0) && Bit(m0, 2) == Bit(m1, 3) == Bit(boards, 1);
    assert !Bit(m0, 1) && !Bit(m0, 3) && !Bit(m1, 0) && !Bit(m1, 2);
  }

  lemma OpenedAlready(d: Device)
    requires d.Valid() && d.AllOutputs()
    ensures forall k :: 0 <= k < 8 ==> Opened(d, k) == d.captured[k]
  {
  }

  /** The two attenuators of a selected board add up to the requested value exactly for values up to 510. */
  lemma AttenuationAddsUp(d: Device, boards: nat, val: nat, frame: byte, j: nat)
    requires d.Valid() && j < 2 && Bit(boards, j)
    ensures var r := RunText(d, DeviceAtten(boards, val), frame);
      r.captured[2 * j] + r.captured[2 * j + 1] == val <==> val <= 510
  {
    hide RunText, DeviceAtten;
    AttenuationCompiled(d, boards, val, frame);
  }

  // ----- The pauses

  /** The packet writes a one to a pin of port 1, so that an attenuator may be clocked. */
  ghost predicate Clocks(packet: seq<byte>)
  {
    && |packet| >= 7 && packet[1] as int == 0x03 && ValueAt(packet, 3, 3).Some?
    && exists i :: 8 <= i < 16 && Bit(ValueAt(packet, 3, 3).value, i)
  }

  /** A line that may clock an attenuator stands between two pauses. */
  ghost predicate Paused(lines: seq<string>, k: nat)
    requires k < |lines|
  {
    0 < k < |lines| - 1 && lines[k - 1] == "Sleep 1" && lines[k + 1] == "Sleep 1"
  }

  lemma WriteOffPort1(config: bool, m: nat, v: nat, frame: byte)
    requires m < 0x100_0000 && v < 0x100_0000
    requires config || forall i: nat :: 8 <= i < 16 ==> !Bit(v, i)
    ensures var e := CompileLine(WriteLine(if config then "DConfigW" else "DOutW", m, v), frame);
      e.Packet? && !Clocks(e.bytes)
  {
    hide CompileLine, WriteLine, Bit, Encode, ValueAt, PairData;
    var line := WriteLine(if config then "DConfigW" else "DOutW", m, v);
    var cmd := if config then CMD_DCONF_W else CMD_DOUT_W;
    TextToDevice(config, m, v, "", frame, []);
    assert line + "" == line;
    var bytes := Encode(Request(cmd, frame, PairData(m, v)));
    assert CompileLine(line, frame).bytes == bytes;
    assert bytes + [] == bytes;
    RequestHeader(cmd, frame, PairData(m, v));
    assert bytes[1] == bytes[..4][1] == cmd;
    if !config {
      DoesNotClock(bytes, v);
    }
  }

  lemma DoesNotClock(packet: seq<byte>, v: nat)
    requires ValueAt(packet, 3, 3) == Some(v) && forall i: nat :: 8 <= i < 16 ==> !Bit(v, i)
    ensures !Clocks(packet)
  {
    hide ValueAt, Bit;
  }

  lemma AttenPauses(m: nat, v: nat, frame: byte, k: nat)
    requires m < 0x100 && v < 0x100 && k < 9
    ensures var e := CompileLine(AttenLines(m, v)[k], frame);
      e.Packet? && Clocks(e.bytes) ==> Paused(AttenLines(m, v), k)
  {
    hide CompileLine, WriteLine, Bit, Clocks;
    forall i: nat
      ensures Bit(v * 0x1_0000, i) ==> i >= 16
      ensures !Bit(0, i)
    {
      DataBits(v, i);
      BitOfZero(i);
    }
    WriteOffPort1(true, 0xFFFFFF, 0, frame);
    WriteOffPort1(false, m * 0x100, 0, frame);
    WriteOffPort1(false, 0xFF0000, v * 0x1_0000, frame);
    WriteOffPort1(false, 0xFF0000, 0, frame);
    NoClock(frame);
  }

  lemma NoClock(frame: byte)
    ensures CompileLine("Sleep 1", frame) == Packet([], frame) && CompileLine("", frame) == Ignored
    ensures !Clocks([])
  {
    hide CompileLine;
    CompileSleep("", frame);
    assert "Sleep 1" + "" == "Sleep 1";
    CompileBlank("", frame);
  }

  /** In the text for a device, a pause stands directly before and behind every line that clocks an attenuator. */
  lemma ClocksArePaused(boards: nat, val: nat, frame: byte, k: nat)
    requires k < |DeviceAtten(boards, val)|
    ensures var e := CompileLine(DeviceAtten(boards, val)[k], frame);
      e.Packet? && Clocks(e.bytes) ==> Paused(DeviceAtten(boards, val), k)
  {
    hide CompileLine, AttenText, PairArg, SideArg, Clocks;
    var low, high := val / 2, val - val / 2;
    if low == high {
      PartPauses(PairArg(low, boards), [], [], frame, k);
      var text := AttenText(PairArg(low, boards));
      assert [] + text + [] == text;
    } else {
      var first, second := AttenText(SideArg(low, boards, 0)), AttenText(SideArg(high, boards, 1));
      assert [] + first + second == first + second && first + second + [] == first + second;
      if k < |first| {
        PartPauses(SideArg(low, boards, 0), [], second, frame, k);
      } else {
        PartPauses(SideArg(high, boards, 1), first, [], frame, k - |first|);
      }
    }
  }

  lemma PartPauses(arg: string, before: seq<string>, behind: seq<string>, frame: byte, k: nat)
    requires k < |AttenText(arg)|
    ensures var lines := before + AttenText(arg) + behind;
      var e := CompileLine(lines[|before| + k], frame);
      e.Packet? && Clocks(e.bytes) ==> Paused(lines, |before| + k)
  {
    hide CompileLine, AttenLines, ParseAtten, Clocks;
    var r := ParseAtten(arg, 31);
    AttenLinesCount(r.mask % 0x100, r.val % 0x100);
    AttenPauses(r.mask % 0x100, r.val % 0x100, frame, k);
    var lines, part := before + AttenText(arg) + behind, AttenText(arg);
    assert forall j :: 0 <= j < |part| ==> lines[|before| + j] == part[j];
    assert 0 < k < |part| - 1 ==> lines[|before| + k - 1] == part[k - 1] && lines[|before| + k + 1] == part[k + 1];
  }

  // ----- The power compiler

  /**
   * The pins of port 0 show the boards of the mask, the root left out; all 24 pins are outputs, and all else is
   * as before.
   */
  ghost predicate PowerSet(d: Device, r: Device, mask: nat)
    requires d.Valid() && r.Valid()
  {
    && r.AllOutputs()
    && (forall j: nat :: j < 8 ==> Level(r.latch, r.inputs, r.idle, j) == Bit(mask, j + 1))
    && (forall i :: 8 <= i < 24 ==> r.latch[i] == d.latch[i])
    && (forall k :: 0 <= k < 8 ==> r.captured[k] == Opened(d, k))
  }

  lemma RunPowerLines(d: Device, m: nat, frame: byte)
    requires d.Valid() && m < 0x100
    ensures RunText(d, PowerLines(m), frame) == Write(Configure(d, 0xFFFFFF, 0), 0xFF, m)
  {
    hide RunText, WriteLine, Write, Configure;
    var w := WriteLine("DOutW", 0xFF, m);
    var d0 := Configure(d, 0xFFFFFF, 0);
    assert PowerLines(m) == [WriteLine("DConfigW", 0xFFFFFF, 0)] + ([w] + ([""] + []));
    RunConfig(d, 0xFFFFFF, 0, [w] + ([""] + []), frame);
    RunWrite(d0, 0xFF, m, [""] + [], Frames(frame, 1));
    CompileBlank("", Frames(frame, 2));
    RunIgnored(Write(d0, 0xFF, m), "", [], Frames(frame, 2));
    RunNothing(Write(d0, 0xFF, m), Frames(frame, 2));
  }

  /**
   * The power compiler is correct: with the board mask of the command line, position 0 being the root,
   * the generated text switches pin j of port 0 on exactly when board j + 1 is listed, and touches
   * nothing else.
   */
  lemma PowerCompiled(d: Device, mask: nat, frame: byte)
    requires d.Valid()
    ensures PowerSet(d, RunText(d, DevicePower(mask % 0x200 / 2), frame), mask)
  {
    hide RunText, DevicePower, Write, Configure, Bit, PowerSet;
    var boards := mask % 0x200 / 2;
    PowerTextIsExact(boards);
    RunPowerLines(d, boards % 0x100, frame);
    BoardBits(mask);
    WriteSetsPower(d, mask, boards % 0x100);
  }

  lemma BoardBits(mask: nat)
    ensures forall j: nat :: Bit(mask % 0x200 / 2 % 0x100, j) <==> j < 8 && Bit(mask, j + 1)
  {
    hide Pow2;
    var boards := mask % 0x200 / 2;
    PowersOfTwo();
    NinthPower();
    forall j: nat
      ensures Bit(boards % 0x100, j) <==> j < 8 && Bit(mask, j + 1)
    {
      BitOfLow(boards, 8, j);
      assert Bit(mask % 0x200, j + 1) == Bit(boards, j);
      BitOfLow(mask, 9, j + 1);
    }
  }

  lemma WriteSetsPower(d: Device, mask: nat, m: nat)
    requires d.Valid() && forall j: nat :: Bit(m, j) <==> j < 8 && Bit(mask, j + 1)
    ensures PowerSet(d, Write(Configure(d, 0xFFFFFF, 0), 0xFF, m), mask)
  {
    hide Bit, Pow2, FromBits, Write, Configure, Opened;
    PowersOfTwo();
    forall j: nat
      ensures Bit(0xFF, j) <==> j < 8
    {
      BitOfOnes(8, j);
    }
    ConfigureOpens(d);
    WriteOut(Configure(d, 0xFFFFFF, 0), 0xFF, m);
  }

  lemma NinthPower()
    ensures Pow2(9) == 0x200
  {
    PowersOfTwo();
    assert Pow2(9) == 2 * Pow2(8);
  }

  // ----- Through the network

  /** A packet that the simulator takes as one frame, or the empty packet of a Sleep line. */
  predicate Deliverable(packet: seq<byte>)
  {
    packet == [] || IsFrame(Server, Replies.CAPACITY, packet)
  }

  lemma {:induction false} NonEmptyIsEnough(d: Device, packets: seq<seq<byte>>)
    requires d.Valid() && forall i :: 0 <= i < |packets| ==> Deliverable(packets[i])
    ensures Flatten(NonEmpty(packets)) == Flatten(packets)
    ensures AllFrames(Server, Replies.CAPACITY, NonEmpty(packets))
    ensures ExecAll(d, NonEmpty(packets)) == ExecAll(d, packets)
    decreases |packets|
  {
    hide IsFrame, Write;
    if packets != [] {
      var p, rest := packets[0], NonEmpty(packets[1..]);
      assert Deliverable(p);
      assert forall i :: 0 <= i < |packets| - 1 ==> packets[1..][i] == packets[i + 1];
      NonEmptyIsEnough(Exec(d, p), packets[1..]);
      if p == [] {
        assert NonEmpty(packets) == [] + rest == rest;
        assert [] + Flatten(packets[1..]) == Flatten(packets[1..]);
      } else {
        assert NonEmpty(packets)[1..] == rest;
      }
    }
  }

  /**
   * Sent over a byte stream that arrives in any pieces, the packets have on the device the effect they
   * have when executed one by one.
   */
  lemma AnyDeliverySameEffect(d: Device, packets: seq<seq<byte>>, chunks: seq<seq<byte>>)
    requires d.Valid() && forall i :: 0 <= i < |packets| ==> Deliverable(packets[i])
    requires Flatten(chunks) == Flatten(packets)
    ensures ExecAll(d, ReadAll(Server, Replies.CAPACITY, chunks).frames) == ExecAll(d, packets)
  {
    hide ReadAll, ExecAll, IsFrame, Exec, Judge;
    NonEmptyIsEnough(d, packets);
    var fs := NonEmpty(packets);
    EmptyNeedsMore(Server);
    assert Flatten(fs) + [] == Flatten(fs);
    GoodStream(Server, Replies.CAPACITY, fs, [], chunks);
  }

  /** The lines the generators print for a device. */
  ghost predicate Plain(line: string)
  {
    || line == "" || line == "Sleep 1"
    || (exists m: nat, v: nat :: m < 0x100_0000 && v < 0x100_0000 && line == WriteLine("DConfigW", m, v))
    || (exists m: nat, v: nat :: m < 0x100_0000 && v < 0x100_0000 && line == WriteLine("DOutW", m, v))
  }

  lemma PlainIsDeliverable(line: string, frame: byte)
    requires Plain(line)
    ensures !CompileLine(line, frame).Undefined?
    ensures CompileLine(line, frame).Packet? ==> Deliverable(CompileLine(line, frame).bytes)
    ensures CompileLine(line + NEWLINE, frame) == CompileLine(line, frame)
  {
    hide CompileLine, WriteLine, Strtol16, IsFrame;
    if m: nat, v: nat :| m < 0x100_0000 && v < 0x100_0000 && line == WriteLine("DConfigW", m, v) {
      WriteIsDeliverable(true, m, v, frame);
    } else if m: nat, v: nat :| m < 0x100_0000 && v < 0x100_0000 && line == WriteLine("DOutW", m, v) {
      WriteIsDeliverable(false, m, v, frame);
    } else if line == "" {
      CompileBlank("", frame);
      CompileBlank("" + NEWLINE, frame);
    } else {
      CompileSleep("", frame);
      CompileSleep(NEWLINE, frame);
      assert "Sleep 1" + "" == "Sleep 1" && Deliverable([]);
    }
  }

  lemma WriteIsDeliverable(config: bool, m: nat, v: nat, frame: byte)
    requires m < 0x100_0000 && v < 0x100_0000
    ensures var line := WriteLine(if config then "DConfigW" else "DOutW", m, v);
      && CompileLine(line, frame).Packet? && Deliverable(CompileLine(line, frame).bytes)
      && CompileLine(line + NEWLINE, frame) == CompileLine(line, frame)
  {
    hide CompileLine, WriteLine, Encode;
    var line := WriteLine(if config then "DConfigW" else "DOutW", m, v);
    TextToDevice(config, m, v, "", frame, []);
    assert line + "" == line;
    assert EndsNumber(NEWLINE);
    TextToDevice(config, m, v, NEWLINE, frame, []);
    PairFrameIsAccepted(if config then CMD_DCONF_W else CMD_DOUT_W, frame, PairData(m, v));
  }

  lemma PairFrameIsAccepted(cmd: byte, frame: byte, data: seq<byte>)
    requires IsKnown(cmd) && |data| == 6
    ensures IsFrame(Server, Replies.CAPACITY, Encode(Request(cmd, frame, data)))
  {
    EncodeVerifies(Request(cmd, frame, data));
  }

  /** The generated text is defined line by line, its packets are frames, and its newlines do no harm. */
  lemma {:induction false} PlainTextIsDeliverable(lines: seq<string>, frame: byte)
    requires forall i :: 0 <= i < |lines| ==> Plain(lines[i])
    ensures AllDefined(Printed(lines), frame)
    ensures CompileAll(Printed(lines), frame) == CompileAll(lines, frame)
    ensures forall i :: 0 <= i < |CompileAll(lines, frame).packets| ==> Deliverable(CompileAll(lines, frame).packets[i])
    decreases |lines|
  {
    hide CompileLine, Plain, Deliverable;
    if lines != [] {
      PlainIsDeliverable(lines[0], frame);
      assert forall i :: 0 <= i < |lines| - 1 ==> lines[1..][i] == lines[i + 1];
      assert Printed(lines)[1..] == Printed(lines[1..]);
      match CompileLine(lines[0], frame)
      case Ignored => PlainTextIsDeliverable(lines[1..], frame);
      case Packet(bytes, next) => PlainTextIsDeliverable(lines[1..], next);
    }
  }

  lemma AttenTextIsPlain(arg: string)
    ensures forall i :: 0 <= i < |AttenText(arg)| ==> Plain(AttenText(arg)[i])
  {
    hide ParseAtten, WriteLine, Plain;
    var r := ParseAtten(arg, 31);
    var m, v := r.mask % 0x100, r.val % 0x100;
    PlainWrite(true, 0xFFFFFF, 0);
    PlainWrite(false, m * 0x100, 0);
    PlainWrite(false, 0xFF0000, v * 0x1_0000);
    PlainWrite(false, m * 0x100, m * 0x100);
    PlainWrite(false, 0xFF0000, 0);
    PlainConstants();
  }

  lemma PlainConstants()
    ensures Plain("") && Plain("Sleep 1")
  {
  }

  lemma PlainWrite(config: bool, m: nat, v: nat)
    requires m < 0x100_0000 && v < 0x100_0000
    ensures Plain(WriteLine(if config then "DConfigW" else "DOutW", m, v))
  {
    hide WriteLine;
    if config {
      assert Plain(WriteLine("DConfigW", m, v));
    } else {
      assert Plain(WriteLine("DOutW", m, v));
    }
  }

  lemma DeviceAttenIsPlain(boards: nat, val: nat)
    ensures forall i :: 0 <= i < |DeviceAtten(boards, val)| ==> Plain(DeviceAtten(boards, val)[i])
  {
    hide AttenText, Plain, PairArg, SideArg;
    var low, high := val / 2, val - val / 2;
    AttenTextIsPlain(PairArg(low, boards));
    AttenTextIsPlain(SideArg(low, boards, 0));
    AttenTextIsPlain(SideArg(high, boards, 1));
  }

  /**
   * From the command line to the device: the text printed for a selected device, newlines included, is
   * accepted by the client, and however the bytes it sends are split up on the way, the requests the
   * simulator's receiver recovers leave the attenuators as asked.
   */
  lemma AttenuationDelivered(d: Device, boards: nat, val: nat, frame: byte, chunks: seq<seq<byte>>)
    requires d.Valid()
    requires Flatten(chunks) == Flatten(CompileAll(Printed(DeviceAtten(boards, val)), frame).packets)
    ensures AllDefined(Printed(DeviceAtten(boards, val)), frame)
    ensures AttenSet(d, ExecAll(d, ReadAll(Server, Replies.CAPACITY, chunks).frames), boards,
                     val / 2 % 0x100, (val - val / 2) % 0x100)
  {
    hide AttenSet, ReadAll, DeviceAtten, ExecAll, CompileAll, AllDefined, Plain, Deliverable, Printed;
    var lines := DeviceAtten(boards, val);
    DeviceAttenIsPlain(boards, val);
    PlainTextIsDeliverable(lines, frame);
    AnyDeliverySameEffect(d, CompileAll(lines, frame).packets, chunks);
    AttenuationCompiled(d, boards, val, frame);
  }

  /** The same for the power commands: pin j of port 0 follows board j + 1 of the command line. */
  lemma PowerDelivered(d: Device, mask: nat, frame: byte, chunks: seq<seq<byte>>)
    requires d.Valid()
    requires Flatten(chunks) == Flatten(CompileAll(Printed(DevicePower(mask % 0x200 / 2)), frame).packets)
    ensures AllDefined(Printed(DevicePower(mask % 0x200 / 2)), frame)
    ensures PowerSet(d, ExecAll(d, ReadAll(Server, Replies.CAPACITY, chunks).frames), mask)
  {
    hide PowerSet, ReadAll, ExecAll, CompileAll, AllDefined, Plain, Deliverable, DevicePower, Printed;
    var lines := DevicePower(mask % 0x200 / 2);
    PowerTextIsPlain(mask % 0x200 / 2);
    PlainTextIsDeliverable(lines, frame);
    AnyDeliverySameEffect(d, CompileAll(lines, frame).packets, chunks);
    PowerCompiled(d, mask, frame);
  }

  lemma PowerTextIsPlain(boards: nat)
    ensures forall i :: 0 <= i < |DevicePower(boards)| ==> Plain(DevicePower(boards)[i])
  {
    hide DevicePower, WriteLine, Plain;
    PowerTextIsExact(boards);
    PlainWrite(true, 0xFFFFFF, 0);
    PlainWrite(false, 0xFF, boards % 0x100);
    PlainConstants();
  }

  // ----- From the typed arguments

  /**
   * "p=" with a list of boards, ";v=" and a value, as typed: the generated text stores the halves of the
   * value in the two attenuators of each listed board 0 or 1 and in no other, and they add up to the
   * value exactly if it is at most 510.
   */
  lemma TypedAttenuation(d: Device, boards: seq<nat>, value: nat, frame: byte)
    requires d.Valid() && PinNumbers(boards)
    ensures var arg := ParseAtten(ListThenValue(boards, value), 0);
      var r := RunText(d, DeviceAtten(arg.mask % 4, arg.val), frame);
      && AttenSet(d, r, arg.mask % 4, value / 2 % 0x100, (value - value / 2) % 0x100)
      && (forall j: nat :: j < 2 ==> (Bit(arg.mask % 4, j) <==> j in boards))
      && (forall j :: 0 <= j < 2 && j in boards ==>
            (r.captured[2 * j] + r.captured[2 * j + 1] == value <==> value <= 510))
  {
    hide RunText, DeviceAtten, ParseAtten, Bit;
    ParseListThenValue(boards, value, 0);
    var mask := SetAll(0, boards);
    LowBitsOfSet(boards, 2);
    assert Pow2(2) == 4;
    AttenuationCompiled(d, mask % 4, value, frame);
    forall j: nat | j < 2 && j in boards
      ensures var r := RunText(d, DeviceAtten(mask % 4, value), frame);
        r.captured[2 * j] + r.captured[2 * j + 1] == value <==> value <= 510
    {
      AttenuationAddsUp(d, mask % 4, value, frame, j);
    }
  }

  lemma LowBitsOfSet(nums: seq<nat>, n: nat)
    ensures forall j: nat :: Bit(SetAll(0, nums) % Pow2(n), j) <==> j < n && j in nums
  {
    hide Bit;
    forall j: nat
      ensures Bit(SetAll(0, nums) % Pow2(n), j) <==> j < n && j in nums
    {
      BitOfLow(SetAll(0, nums), n, j);
      BitOfSetAll(0, nums, j);
      BitOfZero(j);
    }
  }

  /** A typed list of devices selects exactly the listed ones from 1 to 16 that have an address. */
  lemma TypedClusters(devices: seq<string>, clusters: seq<nat>, i: nat)
    requires PinNumbers(clusters) && 1 <= i <= 16
    ensures Selected(devices, ParseAtten(PinText(NoVal, false, clusters, false), 0).mask % 0x2_0000, i)
      <==> i in clusters && i <= |devices| && |FieldFrom(Fields(devices[i - 1]), 0)| <= 200
  {
    hide ParseAtten, Bit, Column, FieldFrom;
    if i <= |devices| {
      ColumnIsFieldFrom(devices[i - 1], 0, ADDRESS_SIZE);
    }
    ParseUndoesPrint(NoVal, false, clusters, false, 0);
    LowBitsOfSet(clusters, 17);
    SeventeenthPower();
  }

  lemma SeventeenthPower()
    ensures Pow2(17) == 0x2_0000
  {
    PowersOfTwo();
    assert Pow2(17) == 2 * Pow2(16);
  }

  /** A typed list of boards: pin j of port 0 is on exactly when board j + 1 is in the list. */
  lemma TypedPower(d: Device, boards: seq<nat>, frame: byte)
    requires d.Valid() && PinNumbers(boards)
    ensures var mask := ParseAtten(PinText(NoVal, false, boards, false), 0).mask;
      var r := RunText(d, DevicePower(mask % 0x200 / 2), frame);
      && r.AllOutputs()
      && (forall j: nat :: j < 8 ==> Level(r.latch, r.inputs, r.idle, j) == ((j + 1) in boards))
      && (forall i :: 8 <= i < 24 ==> r.latch[i] == d.latch[i])
      && (forall k :: 0 <= k < 8 ==> r.captured[k] == Opened(d, k))
  {
    hide RunText, DevicePower, ParseAtten, Bit;
    ParseUndoesPrint(NoVal, false, boards, false, 0);
    PowerCompiled(d, SetAll(0, boards), frame);
  }
}
