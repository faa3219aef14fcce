/** The command generator: pin arguments are printed, parsed again and turned into lines of register writes. */
module Gencctcmd {
  import opened Bits
  import opened Text
  import opened Wrappers
  import opened PinList
  import opened Boards

  /** EDIO24_INVALID_INT seen as an unsigned int. */
  const INVALID: nat := 0xFFFF_FFFF

  /** One more digit at the end. */
  lemma HexStep(x: nat, w: nat, v: nat, s: string, d: char)
    requires v < 16 && d == HexDigit(v) && Hex(x, w) == s
    ensures Hex(16 * x + v, w + 1) == s + [d]
  {
  }

  lemma HexDigitEnds()
    ensures HexDigit(0) == '0' && HexDigit(15) == 'F' && Hex(0, 0) == ""
  {
  }

  lemma HexZeros()
    ensures Hex(0, 4) == ['0', '0', '0', '0'] && Hex(0, 6) == ['0', '0', '0', '0', '0', '0']
  {
    hide Hex, HexDigit;
    HexDigitEnds();
    HexStep(0, 0, 0, "", '0');
    HexStep(0, 1, 0, ['0'], '0');
    HexStep(0, 2, 0, ['0', '0'], '0');
    HexStep(0, 3, 0, ['0', '0', '0'], '0');
    HexStep(0, 4, 0, ['0', '0', '0', '0'], '0');
    HexStep(0, 5, 0, ['0', '0', '0', '0', '0'], '0');
  }

  lemma HexEffs()
    ensures Hex(0xFF, 2) == ['F', 'F'] && Hex(0xFFFFFF, 6) == ['F', 'F', 'F', 'F', 'F', 'F']
  {
    hide Hex, HexDigit;
    HexDigitEnds();
    HexStep(0, 0, 15, "", 'F');
    HexStep(0xF, 1, 15, ['F'], 'F');
    HexStep(0xFF, 2, 15, ['F', 'F'], 'F');
    HexStep(0xFFF, 3, 15, ['F', 'F', 'F'], 'F');
    HexStep(0xFFFF, 4, 15, ['F', 'F', 'F', 'F'], 'F');
    HexStep(0xFFFFF, 5, 15, ['F', 'F', 'F', 'F', 'F'], 'F');
  }

  lemma HexMixed()
    ensures Hex(0xFF, 6) == ['0', '0', '0', '0', 'F', 'F'] && Hex(0xFF0000, 6) == ['F', 'F', '0', '0', '0', '0']
  {
    hide Hex, HexDigit;
    HexDigitEnds();
    HexZeros();
    HexStep(0, 4, 15, ['0', '0', '0', '0'], 'F');
    HexStep(0xF, 5, 15, ['0', '0', '0', '0', 'F'], 'F');
    HexEffs();
    HexStep(0xFF, 2, 0, ['F', 'F'], '0');
    HexStep(0xFF0, 3, 0, ['F', 'F', '0'], '0');
    HexStep(0xFF00, 4, 0, ['F', 'F', '0', '0'], '0');
    HexStep(0xFF000, 5, 0, ['F', 'F', '0', '0', '0'], '0');
  }

  lemma HexConstants()
    ensures Hex(0, 6) == "000000" && Hex(0xFF, 6) == "0000FF"
    ensures Hex(0xFF0000, 6) == "FF0000" && Hex(0xFFFFFF, 6) == "FFFFFF"
  {
    hide Hex;
    HexZeros();
    HexEffs();
    HexMixed();
  }

  /** The lines that latch a value into the attenuators of the mask: pins low, data, pins high, pins low, data zero. */
  function AttenLines(mask: nat, value: nat): seq<string>
  {
    [WriteLine("DConfigW", 0xFFFFFF, 0),
     WriteLine("DOutW", mask * 0x100, 0),
     WriteLine("DOutW", 0xFF0000, value * 0x1_0000),
     "Sleep 1",
     WriteLine("DOutW", mask * 0x100, mask * 0x100),
     "Sleep 1",
     WriteLine("DOutW", mask * 0x100, 0),
     WriteLine("DOutW", 0xFF0000, 0),
     ""]
  }

  function PowerLines(mask: nat): seq<string>
  {
    [WriteLine("DConfigW", 0xFFFFFF, 0), WriteLine("DOutW", 0xFF, mask), ""]
  }

  /** The lines for one argument, none when it does not parse. */
  function AttenText(arg: string): seq<string>
  {
    var r := ParseAtten(arg, 31);
    if r.ret != 0 then [] else AttenLines(r.mask % 0x100, r.val % 0x100)
  }

  function PowerText(arg: string): seq<string>
  {
    var r := ParseAtten(arg, INVALID);
    if r.ret != 0 || r.val != INVALID then [] else PowerLines(r.mask % 0x100)
  }

  /** The arguments do_setatten prints for pins 0 and 1, and for pins 2 and 3. */
  function PairArg(value: nat, boards: nat): string
  {
    "v=" + Dec(value) + ";p="
    + (if Bit(boards, 0) then Dec(0) + "," + Dec(1) else "")
    + (if Bit(boards, 1) then "," + Dec(2) + "," + Dec(3) else "")
  }

  /** The same with only the even pins (side 0) or only the odd pins (side 1). */
  function SideArg(value: nat, boards: nat, side: nat): string
  {
    "v=" + Dec(value) + ";p="
    + (if Bit(boards, 0) then Dec(side) else "")
    + (if Bit(boards, 1) then "," + Dec(2 + side) else "")
  }

  /** All lines for one device: one pass when the value halves evenly, otherwise the smaller half first. */
  function DeviceAtten(boards: nat, value: nat): seq<string>
  {
    var low, high := value / 2, value - value / 2;
    if low == high then AttenText(PairArg(low, boards))
    else AttenText(SideArg(low, boards, 0)) + AttenText(SideArg(high, boards, 1))
  }

  /** "0,3,4," and so on: a number and a comma for each of the first n bits of the mask. */
  function PowerList(mask: nat, n: nat): string
  {
    if n == 0 then "" else PowerList(mask, n - 1) + (if Bit(mask, n - 1) then Dec(n - 1) + "," else "")
  }

  function DevicePower(boards: nat): seq<string>
  {
    PowerText("p=" + PowerList(boards, 8))
  }

  const ADDRESS_SIZE: nat := 200

  /** Device i is asked for and has an address; device numbers start at 1. */
  predicate Selected(devices: seq<string>, clusters: nat, i: nat)
    requires i >= 1
  {
    Bit(clusters, i) && i - 1 < |devices| && Column(devices[i - 1], 0, ADDRESS_SIZE).Some?
  }

  function Connect(device: string, i: nat): string
  {
    "# ConnectTo " + device + " # " + Dec(i)
  }

  /** The output for devices 1 to n: a connect line and the given lines for each one selected. */
  function Sections(devices: seq<string>, clusters: nat, lines: seq<string>, n: nat): seq<string>
  {
    if n == 0 then []
    else
      Sections(devices, clusters, lines, n - 1)
      + (if Selected(devices, clusters, n) then [Connect(devices[n - 1], n)] + lines else [])
  }

  /** The text file written to, line by line. */
  class Output {
    var lines: seq<string>

    constructor ()
      ensures lines == []
    {
      lines := [];
    }

    method Print(line: string)
      modifies this
      ensures lines == old(lines) + [line]
    {
      lines := lines + [line];
    }
  }

  /** output_atten */
  method OutputAtten(outf: Output, arg: string) returns (ret: int)
    modifies outf
    ensures outf.lines == old(outf.lines) + AttenText(arg)
    ensures ret == if ParseAtten(arg, 31).ret == 0 then 0 else 1
  {
    hide ParseAtten, AttenLines;
    var r, mask, val := ParseValuesAtten(arg, 31);
    if r != 0 {
      assert outf.lines + [] == outf.lines;
      return 1;
    }
    mask := mask % 0x100;
    PrintAtten(outf, mask, val);
    ret := 0;
  }

  /** The printing part of output_atten. */
  method PrintAtten(outf: Output, mask: nat, val: nat)
    requires mask < 0x100
    modifies outf
    ensures outf.lines == old(outf.lines) + AttenLines(mask, val % 0x100)
  {
    hide Hex, WriteLine;
    outf.Print("DConfigW 0xFFFFFF 0x000000");
    var hval := mask % 0x100 * 0x100;
    outf.Print("DOutW 0x" + Hex(hval, 6) + " 0x000000");
    hval := val % 0x100 * 0x1_0000;
    outf.Print("DOutW 0xFF0000 0x" + Hex(hval, 6));
    outf.Print("Sleep 1");
    hval := mask % 0x100 * 0x100;
    outf.Print("DOutW 0x" + Hex(hval, 6) + " 0x" + Hex(hval, 6));
    outf.Print("Sleep 1");
    hval := mask % 0x100 * 0x100;
    outf.Print("DOutW 0x" + Hex(hval, 6) + " 0x000000");
    outf.Print("DOutW 0xFF0000 0x000000");
    outf.Print("");
    LiteralLines(hval, val % 0x100 * 0x1_0000);
  }

  /** The lines as the format strings spell them. */
  lemma LiteralLines(pins: nat, data: nat)
    ensures "DConfigW 0xFFFFFF 0x000000" == WriteLine("DConfigW", 0xFFFFFF, 0)
    ensures "DOutW 0x" + Hex(pins, 6) + " 0x000000" == WriteLine("DOutW", pins, 0)
    ensures "DOutW 0x" + Hex(pins, 6) + " 0x" + Hex(pins, 6) == WriteLine("DOutW", pins, pins)
    ensures "DOutW 0xFF0000 0x" + Hex(data, 6) == WriteLine("DOutW", 0xFF0000, data)
    ensures "DOutW 0xFF0000 0x000000" == WriteLine("DOutW", 0xFF0000, 0)
    ensures "DOutW 0x0000FF 0x" + Hex(data, 6) == WriteLine("DOutW", 0xFF, data)
  {
    hide Hex;
    HexConstants();
    LineParts("DOutW", pins, 0);
    LineParts("DOutW", pins, pins);
    LineParts("DOutW", 0xFF0000, data);
    LineParts("DOutW", 0xFF0000, 0);
    LineParts("DOutW", 0xFF, data);
    LineParts("DConfigW", 0xFFFFFF, 0);
    assert "DOutW 0x" == "DOutW" + " 0x" && " 0x000000" == " 0x" + "000000";
    assert "DOutW 0x" + Hex(pins, 6) + " 0x000000" == "DOutW" + " 0x" + Hex(pins, 6) + " 0x" + "000000";
    assert "DOutW 0xFF0000 0x" == "DOutW" + " 0x" + "FF0000" + " 0x";
    assert "DOutW 0x0000FF 0x" == "DOutW" + " 0x" + "0000FF" + " 0x";
    assert "DOutW 0xFF0000 0x000000" == "DOutW 0xFF0000 0x" + "000000";
    assert "DConfigW 0xFFFFFF 0x000000" == "DConfigW" + " 0x" + "FFFFFF" + " 0x" + "000000";
  }

  /** The text of an attenuator argument, letter by letter as the format strings of the program spell it. */
  lemma AttenTextSpelled(arg: string)
    ensures var r := ParseAtten(arg, 31);
      var pins, data := Hex(r.mask % 0x100 * 0x100, 6), Hex(r.val % 0x100 * 0x1_0000, 6);
      AttenText(arg) == if r.ret != 0 then [] else
        ["DConfigW 0xFFFFFF 0x000000",
         "DOutW 0x" + pins + " 0x000000",
         "DOutW 0xFF0000 0x" + data,
         "Sleep 1",
         "DOutW 0x" + pins + " 0x" + pins,
         "Sleep 1",
         "DOutW 0x" + pins + " 0x000000",
         "DOutW 0xFF0000 0x000000",
         ""]
  {
    hide ParseAtten, Hex, WriteLine;
    var r := ParseAtten(arg, 31);
    LiteralLines(r.mask % 0x100 * 0x100, r.val % 0x100 * 0x1_0000);
  }

  /** Likewise for a power argument, which must not name a value. */
  lemma PowerTextSpelled(arg: string)
    ensures var r := ParseAtten(arg, 0xFFFF_FFFF);
      PowerText(arg) == if r.ret != 0 || r.val != 0xFFFF_FFFF then [] else
        ["DConfigW 0xFFFFFF 0x000000", "DOutW 0x0000FF 0x" + Hex(r.mask % 0x100, 6), ""]
  {
    hide ParseAtten, Hex, WriteLine;
    LiteralLines(0, ParseAtten(arg, 0xFFFF_FFFF).mask % 0x100);
  }

  lemma LineParts(name: string, a: nat, b: nat)
    ensures WriteLine(name, a, b) == name + " 0x" + Hex(a, 6) + " 0x" + Hex(b, 6)
  {
    hide Hex;
  }

  /** output_power */
  method OutputPower(outf: Output, arg: string) returns (ret: int)
    modifies outf
    ensures outf.lines == old(outf.lines) + PowerText(arg)
    ensures ret == if ParseAtten(arg, INVALID).ret == 0 && ParseAtten(arg, INVALID).val == INVALID then 0 else 1
  {
    hide ParseAtten, Hex, WriteLine;
    var r, mask, val := ParseValuesAtten(arg, INVALID);
    if r != 0 || val != INVALID {
      assert outf.lines + [] == outf.lines;
      return 1;
    }
    mask := mask % 0x100;
    outf.Print("DConfigW 0xFFFFFF 0x000000");
    outf.Print("DOutW 0x0000FF 0x" + Hex(mask % 0x100, 6));
    outf.Print("");
    LiteralLines(0, mask);
    ret := 0;
  }

  /** get_ip_of_edio24, which the generators call to see whether the device exists. */
  method GetIpOfEdio24(devices: BoardList, id: nat, szBuf: nat) returns (ret: int, text: string)
    requires devices.Valid()
    ensures ret == if id < |devices.Contents()| && Column(devices.Contents()[id], 0, szBuf).Some? then 0 else -1
    ensures ret == 0 ==> text == Column(devices.Contents()[id], 0, szBuf).value
  {
    text := "";
    var row := devices.Get(id);
    if row.None? {
      return -1, text;
    }
    ret, text := GetColumn(row.value, 0, szBuf);
  }

  /** The loop body of do_setatten behind the connect line. */
  method PrintDeviceAtten(fp: Output, boards: nat, val: nat, val1: nat, val2: nat)
    requires val1 == val / 2 && val2 == val - val1
    modifies fp
    ensures fp.lines == old(fp.lines) + DeviceAtten(boards, val)
  {
    hide AttenText, Dec;
    if val1 == val2 {
      var buf := "v=" + Dec(val1) + ";p=";
      if Bit(boards, 0) {
        buf := buf + (Dec(0) + "," + Dec(1));
      }
      if Bit(boards, 1) {
        buf := buf + ("," + Dec(2) + "," + Dec(3));
      }
      assert buf == PairArg(val1, boards);
      var r := OutputAtten(fp, buf);
    } else {
      var buf := "v=" + Dec(val1) + ";p=";
      if Bit(boards, 0) {
        buf := buf + Dec(0);
      }
      if Bit(boards, 1) {
        buf := buf + ("," + Dec(2));
      }
      assert buf == SideArg(val1, boards, 0);
      var r := OutputAtten(fp, buf);
      buf := "v=" + Dec(val2) + ";p=";
      if Bit(boards, 0) {
        buf := buf + Dec(1);
      }
      if Bit(boards, 1) {
        buf := buf + ("," + Dec(3));
      }
      assert buf == SideArg(val2, boards, 1);
      r := OutputAtten(fp, buf);
      assert old(fp.lines) + AttenText(SideArg(val1, boards, 0)) + AttenText(SideArg(val2, boards, 1))
        == old(fp.lines) + (AttenText(SideArg(val1, boards, 0)) + AttenText(SideArg(val2, boards, 1)));
    }
  }

  /** do_setatten for the devices of the list; failed argument parses keep what was parsed so far. */
  method DoSetAtten(fp: Output, devices: BoardList, argCluster: string, argCmd: string)
    requires devices.Valid()
    modifies fp
    ensures fp.lines == old(fp.lines)
      + Sections(devices.Contents(), ParseAtten(argCluster, 0).mask % 0x2_0000,
                 DeviceAtten(ParseAtten(argCmd, 0).mask % 4, ParseAtten(argCmd, 0).val), 16)
  {
    hide ParseAtten, DeviceAtten, Column, Connect, Bit;
    var r, clusters, v := ParseValuesAtten(argCluster, 0);
    clusters := clusters % 0x2_0000;
    var boards, val;
    r, boards, val := ParseValuesAtten(argCmd, 0);
    boards := boards % 4;
    var val1, val2 := val / 2, 0;
    if val1 == 0 {
      val2 := val;
    } else {
      val2 := val - val1;
    }
    ghost var lines := DeviceAtten(boards, val);
    assert fp.lines + [] == fp.lines;
    for i := 1 to 17
      invariant fp.lines == old(fp.lines) + Sections(devices.Contents(), clusters, lines, i - 1)
    {
      ghost var done := Sections(devices.Contents(), clusters, lines, i - 1);
      assert done + [] == done;
      if Bit(clusters, i) {
        var ret, ip := GetIpOfEdio24(devices, i - 1, ADDRESS_SIZE);
        if ret < 0 {
          continue;
        }
        fp.Print(Connect(devices.list[i - 1], i));
        PrintDeviceAtten(fp, boards, val, val1, val2);
        assert fp.lines == old(fp.lines) + (done + ([Connect(devices.Contents()[i - 1], i)] + lines));
      }
    }
  }

  /** do_setpower: the root position 0 is shifted out of the board mask, then one list per device. */
  method DoSetPower(fp: Output, devices: BoardList, argCluster: string, argCmd: string)
    requires devices.Valid()
    modifies fp
    ensures fp.lines == old(fp.lines)
      + Sections(devices.Contents(), ParseAtten(argCluster, 0).mask % 0x2_0000,
                 DevicePower(ParseAtten(argCmd, 0).mask % 0x200 / 2), 16)
  {
    hide ParseAtten, DevicePower, Column, Connect, Bit;
    var r, clusters, v := ParseValuesAtten(argCluster, 0);
    clusters := clusters % 0x2_0000;
    var boards, val;
    r, boards, val := ParseValuesAtten(argCmd, 0);
    boards := boards % 0x200;
    boards := boards / 2;
    ghost var lines := DevicePower(boards);
    assert fp.lines + [] == fp.lines;
    for i := 1 to 17
      invariant fp.lines == old(fp.lines) + Sections(devices.Contents(), clusters, lines, i - 1)
    {
      ghost var done := Sections(devices.Contents(), clusters, lines, i - 1);
      assert done + [] == done;
      if Bit(clusters, i) {
        var ret, ip := GetIpOfEdio24(devices, i - 1, ADDRESS_SIZE);
        if ret < 0 {
          continue;
        }
        fp.Print(Connect(devices.list[i - 1], i));
        PrintDevicePower(fp, boards);
        assert fp.lines == old(fp.lines) + (done + ([Connect(devices.Contents()[i - 1], i)] + lines));
      }
    }
  }

  /** The loop body of do_setpower behind the connect line. */
  method PrintDevicePower(fp: Output, boards: nat)
    modifies fp
    ensures fp.lines == old(fp.lines) + DevicePower(boards)
  {
    hide PowerText;
    var buf := PrintPowerList(boards);
    var r := OutputPower(fp, buf);
  }

  /** The inner loop that appends "j," for every board that is on. */
  method PrintPowerList(boards: nat) returns (buf: string)
    ensures buf == "p=" + PowerList(boards, 8)
  {
    buf := "p=";
    for j := 0 to 8
      invariant buf == "p=" + PowerList(boards, j)
    {
      if Bit(boards, j) {
        buf := buf + (Dec(j) + ",");
      }
    }
  }

  // ----- What the printed arguments mean when parsed

  /** The pins that PairArg lists. */
  function PairPins(boards: nat): seq<nat>
  {
    (if Bit(boards, 0) then [0, 1] else []) + (if Bit(boards, 1) then [2, 3] else [])
  }

  function SidePins(boards: nat, side: nat): seq<nat>
  {
    (if Bit(boards, 0) then [side] else []) + (if Bit(boards, 1) then [2 + side] else [])
  }

  lemma JoinTwo(a: nat, rest: seq<nat>)
    ensures Join([a]) == Dec(a)
    ensures rest != [] ==> Join([a] + rest) == Dec(a) + "," + Join(rest)
  {
    assert ([a] + rest)[1..] == rest;
  }

  /** Four pieces of text, grouped in two ways. */
  lemma Regroup(value: string, first: string, second: string, lead: string, list: string)
    requires lead + list == first + second
    ensures "v=" + value + ";p=" + first + second == ("v=" + value + ";") + ("p=" + (lead + (list + "")))
  {
    assert list + "" == list;
    assert "v=" + value + ";p=" == ("v=" + value + ";") + "p=";
  }

  lemma PairPinsPrinted(boards: nat)
    ensures (if !Bit(boards, 0) && Bit(boards, 1) then "," else "") + Join(PairPins(boards))
      == (if Bit(boards, 0) then Dec(0) + "," + Dec(1) else "")
       + (if Bit(boards, 1) then "," + Dec(2) + "," + Dec(3) else "")
  {
    hide Dec, Bit, Join;
    JoinTwo(3, []);
    JoinTwo(2, [3]);
    JoinTwo(1, []);
    JoinTwo(1, [2, 3]);
    JoinTwo(0, [1]);
    JoinTwo(0, [1] + [2, 3]);
    assert [0, 1] == [0] + [1] && [2, 3] == [2] + [3];
    if Bit(boards, 0) {
      if Bit(boards, 1) {
        assert PairPins(boards) == [0] + ([1] + [2, 3]);
        assert Dec(0) + "," + (Dec(1) + "," + (Dec(2) + "," + Dec(3)))
          == Dec(0) + "," + Dec(1) + ("," + Dec(2) + "," + Dec(3));
      } else {
        assert PairPins(boards) == [0, 1];
      }
    } else if Bit(boards, 1) {
      assert PairPins(boards) == [2, 3];
    } else {
      JoinNone();
    }
  }

  lemma JoinNone()
    ensures Join([]) == ""
  {
  }

  lemma PairArgIsPinText(value: nat, boards: nat)
    ensures PairArg(value, boards) == PinText(Val(value), !Bit(boards, 0) && Bit(boards, 1), PairPins(boards), false)
  {
    hide Dec, Bit, Join, PairPins;
    PairPinsPrinted(boards);
    Regroup(Dec(value), if Bit(boards, 0) then Dec(0) + "," + Dec(1) else "",
            if Bit(boards, 1) then "," + Dec(2) + "," + Dec(3) else "",
            if !Bit(boards, 0) && Bit(boards, 1) then "," else "", Join(PairPins(boards)));
  }

  lemma SidePinsPrinted(boards: nat, side: nat)
    ensures (if !Bit(boards, 0) && Bit(boards, 1) then "," else "") + Join(SidePins(boards, side))
      == (if Bit(boards, 0) then Dec(side) else "") + (if Bit(boards, 1) then "," + Dec(2 + side) else "")
  {
    hide Dec, Bit, Join;
    JoinTwo(2 + side, []);
    JoinTwo(side, []);
    JoinTwo(side, [2 + side]);
    if Bit(boards, 0) {
      if Bit(boards, 1) {
        assert SidePins(boards, side) == [side] + [2 + side];
        assert Dec(side) + "," + Dec(2 + side) == Dec(side) + ("," + Dec(2 + side));
      } else {
        assert SidePins(boards, side) == [side];
      }
    } else if Bit(boards, 1) {
      assert SidePins(boards, side) == [2 + side];
    } else {
      JoinNone();
    }
  }

  lemma SideArgIsPinText(value: nat, boards: nat, side: nat)
    ensures SideArg(value, boards, side)
      == PinText(Val(value), !Bit(boards, 0) && Bit(boards, 1), SidePins(boards, side), false)
  {
    hide Dec, Bit, Join, SidePins;
    SidePinsPrinted(boards, side);
    Regroup(Dec(value), if Bit(boards, 0) then Dec(side) else "", if Bit(boards, 1) then "," + Dec(2 + side) else "",
            if !Bit(boards, 0) && Bit(boards, 1) then "," else "", Join(SidePins(boards, side)));
  }

  /** The numbers below n whose bit is set, ascending. */
  function PowerPins(mask: nat, n: nat): seq<nat>
  {
    if n == 0 then [] else PowerPins(mask, n - 1) + (if Bit(mask, n - 1) then [n - 1] else [])
  }

  lemma {:induction false} JoinAppend(nums: seq<nat>, k: nat)
    requires nums != []
    ensures Join(nums + [k]) == Join(nums) + "," + Dec(k)
  {
    hide Dec;
    if |nums| == 1 {
      JoinTwo(nums[0], [k]);
      JoinTwo(k, []);
      assert nums == [nums[0]];
    } else {
      JoinAppend(nums[1..], k);
      assert (nums + [k])[1..] == nums[1..] + [k];
      assert Dec(nums[0]) + "," + (Join(nums[1..]) + "," + Dec(k))
        == Dec(nums[0]) + "," + Join(nums[1..]) + "," + Dec(k);
    }
  }

  lemma {:induction false} PowerListIsJoin(mask: nat, n: nat)
    ensures PowerList(mask, n) == Join(PowerPins(mask, n)) + (if PowerPins(mask, n) != [] then "," else "")
  {
    hide Dec, Bit, Join;
    JoinNone();
    if n > 0 {
      PowerListIsJoin(mask, n - 1);
      var before := PowerPins(mask, n - 1);
      if Bit(mask, n - 1) {
        assert PowerPins(mask, n) == before + [n - 1];
        if before == [] {
          assert before + [n - 1] == [n - 1];
          JoinTwo(n - 1, []);
        } else {
          JoinAppend(before, n - 1);
          assert Join(before) + "," + Dec(n - 1) + "," == Join(before) + "," + (Dec(n - 1) + ",");
        }
      } else {
        assert PowerPins(mask, n) == before && PowerList(mask, n) == PowerList(mask, n - 1);
      }
    }
  }

  lemma {:induction false} PowerPinsAreBits(mask: nat, n: nat)
    ensures forall k: nat :: k in PowerPins(mask, n) <==> k < n && Bit(mask, k)
  {
    hide Bit;
    if n > 0 {
      PowerPinsAreBits(mask, n - 1);
    }
  }

  /** The power list is read back as the low eight bits of the board mask. */
  lemma PowerTextIsExact(boards: nat)
    ensures DevicePower(boards) == PowerLines(boards % 0x100)
  {
    hide ParseAtten, Bit, SetAll, PowerLines;
    var pins := PowerPins(boards, 8);
    PowerListIsJoin(boards, 8);
    PowerPinsAreBits(boards, 8);
    assert PinNumbers(pins) by {
      assert forall i :: 0 <= i < |pins| ==> pins[i] in pins;
    }
    ParseUndoesPrint(NoVal, false, pins, pins != [], INVALID);
    var arg := "p=" + PowerList(boards, 8);
    assert arg == PinText(NoVal, false, pins, pins != []);
    var m := SetAll(0, pins);
    SamePins(m, boards, pins);
  }

  lemma SamePins(m: nat, boards: nat, pins: seq<nat>)
    requires forall k: nat :: Bit(m, k) <==> k in pins
    requires forall k: nat :: k in pins <==> k < 8 && Bit(boards, k)
    ensures m % 0x100 == boards % 0x100
  {
    hide Bit, Pow2;
    PowersOfTwo();
    forall i | 0 <= i < 8
      ensures Bit(m % 0x100, i) <==> Bit(boards % 0x100, i)
    {
      BitOfLow(m, 8, i);
      BitOfLow(boards, 8, i);
    }
    SameBits(m % 0x100, boards % 0x100, 8);
  }

  /** Each printed attenuator argument is read back as its pins and its value, cut to eight bits. */
  lemma AttenTextIsExact(value: nat, pins: seq<nat>, lead: bool)
    requires PinNumbers(pins)
    ensures AttenText(PinText(Val(value), lead, pins, false)) == AttenLines(SetAll(0, pins) % 0x100, value % 0x100)
  {
    hide ParseAtten, AttenLines, SetAll;
    ParseUndoesPrint(Val(value), lead, pins, false, 31);
  }

  /**
   * Every selected device has its own section, directly behind those of the smaller numbers; an unselected
   * one adds nothing, and nothing follows the last.
   */
  lemma {:induction false} SectionOfDevice(devices: seq<string>, clusters: nat, lines: seq<string>, n: nat, i: nat)
    requires 1 <= i <= n
    ensures Selected(devices, clusters, i) ==>
      var section := ["# ConnectTo " + devices[i - 1] + " # " + Dec(i)] + lines;
      && Sections(devices, clusters, lines, i) == Sections(devices, clusters, lines, i - 1) + section
      && Sections(devices, clusters, lines, i) <= Sections(devices, clusters, lines, n)
    ensures !Selected(devices, clusters, i) ==>
      Sections(devices, clusters, lines, i) == Sections(devices, clusters, lines, i - 1)
    ensures Sections(devices, clusters, lines, 0) == []
  {
    hide Selected, Dec;
    if Selected(devices, clusters, i) {
      SelectedExists(devices, clusters, i);
      if i < n {
        SectionOfDevice(devices, clusters, lines, n - 1, i);
      }
    } else {
      assert Sections(devices, clusters, lines, i) == Sections(devices, clusters, lines, i - 1) + [];
    }
  }

  lemma SelectedExists(devices: seq<string>, clusters: nat, i: nat)
    requires i >= 1 && Selected(devices, clusters, i)
    ensures i - 1 < |devices|
  {
  }
}
