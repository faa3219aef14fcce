/** The frame library: checksum, verification, readers and builders working on a caller's byte buffer. */
module Codec {
  import opened Bytes
  import opened Frame
  import opened Wrappers
  import opened Memory

  /** Both drain loops drop the processed head of their buffer by moving the rest to the front. */
  method RemoveHead(buffer: array<byte>, sz: nat, szProcessed: nat) returns (szRest: nat)
    requires szProcessed <= sz <= buffer.Length
    modifies buffer
    ensures szRest == sz - szProcessed
    ensures buffer[..szRest] == old(buffer[szProcessed..sz])
  {
    szRest := sz - szProcessed;
    if szRest > 0 {
      MemMove(buffer, 0, buffer, szProcessed, szRest);
    }
  }

  /** edio24_pkt_checksum: an unsigned char that wraps around at every addition. */
  method Checksum(buffer: array<byte>, length: nat) returns (checksum: byte)
    requires length <= buffer.Length
    ensures checksum == Sum(buffer[..length]) % 256
  {
    checksum := 0;
    for i := 0 to length
      invariant checksum == Sum(buffer[..i]) % 256
    {
      assert buffer[..i + 1][..i] == buffer[..i];
      checksum := (checksum as int + buffer[i]) % 256;
    }
  }

  /** edio24_pkt_read_hdr_count */
  method ReadCount(buffer: array<byte>, sz: nat) returns (ret: int, count: nat)
    requires sz <= buffer.Length
    ensures ret == if sz < 6 then -1 else 0
    ensures sz >= 6 ==> count == Count(buffer[..sz])
  {
    if sz < 6 {
      return -1, 0;
    }
    count := buffer[5] as int * 256;
    count := count + buffer[4];
    ret := 0;
  }

  /** edio24_pkt_verify */
  method Verify(buffer: array<byte>, sz: nat) returns (ret: int)
    requires sz <= buffer.Length
    ensures ret == if Verifies(buffer[..sz]) then 0 else -1
  {
    var r, count := ReadCount(buffer, sz);
    if r != 0 {
      return -1;
    }
    if 7 + count > sz {
      return -1;
    }
    var c := Checksum(buffer, 6 + count);
    assert buffer[..sz][..6 + count] == buffer[..6 + count];
    if buffer[6 + count] as int + c != 0xff {
      return -1;
    }
    ret := 0;
  }

  /** What edio24_pkt_read_value delivers; the bound is the whole buffered size, not the frame. */
  function ValueAt(s: seq<byte>, off: nat, bytes: nat): Option<nat>
  {
    if bytes <= 4 && Verifies(s) && 7 + off + bytes <= |s| then Some(LE(s[6 + off..6 + off + bytes])) else None
  }

  lemma SmallMod(x: nat)
    requires x < 0x1_0000_0000
    ensures x % 0x1_0000_0000 == x
  {
  }

  /** One round of the shift-and-add loop on 32-bit words: no carry is lost while at most four bytes are read. */
  lemma ShiftStep(s: seq<byte>, b: byte)
    requires |s| < 4
    ensures LE(s + [b]) == (LE(s) + b * Pow256(|s|) % 0x1_0000_0000) % 0x1_0000_0000
    ensures Pow256(|s| + 1) == Pow256(|s|) * 256
  {
    hide LE;
    LEAppend(s, b);
    var high := b * Pow256(|s|);
    assert LE(s + [b]) == LE(s) + high < 0x1_0000_0000 by {
      LEBound(s + [b]);
      PowersOf256();
    }
    assert high >= 0;
    SmallMod(high);
    SmallMod(LE(s) + high);
  }

  /** The same round on the bytes of a buffer, i of them read. */
  lemma ReadStep(s: seq<byte>, at: nat, i: nat)
    requires i < 4 && at + i < |s|
    ensures LE(s[at..at + i + 1]) == (LE(s[at..at + i]) + s[at + i] * Pow256(i) % 0x1_0000_0000) % 0x1_0000_0000
    ensures Pow256(i + 1) == Pow256(i) * 256
  {
    ShiftStep(s[at..at + i], s[at + i]);
    assert s[at..at + i + 1] == s[at..at + i] + [s[at + i]];
  }

  /** edio24_pkt_read_value: the 32-bit shift-and-add loop, which never loses a bit. */
  method ReadValue(buffer: array<byte>, sz: nat, off: nat, bytes: nat) returns (ret: int, value: nat)
    requires sz <= buffer.Length
    ensures ret == 0 <==> ValueAt(buffer[..sz], off, bytes).Some?
    ensures ret == 0 || ret == -1
    ensures ret == 0 <==> bytes <= 4 && Verifies(buffer[..sz]) && 7 + off + bytes <= sz
    ensures ret == 0 ==> value == LE(buffer[6 + off..6 + off + bytes])
    ensures ret == 0 ==> value == ValueAt(buffer[..sz], off, bytes).value < Pow256(bytes)
  {
    hide Verifies, LE, Pow256;
    ghost var s, at := buffer[..sz], 6 + off;
    value := 0;
    if bytes > 4 {
      return -1, value;
    }
    var v := Verify(buffer, sz);
    if v != 0 {
      return -1, value;
    }
    if 7 + off + bytes > sz {
      return -1, value;
    }
    var unit: nat := 1;  // 1 << shift
    NothingRead(s[at..at]);
    for i := 0 to bytes
      invariant unit == Pow256(i)
      invariant value == LE(s[at..at + i])
    {
      ReadStep(s, at, i);
      var val0 := buffer[6 + off + i] * unit % 0x1_0000_0000;
      value := (value + val0) % 0x1_0000_0000;
      unit := unit * 256;
    }
    LEBound(s[at..at + bytes]);
    assert s[at..at + bytes] == buffer[at..at + bytes];
    ret := 0;
  }

  lemma NothingRead(s: seq<byte>)
    requires s == []
    ensures LE(s) == 0 && Pow256(0) == 1
  {
  }

  /** The tail every builder shares: header fields around an already placed payload, then the checksum. */
  method Seal(buffer: array<byte>, cmd: byte, frame: byte, status: byte, n: nat)
    requires 7 + n <= buffer.Length
    modifies buffer
    ensures buffer[..] ==
      Overwrite(old(buffer[..]), 0, Encode(Msg(MSG_START, cmd, frame, status, old(buffer[6..6 + n]))))
  {
    hide Sum, Overwrite;
    ghost var was, m := buffer[..], Msg(MSG_START, cmd, frame, status, buffer[6..6 + n]);
    buffer[1] := cmd;
    buffer[0] := MSG_START;
    buffer[2] := frame;
    buffer[3] := status;
    buffer[4] := n % 256;
    buffer[5] := n / 256 % 256;
    assert buffer[..6 + n] == buffer[..6] + buffer[6..6 + n];
    assert buffer[..6] == Body(m)[..6] && buffer[6..6 + n] == m.data;
    ghost var body, tail := buffer[..6 + n], buffer[7 + n..];
    assert body == Body(m) && tail == was[7 + n..];
    hide Body;
    var c := Checksum(buffer, 6 + n);
    buffer[6 + n] := 0xff - c;
    assert buffer[..6 + n] == body && buffer[7 + n..] == tail;
    Finished(was, buffer[..], m);
  }

  /** Body and checksum byte in front, the rest as it was. */
  lemma Finished(was: seq<byte>, now: seq<byte>, m: Msg)
    requires 7 + |m.data| <= |was| == |now|
    requires now[..6 + |m.data|] == Body(m) && now[6 + |m.data|] == 255 - Sum(Body(m)) % 256
    requires now[7 + |m.data|..] == was[7 + |m.data|..]
    ensures now == Overwrite(was, 0, Encode(m))
  {
    hide Sum, Body;
    var n := |m.data|;
    assert now[..7 + n] == now[..6 + n] + [now[6 + n]] == Encode(m);
    assert now == now[..7 + n] + now[7 + n..];
  }

  /** What the derived builders do to a finished frame: another command byte, the checksum recomputed. */
  method Patch(buffer: array<byte>, ret: nat, cmd: byte, ghost m: Msg)
    requires ret == 7 + |m.data| <= buffer.Length && buffer[..ret] == Encode(m)
    modifies buffer
    ensures buffer[..] == Overwrite(old(buffer[..]), 0, Encode(m.(cmd := cmd)))
  {
    hide Sum, Overwrite;
    ghost var was, m' := buffer[..], m.(cmd := cmd);
    assert forall k :: 0 <= k < ret ==> buffer[k] == Encode(m)[k];
    buffer[1] := cmd;
    assert buffer[..ret - 1] == Body(m');
    hide Body;
    var c := Checksum(buffer, ret - 1);
    buffer[ret - 1] := 0xff - c;
    assert buffer[..ret - 1] == Body(m');
    assert buffer[ret..] == was[ret..];
    Finished(was, buffer[..], m');
  }

  /**
   * What a request builder owes its caller: with too little room nothing happens and -1 comes back,
   * otherwise exactly the encoded request is written and the frame id moves on.
   */
  ghost predicate Built(was: seq<byte>, now: seq<byte>, fits: bool, m: Msg, ret: int, next: byte)
  {
    if fits then
      && 7 + |m.data| <= |was|
      && ret == 7 + |m.data| && now == Overwrite(was, 0, Encode(m)) && next == (m.frame as int + 1) % 256
    else
      ret == -1 && now == was && next == m.frame
  }

  /** edio24_pkt_create_cmd_dinr */
  method CreateDinR(buffer: array<byte>, szBuf: nat, frame: byte) returns (ret: int, next: byte)
    requires szBuf <= buffer.Length
    modifies buffer
    ensures Built(old(buffer[..]), buffer[..], szBuf >= 7, Request(CMD_DIN_R, frame, []), ret, next)
  {
    if szBuf < 7 {
      return -1, frame;
    }
    assert buffer[6..6] == [];
    Seal(buffer, CMD_DIN_R, frame, MSG_SUCCESS, 0);
    return 7, (frame as int + 1) % 256;
  }

  /** The seven builders that take the empty DIN_R request and patch the command byte. */
  method CreateShort(buffer: array<byte>, szBuf: nat, frame: byte, cmd: byte) returns (ret: int, next: byte)
    requires szBuf <= buffer.Length
    modifies buffer
    ensures Built(old(buffer[..]), buffer[..], szBuf >= 7, Request(cmd, frame, []), ret, next)
  {
    ret, next := CreateDinR(buffer, szBuf, frame);
    if ret < 0 {
      return;
    }
    ghost var m := Request(CMD_DIN_R, frame, []);
    assert buffer[..ret] == Encode(m);
    Patch(buffer, ret, cmd, m);
  }

  /** edio24_pkt_create_cmd_firmware: it sends the BLINKLED opcode with the firmware key as payload. */
  method CreateFirmware(buffer: array<byte>, szBuf: nat, frame: byte) returns (ret: int, next: byte)
    requires szBuf <= buffer.Length
    modifies buffer
    ensures Built(old(buffer[..]), buffer[..], szBuf >= 9, Request(CMD_BLINKLED, frame, [0xAD, 0xAD]), ret, next)
  {
    if szBuf < 9 {
      return -1, frame;
    }
    buffer[6] := 0xAD;
    buffer[7] := 0xAD;
    assert buffer[6..8] == [0xAD, 0xAD];
    Seal(buffer, CMD_BLINKLED, frame, MSG_SUCCESS, 2);
    return 9, (frame as int + 1) % 256;
  }

  /** edio24_pkt_create_cmd_blinkled */
  method CreateBlinkLed(buffer: array<byte>, szBuf: nat, frame: byte, value: byte) returns (ret: int, next: byte)
    requires szBuf <= buffer.Length
    modifies buffer
    ensures Built(old(buffer[..]), buffer[..], szBuf >= 8, Request(CMD_BLINKLED, frame, [value]), ret, next)
  {
    if szBuf < 8 {
      return -1, frame;
    }
    buffer[6] := value;
    assert buffer[6..7] == [value];
    Seal(buffer, CMD_BLINKLED, frame, MSG_SUCCESS, 1);
    return 8, (frame as int + 1) % 256;
  }

  /** The mask/value payload of the two write commands: three bytes each, lowest first. */
  function PairData(mask: nat, value: nat): (s: seq<byte>)
    ensures |s| == 6
  {
    Split(mask, 3) + Split(value, 3)
  }

  /** edio24_pkt_create_cmd_doutw; mask and value are 32-bit words of which the top byte is dropped. */
  method CreateDOutW(buffer: array<byte>, szBuf: nat, frame: byte, mask: nat, value: nat) returns (ret: int, next: byte)
    requires szBuf <= buffer.Length
    modifies buffer
    ensures Built(old(buffer[..]), buffer[..], szBuf >= 13,
                  Request(CMD_DOUT_W, frame, PairData(mask, value)), ret, next)
  {
    hide Split, Encode, Body, Sum, Overwrite;
    if szBuf < 13 {
      return -1, frame;
    }
    ghost var was := buffer[..];
    buffer[6] := mask % 256;
    buffer[7] := mask / 0x100 % 256;
    buffer[8] := mask / 0x1_0000 % 256;
    buffer[9] := value % 256;
    buffer[10] := value / 0x100 % 256;
    buffer[11] := value / 0x1_0000 % 256;
    SplitThree(mask);
    SplitThree(value);
    assert buffer[6..12] == PairData(mask, value);
    OverwriteFront(was, buffer[..], 12, Encode(Request(CMD_DOUT_W, frame, PairData(mask, value))));
    Seal(buffer, CMD_DOUT_W, frame, MSG_SUCCESS, 6);
    return 13, (frame as int + 1) % 256;
  }

  lemma SplitThree(x: nat)
    ensures Split(x, 3) == [x % 256, x / 0x100 % 256, x / 0x1_0000 % 256]
    ensures Split(x, 2) == [x % 256, x / 0x100 % 256]
  {
    assert x / 256 / 256 == x / 0x1_0000;
    assert Split(x, 3) == [x % 256] + Split(x / 256, 2);
    assert Split(x / 256, 2) == [x / 256 % 256] + Split(x / 256 / 256, 1);
    assert Split(x / 256 / 256, 1) == [x / 256 / 256 % 256] + Split(x / 256 / 256 / 256, 0);
    assert Split(x, 2) == [x % 256] + Split(x / 256, 1);
    assert Split(x / 256, 1) == [x / 256 % 256] + Split(x / 256 / 256, 0);
  }

  /** edio24_pkt_create_cmd_dconfw: the DOUT_W frame with another command byte. */
  method CreateDConfW(buffer: array<byte>, szBuf: nat, frame: byte, mask: nat, value: nat)
    returns (ret: int, next: byte)
    requires szBuf <= buffer.Length
    modifies buffer
    ensures Built(old(buffer[..]), buffer[..], szBuf >= 13,
                  Request(CMD_DCONF_W, frame, PairData(mask, value)), ret, next)
  {
    ret, next := CreateDOutW(buffer, szBuf, frame, mask, value);
    if ret < 0 {
      return;
    }
    ghost var m := Request(CMD_DOUT_W, frame, PairData(mask, value));
    assert buffer[..ret] == Encode(m);
    Patch(buffer, ret, CMD_DCONF_W, m);
  }

  /** The address/count payload of the memory reads. */
  function AddressData(address: nat, count: nat): (s: seq<byte>)
    ensures |s| == 4
  {
    Split(address, 2) + Split(count, 2)
  }

  /** edio24_pkt_create_cmd_confmemr */
  method CreateConfMemR(buffer: array<byte>, szBuf: nat, frame: byte, address: nat, count: nat)
    returns (ret: int, next: byte)
    requires szBuf <= buffer.Length && address < 0x1_0000 && count < 0x1_0000
    modifies buffer
    ensures Built(old(buffer[..]), buffer[..], szBuf >= 11,
                  Request(CMD_CONF_MEM_R, frame, AddressData(address, count)), ret, next)
  {
    if szBuf < 11 {
      return -1, frame;
    }
    buffer[6] := address % 256;
    buffer[7] := address / 0x100 % 256;
    buffer[8] := count % 256;
    buffer[9] := count / 0x100 % 256;
    SplitThree(address);
    SplitThree(count);
    assert buffer[6..10] == AddressData(address, count);
    Seal(buffer, CMD_CONF_MEM_R, frame, MSG_SUCCESS, 4);
    return 11, (frame as int + 1) % 256;
  }

  /** The three builders that take the CONF_MEM_R request and patch the command byte. */
  method CreateMemR(buffer: array<byte>, szBuf: nat, frame: byte, cmd: byte, address: nat, count: nat)
    returns (ret: int, next: byte)
    requires szBuf <= buffer.Length && address < 0x1_0000 && count < 0x1_0000
    modifies buffer
    ensures Built(old(buffer[..]), buffer[..], szBuf >= 11, Request(cmd, frame, AddressData(address, count)), ret, next)
  {
    hide AddressData, Body, Sum;
    ret, next := CreateConfMemR(buffer, szBuf, frame, address, count);
    if ret < 0 {
      return;
    }
    ghost var m := Request(CMD_CONF_MEM_R, frame, AddressData(address, count));
    assert buffer[..ret] == Encode(m);
    Patch(buffer, ret, cmd, m);
  }

  lemma NothingOverwritten(was: seq<byte>, at: nat, s: seq<byte>)
    requires at <= |was| && s == []
    ensures Overwrite(was, at, s) == was
  {
  }

  lemma AddressThenData(was: seq<byte>, data: seq<byte>, address: seq<byte>)
    requires 8 + |data| <= |was| && |address| == 2
    ensures var now := Overwrite(Overwrite(was, 8, data), 6, address);
      now[6..8 + |data|] == address + data && now[8 + |data|..] == was[8 + |data|..]
  {
  }

  /** Writing over the front hides differences there. */
  lemma OverwriteFront(was: seq<byte>, now: seq<byte>, n: nat, s: seq<byte>)
    requires |was| == |now| && n <= |s| <= |was| && was[n..] == now[n..]
    ensures Overwrite(now, 0, s) == Overwrite(was, 0, s)
  {
    assert now[|s|..] == now[n..][|s| - n..] && was[|s|..] == was[n..][|s| - n..];
  }

  method WriteAddress(buffer: array<byte>, address: nat)
    requires 8 <= buffer.Length
    modifies buffer
    ensures buffer[..] == Overwrite(old(buffer[..]), 6, Split(address, 2))
  {
    buffer[6] := address % 256;
    buffer[7] := address / 0x100 % 256;
    SplitThree(address);
    assert buffer[6..8] == Split(address, 2);
  }

  /**
   * edio24_pkt_create_cmd_confmemw. The data may lie anywhere, also inside the output buffer: the
   * payload is what it held before the call. The size test in the code ignores count, so the room
   * for it is the caller's duty.
   */
  method CreateConfMemW(buffer: array<byte>, szBuf: nat, frame: byte, address: nat, count: nat,
                        src: array<byte>, off: nat)
    returns (ret: int, next: byte)
    requires szBuf <= buffer.Length && address < 0x1_0000 && count < 0x1_0000
    requires off + count <= src.Length
    requires szBuf >= 9 ==> 9 + count <= buffer.Length
    modifies buffer
    ensures Built(old(buffer[..]), buffer[..], szBuf >= 9,
                  Request(CMD_CONF_MEM_W, frame, Split(address, 2) + old(src[off..off + count])), ret, next)
  {
    if szBuf < 9 {
      return -1, frame;
    }
    hide Body, Encode, Sum, Split, Overwrite;
    ghost var was, data := buffer[..], src[off..off + count];
    if count > 0 {
      MemMove(buffer, 8, src, off, count);
    } else {
      NothingOverwritten(was, 8, data);
    }
    WriteAddress(buffer, address);
    AddressThenData(was, data, Split(address, 2));
    ghost var mid := buffer[..];
    assert buffer[6..8 + count] == mid[6..8 + count];
    ghost var m := Request(CMD_CONF_MEM_W, frame, Split(address, 2) + data);
    OverwriteFront(was, mid, 8 + count, Encode(m));
    Seal(buffer, CMD_CONF_MEM_W, frame, MSG_SUCCESS, 2 + count);
    return 9 + count, (frame as int + 1) % 256;
  }

  /** The three builders that take the CONF_MEM_W request and patch the command byte. */
  method CreateMemW(buffer: array<byte>, szBuf: nat, frame: byte, cmd: byte, address: nat, count: nat,
                    src: array<byte>, off: nat)
    returns (ret: int, next: byte)
    requires szBuf <= buffer.Length && address < 0x1_0000 && count < 0x1_0000
    requires off + count <= src.Length
    requires szBuf >= 9 ==> 9 + count <= buffer.Length
    modifies buffer
    ensures Built(old(buffer[..]), buffer[..], szBuf >= 9,
                  Request(cmd, frame, Split(address, 2) + old(src[off..off + count])), ret, next)
  {
    hide Body, Sum;
    ghost var m := Request(CMD_CONF_MEM_W, frame, Split(address, 2) + src[off..off + count]);
    ret, next := CreateConfMemW(buffer, szBuf, frame, address, count, src, off);
    if ret < 0 {
      return;
    }
    assert buffer[..ret] == Encode(m);
    Patch(buffer, ret, cmd, m);
  }

  /** cmd | MSG_REPLY */
  function ReplyCmd(cmd: byte): (r: byte)
    ensures r >= 128 && r % 128 == cmd % 128
  {
    if cmd >= 128 then cmd else cmd + 128
  }

  /** edio24_pkt_create_respond; the payload may be taken from the output buffer itself. */
  method CreateRespond(bufferOut: array<byte>, szOut: nat, cmd: byte, frame: byte, status: byte, n: nat,
                       src: array<byte>, off: nat)
    returns (ret: int)
    requires (szOut >= 7 + n ==> 7 + n <= bufferOut.Length) && off + n <= src.Length
    modifies bufferOut
    ensures szOut < 7 + n ==> ret == -1 && bufferOut[..] == old(bufferOut[..])
    ensures szOut >= 7 + n ==> ret == 7 + n
    ensures szOut >= 7 + n ==>
      var m := Msg(MSG_START, ReplyCmd(cmd), frame, status, old(src[off..off + n]));
      bufferOut[..] == Overwrite(old(bufferOut[..]), 0, Encode(m))
  {
    if szOut < 7 + n {
      return -1;
    }
    hide Encode, ReplyCmd;
    ghost var was, data := bufferOut[..], src[off..off + n];
    if n > 0 {
      MemMove(bufferOut, 6, src, off, n);
    }
    assert bufferOut[6..6 + n] == data;
    OverwriteFront(was, bufferOut[..], 6 + n, Encode(Msg(MSG_START, ReplyCmd(cmd), frame, status, data)));
    Seal(bufferOut, ReplyCmd(cmd), frame, status, n);
    ret := 7 + n;
  }

  /** The two 3-byte reads of the server undo the builders' byte split, also with more bytes behind the frame. */
  lemma PairRoundTrip(cmd: byte, frame: byte, mask: nat, value: nat, rest: seq<byte>)
    requires mask < 0x100_0000 && value < 0x100_0000
    ensures var s := Encode(Request(cmd, frame, PairData(mask, value))) + rest;
      ValueAt(s, 0, 3) == Some(mask) && ValueAt(s, 3, 3) == Some(value)
  {
    hide Encode, Body, Sum, LE, Split, Pow256;
    var m := Request(cmd, frame, PairData(mask, value));
    var s := Encode(m) + rest;
    RoundTrip(m, rest);
    PowersOf256();
    LESplit(mask, 3);
    LESplit(value, 3);
    assert s[6..12] == m.data;
    assert s[6..9] == s[6..12][..3] == Split(mask, 3);
    assert s[9..12] == s[6..12][3..] == Split(value, 3);
  }

  /** Likewise for the address and count of the memory reads. */
  lemma AddressRoundTrip(cmd: byte, frame: byte, address: nat, count: nat, rest: seq<byte>)
    requires address < 0x1_0000 && count < 0x1_0000
    ensures var s := Encode(Request(cmd, frame, AddressData(address, count))) + rest;
      ValueAt(s, 0, 2) == Some(address) && ValueAt(s, 2, 2) == Some(count)
  {
    hide Encode, Body, Sum, LE, Split, Pow256;
    var m := Request(cmd, frame, AddressData(address, count));
    var s := Encode(m) + rest;
    RoundTrip(m, rest);
    PowersOf256();
    LESplit(address, 2);
    LESplit(count, 2);
    assert s[6..10] == m.data;
    assert s[6..8] == s[6..10][..2] == Split(address, 2);
    assert s[8..10] == s[6..10][2..] == Split(count, 2);
  }
}
