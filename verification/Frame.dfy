/** The E-DIO24 frame format: what the bytes of a frame mean, independently of any buffer. */
module Frame {
  import opened Bytes
  import opened Wrappers

  const MSG_START: byte := 0xDB
  const MSG_REPLY: byte := 0x80
  const HEADER: nat := 6
  const LENGTH_MIN: nat := 7

  const CMD_DIN_R: byte := 0x00
  const CMD_DOUT_R: byte := 0x02
  const CMD_DOUT_W: byte := 0x03
  const CMD_DCONF_R: byte := 0x04
  const CMD_DCONF_W: byte := 0x05
  const CMD_COUNTER_R: byte := 0x30
  const CMD_COUNTER_W: byte := 0x31
  const CMD_CONF_MEM_R: byte := 0x40
  const CMD_CONF_MEM_W: byte := 0x41
  const CMD_USR_MEM_R: byte := 0x42
  const CMD_USR_MEM_W: byte := 0x43
  const CMD_SET_MEM_R: byte := 0x44
  const CMD_SET_MEM_W: byte := 0x45
  const CMD_BOOT_MEM_R: byte := 0x46
  const CMD_BOOT_MEM_W: byte := 0x47
  const CMD_BLINKLED: byte := 0x50
  const CMD_RESET: byte := 0x51
  const CMD_STATUS: byte := 0x52
  const CMD_NETWORK_CONF: byte := 0x54
  const CMD_FIRMWARE: byte := 0x60

  const MSG_SUCCESS: byte := 0
  const MSG_ERROR_PARAMETER: byte := 2
  const MSG_ERROR_OTHER: byte := 6

  /** The commands both switches list. CMD_RESET and CMD_FIRMWARE are in neither. */
  predicate IsKnown(cmd: byte)
  {
    || cmd == CMD_DIN_R || cmd == CMD_DOUT_R || cmd == CMD_DOUT_W || cmd == CMD_DCONF_R || cmd == CMD_DCONF_W
    || cmd == CMD_COUNTER_R || cmd == CMD_COUNTER_W
    || CMD_CONF_MEM_R <= cmd <= CMD_BOOT_MEM_W
    || cmd == CMD_BLINKLED || cmd == CMD_STATUS || cmd == CMD_NETWORK_CONF
  }

  /** A frame as a record. The start byte is carried along because no reader checks it. */
  datatype Msg = Msg(start: byte, cmd: byte, frame: byte, status: byte, data: seq<byte>)

  function Request(cmd: byte, frame: byte, data: seq<byte>): Msg
  {
    Msg(MSG_START, cmd, frame, MSG_SUCCESS, data)
  }

  function Body(m: Msg): (s: seq<byte>)
    ensures |s| == 6 + |m.data|
  {
    [m.start, m.cmd, m.frame, m.status, |m.data| % 256, |m.data| / 256 % 256] + m.data
  }

  /** Header, payload and checksum byte; the count field keeps only 16 bits of the length. */
  function Encode(m: Msg): (s: seq<byte>)
    ensures |s| == 7 + |m.data|
  {
    Body(m) + [255 - Sum(Body(m)) % 256]
  }

  /** Where everything is in a frame, and what the checksum byte makes the sum of all bytes. */
  lemma Layout(m: Msg)
    requires |m.data| < 0x1_0000
    ensures var s := Encode(m);
      && |s| == 7 + |m.data|
      && s[0] == m.start && s[1] == m.cmd && s[2] == m.frame && s[3] == m.status
      && s[4] as int + 256 * s[5] as int == |m.data|
      && s[6..6 + |m.data|] == m.data
      && Sum(s) % 256 == 0xFF
  {
    hide Sum;
    LowBytes(|m.data|);
    EncodeVerifies(m);
    VerifiesIsWholeSum(Encode(m));
    assert Encode(m)[..FrameLen(Encode(m))] == Encode(m);
    assert Encode(m)[6..6 + |m.data|] == m.data;
  }

  /** A request starts with the bytes 0xDB, command, frame id and 0. */
  lemma RequestHeader(cmd: byte, frame: byte, data: seq<byte>)
    ensures Encode(Request(cmd, frame, data))[..4] == [0xDB, cmd, frame, 0]
  {
    hide Sum;
  }

  function Count(s: seq<byte>): (n: nat)
    requires |s| >= 6
    ensures n < 0x1_0000
  {
    256 * s[5] as int + s[4]
  }

  function FrameLen(s: seq<byte>): nat
    requires |s| >= 6
  {
    7 + Count(s)
  }

  /** The head frame is there in full and its checksum is right. */
  predicate Verifies(s: seq<byte>)
  {
    && |s| >= 6
    && FrameLen(s) <= |s|
    && s[6 + Count(s)] + Sum(s[..6 + Count(s)]) % 256 == 0xff
  }

  function Decode(s: seq<byte>): Option<Msg>
  {
    if Verifies(s) then Some(Msg(s[0], s[1], s[2], s[3], s[6..6 + Count(s)])) else None
  }

  /** Verification says exactly that the whole frame sums to 255 modulo 256. */
  lemma VerifiesIsWholeSum(s: seq<byte>)
    requires |s| >= 6 && FrameLen(s) <= |s|
    ensures Verifies(s) <==> Sum(s[..FrameLen(s)]) % 256 == 255
  {
    var n := 6 + Count(s);
    assert s[..n + 1][..n] == s[..n];
    assert Sum(s[..n + 1]) == Sum(s[..n]) + s[n];
  }

  lemma LowBytes(n: nat)
    ensures n / 256 % 256 * 256 + n % 256 == n % 0x1_0000
  {
    var y := n / 256;
    var r := y % 256 * 256 + n % 256;
    assert n == 0x1_0000 * (y / 256) + r;
    assert 0 <= r < 0x1_0000;
  }

  lemma CountOfEncode(m: Msg)
    ensures Count(Encode(m)) == |m.data| % 0x1_0000
  {
    hide Sum;
    LowBytes(|m.data|);
  }

  /** Encoding is undone by decoding, whatever follows, exactly when the length fits the count field. */
  lemma RoundTrip(m: Msg, rest: seq<byte>)
    ensures Decode(Encode(m) + rest) == Some(m) <==> |m.data| < 0x1_0000
  {
    var s := Encode(m) + rest;
    CountOfEncode(m);
    assert s[4] == Encode(m)[4] && s[5] == Encode(m)[5];
    assert Count(s) == |m.data| % 0x1_0000;
    if |m.data| < 0x1_0000 {
      assert s[..6 + Count(s)] == Body(m);
      assert s[6..6 + Count(s)] == m.data;
    } else if Verifies(s) {
      assert |Decode(s).value.data| == Count(s) < |m.data|;
    }
  }

  /** Every encoding of a payload that fits the count field stands alone as a verifying frame. */
  lemma EncodeVerifies(m: Msg)
    requires |m.data| < 0x1_0000
    ensures Verifies(Encode(m)) && FrameLen(Encode(m)) == |Encode(m)| && Decode(Encode(m)) == Some(m)
  {
    hide Body, Sum;
    RoundTrip(m, []);
    CountOfEncode(m);
    assert Encode(m) + [] == Encode(m);
  }

  /** Decoding is undone by encoding: a verifying frame is the encoding of what it decodes to. */
  lemma DecodeIsLeftInverse(s: seq<byte>)
    requires Verifies(s)
    ensures Encode(Decode(s).value) == s[..FrameLen(s)]
  {
    var m := Decode(s).value;
    assert |m.data| % 256 == s[4] && |m.data| / 256 % 256 == s[5];
    assert Body(m) == s[..6 + Count(s)];
  }

  /**
   * One wrong byte in a frame that stands alone is noticed, unless the byte is a count byte and the
   * changed count is smaller; then the frame passes only if its shorter prefix happens to sum up.
   */
  lemma SingleByteError(f: seq<byte>, i: nat, b: byte)
    requires Verifies(f) && |f| == FrameLen(f)
    requires i < |f| && b != f[i]
    ensures var g := f[i := b];
      Verifies(g) <==> (i == 4 || i == 5) && Count(g) < Count(f) && Sum(g[..FrameLen(g)]) % 256 == 255
  {
    var g := f[i := b];
    if Count(g) <= Count(f) {
      VerifiesIsWholeSum(g);
    }
    VerifiesIsWholeSum(f);
    assert f[..FrameLen(f)] == f;
    SumUpdate(f, i, b);
    if i != 4 && i != 5 {
      assert g[..FrameLen(g)] == g;
      assert Sum(g) - Sum(f) == b - f[i];
      assert Sum(g) % 256 != Sum(f) % 256;
    }
  }

  /** The exception is real: halving the count of this frame leaves a frame that still verifies. */
  lemma CountByteErrorCanPass()
    ensures exists f: seq<byte> :: Verifies(f) && |f| == FrameLen(f) && Verifies(f[4 := 0])
  {
    var p: seq<byte> := [0xDB, 0, 0, 0, 1, 0];
    var q: seq<byte> := [0xDB, 0, 0, 0, 0, 0];
    var f: seq<byte> := p + [0x24, 0xFF];
    assert f[..7][..6] == p;
    assert f[4 := 0][..6] == q;
    SumOfHeader(p);
    SumOfHeader(q);
    assert Verifies(f) && Verifies(f[4 := 0]);
  }

  lemma SumOfHeader(p: seq<byte>)
    requires |p| == 6
    ensures Sum(p) == p[0] as int + p[1] as int + p[2] as int + p[3] as int + p[4] as int + p[5] as int
  {
    SumOfPrefix(p, 0);
    SumOfPrefix(p, 1);
    SumOfPrefix(p, 2);
    SumOfPrefix(p, 3);
    SumOfPrefix(p, 4);
    SumOfPrefix(p, 5);
    assert p[..6] == p;
  }

  lemma SumOfPrefix(p: seq<byte>, n: nat)
    requires n < |p|
    ensures Sum(p[..n + 1]) == Sum(p[..n]) + p[n]
    ensures Sum(p[..0]) == 0
  {
    assert p[..n + 1][..n] == p[..n];
  }
}
