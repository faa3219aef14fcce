/** The long hexadecimal arguments of the memory-write commands. */
module HexBuf {
  import opened Bytes
  import opened Text
  import opened Wrappers

  /** The bytes that pairs of hexadecimal digits denote; an odd last digit is left out. */
  function HexBytes(s: string): (b: seq<byte>)
    requires AllHex(s)
    ensures |b| == |s| / 2
  {
    if |s| < 2 then []
    else [16 * HexValueOf(s[0]) + HexValueOf(s[1])] + HexBytes(s[2..])
  }

  function Min(a: nat, b: nat): nat
  {
    if a < b then a else b
  }

  /** The bytes parse_hex_buf stores in a buffer of szBuf bytes, None for an error return. */
  function ParseHex(s: string, szBuf: nat): (r: Option<seq<byte>>)
    ensures r.Some? ==> |r.value| <= szBuf
  {
    if |s| == 0 then Some([])
    else if |s| < 3 || !StartsWith(s, "0x") then None
    else
      var k := Min(szBuf, HexRun(s[2..]) / 2);
      assert s[2..][..2 * k] == s[2..][..HexRun(s[2..])][..2 * k];
      Some(HexBytes(s[2..][..2 * k]))
  }

  lemma {:induction false} HexBytesAppend(s: string, c: char, d: char)
    requires AllHex(s) && IsHex(c) && IsHex(d) && |s| % 2 == 0
    ensures AllHex(s + [c, d])
    ensures HexBytes(s + [c, d]) == HexBytes(s) + [16 * HexValueOf(c) + HexValueOf(d)]
  {
    hide IsHex, HexValueOf;
    var t := s + [c, d];
    if s == "" {
      assert t == [c, d] && t[2..] == "";
    } else {
      HexBytesAppend(s[2..], c, d);
      assert t[0] == s[0] && t[1] == s[1] && t[2..] == s[2..] + [c, d];
    }
  }

  /**
   * After len digits: whole bytes in front, the high half of the next one behind them if len is odd, and
   * nothing else changed.
   */
  ghost predicate Stored(was: seq<byte>, now: seq<byte>, szBuf: nat, digits: string, len: nat)
  {
    var n := len / 2;
    && n <= szBuf <= |was| == |now|
    && len <= |digits| && AllHex(digits[..len])
    && now[..n] == HexBytes(digits[..len][..2 * n])
    && (len % 2 == 1 ==> n < szBuf && now[n] == 16 * HexValueOf(digits[..len][2 * n]))
    && (forall k :: 0 <= k < |now| && (k > n || k >= szBuf) ==> now[k] == was[k])
  }

  lemma NothingStored(was: seq<byte>, szBuf: nat, digits: string)
    requires szBuf <= |was|
    ensures Stored(was, was, szBuf, digits, 0)
  {
    hide IsHex, HexValueOf;
    assert digits[..0] == "";
  }

  lemma HighNibble(was: seq<byte>, now: seq<byte>, szBuf: nat, digits: string, n: nat)
    requires Stored(was, now, szBuf, digits, 2 * n) && n < szBuf
    requires 2 * n < |digits| && IsHex(digits[2 * n])
    ensures Stored(was, now[n := 16 * HexValueOf(digits[2 * n])], szBuf, digits, 2 * n + 1)
  {
    hide IsHex, HexValueOf, HexBytes;
    var next := now[n := 16 * HexValueOf(digits[2 * n])];
    assert digits[..2 * n + 1] == digits[..2 * n] + [digits[2 * n]];
    assert digits[..2 * n + 1][..2 * n] == digits[..2 * n][..2 * n];
    assert next[..n] == now[..n];
  }

  lemma LowNibble(was: seq<byte>, now: seq<byte>, szBuf: nat, digits: string, n: nat)
    requires Stored(was, now, szBuf, digits, 2 * n + 1)
    requires 2 * n + 1 < |digits| && IsHex(digits[2 * n + 1])
    ensures now[n] as int + HexValueOf(digits[2 * n + 1]) < 256
    ensures Stored(was, now[n := now[n] as int + HexValueOf(digits[2 * n + 1])], szBuf, digits, 2 * n + 2)
  {
    hide IsHex, HexValueOf, HexBytes;
    var next := now[n := now[n] as int + HexValueOf(digits[2 * n + 1])];
    var t := digits[..2 * n + 2];
    assert t == digits[..2 * n + 1] + [digits[2 * n + 1]];
    assert digits[2 * n] == digits[..2 * n + 1][2 * n] == t[2 * n];
    HexPairDone(digits, n);
    assert t[..2 * n + 2] == t && digits[..2 * n + 1][..2 * n] == digits[..2 * n];
    assert next[..n + 1] == now[..n] + [next[n]];
  }

  /** The loop is over: the digits ran out, or the buffer is full. */
  lemma AllStored(was: seq<byte>, now: seq<byte>, szBuf: nat, cstr: string, len: nat)
    requires |cstr| >= 3 && StartsWith(cstr, "0x") && Stored(was, now, szBuf, cstr[2..], len)
    requires len == |cstr| - 2 || len / 2 == szBuf || !IsHex(cstr[2 + len])
    ensures ParseHex(cstr, szBuf) == Some(now[..len / 2])
  {
    hide IsHex, HexValueOf, HexBytes, HexRun;
    var digits, n := cstr[2..], len / 2;
    RunIsAtLeast(digits, len);
    if len < |digits| && !IsHex(digits[len]) {
      RunEndsHere(digits, len);
    }
    assert digits[..len][..2 * n] == digits[..2 * n];
  }

  /**
   * parse_hex_buf: one nibble per round, the high one stored first and the low one added. Nothing is
   * written at or behind szBuf, and behind the result at most the byte of an unpaired digit.
   */
  method ParseHexBuf(cstr: string, buf: array<byte>, szBuf: nat) returns (ret: int)
    requires szBuf <= buf.Length
    modifies buf
    ensures ret == if ParseHex(cstr, szBuf).None? then -1 else |ParseHex(cstr, szBuf).value|
    ensures ParseHex(cstr, szBuf).Some? ==> buf[..ret] == ParseHex(cstr, szBuf).value
    ensures forall k :: 0 <= k < buf.Length && (k > ret || k >= szBuf) ==> buf[k] == old(buf[k])
  {
    hide IsHex, HexValueOf, HexRun, HexBytes;
    var cslen := |cstr|;
    if cslen == 0 {
      return 0;
    }
    if cslen < 3 {
      return -1;
    }
    if !StartsWith(cstr, "0x") {
      return -1;
    }
    ret := ParseDigits(cstr, buf, szBuf);
  }

  /** The loop of parse_hex_buf. */
  method ParseDigits(cstr: string, buf: array<byte>, szBuf: nat) returns (ret: nat)
    requires szBuf <= buf.Length && |cstr| >= 3 && StartsWith(cstr, "0x")
    modifies buf
    ensures ret <= szBuf && ParseHex(cstr, szBuf) == Some(buf[..ret])
    ensures forall k :: 0 <= k < buf.Length && (k > ret || k >= szBuf) ==> buf[k] == old(buf[k])
  {
    hide IsHex, HexValueOf, HexBytes, ParseHex, StartsWith, Stored;
    ghost var was, digits := buf[..], cstr[2..];
    var len: nat := 0;
    ret := 0;
    NothingStored(was, szBuf, digits);
    while len + 2 < |cstr| && ret < szBuf
      invariant ret == len / 2 && ret <= szBuf && len <= |digits| && Stored(was, buf[..], szBuf, digits, len)
    {
      ghost var now := buf[..];
      var c := cstr[2 + len];
      if !IsHex(c) {
        break;
      }
      var val := HexValueOf(c);
      len := len + 1;
      if len % 2 == 0 {
        assert len == 2 * ret + 2;
        LowNibble(was, now, szBuf, digits, ret);
        buf[ret] := (buf[ret] as int + val) % 256;
        assert buf[..] == now[ret := now[ret] as int + val];
        ret := ret + 1;
      } else {
        assert len == 2 * ret + 1;
        HighNibble(was, now, szBuf, digits, ret);
        buf[ret] := val * 16 % 256;
        assert buf[..] == now[ret := 16 * val];
      }
    }
    AllStored(was, buf[..], szBuf, cstr, len);
    OthersKept(was, buf[..], szBuf, digits, len);
  }

  lemma OthersKept(was: seq<byte>, now: seq<byte>, szBuf: nat, digits: string, len: nat)
    requires Stored(was, now, szBuf, digits, len)
    ensures len / 2 <= szBuf <= |was| == |now|
    ensures forall k :: 0 <= k < |now| && (k > len / 2 || k >= szBuf) ==> now[k] == was[k]
  {
    hide HexBytes, HexValueOf;
  }

  lemma HexPairDone(s: string, n: nat)
    requires 2 * n + 2 <= |s| && AllHex(s[..2 * n + 2])
    ensures AllHex(s[..2 * n]) && IsHex(s[2 * n]) && IsHex(s[2 * n + 1])
    ensures HexBytes(s[..2 * n + 2]) == HexBytes(s[..2 * n]) + [16 * HexValueOf(s[2 * n]) + HexValueOf(s[2 * n + 1])]
  {
    hide IsHex, HexValueOf, HexBytes;
    var t := s[..2 * n + 2];
    assert t[2 * n] == s[2 * n] && t[2 * n + 1] == s[2 * n + 1];
    assert t[..2 * n] == s[..2 * n];
    HexBytesAppend(s[..2 * n], s[2 * n], s[2 * n + 1]);
    assert t == s[..2 * n] + [s[2 * n], s[2 * n + 1]];
  }

  lemma RunEndsHere(s: string, n: nat)
    requires n <= HexRun(s) && n < |s| && !IsHex(s[n])
    ensures HexRun(s) == n
  {
    assert forall i :: 0 <= i < HexRun(s) ==> s[..HexRun(s)][i] == s[i];
  }

  lemma RunIsAtLeast(s: string, n: nat)
    requires n <= |s| && AllHex(s[..n])
    ensures n <= HexRun(s)
  {
    hide IsHex;
    assert forall i :: 0 <= i < n ==> s[..n][i] == s[i];
  }

  /** t is hexadecimal text of b, in any mixture of upper and lower case. */
  ghost predicate IsHexText(b: seq<byte>, t: string)
  {
    && |t| == 2 * |b| && AllHex(t)
    && forall i :: 0 <= i < |b| ==> b[i] == 16 * HexValueOf(t[2 * i]) + HexValueOf(t[2 * i + 1])
  }

  lemma HexTextTail(b: seq<byte>, t: string)
    requires IsHexText(b, t) && b != []
    ensures b[0] == 16 * HexValueOf(t[0]) + HexValueOf(t[1])
    ensures IsHexText(b[1..], t[2..])
  {
    hide IsHex, HexValueOf;
    assert b[0] == 16 * HexValueOf(t[2 * 0]) + HexValueOf(t[2 * 0 + 1]);
    assert AllHex(t[2..]);
    forall i | 0 <= i < |b| - 1
      ensures b[1..][i] == 16 * HexValueOf(t[2..][2 * i]) + HexValueOf(t[2..][2 * i + 1])
    {
      var k := i + 1;
      assert b[k] == 16 * HexValueOf(t[2 * k]) + HexValueOf(t[2 * k + 1]);
    }
  }

  lemma {:induction false} HexBytesOfText(b: seq<byte>, t: string)
    requires IsHexText(b, t)
    ensures AllHex(t) && HexBytes(t) == b
  {
    hide IsHex, HexValueOf, IsHexText;
    HexTextIsHex(b, t);
    if b != [] {
      HexTextTail(b, t);
      HexBytesOfText(b[1..], t[2..]);
      assert b == [b[0]] + b[1..];
    }
  }

  lemma HexTextIsHex(b: seq<byte>, t: string)
    requires IsHexText(b, t)
    ensures AllHex(t) && |t| == 2 * |b|
  {
  }

  /** Two digits for each byte, the high one first, taken from a table of sixteen. */
  function Spelled(b: seq<byte>, table: string): (t: string)
    requires |table| == 16
    ensures |t| == 2 * |b|
  {
    if b == [] then "" else [table[b[0] / 16], table[b[0] % 16]] + Spelled(b[1..], table)
  }

  lemma {:induction false} SpelledIsHexText(b: seq<byte>, table: string)
    requires |table| == 16 && forall v: nat :: v < 16 ==> IsHex(table[v]) && HexValueOf(table[v]) == v
    ensures IsHexText(b, Spelled(b, table))
  {
    hide IsHex, HexValueOf;
    if b != [] {
      var t, rest := Spelled(b, table), Spelled(b[1..], table);
      SpelledIsHexText(b[1..], table);
      assert t[2..] == rest;
      forall i | 0 <= i < |t|
        ensures IsHex(t[i])
      {
        assert i >= 2 ==> t[i] == rest[i - 2];
      }
      forall i | 0 <= i < |b|
        ensures b[i] == 16 * HexValueOf(t[2 * i]) + HexValueOf(t[2 * i + 1])
      {
        if i > 0 {
          assert b[i] == b[1..][i - 1] && t[2 * i] == rest[2 * (i - 1)] && t[2 * i + 1] == rest[2 * (i - 1) + 1];
        }
      }
    }
  }

  /** Bytes spelled with lower-case or with upper-case digits are read back. */
  lemma SpelledRoundTrip(b: seq<byte>, lower: bool, tail: string, szBuf: nat)
    requires b != [] && |b| <= szBuf && EndsNumber(tail)
    ensures var table := if lower then "0123456789abcdef" else "0123456789ABCDEF";
      ParseHex("0x" + Spelled(b, table) + tail, szBuf) == Some(b)
  {
    hide IsHex, HexValueOf, ParseHex, IsHexText;
    var table := if lower then "0123456789abcdef" else "0123456789ABCDEF";
    HexDigitsAre('0');
    SpelledIsHexText(b, table);
    HexTextRoundTrip(b, Spelled(b, table), tail, szBuf);
  }

  /**
   * What the parser accepts: nothing, or at least three characters that start with 0x. It then stores a byte
   * for each pair of the digits that follow, as many as fit, the high digit of a pair first.
   */
  lemma WhatIsParsed(digits: string, tail: string, szBuf: nat)
    requires AllHex(digits) && EndsNumber(tail) && |digits| + |tail| > 0
    ensures var r := ParseHex("0x" + digits + tail, szBuf);
      && r.Some? && |r.value| == Min(szBuf, |digits| / 2)
      && forall i :: 0 <= i < |r.value| ==> r.value[i] == 16 * HexValueOf(digits[2 * i]) + HexValueOf(digits[2 * i + 1])
  {
    hide IsHex, HexRun, HexBytes, HexValueOf;
    var s := "0x" + digits + tail;
    assert s[..2] == "0x" && s[2..] == digits + tail;
    RunOfHex(digits, tail);
    var k := Min(szBuf, |digits| / 2);
    assert (digits + tail)[..2 * k] == digits[..2 * k];
    BytesOfPairs(digits[..2 * k]);
  }

  lemma {:induction false} BytesOfPairs(s: string)
    requires AllHex(s)
    ensures forall i :: 0 <= i < |s| / 2 ==> HexBytes(s)[i] == 16 * HexValueOf(s[2 * i]) + HexValueOf(s[2 * i + 1])
  {
    hide IsHex, HexValueOf;
    if |s| >= 2 {
      var t, b := s[2..], HexBytes(s[2..]);
      BytesOfPairs(t);
      assert HexBytes(s) == [16 * HexValueOf(s[0]) + HexValueOf(s[1])] + b;
      hide HexBytes;
      forall i | 0 <= i < |s| / 2
        ensures HexBytes(s)[i] == 16 * HexValueOf(s[2 * i]) + HexValueOf(s[2 * i + 1])
      {
        if i > 0 {
          var j := i - 1;
          assert b[j] == 16 * HexValueOf(t[2 * j]) + HexValueOf(t[2 * j + 1]);
          assert t[2 * j] == s[2 * i] && t[2 * j + 1] == s[2 * i + 1];
        }
      }
    }
  }

  lemma WhatIsRefused(s: string, szBuf: nat)
    ensures ParseHex(s, szBuf) == None <==> s != "" && !(|s| >= 3 && s[0] == '0' && s[1] == 'x')
    ensures ParseHex("", szBuf) == Some([])
  {
    hide HexRun, HexBytes;
    if |s| >= 3 {
      assert s[..2] == "0x" <==> s[0] == '0' && s[1] == 'x';
    }
  }

  /** Bytes written as 0x and hexadecimal text are read back, if they fit the buffer, whatever else follows. */
  lemma HexTextRoundTrip(b: seq<byte>, t: string, tail: string, szBuf: nat)
    requires b != [] && |b| <= szBuf && IsHexText(b, t) && EndsNumber(tail)
    ensures ParseHex("0x" + t + tail, szBuf) == Some(b)
  {
    hide IsHex, HexRun, HexBytes;
    var s := "0x" + t + tail;
    assert s[..2] == "0x" && s[2..] == t + tail;
    RunOfHex(t, tail);
    assert (t + tail)[..2 * |b|] == t;
    HexBytesOfText(b, t);
  }
}
