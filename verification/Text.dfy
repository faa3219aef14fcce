/** C strings: numbers printed and parsed, blanks, comparison. A string here is the text before the NUL. */
module Text {

  const NEWLINE: string := ['\n']

  // ----- Decimal numbers

  predicate IsDigit(c: char)
  {
    '0' <= c <= '9'
  }

  function DigitValue(c: char): nat
    requires IsDigit(c)
  {
    c as int - '0' as int
  }

  ghost predicate AllDigits(s: string)
  {
    forall i :: 0 <= i < |s| ==> IsDigit(s[i])
  }

  /** The length of the leading run of decimal digits. */
  function DigitRun(s: string): (n: nat)
    ensures n <= |s| && AllDigits(s[..n]) && (n == |s| || !IsDigit(s[n]))
  {
    if s == "" || !IsDigit(s[0]) then 0
    else
      var n := DigitRun(s[1..]);
      assert s[..n + 1] == [s[0]] + s[1..][..n];
      n + 1
  }

  function DecValue(s: string): nat
    requires AllDigits(s)
  {
    if s == "" then 0 else 10 * DecValue(s[..|s| - 1]) + DigitValue(s[|s| - 1])
  }

  /** atoi on a string that starts with a digit; numbers are unbounded here. */
  function Atoi(s: string): nat
  {
    DecValue(s[..DigitRun(s)])
  }

  /** printf's %d for a non-negative number. */
  function Dec(n: nat): (s: string)
    ensures |s| >= 1 && AllDigits(s)
  {
    var last := ['0' + (n % 10) as char];
    if n < 10 then last else Dec(n / 10) + last
  }

  /** The ten digits and what they stand for; nothing else is a digit. */
  lemma DigitsAre(c: char)
    ensures IsDigit(c) <==> c in "0123456789"
    ensures forall v: nat :: v < 10 ==> IsDigit("0123456789"[v]) && DigitValue("0123456789"[v]) == v
    ensures forall v: nat :: v < 10 ==> Dec(v) == ["0123456789"[v]]
  {
  }

  lemma {:induction false} DecRoundTrip(n: nat)
    ensures DecValue(Dec(n)) == n
  {
    var s := Dec(n);
    if n >= 10 {
      DecRoundTrip(n / 10);
      assert s[..|s| - 1] == Dec(n / 10);
    }
    assert DigitValue(s[|s| - 1]) == n % 10;
  }

  /** Printed digits end where something else begins. */
  lemma {:induction false} RunOfDigits(d: string, t: string)
    requires AllDigits(d) && (t == "" || !IsDigit(t[0]))
    ensures DigitRun(d + t) == |d|
  {
    hide IsDigit;
    if d == "" {
      assert d + t == t;
    } else {
      assert (d + t)[1..] == d[1..] + t;
      RunOfDigits(d[1..], t);
    }
  }

  // ----- Hexadecimal numbers

  predicate IsHex(c: char)
  {
    '0' <= c <= '9' || 'a' <= c <= 'f' || 'A' <= c <= 'F'
  }

  function HexValueOf(c: char): (v: nat)
    requires IsHex(c)
    ensures v < 16
  {
    if c <= '9' then c as int - '0' as int
    else if c <= 'F' then c as int - 'A' as int + 10
    else c as int - 'a' as int + 10
  }

  ghost predicate AllHex(s: string)
  {
    forall i :: 0 <= i < |s| ==> IsHex(s[i])
  }

  /** The length of the leading run of hexadecimal digits. */
  function HexRun(s: string): (n: nat)
    ensures n <= |s| && AllHex(s[..n]) && (n == |s| || !IsHex(s[n]))
  {
    if s == "" || !IsHex(s[0]) then 0
    else
      var n := HexRun(s[1..]);
      assert s[..n + 1] == [s[0]] + s[1..][..n];
      n + 1
  }

  lemma {:induction false} RunOfHex(d: string, t: string)
    requires AllHex(d) && EndsNumber(t)
    ensures HexRun(d + t) == |d|
  {
    hide IsHex;
    if d == "" {
      assert d + t == t;
    } else {
      assert (d + t)[1..] == d[1..] + t;
      RunOfHex(d[1..], t);
    }
  }

  function HexValue(s: string): nat
    requires AllHex(s)
  {
    if s == "" then 0 else 16 * HexValue(s[..|s| - 1]) + HexValueOf(s[|s| - 1])
  }

  function HexDigit(v: nat): (c: char)
    requires v < 16
    ensures IsHex(c) && HexValueOf(c) == v
  {
    if v < 10 then '0' + v as char else 'A' + (v - 10) as char
  }

  /** The low w hexadecimal digits of x, upper case; printf's %06X for w = 6 and x below 2^24. */
  function Hex(x: nat, w: nat): (s: string)
    ensures |s| == w && AllHex(s)
  {
    if w == 0 then "" else Hex(x / 16, w - 1) + [HexDigit(x % 16)]
  }

  function Pow16(n: nat): nat
  {
    if n == 0 then 1 else 16 * Pow16(n - 1)
  }

  lemma {:induction false} HexRoundTrip(x: nat, w: nat)
    requires x < Pow16(w)
    ensures HexValue(Hex(x, w)) == x
  {
    if w > 0 {
      HexRoundTrip(x / 16, w - 1);
      assert Hex(x, w)[..w - 1] == Hex(x / 16, w - 1);
    }
  }

  // ----- strtol with base 16

  predicate IsSpace(c: char)
  {
    c == ' ' || c == '\t' || c == '\n' || c == '\r' || c == 0x0B as char || c == 0x0C as char
  }

  function SpaceRun(s: string): (n: nat)
    ensures n <= |s|
  {
    if s == "" || !IsSpace(s[0]) then 0 else 1 + SpaceRun(s[1..])
  }

  /** The digits and what they stand for, in both letter cases; nothing else is a digit. */
  lemma HexDigitsAre(c: char)
    ensures IsHex(c) <==> c in "0123456789abcdefABCDEF"
    ensures forall v: nat :: v < 16 ==> IsHex("0123456789abcdef"[v]) && HexValueOf("0123456789abcdef"[v]) == v
    ensures forall v: nat :: v < 16 ==> IsHex("0123456789ABCDEF"[v]) && HexValueOf("0123456789ABCDEF"[v]) == v
  {
  }

  const LONG_MAX: int := 0x7FFF_FFFF_FFFF_FFFF

  /** The value, and how many characters were used; 0 when there is no number. */
  datatype Number = Number(value: int, used: nat)

  /** An optional 0x and the digits behind it. */
  function Unsigned(u: string): (r: Number)
    ensures 0 <= r.value && r.used <= |u|
  {
    var prefix := if |u| >= 3 && u[0] == '0' && (u[1] == 'x' || u[1] == 'X') && IsHex(u[2]) then 2 else 0;
    var n := HexRun(u[prefix..]);
    if n == 0 then Number(0, 0) else Number(HexValue(u[prefix..][..n]), prefix + n)
  }

  /** An optional sign and a number; out-of-range values are clamped. */
  function Signed(t: string): (r: Number)
    ensures r.used <= |t|
  {
    if t != "" && (t[0] == '-' || t[0] == '+') then
      var m := Unsigned(t[1..]);
      if m.used == 0 then m
      else if t[0] == '-' then Number(if m.value > LONG_MAX + 1 then -LONG_MAX - 1 else -m.value, m.used + 1)
      else Number(if m.value > LONG_MAX then LONG_MAX else m.value, m.used + 1)
    else
      var m := Unsigned(t);
      Number(if m.value > LONG_MAX then LONG_MAX else m.value, m.used)
  }

  /** strtol(s, &end, 16): blanks, then a number with an optional sign and prefix. */
  function Strtol16(s: string): (r: Number)
    ensures r.used <= |s|
  {
    var blanks := SpaceRun(s);
    var m := Signed(s[blanks..]);
    if m.used == 0 then m else Number(m.value, blanks + m.used)
  }

  /** No hexadecimal number goes on here: the end of the string, a blank, a newline. */
  predicate EndsNumber(t: string)
  {
    t == "" || !IsHex(t[0])
  }

  /** v, kept within the range of a 64-bit long. */
  function Clamped(v: int): int
  {
    if v < -0x8000_0000_0000_0000 then -0x8000_0000_0000_0000
    else if v > 0x7FFF_FFFF_FFFF_FFFF then 0x7FFF_FFFF_FFFF_FFFF
    else v
  }

  predicate AllSpace(s: string)
  {
    forall i :: 0 <= i < |s| ==>
      s[i] == ' ' || s[i] == '\t' || s[i] == '\n' || s[i] == '\r' || s[i] == 0x0B as char || s[i] == 0x0C as char
  }

  predicate IsSign(s: string)
  {
    s == "" || s == "-" || s == "+"
  }

  predicate IsPrefix(s: string)
  {
    s == "" || s == "0x" || s == "0X"
  }

  /** A lone 0 in front of an x might be a prefix instead. */
  predicate Unambiguous(prefix: string, digits: string, tail: string)
  {
    prefix == "" && |digits| == 1 && tail != "" ==> tail[0] != 'x' && tail[0] != 'X'
  }

  /**
   * Everything strtol reads as a number: blanks, a sign, a prefix, digits in any letter case, and behind them
   * something that does not go on with the number.
   */
  lemma StrtolReads(blanks: string, sign: string, prefix: string, digits: string, tail: string)
    requires AllSpace(blanks)
    requires IsSign(sign) && IsPrefix(prefix)
    requires digits != "" && AllHex(digits) && EndsNumber(tail)
    requires Unambiguous(prefix, digits, tail)
    ensures var v: int := HexValue(digits);
      Strtol16(blanks + (sign + (prefix + (digits + tail)))) ==
        Number(Clamped(if sign == "-" then -v else v), |blanks| + |sign| + |prefix| + |digits|)
  {
    hide IsHex, HexValue, Signed, Unsigned, IsSpace, AllSpace, IsSign, IsPrefix, Unambiguous, Clamped, Strtol16;
    hide EndsNumber, AllHex;
    var u := prefix + (digits + tail);
    StartsNumber(prefix, digits, tail);
    UnsignedReads(prefix, digits, tail);
    StartsSigned(sign, u);
    SignedReads(sign, u);
    StrtolBehindBlanks(blanks, sign + u);
  }

  lemma StrtolBehindBlanks(blanks: string, t: string)
    requires AllSpace(blanks) && t != "" && !IsSpace(t[0]) && Signed(t).used > 0
    ensures Strtol16(blanks + t) == Number(Signed(t).value, |blanks| + Signed(t).used)
  {
    hide IsSpace, AllSpace, Signed;
    SkipSpaces(blanks, t);
    assert (blanks + t)[|blanks|..] == t;
  }

  lemma UnsignedReads(prefix: string, digits: string, tail: string)
    requires IsPrefix(prefix) && digits != "" && AllHex(digits) && EndsNumber(tail)
    requires Unambiguous(prefix, digits, tail)
    ensures Unsigned(prefix + (digits + tail)) == Number(HexValue(digits), |prefix| + |digits|)
  {
    hide IsHex, HexValue, HexRun, Unambiguous;
    var u := prefix + (digits + tail);
    PrefixIsSeen(prefix, digits, tail);
    assert u[|prefix|..] == digits + tail;
    RunOfHex(digits, tail);
    assert (digits + tail)[..|digits|] == digits;
  }

  lemma SignedReads(sign: string, u: string)
    requires IsSign(sign) && u != "" && IsHex(u[0]) && Unsigned(u).used > 0
    ensures var m := Unsigned(u);
      Signed(sign + u) == Number(Clamped(if sign == "-" then -m.value else m.value), |sign| + m.used)
  {
    hide IsHex, IsSpace, Unsigned;
    StartsSigned(sign, u);
    var t := sign + u;
    if sign == "" {
      assert t == u;
    } else {
      assert t[1..] == u;
    }
  }

  lemma {:induction false} SkipSpaces(blanks: string, t: string)
    requires AllSpace(blanks)
    requires t != "" && !IsSpace(t[0])
    ensures SpaceRun(blanks + t) == |blanks|
  {
    if blanks == "" {
      assert blanks + t == t;
    } else {
      SkipSpaces(blanks[1..], t);
      assert (blanks + t)[1..] == blanks[1..] + t;
    }
  }

  /** The unsigned part starts with a digit. */
  lemma StartsNumber(prefix: string, digits: string, tail: string)
    requires IsPrefix(prefix) && digits != "" && AllHex(digits)
    ensures var u := prefix + (digits + tail); IsHex(u[0])
  {
  }

  lemma StartsSigned(sign: string, u: string)
    requires IsSign(sign) && u != "" && IsHex(u[0])
    ensures var t := sign + u;
      && t != "" && !IsSpace(t[0])
      && (t[0] == '-' <==> sign == "-")
      && (t[0] == '-' || t[0] == '+' <==> |sign| == 1)
  {
  }

  /** A prefix is seen as one exactly if it is there. */
  lemma PrefixIsSeen(prefix: string, digits: string, tail: string)
    requires IsPrefix(prefix) && digits != "" && AllHex(digits) && EndsNumber(tail)
    requires Unambiguous(prefix, digits, tail)
    ensures var u := prefix + (digits + tail);
      |u| >= 3 && u[0] == '0' && (u[1] == 'x' || u[1] == 'X') && IsHex(u[2]) <==> |prefix| == 2
  {
    var u := prefix + (digits + tail);
    if prefix == "" {
      assert u == digits + tail;
      if |digits| > 1 {
        assert IsHex(u[1]);
      } else if |u| >= 2 {
        assert u[1] == tail[0];
      }
    } else {
      assert u[2] == digits[0];
    }
  }

  /** What printf writes as 0x%06X is read back, up to what follows. */
  lemma StrtolReadsHex(x: nat, t: string)
    requires x < 0x100_0000 && EndsNumber(t)
    ensures Strtol16("0x" + Hex(x, 6) + t) == Number(x, 8)
  {
    hide IsHex, HexValue, Hex, Strtol16, EndsNumber;
    var d := Hex(x, 6);
    PowersOf16();
    HexRoundTrip(x, 6);
    StrtolReads("", "", "0x", d, t);
    assert "" + ("" + ("0x" + (d + t))) == "0x" + d + t;
  }

  /** Text that starts like no number has the value 0 and uses no character. */
  lemma StrtolOnLetter(s: string)
    requires s != "" && !IsSpace(s[0]) && s[0] != '-' && s[0] != '+' && !IsHex(s[0])
    ensures Strtol16(s) == Number(0, 0)
  {
    assert s[0..] == s;
  }

  lemma StrtolSkipsBlank(s: string)
    ensures Strtol16(" " + s).value == Strtol16(s).value
  {
    hide HexRun, HexValue, IsHex;
    var t := " " + s;
    assert t[1..] == s;
    assert SpaceRun(t) == 1 + SpaceRun(s);
    assert t[SpaceRun(t)..] == s[SpaceRun(s)..];
  }

  lemma PowersOf16()
    ensures Pow16(6) == 0x100_0000
  {
    assert Pow16(3) == 4096 by { assert Pow16(2) == 256; }
    assert Pow16(5) == 0x10_0000 by { assert Pow16(4) == 0x1_0000; }
  }

  // ----- Command lines

  function ArgText(a: nat, b: nat): (s: string)
    ensures |s| == 17
  {
    "0x" + Hex(a, 6) + (" 0x" + Hex(b, 6))
  }

  /** A command line with two numbers in hexadecimal. */
  function WriteLine(name: string, a: nat, b: nat): string
  {
    name + (" " + ArgText(a, b))
  }

  /** The parts of a line, with anything behind it. */
  lemma SuffixOfLine(name: string, a: nat, b: nat, tail: string, k: nat)
    requires k <= |name|
    ensures var line := WriteLine(name, a, b) + tail;
      && line[k..] == name[k..] + (" " + (ArgText(a, b) + tail))
      && line[|name| + 1..] == ArgText(a, b) + tail
      && StartsWith(line, name)
  {
    hide ArgText;
  }

  lemma ArgTextReadsBack(a: nat, b: nat, tail: string)
    requires a < 0x100_0000 && b < 0x100_0000 && EndsNumber(tail)
    ensures var text := ArgText(a, b) + tail;
      && Strtol16(text) == Number(a, 8)
      && Strtol16(text[9..]) == Number(b, 8)
  {
    hide Strtol16, Hex;
    var text := ArgText(a, b) + tail;
    StrtolReadsHex(a, " 0x" + Hex(b, 6) + tail);
    StrtolReadsHex(b, tail);
    assert text == "0x" + Hex(a, 6) + (" 0x" + Hex(b, 6) + tail);
    assert text[9..] == "0x" + Hex(b, 6) + tail;
  }

  // ----- Prefixes and blanks

  function Drop(s: string, n: nat): string
  {
    if n <= |s| then s[n..] else ""
  }

  predicate StartsWith(s: string, p: string)
  {
    |p| <= |s| && s[..|p|] == p
  }

  /** isblank, newline and carriage return: what the code strips. */
  predicate IsBlank(c: char)
  {
    c == ' ' || c == '\t' || c == '\n' || c == '\r'
  }

  predicate AllBlank(s: string)
  {
    forall i :: 0 <= i < |s| ==> IsBlank(s[i])
  }

  function SkipBlank(s: string): string
  {
    if s != "" && IsBlank(s[0]) then SkipBlank(s[1..]) else s
  }

  function TrimEnd(s: string): string
  {
    if s != "" && IsBlank(s[|s| - 1]) then TrimEnd(s[..|s| - 1]) else s
  }

  function Trim(s: string): string
  {
    TrimEnd(SkipBlank(s))
  }
}
