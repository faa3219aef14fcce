/** The argument language "p=0,1,2;v=31": the scanning parser, and the printer it undoes. */
module PinList {
  import opened Bits
  import opened Text
  import opened Wrappers

  const ALL_PINS: nat := 0xFFFF_FFFF

  /** Which list the scanner is in. */
  datatype Kind = Neither | Pins | Value

  datatype Scan = Scan(kind: Kind, got: bool, mask: nat, val: nat)

  datatype Outcome = Done(end: Scan) | Fail(mask: nat, val: nat)

  /** What a number means in the list the scanner is in; 1 << hval takes the shift modulo 32. */
  function Take(sc: Scan, hval: nat): Scan
  {
    match sc.kind
    case Pins => sc.(mask := SetBit(sc.mask, hval % 32), got := true)
    case Value => sc.(val := hval, got := true)
    case Neither => sc.(got := true)
  }

  /** The scanner on the rest of the argument. The character behind a number or behind "all" is skipped unseen. */
  function ScanFrom(s: string, sc: Scan): Outcome
    decreases |s|
  {
    if s == "" then Done(sc)
    else if StartsWith(s, "p=") then ScanFrom(s[2..], sc.(kind := Pins, got := false))
    else if StartsWith(s, "v=") then ScanFrom(s[2..], sc.(kind := Value, got := false))
    else if StartsWith(s, "all") then
      if sc.kind != Pins then Fail(sc.mask, sc.val)
      else ScanFrom(Drop(s, 4), sc.(kind := Neither, got := true, mask := ALL_PINS))
    else if s[0] == ',' then ScanFrom(s[1..], sc)
    else if s[0] == ';' then ScanFrom(s[1..], sc.(kind := Neither))
    else if IsDigit(s[0]) then
      ScanFrom(Drop(s, DigitRun(s) + 1), Take(sc, Atoi(s)))
    else Fail(sc.mask, sc.val)
  }

  /** Return code, pin mask and value; val0 is what the caller left in *val. */
  datatype Parsed = Parsed(ret: int, mask: nat, val: nat)

  function ParseAtten(arg: string, val0: nat): Parsed
  {
    if |arg| < 1 then Parsed(-1, 0, val0)
    else match ScanFrom(arg, Scan(Neither, false, 0, val0))
      case Fail(mask, val) => Parsed(-1, mask, val)
      case Done(end) => Parsed(if end.kind == Value && !end.got then -1 else 0, end.mask, end.val)
  }

  lemma ScanUnfolds(s: string, sc: Scan)
    requires s != ""
    ensures ScanFrom(s, sc) ==
      if StartsWith(s, "p=") then ScanFrom(Drop(s, 2), sc.(kind := Pins, got := false))
      else if StartsWith(s, "v=") then ScanFrom(Drop(s, 2), sc.(kind := Value, got := false))
      else if StartsWith(s, "all") then
        if sc.kind != Pins then Fail(sc.mask, sc.val)
        else ScanFrom(Drop(s, 4), sc.(kind := Neither, got := true, mask := ALL_PINS))
      else if s[0] == ',' then ScanFrom(Drop(s, 1), sc)
      else if s[0] == ';' then ScanFrom(Drop(s, 1), sc.(kind := Neither))
      else if IsDigit(s[0]) then ScanFrom(Drop(s, DigitRun(s) + 1), Take(sc, Atoi(s)))
      else Fail(sc.mask, sc.val)
  {
    hide DigitRun, Atoi, DecValue, SetBit, Take, IsDigit;
  }

  /** One round of the scanner, as the branches see it. */
  lemma ScanRound(arg: string, p: nat, sc: Scan)
    requires p < |arg|
    ensures var s := arg[p..];
      ScanFrom(Drop(arg, p), sc) ==
        if StartsWith(s, "p=") then ScanFrom(Drop(arg, p + 2), sc.(kind := Pins, got := false))
        else if StartsWith(s, "v=") then ScanFrom(Drop(arg, p + 2), sc.(kind := Value, got := false))
        else if StartsWith(s, "all") then
          if sc.kind != Pins then Fail(sc.mask, sc.val)
          else ScanFrom(Drop(arg, p + 4), sc.(kind := Neither, got := true, mask := ALL_PINS))
        else if arg[p] == ',' then ScanFrom(Drop(arg, p + 1), sc)
        else if arg[p] == ';' then ScanFrom(Drop(arg, p + 1), sc.(kind := Neither))
        else if IsDigit(arg[p]) then ScanFrom(Drop(arg, p + DigitRun(s) + 1), Take(sc, Atoi(s)))
        else Fail(sc.mask, sc.val)
  {
    hide ScanFrom, DigitRun, Atoi, DecValue, SetBit, Take, IsDigit, StartsWith;
    var s := arg[p..];
    ScanUnfolds(s, sc);
    DropDrop(arg, p, 1);
    DropDrop(arg, p, 2);
    DropDrop(arg, p, 4);
    DropDrop(arg, p, DigitRun(s) + 1);
  }

  lemma DropDrop(s: string, p: nat, n: nat)
    requires p <= |s|
    ensures Drop(s[p..], n) == Drop(s, p + n)
  {
  }

  /** parse_values_atten: one pass with an index that the branches push ahead by different amounts. */
  method ParseValuesAtten(arg: string, val0: nat) returns (ret: int, mask: nat, val: nat)
    ensures Parsed(ret, mask, val) == ParseAtten(arg, val0)
  {
    hide ScanFrom, Atoi, DecValue, DigitRun, SetBit, StartsWith, IsDigit;
    mask, val := 0, val0;
    var len := |arg|;
    if len < 1 {
      return -1, mask, val;
    }
    var kind, got := Neither, false;
    var p := 0;
    assert Drop(arg, 0) == arg;
    while p < len
      invariant ScanFrom(arg, Scan(Neither, false, 0, val0)) == ScanFrom(Drop(arg, p), Scan(kind, got, mask, val))
      decreases len - p
    {
      ScanRound(arg, p, Scan(kind, got, mask, val));
      if StartsWith(arg[p..], "p=") {
        kind, got := Pins, false;
        p := p + 1;
      } else if StartsWith(arg[p..], "v=") {
        kind, got := Value, false;
        p := p + 1;
      } else if StartsWith(arg[p..], "all") {
        if kind != Pins {
          return -1, mask, val;
        }
        mask := ALL_PINS;
        p := p + 3;
        kind, got := Neither, true;
      } else if arg[p] == ',' {
      } else if arg[p] == ';' {
        kind := Neither;
      } else if IsDigit(arg[p]) {
        var hval := Atoi(arg[p..]);
        p := SkipDigits(arg, p);
        if kind == Pins {
          mask := SetBit(mask, hval % 32);
        } else if kind == Value {
          val := hval;
        }
        got := true;
      } else {
        return -1, mask, val;
      }
      p := p + 1;
    }
    assert Drop(arg, p) == "";
    ScanEnd(Scan(kind, got, mask, val));
    ret := if kind == Value && !got then -1 else 0;
  }

  /** The inner loop that runs over the digits of a number. */
  method SkipDigits(arg: string, start: nat) returns (p: nat)
    requires start <= |arg|
    ensures p == start + DigitRun(arg[start..])
  {
    p := start;
    while p < |arg| && IsDigit(arg[p])
      invariant start <= p <= |arg|
      invariant DigitRun(arg[start..]) == (p - start) + DigitRun(arg[p..])
    {
      assert arg[p..][1..] == arg[p + 1..];
      p := p + 1;
    }
  }

  // ----- The printer

  /** Decimal numbers separated by single commas. */
  function Join(nums: seq<nat>): string
  {
    if nums == [] then ""
    else if |nums| == 1 then Dec(nums[0])
    else Dec(nums[0]) + "," + Join(nums[1..])
  }

  /** The arguments the program prints for itself: an optional value, then a pin list with optional outer commas. */
  function PinText(val: OptVal, lead: bool, nums: seq<nat>, trail: bool): string
  {
    (if val.NoVal? then "" else "v=" + Dec(val.n) + ";")
    + ("p=" + ((if lead then "," else "") + (Join(nums) + (if trail then "," else ""))))
  }

  datatype OptVal = NoVal | Val(n: nat)

  function SetAll(mask: nat, nums: seq<nat>): nat
    decreases |nums|
  {
    if nums == [] then mask else SetAll(SetBit(mask, nums[0]), nums[1..])
  }

  lemma {:induction false} BitOfSetAll(mask: nat, nums: seq<nat>, k: nat)
    ensures Bit(SetAll(mask, nums), k) <==> Bit(mask, k) || k in nums
    decreases |nums|
  {
    if nums != [] {
      BitOfSetBit(mask, nums[0], k);
      BitOfSetAll(SetBit(mask, nums[0]), nums[1..], k);
      assert k in nums <==> k == nums[0] || k in nums[1..];
    }
  }

  ghost predicate PinNumbers(nums: seq<nat>)
  {
    forall i :: 0 <= i < |nums| ==> nums[i] < 32
  }

  lemma NotAPrefix(s: string, p: string)
    requires s != "" && p != "" && s[0] != p[0]
    ensures !StartsWith(s, p)
  {
    assert |p| <= |s| ==> s[..|p|][0] == s[0];
  }

  /** A number and the character behind it are consumed together. */
  lemma ScanDigits(s: string, sc: Scan)
    requires s != "" && IsDigit(s[0])
    ensures ScanFrom(s, sc) == ScanFrom(Drop(s, DigitRun(s) + 1), Take(sc, Atoi(s)))
  {
    hide DigitRun, Atoi, DecValue, SetBit, StartsWith, Drop, Take;
    NotAPrefix(s, "p=");
    NotAPrefix(s, "v=");
    NotAPrefix(s, "all");
  }

  /** A printed number is scanned whole, together with the one character behind it. */
  lemma ScanNumber(n: nat, c: string, t: string, sc: Scan)
    requires |c| <= 1 && (c == "" ==> t == "") && (c != "" ==> !IsDigit(c[0]))
    ensures ScanFrom(Dec(n) + (c + t), sc) == ScanFrom(t, Take(sc, n))
  {
    hide ScanFrom, Take, Dec, DecValue, DigitRun, IsDigit;
    var d := Dec(n);
    var s := d + (c + t);
    assert s[0] == d[0] && IsDigit(d[0]);
    RunOfDigits(d, c + t);
    DecRoundTrip(n);
    assert s[..|d|] == d;
    ScanDigits(s, sc);
    assert Drop(s, |d| + 1) == t;
  }

  lemma ScanLead(lead: bool, tail: string, sc: Scan)
    ensures ScanFrom((if lead then "," else "") + tail, sc) == ScanFrom(tail, sc)
  {
    hide DigitRun, Atoi, DecValue, SetBit, StartsWith, Drop;
    if lead {
      var s := "," + tail;
      assert s[0] == ',' && s[1..] == tail;
      NotAPrefix(s, "p=");
      NotAPrefix(s, "v=");
      NotAPrefix(s, "all");
    } else {
      assert "" + tail == tail;
    }
  }

  lemma ScanEnd(sc: Scan)
    ensures ScanFrom("", sc) == Done(sc)
  {
  }

  lemma {:induction false} ScanJoined(nums: seq<nat>, trail: bool, sc: Scan)
    requires PinNumbers(nums) && sc.kind == Pins
    ensures ScanFrom(Join(nums) + (if trail then "," else ""), sc)
      == Done(sc.(mask := SetAll(sc.mask, nums), got := sc.got || nums != []))
  {
    hide ScanFrom, Dec, SetBit;
    var t := if trail then "," else "";
    ScanEnd(sc);
    if nums == [] {
      assert Join(nums) + t == t + "";
      ScanLead(trail, "", sc);
    } else if |nums| == 1 {
      assert Join(nums) + t == Dec(nums[0]) + (t + "");
      ScanNumber(nums[0], t, "", sc);
      ScanEnd(Take(sc, nums[0]));
      assert nums[1..] == [];
    } else {
      var rest := Join(nums[1..]) + t;
      assert Join(nums) + t == Dec(nums[0]) + ("," + rest);
      ScanNumber(nums[0], ",", rest, sc);
      ScanJoined(nums[1..], trail, Take(sc, nums[0]));
    }
  }

  lemma ScanPinHeader(tail: string, sc: Scan)
    ensures ScanFrom("p=" + tail, sc) == ScanFrom(tail, sc.(kind := Pins, got := false))
  {
    hide DigitRun, Atoi, DecValue, SetBit, Drop, Take;
    assert ("p=" + tail)[..2] == "p=" && ("p=" + tail)[2..] == tail;
  }

  lemma ScanValueHeader(tail: string, sc: Scan)
    ensures ScanFrom("v=" + tail, sc) == ScanFrom(tail, sc.(kind := Value, got := false))
  {
    hide DigitRun, Atoi, DecValue, SetBit, Drop, Take;
    assert ("v=" + tail)[..2] == "v=" && ("v=" + tail)[2..] == tail;
    NotAPrefix("v=" + tail, "p=");
  }

  lemma ScanValuePart(val: OptVal, tail: string, sc: Scan)
    ensures ScanFrom((if val.NoVal? then "" else "v=" + Dec(val.n) + ";") + tail, sc)
      == ScanFrom(tail, if val.NoVal? then sc else sc.(kind := Value, got := true, val := val.n))
  {
    hide ScanFrom, Dec;
    if val.Val? {
      var d := Dec(val.n) + (";" + tail);
      assert "v=" + Dec(val.n) + ";" + tail == "v=" + d;
      ScanValueHeader(d, sc);
      ScanNumber(val.n, ";", tail, sc.(kind := Value, got := false));
    } else {
      assert "" + tail == tail;
    }
  }

  /** The parser undoes the printer: the mask has exactly the listed pins, the value is the printed one. */
  lemma ParseUndoesPrint(val: OptVal, lead: bool, nums: seq<nat>, trail: bool, val0: nat)
    requires PinNumbers(nums)
    ensures ParseAtten(PinText(val, lead, nums, trail), val0)
      == Parsed(0, SetAll(0, nums), if val.NoVal? then val0 else val.n)
    ensures forall k: nat :: Bit(SetAll(0, nums), k) <==> k in nums
  {
    hide ScanFrom, Join, Dec, Bit;
    var list := Join(nums) + (if trail then "," else "");
    var tail := (if lead then "," else "") + list;
    var sc0 := Scan(Neither, false, 0, val0);
    ScanValuePart(val, "p=" + tail, sc0);
    var sc := if val.NoVal? then sc0 else sc0.(kind := Value, got := true, val := val.n);
    ScanPinHeader(tail, sc);
    var sc1 := sc.(kind := Pins, got := false);
    ScanLead(lead, list, sc1);
    ScanJoined(nums, trail, sc1);
    forall k: nat
      ensures Bit(SetAll(0, nums), k) <==> k in nums
    {
      BitOfSetAll(0, nums, k);
      BitOfZero(k);
    }
  }

  // ----- The language the scanner accepts

  /**
   * The pieces of an argument. behind is the character that is skipped together with a number or with the
   * word all; it is missing only at the end of the argument.
   */
  datatype Token =
    | PinsHeader | ValueHeader | Comma | Semicolon
    | Everything(behind: string) | Figure(digits: string, behind: string)

  function Spelling(tok: Token): string
  {
    match tok
    case PinsHeader => "p="
    case ValueHeader => "v="
    case Comma => ","
    case Semicolon => ";"
    case Everything(behind) => "all" + behind
    case Figure(digits, behind) => digits + behind
  }

  /** What a token does: the word all is an error outside a pin list. */
  function Meaning(tok: Token, sc: Scan): Option<Scan>
    requires tok.Figure? ==> AllDigits(tok.digits)
  {
    match tok
    case PinsHeader => Some(Scan(Pins, false, sc.mask, sc.val))
    case ValueHeader => Some(Scan(Value, false, sc.mask, sc.val))
    case Comma => Some(sc)
    case Semicolon => Some(Scan(Neither, sc.got, sc.mask, sc.val))
    case Everything(_) => if sc.kind == Pins then Some(Scan(Neither, true, 0xFFFF_FFFF, sc.val)) else None
    case Figure(digits, _) =>
      var n := DecValue(digits);
      if sc.kind == Pins then Some(Scan(Pins, true, SetBit(sc.mask, n % 32), sc.val))
      else if sc.kind == Value then Some(Scan(Value, true, sc.mask, n))
      else Some(Scan(Neither, true, sc.mask, sc.val))
  }

  /** The token is well-formed in front of tail. */
  ghost predicate Tokenized(tok: Token, tail: string)
  {
    && (tok.Everything? || tok.Figure? ==> |tok.behind| <= 1 && (tok.behind == "" ==> tail == ""))
    && (tok.Figure? ==> tok.digits != "" && AllDigits(tok.digits) && (tok.behind != "" ==> !IsDigit(tok.behind[0])))
  }

  function SpellAll(toks: seq<Token>): string
  {
    if toks == [] then "" else Spelling(toks[0]) + SpellAll(toks[1..])
  }

  ghost predicate AllTokenized(toks: seq<Token>, rest: string)
  {
    toks == [] || (Tokenized(toks[0], SpellAll(toks[1..]) + rest) && AllTokenized(toks[1..], rest))
  }

  /** The tokens one after the other, up to the first error; stranger text behind them is one. */
  ghost function MeaningOf(toks: seq<Token>, rest: string, sc: Scan): Outcome
    requires AllTokenized(toks, rest)
  {
    if toks == [] then (if rest == "" then Done(sc) else Fail(sc.mask, sc.val))
    else
      var m := Meaning(toks[0], sc);
      if m.None? then Fail(sc.mask, sc.val) else MeaningOf(toks[1..], rest, m.value)
  }

  /** The text does not start with a token. */
  predicate Stranger(s: string)
  {
    s != "" && s[0] !in "0123456789,;" && !StartsWith(s, "p=") && !StartsWith(s, "v=") && !StartsWith(s, "all")
  }

  lemma ScanToken(tok: Token, tail: string, sc: Scan)
    requires Tokenized(tok, tail)
    ensures ScanFrom(Spelling(tok) + tail, sc) ==
      if Meaning(tok, sc).None? then Fail(sc.mask, sc.val) else ScanFrom(tail, Meaning(tok, sc).value)
  {
    hide ScanFrom, DecValue, DigitRun, IsDigit, SetBit;
    match tok
    case PinsHeader => ScanPinHeader(tail, sc);
    case ValueHeader => ScanValueHeader(tail, sc);
    case Comma => ScanLead(true, tail, sc);
    case Semicolon => ScanSemicolon(tail, sc);
    case Everything(behind) => ScanAllWord(behind, tail, sc);
    case Figure(digits, behind) => ScanSpelledNumber(digits, behind, tail, sc);
  }

  /** The scanner gives every token list its meaning. */
  lemma {:induction false} ScanTokens(toks: seq<Token>, rest: string, sc: Scan)
    requires AllTokenized(toks, rest) && (rest == "" || Stranger(rest))
    ensures ScanFrom(SpellAll(toks) + rest, sc) == MeaningOf(toks, rest, sc)
  {
    hide ScanFrom, Meaning, Spelling, Stranger;
    if toks == [] {
      assert SpellAll(toks) + rest == rest;
      ScanEnd(sc);
      if rest != "" {
        ScanStranger(rest, sc);
      }
    } else {
      var tail := SpellAll(toks[1..]) + rest;
      assert SpellAll(toks) + rest == Spelling(toks[0]) + tail;
      ScanToken(toks[0], tail, sc);
      var m := Meaning(toks[0], sc);
      if m.Some? {
        ScanTokens(toks[1..], rest, m.value);
      }
    }
  }

  /** Every text is a token list, with nothing or with stranger text behind it. */
  lemma {:induction false} EveryTextIsTokens(s: string)
    ensures exists toks, rest ::
      s == SpellAll(toks) + rest && AllTokenized(toks, rest) && (rest == "" || Stranger(rest))
    decreases |s|
  {
    hide AllTokenized, Tokenized, Stranger, SpellAll;
    if s == "" || Stranger(s) {
      NoTokens(s);
    } else {
      var tok, tail := FirstToken(s);
      EveryTextIsTokens(tail);
      var toks, rest :|
        tail == SpellAll(toks) + rest && AllTokenized(toks, rest) && (rest == "" || Stranger(rest));
      OneMoreToken(tok, toks, rest);
    }
  }

  lemma NoTokens(s: string)
    ensures SpellAll([]) + s == s && AllTokenized([], s)
  {
  }

  lemma OneMoreToken(tok: Token, toks: seq<Token>, rest: string)
    requires Tokenized(tok, SpellAll(toks) + rest) && AllTokenized(toks, rest)
    ensures AllTokenized([tok] + toks, rest)
    ensures SpellAll([tok] + toks) + rest == Spelling(tok) + (SpellAll(toks) + rest)
  {
    assert ([tok] + toks)[1..] == toks;
  }

  lemma FirstToken(s: string) returns (tok: Token, tail: string)
    requires s != "" && !Stranger(s)
    ensures s == Spelling(tok) + tail && Tokenized(tok, tail) && |tail| < |s|
  {
    hide DigitRun;
    if StartsWith(s, "p=") {
      tok, tail := PinsHeader, s[2..];
    } else if StartsWith(s, "v=") {
      tok, tail := ValueHeader, s[2..];
    } else if StartsWith(s, "all") {
      if |s| == 3 {
        tok, tail := Everything(""), "";
      } else {
        tok, tail := Everything([s[3]]), s[4..];
      }
    } else if s[0] == ',' {
      tok, tail := Comma, s[1..];
    } else if s[0] == ';' {
      tok, tail := Semicolon, s[1..];
    } else {
      tok, tail := FirstFigure(s);
    }
  }

  lemma FirstFigure(s: string) returns (tok: Token, tail: string)
    requires s != "" && s[0] in "0123456789"
    ensures s == Spelling(tok) + tail && Tokenized(tok, tail) && |tail| < |s|
  {
    hide DigitRun;
    var n := DigitRun(s);
    assert n > 0;
    if n == |s| {
      tok, tail := Figure(s, ""), "";
    } else {
      tok, tail := Figure(s[..n], [s[n]]), s[n + 1..];
      assert s == s[..n] + [s[n]] + s[n + 1..];
    }
  }

  lemma ScanAllWord(behind: string, tail: string, sc: Scan)
    requires |behind| <= 1 && (behind == "" ==> tail == "")
    ensures ScanFrom("all" + behind + tail, sc) ==
      if sc.kind == Pins then ScanFrom(tail, Scan(Neither, true, 0xFFFF_FFFF, sc.val)) else Fail(sc.mask, sc.val)
  {
    hide DigitRun, Atoi, DecValue, SetBit;
    var s := "all" + behind + tail;
    assert s[..3] == "all" && Drop(s, 4) == tail;
    assert s[..2] == "al";
  }

  lemma ScanSpelledNumber(digits: string, behind: string, tail: string, sc: Scan)
    requires Tokenized(Figure(digits, behind), tail)
    ensures ScanFrom(digits + behind + tail, sc) == ScanFrom(tail, Take(sc, DecValue(digits)))
  {
    hide ScanFrom, Take, DecValue, DigitRun, IsDigit;
    var s := digits + behind + tail;
    assert s == digits + (behind + tail);
    assert s[0] == digits[0] && IsDigit(digits[0]);
    RunOfDigits(digits, behind + tail);
    assert s[..|digits|] == digits;
    ScanDigits(s, sc);
    assert Drop(s, |digits| + 1) == tail;
  }

  lemma ScanStranger(s: string, sc: Scan)
    requires Stranger(s)
    ensures ScanFrom(s, sc) == Fail(sc.mask, sc.val)
  {
  }

  /**
   * What the parser returns for any argument: the empty one is an error; otherwise mask and value are those
   * the tokens leave behind, and it is an error if a token or stranger text is one, or if a value was
   * announced last and not given.
   */
  lemma WhatIsParsed(toks: seq<Token>, rest: string, val0: nat)
    requires AllTokenized(toks, rest) && (rest == "" || Stranger(rest))
    ensures ParseAtten("", val0) == Parsed(-1, 0, val0)
    ensures var arg := SpellAll(toks) + rest;
      arg != "" ==>
        var o := MeaningOf(toks, rest, Scan(Neither, false, 0, val0));
        ParseAtten(arg, val0) ==
          if o.Fail? then Parsed(-1, o.mask, o.val)
          else Parsed(if o.end.kind == Value && !o.end.got then -1 else 0, o.end.mask, o.end.val)
  {
    hide ScanFrom, MeaningOf, AllTokenized, Stranger;
    ScanTokens(toks, rest, Scan(Neither, false, 0, val0));
  }

  // ----- The arguments a user types

  /** "p=0,1,2;v=31" */
  function ListThenValue(nums: seq<nat>, value: nat): string
  {
    "p=" + (Join(nums) + (";" + ("v=" + Dec(value))))
  }

  lemma ScanValueEnd(value: nat, sc: Scan)
    ensures ScanFrom("v=" + Dec(value), sc) == Done(sc.(kind := Value, got := true, val := value))
  {
    hide Dec, SetBit, ScanFrom;
    var d := Dec(value);
    assert d + ("" + "") == d;
    ScanValueHeader(d, sc);
    ScanNumber(value, "", "", sc.(kind := Value, got := false));
    ScanEnd(sc.(kind := Value, got := true, val := value));
  }

  /** The pins are scanned and the separator behind them skipped, unseen when a number precedes it. */
  lemma {:induction false} ScanListThen(nums: seq<nat>, tail: string, sc: Scan) returns (end: Scan)
    requires PinNumbers(nums) && sc.kind == Pins
    ensures end.mask == SetAll(sc.mask, nums) && end.val == sc.val
    ensures ScanFrom(Join(nums) + (";" + tail), sc) == ScanFrom(tail, end)
  {
    hide Dec, SetBit, ScanFrom;
    if nums == [] {
      end := sc.(kind := Neither);
      assert Join(nums) + (";" + tail) == ";" + tail;
      ScanSemicolon(tail, sc);
    } else if |nums| == 1 {
      end := Take(sc, nums[0]);
      ScanNumber(nums[0], ";", tail, sc);
      assert nums[1..] == [];
    } else {
      var rest := Join(nums[1..]) + (";" + tail);
      assert Join(nums) + (";" + tail) == Dec(nums[0]) + ("," + rest);
      ScanNumber(nums[0], ",", rest, sc);
      end := ScanListThen(nums[1..], tail, Take(sc, nums[0]));
    }
  }

  lemma ScanSemicolon(tail: string, sc: Scan)
    ensures ScanFrom(";" + tail, sc) == ScanFrom(tail, sc.(kind := Neither))
  {
    hide DigitRun, Atoi, DecValue, SetBit, StartsWith, Drop;
    var s := ";" + tail;
    assert s[0] == ';' && s[1..] == tail;
    NotAPrefix(s, "p=");
    NotAPrefix(s, "v=");
    NotAPrefix(s, "all");
  }

  /** A typed list and value are read as typed. */
  lemma ParseListThenValue(nums: seq<nat>, value: nat, val0: nat)
    requires PinNumbers(nums)
    ensures ParseAtten(ListThenValue(nums, value), val0) == Parsed(0, SetAll(0, nums), value)
  {
    hide ScanFrom, Join, Dec;
    var sc := Scan(Neither, false, 0, val0);
    var tail := "v=" + Dec(value);
    ScanPinHeader(Join(nums) + (";" + tail), sc);
    var end := ScanListThen(nums, tail, sc.(kind := Pins, got := false));
    ScanValueEnd(value, end);
  }

  /** "p=all;v=31" selects every pin. */
  lemma ParseAllThenValue(value: nat, val0: nat)
    ensures ParseAtten("p=" + ("all" + (";" + ("v=" + Dec(value)))), val0) == Parsed(0, ALL_PINS, value)
  {
    hide Dec;
    var sc := Scan(Neither, false, 0, val0);
    var tail := "v=" + Dec(value);
    ScanPinHeader("all" + (";" + tail), sc);
    ScanAll(tail, sc.(kind := Pins, got := false));
    ScanValueEnd(value, Scan(Neither, true, ALL_PINS, val0));
  }

  lemma ScanAll(tail: string, sc: Scan)
    requires sc.kind == Pins
    ensures ScanFrom("all" + (";" + tail), sc) == ScanFrom(tail, sc.(kind := Neither, got := true, mask := ALL_PINS))
  {
    hide DigitRun, Atoi, DecValue, SetBit;
    var s := "all" + (";" + tail);
    assert s[..3] == "all" && s[4..] == tail;
    assert s[..2] == "al";
  }
}
