/** Stripping a C string, in place or into another buffer. */
module Strip {
  import opened Memory
  import opened Text

  const NUL: char := '\0'

  /** The array holds a terminated string. */
  predicate Terminated(a: seq<char>)
  {
    NUL in a
  }

  /** The text before the first NUL. */
  function CStr(a: seq<char>): (s: string)
    requires Terminated(a)
    ensures |s| < |a| && s == a[..|s|] && a[|s|] == NUL && NUL !in s
  {
    if a[0] == NUL then ""
    else
      assert a == [a[0]] + a[1..];
      var s := CStr(a[1..]);
      assert a[..|s| + 1] == [a[0]] + a[1..][..|s|];
      [a[0]] + s
  }

  lemma {:induction false} CStrUnique(a: seq<char>, n: nat)
    requires n < |a| && a[n] == NUL && NUL !in a[..n]
    ensures Terminated(a) && CStr(a) == a[..n]
  {
    if n > 0 {
      assert a[0] == a[..n][0];
      assert a[1..][..n - 1] == a[..n][1..];
      CStrUnique(a[1..], n - 1);
      assert a[..n] == [a[0]] + a[1..][..n - 1];
    }
  }

  /** A text that is not refused for its length leaves a byte for the terminator. */
  predicate RoomFor(text: string, szBuf: nat, length: nat)
  {
    1 <= szBuf && |text| <= szBuf ==> |text| < length
  }

  /**
   * cstr_strip: the text between two positions of orig is moved to the front of buf and terminated. Both
   * may be the same buffer; then the room for the terminator is there.
   */
  method CStrStrip(orig: array<char>, buf: array<char>, szBuf: nat) returns (ret: int)
    requires Terminated(orig[..])
    requires orig == buf || RoomFor(Trim(CStr(orig[..])), szBuf, buf.Length)
    modifies buf
    ensures ret == if szBuf < 1 then -1 else if |Trim(CStr(old(orig[..])))| > szBuf then -2 else 0
    ensures ret < 0 ==> buf[..] == old(buf[..])
    ensures ret == 0 ==> Terminated(buf[..]) && CStr(buf[..]) == Trim(CStr(old(orig[..])))
    ensures ret == 0 ==> forall k :: |CStr(buf[..])| < k < buf.Length ==> buf[k] == old(buf[k])
  {
    hide Trim, CStr;
    var pstart, pend := FindText(orig);
    if szBuf < 1 {
      return -1;
    }
    if pstart >= pend {
      buf[0] := NUL;
      CStrUnique(buf[..], 0);
      return 0;
    }
    var len := pend - pstart;
    if len > szBuf {
      return -2;
    }
    StoreText(buf, orig, pstart, len);
    ret := 0;
  }

  /** The copy and its terminator. */
  method StoreText(buf: array<char>, orig: array<char>, pstart: nat, len: nat)
    requires len < buf.Length && pstart + len <= orig.Length && NUL !in orig[pstart..pstart + len]
    modifies buf
    ensures Terminated(buf[..]) && CStr(buf[..]) == old(orig[pstart..pstart + len])
    ensures forall k :: len < k < buf.Length ==> buf[k] == old(buf[k])
  {
    hide CStr;
    ghost var text := orig[pstart..pstart + len];
    MemMove(buf, 0, orig, pstart, len);
    buf[len] := NUL;
    assert buf[..][..len] == text;
    CStrUnique(buf[..], len);
  }

  /** The two scans: forwards over blanks from the start, backwards over blanks from the end. */
  method FindText(buf: array<char>) returns (pstart: nat, pend: nat)
    requires Terminated(buf[..])
    ensures pstart <= pend < buf.Length
    ensures buf[pstart..pend] == Trim(CStr(buf[..])) && NUL !in buf[pstart..pend]
  {
    hide SkipBlank, TrimEnd, CStr;
    ghost var s := CStr(buf[..]);
    var len := StrLen(buf);
    CStrIsPrefix(buf[..], len);
    pstart := ScanForward(buf, len);
    pend := ScanBackward(buf, pstart, len);
    TextIsInside(buf[..], len, pstart, pend);
    assert buf[..][..len] == buf[..len];
    assert buf[..len][pstart..] == buf[pstart..len];
    assert buf[..][pstart..pend] == buf[pstart..pend];
  }

  /** The piece of the text between two positions. */
  lemma TextIsInside(a: seq<char>, len: nat, pstart: nat, pend: nat)
    requires pstart <= pend <= len <= |a| && NUL !in a[..len]
    ensures NUL !in a[pstart..pend]
  {
    assert forall i :: pstart <= i < pend ==> a[i] == a[..len][i];
  }

  lemma CStrIsPrefix(a: seq<char>, n: nat)
    requires Terminated(a) && n == |CStr(a)|
    ensures n < |a| && CStr(a) == a[..n] && NUL !in a[..n]
  {
  }

  method ScanForward(buf: array<char>, len: nat) returns (pstart: nat)
    requires len <= buf.Length
    ensures pstart <= len && buf[pstart..len] == SkipBlank(buf[..len])
    ensures pstart < len ==> !IsBlank(buf[pstart])
  {
    pstart := 0;
    while pstart < len
      invariant pstart <= len && SkipBlank(buf[..len]) == SkipBlank(buf[pstart..len])
    {
      if !IsBlank(buf[pstart]) {
        break;
      }
      assert buf[pstart..len][1..] == buf[pstart + 1..len];
      pstart := pstart + 1;
    }
  }

  method ScanBackward(buf: array<char>, pstart: nat, len: nat) returns (pend: nat)
    requires pstart <= len <= buf.Length
    requires pstart < len ==> !IsBlank(buf[pstart])
    ensures pstart <= pend <= len && buf[pstart..pend] == TrimEnd(buf[pstart..len])
  {
    var last: int := len - 1;
    while pstart < last
      invariant pstart - 1 <= last < len && (pstart < len ==> pstart <= last)
      invariant TrimEnd(buf[pstart..len]) == TrimEnd(buf[pstart..last + 1])
    {
      if !IsBlank(buf[last]) {
        break;
      }
      assert buf[pstart..last + 1][..last - pstart] == buf[pstart..last];
      last := last - 1;
    }
    pend := last + 1;
  }

  /** strlen */
  method StrLen(buf: array<char>) returns (n: nat)
    requires Terminated(buf[..])
    ensures n == |CStr(buf[..])|
  {
    n := 0;
    while buf[n] != NUL
      invariant n <= |CStr(buf[..])|
      invariant NUL !in buf[..n]
      decreases buf.Length - n
    {
      n := n + 1;
    }
    CStrUnique(buf[..], n);
  }

  // ----- What stripping means

  /** Space, tab, newline and carriage return are stripped. */
  predicate Strippable(c: char)
  {
    c == ' ' || c == '\t' || c == '\n' || c == '\r'
  }

  predicate AllStrippable(s: string)
  {
    forall i :: 0 <= i < |s| ==> Strippable(s[i])
  }

  lemma BlankIsStrippable(s: string)
    ensures AllBlank(s) <==> AllStrippable(s)
    ensures forall c: char :: IsBlank(c) <==> Strippable(c)
  {
    assert forall i :: 0 <= i < |s| ==> (IsBlank(s[i]) <==> Strippable(s[i]));
  }

  /** Nothing to strip at either end. */
  predicate Tight(t: string)
  {
    t == "" || (!Strippable(t[0]) && !Strippable(t[|t| - 1]))
  }

  /** t is s without some strippable text around it, and tight. */
  ghost predicate Core(s: string, a: string, t: string, b: string)
  {
    s == a + t + b && AllStrippable(a) && AllStrippable(b) && Tight(t)
  }

  lemma {:induction false} SkipBlankSplits(s: string) returns (a: string)
    ensures s == a + SkipBlank(s) && AllBlank(a)
    ensures SkipBlank(s) != "" ==> !IsBlank(SkipBlank(s)[0])
  {
    if s != "" && IsBlank(s[0]) {
      var a' := SkipBlankSplits(s[1..]);
      a := [s[0]] + a';
    } else {
      a := "";
    }
  }

  lemma {:induction false} TrimEndSplits(s: string) returns (b: string)
    ensures s == TrimEnd(s) + b && AllBlank(b)
    ensures TrimEnd(s) != "" ==> !IsBlank(TrimEnd(s)[|TrimEnd(s)| - 1])
  {
    if s != "" && IsBlank(s[|s| - 1]) {
      var b' := TrimEndSplits(s[..|s| - 1]);
      b := b' + [s[|s| - 1]];
    } else {
      b := "";
    }
  }

  /** Stripping yields a core of the string. */
  lemma TrimIsCore(s: string)
    ensures exists a, b :: Core(s, a, Trim(s), b)
  {
    var a := SkipBlankSplits(s);
    var t := SkipBlank(s);
    var b := TrimEndSplits(t);
    BlankIsStrippable(a);
    BlankIsStrippable(b);
    assert Trim(s) != "" ==> Trim(s)[0] == t[0];
    assert Core(s, a, Trim(s), b);
  }

  /** There is only one core: the result is the unique maximal substring without blanks at its ends. */
  lemma {:induction false} CoreIsTrim(s: string, a: string, t: string, b: string)
    requires Core(s, a, t, b)
    ensures t == Trim(s)
  {
    BlankIsStrippable(a);
    BlankIsStrippable(b);
    SkipBlankOf(a, t + b);
    assert s == a + (t + b);
    if t == "" {
      assert t + b == b;
      SkipBlankOf(b, "");
      assert b + "" == b;
    } else {
      assert SkipBlank(t + b) == t + b;
      TrimEndOf(t, b);
    }
  }

  lemma {:induction false} SkipBlankOf(a: string, t: string)
    requires AllBlank(a)
    ensures SkipBlank(a + t) == SkipBlank(t)
  {
    if a == "" {
      assert a + t == t;
    } else {
      assert (a + t)[1..] == a[1..] + t;
      SkipBlankOf(a[1..], t);
    }
  }

  lemma {:induction false} TrimEndOf(t: string, b: string)
    requires AllBlank(b) && (t == "" || !IsBlank(t[|t| - 1]))
    ensures TrimEnd(t + b) == t
  {
    if b == "" {
      assert t + b == t;
    } else {
      assert (t + b)[..|t + b| - 1] == t + b[..|b| - 1];
      TrimEndOf(t, b[..|b| - 1]);
    }
  }

  /** Stripping twice is stripping once, and only blank text strips to nothing. */
  lemma TrimIsIdempotent(s: string)
    ensures Trim(Trim(s)) == Trim(s)
    ensures Trim(s) == "" <==> AllStrippable(s)
  {
    TrimIsCore(s);
    var a, b :| Core(s, a, Trim(s), b);
    var t := Trim(s);
    assert "" + t + "" == t;
    CoreIsTrim(t, "", t, "");
    if t == "" {
      assert s == a + b;
    } else {
      assert s[|a|] == t[0];
    }
  }
}
