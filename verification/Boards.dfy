/** The board tables: a growing list of tab-separated records, its columns, and the lookup by name. */
module Boards {
  import opened Text
  import opened Bits
  import opened Search
  import opened Wrappers

  // ----- Columns of a record

  function TabRun(s: string): (n: nat)
    ensures n <= |s| && '\t' !in s[..n] && (n == |s| || s[n] == '\t')
  {
    if s == "" || s[0] == '\t' then 0
    else
      var n := TabRun(s[1..]);
      assert s[..n + 1] == [s[0]] + s[1..][..n];
      n + 1
  }

  /** The record as the list of its fields. */
  function Fields(line: string): (fs: seq<string>)
    ensures |fs| >= 1
    decreases |line|
  {
    var n := TabRun(line);
    if n == |line| then [line] else [line[..n]] + Fields(line[n + 1..])
  }

  function AfterTabs(line: string, k: nat): Option<string>
    decreases k
  {
    if k == 0 then Some(line)
    else
      var n := TabRun(line);
      if n == |line| then None else AfterTabs(line[n + 1..], k - 1)
  }

  /** The text from one place on: blanks skipped, tabs included; then up to the next tab; then trimmed at the end. */
  function ColumnAt(rest: string): string
  {
    var t := SkipBlank(rest);
    TrimEnd(t[..TabRun(t)])
  }

  /** What cstr_line_get_column delivers; None when it fails. */
  function Column(line: string, column: nat, szBuf: nat): Option<string>
  {
    match AfterTabs(line, column)
    case None => None
    case Some(rest) => if |ColumnAt(rest)| > szBuf then None else Some(ColumnAt(rest))
  }

  /** The first field from number k on that is not blank, trimmed; nothing if they are all blank. */
  function FieldFrom(fs: seq<string>, k: nat): string
    requires k <= |fs|
    decreases |fs| - k
  {
    if k == |fs| then "" else if !AllBlank(fs[k]) then Trim(fs[k]) else FieldFrom(fs, k + 1)
  }

  /**
   * What a caller asking for a column gets: nothing behind the last field, a field that is not blank in
   * trimmed form, and nothing if that does not fit.
   */
  ghost predicate Delivers(line: string, column: nat, szBuf: nat, ret: int, text: string)
  {
    var fs := Fields(line);
    && (column >= |fs| ==> ret == -1)
    && (column < |fs| && !AllBlank(fs[column]) && |Trim(fs[column])| <= szBuf ==> ret == 0 && text == Trim(fs[column]))
    && (column < |fs| && !AllBlank(fs[column]) && |Trim(fs[column])| > szBuf ==> ret == -1)
  }

  /** cstr_line_get_column: find the column, skip blanks, run to the tab, go back over blanks, copy if it fits. */
  method GetColumn(line: string, column: nat, szBuf: nat) returns (ret: int, text: string)
    ensures ret == if Column(line, column, szBuf).Some? then 0 else -1
    ensures ret == 0 ==> text == Column(line, column, szBuf).value
    ensures Delivers(line, column, szBuf, ret, text)
  {
    hide SkipBlank, TrimEnd, AfterTabs, TabRun, Delivers;
    ColumnDelivers(line, column, szBuf);
    text := "";
    var found, start := SeekColumn(line, column);
    if !found {
      return -1, text;
    }
    var pstart := RunOverBlanks(line, start);
    var pend := RunToTab(line, pstart);
    assert line[pstart..pend] == line[pstart..][..TabRun(line[pstart..])];
    pend := BackOverBlanks(line, pstart, pend);
    if pend - pstart > szBuf {
      return -1, text;
    }
    text := line[pstart..pend];
    ret := 0;
  }

  /** The loop over the tabs in front of the column. */
  method SeekColumn(line: string, column: nat) returns (found: bool, start: nat)
    ensures start <= |line|
    ensures AfterTabs(line, column) == if found then Some(line[start..]) else None
  {
    hide AfterTabs, TabRun;
    var current: nat := 0;
    start := 0;
    assert line[0..] == line;
    while current < column
      invariant current <= column && start <= |line|
      invariant AfterTabs(line, column) == AfterTabs(line[start..], column - current)
    {
      AfterOneTab(line, start, column - current);
      var pend := RunToTab(line, start);
      if pend == |line| {
        break;
      }
      start := pend + 1;
      current := current + 1;
    }
    found := current == column;
    AfterTabsStart(line[start..]);
  }

  lemma AfterOneTab(line: string, start: nat, k: nat)
    requires start <= |line| && k > 0
    ensures var pend := start + TabRun(line[start..]);
      AfterTabs(line[start..], k) == if pend == |line| then None else AfterTabs(line[pend + 1..], k - 1)
  {
    hide TabRun;
    var pend := start + TabRun(line[start..]);
    if pend < |line| {
      assert line[start..][pend - start + 1..] == line[pend + 1..];
    }
  }

  lemma AfterTabsStart(line: string)
    ensures AfterTabs(line, 0) == Some(line)
  {
  }

  method RunOverBlanks(line: string, start: nat) returns (pstart: nat)
    requires start <= |line|
    ensures start <= pstart <= |line| && line[pstart..] == SkipBlank(line[start..])
    ensures pstart < |line| ==> !IsBlank(line[pstart])
  {
    pstart := start;
    while pstart < |line| && IsBlank(line[pstart])
      invariant start <= pstart <= |line|
      invariant SkipBlank(line[start..]) == SkipBlank(line[pstart..])
    {
      assert line[pstart..][1..] == line[pstart + 1..];
      pstart := pstart + 1;
    }
  }

  /** Going back over blanks stops at the first character, which is not blank. */
  method BackOverBlanks(line: string, pstart: nat, behind: nat) returns (pend: nat)
    requires pstart <= behind <= |line|
    requires pstart < behind ==> !IsBlank(line[pstart])
    ensures pstart <= pend <= behind && line[pstart..pend] == TrimEnd(line[pstart..behind])
  {
    pend := behind;
    while pend - 1 > pstart && IsBlank(line[pend - 1])
      invariant pstart <= pend <= behind
      invariant TrimEnd(line[pstart..behind]) == TrimEnd(line[pstart..pend])
    {
      assert line[pstart..pend][..pend - pstart - 1] == line[pstart..pend - 1];
      pend := pend - 1;
    }
  }

  /** The inner loops that run to the next tab or the end. */
  method RunToTab(line: string, start: nat) returns (pend: nat)
    requires start <= |line|
    ensures pend == start + TabRun(line[start..])
  {
    pend := start;
    while pend < |line| && line[pend] != '\t'
      invariant start <= pend <= |line|
      invariant TabRun(line[start..]) == (pend - start) + TabRun(line[pend..])
    {
      assert line[pend..][1..] == line[pend + 1..];
      pend := pend + 1;
    }
  }

  lemma {:induction false} AfterTabsIsField(line: string, k: nat)
    ensures k >= |Fields(line)| ==> AfterTabs(line, k) == None
    ensures k < |Fields(line)| ==> AfterTabs(line, k).Some? && Fields(AfterTabs(line, k).value) == Fields(line)[k..]
    decreases k
  {
    hide TabRun;
    var n := TabRun(line);
    if k > 0 && n < |line| {
      var tail := line[n + 1..];
      AfterTabsIsField(tail, k - 1);
      assert Fields(line) == [line[..n]] + Fields(tail);
      assert forall j: nat :: 1 <= j <= |Fields(line)| ==> Fields(line)[j..] == Fields(tail)[j - 1..];
    }
  }

  lemma {:induction false} SkipBlankConcat(s: string, t: string)
    ensures SkipBlank(s + t) == if AllBlank(s) then SkipBlank(t) else SkipBlank(s) + t
    ensures !AllBlank(s) ==> SkipBlank(s) != "" && !IsBlank(SkipBlank(s)[0])
    ensures AllBlank(s) ==> SkipBlank(s) == ""
    ensures '\t' !in s ==> '\t' !in SkipBlank(s)
  {
    if s == "" {
      assert s + t == t;
    } else if IsBlank(s[0]) {
      assert (s + t)[1..] == s[1..] + t;
      SkipBlankConcat(s[1..], t);
      assert AllBlank(s) <==> AllBlank(s[1..]);
    } else {
      assert !AllBlank(s);
    }
  }

  lemma {:induction false} TabRunConcat(s: string, t: string)
    requires '\t' !in s && (t == "" || t[0] == '\t')
    ensures TabRun(s + t) == |s|
  {
    if s == "" {
      assert s + t == t;
    } else {
      assert (s + t)[1..] == s[1..] + t;
      TabRunConcat(s[1..], t);
    }
  }

  lemma ColumnAtNonblank(f: string, t: string)
    requires '\t' !in f && (t == "" || t[0] == '\t') && !AllBlank(f)
    ensures ColumnAt(f + t) == Trim(f)
  {
    hide SkipBlank, TrimEnd, TabRun;
    SkipBlankConcat(f, t);
    SkipBlankConcat(f, "");
    TabRunConcat(SkipBlank(f), t);
    assert (SkipBlank(f) + t)[..|SkipBlank(f)|] == SkipBlank(f);
  }

  lemma ColumnAtBlank(f: string, t: string)
    requires (t == "" || t[0] == '\t') && AllBlank(f)
    ensures ColumnAt(f + t) == if t == "" then "" else ColumnAt(t[1..])
  {
    SkipBlankConcat(f, t);
  }

  /** A field that is not blank is delivered trimmed; behind a blank one the search runs into the next field. */
  lemma ColumnAtField(rest: string)
    ensures var f := Fields(rest)[0];
      ColumnAt(rest) ==
        if !AllBlank(f) then Trim(f)
        else if |Fields(rest)| == 1 then ""
        else ColumnAt(rest[TabRun(rest) + 1..])
  {
    hide ColumnAt, Trim, AllBlank, TabRun;
    var n := TabRun(rest);
    var f, t := rest[..n], rest[n..];
    assert rest == f + t;
    assert Fields(rest)[0] == f;
    assert n == |rest| <==> |Fields(rest)| == 1;
    if !AllBlank(f) {
      ColumnAtNonblank(f, t);
    } else {
      ColumnAtBlank(f, t);
      assert n < |rest| ==> t[1..] == rest[n + 1..];
    }
  }

  /**
   * The column asked for is the trimmed field of that number exactly when the field is not blank or all
   * fields behind it are blank too.
   */
  lemma ColumnIsField(line: string, k: nat)
    ensures AfterTabs(line, k).Some? <==> k < |Fields(line)|
    ensures k < |Fields(line)| ==>
      (ColumnAt(AfterTabs(line, k).value) == Trim(Fields(line)[k]) <==>
        !AllBlank(Fields(line)[k]) || forall j :: k <= j < |Fields(line)| ==> AllBlank(Fields(line)[j]))
  {
    AfterTabsIsField(line, k);
    if k < |Fields(line)| {
      var rest := AfterTabs(line, k).value;
      var fs := Fields(rest);
      assert fs == Fields(line)[k..];
      ColumnAtField(rest);
      if AllBlank(fs[0]) {
        TrimOfBlank(fs[0]);
        BlankRunOfFields(rest);
        assert (forall j :: 0 <= j < |fs| ==> AllBlank(fs[j])) <==>
               (forall j :: k <= j < |Fields(line)| ==> AllBlank(Fields(line)[j])) by {
          assert forall j :: 0 <= j < |fs| ==> fs[j] == Fields(line)[k + j];
          assert forall j :: k <= j < |Fields(line)| ==> Fields(line)[j] == fs[j - k];
        }
      }
    }
  }

  /** The place behind k tabs shows the first nonblank field from there on. */
  lemma {:induction false} ColumnAtFields(line: string, k: nat)
    requires k < |Fields(line)|
    ensures AfterTabs(line, k).Some? && ColumnAt(AfterTabs(line, k).value) == FieldFrom(Fields(line), k)
    decreases |Fields(line)| - k
  {
    hide ColumnAt, AllBlank, Trim, TabRun;
    AfterTabsIsField(line, k);
    var rest := AfterTabs(line, k).value;
    ColumnAtField(rest);
    assert Fields(rest)[0] == Fields(line)[k];
    if AllBlank(Fields(line)[k]) && k + 1 < |Fields(line)| {
      ColumnAtFields(line, k + 1);
      AfterTabsStep(line, k);
    }
  }

  lemma {:induction false} AfterTabsStep(line: string, k: nat)
    requires AfterTabs(line, k).Some?
    ensures var rest := AfterTabs(line, k).value;
      AfterTabs(line, k + 1) == if TabRun(rest) == |rest| then None else Some(rest[TabRun(rest) + 1..])
    decreases k
  {
    hide TabRun;
    if k > 0 {
      AfterTabsStep(line[TabRun(line) + 1..], k - 1);
    } else {
      AfterTabsStart(line);
      if TabRun(line) < |line| {
        AfterTabsStart(line[TabRun(line) + 1..]);
      }
    }
  }

  /** The column function, for every line and every number, in terms of the fields alone. */
  lemma ColumnIsFieldFrom(line: string, column: nat, szBuf: nat)
    ensures Column(line, column, szBuf) ==
      var fs := Fields(line);
      if column < |fs| && |FieldFrom(fs, column)| <= szBuf then Some(FieldFrom(fs, column)) else None
  {
    hide ColumnAt, FieldFrom;
    AfterTabsIsField(line, column);
    if column < |Fields(line)| {
      ColumnAtFields(line, column);
    }
  }

  lemma ColumnDelivers(line: string, column: nat, szBuf: nat)
    ensures var c := Column(line, column, szBuf);
      Delivers(line, column, szBuf, if c.Some? then 0 else -1, if c.Some? then c.value else "")
  {
    hide Column, Trim, AllBlank;
    ColumnIsFieldFrom(line, column, szBuf);
  }

  /** The fields are what the tabs separate: put together again they are the line, and none contains a tab. */
  lemma {:induction false} FieldsAreTheLine(line: string)
    ensures Joined(Fields(line)) == line
    ensures forall k :: 0 <= k < |Fields(line)| ==> '\t' !in Fields(line)[k]
    decreases |line|
  {
    hide TabRun;
    var n := TabRun(line);
    if n < |line| {
      var rest := Fields(line[n + 1..]);
      FieldsAreTheLine(line[n + 1..]);
      assert Fields(line)[1..] == rest;
      assert line == line[..n] + (['\t'] + line[n + 1..]);
    }
  }

  function Joined(fs: seq<string>): string
  {
    if fs == [] then "" else if |fs| == 1 then fs[0] else fs[0] + (['\t'] + Joined(fs[1..]))
  }

  lemma TrimOfBlank(s: string)
    requires AllBlank(s)
    ensures Trim(s) == ""
  {
    SkipBlankConcat(s, "");
  }

  lemma {:induction false} TrimOfNonblank(s: string)
    requires !AllBlank(s)
    ensures Trim(s) != ""
  {
    SkipBlankConcat(s, "");
    TrimEndKeeps(SkipBlank(s));
  }

  lemma {:induction false} TrimEndKeeps(s: string)
    requires s != "" && !IsBlank(s[0])
    ensures TrimEnd(s) != ""
  {
    if IsBlank(s[|s| - 1]) {
      TrimEndKeeps(s[..|s| - 1]);
    }
  }

  lemma {:induction false} BlankRunOfFields(rest: string)
    ensures ColumnAt(rest) == "" <==> forall j :: 0 <= j < |Fields(rest)| ==> AllBlank(Fields(rest)[j])
    decreases |rest|
  {
    var fs := Fields(rest);
    ColumnAtField(rest);
    if !AllBlank(fs[0]) {
      TrimOfNonblank(fs[0]);
    } else if |fs| > 1 {
      var tail := rest[TabRun(rest) + 1..];
      BlankRunOfFields(tail);
      assert fs[1..] == Fields(tail);
      assert forall j :: 1 <= j < |fs| ==> fs[j] == Fields(tail)[j - 1];
      assert forall j :: 0 <= j < |Fields(tail)| ==> Fields(tail)[j] == fs[j + 1];
    }
  }

  // ----- The growing list

  class BoardList {
    var list: array<string>
    var szCur: nat
    /** Elements copied by all enlargements so far. */
    ghost var moved: nat

    /** The capacity is 0 or 20 * 2^k for this k. */
    ghost var doublings: nat

    ghost predicate Valid()
      reads this, list
    {
      && szCur <= list.Length
      && (list.Length == 0 || list.Length == 20 * Pow2(doublings))
      && (list.Length == 0 ==> moved == 0 && doublings == 0)
      && (list.Length > 0 ==> moved == list.Length - 20 && 2 * szCur >= moved)
    }

    ghost function Contents(): seq<string>
      requires szCur <= list.Length
      reads this, list
    {
      list[..szCur]
    }

    constructor ()
      ensures Valid() && Contents() == [] && fresh(list)
    {
      list := new string[0];
      szCur, moved, doublings := 0, 0, 0;
    }

    /** The reallocation of a full list: room for 20, or twice the room there was. */
    method Grow()
      requires Valid() && szCur == list.Length
      modifies this`list, this`moved, this`doublings
      ensures Valid() && fresh(list) && szCur < list.Length && Contents() == old(Contents())
      ensures list.Length == if old(list.Length) == 0 then 20 else 2 * old(list.Length)
    {
      var szBuf := 20;
      if szBuf <= list.Length {
        szBuf := list.Length * 2;
      }
      var bigger := new string[szBuf];
      for i := 0 to szCur
        invariant unchanged(this) && unchanged(list)
        invariant forall k :: 0 <= k < i ==> bigger[k] == list[k]
      {
        bigger[i] := list[i];
      }
      assert bigger[..szCur] == list[..szCur];
      if list.Length > 0 {
        doublings := doublings + 1;
      }
      moved := moved + szCur;
      list := bigger;
    }

    /** brdlst_append: room for 20 at first, then doubled whenever it is full. Appending n items moves fewer than 2n. */
    method Append(row: string)
      requires Valid()
      modifies this, list
      ensures Valid() && (list == old(list) || fresh(list))
      ensures Contents() == old(Contents()) + [row]
      ensures moved < 2 * |Contents()|
      ensures list.Length == if old(szCur) < old(list.Length) then old(list.Length)
                             else if old(list.Length) == 0 then 20 else 2 * old(list.Length)
    {
      if szCur >= list.Length {
        Grow();
      }
      list[szCur] := row;
      szCur := szCur + 1;
      assert list[..szCur - 1] == old(Contents());
    }

    /** brdlst_get */
    method Get(id: nat) returns (row: Option<string>)
      requires Valid()
      ensures row == if id < |Contents()| then Some(Contents()[id]) else None
    {
      if id >= szCur {
        return None;
      }
      row := Some(list[id]);
    }
  }

  // ----- Lookup by name

  /** strcmp by sign. */
  function StrCmp(a: string, b: string): int
  {
    if a == "" && b == "" then 0
    else if a == "" then -1
    else if b == "" then 1
    else if a[0] < b[0] then -1
    else if a[0] > b[0] then 1
    else StrCmp(a[1..], b[1..])
  }

  lemma {:induction false} StrCmpZero(a: string, b: string)
    ensures StrCmp(a, b) == 0 <==> a == b
    ensures StrCmp(a, b) == -StrCmp(b, a)
  {
    if a != "" && b != "" && a[0] == b[0] {
      StrCmpZero(a[1..], b[1..]);
      assert a == [a[0]] + a[1..] && b == [b[0]] + b[1..];
    }
  }

  /** The strings agree up to k, and there a ends or has the smaller character. */
  predicate Precedes(a: string, b: string, k: nat)
  {
    k <= |a| && k < |b| && a[..k] == b[..k] && (k == |a| || a[k] < b[k])
  }

  lemma PrecedesAtHead(a: string, b: string, k: nat)
    requires Precedes(a, b, k) && a != ""
    ensures b != "" && if k == 0 then a[0] < b[0] else a[0] == b[0]
  {
    assert k > 0 ==> a[..k][0] == a[0] && b[..k][0] == b[0];
  }

  /** The comparison is the lexicographic one. */
  lemma {:induction false} StrCmpIsLexicographic(a: string, b: string)
    ensures StrCmp(a, b) < 0 <==> exists k: nat :: Precedes(a, b, k)
  {
    if a == "" {
      assert b != "" ==> Precedes(a, b, 0);
    } else if b == "" {
    } else if a[0] != b[0] {
      assert a[0] < b[0] ==> Precedes(a, b, 0);
      forall k: nat | Precedes(a, b, k)
        ensures a[0] < b[0]
      {
        PrecedesAtHead(a, b, k);
      }
    } else {
      StrCmpIsLexicographic(a[1..], b[1..]);
      if k: nat :| Precedes(a[1..], b[1..], k) {
        assert a[..k + 1] == [a[0]] + a[1..][..k] && b[..k + 1] == [b[0]] + b[1..][..k];
        assert Precedes(a, b, k + 1);
      }
      if k: nat :| Precedes(a, b, k) {
        assert k > 0;
        assert a[1..][..k - 1] == a[..k][1..] && b[1..][..k - 1] == b[..k][1..];
        assert Precedes(a[1..], b[1..], k - 1);
      }
    }
  }

  lemma {:induction false} StrCmpTransitive(a: string, b: string, c: string)
    requires StrCmp(a, b) < 0 && StrCmp(b, c) <= 0
    ensures StrCmp(a, c) < 0
  {
    if a != "" && b != "" && c != "" && a[0] == b[0] == c[0] {
      StrCmpTransitive(a[1..], b[1..], c[1..]);
    } else if b != "" && c != "" && StrCmp(b, c) == 0 {
      StrCmpZero(b, c);
    }
  }

  const NAME_SIZE: nat := 100

  /** Every row has a name column that fits the comparison buffer with its terminator; the callback asserts it. */
  ghost predicate Named(rows: seq<string>)
  {
    forall i :: 0 <= i < |rows| ==> Column(rows[i], 0, NAME_SIZE).Some? && |NameOf(rows[i])| < NAME_SIZE
  }

  /** In terms of the fields: the first one that is not blank, trimmed, has fewer than 100 characters. */
  lemma NamedByFields(rows: seq<string>)
    ensures Named(rows) <==> forall i :: 0 <= i < |rows| ==> |FieldFrom(Fields(rows[i]), 0)| < 100
  {
    hide Column, FieldFrom, Fields;
    forall i | 0 <= i < |rows|
      ensures Column(rows[i], 0, 100) ==
        if |FieldFrom(Fields(rows[i]), 0)| <= 100 then Some(FieldFrom(Fields(rows[i]), 0)) else None
    {
      ColumnIsFieldFrom(rows[i], 0, 100);
    }
  }

  function NameOf(row: string): string
    requires Column(row, 0, NAME_SIZE).Some?
  {
    Column(row, 0, NAME_SIZE).value
  }

  /** Strictly ascending names. */
  ghost predicate SortedByName(rows: seq<string>)
    requires Named(rows)
  {
    forall i, j :: 0 <= i < j < |rows| ==> StrCmp(NameOf(rows[i]), NameOf(rows[j])) < 0
  }

  /** The reference: look at the rows one after the other. */
  function LinearScan(rows: seq<string>, name: string): Option<string>
  {
    if rows == [] then None
    else if Column(rows[0], 0, NAME_SIZE) == Some(name) then Some(rows[0])
    else LinearScan(rows[1..], name)
  }

  lemma {:induction false} LinearScanFinds(rows: seq<string>, name: string, k: nat)
    requires Named(rows) && SortedByName(rows) && k < |rows| && NameOf(rows[k]) == name
    ensures LinearScan(rows, name) == Some(rows[k])
  {
    if k > 0 {
      assert StrCmp(NameOf(rows[0]), NameOf(rows[k])) < 0;
      StrCmpZero(NameOf(rows[0]), name);
      assert forall i :: 0 <= i < |rows| - 1 ==> rows[1..][i] == rows[i + 1];
      LinearScanFinds(rows[1..], name, k - 1);
    }
  }

  lemma {:induction false} LinearScanMisses(rows: seq<string>, name: string)
    requires Named(rows) && forall i :: 0 <= i < |rows| ==> NameOf(rows[i]) != name
    ensures LinearScan(rows, name) == None
  {
    if rows != [] {
      assert NameOf(rows[0]) != name;
      assert forall i :: 0 <= i < |rows| - 1 ==> rows[1..][i] == rows[i + 1];
      LinearScanMisses(rows[1..], name);
    }
  }

  /** The callback of the search on these rows is ascending when the rows are sorted. */
  lemma SortedIsAscending(rows: seq<string>, name: string, cmp: nat --> int)
    requires Named(rows) && SortedByName(rows)
    requires forall i: nat :: i < |rows| ==> cmp.requires(i) && cmp(i) == StrCmp(NameOf(rows[i]), name)
    ensures Ascending(|rows|, cmp)
  {
    forall i: nat, j: nat | i < j < |rows|
      ensures (cmp(i) > 0 ==> cmp(j) > 0) && (cmp(j) < 0 ==> cmp(i) < 0)
    {
      var a, b := NameOf(rows[i]), NameOf(rows[j]);
      StrCmpZero(a, b);
      StrCmpZero(a, name);
      StrCmpZero(b, name);
      if cmp(j) < 0 {
        StrCmpTransitive(a, b, name);
      }
      if cmp(i) > 0 && cmp(j) <= 0 {
        StrCmpTransitive(a, b, name);
      }
    }
  }

  /** The first field of the record is this name, not blank. */
  predicate HasName(row: string, name: string)
  {
    !AllBlank(Fields(row)[0]) && Trim(Fields(row)[0]) == name
  }

  /** Every record has a first field that is not blank and is another name. */
  ghost predicate NoneHasName(rows: seq<string>, name: string)
  {
    forall i :: 0 <= i < |rows| ==> !AllBlank(Fields(rows[i])[0]) && !HasName(rows[i], name)
  }

  lemma NameIsField(row: string, name: string)
    requires Column(row, 0, NAME_SIZE).Some?
    ensures HasName(row, name) ==> NameOf(row) == name
    ensures !AllBlank(Fields(row)[0]) && !HasName(row, name) ==> NameOf(row) != name
  {
    hide Column, Trim, AllBlank;
    ColumnIsFieldFrom(row, 0, NAME_SIZE);
  }

  /** The scan finds every record whose first field is the name, and nothing if no field is. */
  lemma NamesAreFields(rows: seq<string>, name: string)
    requires Named(rows) && SortedByName(rows)
    ensures forall i :: 0 <= i < |rows| && HasName(rows[i], name) ==> LinearScan(rows, name) == Some(rows[i])
    ensures NoneHasName(rows, name) ==> LinearScan(rows, name) == None
  {
    hide Column, HasName, AllBlank, LinearScan;
    forall i | 0 <= i < |rows|
      ensures HasName(rows[i], name) ==> LinearScan(rows, name) == Some(rows[i])
      ensures !AllBlank(Fields(rows[i])[0]) && !HasName(rows[i], name) ==> NameOf(rows[i]) != name
    {
      NameIsField(rows[i], name);
      if NameOf(rows[i]) == name {
        LinearScanFinds(rows, name, i);
      }
    }
    if NoneHasName(rows, name) {
      LinearScanMisses(rows, name);
    }
  }

  /** The record that the binary search finds is the one a linear scan finds. */
  method FindBoard(boards: BoardList, name: string) returns (row: Option<string>)
    requires boards.Valid() && Named(boards.Contents()) && SortedByName(boards.Contents())
    ensures row == LinearScan(boards.Contents(), name)
  {
    var rows := boards.list[..boards.szCur];
    var cmp := (i: nat) requires i < |rows| && Column(rows[i], 0, NAME_SIZE).Some? => StrCmp(NameOf(rows[i]), name);
    SortedIsAscending(rows, name, cmp);
    var ret, idx, calls := BSearch(|rows|, cmp);
    if ret < 0 {
      forall i | 0 <= i < |rows|
        ensures NameOf(rows[i]) != name
      {
        assert cmp(i) != 0;
        StrCmpZero(NameOf(rows[i]), name);
      }
      LinearScanMisses(rows, name);
      return None;
    }
    StrCmpZero(NameOf(rows[idx]), name);
    LinearScanFinds(rows, name, idx);
    row := boards.Get(idx);
  }

  /** get_ip_of_board and its siblings: a column of the record with the given name; column 5 is the address. */
  method GetColumnOfBoard(boards: BoardList, name: string, column: nat, szBuf: nat) returns (ret: int, text: string)
    requires boards.Valid() && Named(boards.Contents()) && SortedByName(boards.Contents())
    ensures var row := LinearScan(boards.Contents(), name);
      if row.Some? && Column(row.value, column, szBuf).Some?
      then ret == 0 && text == Column(row.value, column, szBuf).value
      else ret == -1
    ensures forall i :: 0 <= i < |boards.Contents()| && HasName(boards.Contents()[i], name) ==>
      Delivers(boards.Contents()[i], column, szBuf, ret, text)
    ensures NoneHasName(boards.Contents(), name) ==> ret == -1
  {
    hide Delivers, Column, HasName, AllBlank;
    NamesAreFields(boards.Contents(), name);
    text := "";
    var row := FindBoard(boards, name);
    if row.None? {
      return -1, text;
    }
    ret, text := GetColumn(row.value, column, szBuf);
  }

  /** get_ip_of_board: the sixth field of the record. */
  method GetIpOfBoard(boards: BoardList, name: string, szBuf: nat) returns (ret: int, text: string)
    requires boards.Valid() && Named(boards.Contents()) && SortedByName(boards.Contents())
    ensures forall i :: 0 <= i < |boards.Contents()| && HasName(boards.Contents()[i], name) ==>
      Delivers(boards.Contents()[i], 5, szBuf, ret, text)
    ensures NoneHasName(boards.Contents(), name) ==> ret == -1
  {
    hide Delivers, HasName, NoneHasName, Named, SortedByName;
    ret, text := GetColumnOfBoard(boards, name, 5, szBuf);
  }

  /** get_mac_of_board: the fifth. */
  method GetMacOfBoard(boards: BoardList, name: string, szBuf: nat) returns (ret: int, text: string)
    requires boards.Valid() && Named(boards.Contents()) && SortedByName(boards.Contents())
    ensures forall i :: 0 <= i < |boards.Contents()| && HasName(boards.Contents()[i], name) ==>
      Delivers(boards.Contents()[i], 4, szBuf, ret, text)
    ensures NoneHasName(boards.Contents(), name) ==> ret == -1
  {
    hide Delivers, HasName, NoneHasName, Named, SortedByName;
    ret, text := GetColumnOfBoard(boards, name, 4, szBuf);
  }

  /** get_ngcmac_of_board: the fourth. */
  method GetNgcmacOfBoard(boards: BoardList, name: string, szBuf: nat) returns (ret: int, text: string)
    requires boards.Valid() && Named(boards.Contents()) && SortedByName(boards.Contents())
    ensures forall i :: 0 <= i < |boards.Contents()| && HasName(boards.Contents()[i], name) ==>
      Delivers(boards.Contents()[i], 3, szBuf, ret, text)
    ensures NoneHasName(boards.Contents(), name) ==> ret == -1
  {
    hide Delivers, HasName, NoneHasName, Named, SortedByName;
    ret, text := GetColumnOfBoard(boards, name, 3, szBuf);
  }
}
