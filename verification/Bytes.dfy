/** Bytes, byte sums, little-endian numbers and concatenations of packets. */
module Bytes {

  type byte = b: int | 0 <= b < 256

  /** The plain sum of all bytes; the 8-bit checksum is this sum modulo 256. */
  function Sum(s: seq<byte>): nat
  {
    if s == [] then 0 else Sum(s[..|s| - 1]) + s[|s| - 1]
  }

  lemma {:induction false} SumConcat(a: seq<byte>, b: seq<byte>)
    ensures Sum(a + b) == Sum(a) + Sum(b)
  {
    if b == [] {
      assert a + b == a;
    } else {
      var n := |b| - 1;
      assert (a + b)[..|a| + n] == a + b[..n];
      SumConcat(a, b[..n]);
    }
  }

  /** Replacing one byte moves the sum by exactly the difference. */
  lemma SumUpdate(s: seq<byte>, i: nat, b: byte)
    requires i < |s|
    ensures Sum(s[i := b]) == Sum(s) - s[i] + b
  {
    SumConcat(s[..i], s[i..]);
    SumConcat([s[i]], s[i + 1..]);
    SumConcat(s[..i], [b] + s[i + 1..]);
    SumConcat([b], s[i + 1..]);
    assert s == s[..i] + s[i..] && s[i..] == [s[i]] + s[i + 1..];
    assert s[i := b] == s[..i] + ([b] + s[i + 1..]);
    assert Sum([b]) == b && Sum([s[i]]) == s[i];
  }

  function Pow256(n: nat): (p: nat)
    ensures p >= 1
  {
    if n == 0 then 1 else 256 * Pow256(n - 1)
  }

  /** The number a little-endian byte string denotes. */
  function LE(s: seq<byte>): nat
  {
    if s == [] then 0 else s[0] + 256 * LE(s[1..])
  }

  /** The n low bytes of x, lowest first. */
  function Split(x: nat, n: nat): (s: seq<byte>)
    ensures |s| == n
  {
    if n == 0 then [] else [x % 256] + Split(x / 256, n - 1)
  }

  lemma {:induction false} LEAppend(s: seq<byte>, b: byte)
    ensures LE(s + [b]) == LE(s) + b * Pow256(|s|)
  {
    if s == [] {
      assert s + [b] == [b];
    } else {
      LEAppend(s[1..], b);
      assert (s + [b])[1..] == s[1..] + [b];
      assert 256 * (b * Pow256(|s| - 1)) == b * (256 * Pow256(|s| - 1));
    }
  }

  lemma {:induction false} LEBound(s: seq<byte>)
    ensures LE(s) < Pow256(|s|)
  {
    if s != [] {
      LEBound(s[1..]);
    }
  }

  /** Splitting a number and reading it back keeps it modulo 256^n. */
  lemma {:induction false} LESplit(x: nat, n: nat)
    ensures x < Pow256(n) ==> LE(Split(x, n)) == x
  {
    if n > 0 && x < Pow256(n) {
      LESplit(x / 256, n - 1);
      assert Split(x, n)[1..] == Split(x / 256, n - 1);
    }
  }

  lemma PowersOf256()
    ensures Pow256(1) == 0x100 && Pow256(2) == 0x1_0000
    ensures Pow256(3) == 0x100_0000 && Pow256(4) == 0x1_0000_0000
  {
    assert Pow256(1) == 256 * Pow256(0);
    assert Pow256(2) == 256 * Pow256(1);
    assert Pow256(3) == 256 * Pow256(2);
    assert Pow256(4) == 256 * Pow256(3);
  }

  /** All packets of a list, one after the other. */
  function Flatten(ss: seq<seq<byte>>): seq<byte>
  {
    if ss == [] then [] else ss[0] + Flatten(ss[1..])
  }

  lemma {:induction false} FlattenConcat(a: seq<seq<byte>>, b: seq<seq<byte>>)
    ensures Flatten(a + b) == Flatten(a) + Flatten(b)
  {
    if a == [] {
      assert a + b == b;
    } else {
      FlattenConcat(a[1..], b);
      assert (a + b)[1..] == a[1..] + b;
      assert a[0] + (Flatten(a[1..]) + Flatten(b)) == Flatten(a) + Flatten(b);
    }
  }

  lemma FlattenOne(p: seq<byte>)
    ensures Flatten([p]) == p
  {
    assert [p][1..] == [];
  }

  /** The packets that put bytes on the wire. */
  function NonEmpty(packets: seq<seq<byte>>): seq<seq<byte>>
  {
    if packets == [] then [] else (if packets[0] == [] then [] else [packets[0]]) + NonEmpty(packets[1..])
  }

  lemma {:induction false} NonEmptyConcat(a: seq<seq<byte>>, b: seq<seq<byte>>)
    ensures NonEmpty(a + b) == NonEmpty(a) + NonEmpty(b)
  {
    if a == [] {
      assert a + b == b;
    } else {
      NonEmptyConcat(a[1..], b);
      assert (a + b)[1..] == a[1..] + b;
      var head, more, rest := if a[0] == [] then [] else [a[0]], NonEmpty(a[1..]), NonEmpty(b);
      assert NonEmpty(a + b) == head + (more + rest) == (head + more) + rest;
    }
  }

  lemma NonEmptyOne(p: seq<byte>)
    ensures NonEmpty([p]) == if p == [] then [] else [p]
  {
    assert [p][1..] == [];
  }
}
