/** Block moves inside and between arrays. */
module Memory {

  /** was with s written over it from index at on. */
  function Overwrite<T>(was: seq<T>, at: nat, s: seq<T>): (now: seq<T>)
    requires at + |s| <= |was|
    ensures |now| == |was|
  {
    was[..at] + s + was[at + |s|..]
  }

  /** memmove: the source may overlap the destination at any distance. */
  method MemMove<T>(dst: array<T>, d: nat, src: array<T>, s: nat, n: nat)
    requires d + n <= dst.Length && s + n <= src.Length
    modifies dst
    ensures dst[..] == Overwrite(old(dst[..]), d, old(src[s..s + n]))
  {
    ghost var was, all := dst[..], src[..];
    if d <= s {
      for i := 0 to n
        invariant forall k :: 0 <= k < dst.Length ==> dst[k] == if d <= k < d + i then all[k - d + s] else was[k]
        invariant forall k :: s + i <= k < src.Length ==> src[k] == all[k]
      {
        dst[d + i] := src[s + i];
      }
    } else {
      for i := n downto 0
        invariant forall k :: 0 <= k < dst.Length ==> dst[k] == if d + i <= k < d + n then all[k - d + s] else was[k]
        invariant forall k :: 0 <= k < s + i ==> src[k] == all[k]
      {
        dst[d + i] := src[s + i];
      }
    }
    assert dst[..] == Overwrite(was, d, all[s..s + n]);
  }
}
