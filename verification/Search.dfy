/** Binary search through a comparison callback, and the length bound of its run. */
module Search {
  import opened Bits

  /** The number of binary digits of n: floor(log2 n) + 1 for positive n. */
  function BitLength(n: nat): nat
  {
    if n == 0 then 0 else 1 + BitLength(n / 2)
  }

  lemma {:induction false} BitLengthIsLog(n: nat)
    requires n >= 1
    ensures BitLength(n) >= 1 && Pow2(BitLength(n) - 1) <= n < Pow2(BitLength(n))
  {
    if n >= 2 {
      BitLengthIsLog(n / 2);
    } else {
      assert BitLength(0) == 0;
    }
  }

  lemma BitLengthHalves(n: nat)
    ensures n > 0 ==> BitLength(n) == 1 + BitLength(n / 2)
  {
  }

  lemma {:induction false} BitLengthGrows(m: nat, n: nat)
    requires m <= n
    ensures BitLength(m) <= BitLength(n)
  {
    if m > 0 {
      BitLengthGrows(m / 2, n / 2);
    }
  }

  /** The comparisons with the wanted item go from negative over zero to positive. */
  ghost predicate Ascending(n: nat, cmp: nat --> int)
    requires forall i: nat :: i < n ==> cmp.requires(i)
  {
    forall i: nat, j: nat :: i < j < n ==> (cmp(i) > 0 ==> cmp(j) > 0) && (cmp(j) < 0 ==> cmp(i) < 0)
  }

  lemma AscendingFrom(n: nat, cmp: nat --> int, i: nat)
    requires forall k: nat :: k < n ==> cmp.requires(k)
    requires Ascending(n, cmp) && i < n
    ensures cmp(i) > 0 ==> forall k: nat :: i <= k < n ==> cmp(k) > 0
    ensures cmp(i) < 0 ==> forall k: nat :: k <= i ==> cmp(k) < 0
  {
  }

  /** pos splits the items into those before and those behind the wanted one. */
  ghost predicate InsertionPoint(n: nat, cmp: nat --> int, pos: nat)
    requires forall i: nat :: i < n ==> cmp.requires(i)
  {
    && pos <= n
    && (forall i: nat :: i < pos ==> cmp(i) < 0)
    && (forall i: nat :: pos <= i < n ==> cmp(i) > 0)
  }

  /**
   * pf_bsearch_r. Positions left and right count from one so that they never become negative; calls
   * counts the comparisons. Without the order of the items a hit is still a hit and the bound still holds.
   */
  method BSearch(numData: nat, cmp: nat --> int) returns (ret: int, idx: nat, ghost calls: nat)
    requires forall i: nat :: i < numData ==> cmp.requires(i)
    ensures ret == 0 || ret == -1
    ensures ret == 0 ==> idx < numData && cmp(idx) == 0
    ensures ret == -1 && Ascending(numData, cmp) ==> InsertionPoint(numData, cmp, idx)
    ensures calls <= BitLength(numData)
  {
    hide Ascending, BitLength;
    calls, idx := 0, 0;
    if numData < 1 {
      return -1, idx, calls;
    }
    var i: nat, left: nat, right: nat, found := 0, 1, numData, false;
    while left <= right
      invariant 1 <= left <= right + 1 <= numData + 1 && !found
      invariant calls + BitLength(right + 1 - left) <= BitLength(numData)
      invariant Ascending(numData, cmp) ==>
        (forall k: nat :: k + 1 < left ==> cmp(k) < 0) && (forall k: nat :: right <= k < numData ==> cmp(k) > 0)
      invariant if calls == 0 then left <= right else (right == i || left == i + 2) && i < numData
      decreases right + 1 - left
    {
      i := (left + right) / 2 - 1;
      ghost var width := right + 1 - left;
      BitLengthHalves(width);
      var c := cmp(i);
      if Ascending(numData, cmp) {
        AscendingFrom(numData, cmp, i);
      }
      calls := calls + 1;
      if c > 0 {
        BitLengthGrows(i + 1 - left, width / 2);
        right := i;
      } else if c < 0 {
        BitLengthGrows(right - (i + 1), width / 2);
        left := i + 2;
      } else {
        found := true;
        break;
      }
    }
    if found {
      return 0, i, calls;
    }
    ret := -1;
    if right <= i {
      idx := i;
    } else if left >= i + 2 {
      idx := i + 1;
    }
  }
}
