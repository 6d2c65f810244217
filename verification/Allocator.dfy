/** The bitmap allocator of rfs/Grupos.c: one bitmap and one free counter per group, and a total
    free counter.  Blocks and inodes are handed out by the same scheme with different numbering. */
module Allocation {
  import opened Arithmetic

  /** Units are numbered from `first`; group `g` holds the next `perGroup` numbers. */
  datatype Space = Space(first: nat, perGroup: nat, count: nat, groups: nat) {
    predicate Valid() {
      perGroup > 0 && count <= groups * perGroup
    }

    predicate InRange(n: nat) {
      first <= n < first + count
    }

    function GroupOf(n: nat): nat
      requires Valid() && first <= n
    {
      Quot(n - first, perGroup)
    }

    function BitOf(n: nat): nat
      requires Valid() && first <= n
    {
      Rem(n - first, perGroup)
    }

    function Number(g: nat, k: nat): nat {
      g * perGroup + k + first
    }

    /** Numbering is a bijection between units and (group, bit) pairs. */
    lemma NumberOf(g: nat, k: nat)
      requires Valid() && k < perGroup
      ensures GroupOf(Number(g, k)) == g && BitOf(Number(g, k)) == k
    {
      DivMod(perGroup, g, k);
    }

    lemma NumberBack(n: nat)
      requires Valid() && InRange(n)
      ensures GroupOf(n) < groups && BitOf(n) < perGroup
      ensures Number(GroupOf(n), BitOf(n)) == n
    {
      DivBound(n - first, perGroup, groups);
    }

    /** Units of an earlier group, or of an earlier bit in the same group, have smaller numbers. */
    lemma NumberOrder(g: nat, k: nat, g': nat, k': nat)
      requires Valid() && k < perGroup
      requires g < g' || (g == g' && k <= k')
      ensures Number(g, k) <= Number(g', k')
    {
      if g < g' {
        MulMonotone(g + 1, g', perGroup);
      }
    }
  }

  function CountFree(bits: seq<bool>): nat {
    if |bits| == 0 then 0
    else CountFree(bits[..|bits| - 1]) + if bits[|bits| - 1] then 0 else 1
  }

  function Sum(s: seq<nat>): nat {
    if |s| == 0 then 0 else Sum(s[..|s| - 1]) + s[|s| - 1]
  }

  lemma {:induction false} CountFreeUpdate(bits: seq<bool>, k: nat, v: bool)
    requires k < |bits| && bits[k] != v
    ensures CountFree(bits[k := v]) == CountFree(bits) + if v then -1 else 1
  {
    var n := |bits| - 1;
    if k < n {
      CountFreeUpdate(bits[..n], k, v);
      assert bits[k := v][..n] == bits[..n][k := v];
    } else {
      assert bits[k := v][..n] == bits[..n];
    }
  }

  lemma {:induction false} CountFreeZero(bits: seq<bool>)
    ensures CountFree(bits) == 0 <==> forall k :: 0 <= k < |bits| ==> bits[k]
  {
    if |bits| > 0 {
      var n := |bits| - 1;
      CountFreeZero(bits[..n]);
      assert forall k :: 0 <= k < n ==> bits[..n][k] == bits[k];
    }
  }

  lemma {:induction false} SumUpdate(s: seq<nat>, k: nat, v: nat)
    requires k < |s|
    ensures Sum(s[k := v]) == Sum(s) - s[k] + v
  {
    var n := |s| - 1;
    if k < n {
      SumUpdate(s[..n], k, v);
      assert s[k := v][..n] == s[..n][k := v];
    } else {
      assert s[k := v][..n] == s[..n];
    }
  }

  lemma {:induction false} SumZero(s: seq<nat>)
    ensures Sum(s) == 0 <==> forall k :: 0 <= k < |s| ==> s[k] == 0
  {
    if |s| > 0 {
      var n := |s| - 1;
      SumZero(s[..n]);
      assert forall k :: 0 <= k < n ==> s[..n][k] == s[k];
    }
  }

  /** Every unit has a bit, and every clear bit is the bit of a unit: padding bits are set. */
  ghost predicate Covers(space: Space, bitmap: seq<seq<bool>>) {
    && space.Valid() && |bitmap| == space.groups
    && (forall n {:trigger space.GroupOf(n)} :: space.InRange(n) ==>
          space.GroupOf(n) < |bitmap| && space.BitOf(n) < |bitmap[space.GroupOf(n)]|)
    && (forall g, k :: 0 <= g < |bitmap| && 0 <= k < |bitmap[g]| && !bitmap[g][k] ==>
          k < space.perGroup && space.InRange(space.Number(g, k)))
  }

  /** How many bits each group's bitmap has. */
  function Widths(bitmap: seq<seq<bool>>): seq<nat> {
    seq(|bitmap|, g requires 0 <= g < |bitmap| => |bitmap[g]|)
  }

  predicate Free(space: Space, bitmap: seq<seq<bool>>, n: nat) {
    && space.Valid() && space.InRange(n)
    && space.GroupOf(n) < |bitmap| && space.BitOf(n) < |bitmap[space.GroupOf(n)]|
    && !bitmap[space.GroupOf(n)][space.BitOf(n)]
  }

  /** Both layers of counters agree with the bitmaps. */
  ghost predicate Counted(bitmap: seq<seq<bool>>, groupFree: seq<nat>, totalFree: nat) {
    && |groupFree| == |bitmap|
    && (forall g {:trigger CountFree(bitmap[g])} :: 0 <= g < |bitmap| ==> groupFree[g] == CountFree(bitmap[g]))
    && totalFree == Sum(groupFree)
  }

  /** The bitmaps and both counters are determined by which units are free. */
  lemma SameFreeSameBitmaps(space: Space, bitmap: seq<seq<bool>>, groupFree: seq<nat>, totalFree: nat,
                            bitmap': seq<seq<bool>>, groupFree': seq<nat>, totalFree': nat)
    requires Covers(space, bitmap) && Covers(space, bitmap')
    requires Counted(bitmap, groupFree, totalFree) && Counted(bitmap', groupFree', totalFree')
    requires Widths(bitmap') == Widths(bitmap)
    requires forall n :: Free(space, bitmap, n) <==> Free(space, bitmap', n)
    ensures bitmap' == bitmap && groupFree' == groupFree && totalFree' == totalFree
  {
    forall g | 0 <= g < |bitmap| ensures bitmap'[g] == bitmap[g] && groupFree'[g] == groupFree[g] {
      assert |bitmap'[g]| == Widths(bitmap')[g] == Widths(bitmap)[g] == |bitmap[g]|;
      forall k | 0 <= k < |bitmap[g]| ensures bitmap'[g][k] == bitmap[g][k] {
        if !bitmap[g][k] || !bitmap'[g][k] {
          space.NumberOf(g, k);
          var n := space.Number(g, k);
          assert Free(space, bitmap, n) <==> Free(space, bitmap', n);
        }
      }
      assert bitmap'[g] == bitmap[g];
      assert groupFree'[g] == CountFree(bitmap'[g]) && groupFree[g] == CountFree(bitmap[g]);
    }
  }

  function SetBit(bitmap: seq<seq<bool>>, g: nat, k: nat, v: bool): seq<seq<bool>>
    requires g < |bitmap| && k < |bitmap[g]|
  {
    bitmap[g := bitmap[g][k := v]]
  }

  lemma MarkCounted(bitmap: seq<seq<bool>>, groupFree: seq<nat>, totalFree: nat, g: nat, k: nat, v: bool)
    requires Counted(bitmap, groupFree, totalFree)
    requires g < |bitmap| && k < |bitmap[g]| && bitmap[g][k] != v
    ensures v ==> groupFree[g] > 0 && totalFree > 0
    ensures var d: int := if v then -1 else 1;
            Counted(SetBit(bitmap, g, k, v), groupFree[g := groupFree[g] + d], totalFree + d)
  {
    CountFreeUpdate(bitmap[g], k, v);
    SumUpdate(groupFree, g, if v then groupFree[g] - 1 else groupFree[g] + 1);
  }

  lemma MarkFree(space: Space, bitmap: seq<seq<bool>>, n: nat, v: bool, m: nat)
    requires Covers(space, bitmap) && space.InRange(n)
    ensures Free(space, SetBit(bitmap, space.GroupOf(n), space.BitOf(n), v), m) <==>
            if m == n then !v else Free(space, bitmap, m)
  {
    if space.InRange(m) {
      space.NumberBack(n);
      space.NumberBack(m);
    }
  }

  lemma MarkCovers(space: Space, bitmap: seq<seq<bool>>, n: nat, v: bool)
    requires Covers(space, bitmap) && space.InRange(n)
    ensures Covers(space, SetBit(bitmap, space.GroupOf(n), space.BitOf(n), v))
  {
    space.NumberBack(n);
    var g, k := space.GroupOf(n), space.BitOf(n);
    var bitmap' := SetBit(bitmap, g, k, v);
    forall h, j | 0 <= h < |bitmap'| && 0 <= j < |bitmap'[h]| && !bitmap'[h][j]
      ensures j < space.perGroup && space.InRange(space.Number(h, j))
    {
      assert (h == g && j == k) || !bitmap[h][j];
    }
  }

  /** The first clear bit of a bitmap, or -1 (`bitarray_buscarPosicionLibre`).  The program tests the bit
      before it compares the position with the size; `beyond` is the bit that it then finds past the end. */
  method FirstClear(bits: seq<bool>, beyond: bool) returns (pos: int)
    ensures pos == -1 <==> CountFree(bits) == 0
    ensures pos != -1 ==> 0 <= pos < |bits| && !bits[pos] && forall k :: 0 <= k < pos ==> bits[k]
  {
    CountFreeZero(bits);
    pos := 0;
    while (if pos < |bits| then bits[pos] else beyond) && pos < |bits|
      invariant 0 <= pos <= |bits|
      invariant forall k :: 0 <= k < pos ==> bits[k]
    {
      pos := pos + 1;
    }
    if pos == |bits| {
      return -1;
    }
  }

  class Allocator {
    const space: Space
    var bitmap: seq<seq<bool>>
    var groupFree: seq<nat>
    var totalFree: nat

    ghost predicate Valid()
      reads this
    {
      Covers(space, bitmap) && Counted(bitmap, groupFree, totalFree)
    }

    constructor (space: Space, bitmap: seq<seq<bool>>, groupFree: seq<nat>, totalFree: nat)
      requires Covers(space, bitmap) && Counted(bitmap, groupFree, totalFree)
      ensures Valid()
      ensures this.space == space && this.bitmap == bitmap
      ensures this.groupFree == groupFree && this.totalFree == totalFree
    {
      this.space, this.bitmap, this.groupFree, this.totalFree := space, bitmap, groupFree, totalFree;
    }

    /** The number of the first free unit, or -1 (`Grupos_buscarBloqueLibre`, `Inode_buscarLibre`). */
    method Search() returns (n: int)
      requires Valid()
      ensures n == -1 <==> totalFree == 0
      ensures n != -1 ==> n >= 0 && Free(space, bitmap, n) && forall m :: Free(space, bitmap, m) ==> n <= m
    {
      var g := 0;
      while g < space.groups
        invariant 0 <= g <= space.groups
        invariant forall h :: 0 <= h < g ==> groupFree[h] == 0
      {
        if groupFree[g] != 0 {
          SumZero(groupFree);
          var pos := FirstClear(bitmap[g], true);
          space.NumberOf(g, pos);
          forall m | Free(space, bitmap, m) ensures space.Number(g, pos) <= m {
            LeastFree(g, pos, m);
          }
          return g * space.perGroup + pos + space.first;
        }
        g := g + 1;
      }
      SumZero(groupFree);
      return -1;
    }

    lemma LeastFree(g: nat, pos: nat, m: nat)
      requires Valid() && g < |bitmap| && pos < |bitmap[g]| && !bitmap[g][pos]
      requires forall h :: 0 <= h < g ==> groupFree[h] == 0
      requires forall k :: 0 <= k < pos ==> bitmap[g][k]
      requires Free(space, bitmap, m)
      ensures space.Number(g, pos) <= m
    {
      space.NumberBack(m);
      var h := space.GroupOf(m);
      if h < g {
        CountFreeZero(bitmap[h]);
      } else {
        space.NumberOrder(g, pos, h, space.BitOf(m));
      }
    }

    /** Marks unit `n` used (`v`) or free, adjusting both counters. */
    method Mark(n: nat, v: bool)
      requires Valid() && space.InRange(n) && Free(space, bitmap, n) == v
      modifies this
      ensures Valid() && Widths(bitmap) == old(Widths(bitmap))
      ensures forall m :: Free(space, bitmap, m) <==> if m == n then !v else Free(space, old(bitmap), m)
      ensures totalFree == old(totalFree) + if v then -1 else 1
    {
      var g, k := space.GroupOf(n), space.BitOf(n);
      MarkCounted(bitmap, groupFree, totalFree, g, k, v);
      MarkCovers(space, bitmap, n, v);
      forall m ensures Free(space, SetBit(bitmap, g, k, v), m) <==> if m == n then !v else Free(space, old(bitmap), m) {
        MarkFree(space, bitmap, n, v, m);
      }
      bitmap := SetBit(bitmap, g, k, v);
      totalFree := if v then totalFree - 1 else totalFree + 1;
      groupFree := groupFree[g := if v then groupFree[g] - 1 else groupFree[g] + 1];
    }

    /** Takes the first free unit (`Grupos_pedirBloqueLibre`, `Inode_pedirInodoLibre`).  The program
        marks the bit it finds without looking at the result of the search, so one must exist. */
    method Take() returns (n: nat)
      requires Valid() && totalFree > 0
      modifies this
      ensures Valid() && Widths(bitmap) == old(Widths(bitmap))
      ensures Free(space, old(bitmap), n) && forall m :: Free(space, old(bitmap), m) ==> n <= m
      ensures forall m :: Free(space, bitmap, m) <==> Free(space, old(bitmap), m) && m != n
      ensures totalFree == old(totalFree) - 1
    {
      var found := Search();
      n := found;
      Mark(n, true);
    }

    /** Gives a used unit back (`Grupos_liberarBloqueEnBitmap`, `Grupos_liberarInodoEnBitmap`). */
    method Release(n: nat)
      requires Valid() && space.InRange(n) && !Free(space, bitmap, n)
      modifies this
      ensures Valid() && Widths(bitmap) == old(Widths(bitmap))
      ensures forall m :: Free(space, bitmap, m) <==> Free(space, old(bitmap), m) || m == n
      ensures totalFree == old(totalFree) + 1
    {
      Mark(n, false);
    }
  }
}
