/** Cutting blocks of memory into pieces of one size, as both pools do. */
module Slicing {

  /** The addresses pushed by the loop that starts at offset `index` of a block and steps by `step`
      while the offset is below `total`. */
  function Slices(base: nat, index: nat, total: nat, step: nat): (r: seq<nat>)
    requires step > 0
    decreases if index < total then total - index else 0
  {
    if index < total then [base + index] + Slices(base, index + step, total, step) else []
  }

  /** Every block of `bases` cut in turn. */
  function Cut(bases: seq<nat>, total: nat, step: nat): (r: seq<nat>)
    requires step > 0
  {
    if bases == [] then []
    else Cut(bases[..|bases| - 1], total, step) + Slices(bases[|bases| - 1], 0, total, step)
  }

  /** No two of the blocks [s[i], s[i] + d) share a byte. */
  ghost predicate Apart(s: seq<nat>, d: nat) {
    forall i, j :: 0 <= i < j < |s| ==> s[i] + d <= s[j] || s[j] + d <= s[i]
  }

  ghost predicate Disjoint(x: nat, m: nat, y: nat, n: nat) {
    x + m <= y || y + n <= x
  }

  // ----- arithmetic -----

  function CeilDiv(a: nat, b: nat): nat
    requires b > 0
  {
    (a + b - 1) / b
  }

  lemma MulMonotone(p: int, q: int, d: nat)
    requires p <= q
    ensures p * d <= q * d
  {
  }

  lemma Distribute(p: int, d: int)
    ensures (p + 1) * d == p * d + d
  {
  }

  lemma DivUnique(a: nat, d: nat, q: nat, r: nat)
    requires d > 0 && r < d && a == q * d + r
    ensures a / d == q && a % d == r
  {
    var p := a / d;
    assert a == p * d + a % d;
    Distribute(p, d);
    Distribute(q, d);
    if p < q {
      MulMonotone(p + 1, q, d);
    } else if q < p {
      MulMonotone(q + 1, p, d);
    }
  }

  lemma DivMonotone(a: nat, b: nat, d: nat)
    requires d > 0 && a <= b
    ensures a / d <= b / d
  {
    var p, q := a / d, b / d;
    assert a == p * d + a % d && b == q * d + b % d;
    if p > q {
      MulMonotone(q + 1, p, d);
      Distribute(q, d);
    }
  }

  lemma MultipleGap(a: nat, b: nat, d: nat)
    requires d > 0 && a % d == 0 && b % d == 0 && a < b
    ensures a + d <= b
  {
    var p, q := a / d, b / d;
    assert a == p * d && b == q * d;
    if p < q {
      MulMonotone(p + 1, q, d);
      Distribute(p, d);
    } else {
      MulMonotone(q, p, d);
    }
  }

  lemma MultipleNotSmaller(a: nat, d: nat)
    requires a > 0 && d > 0 && a % d == 0
    ensures a >= d
  {
    if a < d {
      DivUnique(a, d, 0, a);
    }
  }

  lemma CeilStep(rest: nat, step: nat)
    requires step > 0 && rest > step
    ensures CeilDiv(rest, step) == CeilDiv(rest - step, step) + 1
  {
    var a := rest - step + step - 1;
    var q := a / step;
    assert a == q * step + a % step;
    assert rest + step - 1 == (q + 1) * step + a % step;
    DivUnique(rest + step - 1, step, q + 1, a % step);
  }

  // ----- one block -----

  /** Exactly which addresses one block yields: the k-th is base + index + k * step. */
  lemma {:induction false} SliceAt(base: nat, index: nat, total: nat, step: nat, k: nat)
    requires step > 0 && k < |Slices(base, index, total, step)|
    ensures Slices(base, index, total, step)[k] == base + index + k * step
    ensures index + k * step < total
    decreases k
  {
    if k > 0 {
      SliceAt(base, index + step, total, step, k - 1);
      assert (k - 1) * step + step == k * step;
    }
  }

  /** A block of `total` bytes yields ceil(total / step) slices. */
  lemma {:induction false} SliceCount(base: nat, index: nat, total: nat, step: nat)
    requires step > 0 && index <= total
    ensures |Slices(base, index, total, step)| == CeilDiv(total - index, step)
    decreases total - index
  {
    if index == total {
      DivUnique(step - 1, step, 0, step - 1);
    } else if total - index <= step {
      DivUnique(total - index + step - 1, step, 1, total - index - 1);
    } else {
      SliceCount(base, index + step, total, step);
      CeilStep(total - index, step);
    }
  }

  lemma SlicesApart(base: nat, index: nat, total: nat, step: nat)
    requires step > 0
    ensures Apart(Slices(base, index, total, step), step)
  {
    var s := Slices(base, index, total, step);
    forall i, j | 0 <= i < j < |s| ensures s[i] + step <= s[j] {
      SliceAt(base, index, total, step, i);
      SliceAt(base, index, total, step, j);
      Distribute(i, step);
      MulMonotone(i + 1, j, step);
    }
  }

  /** When step divides total every slice stays inside its block. */
  lemma SlicesInside(base: nat, index: nat, total: nat, step: nat)
    requires step > 0 && total % step == 0 && index % step == 0
    ensures forall x :: x in Slices(base, index, total, step) ==>
      base + index <= x && x + step <= base + total && (x - base) % step == 0
  {
    var s := Slices(base, index, total, step);
    forall k | 0 <= k < |s|
      ensures base + index <= s[k] && s[k] + step <= base + total && (s[k] - base) % step == 0
    {
      SliceAt(base, index, total, step, k);
      var q := index / step;
      assert index + k * step == (q + k) * step + 0;
      DivUnique(index + k * step, step, q + k, 0);
      MultipleGap(index + k * step, total, step);
    }
  }

  /** The exact geometry of one cut block: every slice stays inside the block if and only if
      step divides total; otherwise the last one overhangs by ceil(total/step)*step - total. */
  lemma SliceOverhang(base: nat, total: nat, step: nat)
    requires step > 0 && total > 0
    ensures var s := Slices(base, 0, total, step);
      && |s| > 0
      && (forall i :: 0 <= i < |s| - 1 ==> s[i] + step <= base + total)
      && s[|s| - 1] + step == base + total + (CeilDiv(total, step) * step - total)
      && ((forall i :: 0 <= i < |s| ==> s[i] + step <= base + total) <==> total % step == 0)
  {
    var s := Slices(base, 0, total, step);
    SliceCount(base, 0, total, step);
    var n := |s|;
    Covering(total, step);
    SliceAt(base, 0, total, step, n - 1);
    Distribute(n - 1, step);
    forall i | 0 <= i < n - 1 ensures s[i] + step <= base + total {
      SliceAt(base, 0, total, step, i);
      SliceAt(base, 0, total, step, i + 1);
      Distribute(i, step);
    }
  }

  /** ceil(total / step) steps reach total, exactly if step divides it. */
  lemma Covering(total: nat, step: nat)
    requires step > 0 && total > 0
    ensures CeilDiv(total, step) > 0 && CeilDiv(total, step) * step >= total
    ensures CeilDiv(total, step) * step == total <==> total % step == 0
  {
    var n, q, r := CeilDiv(total, step), total / step, total % step;
    assert total == q * step + r;
    if r == 0 {
      DivUnique(total + step - 1, step, q, step - 1);
    } else {
      Distribute(q, step);
      DivUnique(total + step - 1, step, q + 1, r - 1);
    }
    if n * step == total {
      DivUnique(total, step, n, 0);
    }
  }

  // ----- many blocks -----

  lemma {:induction false} CutFrom(bases: seq<nat>, total: nat, step: nat, x: nat)
    requires step > 0 && x in Cut(bases, total, step)
    ensures exists i :: 0 <= i < |bases| && x in Slices(bases[i], 0, total, step)
    decreases |bases|
  {
    var front := bases[..|bases| - 1];
    if x in Cut(front, total, step) {
      CutFrom(front, total, step, x);
      var i :| 0 <= i < |front| && x in Slices(front[i], 0, total, step);
      assert bases[i] == front[i];
    } else {
      assert x in Slices(bases[|bases| - 1], 0, total, step);
    }
  }

  /** Where a piece comes from: it lies inside one of the blocks, a whole number of steps in. */
  lemma CutInside(bases: seq<nat>, total: nat, step: nat, x: nat)
    requires step > 0 && total % step == 0 && x in Cut(bases, total, step)
    ensures exists i :: 0 <= i < |bases| && bases[i] <= x && x + step <= bases[i] + total && (x - bases[i]) % step == 0
  {
    CutFrom(bases, total, step, x);
    var i :| 0 <= i < |bases| && x in Slices(bases[i], 0, total, step);
    SlicesInside(bases[i], 0, total, step);
    assert bases[i] <= x && x + step <= bases[i] + total && (x - bases[i]) % step == 0;
  }

  /** Blocks that do not overlap are cut into pieces that do not overlap. */
  lemma {:induction false} CutApart(bases: seq<nat>, total: nat, step: nat)
    requires step > 0 && total % step == 0 && Apart(bases, total)
    ensures Apart(Cut(bases, total, step), step)
    decreases |bases|
  {
    if bases != [] {
      var last := |bases| - 1;
      var front, tail := Cut(bases[..last], total, step), Slices(bases[last], 0, total, step);
      CutApart(bases[..last], total, step);
      SlicesApart(bases[last], 0, total, step);
      SlicesInside(bases[last], 0, total, step);
      forall i, j | 0 <= i < |front| && 0 <= j < |tail| ensures Disjoint(front[i], step, tail[j], step) {
        CutInside(bases[..last], total, step, front[i]);
        assert tail[j] in tail;
      }
      var s := Cut(bases, total, step);
      assert s == front + tail;
      forall i, j | 0 <= i < j < |s| ensures s[i] + step <= s[j] || s[j] + step <= s[i] {
        if i < |front| <= j {
          assert Disjoint(front[i], step, tail[j - |front|], step);
        } else if |front| <= i {
          assert s[i] == tail[i - |front|] && s[j] == tail[j - |front|];
        }
      }
    }
  }

  lemma {:induction false} CutCount(bases: seq<nat>, total: nat, step: nat)
    requires step > 0
    ensures |Cut(bases, total, step)| == |bases| * CeilDiv(total, step)
    decreases |bases|
  {
    if bases != [] {
      CutCount(bases[..|bases| - 1], total, step);
      SliceCount(bases[|bases| - 1], 0, total, step);
      assert |bases| * CeilDiv(total, step) == (|bases| - 1) * CeilDiv(total, step) + CeilDiv(total, step);
    }
  }

  lemma CutSnoc(bases: seq<nat>, b: nat, total: nat, step: nat)
    requires step > 0
    ensures Cut(bases + [b], total, step) == Cut(bases, total, step) + Slices(b, 0, total, step)
  {
    assert (bases + [b])[..|bases|] == bases;
  }

  lemma CutOne(b: nat, total: nat, step: nat)
    requires step > 0
    ensures Cut([b], total, step) == Slices(b, 0, total, step)
  {
    CutSnoc([], b, total, step);
  }

  lemma {:induction false} CutAppend(a: seq<nat>, b: seq<nat>, total: nat, step: nat)
    requires step > 0
    ensures Cut(a + b, total, step) == Cut(a, total, step) + Cut(b, total, step)
    decreases |b|
  {
    if b == [] {
      assert a + b == a;
    } else {
      var n := |b| - 1;
      assert a + b == (a + b[..n]) + [b[n]] && b == b[..n] + [b[n]];
      CutAppend(a, b[..n], total, step);
      CutSnoc(a + b[..n], b[n], total, step);
      CutSnoc(b[..n], b[n], total, step);
    }
  }

  /** Two neighbouring blocks whose size the step does not divide: the last piece of the first and the
      first piece of the second share bytes. */
  lemma NeighboursCollide(a: nat, total: nat, step: nat)
    requires step > 0 && total > 0 && total % step != 0
    ensures var s, t := Slices(a, 0, total, step), Slices(a + total, 0, total, step);
      |s| > 0 && |t| > 0 && t[0] == a + total && s[|s| - 1] < t[0] < s[|s| - 1] + step
  {
    SliceOverhang(a, total, step);
    SliceOverhang(a + total, total, step);
    var s := Slices(a, 0, total, step);
    SliceAt(a, 0, total, step, |s| - 1);
    var i :| 0 <= i < |s| && s[i] + step > a + total;
    assert i == |s| - 1;
  }

  /** A region cut into groups and the groups into slots: no two slots share a byte if and only if the
      slot size divides the group size, or there is only one group. */
  lemma SlotsApartExactly(region: nat, size: nat, group: nat, slot: nat)
    requires slot > 0 && group > 0 && size > 0 && size % group == 0
    ensures Apart(Cut(Slices(region, 0, size, group), group, slot), slot)
      <==> group % slot == 0 || size == group
  {
    var groups := Slices(region, 0, size, group);
    SlicesApart(region, 0, size, group);
    if group % slot == 0 {
      CutApart(groups, group, slot);
    } else if size == group {
      assert groups == [region] + Slices(region, size, size, group);
      assert groups == [region];
      CutOne(region, group, slot);
      SlicesApart(region, 0, group, slot);
    } else {
      MultipleNotSmaller(size, group);
      FirstTwo(region, size, group);
      TwoGroupsCollide(region, groups, group, slot);
    }
  }

  lemma FirstTwo(region: nat, size: nat, group: nat)
    requires group > 0 && size > group
    ensures var g := Slices(region, 0, size, group); |g| >= 2 && g[0] == region && g[1] == region + group
  {
    assert Slices(region, 0, size, group) == [region] + Slices(region, group, size, group);
  }

  lemma TwoGroupsCollide(region: nat, groups: seq<nat>, group: nat, slot: nat)
    requires slot > 0 && group > 0 && group % slot != 0
    requires |groups| >= 2 && groups[0] == region && groups[1] == region + group
    ensures !Apart(Cut(groups, group, slot), slot)
  {
    var s, t := Slices(region, 0, group, slot), Slices(region + group, 0, group, slot);
    var rest := Cut(groups[2..], group, slot);
    NeighboursCollide(region, group, slot);
    assert groups == ([groups[0]] + [groups[1]]) + groups[2..];
    CutAppend([groups[0]] + [groups[1]], groups[2..], group, slot);
    CutAppend([groups[0]], [groups[1]], group, slot);
    CutOne(region, group, slot);
    CutOne(region + group, group, slot);
    var all := (s + t) + rest;
    assert Cut(groups, group, slot) == all;
    var i, j := |s| - 1, |s|;
    assert all[i] == s[i] && all[j] == t[0];
    assert all[i] < all[j] < all[i] + slot;
  }

  /** ... and every slot stays inside the region if and only if the slot size divides the group size. */
  lemma SlotsInsideExactly(region: nat, size: nat, group: nat, slot: nat)
    requires slot > 0 && group > 0 && size > 0 && size % group == 0
    ensures (forall x :: x in Cut(Slices(region, 0, size, group), group, slot) ==> x + slot <= region + size)
      <==> group % slot == 0
  {
    var groups := Slices(region, 0, size, group);
    var slots := Cut(groups, group, slot);
    if group % slot == 0 {
      SlicesInside(region, 0, size, group);
      forall x | x in slots ensures x + slot <= region + size {
        CutInside(groups, group, slot, x);
        var k :| 0 <= k < |groups| && groups[k] <= x && x + slot <= groups[k] + group && (x - groups[k]) % slot == 0;
        assert groups[k] in groups;
      }
    } else {
      LastGroup(region, size, group);
      var g := groups[|groups| - 1];
      var tail := Slices(g, 0, group, slot);
      NeighboursCollide(g, group, slot);
      assert groups == groups[..|groups| - 1] + [g];
      CutSnoc(groups[..|groups| - 1], g, group, slot);
      assert slots[|slots| - 1] == tail[|tail| - 1];
      assert slots[|slots| - 1] in slots;
    }
  }

  lemma LastGroup(region: nat, size: nat, group: nat)
    requires group > 0 && size > 0 && size % group == 0
    ensures var g := Slices(region, 0, size, group); |g| > 0 && g[|g| - 1] + group == region + size
  {
    SliceOverhang(region, size, group);
    SliceCount(region, 0, size, group);
    var q := size / group;
    assert size == q * group;
    assert size + group - 1 == q * group + (group - 1);
    DivUnique(size + group - 1, group, q, group - 1);
  }
}
