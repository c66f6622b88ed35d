/** The process's memory as bytes, and the singly linked list whose links live in that memory. */
module Memory {
  import opened Bytes

  /** Width of the link kept in the first bytes of a free slot. */
  const LINK: nat := 8

  /** Allocation alignment, and the size of a list entry (MEMORY_ALLOCATION_ALIGNMENT). */
  const ALIGN: nat := 16

  ghost predicate SameBytes(m: seq<Byte>, n: seq<Byte>, a: nat, len: nat) {
    && |m| == |n|
    && forall i :: a <= i < a + len && i < |m| ==> n[i] == m[i]
  }

  /** Nothing outside [a, a + len) changed. */
  ghost predicate OnlyChanged(m: seq<Byte>, n: seq<Byte>, a: nat, len: nat) {
    && |m| == |n|
    && forall i :: 0 <= i < |m| && (i < a || a + len <= i) ==> n[i] == m[i]
  }

  ghost predicate IsZero(m: seq<Byte>, a: nat, len: nat) {
    && a + len <= |m|
    && forall i :: a <= i < a + len ==> m[i] == 0
  }

  /** memset(a, 0, len); a write outside memory has no effect here, and never happens (NoFault). */
  function Zeroed(m: seq<Byte>, a: nat, len: nat): (n: seq<Byte>)
    ensures OnlyChanged(m, n, a, len)
    ensures a + len <= |m| ==> IsZero(n, a, len)
  {
    if a + len <= |m| then m[..a] + seq(len, _ => 0) + m[a + len..] else m
  }

  function ReadLink(m: seq<Byte>, a: nat): nat {
    if a + LINK <= |m| then FromLE(m[a..a + LINK]) else 0
  }

  function WriteLink(m: seq<Byte>, a: nat, p: nat): (n: seq<Byte>)
    ensures OnlyChanged(m, n, a, LINK)
  {
    if a + LINK <= |m| then m[..a] + ToLE(p, LINK) + m[a + LINK..] else m
  }

  function WriteByte(m: seq<Byte>, a: nat, v: Byte): (n: seq<Byte>)
    ensures OnlyChanged(m, n, a, 1)
  {
    if a < |m| then m[a := v] else m
  }

  lemma ReadWritten(m: seq<Byte>, a: nat, p: nat)
    requires a + LINK <= |m| && p < Pow256(LINK)
    ensures ReadLink(WriteLink(m, a, p), a) == p
  {
    var n := WriteLink(m, a, p);
    assert n[a..a + LINK] == ToLE(p, LINK);
    FromToLE(p, LINK);
  }

  lemma ReadUnchanged(m: seq<Byte>, n: seq<Byte>, a: nat)
    requires SameBytes(m, n, a, LINK)
    ensures ReadLink(n, a) == ReadLink(m, a)
  {
    if a + LINK <= |m| {
      assert n[a..a + LINK] == m[a..a + LINK];
    }
  }

  // ----- the list threaded through memory -----

  /** Following links from `top` visits exactly the addresses in `free`, in order, and then stops. */
  ghost predicate Chain(m: seq<Byte>, top: nat, free: seq<nat>)
    decreases |free|
  {
    if free == [] then top == 0
    else
      && top == free[0] && top != 0 && top + LINK <= |m|
      && Chain(m, ReadLink(m, top), free[1..])
  }

  /** Memory determines what the list visits. */
  lemma {:induction false} ChainUnique(m: seq<Byte>, top: nat, f: seq<nat>, g: seq<nat>)
    requires Chain(m, top, f) && Chain(m, top, g)
    ensures f == g
    decreases |f|
  {
    if f != [] && g != [] {
      ChainUnique(m, ReadLink(m, top), f[1..], g[1..]);
      assert f == [top] + f[1..] && g == [top] + g[1..];
    }
  }

  lemma {:induction false} ChainSuffix(m: seq<Byte>, top: nat, f: seq<nat>, i: nat)
    requires Chain(m, top, f) && i < |f|
    ensures Chain(m, f[i], f[i..])
    decreases |f|
  {
    if i > 0 {
      ChainSuffix(m, ReadLink(m, top), f[1..], i - 1);
      assert f[1..][i - 1..] == f[i..];
    }
  }

  /** A list that ends never visits an address twice. */
  lemma ChainAcyclic(m: seq<Byte>, top: nat, f: seq<nat>)
    requires Chain(m, top, f)
    ensures forall i, j :: 0 <= i < j < |f| ==> f[i] != f[j]
  {
    forall i, j | 0 <= i < j < |f| ensures f[i] != f[j] {
      ChainSuffix(m, top, f, i);
      ChainSuffix(m, top, f, j);
      if f[i] == f[j] {
        ChainUnique(m, f[i], f[i..], f[j..]);
      }
    }
  }

  /** Changing no link of the list leaves what it visits. */
  lemma {:induction false} ChainFrame(m: seq<Byte>, n: seq<Byte>, top: nat, f: seq<nat>)
    requires Chain(m, top, f) && |m| == |n|
    requires forall x :: x in f ==> SameBytes(m, n, x, LINK)
    ensures Chain(n, top, f)
    decreases |f|
  {
    if f != [] {
      assert f[0] in f;
      ReadUnchanged(m, n, top);
      forall x | x in f[1..] ensures SameBytes(m, n, x, LINK) {
        assert x in f;
      }
      ChainFrame(m, n, ReadLink(m, top), f[1..]);
    }
  }

  lemma {:induction false} ChainInMemory(m: seq<Byte>, top: nat, f: seq<nat>)
    requires Chain(m, top, f)
    ensures forall x :: x in f ==> x != 0 && x + LINK <= |m|
    decreases |f|
  {
    if f != [] {
      ChainInMemory(m, ReadLink(m, top), f[1..]);
      assert f == [f[0]] + f[1..];
    }
  }

  /** Pushing x in front: its link now holds the old top. */
  lemma ChainPush(m: seq<Byte>, top: nat, f: seq<nat>, x: nat)
    requires Chain(m, top, f) && |m| <= Pow256(LINK)
    requires x != 0 && x + LINK <= |m|
    requires forall y :: y in f ==> y + LINK <= x || x + LINK <= y
    ensures Chain(WriteLink(m, x, top), x, [x] + f)
  {
    var n := WriteLink(m, x, top);
    ChainInMemory(m, top, f);
    ChainFrame(m, n, top, f);
    ReadWritten(m, x, top);
    assert ([x] + f)[1..] == f;
  }
}
