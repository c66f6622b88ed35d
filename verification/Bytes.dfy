/** Bytes in memory, little-endian machine words, and network byte order. */
module Bytes {

  type Byte = b: int | 0 <= b < 256

  function Pow256(n: nat): nat {
    if n == 0 then 1 else 256 * Pow256(n - 1)
  }

  function Reverse<T>(s: seq<T>): (r: seq<T>)
    ensures |r| == |s|
  {
    if s == [] then [] else Reverse(s[1..]) + [s[0]]
  }

  lemma {:induction false} ReverseAppend<T>(a: seq<T>, b: seq<T>)
    ensures Reverse(a + b) == Reverse(b) + Reverse(a)
  {
    if a == [] {
      assert a + b == b;
    } else {
      assert (a + b)[1..] == a[1..] + b;
      ReverseAppend(a[1..], b);
    }
  }

  lemma {:induction false} ReverseTwice<T>(s: seq<T>)
    ensures Reverse(Reverse(s)) == s
  {
    if s != [] {
      ReverseTwice(s[1..]);
      ReverseAppend(Reverse(s[1..]), [s[0]]);
      assert Reverse([s[0]]) == [s[0]];
    }
  }

  /** The n bytes a little-endian host stores for x. */
  function ToLE(x: nat, n: nat): (r: seq<Byte>)
    ensures |r| == n
  {
    if n == 0 then [] else [x % 256] + ToLE(x / 256, n - 1)
  }

  function FromLE(b: seq<Byte>): nat {
    if b == [] then 0 else b[0] + 256 * FromLE(b[1..])
  }

  lemma {:induction false} FromToLE(x: nat, n: nat)
    requires x < Pow256(n)
    ensures FromLE(ToLE(x, n)) == x
  {
    if n > 0 {
      FromToLE(x / 256, n - 1);
      assert ToLE(x, n)[1..] == ToLE(x / 256, n - 1);
    }
  }

  lemma {:induction false} ToFromLE(b: seq<Byte>)
    ensures FromLE(b) < Pow256(|b|)
    ensures ToLE(FromLE(b), |b|) == b
  {
    if b != [] {
      ToFromLE(b[1..]);
      var rest := FromLE(b[1..]);
      LowByte(b[0], rest);
      assert ToLE(b[0] + 256 * rest, |b|) == [b[0]] + ToLE(rest, |b| - 1);
      assert [b[0]] + b[1..] == b;
    }
  }

  lemma LowByte(low: Byte, rest: nat)
    ensures (low + 256 * rest) % 256 == low && (low + 256 * rest) / 256 == rest
  {
  }

  /** Most significant byte first, the order of Appendix B of RFC 791. */
  function ToBE(x: nat, n: nat): (r: seq<Byte>)
    ensures |r| == n
  {
    Reverse(ToLE(x, n))
  }

  lemma NetworkOrder(x: nat)
    requires x < Pow256(4)
    ensures ToBE(x, 4) == [x / 0x100_0000, x / 0x1_0000 % 256, x / 0x100 % 256, x % 256]
  {
    var a, b, c := x / 256, x / 256 / 256, x / 256 / 256 / 256;
    assert Pow256(4) == 256 * Pow256(3) == 0x1_0000_0000;
    assert b == x / 0x1_0000 && c == x / 0x100_0000;
    assert c < 256;
    assert ToLE(c, 1) == [c % 256] + ToLE(c / 256, 0);
    assert ToLE(b, 2) == [b % 256] + ToLE(c, 1);
    assert ToLE(a, 3) == [a % 256] + ToLE(b, 2);
    assert ToLE(x, 4) == [x % 256] + ToLE(a, 3);
    assert ToLE(x, 4) == [x % 256, a % 256, b % 256, c];
    ReverseFour(x % 256, a % 256, b % 256, c);
  }

  lemma ReverseFour(p: Byte, q: Byte, r: Byte, s: Byte)
    ensures Reverse([p, q, r, s]) == [s, r, q, p]
  {
    assert [p, q, r, s] == [p] + ([q] + ([r] + [s]));
    ReverseAppend([p], [q] + ([r] + [s]));
    ReverseAppend([q], [r] + [s]);
    ReverseAppend([r], [s]);
    forall z: Byte ensures Reverse([z]) == [z] {
      assert [z][1..] == [];
    }
  }

  // ----- 32-bit integers -----

  const WORD: nat := 0x1_0000_0000

  predicate IsInt32(x: int) {
    -0x8000_0000 <= x < 0x8000_0000
  }

  /** The bit pattern of a signed or unsigned 32-bit value. */
  function Pattern(x: int): (w: nat)
    ensures w < WORD
  {
    x % WORD
  }

  /** The signed value of a bit pattern. */
  function Signed(w: nat): (x: int)
    requires w < WORD
    ensures IsInt32(x) && Pattern(x) == w
  {
    if w < 0x8000_0000 then w else w - WORD
  }

  /** The four bytes in which the host keeps a 32-bit value. */
  function HostBytes(x: int): (r: seq<Byte>)
    ensures |r| == 4
  {
    ToLE(Pattern(x), 4)
  }

  function HostInt(b: seq<Byte>): (x: int)
    requires |b| == 4
    ensures IsInt32(x)
  {
    ToFromLE(b);
    assert Pow256(4) == 256 * Pow256(3) == WORD;
    Signed(FromLE(b))
  }

  /** htonl and ntohl: reverse the bytes of a word. */
  function Htonl(x: int): (r: int)
    ensures IsInt32(r)
  {
    HostInt(Reverse(HostBytes(x)))
  }

  lemma HostRoundTrip(x: int)
    ensures IsInt32(x) ==> HostInt(HostBytes(x)) == x
    ensures Pattern(HostInt(HostBytes(x))) == Pattern(x)
  {
    assert Pow256(4) == 256 * Pow256(3) == WORD;
    FromToLE(Pattern(x), 4);
  }

  lemma HostBytesOfInt(b: seq<Byte>)
    requires |b| == 4
    ensures HostBytes(HostInt(b)) == b
  {
    ToFromLE(b);
    assert Pow256(4) == 256 * Pow256(3) == WORD;
  }

  /** A swapped word, stored by the host, is the value in network order. */
  lemma HtonlIsNetworkOrder(x: int)
    ensures HostBytes(Htonl(x)) == ToBE(Pattern(x), 4)
  {
    HostBytesOfInt(Reverse(HostBytes(x)));
  }

  lemma HtonlInvolution(x: int)
    requires IsInt32(x)
    ensures Htonl(Htonl(x)) == x
  {
    HostBytesOfInt(Reverse(HostBytes(x)));
    ReverseTwice(HostBytes(x));
    HostRoundTrip(x);
  }
}
