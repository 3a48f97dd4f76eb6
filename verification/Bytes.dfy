/**
 * Bytes and the little-endian integers of the wire formats.
 */
module Bytes {
  type byte = x: int | 0 <= x < 256

  datatype Option<+T> = None | Some(value: T)

  function Min(a: int, b: int): int { if a < b then a else b }

  function Pow256(n: nat): (p: nat)
    ensures p > 0
  {
    if n == 0 then 1 else 256 * Pow256(n - 1)
  }

  /** The low `n` bytes of `v`, least significant first. */
  function ToLE(v: nat, n: nat): (s: seq<byte>)
    ensures |s| == n
  {
    if n == 0 then [] else [v % 256] + ToLE(v / 256, n - 1)
  }

  function FromLE(s: seq<byte>): nat {
    if s == [] then 0 else s[0] + 256 * FromLE(s[1..])
  }

  lemma {:induction false} FromToLE(v: nat, n: nat)
    requires v < Pow256(n)
    ensures FromLE(ToLE(v, n)) == v
  {
    if n != 0 {
      FromToLE(v / 256, n - 1);
      assert ToLE(v, n)[1..] == ToLE(v / 256, n - 1);
    }
  }

  lemma {:induction false} ToFromLE(s: seq<byte>)
    ensures FromLE(s) < Pow256(|s|) && ToLE(FromLE(s), |s|) == s
  {
    if s != [] {
      ToFromLE(s[1..]);
      assert FromLE(s) % 256 == s[0] && FromLE(s) / 256 == FromLE(s[1..]);
      assert [s[0]] + s[1..] == s;
    }
  }

  /** Byte `i` of a little-endian integer. */
  lemma {:induction false} ToLEAt(v: nat, n: nat, i: nat)
    requires i < n
    ensures ToLE(v, n)[i] == v / Pow256(i) % 256
  {
    if i > 0 {
      ToLEAt(v / 256, n - 1, i - 1);
      DivTwice(v, 256, Pow256(i - 1));
    }
  }

  lemma DivTwice(v: nat, a: nat, b: nat)
    requires a > 0 && b > 0
    ensures a * b > 0 && v / a / b == v / (a * b)
  {
    var q, r := v / a, v % a;
    var q2, r2 := q / b, q % b;
    assert v == q * a + r && q == q2 * b + r2;
    assert v == q2 * (a * b) + (r2 * a + r) by { Expand(q2, b, r2, a); }
    assert r2 * a + r < a * b by { Below(r2, b, r, a); }
    Quotient(v, a * b, q2, r2 * a + r);
  }

  lemma Expand(q: nat, b: nat, r: nat, a: nat)
    ensures (q * b + r) * a == q * (a * b) + r * a
  {
  }

  lemma Below(q: nat, b: nat, r: nat, a: nat)
    requires q < b && r < a
    ensures q * a + r < a * b
  {
    assert (q + 1) * a <= b * a;
  }

  lemma Quotient(v: nat, d: nat, q: nat, r: nat)
    requires d > 0 && v == q * d + r && r < d
    ensures v / d == q
  {
    var p, s := v / d, v % d;
    assert v == p * d + s && (q + 1) * d == q * d + d && (p + 1) * d == p * d + d;
    if p > q {
      Times(q + 1, p, d);
    } else if p < q {
      Times(p + 1, q, d);
    }
  }

  lemma Times(a: nat, b: nat, d: nat)
    requires a <= b
    ensures a * d <= b * d
  {
  }

  /** The 16-bit little-endian integer at offset `i`. */
  function U16(b: seq<byte>, i: nat): nat
    requires i + 2 <= |b|
  {
    var lo: int, hi: int := b[i], b[i + 1];
    lo + 0x100 * hi
  }

  function U32(b: seq<byte>, i: nat): nat
    requires i + 4 <= |b|
  {
    U16(b, i) + 0x1_0000 * U16(b, i + 2)
  }

  lemma U16IsLE(b: seq<byte>, i: nat)
    requires i + 2 <= |b|
    ensures FromLE(b[i..i + 2]) == U16(b, i) && b[i..i + 2] == ToLE(U16(b, i), 2)
  {
    var s := b[i..i + 2];
    assert s[1..][1..] == [] && FromLE(s[1..]) == s[1];
    ToFromLE(s);
  }

  lemma U32IsLE(b: seq<byte>, i: nat)
    requires i + 4 <= |b|
    ensures FromLE(b[i..i + 4]) == U32(b, i)
  {
    var s := b[i..i + 4];
    assert s[1..][1..] == b[i + 2..i + 4];
    U16IsLE(b, i + 2);
    assert FromLE(s) == s[0] + 256 * (s[1] + 256 * FromLE(s[1..][1..]));
  }

  lemma Pow256Values()
    ensures Pow256(1) == 0x100 && Pow256(2) == 0x1_0000 && Pow256(4) == 0x1_0000_0000
    ensures Pow256(8) == 0x1_0000_0000_0000_0000
  {
    assert Pow256(3) == 256 * Pow256(2);
    assert Pow256(4) == 256 * Pow256(3);
    assert Pow256(5) == 256 * Pow256(4);
    assert Pow256(6) == 256 * Pow256(5);
    assert Pow256(7) == 256 * Pow256(6);
  }

  /** memcpy of `src` to offset `at` */
  function Splice(dst: seq<byte>, at: nat, src: seq<byte>): (r: seq<byte>)
    requires at + |src| <= |dst|
    ensures |r| == |dst| && r[at..at + |src|] == src && r[at + |src|..] == dst[at + |src|..]
  {
    dst[..at] + src + dst[at + |src|..]
  }

  lemma Assoc<T>(a: seq<T>, b: seq<T>, c: seq<T>)
    ensures (a + b) + c == a + (b + c)
  {
  }

  lemma SliceOfSlice<T>(s: seq<T>, a: nat, b: nat, i: nat, j: nat)
    requires a + j <= b <= |s| && i <= j
    ensures s[a..b][i..j] == s[a + i..a + j]
  {
    var x, y := s[a..b][i..j], s[a + i..a + j];
    assert |x| == |y| && forall k :: 0 <= k < |x| ==> x[k] == y[k];
  }
}
