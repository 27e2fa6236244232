/** Byte strings, fixed-width integers and the facts about them that every framing proof uses. */
module Bytes {

  newtype byte = x: int | 0 <= x < 256
  type u16 = x: int | 0 <= x < 0x1_0000
  type u32 = x: int | 0 <= x < 0x1_0000_0000
  type u64 = x: int | 0 <= x < 0x1_0000_0000_0000_0000

  type Bytes4 = b: seq<byte> | |b| == 4 witness [0, 0, 0, 0]
  type Bytes16 = b: seq<byte> | |b| == 16 witness seq(16, _ => 0)
  type Bytes32 = b: seq<byte> | |b| == 32 witness seq(32, _ => 0)

  function Pow256(n: nat): (p: nat)
    ensures p > 0
  {
    if n == 0 then 1 else 256 * Pow256(n - 1)
  }

  function Pow2(n: nat): (p: nat)
    ensures p > 0
  {
    if n == 0 then 1 else 2 * Pow2(n - 1)
  }

  lemma Widths()
    ensures Pow256(2) == 0x1_0000
    ensures Pow256(4) == 0x1_0000_0000
    ensures Pow256(8) == 0x1_0000_0000_0000_0000
  {
    assert Pow256(3) == 0x100_0000;
    assert Pow256(5) == 0x100_0000_0000;
    assert Pow256(6) == 0x1_0000_0000_0000;
    assert Pow256(7) == 0x100_0000_0000_0000;
  }

  /** The `width` low-order bytes of `v`, most significant first (`to_be_bytes`). */
  function BigEndian(v: nat, width: nat): (b: seq<byte>)
    ensures |b| == width
  {
    if width == 0 then [] else BigEndian(v / 256, width - 1) + [(v % 256) as byte]
  }

  /** `from_be_bytes`. */
  function FromBigEndian(b: seq<byte>): (v: nat)
    ensures v < Pow256(|b|)
  {
    if b == [] then 0 else FromBigEndian(b[..|b| - 1]) * 256 + b[|b| - 1] as int
  }

  lemma {:induction false} BigEndianRoundTrip(v: nat, width: nat)
    requires v < Pow256(width)
    ensures FromBigEndian(BigEndian(v, width)) == v
  {
    if width > 0 {
      BigEndianRoundTrip(v / 256, width - 1);
      var b := BigEndian(v, width);
      assert b[..|b| - 1] == BigEndian(v / 256, width - 1);
    }
  }

  lemma {:induction false} FromBigEndianRoundTrip(b: seq<byte>)
    ensures BigEndian(FromBigEndian(b), |b|) == b
  {
    if b != [] {
      FromBigEndianRoundTrip(b[..|b| - 1]);
      assert b == b[..|b| - 1] + [b[|b| - 1]];
    }
  }

  /** Byte strings of one length in dictionary order. */
  ghost predicate Precedes(a: seq<byte>, b: seq<byte>) {
    exists k :: 0 <= k < |a| && k < |b| && a[..k] == b[..k] && a[k] < b[k]
  }

  lemma {:induction false} BigEndianOrder(a: seq<byte>, b: seq<byte>)
    requires |a| == |b|
    ensures FromBigEndian(a) < FromBigEndian(b) <==> Precedes(a, b)
  {
    hide BigEndian, Precedes;
    if a == [] {
      NothingPrecedes(a, b);
    } else {
      var n := |a| - 1;
      BigEndianOrder(a[..n], b[..n]);
      PrecedesAtEnd(a, b);
      FromBigEndianRoundTrip(a[..n]);
      FromBigEndianRoundTrip(b[..n]);
    }
  }

  lemma NothingPrecedes(a: seq<byte>, b: seq<byte>)
    requires a == []
    ensures !Precedes(a, b)
  {
  }

  /** The last byte decides between strings that are the same before it. */
  lemma PrecedesAtEnd(a: seq<byte>, b: seq<byte>)
    requires |a| == |b| > 0
    ensures var n := |a| - 1; Precedes(a, b) <==> Precedes(a[..n], b[..n]) || (a[..n] == b[..n] && a[n] < b[n])
  {
    var n := |a| - 1;
    var p, q := a[..n], b[..n];
    assert forall k :: 0 <= k < n ==> a[..k] == p[..k] && b[..k] == q[..k] && a[k] == p[k] && b[k] == q[k];
  }

  /** The high-order part of a big-endian integer is the big-endian form of its quotient. */
  lemma {:induction false} BigEndianPrefix(v: nat, width: nat, k: nat)
    requires k <= width
    ensures BigEndian(v, width)[..k] == BigEndian(v / Pow256(width - k), k)
  {
    if k < width {
      BigEndianPrefix(v / 256, width - 1, k);
      assert BigEndian(v, width)[..k] == BigEndian(v / 256, width - 1)[..k];
      DivDiv(v, width - k - 1);
    } else {
      assert BigEndian(v, width)[..k] == BigEndian(v, width);
    }
  }

  lemma DivDiv(v: nat, n: nat)
    ensures v / 256 / Pow256(n) == v / Pow256(n + 1)
  {
    var p := Pow256(n);
    var q := v / 256 / p;
    var r := v / 256 % p;
    assert v / 256 == q * p + r;
    assert v == 256 * (q * p + r) + v % 256;
    assert 256 * (q * p) == q * (256 * p);
    assert 0 <= 256 * r + v % 256 < 256 * p;
    QuotientIs(v, 256 * p, q, 256 * r + v % 256);
  }

  lemma MulGap(k: int, d: nat)
    ensures k >= 1 ==> k * d >= d
    ensures k <= -1 ==> k * d + d <= 0
  {
    if k >= 1 {
      NonNegativeProduct(k - 1, d);
      assert k * d == d + (k - 1) * d;
    } else if k <= -1 {
      NonNegativeProduct(-k - 1, d);
      assert k * d + d == -((-k - 1) * d);
    }
  }

  lemma {:induction false} NonNegativeProduct(k: nat, d: nat)
    ensures k * d >= 0
  {
    if k > 0 {
      NonNegativeProduct(k - 1, d);
      assert k * d == (k - 1) * d + d;
    }
  }

  lemma QuotientIs(v: nat, d: nat, q: nat, r: nat)
    requires d > 0 && v == q * d + r && r < d
    ensures v / d == q
  {
    var k := v / d - q;
    assert k * d == v / d * d - q * d;
    assert v == v / d * d + v % d;
    MulGap(k, d);
  }

  lemma InitAndLast<T>(s: seq<T>)
    requires s != []
    ensures s[..|s| - 1] + [s[|s| - 1]] == s
  {
  }

  lemma SliceOfSlice<T>(s: seq<T>, a: nat, b: nat, i: nat, j: nat)
    requires a <= b <= |s| && i <= j <= b - a
    ensures s[a..b][i..j] == s[a + i..a + j]
    ensures s[a..b][i..] == s[a + i..b]
    ensures s[a..b][..j] == s[a..a + j]
  {
    var t := s[a..b];
    assert |t| == b - a && forall k :: 0 <= k < b - a ==> t[k] == s[a + k];
    assert t[i..j] == s[a + i..a + j];
    assert t[i..] == s[a + i..b];
    assert t[..j] == s[a..a + j];
  }

  lemma Assoc<T>(a: seq<T>, b: seq<T>, c: seq<T>)
    ensures (a + b) + c == a + (b + c)
  {
  }

  /** Splitting a concatenation at the end of its first part. */
  lemma SplitAt(a: seq<byte>, b: seq<byte>)
    ensures (a + b)[..|a|] == a && (a + b)[|a|..] == b
  {
  }

  /** Two strings with equally long heads are equal only part by part. */
  lemma SameHeads(a: seq<byte>, x: seq<byte>, b: seq<byte>, y: seq<byte>)
    requires |a| == |b| && a + x == b + y
    ensures a == b && x == y
  {
    SplitAt(a, x);
    SplitAt(b, y);
  }

  /** A field behind its big-endian length: no other field, followed by anything, reads the same. */
  function Prefixed(field: seq<byte>, width: nat): seq<byte> {
    BigEndian(|field|, width) + field
  }

  lemma PrefixedInjective(a: seq<byte>, x: seq<byte>, b: seq<byte>, y: seq<byte>, width: nat)
    requires |a| < Pow256(width) && |b| < Pow256(width)
    requires Prefixed(a, width) + x == Prefixed(b, width) + y
    ensures a == b && x == y
  {
    var la, lb := BigEndian(|a|, width), BigEndian(|b|, width);
    assert Prefixed(a, width) + x == la + (a + x);
    assert Prefixed(b, width) + y == lb + (b + y);
    SameHeads(la, a + x, lb, b + y);
    BigEndianRoundTrip(|a|, width);
    BigEndianRoundTrip(|b|, width);
    SameHeads(a, x, b, y);
  }

  /** The hash tells these two inputs apart. */
  ghost predicate NoCollision(sha: seq<byte> -> Bytes32, x: seq<byte>, y: seq<byte>) {
    sha(x) == sha(y) ==> x == y
  }
}
