/** Bytes, big-endian words and the Go integer conversions the codec depends on. */
module Words {

  type byte = b: int | 0 <= b < 256

  const TWO_63: int := 0x8000_0000_0000_0000
  const TWO_64: int := 0x1_0000_0000_0000_0000
  const TWO_160: int := TWO_64 * TWO_64 * 0x1_0000_0000
  const MAX_INT64: int := TWO_63 - 1

  /** Go's uint64; every block height is one. */
  type Height = n: int | 0 <= n < TWO_64

  function Zeros(n: nat): (s: seq<byte>)
    ensures |s| == n
    ensures forall k :: 0 <= k < n ==> s[k] == 0
  {
    seq(n, _ => 0)
  }

  /** The n low-order bytes of v, most significant first. */
  function BigEndian(v: nat, n: nat): (s: seq<byte>)
    ensures |s| == n
  {
    if n == 0 then [] else BigEndian(v / 256, n - 1) + [v % 256]
  }

  /** The number a big-endian byte string denotes. */
  function Value(s: seq<byte>): nat {
    if |s| == 0 then 0 else Value(s[..|s| - 1]) * 256 + s[|s| - 1]
  }

  /** A slice of s that lies inside the part c of s == a + c + d. */
  lemma SliceOf<T>(s: seq<T>, a: seq<T>, c: seq<T>, d: seq<T>, from: nat, to: nat, lo: nat, hi: nat)
    requires s == a + (c + d)
    requires lo <= hi <= |c| && from == |a| + lo && to == |a| + hi
    ensures to <= |s| && s[from..to] == c[lo..hi]
  {
  }

  lemma TakeTake<T>(s: seq<T>, j: nat, k: nat)
    requires j <= k <= |s|
    ensures s[..k][..j] == s[..j]
  {
  }

  lemma SliceLast<T>(s: seq<T>, p: seq<T>, e: seq<T>)
    requires p + e <= s
    ensures |p| + |e| <= |s| && s[|p|..|p| + |e|] == e
  {
    assert s[..|p| + |e|] == p + e;
    assert s[|p|..|p| + |e|] == (p + e)[|p|..];
  }

  /** A 32-byte ABI word. */
  function Word(v: nat): (s: seq<byte>)
    ensures |s| == 32
  {
    BigEndian(v, 32)
  }

  /** Go's readUint256 reads the low eight bytes of a word only. */
  function ReadUint256(b: seq<byte>): nat
    requires |b| >= 32
  {
    Value(b[24..32])
  }

  /** n rounded up to a multiple of 32. */
  function Ceil32(n: nat): (r: nat)
    ensures n <= r < n + 32 && r % 32 == 0
  {
    (n + 31) / 32 * 32
  }

  /** Go's int(v) for a uint64 v. */
  function ToInt(v: nat): int
    requires v < TWO_64
  {
    if v < TWO_63 then v else v - TWO_64
  }

  /** The value of a Go int expression whose exact value is x. */
  function WrapInt(x: int): (r: int)
    ensures -TWO_63 <= r < TWO_63
    ensures -TWO_63 <= x < TWO_63 ==> r == x
  {
    (x + TWO_63) % TWO_64 - TWO_63
  }

  function Power256(n: nat): (p: nat)
    ensures p > 0
  {
    if n == 0 then 1 else 256 * Power256(n - 1)
  }

  lemma Power256Of8()
    ensures Power256(8) == TWO_64
  {
    assert Power256(4) == 0x1_0000_0000;
  }

  lemma {:induction false} ValueOfBigEndian(v: nat, n: nat)
    requires v < Power256(n)
    ensures Value(BigEndian(v, n)) == v
  {
    if n > 0 {
      ValueOfBigEndian(v / 256, n - 1);
      assert BigEndian(v, n)[..n - 1] == BigEndian(v / 256, n - 1);
    }
  }

  lemma {:induction false} ValueBound(s: seq<byte>)
    ensures Value(s) < Power256(|s|)
  {
    if |s| > 0 {
      ValueBound(s[..|s| - 1]);
    }
  }

  lemma {:induction false} ValueSplit(a: seq<byte>, b: seq<byte>)
    ensures Value(a + b) == Value(a) * Power256(|b|) + Value(b)
  {
    if b == [] {
      assert a + b == a;
    } else {
      var init, last := b[..|b| - 1], b[|b| - 1];
      ValueSplit(a, init);
      assert (a + b)[..|a + b| - 1] == a + init;
      Shifted(Value(a), Power256(|init|), Value(init), last);
    }
  }

  lemma Shifted(v: nat, p: nat, w: nat, last: nat)
    ensures (v * p + w) * 256 + last == v * (256 * p) + (w * 256 + last)
  {
  }

  lemma {:induction false} ValueOfZeros(n: nat)
    ensures Value(Zeros(n)) == 0
  {
    if n > 0 {
      ValueOfZeros(n - 1);
      assert Zeros(n)[..n - 1] == Zeros(n - 1);
    }
  }

  lemma Power256Of20()
    ensures Power256(20) == TWO_160
  {
    Power256Of8();
    assert Power256(12) == 0x1_0000_0000 * TWO_64;
    assert Power256(16) == TWO_64 * TWO_64;
  }

  lemma {:induction false} BigEndianSplit(v: nat, n: nat, k: nat)
    requires v < Power256(k) && k <= n
    ensures BigEndian(v, n) == Zeros(n - k) + BigEndian(v, k)
  {
    if k == 0 {
      if n > 0 {
        BigEndianSplit(0, n - 1, 0);
      }
    } else {
      BigEndianSplit(v / 256, n - 1, k - 1);
    }
  }

  /** Within the uint64 range a word is what Go writes: 24 zero bytes, then eight. */
  lemma WordLayout(v: nat)
    requires v < TWO_64
    ensures Word(v) == Zeros(24) + BigEndian(v, 8)
  {
    Power256Of8();
    BigEndianSplit(v, 32, 8);
  }

  /** Reading a word back gives the number written, for every uint64. */
  lemma ReadWord(v: nat)
    requires v < TWO_64
    ensures ReadUint256(Word(v)) == v
  {
    Power256Of8();
    WordLayout(v);
    assert Word(v)[24..32] == BigEndian(v, 8);
    ValueOfBigEndian(v, 8);
  }

  /** readUint256 always yields a uint64. */
  lemma ReadUint256Bound(b: seq<byte>)
    requires |b| >= 32
    ensures ReadUint256(b) < TWO_64
  {
    Power256Of8();
    ValueBound(b[24..32]);
  }

  /** The word at offset i of s, as Go reads it. */
  function WordAt(s: seq<byte>, i: nat): (v: nat)
    requires i + 32 <= |s|
    ensures v < TWO_64
  {
    ReadUint256Bound(s[i..i + 32]);
    ReadUint256(s[i..i + 32])
  }

  lemma WordAtWritten(s: seq<byte>, i: nat, v: nat)
    requires i + 32 <= |s| && v < TWO_64 && s[i..i + 32] == Word(v)
    ensures WordAt(s, i) == v
  {
    ReadWord(v);
  }
}
