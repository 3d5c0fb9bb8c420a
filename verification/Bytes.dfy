/** Bytes, big-endian integers and the effect of writing a block of bytes at a file position. */
module ByteCodec {
  import opened Modular

  type byte = b: int | 0 <= b < 256

  function Pow256(w: nat): (p: nat)
    ensures p > 0
  {
    if w == 0 then 1 else 256 * Pow256(w - 1)
  }

  /** The `w` low-order bytes of `n`, most significant first. */
  function BigEndian(n: nat, w: nat): (s: seq<byte>)
    ensures |s| == w
  {
    if w == 0 then [] else BigEndian(n / 256, w - 1) + [n % 256]
  }

  function FromBigEndian(s: seq<byte>): nat {
    if |s| == 0 then 0 else 256 * FromBigEndian(s[..|s| - 1]) + s[|s| - 1]
  }

  /** Byte number `i` is the digit of its place, counted from the most significant one. */
  lemma {:induction false} DigitAt(n: nat, w: nat, i: nat)
    requires i < w
    ensures BigEndian(n, w)[i] == n / Pow256(w - 1 - i) % 256
  {
    if i == w - 1 {
    } else {
      DigitAt(n / 256, w - 1, i);
      DivTwice(n, 256, Pow256(w - 2 - i));
    }
  }

  lemma FourDigits(n: nat)
    ensures BigEndian(n, 4) == [n / 0x100_0000 % 256, n / 0x1_0000 % 256, n / 0x100 % 256, n % 256]
  {
    hide BigEndian;
    PowersOf256();
    DigitAt(n, 4, 0);
    DigitAt(n, 4, 1);
    DigitAt(n, 4, 2);
    DigitAt(n, 4, 3);
    assert Pow256(0) == 1;
  }

  /** Reading back a written integer keeps it modulo the width of the field. */
  lemma {:induction false} BigEndianRoundTrip(n: nat, w: nat)
    ensures FromBigEndian(BigEndian(n, w)) == n % Pow256(w)
  {
    if w == 0 {
    } else {
      var s := BigEndian(n, w);
      assert s[..w - 1] == BigEndian(n / 256, w - 1);
      BigEndianRoundTrip(n / 256, w - 1);
      DivModStep(n, Pow256(w - 1));
    }
  }

  lemma DivModStep(n: nat, p: nat)
    requires p > 0
    ensures 256 * ((n / 256) % p) + n % 256 == n % (256 * p)
  {
    var q, r := n / 256, n % 256;
    var a, b := q / p, q % p;
    assert n == 256 * (a * p + b) + r;
    assert 256 * (a * p) == a * (256 * p);
    ModUnique(n, 256 * p, a, 256 * b + r);
  }

  /** A number that fits the field survives, whatever the width. */
  lemma BigEndianExact(n: nat, w: nat)
    requires n < Pow256(w)
    ensures FromBigEndian(BigEndian(n, w)) == n
  {
    BigEndianRoundTrip(n, w);
    ModUnique(n, Pow256(w), 0, n);
  }

  lemma PowersOf256()
    ensures Pow256(1) == 0x100 && Pow256(2) == 0x1_0000 && Pow256(3) == 0x100_0000
    ensures Pow256(4) == 0x1_0000_0000
    ensures Pow256(8) == 0x1_0000_0000_0000_0000
  {
    assert Pow256(1) == 256 * Pow256(0);
    assert Pow256(2) == 256 * Pow256(1);
    assert Pow256(3) == 256 * Pow256(2);
    assert Pow256(4) == 256 * Pow256(3);
    assert Pow256(5) == 256 * Pow256(4);
    assert Pow256(6) == 256 * Pow256(5);
    assert Pow256(7) == 256 * Pow256(6);
  }

  function Zeros(n: nat): (s: seq<byte>)
    ensures |s| == n && forall i :: 0 <= i < n ==> s[i] == 0
  {
    seq(n, i => 0)
  }

  /** File contents after writing block `b` at position `p`; a gap before `p` reads as zeros. */
  function Splice(d: seq<byte>, p: nat, b: seq<byte>): seq<byte> {
    if b == [] then d
    else if |d| < p + |b| then Padded(d, p) + b
    else d[..p] + b + d[p + |b|..]
  }

  function Padded(d: seq<byte>, p: nat): (r: seq<byte>)
    ensures |r| == p
  {
    if |d| < p then d + Zeros(p - |d|) else d[..p]
  }

  /** What a write changes and what it leaves alone. */
  lemma SpliceAt(d: seq<byte>, p: nat, b: seq<byte>)
    ensures var r := Splice(d, p, b);
            && (b != [] ==> |r| == (if |d| < p + |b| then p + |b| else |d|) && r[p..p + |b|] == b)
            && (forall i :: 0 <= i < |d| && !(p <= i < p + |b|) ==> i < |r| && r[i] == d[i])
  {
  }

  lemma SpliceIndex(d: seq<byte>, p: nat, b: seq<byte>, i: nat)
    requires b != [] && i < |Splice(d, p, b)|
    ensures Splice(d, p, b)[i]
         == if p <= i < p + |b| then b[i - p] else if i < |d| then d[i] else 0
  {
  }

  /** Two writes one after the other are one write of the joined block. */
  lemma SpliceAppend(d: seq<byte>, p: nat, a: seq<byte>, b: seq<byte>)
    ensures Splice(Splice(d, p, a), p + |a|, b) == Splice(d, p, a + b)
  {
    if a == [] {
      assert a + b == b;
    } else if b == [] {
      assert a + b == a;
    } else {
      hide Splice;
      var m := Splice(d, p, a);
      var l, r := Splice(m, p + |a|, b), Splice(d, p, a + b);
      SpliceLength(d, p, a);
      SpliceLength(m, p + |a|, b);
      SpliceLength(d, p, a + b);
      forall i | 0 <= i < |l| ensures l[i] == r[i] {
        SpliceTwice(d, p, a, b, i);
        SpliceIndex(d, p, a + b, i);
      }
    }
  }

  lemma SpliceTwice(d: seq<byte>, p: nat, a: seq<byte>, b: seq<byte>, i: nat)
    requires a != [] && b != [] && i < |Splice(Splice(d, p, a), p + |a|, b)|
    ensures Splice(Splice(d, p, a), p + |a|, b)[i]
         == if p <= i < p + |a| then a[i - p] else if p + |a| <= i < p + |a| + |b| then b[i - p - |a|]
            else if i < |d| then d[i] else 0
  {
    hide Splice;
    var m := Splice(d, p, a);
    SpliceLength(d, p, a);
    SpliceLength(m, p + |a|, b);
    SpliceIndex(m, p + |a|, b, i);
    if i < |m| {
      SpliceIndex(d, p, a, i);
    }
  }

  lemma SpliceLength(d: seq<byte>, p: nat, b: seq<byte>)
    requires b != []
    ensures |Splice(d, p, b)| == if |d| < p + |b| then p + |b| else |d|
  {
  }

  /** Overwriting the middle of a written block gives the block with its middle replaced. */
  lemma SplicePatch(d: seq<byte>, p: nat, a: seq<byte>, b: seq<byte>, b': seq<byte>, c: seq<byte>)
    requires |b| == |b'|
    ensures Splice(Splice(d, p, a + b + c), p + |a|, b') == Splice(d, p, a + b' + c)
  {
    if b != [] {
      SpliceOver(d, p, a + b + c, a + b' + c, |a|, b');
    }
  }

  /** The blocks `x` and `y` differ at most where `b` is, `k` bytes into them. */
  lemma SpliceOver(d: seq<byte>, p: nat, x: seq<byte>, y: seq<byte>, k: nat, b: seq<byte>)
    requires |x| == |y| && k + |b| <= |x| && b != []
    requires forall j :: 0 <= j < |x| && !(k <= j < k + |b|) ==> x[j] == y[j]
    requires forall j :: 0 <= j < |b| ==> y[k + j] == b[j]
    ensures Splice(Splice(d, p, x), p + k, b) == Splice(d, p, y)
  {
    hide Splice;
    var m := Splice(d, p, x);
    var l, r := Splice(m, p + k, b), Splice(d, p, y);
    SpliceLength(d, p, x);
    SpliceLength(m, p + k, b);
    SpliceLength(d, p, y);
    forall i | 0 <= i < |l| ensures l[i] == r[i] {
      SpliceIndex(m, p + k, b, i);
      SpliceIndex(d, p, x, i);
      SpliceIndex(d, p, y, i);
      if p + k <= i < p + k + |b| {
        assert y[k + (i - p - k)] == b[i - p - k];
      }
    }
  }

  /** A part of a block found in a longer sequence. */
  lemma SubSlice<T>(d: seq<T>, pos: nat, b: seq<T>, i: nat, j: nat)
    requires i <= j <= |b| && pos + |b| <= |d| && d[pos..pos + |b|] == b
    ensures d[pos + i..pos + j] == b[i..j]
  {
    forall k | 0 <= k < j - i ensures d[pos + i..pos + j][k] == b[i..j][k] {
      assert d[pos..pos + |b|][i + k] == d[pos + i + k];
    }
  }
}
