/** Numbers as bits, most significant first, and the four-byte length of a descriptor. */
module Bits {
  import opened Wrappers
  import opened ByteCodec
  import opened Modular

  function Pow2(w: nat): (p: nat)
    ensures p > 0
  {
    if w == 0 then 1 else 2 * Pow2(w - 1)
  }

  function ToBits(n: nat, w: nat): (s: seq<bool>)
    ensures |s| == w
  {
    if w == 0 then [] else ToBits(n / 2, w - 1) + [n % 2 == 1]
  }

  function FromBits(s: seq<bool>): nat {
    if s == [] then 0 else 2 * FromBits(s[..|s| - 1]) + (if s[|s| - 1] then 1 else 0)
  }

  lemma {:induction false} BitsExact(n: nat, w: nat)
    requires n < Pow2(w)
    ensures FromBits(ToBits(n, w)) == n
  {
    if w == 0 {
    } else {
      BitsExact(n / 2, w - 1);
      assert ToBits(n, w)[..w - 1] == ToBits(n / 2, w - 1);
    }
  }

  /** Bit number `i` is the digit of its place, counted from the most significant one. */
  lemma {:induction false} BitAt(n: nat, w: nat, i: nat)
    requires i < w
    ensures ToBits(n, w)[i] <==> n / Pow2(w - 1 - i) % 2 == 1
  {
    if i == w - 1 {
    } else {
      BitAt(n / 2, w - 1, i);
      DivTwice(n, 2, Pow2(w - 2 - i));
    }
  }

  lemma {:induction false} FromBitsBound(s: seq<bool>)
    ensures FromBits(s) < Pow2(|s|)
  {
    if s == [] {
    } else {
      FromBitsBound(s[..|s| - 1]);
    }
  }

  lemma SmallPowers()
    ensures Pow2(1) == 2 && Pow2(4) == 16 && Pow2(5) == 32 && Pow2(7) == 128 && Pow2(8) == 256
    ensures Pow2(10) == 1024 && Pow2(16) == 0x1_0000
  {
    assert Pow2(1) == 2 * Pow2(0);
    assert Pow2(2) == 2 * Pow2(1);
    assert Pow2(3) == 2 * Pow2(2);
    assert Pow2(4) == 2 * Pow2(3);
    assert Pow2(6) == 2 * Pow2(5);
    assert Pow2(8) == 2 * Pow2(7);
    assert Pow2(10) == 2 * Pow2(9);
    assert Pow2(16) == 64 * Pow2(10);
  }

  /** A byte string as bits. */
  function BytesBits(s: seq<byte>): (r: seq<bool>)
    ensures |r| == 8 * |s|
  {
    if s == [] then [] else ToBits(s[0], 8) + BytesBits(s[1..])
  }

  function BitsBytes(s: seq<bool>): seq<byte> {
    if |s| < 8 then [] else [FromBits(s[..8]) % 256] + BitsBytes(s[8..])
  }

  lemma {:induction false} BytesExact(s: seq<byte>)
    ensures BitsBytes(BytesBits(s)) == s
  {
    hide ToBits, FromBits;
    if s == [] {
    } else {
      SmallPowers();
      BitsExact(s[0], 8);
      BytesExact(s[1..]);
      assert BytesBits(s)[..8] == ToBits(s[0], 8) && BytesBits(s)[8..] == BytesBits(s[1..]);
    }
  }

  /** Four groups of seven bits, each but the last marked as continued. */
  function LengthBits(n: nat): (s: seq<bool>)
    ensures |s| == 32
  {
    [true] + ToBits(n / 0x20_0000, 7) + ([true] + ToBits(n / 0x4000, 7))
    + ([true] + ToBits(n / 0x80, 7)) + ([false] + ToBits(n, 7))
  }

  /** A length of up to four groups; with the position behind it. */
  function ParseLength(d: seq<bool>, pos: nat, sofar: nat, groups: nat): (r: Option<(nat, nat)>)
    requires groups <= 3
    ensures r.Some? ==> r.value.1 > pos
    decreases 4 - groups
  {
    if pos + 8 > |d| then None
    else
      var n := sofar * 128 + FromBits(d[pos + 1..pos + 8]);
      if d[pos] && groups < 3 then ParseLength(d, pos + 8, n, groups + 1) else Some((n, pos + 8))
  }

  lemma {:induction false} LowBits(n: nat, w: nat)
    ensures FromBits(ToBits(n, w)) == n % Pow2(w)
  {
    if w == 0 {
    } else {
      LowBits(n / 2, w - 1);
      assert ToBits(n, w)[..w - 1] == ToBits(n / 2, w - 1);
      HalfMod(n, Pow2(w - 1));
    }
  }

  lemma HalfMod(n: nat, p: nat)
    requires p > 0
    ensures 2 * ((n / 2) % p) + n % 2 == n % (2 * p)
  {
    var q := n / 2;
    var a, b := q / p, q % p;
    assert n == 2 * (a * p + b) + n % 2;
    assert 2 * (a * p) == a * (2 * p);
    ModUnique(n, 2 * p, a, 2 * b + n % 2);
  }

  lemma {:induction false} LengthStep(d: seq<bool>, pos: nat, sofar: nat, groups: nat, bits: seq<bool>, more: bool)
    requires groups <= 3 && |bits| == 7 && pos + 8 <= |d| && d[pos..pos + 8] == [more] + bits
    ensures ParseLength(d, pos, sofar, groups)
         == var n := sofar * 128 + FromBits(bits);
            if more && groups < 3 then ParseLength(d, pos + 8, n, groups + 1) else Some((n, pos + 8))
  {
    assert d[pos] == d[pos..pos + 8][0] && d[pos + 1..pos + 8] == d[pos..pos + 8][1..];
  }

  lemma Groups(n: nat)
    requires n <= 0x0FFF_FFFF
    ensures n / 0x20_0000 < 128
    ensures ((n / 0x20_0000 * 128 + n / 0x4000 % 128) * 128 + n / 0x80 % 128) * 128 + n % 128 == n
  {
    var m := n / 0x80;
    var l := m / 0x80;
    assert l == n / 0x4000 && l / 0x80 == n / 0x20_0000;
    assert n == m * 128 + n % 128 && m == l * 128 + m % 128 && l == l / 128 * 128 + l % 128;
  }

  lemma LengthGroups(n: nat, d: seq<bool>, pos: nat)
    requires pos + 32 <= |d| && d[pos..pos + 32] == LengthBits(n)
    ensures d[pos..pos + 8] == [true] + ToBits(n / 0x20_0000, 7)
    ensures d[pos + 8..pos + 16] == [true] + ToBits(n / 0x4000, 7)
    ensures d[pos + 16..pos + 24] == [true] + ToBits(n / 0x80, 7)
    ensures d[pos + 24..pos + 32] == [false] + ToBits(n, 7)
  {
    hide ToBits;
    var s := LengthBits(n);
    SubSlice(d, pos, s, 0, 8);
    SubSlice(d, pos, s, 8, 16);
    SubSlice(d, pos, s, 16, 24);
    SubSlice(d, pos, s, 24, 32);
  }

  /** A number as digits of seven bits, behind those already read. */
  function InGroups(sofar: nat, gs: seq<nat>): nat
    decreases gs
  {
    if gs == [] then sofar else InGroups(sofar * 128 + gs[0], gs[1..])
  }

  /** One to four groups are a length, the last of them the one that is not continued. */
  lemma {:induction false} LengthOfGroups(gs: seq<nat>, d: seq<bool>, pos: nat, sofar: nat, groups: nat)
    requires gs != [] && groups + |gs| <= 4 && pos + 8 * |gs| <= |d|
    requires forall i :: 0 <= i < |gs| ==> gs[i] < 128
    requires forall i :: 0 <= i < |gs| ==> d[pos + 8 * i..pos + 8 * i + 8] == [i + 1 < |gs|] + ToBits(gs[i], 7)
    ensures ParseLength(d, pos, sofar, groups) == Some((InGroups(sofar, gs), pos + 8 * |gs|))
    decreases gs
  {
    hide FromBits, ToBits, ParseLength;
    SmallPowers();
    BitsExact(gs[0], 7);
    assert d[pos + 8 * 0..pos + 8 * 0 + 8] == [1 < |gs|] + ToBits(gs[0], 7);
    LengthStep(d, pos, sofar, groups, ToBits(gs[0], 7), 1 < |gs|);
    var n, rest := sofar * 128 + gs[0], gs[1..];
    if rest == [] {
      assert InGroups(sofar, gs) == InGroups(n, []);
    } else {
      forall i | 0 <= i < |rest|
        ensures d[pos + 8 + 8 * i..pos + 8 + 8 * i + 8] == [i + 1 < |rest|] + ToBits(rest[i], 7)
      {
        assert d[pos + 8 * (i + 1)..pos + 8 * (i + 1) + 8] == [i + 2 < |gs|] + ToBits(gs[i + 1], 7);
      }
      LengthOfGroups(rest, d, pos + 8, n, groups + 1);
    }
  }

  /** The four-byte form is read back, for lengths below 2^28. */
  lemma LengthRoundTrip(n: nat, d: seq<bool>, pos: nat)
    requires n <= 0x0FFF_FFFF && pos + 32 <= |d| && d[pos..pos + 32] == LengthBits(n)
    ensures ParseLength(d, pos, 0, 0) == Some((n, pos + 32))
  {
    hide FromBits, ToBits, ParseLength, Pow2, LengthBits;
    var a, b, c, e := ToBits(n / 0x20_0000, 7), ToBits(n / 0x4000, 7), ToBits(n / 0x80, 7), ToBits(n, 7);
    SmallPowers();
    LowBits(n / 0x20_0000, 7);
    LowBits(n / 0x4000, 7);
    LowBits(n / 0x80, 7);
    LowBits(n, 7);
    Groups(n);
    LengthGroups(n, d, pos);
    LengthStep(d, pos, 0, 0, a, true);
    LengthStep(d, pos + 8, FromBits(a), 1, b, true);
    LengthStep(d, pos + 16, FromBits(a) * 128 + FromBits(b), 2, c, true);
    LengthStep(d, pos + 24, (FromBits(a) * 128 + FromBits(b)) * 128 + FromBits(c), 3, e, false);
  }
}
