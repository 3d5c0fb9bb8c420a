/** Where the fields of a descriptor stand in its bytes, and which tags go into which list. */
module DescriptorBytes {
  import opened Wrappers
  import opened ByteCodec
  import opened Bits
  import opened Descriptors

  // ---------------------------------------------------------------- bits side by side

  /** Two numbers side by side are one number of both widths. */
  lemma {:induction false} SideBySide(a: nat, w: nat, b: nat, v: nat)
    requires b < Pow2(v)
    ensures ToBits(a, w) + ToBits(b, v) == ToBits(a * Pow2(v) + b, w + v)
  {
    if v == 0 {
      assert ToBits(a, w) + [] == ToBits(a, w);
    } else {
      var n := a * Pow2(v) + b;
      assert a * Pow2(v) == 2 * (a * Pow2(v - 1));
      SideBySide(a, w, b / 2, v - 1);
      assert n / 2 == a * Pow2(v - 1) + b / 2 && n % 2 == b % 2;
      assert ToBits(a, w) + ToBits(b, v) == ToBits(a, w) + ToBits(b / 2, v - 1) + [b % 2 == 1];
    }
  }

  lemma TwoBytes(n: nat)
    requires n < 0x1_0000
    ensures ToBits(n, 16) == ToBits(n / 256, 8) + ToBits(n % 256, 8)
  {
    hide ToBits;
    SmallPowers();
    SideBySide(n / 256, 8, n % 256, 8);
  }

  lemma OneMore(b: byte, s: seq<byte>)
    ensures BytesBits([b] + s) == ToBits(b, 8) + BytesBits(s)
  {
    assert ([b] + s)[1..] == s;
  }

  lemma {:induction false} BytesConcat(s: seq<byte>, t: seq<byte>)
    ensures BytesBits(s + t) == BytesBits(s) + BytesBits(t)
  {
    hide ToBits;
    if s == [] {
      assert s + t == t;
    } else {
      BytesConcat(s[1..], t);
      assert (s + t)[1..] == s[1..] + t;
    }
  }

  /** The length as four bytes: seven bits each, all but the last with the top bit set. */
  lemma LengthBytes(n: nat)
    requires n <= MAX_LENGTH
    ensures var s: seq<byte> := [128 + n / 0x20_0000, 128 + n / 0x4000 % 128, 128 + n / 0x80 % 128, n % 128];
            LengthBits(n) == BytesBits(s)
  {
    hide ToBits;
    Continued(n / 0x20_0000, true);
    Continued(n / 0x4000, true);
    Continued(n / 0x80, true);
    Continued(n, false);
    var a: byte, b: byte := 128 + n / 0x20_0000, 128 + n / 0x4000 % 128;
    var c: byte, e: byte := 128 + n / 0x80 % 128, n % 128;
    OneMore(e, []);
    OneMore(c, [e]);
    OneMore(b, [c, e]);
    OneMore(a, [b, c, e]);
    assert [c] + [e] == [c, e] && [b] + [c, e] == [b, c, e] && [a] + [b, c, e] == [a, b, c, e];
  }

  lemma Continued(n: nat, more: bool)
    ensures [more] + ToBits(n, 7) == ToBits((if more then 128 else 0) + n % 128, 8)
  {
    SmallPowers();
    LowSeven(n);
    var f := if more then 1 else 0;
    assert ToBits(f, 1) == ToBits(f / 2, 0) + [more];
    SideBySide(f, 1, n % 128, 7);
  }

  lemma {:induction false} LowSeven(n: nat)
    ensures ToBits(n, 7) == ToBits(n % 128, 7)
  {
    SameLowBits(n, n % 128, 7);
  }

  lemma {:induction false} SameLowBits(n: nat, m: nat, w: nat)
    requires n % Pow2(w) == m % Pow2(w)
    ensures ToBits(n, w) == ToBits(m, w)
  {
    if w == 0 {
    } else {
      HalfMod(n, Pow2(w - 1));
      HalfMod(m, Pow2(w - 1));
      SameLowBits(n / 2, m / 2, w - 1);
    }
  }

  // ---------------------------------------------------------------- the fields before the lists

  function Short(v: Value): seq<byte> {
    if v.Num? then [v.n / 256 % 256, v.n % 256] else []
  }

  function Octet(v: Value): seq<byte> {
    if v.Num? then [v.n % 256] else []
  }

  function Location(v: Value): seq<byte> {
    if v.Text? then [|v.s| % 256] + v.s else []
  }

  function Number(v: Value): nat {
    if v.Num? then v.n else 0
  }

  /** How many fields a descriptor has, and how many of them are in front of the lists. */
  function Count(k: Kind): nat {
    match k case InitialObject => 14 case Object => 8 case Stream => 17
  }

  function InFront(k: Kind): nat {
    match k case InitialObject => 10 case Object => 4 case Stream => 8
  }

  lemma Counts(k: Kind)
    ensures |Fields(k)| == Count(k) && |PlainFields(k)| == InFront(k)
  {
  }

  /** The bytes in front of the lists, field by field. */
  function FrontBytes(k: Kind, vs: seq<Value>): seq<byte>
    requires |vs| == Count(k)
  {
    match k
    case InitialObject =>
      var (id, url, inline, reserved) := (Number(vs[0]), Number(vs[1]), Number(vs[2]), Number(vs[3]));
      [id / 4 % 256, (id % 4 * 64 + url * 32 + inline * 16 + reserved) % 256]
      + ((Location(vs[4]) + Octet(vs[5]) + Octet(vs[6])) + (Octet(vs[7]) + Octet(vs[8]) + Octet(vs[9])))
    case Object =>
      var (id, url, reserved) := (Number(vs[0]), Number(vs[1]), Number(vs[2]));
      [id / 4 % 256, (id % 4 * 64 + url * 32 + reserved) % 256] + Location(vs[3])
    case Stream =>
      var (dependence, url, ocr, priority) := (Number(vs[1]), Number(vs[2]), Number(vs[3]), Number(vs[4]));
      Short(vs[0]) + [(dependence * 128 + url * 64 + ocr * 32 + priority) % 256]
      + (Short(vs[5]) + Location(vs[6]) + Short(vs[7]))
  }

  /** A descriptor in a list: its tag, its length in four bytes, its contents. */
  function PartBytes(p: Part): seq<byte> {
    [p.tag] + LengthOf(|p.body|) + p.body
  }

  function LengthOf(n: nat): seq<byte> {
    [128 + n / 0x20_0000 % 128, 128 + n / 0x4000 % 128, 128 + n / 0x80 % 128, n % 128]
  }

  function PartsBytes(ps: seq<Part>): seq<byte> {
    if ps == [] then [] else PartBytes(ps[0]) + PartsBytes(ps[1..])
  }

  /** The lists one after the other. */
  function ListsBytes(vs: seq<Value>): seq<byte> {
    if vs == [] then [] else (if vs[0].Parts? then PartsBytes(vs[0].ds) else []) + ListsBytes(vs[1..])
  }

  /** Tag, length and contents. */
  function DescriptorOf(k: Kind, vs: seq<Value>): seq<byte>
    requires |vs| == Count(k)
  {
    var tag: byte := match k case InitialObject => 0x10 case Object => 0x11 case Stream => 0x03;
    var body := FrontBytes(k, vs) + ListsBytes(vs[InFront(k)..]);
    [tag] + (LengthOf(|body|) + body)
  }

  // ---------------------------------------------------------------- they are what is written

  lemma ByteField(f: Field, v: Value, implicit: bool)
    requires Holds(f, v, implicit)
    ensures f == Bitfield(16) ==> ValueBits(f, v) == BytesBits(Short(v))
    ensures f == Bitfield(8) ==> ValueBits(f, v) == BytesBits(Octet(v))
    ensures f == Counted ==> ValueBits(f, v) == BytesBits(Location(v))
  {
    hide ToBits;
    SmallPowers();
    if v.Num? && f == Bitfield(16) {
      TwoBytes(v.n);
      OneMore(v.n % 256, []);
      OneMore(v.n / 256, [v.n % 256]);
      assert [v.n / 256] + [v.n % 256] == Short(v);
    } else if v.Num? && f == Bitfield(8) {
      OneMore(v.n, []);
      assert [v.n] + [] == Octet(v);
    } else if v.Text? && f == Counted {
      OneMore(|v.s|, v.s);
    }
  }

  lemma BitsCons(f: Field, fs: seq<Field>, v: Value, vs: seq<Value>)
    requires |fs| == |vs|
    ensures ValuesBits([f] + fs, [v] + vs) == ValueBits(f, v) + ValuesBits(fs, vs)
  {
    hide ValueBits;
    assert ([f] + fs)[1..] == fs && ([v] + vs)[1..] == vs;
  }

  /** The bytes of fields that are whole bytes. */
  function FieldBytes(f: Field, v: Value): seq<byte> {
    if f == Bitfield(16) then Short(v) else if f == Bitfield(8) then Octet(v) else Location(v)
  }

  function FieldsBytes(fs: seq<Field>, vs: seq<Value>): seq<byte>
    requires |fs| == |vs|
  {
    if fs == [] then [] else FieldBytes(fs[0], vs[0]) + FieldsBytes(fs[1..], vs[1..])
  }

  lemma {:induction false} ByteFields(fs: seq<Field>, vs: seq<Value>, mask: seq<bool>)
    requires AllHold(fs, vs, mask)
    requires forall i :: 0 <= i < |fs| ==> fs[i] in {Bitfield(8), Bitfield(16), Counted}
    ensures ValuesBits(fs, vs) == BytesBits(FieldsBytes(fs, vs))
  {
    hide Holds, FieldBytes, ValueBits;
    if fs == [] {
    } else {
      assert FieldBytes(fs[0], vs[0]) == if fs[0] == Bitfield(16) then Short(vs[0])
        else if fs[0] == Bitfield(8) then Octet(vs[0]) else Location(vs[0]) by {
        OneField(fs[0], vs[0]);
      }
      ByteField(fs[0], vs[0], mask[0]);
      ByteFields(fs[1..], vs[1..], mask[1..]);
      BytesConcat(FieldBytes(fs[0], vs[0]), FieldsBytes(fs[1..], vs[1..]));
    }
  }

  lemma OneField(f: Field, v: Value)
    ensures FieldBytes(f, v)
         == if f == Bitfield(16) then Short(v) else if f == Bitfield(8) then Octet(v) else Location(v)
  {
  }

  lemma OfThree(f: Field, g: Field, h: Field, u: Value, v: Value, w: Value)
    ensures FieldsBytes([f, g, h], [u, v, w]) == FieldBytes(f, u) + FieldBytes(g, v) + FieldBytes(h, w)
    ensures ValuesBits([f, g, h], [u, v, w]) == ValueBits(f, u) + ValueBits(g, v) + ValueBits(h, w)
  {
    hide FieldBytes, ValueBits;
    assert [f, g, h][1..] == [g, h] && [g, h][1..] == [h] && [u, v, w][1..] == [v, w] && [v, w][1..] == [w];
    assert [h][1..] == [] && [w][1..] == [];
    assert FieldsBytes([h], [w]) == FieldBytes(h, w);
    assert ValuesBits([h], [w]) == ValueBits(h, w);
    assert FieldsBytes([g, h], [v, w]) == FieldBytes(g, v) + FieldBytes(h, w);
    assert ValuesBits([g, h], [v, w]) == ValueBits(g, v) + ValueBits(h, w);
  }

  lemma {:induction false} BytesOfConcat(a: seq<Field>, b: seq<Field>, va: seq<Value>, vb: seq<Value>)
    requires |a| == |va| && |b| == |vb|
    ensures FieldsBytes(a + b, va + vb) == FieldsBytes(a, va) + FieldsBytes(b, vb)
  {
    hide FieldBytes;
    if a == [] {
      assert a + b == b && va + vb == vb;
    } else {
      assert (a + b)[1..] == a[1..] + b && (va + vb)[1..] == va[1..] + vb;
      BytesOfConcat(a[1..], b, va[1..], vb);
    }
  }

  /** The numbers of a stream descriptor that share a byte. */
  lemma StreamFlags(a: nat, b: nat, c: nat, e: nat)
    requires a < 2 && b < 2 && c < 2 && e < 32
    ensures ToBits(a, 1) + ToBits(b, 1) + ToBits(c, 1) + ToBits(e, 5) == ToBits(a * 128 + b * 64 + c * 32 + e, 8)
  {
    hide ToBits;
    SmallPowers();
    SideBySide(a, 1, b, 1);
    SideBySide(a * 2 + b, 2, c, 1);
    SideBySide((a * 2 + b) * 2 + c, 3, e, 5);
  }

  /** The numbers of the object descriptors that share two bytes. */
  lemma ObjectFlags(id: nat, url: nat, rest: nat)
    requires id < 1024 && url < 2 && rest < 32
    ensures ToBits(id, 10) + ToBits(url, 1) + ToBits(rest, 5)
         == ToBits(id / 4, 8) + ToBits(id % 4 * 64 + url * 32 + rest, 8)
  {
    hide ToBits;
    SmallPowers();
    SideBySide(id, 10, url, 1);
    SideBySide(id * 2 + url, 11, rest, 5);
    var n := (id * 2 + url) * 32 + rest;
    TwoBytes(n);
    assert n / 256 == id / 4 && n % 256 == id % 4 * 64 + url * 32 + rest;
  }

  lemma InlineFlag(inline: nat, reserved: nat)
    requires inline < 2 && reserved < 16
    ensures ToBits(inline, 1) + ToBits(reserved, 4) == ToBits(inline * 16 + reserved, 5)
  {
    hide ToBits;
    SmallPowers();
    SideBySide(inline, 1, reserved, 4);
  }

  lemma OfFour(e: Field, f: Field, g: Field, h: Field, t: Value, u: Value, v: Value, w: Value)
    ensures ValuesBits([e, f, g, h], [t, u, v, w])
         == ValueBits(e, t) + ValueBits(f, u) + ValueBits(g, v) + ValueBits(h, w)
  {
    hide ValueBits;
    OfThree(f, g, h, u, v, w);
    BitsCons(e, [f, g, h], t, [u, v, w]);
    assert [e] + [f, g, h] == [e, f, g, h] && [t] + [u, v, w] == [t, u, v, w];
  }

  lemma PackedBits(v: Value, w: nat)
    requires Holds(Bitfield(w), v, false)
    ensures v.Num? && v.n < Pow2(w) && ValueBits(Bitfield(w), v) == ToBits(v.n, w)
  {
  }

  lemma TwoInFront(a: byte, b: byte, s: seq<byte>)
    ensures BytesBits([a, b] + s) == ToBits(a, 8) + ToBits(b, 8) + BytesBits(s)
  {
    OneMore(b, s);
    OneMore(a, [b] + s);
    assert [a] + ([b] + s) == [a, b] + s;
  }

  lemma JustTwo(a: byte, b: byte)
    ensures BytesBits([a, b]) == ToBits(a, 8) + ToBits(b, 8)
  {
    TwoInFront(a, b, []);
    assert [a, b] + [] == [a, b];
  }

  lemma StreamPacked(a: Value, b: Value, c: Value, d: Value, e: Value)
    requires Holds(Bitfield(16), a, false) && Holds(Bitfield(1), b, false) && Holds(Bitfield(1), c, false)
    requires Holds(Bitfield(1), d, false) && Holds(Bitfield(5), e, false)
    ensures var flags := Number(b) * 128 + Number(c) * 64 + Number(d) * 32 + Number(e);
            && flags < 256
            && ValuesBits([Bitfield(16), Bitfield(1), Bitfield(1), Bitfield(1), Bitfield(5)], [a, b, c, d, e])
               == BytesBits(Short(a) + [flags])
  {
    hide ValueBits, ToBits, Holds, ValuesBits;
    SmallPowers();
    PackedBits(b, 1);
    PackedBits(c, 1);
    PackedBits(d, 1);
    PackedBits(e, 5);
    ByteField(Bitfield(16), a, false);
    var fs, vs := [Bitfield(1), Bitfield(1), Bitfield(1), Bitfield(5)], [b, c, d, e];
    OfFour(Bitfield(1), Bitfield(1), Bitfield(1), Bitfield(5), b, c, d, e);
    BitsCons(Bitfield(16), fs, a, vs);
    assert [Bitfield(16)] + fs == [Bitfield(16), Bitfield(1), Bitfield(1), Bitfield(1), Bitfield(5)];
    assert [a] + vs == [a, b, c, d, e];
    StreamFlags(b.n, c.n, d.n, e.n);
    var flags: byte := b.n * 128 + c.n * 64 + d.n * 32 + e.n;
    BytesConcat(Short(a), [flags]);
    OneMore(flags, []);
    assert [flags] + [] == [flags];
  }

  lemma ObjectPacked(a: Value, b: Value, c: Value)
    requires Holds(Bitfield(10), a, false) && Holds(Bitfield(1), b, false) && Holds(Bitfield(5), c, false)
    ensures var hi, lo := Number(a) / 4, Number(a) % 4 * 64 + Number(b) * 32 + Number(c);
            && hi < 256 && lo < 256
            && ValuesBits([Bitfield(10), Bitfield(1), Bitfield(5)], [a, b, c]) == BytesBits([hi, lo])
  {
    hide ValueBits, ToBits, Holds, ValuesBits;
    SmallPowers();
    PackedBits(a, 10);
    PackedBits(b, 1);
    PackedBits(c, 5);
    OfThree(Bitfield(10), Bitfield(1), Bitfield(5), a, b, c);
    ObjectFlags(a.n, b.n, c.n);
    JustTwo(a.n / 4, a.n % 4 * 64 + b.n * 32 + c.n);
  }

  lemma InitialPacked(a: Value, b: Value, c: Value, d: Value)
    requires Holds(Bitfield(10), a, false) && Holds(Bitfield(1), b, false)
    requires Holds(Bitfield(1), c, false) && Holds(Bitfield(4), d, false)
    ensures var hi, lo := Number(a) / 4, Number(a) % 4 * 64 + Number(b) * 32 + Number(c) * 16 + Number(d);
            && hi < 256 && lo < 256
            && ValuesBits([Bitfield(10), Bitfield(1), Bitfield(1), Bitfield(4)], [a, b, c, d]) == BytesBits([hi, lo])
  {
    hide ValueBits, ToBits, Holds, ValuesBits;
    SmallPowers();
    PackedBits(a, 10);
    PackedBits(b, 1);
    PackedBits(c, 1);
    PackedBits(d, 4);
    OfFour(Bitfield(10), Bitfield(1), Bitfield(1), Bitfield(4), a, b, c, d);
    InlineFlag(c.n, d.n);
    ObjectFlags(a.n, b.n, c.n * 16 + d.n);
    JustTwo(a.n / 4, a.n % 4 * 64 + b.n * 32 + (c.n * 16 + d.n));
  }

  /** The fields in front of the lists: those that share bytes, and those that are bytes. */
  lemma {:induction false} TwoKinds(k: Kind, vs: seq<Value>)
    requires WellFormed(k, vs)
    ensures var g, p, fs := Packed(k), |PlainFields(k)|, PlainFields(k);
            && g <= p <= |vs|
            && (forall i :: 0 <= i < g ==> Holds(fs[i], vs[i], false))
            && ValuesBits(fs, vs[..p]) == ValuesBits(fs[..g], vs[..g]) + BytesBits(FieldsBytes(fs[g..], vs[g..p]))
  {
    hide Holds, SubFields, ValuesBits, FieldsBytes, Mask, Packed, PlainFields;
    PackedInBytes(k);
    NeverImplicit(k, vs);
    ByteSized(k);
    var g, p, fs, mask := Packed(k), |PlainFields(k)|, PlainFields(k), Mask(k, vs);
    assert forall i :: 0 <= i < p ==> Fields(k)[i] == fs[i];
    HoldPart(Fields(k), vs, mask, g, p);
    assert Fields(k)[g..p] == fs[g..];
    ByteFields(fs[g..], vs[g..p], mask[g..p]);
    BitsConcat(fs[..g], fs[g..], vs[..g], vs[g..p]);
    assert fs[..g] + fs[g..] == fs && vs[..g] + vs[g..p] == vs[..p];
  }

  lemma ByteSized(k: Kind)
    ensures Packed(k) <= |PlainFields(k)|
    ensures forall i :: Packed(k) <= i < |PlainFields(k)| ==> PlainFields(k)[i] in {Bitfield(8), Bitfield(16), Counted}
  {
  }

  lemma StreamTable()
    ensures var fs, o := PlainFields(Stream), Bitfield(16);
            && |fs| == 8 && Packed(Stream) == 5 && |Fields(Stream)| == 17
            && fs[..5] == [o, Bitfield(1), Bitfield(1), Bitfield(1), Bitfield(5)] && fs[5..] == [o, Counted, o]
            && fs[0] == o && fs[1] == fs[2] == fs[3] == Bitfield(1) && fs[4] == Bitfield(5)
  {
  }

  lemma ObjectTable()
    ensures var fs := PlainFields(Object);
            && |fs| == 4 && Packed(Object) == 3 && |Fields(Object)| == 8
            && fs[..3] == [Bitfield(10), Bitfield(1), Bitfield(5)] && fs[3..] == [Counted]
            && fs[0] == Bitfield(10) && fs[1] == Bitfield(1) && fs[2] == Bitfield(5)
  {
  }

  lemma InitialTable()
    ensures var fs, o := PlainFields(InitialObject), Bitfield(8);
            && |fs| == 10 && Packed(InitialObject) == 4 && |Fields(InitialObject)| == 14
            && fs[..4] == [Bitfield(10), Bitfield(1), Bitfield(1), Bitfield(4)]
            && fs[4..] == [Counted, o, o] + [o, o, o]
            && fs[0] == Bitfield(10) && fs[1] == fs[2] == Bitfield(1) && fs[3] == Bitfield(4)
  {
  }

  lemma FieldCount(k: Kind, vs: seq<Value>)
    requires WellFormed(k, vs)
    ensures |vs| == |Fields(k)|
  {
  }

  /** The first values and the rest of those in front of the lists. */
  lemma StreamValues(vs: seq<Value>)
    requires |vs| == 17
    ensures vs[..5] == [vs[0], vs[1], vs[2], vs[3], vs[4]] && vs[5..8] == [vs[5], vs[6], vs[7]]
  {
  }

  lemma StreamFront(vs: seq<Value>)
    requires WellFormed(Stream, vs)
    ensures |vs| == 17 && ValuesBits(PlainFields(Stream), vs[..8]) == BytesBits(FrontBytes(Stream, vs))
  {
    hide ValuesBits, WellFormed, Holds, FieldBytes, Fields, PlainFields, FieldsBytes, BytesBits, FrontBytes;
    hide Number, Location, Short;
    StreamTable();
    FieldCount(Stream, vs);
    StreamValues(vs);
    TwoKinds(Stream, vs);
    StreamPacked(vs[0], vs[1], vs[2], vs[3], vs[4]);
    OfThree(Bitfield(16), Counted, Bitfield(16), vs[5], vs[6], vs[7]);
    OneField(Bitfield(16), vs[5]);
    OneField(Counted, vs[6]);
    OneField(Bitfield(16), vs[7]);
    var flags: byte := Number(vs[1]) * 128 + Number(vs[2]) * 64 + Number(vs[3]) * 32 + Number(vs[4]);
    var a, b, c := Short(vs[5]), Location(vs[6]), Short(vs[7]);
    StreamFrontBytes(vs, flags);
    BytesConcat(Short(vs[0]) + [flags], a + b + c);
  }

  lemma StreamFrontBytes(vs: seq<Value>, flags: byte)
    requires |vs| == 17
    requires flags == Number(vs[1]) * 128 + Number(vs[2]) * 64 + Number(vs[3]) * 32 + Number(vs[4])
    ensures FrontBytes(Stream, vs)
         == Short(vs[0]) + [flags] + (Short(vs[5]) + Location(vs[6]) + Short(vs[7]))
  {
    hide Number, Location, Short;
  }

  lemma ObjectFront(vs: seq<Value>)
    requires WellFormed(Object, vs)
    ensures |vs| == 8 && ValuesBits(PlainFields(Object), vs[..4]) == BytesBits(FrontBytes(Object, vs))
  {
    hide ValuesBits, WellFormed, Holds, FieldBytes, Fields, PlainFields, FieldsBytes, BytesBits, FrontBytes;
    hide Number, Location;
    ObjectTable();
    FieldCount(Object, vs);
    TwoKinds(Object, vs);
    assert vs[..3] == [vs[0], vs[1], vs[2]] && vs[3..4] == [vs[3]];
    ObjectPacked(vs[0], vs[1], vs[2]);
    OneFieldBytes(Counted, vs[3]);
    OneField(Counted, vs[3]);
    var hi: byte, lo: byte := Number(vs[0]) / 4, Number(vs[0]) % 4 * 64 + Number(vs[1]) * 32 + Number(vs[2]);
    ObjectFrontBytes(vs, hi, lo);
    BytesConcat([hi, lo], Location(vs[3]));
  }

  lemma ObjectFrontBytes(vs: seq<Value>, hi: byte, lo: byte)
    requires |vs| == 8 && hi == Number(vs[0]) / 4
    requires lo == Number(vs[0]) % 4 * 64 + Number(vs[1]) * 32 + Number(vs[2])
    ensures FrontBytes(Object, vs) == [hi, lo] + Location(vs[3])
  {
    hide Number, Location;
  }

  lemma OneFieldBytes(f: Field, v: Value)
    ensures FieldsBytes([f], [v]) == FieldBytes(f, v)
  {
    assert [f][1..] == [] && [v][1..] == [];
  }

  lemma InitialValues(vs: seq<Value>)
    requires |vs| == 14
    ensures vs[..4] == [vs[0], vs[1], vs[2], vs[3]]
    ensures vs[4..10] == [vs[4], vs[5], vs[6]] + [vs[7], vs[8], vs[9]]
  {
  }

  lemma InitialObjectFront(vs: seq<Value>)
    requires WellFormed(InitialObject, vs)
    ensures |vs| == 14 && ValuesBits(PlainFields(InitialObject), vs[..10]) == BytesBits(FrontBytes(InitialObject, vs))
  {
    hide ValuesBits, WellFormed, Holds, FieldBytes, Fields, PlainFields, FieldsBytes, BytesBits, FrontBytes;
    hide Number, Location, Octet;
    InitialTable();
    FieldCount(InitialObject, vs);
    InitialValues(vs);
    TwoKinds(InitialObject, vs);
    InitialPacked(vs[0], vs[1], vs[2], vs[3]);
    LocationAndOctets(vs[4], vs[5], vs[6], vs[7], vs[8], vs[9]);
    var id := Number(vs[0]);
    var hi: byte, lo: byte := id / 4, id % 4 * 64 + Number(vs[1]) * 32 + Number(vs[2]) * 16 + Number(vs[3]);
    InitialFrontBytes(vs, hi, lo);
    var u, a, b, c, d, e := Location(vs[4]), Octet(vs[5]), Octet(vs[6]), Octet(vs[7]), Octet(vs[8]), Octet(vs[9]);
    BytesConcat([hi, lo], (u + a + b) + (c + d + e));
  }

  lemma InitialFrontBytes(vs: seq<Value>, hi: byte, lo: byte)
    requires |vs| == 14 && hi == Number(vs[0]) / 4
    requires lo == Number(vs[0]) % 4 * 64 + Number(vs[1]) * 32 + Number(vs[2]) * 16 + Number(vs[3])
    ensures FrontBytes(InitialObject, vs)
         == [hi, lo] + ((Location(vs[4]) + Octet(vs[5]) + Octet(vs[6]))
                        + (Octet(vs[7]) + Octet(vs[8]) + Octet(vs[9])))
  {
    hide Number, Location, Octet;
  }

  lemma LocationAndOctets(a: Value, b: Value, c: Value, d: Value, e: Value, f: Value)
    ensures var o := Bitfield(8);
            FieldsBytes([Counted, o, o] + [o, o, o], [a, b, c] + [d, e, f])
            == (Location(a) + Octet(b) + Octet(c)) + (Octet(d) + Octet(e) + Octet(f))
  {
    hide FieldsBytes, ValuesBits, FieldBytes;
    var o := Bitfield(8);
    BytesOfConcat([Counted, o, o], [o, o, o], [a, b, c], [d, e, f]);
    OfThree(Counted, o, o, a, b, c);
    OfThree(o, o, o, d, e, f);
    OneField(Counted, a);
    OneField(o, b);
    OneField(o, c);
    OneField(o, d);
    OneField(o, e);
    OneField(o, f);
  }

  // ---------------------------------------------------------------- the lists

  lemma PartInBytes(p: Part)
    requires |p.body| <= MAX_LENGTH
    ensures PartBits(p) == BytesBits(PartBytes(p))
  {
    hide ToBits, LengthBits, LengthOf;
    LengthsAgree(|p.body|);
    BytesConcat([p.tag] + LengthOf(|p.body|), p.body);
    OneMore(p.tag, LengthOf(|p.body|));
  }

  lemma LengthsAgree(n: nat)
    requires n <= MAX_LENGTH
    ensures LengthBits(n) == BytesBits(LengthOf(n))
  {
    hide LengthBits, BytesBits;
    LengthBytes(n);
  }

  lemma {:induction false} PartsInBytes(ps: seq<Part>)
    requires forall i :: 0 <= i < |ps| ==> |ps[i].body| <= MAX_LENGTH
    ensures PartsBits(ps) == BytesBits(PartsBytes(ps))
  {
    hide PartBits, PartBytes;
    if ps == [] {
    } else {
      PartInBytes(ps[0]);
      PartsInBytes(ps[1..]);
      BytesConcat(PartBytes(ps[0]), PartsBytes(ps[1..]));
    }
  }

  lemma ListInBytes(f: Field, v: Value, implicit: bool)
    requires f.Subs? && Holds(f, v, implicit)
    ensures ValueBits(f, v) == BytesBits(if v.Parts? then PartsBytes(v.ds) else [])
  {
    hide PartsBits, PartsBytes;
    if v.Parts? {
      PartsInBytes(v.ds);
    }
  }

  lemma {:induction false} ListsInBytes(fs: seq<Field>, vs: seq<Value>, mask: seq<bool>)
    requires AllHold(fs, vs, mask) && forall i :: 0 <= i < |fs| ==> fs[i].Subs?
    ensures ValuesBits(fs, vs) == BytesBits(ListsBytes(vs))
  {
    hide PartsBytes, ValueBits, Holds;
    if fs == [] {
    } else {
      ListInBytes(fs[0], vs[0], mask[0]);
      ListsInBytes(fs[1..], vs[1..], mask[1..]);
      BytesConcat(if vs[0].Parts? then PartsBytes(vs[0].ds) else [], ListsBytes(vs[1..]));
    }
  }

  lemma Fronts(k: Kind, vs: seq<Value>)
    requires WellFormed(k, vs)
    ensures var p := |PlainFields(k)|;
            && p == InFront(k) <= |vs| == Count(k) == |Fields(k)|
            && ValuesBits(PlainFields(k), vs[..p]) == BytesBits(FrontBytes(k, vs))
  {
    hide ValuesBits, FrontBytes, WellFormed, Fields, PlainFields;
    FieldCount(k, vs);
    Counts(k);
    match k
    case InitialObject => InitialObjectFront(vs);
    case Object => ObjectFront(vs);
    case Stream => StreamFront(vs);
  }

  lemma {:induction false} Lists(k: Kind, vs: seq<Value>)
    requires WellFormed(k, vs)
    ensures var p := |PlainFields(k)|;
            p <= |vs| == |Fields(k)| && ValuesBits(SubFields(k), vs[p..]) == BytesBits(ListsBytes(vs[p..]))
  {
    hide PlainFields, SubFields, Mask, ValuesBits, Holds, ListsBytes;
    PackedInBytes(k);
    NeverImplicit(k, vs);
    var p, fs, mask := |PlainFields(k)|, Fields(k), Mask(k, vs);
    HoldPart(fs, vs, mask, p, |fs|);
    assert fs[p..|fs|] == SubFields(k) && vs[p..|vs|] == vs[p..];
    SubsOnly(k);
    ListsInBytes(SubFields(k), vs[p..], mask[p..|fs|]);
  }

  /** The fields as bytes. */
  lemma {:induction false} FieldsInBytes(k: Kind, vs: seq<Value>)
    requires WellFormed(k, vs)
    ensures |vs| == |Fields(k)| == Count(k)
    ensures ValuesBits(Fields(k), vs) == BytesBits(FrontBytes(k, vs) + ListsBytes(vs[InFront(k)..]))
  {
    hide PlainFields, SubFields, ValuesBits, FrontBytes, ListsBytes, WellFormed, BytesBits;
    Fronts(k, vs);
    Lists(k, vs);
    var p := InFront(k);
    BitsConcat(PlainFields(k), SubFields(k), vs[..p], vs[p..]);
    assert vs[..p] + vs[p..] == vs;
    BytesConcat(FrontBytes(k, vs), ListsBytes(vs[p..]));
  }

  /** What is written of a descriptor, byte by byte. */
  lemma {:induction false} OnTheWire(k: Kind, vs: seq<Value>)
    requires WellFormed(k, vs) && |Body(k, vs)| / 8 <= MAX_LENGTH
    ensures |vs| == Count(k) && Written(k, vs) == BytesBits(DescriptorOf(k, vs))
  {
    hide ToBits, LengthBits, LengthOf, Fields, ValuesBits, FrontBytes, ListsBytes, BytesBits;
    FieldsInBytes(k, vs);
    var body := FrontBytes(k, vs) + ListsBytes(vs[InFront(k)..]);
    assert Body(k, vs) == BytesBits(body);
    LengthsAgree(|body|);
    BytesConcat(LengthOf(|body|), body);
    OneMore(Tag(k), LengthOf(|body|) + body);
    Grouped(ToBits(Tag(k), 8), LengthBits(|body|), BytesBits(body));
  }

  lemma Grouped(a: seq<bool>, b: seq<bool>, c: seq<bool>)
    ensures a + b + c == a + (b + c)
  {
  }

  /** The lists hold descriptors of these tags and no others. */
  predicate ListsByTag(k: Kind, vs: seq<Value>)
    requires |vs| == |Fields(k)|
  {
    match k
    case InitialObject =>
      && TagsIn(vs[10], 0x0E, 0x0E) && TagsIn(vs[11], 0x40, 0x5F)
      && TagsIn(vs[12], 0x0A, 0x0A) && TagsIn(vs[13], 0x80, 0xFE)
    case Object =>
      && TagsIn(vs[4], 0x0F, 0x0F) && TagsIn(vs[5], 0x40, 0x5F)
      && TagsIn(vs[6], 0x0A, 0x0A) && TagsIn(vs[7], 0x80, 0xFE)
    case Stream =>
      && TagsIn(vs[8], 0x04, 0x04) && TagsIn(vs[9], 0x06, 0x06) && TagsIn(vs[10], 0x09, 0x09)
      && TagsIn(vs[11], 0x07, 0x08) && TagsIn(vs[12], 0x0A, 0x0A) && TagsIn(vs[13], 0x43, 0x43)
      && TagsIn(vs[14], 0x0C, 0x0C) && TagsIn(vs[15], 0x0D, 0x0D) && TagsIn(vs[16], 0x80, 0xFE)
  }

  predicate TagsIn(v: Value, lo: nat, hi: nat) {
    v.Parts? ==> forall i :: 0 <= i < |v.ds| ==> lo <= v.ds[i].tag <= hi
  }

  /** Whatever the bits, what is read into a list has a tag of that list. */
  lemma ReadByTag(k: Kind, d: seq<bool>, pos: nat)
    ensures var r := Parsed(k, d, pos); r.Ok? ==> |r.value.0| == |Fields(k)| && ListsByTag(k, r.value.0)
  {
    hide Parsed, WellFormed, ListsByTag, Fields;
    ParsedIsWellFormed(k, d, pos);
    if Parsed(k, d, pos).Ok? {
      var vs := Parsed(k, d, pos).value.0;
      FieldCount(k, vs);
      forall i: nat | i < |vs| ensures TagsFit(Fields(k)[i], vs[i]) {
        TagsOf(k, vs, i);
      }
      TagTable(k, vs);
    }
  }

  predicate TagsFit(f: Field, v: Value) {
    f.Subs? ==> TagsIn(v, f.lo, f.hi)
  }

  lemma TagsOf(k: Kind, vs: seq<Value>, i: nat)
    requires WellFormed(k, vs) && i < |vs|
    ensures |vs| == |Fields(k)| && TagsFit(Fields(k)[i], vs[i])
  {
    PointInFields(k);
    hide Fields, Mask;
    assert Holds(Fields(k)[i], vs[i], Mask(k, vs)[i]);
  }

  lemma TagTable(k: Kind, vs: seq<Value>)
    requires |vs| == |Fields(k)| && forall i: nat :: i < |vs| ==> TagsFit(Fields(k)[i], vs[i])
    ensures ListsByTag(k, vs)
  {
    hide TagsIn;
  }
}
