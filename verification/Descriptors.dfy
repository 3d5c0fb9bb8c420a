/**
 Descriptors of the systems layer (sections 7.2.6.3 to 7.2.6.5 of ISO/IEC 14496-1). Flags among the
 first fields decide which of the later ones exist, so reading has two phases with a change between
 them; writing puts a placeholder length first and patches it at the end.
 */
module Descriptors {
  import opened Wrappers
  import opened ByteCodec
  import opened Bits

  /** A number of so many bits, a string behind its one-byte length, or descriptors with tags in a range. */
  datatype Field = Bitfield(width: nat) | Counted | Subs(lo: nat, hi: nat)

  /** A descriptor inside another one, with its contents as they are. */
  datatype Part = Part(tag: byte, body: seq<byte>)

  /** What a field holds; an implicit field holds nothing. */
  datatype Value = Absent | Num(n: nat) | Text(s: seq<byte>) | Parts(ds: seq<Part>)

  /** Initial object descriptor, object descriptor and elementary stream descriptor. */
  datatype Kind = InitialObject | Object | Stream

  const MAX_LENGTH: nat := 0x0FFF_FFFF

  function Tag(k: Kind): byte {
    match k
    case InitialObject => 0x10
    case Object => 0x11
    case Stream => 0x03
  }

  /** The fields that are numbers or strings. */
  function PlainFields(k: Kind): seq<Field> {
    match k
    case InitialObject =>
      [Bitfield(10), Bitfield(1), Bitfield(1), Bitfield(4), Counted,
       Bitfield(8), Bitfield(8), Bitfield(8), Bitfield(8), Bitfield(8)]
    case Object => [Bitfield(10), Bitfield(1), Bitfield(5), Counted]
    case Stream =>
      [Bitfield(16), Bitfield(1), Bitfield(1), Bitfield(1), Bitfield(5), Bitfield(16), Counted, Bitfield(16)]
  }

  /** The lists of descriptors behind them. */
  function SubFields(k: Kind): seq<Field> {
    match k
    case InitialObject => [Subs(0x0E, 0x0E), Subs(0x40, 0x5F), Subs(0x0A, 0x0A), Subs(0x80, 0xFE)]
    case Object => [Subs(0x0F, 0x0F), Subs(0x40, 0x5F), Subs(0x0A, 0x0A), Subs(0x80, 0xFE)]
    case Stream =>
      [Subs(0x04, 0x04), Subs(0x06, 0x06), Subs(0x09, 0x09), Subs(0x07, 0x08), Subs(0x0A, 0x0A),
       Subs(0x43, 0x43), Subs(0x0C, 0x0C), Subs(0x0D, 0x0D), Subs(0x80, 0xFE)]
  }

  function Fields(k: Kind): seq<Field> {
    PlainFields(k) + SubFields(k)
  }

  /** How many fields are read before the flags take effect. */
  function MutatePoint(k: Kind): nat {
    if k == Stream then 5 else 2
  }

  predicate Flag(v: Value) {
    v.Num? && v.n != 0
  }

  /** Whether a field is left out, given the values of the fields before the mutate point. */
  predicate Implicit(k: Kind, first: seq<Value>, i: nat)
    requires |first| >= MutatePoint(k)
  {
    match k
    case InitialObject => if i == 4 then !Flag(first[1]) else 5 <= i <= 12 && Flag(first[1])
    case Object => if i == 3 then !Flag(first[1]) else 4 <= i <= 6 && Flag(first[1])
    case Stream =>
      if i == 5 then !Flag(first[1]) else if i == 6 then !Flag(first[2]) else i == 7 && !Flag(first[3])
  }

  function Mask(k: Kind, first: seq<Value>): (m: seq<bool>)
    requires |first| >= MutatePoint(k)
    ensures |m| == |Fields(k)|
  {
    seq(|Fields(k)|, i requires 0 <= i => Implicit(k, first, i))
  }

  /** No flag is consulted that is not yet read, and none that could be left out. */
  lemma FlagsComeFirst(k: Kind, vs: seq<Value>, ws: seq<Value>)
    requires |vs| >= MutatePoint(k) && |ws| >= MutatePoint(k) && vs[..MutatePoint(k)] == ws[..MutatePoint(k)]
    ensures Mask(k, vs) == Mask(k, ws)
    ensures forall i :: 0 <= i < MutatePoint(k) ==> !Mask(k, vs)[i]
  {
    assert forall i :: 0 <= i < MutatePoint(k) ==> vs[i] == vs[..MutatePoint(k)][i] == ws[i];
  }

  // ---------------------------------------------------------------- what is written

  function PartBits(p: Part): (s: seq<bool>)
    ensures |s| == 40 + 8 * |p.body|
  {
    ToBits(p.tag, 8) + LengthBits(|p.body|) + BytesBits(p.body)
  }

  function PartsBits(ps: seq<Part>): seq<bool> {
    if ps == [] then [] else PartBits(ps[0]) + PartsBits(ps[1..])
  }

  function ValueBits(f: Field, v: Value): seq<bool> {
    match v
    case Absent => []
    case Num(n) => if f.Bitfield? then ToBits(n, f.width) else []
    case Text(s) => ToBits(|s|, 8) + BytesBits(s)
    case Parts(ds) => PartsBits(ds)
  }

  function ValuesBits(fs: seq<Field>, vs: seq<Value>): seq<bool>
    requires |fs| == |vs|
  {
    if fs == [] then [] else ValueBits(fs[0], vs[0]) + ValuesBits(fs[1..], vs[1..])
  }

  predicate PartFits(p: Part, lo: nat, hi: nat) {
    lo <= p.tag <= hi && |p.body| <= MAX_LENGTH
  }

  predicate AllFit(ps: seq<Part>, lo: nat, hi: nat) {
    forall i :: 0 <= i < |ps| ==> PartFits(ps[i], lo, hi)
  }

  /** A value the field can hold. */
  predicate Holds(f: Field, v: Value, implicit: bool) {
    if implicit then v == Absent
    else
      match f
      case Bitfield(w) => v.Num? && v.n < Pow2(w)
      case Counted => v.Text? && |v.s| < 256
      case Subs(lo, hi) => v.Parts? && AllFit(v.ds, lo, hi)
  }

  predicate AllHold(fs: seq<Field>, vs: seq<Value>, mask: seq<bool>) {
    |fs| == |vs| == |mask| && forall i :: 0 <= i < |fs| ==> Holds(fs[i], vs[i], mask[i])
  }

  predicate WellFormed(k: Kind, vs: seq<Value>) {
    |vs| == |Fields(k)| && AllHold(Fields(k), vs, Mask(k, vs))
  }

  function Padding(n: nat): nat {
    (8 - n % 8) % 8
  }

  function PadBits(n: nat): (s: seq<bool>)
    ensures |s| == n
  {
    seq(n, _ => false)
  }

  function Body(k: Kind, vs: seq<Value>): seq<bool>
    requires |vs| == |Fields(k)|
  {
    var b := ValuesBits(Fields(k), vs);
    b + PadBits(Padding(|b|))
  }

  function Written(k: Kind, vs: seq<Value>): seq<bool>
    requires |vs| == |Fields(k)|
  {
    ToBits(Tag(k), 8) + LengthBits(|Body(k, vs)| / 8) + Body(k, vs)
  }

  // ---------------------------------------------------------------- what is read

  datatype Error = EndOfFile | WrongTag | Overran

  /** Descriptors while their tags are in range, up to the limit or the end of the file. */
  function ReadParts(d: seq<bool>, pos: nat, stop: nat, lo: nat, hi: nat): (r: Result<(seq<Part>, nat), Error>)
    ensures r.Ok? ==> r.value.1 >= pos
    decreases |d| - pos
  {
    if pos >= stop || pos + 8 > |d| then Ok(([], pos))
    else
      var tag := FromBits(d[pos..pos + 8]);
      if tag < lo || tag > hi then Ok(([], pos))
      else
        var len := ParseLength(d, pos + 8, 0, 0);
        if len.None? then Err(EndOfFile)
        else
          var (n, p) := len.value;
          if p + 8 * n > |d| then Err(EndOfFile)
          else
            var rest := ReadParts(d, p + 8 * n, stop, lo, hi);
            if rest.Err? then rest
            else Ok(([Part(tag % 256, BitsBytes(d[p..p + 8 * n]))] + rest.value.0, rest.value.1))
  }

  /** Whole bytes taken by so many bits. */
  function Ceil(bits: int): int {
    (bits + 7) / 8
  }

  /** A number, or a string behind its length. */
  function ReadPlain(f: Field, d: seq<bool>, pos: nat): (r: Result<(Value, nat), Error>)
    ensures r.Ok? ==> r.value.1 >= pos
  {
    if f.Bitfield? then
      if pos + f.width > |d| then Err(EndOfFile) else Ok((Num(FromBits(d[pos..pos + f.width])), pos + f.width))
    else if pos + 8 > |d| then Err(EndOfFile)
    else
      var n := FromBits(d[pos..pos + 8]);
      if pos + 8 + 8 * n > |d| then Err(EndOfFile)
      else Ok((Text(BitsBytes(d[pos + 8..pos + 8 + 8 * n])), pos + 8 + 8 * n))
  }

  function ReadValue(f: Field, implicit: bool, d: seq<bool>, pos: nat, start: nat, size: nat)
    : Result<(Value, nat), Error>
  {
    var remaining := size - Ceil(pos - start);
    match f
    case Subs(lo, hi) =>
      if implicit then Ok((Absent, pos))
      else if remaining <= 0 then Ok((Parts([]), pos))
      else
        var r := ReadParts(d, pos, pos + 8 * remaining, lo, hi);
        if r.Err? then Err(r.error) else Ok((Parts(r.value.0), r.value.1))
    case _ =>
      if remaining < 0 then Err(Overran) else if implicit then Ok((Absent, pos)) else ReadPlain(f, d, pos)
  }

  function ReadValues(fs: seq<Field>, mask: seq<bool>, d: seq<bool>, pos: nat, start: nat, size: nat)
    : (r: Result<(seq<Value>, nat), Error>)
    requires |fs| == |mask|
    ensures r.Ok? ==> |r.value.0| == |fs|
    decreases fs
  {
    if fs == [] then Ok(([], pos))
    else
      var v := ReadValue(fs[0], mask[0], d, pos, start, size);
      if v.Err? then Err(v.error)
      else
        var rest := ReadValues(fs[1..], mask[1..], d, v.value.1, start, size);
        if rest.Err? then rest else Ok(([v.value.0] + rest.value.0, rest.value.1))
  }

  /** Header, the fields before the mutate point, the change of the others, the others, and on to a whole byte. */
  function Parsed(k: Kind, d: seq<bool>, pos: nat): Result<(seq<Value>, nat), Error> {
    if pos + 8 > |d| then Err(EndOfFile)
    else if FromBits(d[pos..pos + 8]) != Tag(k) then Err(WrongTag)
    else
      var len := ParseLength(d, pos + 8, 0, 0);
      if len.None? then Err(EndOfFile)
      else
        var (size, start) := len.value;
        var m := MutatePoint(k);
        var one := ReadValues(Fields(k)[..m], seq(m, _ => false), d, start, start, size);
        if one.Err? then one
        else
          var two := ReadValues(Fields(k)[m..], Mask(k, one.value.0)[m..], d, one.value.1, start, size);
          if two.Err? then two else Ok((one.value.0 + two.value.0, start + 8 * Ceil(two.value.1 - start)))
  }

  // ---------------------------------------------------------------- what can be read

  lemma {:induction false} BytesOfBits(s: seq<bool>)
    ensures |BitsBytes(s)| == |s| / 8
  {
    hide FromBits;
    if |s| < 8 {
    } else {
      BytesOfBits(s[8..]);
    }
  }

  lemma {:induction false} LengthBound(d: seq<bool>, pos: nat, sofar: nat, groups: nat)
    requires groups <= 3 && sofar < Pow2(7 * groups)
    ensures var r := ParseLength(d, pos, sofar, groups); r.Some? ==> r.value.0 <= MAX_LENGTH && r.value.1 <= |d|
    decreases 4 - groups
  {
    hide FromBits, Pow2;
    PowersOf128();
    if pos + 8 <= |d| {
      FromBitsBound(d[pos + 1..pos + 8]);
      if d[pos] && groups < 3 {
        LengthBound(d, pos + 8, sofar * 128 + FromBits(d[pos + 1..pos + 8]), groups + 1);
      }
    }
  }

  lemma PowersOf128()
    ensures Pow2(0) == 1 && Pow2(7) == 0x80 && Pow2(14) == 0x4000 && Pow2(21) == 0x20_0000
  {
    SmallPowers();
    assert Pow2(14) == 16 * Pow2(10);
    assert Pow2(21) == 128 * Pow2(14);
  }

  lemma {:induction false} PartsFit(d: seq<bool>, pos: nat, stop: nat, lo: nat, hi: nat)
    ensures var r := ReadParts(d, pos, stop, lo, hi);
            r.Ok? ==> AllFit(r.value.0, lo, hi)
    decreases |d| - pos
  {
    hide FromBits, BitsBytes, ParseLength, AllFit;
    NoneFit(lo, hi);
    if pos < stop && pos + 8 <= |d| {
      var tag, len := FromBits(d[pos..pos + 8]), ParseLength(d, pos + 8, 0, 0);
      if lo <= tag <= hi && len.Some? && len.value.1 + 8 * len.value.0 <= |d| {
        var (n, p) := len.value;
        PartsFit(d, p + 8 * n, stop, lo, hi);
        OneByte(d, pos);
        PowersOf128();
        LengthBound(d, pos + 8, 0, 0);
        BytesOfBits(d[p..p + 8 * n]);
        var part, rest := Part(tag % 256, BitsBytes(d[p..p + 8 * n])), ReadParts(d, p + 8 * n, stop, lo, hi);
        assert PartFits(part, lo, hi);
        if rest.Ok? {
          assert ReadParts(d, pos, stop, lo, hi).value.0 == [part] + rest.value.0;
          FitCons(part, rest.value.0, lo, hi);
        }
      }
    }
  }

  lemma FitCons(p: Part, ps: seq<Part>, lo: nat, hi: nat)
    requires PartFits(p, lo, hi) && AllFit(ps, lo, hi)
    ensures AllFit([p] + ps, lo, hi)
  {
  }

  lemma NoneFit(lo: nat, hi: nat)
    ensures AllFit([], lo, hi)
  {
  }

  lemma OneByte(d: seq<bool>, pos: nat)
    requires pos + 8 <= |d|
    ensures FromBits(d[pos..pos + 8]) < 256
  {
    hide FromBits;
    SmallPowers();
    FromBitsBound(d[pos..pos + 8]);
  }

  /** A field that is read holds what it can hold. */
  lemma {:induction false} ReadValueHolds(f: Field, implicit: bool, d: seq<bool>, pos: nat, start: nat, size: nat)
    ensures var r := ReadValue(f, implicit, d, pos, start, size); r.Ok? ==> Holds(f, r.value.0, implicit)
  {
    hide FromBits, BitsBytes, ReadParts, PartFits;
    match f
    case Subs(lo, hi) =>
      PartsFit(d, pos, pos + 8 * (if size - Ceil(pos - start) < 0 then 0 else size - Ceil(pos - start)), lo, hi);
    case Bitfield(w) =>
      if pos + w <= |d| {
        FromBitsBound(d[pos..pos + w]);
      }
    case Counted =>
      if pos + 8 <= |d| {
        OneByte(d, pos);
        var n := FromBits(d[pos..pos + 8]);
        if pos + 8 + 8 * n <= |d| {
          BytesOfBits(d[pos + 8..pos + 8 + 8 * n]);
        }
      }
  }

  lemma {:induction false} ReadValuesHold(fs: seq<Field>, mask: seq<bool>, d: seq<bool>,
                                          pos: nat, start: nat, size: nat)
    requires |fs| == |mask|
    ensures var r := ReadValues(fs, mask, d, pos, start, size); r.Ok? ==> AllHold(fs, r.value.0, mask)
    decreases fs
  {
    hide ReadValue, Holds;
    if fs == [] {
    } else {
      ReadValueHolds(fs[0], mask[0], d, pos, start, size);
      var v := ReadValue(fs[0], mask[0], d, pos, start, size);
      if v.Ok? {
        ReadValuesHold(fs[1..], mask[1..], d, v.value.1, start, size);
      }
    }
  }

  lemma HoldAppend(fs: seq<Field>, gs: seq<Field>, vs: seq<Value>, ws: seq<Value>, m: seq<bool>, n: seq<bool>)
    requires AllHold(fs, vs, m) && AllHold(gs, ws, n)
    ensures AllHold(fs + gs, vs + ws, m + n)
  {
    hide Holds;
  }

  /** Whatever the bits, a descriptor that is read has the fields its flags announce, within their widths and tags. */
  lemma {:induction false} ParsedIsWellFormed(k: Kind, d: seq<bool>, pos: nat)
    ensures var r := Parsed(k, d, pos); r.Ok? ==> WellFormed(k, r.value.0)
  {
    hide FromBits, ParseLength, ReadValues, Holds, Mask, PlainFields, SubFields, AllHold;
    var r := Parsed(k, d, pos);
    if r.Ok? {
      PointInFields(k);
      var (size, start) := ParseLength(d, pos + 8, 0, 0).value;
      var m, fs, none := MutatePoint(k), Fields(k), seq(MutatePoint(k), _ => false);
      var one := ReadValues(fs[..m], none, d, start, start, size).value;
      var mask := Mask(k, one.0);
      var two := ReadValues(fs[m..], mask[m..], d, one.1, start, size).value;
      ReadValuesHold(fs[..m], none, d, start, start, size);
      ReadValuesHold(fs[m..], mask[m..], d, one.1, start, size);
      HoldAppend(fs[..m], fs[m..], one.0, two.0, none, mask[m..]);
      assert (one.0 + two.0)[..m] == one.0[..m];
      FlagsComeFirst(k, one.0 + two.0, one.0);
      assert fs[..m] + fs[m..] == fs && none + mask[m..] == mask;
      HoldLengths(fs, one.0 + two.0, mask);
    }
  }

  lemma PointInFields(k: Kind)
    ensures MutatePoint(k) <= |Fields(k)|
  {
  }

  lemma HoldLengths(fs: seq<Field>, vs: seq<Value>, mask: seq<bool>)
    requires AllHold(fs, vs, mask)
    ensures |fs| == |vs| == |mask|
  {
  }

  /**
   Which flag decides about which field. Stream: the three flags behind the identifier announce the stream it
   depends on, the location and the clock's stream. Otherwise one flag says that there is a location instead
   of the rest of the descriptor but for its extensions.
   */
  predicate FlagsDecide(k: Kind, vs: seq<Value>)
    requires |vs| == |Fields(k)|
  {
    match k
    case Stream =>
      && (if vs[1] == Num(1) then vs[5].Num? && vs[5].n < 0x1_0000 else vs[1] == Num(0) && vs[5].Absent?)
      && (if vs[2] == Num(1) then vs[6].Text? && |vs[6].s| < 256 else vs[2] == Num(0) && vs[6].Absent?)
      && (if vs[3] == Num(1) then vs[7].Num? && vs[7].n < 0x1_0000 else vs[3] == Num(0) && vs[7].Absent?)
    case InitialObject =>
      if vs[1] == Num(1) then vs[4].Text? && |vs[4].s| < 256 && forall i :: 5 <= i <= 12 ==> vs[i].Absent?
      else
        && vs[1] == Num(0) && vs[4].Absent?
        && (forall i :: 5 <= i <= 9 ==> vs[i].Num? && vs[i].n < 0x100) && forall i :: 10 <= i <= 12 ==> vs[i].Parts?
    case Object =>
      if vs[1] == Num(1) then vs[3].Text? && |vs[3].s| < 256 && forall i :: 4 <= i <= 6 ==> vs[i].Absent?
      else vs[1] == Num(0) && vs[3].Absent? && forall i :: 4 <= i <= 6 ==> vs[i].Parts?
  }

  /** In every descriptor that is read, and so in every one that can be written, the flags decide like that. */
  lemma ReadByFlags(k: Kind, d: seq<bool>, pos: nat)
    ensures var r := Parsed(k, d, pos); r.Ok? ==> |r.value.0| == |Fields(k)| && FlagsDecide(k, r.value.0)
  {
    hide Parsed;
    ParsedIsWellFormed(k, d, pos);
    if Parsed(k, d, pos).Ok? {
      WellFormedFlags(k, Parsed(k, d, pos).value.0);
    }
  }

  lemma WellFormedFlags(k: Kind, vs: seq<Value>)
    requires WellFormed(k, vs)
    ensures FlagsDecide(k, vs)
  {
    hide Pow2, PartFits;
    SmallPowers();
    var fs, mask := Fields(k), Mask(k, vs);
    assert forall i :: 0 <= i < |fs| ==> Holds(fs[i], vs[i], mask[i]);
  }

  // ---------------------------------------------------------------- round trip

  lemma {:induction false} ReadPartsStep(d: seq<bool>, pos: nat, stop: nat, lo: nat, hi: nat,
                                         p: Part, rest: seq<Part>, end: nat)
    requires pos < stop && lo <= p.tag <= hi && |p.body| <= MAX_LENGTH
    requires var b := PartBits(p); pos + |b| <= |d| && d[pos..pos + |b|] == b
    requires ReadParts(d, pos + 40 + 8 * |p.body|, stop, lo, hi) == Ok((rest, end))
    ensures ReadParts(d, pos, stop, lo, hi) == Ok(([p] + rest, end))
  {
    hide ToBits, FromBits, LengthBits, ParseLength, BytesBits, BitsBytes;
    var b, n := PartBits(p), |p.body|;
    SmallPowers();
    BitsExact(p.tag, 8);
    BytesExact(p.body);
    SubSlice(d, pos, b, 0, 8);
    SubSlice(d, pos, b, 8, 40);
    SubSlice(d, pos, b, 40, 40 + 8 * n);
    assert b[0..8] == ToBits(p.tag, 8) && b[8..40] == LengthBits(n) && b[40..40 + 8 * n] == BytesBits(p.body);
    LengthRoundTrip(n, d, pos + 8);
  }

  lemma NoParts(d: seq<bool>, pos: nat, stop: nat, lo: nat, hi: nat)
    requires pos < stop ==> pos + 8 <= |d| && !(lo <= FromBits(d[pos..pos + 8]) <= hi)
    ensures ReadParts(d, pos, stop, lo, hi) == Ok(([], pos))
  {
  }

  /** A list of descriptors is read up to the limit or a tag that is not in its range. */
  lemma {:induction false} PartsRoundTrip(ds: seq<Part>, d: seq<bool>, pos: nat, stop: nat, lo: nat, hi: nat)
    requires forall i :: 0 <= i < |ds| ==> PartFits(ds[i], lo, hi)
    requires var b := PartsBits(ds); pos + |b| <= stop && pos + |b| <= |d| && d[pos..pos + |b|] == b
    requires var next := pos + |PartsBits(ds)|;
             next < stop ==> next + 8 <= |d| && !(lo <= FromBits(d[next..next + 8]) <= hi)
    ensures ReadParts(d, pos, stop, lo, hi) == Ok((ds, pos + |PartsBits(ds)|))
    decreases ds
  {
    hide PartBits, FromBits, ReadParts;
    if ds == [] {
      NoParts(d, pos, stop, lo, hi);
    } else {
      var b, first, rest := PartsBits(ds), PartBits(ds[0]), PartsBits(ds[1..]);
      SubSlice(d, pos, b, 0, |first|);
      SubSlice(d, pos, b, |first|, |b|);
      assert b[0..|first|] == first && b[|first|..|b|] == rest;
      PartsRoundTrip(ds[1..], d, pos + |first|, stop, lo, hi);
      ReadPartsStep(d, pos, stop, lo, hi, ds[0], ds[1..], pos + |b|);
      assert ds == [ds[0]] + ds[1..];
    }
  }

  predicate InRange(f: Field, tag: nat) {
    f.Subs? && f.lo <= tag <= f.hi
  }

  /** Lists of descriptors whose tags cannot be confused. */
  predicate Separate(fs: seq<Field>) {
    && (forall i :: 0 <= i < |fs| ==> fs[i].Subs?)
    && (forall i, j :: 0 <= i < j < |fs| ==> fs[i].hi < fs[j].lo || fs[j].hi < fs[i].lo)
  }

  /** What follows starts with the tag of one of the lists that follow. */
  lemma {:induction false} NextTag(fs: seq<Field>, vs: seq<Value>, mask: seq<bool>) returns (i: nat)
    requires Separate(fs) && AllHold(fs, vs, mask) && ValuesBits(fs, vs) != []
    ensures |ValuesBits(fs, vs)| >= 8 && i < |fs| && InRange(fs[i], FromBits(ValuesBits(fs, vs)[..8]))
  {
    hide ToBits, FromBits, LengthBits, BytesBits;
    var b := ValuesBits(fs, vs);
    if ValueBits(fs[0], vs[0]) == [] {
      assert b == ValuesBits(fs[1..], vs[1..]);
      i := NextTag(fs[1..], vs[1..], mask[1..]);
      i := i + 1;
    } else {
      i := 0;
      assert Holds(fs[0], vs[0], mask[0]) && vs[0].Parts?;
      var p := vs[0].ds[0];
      assert PartFits(p, fs[0].lo, fs[0].hi);
      SmallPowers();
      BitsExact(p.tag, 8);
      assert b[..8] == ToBits(p.tag, 8);
    }
  }

  /** The size of a list of descriptors in bytes. */
  function PartsSize(ds: seq<Part>): (n: nat)
  {
    if ds == [] then 0 else 5 + |ds[0].body| + PartsSize(ds[1..])
  }

  lemma {:induction false} PartsInBytes(ds: seq<Part>)
    ensures |PartsBits(ds)| == 8 * PartsSize(ds) && PartsSize(ds) >= |ds|
  {
    hide PartBits;
    if ds == [] {
    } else {
      PartsInBytes(ds[1..]);
    }
  }

  function SubsSize(v: Value): nat {
    if v.Parts? then PartsSize(v.ds) else 0
  }

  /** One list, `q` bytes into the descriptor, with the tag of another list behind it, or nothing. */
  lemma {:induction false} ListRoundTrip(f: Field, v: Value, implicit: bool, d: seq<bool>,
                                         start: nat, q: nat, size: nat)
    requires f.Subs? && Holds(f, v, implicit) && q + SubsSize(v) <= size && start + 8 * size <= |d|
    requires d[start + 8 * q..start + 8 * (q + SubsSize(v))] == ValueBits(f, v)
    requires var next := start + 8 * (q + SubsSize(v));
             q + SubsSize(v) < size ==> !InRange(f, FromBits(d[next..next + 8]))
    ensures ReadValue(f, implicit, d, start + 8 * q, start, size) == Ok((v, start + 8 * (q + SubsSize(v))))
  {
    hide FromBits, PartsBits, ReadParts;
    assert Ceil(8 * q) == q;
    if !implicit {
      PartsInBytes(v.ds);
      if q < size {
        PartsRoundTrip(v.ds, d, start + 8 * q, start + 8 * size, f.lo, f.hi);
      }
    }
  }

  /** The first list and what follows it. */
  lemma {:induction false} SubsSlices(fs: seq<Field>, vs: seq<Value>, mask: seq<bool>,
                                      d: seq<bool>, start: nat, q: nat, size: nat)
    requires Separate(fs) && AllHold(fs, vs, mask) && q <= size && fs != []
    requires var b := ValuesBits(fs, vs);
             |b| == 8 * (size - q) && start + 8 * size <= |d| && d[start + 8 * q..start + 8 * size] == b
    ensures Holds(fs[0], vs[0], mask[0])
    ensures var r, rest := q + SubsSize(vs[0]), ValuesBits(fs[1..], vs[1..]);
            && r <= size && |rest| == 8 * (size - r)
            && d[start + 8 * q..start + 8 * r] == ValueBits(fs[0], vs[0])
            && d[start + 8 * r..start + 8 * size] == rest
            && (r < size ==> !InRange(fs[0], FromBits(d[start + 8 * r..start + 8 * r + 8])))
  {
    hide ValueBits, FromBits, Pow2, Holds;
    assert Holds(fs[0], vs[0], mask[0]);
    var b, first, rest := ValuesBits(fs, vs), ValueBits(fs[0], vs[0]), ValuesBits(fs[1..], vs[1..]);
    var pos, n := start + 8 * q, SubsSize(vs[0]);
    SubsBits(fs[0], vs[0], mask[0]);
    SubSlice(d, pos, b, 0, 8 * n);
    SubSlice(d, pos, b, 8 * n, |b|);
    assert b[0..8 * n] == first && b[8 * n..|b|] == rest;
    if q + n < size {
      AnotherTag(fs, vs, mask, d, pos + 8 * n);
    }
  }

  /** Behind the first list there is the tag of another one. */
  lemma {:induction false} AnotherTag(fs: seq<Field>, vs: seq<Value>, mask: seq<bool>, d: seq<bool>, at: nat)
    requires Separate(fs) && AllHold(fs, vs, mask) && fs != []
    requires var rest := ValuesBits(fs[1..], vs[1..]); rest != [] && at + |rest| <= |d| && d[at..at + |rest|] == rest
    ensures at + 8 <= |d| && !InRange(fs[0], FromBits(d[at..at + 8]))
  {
    hide ValueBits, FromBits, ValuesBits, Holds;
    var rest := ValuesBits(fs[1..], vs[1..]);
    var i := NextTag(fs[1..], vs[1..], mask[1..]);
    SubSlice(d, at, rest, 0, 8);
    assert rest[0..8] == rest[..8];
    assert InRange(fs[i + 1], FromBits(rest[..8]));
  }

  /** The lists of descriptors at the end, when they fill the rest of the descriptor. */
  lemma {:induction false} SubsRoundTrip(fs: seq<Field>, vs: seq<Value>, mask: seq<bool>,
                                         d: seq<bool>, start: nat, q: nat, size: nat)
    requires Separate(fs) && AllHold(fs, vs, mask) && q <= size
    requires var b := ValuesBits(fs, vs);
             |b| == 8 * (size - q) && start + 8 * size <= |d| && d[start + 8 * q..start + 8 * size] == b
    ensures ReadValues(fs, mask, d, start + 8 * q, start, size) == Ok((vs, start + 8 * size))
    decreases fs
  {
    hide ValueBits, FromBits, ReadValue, Holds, ValuesBits;
    if fs == [] {
      assert ValuesBits(fs, vs) == [] by {
        NoValues();
      }
    } else {
      SubsSlices(fs, vs, mask, d, start, q, size);
      ListRoundTrip(fs[0], vs[0], mask[0], d, start, q, size);
      SubsRoundTrip(fs[1..], vs[1..], mask[1..], d, start, q + SubsSize(vs[0]), size);
      assert vs == [vs[0]] + vs[1..];
    }
  }

  lemma NoValues()
    ensures ValuesBits([], []) == []
  {
  }

  lemma SubsBits(f: Field, v: Value, implicit: bool)
    requires f.Subs? && Holds(f, v, implicit)
    ensures |ValueBits(f, v)| == 8 * SubsSize(v)
  {
    if v.Parts? {
      PartsInBytes(v.ds);
    }
  }

  // ---------------------------------------------------------------- numbers and strings

  /** A number or a string comes back; its size has not been overrun. */
  lemma {:induction false} PlainRoundTrip(f: Field, v: Value, implicit: bool, d: seq<bool>,
                                          pos: nat, start: nat, size: nat)
    requires !f.Subs? && Holds(f, v, implicit) && start <= pos <= start + 8 * size
    requires var b := ValueBits(f, v); pos + |b| <= |d| && d[pos..pos + |b|] == b
    ensures ReadValue(f, implicit, d, pos, start, size) == Ok((v, pos + |ValueBits(f, v)|))
  {
    hide ToBits, FromBits, BytesBits, BitsBytes;
    assert Ceil(pos - start) <= size;
    if v.Num? {
      BitsExact(v.n, f.width);
    } else if v.Text? {
      var b := ValueBits(f, v);
      SmallPowers();
      BitsExact(|v.s|, 8);
      BytesExact(v.s);
      SubSlice(d, pos, b, 0, 8);
      SubSlice(d, pos, b, 8, |b|);
      assert b[0..8] == ToBits(|v.s|, 8) && b[8..|b|] == BytesBits(v.s);
    }
  }

  lemma {:induction false} PlainsRoundTrip(fs: seq<Field>, vs: seq<Value>, mask: seq<bool>,
                                           d: seq<bool>, pos: nat, start: nat, size: nat)
    requires (forall i :: 0 <= i < |fs| ==> !fs[i].Subs?) && AllHold(fs, vs, mask)
    requires var b := ValuesBits(fs, vs);
             start <= pos && pos + |b| <= start + 8 * size <= |d| && d[pos..pos + |b|] == b
    ensures ReadValues(fs, mask, d, pos, start, size) == Ok((vs, pos + |ValuesBits(fs, vs)|))
    decreases fs
  {
    hide ValueBits, ReadValue, Holds;
    if fs == [] {
    } else {
      var b, first, rest := ValuesBits(fs, vs), ValueBits(fs[0], vs[0]), ValuesBits(fs[1..], vs[1..]);
      assert Holds(fs[0], vs[0], mask[0]);
      SubSlice(d, pos, b, 0, |first|);
      SubSlice(d, pos, b, |first|, |b|);
      assert b[0..|first|] == first && b[|first|..|b|] == rest;
      PlainRoundTrip(fs[0], vs[0], mask[0], d, pos, start, size);
      PlainsRoundTrip(fs[1..], vs[1..], mask[1..], d, pos + |first|, start, size);
      assert vs == [vs[0]] + vs[1..];
    }
  }

  /** Reading two groups of fields one after the other is reading them all. */
  lemma {:induction false} ReadConcat(a: seq<Field>, b: seq<Field>, ma: seq<bool>, mb: seq<bool>,
                                      d: seq<bool>, pos: nat, start: nat, size: nat)
    requires |a| == |ma| && |b| == |mb| && ReadValues(a, ma, d, pos, start, size).Ok?
    ensures var one := ReadValues(a, ma, d, pos, start, size).value;
            var two := ReadValues(b, mb, d, one.1, start, size);
            ReadValues(a + b, ma + mb, d, pos, start, size)
              == if two.Err? then two else Ok((one.0 + two.value.0, two.value.1))
    decreases a
  {
    hide ReadValue;
    if a == [] {
      assert a + b == b && ma + mb == mb;
      var two := ReadValues(b, mb, d, pos, start, size);
      assert two.Ok? ==> [] + two.value.0 == two.value.0 && two == Ok((two.value.0, two.value.1));
    } else {
      assert (a + b)[1..] == a[1..] + b && (ma + mb)[1..] == ma[1..] + mb;
      var v := ReadValue(a[0], ma[0], d, pos, start, size);
      ReadConcat(a[1..], b, ma[1..], mb, d, v.value.1, start, size);
      var one := ReadValues(a[1..], ma[1..], d, v.value.1, start, size).value;
      var two := ReadValues(b, mb, d, one.1, start, size);
      assert two.Ok? ==> [v.value.0] + (one.0 + two.value.0) == [v.value.0] + one.0 + two.value.0;
    }
  }

  lemma {:induction false} BitsConcat(a: seq<Field>, b: seq<Field>, va: seq<Value>, vb: seq<Value>)
    requires |a| == |va| && |b| == |vb|
    ensures ValuesBits(a + b, va + vb) == ValuesBits(a, va) + ValuesBits(b, vb)
  {
    hide ValueBits;
    if a == [] {
      assert a + b == b && va + vb == vb;
    } else {
      assert (a + b)[1..] == a[1..] + b && (va + vb)[1..] == va[1..] + vb;
      BitsConcat(a[1..], b, va[1..], vb);
    }
  }

  // ---------------------------------------------------------------- whole bytes

  function TotalWidth(fs: seq<Field>): nat {
    if fs == [] then 0 else (if fs[0].Bitfield? then fs[0].width else 0) + TotalWidth(fs[1..])
  }

  lemma {:induction false} FixedLength(fs: seq<Field>, vs: seq<Value>, mask: seq<bool>)
    requires AllHold(fs, vs, mask) && forall i :: 0 <= i < |fs| ==> fs[i].Bitfield? && !mask[i]
    ensures |ValuesBits(fs, vs)| == TotalWidth(fs)
  {
    hide ToBits, Pow2;
    if fs == [] {
    } else {
      assert Holds(fs[0], vs[0], mask[0]);
      FixedLength(fs[1..], vs[1..], mask[1..]);
    }
  }

  predicate ByteWide(f: Field) {
    f.Counted? || (f.Bitfield? && f.width % 8 == 0)
  }

  lemma {:induction false} ByteWideLength(fs: seq<Field>, vs: seq<Value>, mask: seq<bool>) returns (q: nat)
    requires AllHold(fs, vs, mask) && forall i :: 0 <= i < |fs| ==> ByteWide(fs[i])
    ensures |ValuesBits(fs, vs)| == 8 * q
  {
    hide ToBits, Pow2;
    q := 0;
    if fs == [] {
    } else {
      var v := vs[0];
      assert Holds(fs[0], v, mask[0]) && ByteWide(fs[0]);
      q := ByteWideLength(fs[1..], vs[1..], mask[1..]);
      q := q + (match v case Absent => 0 case Num(_) => fs[0].width / 8 case Text(s) => 1 + |s| case Parts(_) => 0);
    }
  }

  /** The numbers that share bytes: they come first, are never left out and fill whole bytes. */
  function Packed(k: Kind): nat {
    match k
    case InitialObject => 4
    case Object => 3
    case Stream => 5
  }

  lemma PackedInBytes(k: Kind)
    ensures Packed(k) <= |PlainFields(k)| && MutatePoint(k) <= Packed(k)
    ensures TotalWidth(PlainFields(k)[..Packed(k)]) == if k == Stream then 24 else 16
    ensures forall i :: 0 <= i < Packed(k) ==> PlainFields(k)[i].Bitfield?
    ensures forall i :: Packed(k) <= i < |PlainFields(k)| ==> ByteWide(PlainFields(k)[i])
    ensures forall i :: 0 <= i < |PlainFields(k)| ==> !PlainFields(k)[i].Subs?
    ensures Separate(SubFields(k))
  {
    SubsSeparate(k);
    hide SubFields, Separate;
    match k
    case InitialObject =>
      assert PlainFields(k)[..4] == [Bitfield(10), Bitfield(1), Bitfield(1), Bitfield(4)];
      WidthOfFour(Bitfield(10), Bitfield(1), Bitfield(1), Bitfield(4));
    case Object =>
      assert PlainFields(k)[..3] == [Bitfield(10), Bitfield(1), Bitfield(5)];
      WidthOfThree(Bitfield(10), Bitfield(1), Bitfield(5));
    case Stream =>
      assert PlainFields(k)[..5] == [Bitfield(16)] + [Bitfield(1), Bitfield(1), Bitfield(1), Bitfield(5)];
      WidthOfFour(Bitfield(1), Bitfield(1), Bitfield(1), Bitfield(5));
      WidthFrom(Bitfield(16), [Bitfield(1), Bitfield(1), Bitfield(1), Bitfield(5)]);
  }

  lemma SubsSeparate(k: Kind)
    ensures Separate(SubFields(k))
  {
  }

  lemma WidthFrom(f: Field, fs: seq<Field>)
    ensures TotalWidth([f] + fs) == (if f.Bitfield? then f.width else 0) + TotalWidth(fs)
  {
    assert ([f] + fs)[1..] == fs;
  }

  lemma WidthOfThree(f: Field, g: Field, h: Field)
    requires f.Bitfield? && g.Bitfield? && h.Bitfield?
    ensures TotalWidth([f, g, h]) == f.width + g.width + h.width
  {
    WidthFrom(f, [g, h]);
    WidthFrom(g, [h]);
    WidthFrom(h, []);
    assert [f] + [g, h] == [f, g, h] && [g] + [h] == [g, h] && [h] + [] == [h];
  }

  lemma WidthOfFour(e: Field, f: Field, g: Field, h: Field)
    requires e.Bitfield? && f.Bitfield? && g.Bitfield? && h.Bitfield?
    ensures TotalWidth([e, f, g, h]) == e.width + f.width + g.width + h.width
  {
    WidthOfThree(f, g, h);
    WidthFrom(e, [f, g, h]);
    assert [e] + [f, g, h] == [e, f, g, h];
  }

  lemma {:induction false} SubsInBytes(fs: seq<Field>, vs: seq<Value>, mask: seq<bool>) returns (q: nat)
    requires AllHold(fs, vs, mask) && forall i :: 0 <= i < |fs| ==> fs[i].Subs?
    ensures |ValuesBits(fs, vs)| == 8 * q
  {
    hide ValueBits;
    q := 0;
    if fs == [] {
    } else {
      assert Holds(fs[0], vs[0], mask[0]);
      SubsBits(fs[0], vs[0], mask[0]);
      q := SubsInBytes(fs[1..], vs[1..], mask[1..]);
      q := q + SubsSize(vs[0]);
    }
  }

  /** A part of the fields, with the values and the mask that belong to it. */
  lemma HoldPart(fs: seq<Field>, vs: seq<Value>, mask: seq<bool>, i: nat, j: nat)
    requires AllHold(fs, vs, mask) && i <= j <= |fs|
    ensures AllHold(fs[i..j], vs[i..j], mask[i..j])
  {
    hide Holds;
  }

  lemma NeverImplicit(k: Kind, vs: seq<Value>)
    requires |vs| >= MutatePoint(k)
    ensures |Mask(k, vs)| == |Fields(k)| && Packed(k) <= |Fields(k)|
    ensures forall i :: 0 <= i < Packed(k) ==> !Mask(k, vs)[i]
  {
    PackedInBytes(k);
  }

  /** The numbers and strings of a descriptor take whole bytes, whatever the flags. */
  lemma PlainInBytes(k: Kind, vs: seq<Value>) returns (q: nat)
    requires WellFormed(k, vs)
    ensures |PlainFields(k)| <= |vs|
    ensures |ValuesBits(PlainFields(k), vs[..|PlainFields(k)|])| == 8 * q
  {
    hide Holds, Implicit, TotalWidth, ValuesBits, Separate, PlainFields, SubFields, MutatePoint, Mask, Packed;
    PackedInBytes(k);
    NeverImplicit(k, vs);
    var fs, mask, g, p := Fields(k), Mask(k, vs), Packed(k), |PlainFields(k)|;
    HoldPart(fs, vs, mask, 0, g);
    HoldPart(fs, vs, mask, g, p);
    var a, b := PlainFields(k)[..g], PlainFields(k)[g..];
    assert fs[0..g] == a && fs[g..p] == b;
    FixedLength(a, vs[0..g], mask[0..g]);
    q := ByteWideLength(b, vs[g..p], mask[g..p]);
    BitsConcat(a, b, vs[0..g], vs[g..p]);
    assert a + b == PlainFields(k) && vs[0..g] + vs[g..p] == vs[..p];
    q := q + if k == Stream then 3 else 2;
  }

  // ---------------------------------------------------------------- the whole descriptor

  /** The three groups of fields: before the mutate point, the other numbers and strings, the lists. */
  lemma {:induction false} ThreeGroups(k: Kind, vs: seq<Value>) returns (q: nat, size: nat)
    requires WellFormed(k, vs)
    ensures MutatePoint(k) <= |PlainFields(k)| <= |Fields(k)| == |vs|
    ensures var m, p, fs := MutatePoint(k), |PlainFields(k)|, Fields(k);
            var a, b, c := ValuesBits(fs[..m], vs[..m]), ValuesBits(fs[m..p], vs[m..p]), ValuesBits(fs[p..], vs[p..]);
            && |a| + |b| == 8 * q && |c| == 8 * (size - q) && q <= size
            && ValuesBits(fs, vs) == a + b + c
  {
    hide Holds, Implicit, ValuesBits, Separate, PlainFields, SubFields, MutatePoint, Mask;
    PackedInBytes(k);
    NeverImplicit(k, vs);
    var m, p, fs, mask := MutatePoint(k), |PlainFields(k)|, Fields(k), Mask(k, vs);
    assert fs[..p] == PlainFields(k) && fs[p..] == SubFields(k);
    q := PlainInBytes(k, vs);
    HoldPart(fs, vs, mask, p, |fs|);
    WholeTail(fs, p);
    WholeTail(vs, p);
    WholeTail(mask, p);
    SubsOnly(k);
    var n := SubsInBytes(fs[p..], vs[p..], mask[p..]);
    BitsConcat(fs[..m], fs[m..p], vs[..m], vs[m..p]);
    SplitHead(fs, m, p);
    SplitHead(vs, m, p);
    BitsConcat(fs[..p], fs[p..], vs[..p], vs[p..]);
    assert fs[..p] + fs[p..] == fs && vs[..p] + vs[p..] == vs;
    size := q + n;
  }

  lemma SubsOnly(k: Kind)
    ensures forall i :: 0 <= i < |SubFields(k)| ==> SubFields(k)[i].Subs?
  {
  }

  lemma SplitHead<T>(s: seq<T>, m: nat, p: nat)
    requires m <= p <= |s|
    ensures s[..m] + s[m..p] == s[..p]
  {
  }

  /** The fields come back in the two phases of the reader. */
  lemma {:induction false} TwoPhases(k: Kind, vs: seq<Value>, d: seq<bool>, start: nat, size: nat)
    requires WellFormed(k, vs) && start + 8 * size <= |d|
    requires |ValuesBits(Fields(k), vs)| == 8 * size && d[start..start + 8 * size] == ValuesBits(Fields(k), vs)
    ensures var m, fs := MutatePoint(k), Fields(k);
            && m <= |fs| == |vs|
            && var mid := start + |ValuesBits(fs[..m], vs[..m])|;
               && ReadValues(fs[..m], seq(m, _ => false), d, start, start, size) == Ok((vs[..m], mid))
               && Mask(k, vs[..m]) == Mask(k, vs)
               && ReadValues(fs[m..], Mask(k, vs)[m..], d, mid, start, size) == Ok((vs[m..], start + 8 * size))
  {
    hide Implicit, ValuesBits, Separate, ReadValues, AllHold, Fields, PlainFields, SubFields, Mask, MutatePoint;
    hide WellFormed;
    GroupsHold(k, vs);
    var m, p, fs, mask := MutatePoint(k), |PlainFields(k)|, Fields(k), Mask(k, vs);
    var q, total := ThreeGroups(k, vs);
    assert total == size;
    var a, b, c := ValuesBits(fs[..m], vs[..m]), ValuesBits(fs[m..p], vs[m..p]), ValuesBits(fs[p..], vs[p..]);
    GroupSlices(d, start, a, b, c);
    FlagsComeFirst(k, vs, vs[..m]);
    PlainsRoundTrip(fs[..m], vs[..m], seq(m, _ => false), d, start, start, size);
    PlainsRoundTrip(fs[m..p], vs[m..p], mask[m..p], d, start + |a|, start, size);
    SubsRoundTrip(fs[p..], vs[p..], mask[p..], d, start, q, size);
    ReadConcat(fs[m..p], fs[p..], mask[m..p], mask[p..], d, start + |a|, start, size);
    SplitTail(fs, m, p);
    SplitTail(mask, m, p);
    SplitTail(vs, m, p);
  }

  lemma SplitTail<T>(s: seq<T>, m: nat, p: nat)
    requires m <= p <= |s|
    ensures s[m..p] + s[p..] == s[m..]
  {
  }

  lemma GroupSlices(d: seq<bool>, start: nat, a: seq<bool>, b: seq<bool>, c: seq<bool>)
    requires start + |a| + |b| + |c| <= |d| && d[start..start + |a| + |b| + |c|] == a + b + c
    ensures d[start..start + |a|] == a
    ensures d[start + |a|..start + |a| + |b|] == b
    ensures d[start + |a| + |b|..start + |a| + |b| + |c|] == c
  {
    var s := a + b + c;
    assert start + |s| == start + |a| + |b| + |c|;
    SubSlice(d, start, s, 0, |a|);
    SubSlice(d, start, s, |a|, |a| + |b|);
    SubSlice(d, start, s, |a| + |b|, |s|);
  }

  lemma GroupsHold(k: Kind, vs: seq<Value>)
    requires WellFormed(k, vs)
    ensures var m, p, fs, mask := MutatePoint(k), |PlainFields(k)|, Fields(k), Mask(k, vs);
            && m <= p <= |fs| == |vs| == |mask|
            && AllHold(fs[..m], vs[..m], seq(m, _ => false))
            && AllHold(fs[m..p], vs[m..p], mask[m..p]) && AllHold(fs[p..], vs[p..], mask[p..])
            && (forall i :: 0 <= i < m ==> !fs[..m][i].Subs?) && (forall i :: 0 <= i < p - m ==> !fs[m..p][i].Subs?)
            && Separate(fs[p..])
  {
    hide Holds, Implicit, Separate, PlainFields, SubFields, MutatePoint, Mask;
    PackedInBytes(k);
    NeverImplicit(k, vs);
    var m, p, fs, mask := MutatePoint(k), |PlainFields(k)|, Fields(k), Mask(k, vs);
    HoldPart(fs, vs, mask, 0, m);
    HoldPart(fs, vs, mask, m, p);
    HoldPart(fs, vs, mask, p, |fs|);
    assert fs[..p] == PlainFields(k) && fs[p..] == SubFields(k);
    assert fs[0..m] == fs[..m] && vs[0..m] == vs[..m] && mask[0..m] == seq(m, _ => false);
    WholeTail(fs, p);
    WholeTail(vs, p);
    WholeTail(mask, p);
  }

  lemma WholeTail<T>(s: seq<T>, p: nat)
    requires p <= |s|
    ensures s[p..|s|] == s[p..]
  {
  }

  /**
   For every setting of the flags and whatever surrounds it, a descriptor comes back, and reading ends
   where writing did.
   */
  lemma {:induction false} DescriptorRoundTrip(k: Kind, vs: seq<Value>, before: seq<bool>, after: seq<bool>)
    requires WellFormed(k, vs) && |Body(k, vs)| / 8 <= MAX_LENGTH
    ensures Parsed(k, before + Written(k, vs) + after, |before|) == Ok((vs, |before| + |Written(k, vs)|))
  {
    hide Implicit, ValuesBits, Separate, ReadValues, AllHold, ParseLength, LengthBits, ToBits, FromBits;
    hide PlainFields, SubFields, Mask;
    var d, pos, body := before + Written(k, vs) + after, |before|, ValuesBits(Fields(k), vs);
    var q, size := ThreeGroups(k, vs);
    assert |body| == 8 * size;
    assert Body(k, vs) == body;
    assert d[pos..pos + |Written(k, vs)|] == Written(k, vs);
    SmallPowers();
    BitsExact(Tag(k), 8);
    GroupSlices(d, pos, ToBits(Tag(k), 8), LengthBits(size), body);
    LengthRoundTrip(size, d, pos + 8);
    TwoPhases(k, vs, d, pos + 40, size);
    assert Ceil(8 * size) == size;
    assert vs[..MutatePoint(k)] + vs[MutatePoint(k)..] == vs;
  }
}
