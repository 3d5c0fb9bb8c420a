/** Descriptor objects: two-phase reading and length patching through a moving file position. */
module DescriptorObjects {
  import opened Wrappers
  import opened ByteCodec
  import opened Bits
  import opened Descriptors

  /** The bits of a file after writing `b` over or behind what is there. */
  function Over(d: seq<bool>, p: nat, b: seq<bool>): seq<bool>
    requires p <= |d|
  {
    if p + |b| <= |d| then d[..p] + b + d[p + |b|..] else d[..p] + b
  }

  lemma OverAppend(d: seq<bool>, p: nat, a: seq<bool>, b: seq<bool>)
    requires p <= |d|
    ensures p + |a| <= |Over(d, p, a)|
    ensures Over(Over(d, p, a), p + |a|, b) == Over(d, p, a + b)
  {
    var l, r := Over(Over(d, p, a), p + |a|, b), Over(d, p, a + b);
    assert |l| == |r|;
    forall i | 0 <= i < |l| ensures l[i] == r[i] {
    }
  }

  /** Patching a part of what was just written. */
  lemma OverPatch(d: seq<bool>, p: nat, a: seq<bool>, b: seq<bool>, b': seq<bool>, c: seq<bool>)
    requires p <= |d| && |b| == |b'|
    ensures p + |a| <= |Over(d, p, a + b + c)|
    ensures Over(Over(d, p, a + b + c), p + |a|, b') == Over(d, p, a + b' + c)
  {
    var l, r := Over(Over(d, p, a + b + c), p + |a|, b'), Over(d, p, a + b' + c);
    assert |l| == |r|;
    forall i | 0 <= i < |l| ensures l[i] == r[i] {
    }
  }

  class BitFile {
    var bits: seq<bool>
    var pos: nat

    constructor (bits: seq<bool>)
      ensures this.bits == bits && pos == 0
    {
      this.bits, this.pos := bits, 0;
    }

    method SetPosition(p: nat)
      modifies this`pos
      ensures pos == p
    {
      pos := p;
    }

    method WriteBits(b: seq<bool>)
      requires pos <= |bits|
      modifies this
      ensures bits == Over(old(bits), old(pos), b) && pos == old(pos) + |b| <= |bits|
    {
      bits, pos := Over(bits, pos, b), pos + |b|;
    }

    /** Bit by bit, the most significant one first. */
    method ReadBits(n: nat) returns (r: Option<nat>)
      modifies this`pos
      ensures r == if old(pos) + n > |bits| then None else Some(FromBits(bits[old(pos)..old(pos) + n]))
      ensures r.Some? ==> pos == old(pos) + n
    {
      if pos + n > |bits| {
        return None;
      }
      var b := bits[pos..pos + n];
      var v := 0;
      for i := 0 to n
        invariant v == FromBits(b[..i])
      {
        assert b[..i + 1][..i] == b[..i];
        v := 2 * v + (if b[i] then 1 else 0);
      }
      assert b[..n] == b;
      pos := pos + n;
      r := Some(v);
    }

    method ReadBytes(n: nat) returns (r: Option<seq<byte>>)
      modifies this`pos
      ensures r == if old(pos) + 8 * n > |bits| then None else Some(BitsBytes(bits[old(pos)..old(pos) + 8 * n]))
      ensures r.Some? ==> pos == old(pos) + 8 * n
    {
      if pos + 8 * n > |bits| {
        return None;
      }
      r := Some(BitsBytes(bits[pos..pos + 8 * n]));
      pos := pos + 8 * n;
    }

    /** Up to four groups of seven bits. */
    method ReadMpegLength() returns (r: Option<nat>)
      modifies this`pos
      ensures r.None? ==> ParseLength(bits, old(pos), 0, 0) == None
      ensures r.Some? ==> ParseLength(bits, old(pos), 0, 0) == Some((r.value, pos))
    {
      hide ParseLength, FromBits;
      var length: nat, numBytes: nat := 0, 0;
      while true
        invariant 0 <= numBytes <= 3
        invariant ParseLength(bits, old(pos), 0, 0) == ParseLength(bits, pos, length, numBytes)
        decreases 4 - numBytes
      {
        NextGroup(bits, pos, length, numBytes);
        if pos + 8 > |bits| {
          return None;
        }
        var more := bits[pos];
        pos := pos + 1;
        var b := ReadBits(7);
        length := length * 128 + b.value;
        if !(more && numBytes < 3) {
          return Some(length);
        }
        numBytes := numBytes + 1;
      }
    }
  }

  lemma NextGroup(d: seq<bool>, pos: nat, length: nat, groups: nat)
    requires groups <= 3
    ensures ParseLength(d, pos, length, groups)
         == if pos + 8 > |d| then None
            else
              var n := length * 128 + FromBits(d[pos + 1..pos + 8]);
              if d[pos] && groups < 3 then ParseLength(d, pos + 8, n, groups + 1) else Some((n, pos + 8))
  {
    hide FromBits;
  }

  /** The values that are written: those of implicit fields are not. */
  function Masked(vs: seq<Value>, mask: seq<bool>): (r: seq<Value>)
    requires |vs| == |mask|
    ensures |r| == |vs|
  {
    seq(|vs|, i requires 0 <= i < |vs| => if mask[i] then Absent else vs[i])
  }

  /** The fields a change of flags can hide. */
  predicate Changeable(k: Kind, i: nat) {
    match k
    case InitialObject => 4 <= i <= 12
    case Object => 3 <= i <= 6
    case Stream => 5 <= i <= 7
  }

  class Descriptor {
    const kind: Kind
    var values: seq<Value>
    var implicit: seq<bool>
    var size: nat
    var start: nat

    ghost predicate Valid()
      reads this
    {
      && |values| == |implicit| == |Fields(kind)|
      && forall i :: 0 <= i < |implicit| && !Changeable(kind, i) ==> !implicit[i]
    }

    constructor (kind: Kind)
      ensures Valid() && this.kind == kind
      ensures forall i :: 0 <= i < |values| ==> values[i] == Absent && !implicit[i]
    {
      this.kind := kind;
      values, implicit := seq(|Fields(kind)|, _ => Absent), seq(|Fields(kind)|, _ => false);
      size, start := 0, 0;
    }

    /** Sets the implicit marks of one stretch of fields. */
    method SetImplicit(from: nat, to: nat, b: bool)
      requires from <= to < |implicit|
      modifies this`implicit
      ensures |implicit| == |old(implicit)|
      ensures forall i :: 0 <= i < |implicit| ==> implicit[i] == if from <= i <= to then b else old(implicit)[i]
    {
      for i := from to to + 1
        invariant |implicit| == |old(implicit)|
        invariant forall j :: 0 <= j < |implicit| ==> implicit[j] == if from <= j < i then b else old(implicit)[j]
      {
        implicit := implicit[i := b];
      }
    }

    /** Hides and shows fields as the flags say. */
    method Mutate()
      requires Valid()
      modifies this`implicit
      ensures Valid() && implicit == Mask(kind, values)
      ensures kind.Stream? ==>
                forall i :: 5 <= i <= 7 ==> (implicit[i] <==> !(values[i - 4].Num? && values[i - 4].n != 0))
      ensures kind.InitialObject? ==> (implicit[4] <==> !(values[1].Num? && values[1].n != 0))
      ensures kind.InitialObject? ==> forall i :: 5 <= i <= 12 ==> (implicit[i] <==> !implicit[4])
      ensures kind.Object? ==> (implicit[3] <==> !(values[1].Num? && values[1].n != 0))
      ensures kind.Object? ==> forall i :: 4 <= i <= 6 ==> (implicit[i] <==> !implicit[3])
    {
      match kind
      case InitialObject =>
        var urlFlag := Flag(values[1]);
        SetImplicit(4, 4, !urlFlag);
        SetImplicit(5, 12, urlFlag);
      case Object =>
        var urlFlag := Flag(values[1]);
        SetImplicit(3, 3, !urlFlag);
        SetImplicit(4, 6, urlFlag);
      case Stream =>
        SetImplicit(5, 5, !Flag(values[1]));
        SetImplicit(6, 6, !Flag(values[2]));
        SetImplicit(7, 7, !Flag(values[3]));
    }

    method WriteFields(file: BitFile)
      requires Valid() && file.pos <= |file.bits|
      modifies file
      ensures var b := ValuesBits(Fields(kind), Masked(values, implicit));
              file.bits == Over(old(file.bits), old(file.pos), b) && file.pos == old(file.pos) + |b| <= |file.bits|
    {
      hide Over, ValueBits, ValuesBits, Fields, Changeable;
      var fs := Fields(kind);
      ghost var vs, d, p := Masked(values, implicit), file.bits, file.pos;
      NoBits(d, p);
      for i := 0 to |fs|
        invariant var b := ValuesBits(fs[..i], vs[..i]);
                  file.bits == Over(d, p, b) && file.pos == p + |b| <= |file.bits|
      {
        FieldsSnoc(fs, vs, i);
        OverAppend(d, p, ValuesBits(fs[..i], vs[..i]), ValueBits(fs[i], vs[i]));
        if !implicit[i] {
          file.WriteBits(ValueBits(fs[i], values[i]));
        } else {
          NothingToWrite(fs[i], file.bits, file.pos);
        }
      }
      assert fs[..|fs|] == fs && vs[..|fs|] == vs;
    }

    /** Writes a placeholder for the length, then the fields, then goes back and patches the length. */
    method Write(file: BitFile) returns (ok: bool)
      requires Valid() && file.pos <= |file.bits|
      modifies this`implicit, file
      ensures Valid() && implicit == Mask(kind, values)
      ensures var vs := Masked(values, implicit);
              && (ok <==> |Body(kind, vs)| / 8 <= MAX_LENGTH)
              && (ok ==> file.bits == Over(old(file.bits), old(file.pos), Written(kind, vs)))
              && (ok ==> file.pos == old(file.pos) + |Written(kind, vs)|)
    {
      hide Over, ValuesBits, Fields, Changeable, ToBits, LengthBits, Mask, Padding, PadBits;
      Mutate();
      ghost var vs, d, p := Masked(values, implicit), file.bits, file.pos;
      ghost var t, z, b := ToBits(Tag(kind), 8), LengthBits(0), ValuesBits(Fields(kind), vs);
      OverAppend(d, p, t, z);
      OverAppend(d, p, t + z, b);
      OverAppend(d, p, t + z + b, PadBits(Padding(|b|)));
      file.WriteBits(ToBits(Tag(kind), 8));
      var lengthPos := file.pos;
      file.WriteBits(LengthBits(0));
      var startPos := file.pos;
      WriteFields(file);
      file.WriteBits(PadBits(Padding(file.pos - startPos)));
      var endPos := file.pos;
      var length := (endPos - startPos) / 8;
      if length > MAX_LENGTH {
        return false;
      }
      file.SetPosition(lengthPos);
      PatchLength(d, p, t, length, b + PadBits(Padding(|b|)));
      file.WriteBits(LengthBits(length));
      file.SetPosition(endPos);
      assert t + z + b + PadBits(Padding(|b|)) == t + z + (b + PadBits(Padding(|b|)));
      assert Written(kind, vs) == t + LengthBits(length) + (b + PadBits(Padding(|b|)));
      ok := true;
    }

    /** Reads descriptors while their tags are in range, up to the limit. */
    method ReadDescriptors(file: BitFile, stop: nat, lo: nat, hi: nat) returns (r: Result<seq<Part>, Error>)
      modifies file`pos
      ensures r.Err? ==> ReadParts(file.bits, old(file.pos), stop, lo, hi) == Err(r.error)
      ensures r.Ok? ==> ReadParts(file.bits, old(file.pos), stop, lo, hi) == Ok((r.value, file.pos))
    {
      hide ReadParts, ParseLength, FromBits, BitsBytes;
      var ds: seq<Part> := [];
      ghost var d, p := file.bits, file.pos;
      PartsSteps(d, p, stop, lo, hi, []);
      while file.pos < stop && file.pos + 8 <= |file.bits|
        invariant ReadParts(d, p, stop, lo, hi) == AfterParts(ds, ReadParts(d, file.pos, stop, lo, hi))
        decreases |file.bits| - file.pos
      {
        PartsSteps(d, file.pos, stop, lo, hi, ds);
        var position := file.pos;
        var tag := file.ReadBits(8);
        if tag.value < lo || tag.value > hi {
          file.SetPosition(position);
          return Ok(ds);
        }
        var n := file.ReadMpegLength();
        if n.None? {
          return Err(EndOfFile);
        }
        var body := file.ReadBytes(n.value);
        if body.None? {
          return Err(EndOfFile);
        }
        ds := ds + [Part(tag.value % 256, body.value)];
      }
      PartsSteps(d, file.pos, stop, lo, hi, ds);
      r := Ok(ds);
    }

    /** One field: a descriptor list gets what is left of this descriptor as its limit. */
    method ReadField(file: BitFile, i: nat) returns (r: Result<(), Error>)
      requires Valid() && i < |values| && values[i] == Absent && start <= file.pos
      modifies this`values, file`pos
      ensures Valid() && (forall j :: 0 <= j < |values| && j != i ==> values[j] == old(values)[j])
      ensures r.Err? ==> ReadValue(Fields(kind)[i], implicit[i], file.bits, old(file.pos), start, size) == Err(r.error)
      ensures var v := ReadValue(Fields(kind)[i], implicit[i], file.bits, old(file.pos), start, size);
              r.Ok? ==> v == Ok((values[i], file.pos))
      ensures r.Ok? ==> old(file.pos) <= file.pos
    {
      hide ReadParts, ReadPlain, FromBits, BitsBytes, Changeable, Fields;
      var f := Fields(kind)[i];
      var remaining := size - (file.pos - start + 7) / 8;
      if f.Subs? {
        if remaining > 0 {
          if !implicit[i] {
            var ds := ReadDescriptors(file, file.pos + 8 * remaining, f.lo, f.hi);
            if ds.Err? {
              return Err(ds.error);
            }
            values := values[i := Parts(ds.value)];
          }
        } else if !implicit[i] {
          values := values[i := Parts([])];
        }
      } else {
        if remaining < 0 {
          return Err(Overran);
        }
        if !implicit[i] {
          var v := ReadNumberOrString(file, f);
          if v.Err? {
            return Err(v.error);
          }
          values := values[i := v.value];
        }
      }
      r := Ok(());
    }

    /** A stretch of the fields, in order. */
    method ReadProperties(file: BitFile, from: nat, to: nat) returns (r: Result<(), Error>)
      requires Valid() && from <= to <= |values| && start <= file.pos
      requires forall j :: from <= j < |values| ==> values[j] == Absent
      modifies this`values, file`pos
      ensures Valid() && forall j :: 0 <= j < |values| && !(from <= j < to) ==> values[j] == old(values)[j]
      ensures var all := ReadValues(Fields(kind)[from..to], implicit[from..to], file.bits, old(file.pos), start, size);
              if r.Err? then all == Err(r.error) else all == Ok((values[from..to], file.pos))
      ensures r.Ok? ==> start <= file.pos
    {
      hide ReadValue, ReadValues, Changeable, Fields;
      ghost var fs, mask, d, p := Fields(kind)[from..to], implicit[from..to], file.bits, file.pos;
      ValuesSteps(fs, mask, d, p, start, size, 0, []);
      assert values[from..from] == [];
      for i := from to to
        invariant Valid() && start <= file.pos
        invariant forall j :: i <= j < |values| ==> values[j] == Absent
        invariant forall j :: 0 <= j < from ==> values[j] == old(values)[j]
        invariant ReadValues(fs, mask, d, p, start, size)
               == AfterValues(values[from..i], ReadValues(fs[i - from..], mask[i - from..], d, file.pos, start, size))
      {
        ValuesSteps(fs, mask, d, file.pos, start, size, i - from, values[from..i]);
        ghost var before := values[from..i];
        r := ReadField(file, i);
        if r.Err? {
          return;
        }
        assert values[from..i + 1] == before + [values[i]];
      }
      ValuesSteps(fs, mask, d, file.pos, start, size, to - from, values[from..to]);
      r := Ok(());
    }

    /** Tag and length. */
    method ReadHeader(file: BitFile) returns (r: Result<(), Error>)
      modifies this`size, this`start, file`pos
      ensures var d, p := file.bits, old(file.pos);
              if p + 8 > |d| then r == Err(EndOfFile)
              else if FromBits(d[p..p + 8]) != Tag(kind) then r == Err(WrongTag)
              else if ParseLength(d, p + 8, 0, 0).None? then r == Err(EndOfFile)
              else r == Ok(()) && ParseLength(d, p + 8, 0, 0) == Some((size, start)) && file.pos == start
    {
      hide FromBits, ParseLength;
      var tag := file.ReadBits(8);
      if tag.None? {
        return Err(EndOfFile);
      }
      if tag.value != Tag(kind) {
        return Err(WrongTag);
      }
      var n := file.ReadMpegLength();
      if n.None? {
        return Err(EndOfFile);
      }
      size, start := n.value, file.pos;
      r := Ok(());
    }

    /** Header, the fields with the flags, the change they make, the other fields, the rest of the last byte. */
    method Read(file: BitFile) returns (r: Result<(), Error>)
      requires Valid() && forall i :: 0 <= i < |values| ==> values[i] == Absent && !implicit[i]
      modifies this, file`pos
      ensures Valid()
      ensures r.Err? ==> Parsed(kind, file.bits, old(file.pos)) == Err(r.error)
      ensures r.Ok? ==> Parsed(kind, file.bits, old(file.pos)) == Ok((values, file.pos))
    {
      hide ReadValues, FromBits, ParseLength, Mask, Changeable, Fields;
      PointInside(kind);
      r := ReadHeader(file);
      if r.Err? {
        return;
      }
      var m := MutatePoint(kind);
      r := ReadProperties(file, 0, m);
      assert implicit[0..m] == seq(m, _ => false) && Fields(kind)[0..m] == Fields(kind)[..m];
      if r.Err? {
        return;
      }
      ghost var first := values[0..m];
      FlagsComeFirst(kind, first, values);
      Mutate();
      r := ReadProperties(file, m, |values|);
      assert implicit[m..|values|] == implicit[m..] && Fields(kind)[m..|values|] == Fields(kind)[m..];
      if r.Err? {
        return;
      }
      assert values[0..m] == first;
      assert values == values[0..m] + values[m..|values|];
      file.SetPosition(start + 8 * ((file.pos - start + 7) / 8));
    }

    static method ReadNumberOrString(file: BitFile, f: Field) returns (r: Result<Value, Error>)
      modifies file`pos
      ensures r.Err? ==> ReadPlain(f, file.bits, old(file.pos)) == Err(r.error)
      ensures r.Ok? ==> ReadPlain(f, file.bits, old(file.pos)) == Ok((r.value, file.pos))
    {
      if f.Bitfield? {
        var n := file.ReadBits(f.width);
        return if n.None? then Err(EndOfFile) else Ok(Num(n.value));
      }
      var n := file.ReadBits(8);
      if n.None? {
        return Err(EndOfFile);
      }
      var s := file.ReadBytes(n.value);
      r := if s.None? then Err(EndOfFile) else Ok(Text(s.value));
    }
  }

  lemma PointInside(k: Kind)
    ensures MutatePoint(k) <= |Fields(k)|
  {
  }

  function AfterValues(vs: seq<Value>, r: Result<(seq<Value>, nat), Error>): Result<(seq<Value>, nat), Error> {
    if r.Err? then r else Ok((vs + r.value.0, r.value.1))
  }

  lemma {:induction false} ValuesSteps(fs: seq<Field>, mask: seq<bool>, d: seq<bool>, pos: nat, start: nat, size: nat,
                                       i: nat, vs: seq<Value>)
    requires |fs| == |mask| && i <= |fs|
    ensures i == 0 && vs == [] ==>
              AfterValues(vs, ReadValues(fs[i..], mask[i..], d, pos, start, size))
              == ReadValues(fs, mask, d, pos, start, size)
    ensures i == |fs| ==> AfterValues(vs, ReadValues(fs[i..], mask[i..], d, pos, start, size)) == Ok((vs, pos))
    ensures i < |fs| ==>
              var r, v := AfterValues(vs, ReadValues(fs[i..], mask[i..], d, pos, start, size)),
                          ReadValue(fs[i], mask[i], d, pos, start, size);
              if v.Err? then r == Err(v.error)
              else r == AfterValues(vs + [v.value.0], ReadValues(fs[i + 1..], mask[i + 1..], d, v.value.1, start, size))
  {
    hide ReadValue;
    var all := ReadValues(fs[i..], mask[i..], d, pos, start, size);
    assert fs[0..] == fs && mask[0..] == mask && vs + [] == vs;
    assert vs == [] && all.Ok? ==> vs + all.value.0 == all.value.0 && all == Ok((all.value.0, all.value.1));
    if i < |fs| {
      assert fs[i..][1..] == fs[i + 1..] && mask[i..][1..] == mask[i + 1..];
      var v := ReadValue(fs[i], mask[i], d, pos, start, size);
      if v.Ok? {
        var rest := ReadValues(fs[i + 1..], mask[i + 1..], d, v.value.1, start, size);
        assert rest.Ok? ==> vs + ([v.value.0] + rest.value.0) == vs + [v.value.0] + rest.value.0;
      }
    }
  }

  function AfterParts(ds: seq<Part>, r: Result<(seq<Part>, nat), Error>): Result<(seq<Part>, nat), Error> {
    if r.Err? then r else Ok((ds + r.value.0, r.value.1))
  }

  lemma {:induction false} PartsSteps(d: seq<bool>, pos: nat, stop: nat, lo: nat, hi: nat, ds: seq<Part>)
    ensures ds == [] ==> AfterParts(ds, ReadParts(d, pos, stop, lo, hi)) == ReadParts(d, pos, stop, lo, hi)
    ensures var r := AfterParts(ds, ReadParts(d, pos, stop, lo, hi));
            if pos >= stop || pos + 8 > |d| then r == Ok((ds, pos))
            else
              var tag := FromBits(d[pos..pos + 8]);
              if tag < lo || tag > hi then r == Ok((ds, pos))
              else
                var len := ParseLength(d, pos + 8, 0, 0);
                if len.None? || len.value.1 + 8 * len.value.0 > |d| then r == Err(EndOfFile)
                else
                  var next := len.value.1 + 8 * len.value.0;
                  var p := Part(tag % 256, BitsBytes(d[len.value.1..next]));
                  r == AfterParts(ds + [p], ReadParts(d, next, stop, lo, hi))
  {
    hide FromBits, ParseLength, BitsBytes;
    var r := ReadParts(d, pos, stop, lo, hi);
    assert ds == [] && r.Ok? ==> ds + r.value.0 == r.value.0 && r == Ok((r.value.0, r.value.1));
    assert ds + [] == ds;
    if pos < stop && pos + 8 <= |d| && lo <= FromBits(d[pos..pos + 8]) <= hi {
      var len := ParseLength(d, pos + 8, 0, 0);
      if len.Some? && len.value.1 + 8 * len.value.0 <= |d| {
        var next := len.value.1 + 8 * len.value.0;
        var rest := ReadParts(d, next, stop, lo, hi);
        var p := Part(FromBits(d[pos..pos + 8]) % 256, BitsBytes(d[len.value.1..next]));
        assert rest.Ok? ==> ds + ([p] + rest.value.0) == ds + [p] + rest.value.0;
      }
    }
  }

  lemma NoBits(d: seq<bool>, p: nat)
    requires p <= |d|
    ensures Over(d, p, []) == d && ValuesBits([], []) == []
  {
  }

  lemma NothingToWrite(f: Field, d: seq<bool>, p: nat)
    requires p <= |d|
    ensures Over(d, p, []) == d && ValueBits(f, Absent) == []
  {
  }

  lemma {:induction false} FieldsSnoc(fs: seq<Field>, vs: seq<Value>, i: nat)
    requires |fs| == |vs| && i < |fs|
    ensures ValuesBits(fs[..i + 1], vs[..i + 1]) == ValuesBits(fs[..i], vs[..i]) + ValueBits(fs[i], vs[i])
  {
    hide ValueBits;
    BitsConcat(fs[..i], [fs[i]], vs[..i], [vs[i]]);
    assert fs[..i + 1] == fs[..i] + [fs[i]] && vs[..i + 1] == vs[..i] + [vs[i]];
    assert [fs[i]][1..] == [] && [vs[i]][1..] == [];
    assert ValuesBits([fs[i]], [vs[i]]) == ValueBits(fs[i], vs[i]) + ValuesBits([], []);
  }

  lemma PatchLength(d: seq<bool>, p: nat, t: seq<bool>, n: nat, body: seq<bool>)
    requires p <= |d|
    ensures p + |t| <= |Over(d, p, t + LengthBits(0) + body)|
    ensures Over(Over(d, p, t + LengthBits(0) + body), p + |t|, LengthBits(n)) == Over(d, p, t + LengthBits(n) + body)
  {
    OverPatch(d, p, t, LengthBits(0), LengthBits(n), body);
  }
}
