/** The bytes of the atoms of `AtomLayouts`, flag by flag and version by version. */
module LayoutBytes {
  import opened Wrappers
  import opened ByteCodec
  import opened AtomTree
  import opened AtomLayouts
  import opened Modular

  /** The bit of a flag among the others. */
  lemma FlagBit(high: nat, bit: nat, low: nat, mask: nat)
    requires 0 < mask && bit < 2 && low < mask
    ensures HasFlag((high * 2 + bit) * mask + low, mask) <==> bit == 1
  {
    var q := high * 2 + bit;
    DivUnique(q * mask + low, mask, q, low);
    assert q % 2 == bit;
  }

  function One(there: bool, v: nat): seq<nat> {
    if there then [v] else []
  }

  /** A number of so many bytes, or none. */
  function Maybe(there: bool, v: nat, w: nat): seq<byte> {
    if there then BigEndian(v, w) else []
  }

  function Width(there: bool, w: nat): seq<nat> {
    if there then [w] else []
  }

  lemma OneField(there: bool, v: nat, w: nat)
    ensures FieldBytes(One(there, v), Width(there, w)) == Maybe(there, v, w)
    ensures v < Pow256(w) ==> Fits(One(there, v), Width(there, w))
  {
    assert [v][1..] == [] && [w][1..] == [];
  }

  lemma {:induction false} FieldsConcat(a: seq<nat>, b: seq<nat>, wa: seq<nat>, wb: seq<nat>)
    requires |a| == |wa| && |b| == |wb|
    ensures FieldBytes(a + b, wa + wb) == FieldBytes(a, wa) + FieldBytes(b, wb)
    ensures Fits(a, wa) && Fits(b, wb) ==> Fits(a + b, wa + wb)
  {
    if a == [] {
      assert a + b == b && wa + wb == wb;
    } else {
      FieldsConcat(a[1..], b, wa[1..], wb);
      assert (a + b)[1..] == a[1..] + b && (wa + wb)[1..] == wa[1..] + wb;
    }
  }

  /** Another field behind some, if it is there. */
  lemma Another(a: seq<nat>, wa: seq<nat>, there: bool, v: nat, w: nat)
    requires |a| == |wa|
    ensures FieldBytes(a + One(there, v), wa + Width(there, w)) == FieldBytes(a, wa) + Maybe(there, v, w)
    ensures Fits(a, wa) && v < Pow256(w) ==> Fits(a + One(there, v), wa + Width(there, w))
  {
    OneField(there, v, w);
    FieldsConcat(a, One(there, v), wa, Width(there, w));
  }

  lemma Two(a: bool, u: nat, x: nat, b: bool, v: nat, y: nat)
    requires u < Pow256(x) && v < Pow256(y)
    ensures FieldBytes(One(a, u) + One(b, v), Width(a, x) + Width(b, y)) == Maybe(a, u, x) + Maybe(b, v, y)
    ensures Fits(One(a, u) + One(b, v), Width(a, x) + Width(b, y))
  {
    OneField(a, u, x);
    Another(One(a, u), Width(a, x), b, v, y);
  }

  lemma Four(a: bool, t: nat, w: nat, b: bool, u: nat, x: nat, c: bool, v: nat, y: nat, e: bool, s: nat, z: nat)
    requires t < Pow256(w) && u < Pow256(x) && v < Pow256(y) && s < Pow256(z)
    ensures FieldBytes(One(a, t) + One(b, u) + One(c, v) + One(e, s),
                       Width(a, w) + Width(b, x) + Width(c, y) + Width(e, z))
         == Maybe(a, t, w) + Maybe(b, u, x) + Maybe(c, v, y) + Maybe(e, s, z)
    ensures Fits(One(a, t) + One(b, u) + One(c, v) + One(e, s), Width(a, w) + Width(b, x) + Width(c, y) + Width(e, z))
  {
    hide FieldBytes, Fits, One, Width, Maybe;
    Two(a, t, w, b, u, x);
    Another(One(a, t) + One(b, u), Width(a, w) + Width(b, x), c, v, y);
    Another(One(a, t) + One(b, u) + One(c, v), Width(a, w) + Width(b, x) + Width(c, y), e, s, z);
  }

  lemma Head(a: nat, x: nat, b: nat, y: nat, c: nat, z: nat)
    requires a < Pow256(x) && b < Pow256(y) && c < Pow256(z)
    ensures FieldBytes([a, b, c], [x, y, z]) == BigEndian(a, x) + BigEndian(b, y) + BigEndian(c, z)
    ensures Fits([a, b, c], [x, y, z])
  {
    hide FieldBytes, Fits, BigEndian;
    Two(true, a, x, true, b, y);
    Another([a] + [b], [x] + [y], true, c, z);
    assert [a] + [b] + [c] == [a, b, c] && [x] + [y] + [z] == [x, y, z];
  }

  // ---------------------------------------------------------------- track fragment header

  /** Base offset, description, default duration, size and flags follow, each if its bit is set. */
  lemma HeaderBytes(version: nat, flags: nat, track: nat, base: nat, desc: nat, duration: nat, size: nat, sample: nat)
    requires version < Pow256(1) && flags < Pow256(3) && track < Pow256(4) && base < Pow256(8)
    requires desc < Pow256(4) && duration < Pow256(4) && size < Pow256(4) && sample < Pow256(4)
    ensures var a, b, c, d, e := flags % 2 == 1, flags / 2 % 2 == 1, flags / 8 % 2 == 1, flags / 16 % 2 == 1,
                                 flags / 32 % 2 == 1;
            var v := Values([version, flags, track],
                            One(a, base) + One(b, desc) + One(c, duration) + One(d, size) + One(e, sample), []);
            && Sound(Tfhd, v) && |v.rows| == Rows(Tfhd, v.head, v.fields, |Written(Tfhd, v)|)
            && Written(Tfhd, v)
               == (BigEndian(version, 1) + BigEndian(flags, 3) + BigEndian(track, 4))
                  + (Maybe(a, base, 8) + Maybe(b, desc, 4) + Maybe(c, duration, 4) + Maybe(d, size, 4)
                     + Maybe(e, sample, 4))
  {
    hide FieldBytes, Fits, BigEndian, Pow256;
    var a, b, c, d, e := flags % 2 == 1, flags / 2 % 2 == 1, flags / 8 % 2 == 1, flags / 16 % 2 == 1,
                         flags / 32 % 2 == 1;
    Head(version, 1, flags, 3, track, 4);
    Four(a, base, 8, b, desc, 4, c, duration, 4, d, size, 4);
    Another(One(a, base) + One(b, desc) + One(c, duration) + One(d, size),
            Width(a, 8) + Width(b, 4) + Width(c, 4) + Width(d, 4), e, sample, 4);
    var head := [version, flags, track];
    assert FieldWidths(Tfhd, head) == Width(a, 8) + Width(b, 4) + Width(c, 4) + Width(d, 4) + Width(e, 4);
  }

  // ---------------------------------------------------------------- rows

  /** Rows one after the other are their bytes one after the other. */
  lemma {:induction false} RowsAreBytes(rows: seq<seq<nat>>, ws: seq<nat>, bs: seq<seq<byte>>)
    requires |rows| == |bs| && forall i :: 0 <= i < |rows| ==> |rows[i]| == |ws| && FieldBytes(rows[i], ws) == bs[i]
    ensures RowBytes(rows, ws) == Flatten(bs)
  {
    hide FieldBytes;
    if rows == [] {
    } else {
      RowsAreBytes(rows[1..], ws, bs[1..]);
    }
  }

  // ---------------------------------------------------------------- track fragment run

  datatype Sample = Sample(duration: nat, size: nat, flags: nat, offset: nat)

  predicate InFourBytes(s: Sample) {
    s.duration < Pow256(4) && s.size < Pow256(4) && s.flags < Pow256(4) && s.offset < Pow256(4)
  }

  function SampleRow(flags: nat, s: Sample): seq<nat> {
    One(flags / 256 % 2 == 1, s.duration) + One(flags / 512 % 2 == 1, s.size)
    + One(flags / 1024 % 2 == 1, s.flags) + One(flags / 2048 % 2 == 1, s.offset)
  }

  function SampleBytes(flags: nat, s: Sample): seq<byte> {
    Maybe(flags / 256 % 2 == 1, s.duration, 4) + Maybe(flags / 512 % 2 == 1, s.size, 4)
    + Maybe(flags / 1024 % 2 == 1, s.flags, 4) + Maybe(flags / 2048 % 2 == 1, s.offset, 4)
  }

  lemma RowOfSample(version: nat, flags: nat, count: nat, s: Sample)
    requires InFourBytes(s)
    ensures var ws := Columns(Trun, [version, flags, count]);
            Fits(SampleRow(flags, s), ws) && FieldBytes(SampleRow(flags, s), ws) == SampleBytes(flags, s)
  {
    hide FieldBytes, Fits, One, Maybe, Pow256;
    var a, b, c, e := flags / 256 % 2 == 1, flags / 512 % 2 == 1, flags / 1024 % 2 == 1, flags / 2048 % 2 == 1;
    Four(a, s.duration, 4, b, s.size, 4, c, s.flags, 4, e, s.offset, 4);
    assert Columns(Trun, [version, flags, count]) == Width(a, 4) + Width(b, 4) + Width(c, 4) + Width(e, 4);
    FitsLength(SampleRow(flags, s), Columns(Trun, [version, flags, count]));
  }

  lemma FitsLength(vs: seq<nat>, ws: seq<nat>)
    ensures Fits(vs, ws) ==> |vs| == |ws|
  {
  }

  /** Data offset and first sample's flags follow the count, then the samples, each part if its bit is set. */
  lemma RunBytes(version: nat, flags: nat, offset: nat, first: nat, samples: seq<Sample>)
    requires version < Pow256(1) && flags < Pow256(3) && |samples| < Pow256(4)
    requires offset < Pow256(4) && first < Pow256(4)
    requires forall i :: 0 <= i < |samples| ==> InFourBytes(samples[i])
    ensures var a, b, n := flags % 2 == 1, flags / 4 % 2 == 1, |samples|;
            var rows := seq(n, i requires 0 <= i < n => SampleRow(flags, samples[i]));
            var v := Values([version, flags, n], One(a, offset) + One(b, first), rows);
            && Sound(Trun, v) && |v.rows| == Rows(Trun, v.head, v.fields, |Written(Trun, v)|)
            && Written(Trun, v)
               == (BigEndian(version, 1) + BigEndian(flags, 3) + BigEndian(n, 4))
                  + (Maybe(a, offset, 4) + Maybe(b, first, 4))
                  + Flatten(seq(n, i requires 0 <= i < n => SampleBytes(flags, samples[i])))
  {
    hide FieldBytes, Fits, BigEndian, Pow256, SampleRow, SampleBytes, Columns, One, Maybe, InFourBytes, Flatten;
    var a, b, n := flags % 2 == 1, flags / 4 % 2 == 1, |samples|;
    var rows := seq(n, i requires 0 <= i < n => SampleRow(flags, samples[i]));
    var bs := seq(n, i requires 0 <= i < n => SampleBytes(flags, samples[i]));
    var head := [version, flags, n];
    Head(version, 1, flags, 3, n, 4);
    Two(a, offset, 4, b, first, 4);
    assert FieldWidths(Trun, head) == Width(a, 4) + Width(b, 4);
    FitsLength(One(a, offset) + One(b, first), Width(a, 4) + Width(b, 4));
    var ws := Columns(Trun, head);
    forall i | 0 <= i < n ensures Fits(rows[i], ws) && |rows[i]| == |ws| && FieldBytes(rows[i], ws) == bs[i] {
      RowOfSample(version, flags, n, samples[i]);
      FitsLength(rows[i], ws);
    }
    RowsAreBytes(rows, ws, bs);
  }

  // ---------------------------------------------------------------- edit list

  datatype Edit = Edit(duration: nat, time: nat, rate: nat, reserved: nat)

  function EditBytes(w: nat, e: Edit): seq<byte> {
    BigEndian(e.duration, w) + BigEndian(e.time, w) + BigEndian(e.rate, 2) + BigEndian(e.reserved, 2)
  }

  predicate EditFits(w: nat, e: Edit) {
    e.duration < Pow256(w) && e.time < Pow256(w) && e.rate < Pow256(2) && e.reserved < Pow256(2)
  }

  function EditRow(e: Edit): seq<nat> {
    [e.duration, e.time, e.rate, e.reserved]
  }

  lemma RowOfEdit(w: nat, e: Edit)
    requires EditFits(w, e)
    ensures Fits(EditRow(e), [w, w, 2, 2]) && FieldBytes(EditRow(e), [w, w, 2, 2]) == EditBytes(w, e)
  {
    hide FieldBytes, Fits, Pow256, BigEndian;
    Four(true, e.duration, w, true, e.time, w, true, e.rate, 2, true, e.reserved, 2);
    assert [e.duration] + [e.time] + [e.rate] + [e.reserved] == EditRow(e);
    assert [w] + [w] + [2] + [2] == [w, w, 2, 2];
  }

  /** Version 1 has durations and times of eight bytes, any other version of four. */
  lemma EditBytesByVersion(version: nat, flags: nat, edits: seq<Edit>)
    requires version < Pow256(1) && flags < Pow256(3) && |edits| < Pow256(4)
    requires forall i :: 0 <= i < |edits| ==> EditFits(if version == 1 then 8 else 4, edits[i])
    ensures var n, w := |edits|, if version == 1 then 8 else 4;
            var v := Values([version], [flags, n], seq(n, i requires 0 <= i < n => EditRow(edits[i])));
            && Sound(Elst, v) && |v.rows| == Rows(Elst, v.head, v.fields, |Written(Elst, v)|)
            && Written(Elst, v)
               == BigEndian(version, 1) + (BigEndian(flags, 3) + BigEndian(n, 4))
                  + Flatten(seq(n, i requires 0 <= i < n => EditBytes(w, edits[i])))
  {
    hide FieldBytes, Fits, BigEndian, Pow256, EditRow, EditBytes, EditFits, Flatten;
    var n, w := |edits|, if version == 1 then 8 else 4;
    var rows := seq(n, i requires 0 <= i < n => EditRow(edits[i]));
    var bs := seq(n, i requires 0 <= i < n => EditBytes(w, edits[i]));
    OneField(true, version, 1);
    Two(true, flags, 3, true, n, 4);
    assert [flags] + [n] == [flags, n] && [3] + [4] == [3, 4];
    forall i | 0 <= i < n
      ensures Fits(rows[i], [w, w, 2, 2]) && |rows[i]| == 4 && FieldBytes(rows[i], [w, w, 2, 2]) == bs[i]
    {
      RowOfEdit(w, edits[i]);
      FitsLength(rows[i], [w, w, 2, 2]);
    }
    RowsAreBytes(rows, [w, w, 2, 2], bs);
  }

  // ---------------------------------------------------------------- sample sizes and file type

  function Numbers(ns: seq<nat>): seq<seq<byte>> {
    seq(|ns|, i requires 0 <= i < |ns| => BigEndian(ns[i], 4))
  }

  function Alone(ns: seq<nat>): seq<seq<nat>> {
    seq(|ns|, i requires 0 <= i < |ns| => [ns[i]])
  }

  lemma RowsOfOne(ns: seq<nat>)
    requires forall i :: 0 <= i < |ns| ==> ns[i] < Pow256(4)
    ensures forall i :: 0 <= i < |ns| ==> Fits(Alone(ns)[i], [4])
    ensures RowBytes(Alone(ns), [4]) == Flatten(Numbers(ns))
  {
    hide FieldBytes, Fits, Pow256, BigEndian, Flatten;
    forall i | 0 <= i < |ns| ensures Fits(Alone(ns)[i], [4]) && FieldBytes(Alone(ns)[i], [4]) == Numbers(ns)[i] {
      OneField(true, ns[i], 4);
    }
    RowsAreBytes(Alone(ns), [4], Numbers(ns));
  }

  /** A table of sizes of four bytes, with their number in front; none of them if there is one size for all. */
  lemma SizeBytes(version: nat, flags: nat, size: nat, count: nat, sizes: seq<nat>)
    requires version < Pow256(1) && flags < Pow256(3) && size < Pow256(4) && count < Pow256(4)
    requires |sizes| == (if size == 0 then count else 0) && forall i :: 0 <= i < |sizes| ==> sizes[i] < Pow256(4)
    ensures var v := Values([version, flags, size, count], [], Alone(sizes));
            && Sound(Stsz, v) && |v.rows| == Rows(Stsz, v.head, v.fields, |Written(Stsz, v)|)
            && Written(Stsz, v)
               == (BigEndian(version, 1) + BigEndian(flags, 3) + BigEndian(size, 4) + BigEndian(count, 4))
                  + Flatten(Numbers(sizes))
  {
    hide FieldBytes, Fits, BigEndian, Pow256, Flatten, RowBytes;
    Four(true, version, 1, true, flags, 3, true, size, 4, true, count, 4);
    assert [version] + [flags] + [size] + [count] == [version, flags, size, count];
    assert [1] + [3] + [4] + [4] == [1, 3, 4, 4];
    Nothing();
    RowsOfOne(sizes);
  }

  lemma Nothing()
    ensures FieldBytes([], []) == [] && Fits([], [])
  {
  }

  /** Major brand, minor version and the compatible brands, whose number is nowhere. */
  lemma BrandBytes(major: nat, minor: nat, brands: seq<nat>)
    requires major < Pow256(4) && minor < Pow256(4) && |brands| < Pow256(4)
    requires forall i :: 0 <= i < |brands| ==> brands[i] < Pow256(4)
    ensures var v := Values([major, minor], [], Alone(brands));
            && Sound(Ftyp, v) && |v.rows| == Rows(Ftyp, v.head, v.fields, |Written(Ftyp, v)|)
            && Written(Ftyp, v) == (BigEndian(major, 4) + BigEndian(minor, 4)) + Flatten(Numbers(brands))
  {
    hide FieldBytes, Fits, BigEndian, Pow256, Flatten, RowBytes;
    Two(true, major, 4, true, minor, 4);
    assert [major] + [minor] == [major, minor] && [4] + [4] == [4, 4];
    Nothing();
    RowsOfOne(brands);
    FourEach(Numbers(brands));
    PowersOf256();
  }

  lemma {:induction false} FourEach(bs: seq<seq<byte>>)
    requires forall i :: 0 <= i < |bs| ==> |bs[i]| == 4
    ensures |Flatten(bs)| == 4 * |bs|
  {
    if bs == [] {
    } else {
      FourEach(bs[1..]);
    }
  }
}
