/**
 Atoms whose layout is chosen by what has been read of them: by flags, version, a constant sample
 size or the size of the atom. The reader adds fields and table columns as it goes.
 */
module AtomLayouts {
  import opened Wrappers
  import opened ByteCodec
  import opened AtomTree
  import opened Mp4File

  /** Track fragment run, track fragment header, edit list, sample sizes, file type. */
  datatype Kind = Trun | Tfhd | Elst | Stsz | Ftyp

  /** The values of an atom: those always there, those that depend on them, and the rows of its table. */
  datatype Values = Values(head: seq<nat>, fields: seq<nat>, rows: seq<seq<nat>>)

  predicate HasFlag(flags: nat, mask: nat)
    requires mask > 0
  {
    flags / mask % 2 == 1
  }

  /** A field or column that is there only if its flag is set. */
  function Present(flags: nat, mask: nat, width: nat): seq<nat>
    requires mask > 0
  {
    if HasFlag(flags, mask) then [width] else []
  }

  /** What is read first. */
  function HeadWidths(k: Kind): seq<nat> {
    match k
    case Trun => [1, 3, 4]
    case Tfhd => [1, 3, 4]
    case Elst => [1]
    case Stsz => [1, 3, 4, 4]
    case Ftyp => [4, 4]
  }

  /** The fields that follow, given the head. */
  function FieldWidths(k: Kind, head: seq<nat>): seq<nat>
    requires |head| == |HeadWidths(k)|
  {
    match k
    case Trun => Present(head[1], 0x01, 4) + Present(head[1], 0x04, 4)
    case Tfhd =>
      Present(head[1], 0x01, 8) + Present(head[1], 0x02, 4) + Present(head[1], 0x08, 4)
      + Present(head[1], 0x10, 4) + Present(head[1], 0x20, 4)
    case Elst => [3, 4]
    case Stsz => []
    case Ftyp => []
  }

  /** The columns of the table, given the head. */
  function Columns(k: Kind, head: seq<nat>): seq<nat>
    requires |head| == |HeadWidths(k)|
  {
    match k
    case Trun =>
      Present(head[1], 0x100, 4) + Present(head[1], 0x200, 4) + Present(head[1], 0x400, 4) + Present(head[1], 0x800, 4)
    case Tfhd => []
    case Elst => if head[0] == 1 then [8, 8, 2, 2] else [4, 4, 2, 2]
    case Stsz => [4]
    case Ftyp => [4]
  }

  /** How many rows the table has: a count that was read, none for a constant size, or what is left of the atom. */
  function Rows(k: Kind, head: seq<nat>, fields: seq<nat>, size: nat): nat
    requires |head| == |HeadWidths(k)| && |fields| == |FieldWidths(k, head)|
  {
    match k
    case Trun => head[2]
    case Tfhd => 0
    case Elst => fields[1]
    case Stsz => if head[2] != 0 then 0 else head[3]
    case Ftyp => Wrap64(size - 8) / 4 % 0x1_0000_0000
  }

  // ---------------------------------------------------------------- bytes

  predicate Fits(vs: seq<nat>, ws: seq<nat>) {
    |vs| == |ws| && forall i :: 0 <= i < |vs| ==> vs[i] < Pow256(ws[i])
  }

  function FieldBytes(vs: seq<nat>, ws: seq<nat>): seq<byte>
    requires |vs| == |ws|
  {
    if vs == [] then [] else BigEndian(vs[0], ws[0]) + FieldBytes(vs[1..], ws[1..])
  }

  function RowBytes(rows: seq<seq<nat>>, ws: seq<nat>): seq<byte>
    requires forall i :: 0 <= i < |rows| ==> |rows[i]| == |ws|
  {
    if rows == [] then [] else FieldBytes(rows[0], ws) + RowBytes(rows[1..], ws)
  }

  /** The property list of an atom object: the widths its fields and columns were created with. */
  datatype Layout = Layout(fields: seq<nat>, columns: seq<nat>)

  /** The layout the reader works out from a head. */
  function LayoutFor(k: Kind, head: seq<nat>): Layout
    requires |head| == |HeadWidths(k)|
  {
    Layout(FieldWidths(k, head), Columns(k, head))
  }

  predicate FitsIn(k: Kind, v: Values, lay: Layout) {
    && Fits(v.head, HeadWidths(k)) && Fits(v.fields, lay.fields)
    && forall i :: 0 <= i < |v.rows| ==> Fits(v.rows[i], lay.columns)
  }

  /** What the writer puts out: every field and every row with the width it was created with. */
  function WrittenIn(k: Kind, v: Values, lay: Layout): seq<byte>
    requires FitsIn(k, v, lay)
  {
    FieldBytes(v.head, HeadWidths(k)) + FieldBytes(v.fields, lay.fields) + RowBytes(v.rows, lay.columns)
  }

  /** An atom whose property list is the one its head asks for. */
  predicate Sound(k: Kind, v: Values) {
    |v.head| == |HeadWidths(k)| && FitsIn(k, v, LayoutFor(k, v.head))
  }

  function Written(k: Kind, v: Values): seq<byte>
    requires Sound(k, v)
  {
    WrittenIn(k, v, LayoutFor(k, v.head))
  }

  /** Unsigned integers of given widths, one after the other, each within the atom. */
  function ReadValues(d: seq<byte>, pos: nat, end: nat, ws: seq<nat>): (r: Result<(seq<nat>, nat), ReadError>)
    ensures r.Ok? ==> |r.value.0| == |ws|
    decreases ws
  {
    if ws == [] then Ok(([], pos))
    else if pos + ws[0] > |d| then Err(EndOfFile)
    else if pos + ws[0] > end then Err(TooSmall)
    else
      var rest := ReadValues(d, pos + ws[0], end, ws[1..]);
      if rest.Err? then rest
      else Ok(([FromBigEndian(d[pos..pos + ws[0]])] + rest.value.0, rest.value.1))
  }

  /** The rows of a table; whether they are within the atom is checked after the last one. */
  function ReadRows(d: seq<byte>, pos: nat, ws: seq<nat>, count: nat): (r: Result<(seq<seq<nat>>, nat), ReadError>)
    ensures r.Ok? ==> |r.value.0| == count
    decreases count
  {
    if count == 0 then Ok(([], pos))
    else
      var row := ReadValues(d, pos, |d|, ws);
      if row.Err? then Err(row.error)
      else
        var rest := ReadRows(d, row.value.1, ws, count - 1);
        if rest.Err? then rest else Ok(([row.value.0] + rest.value.0, rest.value.1))
  }

  function ReadTable(d: seq<byte>, pos: nat, end: nat, ws: seq<nat>, count: nat): (r: Result<seq<seq<nat>>, ReadError>)
    ensures r.Ok? ==> |r.value| == count
  {
    var r := ReadRows(d, pos, ws, count);
    if r.Err? then Err(r.error) else if r.value.1 > end then Err(TooSmall) else Ok(r.value.0)
  }

  /** The reader in two steps: the head, then what the head makes of the rest. */
  function Parsed(k: Kind, d: seq<byte>, pos: nat, end: nat, size: nat): Result<Values, ReadError> {
    var h := ReadValues(d, pos, end, HeadWidths(k));
    if h.Err? then Err(h.error)
    else
      var (head, p1) := h.value;
      var f := ReadValues(d, p1, end, FieldWidths(k, head));
      if f.Err? then Err(f.error)
      else
        var (fields, p2) := f.value;
        var t := ReadTable(d, p2, end, Columns(k, head), Rows(k, head, fields, size));
        if t.Err? then Err(t.error) else Ok(Values(head, fields, t.value))
  }

  // ---------------------------------------------------------------- round trip

  lemma {:induction false} ValuesRoundTrip(d: seq<byte>, pos: nat, end: nat, vs: seq<nat>, ws: seq<nat>)
    requires Fits(vs, ws)
    requires var b := FieldBytes(vs, ws); pos + |b| <= |d| && pos + |b| <= end && d[pos..pos + |b|] == b
    ensures ReadValues(d, pos, end, ws) == Ok((vs, pos + |FieldBytes(vs, ws)|))
    decreases ws
  {
    hide BigEndian, FromBigEndian;
    if ws == [] {
      assert vs == [];
    } else {
      var b, first, rest := FieldBytes(vs, ws), BigEndian(vs[0], ws[0]), FieldBytes(vs[1..], ws[1..]);
      Slices(d, pos, first, rest);
      ValuesRoundTrip(d, pos + ws[0], end, vs[1..], ws[1..]);
      BigEndianExact(vs[0], ws[0]);
      assert vs == [vs[0]] + vs[1..];
    }
  }

  lemma Slices(d: seq<byte>, pos: nat, a: seq<byte>, b: seq<byte>)
    requires pos + |a + b| <= |d| && d[pos..pos + |a + b|] == a + b
    ensures d[pos..pos + |a|] == a && d[pos + |a|..pos + |a + b|] == b
  {
    assert d[pos..pos + |a|] == (a + b)[..|a|];
    assert d[pos + |a|..pos + |a + b|] == (a + b)[|a|..];
  }

  lemma {:induction false} RowsRoundTrip(d: seq<byte>, pos: nat, rows: seq<seq<nat>>, ws: seq<nat>)
    requires forall i :: 0 <= i < |rows| ==> |rows[i]| == |ws| && Fits(rows[i], ws)
    requires var b := RowBytes(rows, ws); pos + |b| <= |d| && d[pos..pos + |b|] == b
    ensures ReadRows(d, pos, ws, |rows|) == Ok((rows, pos + |RowBytes(rows, ws)|))
    decreases rows
  {
    hide ReadValues, FieldBytes;
    if rows == [] {
    } else {
      Slices(d, pos, FieldBytes(rows[0], ws), RowBytes(rows[1..], ws));
      ValuesRoundTrip(d, pos, |d|, rows[0], ws);
      RowsRoundTrip(d, pos + |FieldBytes(rows[0], ws)|, rows[1..], ws);
      assert rows == [rows[0]] + rows[1..];
    }
  }

  /** The layout the reader works out is the one that was written: every value comes back. */
  lemma LayoutRoundTrip(k: Kind, v: Values, d: seq<byte>, pos: nat)
    requires Sound(k, v) && |v.rows| == Rows(k, v.head, v.fields, |Written(k, v)|)
    requires pos + |Written(k, v)| <= |d| && d[pos..pos + |Written(k, v)|] == Written(k, v)
    ensures Parsed(k, d, pos, pos + |Written(k, v)|, |Written(k, v)|) == Ok(v)
  {
    hide FieldBytes, RowBytes, ReadValues, ReadRows, FieldWidths, Columns, Rows;
    var a, b := FieldBytes(v.head, HeadWidths(k)), FieldBytes(v.fields, FieldWidths(k, v.head));
    var c := RowBytes(v.rows, Columns(k, v.head));
    var end := pos + |a + b + c|;
    Slices(d, pos, a + b, c);
    Slices(d, pos, a, b);
    ValuesRoundTrip(d, pos, end, v.head, HeadWidths(k));
    ValuesRoundTrip(d, pos + |a|, end, v.fields, FieldWidths(k, v.head));
    RowsRoundTrip(d, pos + |a + b|, v.rows, Columns(k, v.head));
  }

  lemma {:induction false} FieldLength(vs: seq<nat>, ws: seq<nat>, w: nat)
    requires |vs| == |ws| && forall i :: 0 <= i < |ws| ==> ws[i] == w
    ensures |FieldBytes(vs, ws)| == w * |ws|
  {
    if vs == [] {
    } else {
      FieldLength(vs[1..], ws[1..], w);
    }
  }

  lemma {:induction false} BrandLength(rows: seq<seq<nat>>)
    requires forall i :: 0 <= i < |rows| ==> |rows[i]| == 1
    ensures |RowBytes(rows, [4])| == 4 * |rows|
  {
    if rows == [] {
    } else {
      BrandLength(rows[1..]);
      FieldLength(rows[0], [4], 4);
    }
  }

  /** A file type atom has no count: it is recovered from the size of the atom. */
  lemma BrandsFromSize(v: Values)
    requires Sound(Ftyp, v) && |v.rows| < 0x1000_0000
    ensures Rows(Ftyp, v.head, v.fields, |Written(Ftyp, v)|) == |v.rows|
  {
    FieldLength(v.head, [4, 4], 4);
    BrandLength(v.rows);
  }

  /** What of the values is written: the table of sample sizes is not, when the size is constant. */
  function OnDisk(k: Kind, v: Values): Values
    requires |v.head| == |HeadWidths(k)|
  {
    if k == Stsz && v.head[2] != 0 then v.(rows := []) else v
  }

  /** A table of sample sizes comes back unless the size is constant; then the reader does not look for it either. */
  lemma SizesRoundTrip(v: Values)
    requires Sound(Stsz, v) && v.head[3] == |v.rows|
    ensures var w := OnDisk(Stsz, v);
            var d := Written(Stsz, w);
            Parsed(Stsz, d, 0, |d|, |d|) == Ok(w)
  {
    hide Parsed, Pow256;
    var w := OnDisk(Stsz, v);
    var d := Written(Stsz, w);
    assert d[0..|d|] == d;
    LayoutRoundTrip(Stsz, w, d, 0);
  }

  // ---------------------------------------------------------------- when the layout is not the reader's

  /** Values that show with which width they are read: all but zero. */
  predicate Nonzero(vs: seq<nat>) {
    forall i :: 0 <= i < |vs| ==> vs[i] >= 1
  }

  /** Each further byte multiplies what was read before it. */
  lemma {:induction false} LongerIsMore(s: seq<byte>, k: nat)
    requires k < |s|
    ensures FromBigEndian(s) >= 256 * FromBigEndian(s[..k])
  {
    var n := |s| - 1;
    if k == n {
    } else {
      LongerIsMore(s[..n], k);
      assert s[..n][..k] == s[..k];
    }
  }

  /** A nonzero value is not read back with another width. */
  lemma OtherWidth(d: seq<byte>, pos: nat, v: nat, w: nat, u: nat)
    requires 1 <= v < Pow256(w) && u != w && pos + w <= |d| && pos + u <= |d|
    requires d[pos..pos + w] == BigEndian(v, w)
    ensures FromBigEndian(d[pos..pos + u]) != v
  {
    hide BigEndian, FromBigEndian, Pow256;
    var b, s := d[pos..pos + w], d[pos..pos + u];
    BigEndianExact(v, w);
    if u < w {
      assert b[..u] == s;
      LongerIsMore(b, u);
    } else {
      assert s[..w] == b;
      LongerIsMore(s, w);
    }
  }

  /** Nonzero values are not read back in a list of other widths. */
  lemma {:induction false} OtherWidths(d: seq<byte>, pos: nat, end: nat, vs: seq<nat>, ws: seq<nat>, us: seq<nat>)
    requires Fits(vs, ws) && Nonzero(vs) && |us| == |ws| && us != ws
    requires var b := FieldBytes(vs, ws); pos + |b| <= |d| && d[pos..pos + |b|] == b
    ensures var r := ReadValues(d, pos, end, us); r.Ok? ==> r.value.0 != vs
    decreases ws
  {
    hide BigEndian, FromBigEndian;
    if ws == [] {
    } else {
      var first, rest := BigEndian(vs[0], ws[0]), FieldBytes(vs[1..], ws[1..]);
      Slices(d, pos, first, rest);
      if us[0] == ws[0] {
        assert us == [us[0]] + us[1..] && ws == [ws[0]] + ws[1..];
        OtherWidths(d, pos + ws[0], end, vs[1..], ws[1..], us[1..]);
      } else if pos + us[0] <= |d| {
        OtherWidth(d, pos, vs[0], ws[0], us[0]);
      }
    }
  }

  /** As many rows as the values that are read announce. */
  predicate Counted(k: Kind, v: Values, lay: Layout)
    requires FitsIn(k, v, lay)
  {
    |v.fields| == |FieldWidths(k, v.head)| ==> |v.rows| == Rows(k, v.head, v.fields, |WrittenIn(k, v, lay)|)
  }

  /**
   An atom written with any property list is read back, for nonzero values, if and only if that list is
   the one its head asks for. A flag or version changed after the list was created
   is how it comes to be another one.
   */
  lemma LayoutIff(k: Kind, v: Values, lay: Layout)
    requires FitsIn(k, v, lay) && Counted(k, v, lay)
    requires Nonzero(v.fields) && forall i :: 0 <= i < |v.rows| ==> Nonzero(v.rows[i])
    ensures var d := WrittenIn(k, v, lay);
            Parsed(k, d, 0, |d|, |d|) == Ok(v) <==>
              lay.fields == FieldWidths(k, v.head) && (v.rows == [] || lay.columns == Columns(k, v.head))
  {
    hide FieldBytes, RowBytes, ReadValues, ReadRows, FieldWidths, Columns, Rows, Parsed;
    var d := WrittenIn(k, v, lay);
    if lay.fields == FieldWidths(k, v.head) && (v.rows == [] || lay.columns == Columns(k, v.head)) {
      SameLayout(k, v, lay);
    }
    if Parsed(k, d, 0, |d|, |d|) == Ok(v) {
      OtherLayout(k, v, lay);
    }
  }

  lemma SameLayout(k: Kind, v: Values, lay: Layout)
    requires FitsIn(k, v, lay) && Counted(k, v, lay)
    requires lay.fields == FieldWidths(k, v.head) && (v.rows == [] || lay.columns == Columns(k, v.head))
    ensures var d := WrittenIn(k, v, lay); Parsed(k, d, 0, |d|, |d|) == Ok(v)
  {
    hide FieldBytes, ReadValues, ReadRows, FieldWidths, Columns, Rows, Parsed;
    var d := WrittenIn(k, v, lay);
    assert Written(k, v) == d;
    assert d[0..|d|] == d;
    LayoutRoundTrip(k, v, d, 0);
  }

  lemma OtherLayout(k: Kind, v: Values, lay: Layout)
    requires FitsIn(k, v, lay)
    requires Nonzero(v.fields) && forall i :: 0 <= i < |v.rows| ==> Nonzero(v.rows[i])
    requires var d := WrittenIn(k, v, lay); Parsed(k, d, 0, |d|, |d|) == Ok(v)
    ensures lay.fields == FieldWidths(k, v.head) && (v.rows == [] || lay.columns == Columns(k, v.head))
  {
    hide FieldBytes, RowBytes, ReadValues, ReadRows, FieldWidths, Columns, Rows, Nonzero;
    var a, b, c := FieldBytes(v.head, HeadWidths(k)), FieldBytes(v.fields, lay.fields), RowBytes(v.rows, lay.columns);
    var d, us := a + b + c, FieldWidths(k, v.head);
    assert d[0..|d|] == d;
    Slices(d, 0, a + b, c);
    Slices(d, 0, a, b);
    ValuesRoundTrip(d, 0, |d|, v.head, HeadWidths(k));
    SameLength(d, |a|, |d|, us);
    FitsLength(v.fields, lay.fields);
    if lay.fields != us {
      OtherWidths(d, |a|, |d|, v.fields, lay.fields, us);
      assert false;
    }
    ValuesRoundTrip(d, |a|, |d|, v.fields, us);
    if v.rows != [] {
      FirstRow(d, |a + b|, v.rows, lay.columns, Columns(k, v.head));
    }
  }

  lemma {:induction false} SameLength(d: seq<byte>, pos: nat, end: nat, ws: seq<nat>)
    ensures var r := ReadValues(d, pos, end, ws); r.Ok? ==> |r.value.0| == |ws|
  {
  }

  lemma FitsLength(vs: seq<nat>, ws: seq<nat>)
    requires Fits(vs, ws)
    ensures |vs| == |ws|
  {
  }

  lemma {:induction false} FirstRow(d: seq<byte>, pos: nat, rows: seq<seq<nat>>, ws: seq<nat>, us: seq<nat>)
    requires rows != [] && (forall i :: 0 <= i < |rows| ==> |rows[i]| == |ws| && Fits(rows[i], ws) && Nonzero(rows[i]))
    requires var b := RowBytes(rows, ws); pos + |b| <= |d| && d[pos..pos + |b|] == b
    requires var r := ReadRows(d, pos, us, |rows|); r.Ok? && r.value.0 == rows
    ensures us == ws
  {
    hide FieldBytes, ReadValues, Nonzero;
    Slices(d, pos, FieldBytes(rows[0], ws), RowBytes(rows[1..], ws));
    var row := ReadValues(d, pos, |d|, us);
    assert row.Ok? && row.value.0 == rows[0];
    if us != ws {
      OtherWidths(d, pos, |d|, rows[0], ws, us);
    }
  }

  /** The bytes of all fields together. */
  function WidthOf(ws: seq<nat>): nat {
    if ws == [] then 0 else ws[0] + WidthOf(ws[1..])
  }

  predicate AllZero(vs: seq<nat>) {
    forall i :: 0 <= i < |vs| ==> vs[i] == 0
  }

  lemma {:induction false} ZeroBytes(w: nat)
    ensures forall i :: 0 <= i < w ==> BigEndian(0, w)[i] == 0
  {
    if w == 0 {
    } else {
      ZeroBytes(w - 1);
    }
  }

  lemma {:induction false} ZeroFields(vs: seq<nat>, ws: seq<nat>)
    requires |vs| == |ws| && AllZero(vs)
    ensures |FieldBytes(vs, ws)| == WidthOf(ws)
    ensures forall i :: 0 <= i < |FieldBytes(vs, ws)| ==> FieldBytes(vs, ws)[i] == 0
  {
    hide BigEndian;
    if ws == [] {
    } else {
      ZeroBytes(ws[0]);
      ZeroFields(vs[1..], ws[1..]);
    }
  }

  lemma {:induction false} OnlyZeros(s: seq<byte>)
    requires forall i :: 0 <= i < |s| ==> s[i] == 0
    ensures FromBigEndian(s) == 0
  {
    if s == [] {
    } else {
      OnlyZeros(s[..|s| - 1]);
    }
  }

  /** Zeros are read with any widths, as long as there are enough of them. */
  lemma {:induction false} ReadZeros(d: seq<byte>, pos: nat, ws: seq<nat>)
    requires pos <= |d| && forall i :: pos <= i < |d| ==> d[i] == 0
    ensures var r := ReadValues(d, pos, |d|, ws);
            && (r.Ok? <==> pos + WidthOf(ws) <= |d|)
            && (r.Ok? ==> AllZero(r.value.0) && r.value.1 == pos + WidthOf(ws))
    decreases ws
  {
    hide FromBigEndian;
    if ws == [] {
    } else if pos + ws[0] <= |d| {
      ReadZeros(d, pos + ws[0], ws[1..]);
      OnlyZeros(d[pos..pos + ws[0]]);
    }
  }

  /**
   With zeros only, another property list can go unnoticed: they are read back if and only if there are
   as many fields, and no more bytes are asked for than were written.
   */
  lemma ZerosIff(k: Kind, v: Values, lay: Layout)
    requires FitsIn(k, v, lay) && Counted(k, v, lay) && AllZero(v.fields) && v.rows == []
    ensures var d, us := WrittenIn(k, v, lay), FieldWidths(k, v.head);
            Parsed(k, d, 0, |d|, |d|) == Ok(v) <==> |us| == |lay.fields| && WidthOf(us) <= WidthOf(lay.fields)
  {
    hide FieldBytes, ReadValues, FieldWidths, Columns, Rows, WidthOf;
    var a, b, us := FieldBytes(v.head, HeadWidths(k)), FieldBytes(v.fields, lay.fields), FieldWidths(k, v.head);
    var d := WrittenIn(k, v, lay);
    assert d == a + b && d[0..|a|] == a;
    ZeroFields(v.fields, lay.fields);
    ValuesRoundTrip(d, 0, |d|, v.head, HeadWidths(k));
    ReadZeros(d, |a|, us);
    var r := ReadValues(d, |a|, |d|, us);
    if r.Ok? && |us| == |lay.fields| {
      assert r.value.0 == v.fields;
    }
  }

  /** A track fragment header with other flags than its list was created for: not read back, or only by accident. */
  lemma ChangedFlags()
    ensures var v, lay := Values([0, 0x02, 1], [7], []), Layout([8], []);
            && FitsIn(Tfhd, v, lay)
            && var d := WrittenIn(Tfhd, v, lay); Parsed(Tfhd, d, 0, |d|, |d|) != Ok(v)
    ensures var v, lay := Values([0, 0x02, 1], [0], []), Layout([8], []);
            && FitsIn(Tfhd, v, lay) && lay.fields != FieldWidths(Tfhd, v.head)
            && var d := WrittenIn(Tfhd, v, lay); Parsed(Tfhd, d, 0, |d|, |d|) == Ok(v)
  {
    hide Parsed;
    PowersOf256();
    var v, z, lay := Values([0, 0x02, 1], [7], []), Values([0, 0x02, 1], [0], []), Layout([8], []);
    assert FieldWidths(Tfhd, v.head) == [4];
    assert [4][1..] == [] && [8][1..] == [];
    assert WidthOf([4]) == 4 && WidthOf([8]) == 8;
    LayoutIff(Tfhd, v, lay);
    ZerosIff(Tfhd, z, lay);
  }

  // ---------------------------------------------------------------- reading step by step

  class LayoutAtom {
    const kind: Kind
    var head: seq<nat>
    var fieldWidths: seq<nat>
    var fields: seq<nat>
    var columns: seq<nat>
    var rows: seq<seq<nat>>

    constructor (kind: Kind)
      ensures this.kind == kind && fieldWidths == [] && columns == [] && fresh(this)
    {
      this.kind := kind;
      head, fieldWidths, fields, columns, rows := [], [], [], [], [];
    }

    /** The property list is the one the head asks for. */
    ghost predicate Valid()
      reads this
    {
      |head| == |HeadWidths(kind)| && fieldWidths == FieldWidths(kind, head) && columns == Columns(kind, head)
    }

    /** Changes version, flags or counts; the property list stays as it was created. */
    method SetHead(values: seq<nat>)
      requires |values| == |HeadWidths(kind)|
      modifies this`head
      ensures head == values
      ensures Valid() <==> LayoutFor(kind, values) == Layout(fieldWidths, columns)
    {
      head := values;
    }

    method AddProperty(width: nat)
      modifies this`fieldWidths
      ensures fieldWidths == old(fieldWidths) + [width]
    {
      fieldWidths := fieldWidths + [width];
    }

    method AddColumn(width: nat)
      modifies this`columns
      ensures columns == old(columns) + [width]
    {
      columns := columns + [width];
    }

    /** A field for a flag, if the flag is set. */
    method AddFlagged(flags: nat, mask: nat, width: nat)
      requires mask > 0
      modifies this`fieldWidths
      ensures fieldWidths == old(fieldWidths) + Present(flags, mask, width)
    {
      if HasFlag(flags, mask) {
        AddProperty(width);
      }
    }

    method AddFlaggedColumn(flags: nat, mask: nat, width: nat)
      requires mask > 0
      modifies this`columns
      ensures columns == old(columns) + Present(flags, mask, width)
    {
      if HasFlag(flags, mask) {
        AddColumn(width);
      }
    }

    method AddRunProperties(flags: nat)
      requires fieldWidths == [] && columns == []
      modifies this`fieldWidths, this`columns
      ensures fieldWidths == Present(flags, 0x01, 4) + Present(flags, 0x04, 4)
      ensures columns == Present(flags, 0x100, 4) + Present(flags, 0x200, 4)
                         + Present(flags, 0x400, 4) + Present(flags, 0x800, 4)
    {
      hide Present;
      AddFlagged(flags, 0x01, 4);
      AddFlagged(flags, 0x04, 4);
      AddFlaggedColumn(flags, 0x100, 4);
      AddFlaggedColumn(flags, 0x200, 4);
      AddFlaggedColumn(flags, 0x400, 4);
      AddFlaggedColumn(flags, 0x800, 4);
    }

    method AddHeaderProperties(flags: nat)
      requires fieldWidths == [] && columns == []
      modifies this`fieldWidths
      ensures fieldWidths == Present(flags, 0x01, 8) + Present(flags, 0x02, 4) + Present(flags, 0x08, 4)
                             + Present(flags, 0x10, 4) + Present(flags, 0x20, 4)
    {
      hide Present;
      AddFlagged(flags, 0x01, 8);
      AddFlagged(flags, 0x02, 4);
      AddFlagged(flags, 0x08, 4);
      AddFlagged(flags, 0x10, 4);
      AddFlagged(flags, 0x20, 4);
    }

    method AddEditProperties(version: nat)
      requires fieldWidths == [] && columns == []
      modifies this`fieldWidths, this`columns
      ensures fieldWidths == [3, 4]
      ensures columns == if version == 1 then [8, 8, 2, 2] else [4, 4, 2, 2]
    {
      AddProperty(3);
      AddProperty(4);
      if version == 1 {
        AddColumn(8);
        AddColumn(8);
      } else {
        AddColumn(4);
        AddColumn(4);
      }
      AddColumn(2);
      AddColumn(2);
    }

    /** Creates the fields and columns the head asks for. */
    method AddProperties()
      requires |head| == |HeadWidths(kind)| && fieldWidths == [] && columns == []
      modifies this`fieldWidths, this`columns
      ensures fieldWidths == FieldWidths(kind, head) && columns == Columns(kind, head)
    {
      hide Present;
      match kind
      case Trun => AddRunProperties(head[1]);
      case Tfhd => AddHeaderProperties(head[1]);
      case Elst => AddEditProperties(head[0]);
      case Stsz => AddColumn(4);
      case Ftyp => AddColumn(4);
    }

    /** Writes every value with the width its field or column was created with. */
    method Write(file: MP4File)
      requires FitsIn(kind, Values(head, fields, rows), Layout(fieldWidths, columns))
      modifies file
      ensures var v, lay := OnDisk(kind, Values(head, fields, rows)), Layout(fieldWidths, columns);
              var b := WrittenIn(kind, v, lay);
              && file.data == Splice(old(file.data), old(file.pos), b) && file.pos == old(file.pos) + |b|
              && (Valid() ==> Sound(kind, v) && b == Written(kind, v))
    {
      hide Splice, FieldBytes, RowBytes, FieldWidths, Columns;
      var hs := HeadWidths(kind);
      WriteIntegers(file, head, hs);
      SpliceAppend(old(file.data), old(file.pos), FieldBytes(head, hs), FieldBytes(fields, fieldWidths));
      WriteIntegers(file, fields, fieldWidths);
      var entries := rows;
      if kind == Stsz && head[2] != 0 {
        entries := [];
      }
      SpliceAppend(old(file.data), old(file.pos), FieldBytes(head, hs) + FieldBytes(fields, fieldWidths),
                   RowBytes(entries, columns));
      WriteTableRows(file, entries, columns);
    }

    /** The read order of these atoms: the head, new properties, the rest, and on to the end of the atom. */
    method Read(file: MP4File, end: nat, size: nat) returns (r: Result<(), ReadError>)
      requires fieldWidths == [] && columns == []
      modifies this, file`pos
      ensures r.Err? ==> Parsed(kind, file.data, old(file.pos), end, size) == Err(r.error)
      ensures r.Ok? ==> Parsed(kind, file.data, old(file.pos), end, size) == Ok(Values(head, fields, rows))
      ensures r.Ok? ==> Valid()
      ensures r.Ok? ==> file.pos == end
    {
      hide ReadValues, ReadRows, FieldWidths, Columns, HeadWidths;
      var h := ReadIntegers(file, HeadWidths(kind), end);
      if h.Err? {
        return Err(h.error);
      }
      head := h.value;
      AddProperties();
      var f := ReadIntegers(file, fieldWidths, end);
      if f.Err? {
        return Err(f.error);
      }
      fields := f.value;
      var t := ReadTableRows(file, columns, Rows(kind, head, fields, size));
      if t.Err? {
        return Err(t.error);
      }
      rows := t.value;
      if file.pos > end {
        return Err(TooSmall);
      }
      file.SetPosition(end);
      r := Ok(());
    }
  }

  method WriteIntegers(file: MP4File, vs: seq<nat>, ws: seq<nat>)
    requires |vs| == |ws|
    modifies file
    ensures var b := FieldBytes(vs, ws);
            file.data == Splice(old(file.data), old(file.pos), b) && file.pos == old(file.pos) + |b|
  {
    hide Splice, BigEndian;
    NothingWritten(file.data, file.pos);
    for i := 0 to |vs|
      invariant var b := FieldBytes(vs[..i], ws[..i]);
                file.data == Splice(old(file.data), old(file.pos), b) && file.pos == old(file.pos) + |b|
    {
      FieldBytesSnoc(vs, ws, i);
      SpliceAppend(old(file.data), old(file.pos), FieldBytes(vs[..i], ws[..i]), BigEndian(vs[i], ws[i]));
      file.WriteBytes(BigEndian(vs[i], ws[i]));
    }
    assert vs[..|vs|] == vs && ws[..|vs|] == ws;
  }

  method WriteTableRows(file: MP4File, rows: seq<seq<nat>>, ws: seq<nat>)
    requires forall i :: 0 <= i < |rows| ==> |rows[i]| == |ws|
    modifies file
    ensures var b := RowBytes(rows, ws);
            file.data == Splice(old(file.data), old(file.pos), b) && file.pos == old(file.pos) + |b|
  {
    hide Splice, FieldBytes;
    NothingWritten(file.data, file.pos);
    for i := 0 to |rows|
      invariant var b := RowBytes(rows[..i], ws);
                file.data == Splice(old(file.data), old(file.pos), b) && file.pos == old(file.pos) + |b|
    {
      RowBytesSnoc(rows[..i], rows[i], ws);
      assert rows[..i + 1] == rows[..i] + [rows[i]];
      SpliceAppend(old(file.data), old(file.pos), RowBytes(rows[..i], ws), FieldBytes(rows[i], ws));
      WriteIntegers(file, rows[i], ws);
    }
    assert rows[..|rows|] == rows;
  }

  lemma NothingWritten(d: seq<byte>, p: nat)
    ensures Splice(d, p, []) == d
  {
  }

  lemma {:induction false} FieldBytesSnoc(vs: seq<nat>, ws: seq<nat>, i: nat)
    requires |vs| == |ws| && i < |vs|
    ensures FieldBytes(vs[..i + 1], ws[..i + 1]) == FieldBytes(vs[..i], ws[..i]) + BigEndian(vs[i], ws[i])
  {
    hide BigEndian;
    if i == 0 {
      assert vs[..1] == [vs[0]] && ws[..1] == [ws[0]] && vs[..0] == [] && ws[..0] == [];
      assert [vs[0]][1..] == [] && [ws[0]][1..] == [];
      assert FieldBytes([vs[0]], [ws[0]]) == BigEndian(vs[0], ws[0]) + FieldBytes([], []);
    } else {
      FieldBytesSnoc(vs[1..], ws[1..], i - 1);
      assert vs[..i + 1][1..] == vs[1..][..i] && ws[..i + 1][1..] == ws[1..][..i];
      assert vs[..i][1..] == vs[1..][..i - 1] && ws[..i][1..] == ws[1..][..i - 1];
    }
  }

  lemma {:induction false} RowBytesSnoc(rows: seq<seq<nat>>, row: seq<nat>, ws: seq<nat>)
    requires |row| == |ws| && forall i :: 0 <= i < |rows| ==> |rows[i]| == |ws|
    ensures RowBytes(rows + [row], ws) == RowBytes(rows, ws) + FieldBytes(row, ws)
  {
    hide FieldBytes;
    if rows == [] {
      assert rows + [row] == [row] && [row][1..] == [];
      assert RowBytes([row], ws) == FieldBytes(row, ws) + RowBytes([], ws);
    } else {
      RowBytesSnoc(rows[1..], row, ws);
      assert (rows + [row])[1..] == rows[1..] + [row];
    }
  }

  method ReadIntegers(file: MP4File, ws: seq<nat>, end: nat) returns (r: Result<seq<nat>, ReadError>)
    modifies file`pos
    ensures r.Err? ==> ReadValues(file.data, old(file.pos), end, ws) == Err(r.error)
    ensures r.Ok? ==> ReadValues(file.data, old(file.pos), end, ws) == Ok((r.value, file.pos))
  {
    hide ReadValues, FromBigEndian;
    var vs: seq<nat> := [];
    ghost var d, p := file.data, file.pos;
    ValuesSteps(d, p, end, ws, 0, []);
    for i := 0 to |ws|
      invariant AfterValues(vs, ReadValues(d, file.pos, end, ws[i..])) == ReadValues(d, p, end, ws)
    {
      ValuesSteps(d, file.pos, end, ws, i, vs);
      var v := file.ReadUInt(ws[i]);
      if v.Err? {
        return Err(v.error);
      }
      if file.pos > end {
        return Err(TooSmall);
      }
      vs := vs + [v.value];
    }
    ValuesSteps(d, file.pos, end, ws, |ws|, vs);
    r := Ok(vs);
  }

  method ReadTableRows(file: MP4File, ws: seq<nat>, count: nat) returns (r: Result<seq<seq<nat>>, ReadError>)
    modifies file`pos
    ensures r.Err? ==> ReadRows(file.data, old(file.pos), ws, count) == Err(r.error)
    ensures r.Ok? ==> ReadRows(file.data, old(file.pos), ws, count) == Ok((r.value, file.pos))
  {
    hide ReadValues, ReadRows;
    var rows: seq<seq<nat>> := [];
    ghost var d, p := file.data, file.pos;
    RowsSteps(d, p, ws, count, []);
    for i := 0 to count
      invariant AfterRows(rows, ReadRows(d, file.pos, ws, count - i)) == ReadRows(d, p, ws, count)
    {
      RowsSteps(d, file.pos, ws, count - i, rows);
      var row := ReadIntegers(file, ws, |file.data|);
      if row.Err? {
        return Err(row.error);
      }
      rows := rows + [row.value];
    }
    RowsSteps(d, file.pos, ws, 0, rows);
    r := Ok(rows);
  }

  function AfterValues(vs: seq<nat>, r: Result<(seq<nat>, nat), ReadError>): Result<(seq<nat>, nat), ReadError> {
    if r.Err? then r else Ok((vs + r.value.0, r.value.1))
  }

  function AfterRows(rows: seq<seq<nat>>, r: Result<(seq<seq<nat>>, nat), ReadError>)
    : Result<(seq<seq<nat>>, nat), ReadError>
  {
    if r.Err? then r else Ok((rows + r.value.0, r.value.1))
  }

  lemma {:induction false} ValuesSteps(d: seq<byte>, pos: nat, end: nat, ws: seq<nat>, i: nat, vs: seq<nat>)
    requires i <= |ws|
    ensures i == 0 && vs == [] ==> AfterValues(vs, ReadValues(d, pos, end, ws[i..])) == ReadValues(d, pos, end, ws)
    ensures i == |ws| ==> AfterValues(vs, ReadValues(d, pos, end, ws[i..])) == Ok((vs, pos))
    ensures i < |ws| ==>
              var r := AfterValues(vs, ReadValues(d, pos, end, ws[i..]));
              if pos + ws[i] > |d| then r == Err(EndOfFile)
              else if pos + ws[i] > end then r == Err(TooSmall)
              else
                var v := FromBigEndian(d[pos..pos + ws[i]]);
                r == AfterValues(vs + [v], ReadValues(d, pos + ws[i], end, ws[i + 1..]))
  {
    hide FromBigEndian;
    assert ws[0..] == ws && vs + [] == vs;
    var all := ReadValues(d, pos, end, ws[i..]);
    assert vs == [] && all.Ok? ==> vs + all.value.0 == all.value.0 && all == Ok((all.value.0, all.value.1));
    if i < |ws| && pos + ws[i] <= |d| && pos + ws[i] <= end {
      assert ws[i..][1..] == ws[i + 1..];
      var rest, v := ReadValues(d, pos + ws[i], end, ws[i + 1..]), FromBigEndian(d[pos..pos + ws[i]]);
      assert rest.Ok? ==> vs + ([v] + rest.value.0) == vs + [v] + rest.value.0;
    }
  }

  lemma {:induction false} RowsSteps(d: seq<byte>, pos: nat, ws: seq<nat>, count: nat, rows: seq<seq<nat>>)
    ensures rows == [] ==> AfterRows(rows, ReadRows(d, pos, ws, count)) == ReadRows(d, pos, ws, count)
    ensures count == 0 ==> AfterRows(rows, ReadRows(d, pos, ws, count)) == Ok((rows, pos))
    ensures count > 0 ==>
              var r, row := AfterRows(rows, ReadRows(d, pos, ws, count)), ReadValues(d, pos, |d|, ws);
              if row.Err? then r == Err(row.error)
              else r == AfterRows(rows + [row.value.0], ReadRows(d, row.value.1, ws, count - 1))
  {
    hide ReadValues;
    var all := ReadRows(d, pos, ws, count);
    assert rows + [] == rows;
    assert rows == [] && all.Ok? ==> rows + all.value.0 == all.value.0 && all == Ok((all.value.0, all.value.1));
    var row := ReadValues(d, pos, |d|, ws);
    if count > 0 && row.Ok? {
      var rest := ReadRows(d, row.value.1, ws, count - 1);
      assert rest.Ok? ==> rows + ([row.value.0] + rest.value.0) == rows + [row.value.0] + rest.value.0;
    }
  }
}
