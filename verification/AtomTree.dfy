/**
 The tree of atoms (boxes) of an MP4 file as values: the bytes a writer must leave behind for a
 tree, where each node ends up, and the tree a reader builds from arbitrary bytes.
 Box structure is section 4.2 of ISO/IEC 14496-12.
 */
module AtomTree {
  import opened Wrappers
  import opened ByteCodec

  const UUID: seq<byte> := [0x75, 0x75, 0x69, 0x64]
  const FREE: seq<byte> := [0x66, 0x72, 0x65, 0x65]
  const SKIP: seq<byte> := [0x73, 0x6B, 0x69, 0x70]
  const MDAT: seq<byte> := [0x6D, 0x64, 0x61, 0x74]
  const NO_TYPE: seq<byte> := [0, 0, 0, 0]

  const MAX32: nat := 0xFFFF_FFFF
  const TWO64: nat := 0x1_0000_0000_0000_0000

  /** 64-bit unsigned arithmetic. */
  function Wrap64(n: int): (r: nat)
    ensures r < TWO64
    ensures 0 <= n < TWO64 ==> r == n
  {
    n % 0x1_0000_0000_0000_0000
  }

  /** One atom. `ext` is the extended type of a "uuid" atom; `size` counts the data after the header. */
  datatype Atom = Atom(typ: seq<byte>, ext: seq<byte>, props: seq<seq<byte>>, kids: seq<Atom>,
                       start: nat, end: nat, size: nat)

  // ---------------------------------------------------------------- what a writer must produce

  function Flatten(ps: seq<seq<byte>>): seq<byte> {
    if ps == [] then [] else ps[0] + Flatten(ps[1..])
  }

  predicate IsFree(typ: seq<byte>) {
    typ == FREE || typ == SKIP
  }

  function HeaderSize(typ: seq<byte>, use64: bool): nat {
    (if use64 then 16 else 8) + (if typ == UUID then 16 else 0)
  }

  /** Size field, type, optional 64-bit size, optional extended type. */
  function Header(typ: seq<byte>, ext: seq<byte>, total: nat, use64: bool): seq<byte> {
    (if use64 then BigEndian(1, 4) + typ + BigEndian(total, 8) else BigEndian(total, 4) + typ)
    + (if typ == UUID then ext else [])
  }

  /** A free atom too large for a 32-bit size field is the only one to choose the long header itself. */
  predicate Wide(a: Atom) {
    IsFree(a.typ) && a.size > MAX32 - 8
  }

  function Payload(a: Atom): seq<byte>
    decreases a, 1
  {
    if IsFree(a.typ) then Zeros(a.size) else Flatten(a.props) + BytesAll(a.kids)
  }

  function Bytes(a: Atom): seq<byte>
    decreases a, 2
  {
    var body := Payload(a);
    Header(a.typ, a.ext, HeaderSize(a.typ, Wide(a)) + |body|, Wide(a)) + body
  }

  function BytesAll(ks: seq<Atom>): seq<byte>
    decreases ks, 0
  {
    if ks == [] then [] else Bytes(ks[0]) + BytesAll(ks[1..])
  }

  /** The tree with the positions its nodes get when it is written at `pos`. */
  function Located(a: Atom, pos: nat): Atom
    decreases a, 1
  {
    a.(start := pos, end := pos + |Bytes(a)|, size := |Payload(a)|,
       kids := if IsFree(a.typ) then a.kids
               else LocatedAll(a.kids, pos + HeaderSize(a.typ, Wide(a)) + |Flatten(a.props)|))
  }

  function LocatedAll(ks: seq<Atom>, pos: nat): (r: seq<Atom>)
    ensures |r| == |ks|
    decreases ks, 0
  {
    if ks == [] then [] else [Located(ks[0], pos)] + LocatedAll(ks[1..], pos + |Bytes(ks[0])|)
  }

  /** Shape of the fields every atom object has. */
  predicate Shaped(a: Atom)
    decreases a, 1
  {
    && |a.typ| == 4
    && |a.ext| == (if a.typ == UUID then 16 else 0)
    && ShapedAll(a.kids)
  }

  predicate ShapedAll(ks: seq<Atom>)
    decreases ks, 0
  {
    ks == [] || (Shaped(ks[0]) && ShapedAll(ks[1..]))
  }

  /** Writing succeeds: no media data atom below, and every short header can hold its size. */
  predicate Writable(a: Atom)
    decreases a, 1
  {
    && a.typ != MDAT
    && (IsFree(a.typ) || (WritableAll(a.kids) && |Bytes(a)| <= MAX32))
  }

  predicate WritableAll(ks: seq<Atom>)
    decreases ks, 0
  {
    ks == [] || (Writable(ks[0]) && WritableAll(ks[1..]))
  }

  lemma HeaderLength(a: Atom)
    requires Shaped(a)
    ensures |Bytes(a)| == HeaderSize(a.typ, Wide(a)) + |Payload(a)|
    ensures |Bytes(a)| >= 8
  {
  }

  // ---------------------------------------------------------------- what a reader builds

  /** What is known of an atom type: fixed-width fields first, then possibly child atoms. */
  datatype AtomClass = Unknown | Known(widths: seq<nat>, kids: bool)

  /** The atom types an object is created for; every other type is unknown. */
  type Schema = map<seq<byte>, AtomClass>

  function Class(sc: Schema, typ: seq<byte>): AtomClass {
    if typ in sc then sc[typ] else Unknown
  }

  datatype ReadError = EndOfFile | TooSmall | Backward

  datatype Head = Head(typ: seq<byte>, ext: seq<byte>, hdr: nat, end: nat, size: nat)

  function Room(pos: nat, end: nat): nat {
    if pos < end then end - pos else 0
  }

  /** The size a header announces, with its length; 0 stands for "to the end of the file". */
  function Announced(d: seq<byte>, pos: nat): (r: Result<(nat, nat), ReadError>)
    ensures r.Ok? ==> pos + r.value.1 <= |d| && r.value.1 in {8, 16}
  {
    if pos + 8 > |d| then Err(EndOfFile)
    else
      var short := FromBigEndian(d[pos..pos + 4]);
      if short != 1 then Ok((short, 8))
      else if pos + 16 > |d| then Err(EndOfFile)
      else Ok((FromBigEndian(d[pos + 8..pos + 16]), 16))
  }

  /** An object's type is all zeros as soon as its first byte is zero. */
  function NormalType(t: seq<byte>): seq<byte>
    requires |t| == 4
  {
    if t[0] == 0 then NO_TYPE else t
  }

  /** The first four bytes of a header. */
  function SizeField(d: seq<byte>, pos: nat): nat {
    if pos + 4 <= |d| then FromBigEndian(d[pos..pos + 4]) else 0
  }

  /** Reads one header; sizes are 64-bit unsigned, and an atom is cut at the end of its parent. */
  function ParseHead(d: seq<byte>, pos: nat, parentEnd: nat): (r: Result<Head, ReadError>)
    ensures r.Ok? ==> pos < r.value.end <= parentEnd
    ensures r.Ok? ==> 8 <= r.value.hdr <= 32 && pos + r.value.hdr <= |d|
    ensures r.Ok? ==> r.value.size == Wrap64(r.value.end - pos - r.value.hdr)
    ensures r.Ok? ==> |r.value.typ| == 4 && (r.value.typ[0] == 0 ==> r.value.typ == NO_TYPE)
    ensures r.Ok? ==> |r.value.ext| == (if r.value.typ == UUID then 16 else 0)
    ensures r.Ok? && parentEnd <= |d| < TWO64 && SizeField(d, pos) == 0 ==> r.value.end == parentEnd
    ensures r.Ok? && 1 < SizeField(d, pos) && pos + SizeField(d, pos) <= parentEnd < TWO64 ==>
              r.value.end == pos + SizeField(d, pos)
  {
    var an := Announced(d, pos);
    if an.Err? then Err(an.error)
    else
      var (announced, base) := an.value;
      var raw := d[pos + 4..pos + 8];
      var hdr := base + (if raw == UUID then 16 else 0);
      if pos + hdr > |d| then Err(EndOfFile)
      else
        var ext := if raw == UUID then d[pos + base..pos + base + 16] else [];
        var total := if announced == 0 then |d| - pos else announced;
        var sum := Wrap64(pos + total);
        var end := if sum > parentEnd then parentEnd else sum;
        if end <= pos then Err(Backward)
        else Ok(Head(NormalType(raw), ext, hdr, end, Wrap64(end - pos - hdr)))
  }

  function ReadProps(d: seq<byte>, pos: nat, end: nat, ws: seq<nat>)
    : (r: Result<seq<seq<byte>>, ReadError>)
    ensures r.Ok? ==> |r.value| == |ws| && forall i :: 0 <= i < |ws| ==> |r.value[i]| == ws[i]
    ensures r.Ok? && ws != [] ==> pos + |Flatten(r.value)| <= end
    decreases ws
  {
    if ws == [] then Ok([])
    else if pos + ws[0] > |d| then Err(EndOfFile)
    else if pos + ws[0] > end then Err(TooSmall)
    else
      var rest := ReadProps(d, pos + ws[0], end, ws[1..]);
      if rest.Err? then rest else Ok([d[pos..pos + ws[0]]] + rest.value)
  }

  /** The fields an atom of this class reads; an unknown atom's data is one field of 32-bit length. */
  function Widths(c: AtomClass, size: nat): seq<nat> {
    match c
    case Unknown => if size > 0 then [size % 0x1_0000_0000] else []
    case Known(ws, _) => ws
  }

  function ParseAtom(sc: Schema, d: seq<byte>, pos: nat, parentEnd: nat): (r: Result<Atom, ReadError>)
    ensures r.Ok? ==> r.value.start == pos < r.value.end <= parentEnd
    decreases Room(pos, parentEnd), 0
  {
    var h := ParseHead(d, pos, parentEnd);
    if h.Err? then Err(h.error)
    else
      var Head(typ, ext, hdr, end, size) := h.value;
      var ps := ReadProps(d, pos + hdr, end, Widths(Class(sc, typ), size));
      if ps.Err? then Err(ps.error)
      else if Class(sc, typ).Known? && Class(sc, typ).kids then
        var ks := ParseKids(sc, d, pos + hdr + |Flatten(ps.value)|, end);
        if ks.Err? then Err(ks.error)
        else Ok(Atom(typ, ext, ps.value, ks.value, pos, end, size))
      else Ok(Atom(typ, ext, ps.value, [], pos, end, size))
  }

  /** Child atoms from `pos` on; fewer than eight bytes before `end` are read over. */
  function ParseKids(sc: Schema, d: seq<byte>, pos: nat, end: nat): Result<seq<Atom>, ReadError>
    decreases Room(pos, end), 1
  {
    if pos >= end then Ok([])
    else if end - pos < 8 then (if end > |d| then Err(EndOfFile) else Ok([]))
    else
      var a := ParseAtom(sc, d, pos, end);
      if a.Err? then Err(a.error)
      else
        var rest := ParseKids(sc, d, a.value.end, end);
        if rest.Err? then rest else Ok([a.value] + rest.value)
  }

  /** Fields and children of an atom whose header has been read. */
  function ParseBody(sc: Schema, d: seq<byte>, typ: seq<byte>, pos: nat, end: nat, size: nat)
    : Result<(seq<seq<byte>>, seq<Atom>), ReadError>
  {
    var ps := ReadProps(d, pos, end, Widths(Class(sc, typ), size));
    if ps.Err? then Err(ps.error)
    else if Class(sc, typ).Known? && Class(sc, typ).kids then
      var ks := ParseKids(sc, d, pos + |Flatten(ps.value)|, end);
      if ks.Err? then Err(ks.error) else Ok((ps.value, ks.value))
    else Ok((ps.value, []))
  }

  lemma {:induction false} AtomIsHeadAndBody(sc: Schema, d: seq<byte>, pos: nat, parentEnd: nat)
    ensures ParseAtom(sc, d, pos, parentEnd)
         == var h := ParseHead(d, pos, parentEnd);
            if h.Err? then Err(h.error)
            else
              var b := ParseBody(sc, d, h.value.typ, pos + h.value.hdr, h.value.end, h.value.size);
              if b.Err? then Err(b.error)
              else Ok(Atom(h.value.typ, h.value.ext, b.value.0, b.value.1, pos, h.value.end, h.value.size))
  {
    hide ParseHead, ReadProps, ParseKids, Flatten, Widths, Class;
  }

  /** What was read on the way to an atom. */
  lemma {:induction false} AtomParts(sc: Schema, d: seq<byte>, pos: nat, parentEnd: nat)
    returns (h: Head, ps: seq<seq<byte>>, ks: seq<Atom>)
    requires ParseAtom(sc, d, pos, parentEnd).Ok?
    ensures ParseHead(d, pos, parentEnd) == Ok(h)
    ensures ReadProps(d, pos + h.hdr, h.end, Widths(Class(sc, h.typ), h.size)) == Ok(ps)
    ensures if Class(sc, h.typ).Known? && Class(sc, h.typ).kids
            then ParseKids(sc, d, pos + h.hdr + |Flatten(ps)|, h.end) == Ok(ks) else ks == []
    ensures ParseAtom(sc, d, pos, parentEnd) == Ok(Atom(h.typ, h.ext, ps, ks, pos, h.end, h.size))
  {
    hide ParseHead, ReadProps, ParseKids;
    h := ParseHead(d, pos, parentEnd).value;
    ps := ReadProps(d, pos + h.hdr, h.end, Widths(Class(sc, h.typ), h.size)).value;
    ks := ParseAtom(sc, d, pos, parentEnd).value.kids;
  }

  /** The root atom spans the file and has only child atoms. */
  function ParseFile(sc: Schema, d: seq<byte>): Result<seq<Atom>, ReadError> {
    ParseKids(sc, d, 0, |d|)
  }

  predicate WellFormed(sc: Schema, a: Atom)
    decreases a, 1
  {
    && |a.typ| == 4 && (a.typ[0] == 0 ==> a.typ == NO_TYPE)
    && |a.ext| == (if a.typ == UUID then 16 else 0)
    && (IsFree(a.typ) ==> Class(sc, a.typ) == Known([], false))
    && match Class(sc, a.typ)
       case Unknown => a.kids == [] && (a.props == [] || (|a.props| == 1 && a.props[0] != []))
       case Known(ws, kids) =>
         && |a.props| == |ws| && (forall i :: 0 <= i < |ws| ==> |a.props[i]| == ws[i])
         && (if kids then WellFormedAll(sc, a.kids) else a.kids == [])
  }

  predicate WellFormedAll(sc: Schema, ks: seq<Atom>)
    decreases ks, 0
  {
    ks == [] || (WellFormed(sc, ks[0]) && WellFormedAll(sc, ks[1..]))
  }
}
