/** What the reader guarantees on arbitrary bytes. */
module AtomSafety {
  import opened Wrappers
  import opened ByteCodec
  import opened AtomTree

  function HeaderLen(d: seq<byte>, pos: nat): nat {
    (if Announced(d, pos).Ok? then Announced(d, pos).value.1 else 8)
    + (if pos + 8 <= |d| && d[pos + 4..pos + 8] == UUID then 16 else 0)
  }

  /** Siblings follow one another from `pos`, and fewer than eight bytes are left over before `end`. */
  predicate Chain(ks: seq<Atom>, pos: int, end: int) {
    if ks == [] then end - pos < 8 else ks[0].start == pos && Chain(ks[1..], ks[0].end, end)
  }

  /** The atom lies in its parent, its children chain from the end of its fields, at every level. */
  predicate Nested(sc: Schema, d: seq<byte>, a: Atom, parentEnd: nat)
    decreases a, 1
  {
    && a.start < a.end <= parentEnd
    && a.size == Wrap64(a.end - a.start - HeaderLen(d, a.start))
    && (if Class(sc, a.typ).Known? && Class(sc, a.typ).kids
        then Chain(a.kids, a.start + HeaderLen(d, a.start) + |Flatten(a.props)|, a.end) else a.kids == [])
    && NestedAll(sc, d, a.kids, a.end)
  }

  predicate NestedAll(sc: Schema, d: seq<byte>, ks: seq<Atom>, end: nat)
    decreases ks, 0
  {
    ks == [] || (Nested(sc, d, ks[0], end) && NestedAll(sc, d, ks[1..], end))
  }

  /** Whatever the bytes, a tree that is read is properly nested. */
  lemma {:induction false} ParserSafety(sc: Schema, d: seq<byte>, pos: nat, parentEnd: nat)
    ensures var r := ParseAtom(sc, d, pos, parentEnd); r.Ok? ==> Nested(sc, d, r.value, parentEnd)
    decreases Room(pos, parentEnd), 0
  {
    hide ParseAtom, ParseKids, ParseHead, ReadProps, Nested, NestedAll, Chain, HeaderLen, Wrap64, Flatten;
    if ParseAtom(sc, d, pos, parentEnd).Ok? {
      var h, ps, ks := AtomParts(sc, d, pos, parentEnd);
      HeadLength(d, pos, parentEnd);
      if Class(sc, h.typ).Known? && Class(sc, h.typ).kids {
        KidsSafety(sc, d, pos + h.hdr + |Flatten(ps)|, h.end);
      } else {
        NoKids(sc, d, h.end);
      }
      NestedFrom(sc, d, Atom(h.typ, h.ext, ps, ks, pos, h.end, h.size), parentEnd);
    }
  }

  lemma NoKids(sc: Schema, d: seq<byte>, end: nat)
    ensures NestedAll(sc, d, [], end)
  {
  }

  lemma {:induction false} NestedFrom(sc: Schema, d: seq<byte>, a: Atom, parentEnd: nat)
    requires a.start < a.end <= parentEnd
    requires a.size == Wrap64(a.end - a.start - HeaderLen(d, a.start))
    requires if Class(sc, a.typ).Known? && Class(sc, a.typ).kids
             then Chain(a.kids, a.start + HeaderLen(d, a.start) + |Flatten(a.props)|, a.end) else a.kids == []
    requires NestedAll(sc, d, a.kids, a.end)
    ensures Nested(sc, d, a, parentEnd)
  {
    hide NestedAll, Chain, HeaderLen, Wrap64, Flatten;
  }

  /**
   Where an atom ends, from the bytes of its header. The size is in the first four bytes, or for 1 in the
   eight bytes behind the type; 0 stands for the end of the file. It is cut at the end of the parent.
   */
  lemma WhereAtomEnds(d: seq<byte>, pos: nat, parentEnd: nat)
    requires pos < parentEnd <= |d| <= TWO64 - 0x1_0000_0000 && pos + 8 <= |d|
    requires FromBigEndian(d[pos..pos + 4]) == 1 ==> pos + 16 <= |d|
    ensures var short, typ := FromBigEndian(d[pos..pos + 4]), d[pos + 4..pos + 8];
            var size := if short == 1 then FromBigEndian(d[pos + 8..pos + 16]) else short;
            var hdr := (if short == 1 then 16 else 8) + (if typ == UUID then 16 else 0);
            var h := ParseHead(d, pos, parentEnd);
            && (h.Ok? ==> h.value.hdr == hdr && pos + hdr <= |d|)
            && (h.Ok? && typ[0] != 0 ==> h.value.typ == typ)
            && (h.Ok? && typ == UUID ==> h.value.ext == d[pos + hdr - 16..pos + hdr])
            && (pos + hdr <= |d| && size == 0 ==> h.Ok? && h.value.end == parentEnd)
            && (pos + hdr <= |d| && parentEnd < pos + size < TWO64 ==> h.Ok? && h.value.end == parentEnd)
            && (pos + hdr <= |d| && 0 < size <= parentEnd - pos ==> h.Ok? && h.value.end == pos + size)
  {
    hide FromBigEndian;
  }

  function Total(ws: seq<nat>): nat {
    if ws == [] then 0 else ws[0] + Total(ws[1..])
  }

  /** Fields are read if and only if the last one ends in the file and in the atom; together they are its bytes. */
  lemma {:induction false} FieldsReadIff(d: seq<byte>, pos: nat, end: nat, ws: seq<nat>)
    requires pos <= |d|
    ensures ReadProps(d, pos, end, ws).Ok? <==> ws == [] || (pos + Total(ws) <= |d| && pos + Total(ws) <= end)
    ensures var r := ReadProps(d, pos, end, ws); r.Ok? ==> Flatten(r.value) == d[pos..pos + Total(ws)]
    decreases ws
  {
    if ws == [] {
    } else if pos + ws[0] <= |d| && pos + ws[0] <= end {
      FieldsReadIff(d, pos + ws[0], end, ws[1..]);
      var n, t := pos + ws[0], Total(ws[1..]);
      assert n + t <= |d| ==> d[pos..n] + d[n..n + t] == d[pos..n + t];
      var r := ReadProps(d, pos, end, ws);
      assert r.Ok? ==> r.value[1..] == ReadProps(d, n, end, ws[1..]).value;
    }
  }

  /** The first field that does not fit decides the error: the file has too few bytes, or only the atom has. */
  lemma {:induction false} FirstOverrun(d: seq<byte>, pos: nat, end: nat, ws: seq<nat>, i: nat)
    requires i < |ws|
    requires i > 0 ==> pos + Total(ws[..i]) <= |d| && pos + Total(ws[..i]) <= end
    requires pos + Total(ws[..i + 1]) > |d| || pos + Total(ws[..i + 1]) > end
    ensures ReadProps(d, pos, end, ws) == Err(if pos + Total(ws[..i + 1]) > |d| then EndOfFile else TooSmall)
    decreases ws
  {
    assert ws[..i + 1][1..] == ws[1..][..i] && ws[..i + 1][0] == ws[0];
    if i == 0 {
    } else {
      assert ws[..i][1..] == ws[1..][..i - 1] && ws[..i][0] == ws[0];
      FirstOverrun(d, pos + ws[0], end, ws[1..], i - 1);
    }
  }

  lemma HeadLength(d: seq<byte>, pos: nat, parentEnd: nat)
    ensures var h := ParseHead(d, pos, parentEnd); h.Ok? ==> h.value.hdr == HeaderLen(d, pos)
  {
  }

  lemma {:induction false} KidsSafety(sc: Schema, d: seq<byte>, pos: nat, end: nat)
    ensures var r := ParseKids(sc, d, pos, end); r.Ok? ==> Chain(r.value, pos, end) && NestedAll(sc, d, r.value, end)
    decreases Room(pos, end), 1
  {
    hide ParseAtom;
    if end < pos + 8 {
    } else {
      ParserSafety(sc, d, pos, end);
      var a := ParseAtom(sc, d, pos, end);
      if a.Ok? {
        KidsSafety(sc, d, a.value.end, end);
      }
    }
  }

  /** A 64-bit size that carries the end of the atom past the largest file position. */
  predicate WrapsAt(d: seq<byte>, q: nat) {
    && Announced(d, q).Ok?
    && q + Announced(d, q).value.0 >= TWO64
  }

  /** One header sends the reader backwards exactly when its size wraps. */
  lemma BackwardIsWrap(d: seq<byte>, pos: nat, parentEnd: nat)
    requires pos < parentEnd && |d| <= TWO64 - 0x1_0000_0000
    requires Announced(d, pos).Ok? && pos + HeaderLen(d, pos) <= |d|
    ensures ParseHead(d, pos, parentEnd) == Err(Backward) <==> WrapsAt(d, pos)
  {
    FieldBound(d[pos..pos + 4]);
    PowersOf256();
    if Announced(d, pos).value.1 == 16 {
      FieldBound(d[pos + 8..pos + 16]);
    }
  }

  lemma {:induction false} FieldBound(s: seq<byte>)
    ensures FromBigEndian(s) < Pow256(|s|)
  {
    if s == [] {
    } else {
      FieldBound(s[..|s| - 1]);
    }
  }

  /** A file of 24 bytes: an empty atom, then a long header with one of the eight largest sizes. */
  lemma WrappedSize(total: nat)
    requires TWO64 - 8 <= total < TWO64
    ensures var d := Header(FREE, [], 8, false) + Header(MDAT, [], total, true);
            |d| == 24 && WrapsAt(d, 8) && ParseFile(map[], d) == Err(Backward)
  {
    hide BigEndian, FromBigEndian;
    var d := Header(FREE, [], 8, false) + Header(MDAT, [], total, true);
    PowersOf256();
    BigEndianExact(8, 4);
    BigEndianExact(1, 4);
    BigEndianExact(total, 8);
    assert d[0..4] == BigEndian(8, 4) && d[4..8] == FREE;
    assert d[8..12] == BigEndian(1, 4) && d[12..16] == MDAT && d[16..24] == BigEndian(total, 8);
    assert ParseAtom(map[], d, 0, 24) == Ok(Atom(FREE, [], [], [], 0, 8, 0));
    assert ParseHead(d, 8, 24) == Err(Backward);
    assert ParseAtom(map[], d, 8, 24) == Err(Backward);
    assert ParseKids(map[], d, 8, 24) == Err(Backward);
  }

  /** A header that is there in full. */
  predicate Readable(d: seq<byte>, q: nat) {
    Announced(d, q).Ok? && q + HeaderLen(d, q) <= |d|
  }

  /** The positions at which reading an atom meets a header: its own, and those of atoms inside it. */
  predicate Reached(sc: Schema, d: seq<byte>, pos: nat, parentEnd: nat, q: nat)
    decreases Room(pos, parentEnd), 0
  {
    || q == pos
    || (var h := ParseHead(d, pos, parentEnd);
        h.Ok? &&
        var ps := ReadProps(d, pos + h.value.hdr, h.value.end, Widths(Class(sc, h.value.typ), h.value.size));
        && ps.Ok? && Class(sc, h.value.typ).Known? && Class(sc, h.value.typ).kids
        && ReachedKids(sc, d, pos + h.value.hdr + |Flatten(ps.value)|, h.value.end, q))
  }

  /** The positions at which reading children meets a header: each child is reached if all before it are read. */
  predicate ReachedKids(sc: Schema, d: seq<byte>, pos: nat, end: nat, q: nat)
    decreases Room(pos, end), 1
  {
    && pos + 8 <= end
    && (Reached(sc, d, pos, end, q)
        || (var a := ParseAtom(sc, d, pos, end); a.Ok? && ReachedKids(sc, d, a.value.end, end, q)))
  }

  /** A header that is met, can be read, and wraps. */
  predicate BadHeader(sc: Schema, d: seq<byte>, pos: nat, parentEnd: nat, q: nat) {
    Reached(sc, d, pos, parentEnd, q) && Readable(d, q) && WrapsAt(d, q)
  }

  predicate BadKid(sc: Schema, d: seq<byte>, pos: nat, end: nat, q: nat) {
    ReachedKids(sc, d, pos, end, q) && Readable(d, q) && WrapsAt(d, q)
  }

  /**
   Reading goes backwards if and only if a header it meets wraps. So where none does, each header
   carries it forwards and it comes to an end, whatever the bytes in between look like.
   */
  lemma {:induction false} BackwardIff(sc: Schema, d: seq<byte>, pos: nat, parentEnd: nat)
    requires pos < parentEnd && |d| <= TWO64 - 0x1_0000_0000
    ensures ParseAtom(sc, d, pos, parentEnd) == Err(Backward) <==> exists q: nat :: BadHeader(sc, d, pos, parentEnd, q)
    decreases Room(pos, parentEnd), 0
  {
    if ParseAtom(sc, d, pos, parentEnd) == Err(Backward) {
      var q := BackwardHeader(sc, d, pos, parentEnd);
    }
    if q: nat :| BadHeader(sc, d, pos, parentEnd, q) {
      BadHeaderIsBackward(sc, d, pos, parentEnd, q);
    }
  }

  /** The same for a whole file. */
  lemma {:induction false} FileBackwardIff(sc: Schema, d: seq<byte>)
    requires |d| <= TWO64 - 0x1_0000_0000
    ensures ParseFile(sc, d) == Err(Backward) <==> exists q: nat :: BadKid(sc, d, 0, |d|, q)
  {
    hide ParseKids, BadKid;
    if ParseFile(sc, d) == Err(Backward) {
      var q := BackwardKid(sc, d, 0, |d|);
    }
    if q: nat :| BadKid(sc, d, 0, |d|, q) {
      BadKidIsBackward(sc, d, 0, |d|, q);
    }
  }

  /** The header that sent the reader backwards. */
  lemma {:induction false} BackwardHeader(sc: Schema, d: seq<byte>, pos: nat, parentEnd: nat) returns (q: nat)
    requires pos < parentEnd && |d| <= TWO64 - 0x1_0000_0000
    requires ParseAtom(sc, d, pos, parentEnd) == Err(Backward)
    ensures BadHeader(sc, d, pos, parentEnd, q) && pos <= q < |d|
    decreases Room(pos, parentEnd), 0
  {
    hide ParseAtom, ParseKids, ParseHead, ReadProps, WrapsAt, Flatten, ReachedKids, HeaderLen, Announced;
    var h, ps := BackwardParts(sc, d, pos, parentEnd);
    if ParseHead(d, pos, parentEnd).Err? {
      q := pos;
      ReadableHead(d, pos, parentEnd);
      BackwardIsWrap(d, pos, parentEnd);
    } else {
      PropsNeverBackward(d, pos + h.hdr, h.end, Widths(Class(sc, h.typ), h.size));
      q := BackwardKid(sc, d, pos + h.hdr + |Flatten(ps)|, h.end);
    }
  }

  lemma {:induction false} BackwardKid(sc: Schema, d: seq<byte>, pos: nat, end: nat) returns (q: nat)
    requires |d| <= TWO64 - 0x1_0000_0000
    requires ParseKids(sc, d, pos, end) == Err(Backward)
    ensures BadKid(sc, d, pos, end, q) && pos <= q < |d|
    decreases Room(pos, end), 1
  {
    hide ParseAtom, WrapsAt, Reached, HeaderLen, Announced;
    var a := ParseAtom(sc, d, pos, end);
    if a.Err? {
      q := BackwardHeader(sc, d, pos, end);
    } else {
      q := BackwardKid(sc, d, a.value.end, end);
    }
  }

  lemma {:induction false} BadHeaderIsBackward(sc: Schema, d: seq<byte>, pos: nat, parentEnd: nat, q: nat)
    requires pos < parentEnd && |d| <= TWO64 - 0x1_0000_0000 && BadHeader(sc, d, pos, parentEnd, q)
    ensures ParseAtom(sc, d, pos, parentEnd) == Err(Backward)
    decreases Room(pos, parentEnd), 0
  {
    hide ParseKids, ParseHead, ReadProps, WrapsAt, Flatten, ReachedKids, HeaderLen, Announced;
    if q == pos {
      BackwardIsWrap(d, pos, parentEnd);
    } else {
      var h := ParseHead(d, pos, parentEnd).value;
      var ps := ReadProps(d, pos + h.hdr, h.end, Widths(Class(sc, h.typ), h.size)).value;
      BadKidIsBackward(sc, d, pos + h.hdr + |Flatten(ps)|, h.end, q);
    }
  }

  lemma {:induction false} BadKidIsBackward(sc: Schema, d: seq<byte>, pos: nat, end: nat, q: nat)
    requires |d| <= TWO64 - 0x1_0000_0000 && BadKid(sc, d, pos, end, q)
    ensures ParseKids(sc, d, pos, end) == Err(Backward)
    decreases Room(pos, end), 1
  {
    hide ParseAtom, WrapsAt, Reached, HeaderLen, Announced;
    var a := ParseAtom(sc, d, pos, end);
    if Reached(sc, d, pos, end, q) {
      BadHeaderIsBackward(sc, d, pos, end, q);
    } else {
      BadKidIsBackward(sc, d, a.value.end, end, q);
    }
  }

  lemma ReadableHead(d: seq<byte>, pos: nat, parentEnd: nat)
    requires ParseHead(d, pos, parentEnd) == Err(Backward)
    ensures Readable(d, pos) && pos < |d|
  {
  }

  /** Where a backward outcome comes from. */
  lemma {:induction false} BackwardParts(sc: Schema, d: seq<byte>, pos: nat, parentEnd: nat)
    returns (h: Head, ps: seq<seq<byte>>)
    requires ParseAtom(sc, d, pos, parentEnd) == Err(Backward)
    ensures var r := ParseHead(d, pos, parentEnd);
            if r.Err? then r == Err(Backward)
            else
              && h == r.value
              && var p := ReadProps(d, pos + h.hdr, h.end, Widths(Class(sc, h.typ), h.size));
                 || p == Err(Backward)
                 || (&& p == Ok(ps) && Class(sc, h.typ).Known? && Class(sc, h.typ).kids
                     && ParseKids(sc, d, pos + h.hdr + |Flatten(ps)|, h.end) == Err(Backward))
  {
    hide ParseHead, ReadProps, ParseKids, Flatten;
    h, ps := Head([], [], 0, 0, 0), [];
    var r := ParseHead(d, pos, parentEnd);
    if r.Ok? {
      h := r.value;
      var p := ReadProps(d, pos + h.hdr, h.end, Widths(Class(sc, h.typ), h.size));
      if p.Ok? {
        ps := p.value;
      }
    }
  }

  lemma {:induction false} PropsNeverBackward(d: seq<byte>, pos: nat, end: nat, ws: seq<nat>)
    ensures ReadProps(d, pos, end, ws) != Err(Backward)
    decreases ws
  {
    if ws == [] {
    } else {
      PropsNeverBackward(d, pos + ws[0], end, ws[1..]);
    }
  }
}
