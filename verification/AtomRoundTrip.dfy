/** Reading back what was written, and writing back what was read. */
module AtomRoundTrip {
  import opened Wrappers
  import opened ByteCodec
  import opened AtomTree

  lemma {:induction false} WellFormedIsShaped(sc: Schema, a: Atom)
    requires WellFormed(sc, a)
    ensures Shaped(a)
    decreases a, 1
  {
    WellFormedAllIsShaped(sc, a.kids);
  }

  lemma {:induction false} WellFormedAllIsShaped(sc: Schema, ks: seq<Atom>)
    requires ks == [] || WellFormedAll(sc, ks)
    ensures ShapedAll(ks)
    decreases ks, 0
  {
    if ks == [] {
    } else {
      WellFormedIsShaped(sc, ks[0]);
      WellFormedAllIsShaped(sc, ks[1..]);
    }
  }

  lemma HeaderFields(typ: seq<byte>, ext: seq<byte>, total: nat, wide: bool)
    requires |typ| == 4 && |ext| == (if typ == UUID then 16 else 0)
    ensures var h, base := Header(typ, ext, total, wide), if wide then 16 else 8;
            && |h| == HeaderSize(typ, wide)
            && h[..4] == (if wide then BigEndian(1, 4) else BigEndian(total, 4))
            && h[4..8] == typ
            && (wide ==> h[8..16] == BigEndian(total, 8))
            && h[base..] == ext
  {
  }

  lemma AnnouncedRoundTrip(typ: seq<byte>, ext: seq<byte>, total: nat, wide: bool, d: seq<byte>, pos: nat)
    requires |typ| == 4 && |ext| == (if typ == UUID then 16 else 0)
    requires 8 <= total < TWO64 && (!wide ==> total <= MAX32)
    requires var n := HeaderSize(typ, wide); pos + n <= |d| && d[pos..pos + n] == Header(typ, ext, total, wide)
    ensures Announced(d, pos) == Ok((total, if wide then 16 else 8))
  {
    var h := Header(typ, ext, total, wide);
    HeaderFields(typ, ext, total, wide);
    PowersOf256();
    SubSlice(d, pos, h, 0, 4);
    if wide {
      SubSlice(d, pos, h, 8, 16);
      BigEndianExact(1, 4);
      BigEndianExact(total, 8);
    } else {
      BigEndianExact(total, 4);
    }
  }

  /** The header a writer leaves is read back; its size field is never 0 or 1. */
  lemma HeaderRoundTrip(typ: seq<byte>, ext: seq<byte>, total: nat, wide: bool,
                        d: seq<byte>, pos: nat, parentEnd: nat)
    requires |typ| == 4 && |ext| == (if typ == UUID then 16 else 0) && (typ[0] == 0 ==> typ == NO_TYPE)
    requires HeaderSize(typ, wide) <= total && (!wide ==> total <= MAX32)
    requires |d| < TWO64 && pos + total <= |d| && pos + total <= parentEnd
    requires d[pos..pos + HeaderSize(typ, wide)] == Header(typ, ext, total, wide)
    ensures ParseHead(d, pos, parentEnd)
         == Ok(Head(typ, ext, HeaderSize(typ, wide), pos + total, total - HeaderSize(typ, wide)))
  {
    hide Announced, FromBigEndian, BigEndian, Header;
    var h, base := Header(typ, ext, total, wide), if wide then 16 else 8;
    HeaderFields(typ, ext, total, wide);
    AnnouncedRoundTrip(typ, ext, total, wide, d, pos);
    SubSlice(d, pos, h, 4, 8);
    SubSlice(d, pos, h, base, |h|);
    assert d[pos + 4..pos + 8] == typ && d[pos + base..pos + |h|] == ext;
  }

  lemma {:induction false} PropsRoundTrip(d: seq<byte>, pos: nat, end: nat, ps: seq<seq<byte>>, ws: seq<nat>)
    requires |ps| == |ws| && forall i :: 0 <= i < |ws| ==> |ps[i]| == ws[i]
    requires pos + |Flatten(ps)| <= end && pos + |Flatten(ps)| <= |d|
    requires d[pos..pos + |Flatten(ps)|] == Flatten(ps)
    ensures ReadProps(d, pos, end, ws) == Ok(ps)
    decreases ws
  {
    if ws == [] {
      assert ps == [];
    } else {
      var n := |Flatten(ps)|;
      SubSlice(d, pos, Flatten(ps), 0, ws[0]);
      SubSlice(d, pos, Flatten(ps), ws[0], n);
      assert Flatten(ps)[..ws[0]] == ps[0] && Flatten(ps)[ws[0]..] == Flatten(ps[1..]);
      PropsRoundTrip(d, pos + ws[0], end, ps[1..], ws[1..]);
      assert ps == [ps[0]] + ps[1..];
    }
  }

  /** The fields the reader expects are those the tree has. */
  lemma WidthsMatch(sc: Schema, a: Atom)
    requires WellFormed(sc, a) && Writable(a)
    ensures var ws := Widths(Class(sc, a.typ), |Payload(a)|);
            |a.props| == |ws| && forall i :: 0 <= i < |ws| ==> |a.props[i]| == ws[i]
  {
    if Class(sc, a.typ).Unknown? {
      WellFormedIsShaped(sc, a);
      HeaderLength(a);
      assert BytesAll(a.kids) == [];
      if a.props != [] {
        assert Flatten(a.props) == a.props[0] + Flatten([]);
      }
    }
  }

  lemma {:induction false} ParseAtomSteps(sc: Schema, d: seq<byte>, pos: nat, parentEnd: nat,
                       h: Head, ps: seq<seq<byte>>, ks: seq<Atom>)
    requires ParseHead(d, pos, parentEnd) == Ok(h)
    requires ReadProps(d, pos + h.hdr, h.end, Widths(Class(sc, h.typ), h.size)) == Ok(ps)
    requires if Class(sc, h.typ).Known? && Class(sc, h.typ).kids
             then ParseKids(sc, d, pos + h.hdr + |Flatten(ps)|, h.end) == Ok(ks) else ks == []
    ensures ParseAtom(sc, d, pos, parentEnd) == Ok(Atom(h.typ, h.ext, ps, ks, pos, h.end, h.size))
  {
    hide ParseHead, ReadProps, ParseKids, Flatten, Widths;
  }

  /** The header and the body are the two parts of the written bytes. */
  lemma SplitBytes(a: Atom, d: seq<byte>, pos: nat)
    requires Shaped(a) && pos + |Bytes(a)| <= |d| && d[pos..pos + |Bytes(a)|] == Bytes(a)
    ensures var hdr, total := HeaderSize(a.typ, Wide(a)), |Bytes(a)|;
            && total == hdr + |Payload(a)|
            && d[pos..pos + hdr] == Header(a.typ, a.ext, total, Wide(a))
            && d[pos + hdr..pos + total] == Payload(a)
  {
    hide Header, Payload, BytesAll, Flatten;
    var hdr, total := HeaderSize(a.typ, Wide(a)), HeaderSize(a.typ, Wide(a)) + |Payload(a)|;
    HeaderFields(a.typ, a.ext, total, Wide(a));
    assert Bytes(a)[0..hdr] == Header(a.typ, a.ext, total, Wide(a)) && Bytes(a)[hdr..total] == Payload(a);
    SubSlice(d, pos, Bytes(a), 0, hdr);
    SubSlice(d, pos, Bytes(a), hdr, total);
  }

  /** The fields and the children are the two parts of the body. */
  lemma SplitPayload(a: Atom, d: seq<byte>, pos: nat)
    requires !IsFree(a.typ) && pos + |Payload(a)| <= |d| && d[pos..pos + |Payload(a)|] == Payload(a)
    ensures var n, total := |Flatten(a.props)|, |Payload(a)|;
            && total == n + |BytesAll(a.kids)|
            && d[pos..pos + n] == Flatten(a.props)
            && d[pos + n..pos + total] == BytesAll(a.kids)
  {
    var n, total := |Flatten(a.props)|, |Payload(a)|;
    SubSlice(d, pos, Payload(a), 0, n);
    SubSlice(d, pos, Payload(a), n, total);
  }

  lemma {:induction false} ParseKidsStep(sc: Schema, d: seq<byte>, pos: nat, end: nat, a: Atom, rest: seq<Atom>)
    requires end - pos >= 8
    requires ParseAtom(sc, d, pos, end) == Ok(a)
    requires ParseKids(sc, d, a.end, end) == Ok(rest)
    ensures ParseKids(sc, d, pos, end) == Ok([a] + rest)
  {
    hide ParseAtom;
  }

  lemma {:induction false} ParseKidsEnd(sc: Schema, d: seq<byte>, end: nat)
    ensures ParseKids(sc, d, end, end) == Ok([])
  {
  }

  lemma {:induction false} LocatedFields(a: Atom, pos: nat)
    ensures Located(a, pos) == Atom(a.typ, a.ext, a.props, Located(a, pos).kids, pos, pos + |Bytes(a)|, |Payload(a)|)
    ensures Located(a, pos).kids == if IsFree(a.typ) then a.kids
              else LocatedAll(a.kids, pos + HeaderSize(a.typ, Wide(a)) + |Flatten(a.props)|)
  {
  }

  /** The header found in front of the written bytes of `a`. */
  predicate HeadOf(a: Atom, h: Head, pos: nat) {
    h == Head(a.typ, a.ext, HeaderSize(a.typ, Wide(a)), pos + |Bytes(a)|, |Payload(a)|)
  }

  lemma ShortFits(a: Atom)
    requires Shaped(a) && (IsFree(a.typ) || |Bytes(a)| <= MAX32)
    ensures HeaderSize(a.typ, Wide(a)) <= |Bytes(a)| && (!Wide(a) ==> |Bytes(a)| <= MAX32)
  {
    hide BytesAll, Flatten;
  }

  lemma ReadHeadOf(a: Atom, d: seq<byte>, pos: nat, parentEnd: nat) returns (h: Head)
    requires Shaped(a) && (a.typ[0] == 0 ==> a.typ == NO_TYPE) && (IsFree(a.typ) || |Bytes(a)| <= MAX32)
    requires |d| < TWO64 && pos + |Bytes(a)| <= |d| && pos + |Bytes(a)| <= parentEnd
    requires d[pos..pos + |Bytes(a)|] == Bytes(a)
    ensures HeadOf(a, h, pos) && h.end == pos + h.hdr + h.size
    ensures ParseHead(d, pos, parentEnd) == Ok(h)
    ensures d[pos + h.hdr..h.end] == Payload(a)
  {
    hide Bytes, Payload, Header, ParseHead;
    SplitBytes(a, d, pos);
    ShortFits(a);
    HeaderRoundTrip(a.typ, a.ext, |Bytes(a)|, Wide(a), d, pos, parentEnd);
    h := Head(a.typ, a.ext, HeaderSize(a.typ, Wide(a)), pos + |Bytes(a)|, |Payload(a)|);
  }

  /** Reading the written bytes of a tree rebuilds the tree, with every node where it was written. */
  lemma {:induction false} RoundTrip(sc: Schema, a: Atom, d: seq<byte>, pos: nat, parentEnd: nat)
    requires WellFormed(sc, a) && Writable(a)
    requires |d| < TWO64 && pos + |Bytes(a)| <= |d| && pos + |Bytes(a)| <= parentEnd
    requires d[pos..pos + |Bytes(a)|] == Bytes(a)
    ensures ParseAtom(sc, d, pos, parentEnd) == Ok(Located(a, pos))
    decreases a, 1
  {
    hide ParseAtom, ParseKids, ParseHead, ReadProps, Located, BytesAll, Flatten;
    WellFormedIsShaped(sc, a);
    var h := ReadHeadOf(a, d, pos, parentEnd);
    LocatedFields(a, pos);
    if IsFree(a.typ) {
      NoProps(d, pos + h.hdr, h.end);
      assert a.props == [];
    } else {
      BodyRoundTrip(sc, a, d, pos, h);
    }
    ParseAtomSteps(sc, d, pos, parentEnd, h, a.props, Located(a, pos).kids);
  }

  lemma NoProps(d: seq<byte>, pos: nat, end: nat)
    ensures ReadProps(d, pos, end, []) == Ok([])
  {
  }

  lemma {:induction false} BodyRoundTrip(sc: Schema, a: Atom, d: seq<byte>, pos: nat, h: Head)
    requires WellFormed(sc, a) && Writable(a) && !IsFree(a.typ)
    requires HeadOf(a, h, pos) && h.end == pos + h.hdr + h.size <= |d| < TWO64
    requires d[pos + h.hdr..h.end] == Payload(a)
    ensures ReadProps(d, pos + h.hdr, h.end, Widths(Class(sc, h.typ), h.size)) == Ok(a.props)
    ensures var mid := pos + h.hdr + |Flatten(a.props)|;
            if Class(sc, h.typ).Known? && Class(sc, h.typ).kids
            then ParseKids(sc, d, mid, h.end) == Ok(LocatedAll(a.kids, mid)) else LocatedAll(a.kids, mid) == []
    decreases a, 0
  {
    hide ParseAtom, ParseKids, ParseHead, ReadProps, BytesAll, Flatten;
    SplitPayload(a, d, pos + h.hdr);
    WidthsMatch(sc, a);
    PropsRoundTrip(d, pos + h.hdr, h.end, a.props, Widths(Class(sc, a.typ), h.size));
    if Class(sc, a.typ).Known? && Class(sc, a.typ).kids {
      RoundTripAll(sc, a.kids, d, pos + h.hdr + |Flatten(a.props)|, h.end);
    }
  }

  /** The first atom of a list and what follows it. */
  lemma FirstKid(ks: seq<Atom>, d: seq<byte>, pos: nat, end: nat)
    requires ks != [] && pos + |BytesAll(ks)| == end <= |d| && d[pos..end] == BytesAll(ks)
    ensures var n := |Bytes(ks[0])|;
            && pos + n + |BytesAll(ks[1..])| == end
            && d[pos..pos + n] == Bytes(ks[0]) && d[pos + n..end] == BytesAll(ks[1..])
  {
    hide Bytes;
    var b, n := BytesAll(ks), |Bytes(ks[0])|;
    SubSlice(d, pos, b, 0, n);
    SubSlice(d, pos, b, n, |b|);
    assert b[0..n] == Bytes(ks[0]) && b[n..|b|] == BytesAll(ks[1..]);
  }

  lemma {:induction false} RoundTripAll(sc: Schema, ks: seq<Atom>, d: seq<byte>, pos: nat, end: nat)
    requires WellFormedAll(sc, ks) && WritableAll(ks)
    requires |d| < TWO64 && pos + |BytesAll(ks)| == end <= |d|
    requires d[pos..end] == BytesAll(ks)
    ensures ParseKids(sc, d, pos, end) == Ok(LocatedAll(ks, pos))
    decreases ks, 1
  {
    hide ParseKids, BytesAll, LocatedAll;
    ParseKidsEnd(sc, d, end);
    RoundTripThen(sc, ks, d, pos, end, end, []);
    assert LocatedAll(ks, pos) + [] == LocatedAll(ks, pos);
  }

  /** Siblings come back in front of whatever else their parent holds. */
  lemma {:induction false} RoundTripThen(sc: Schema, ks: seq<Atom>, d: seq<byte>, pos: nat, mid: nat, end: nat,
                                         rest: seq<Atom>)
    requires WellFormedAll(sc, ks) && WritableAll(ks)
    requires |d| < TWO64 && pos + |BytesAll(ks)| == mid <= end <= |d|
    requires d[pos..mid] == BytesAll(ks) && ParseKids(sc, d, mid, end) == Ok(rest)
    ensures ParseKids(sc, d, pos, end) == Ok(LocatedAll(ks, pos) + rest)
    decreases ks, 0
  {
    hide ParseAtom, ParseKids, Bytes, Located, WellFormed, Writable, Shaped, Payload, Wide, HeaderSize;
    if ks == [] {
      assert [] + rest == rest;
    } else {
      var a, n := Located(ks[0], pos), |Bytes(ks[0])|;
      var others := LocatedAll(ks[1..], pos + n);
      WellFormedIsShaped(sc, ks[0]);
      HeaderLength(ks[0]);
      FirstKid(ks, d, pos, mid);
      RoundTrip(sc, ks[0], d, pos, end);
      RoundTripThen(sc, ks[1..], d, pos + n, mid, end, rest);
      LocatedFields(ks[0], pos);
      ParseKidsStep(sc, d, pos, end, a, others + rest);
      assert [a] + (others + rest) == [a] + others + rest;
    }
  }

  /** Whole files: writing a list of top-level atoms and reading the file gives them back in place. */
  lemma FileRoundTrip(sc: Schema, ks: seq<Atom>)
    requires WellFormedAll(sc, ks) && WritableAll(ks) && |BytesAll(ks)| < TWO64
    ensures ParseFile(sc, BytesAll(ks)) == Ok(LocatedAll(ks, 0))
  {
    var d := BytesAll(ks);
    assert d[0..|d|] == d;
    RoundTripAll(sc, ks, d, 0, |d|);
  }

  // ---------------------------------------------------------------- writing what was read

  /** Below 4 GB the data field of an unknown atom is the whole of its data. */
  lemma UnknownIsWhole(d: seq<byte>, pos: nat, hdr: nat, end: nat, size: nat, c: AtomClass)
    requires 8 <= hdr <= 32 && pos < end <= |d| <= MAX32 && size == Wrap64(end - pos - hdr)
    ensures var ps := ReadProps(d, pos + hdr, end, Widths(c, size));
            c.Unknown? && ps.Ok? ==> ps.value == [] || (|ps.value| == 1 && ps.value[0] != [])
  {
    if c.Unknown? && size > 0 {
      var w := size % 0x1_0000_0000;
      assert Widths(c, size) == [w];
      if end < pos + hdr {
        assert w > 0;
      } else {
        assert w == size;
      }
    }
  }

  /** What is read from a file below 4 GB is well formed, for any schema that knows the free atoms. */
  lemma {:induction false} ParsedIsWellFormed(sc: Schema, d: seq<byte>, pos: nat, parentEnd: nat)
    requires parentEnd <= |d| <= MAX32 && Class(sc, FREE) == Class(sc, SKIP) == Known([], false)
    ensures var r := ParseAtom(sc, d, pos, parentEnd); r.Ok? ==> WellFormed(sc, r.value)
    decreases Room(pos, parentEnd), 0
  {
    hide ParseAtom, ParseKids, ParseHead, ReadProps, WellFormed;
    if ParseAtom(sc, d, pos, parentEnd).Ok? {
      var h, ps, ks := AtomParts(sc, d, pos, parentEnd);
      UnknownIsWhole(d, pos, h.hdr, h.end, h.size, Class(sc, h.typ));
      if Class(sc, h.typ).Known? && Class(sc, h.typ).kids {
        ParsedKidsAreWellFormed(sc, d, pos + h.hdr + |Flatten(ps)|, h.end);
      }
      WellFormedFrom(sc, h, ps, ks, pos);
    }
  }

  lemma {:induction false} WellFormedFrom(sc: Schema, h: Head, ps: seq<seq<byte>>, ks: seq<Atom>, pos: nat)
    requires Class(sc, FREE) == Class(sc, SKIP) == Known([], false)
    requires |h.typ| == 4 && (h.typ[0] == 0 ==> h.typ == NO_TYPE)
    requires |h.ext| == (if h.typ == UUID then 16 else 0)
    requires Class(sc, h.typ).Unknown? ==> ks == [] && (ps == [] || (|ps| == 1 && ps[0] != []))
    requires Class(sc, h.typ).Known? ==> |ps| == |Class(sc, h.typ).widths|
    requires Class(sc, h.typ).Known? ==> forall i :: 0 <= i < |ps| ==> |ps[i]| == Class(sc, h.typ).widths[i]
    requires Class(sc, h.typ).Known? ==> if Class(sc, h.typ).kids then WellFormedAll(sc, ks) else ks == []
    ensures WellFormed(sc, Atom(h.typ, h.ext, ps, ks, pos, h.end, h.size))
  {
  }

  lemma {:induction false} ParsedKidsAreWellFormed(sc: Schema, d: seq<byte>, pos: nat, end: nat)
    requires end <= |d| <= MAX32 && Class(sc, FREE) == Class(sc, SKIP) == Known([], false)
    ensures var r := ParseKids(sc, d, pos, end); r.Ok? ==> WellFormedAll(sc, r.value)
    decreases Room(pos, end), 1
  {
    if end < pos + 8 {
    } else {
      ParsedIsWellFormed(sc, d, pos, end);
      var a := ParseAtom(sc, d, pos, end);
      if a.Ok? {
        ParsedKidsAreWellFormed(sc, d, a.value.end, end);
      }
    }
  }

  /** Reading a file, writing its tree and reading that again gives the same tree at its new places. */
  lemma Rewriting(sc: Schema, d: seq<byte>)
    requires |d| <= MAX32 && Class(sc, FREE) == Class(sc, SKIP) == Known([], false)
    requires ParseFile(sc, d).Ok?
    requires var ks := ParseFile(sc, d).value; WritableAll(ks) && |BytesAll(ks)| < TWO64
    ensures var ks := ParseFile(sc, d).value; ParseFile(sc, BytesAll(ks)) == Ok(LocatedAll(ks, 0))
  {
    ParsedKidsAreWellFormed(sc, d, 0, |d|);
    FileRoundTrip(sc, ParseFile(sc, d).value);
  }
}
