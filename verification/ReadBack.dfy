/** Reading the optimised file: the meta data atoms in front, and one media data atom behind them. */
module ReadBack {
  import opened Wrappers
  import opened ByteCodec
  import opened AtomTree
  import opened AtomRoundTrip
  import AtomSafety
  import opened RootAtom
  import opened Mp4Atom
  import opened ChunkRewrite
  import opened Optimiser

  // ---------------------------------------------------------------- what stays readable

  /** Positions do not matter to the reader. */
  lemma {:induction false} LocatedIsWellFormed(sc: Schema, a: Atom, p: nat)
    requires WellFormed(sc, a)
    ensures WellFormed(sc, Located(a, p))
    decreases a, 1
  {
    hide Bytes, Payload, Flatten, HeaderSize;
    LocatedFields(a, p);
    if !IsFree(a.typ) {
      if Class(sc, a.typ).Known? && Class(sc, a.typ).kids {
        LocatedAreWellFormed(sc, a.kids, p + HeaderSize(a.typ, Wide(a)) + |Flatten(a.props)|);
      }
    }
  }

  lemma {:induction false} LocatedAreWellFormed(sc: Schema, ks: seq<Atom>, p: nat)
    requires WellFormedAll(sc, ks)
    ensures WellFormedAll(sc, LocatedAll(ks, p))
    decreases ks, 0
  {
    hide Bytes, Located, WellFormed;
    if ks == [] {
    } else {
      LocatedIsWellFormed(sc, ks[0], p);
      LocatedAreWellFormed(sc, ks[1..], p + |Bytes(ks[0])|);
    }
  }

  /** Nor do the values of fields, only their widths. */
  lemma {:induction false} SameWidthsWellFormed(sc: Schema, a: Atom, b: Atom)
    requires WellFormed(sc, a) && SameWidths(a, b)
    ensures WellFormed(sc, b)
    decreases a, 1
  {
    if Class(sc, a.typ).Known? && Class(sc, a.typ).kids {
      SameWidthsAllWellFormed(sc, a.kids, b.kids);
    }
  }

  lemma {:induction false} SameWidthsAllWellFormed(sc: Schema, ks: seq<Atom>, ls: seq<Atom>)
    requires WellFormedAll(sc, ks) && SameWidthsAll(ks, ls)
    ensures WellFormedAll(sc, ls)
    decreases ks, 0
  {
    hide WellFormed, SameWidths;
    if ks == [] {
    } else {
      SameWidthsWellFormed(sc, ks[0], ls[0]);
      SameWidthsAllWellFormed(sc, ks[1..], ls[1..]);
    }
  }

  lemma {:induction false} ChosenWellFormed(sc: Schema, vs: seq<Atom>, typ: seq<byte>, onlyOne: bool)
    requires WellFormedAll(sc, vs)
    ensures WellFormedAll(sc, Chosen(vs, typ, onlyOne))
  {
    hide WellFormed;
    if vs == [] {
    } else {
      ChosenWellFormed(sc, vs[1..], typ, onlyOne);
      AppendWellFormed(sc, [vs[0]], Chosen(vs[1..], typ, onlyOne));
    }
  }

  lemma {:induction false} AppendWellFormed(sc: Schema, ks: seq<Atom>, ls: seq<Atom>)
    requires WellFormedAll(sc, ks) && WellFormedAll(sc, ls)
    ensures WellFormedAll(sc, ks + ls)
  {
    hide WellFormed;
    if ks == [] {
      assert ks + ls == ls;
    } else {
      AppendWellFormed(sc, ks[1..], ls);
      assert (ks + ls)[1..] == ks[1..] + ls;
    }
  }

  /** Lists of atoms written one after the other. */
  lemma {:induction false} AppendWritten(ks: seq<Atom>, ls: seq<Atom>)
    ensures BytesAll(ks + ls) == BytesAll(ks) + BytesAll(ls)
    ensures WritableAll(ks) && WritableAll(ls) ==> WritableAll(ks + ls)
  {
    hide Bytes, Writable;
    if ks == [] {
      assert ks + ls == ls;
    } else {
      AppendWritten(ks[1..], ls);
      assert (ks + ls)[1..] == ks[1..] + ls;
    }
  }

  lemma OneWritten(a: Atom)
    ensures BytesAll([a]) == Bytes(a) && (Writable(a) ==> WritableAll([a]))
  {
    hide Bytes, Writable;
    assert [a][1..] == [];
    assert BytesAll([a]) == Bytes(a) + BytesAll([]);
  }

  // ---------------------------------------------------------------- media data

  /** A media data atom with all its data, and nothing known of them. */
  function MediaAtom(start: nat, payload: seq<byte>, use64: bool): Atom {
    Atom(MDAT, [], [], [], start, start + HeaderSize(MDAT, use64) + |payload|, |payload|)
  }

  /** Media data at the end of a file are one atom. */
  lemma MediaRead(sc: Schema, d: seq<byte>, pos: nat, payload: seq<byte>, use64: bool)
    requires Class(sc, MDAT) == Known([], false) && |d| < TWO64
    requires use64 || HeaderSize(MDAT, false) + |payload| <= MAX32
    requires var h := HeaderSize(MDAT, use64);
             pos + h + |payload| == |d| && d[pos..pos + h] == Header(MDAT, [], h + |payload|, use64)
    ensures ParseKids(sc, d, pos, |d|) == Ok([MediaAtom(pos, payload, use64)])
  {
    hide ParseHead, ParseAtom, ParseKids, ReadProps, Header;
    var h := HeaderSize(MDAT, use64);
    HeaderRoundTrip(MDAT, [], h + |payload|, use64, d, pos, |d|);
    NoProps(d, pos + h, |d|);
    ParseAtomSteps(sc, d, pos, |d|, Head(MDAT, [], h, |d|, |payload|), [], []);
    ParseKidsEnd(sc, d, |d|);
    ParseKidsStep(sc, d, pos, |d|, MediaAtom(pos, payload, use64), []);
    assert [MediaAtom(pos, payload, use64)] + [] == [MediaAtom(pos, payload, use64)];
  }

  /** Atoms, then media data: what is read is the atoms where they were written and one media data atom. */
  lemma MediaFileRoundTrip(sc: Schema, ks: seq<Atom>, payload: seq<byte>, use64: bool, d: seq<byte>)
    requires WellFormedAll(sc, ks) && WritableAll(ks) && Class(sc, MDAT) == Known([], false) && |d| < TWO64
    requires use64 || HeaderSize(MDAT, false) + |payload| <= MAX32
    requires d == BytesAll(ks) + Header(MDAT, [], HeaderSize(MDAT, use64) + |payload|, use64) + payload
    ensures ParseFile(sc, d) == Ok(LocatedAll(ks, 0) + [MediaAtom(|BytesAll(ks)|, payload, use64)])
  {
    hide ParseKids, BytesAll, LocatedAll, Header;
    var mid, h := |BytesAll(ks)|, HeaderSize(MDAT, use64);
    HeaderFields(MDAT, [], h + |payload|, use64);
    assert d[mid..mid + h] == Header(MDAT, [], h + |payload|, use64) && d[0..mid] == BytesAll(ks);
    MediaRead(sc, d, mid, payload, use64);
    RoundTripThen(sc, ks, d, 0, mid, |d|, [MediaAtom(mid, payload, use64)]);
  }

  /** Media data whose size field is 0 go on to the end of the file. */
  lemma MediaToTheEnd(sc: Schema, ks: seq<Atom>, payload: seq<byte>, d: seq<byte>)
    requires WellFormedAll(sc, ks) && WritableAll(ks) && Class(sc, MDAT) == Known([], false)
    requires d == BytesAll(ks) + BigEndian(0, 4) + MDAT + payload && |d| <= TWO64 - 0x1_0000_0000
    ensures ParseFile(sc, d) == Ok(LocatedAll(ks, 0) + [MediaAtom(|BytesAll(ks)|, payload, false)])
  {
    hide ParseHead, ParseAtom, ParseKids, ReadProps, BytesAll, LocatedAll, BigEndian, FromBigEndian;
    var mid := |BytesAll(ks)|;
    var a := MediaAtom(mid, payload, false);
    assert d[0..mid] == BytesAll(ks) && d[mid..mid + 4] == BigEndian(0, 4) && d[mid + 4..mid + 8] == MDAT;
    PowersOf256();
    BigEndianExact(0, 4);
    AtomSafety.WhereAtomEnds(d, mid, |d|);
    NoProps(d, mid + 8, |d|);
    ParseAtomSteps(sc, d, mid, |d|, Head(MDAT, [], 8, |d|, |payload|), [], []);
    ParseKidsEnd(sc, d, |d|);
    ParseKidsStep(sc, d, mid, |d|, a, []);
    assert [a] + [] == [a];
    RoundTripThen(sc, ks, d, 0, mid, |d|, [a]);
  }

  // ---------------------------------------------------------------- the optimised file

  /** The atoms in front of the media data. */
  function FrontAtoms(vs: seq<Atom>, moov: Atom): seq<Atom> {
    Chosen(vs, FTYP, true) + [moov] + Chosen(vs, UDTA, false)
  }

  lemma FrontIsReadable(sc: Schema, vs: seq<Atom>, k: nat, w: Atom, q: nat)
    requires WellFormedAll(sc, vs) && FrontWritable(vs) && IsFirst(vs, MOOV, k) && SameWidths(Located(vs[k], q), w)
    ensures WellFormedAll(sc, FrontAtoms(vs, w)) && WritableAll(FrontAtoms(vs, w))
    ensures BytesAll(FrontAtoms(vs, w))
         == BytesAll(Chosen(vs, FTYP, true)) + Bytes(w) + BytesAll(Chosen(vs, UDTA, false))
  {
    hide Bytes, BytesAll, Writable, WritableAll, WellFormed, Located, SameWidths, Chosen;
    var f, u := Chosen(vs, FTYP, true), Chosen(vs, UDTA, false);
    ChosenWellFormed(sc, vs, FTYP, true);
    ChosenWellFormed(sc, vs, UDTA, false);
    MovieIsReadable(sc, vs, k, w, q);
    AppendWellFormed(sc, f, [w]);
    AppendWellFormed(sc, f + [w], u);
    OneWritten(w);
    AppendWritten(f, [w]);
    AppendWritten(f + [w], u);
  }

  lemma MovieIsReadable(sc: Schema, vs: seq<Atom>, k: nat, w: Atom, q: nat)
    requires WellFormedAll(sc, vs) && WritableAll(Chosen(vs, MOOV, true)) && IsFirst(vs, MOOV, k)
    requires SameWidths(Located(vs[k], q), w)
    ensures WellFormedAll(sc, [w]) && Writable(w)
  {
    hide Bytes, BytesAll, Located, WellFormed;
    WellFormedAt(sc, vs, k);
    LocatedIsWellFormed(sc, vs[k], q);
    LocatedFields(vs[k], q);
    SameWidthsWellFormed(sc, Located(vs[k], q), w);
    ChosenMovie(vs, k);
    BytesOfLocated(vs[k], q);
    SameWidthsSameLength(Located(vs[k], q), w);
    assert [w][1..] == [];
  }

  lemma {:induction false} WellFormedAt(sc: Schema, ks: seq<Atom>, i: nat)
    requires WellFormedAll(sc, ks) && i < |ks|
    ensures WellFormed(sc, ks[i])
  {
    hide WellFormed;
    if i == 0 {
    } else {
      WellFormedAt(sc, ks[1..], i - 1);
    }
  }

  /**
   An optimised file written to a new file is read back as the atoms of its front, the movie atom with its
   new values among them, and one media data atom that spans the chunks and ends with the file.
   */
  lemma OptimisedReadsBack(sc: Schema, s: Source, vs: seq<Atom>, ws: seq<Atom>, tracks: seq<Track>,
                           targets: seq<MP4Atom>, ids: seq<ChunkId>, use64: bool, d': seq<byte>, k: nat)
    requires Done(s, vs, ws, tracks, targets, ids, use64, [], 0, d') && IsFirst(vs, MOOV, k)
    requires WellFormedAll(sc, vs) && FrontWritable(vs) && Class(sc, MDAT) == Known([], false) && |d'| < TWO64
    requires use64 || HeaderSize(MDAT, false) + TotalSize(s.sizes) <= MAX32
    ensures k < |ws|
    ensures ParseFile(sc, d')
         == Ok(LocatedAll(FrontAtoms(vs, ws[k]), 0) + [MediaAtom(|Front(vs)|, Joined(s, ids), use64)])
    ensures MediaStart(vs, use64, 0) == |Front(vs)| + HeaderSize(MDAT, use64)
    ensures MediaStart(vs, use64, 0) + TotalSize(s.sizes) == |d'|
  {
    hide BytesAll, Bytes, Located, SameWidths, Chosen, Joined, TotalSize, FrontWritable, TracksMoved, TablesHold;
    hide Readable, ParseFile, WellFormedAll, Header, BigEndian;
    var payload := Joined(s, ids);
    var q := |BytesAll(Chosen(vs, FTYP, true))|;
    FrontIsReadable(sc, vs, k, ws[k], q);
    ChosenMovie(vs, k);
    HeaderFields(MDAT, [], 0, use64);
    HeaderFields(MDAT, [], HeaderSize(MDAT, use64) + |payload|, use64);
    assert d' == Optimised(vs, ws[k], payload, use64) by {
      WholeFile(Optimised(vs, ws[k], payload, use64));
    }
    MediaFileRoundTrip(sc, FrontAtoms(vs, ws[k]), payload, use64, d');
  }

  lemma WholeFile(b: seq<byte>)
    ensures Splice([], 0, b) == b
  {
  }
}
