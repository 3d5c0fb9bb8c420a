/** The two-pass "optimal" write of a whole file: meta data first, media data last, then meta data again. */
module RootAtom {
  import opened ByteCodec
  import opened AtomTree
  import opened AtomRoundTrip
  import opened Mp4File
  import opened Mp4Atom

  const FTYP: seq<byte> := [0x66, 0x74, 0x79, 0x70]
  const MOOV: seq<byte> := [0x6D, 0x6F, 0x6F, 0x76]
  const UDTA: seq<byte> := [0x75, 0x64, 0x74, 0x61]

  /** The atoms of one type, in order: all of them or only the first. */
  function Chosen(vs: seq<Atom>, typ: seq<byte>, onlyOne: bool): seq<Atom> {
    if vs == [] then []
    else if vs[0].typ == typ then [vs[0]] + (if onlyOne then [] else Chosen(vs[1..], typ, onlyOne))
    else Chosen(vs[1..], typ, onlyOne)
  }

  lemma {:induction false} ChosenSplit(vs: seq<Atom>, typ: seq<byte>, onlyOne: bool, i: nat)
    requires i <= |vs| && (onlyOne ==> Chosen(vs[..i], typ, onlyOne) == [])
    ensures Chosen(vs, typ, onlyOne) == Chosen(vs[..i], typ, onlyOne) + Chosen(vs[i..], typ, onlyOne)
  {
    if i == 0 {
      assert vs[..0] == [] && vs[0..] == vs;
    } else {
      assert vs[..i][1..] == vs[1..][..i - 1] && vs[1..][i - 1..] == vs[i..] && vs[..i][0] == vs[0];
      ChosenSplit(vs[1..], typ, onlyOne, i - 1);
    }
  }

  lemma ChosenSnoc(vs: seq<Atom>, v: Atom, typ: seq<byte>, onlyOne: bool)
    requires onlyOne ==> Chosen(vs, typ, onlyOne) == []
    ensures Chosen(vs + [v], typ, onlyOne) == Chosen(vs, typ, onlyOne) + (if v.typ == typ then [v] else [])
  {
    assert (vs + [v])[..|vs|] == vs && (vs + [v])[|vs|..] == [v];
    ChosenSplit(vs + [v], typ, onlyOne, |vs|);
    assert [v][1..] == [];
  }

  lemma {:induction false} ChosenFrame(vs: seq<Atom>, ws: seq<Atom>, typ: seq<byte>, onlyOne: bool)
    requires |vs| == |ws| && forall i :: 0 <= i < |vs| ==> vs[i].typ == ws[i].typ
    requires forall i :: 0 <= i < |vs| && vs[i].typ == typ ==> vs[i] == ws[i]
    ensures Chosen(vs, typ, onlyOne) == Chosen(ws, typ, onlyOne)
  {
    if vs == [] {
    } else {
      ChosenFrame(vs[1..], ws[1..], typ, onlyOne);
    }
  }

  /** `k` is the first child of its type. */
  ghost predicate IsFirst(vs: seq<Atom>, typ: seq<byte>, k: nat) {
    k < |vs| && vs[k].typ == typ && forall j :: 0 <= j < k ==> vs[j].typ != typ
  }

  ghost predicate IsLast(vs: seq<Atom>, typ: seq<byte>, k: nat) {
    k < |vs| && vs[k].typ == typ && forall j :: k < j < |vs| ==> vs[j].typ != typ
  }

  lemma {:induction false} FirstIsChosen(vs: seq<Atom>, typ: seq<byte>, k: nat)
    requires IsFirst(vs, typ, k)
    ensures Chosen(vs, typ, true) == [vs[k]]
  {
    if k == 0 {
    } else {
      FirstIsChosen(vs[1..], typ, k - 1);
    }
  }

  /** Only atoms of one type have new positions; the first of them starts at `p` if it was the only one written. */
  ghost predicate TypeWritten(vs: seq<Atom>, ws: seq<Atom>, typ: seq<byte>, first: bool, p: nat) {
    && |vs| == |ws| && (forall j :: 0 <= j < |vs| ==> vs[j].typ == ws[j].typ)
    && (forall j :: 0 <= j < |vs| && vs[j].typ != typ ==> ws[j] == vs[j])
    && (first ==> forall k: nat :: IsFirst(vs, typ, k) ==> ws[k] == Located(vs[k], p))
  }

  method WriteAtomType(root: MP4Atom, file: MP4File, typ: seq<byte>, onlyOne: bool) returns (ok: bool)
    requires root.Valid()
    modifies (root.Repr - {root})`start, (root.Repr - {root})`end, (root.Repr - {root})`size, file
    ensures root.Valid()
    ensures ok <==> WritableAll(Chosen(old(root.Views()), typ, onlyOne))
    ensures var b := BytesAll(Chosen(old(root.Views()), typ, onlyOne));
            ok ==> file.data == Splice(old(file.data), old(file.pos), b) && file.pos == old(file.pos) + |b|
    ensures TypeWritten(old(root.Views()), root.Views(), typ, ok && onlyOne, old(file.pos))
  {
    hide Splice, Bytes, BytesAll, Located, Writable, WritableAll, Chosen, MP4Atom.View, MP4Atom.Views, MP4Atom.ViewKids;
    hide TypeWritten;
    ghost var vs, d, p := root.Views(), file.data, file.pos;
    assert forall j :: 0 <= j < |root.kids| ==> vs[j] == root.kids[j].View();
    ghost var done := [];
    StartChoosing(vs, typ, onlyOne, d, p);
    for i := 0 to |root.kids|
      invariant Choosing(root, vs, typ, onlyOne, i, done)
      invariant file.data == Splice(d, p, BytesAll(done)) && file.pos == p + |BytesAll(done)|
    {
      NextChoice(vs, typ, onlyOne, i, done);
      if root.kids[i].typ == typ {
        ok := WriteChoice(root, file, i, vs, typ, onlyOne, done);
        if !ok {
          TypesSeen(root, vs, typ, false, p);
          return;
        }
        SpliceChoice(d, p, done, vs[i]);
        done := done + [vs[i]];
        if onlyOne {
          assert done == [vs[i]];
          TypesSeen(root, vs, typ, true, p);
          return;
        }
      }
    }
    assert vs[..|vs|] == vs;
    TypesSeen(root, vs, typ, onlyOne, p);
    ok := true;
  }

  lemma TypesSeen(root: MP4Atom, vs: seq<Atom>, typ: seq<byte>, first: bool, p: nat)
    requires root.Valid() && |vs| == |root.kids| && forall j :: 0 <= j < |vs| ==> vs[j].typ == root.kids[j].typ
    requires forall j :: 0 <= j < |vs| && vs[j].typ != typ ==> root.kids[j].View() == vs[j]
    requires first ==> forall k: nat :: IsFirst(vs, typ, k) ==> root.kids[k].View() == Located(vs[k], p)
    ensures TypeWritten(vs, root.Views(), typ, first, p)
  {
    hide Located, MP4Atom.View, MP4Atom.Views, MP4Atom.ViewKids;
    assert forall j :: 0 <= j < |vs| ==> root.Views()[j] == root.kids[j].View();
  }

  method WriteChoice(root: MP4Atom, file: MP4File, i: nat,
                     ghost vs: seq<Atom>, typ: seq<byte>, onlyOne: bool, ghost done: seq<Atom>) returns (ok: bool)
    requires Choosing(root, vs, typ, onlyOne, i, done) && i < |vs| && vs[i].typ == typ
    modifies root.kids[i].Repr`start, root.kids[i].Repr`end, root.kids[i].Repr`size, file
    ensures root.Valid()
    ensures ok <==> Writable(vs[i])
    ensures ok ==> root.kids[i].View() == Located(vs[i], old(file.pos))
    ensures ok ==> file.data == Splice(old(file.data), old(file.pos), Bytes(vs[i]))
    ensures ok ==> file.pos == old(file.pos) + |Bytes(vs[i])|
    ensures forall j :: 0 <= j < |vs| && (i < j || vs[j].typ != typ) ==> root.kids[j].View() == vs[j]
  {
    hide Splice, Bytes, BytesAll, Located, Writable, WritableAll, Chosen, MP4Atom.View, MP4Atom.Views;
    ok := root.kids[i].Write(file);
  }

  /** Loop state of `WriteAtomType`: `done` is what has been written of the first `i` children. */
  ghost predicate Choosing(root: MP4Atom, vs: seq<Atom>, typ: seq<byte>, onlyOne: bool, i: nat, done: seq<Atom>)
    reads root, root.Repr
  {
    && root.Valid() && |vs| == |root.kids| && i <= |vs|
    && (forall j :: 0 <= j < |vs| ==> vs[j].typ == root.kids[j].typ)
    && done == Chosen(vs[..i], typ, onlyOne) && WritableAll(done)
    && (onlyOne ==> done == [] && forall j :: 0 <= j < i ==> vs[j].typ != typ)
    && (forall j :: 0 <= j < |vs| && (i <= j || vs[j].typ != typ) ==> root.kids[j].View() == vs[j])
  }

  lemma StartChoosing(vs: seq<Atom>, typ: seq<byte>, onlyOne: bool, d: seq<byte>, p: nat)
    ensures Chosen(vs[..0], typ, onlyOne) == [] && WritableAll([])
    ensures Splice(d, p, BytesAll([])) == d && BytesAll([]) == []
  {
    EmptyKids(d, p);
    assert vs[..0] == [];
  }

  lemma {:induction false} NextChoice(vs: seq<Atom>, typ: seq<byte>, onlyOne: bool, i: nat, done: seq<Atom>)
    requires i < |vs| && done == Chosen(vs[..i], typ, onlyOne) && (onlyOne ==> done == []) && WritableAll(done)
    ensures Chosen(vs[..i + 1], typ, onlyOne) == done + (if vs[i].typ == typ then [vs[i]] else [])
    ensures vs[i].typ == typ && onlyOne ==> Chosen(vs, typ, onlyOne) == [vs[i]]
    ensures vs[i].typ == typ && Writable(vs[i]) ==> WritableAll(done + [vs[i]])
    ensures vs[i].typ == typ && !Writable(vs[i]) ==> !WritableAll(Chosen(vs, typ, onlyOne))
  {
    hide Writable;
    assert vs[..i + 1] == vs[..i] + [vs[i]];
    ChosenSnoc(vs[..i], vs[i], typ, onlyOne);
    if vs[i].typ == typ {
      ChosenSplit(vs, typ, onlyOne, i);
      assert vs[i..][0] == vs[i];
      if Writable(vs[i]) {
        WritableAllSnoc(done, vs[i]);
      } else {
        WritableAllAt(Chosen(vs, typ, onlyOne), |done|);
      }
    }
  }

  lemma SpliceChoice(d: seq<byte>, p: nat, done: seq<Atom>, v: Atom)
    ensures BytesAll(done + [v]) == BytesAll(done) + Bytes(v)
    ensures Splice(Splice(d, p, BytesAll(done)), p + |BytesAll(done)|, Bytes(v)) == Splice(d, p, BytesAll(done + [v]))
  {
    hide Splice, Bytes, BytesAll;
    BytesAllSnoc(done, v);
    SpliceAppend(d, p, BytesAll(done), Bytes(v));
  }

  /** The last media data atom, or -1. */
  method GetLastMdatIndex(root: MP4Atom) returns (m: int)
    ensures -1 <= m < |root.kids|
    ensures m >= 0 ==> root.kids[m].typ == MDAT
    ensures forall j :: m < j < |root.kids| ==> root.kids[j].typ != MDAT
  {
    m := |root.kids| - 1;
    while m >= 0
      invariant -1 <= m < |root.kids|
      invariant forall j :: m < j < |root.kids| ==> root.kids[j].typ != MDAT
    {
      if root.kids[m].typ == MDAT {
        return;
      }
      m := m - 1;
    }
  }

  /** What precedes the media data in an optimised file. */
  function Front(vs: seq<Atom>): seq<byte> {
    BytesAll(Chosen(vs, FTYP, true)) + BytesAll(Chosen(vs, MOOV, true)) + BytesAll(Chosen(vs, UDTA, false))
  }

  predicate FrontWritable(vs: seq<Atom>) {
    && WritableAll(Chosen(vs, FTYP, true))
    && WritableAll(Chosen(vs, MOOV, true))
    && WritableAll(Chosen(vs, UDTA, false))
  }

  ghost predicate HasMdat(vs: seq<Atom>) {
    exists m: nat :: IsLast(vs, MDAT, m)
  }

  ghost predicate HasMoov(vs: seq<Atom>) {
    exists k: nat :: IsFirst(vs, MOOV, k)
  }

  /** Where the first pass puts the movie atom. */
  ghost predicate MoviePlaced(vs: seq<Atom>, ws: seq<Atom>, p: nat) {
    && |vs| == |ws| && (forall j :: 0 <= j < |vs| ==> vs[j].typ == ws[j].typ)
    && (forall k: nat :: IsFirst(vs, MOOV, k) ==> ws[k] == Located(vs[k], p + |BytesAll(Chosen(vs, FTYP, true))|))
  }

  /** Where the first pass puts the movie atom and the media data. */
  ghost predicate Placed(vs: seq<Atom>, ws: seq<Atom>, p: nat) {
    MoviePlaced(vs, ws, p) && forall m: nat :: IsLast(vs, MDAT, m) ==> ws[m].start == p + |Front(vs)|
  }

  lemma MediaPlaced(vs: seq<Atom>, us: seq<Atom>, m: nat, p: nat)
    requires MoviePlaced(vs, us, p) && IsLast(vs, MDAT, m)
    ensures Placed(vs, us[m := us[m].(start := p + |Front(vs)|)], p)
  {
    hide Front, Located, BytesAll, Chosen;
  }

  method BeginOptimalWrite(root: MP4Atom, file: MP4File, use64: bool) returns (ok: bool)
    requires root.Valid()
    modifies (root.Repr - {root})`start, (root.Repr - {root})`end, (root.Repr - {root})`size, file
    ensures root.Valid()
    ensures ok <==> FrontWritable(old(root.Views())) && HasMdat(old(root.Views()))
    ensures var b := Front(old(root.Views())) + Header(MDAT, [], 0, use64);
            ok ==> file.data == Splice(old(file.data), old(file.pos), b) && file.pos == old(file.pos) + |b|
    ensures ok ==> Placed(old(root.Views()), root.Views(), old(file.pos))
  {
    hide Splice, Bytes, BytesAll, Located, Writable, WritableAll, Chosen, Header, FrontWritable, Placed;
    hide MP4Atom.View, MP4Atom.Views, MP4Atom.ViewKids, IsFirst, IsLast, MoviePlaced;
    ghost var vs, d, p := root.Views(), file.data, file.pos;
    FrontSplices(d, p, BytesAll(Chosen(vs, FTYP, true)), BytesAll(Chosen(vs, MOOV, true)),
                 BytesAll(Chosen(vs, UDTA, false)), Header(MDAT, [], 0, use64));
    ok := WriteFront(root, file);
    if !ok {
      return;
    }
    var m := GetLastMdatIndex(root);
    LastMedia(vs, m);
    if m < 0 {
      return false;
    }
    MediaPlaced(vs, root.Views(), m, p);
    BeginMdat(root, m, file, use64);
  }

  /** Writes the header of one media data atom; the others do not notice. */
  method BeginMdat(root: MP4Atom, m: nat, file: MP4File, use64: bool)
    requires root.Valid() && m < |root.kids| && root.kids[m].typ == MDAT
    modifies {root.kids[m]}`start, file
    ensures root.Valid()
    ensures root.Views() == old(root.Views())[m := old(root.Views()[m]).(start := old(file.pos))]
    ensures var h := Header(MDAT, [], 0, use64);
            file.data == Splice(old(file.data), old(file.pos), h) && file.pos == old(file.pos) + |h|
  {
    hide Splice, Header, MP4Atom.View, MP4Atom.Views, MP4Atom.ViewKids;
    ghost var vs, p := root.Views(), file.pos;
    assert forall k :: 0 <= k < |root.kids| ==> vs[k] == root.kids[k].View();
    MdatHeader(root.kids[m]);
    root.kids[m].ViewFields();
    root.kids[m].BeginWrite(file, use64);
    root.kids[m].KidsFrame();
    root.kids[m].ViewFields();
    root.ViewsOf(vs[m := vs[m].(start := p)]);
  }

  lemma MdatHeader(a: MP4Atom)
    requires a.Valid() && a.typ == MDAT
    ensures a.ext == []
  {
  }

  lemma FrontSplices(d: seq<byte>, p: nat, f: seq<byte>, m: seq<byte>, u: seq<byte>, h: seq<byte>)
    ensures Splice(Splice(Splice(d, p, f), p + |f|, m), p + |f| + |m|, u) == Splice(d, p, f + m + u)
    ensures Splice(Splice(d, p, f + m + u), p + |f + m + u|, h) == Splice(d, p, f + m + u + h)
  {
    hide Splice;
    SpliceAppend(d, p, f, m);
    SpliceAppend(d, p, f + m, u);
    SpliceAppend(d, p, f + m + u, h);
  }

  /** Everything that goes before the media data. */
  method WriteFront(root: MP4Atom, file: MP4File) returns (ok: bool)
    requires root.Valid()
    modifies (root.Repr - {root})`start, (root.Repr - {root})`end, (root.Repr - {root})`size, file
    ensures root.Valid()
    ensures ok <==> FrontWritable(old(root.Views()))
    ensures var b := Front(old(root.Views()));
            ok ==> file.data == Splice(old(file.data), old(file.pos), b) && file.pos == old(file.pos) + |b|
    ensures ok ==> MoviePlaced(old(root.Views()), root.Views(), old(file.pos))
  {
    hide Splice, Bytes, BytesAll, Located, Writable, WritableAll, Chosen, MP4Atom.View, MP4Atom.Views, MP4Atom.ViewKids;
    hide TypeWritten, MoviePlaced;
    ghost var vs, p := root.Views(), file.pos;
    FrontSplices(file.data, file.pos, BytesAll(Chosen(vs, FTYP, true)), BytesAll(Chosen(vs, MOOV, true)),
                 BytesAll(Chosen(vs, UDTA, false)), []);
    ok := WriteAtomType(root, file, FTYP, true);
    if !ok {
      return;
    }
    ghost var vs1 := root.Views();
    OthersKept(vs, vs1, FTYP, p);
    ghost var q := file.pos;
    ok := WriteAtomType(root, file, MOOV, true);
    if !ok {
      return;
    }
    ghost var vs2 := root.Views();
    OthersKept(vs1, vs2, MOOV, q);
    ok := WriteAtomType(root, file, UDTA, false);
    if ok {
      MovieStays(vs, vs1, vs2, root.Views(), p);
    }
  }

  lemma MovieStays(vs: seq<Atom>, vs1: seq<Atom>, vs2: seq<Atom>, ws: seq<Atom>, p: nat)
    requires TypeWritten(vs, vs1, FTYP, true, p)
    requires TypeWritten(vs1, vs2, MOOV, true, p + |BytesAll(Chosen(vs, FTYP, true))|)
    requires exists q :: TypeWritten(vs2, ws, UDTA, false, q)
    ensures MoviePlaced(vs, ws, p)
  {
    hide Located, BytesAll, Chosen;
  }

  /** Writing the atoms of one type does not change which atoms of another type there are. */
  lemma OthersKept(vs: seq<Atom>, ws: seq<Atom>, typ: seq<byte>, p: nat)
    requires exists first :: TypeWritten(vs, ws, typ, first, p)
    ensures typ != MOOV ==> Chosen(vs, MOOV, true) == Chosen(ws, MOOV, true)
    ensures typ != UDTA ==> Chosen(vs, UDTA, false) == Chosen(ws, UDTA, false)
  {
    hide Located;
    if typ != MOOV {
      ChosenFrame(vs, ws, MOOV, true);
    }
    if typ != UDTA {
      ChosenFrame(vs, ws, UDTA, false);
    }
  }

  // ---------------------------------------------------------------- the second pass

  /** Positions are no part of what is written. */
  lemma {:induction false} BytesOfLocated(a: Atom, p: nat)
    ensures Bytes(Located(a, p)) == Bytes(a) && Payload(Located(a, p)) == Payload(a)
    ensures Writable(Located(a, p)) <==> Writable(a)
    decreases a, 1
  {
    BytesOfLocatedAll(a.kids, p + HeaderSize(a.typ, Wide(a)) + |Flatten(a.props)|);
  }

  lemma {:induction false} BytesOfLocatedAll(ks: seq<Atom>, p: nat)
    ensures BytesAll(LocatedAll(ks, p)) == BytesAll(ks) && (WritableAll(LocatedAll(ks, p)) <==> WritableAll(ks))
    decreases ks, 0
  {
    hide Bytes, Located, Writable;
    if ks == [] {
    } else {
      BytesOfLocated(ks[0], p);
      BytesOfLocatedAll(ks[1..], p + |Bytes(ks[0])|);
    }
  }

  predicate SameFieldWidths(ps: seq<seq<byte>>, qs: seq<seq<byte>>) {
    |ps| == |qs| && forall i :: 0 <= i < |ps| ==> |ps[i]| == |qs[i]|
  }

  /** Two trees that differ in the values of fields only, not in their widths. */
  predicate SameWidths(a: Atom, b: Atom)
    decreases a, 1
  {
    && a.typ == b.typ && |a.ext| == |b.ext| && a.size == b.size
    && SameFieldWidths(a.props, b.props)
    && SameWidthsAll(a.kids, b.kids)
  }

  predicate SameWidthsAll(ks: seq<Atom>, ls: seq<Atom>)
    decreases ks, 0
  {
    |ks| == |ls| && (ks == [] || (SameWidths(ks[0], ls[0]) && SameWidthsAll(ks[1..], ls[1..])))
  }

  lemma {:induction false} FlattenLength(ps: seq<seq<byte>>, qs: seq<seq<byte>>)
    requires SameFieldWidths(ps, qs)
    ensures |Flatten(ps)| == |Flatten(qs)|
  {
    if ps == [] {
    } else {
      FlattenLength(ps[1..], qs[1..]);
    }
  }

  /** Changing fixed-width values changes neither the length of what is written nor whether it can be. */
  lemma {:induction false} SameWidthsSameLength(a: Atom, b: Atom)
    requires SameWidths(a, b)
    ensures |Payload(a)| == |Payload(b)| && |Bytes(a)| == |Bytes(b)|
    ensures Writable(a) <==> Writable(b)
    decreases a, 1
  {
    hide Flatten, BytesAll, WritableAll, SameWidthsAll, BigEndian, SameFieldWidths;
    FlattenLength(a.props, b.props);
    SameWidthsAllSameLength(a.kids, b.kids);
  }

  lemma {:induction false} SameWidthsAllSameLength(ks: seq<Atom>, ls: seq<Atom>)
    requires SameWidthsAll(ks, ls)
    ensures |BytesAll(ks)| == |BytesAll(ls)|
    ensures WritableAll(ks) <==> WritableAll(ls)
    decreases ks, 0
  {
    hide Bytes, Writable, SameWidths;
    if ks == [] {
    } else {
      SameWidthsSameLength(ks[0], ls[0]);
      SameWidthsAllSameLength(ks[1..], ls[1..]);
    }
  }

  /** Writing a tree with new values puts its nodes where the old ones were, so widths and sizes still agree. */
  lemma {:induction false} StillSame(v: Atom, w: Atom, p: nat, q: nat)
    requires SameWidths(Located(v, p), w)
    ensures SameWidths(Located(v, p), Located(w, q))
    decreases v, 1
  {
    hide Bytes, Payload, SameFieldWidths, HeaderSize, Wide, Flatten;
    LocatedFields(v, p);
    LocatedFields(w, q);
    BytesOfLocated(v, p);
    SameWidthsSameLength(Located(v, p), w);
    if !IsFree(v.typ) {
      StillSameAll(v.kids, w.kids, p + HeaderSize(v.typ, Wide(v)) + |Flatten(v.props)|,
                   q + HeaderSize(w.typ, Wide(w)) + |Flatten(w.props)|);
    }
  }

  lemma {:induction false} StillSameAll(ks: seq<Atom>, ls: seq<Atom>, p: nat, q: nat)
    requires SameWidthsAll(LocatedAll(ks, p), ls)
    ensures SameWidthsAll(LocatedAll(ks, p), LocatedAll(ls, q))
    decreases ks, 0
  {
    hide Bytes, SameWidths, Located;
    if ks == [] {
    } else {
      StillSame(ks[0], ls[0], p, q);
      StillSameAll(ks[1..], ls[1..], p + |Bytes(ks[0])|, q + |Bytes(ls[0])|);
    }
  }

  lemma {:induction false} SameWidthsFrom(ks: seq<Atom>, ls: seq<Atom>)
    requires |ks| == |ls| && forall i :: 0 <= i < |ks| ==> SameWidths(ks[i], ls[i])
    ensures SameWidthsAll(ks, ls)
  {
    hide SameWidths;
    if ks == [] {
    } else {
      SameWidthsFrom(ks[1..], ls[1..]);
    }
  }

  /** Only values of fields have changed, each within its width. */
  twostate predicate OnlyValues(os: set<MP4Atom>)
    reads os
  {
    forall o :: o in os ==>
      && o.kids == old(o.kids) && o.Repr == old(o.Repr) && o.size == old(o.size)
      && SameFieldWidths(old(o.props), o.props)
  }

  twostate lemma StillValid(a: MP4Atom)
    requires old(a.Valid()) && OnlyValues(old(a.Repr))
    ensures a.Valid()
  {
    hide SameFieldWidths;
  }

  /** Setting fields to values of their own width keeps the widths of the whole tree. */
  twostate lemma {:induction false} TreeKeepsWidths(a: MP4Atom)
    requires old(a.Valid()) && OnlyValues(old(a.Repr))
    ensures a.Valid() && SameWidths(old(a.View()), a.View())
    decreases old(a.Repr)
  {
    hide SameWidths, SameWidthsAll, SameFieldWidths, MP4Atom.View, MP4Atom.Views, MP4Atom.ViewKids;
    StillValid(a);
    forall i | 0 <= i < |a.kids| ensures SameWidths(old(a.Views())[i], a.Views()[i]) {
      assert old(a.kids[i].Repr) <= old(a.Repr);
      TreeKeepsWidths(a.kids[i]);
      assert a.Views()[i] == a.kids[i].View();
      assert old(a.Views())[i] == old(a.kids[i].View());
    }
    SameWidthsFrom(old(a.Views()), a.Views());
    NodeKeepsWidths(a);
  }

  twostate lemma NodeKeepsWidths(a: MP4Atom)
    requires old(a.Valid()) && a.Valid() && OnlyValues({a})
    requires SameWidthsAll(old(a.Views()), a.Views())
    ensures SameWidths(old(a.View()), a.View())
  {
    hide SameWidthsAll, SameFieldWidths, MP4Atom.Views;
  }

  /** Every target holds its new value: the last one given for it. */
  ghost predicate FieldsSet(targets: seq<MP4Atom>, values: seq<seq<seq<byte>>>)
    reads targets`props
  {
    && |targets| == |values|
    && forall i :: 0 <= i < |targets| && (forall j :: i < j < |targets| ==> targets[j] != targets[i]) ==>
         targets[i].props == values[i]
  }

  /** The chunk offset tables (any atoms below one top-level atom) get new values of the same widths. */
  method SetFields(top: MP4Atom, targets: seq<MP4Atom>, values: seq<seq<seq<byte>>>)
    requires top.Valid() && |targets| == |values|
    requires forall i :: 0 <= i < |targets| ==> targets[i] in top.Repr && SameFieldWidths(targets[i].props, values[i])
    modifies targets`props
    ensures top.Valid() && OnlyValues(top.Repr)
    ensures SameWidths(old(top.View()), top.View()) && top.View().start == old(top.View().start)
    ensures FieldsSet(targets, values)
  {
    hide SameWidths, MP4Atom.View;
    top.ViewFields();
    for i := 0 to |targets|
      invariant forall o :: o in top.Repr ==> SameFieldWidths(old(o.props), o.props)
      invariant forall k :: 0 <= k < i && (forall j :: k < j < i ==> targets[j] != targets[k]) ==>
                  targets[k].props == values[k]
    {
      targets[i].props := values[i];
    }
    TreeKeepsWidths(top);
    top.ViewFields();
  }

  /** The first movie atom, or the number of children. */
  method FindMoov(root: MP4Atom) returns (k: nat)
    ensures k <= |root.kids| && forall j :: 0 <= j < k ==> root.kids[j].typ != MOOV
    ensures k < |root.kids| ==> root.kids[k].typ == MOOV
  {
    k := 0;
    while k < |root.kids| && root.kids[k].typ != MOOV
      invariant k <= |root.kids| && forall j :: 0 <= j < k ==> root.kids[j].typ != MOOV
    {
      k := k + 1;
    }
  }

  /** Writes an atom again where it started; its data must not have changed length. */
  method WriteAgain(atom: MP4Atom, file: MP4File) returns (ok: bool)
    requires atom.Valid()
    modifies atom.Repr`start, atom.Repr`end, atom.Repr`size, file
    ensures atom.Valid()
    ensures var v := old(atom.View());
            && (ok <==> Writable(v) && |Payload(v)| == v.size)
            && (ok ==> atom.View() == Located(v, v.start) && file.data == Splice(old(file.data), v.start, Bytes(v)))
  {
    hide Splice, Bytes, Payload, Writable, MP4Atom.Views;
    ghost var v := atom.View();
    LocatedFields(v, v.start);
    file.SetPosition(atom.start);
    var oldSize := atom.size;
    ok := atom.Write(file);
    ok := ok && oldSize == atom.size;
  }

  /** The media data's size field set to reach from its start `q` to `end`. */
  function MdatPatched(d: seq<byte>, q: nat, end: nat, use64: bool): seq<byte>
    requires q <= end
  {
    Splice(d, if use64 then q + 8 else q, BigEndian(end - q, if use64 then 8 else 4))
  }

  /** What the second pass leaves behind when media data `v` and movie atom `w` are finished at position `end`. */
  ghost predicate Finished(v: Atom, w: Atom, d: seq<byte>, d': seq<byte>, end: nat, use64: bool) {
    && v.start <= end
    && d' == Splice(MdatPatched(d, v.start, end, use64), w.start, Bytes(w))
  }

  predicate FinishPossible(v: Atom, w: Atom, end: nat, use64: bool) {
    (use64 || end - v.start <= MAX32) && Writable(w) && |Payload(w)| == w.size
  }

  /** Patches the size of one media data atom; the others do not notice. */
  method FinishMdat(root: MP4Atom, m: nat, file: MP4File, use64: bool) returns (ok: bool)
    requires root.Valid() && m < |root.kids| && root.kids[m].typ == MDAT
    requires root.Views()[m].start + HeaderSize(MDAT, use64) <= file.pos
    modifies (root.Repr - {root})`end, (root.Repr - {root})`size, file
    ensures root.Valid()
    ensures forall k :: 0 <= k < |root.kids| && k != m ==> root.kids[k].View() == old(root.Views()[k])
    ensures ok ==> file.pos == old(file.pos)
    ensures var q := old(root.Views()[m].start);
            && (ok <==> use64 || old(file.pos) - q <= MAX32)
            && (ok ==> file.data == MdatPatched(old(file.data), q, old(file.pos), use64))
  {
    hide Splice, BigEndian, MP4Atom.View, MP4Atom.Views, MP4Atom.ViewKids;
    root.kids[m].ViewFields();
    assert forall k :: 0 <= k < |root.kids| ==> root.Views()[k] == root.kids[k].View();
    ok := root.kids[m].FinishWrite(file, use64);
  }

  lemma LastMedia(vs: seq<Atom>, m: int)
    requires -1 <= m < |vs| && (m >= 0 ==> vs[m].typ == MDAT) && forall j :: m < j < |vs| ==> vs[j].typ != MDAT
    ensures m >= 0 ==> IsLast(vs, MDAT, m)
    ensures forall m': nat :: IsLast(vs, MDAT, m') ==> m' == m
  {
  }

  lemma FirstMovie(vs: seq<Atom>, k: nat)
    requires k <= |vs| && forall j :: 0 <= j < k ==> vs[j].typ != MOOV
    requires k < |vs| ==> vs[k].typ == MOOV
    ensures k < |vs| ==> IsFirst(vs, MOOV, k)
    ensures forall k': nat :: IsFirst(vs, MOOV, k') ==> k' == k < |vs|
  {
  }

  /** Patches the size of the media data, then writes the movie atom again where it was. */
  method FinishOptimalWrite(root: MP4Atom, file: MP4File, use64: bool) returns (ok: bool)
    requires root.Valid()
    requires forall m: nat :: IsLast(root.Views(), MDAT, m) ==>
               root.Views()[m].start + HeaderSize(MDAT, use64) <= file.pos
    modifies (root.Repr - {root})`start, (root.Repr - {root})`end, (root.Repr - {root})`size, file
    ensures root.Valid()
    ensures ok ==> exists m: nat :: IsLast(old(root.Views()), MDAT, m)
    ensures ok ==> exists k: nat :: IsFirst(old(root.Views()), MOOV, k)
    ensures var vs := old(root.Views());
            forall m: nat, k: nat :: IsLast(vs, MDAT, m) && IsFirst(vs, MOOV, k) ==>
              && (ok <==> FinishPossible(vs[m], vs[k], old(file.pos), use64))
              && (ok ==> Finished(vs[m], vs[k], old(file.data), file.data, old(file.pos), use64))
              && (ok ==> root.kids[k].View() == Located(vs[k], vs[k].start))
  {
    hide Splice, Bytes, Payload, Writable, Located, BigEndian, MdatPatched, IsFirst, IsLast;
    hide MP4Atom.View, MP4Atom.Views, MP4Atom.ViewKids;
    ghost var vs := root.Views();
    var m := GetLastMdatIndex(root);
    LastMedia(vs, m);
    if m < 0 {
      return false;
    }
    var k := FindMoov(root);
    FirstMovie(vs, k);
    ok := FinishMdat(root, m, file, use64);
    if !ok || k == |root.kids| {
      return false;
    }
    ok := WriteAgain(root.kids[k], file);
  }

  /** A file laid out for streaming: file type, movie, user data, then the media data with its header. */
  function Optimised(vs: seq<Atom>, moov: Atom, payload: seq<byte>, use64: bool): seq<byte> {
    BytesAll(Chosen(vs, FTYP, true)) + Bytes(moov) + BytesAll(Chosen(vs, UDTA, false))
    + Header(MDAT, [], HeaderSize(MDAT, use64) + |payload|, use64) + payload
  }

  /** First pass, media data and second pass together amount to writing the optimised file in one go. */
  lemma TwoPasses(d: seq<byte>, p: nat, f: seq<byte>, m: seq<byte>, m': seq<byte>, u: seq<byte>,
                  payload: seq<byte>, use64: bool)
    requires |m| == |m'|
    ensures var h, front := HeaderSize(MDAT, use64), f + m + u;
            var d1 := Splice(Splice(d, p, front + Header(MDAT, [], 0, use64)), p + |front| + h, payload);
            var d2 := MdatPatched(d1, p + |front|, p + |front| + h + |payload|, use64);
            var whole := f + m' + u + Header(MDAT, [], h + |payload|, use64) + payload;
            Splice(d2, p + |f|, m') == Splice(d, p, whole)
  {
    hide Splice, BigEndian, Header;
    var h, front := HeaderSize(MDAT, use64), f + m + u;
    var h0, h1 := Header(MDAT, [], 0, use64), Header(MDAT, [], h + |payload|, use64);
    HeaderFields(MDAT, [], 0, use64);
    SpliceAppend(d, p, front + h0, payload);
    SpliceAppend(d, p, front, h0 + payload);
    assert front + h0 + payload == front + (h0 + payload);
    PatchedHeader(Splice(d, p, front), p + |front|, MDAT, [], h + |payload|, use64, payload);
    SpliceAppend(d, p, front, h1 + payload);
    SplicePatch(d, p, f, m, m', u + h1 + payload);
    assert front + (h1 + payload) == f + m + (u + h1 + payload);
    assert f + m' + (u + h1 + payload) == f + m' + u + h1 + payload;
  }

  /** New values for fields below `top`, each as wide as the one it replaces. */
  ghost predicate FieldsOf(top: MP4Atom, targets: seq<MP4Atom>, values: seq<seq<seq<byte>>>)
    reads top, targets
  {
    && |targets| == |values|
    && forall i :: 0 <= i < |targets| ==> targets[i] in top.Repr && SameFieldWidths(targets[i].props, values[i])
  }

  /** Which child is first or last of a type depends on the types alone. */
  lemma SameTypesSamePlaces(vs: seq<Atom>, ws: seq<Atom>)
    requires |vs| == |ws| && forall j :: 0 <= j < |vs| ==> vs[j].typ == ws[j].typ
    ensures forall m: nat :: IsLast(vs, MDAT, m) <==> IsLast(ws, MDAT, m)
    ensures forall k: nat :: IsFirst(vs, MOOV, k) <==> IsFirst(ws, MOOV, k)
  {
  }

  /** The second pass is possible whenever the first was: the movie atom still has its old length. */
  lemma SecondPassFits(v: Atom, w: Atom, p: nat)
    requires SameWidths(Located(v, p), w) && Writable(v)
    ensures Writable(w) && |Payload(w)| == w.size && |Bytes(w)| == |Bytes(v)|
  {
    hide Bytes, Payload, Writable, SameWidths;
    BytesOfLocated(v, p);
    LocatedFields(v, p);
    SameWidthsSameLength(Located(v, p), w);
    SameSize(Located(v, p), w);
  }

  lemma SameSize(a: Atom, b: Atom)
    requires SameWidths(a, b)
    ensures a.size == b.size
  {
  }

  /** New values for fields of the movie atom, if there is one; the others do not notice. */
  method SetMovieFields(root: MP4Atom, targets: seq<MP4Atom>, values: seq<seq<seq<byte>>>)
    requires root.Valid()
    requires forall k: nat :: IsFirst(root.Views(), MOOV, k) ==> FieldsOf(root.kids[k], targets, values)
    modifies targets`props
    ensures root.Valid() && Revalued(old(root.Views()), root.Views())
    ensures HasMoov(old(root.Views())) ==> FieldsSet(targets, values)
  {
    hide SameWidths, MP4Atom.View, MP4Atom.Views, MP4Atom.ViewKids, IsFirst, Revalued, FieldsSet;
    ghost var vs := root.Views();
    assert forall j :: 0 <= j < |root.kids| ==> vs[j] == root.kids[j].View();
    var k := FindMoov(root);
    FirstMovie(vs, k);
    if k < |root.kids| {
      SetFields(root.kids[k], targets, values);
      StillValid(root);
      OneRevalued(vs, k, root.kids[k].View());
      root.ViewsOf(vs[k := root.kids[k].View()]);
    } else {
      NoneRevalued(vs);
    }
  }

  lemma OneRevalued(vs: seq<Atom>, k: nat, w: Atom)
    requires IsFirst(vs, MOOV, k) && w.typ == MOOV && w.start == vs[k].start && SameWidths(vs[k], w)
    ensures Revalued(vs, vs[k := w])
  {
    hide SameWidths;
  }

  lemma NoneRevalued(vs: seq<Atom>)
    requires forall k: nat :: !IsFirst(vs, MOOV, k)
    ensures Revalued(vs, vs)
  {
    hide SameWidths;
  }

  /** New values in the movie atom only, none wider or narrower than before. */
  ghost predicate Revalued(vs: seq<Atom>, ws: seq<Atom>) {
    && |vs| == |ws| && (forall j :: 0 <= j < |vs| ==> vs[j].typ == ws[j].typ)
    && (forall j: nat :: j < |vs| && !IsFirst(vs, MOOV, j) ==> ws[j] == vs[j])
    && (forall k: nat :: IsFirst(vs, MOOV, k) ==> ws[k].start == vs[k].start && SameWidths(vs[k], ws[k]))
  }

  /** The first pass has left room for the second: same types in the same places, movie atom of the old length. */
  ghost predicate Ready(vs: seq<Atom>, ws: seq<Atom>, p: nat) {
    && |vs| == |ws| && (forall j :: 0 <= j < |vs| ==> vs[j].typ == ws[j].typ)
    && (forall m: nat :: IsLast(vs, MDAT, m) ==> ws[m].start == p + |Front(vs)|)
    && (forall k: nat :: IsFirst(vs, MOOV, k) ==>
          var q := p + |BytesAll(Chosen(vs, FTYP, true))|;
          ws[k].start == q && SameWidths(Located(vs[k], q), ws[k]))
  }

  lemma PlacedThenRevalued(vs: seq<Atom>, us: seq<Atom>, ws: seq<Atom>, p: nat)
    requires Placed(vs, us, p) && Revalued(us, ws)
    ensures Ready(vs, ws, p)
  {
    hide Bytes, BytesAll, Chosen, SameWidths, Front, Located, IsFirst, IsLast;
    SameTypesSamePlaces(vs, us);
    PlacesInside(vs);
    forall m: nat | m < |vs| && IsLast(vs, MDAT, m) ensures ws[m].start == p + |Front(vs)| {
      DifferentTypes(us, m);
    }
    var q := p + |BytesAll(Chosen(vs, FTYP, true))|;
    forall k: nat | k < |vs| && IsFirst(vs, MOOV, k) ensures ws[k].start == q && SameWidths(Located(vs[k], q), ws[k]) {
      LocatedFields(vs[k], q);
      assert IsFirst(us, MOOV, k);
    }
  }

  lemma PlacesInside(vs: seq<Atom>)
    ensures forall m: nat :: IsLast(vs, MDAT, m) ==> m < |vs|
    ensures forall k: nat :: IsFirst(vs, MOOV, k) ==> k < |vs|
  {
  }

  lemma DifferentTypes(us: seq<Atom>, m: nat)
    requires IsLast(us, MDAT, m)
    ensures !IsFirst(us, MOOV, m)
  {
  }

  lemma FirstStays(vs: seq<Atom>, us: seq<Atom>, p: nat)
    requires Placed(vs, us, p)
    ensures forall k: nat :: IsFirst(us, MOOV, k) <==> IsFirst(vs, MOOV, k)
  {
  }

  lemma {:induction false} ChosenMovie(vs: seq<Atom>, k: nat)
    requires IsFirst(vs, MOOV, k)
    ensures BytesAll(Chosen(vs, MOOV, true)) == Bytes(vs[k])
    ensures WritableAll(Chosen(vs, MOOV, true)) <==> Writable(vs[k])
  {
    hide Bytes, Writable, Chosen;
    FirstIsChosen(vs, MOOV, k);
    assert [vs[k]][1..] == [];
    assert BytesAll([vs[k]]) == Bytes(vs[k]) + BytesAll([]);
  }

  /** Where the file stands after the first pass and the media data. */
  function AfterFirst(d: seq<byte>, p: nat, vs: seq<Atom>, payload: seq<byte>, use64: bool): seq<byte> {
    var b := Front(vs) + Header(MDAT, [], 0, use64);
    Splice(Splice(d, p, b), p + |b|, payload)
  }

  lemma SecondPass(d: seq<byte>, p: nat, vs: seq<Atom>, ws: seq<Atom>, payload: seq<byte>, use64: bool, m: nat, k: nat)
    requires Ready(vs, ws, p) && FrontWritable(vs) && IsLast(vs, MDAT, m) && IsFirst(vs, MOOV, k)
    ensures var end, w := p + |Front(vs) + Header(MDAT, [], 0, use64)| + |payload|, Located(ws[k], ws[k].start);
            && (FinishPossible(ws[m], ws[k], end, use64) <==> use64 || HeaderSize(MDAT, false) + |payload| <= MAX32)
            && |Bytes(w)| == |Bytes(vs[k])| && SameWidths(Located(vs[k], ws[k].start), w)
            && ws[k].start == p + |BytesAll(Chosen(vs, FTYP, true))|
            && forall d' :: Finished(ws[m], ws[k], AfterFirst(d, p, vs, payload, use64), d', end, use64) ==>
                 d' == Splice(d, p, Optimised(vs, w, payload, use64))
  {
    hide Splice, Bytes, BytesAll, Payload, Writable, WritableAll, Located, BigEndian, Header, Chosen, SameWidths;
    hide MdatPatched;
    var f, u := BytesAll(Chosen(vs, FTYP, true)), BytesAll(Chosen(vs, UDTA, false));
    ChosenMovie(vs, k);
    SecondPassFits(vs[k], ws[k], p + |f|);
    BytesOfLocated(ws[k], ws[k].start);
    StillSame(vs[k], ws[k], ws[k].start, ws[k].start);
    HeaderFields(MDAT, [], 0, use64);
    TwoPasses(d, p, f, Bytes(vs[k]), Bytes(ws[k]), u, payload, use64);
    assert Front(vs) == f + Bytes(vs[k]) + u;
  }

  /**
   The optimised file stands from `p` on, with movie atom `ws[k]`: the old one at its new place, with new
   values of the old widths.
   */
  ghost predicate OptimisedAt(vs: seq<Atom>, ws: seq<Atom>, d: seq<byte>, p: nat, payload: seq<byte>, use64: bool,
                              d': seq<byte>) {
    |ws| == |vs| &&
    forall k: nat :: IsFirst(vs, MOOV, k) ==>
      && d' == Splice(d, p, Optimised(vs, ws[k], payload, use64)) && |Bytes(ws[k])| == |Bytes(vs[k])|
      && SameWidths(Located(vs[k], p + |BytesAll(Chosen(vs, FTYP, true))|), ws[k])
  }

  lemma OneMovie(vs: seq<Atom>, ws: seq<Atom>, d: seq<byte>, p: nat, payload: seq<byte>, use64: bool,
                 d': seq<byte>, k: nat)
    requires |ws| == |vs| && IsFirst(vs, MOOV, k)
    requires d' == Splice(d, p, Optimised(vs, ws[k], payload, use64)) && |Bytes(ws[k])| == |Bytes(vs[k])|
    requires SameWidths(Located(vs[k], p + |BytesAll(Chosen(vs, FTYP, true))|), ws[k])
    ensures OptimisedAt(vs, ws, d, p, payload, use64, d')
  {
    hide Splice, Optimised, Bytes, BytesAll, Located, SameWidths, Chosen;
  }

  /** The second pass, from what the first one left. */
  method LastPass(root: MP4Atom, file: MP4File, use64: bool,
                  ghost vs: seq<Atom>, ghost d: seq<byte>, ghost p: nat, ghost payload: seq<byte>) returns (ok: bool)
    requires root.Valid() && FrontWritable(vs) && HasMdat(vs) && Ready(vs, root.Views(), p)
    requires file.data == AfterFirst(d, p, vs, payload, use64)
    requires file.pos == p + |Front(vs) + Header(MDAT, [], 0, use64)| + |payload|
    modifies (root.Repr - {root})`start, (root.Repr - {root})`end, (root.Repr - {root})`size, file
    ensures root.Valid()
    ensures ok <==> HasMoov(vs) && (use64 || HeaderSize(MDAT, false) + |payload| <= MAX32)
    ensures ok ==> OptimisedAt(vs, root.Views(), d, p, payload, use64, file.data)
  {
    hide Splice, Bytes, BytesAll, Payload, Writable, Located, BigEndian, Header, Chosen, SameWidths, Front;
    hide FrontWritable;
    hide MP4Atom.View, MP4Atom.Views, MP4Atom.ViewKids, MdatPatched, Optimised, Finished, FinishPossible, AfterFirst;
    hide OptimisedAt, IsFirst, IsLast;
    ghost var ws := root.Views();
    HeaderFields(MDAT, [], 0, use64);
    SameTypesSamePlaces(vs, ws);
    ghost var m: nat :| IsLast(vs, MDAT, m);
    ghost var k: nat := 0;
    if HasMoov(vs) {
      k :| IsFirst(vs, MOOV, k);
      SecondPass(d, p, vs, ws, payload, use64, m, k);
      Places(vs, m, k);
    }
    ok := FinishOptimalWrite(root, file, use64);
    if ok {
      assert root.Views()[k] == root.kids[k].View();
      OneMovie(vs, root.Views(), d, p, payload, use64, file.data, k);
    }
  }

  lemma Places(vs: seq<Atom>, m: nat, k: nat)
    requires IsLast(vs, MDAT, m) && IsFirst(vs, MOOV, k)
    ensures m < |vs| && k < |vs|
  {
  }

  // ---------------------------------------------------------------- the plain write

  /** Writes one child; the others do not notice. */
  method WriteOne(root: MP4Atom, file: MP4File, i: nat) returns (ok: bool)
    requires root.Valid() && i < |root.kids|
    modifies root.kids[i].Repr`start, root.kids[i].Repr`end, root.kids[i].Repr`size, file
    ensures root.Valid()
    ensures var v := old(root.kids[i].View());
            && (ok <==> Writable(v))
            && (ok ==> file.data == Splice(old(file.data), old(file.pos), Bytes(v)))
            && (ok ==> file.pos == old(file.pos) + |Bytes(v)|)
    ensures forall j :: 0 <= j < |root.kids| && j != i ==> root.kids[j].View() == old(root.kids[j].View())
  {
    hide Splice, Bytes, BytesAll, Located, Writable, WritableAll, MP4Atom.View, MP4Atom.Views;
    ok := root.kids[i].Write(file);
  }

  /** Loop state of `WriteRest`: the children from `m` up to `i` are in the file. */
  ghost predicate WrittenFrom(root: MP4Atom, ws: seq<Atom>, m: nat, i: nat, d: seq<byte>, p: nat, file: MP4File)
    reads root, root.Repr, file
  {
    && root.Valid() && m <= i <= |root.kids| && |ws| == |root.kids| - m
    && (forall j :: i <= j < |root.kids| ==> root.kids[j].View() == ws[j - m])
    && WritableAll(ws[..i - m])
    && file.data == Splice(d, p, BytesAll(ws[..i - m])) && file.pos == p + |BytesAll(ws[..i - m])|
  }

  /** All children from one on. */
  method WriteRest(root: MP4Atom, file: MP4File, m: nat) returns (ok: bool)
    requires root.Valid() && m <= |root.kids|
    modifies (root.Repr - {root})`start, (root.Repr - {root})`end, (root.Repr - {root})`size, file
    ensures root.Valid()
    ensures ok <==> WritableAll(old(root.Views())[m..])
    ensures var b := BytesAll(old(root.Views())[m..]);
            ok ==> file.data == Splice(old(file.data), old(file.pos), b) && file.pos == old(file.pos) + |b|
  {
    hide Splice, Bytes, BytesAll, Located, Writable, WritableAll, MP4Atom.View, MP4Atom.Views, MP4Atom.ViewKids;
    ghost var ws, d, p := root.Views()[m..], file.data, file.pos;
    EmptyKids(d, p);
    assert ws[..0] == [];
    for i := m to |root.kids|
      invariant WrittenFrom(root, ws, m, i, d, p, file)
    {
      WritableAllAt(ws, i - m);
      ok := WriteOne(root, file, i);
      if !ok {
        return;
      }
      NextKid(d, p, ws, i - m);
    }
    assert ws[..|ws|] == ws;
    ok := true;
  }

  /** The file type, then the header of the last media data atom; the media data follows. */
  method BeginWrite(root: MP4Atom, file: MP4File, use64: bool) returns (ok: bool)
    requires root.Valid()
    modifies (root.Repr - {root})`start, (root.Repr - {root})`end, (root.Repr - {root})`size, file
    ensures root.Valid()
    ensures ok <==> WritableAll(Chosen(old(root.Views()), FTYP, true)) && HasMdat(old(root.Views()))
    ensures var b := BytesAll(Chosen(old(root.Views()), FTYP, true)) + Header(MDAT, [], 0, use64);
            ok ==> file.data == Splice(old(file.data), old(file.pos), b) && file.pos == old(file.pos) + |b|
  {
    hide Splice, Bytes, BytesAll, Located, Writable, WritableAll, Chosen, Header;
    hide MP4Atom.View, MP4Atom.Views, MP4Atom.ViewKids, IsFirst, IsLast;
    ghost var vs := root.Views();
    SpliceAppend(file.data, file.pos, BytesAll(Chosen(vs, FTYP, true)), Header(MDAT, [], 0, use64));
    ok := WriteAtomType(root, file, FTYP, true);
    if !ok {
      return;
    }
    var m := GetLastMdatIndex(root);
    LastMedia(vs, m);
    if m < 0 {
      return false;
    }
    BeginMdat(root, m, file, use64);
  }

  /** Patches the size of the media data, then writes everything that comes after it in the tree. */
  method FinishWrite(root: MP4Atom, file: MP4File, use64: bool) returns (ok: bool)
    requires root.Valid()
    requires forall m: nat :: IsLast(root.Views(), MDAT, m) ==>
               root.Views()[m].start + HeaderSize(MDAT, use64) <= file.pos
    modifies (root.Repr - {root})`start, (root.Repr - {root})`end, (root.Repr - {root})`size, file
    ensures root.Valid()
    ensures ok ==> HasMdat(old(root.Views()))
    ensures var vs, d, p := old(root.Views()), old(file.data), old(file.pos);
            forall m: nat :: IsLast(vs, MDAT, m) ==>
              && (ok <==> (use64 || p - vs[m].start <= MAX32) && WritableAll(vs[m + 1..]))
              && (ok ==> vs[m].start <= p)
              && (ok ==> file.data == Splice(MdatPatched(d, vs[m].start, p, use64), p, BytesAll(vs[m + 1..])))
  {
    hide Splice, Bytes, BytesAll, Writable, WritableAll, Located, MP4Atom.View, MP4Atom.Views, MP4Atom.ViewKids;
    hide MdatPatched;
    ghost var vs := root.Views();
    var m := GetLastMdatIndex(root);
    if m < 0 {
      return false;
    }
    assert IsLast(vs, MDAT, m);
    ok := FinishMdat(root, m, file, use64);
    if !ok {
      return;
    }
    assert forall k :: 0 <= k < |root.kids| ==> root.Views()[k] == root.kids[k].View();
    assert root.Views()[m + 1..] == vs[m + 1..];
    ok := WriteRest(root, file, m + 1);
  }
}
