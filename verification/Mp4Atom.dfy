/** Atom objects: seek-and-patch writing and recursive reading of a tree of atoms. */
module Mp4Atom {
  import opened Wrappers
  import opened ByteCodec
  import opened AtomTree
  import opened AtomRoundTrip
  import opened Mp4File

  lemma {:induction false} FlattenSnoc(ps: seq<seq<byte>>, p: seq<byte>)
    ensures Flatten(ps + [p]) == Flatten(ps) + p
  {
    if ps == [] {
      assert Flatten([p]) == p + Flatten([]);
    } else {
      FlattenSnoc(ps[1..], p);
      assert (ps + [p])[1..] == ps[1..] + [p];
    }
  }

  lemma NoFields()
    ensures Flatten([]) == []
  {
  }

  lemma {:induction false} BytesAllSnoc(ks: seq<Atom>, k: Atom)
    ensures BytesAll(ks + [k]) == BytesAll(ks) + Bytes(k)
  {
    hide Bytes;
    if ks == [] {
      assert [k][1..] == [];
      assert BytesAll([k]) == Bytes(k) + BytesAll([]);
      assert ks + [k] == [k];
    } else {
      BytesAllSnoc(ks[1..], k);
      assert (ks + [k])[1..] == ks[1..] + [k];
    }
  }

  lemma {:induction false} LocatedAllAt(ks: seq<Atom>, pos: nat, i: nat)
    requires i < |ks|
    ensures LocatedAll(ks, pos)[i] == Located(ks[i], pos + |BytesAll(ks[..i])|)
  {
    hide Bytes, Located;
    if i == 0 {
      assert ks[..0] == [];
    } else {
      LocatedAllAt(ks[1..], pos + |Bytes(ks[0])|, i - 1);
      assert ks[..i][1..] == ks[1..][..i - 1];
      assert ks[..i][0] == ks[0];
      assert LocatedAll(ks, pos)[i] == LocatedAll(ks[1..], pos + |Bytes(ks[0])|)[i - 1];
    }
  }

  /** The size field patched into the placeholder header gives the final header. */
  lemma PatchedHeader(d: seq<byte>, p: nat, typ: seq<byte>, ext: seq<byte>, total: nat, w: bool, body: seq<byte>)
    requires |typ| == 4
    ensures Splice(Splice(d, p, Header(typ, ext, 0, w) + body), if w then p + 8 else p,
                   BigEndian(total, if w then 8 else 4))
         == Splice(d, p, Header(typ, ext, total, w) + body)
  {
    hide Splice, BigEndian;
    var x := if typ == UUID then ext else [];
    if w {
      var a := BigEndian(1, 4) + typ;
      SplicePatch(d, p, a, BigEndian(0, 8), BigEndian(total, 8), x + body);
      assert Header(typ, ext, 0, w) + body == a + BigEndian(0, 8) + (x + body);
      assert Header(typ, ext, total, w) + body == a + BigEndian(total, 8) + (x + body);
    } else {
      SplicePatch(d, p, [], BigEndian(0, 4), BigEndian(total, 4), typ + x + body);
      assert Header(typ, ext, 0, w) + body == [] + BigEndian(0, 4) + (typ + x + body);
      assert Header(typ, ext, total, w) + body == [] + BigEndian(total, 4) + (typ + x + body);
    }
  }

  lemma {:induction false} WritableAllAt(ks: seq<Atom>, i: nat)
    requires i < |ks|
    ensures WritableAll(ks) ==> Writable(ks[i])
  {
    hide Writable;
    if i == 0 {
    } else {
      WritableAllAt(ks[1..], i - 1);
    }
  }

  lemma {:induction false} WritableAllSnoc(ks: seq<Atom>, k: Atom)
    requires WritableAll(ks) && Writable(k)
    ensures WritableAll(ks + [k])
  {
    hide Writable;
    if ks == [] {
      assert ks + [k] == [k];
    } else {
      assert (ks + [k])[1..] == ks[1..] + [k];
      WritableAllSnoc(ks[1..], k);
    }
  }

  lemma NextKid(d: seq<byte>, p: nat, vs: seq<Atom>, i: nat)
    requires i < |vs| && WritableAll(vs[..i]) && Writable(vs[i])
    ensures BytesAll(vs[..i + 1]) == BytesAll(vs[..i]) + Bytes(vs[i]) && WritableAll(vs[..i + 1])
    ensures Splice(Splice(d, p, BytesAll(vs[..i])), p + |BytesAll(vs[..i])|, Bytes(vs[i]))
         == Splice(d, p, BytesAll(vs[..i + 1]))
  {
    hide *;
    assert vs[..i + 1] == vs[..i] + [vs[i]];
    BytesAllSnoc(vs[..i], vs[i]);
    WritableAllSnoc(vs[..i], vs[i]);
    SpliceAppend(d, p, BytesAll(vs[..i]), Bytes(vs[i]));
  }

  /** Placeholder header, fields, children, then the patched size: the bytes of the finished atom. */
  lemma TreeSplices(d: seq<byte>, p: nat, typ: seq<byte>, ext: seq<byte>, fields: seq<byte>, kids: seq<byte>)
    requires |typ| == 4 && |ext| == (if typ == UUID then 16 else 0)
    ensures var n := HeaderSize(typ, false);
            var d1 := Splice(d, p, Header(typ, ext, 0, false));
            var d3 := Splice(d1, p + n, fields + kids);
            var total := n + |fields| + |kids|;
            && d3 == Splice(d, p, Header(typ, ext, 0, false) + (fields + kids))
            && Splice(d3, p, BigEndian(total, 4)) == Splice(d, p, Header(typ, ext, total, false) + (fields + kids))
  {
    hide Splice, BigEndian, Header;
    HeaderFields(typ, ext, 0, false);
    SpliceAppend(d, p, Header(typ, ext, 0, false), fields + kids);
    PatchedHeader(d, p, typ, ext, HeaderSize(typ, false) + |fields| + |kids|, false, fields + kids);
  }

  lemma FreeSplices(d: seq<byte>, p: nat, typ: seq<byte>, ext: seq<byte>, size: nat, w: bool)
    requires |typ| == 4 && |ext| == (if typ == UUID then 16 else 0)
    ensures Splice(Splice(d, p, Header(typ, ext, 0, w) + Zeros(size)), if w then p + 8 else p,
                   BigEndian(HeaderSize(typ, w) + size, if w then 8 else 4))
         == Splice(d, p, Header(typ, ext, HeaderSize(typ, w) + size, w) + Zeros(size))
  {
    PatchedHeader(d, p, typ, ext, HeaderSize(typ, w) + size, w, Zeros(size));
  }

  /** Nothing before position `p` has changed. */
  ghost predicate KeptBefore(d: seq<byte>, d': seq<byte>, p: nat) {
    |d| <= |d'| && forall i :: 0 <= i < |d| && i < p ==> d'[i] == d[i]
  }

  lemma KeptBySplice(d: seq<byte>, p: nat, b: seq<byte>)
    ensures KeptBefore(d, Splice(d, p, b), p)
  {
    SpliceAt(d, p, b);
  }

  class MP4Atom {
    const typ: seq<byte>
    const ext: seq<byte>
    var props: seq<seq<byte>>
    var kids: seq<MP4Atom>
    var start: nat
    var end: nat
    var size: nat
    ghost var Repr: set<MP4Atom>

    ghost predicate Valid()
      reads this`Repr, this`kids, Repr`Repr, Repr`kids
      ensures Valid() ==> this in Repr && |typ| == 4 && |ext| == (if typ == UUID then 16 else 0)
      decreases Repr
    {
      && this in Repr
      && |typ| == 4 && |ext| == (if typ == UUID then 16 else 0)
      && (forall i :: 0 <= i < |kids| ==>
            kids[i] in Repr && kids[i].Repr <= Repr && this !in kids[i].Repr && kids[i].Valid())
      && (forall i, j :: 0 <= i < j < |kids| ==> kids[i].Repr !! kids[j].Repr)
    }

    /** The tree this object stands for. */
    ghost function View(): (a: Atom)
      requires Valid()
      reads this, Repr
      ensures a.typ == typ && a.end == end
      decreases Repr, |kids| + 2
    {
      Atom(typ, ext, props, Views(), start, end, size)
    }

    ghost function Views(): (r: seq<Atom>)
      requires Valid()
      reads this, Repr
      ensures |r| == |kids|
      ensures forall j {:trigger r[j]} :: 0 <= j < |kids| ==> r[j] == kids[j].View()
      decreases Repr, |kids| + 1
    {
      var r := ViewKids(0);
      assert forall j {:trigger r[j]} :: 0 <= j < |kids| ==> r[j] == r[j];
      r
    }

    ghost function ViewKids(i: nat): (r: seq<Atom>)
      requires Valid() && i <= |kids|
      reads this, Repr
      ensures |r| == |kids| - i
      ensures forall j :: i <= j < |kids| ==> r[j - i] == kids[j].View()
      decreases Repr, |kids| - i
    {
      if i == |kids| then [] else [kids[i].View()] + ViewKids(i + 1)
    }

    constructor (typ: seq<byte>, ext: seq<byte>)
      requires |typ| == 4 && |ext| == (if typ == UUID then 16 else 0)
      ensures fresh(this) && Valid() && Repr == {this}
      ensures this.typ == typ && this.ext == ext && props == [] && kids == []
      ensures start == 0 && end == 0 && size == 0
    {
      this.typ, this.ext, this.props, this.kids := typ, ext, [], [];
      this.start, this.end, this.size := 0, 0, 0;
      this.Repr := {this};
    }

    lemma ViewsOf(vs: seq<Atom>)
      requires Valid() && |vs| == |kids| && forall i :: 0 <= i < |kids| ==> kids[i].View() == vs[i]
      ensures Views() == vs
    {
      forall i | 0 <= i < |kids| ensures Views()[i] == vs[i] {
        assert Views()[i] == kids[i].View();
      }
    }

    /** Appends a child that shares no object with this tree. */
    method AddChildAtom(child: MP4Atom)
      requires Valid() && child.Valid() && Repr !! child.Repr
      modifies this`kids, this`Repr
      ensures Valid() && kids == old(kids) + [child] && Repr == old(Repr) + child.Repr
      ensures Views() == old(Views()) + [child.View()]
    {
      hide View, Views, ViewKids;
      ghost var vs := Views();
      assert forall i :: 0 <= i < |kids| ==> vs[i] == kids[i].View();
      kids := kids + [child];
      Repr := Repr + child.Repr;
      assert child.Valid() && forall i :: 0 <= i < |kids| - 1 ==> kids[i].Valid() && kids[i].View() == vs[i];
      assert Valid();
      ViewsOf(vs + [child.View()]);
    }

    lemma {:induction false} ValidIsShaped()
      requires Valid()
      ensures Shaped(View()) && ShapedAll(Views())
      decreases Repr, |kids| + 1
    {
      hide Shaped;
      KidsAreShaped(0);
      assert Views() == ViewKids(0);
      ShapedFrom(View());
    }

    lemma {:induction false} KidsAreShaped(i: nat)
      requires Valid() && i <= |kids|
      ensures ShapedAll(ViewKids(i))
      decreases Repr, |kids| - i
    {
      hide Shaped;
      if i == |kids| {
      } else {
        kids[i].ValidIsShaped();
        KidsAreShaped(i + 1);
      }
    }

    /** The children do not see changes to the fields of this atom. */
    twostate lemma KidsFrame()
      requires old(Valid()) && unchanged(this`kids) && unchanged(this`Repr) && unchanged(Repr - {this})
      ensures Valid() && Views() == old(Views())
    {
      forall i | 0 <= i < |kids| ensures kids[i].Valid() && kids[i].View() == old(kids[i].View()) {
        assert kids[i].Repr <= Repr - {this};
      }
      forall i | 0 <= i < |kids| ensures Views()[i] == old(Views())[i] {
        assert Views()[i] == kids[i].View() && old(Views())[i] == old(kids[i].View());
      }
    }

    method BeginWrite(file: MP4File, use64: bool)
      modifies this`start, file
      ensures start == old(file.pos)
      ensures file.data == Splice(old(file.data), old(file.pos), Header(typ, ext, 0, use64))
      ensures file.pos == old(file.pos) + |Header(typ, ext, 0, use64)|
    {
      hide Splice, BigEndian;
      ghost var d, p := file.data, file.pos;
      start := file.pos;
      if use64 {
        file.WriteUInt32(1);
      } else {
        file.WriteUInt32(0);
      }
      ghost var b := BigEndian(if use64 then 1 else 0, 4);
      file.WriteBytes(typ);
      SpliceAppend(d, p, b, typ);
      b := b + typ;
      if use64 {
        file.WriteUInt64(0);
        SpliceAppend(d, p, b, BigEndian(0, 8));
        b := b + BigEndian(0, 8);
      }
      if typ == UUID {
        file.WriteBytes(ext);
        SpliceAppend(d, p, b, ext);
        b := b + ext;
      }
      assert b == Header(typ, ext, 0, use64);
    }

    /** Patches the size field; a size that does not fit a short header is refused. */
    method FinishWrite(file: MP4File, use64: bool) returns (ok: bool)
      requires start + HeaderSize(typ, use64) <= file.pos
      modifies this`end, this`size, file
      ensures ok <==> use64 || old(file.pos) - start <= MAX32
      ensures ok ==> end == file.pos == old(file.pos) && size == end - start - HeaderSize(typ, use64)
      ensures ok ==> file.data == Splice(old(file.data), if use64 then start + 8 else start,
                                         BigEndian(old(file.pos) - start, if use64 then 8 else 4))
      ensures !ok ==> file.data == old(file.data)
    {
      end := file.pos;
      size := end - start;
      if use64 {
        file.SetPosition(start + 8);
        file.WriteUInt64(size);
      } else {
        if size > MAX32 {
          return false;
        }
        file.SetPosition(start);
        file.WriteUInt32(size);
      }
      file.SetPosition(end);
      size := size - HeaderSize(typ, use64);
      ok := true;
    }

    method WriteProperties(file: MP4File)
      modifies file
      ensures file.data == Splice(old(file.data), old(file.pos), Flatten(props))
      ensures file.pos == old(file.pos) + |Flatten(props)|
    {
      for i := 0 to |props|
        invariant file.data == Splice(old(file.data), old(file.pos), Flatten(props[..i]))
        invariant file.pos == old(file.pos) + |Flatten(props[..i])|
      {
        file.WriteBytes(props[i]);
        FlattenSnoc(props[..i], props[i]);
        SpliceAppend(old(file.data), old(file.pos), Flatten(props[..i]), props[i]);
        assert props[..i + 1] == props[..i] + [props[i]];
      }
      assert props[..|props|] == props;
    }

    /** The first `n` children stand where they were written from `p` on, the others are as before. */
    ghost predicate KidsWritten(vs: seq<Atom>, p: nat, n: nat)
      reads this, Repr
    {
      && Valid() && |vs| == |kids| && n <= |kids|
      && (forall j :: 0 <= j < n ==> kids[j].View() == Located(vs[j], p + |BytesAll(vs[..j])|))
      && (forall j :: n <= j < |kids| ==> kids[j].View() == vs[j])
    }

    method WriteKid(file: MP4File, i: nat, ghost vs: seq<Atom>, ghost d: seq<byte>, ghost p: nat) returns (ok: bool)
      requires i < |kids| && KidsWritten(vs, p, i) && WritableAll(vs[..i])
      requires file.data == Splice(d, p, BytesAll(vs[..i])) && file.pos == p + |BytesAll(vs[..i])|
      modifies kids[i].Repr`start, kids[i].Repr`end, kids[i].Repr`size, file
      ensures Valid()
      ensures ok ==> KidsWritten(vs, p, i + 1) && WritableAll(vs[..i + 1])
      ensures ok ==> file.data == Splice(d, p, BytesAll(vs[..i + 1])) && file.pos == p + |BytesAll(vs[..i + 1])|
      ensures !ok ==> !WritableAll(vs) && KeptBefore(d, file.data, p)
      decreases Repr, 0
    {
      hide Splice, Bytes, BytesAll, Located, Shaped, ShapedAll, Writable, WritableAll, View, Views, ViewKids;
      WritableAllAt(vs, i);
      KeptBySplice(d, p, BytesAll(vs[..i]));
      ok := kids[i].Write(file);
      if ok {
        NextKid(d, p, vs, i);
      }
    }

    method WriteChildAtoms(file: MP4File) returns (ok: bool)
      requires Valid()
      modifies (Repr - {this})`start, (Repr - {this})`end, (Repr - {this})`size, file
      ensures Valid()
      ensures ok <==> WritableAll(old(Views()))
      ensures ok ==> Views() == LocatedAll(old(Views()), old(file.pos))
      ensures ok ==> file.data == Splice(old(file.data), old(file.pos), BytesAll(old(Views())))
      ensures ok ==> file.pos == old(file.pos) + |BytesAll(old(Views()))|
      ensures !ok ==> KeptBefore(old(file.data), file.data, old(file.pos))
      decreases Repr, 1
    {
      hide Splice, Bytes, BytesAll, Located, LocatedAll, Shaped, ShapedAll, Writable, WritableAll, View, Views;
      hide ViewKids;
      ghost var vs, d, p := Views(), file.data, file.pos;
      EmptyKids(d, p);
      assert vs[..0] == [];
      assert forall j :: 0 <= j < |kids| ==> vs[j] == Views()[j];
      for i := 0 to |kids|
        invariant KidsWritten(vs, p, i) && WritableAll(vs[..i])
        invariant file.data == Splice(d, p, BytesAll(vs[..i])) && file.pos == p + |BytesAll(vs[..i])|
      {
        ok := WriteKid(file, i, vs, d, p);
        if !ok {
          return;
        }
      }
      assert vs[..|vs|] == vs;
      AllWritten(vs, p);
      ok := true;
    }

    lemma AllWritten(vs: seq<Atom>, p: nat)
      requires KidsWritten(vs, p, |kids|)
      ensures Views() == LocatedAll(vs, p)
    {
      hide Bytes, BytesAll, Located, LocatedAll;
      forall j | 0 <= j < |kids| ensures Views()[j] == LocatedAll(vs, p)[j] {
        LocatedAllAt(vs, p, j);
        assert Views()[j] == kids[j].View();
      }
    }

    /** Writes the atom at the current position, then seeks back and patches the size of its header. */
    method Write(file: MP4File) returns (ok: bool)
      requires Valid()
      modifies Repr`start, Repr`end, Repr`size, file
      ensures Valid()
      ensures ok <==> Writable(old(View()))
      ensures ok ==> View() == Located(old(View()), old(file.pos))
      ensures ok ==> file.data == Splice(old(file.data), old(file.pos), Bytes(old(View())))
      ensures ok ==> file.pos == old(file.pos) + |Bytes(old(View()))|
      ensures !ok ==> KeptBefore(old(file.data), file.data, old(file.pos))
      decreases Repr, 4
    {
      if typ == MDAT {
        ok := false;
      } else if IsFree(typ) {
        ok := WriteFree(file);
      } else {
        ok := WriteTree(file);
      }
    }

    /** Writes an atom again in place and restores the position; one never written is left alone. */
    method Rewrite(file: MP4File) returns (ok: bool)
      requires Valid()
      modifies Repr`start, Repr`end, Repr`size, file
      ensures Valid()
      ensures old(end) == 0 ==> ok && file.data == old(file.data) && file.pos == old(file.pos) && View() == old(View())
      ensures old(end) != 0 ==> (ok <==> Writable(old(View())))
      ensures old(end) != 0 && ok ==> file.data == Splice(old(file.data), old(start), Bytes(old(View())))
      ensures old(end) != 0 && ok ==> View() == Located(old(View()), old(start))
      ensures ok ==> file.pos == old(file.pos)
    {
      if end == 0 {
        return true;
      }
      var fPos := file.pos;
      file.SetPosition(start);
      ok := Write(file);
      file.SetPosition(fPos);
    }

    lemma TreeViewFields(pos: nat)
      requires Valid() && !IsFree(typ)
      ensures var a, n := View(), |Flatten(props)| + |BytesAll(Views())|;
              && Bytes(a) == Header(typ, ext, |Bytes(a)|, false) + (Flatten(props) + BytesAll(Views()))
              && |Bytes(a)| == HeaderSize(typ, false) + n
              && |Header(typ, ext, 0, false)| == HeaderSize(typ, false)
              && Located(a, pos) == Atom(typ, ext, props,
                                         LocatedAll(Views(), pos + HeaderSize(typ, false) + |Flatten(props)|),
                                         pos, pos + |Bytes(a)|, n)
              && (Writable(a) <==> typ != MDAT && WritableAll(Views()) && |Bytes(a)| <= MAX32)
    {
      hide *;
      ValidIsShaped();
      assert View() == Atom(typ, ext, props, Views(), start, end, size) by {
        ViewFields();
      }
      TreeFields(View(), pos);
    }

    lemma FreeViewFields(pos: nat)
      requires Valid() && IsFree(typ)
      ensures var a, w := View(), size > MAX32 - 8;
              && Bytes(a) == Header(typ, ext, |Bytes(a)|, w) + Zeros(size)
              && |Bytes(a)| == HeaderSize(typ, w) + size
              && Located(a, pos) == Atom(typ, ext, props, Views(), pos, pos + |Bytes(a)|, size)
              && Writable(a)
    {
      hide *;
      ValidIsShaped();
      ViewFields();
      FreeFields(View(), pos);
    }

    lemma ViewFields()
      requires Valid()
      ensures View() == Atom(typ, ext, props, Views(), start, end, size)
    {
    }

    method WriteTree(file: MP4File) returns (ok: bool)
      requires Valid() && !IsFree(typ) && typ != MDAT
      modifies Repr`start, Repr`end, Repr`size, file
      ensures Valid()
      ensures ok <==> Writable(old(View()))
      ensures ok ==> View() == Located(old(View()), old(file.pos))
      ensures ok ==> file.data == Splice(old(file.data), old(file.pos), Bytes(old(View())))
      ensures ok ==> file.pos == old(file.pos) + |Bytes(old(View()))|
      ensures !ok ==> KeptBefore(old(file.data), file.data, old(file.pos))
      decreases Repr, 3
    {
      hide Splice, BigEndian, Flatten, BytesAll, LocatedAll, WritableAll, Shaped, ShapedAll, Header, Located, Bytes;
      hide Writable;
      hide Valid, View, Views;
      ghost var d, p, vs := file.data, file.pos, Views();
      TreeViewFields(p);
      BeginWrite(file, false);
      KidsFrame();
      TreeSplices(d, p, typ, ext, Flatten(props), BytesAll(vs));
      KeptBySplice(d, p, Header(typ, ext, 0, false));
      ok := WriteBody(file);
      if ok {
        label Children:
        ok := FinishWrite(file, false);
        KidsFrame@Children();
        KeptBySplice(d, p, Header(typ, ext, 0, false) + (Flatten(props) + BytesAll(vs)));
        ViewFields();
      }
    }

    /** The fields and then the children. */
    method WriteBody(file: MP4File) returns (ok: bool)
      requires Valid()
      modifies (Repr - {this})`start, (Repr - {this})`end, (Repr - {this})`size, file
      ensures Valid()
      ensures ok <==> WritableAll(old(Views()))
      ensures ok ==> Views() == LocatedAll(old(Views()), old(file.pos) + |Flatten(props)|)
      ensures var body := Flatten(props) + BytesAll(old(Views()));
              ok ==> file.data == Splice(old(file.data), old(file.pos), body) && file.pos == old(file.pos) + |body|
      ensures !ok ==> KeptBefore(old(file.data), file.data, old(file.pos))
      decreases Repr, 2
    {
      hide Splice, Flatten, BytesAll, LocatedAll, WritableAll;
      WriteProperties(file);
      KeptBySplice(old(file.data), old(file.pos), Flatten(props));
      SpliceAppend(old(file.data), old(file.pos), Flatten(props), BytesAll(Views()));
      ok := WriteChildAtoms(file);
    }

    static method WriteZeros(file: MP4File, n: nat)
      modifies file
      ensures file.data == Splice(old(file.data), old(file.pos), Zeros(n)) && file.pos == old(file.pos) + n
    {
      hide Splice;
      assert Zeros(0) == [];
      EmptyKids(file.data, file.pos);
      for ix := 0 to n
        invariant file.data == Splice(old(file.data), old(file.pos), Zeros(ix)) && file.pos == old(file.pos) + ix
      {
        file.WriteBytes([0]);
        SpliceAppend(old(file.data), old(file.pos), Zeros(ix), [0]);
        assert Zeros(ix) + [0] == Zeros(ix + 1);
      }
    }

    /** A free atom is a header followed by zeros; it alone picks the long header by its size. */
    method WriteFree(file: MP4File) returns (ok: bool)
      requires Valid() && IsFree(typ)
      modifies this`start, this`end, this`size, file
      ensures Valid()
      ensures ok
      ensures View() == Located(old(View()), old(file.pos))
      ensures file.data == Splice(old(file.data), old(file.pos), Bytes(old(View())))
      ensures file.pos == old(file.pos) + |Bytes(old(View()))|
    {
      hide Splice, BigEndian, Header, Located, Bytes, Writable, Valid, View, Views;
      var use64 := size > MAX32 - 8;
      ghost var d, p, h := file.data, file.pos, Header(typ, ext, 0, use64);
      FreeViewFields(p);
      HeaderFields(typ, ext, 0, use64);
      BeginWrite(file, use64);
      WriteZeros(file, size);
      SpliceAppend(d, p, h, Zeros(size));
      FreeSplices(d, p, typ, ext, size, use64);
      ok := FinishWrite(file, use64);
      KidsFrame();
      ViewFields();
    }

    /**
     Reads one atom with everything in it. Sizes are 64-bit unsigned; where the end of the atom would
     lie before the atom the model stops with `Backward`.
     */
    static method ReadAtom(sc: Schema, file: MP4File, parentEnd: nat) returns (r: Result<MP4Atom, ReadError>)
      requires parentEnd < TWO64
      modifies file`pos
      ensures r.Err? ==> ParseAtom(sc, file.data, old(file.pos), parentEnd) == Err(r.error)
      ensures r.Ok? ==> r.value.Valid() && fresh(r.value.Repr)
      ensures r.Ok? ==> ParseAtom(sc, file.data, old(file.pos), parentEnd) == Ok(r.value.View())
      ensures r.Ok? ==> file.pos == r.value.end
      ensures r.Ok? && parentEnd <= |file.data| < TWO64 && SizeField(file.data, old(file.pos)) == 0 ==>
                r.value.end == parentEnd
      ensures r.Ok? && 1 < SizeField(file.data, old(file.pos)) <= parentEnd - old(file.pos) ==>
                r.value.end == old(file.pos) + SizeField(file.data, old(file.pos))
      decreases Room(file.pos, parentEnd), 0
    {
      hide ParseAtom, ParseHead, ParseBody, SizeField;
      var pos := file.pos;
      AtomIsHeadAndBody(sc, file.data, pos, parentEnd);
      var head := ReadHeader(file, parentEnd);
      if head.Err? {
        return Err(head.error);
      }
      var atom := new MP4Atom(head.value.typ, head.value.ext);
      atom.start, atom.end, atom.size := pos, head.value.end, head.value.size;
      var res := atom.Read(sc, file);
      if res.Err? {
        return Err(res.error);
      }
      r := Ok(atom);
    }

    static method ReadHeader(file: MP4File, parentEnd: nat) returns (r: Result<Head, ReadError>)
      requires parentEnd < TWO64
      modifies file`pos
      ensures r == ParseHead(file.data, old(file.pos), parentEnd)
      ensures r.Ok? ==> file.pos == old(file.pos) + r.value.hdr
      ensures r.Ok? && parentEnd <= |file.data| < TWO64 && SizeField(file.data, old(file.pos)) == 0 ==>
                r.value.end == parentEnd
    {
      hide Announced, Wrap64, SizeField;
      var pos := file.pos;
      var front := ReadSizeAndType(file);
      if front.Err? {
        return Err(front.error);
      }
      var (dataSize, hdrSize, typ) := front.value;
      var ext: seq<byte> := [];
      if typ == UUID {
        var extended := file.ReadBytes(16);
        if extended.Err? {
          return Err(extended.error);
        }
        ext, hdrSize := extended.value, hdrSize + 16;
      }
      if dataSize == 0 {
        dataSize := |file.data| - pos;
      }
      var end;
      end, dataSize := ClampToParent(pos, hdrSize, dataSize, parentEnd);
      if end <= pos {
        return Err(Backward);
      }
      r := Ok(Head(NormalType(typ), ext, hdrSize, end, dataSize));
    }

    static method ReadSizeAndType(file: MP4File) returns (r: Result<(nat, nat, seq<byte>), ReadError>)
      modifies file`pos
      ensures r.Err? ==> Announced(file.data, old(file.pos)) == Err(r.error)
      ensures r.Ok? ==> Announced(file.data, old(file.pos)) == Ok((r.value.0, r.value.1))
      ensures r.Ok? ==> file.pos == old(file.pos) + r.value.1 <= |file.data|
      ensures r.Ok? ==> r.value.2 == file.data[old(file.pos) + 4..old(file.pos) + 8]
    {
      hide FromBigEndian;
      var short := file.ReadUInt(4);
      if short.Err? {
        return Err(short.error);
      }
      var typ := file.ReadBytes(4);
      if typ.Err? {
        return Err(typ.error);
      }
      if short.value == 1 {
        var long := file.ReadUInt(8);
        if long.Err? {
          return Err(long.error);
        }
        return Ok((long.value, 16, typ.value));
      }
      r := Ok((short.value, 8, typ.value));
    }

    /** Cuts an atom at the end of its parent, in 64-bit arithmetic. */
    static method ClampToParent(pos: nat, hdrSize: nat, total: nat, parentEnd: nat) returns (end: nat, dataSize: nat)
      requires parentEnd < TWO64
      ensures end == (if Wrap64(pos + total) > parentEnd then parentEnd else Wrap64(pos + total))
      ensures dataSize == Wrap64(end - pos - hdrSize)
    {
      dataSize := Wrap64(total - hdrSize);
      WrapHeader(pos, hdrSize, total);
      if Wrap64(pos + hdrSize + dataSize) > parentEnd {
        dataSize := Wrap64(parentEnd - pos - hdrSize);
        WrapHeader(pos, hdrSize, parentEnd - pos);
      }
      end := Wrap64(pos + hdrSize + dataSize);
    }

    /** The generic read: fields, children if the type has any, then on to the end of the atom. */
    method Read(sc: Schema, file: MP4File) returns (r: Result<(), ReadError>)
      requires Valid() && Repr == {this} && kids == [] && end < TWO64
      modifies this`props, this`kids, this`Repr, file`pos
      ensures Valid() && fresh(Repr - {this})
      ensures r.Err? ==> ParseBody(sc, file.data, typ, old(file.pos), end, size) == Err(r.error)
      ensures r.Ok? ==> ParseBody(sc, file.data, typ, old(file.pos), end, size) == Ok((View().props, View().kids))
      ensures r.Ok? ==> file.pos == end
      decreases Room(file.pos, end), 3
    {
      hide ParseKids, ReadProps, Flatten, Widths;
      r := ReadProperties(file, Widths(Class(sc, typ), size));
      if r.Err? {
        return;
      }
      if Class(sc, typ).Known? && Class(sc, typ).kids {
        r := ReadChildAtoms(sc, file);
        if r.Err? {
          return;
        }
      }
      file.SetPosition(end);
    }

    method ReadProperties(file: MP4File, widths: seq<nat>) returns (r: Result<(), ReadError>)
      requires Valid()
      modifies this`props, file`pos
      ensures Valid() && Views() == old(Views())
      ensures r.Err? ==> ReadProps(file.data, old(file.pos), end, widths) == Err(r.error)
      ensures r.Ok? ==> ReadProps(file.data, old(file.pos), end, widths) == Ok(props)
      ensures r.Ok? ==> file.pos == old(file.pos) + |Flatten(props)|
    {
      hide ReadProps, Flatten, Valid, View, Views, ViewKids;
      props := [];
      ghost var d, p := file.data, file.pos;
      NoFields();
      ReadPropsSteps(d, p, end, widths, [], 0);
      for i := 0 to |widths|
        invariant file.pos == p + |Flatten(props)|
        invariant ReadProps(d, p, end, widths) == Prepend(props, ReadProps(d, file.pos, end, widths[i..]))
      {
        ReadPropsSteps(d, file.pos, end, widths, props, i);
        var value := file.ReadBytes(widths[i]);
        if value.Err? {
          KidsFrame();
          return Err(value.error);
        }
        if file.pos > end {
          KidsFrame();
          return Err(TooSmall);
        }
        FlattenSnoc(props, value.value);
        props := props + [value.value];
      }
      KidsFrame();
      assert ReadProps(d, file.pos, end, []) == Ok([]) by {
        NoProps(d, file.pos, end);
      }
      assert widths[|widths|..] == [] && props + [] == props;
      r := Ok(());
    }

    /** One round of reading children; fewer than eight bytes are read over. */
    method ReadNextChild(sc: Schema, file: MP4File) returns (r: Result<(), ReadError>)
      requires Valid() && file.pos < end < TWO64
      modifies this`kids, this`Repr, file`pos
      ensures Valid() && fresh(Repr - old(Repr))
      ensures r.Err? ==> ParseKids(sc, file.data, old(file.pos), end) == Err(r.error)
      ensures r.Ok? ==> old(file.pos) < file.pos
      ensures var before := Prepend(old(Views()), ParseKids(sc, file.data, old(file.pos), end));
              r.Ok? ==> before == Prepend(Views(), ParseKids(sc, file.data, file.pos, end))
      decreases Room(file.pos, end), 1
    {
      hide ParseKids, ParseAtom;
      var position := file.pos;
      assert Valid();
      ParseKidsSteps(sc, file.data, position, end, Views());
      if end - position < 8 {
        var rest := file.ReadBytes(end - position);
        if rest.Err? {
          return Err(rest.error);
        }
      } else {
        var child := ReadAtom(sc, file, end);
        if child.Err? {
          return Err(child.error);
        }
        AddChildAtom(child.value);
      }
      r := Ok(());
    }

    method ReadChildAtoms(sc: Schema, file: MP4File) returns (r: Result<(), ReadError>)
      requires Valid() && Repr == {this} && kids == [] && end < TWO64
      modifies this`kids, this`Repr, file`pos
      ensures Valid() && fresh(Repr - {this})
      ensures r.Err? ==> ParseKids(sc, file.data, old(file.pos), end) == Err(r.error)
      ensures r.Ok? ==> ParseKids(sc, file.data, old(file.pos), end) == Ok(Views())
      decreases Room(file.pos, end), 2
    {
      hide ParseKids, ParseAtom;
      ghost var d, p := file.data, file.pos;
      ParseKidsSteps(sc, d, p, end, []);
      while file.pos < end
        invariant Valid() && fresh(Repr - {this}) && p <= file.pos
        invariant ParseKids(sc, d, p, end) == Prepend(Views(), ParseKids(sc, d, file.pos, end))
        decreases end - file.pos
      {
        r := ReadNextChild(sc, file);
        if r.Err? {
          return;
        }
      }
      ParseKidsSteps(sc, d, file.pos, end, Views());
      r := Ok(());
    }
  }

  /** A result with more items in front. */
  function Prepend<T>(xs: seq<T>, r: Result<seq<T>, ReadError>): Result<seq<T>, ReadError> {
    if r.Ok? then Ok(xs + r.value) else r
  }

  lemma WrapAdd(a: int, b: int)
    ensures Wrap64(a + Wrap64(b)) == Wrap64(a + b)
  {
  }

  lemma WrapHeader(pos: nat, hdr: nat, total: int)
    ensures Wrap64(pos + hdr + Wrap64(total - hdr)) == Wrap64(pos + total)
    ensures Wrap64(Wrap64(pos + total) - pos - hdr) == Wrap64(total - hdr)
  {
    hide Wrap64;
    WrapAdd(pos + hdr, total - hdr);
    var back: int := 0 - (pos + hdr);
    WrapAdd(back, pos + total);
    assert back + Wrap64(pos + total) == Wrap64(pos + total) - pos - hdr;
  }

  lemma {:induction false} ReadPropsSteps(d: seq<byte>, pos: nat, end: nat, ws: seq<nat>, ps: seq<seq<byte>>, i: nat)
    requires i <= |ws|
    ensures i == 0 ==> ws[i..] == ws && Prepend([], ReadProps(d, pos, end, ws)) == ReadProps(d, pos, end, ws)
    ensures i < |ws| ==>
              var r := Prepend(ps, ReadProps(d, pos, end, ws[i..]));
              if pos + ws[i] > |d| then r == Err(EndOfFile)
              else if pos + ws[i] > end then r == Err(TooSmall)
              else r == Prepend(ps + [d[pos..pos + ws[i]]], ReadProps(d, pos + ws[i], end, ws[i + 1..]))
  {
    var r := ReadProps(d, pos, end, ws);
    assert r.Ok? ==> [] + r.value == r.value;
    if i < |ws| {
      assert ws[i..][1..] == ws[i + 1..];
      var rest := ReadProps(d, pos + ws[i], end, ws[i + 1..]);
      if rest.Ok? && pos + ws[i] <= |d| {
        assert ps + ([d[pos..pos + ws[i]]] + rest.value) == ps + [d[pos..pos + ws[i]]] + rest.value;
      }
    }
  }

  lemma {:induction false} ParseKidsSteps(sc: Schema, d: seq<byte>, pos: nat, end: nat, ks: seq<Atom>)
    ensures var r := Prepend(ks, ParseKids(sc, d, pos, end));
            if pos >= end then r == Ok(ks)
            else if end - pos < 8 then r == (if end > |d| then Err(EndOfFile) else Ok(ks))
            else
              var a := ParseAtom(sc, d, pos, end);
              if a.Err? then r == Err(a.error)
              else r == Prepend(ks + [a.value], ParseKids(sc, d, a.value.end, end))
    ensures pos < end && end - pos < 8 && end <= |d| ==> Prepend(ks, ParseKids(sc, d, end, end)) == Ok(ks)
    ensures Prepend([], ParseKids(sc, d, pos, end)) == ParseKids(sc, d, pos, end)
  {
    hide ParseAtom;
    var r := ParseKids(sc, d, pos, end);
    assert r.Ok? ==> [] + r.value == r.value;
    assert ks + [] == ks;
    if pos + 8 <= end && ParseAtom(sc, d, pos, end).Ok? {
      var a := ParseAtom(sc, d, pos, end).value;
      var rest := ParseKids(sc, d, a.end, end);
      if rest.Ok? {
        assert ks + ([a] + rest.value) == ks + [a] + rest.value;
      }
    }
  }

  lemma ShapedFrom(a: Atom)
    requires |a.typ| == 4 && |a.ext| == (if a.typ == UUID then 16 else 0) && ShapedAll(a.kids)
    ensures Shaped(a)
  {
    hide ShapedAll;
  }

  lemma {:induction false} TreeFields(a: Atom, pos: nat)
    requires Shaped(a) && !IsFree(a.typ)
    ensures var h, body := Header(a.typ, a.ext, |Bytes(a)|, false), Flatten(a.props) + BytesAll(a.kids);
            && Bytes(a) == h + body && |Bytes(a)| == HeaderSize(a.typ, false) + |body|
            && |a.typ| == 4 && |a.ext| == (if a.typ == UUID then 16 else 0)
            && |Header(a.typ, a.ext, 0, false)| == HeaderSize(a.typ, false)
            && Located(a, pos) == Atom(a.typ, a.ext, a.props,
                                       LocatedAll(a.kids, pos + HeaderSize(a.typ, false) + |Flatten(a.props)|),
                                       pos, pos + |Bytes(a)|, |body|)
    ensures ShapedAll(a.kids)
    ensures Writable(a) <==> a.typ != MDAT && WritableAll(a.kids) && |Bytes(a)| <= MAX32
  {
    hide Flatten, BytesAll, LocatedAll, ShapedAll, WritableAll;
  }

  lemma {:induction false} FreeFields(a: Atom, pos: nat)
    requires Shaped(a) && IsFree(a.typ)
    ensures var w := a.size > MAX32 - 8;
            && Bytes(a) == Header(a.typ, a.ext, |Bytes(a)|, w) + Zeros(a.size)
            && |Bytes(a)| == HeaderSize(a.typ, w) + a.size
            && Located(a, pos) == Atom(a.typ, a.ext, a.props, a.kids, pos, pos + |Bytes(a)|, a.size)
    ensures Writable(a)
  {
  }

  lemma EmptyKids(d: seq<byte>, p: nat)
    ensures BytesAll([]) == [] && WritableAll([]) && Splice(d, p, []) == d
  {
  }
}
