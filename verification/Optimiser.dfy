/** The whole optimisation of a file: front, media data of all tracks, new offset tables, second pass. */
module Optimiser {
  import opened Wrappers
  import opened ByteCodec
  import opened AtomTree
  import opened AtomRoundTrip
  import opened Mp4File
  import opened Mp4Atom
  import opened RootAtom
  import opened ChunkRewrite

  /** The field of an offset atom that holds the table: it comes after version, flags and count. */
  const TABLE: nat := 3

  function TableBytes(offsets: seq<nat>, width: nat): (s: seq<byte>)
    ensures |s| == width * |offsets|
  {
    if offsets == [] then [] else
      var s := TableBytes(offsets[..|offsets| - 1], width) + BigEndian(offsets[|offsets| - 1], width);
      assert width * |offsets| == width * (|offsets| - 1) + width;
      s
  }

  /** An entry is found in the table at its place. */
  lemma {:induction false} TableEntry(offsets: seq<nat>, width: nat, c: nat)
    requires c < |offsets|
    ensures width * c + width <= |TableBytes(offsets, width)|
    ensures TableBytes(offsets, width)[width * c..width * c + width] == BigEndian(offsets[c], width)
  {
    hide BigEndian, TableBytes;
    var n := |offsets| - 1;
    TableSnoc(offsets, width);
    assert width * |offsets| == width * n + width;
    if c == n {
    } else {
      TableEntry(offsets[..n], width, c);
      SubSlice(TableBytes(offsets, width), 0, TableBytes(offsets[..n], width), width * c, width * c + width);
    }
  }

  lemma TableSnoc(offsets: seq<nat>, width: nat)
    requires offsets != []
    ensures var n := |offsets| - 1;
            var a, b, t := TableBytes(offsets[..n], width), BigEndian(offsets[n], width), TableBytes(offsets, width);
            t == a + b && t[..width * n] == a && t[width * n..] == b && t[0..0 + |a|] == a
  {
    hide BigEndian;
  }

  /** The offset tables of the tracks are fields of different atoms below `top`. */
  ghost predicate TablesOf(top: MP4Atom, targets: seq<MP4Atom>, tracks: seq<Track>)
    reads top`Repr, targets`props
  {
    && |targets| == |tracks|
    && (forall i, j :: 0 <= i < j < |targets| ==> targets[i] != targets[j])
    && forall i :: 0 <= i < |targets| ==>
         && targets[i] in top.Repr && |targets[i].props| > TABLE
         && |targets[i].props[TABLE]| == tracks[i].width * |tracks[i].sizes|
  }

  /** The atoms hold the offsets of the tracks. */
  ghost predicate TablesHold(targets: seq<MP4Atom>, tracks: seq<Track>)
    reads targets`props, tracks
  {
    && |targets| == |tracks|
    && forall i :: 0 <= i < |targets| ==>
         |targets[i].props| > TABLE && targets[i].props[TABLE] == TableBytes(tracks[i].offsets, tracks[i].width)
  }

  /** The fields of the offset atoms with the tables of the tracks. */
  method NewFields(targets: seq<MP4Atom>, tracks: seq<Track>) returns (values: seq<seq<seq<byte>>>)
    requires |targets| == |tracks| && forall i :: 0 <= i < |targets| ==> |targets[i].props| > TABLE
    ensures |values| == |targets|
    ensures forall i :: 0 <= i < |targets| ==>
              values[i] == targets[i].props[TABLE := TableBytes(tracks[i].offsets, tracks[i].width)]
  {
    values := [];
    for i := 0 to |targets|
      invariant |values| == i
      invariant forall j :: 0 <= j < i ==>
                  values[j] == targets[j].props[TABLE := TableBytes(tracks[j].offsets, tracks[j].width)]
    {
      values := values + [targets[i].props[TABLE := TableBytes(tracks[i].offsets, tracks[i].width)]];
    }
  }

  /** The new tables go into the movie atom, if there is one. */
  method SetTables(root: MP4Atom, tracks: seq<Track>, targets: seq<MP4Atom>)
    requires root.Valid() && AllValid(tracks)
    requires forall k: nat :: IsFirst(root.Views(), MOOV, k) ==> TablesOf(root.kids[k], targets, tracks)
    modifies targets`props
    ensures root.Valid() && Revalued(old(root.Views()), root.Views())
    ensures HasMoov(old(root.Views())) ==> TablesHold(targets, tracks)
  {
    hide Revalued, IsFirst, TableBytes, MP4Atom.View, MP4Atom.Views, MP4Atom.ViewKids;
    ghost var vs := root.Views();
    var k := FindMoov(root);
    FirstMovie(vs, k);
    if k < |root.kids| {
      var values := NewFields(targets, tracks);
      SetMovieFields(root, targets, values);
      FieldsHold(targets, tracks, values);
    } else {
      NoneRevalued(vs);
    }
  }

  lemma FieldsHold(targets: seq<MP4Atom>, tracks: seq<Track>, values: seq<seq<seq<byte>>>)
    requires |targets| == |tracks| == |values| && FieldsSet(targets, values)
    requires forall i, j :: 0 <= i < j < |targets| ==> targets[i] != targets[j]
    requires forall i :: 0 <= i < |targets| ==>
               |values[i]| > TABLE && values[i][TABLE] == TableBytes(tracks[i].offsets, tracks[i].width)
    ensures TablesHold(targets, tracks)
  {
  }

  /** The front of the file and the chunks of all tracks. */
  method BeginAndCopy(root: MP4Atom, reader: MP4File, file: MP4File, use64: bool, tracks: seq<Track>)
    returns (ok: bool, ghost ids: seq<ChunkId>)
    requires root.Valid() && AllValid(tracks) && reader != file
    modifies (root.Repr - {root})`start, (root.Repr - {root})`end, (root.Repr - {root})`size
    modifies file, reader`pos, tracks
    ensures root.Valid() && AllValid(tracks)
    ensures var s, vs, d, p := old(SourceOf(tracks, reader)), old(root.Views()), old(file.data), old(file.pos);
            && (ok <==> FrontWritable(vs) && HasMdat(vs) && Readable(s))
            && (ok ==> Copied(s, vs, tracks, ids, file, use64, d, p) && Placed(vs, root.Views(), p))
  {
    hide Splice, Bytes, BytesAll, Payload, Writable, Located, BigEndian, Header, Chosen, FrontWritable, HasMdat, Front;
    hide MP4Atom.View, MP4Atom.Views, MP4Atom.ViewKids, Placed;
    hide Joined, AllRewritten, Readable, TotalSize, InTime, EachInTime, Merged, TracksMoved, AllValid;
    ids := [];
    ok := BeginOptimalWrite(root, file, use64);
    if ok {
      ok, ids := RewriteMdat(tracks, reader, file);
      MovedWhenRewritten(old(SourceOf(tracks, reader)), old(root.Views()), tracks, ids, use64, old(file.pos));
    }
  }

  lemma MovedWhenRewritten(s: Source, vs: seq<Atom>, tracks: seq<Track>, ids: seq<ChunkId>, use64: bool, p: nat)
    ensures |s.offsets| == |s.sizes| == |tracks| && AllRewritten(s, tracks, ids, MediaStart(vs, use64, p))
            && ids == Merged(TimesOf(tracks), HintsOf(tracks))
            && (EachInTime(TimesOf(tracks)) ==> InTime(TimesOf(tracks), HintsOf(tracks), Lengths(s.sizes), ids))
            ==> TracksMoved(s, vs, tracks, ids, use64, p)
  {
    hide AllRewritten, InTime, EachInTime, Merged, MediaStart;
  }

  /** The file after the front and the chunks, and what the tracks now say about the chunks. */
  ghost predicate Copied(s: Source, vs: seq<Atom>, tracks: seq<Track>, ids: seq<ChunkId>, file: MP4File, use64: bool,
                         d: seq<byte>, p: nat)
    reads tracks, file
  {
    var b := Front(vs) + Header(MDAT, [], 0, use64);
    && file.data == AfterFirst(d, p, vs, Joined(s, ids), use64) && file.pos == p + |b| + |Joined(s, ids)|
    && |Joined(s, ids)| == TotalSize(s.sizes) && TracksMoved(s, vs, tracks, ids, use64, p)
  }

  /** First pass, the chunks of all tracks, and their new offsets into the movie atom. */
  method FirstPass(root: MP4Atom, reader: MP4File, file: MP4File, use64: bool, tracks: seq<Track>,
                   targets: seq<MP4Atom>)
    returns (ok: bool, ghost ids: seq<ChunkId>)
    requires root.Valid() && AllValid(tracks) && reader != file
    requires forall k: nat :: IsFirst(root.Views(), MOOV, k) ==> TablesOf(root.kids[k], targets, tracks)
    modifies (root.Repr - {root})`start, (root.Repr - {root})`end, (root.Repr - {root})`size, targets`props
    modifies file, reader`pos, tracks
    ensures root.Valid() && AllValid(tracks)
    ensures var s, vs, d, p := old(SourceOf(tracks, reader)), old(root.Views()), old(file.data), old(file.pos);
            && (ok <==> FrontWritable(vs) && HasMdat(vs) && Readable(s))
            && (ok ==> Copied(s, vs, tracks, ids, file, use64, d, p) && Ready(vs, root.Views(), p))
            && (ok && HasMoov(vs) ==> TablesHold(targets, tracks))
  {
    hide MP4Atom.View, MP4Atom.Views, MP4Atom.ViewKids, Placed, Revalued, Ready, FrontWritable, HasMdat, Copied;
    hide Readable, IsFirst, TablesHold, TablesOf, AllValid;
    ghost var vs, p := root.Views(), file.pos;
    ok, ids := BeginAndCopy(root, reader, file, use64, tracks);
    if !ok {
      return;
    }
    ghost var us := root.Views();
    FirstStays(vs, us, p);
    PlacesInside(us);
    SetTables(root, tracks, targets);
    PlacedThenRevalued(vs, us, root.Views(), p);
  }

  /**
   First pass, the chunks of all tracks, their new offsets, and the movie atom once more. The new offsets
   are right if and only if every chunk's place, known beforehand, fits the table of its track.
   */
  method Optimize(root: MP4Atom, reader: MP4File, file: MP4File, use64: bool, tracks: seq<Track>, targets: seq<MP4Atom>)
    returns (ok: bool, ghost ids: seq<ChunkId>)
    requires root.Valid() && AllValid(tracks) && reader != file
    requires forall k: nat :: IsFirst(root.Views(), MOOV, k) ==> TablesOf(root.kids[k], targets, tracks)
    modifies (root.Repr - {root})`start, (root.Repr - {root})`end, (root.Repr - {root})`size, targets`props
    modifies file, reader`pos, tracks
    ensures root.Valid() && AllValid(tracks)
    ensures var s, vs := old(SourceOf(tracks, reader)), old(root.Views());
            var room := HeaderSize(MDAT, false) + TotalSize(s.sizes) <= MAX32;
            ok <==> FrontWritable(vs) && HasMdat(vs) && HasMoov(vs) && Readable(s) && (use64 || room)
    ensures var s, vs, d, p := old(SourceOf(tracks, reader)), old(root.Views()), old(file.data), old(file.pos);
            ok ==> Done(s, vs, root.Views(), tracks, targets, ids, use64, d, p, file.data)
    ensures var start := MediaStart(old(root.Views()), use64, old(file.pos));
            && (ok ==> |targets| == |tracks|)
            && (ok ==> (TablesRight(start, SizesOf(tracks), tracks, targets)
                        <==> TablesFit(start, SizesOf(tracks), TimesOf(tracks), HintsOf(tracks), WidthsOf(tracks))))
  {
    hide TablesRight, TablesFit, MediaStart;
    hide TracksMoved, MP4Atom.View, MP4Atom.Views, MP4Atom.ViewKids, Ready, FrontWritable, HasMdat, HasMoov;
    hide OptimisedAt;
    hide Readable, TablesHold, TablesOf, AllValid, AllRewritten, Joined, TotalSize, InTime, EachInTime, AfterFirst;
    hide IsFirst;
    hide Copied, Done, Front, Header;
    ghost var s, vs, d, p := SourceOf(tracks, reader), root.Views(), file.data, file.pos;
    ok, ids := FirstPass(root, reader, file, use64, tracks, targets);
    if ok {
      CopiedFile(s, vs, tracks, ids, file, use64, d, p);
      ok := LastPass(root, file, use64, vs, d, p, Joined(s, ids));
      if ok {
        AllDone(s, vs, root.Views(), tracks, targets, ids, use64, d, p, file.data);
        TablesRightIff(s, vs, root.Views(), tracks, targets, ids, use64, d, p, file.data);
      }
    }
  }

  lemma CopiedFile(s: Source, vs: seq<Atom>, tracks: seq<Track>, ids: seq<ChunkId>, file: MP4File, use64: bool,
                   d: seq<byte>, p: nat)
    requires Copied(s, vs, tracks, ids, file, use64, d, p)
    ensures file.data == AfterFirst(d, p, vs, Joined(s, ids), use64)
    ensures file.pos == p + |Front(vs) + Header(MDAT, [], 0, use64)| + |Joined(s, ids)|
    ensures |Joined(s, ids)| == TotalSize(s.sizes)
    ensures TracksMoved(s, vs, tracks, ids, use64, p)
  {
    hide AfterFirst, Front, Header, Joined, AllRewritten, TotalSize, InTime, EachInTime;
  }

  /** Where the media data begin when the file is written at `p`. */
  function MediaStart(vs: seq<Atom>, use64: bool, p: nat): nat {
    p + |Front(vs) + Header(MDAT, [], 0, use64)|
  }

  ghost predicate TracksMoved(s: Source, vs: seq<Atom>, tracks: seq<Track>, ids: seq<ChunkId>, use64: bool, p: nat)
    reads tracks
  {
    && AllRewritten(s, tracks, ids, MediaStart(vs, use64, p))
    && ids == Merged(TimesOf(tracks), HintsOf(tracks)) && |s.sizes| == |tracks|
    && (EachInTime(TimesOf(tracks)) ==> InTime(TimesOf(tracks), HintsOf(tracks), Lengths(s.sizes), ids))
  }

  lemma AllDone(s: Source, vs: seq<Atom>, ws: seq<Atom>, tracks: seq<Track>, targets: seq<MP4Atom>,
                ids: seq<ChunkId>, use64: bool, d: seq<byte>, p: nat, d': seq<byte>)
    requires OptimisedAt(vs, ws, d, p, Joined(s, ids), use64, d')
    requires TracksMoved(s, vs, tracks, ids, use64, p) && TablesHold(targets, tracks)
    requires Readable(s) && |Joined(s, ids)| == TotalSize(s.sizes)
    ensures Done(s, vs, ws, tracks, targets, ids, use64, d, p, d')
  {
    hide OptimisedAt, Joined, AllRewritten, TablesHold, EachInTime, InTime, Merged, Readable, TotalSize;
  }

  /**
   The optimised file stands from `p` on, its media data are the chunks of all tracks, each once, merged in
   the order of time, and the offset atoms hold what the tracks say.
   */
  ghost predicate Done(s: Source, vs: seq<Atom>, ws: seq<Atom>, tracks: seq<Track>, targets: seq<MP4Atom>,
                       ids: seq<ChunkId>, use64: bool, d: seq<byte>, p: nat, d': seq<byte>)
    reads tracks, targets`props
  {
    && OptimisedAt(vs, ws, d, p, Joined(s, ids), use64, d')
    && TracksMoved(s, vs, tracks, ids, use64, p) && TablesHold(targets, tracks)
    && Readable(s) && |Joined(s, ids)| == TotalSize(s.sizes)
  }

  /** The media data stand where the first pass put them. */
  lemma PayloadInPlace(vs: seq<Atom>, ws: seq<Atom>, d: seq<byte>, p: nat, payload: seq<byte>, use64: bool,
                       d': seq<byte>, at: nat, b: seq<byte>)
    requires HasMoov(vs) && OptimisedAt(vs, ws, d, p, payload, use64, d')
    requires at + |b| <= |payload| && payload[at..at + |b|] == b
    ensures var q := p + |Front(vs) + Header(MDAT, [], 0, use64)| + at;
            q + |b| <= |d'| && d'[q..q + |b|] == b
  {
    hide Splice, Bytes, BytesAll, Chosen, Header, BigEndian;
    var k: nat :| IsFirst(vs, MOOV, k);
    ChosenMovie(vs, k);
    var front := BytesAll(Chosen(vs, FTYP, true)) + Bytes(ws[k]) + BytesAll(Chosen(vs, UDTA, false))
                 + Header(MDAT, [], HeaderSize(MDAT, use64) + |payload|, use64);
    HeaderFields(MDAT, [], 0, use64);
    HeaderFields(MDAT, [], HeaderSize(MDAT, use64) + |payload|, use64);
    assert Optimised(vs, ws[k], payload, use64) == front + payload;
    assert |front| == |Front(vs) + Header(MDAT, [], 0, use64)|;
    Within(d, p, front, payload, at, b);
  }

  lemma Within(d: seq<byte>, p: nat, front: seq<byte>, payload: seq<byte>, at: nat, b: seq<byte>)
    requires front != [] && at + |b| <= |payload| && payload[at..at + |b|] == b
    ensures var q, r := p + |front| + at, Splice(d, p, front + payload);
            q + |b| <= |r| && r[q..q + |b|] == b
  {
    hide Splice;
    var x, r := front + payload, Splice(d, p, front + payload);
    SpliceAt(d, p, x);
    SubSlice(r, p, x, |front| + at, |front| + at + |b|);
    assert x[|front| + at..|front| + at + |b|] == payload[at..at + |b|];
  }

  /** The bytes `b` are at `q`, and entry `c` of the table says so if `q` fits it, and otherwise does not. */
  predicate FoundAt(b: seq<byte>, table: seq<byte>, w: nat, c: nat, q: nat, d': seq<byte>) {
    && q + |b| <= |d'| && d'[q..q + |b|] == b
    && (Entry(table, w, c) == Some(q) <==> q < Pow256(w))
  }

  /** Entry number `c` of a table. */
  function Entry(table: seq<byte>, w: nat, c: nat): Option<nat> {
    if w * c + w <= |table| then Some(FromBigEndian(table[w * c..w * c + w])) else None
  }

  /**
   After optimising, every chunk of every track is in the file with the bytes it had, at the place that
   the merge of the tracks gives it, and the entry of its track's offset atom is that place if and only if
   the place fits the width of the table.
   */
  lemma ChunkFound(s: Source, vs: seq<Atom>, ws: seq<Atom>, tracks: seq<Track>, targets: seq<MP4Atom>,
                   ids: seq<ChunkId>, use64: bool, d: seq<byte>, p: nat, d': seq<byte>, id: ChunkId)
    requires HasMoov(vs) && Done(s, vs, ws, tracks, targets, ids, use64, d, p, d') && Has(s, id)
    ensures id.t < |targets| == |tracks| && |targets[id.t].props| > TABLE
    ensures var start := MediaStart(vs, use64, p);
            var q := start + StartIn(s.sizes, Merged(TimesOf(tracks), HintsOf(tracks)), id);
            && FoundAt(ChunkBytes(s, id), targets[id.t].props[TABLE], tracks[id.t].width, id.c, q, d')
            && q + |ChunkBytes(s, id)| <= start + TotalSize(s.sizes)
  {
    hide OptimisedAt, Joined, ChunkBytes, InTable, ChunksOf, TableBytes, FromBigEndian, BigEndian, Pow256, Front;
    hide Header;
    hide Merged, StartIn, TotalSize, InTime, EachInTime;
    var start := MediaStart(vs, use64, p);
    var t, c := id.t, id.c;
    var w, offsets := tracks[t].width, tracks[t].offsets;
    EveryChunkFound(s, WidthsOf(tracks), Lengths(s.sizes), OffsetsOf(tracks), ids, start, id);
    var at := StartIn(s.sizes, ids, id);
    PayloadInPlace(vs, ws, d, p, Joined(s, ids), use64, d', at, ChunkBytes(s, id));
    TableEntry(offsets, w, c);
    StoredFits(w, start + at);
  }

  /** A chunk that a merge of the tracks puts at a place its table can express. */
  ghost predicate Fits(start: nat, sizes: seq<seq<nat>>, times: seq<seq<nat>>, hints: seq<bool>, widths: seq<nat>,
                       id: ChunkId)
    requires |times| == |hints|
  {
    id.t < |widths| && start + StartIn(sizes, Merged(times, hints), id) < Pow256(widths[id.t])
  }

  /** Every chunk of every track will have a place that its table can express. */
  ghost predicate TablesFit(start: nat, sizes: seq<seq<nat>>, times: seq<seq<nat>>, hints: seq<bool>, widths: seq<nat>)
    requires |times| == |hints|
  {
    forall id: ChunkId :: id.t < |sizes| && id.c < |sizes[id.t]| ==> Fits(start, sizes, times, hints, widths, id)
  }

  /** Every entry of every offset atom is the place of its chunk. */
  ghost predicate TablesRight(start: nat, sizes: seq<seq<nat>>, tracks: seq<Track>, targets: seq<MP4Atom>)
    requires |targets| == |tracks|
    reads targets`props
  {
    forall id: ChunkId :: id.t < |sizes| && id.c < |sizes[id.t]| ==> EntryRight(start, sizes, tracks, targets, id)
  }

  ghost predicate EntryRight(start: nat, sizes: seq<seq<nat>>, tracks: seq<Track>, targets: seq<MP4Atom>, id: ChunkId)
    requires |targets| == |tracks|
    reads targets`props
  {
    && id.t < |tracks| && |targets[id.t].props| > TABLE
    && Entry(targets[id.t].props[TABLE], tracks[id.t].width, id.c)
       == Some(start + StartIn(sizes, Merged(TimesOf(tracks), HintsOf(tracks)), id))
  }

  /**
   The offset tables of an optimised file are right if and only if every chunk's place fits its table. The
   place depends only on what is known beforehand: the start of the media data, sizes, times and hint tracks.
   */
  lemma TablesRightIff(s: Source, vs: seq<Atom>, ws: seq<Atom>, tracks: seq<Track>, targets: seq<MP4Atom>,
                       ids: seq<ChunkId>, use64: bool, d: seq<byte>, p: nat, d': seq<byte>)
    requires HasMoov(vs) && Done(s, vs, ws, tracks, targets, ids, use64, d, p, d')
    ensures |targets| == |tracks|
    ensures var start := MediaStart(vs, use64, p);
            TablesRight(start, s.sizes, tracks, targets)
            <==> TablesFit(start, s.sizes, TimesOf(tracks), HintsOf(tracks), WidthsOf(tracks))
  {
    hide OptimisedAt, Merged, StartIn, Pow256, Entry, MediaStart, InTime, EachInTime;
    hide Joined, ChunkBytes, TotalSize, Readable, ChunksOf, InTable, TableBytes;
    var start := MediaStart(vs, use64, p);
    forall id: ChunkId | id.t < |s.sizes| && id.c < |s.sizes[id.t]|
      ensures EntryRight(start, s.sizes, tracks, targets, id)
              <==> Fits(start, s.sizes, TimesOf(tracks), HintsOf(tracks), WidthsOf(tracks), id)
    {
      ChunkFound(s, vs, ws, tracks, targets, ids, use64, d, p, d', id);
    }
  }

  /** Two chunks of one byte less than 4 GB and of one byte: the second does not fit a table of four bytes. */
  lemma NarrowTable(start: nat)
    requires start >= 1
    ensures !TablesFit(start, [[0xFFFF_FFFF, 1]], [[0, 1]], [false], [4])
  {
    hide Merge;
    var times: seq<seq<nat>>, sizes: seq<seq<nat>>, widths: seq<nat> := [[0, 1]], [[0xFFFF_FFFF, 1]], [4];
    var a, b := ChunkId(0, 0), ChunkId(0, 1);
    MergeOfTwo(times, [false]);
    assert [a, b][..FirstIndex([a, b], b)] == [a];
    assert SizesOfAll(sizes, [a]) == 0xFFFF_FFFF by {
      assert [a][..0] == [];
    }
    assert !Fits(start, sizes, times, [false], widths, b) by {
      assert Pow256(4) == 0x1_0000_0000;
    }
  }

  lemma MergeOfTwo(times: seq<seq<nat>>, hints: seq<bool>)
    requires |times| == |hints| == 1 && |times[0]| == 2
    ensures Merged(times, hints) == [ChunkId(0, 0), ChunkId(0, 1)]
  {
    hide Merge;
    var m0: seq<nat>, m1: seq<nat>, m2: seq<nat> := [0], [1], [2];
    assert NoneYet(1) == m0 && m0[0 := 1] == m1 && m1[0 := 2] == m2;
    MergeStep(times, hints, m0, 0);
    MergeStep(times, hints, m1, 0);
    MergeEnd(times, hints, m2);
  }

  /** A table keeps an offset if and only if it fits. */
  lemma StoredFits(w: nat, q: nat)
    ensures FromBigEndian(BigEndian(Stored(w, q), w)) == q <==> q < Pow256(w)
  {
    BigEndianExact(Stored(w, q), w);
    if q < Pow256(w) {
      BigEndianExact(q, w);
      BigEndianRoundTrip(q, w);
    }
  }
}
