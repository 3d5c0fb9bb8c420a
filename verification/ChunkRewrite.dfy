/** Rewriting the media data: the chunks of all tracks merged by time, and their new offsets. */
module ChunkRewrite {
  import opened Wrappers
  import opened ByteCodec
  import opened Mp4File

  /** The value that stands for "no time"; the time of a chunk is always less. */
  const INVALID_TIME: nat := 0xFFFF_FFFF_FFFF_FFFF

  // ---------------------------------------------------------------- chunks as values

  /** Chunk number `c` of track number `t`. */
  datatype ChunkId = ChunkId(t: nat, c: nat)

  /** What does not change of the tracks: the source file, and where the chunks are in it. */
  datatype Source = Source(data: seq<byte>, offsets: seq<seq<nat>>, sizes: seq<seq<nat>>)

  predicate Has(s: Source, id: ChunkId) {
    id.t < |s.offsets| == |s.sizes| && id.c < |s.offsets[id.t]| == |s.sizes[id.t]|
  }

  predicate InSource(s: Source, id: ChunkId)
    requires Has(s, id)
  {
    s.offsets[id.t][id.c] + s.sizes[id.t][id.c] <= |s.data|
  }

  /** All chunks lie in the source file. */
  ghost predicate Readable(s: Source) {
    forall id :: Has(s, id) ==> InSource(s, id)
  }

  function ChunkBytes(s: Source, id: ChunkId): seq<byte> {
    if Has(s, id) && InSource(s, id)
    then s.data[s.offsets[id.t][id.c]..s.offsets[id.t][id.c] + s.sizes[id.t][id.c]]
    else []
  }

  /** The chunks of a list, one after the other. */
  function Joined(s: Source, ids: seq<ChunkId>): seq<byte> {
    if ids == [] then [] else Joined(s, ids[..|ids| - 1]) + ChunkBytes(s, ids[|ids| - 1])
  }

  lemma {:induction false} JoinedSnoc(s: Source, ids: seq<ChunkId>, id: ChunkId)
    ensures Joined(s, ids + [id]) == Joined(s, ids) + ChunkBytes(s, id)
  {
    assert (ids + [id])[..|ids|] == ids;
  }

  /** A chunk is found where the chunks before it end. */
  lemma {:induction false} ChunkInJoined(s: Source, ids: seq<ChunkId>, k: nat)
    requires k < |ids|
    ensures var at, b := |Joined(s, ids[..k])|, ChunkBytes(s, ids[k]);
            at + |b| <= |Joined(s, ids)| && Joined(s, ids)[at..at + |b|] == b
  {
    hide ChunkBytes;
    var n := |ids| - 1;
    if k == n {
    } else {
      ChunkInJoined(s, ids[..n], k);
      assert ids[..n][..k] == ids[..k] && ids[..n][k] == ids[k];
    }
  }

  /** The chunks of one track in a list, in the order of the list. */
  function ChunksOf(ids: seq<ChunkId>, t: nat): seq<nat> {
    if ids == [] then []
    else
      var id := ids[|ids| - 1];
      ChunksOf(ids[..|ids| - 1], t) + (if id.t == t then [id.c] else [])
  }

  function UpTo(n: nat): (s: seq<nat>)
    ensures |s| == n
  {
    seq(n, i => i)
  }

  lemma {:induction false} ChunksOfSnoc(ids: seq<ChunkId>, id: ChunkId, t: nat)
    ensures ChunksOf(ids + [id], t) == ChunksOf(ids, t) + (if id.t == t then [id.c] else [])
  {
    assert (ids + [id])[..|ids|] == ids;
  }

  lemma {:induction false} FindChunk(ids: seq<ChunkId>, t: nat, i: nat) returns (k: nat)
    requires i < |ChunksOf(ids, t)|
    ensures k < |ids| && ids[k] == ChunkId(t, ChunksOf(ids, t)[i])
  {
    var n := |ids| - 1;
    if i < |ChunksOf(ids[..n], t)| {
      k := FindChunk(ids[..n], t, i);
    } else {
      k := n;
    }
  }

  /** An offset as a table of the given width keeps it. */
  function Stored(width: nat, offset: nat): nat {
    offset % Pow256(width)
  }

  /**
   How far rewriting has come: every track's chunks up to its next one have been written, in order and
   once each; a chunk written has its new offset in the table, the others still have the old one.
   */
  ghost predicate Rewritten(s: Source, widths: seq<nat>, next: seq<nat>, now: seq<seq<nat>>, ids: seq<ChunkId>,
                            p: nat) {
    && |s.offsets| == |s.sizes| == |widths| == |next| == |now|
    && (forall t :: 0 <= t < |next| ==> |s.offsets[t]| == |s.sizes[t]| == |now[t]| && next[t] <= |now[t]|)
    && (forall t :: 0 <= t < |next| ==> ChunksOf(ids, t) == UpTo(next[t]))
    && (forall k :: 0 <= k < |ids| ==> ids[k].t < |next| && ids[k].c < next[ids[k].t])
    && (forall k :: 0 <= k < |ids| ==> InTable(s, widths, now, ids, p, k))
    && (forall t, c :: 0 <= t < |next| && next[t] <= c < |now[t]| ==> now[t][c] == s.offsets[t][c])
  }

  predicate InTable(s: Source, widths: seq<nat>, now: seq<seq<nat>>, ids: seq<ChunkId>, p: nat, k: nat)
    requires k < |ids|
  {
    && ids[k].t < |now| && ids[k].t < |widths| && ids[k].c < |now[ids[k].t]|
    && now[ids[k].t][ids[k].c] == Stored(widths[ids[k].t], p + |Joined(s, ids[..k])|)
  }

  /** One more chunk of track `t` written. */
  lemma RewrittenStep(s: Source, widths: seq<nat>, next: seq<nat>, now: seq<seq<nat>>, ids: seq<ChunkId>,
                      p: nat, t: nat)
    requires Rewritten(s, widths, next, now, ids, p) && t < |next| && next[t] < |now[t]|
    ensures var table: seq<nat> := now[t][next[t] := Stored(widths[t], p + |Joined(s, ids)|)];
            Rewritten(s, widths, next[t := next[t] + 1], now[t := table], ids + [ChunkId(t, next[t])], p)
  {
    hide Joined, ChunkBytes, Stored, ChunksOf;
    var id, table: seq<nat> := ChunkId(t, next[t]), now[t][next[t] := Stored(widths[t], p + |Joined(s, ids)|)];
    var next', now', ids' := next[t := next[t] + 1], now[t := table], ids + [id];
    forall u | 0 <= u < |next| ensures ChunksOf(ids', u) == UpTo(next'[u]) {
      ChunksOfSnoc(ids, id, u);
      assert UpTo(next[u]) + [next[u]] == UpTo(next[u] + 1);
    }
    forall k | 0 <= k < |ids'| ensures InTable(s, widths, now', ids', p, k) {
      assert ids'[..|ids|] == ids;
      if k < |ids| {
        assert InTable(s, widths, now, ids, p, k);
        assert ids'[..k] == ids[..k] && ids'[k] == ids[k];
      }
    }
  }

  /** The place of a chunk in a list. */
  function FirstIndex(ids: seq<ChunkId>, id: ChunkId): (k: nat)
    ensures k <= |ids|
  {
    if ids == [] || ids[0] == id then 0 else 1 + FirstIndex(ids[1..], id)
  }

  lemma {:induction false} FirstIndexOf(ids: seq<ChunkId>, id: ChunkId)
    requires id in ids
    ensures FirstIndex(ids, id) < |ids| && ids[FirstIndex(ids, id)] == id
  {
    if ids[0] == id {
    } else {
      FirstIndexOf(ids[1..], id);
    }
  }

  function SizeOf(sizes: seq<seq<nat>>, id: ChunkId): nat {
    if id.t < |sizes| && id.c < |sizes[id.t]| then sizes[id.t][id.c] else 0
  }

  function SizesOfAll(sizes: seq<seq<nat>>, ids: seq<ChunkId>): nat {
    if ids == [] then 0 else SizesOfAll(sizes, ids[..|ids| - 1]) + SizeOf(sizes, ids[|ids| - 1])
  }

  /** Where a chunk starts when a list of chunks is written one after the other. */
  function StartIn(sizes: seq<seq<nat>>, ids: seq<ChunkId>, id: ChunkId): nat {
    SizesOfAll(sizes, ids[..FirstIndex(ids, id)])
  }

  lemma {:induction false} JoinedSize(s: Source, ids: seq<ChunkId>)
    requires forall k :: 0 <= k < |ids| ==> Has(s, ids[k]) && InSource(s, ids[k])
    ensures |Joined(s, ids)| == SizesOfAll(s.sizes, ids)
  {
    if ids == [] {
    } else {
      JoinedSize(s, ids[..|ids| - 1]);
    }
  }

  /** Once all is rewritten, every chunk is where the table says, up to the width of the table. */
  lemma EveryChunkFound(s: Source, widths: seq<nat>, next: seq<nat>, now: seq<seq<nat>>, ids: seq<ChunkId>,
                        p: nat, id: ChunkId)
    requires Rewritten(s, widths, next, now, ids, p) && Has(s, id) && next[id.t] == |now[id.t]|
    requires forall k :: 0 <= k < |ids| ==> Has(s, ids[k]) && InSource(s, ids[k])
    ensures now[id.t][id.c] == Stored(widths[id.t], p + StartIn(s.sizes, ids, id))
    ensures var at, b := StartIn(s.sizes, ids, id), ChunkBytes(s, id);
            at + |b| <= |Joined(s, ids)| && Joined(s, ids)[at..at + |b|] == b
  {
    hide Joined, ChunkBytes, Stored, ChunksOf, SizesOfAll;
    assert ChunksOf(ids, id.t) == UpTo(next[id.t]);
    var n := FindChunk(ids, id.t, id.c);
    FirstIndexOf(ids, id);
    var k := FirstIndex(ids, id);
    assert InTable(s, widths, now, ids, p, k);
    JoinedSize(s, ids[..k]);
    ChunkInJoined(s, ids, k);
  }

  // ---------------------------------------------------------------- choosing the next track

  /** A track with chunks left, and the time of its next chunk. */
  predicate Left(times: seq<seq<nat>>, next: seq<nat>, t: nat)
    requires |next| == |times|
  {
    t < |next| && next[t] < |times[t]|
  }

  /** The earliest next chunk; at equal times that of the last hint track, or of the first track if none is one. */
  ghost predicate Earliest(times: seq<seq<nat>>, hints: seq<bool>, next: seq<nat>, t: nat)
    requires |next| == |times| == |hints|
  {
    && Left(times, next, t)
    && forall u :: 0 <= u < |next| && Left(times, next, u) ==>
         && times[t][next[t]] <= times[u][next[u]]
         && (times[t][next[t]] == times[u][next[u]] && hints[u] ==> hints[t])
         && (times[t][next[t]] == times[u][next[u]] && u < t ==> hints[t])
         && (times[t][next[t]] == times[u][next[u]] && t < u ==> !hints[u])
  }

  /** No two tracks are both the one to go next. */
  lemma OneEarliest(times: seq<seq<nat>>, hints: seq<bool>, next: seq<nat>, t: nat, u: nat)
    requires |next| == |times| == |hints| && Earliest(times, hints, next, t) && Earliest(times, hints, next, u)
    ensures t == u && t < |next|
  {
  }

  /** All chunks from the given ones on in the order in which they are written: a merge of the tracks by time. */
  ghost function Merge(times: seq<seq<nat>>, hints: seq<bool>, next: seq<nat>): seq<ChunkId>
    requires |next| == |times| == |hints|
    decreases Remaining(Lengths(times), next)
  {
    if exists t: nat :: Earliest(times, hints, next, t) then
      var t: nat :| Earliest(times, hints, next, t);
      RemainingStep(Lengths(times), next, t);
      [ChunkId(t, next[t])] + Merge(times, hints, next[t := next[t] + 1])
    else []
  }

  lemma {:induction false} MergeStep(times: seq<seq<nat>>, hints: seq<bool>, next: seq<nat>, t: nat)
    requires |next| == |times| == |hints| && Earliest(times, hints, next, t)
    ensures Merge(times, hints, next) == [ChunkId(t, next[t])] + Merge(times, hints, next[t := next[t] + 1])
  {
    forall u: nat | Earliest(times, hints, next, u) ensures u == t {
      OneEarliest(times, hints, next, t, u);
    }
  }

  lemma {:induction false} MergeEnd(times: seq<seq<nat>>, hints: seq<bool>, next: seq<nat>)
    requires |next| == |times| == |hints| && forall t: nat :: !Left(times, next, t)
    ensures Merge(times, hints, next) == []
  {
  }

  function NoneYet(n: nat): (s: seq<nat>)
    ensures |s| == n
  {
    seq(n, _ => 0)
  }

  /** All chunks of the given tracks in the order in which they are written. */
  ghost function Merged(times: seq<seq<nat>>, hints: seq<bool>): seq<ChunkId>
    requires |times| == |hints|
  {
    Merge(times, hints, NoneYet(|times|))
  }

  class Track {
    const hint: bool
    /** The width of an entry of the offset table, four or eight bytes. */
    const width: nat
    const sizes: seq<nat>
    const times: seq<nat>
    var offsets: seq<nat>

    ghost predicate Valid()
      reads this
    {
      && |offsets| == |sizes| == |times|
      && forall c :: 0 <= c < |times| ==> times[c] < INVALID_TIME
    }

    constructor (hint: bool, width: nat, sizes: seq<nat>, times: seq<nat>, offsets: seq<nat>)
      requires |offsets| == |sizes| == |times| && forall c :: 0 <= c < |times| ==> times[c] < INVALID_TIME
      ensures Valid() && this.offsets == offsets && this.sizes == sizes && this.times == times
      ensures this.hint == hint && this.width == width
    {
      this.hint, this.width, this.sizes, this.times, this.offsets := hint, width, sizes, times, offsets;
    }

    /** The bytes of a chunk, from where the table says it is. */
    method ReadChunk(c: nat, file: MP4File) returns (r: Option<seq<byte>>)
      requires Valid() && c < |offsets|
      modifies file`pos
      ensures r == if offsets[c] + sizes[c] > |file.data| then None
                   else Some(file.data[offsets[c]..offsets[c] + sizes[c]])
    {
      file.SetPosition(offsets[c]);
      var b := file.ReadBytes(sizes[c]);
      r := if b.Ok? then Some(b.value) else None;
    }

    /** Writes a chunk at the current position and notes that position in the table. */
    method RewriteChunk(c: nat, bytes: seq<byte>, file: MP4File)
      requires Valid() && c < |offsets|
      modifies this`offsets, file
      ensures Valid() && offsets == old(offsets)[c := Stored(width, old(file.pos))]
      ensures file.data == Splice(old(file.data), old(file.pos), bytes) && file.pos == old(file.pos) + |bytes|
    {
      var chunkOffset := file.pos;
      file.WriteBytes(bytes);
      offsets := offsets[c := Stored(width, chunkOffset)];
    }
  }

  ghost function OffsetsOf(tracks: seq<Track>): (r: seq<seq<nat>>)
    reads tracks
    ensures |r| == |tracks| && forall t :: 0 <= t < |tracks| ==> r[t] == tracks[t].offsets
  {
    seq(|tracks|, t requires 0 <= t < |tracks| reads tracks => tracks[t].offsets)
  }

  function SizesOf(tracks: seq<Track>): (r: seq<seq<nat>>)
    ensures |r| == |tracks| && forall t :: 0 <= t < |tracks| ==> r[t] == tracks[t].sizes
  {
    seq(|tracks|, t requires 0 <= t < |tracks| => tracks[t].sizes)
  }

  function TimesOf(tracks: seq<Track>): (r: seq<seq<nat>>)
    ensures |r| == |tracks| && forall t :: 0 <= t < |tracks| ==> r[t] == tracks[t].times
  {
    seq(|tracks|, t requires 0 <= t < |tracks| => tracks[t].times)
  }

  function HintsOf(tracks: seq<Track>): (r: seq<bool>)
    ensures |r| == |tracks| && forall t :: 0 <= t < |tracks| ==> r[t] == tracks[t].hint
  {
    seq(|tracks|, t requires 0 <= t < |tracks| => tracks[t].hint)
  }

  function WidthsOf(tracks: seq<Track>): (r: seq<nat>)
    ensures |r| == |tracks| && forall t :: 0 <= t < |tracks| ==> r[t] == tracks[t].width
  {
    seq(|tracks|, t requires 0 <= t < |tracks| => tracks[t].width)
  }

  /** The tracks are different objects, each with a complete table. */
  ghost predicate AllValid(tracks: seq<Track>)
    reads tracks
  {
    && (forall t :: 0 <= t < |tracks| ==> tracks[t].Valid())
    && (forall t, u :: 0 <= t < u < |tracks| ==> tracks[t] != tracks[u])
  }

  /** The track whose next chunk comes first, or -1 when all chunks are written. */
  method NextTrack(tracks: seq<Track>, next: seq<nat>) returns (r: int)
    requires AllValid(tracks) && |next| == |tracks|
    ensures r == -1 <==> forall t: nat :: !Left(TimesOf(tracks), next, t)
    ensures r == -1 || (r >= 0 && Earliest(TimesOf(tracks), HintsOf(tracks), next, r))
  {
    r := -1;
    ghost var times, hints := TimesOf(tracks), HintsOf(tracks);
    var nextTime := INVALID_TIME;
    for i := 0 to |tracks|
      invariant -1 <= r < i
      invariant r == -1 ==> nextTime == INVALID_TIME && forall t :: 0 <= t < i ==> !Left(times, next, t)
      invariant r >= 0 ==> Left(times, next, r) && nextTime == times[r][next[r]]
      invariant r >= 0 ==>
                  forall u :: 0 <= u < i && Left(times, next, u) ==>
                    && nextTime <= times[u][next[u]] && (nextTime == times[u][next[u]] && hints[u] ==> hints[r])
                    && (nextTime == times[u][next[u]] && u < r ==> hints[r])
                    && (nextTime == times[u][next[u]] && r < u ==> !hints[u])
    {
      if next[i] < |tracks[i].sizes| {
        var time := tracks[i].times[next[i]];
        if time < nextTime || (time == nextTime && tracks[i].hint) {
          nextTime, r := time, i;
        }
      }
    }
  }

  // ---------------------------------------------------------------- in the order of time

  function TimeOf(times: seq<seq<nat>>, id: ChunkId): nat {
    if id.t < |times| && id.c < |times[id.t]| then times[id.t][id.c] else 0
  }

  /** The times of every track go up with the number of the chunk. */
  ghost predicate EachInTime(times: seq<seq<nat>>) {
    forall t, b, c :: 0 <= t < |times| && 0 <= b < c < |times[t]| ==> times[t][b] <= times[t][c]
  }

  /** A chunk may stand before another: it is earlier, or as early and of a hint track if the other one is. */
  predicate MayPrecede(times: seq<seq<nat>>, hints: seq<bool>, a: ChunkId, b: ChunkId) {
    && TimeOf(times, a) <= TimeOf(times, b)
    && (TimeOf(times, a) == TimeOf(times, b) && b.t < |hints| && hints[b.t] ==> a.t < |hints| && hints[a.t])
  }

  /** What has been written is in the order of time, hint tracks first, and what is left is no earlier. */
  ghost predicate InTime(times: seq<seq<nat>>, hints: seq<bool>, next: seq<nat>, ids: seq<ChunkId>)
    requires |next| == |times| == |hints|
  {
    && (forall j, k :: 0 <= j < k < |ids| ==> MayPrecede(times, hints, ids[j], ids[k]))
    && (forall k: nat, t: nat :: k < |ids| && Left(times, next, t) ==>
          MayPrecede(times, hints, ids[k], ChunkId(t, next[t])))
  }

  lemma InTimeStep(times: seq<seq<nat>>, hints: seq<bool>, next: seq<nat>, ids: seq<ChunkId>, t: nat)
    requires |next| == |times| == |hints| && EachInTime(times)
    requires InTime(times, hints, next, ids) && Earliest(times, hints, next, t)
    ensures InTime(times, hints, next[t := next[t] + 1], ids + [ChunkId(t, next[t])])
  {
    var next', id := next[t := next[t] + 1], ChunkId(t, next[t]);
    forall u: nat | Left(times, next', u) ensures MayPrecede(times, hints, id, ChunkId(u, next'[u])) {
      if u != t {
        assert Left(times, next, u);
      }
    }
    forall k: nat, u: nat | k < |ids| && Left(times, next', u)
      ensures MayPrecede(times, hints, ids[k], ChunkId(u, next'[u]))
    {
      assert MayPrecede(times, hints, ids[k], id);
      if u != t {
        assert MayPrecede(times, hints, ids[k], ChunkId(u, next[u]));
      }
    }
  }

  // ---------------------------------------------------------------- the loop

  function Remaining(ns: seq<nat>, next: seq<nat>): nat
    requires |next| == |ns|
  {
    if ns == [] then 0 else (if next[0] < ns[0] then ns[0] - next[0] else 0) + Remaining(ns[1..], next[1..])
  }

  lemma {:induction false} RemainingStep(ns: seq<nat>, next: seq<nat>, t: nat)
    requires |next| == |ns| && t < |ns| && next[t] < ns[t]
    ensures Remaining(ns, next[t := next[t] + 1]) < Remaining(ns, next)
  {
    if t == 0 {
      assert next[0 := next[0] + 1][1..] == next[1..];
    } else {
      RemainingStep(ns[1..], next[1..], t - 1);
      assert next[t := next[t] + 1][1..] == next[1..][t - 1 := next[t] + 1];
    }
  }

  function Lengths(xs: seq<seq<nat>>): (r: seq<nat>)
    ensures |r| == |xs| && forall t :: 0 <= t < |xs| ==> r[t] == |xs[t]|
  {
    seq(|xs|, t requires 0 <= t < |xs| => |xs[t]|)
  }

  /** The sizes of the first `n` chunks of a track. */
  function SizeUpTo(sizes: seq<nat>, n: nat): nat
    requires n <= |sizes|
  {
    if n == 0 then 0 else SizeUpTo(sizes, n - 1) + sizes[n - 1]
  }

  /** The size of what has been written. */
  function SizeWritten(sizes: seq<seq<nat>>, next: seq<nat>): nat
    requires |next| == |sizes| && forall t :: 0 <= t < |next| ==> next[t] <= |sizes[t]|
  {
    if sizes == [] then 0 else SizeUpTo(sizes[0], next[0]) + SizeWritten(sizes[1..], next[1..])
  }

  /** The size of all chunks of all tracks. */
  function TotalSize(sizes: seq<seq<nat>>): nat {
    SizeWritten(sizes, Lengths(sizes))
  }

  lemma {:induction false} SizeStep(sizes: seq<seq<nat>>, next: seq<nat>, t: nat)
    requires |next| == |sizes| && (forall u :: 0 <= u < |next| ==> next[u] <= |sizes[u]|)
    requires t < |next| && next[t] < |sizes[t]|
    ensures SizeWritten(sizes, next[t := next[t] + 1]) == SizeWritten(sizes, next) + sizes[t][next[t]]
  {
    if t == 0 {
      assert next[0 := next[0] + 1][1..] == next[1..];
    } else {
      SizeStep(sizes[1..], next[1..], t - 1);
      assert next[t := next[t] + 1][1..] == next[1..][t - 1 := next[t] + 1];
    }
  }

  lemma {:induction false} NothingWritten(sizes: seq<seq<nat>>, next: seq<nat>)
    requires |next| == |sizes| && forall t :: 0 <= t < |next| ==> next[t] == 0
    ensures SizeWritten(sizes, next) == 0
  {
    if sizes == [] {
    } else {
      NothingWritten(sizes[1..], next[1..]);
    }
  }

  /** The state of the loop of `RewriteMdat`. */
  ghost predicate Going(s: Source, tracks: seq<Track>, next: seq<nat>, ids: seq<ChunkId>,
                        reader: MP4File, writer: MP4File, d: seq<byte>, p: nat)
    reads tracks, reader, writer
  {
    && AllValid(tracks) && reader.data == s.data && s.sizes == SizesOf(tracks)
    && Rewritten(s, WidthsOf(tracks), next, OffsetsOf(tracks), ids, p)
    && (forall t, c :: 0 <= t < |next| && 0 <= c < next[t] ==> InSource(s, ChunkId(t, c)))
    && writer.data == Splice(d, p, Joined(s, ids)) && writer.pos == p + |Joined(s, ids)|
    && |Joined(s, ids)| == SizeWritten(s.sizes, next)
  }

  /** Copies the next chunk of one track. */
  method CopyChunk(tracks: seq<Track>, t: nat, c: nat, reader: MP4File, writer: MP4File,
                   ghost s: Source, ghost next: seq<nat>, ghost ids: seq<ChunkId>, ghost d: seq<byte>, ghost p: nat)
    returns (ok: bool)
    requires reader != writer && Going(s, tracks, next, ids, reader, writer, d, p)
    requires t < |tracks| && t < |next| && c == next[t] < |tracks[t].sizes|
    modifies reader`pos, writer, tracks
    ensures AllValid(tracks) && reader.data == old(reader.data)
    ensures Has(s, ChunkId(t, c)) && (ok <==> InSource(s, ChunkId(t, c)))
    ensures ok ==> Going(s, tracks, next[t := c + 1], ids + [ChunkId(t, c)], reader, writer, d, p)
  {
    hide Joined, ChunkBytes, Splice, ChunksOf, InTable, Stored, SizeWritten;
    var chunk := tracks[t].ReadChunk(c, reader);
    ok := chunk.Some?;
    if ok {
      ghost var id, now := ChunkId(t, c), OffsetsOf(tracks);
      Fetched(s, id);
      SizeStep(s.sizes, next, t);
      JoinedSnoc(s, ids, id);
      SpliceAppend(d, p, Joined(s, ids), ChunkBytes(s, id));
      RewrittenStep(s, WidthsOf(tracks), next, now, ids, p, t);
      tracks[t].RewriteChunk(c, chunk.value, writer);
      assert OffsetsOf(tracks) == now[t := tracks[t].offsets];
    }
  }

  lemma Fetched(s: Source, id: ChunkId)
    requires Has(s, id) && InSource(s, id)
    ensures ChunkBytes(s, id) == s.data[s.offsets[id.t][id.c]..s.offsets[id.t][id.c] + s.sizes[id.t][id.c]]
  {
  }

  /** What the tracks look like from outside before their chunks are moved. */
  ghost function SourceOf(tracks: seq<Track>, reader: MP4File): Source
    reads tracks, reader
  {
    Source(reader.data, OffsetsOf(tracks), SizesOf(tracks))
  }

  /** All chunks of all tracks are in the file from `p` on, each once, and the tables say where. */
  ghost predicate AllRewritten(s: Source, tracks: seq<Track>, ids: seq<ChunkId>, p: nat)
    reads tracks
  {
    && AllValid(tracks) && s.sizes == SizesOf(tracks)
    && Rewritten(s, WidthsOf(tracks), Lengths(s.sizes), OffsetsOf(tracks), ids, p)
  }

  /**
   Merges the chunks of all tracks by time and writes them one after the other, those of hint tracks first
   at equal times. A chunk is read from where its table says before that entry of the table is overwritten.
   */
  method RewriteMdat(tracks: seq<Track>, reader: MP4File, writer: MP4File) returns (ok: bool, ghost ids: seq<ChunkId>)
    requires AllValid(tracks) && reader != writer
    modifies reader`pos, writer, tracks
    ensures AllValid(tracks)
    ensures var s := old(SourceOf(tracks, reader));
            && (ok <==> Readable(s))
            && (ok ==> AllRewritten(s, tracks, ids, old(writer.pos)) && |Joined(s, ids)| == TotalSize(s.sizes))
            && (ok ==> writer.data == Splice(old(writer.data), old(writer.pos), Joined(s, ids)))
            && (ok ==> writer.pos == old(writer.pos) + |Joined(s, ids)|)
            && (ok ==> ids == Merged(TimesOf(tracks), HintsOf(tracks)))
            && (ok && EachInTime(TimesOf(tracks)) ==> InTime(TimesOf(tracks), HintsOf(tracks), Lengths(s.sizes), ids))
  {
    hide Joined, ChunkBytes, Splice, ChunksOf, Stored, EachInTime, InTime, Earliest, Left, Going, AllValid, Rewritten;
    hide TotalSize, AllRewritten, Readable, Has, InSource, Merge;
    ghost var s, d, p := SourceOf(tracks, reader), writer.data, writer.pos;
    ghost var times, hints := TimesOf(tracks), HintsOf(tracks);
    var next := NoneYet(|tracks|);
    ids := [];
    Start(s, tracks, next, reader, writer);
    while true
      invariant |next| == |tracks| && Going(s, tracks, next, ids, reader, writer, d, p)
      invariant EachInTime(times) ==> InTime(times, hints, next, ids)
      invariant Merged(times, hints) == ids + Merge(times, hints, next)
      decreases Remaining(Lengths(times), next)
    {
      Tables(s, tracks, next, ids, reader, writer, d, p);
      var t := NextTrack(tracks, next);
      if t == -1 {
        Finished(s, tracks, next, ids, reader, writer, d, p);
        MergeEnd(times, hints, next);
        return true, ids;
      }
      ChosenIsLeft(times, hints, next, ids, t);
      MergeStep(times, hints, next, t);
      ghost var id := ChunkId(t, next[t]);
      ok := CopyChunk(tracks, t, next[t], reader, writer, s, next, ids, d, p);
      if !ok {
        Missing(s, id);
        return;
      }
      next, ids := next[t := next[t] + 1], ids + [id];
    }
  }

  lemma Start(s: Source, tracks: seq<Track>, next: seq<nat>, reader: MP4File, writer: MP4File)
    requires AllValid(tracks) && s == SourceOf(tracks, reader)
    requires |next| == |tracks| && forall t :: 0 <= t < |next| ==> next[t] == 0
    ensures Going(s, tracks, next, [], reader, writer, writer.data, writer.pos)
    ensures InTime(TimesOf(tracks), HintsOf(tracks), next, [])
  {
    NothingWritten(s.sizes, next);
  }

  lemma Tables(s: Source, tracks: seq<Track>, next: seq<nat>, ids: seq<ChunkId>, reader: MP4File, writer: MP4File,
               d: seq<byte>, p: nat)
    requires Going(s, tracks, next, ids, reader, writer, d, p)
    ensures AllValid(tracks) && |next| == |tracks| && reader.data == s.data && s.sizes == SizesOf(tracks)
    ensures forall t :: 0 <= t < |tracks| ==> |tracks[t].sizes| == |tracks[t].times|
    ensures forall t, c :: 0 <= t < |tracks| && c == next[t] < |tracks[t].sizes| ==> Has(s, ChunkId(t, c))
  {
    hide Joined, Splice, ChunksOf, InTable;
  }

  lemma Missing(s: Source, id: ChunkId)
    requires Has(s, id) && !InSource(s, id)
    ensures !Readable(s)
  {
  }

  /** Nothing is left: every track has come to the end of its table, and all its chunks were there. */
  lemma Finished(s: Source, tracks: seq<Track>, next: seq<nat>, ids: seq<ChunkId>, reader: MP4File, writer: MP4File,
                 d: seq<byte>, p: nat)
    requires Going(s, tracks, next, ids, reader, writer, d, p) && |next| == |tracks|
    requires forall t: nat :: !Left(TimesOf(tracks), next, t)
    ensures next == Lengths(s.sizes) && Readable(s) && AllRewritten(s, tracks, ids, p)
    ensures writer.data == Splice(d, p, Joined(s, ids)) && writer.pos == p + |Joined(s, ids)|
    ensures |Joined(s, ids)| == TotalSize(s.sizes)
  {
    hide Joined, Splice, ChunksOf, InTable;
    forall t | 0 <= t < |next| ensures next[t] == |s.sizes[t]| {
      assert !Left(TimesOf(tracks), next, t);
    }
    forall id | Has(s, id) ensures InSource(s, id) {
      assert InSource(s, ChunkId(id.t, id.c));
    }
  }

  lemma ChosenIsLeft(times: seq<seq<nat>>, hints: seq<bool>, next: seq<nat>, ids: seq<ChunkId>, t: nat)
    requires |next| == |times| == |hints| && Earliest(times, hints, next, t)
    ensures t < |next| && next[t] < |times[t]|
    ensures Remaining(Lengths(times), next[t := next[t] + 1]) < Remaining(Lengths(times), next)
    ensures EachInTime(times) && InTime(times, hints, next, ids) ==>
              InTime(times, hints, next[t := next[t] + 1], ids + [ChunkId(t, next[t])])
  {
    RemainingStep(Lengths(times), next, t);
    hide InTime, EachInTime;
    if EachInTime(times) && InTime(times, hints, next, ids) {
      InTimeStep(times, hints, next, ids, t);
    }
  }
}
