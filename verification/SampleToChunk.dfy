/** The sample-to-chunk table and its cached column of first samples (section 8.7.4 of ISO/IEC 14496-12). */
module SampleToChunk {
  import opened Modular

  const TWO32: nat := 0x1_0000_0000

  /** From `firstChunk` on, every chunk holds so many samples, until the next entry takes over. */
  datatype Entry = Entry(firstChunk: nat, samplesPerChunk: nat)

  /** A table as the format demands it. */
  predicate Ordered(t: seq<Entry>) {
    && (t != [] ==> t[0].firstChunk == 1)
    && (forall i :: 0 <= i < |t| ==> t[i].firstChunk < TWO32 && t[i].samplesPerChunk < TWO32)
    && (forall i, j :: 0 <= i < j < |t| ==> t[i].firstChunk < t[j].firstChunk)
  }

  // ---------------------------------------------------------------- chunk by chunk

  /** The entry in force for a chunk: the last one that does not start after it. */
  function EntryOf(t: seq<Entry>, chunk: nat): (i: nat)
    requires t != []
    ensures i < |t|
  {
    if |t| == 1 || t[|t| - 1].firstChunk <= chunk then |t| - 1 else EntryOf(t[..|t| - 1], chunk)
  }

  /** The number of the first sample of a chunk, by counting the samples of all chunks before it. */
  function FirstSampleOf(t: seq<Entry>, chunk: nat): (s: nat)
    requires t != []
    ensures s >= 1
  {
    if chunk <= 1 then 1
    else FirstSampleOf(t, chunk - 1) + t[EntryOf(t, chunk - 1)].samplesPerChunk
  }

  lemma {:induction false} EntryInForce(t: seq<Entry>, i: nat, chunk: nat)
    requires Ordered(t) && i < |t| && t[i].firstChunk <= chunk
    requires i + 1 < |t| ==> chunk < t[i + 1].firstChunk
    ensures EntryOf(t, chunk) == i
  {
    if i == |t| - 1 {
    } else {
      EntryInForce(t[..|t| - 1], i, chunk);
    }
  }

  /** Within one entry the first samples are evenly spaced. */
  lemma {:induction false} EvenlySpaced(t: seq<Entry>, i: nat, k: nat)
    requires Ordered(t) && i < |t|
    requires i + 1 < |t| ==> t[i].firstChunk + k <= t[i + 1].firstChunk
    ensures FirstSampleOf(t, t[i].firstChunk + k) == FirstSampleOf(t, t[i].firstChunk) + k * t[i].samplesPerChunk
  {
    if k == 0 {
    } else {
      EvenlySpaced(t, i, k - 1);
      AtLeastOne(t, i);
      EntryInForce(t, i, t[i].firstChunk + k - 1);
      assert k * t[i].samplesPerChunk == (k - 1) * t[i].samplesPerChunk + t[i].samplesPerChunk;
    }
  }

  lemma AtLeastOne(t: seq<Entry>, i: nat)
    requires Ordered(t) && i < |t|
    ensures t[i].firstChunk >= 1
  {
    if i > 0 {
      assert t[0].firstChunk < t[i].firstChunk;
    }
  }

  lemma {:induction false} SamplesGrow(t: seq<Entry>, a: nat, b: nat)
    requires t != [] && a <= b
    ensures FirstSampleOf(t, a) <= FirstSampleOf(t, b)
  {
    if a == b {
    } else {
      SamplesGrow(t, a, b - 1);
    }
  }

  /** A sample is in a chunk if it comes after the chunk's first sample and before that of the next chunk. */
  predicate InChunk(t: seq<Entry>, sample: nat, chunk: nat)
    requires t != []
  {
    chunk >= 1 && FirstSampleOf(t, chunk) <= sample < FirstSampleOf(t, chunk + 1)
  }

  lemma OneChunk(t: seq<Entry>, sample: nat, a: nat, b: nat)
    requires t != [] && InChunk(t, sample, a) && InChunk(t, sample, b)
    ensures a == b
  {
    if a < b {
      SamplesGrow(t, a + 1, b);
    } else if b < a {
      SamplesGrow(t, b + 1, a);
    }
  }

  // ---------------------------------------------------------------- the cached column

  function Wrap32(n: int): (r: nat)
    ensures r < TWO32
    ensures 0 <= n < TWO32 ==> r == n
  {
    n % 0x1_0000_0000
  }

  lemma WrapAdd(a: nat, b: nat)
    ensures Wrap32(Wrap32(a) + Wrap32(b)) == Wrap32(a + b)
  {
  }

  datatype Location = NoChunks | BeforeFirst | EmptyChunks | At(chunk: nat, firstInChunk: nat)

  /** Where a sample is, counting from the first sample of an entry. */
  function Placed(e: Entry, first: nat, sample: nat): (r: Location)
    requires first <= sample && e.samplesPerChunk > 0
    ensures r.At?
  {
    At(e.firstChunk + (sample - first) / e.samplesPerChunk, sample - (sample - first) % e.samplesPerChunk)
  }

  class StscAtom {
    const entries: seq<Entry>
    var firstSample: seq<nat>

    /** Each entry is cached with the first sample of its first chunk, modulo 2^32. */
    ghost predicate Cached()
      reads this
    {
      && |firstSample| == |entries|
      && forall i :: 0 <= i < |entries| ==> firstSample[i] == Wrap32(FirstSampleOf(entries, entries[i].firstChunk))
    }

    constructor (entries: seq<Entry>)
      ensures this.entries == entries && firstSample == []
    {
      this.entries, this.firstSample := entries, [];
    }

    /** Fills the column while reading the table. */
    method Read()
      requires Ordered(entries)
      modifies this
      ensures Cached()
    {
      hide FirstSampleOf, EntryOf, Wrap32;
      var sampleId: nat := 1;
      StartsAtOne(entries);
      firstSample := [];
      for i := 0 to |entries|
        invariant |firstSample| == i
        invariant i < |entries| ==> sampleId == Wrap32(FirstSampleOf(entries, entries[i].firstChunk))
        invariant forall j :: 0 <= j < i ==> firstSample[j] == Wrap32(FirstSampleOf(entries, entries[j].firstChunk))
      {
        firstSample := firstSample + [sampleId];
        if i < |entries| - 1 {
          NextEntry(entries, i);
          sampleId := Wrap32(sampleId + Wrap32(
            Wrap32(entries[i + 1].firstChunk - entries[i].firstChunk) * entries[i].samplesPerChunk));
        }
      }
    }

    /** The last entry whose first sample is not after the sample. */
    method GetSampleStscIndex(sampleId: nat) returns (r: int)
      requires |firstSample| == |entries|
      ensures entries == [] ==> r == -1
      ensures entries != [] && sampleId < firstSample[0] ==> r == -1
      ensures entries != [] && sampleId >= firstSample[0] ==>
                && 0 <= r < |entries| && (forall j :: 0 <= j <= r ==> firstSample[j] <= sampleId)
                && (r + 1 < |entries| ==> sampleId < firstSample[r + 1])
    {
      if |entries| == 0 {
        return -1;
      }
      r := 0;
      while r < |entries|
        invariant 0 <= r <= |entries| && forall j :: 0 <= j < r ==> firstSample[j] <= sampleId
      {
        if sampleId < firstSample[r] {
          return r - 1;
        }
        r := r + 1;
      }
      r := r - 1;
    }

    /** The chunk a sample is in, and the first sample of that chunk. */
    method Locate(sampleId: nat) returns (r: Location)
      requires Ordered(entries) && Cached()
      requires forall i :: 0 <= i < |entries| ==> FirstSampleOf(entries, entries[i].firstChunk) < TWO32
      ensures r.NoChunks? <==> entries == []
      ensures r.BeforeFirst? <==> entries != [] && sampleId == 0
      ensures r.At? ==> InChunk(entries, sampleId, r.chunk) && r.firstInChunk == FirstSampleOf(entries, r.chunk)
      ensures r.EmptyChunks? <==> sampleId > 0 && BehindTheLast(entries, sampleId)
    {
      hide FirstSampleOf, EntryOf, Wrap32, InChunk, Placed;
      if |entries| == 0 {
        return NoChunks;
      }
      StartsAtOne(entries);
      assert firstSample[0] == 1;
      var index := GetSampleStscIndex(sampleId);
      if index < 0 {
        return BeforeFirst;
      }
      if entries[index].samplesPerChunk == 0 {
        EmptyIsLast(entries, index, sampleId);
        return EmptyChunks;
      }
      FilledIsNotBehind(entries, index, sampleId);
      InEntry(entries, index, sampleId);
      r := Placed(entries[index], firstSample[index], sampleId);
    }
  }

  lemma StartsAtOne(t: seq<Entry>)
    requires Ordered(t)
    ensures t != [] ==> FirstSampleOf(t, t[0].firstChunk) == 1 && Wrap32(1) == 1
  {
  }

  lemma NextEntry(t: seq<Entry>, i: nat)
    requires Ordered(t) && i + 1 < |t|
    ensures Wrap32(FirstSampleOf(t, t[i + 1].firstChunk))
         == Wrap32(Wrap32(FirstSampleOf(t, t[i].firstChunk))
                   + Wrap32(Wrap32(t[i + 1].firstChunk - t[i].firstChunk) * t[i].samplesPerChunk))
  {
    hide FirstSampleOf, EntryOf, Wrap32;
    var n := t[i + 1].firstChunk - t[i].firstChunk;
    assert Wrap32(n) == n;
    EvenlySpaced(t, i, n);
    assert t[i].firstChunk + n == t[i + 1].firstChunk;
    WrapAdd(FirstSampleOf(t, t[i].firstChunk), n * t[i].samplesPerChunk);
  }

  /** Dividing by the samples per chunk finds the chunk, in the entry the search ends at. */
  lemma InEntry(t: seq<Entry>, i: nat, sample: nat)
    requires Ordered(t) && i < |t| && t[i].samplesPerChunk > 0 && FirstSampleOf(t, t[i].firstChunk) <= sample
    requires i + 1 < |t| ==> sample < FirstSampleOf(t, t[i + 1].firstChunk)
    ensures var r := Placed(t[i], FirstSampleOf(t, t[i].firstChunk), sample);
            InChunk(t, sample, r.chunk) && r.firstInChunk == FirstSampleOf(t, r.chunk)
  {
    hide FirstSampleOf, EntryOf;
    var first, n := FirstSampleOf(t, t[i].firstChunk), t[i].samplesPerChunk;
    var k := (sample - first) / n;
    AtLeastOne(t, i);
    Division(sample - first, n);
    if i + 1 < |t| {
      var m := t[i + 1].firstChunk - t[i].firstChunk;
      EvenlySpaced(t, i, m);
      assert t[i].firstChunk + m == t[i + 1].firstChunk;
      if k >= m {
        MulMono(m, k, n);
      }
    }
    EvenlySpaced(t, i, k);
    EvenlySpaced(t, i, k + 1);
  }

  lemma Division(a: nat, n: nat)
    requires n > 0
    ensures a == (a / n) * n + a % n < (a / n + 1) * n
  {
    assert (a / n + 1) * n == (a / n) * n + n;
  }

  lemma MulMono(m: nat, k: nat, n: nat)
    requires m <= k
    ensures m * n <= k * n
  {
    assert (k - m) * n == k * n - m * n;
  }

  /** The last entry has empty chunks, and the sample is not before it: the division by zero. */
  predicate BehindTheLast(t: seq<Entry>, sample: nat) {
    t != [] && t[|t| - 1].samplesPerChunk == 0 && FirstSampleOf(t, t[|t| - 1].firstChunk) <= sample
  }

  /** When the search ends at an entry of empty chunks it is the last one. */
  lemma EmptyIsLast(t: seq<Entry>, i: nat, sample: nat)
    requires Ordered(t) && i < |t| && t[i].samplesPerChunk == 0 && FirstSampleOf(t, t[i].firstChunk) <= sample
    requires i + 1 < |t| ==> sample < FirstSampleOf(t, t[i + 1].firstChunk)
    ensures i == |t| - 1
  {
    hide FirstSampleOf, EntryOf;
    if i + 1 < |t| {
      EvenlySpaced(t, i, t[i + 1].firstChunk - t[i].firstChunk);
    }
  }

  /** When it ends at an entry with samples, the sample is not behind an empty last entry. */
  lemma FilledIsNotBehind(t: seq<Entry>, i: nat, sample: nat)
    requires Ordered(t) && i < |t| && t[i].samplesPerChunk > 0
    requires i + 1 < |t| ==> sample < FirstSampleOf(t, t[i + 1].firstChunk)
    ensures !BehindTheLast(t, sample)
  {
    hide FirstSampleOf, EntryOf;
    if i + 1 < |t| {
      var last := t[|t| - 1].firstChunk;
      assert i + 1 < |t| - 1 ==> t[i + 1].firstChunk < last;
      SamplesGrow(t, t[i + 1].firstChunk, last);
    }
  }

  /** No chunk holds a sample behind an empty last entry. */
  lemma NoSuchChunk(t: seq<Entry>, sample: nat)
    requires Ordered(t) && BehindTheLast(t, sample)
    ensures forall c: nat :: !InChunk(t, sample, c)
  {
    hide FirstSampleOf, EntryOf;
    var last := |t| - 1;
    forall c: nat ensures !InChunk(t, sample, c) {
      if c + 1 <= t[last].firstChunk {
        SamplesGrow(t, c + 1, t[last].firstChunk);
      } else {
        EvenlySpaced(t, last, c + 1 - t[last].firstChunk);
      }
    }
  }

  /** The entry in which a search for a sample ends. */
  lemma {:induction false} SearchEnd(t: seq<Entry>, sample: nat, n: nat) returns (i: nat)
    requires Ordered(t) && 0 < n <= |t| && sample > 0
    requires n < |t| ==> sample < FirstSampleOf(t, t[n].firstChunk)
    ensures i < n && FirstSampleOf(t, t[i].firstChunk) <= sample
    ensures i + 1 < |t| ==> sample < FirstSampleOf(t, t[i + 1].firstChunk)
  {
    if FirstSampleOf(t, t[n - 1].firstChunk) <= sample {
      i := n - 1;
    } else {
      i := SearchEnd(t, sample, n - 1);
    }
  }

  /** A table of one entry with empty chunks: its first sample is in none of them. */
  lemma OnlyEmptyChunks()
    ensures var t := [Entry(1, 0)]; Ordered(t) && BehindTheLast(t, 1) && forall c: nat :: !InChunk(t, 1, c)
  {
    var t := [Entry(1, 0)];
    assert FirstSampleOf(t, 1) == 1;
    NoSuchChunk(t, 1);
  }

  /** A sample is in no chunk if and only if it is behind an empty last entry. */
  lemma NoChunkIff(t: seq<Entry>, sample: nat)
    requires Ordered(t) && t != [] && sample > 0
    ensures (forall c: nat :: !InChunk(t, sample, c)) <==> BehindTheLast(t, sample)
  {
    hide FirstSampleOf, EntryOf, InChunk, Placed;
    if BehindTheLast(t, sample) {
      NoSuchChunk(t, sample);
    } else {
      var i := SearchEnd(t, sample, |t|);
      if t[i].samplesPerChunk == 0 {
        EmptyIsLast(t, i, sample);
      } else {
        InEntry(t, i, sample);
      }
    }
  }
}
