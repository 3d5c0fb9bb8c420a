/**
 The circular store of a feed: packets of fixed size arrive in pieces of any size and go, one after
 the other, into the slots of a file whose first packet is its header.
 */
module FeedStore {
  import opened ByteCodec
  import opened Modular

  const P: nat := 4096
  const F: byte := 0x66
  const M: byte := 0x6D

  /** The number of data packets a store of the given maximum size holds; zero means any number. */
  function Slots(maxSize: nat): nat {
    if maxSize == 0 then 0 else if maxSize <= 2 * P then 1 else (maxSize - 1) / P
  }

  /** The slot of the `i`-th data packet. */
  function SlotOf(maxSize: nat, i: nat): nat {
    if maxSize == 0 then i else i % Slots(maxSize)
  }

  function At(maxSize: nat, i: nat): nat {
    P + P * SlotOf(maxSize, i)
  }

  /** How many of `n` packets are still there. */
  function Kept(maxSize: nat, n: nat): nat {
    if maxSize == 0 || n < Slots(maxSize) then n else Slots(maxSize)
  }

  /** After a slot comes the next one, or the first one as soon as the maximum size is reached. */
  lemma NextSlot(maxSize: nat, n: nat)
    ensures At(maxSize, n + 1) == (if maxSize != 0 && At(maxSize, n) + P >= maxSize then P else At(maxSize, n) + P)
    ensures maxSize != 0 ==> SlotOf(maxSize, n) < Slots(maxSize)
    ensures maxSize > P ==> P <= At(maxSize, n) < maxSize
  {
    if maxSize != 0 {
      ModSucc(n, Slots(maxSize));
    }
  }

  /** Packets fewer than a whole round apart are in different slots. */
  lemma DifferentSlots(maxSize: nat, i: nat, n: nat)
    requires i < n && (maxSize != 0 ==> n - i < Slots(maxSize))
    ensures SlotOf(maxSize, i) != SlotOf(maxSize, n)
  {
    if maxSize != 0 {
      ModDistinct(i, n, Slots(maxSize));
    }
  }

  lemma SlotsBeforeWrap(maxSize: nat, n: nat)
    requires maxSize == 0 || n < Slots(maxSize)
    ensures SlotOf(maxSize, n) == n
  {
  }

  // ---------------------------------------------------------------- the file

  /**
   What the file holds once `packets` have been stored: the header region as it was created but for
   the write index in bytes 8 to 15, and the last packets, each in its slot.
   */
  ghost predicate Holds(maxSize: nat, head: seq<byte>, packets: seq<seq<byte>>, file: seq<byte>) {
    && |head| == P && |file| == P + P * Kept(maxSize, |packets|)
    && file[..8] == head[..8] && file[16..P] == head[16..P]
    && file[8..16] == BigEndian(At(maxSize, |packets|), 8)
    && (forall i :: 0 <= i < |packets| ==> |packets[i]| == P)
    && (forall i :: |packets| - Kept(maxSize, |packets|) <= i < |packets| ==> InSlot(maxSize, packets, file, i))
  }

  predicate InSlot(maxSize: nat, packets: seq<seq<byte>>, file: seq<byte>, i: nat)
    requires i < |packets|
  {
    At(maxSize, i) + P <= |file| && file[At(maxSize, i)..At(maxSize, i) + P] == packets[i]
  }

  /** Writing a block at `p` does not disturb a range it does not meet. */
  lemma Undisturbed(d: seq<byte>, p: nat, b: seq<byte>, i: nat, j: nat)
    requires i <= j <= |d| && p <= |d| && (j <= p || p + |b| <= i)
    ensures j <= |Splice(d, p, b)| && Splice(d, p, b)[i..j] == d[i..j]
  {
    var r := Splice(d, p, b);
    SpliceAt(d, p, b);
    assert |r| >= |d| by {
      if b == [] {
        assert r == d;
      }
    }
    forall k | 0 <= k < j - i ensures r[i..j][k] == d[i..j][k] {
      assert r[i + k] == d[i + k];
    }
  }

  /** Storing one more packet: into the slot at the write index, then the new index into the header. */
  lemma StoreOne(maxSize: nat, head: seq<byte>, packets: seq<seq<byte>>, file: seq<byte>, p: seq<byte>)
    requires Holds(maxSize, head, packets, file) && |p| == P
    ensures var n := |packets|;
            var written := Splice(file, At(maxSize, n), p);
            && At(maxSize, n) <= |file|
            && |written| == (if At(maxSize, n) + P > |file| then At(maxSize, n) + P else |file|)
            && |Splice(written, 8, BigEndian(At(maxSize, n + 1), 8))| == |written|
            && Holds(maxSize, head, packets + [p], Splice(written, 8, BigEndian(At(maxSize, n + 1), 8)))
  {
    hide Splice, BigEndian, SlotOf, Slots;
    var n, ps := |packets|, packets + [p];
    var at, index := At(maxSize, n), BigEndian(At(maxSize, n + 1), 8);
    NextSlot(maxSize, n);
    KeptStep(maxSize, n);
    var d1 := Splice(file, at, p);
    SpliceAt(file, at, p);
    var d2 := Splice(d1, 8, index);
    SpliceAt(d1, 8, index);
    Undisturbed(file, at, p, 0, 8);
    Undisturbed(file, at, p, 16, P);
    Undisturbed(d1, 8, index, 0, 8);
    Undisturbed(d1, 8, index, 16, P);
    Undisturbed(d1, 8, index, at, at + P);
    assert file[0..8] == file[..8] && d2[0..8] == d2[..8] && head[..8] == file[..8];
    assert d2[at..at + P] == p;
    forall i | |ps| - Kept(maxSize, |ps|) <= i < |ps| ensures InSlot(maxSize, ps, d2, i) {
      if i < n {
        OlderStays(maxSize, head, packets, file, p, index, i);
      }
    }
  }

  /** A packet that is still wanted is not where the new one goes. */
  lemma OlderStays(maxSize: nat, head: seq<byte>, packets: seq<seq<byte>>, file: seq<byte>, p: seq<byte>,
                   index: seq<byte>, i: nat)
    requires Holds(maxSize, head, packets, file) && |p| == P && |index| == 8
    requires |packets| + 1 - Kept(maxSize, |packets| + 1) <= i < |packets|
    ensures InSlot(maxSize, packets + [p], Splice(Splice(file, At(maxSize, |packets|), p), 8, index), i)
  {
    hide Splice, BigEndian, SlotOf, Slots;
    var n, slot := |packets|, At(maxSize, i);
    KeptStep(maxSize, n);
    OlderKept(maxSize, n, i);
    assert InSlot(maxSize, packets, file, i);
    DifferentSlots(maxSize, i, n);
    Undisturbed(file, At(maxSize, n), p, slot, slot + P);
    Undisturbed(Splice(file, At(maxSize, n), p), 8, index, slot, slot + P);
  }

  lemma OlderKept(maxSize: nat, n: nat, i: nat)
    requires n + 1 - Kept(maxSize, n + 1) <= i < n
    ensures n - Kept(maxSize, n) <= i
    ensures maxSize != 0 ==> n - i < Slots(maxSize)
  {
  }

  lemma KeptStep(maxSize: nat, n: nat)
    ensures var at, len := At(maxSize, n), P + P * Kept(maxSize, n);
            at <= len && P + P * Kept(maxSize, n + 1) == (if at + P > len then at + P else len)
  {
    if maxSize == 0 || n < Slots(maxSize) {
      SlotsBeforeWrap(maxSize, n);
    } else {
      NextSlot(maxSize, n);
    }
  }

  // ---------------------------------------------------------------- reading the store in order

  /** The reader's translation of a position in the stream to a position in the file. */
  function Translate(pos: nat, writeIndex: nat, fileSize: nat): int {
    if pos + writeIndex >= fileSize then pos + writeIndex - (fileSize - P) else pos + writeIndex
  }

  /** Translated positions run through the packets still there from the oldest to the newest. */
  lemma OldestFirst(maxSize: nat, head: seq<byte>, packets: seq<seq<byte>>, file: seq<byte>, j: nat)
    requires Holds(maxSize, head, packets, file) && j < Kept(maxSize, |packets|)
    ensures var n := |packets|;
            var pos := Translate(P * j, At(maxSize, n), |file|);
            P <= pos && pos + P <= |file| && file[pos..pos + P] == packets[n - Kept(maxSize, n) + j]
  {
    hide BigEndian, Slots;
    var n := |packets|;
    NextSlot(maxSize, n);
    var i := n - Kept(maxSize, n) + j;
    assert InSlot(maxSize, packets, file, i);
    if maxSize == 0 || n < Slots(maxSize) {
      SlotsBeforeWrap(maxSize, n);
      SlotsBeforeWrap(maxSize, i);
    } else {
      RoundAgo(n, Slots(maxSize), j);
    }
  }

  /** The slots of the last round, from the one that is next to be overwritten. */
  lemma RoundAgo(n: nat, s: nat, j: nat)
    requires 0 < s <= n && j < s
    ensures (n - s + j) % s == if n % s + j < s then n % s + j else n % s + j - s
  {
    var q, r := n / s, n % s;
    assert n == q * s + r;
    assert q >= 1;
    if r + j < s {
      assert (q - 1) * s == q * s - s;
      ModUnique(n - s + j, s, q - 1, r + j);
    } else {
      ModUnique(n - s + j, s, q, r + j - s);
    }
  }

  // ---------------------------------------------------------------- receiving

  /** The whole packets in a stream of bytes. */
  function Blocks(s: seq<byte>): seq<seq<byte>> {
    if |s| < P then [] else [s[..P]] + Blocks(s[P..])
  }

  /** What follows the last whole packet. */
  function Rest(s: seq<byte>): seq<byte> {
    if |s| < P then s else Rest(s[P..])
  }

  /** The first packet of a connection is the header; the others are data. */
  function DataPackets(s: seq<byte>): seq<seq<byte>> {
    if |s| < P then [] else Blocks(s[P..])
  }

  predicate Marked(s: seq<byte>) {
    |s| < 2 || (s[0] == F && s[1] == M)
  }

  /** Every packet after the first starts with its mark, as far as it has arrived. */
  predicate InSync(s: seq<byte>) {
    |s| < P || ((forall i :: 0 <= i < |DataPackets(s)| ==> Marked(DataPackets(s)[i])) && Marked(Rest(s)))
  }

  /** Where the packets and what follows them are in the stream. */
  lemma {:induction false} BlocksAt(s: seq<byte>)
    ensures P * |Blocks(s)| <= |s| < P * |Blocks(s)| + P && Rest(s) == s[P * |Blocks(s)|..]
    ensures forall i :: 0 <= i < |Blocks(s)| ==> P * i + P <= |s| && Blocks(s)[i] == s[P * i..P * i + P]
  {
    if |s| < P {
    } else {
      var t, bs := s[P..], Blocks(s[P..]);
      BlocksAt(t);
      Shifted(s, |bs|, |bs|);
      forall i | 0 <= i < |Blocks(s)| ensures P * i + P <= |s| && Blocks(s)[i] == s[P * i..P * i + P] {
        if i > 0 {
          assert Blocks(s)[i] == bs[i - 1] == t[P * (i - 1)..P * (i - 1) + P];
          Shifted(s, i - 1, i);
        }
      }
    }
  }

  /** A stretch of a stream without its first packet. */
  lemma Shifted(s: seq<byte>, i: nat, j: nat)
    requires i <= j && P * j + P <= |s|
    ensures s[P..][P * i..] == s[P * (i + 1)..] && s[P..][P * i..P * j] == s[P * (i + 1)..P * (j + 1)]
  {
  }

  /** A stream is in step if and only if there is "fm" every 4096 bytes behind the header, as far as it has arrived. */
  lemma {:induction false} MarksInPlace(s: seq<byte>)
    ensures InSync(s) <==>
              forall i: nat :: i >= 1 && 4096 * i + 2 <= |s| ==> s[4096 * i] == 102 && s[4096 * i + 1] == 109
  {
    hide Blocks, Rest;
    if |s| >= P {
      var t := s[P..];
      var bs := Blocks(t);
      RestOf(s);
      BlocksAt(t);
      forall i: nat | i >= 1 && 4096 * i + 2 <= |s|
        ensures Marked(if i <= |bs| then bs[i - 1] else Rest(t)) <==> s[4096 * i] == 102 && s[4096 * i + 1] == 109
      {
        MarkAt(s, t, i);
      }
      if InSync(s) {
        forall i: nat | i >= 1 && 4096 * i + 2 <= |s| ensures s[4096 * i] == 102 && s[4096 * i + 1] == 109 {
          MarkAt(s, t, i);
          if i <= |bs| {
            assert DataPackets(s)[i - 1] == bs[i - 1];
          }
        }
      } else {
        Unmarked(s);
      }
    }
  }

  lemma MarkAt(s: seq<byte>, t: seq<byte>, i: nat)
    requires |s| >= P && t == s[P..] && i >= 1 && P * i + 2 <= |s|
    ensures i <= |Blocks(t)| + 1
    ensures Marked(if i <= |Blocks(t)| then Blocks(t)[i - 1] else Rest(t)) <==> s[P * i] == F && s[P * i + 1] == M
  {
    hide Blocks, Rest;
    BlocksAt(t);
    var b := if i <= |Blocks(t)| then Blocks(t)[i - 1] else Rest(t);
    assert |b| >= 2 && b[0] == t[P * (i - 1)] == s[P * i] && b[1] == t[P * (i - 1) + 1];
  }

  /** Where a stream has lost its step. */
  lemma {:induction false} Unmarked(s: seq<byte>)
    requires !InSync(s)
    ensures exists i: nat :: i >= 1 && P * i + 2 <= |s| && !(s[P * i] == F && s[P * i + 1] == M)
  {
    hide Blocks, Rest;
    var t := s[P..];
    RestOf(s);
    BlocksAt(t);
    if Marked(Rest(s)) {
      var i :| 0 <= i < |DataPackets(s)| && !Marked(DataPackets(s)[i]);
      MarkAt(s, t, i + 1);
    } else {
      MarkAt(s, t, |Blocks(t)| + 1);
    }
  }

  /** More bytes, at most to the end of the packet being received. */
  lemma {:induction false} BlocksGrow(s: seq<byte>, b: seq<byte>)
    requires |Rest(s)| + |b| <= P
    ensures var t := Rest(s) + b;
            if |t| < P then Blocks(s + b) == Blocks(s) && Rest(s + b) == t
            else Blocks(s + b) == Blocks(s) + [t] && Rest(s + b) == []
    ensures |Rest(s)| < P
  {
    if |s| < P {
      if |s + b| == P {
        assert (s + b)[..P] == s + b && (s + b)[P..] == [];
        assert Blocks(s + b) == [s + b] + Blocks([]);
      }
    } else {
      assert (s + b)[..P] == s[..P] && (s + b)[P..] == s[P..] + b;
      BlocksGrow(s[P..], b);
    }
  }

  lemma {:induction false} DataGrows(s: seq<byte>, b: seq<byte>)
    requires |Rest(s)| + |b| <= P
    ensures var t := Rest(s) + b;
            && Rest(s + b) == (if |t| < P then t else [])
            && DataPackets(s + b) == DataPackets(s) + (if |t| < P || |s + b| <= P then [] else [t])
    ensures |Rest(s)| < P && (|s| < P ==> Rest(s) == s)
  {
    hide Blocks, Rest;
    BlocksGrow(s, b);
    ShortStream(s);
    if |s| >= P {
      assert (s + b)[P..] == s[P..] + b;
      RestOf(s);
      BlocksGrow(s[P..], b);
    }
    if |s| < P && |s + b| >= P {
      assert (s + b)[P..] == [];
      ShortStream([]);
    }
  }

  lemma ShortStream(s: seq<byte>)
    ensures |s| < P ==> Rest(s) == s && Blocks(s) == []
  {
  }

  /** Looking at the packet being received is enough to see whether the stream is still in step. */
  lemma {:induction false} SyncGrows(s: seq<byte>, b: seq<byte>)
    requires |Rest(s)| + |b| <= P && InSync(s)
    ensures InSync(s + b) <==> |s + b| <= P || Marked(Rest(s) + b)
  {
    hide Rest, Blocks;
    DataGrows(s, b);
    var t, ps := Rest(s) + b, DataPackets(s);
    if |s + b| > P && |t| >= P {
      assert DataPackets(s + b)[|ps|] == t;
      assert forall i :: 0 <= i < |ps| ==> DataPackets(s + b)[i] == ps[i];
    }
  }

  /** The packets of a longer stream begin with those of a shorter one. */
  lemma {:induction false} PrefixBlocks(s: seq<byte>, b: seq<byte>)
    ensures Blocks(s) <= Blocks(s + b)
    ensures |Rest(s)| < P
    ensures if |Blocks(s + b)| == |Blocks(s)| then Rest(s) <= Rest(s + b) else Rest(s) <= Blocks(s + b)[|Blocks(s)|]
    decreases |s|
  {
    if |s| < P {
    } else {
      assert (s + b)[..P] == s[..P] && (s + b)[P..] == s[P..] + b;
      PrefixBlocks(s[P..], b);
    }
  }

  lemma RestOf(s: seq<byte>)
    requires |s| >= P
    ensures Rest(s) == Rest(s[P..])
  {
  }

  /** A stream out of step stays so. */
  lemma {:induction false} OutOfSyncStays(s: seq<byte>, b: seq<byte>)
    requires InSync(s + b)
    ensures InSync(s)
  {
    hide Rest, Blocks;
    if |s| >= P {
      assert (s + b)[P..] == s[P..] + b;
      PrefixBlocks(s[P..], b);
      RestOf(s);
      RestOf(s + b);
      var ps, qs := DataPackets(s), DataPackets(s + b);
      assert forall i :: 0 <= i < |ps| ==> ps[i] == qs[i];
    }
  }

  // ---------------------------------------------------------------- the feed connection

  /** What a receive call reports. */
  datatype Received = Data(bytes: seq<byte>) | Again | Gone

  class Feed {
    const maxSize: nat
    var file: seq<byte>
    var writeIndex: nat
    var size: nat
    var live: bool
    var buffer: seq<byte>
    var dataCount: nat
    ghost const head: seq<byte>
    ghost var stored: seq<seq<byte>>
    ghost var before: seq<seq<byte>>
    ghost var received: seq<byte>

    /** The store is right at all times, and an open connection is in step with it. */
    ghost predicate Valid()
      reads this
    {
      && Holds(maxSize, head, stored, file)
      && writeIndex == At(maxSize, |stored|) && size == |file|
      && (live ==>
            && stored == before + DataPackets(received) && InSync(received)
            && buffer == Rest(received) && dataCount == |received|)
    }

    /** A new store: a header packet that holds its own write index. */
    constructor (maxSize: nat, head: seq<byte>)
      requires |head| == P && head[8..16] == BigEndian(P, 8)
      ensures Valid() && !live && stored == [] && this.maxSize == maxSize && this.head == head
    {
      this.maxSize, this.head, this.file := maxSize, head, head;
      this.writeIndex, this.size, this.live, this.buffer, this.dataCount := P, P, false, [], 0;
      this.stored, this.before, this.received := [], [], [];
    }

    /** A new connection takes up where the write index in the file says. */
    method StartReceive(readonly: bool) returns (ok: bool)
      requires Valid() && |file| + P < 0x8000_0000_0000_0000
      modifies this
      ensures Valid() && file == old(file) && stored == old(stored)
      ensures ok <==> !old(live) && !readonly
      ensures ok ==> live && received == [] && before == stored
      ensures !ok ==> live == old(live) && received == old(received) && before == old(before)
    {
      if live || readonly {
        return false;
      }
      PowersOf256();
      NextSlot(maxSize, |stored|);
      KeptStep(maxSize, |stored|);
      BigEndianExact(writeIndex, 8);
      writeIndex := FromBigEndian(file[8..16]);
      size := |file|;
      buffer, dataCount, live := [], 0, true;
      received, before := [], stored;
      assert before + [] == stored;
      ok := true;
    }

    method Fail()
      modifies this`live
      ensures !live
    {
      live := false;
    }

    /** A full packet goes to the write index, and the next index into the header of the file. */
    method StorePacket()
      requires Holds(maxSize, head, stored, file) && writeIndex == At(maxSize, |stored|) && size == |file|
      requires |buffer| == P
      modifies this`file, this`writeIndex, this`size, this`stored
      ensures Holds(maxSize, head, stored, file) && writeIndex == At(maxSize, |stored|) && size == |file|
      ensures stored == old(stored) + [buffer]
    {
      hide Splice, BigEndian, Holds, At;
      StoreOne(maxSize, head, stored, file, buffer);
      NextSlot(maxSize, |stored|);
      file := Splice(file, writeIndex, buffer);
      writeIndex := writeIndex + P;
      if writeIndex > size {
        size := writeIndex;
      }
      if maxSize != 0 && writeIndex >= maxSize {
        writeIndex := P;
      }
      file := Splice(file, 8, BigEndian(writeIndex, 8));
      stored := stored + [buffer];
    }

    /** One receive call; the bytes of a packet are handled once it is complete. */
    method ReceiveData(r: Received, headerOk: bool) returns (ok: bool)
      requires Valid() && live
      requires r.Data? ==> r.bytes != [] && |buffer| + |r.bytes| <= P
      modifies this
      ensures Valid() && before == old(before) && live == ok
      ensures var more := if r.Data? then r.bytes else [];
              received == old(received) + more
              && (ok <==> !r.Gone? && InSync(received)
                          && (|old(received)| < P == |received| ==> headerOk))
      ensures !ok ==> stored == old(stored)
    {
      hide Holds, At, Blocks, Rest, DataPackets, InSync;
      ghost var more := if r.Data? then r.bytes else [];
      PrefixBlocks(received, []);
      DataGrows(received, more);
      SyncGrows(received, more);
      received := received + more;
      if r.Gone? {
        Fail();
        return false;
      }
      if r.Data? {
        buffer := buffer + r.bytes;
        dataCount := dataCount + |r.bytes|;
      }
      if |buffer| >= 2 && dataCount > P && (buffer[0] != F || buffer[1] != M) {
        Fail();
        return false;
      }
      if |buffer| >= P {
        if dataCount > P {
          StorePacket();
        } else if !headerOk {
          Fail();
          return false;
        }
        buffer := [];
      }
      ok := true;
    }

    /** A whole session, however the network cuts the bytes: only their concatenation matters. */
    method Session(input: seq<byte>, sizes: nat -> nat, headerOk: bool) returns (ok: bool)
      requires Valid() && live && received == []
      modifies this
      ensures Valid() && live == ok
      ensures ok <==> InSync(input) && (|input| >= P ==> headerOk)
      ensures ok ==> stored == old(stored) + DataPackets(input) && buffer == Rest(input)
      ensures var kept := if |input| >= P && !headerOk then [] else MarkedPackets(DataPackets(input));
              !ok ==> stored == old(stored) + kept
    {
      hide Holds, At, Blocks, Rest, DataPackets, InSync, MarkedPackets, Marked, Chunk;
      Nothing(old(stored));
      var done, turn := 0, 0;
      while done < |input|
        invariant done <= |input| && Valid() && live && received == input[..done] && before == old(before)
        invariant done >= P ==> headerOk
      {
        PrefixBlocks(received, []);
        DataGrows(received, []);
        var n := Chunk(sizes(turn), P - |buffer|, |input| - done);
        Cut(input, done, n);
        ok := ReceiveData(Data(input[done..done + n]), headerOk);
        if !ok {
          OutOfStep(input[..done + n], input[done + n..]);
          StoredBefore(input[..done], input[done..done + n], input[done + n..], headerOk);
          return;
        }
        done, turn := done + n, turn + 1;
      }
      assert input[..done] == input;
      ok := true;
    }
  }

  lemma Cut(input: seq<byte>, done: nat, n: nat)
    requires done + n <= |input|
    ensures input[..done] + input[done..done + n] == input[..done + n]
    ensures input[..done + n] + input[done + n..] == input
  {
  }

  /** A receive call gets at least one byte, no more than asked for and no more than there are. */
  function Chunk(size: nat, room: nat, left: nat): (n: nat)
    requires room > 0 && left > 0
    ensures 0 < n <= room && n <= left
  {
    var most := if room < left then room else left;
    if size == 0 then 1 else if size < most then size else most
  }

  /** The packets before the first one without its mark. */
  function MarkedPackets(ps: seq<seq<byte>>): seq<seq<byte>> {
    if ps == [] || !Marked(ps[0]) then [] else [ps[0]] + MarkedPackets(ps[1..])
  }

  lemma {:induction false} MarkedUpTo(ps: seq<seq<byte>>, qs: seq<seq<byte>>)
    requires ps <= qs && (forall i :: 0 <= i < |ps| ==> Marked(ps[i]))
    requires |ps| < |qs| ==> !Marked(qs[|ps|])
    ensures MarkedPackets(qs) == ps
  {
    hide Marked;
    if ps == [] {
    } else {
      MarkedUpTo(ps[1..], qs[1..]);
      assert ps == [ps[0]] + ps[1..];
    }
  }

  /** When the stream falls out of step, the data packets stored are those before the bad one. */
  lemma {:induction false} StoredBefore(s: seq<byte>, b: seq<byte>, c: seq<byte>, headerOk: bool)
    requires InSync(s) && |Rest(s)| + |b| <= P
    requires !InSync(s + b) || (|s| < P == |s + b| && !headerOk)
    requires |s| >= P ==> headerOk
    ensures DataPackets(s) == if |s + b + c| >= P && !headerOk then [] else MarkedPackets(DataPackets(s + b + c))
  {
    hide Blocks, Rest;
    if InSync(s + b) {
    } else {
      DataGrows(s, b);
      SyncGrows(s, b);
      var r, t := s + b, Rest(s) + b;
      assert (r + c)[P..] == r[P..] + c;
      PrefixBlocks(r[P..], c);
      RestOf(r);
      var ps, qs := DataPackets(s), DataPackets(r + c);
      assert DataPackets(r) <= qs && ps <= DataPackets(r);
      if |t| == P {
        assert DataPackets(r)[|ps|] == t;
      }
      MarkedUpTo(ps, qs);
    }
  }

  lemma Nothing(ps: seq<seq<byte>>)
    ensures DataPackets([]) == [] && ps + DataPackets([]) == ps
  {
  }

  lemma OutOfStep(s: seq<byte>, b: seq<byte>)
    ensures !InSync(s) ==> !InSync(s + b)
  {
    hide InSync;
    if InSync(s + b) {
      OutOfSyncStays(s, b);
    }
  }
}
