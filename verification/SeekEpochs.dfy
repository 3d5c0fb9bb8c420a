/** The thread that reads packets into the queues of the player, and what a seek does to them. */
module SeekEpochs {
  import opened PacketQueues

  /** Packets in reading order, read from packet `lo` on and before packet `hi`. */
  predicate Numbered(ps: seq<Packet>, lo: nat, hi: nat) {
    && (forall k :: 0 <= k < |ps| ==> ps[k].Packet? && lo <= ps[k].number < hi)
    && (forall j, k :: 0 <= j < k < |ps| ==> ps[j].number < ps[k].number)
  }

  /** What has been put since a flush: the marker, unless it was lost, then packets read since. */
  predicate Epoch(since: seq<Packet>, seekAt: nat, marked: bool, counter: nat) {
    if marked then since != [] && since[0].Flush? && Numbered(since[1..], seekAt, counter)
    else Numbered(since, seekAt, counter)
  }

  predicate ReadBefore(past: seq<Packet>, seekAt: nat) {
    forall k :: 0 <= k < |past| ==> past[k].Flush? || past[k].number < seekAt
  }

  /** No more than the limit but for the packet put last. */
  predicate OverByOne(ps: seq<Packet>, limit: nat) {
    ps == [] || Sizes(ps[..|ps| - 1]) <= limit
  }

  lemma EpochGrows(since: seq<Packet>, seekAt: nat, marked: bool, counter: nat, bytes: nat)
    requires Epoch(since, seekAt, marked, counter) && seekAt <= counter
    ensures Epoch(since, seekAt, marked, counter + 1)
    ensures Epoch(since + [Packet(counter, bytes)], seekAt, marked, counter + 1)
  {
    var p := Packet(counter, bytes);
    if marked {
      assert (since + [p])[1..] == since[1..] + [p];
    }
  }

  lemma PutOver(ps: seq<Packet>, p: Packet, limit: nat)
    requires Sizes(ps) <= limit
    ensures OverByOne(ps + [p], limit)
  {
    assert (ps + [p])[..|ps|] == ps;
  }

  lemma {:induction false} GetOver(ps: seq<Packet>, limit: nat)
    requires OverByOne(ps, limit) && ps != []
    ensures OverByOne(ps[1..], limit)
  {
    if |ps| > 1 {
      var n := |ps| - 1;
      SizesCons(ps[..n]);
      assert ps[..n][1..] == ps[1..][..n - 1];
    }
  }

  lemma OverMeansOne(ps: seq<Packet>, limit: nat)
    requires OverByOne(ps, limit)
    ensures Sizes(ps) <= limit + (if ps == [] then 0 else Size(ps[|ps| - 1]))
  {
  }

  /** What a consumer gets next belongs to the current epoch, and the marker comes first. */
  lemma NextOfEpoch(delivered: seq<Packet>, contents: seq<Packet>, past: seq<Packet>, since: seq<Packet>,
                    seekAt: nat, marked: bool, counter: nat)
    requires Balanced(delivered, contents, past, since) && Epoch(since, seekAt, marked, counter) && contents != []
    ensures contents[0].Packet? ==> seekAt <= contents[0].number < counter
    ensures marked ==> (contents[0].Flush? <==> delivered == past)
    ensures !marked ==> contents[0].Packet?
    ensures delivered != past ==> delivered[|past|] == since[0]
  {
    var k := |delivered| - |past|;
    assert (delivered + contents)[|delivered|] == contents[0];
    assert (past + since)[|past| + k] == since[k];
    if delivered != past {
      assert (delivered + contents)[|past|] == delivered[|past|];
      assert (past + since)[|past|] == since[0];
    }
    if marked && k > 0 {
      assert since[1..][k - 1] == since[k];
    }
  }

  // ---------------------------------------------------------------- the reader thread

  const AUDIO: nat := 0
  const SUBTITLE: nat := 1
  const VIDEO: nat := 2

  function Limit(i: nat): nat {
    if i == VIDEO then 5 * 256 * 1024 else 5 * 16 * 1024
  }

  /** Where the reader thread is between two atomic steps. */
  datatype Reader = Top | Flushing(i: nat) | Marking(i: nat) | Checking | Reading

  ghost predicate QueueOk(q: PacketQueue, limit: nat, seekAt: nat, marked: bool, counter: nat)
    reads q, q.cells
  {
    && q.Valid() && seekAt <= counter
    && Epoch(q.since, seekAt, marked, counter) && ReadBefore(q.past, seekAt)
    && OverByOne(q.Contents(), limit)
  }

  lemma DeliveredBefore(delivered: seq<Packet>, contents: seq<Packet>, past: seq<Packet>, since: seq<Packet>,
                        seekAt: nat, marked: bool, counter: nat)
    requires Balanced(delivered, contents, past, since) && Epoch(since, seekAt, marked, counter)
    requires ReadBefore(past, seekAt) && seekAt <= counter
    ensures ReadBefore(delivered, counter)
  {
    forall k | 0 <= k < |delivered| ensures delivered[k].Flush? || delivered[k].number < counter {
      assert (delivered + contents)[k] == delivered[k] == (past + since)[k];
      if k >= |past| && marked && k > |past| {
        assert since[1..][k - |past| - 1] == delivered[k];
      }
    }
  }

  /**
   What a consumer may rely on: counters match the list, the size is at most one packet above the limit,
   and what was delivered since the last flush is the beginning of the marker and the packets read since.
   */
  ghost predicate InOrder(q: PacketQueue, limit: nat, seekAt: nat, marked: bool, counter: nat)
    reads q
  {
    && q.count == |q.Contents()| && q.size == Sizes(q.Contents())
    && q.size <= limit + (if q.Contents() == [] then 0 else Size(q.Contents()[|q.Contents()| - 1]))
    && q.past <= q.delivered && q.delivered[|q.past|..] <= q.since
    && ReadBefore(q.past, seekAt) && Epoch(q.since, seekAt, marked, counter)
  }

  lemma LaneInOrder(q: PacketQueue, limit: nat, seekAt: nat, marked: bool, counter: nat)
    requires QueueOk(q, limit, seekAt, marked, counter)
    ensures InOrder(q, limit, seekAt, marked, counter)
  {
    hide Epoch;
    OverMeansOne(q.Contents(), limit);
    assert (q.delivered + q.Contents())[|q.past|..] == q.delivered[|q.past|..] + q.Contents();
    assert (q.past + q.since)[|q.past|..] == q.since;
  }

  method FlushLane(q: PacketQueue, limit: nat, ghost seekAt: nat, ghost marked: bool, counter: nat)
    requires QueueOk(q, limit, seekAt, marked, counter)
    modifies q
    ensures QueueOk(q, limit, counter, false, counter)
    ensures q.since == [] && q.Contents() == [] && q.cells == old(q.cells) && q.past == q.delivered == old(q.delivered)
  {
    hide Numbered;
    DeliveredBefore(q.delivered, q.Contents(), q.past, q.since, seekAt, marked, counter);
    NothingRead(counter);
    var _ := q.Flush();
  }

  lemma NothingRead(counter: nat)
    ensures Numbered([], counter, counter)
  {
  }

  /** The marker goes into a queue just emptied. */
  method MarkLane(q: PacketQueue, limit: nat, counter: nat, memory: bool) returns (ok: bool)
    requires QueueOk(q, limit, counter, false, counter) && q.since == [] && q.Contents() == []
    modifies q, q.cells
    ensures QueueOk(q, limit, counter, ok, counter) && ok == memory
    ensures q.Contents() == (if ok then [Flush] else []) && q.past == old(q.past) && q.delivered == old(q.delivered)
    ensures old(q.cells) <= q.cells && fresh(q.cells - old(q.cells))
  {
    hide Numbered;
    NothingRead(counter);
    ok := q.Put(Flush, memory);
    assert [Flush][1..] == [] && [Flush][..0] == [];
  }

  method ReadLane(q: PacketQueue, limit: nat, ghost seekAt: nat, ghost marked: bool, counter: nat,
                  bytes: nat, memory: bool)
    returns (ok: bool)
    requires QueueOk(q, limit, seekAt, marked, counter) && q.size <= limit
    modifies q, q.cells
    ensures QueueOk(q, limit, seekAt, marked, counter + 1) && ok == memory
    ensures q.Contents() == old(q.Contents()) + (if ok then [Packet(counter, bytes)] else [])
    ensures q.past == old(q.past) && q.delivered == old(q.delivered)
    ensures old(q.cells) <= q.cells && fresh(q.cells - old(q.cells))
  {
    hide Epoch, Numbered, OverByOne;
    EpochGrows(q.since, seekAt, marked, counter, bytes);
    PutOver(q.Contents(), Packet(counter, bytes), limit);
    ok := q.Put(Packet(counter, bytes), memory);
  }

  /** What a consumer takes from a queue is of the current epoch; the marker is the first of it. */
  method TakeLane(q: PacketQueue, limit: nat, ghost seekAt: nat, ghost marked: bool, counter: nat) returns (r: Got)
    requires QueueOk(q, limit, seekAt, marked, counter)
    modifies q
    ensures QueueOk(q, limit, seekAt, marked, counter)
    ensures r.Next? <==> !q.aborted && old(q.Contents()) != []
    ensures r.Next? ==> q.delivered == old(q.delivered) + [r.pkt] && old(q.Contents()) == [r.pkt] + q.Contents()
    ensures r.Next? && r.pkt.Packet? ==> seekAt <= r.pkt.number < counter
    ensures r.Next? && marked ==> (r.pkt.Flush? <==> old(q.delivered) == q.past)
    ensures r.Next? && !marked ==> r.pkt.Packet?
    ensures !r.Next? ==> q.delivered == old(q.delivered) && q.Contents() == old(q.Contents())
    ensures q.past == old(q.past) && q.since == old(q.since) && q.size <= old(q.size)
    ensures q.cells == old(q.cells)
  {
    hide Epoch, Numbered, OverByOne;
    if q.Contents() != [] {
      NextOfEpoch(q.delivered, q.Contents(), q.past, q.since, seekAt, marked, counter);
      GetOver(q.Contents(), limit);
      SizesCons(q.Contents());
    }
    r := q.Get();
  }

  lemma LaneCounts(q: PacketQueue, limit: nat, seekAt: nat, marked: bool, counter: nat)
    requires QueueOk(q, limit, seekAt, marked, counter)
    ensures QueueOk(q, limit, seekAt, marked, counter + 1)
  {
    hide Numbered, OverByOne, Balanced;
    EpochGrows(q.since, seekAt, marked, counter, 0);
  }

  lemma EmptyLane(q: PacketQueue, limit: nat)
    requires q.Valid() && q.Contents() == [] && q.past == [] && q.since == []
    ensures QueueOk(q, limit, 0, false, 0) && q.size == 0
  {
    NothingRead(0);
  }

  datatype ReadResult = ReadError | Read(stream: nat, bytes: nat)

  class Player {
    const queues: seq<PacketQueue>
    const streams: seq<bool>
    var reader: Reader
    var seekReq: bool
    var counter: nat
    ghost var seekAt: seq<nat>
    ghost var marked: seq<bool>
    /** Where reading was at each successful seek, and for which queues there was memory for a marker since. */
    ghost var seeks: seq<nat>
    ghost var granted: seq<bool>
    ghost var cells: set<PacketNode>

    ghost predicate Valid()
      reads this, queues, cells
    {
      && Lanes()
      && (reader.Flushing? || reader.Marking? ==> reader.i < 3 && seekReq)
      && (reader == Reading ==> forall i :: 0 <= i < 3 ==> queues[i].size <= Limit(i))
      && (reader.Marking? ==>
            && !marked[reader.i] && seekAt[reader.i] == counter
            && queues[reader.i].since == [] && queues[reader.i].Contents() == [])
      && (Seeking() ==> seeks != [] && LastSeek() == counter) && |granted| == 3
      && (forall j :: 0 <= j < 3 && streams[j] && Flushed(j) ==> seekAt[j] == LastSeek())
      && (forall j :: 0 <= j < 3 && streams[j] && Served(j) ==> marked[j] == granted[j])
    }

    predicate Seeking()
      reads this`reader
    {
      reader.Flushing? || reader.Marking?
    }

    ghost function LastSeek(): nat
      reads this`seeks
    {
      if seeks == [] then 0 else seeks[|seeks| - 1]
    }

    /** The seek going on has emptied this queue, and given it its marker; so has any seek that is over. */
    predicate Flushed(j: nat)
      reads this`reader
    {
      !Seeking() || j < reader.i || (reader.Marking? && j == reader.i)
    }

    predicate Served(j: nat)
      reads this`reader
    {
      !Seeking() || j < reader.i
    }

    /** The three queues share nothing, and each is in order. */
    ghost predicate Lanes()
      reads this`counter, this`seekAt, this`marked, this`cells, queues, cells
    {
      && |queues| == |streams| == |seekAt| == |marked| == 3
      && (forall i, j :: 0 <= i < j < 3 ==> queues[i] != queues[j])
      && (forall i :: 0 <= i < 3 ==> queues[i].cells <= cells)
      && (forall i, j :: 0 <= i < j < 3 ==> queues[i].cells !! queues[j].cells)
      && (forall i :: 0 <= i < 3 ==> QueueOk(queues[i], Limit(i), seekAt[i], marked[i], counter))
    }

    constructor (streams: seq<bool>)
      requires |streams| == 3
      ensures Valid() && reader == Top && !seekReq && counter == 0 && seeks == []
    {
      hide QueueOk, PacketQueue.Valid, PacketQueue.Contents;
      var a := new PacketQueue();
      var s := new PacketQueue();
      var v := new PacketQueue();
      queues, this.streams := [a, s, v], streams;
      reader, seekReq, counter := Top, false, 0;
      seekAt, marked, cells := [0, 0, 0], [false, false, false], {};
      seeks, granted := [], [false, false, false];
      new;
      EmptyLane(a, Limit(AUDIO));
      EmptyLane(s, Limit(SUBTITLE));
      EmptyLane(v, Limit(VIDEO));
    }

    /** The user asks for a seek; a request while one is pending is ignored. */
    method RequestSeek()
      requires Valid()
      modifies this`seekReq
      ensures Valid() && seekReq
    {
      hide QueueOk, Lanes;
      seekReq := true;
    }

    /** The reader sees the request, or goes on to read. */
    method Begin(seekOk: bool)
      requires Valid() && reader == Top
      modifies this`reader, this`seekReq, this`seeks
      ensures Valid() && seeks == old(seeks) + if old(seekReq) && seekOk then [counter] else []
      ensures reader == if old(seekReq) && seekOk then Flushing(0) else Checking
      ensures seekReq == (old(seekReq) && seekOk)
    {
      hide QueueOk, Lanes;
      reader := Checking;
      if seekReq {
        if seekOk {
          reader := Flushing(0);
          seeks := seeks + [counter];
        } else {
          seekReq := false;
        }
      }
    }

    method NextQueue(i: nat)
      requires i < 3
      modifies this`reader, this`seekReq
      ensures if i < 2 then reader == Flushing(i + 1) && seekReq == old(seekReq) else reader == Checking && !seekReq
    {
      if i < 2 {
        reader := Flushing(i + 1);
      } else {
        reader, seekReq := Checking, false;
      }
    }

    /** Empties one queue after a successful seek; a stream that is not open is passed over. */
    method FlushQueue()
      requires Valid() && reader.Flushing?
      modifies this`reader, this`seekReq, this`seekAt, this`marked, queues
      ensures Valid()
      ensures streams[old(reader.i)] ==> reader == Marking(old(reader.i)) && queues[old(reader.i)].Contents() == []
      ensures seekReq == Seeking() && (!seekReq ==> reader == Checking)
    {
      hide QueueOk, Lanes;
      Three();
      var i := reader.i;
      if !streams[i] {
        NextQueue(i);
        return;
      }
      FlushAt(i);
      reader := Marking(i);
    }

    method FlushAt(i: nat)
      requires Lanes() && i < 3
      modifies this`seekAt, this`marked, queues
      ensures Lanes() && seekAt == old(seekAt)[i := counter] && marked == old(marked)[i := false]
      ensures queues[i].since == [] && queues[i].Contents() == []
    {
      hide QueueOk, Limit;
      FlushLane(queues[i], Limit(i), seekAt[i], marked[i], counter);
      seekAt := seekAt[i := counter];
      marked := marked[i := false];
    }

    /** Puts the marker into the queue just emptied; it is lost if there is no memory for it. */
    method MarkQueue(memory: bool)
      requires Valid() && reader.Marking?
      modifies this`reader, this`seekReq, this`marked, this`granted, this`cells, queues, cells
      ensures Valid() && marked == old(marked)[old(reader.i) := memory] && fresh(cells - old(cells))
      ensures granted == old(granted)[old(reader.i) := memory]
      ensures seekReq == Seeking() && (!seekReq ==> reader == Checking)
      ensures seekAt[old(reader.i)] == counter && queues[old(reader.i)].Contents() == if memory then [Flush] else []
    {
      hide QueueOk, Lanes;
      Three();
      var i := reader.i;
      MarkAt(i, memory);
      granted := granted[i := memory];
      NextQueue(i);
    }

    method MarkAt(i: nat, memory: bool)
      requires Lanes() && i < 3 && !marked[i] && seekAt[i] == counter
      requires queues[i].since == [] && queues[i].Contents() == []
      modifies this`marked, this`cells, queues, cells
      ensures Lanes() && marked == old(marked)[i := memory] && fresh(cells - old(cells))
      ensures queues[i].Contents() == if memory then [Flush] else []
    {
      hide QueueOk, Limit;
      var ok := MarkLane(queues[i], Limit(i), counter, memory);
      marked := marked[i := ok];
      cells := cells + queues[i].cells;
    }

    /** Reading goes on only while no queue is above its limit. */
    method Check(endOfFile: bool)
      requires Valid() && reader == Checking
      modifies this`reader
      ensures Valid()
      ensures reader == if endOfFile || exists i :: 0 <= i < 3 && queues[i].size > Limit(i) then Top else Reading
      ensures reader == Reading ==>
                queues[AUDIO].size <= 81920 && queues[SUBTITLE].size <= 81920 && queues[VIDEO].size <= 1310720
    {
      hide QueueOk, Lanes;
      Three();
      if queues[AUDIO].size > Limit(AUDIO) || queues[VIDEO].size > Limit(VIDEO)
         || queues[SUBTITLE].size > Limit(SUBTITLE) || endOfFile {
        reader := Top;
      } else {
        reader := Reading;
      }
    }

    lemma AllLanes()
      requires Lanes()
      ensures |queues| == |streams| == |seekAt| == |marked| == 3
      ensures forall i :: 0 <= i < 3 ==> InOrder(queues[i], Limit(i), seekAt[i], marked[i], counter)
    {
      hide QueueOk, InOrder;
      forall i | 0 <= i < 3 ensures InOrder(queues[i], Limit(i), seekAt[i], marked[i], counter) {
        LaneInOrder(queues[i], Limit(i), seekAt[i], marked[i], counter);
      }
    }

    lemma Three()
      requires Lanes()
      ensures |queues| == |streams| == |seekAt| == |marked| == 3
    {
    }

    /** One packet is read and put into the queue of its stream, or dropped. */
    method ReadPacket(r: ReadResult, memory: bool)
      requires Valid() && reader == Reading
      modifies this`reader, this`counter, this`cells, queues, cells
      ensures Valid() && reader == Top && fresh(cells - old(cells))
      ensures counter == old(counter) + if r.Read? then 1 else 0
      ensures forall i :: 0 <= i < 3 ==>
                queues[i].Contents() == old(queues[i].Contents())
                  + (if r.Read? && r.stream == i && streams[i] && memory then [Packet(old(counter), r.bytes)] else [])
    {
      hide QueueOk, Lanes;
      Three();
      if r.Read? {
        if r.stream < 3 && streams[r.stream] {
          Enqueue(r.stream, r.bytes, memory);
        } else {
          Drop();
        }
      }
      reader := Top;
    }

    method Drop()
      requires Lanes()
      modifies this`counter
      ensures Lanes() && counter == old(counter) + 1
    {
      hide QueueOk;
      forall j | 0 <= j < 3 ensures QueueOk(queues[j], Limit(j), seekAt[j], marked[j], counter + 1) {
        LaneCounts(queues[j], Limit(j), seekAt[j], marked[j], counter);
      }
      counter := counter + 1;
    }

    method Enqueue(i: nat, bytes: nat, memory: bool)
      requires Lanes() && i < 3 && queues[i].size <= Limit(i)
      modifies this`counter, this`cells, queues, cells
      ensures Lanes() && counter == old(counter) + 1 && fresh(cells - old(cells))
      ensures queues[i].Contents() == old(queues[i].Contents()) + if memory then [Packet(old(counter), bytes)] else []
      ensures forall j :: 0 <= j < 3 && j != i ==> queues[j].Contents() == old(queues[j].Contents())
    {
      hide QueueOk, Limit;
      var _ := ReadLane(queues[i], Limit(i), seekAt[i], marked[i], counter, bytes, memory);
      cells := cells + queues[i].cells;
      forall j | 0 <= j < 3 && j != i ensures QueueOk(queues[j], Limit(j), seekAt[j], marked[j], counter + 1) {
        LaneCounts(queues[j], Limit(j), seekAt[j], marked[j], counter);
      }
      counter := counter + 1;
    }

    /** A consumer takes from its queue. */
    method Take(i: nat) returns (r: Got)
      requires Valid() && i < 3
      modifies queues
      ensures Valid()
      ensures r.Next? <==> !queues[i].aborted && old(queues[i].Contents()) != []
      ensures r.Next? ==> old(queues[i].Contents()) == [r.pkt] + queues[i].Contents()
      ensures r.Next? && r.pkt.Packet? ==> seekAt[i] <= r.pkt.number
      ensures r.Next? && r.pkt.Packet? && streams[i] && Flushed(i) ==> LastSeek() <= r.pkt.number
      ensures r.Next? && marked[i] ==> (r.pkt.Flush? <==> old(queues[i].delivered) == queues[i].past)
      ensures r.Next? && !marked[i] ==> r.pkt.Packet?
    {
      hide QueueOk;
      r := TakeLane(queues[i], Limit(i), seekAt[i], marked[i], counter);
    }
  }

  datatype Step =
    | SeekStep | BeginStep(seekOk: bool) | FlushStep | MarkStep(memory: bool) | CheckStep(endOfFile: bool)
    | ReadStep(result: ReadResult, memory: bool) | TakeStep(i: nat)

  /** One atomic step of the user, the reader or a consumer; a step whose thread is elsewhere does nothing. */
  method Do(p: Player, step: Step)
    requires p.Valid()
    modifies p, p.queues, p.cells
    ensures p.Valid() && fresh(p.cells - old(p.cells))
    ensures step.SeekStep? ==> p.seekReq
    ensures step.BeginStep? && step.seekOk && old(p.reader) == Top && old(p.seekReq) ==> p.reader == Flushing(0)
    ensures step.ReadStep? && step.result.Read? && old(p.reader) == Reading ==> p.counter == old(p.counter) + 1
    ensures step.MarkStep? && old(p.reader).Marking? ==> p.marked == old(p.marked)[old(p.reader).i := step.memory]
    ensures p.granted == if step.MarkStep? && old(p.reader).Marking? then old(p.granted)[old(p.reader).i := step.memory]
                         else old(p.granted)
    ensures var starts := step.BeginStep? && step.seekOk && old(p.reader) == Top && old(p.seekReq);
            p.seeks == old(p.seeks) + if starts then [old(p.counter)] else []
    ensures old(p.seekReq) && !p.seekReq ==>
              if step.BeginStep? then old(p.reader) == Top && !step.seekOk else Reached(p)
  {
    hide Player.Lanes;
    match step {
      case SeekStep => p.RequestSeek();
      case BeginStep(seekOk) => if p.reader == Top { p.Begin(seekOk); }
      case FlushStep => if p.reader.Flushing? { p.FlushQueue(); }
      case MarkStep(memory) => if p.reader.Marking? { p.MarkQueue(memory); }
      case CheckStep(endOfFile) => if p.reader == Checking { p.Check(endOfFile); }
      case ReadStep(result, memory) => if p.reader == Reading { p.ReadPacket(result, memory); }
      case TakeStep(i) => if i < 3 { var _ := p.Take(i); }
    }
    p.Three();
  }

  /**
   A seek that is over has reached every queue of an open stream: it was emptied when the seek began,
   and got its marker if there was memory for it.
   */
  ghost predicate Reached(p: Player)
    reads p
  {
    && |p.streams| == |p.seekAt| == |p.marked| == |p.granted| == 3 && !p.Seeking()
    && forall i :: 0 <= i < 3 && p.streams[i] ==> p.seekAt[i] == p.LastSeek() && p.marked[i] == p.granted[i]
  }

  /**
   Any interleaving of seeks, reads and consumers: for every queue, what was delivered since its last
   flush starts with the marker if that could be put, and only packets read after the seek follow.
   */
  method Run(p: Player, steps: seq<Step>)
    requires p.Valid()
    modifies p, p.queues, p.cells
    ensures p.Valid()
    ensures forall i :: 0 <= i < 3 ==> InOrder(p.queues[i], Limit(i), p.seekAt[i], p.marked[i], p.counter)
    ensures p.Seeking() ==> p.seekReq
    ensures !p.Seeking() ==> Reached(p)
    ensures old(p.seeks) <= p.seeks
  {
    hide Player.Lanes, InOrder;
    p.Three();
    for k := 0 to |steps|
      invariant p.Valid() && fresh(p.cells - old(p.cells)) && old(p.seeks) <= p.seeks
    {
      Do(p, steps[k]);
    }
    p.AllLanes();
  }
}
