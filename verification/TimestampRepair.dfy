/**
 The input clocks of the transcoder and the repair of discontinuous timestamps. Times are in
 microseconds; the streams of one input file share one offset.
 */
module TimestampRepair {
  import opened Wrappers

  const NOPTS: int := -0x8000_0000_0000_0000
  const TIME_BASE: int := 1000000

  /** The time of the last packet of a stream, and the time predicted for the next one. */
  datatype Clock = Clock(pts: int, next: int)

  /** A packet of one stream, with a decoding timestamp perhaps, and the durations of its frames. */
  datatype Packet = Packet(stream: nat, dts: Option<int>, durations: seq<nat>)

  datatype State = State(offset: int, clocks: seq<Clock>)

  function Sum(ds: seq<nat>): nat {
    if ds == [] then 0 else Sum(ds[..|ds| - 1]) + ds[|ds| - 1]
  }

  lemma {:induction false} SumSnoc(ds: seq<nat>, i: nat)
    requires i < |ds|
    ensures Sum(ds[..i + 1]) == Sum(ds[..i]) + ds[i]
  {
    assert ds[..i + 1][..i] == ds[..i];
  }

  function Abs(x: int): int {
    if x < 0 then -x else x
  }

  // ---------------------------------------------------------------- one packet

  /** How far a timestamp is from where it should be, if that is to be repaired; otherwise zero. */
  function Repair(offset: int, c: Clock, dts: Option<int>, threshold: nat, copyTs: bool): int {
    if dts.None? || c.next == NOPTS || copyTs then 0
    else
      var time := dts.value + offset;
      var delta := time - c.next;
      if Abs(delta) > threshold * TIME_BASE || time + 1 < c.pts then delta else 0
  }

  function Delta(s: State, p: Packet, threshold: nat, copyTs: bool): int {
    if p.stream >= |s.clocks| then 0 else Repair(s.offset, s.clocks[p.stream], p.dts, threshold, copyTs)
  }

  function Step(s: State, p: Packet, threshold: nat, copyTs: bool): (r: State)
    ensures |r.clocks| == |s.clocks|
  {
    if p.stream >= |s.clocks| then s
    else
      var offset := s.offset - Delta(s, p, threshold, copyTs);
      var c := if p.dts.None? then s.clocks[p.stream] else Clock(p.dts.value + offset, p.dts.value + offset);
      State(offset, s.clocks[p.stream := c.(next := c.next + Sum(p.durations))])
  }

  function Run(s: State, ps: seq<Packet>, threshold: nat, copyTs: bool): (r: State)
    ensures |r.clocks| == |s.clocks|
  {
    if ps == [] then s else Step(Run(s, ps[..|ps| - 1], threshold, copyTs), ps[|ps| - 1], threshold, copyTs)
  }

  /** A clock that knows what comes next, and expects it no earlier than now. */
  predicate Known(c: Clock) {
    c.next >= c.pts && c.next != NOPTS
  }

  /** What one packet does to the clocks, with repairing on. */
  lemma OnePacket(s: State, p: Packet, threshold: nat)
    requires p.stream < |s.clocks| && Known(s.clocks[p.stream])
    ensures var s', i := Step(s, p, threshold, false), p.stream;
            && s'.clocks[i].next >= s'.clocks[i].pts
            && s'.clocks[i].pts >= s.clocks[i].pts - 1
            && s'.clocks[i].pts <= s.clocks[i].next + threshold * TIME_BASE
            && (p.dts.Some? ==> s'.clocks[i].pts == p.dts.value + s'.offset)
            && (p.dts.Some? ==> Abs(s'.clocks[i].pts - s.clocks[i].next) <= threshold * TIME_BASE)
            && (p.dts.None? ==> s'.clocks[i].pts == s.clocks[i].pts && s'.offset == s.offset)
            && s'.offset == s.offset - Delta(s, p, threshold, false)
            && forall j :: 0 <= j < |s.clocks| && j != i ==> s'.clocks[j] == s.clocks[j]
  {
    assert Abs(0) <= threshold * TIME_BASE;
  }

  // ---------------------------------------------------------------- runs

  /** The sum of all repairs made so far. */
  function Repairs(s: State, ps: seq<Packet>, threshold: nat): int {
    if ps == [] then 0
    else
      var before := ps[..|ps| - 1];
      Repairs(s, before, threshold) + Delta(Run(s, before, threshold, false), ps[|ps| - 1], threshold, false)
  }

  /** The offset of a file is the one it started with less all repairs, whichever stream they were for. */
  lemma {:induction false} OffsetIsRepairs(s: State, ps: seq<Packet>, threshold: nat)
    ensures Run(s, ps, threshold, false).offset == s.offset - Repairs(s, ps, threshold)
  {
    if ps == [] {
    } else {
      OffsetIsRepairs(s, ps[..|ps| - 1], threshold);
    }
  }

  /** With timestamps copied, nothing is ever repaired. */
  lemma {:induction false} CopiedOffset(s: State, ps: seq<Packet>, threshold: nat)
    ensures Run(s, ps, threshold, true).offset == s.offset
  {
    if ps == [] {
    } else {
      CopiedOffset(s, ps[..|ps| - 1], threshold);
    }
  }

  /**
   From one state to the next: the clock of the packet's stream goes back by no more than a microsecond
   and no further past its prediction than the threshold; a timestamp is taken as it is, plus the offset.
   */
  predicate Smooth(s: State, s': State, p: Packet, threshold: nat) {
    && |s'.clocks| == |s.clocks|
    && (forall i :: 0 <= i < |s.clocks| && i != p.stream ==> s'.clocks[i] == s.clocks[i])
    && (p.stream < |s.clocks| ==>
          var c, c' := s.clocks[p.stream], s'.clocks[p.stream];
          if p.dts.None? then c'.pts == c.pts && s'.offset == s.offset
          else
            && c'.pts == p.dts.value + s'.offset
            && c.pts - 1 <= c'.pts && Abs(c'.pts - c.next) <= threshold * TIME_BASE)
  }

  /** A stream a packet can move without reaching the value that stands for "unknown". */
  predicate AllKnown(s: State, packets: nat) {
    forall i :: 0 <= i < |s.clocks| ==> Known(s.clocks[i]) && s.clocks[i].pts - packets > NOPTS
  }

  lemma {:induction false} StaysKnown(s: State, ps: seq<Packet>, threshold: nat, n: nat)
    requires AllKnown(s, |ps| + n)
    ensures AllKnown(Run(s, ps, threshold, false), n)
    ensures forall i :: 0 <= i < |s.clocks| ==> Run(s, ps, threshold, false).clocks[i].pts >= s.clocks[i].pts - |ps|
  {
    if ps == [] {
    } else {
      var before, p := ps[..|ps| - 1], ps[|ps| - 1];
      StaysKnown(s, before, threshold, n + 1);
      if p.stream < |s.clocks| {
        OnePacket(Run(s, before, threshold, false), p, threshold);
      }
    }
  }

  /** Every packet of every run moves the clocks smoothly, once all clocks are known. */
  lemma {:induction false} RunIsSmooth(s: State, ps: seq<Packet>, threshold: nat, k: nat)
    requires k < |ps| && AllKnown(s, |ps|)
    ensures Smooth(Run(s, ps[..k], threshold, false), Run(s, ps[..k + 1], threshold, false), ps[k], threshold)
  {
    StaysKnown(s, ps[..k], threshold, |ps| - k);
    assert ps[..k + 1][..k] == ps[..k];
    if ps[k].stream < |s.clocks| {
      OnePacket(Run(s, ps[..k], threshold, false), ps[k], threshold);
    }
  }

  // ---------------------------------------------------------------- what is predicted

  /** The last packet of a stream that has a timestamp. */
  function LastStamp(ps: seq<Packet>, i: nat): Option<nat> {
    if ps == [] then None
    else
      var n := |ps| - 1;
      if ps[n].stream == i && ps[n].dts.Some? then Some(n) else LastStamp(ps[..n], i)
  }

  /** What one packet does to one clock. */
  lemma StepClock(s: State, p: Packet, i: nat, threshold: nat, copyTs: bool)
    requires i < |s.clocks|
    ensures var r := Step(s, p, threshold, copyTs);
            r.clocks[i] == if p.stream != i then s.clocks[i]
                           else if p.dts.None? then Clock(s.clocks[i].pts, s.clocks[i].next + Sum(p.durations))
                           else Clock(p.dts.value + r.offset, p.dts.value + r.offset + Sum(p.durations))
  {
  }

  lemma {:induction false} DecodedSince(ps: seq<Packet>, n: nat, i: nat)
    requires n + 1 < |ps|
    ensures var m := |ps| - 1;
            Decoded(ps[n..], i) == Decoded(ps[..m][n..], i) + if ps[m].stream == i then Sum(ps[m].durations) else 0
  {
    hide Sum;
    var m := |ps| - 1;
    assert ps[n..][..m - n] == ps[..m][n..] && ps[n..][m - n] == ps[m];
  }

  lemma {:induction false} DecodedOne(p: Packet)
    ensures Decoded([p], p.stream) == Sum(p.durations)
  {
    assert [p][..0] == [];
  }

  /**
   The time predicted for a stream is the time of its last packet with a timestamp, as that was repaired,
   and the durations of all frames decoded since, those of that packet among them.
   */
  lemma {:induction false} Prediction(s: State, ps: seq<Packet>, i: nat, threshold: nat, copyTs: bool)
    requires i < |s.clocks|
    ensures var r, k := Run(s, ps, threshold, copyTs).clocks[i], LastStamp(ps, i);
            match k
            case None => r == Clock(s.clocks[i].pts, s.clocks[i].next + Decoded(ps, i))
            case Some(n) =>
              && n < |ps| && ps[n].stream == i && ps[n].dts.Some?
              && r.pts == ps[n].dts.value + Run(s, ps[..n + 1], threshold, copyTs).offset
              && r.next == r.pts + Decoded(ps[n..], i)
  {
    hide Step, Sum;
    if ps == [] {
    } else {
      var m := |ps| - 1;
      Prediction(s, ps[..m], i, threshold, copyTs);
      StepClock(Run(s, ps[..m], threshold, copyTs), ps[m], i, threshold, copyTs);
      assert ps[..m + 1] == ps;
      if ps[m].stream == i && ps[m].dts.Some? {
        assert ps[m..] == [ps[m]];
        DecodedOne(ps[m]);
      } else if LastStamp(ps, i).Some? {
        var n := LastStamp(ps, i).value;
        assert ps[..m][..n + 1] == ps[..n + 1];
        DecodedSince(ps, n, i);
      }
    }
  }

  /**
   A packet that is repaired gets the time that the last timestamp of its stream and what has been decoded
   since lead to: over a jump of the timestamps the stream goes on without a gap.
   */
  lemma NoGapAtRepair(s: State, ps: seq<Packet>, q: Packet, threshold: nat)
    requires q.stream < |s.clocks| && LastStamp(ps, q.stream).Some?
    requires var before, after := Run(s, ps, threshold, false), Run(s, ps + [q], threshold, false);
             before.offset != after.offset
    ensures var n, i := LastStamp(ps, q.stream).value, q.stream;
            && n < |ps| && ps[n].dts.Some? && q.dts.Some?
            && Run(s, ps + [q], threshold, false).clocks[i].pts
               == ps[n].dts.value + Run(s, ps[..n + 1], threshold, false).offset + Decoded(ps[n..], i)
  {
    Prediction(s, ps, q.stream, threshold, false);
    assert (ps + [q])[..|ps|] == ps;
    assert Run(s, ps + [q], threshold, false) == Step(Run(s, ps, threshold, false), q, threshold, false);
  }

  // ---------------------------------------------------------------- where the clock fails

  function Back(n: nat): int {
    0 - (n as int)
  }

  function Creeping(n: nat): seq<Packet> {
    if n == 0 then [] else Creeping(n - 1) + [Packet(0, Some(Back(n)), [])]
  }

  /** One microsecond back is not repaired, however often it happens. */
  lemma {:induction false} CreepingBack(n: nat, threshold: nat)
    requires threshold > 0
    ensures |Creeping(n)| == n
    ensures Run(State(0, [Clock(0, 0)]), Creeping(n), threshold, false) == State(0, [Clock(Back(n), Back(n))])
  {
    hide Step;
    if n == 0 {
    } else {
      CreepingBack(n - 1, threshold);
      CreepStep(n, threshold);
      assert Creeping(n)[..n - 1] == Creeping(n - 1);
    }
  }

  lemma CreepStep(n: nat, threshold: nat)
    requires threshold > 0 && n > 0
    ensures var before, after := Clock(Back(n - 1), Back(n - 1)), Clock(Back(n), Back(n));
            Step(State(0, [before]), Packet(0, Some(Back(n)), []), threshold, false) == State(0, [after])
  {
    assert Sum([]) == 0;
    assert Back(n - 1) == Back(n) + 1;
  }

  /** A clock as it starts when the offset of its file is not that of the file's start time. */
  const UNKNOWN: Clock := Clock(0, NOPTS)

  /** The duration of all frames decoded for one stream. */
  function Decoded(ps: seq<Packet>, i: nat): nat {
    if ps == [] then 0
    else
      var p := ps[|ps| - 1];
      Decoded(ps[..|ps| - 1], i) + (if p.stream == i then Sum(p.durations) else 0)
  }

  /** As long as a stream has no timestamps, what is decoded of it is added to the value that stands for "unknown". */
  lemma {:induction false} WithoutTimestamps(s: State, i: nat, ps: seq<Packet>, threshold: nat, copyTs: bool)
    requires i < |s.clocks| && s.clocks[i] == UNKNOWN
    requires forall k :: 0 <= k < |ps| && ps[k].stream == i ==> ps[k].dts.None?
    ensures Run(s, ps, threshold, copyTs).clocks[i] == Clock(0, NOPTS + Decoded(ps, i))
    ensures Decoded(ps, i) < -NOPTS ==> !Known(Run(s, ps, threshold, copyTs).clocks[i])
  {
    if ps == [] {
    } else {
      WithoutTimestamps(s, i, ps[..|ps| - 1], threshold, copyTs);
    }
  }

  /**
   The first timestamp of a stream whose clock starts unknown, after any packets of other streams and
   packets of its own without one: it is taken as it is if and only if nothing of the stream has been
   decoded before. Otherwise it is "repaired" to a time at the far end of the range.
   */
  lemma FirstTimestamp(s: State, i: nat, ps: seq<Packet>, q: Packet, threshold: nat)
    requires i < |s.clocks| && s.clocks[i] == UNKNOWN
    requires forall k :: 0 <= k < |ps| && ps[k].stream == i ==> ps[k].dts.None?
    requires q.stream == i && q.dts.Some?
    requires q.dts.value + Run(s, ps, threshold, false).offset > NOPTS + Decoded(ps, i) + threshold * TIME_BASE
    ensures var before, after := Run(s, ps, threshold, false), Run(s, ps + [q], threshold, false);
            var total := Decoded(ps, i);
            && (after.offset == before.offset <==> total == 0)
            && (after.clocks[i].pts == q.dts.value + before.offset <==> total == 0)
            && (total == 0 ==> Known(after.clocks[i]))
            && (total > 0 ==> after.clocks[i].pts == NOPTS + total)
  {
    WithoutTimestamps(s, i, ps, threshold, false);
    assert (ps + [q])[..|ps|] == ps;
    assert Run(s, ps + [q], threshold, false) == Step(Run(s, ps, threshold, false), q, threshold, false);
  }

  /** One frame of 40 ms without a timestamp, then one that has its timestamp: the clock is lost. */
  lemma LostClock(threshold: nat)
    requires threshold <= 1000
    ensures var ps := [Packet(0, None, [40000]), Packet(0, Some(80000), [40000])];
            Run(State(0, [UNKNOWN]), ps, threshold, false).clocks[0].pts == NOPTS + 40000
  {
    var s, first, q := State(0, [UNKNOWN]), [Packet(0, None, [40000])], Packet(0, Some(80000), [40000]);
    assert Sum([40000]) == 40000 by {
      SumSnoc([40000], 0);
    }
    assert Decoded(first, 0) == 40000;
    assert Run(s, first, threshold, false).offset == 0;
    FirstTimestamp(s, 0, first, q, threshold);
    assert first + [q] == [Packet(0, None, [40000]), q];
  }

  /** Exactly when a known clock goes back: by one microsecond, to a time close enough to its prediction. */
  lemma BackIff(s: State, p: Packet, threshold: nat)
    requires p.stream < |s.clocks| && Known(s.clocks[p.stream])
    ensures var c, c' := s.clocks[p.stream], Step(s, p, threshold, false).clocks[p.stream];
            c'.pts < c.pts <==>
              p.dts.Some? && p.dts.value + s.offset == c.pts - 1 && Abs(c.pts - 1 - c.next) <= threshold * TIME_BASE
  {
    OnePacket(s, p, threshold);
  }

  // ---------------------------------------------------------------- the clocks of one input file

  class InputFile {
    const copyTs: bool
    const threshold: nat
    var offset: int
    var clocks: seq<Clock>

    ghost function Abstract(): State
      reads this
    {
      State(offset, clocks)
    }

    /** All clocks start at zero; what comes next is known if the offset undoes the start time of the file. */
    constructor (streams: nat, startTime: int, offset: int, copyTs: bool, threshold: nat)
      ensures this.offset == offset && this.copyTs == copyTs && this.threshold == threshold && |clocks| == streams
      ensures var known := offset == -startTime || (startTime == NOPTS && offset == 0);
              forall i :: 0 <= i < streams ==> clocks[i] == if known then Clock(0, 0) else UNKNOWN
    {
      var next := 0;
      if offset != -startTime && !(startTime == NOPTS && offset == 0) {
        next := NOPTS;
      }
      this.offset, this.copyTs, this.threshold := offset, copyTs, threshold;
      this.clocks := seq(streams, _ => Clock(0, next));
    }

    /** One packet: its timestamp is shifted and perhaps repaired, then its frames move the prediction on. */
    method Receive(p: Packet)
      modifies this
      ensures Abstract() == Step(old(Abstract()), p, threshold, copyTs)
      ensures |clocks| == |old(clocks)|
      ensures forall j :: 0 <= j < |clocks| && j != p.stream ==> clocks[j] == old(clocks)[j]
      ensures p.stream < |clocks| && p.dts.None? ==>
                && offset == old(offset) && clocks[p.stream].pts == old(clocks)[p.stream].pts
                && clocks[p.stream].next == old(clocks)[p.stream].next + Sum(p.durations)
      ensures p.stream < |clocks| && p.dts.Some? ==>
                && clocks[p.stream].pts == p.dts.value + offset
                && clocks[p.stream].next == clocks[p.stream].pts + Sum(p.durations)
      ensures p.stream < |clocks| && p.dts.Some? ==>
                var c, limit := old(clocks)[p.stream], threshold * TIME_BASE;
                var time := p.dts.value + old(offset);
                var lost := time > c.next + limit || time < c.next - limit || time < c.pts - 1;
                clocks[p.stream].pts == if !copyTs && c.next != NOPTS && lost then c.next else time
    {
      if p.stream >= |clocks| {
        return;
      }
      var c := clocks[p.stream];
      var dts := p.dts;
      if dts.Some? {
        dts := Some(dts.value + offset);
      }
      if dts.Some? && c.next != NOPTS {
        var delta := dts.value - c.next;
        if (Abs(delta) > threshold * TIME_BASE || dts.value + 1 < c.pts) && !copyTs {
          offset := offset - delta;
          dts := Some(dts.value - delta);
        }
      }
      if dts.Some? {
        c := Clock(dts.value, dts.value);
      }
      var next := c.next;
      ghost var shifted := offset;
      for k := 0 to |p.durations|
        invariant next == c.next + Sum(p.durations[..k])
        invariant clocks == old(clocks) && offset == shifted
      {
        SumSnoc(p.durations, k);
        next := next + p.durations[k];
      }
      assert p.durations[..|p.durations|] == p.durations;
      clocks := clocks[p.stream := Clock(c.pts, next)];
    }

    method ReceiveAll(ps: seq<Packet>)
      modifies this
      ensures Abstract() == Run(old(Abstract()), ps, threshold, copyTs)
    {
      for k := 0 to |ps|
        invariant Abstract() == Run(old(Abstract()), ps[..k], threshold, copyTs)
      {
        assert ps[..k + 1][..k] == ps[..k];
        Receive(ps[k]);
      }
      assert ps[..|ps|] == ps;
    }
  }
}
