/** How often the transcoder repeats or drops a picture to keep its output frames in step with the input clock. */
module FrameSync {

  const TIME_BASE: real := 1000000.0

  /** The nearest integer, and the even one of two. */
  function Lrint(x: real): (r: int)
    ensures -0.5 <= x - r as real <= 0.5
  {
    var f := x.Floor;
    var part := x - f as real;
    if part < 0.5 || (part == 0.5 && f % 2 == 0) then f else f + 1
  }

  /** Half way between two numbers it is the even one; anywhere else there is only one nearest. */
  lemma HalfToEven(n: int, x: real)
    ensures Lrint(n as real + 0.5) == if n % 2 == 0 then n else n + 1
    ensures -0.5 < x - n as real < 0.5 ==> Lrint(x) == n
  {
  }

  /** How many frames a picture becomes that is `delta` frames ahead of the output. */
  function Repeats(delta: real): (n: nat) {
    if delta < -1.1 then 0 else if delta > 1.1 then Lrint(delta) else 1
  }

  /** A picture is dropped only when the output is ahead, and repeated only when it is behind. */
  lemma DropOrRepeat(delta: real)
    ensures Repeats(delta) == 0 <==> delta < -1.1
    ensures Repeats(delta) > 1 ==> delta > 1.1
    ensures Repeats(delta) >= 1 ==> delta - Repeats(delta) as real >= -2.1
    ensures Repeats(delta) >= 2 ==> -0.5 <= delta - Repeats(delta) as real
  {
  }

  function Max(a: real, b: real): real {
    if a < b then b else a
  }

  /** The number of frames put out for pictures at the given times, when there is no limit. */
  function Output(times: seq<real>): nat {
    if times == [] then 0
    else
      var before := Output(times[..|times| - 1]);
      before + Repeats(times[|times| - 1] - before as real)
  }

  function Latest(times: seq<real>): real {
    if times == [] then 0.0 else Max(Latest(times[..|times| - 1]), times[|times| - 1])
  }

  lemma {:induction false} LatestIsLast(times: seq<real>)
    requires times != [] && times[0] >= 0.0 && forall i, j :: 0 <= i < j < |times| ==> times[i] <= times[j]
    ensures Latest(times) == times[|times| - 1] >= 0.0
  {
    var rest := times[..|times| - 1];
    if rest == [] {
    } else {
      LatestIsLast(rest);
    }
  }

  /**
   Over any run the output is at most half a frame behind the last picture and at most 2.1 frames
   ahead of the latest one; so it is within these bounds of the last picture if times never decrease.
   */
  lemma {:induction false} DriftBounds(times: seq<real>)
    ensures times != [] ==> times[|times| - 1] - Output(times) as real <= 0.5
    ensures Latest(times) - Output(times) as real >= -2.1
    ensures times != [] && times[0] >= 0.0 && (forall i, j :: 0 <= i < j < |times| ==> times[i] <= times[j]) ==>
              -2.1 <= times[|times| - 1] - Output(times) as real
  {
    if times == [] {
    } else {
      DriftBounds(times[..|times| - 1]);
      DropOrRepeat(times[|times| - 1] - Output(times[..|times| - 1]) as real);
      if times[0] >= 0.0 && forall i, j :: 0 <= i < j < |times| ==> times[i] <= times[j] {
        LatestIsLast(times);
      }
    }
  }

  /** Neither bound can be made tighter. */
  lemma BoundsAreReached()
    ensures 0.9 - Output([0.9, 0.9, 0.9]) as real == -2.1
    ensures 2.5 - Output([2.5]) as real == 0.5
  {
    assert [0.9][..0] == [] && [0.9, 0.9][..1] == [0.9] && [0.9, 0.9, 0.9][..2] == [0.9, 0.9] && [2.5][..0] == [];
    assert Output([0.9]) == 1;
    assert Output([0.9, 0.9]) == 2;
    assert Output([0.9, 0.9, 0.9]) == 3;
    assert Output([2.5]) == Repeats(2.5);
  }

  /** The clock of the input in frames of the output. */
  function InputTime(pts: int, startTime: int, timeBase: real): real
    requires timeBase > 0.0
  {
    (pts - startTime) as real / TIME_BASE / timeBase
  }

  /** So many frames of the output last as long as the microseconds since the start. */
  lemma FramesAndMicroseconds(pts: int, startTime: int, timeBase: real)
    requires timeBase > 0.0
    ensures InputTime(pts, startTime, timeBase) * timeBase * 1000000.0 == (pts - startTime) as real
  {
    var t := (pts - startTime) as real / TIME_BASE;
    assert t / timeBase * timeBase == t;
  }

  /** At 25 frames a second, a picture one second after the start is frame number 25. */
  lemma OneSecond(startTime: int)
    ensures InputTime(startTime + 1000000, startTime, 0.04) == 25.0
  {
  }

  function Times(ptss: seq<int>, startTime: int, timeBase: real): (r: seq<real>)
    requires timeBase > 0.0
  {
    seq(|ptss|, i requires 0 <= i < |ptss| => InputTime(ptss[i], startTime, timeBase))
  }

  lemma TimesSnoc(ptss: seq<int>, i: nat, startTime: int, timeBase: real)
    requires timeBase > 0.0 && i < |ptss|
    ensures Times(ptss[..i + 1], startTime, timeBase)
         == Times(ptss[..i], startTime, timeBase) + [InputTime(ptss[i], startTime, timeBase)]
    ensures Output(Times(ptss[..i + 1], startTime, timeBase))
         == var before := Output(Times(ptss[..i], startTime, timeBase));
            before + Repeats(InputTime(ptss[i], startTime, timeBase) - before as real)
  {
    hide InputTime, Repeats;
    var ts, us := Times(ptss[..i], startTime, timeBase), Times(ptss[..i + 1], startTime, timeBase);
    assert us == ts + [InputTime(ptss[i], startTime, timeBase)];
    assert us[..|us| - 1] == ts;
  }

  /** A frame that goes to the encoder: its timestamp and the input picture it shows. */
  datatype Frame = Frame(pts: int, picture: nat)

  class VideoOut {
    const timeBase: real
    const startTime: int
    const maxFrames: int
    var syncOpts: int
    var frameNumber: int
    var drops: nat
    var dups: nat
    ghost var frames: seq<Frame>
    ghost var pictures: nat
    ghost var repeated: nat
    ghost var latest: real

    /** The frames so far are numbered without gaps, and not much ahead of the latest input time. */
    ghost predicate Valid()
      reads this
    {
      && timeBase > 0.0
      && frameNumber == |frames| && syncOpts == |frames|
      && (forall k :: 0 <= k < |frames| ==> frames[k].pts == k && frames[k].picture < pictures)
      && (forall j, k :: 0 <= j < k < |frames| ==> frames[j].picture <= frames[k].picture)
      && latest - syncOpts as real >= -2.1
      && frameNumber <= (if maxFrames < 0 then 0 else maxFrames)
    }

    /** No picture has run into the frame limit. */
    ghost predicate Unlimited()
      reads this
    {
      frameNumber + drops == pictures + dups - repeated
    }

    constructor (timeBase: real, startTime: int, maxFrames: int)
      requires timeBase > 0.0
      ensures Valid() && Unlimited() && frames == [] && syncOpts == 0 && pictures == 0 && latest == 0.0
      ensures this.timeBase == timeBase && this.startTime == startTime && this.maxFrames == maxFrames
    {
      this.timeBase, this.startTime, this.maxFrames := timeBase, startTime, maxFrames;
      syncOpts, frameNumber, drops, dups := 0, 0, 0, 0;
      frames, pictures, repeated, latest := [], 0, 0, 0.0;
    }

    /** How many frames the next picture asks for, with the drop and repeat counters updated. */
    method CountFrames(pts: int) returns (nbFrames: nat)
      requires timeBase > 0.0
      modifies this`drops, this`dups, this`repeated
      ensures nbFrames == Repeats(InputTime(pts, startTime, timeBase) - syncOpts as real)
      ensures drops == old(drops) + (if nbFrames == 0 then 1 else 0)
      ensures dups == old(dups) + (if nbFrames > 1 then nbFrames else 0)
      ensures nbFrames + (drops - old(drops)) == 1 + (dups - old(dups)) - (repeated - old(repeated))
    {
      var ipts := (pts - startTime) as real / TIME_BASE;
      var vdelta := ipts / timeBase - syncOpts as real;
      nbFrames := 1;
      if vdelta < -1.1 {
        nbFrames := 0;
      } else if vdelta > 1.1 {
        nbFrames := Lrint(vdelta);
      }
      if nbFrames == 0 {
        drops := drops + 1;
      } else if nbFrames > 1 {
        dups := dups + nbFrames;
        repeated := repeated + 1;
      }
    }

    /** Sends the picture to the encoder the given number of times, each with the next timestamp. */
    method Encode(nbFrames: nat, ghost picture: nat)
      requires frameNumber == syncOpts == |frames|
      modifies this`syncOpts, this`frameNumber, this`frames
      ensures frameNumber == syncOpts == |frames| == |old(frames)| + nbFrames && old(frames) <= frames
      ensures forall k :: |old(frames)| <= k < |frames| ==> frames[k] == Frame(k, picture)
    {
      for i := 0 to nbFrames
        invariant frameNumber == syncOpts == |frames| == |old(frames)| + i && old(frames) <= frames
        invariant forall k :: |old(frames)| <= k < |frames| ==> frames[k] == Frame(k, picture)
      {
        frames := frames + [Frame(syncOpts, picture)];
        syncOpts := syncOpts + 1;
        frameNumber := frameNumber + 1;
      }
    }

    /** One decoded picture with frame synchronisation on. */
    method DoVideoOut(pts: int) returns (count: nat)
      requires Valid()
      modifies this
      ensures Valid()
      ensures var v := InputTime(pts, startTime, timeBase);
              var n, room := Repeats(v - old(syncOpts) as real), maxFrames - old(frameNumber);
              && count == (if room <= 0 then 0 else if n < room then n else room)
              && latest == Max(old(latest), v)
              && (n <= room ==> v - syncOpts as real <= 0.5)
              && drops == old(drops) + (if n == 0 then 1 else 0)
              && dups == old(dups) + (if n > 1 then n else 0)
              && (n <= room && old(Unlimited()) ==> Unlimited())
      ensures syncOpts == old(syncOpts) + count && frameNumber == old(frameNumber) + count
      ensures pictures == old(pictures) + 1 && old(frames) <= frames
      ensures forall k :: |old(frames)| <= k < |frames| ==> frames[k] == Frame(k, old(pictures))
    {
      hide InputTime, Repeats;
      ghost var v := InputTime(pts, startTime, timeBase);
      var nbFrames := CountFrames(pts);
      NotTooFarAhead(latest, v, syncOpts, nbFrames, maxFrames - frameNumber);
      latest := Max(latest, v);
      pictures := pictures + 1;
      count := if maxFrames <= frameNumber then 0
               else if maxFrames - frameNumber < nbFrames then maxFrames - frameNumber else nbFrames;
      Encode(count, pictures - 1);
    }

    /** A run over pictures with any timestamps. */
    method Run(ptss: seq<int>)
      requires Valid() && frames == []
      modifies this
      ensures Valid() && pictures == old(pictures) + |ptss|
      ensures frameNumber < maxFrames ==> syncOpts == Output(Times(ptss, startTime, timeBase))
      ensures frameNumber < maxFrames && old(Unlimited()) ==> Unlimited()
    {
      hide InputTime, Repeats, Output;
      assert ptss[..0] == [] && Output(Times([], startTime, timeBase)) == 0 by {
        NoTimes(startTime, timeBase);
      }
      for i := 0 to |ptss|
        invariant Valid() && pictures == old(pictures) + i
        invariant frameNumber < maxFrames ==> syncOpts == Output(Times(ptss[..i], startTime, timeBase))
        invariant frameNumber < maxFrames && old(Unlimited()) ==> Unlimited()
      {
        TimesSnoc(ptss, i, startTime, timeBase);
        var _ := DoVideoOut(ptss[i]);
      }
      assert ptss[..|ptss|] == ptss;
    }
  }

  lemma NoTimes(startTime: int, timeBase: real)
    requires timeBase > 0.0
    ensures Output(Times([], startTime, timeBase)) == 0
  {
  }

  lemma NotTooFarAhead(latest: real, v: real, syncOpts: int, n: nat, room: int)
    requires latest - syncOpts as real >= -2.1 && n == Repeats(v - syncOpts as real)
    ensures var count := if room <= 0 then 0 else if n < room then n else room;
            && Max(latest, v) - (syncOpts + count) as real >= -2.1
            && (n <= room ==> v - (syncOpts + count) as real <= 0.5)
  {
    DropOrRepeat(v - syncOpts as real);
  }

  /** The drift of a transcoding whose timestamps never decrease and start no earlier than the output. */
  lemma DriftOfRun(ptss: seq<int>, startTime: int, timeBase: real)
    requires timeBase > 0.0 && ptss != [] && startTime <= ptss[0]
    requires forall i, j :: 0 <= i < j < |ptss| ==> ptss[i] <= ptss[j]
    ensures var v := InputTime(ptss[|ptss| - 1], startTime, timeBase);
            -2.1 <= v - Output(Times(ptss, startTime, timeBase)) as real <= 0.5
  {
    hide InputTime, Output;
    var ts := Times(ptss, startTime, timeBase);
    Later(startTime, ptss[0], startTime, timeBase);
    forall i, j | 0 <= i < j < |ts| ensures ts[i] <= ts[j] {
      Later(ptss[i], ptss[j], startTime, timeBase);
    }
    DriftBounds(ts);
  }

  lemma Later(a: int, b: int, startTime: int, timeBase: real)
    requires a <= b && timeBase > 0.0
    ensures InputTime(a, startTime, timeBase) <= InputTime(b, startTime, timeBase)
    ensures a == startTime ==> InputTime(a, startTime, timeBase) == 0.0
  {
    var x, y := (a - startTime) as real / TIME_BASE, (b - startTime) as real / TIME_BASE;
    assert x <= y;
    Divide(x, y, timeBase);
  }

  lemma Divide(x: real, y: real, t: real)
    requires x <= y && t > 0.0
    ensures x / t <= y / t
  {
    var p, q := x / t, y / t;
    assert p * t == x && q * t == y;
    assert (q - p) * t == q * t - p * t;
    Sign(q - p, t);
  }

  lemma Sign(z: real, t: real)
    requires t > 0.0
    ensures z < 0.0 ==> z * t < 0.0
  {
  }
}
