/** The main loop of the transcoder: which input file is read next, and when it stops. */
module Scheduler {
  import opened Wrappers

  const TEN_TO_50: real := 100000000000000000000000000000000000000000000000000.0
  const NEVER: real := TEN_TO_50 * TEN_TO_50

  /** An output stream that waits for its file: the file is not at its end and the key is a real time. */
  predicate Waiting(i: nat, source: seq<nat>, eof: seq<bool>, keys: seq<real>)
    requires i < |source| == |keys| && source[i] < |eof|
  {
    !eof[source[i]] && keys[i] < NEVER
  }

  predicate WellWired(source: seq<nat>, eof: seq<bool>) {
    forall i :: 0 <= i < |source| ==> source[i] < |eof|
  }

  /** `i` is the first of the waiting output streams with the least key. */
  ghost predicate FirstLeast(i: nat, source: seq<nat>, eof: seq<bool>, keys: seq<real>)
    requires |source| == |keys| && WellWired(source, eof)
  {
    && i < |source| && Waiting(i, source, eof, keys)
    && (forall j :: 0 <= j < |source| && Waiting(j, source, eof, keys) ==> keys[i] <= keys[j])
    && (forall j :: 0 <= j < i && Waiting(j, source, eof, keys) ==> keys[i] < keys[j])
  }

  /**
   Looks for the stream to read for, by output time or by input time, and for the least output time.
   An output stream that has its frames ends the search without a result.
   */
  method Select(source: seq<nat>, eof: seq<bool>, opts: seq<real>, ipts: seq<real>, inputSync: bool, full: seq<bool>)
    returns (file: int, optsMin: real, ghost chosen: nat)
    requires WellWired(source, eof) && |opts| == |ipts| == |full| == |source|
    ensures var keys := if inputSync then ipts else opts;
            if exists i :: 0 <= i < |full| && full[i] then file == -1
            else if exists i :: 0 <= i < |source| && Waiting(i, source, eof, keys)
            then FirstLeast(chosen, source, eof, keys) && file == source[chosen]
            else file == -1
    ensures (forall i :: 0 <= i < |full| ==> !full[i]) ==>
              && optsMin <= NEVER
              && (forall i :: 0 <= i < |source| && Waiting(i, source, eof, opts) ==> optsMin <= opts[i])
              && (optsMin < NEVER ==>
                    exists i :: 0 <= i < |source| && Waiting(i, source, eof, opts) && optsMin == opts[i])
  {
    file, chosen := -1, 0;
    optsMin := NEVER;
    var iptsMin := NEVER;
    ghost var keys := if inputSync then ipts else opts;
    for i := 0 to |source|
      invariant forall j :: 0 <= j < i ==> !full[j]
      invariant iptsMin <= NEVER && optsMin <= NEVER
      invariant forall j :: 0 <= j < i && Waiting(j, source, eof, opts) ==> optsMin <= opts[j]
      invariant optsMin < NEVER ==> exists j :: 0 <= j < i && Waiting(j, source, eof, opts) && optsMin == opts[j]
      invariant var least := if inputSync then iptsMin else optsMin;
                forall j :: 0 <= j < i && Waiting(j, source, eof, keys) ==> least <= keys[j]
      invariant if file < 0 then file == -1 && (if inputSync then iptsMin else optsMin) == NEVER
                else
                  && chosen < i && file == source[chosen] && Waiting(chosen, source, eof, keys)
                  && keys[chosen] == (if inputSync then iptsMin else optsMin)
                  && (forall j :: 0 <= j < chosen && Waiting(j, source, eof, keys) ==> keys[chosen] < keys[j])
    {
      if !eof[source[i]] {
        if ipts[i] < iptsMin {
          iptsMin := ipts[i];
          if inputSync {
            file, chosen := source[i], i;
          }
        }
        if opts[i] < optsMin {
          optsMin := opts[i];
          if !inputSync {
            file, chosen := source[i], i;
          }
        }
      }
      if full[i] {
        file := -1;
        return;
      }
    }
  }

  // ---------------------------------------------------------------- the loop

  /** What the loop sees in one round: the times of the streams, and reasons to stop. */
  datatype Round = Round(opts: seq<real>, ipts: seq<real>, full: seq<bool>, quit: bool, tooLarge: bool)

  datatype Reason = Quit | Full | AllRead | TimeUp | TooLarge | Shortest

  /** A read: which files were at their end before, which output stream it was for, and whether there was a packet. */
  datatype Reading = Reading(round: nat, eof: seq<bool>, output: nat, file: nat, packet: bool)

  function Keys(r: Round, inputSync: bool): seq<real> {
    if inputSync then r.ipts else r.opts
  }

  /** A read was for the first stream with the least key, among those whose file was not at its end. */
  ghost predicate ReadRight(r: Reading, source: seq<nat>, keys: seq<real>) {
    && |keys| == |source| && WellWired(source, r.eof)
    && FirstLeast(r.output, source, r.eof, keys) && r.file == source[r.output]
  }

  ghost predicate AnyWaits(source: seq<nat>, eof: seq<bool>, keys: seq<real>)
    requires |keys| == |source| && WellWired(source, eof)
  {
    exists i :: 0 <= i < |source| && Waiting(i, source, eof, keys)
  }

  predicate AnyFull(r: Round) {
    exists i :: 0 <= i < |r.full| && r.full[i]
  }

  /** There is a recording time, and no output that still waits is before it. */
  ghost predicate TimeIsUp(source: seq<nat>, eof: seq<bool>, opts: seq<real>, recordingTime: real)
    requires |opts| == |source| && WellWired(source, eof)
  {
    && 0.0 < recordingTime <= NEVER
    && forall i :: 0 <= i < |source| && Waiting(i, source, eof, opts) ==> opts[i] >= recordingTime
  }

  /** There is no reason to stop. */
  ghost predicate MayRead(r: Round, source: seq<nat>, eof: seq<bool>, recordingTime: real) {
    && |r.opts| == |source| && WellWired(source, eof)
    && !r.quit && !AnyFull(r) && !r.tooLarge && !TimeIsUp(source, eof, r.opts, recordingTime)
  }

  function Total(left: seq<nat>): nat {
    if left == [] then 0 else left[0] + Total(left[1..])
  }

  function Open(eof: seq<bool>): nat {
    if eof == [] then 0 else (if eof[0] then 0 else 1) + Open(eof[1..])
  }

  lemma {:induction false} ReadOne(left: seq<nat>, f: nat)
    requires f < |left| && left[f] > 0
    ensures Total(left[f := left[f] - 1]) == Total(left) - 1
  {
    if f == 0 {
    } else {
      ReadOne(left[1..], f - 1);
      assert left[f := left[f] - 1][1..] == left[1..][f - 1 := left[f] - 1];
    }
  }

  lemma {:induction false} CloseOne(eof: seq<bool>, f: nat)
    requires f < |eof| && !eof[f]
    ensures Open(eof[f := true]) == Open(eof) - 1
  {
    if f == 0 {
    } else {
      CloseOne(eof[1..], f - 1);
      assert eof[f := true][1..] == eof[1..][f - 1 := true];
    }
  }

  function Packets(log: seq<Reading>, f: nat): nat {
    if log == [] then 0
    else Packets(log[..|log| - 1], f) + (if log[|log| - 1].file == f && log[|log| - 1].packet then 1 else 0)
  }

  class Transcoder {
    const source: seq<nat>
    const inputSync: bool
    const shortest: bool
    const recordingTime: real
    var left: seq<nat>
    var eof: seq<bool>
    ghost var log: seq<Reading>

    /** A file at its end has nothing left. */
    ghost predicate Valid()
      reads this
    {
      && |left| == |eof| && WellWired(source, eof)
      && (forall f :: 0 <= f < |eof| && eof[f] ==> left[f] == 0)
    }

    constructor (source: seq<nat>, left: seq<nat>, inputSync: bool, shortest: bool, recordingTime: real)
      requires forall i :: 0 <= i < |source| ==> source[i] < |left|
      ensures Valid() && this.source == source && this.left == left && log == []
      ensures this.inputSync == inputSync && this.shortest == shortest && this.recordingTime == recordingTime
      ensures forall f :: 0 <= f < |eof| ==> !eof[f]
    {
      this.source, this.inputSync, this.shortest := source, inputSync, shortest;
      this.recordingTime, this.left := recordingTime, left;
      eof, log := seq(|left|, _ => false), [];
    }

    /** Reads a packet of a file, or finds its end. */
    method ReadFrame(f: nat, ghost round: nat, ghost output: nat) returns (got: bool)
      requires Valid() && f < |eof| && !eof[f]
      modifies this`left, this`eof, this`log
      ensures Valid() && got == (old(left[f]) > 0)
      ensures left == if got then old(left)[f := old(left[f]) - 1] else old(left)
      ensures eof == if got then old(eof) else old(eof)[f := true]
      ensures Total(left) + Open(eof) == old(Total(left) + Open(eof)) - 1
      ensures log == old(log) + [Reading(round, old(eof), output, f, got)]
    {
      got := left[f] > 0;
      if got {
        ReadOne(left, f);
        left := left[f := left[f] - 1];
      } else {
        CloseOne(eof, f);
        eof := eof[f := true];
      }
      log := log + [Reading(round, old(eof), output, f, got)];
    }

    /** No packet is lost or read twice. */
    ghost predicate Accounted(start: seq<nat>)
      reads this
    {
      |start| == |left| && forall f :: 0 <= f < |left| ==> left[f] + Packets(log, f) == start[f]
    }

    lemma StillAccounted(start: seq<nat>, before: seq<nat>, log0: seq<Reading>, r: Reading)
      requires |start| == |before| == |left| && r.file < |left| && log == log0 + [r]
      requires left == if r.packet then before[r.file := left[r.file]] else before
      requires r.packet ==> left[r.file] + 1 == before[r.file]
      requires forall f :: 0 <= f < |left| ==> before[f] + Packets(log0, f) == start[f]
      ensures Accounted(start)
    {
      assert log[..|log| - 1] == log0;
    }

    /** One round: stops for a reason, or reads from the file it should. */
    method Turn(r: Round, ghost round: nat, ghost start: seq<nat>) returns (reason: Option<Reason>)
      requires Valid() && Accounted(start) && |r.opts| == |r.ipts| == |r.full| == |source|
      modifies this`left, this`eof, this`log
      ensures Valid() && Accounted(start) && |eof| == |old(eof)|
      ensures reason == None || reason == Some(Shortest) ==>
                && Total(left) + Open(eof) == old(Total(left) + Open(eof)) - 1
                && |log| == |old(log)| + 1 && log[..|old(log)|] == old(log)
                && log[|old(log)|].round == round && log[|old(log)|].eof == old(eof)
                && ReadRight(log[|old(log)|], source, Keys(r, inputSync))
      ensures reason != None && reason != Some(Shortest) ==> left == old(left) && eof == old(eof) && log == old(log)
      ensures reason == None || reason == Some(Shortest) ==> MayRead(r, source, old(eof), recordingTime)
      ensures reason == Some(Quit) <==> r.quit
      ensures reason == Some(Full) <==> !r.quit && AnyFull(r)
      ensures reason == Some(AllRead) <==>
                !r.quit && !AnyFull(r) && !AnyWaits(source, old(eof), Keys(r, inputSync))
      ensures reason == Some(TimeUp) <==>
                && !r.quit && !AnyFull(r) && AnyWaits(source, old(eof), Keys(r, inputSync))
                && TimeIsUp(source, old(eof), r.opts, recordingTime)
      ensures reason == Some(TooLarge) <==>
                && !r.quit && !AnyFull(r) && AnyWaits(source, old(eof), Keys(r, inputSync))
                && !TimeIsUp(source, old(eof), r.opts, recordingTime) && r.tooLarge
      ensures reason == Some(Shortest) ==> shortest && exists f :: 0 <= f < |eof| && eof[f] && !old(eof)[f]
      ensures reason == None ==> (shortest ==> eof == old(eof))
    {
      hide Total, Open, Packets;
      if r.quit {
        return Some(Quit);
      }
      var file, optsMin, chosen := Select(source, eof, r.opts, r.ipts, inputSync, r.full);
      if file < 0 {
        reason := if AnyFull(r) then Some(Full) else Some(AllRead);
        return;
      }
      if recordingTime > 0.0 && optsMin >= recordingTime {
        return Some(TimeUp);
      }
      if r.tooLarge {
        return Some(TooLarge);
      }
      ghost var before, log0, e := left, log, eof;
      var got := ReadFrame(file, round, chosen);
      StillAccounted(start, before, log0, Reading(round, e, chosen, file, got));
      if !got && shortest {
        assert eof[file];
        return Some(Shortest);
      }
      reason := None;
    }

    /** Reads and encodes until there is a reason to stop; there always is one after finitely many rounds. */
    method Encode(rounds: nat -> Round) returns (reason: Reason, last: nat)
      requires Valid() && log == []
      requires forall k :: |rounds(k).opts| == |rounds(k).ipts| == |rounds(k).full| == |source|
      modifies this`left, this`eof, this`log
      ensures Valid() && Accounted(old(left))
      ensures last <= Total(old(left)) + Open(old(eof))
      ensures forall k :: 0 <= k < |log| ==> log[k].round == k && ReadRight(log[k], source, Keys(rounds(k), inputSync))
      ensures forall k :: 0 <= k < |log| ==> MayRead(rounds(k), source, log[k].eof, recordingTime)
      ensures reason == Full <==> !rounds(last).quit && AnyFull(rounds(last))
      ensures reason == Quit <==> rounds(last).quit
      ensures reason == AllRead ==> !AnyWaits(source, eof, Keys(rounds(last), inputSync))
      ensures reason == TooLarge ==> rounds(last).tooLarge
      ensures reason == TimeUp ==> TimeIsUp(source, eof, rounds(last).opts, recordingTime)
      ensures reason == Shortest ==> shortest && exists f :: 0 <= f < |eof| && eof[f]
    {
      hide Total, Open, Packets, ReadRight, Waiting, AnyWaits, AnyFull, TimeIsUp, MayRead;
      last := 0;
      ghost var start := left;
      Untouched();
      while true
        invariant Valid() && Accounted(start) && |log| == last
        invariant last + Total(left) + Open(eof) == old(Total(left) + Open(eof))
        invariant forall k :: 0 <= k < |log| ==>
                    && log[k].round == k && ReadRight(log[k], source, Keys(rounds(k), inputSync))
                    && MayRead(rounds(k), source, log[k].eof, recordingTime)
        decreases Total(left) + Open(eof)
      {
        ghost var log0 := log;
        var stop := Turn(rounds(last), last, start);
        assert forall k :: 0 <= k < |log0| && |log0| <= |log| && log[..|log0|] == log0 ==> log[k] == log0[k];
        if stop.Some? {
          return stop.value, last;
        }
        last := last + 1;
      }
    }

    lemma Untouched()
      requires log == []
      ensures Accounted(left)
    {
    }
  }
}
