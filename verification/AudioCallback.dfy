/** The audio callback of the player: decoded buffers of any size are cut into pieces of the size asked for. */
module AudioCallback {
  import opened ByteCodec

  const SILENCE: nat := 1024

  /** What decoding and synchronising one frame gives. */
  datatype Decoded = Failed | Samples(bytes: seq<byte>)

  function BufferOf(d: Decoded): seq<byte> {
    if d.Failed? then Zeros(SILENCE) else d.bytes
  }

  /** The first `n` buffers, one after the other. */
  function Stream(source: nat -> Decoded, n: nat): seq<byte> {
    if n == 0 then [] else Stream(source, n - 1) + BufferOf(source(n - 1))
  }

  /** More buffers only add to the stream. */
  lemma {:induction false} StreamGrows(source: nat -> Decoded, m: nat, n: nat)
    requires m <= n
    ensures Stream(source, m) <= Stream(source, n)
  {
    if m == n {
    } else {
      StreamGrows(source, m, n - 1);
    }
  }

  predicate Sounds(source: nat -> Decoded, n: nat) {
    BufferOf(source(n)) != []
  }

  /** A buffer can be empty, but not all of them from some point on: the callback would never return. */
  ghost predicate Endless(source: nat -> Decoded) {
    forall k: nat :: SoundsFrom(source, k)
  }

  ghost predicate SoundsFrom(source: nat -> Decoded, k: nat) {
    exists n: nat :: k <= n && Sounds(source, n)
  }

  class AudioOutput {
    const source: nat -> Decoded
    var buffer: seq<byte>
    var index: nat
    var used: nat
    ghost var played: seq<byte>

    /** What has been played and what is left of the current buffer are the buffers used so far. */
    ghost predicate Valid()
      reads this
    {
      && Endless(source)
      && index <= |buffer|
      && played + buffer[index..] == Stream(source, used)
      && (used == 0 ==> buffer == []) && (used > 0 ==> buffer == BufferOf(source(used - 1)))
    }

    constructor (source: nat -> Decoded)
      requires Endless(source)
      ensures Valid() && this.source == source && played == [] && used == 0
    {
      this.source, buffer, index := source, [], 0;
      used, played := 0, [];
    }

    /** A new buffer, once the current one is used up. */
    method Refill()
      requires Valid() && index == |buffer|
      modifies this`buffer, this`index, this`used
      ensures Valid() && index == 0 && used == old(used) + 1 && buffer == BufferOf(source(old(used)))
      ensures match source(old(used))
              case Samples(bytes) => buffer == bytes
              case Failed => |buffer| == 1024 && forall i :: 0 <= i < 1024 ==> buffer[i] == 0
    {
      var d := source(used);
      if d.Failed? {
        buffer := Zeros(SILENCE);
      } else {
        buffer := d.bytes;
      }
      index, used := 0, used + 1;
      assert buffer[0..] == buffer && played + [] == played;
    }

    /** Up to `len` bytes of the current buffer. */
    method Copy(len: nat) returns (piece: seq<byte>)
      requires Valid() && len > 0
      modifies this`index, this`played
      ensures Valid() && |piece| <= len && played == old(played) + piece
      ensures |piece| < len ==> index == |buffer|
      ensures index == old(index) + |piece|
    {
      hide Stream;
      var n := |buffer| - index;
      if n > len {
        n := len;
      }
      piece := buffer[index..index + n];
      assert buffer[index..] == piece + buffer[index + n..];
      assert played + (piece + buffer[index + n..]) == (played + piece) + buffer[index + n..];
      index := index + n;
      played := played + piece;
    }

    /** One call asks for so many bytes and gets the next ones of the stream; no buffer is fetched too early. */
    method Callback(len: nat) returns (out: seq<byte>)
      requires Valid()
      modifies this`buffer, this`index, this`used, this`played
      ensures Valid() && |out| == len && played == old(played) + out
      ensures old(used) <= used
      ensures used > old(used) ==> index > 0
      ensures used == old(used) ==> index >= old(index)
    {
      hide Stream, BufferOf;
      out := [];
      assert played == played + out;
      ghost var next := NextSound();
      while |out| < len
        invariant Valid() && |out| <= len && played == old(played) + out
        invariant old(used) <= used && (used > old(used) && |out| == len ==> index > 0)
        invariant used == old(used) ==> index >= old(index)
        invariant index == |buffer| ==> used <= next && Sounds(source, next)
        decreases len - |out|, if index < |buffer| then 0 else 1 + next - used
      {
        if index >= |buffer| {
          Refill();
        }
        var piece := Copy(len - |out|);
        assert old(played) + out + piece == old(played) + (out + piece);
        out := out + piece;
        if piece != [] {
          next := NextSound();
        }
      }
    }

    /** The first buffer with sound that is still to come, or a later one. */
    ghost method NextSound() returns (n: nat)
      requires Valid()
      ensures used <= n && Sounds(source, n)
    {
      assert SoundsFrom(source, used);
      n :| used <= n && Sounds(source, n);
    }

    /** Any sequence of calls plays the stream from its start, without a gap or a repetition. */
    method Run(lens: seq<nat>) returns (outs: seq<seq<byte>>)
      requires Valid() && played == [] && used == 0
      modifies this`buffer, this`index, this`used, this`played
      ensures Valid() && |outs| == |lens| && forall k :: 0 <= k < |lens| ==> |outs[k]| == lens[k]
      ensures Joined(outs) == played <= Stream(source, used)
      ensures used > 0 ==> |Stream(source, used - 1)| < |played|
    {
      hide Stream;
      outs := [];
      for i := 0 to |lens|
        invariant Valid() && |outs| == i && Joined(outs) == played
        invariant forall k :: 0 <= k < i ==> |outs[k]| == lens[k]
        invariant used > 0 ==> index > 0
      {
        var out := Callback(lens[i]);
        JoinedSnoc(outs, out);
        outs := outs + [out];
      }
      if used > 0 {
        LastBuffer(source, used);
      }
    }
  }

  lemma LastBuffer(source: nat -> Decoded, n: nat)
    requires n > 0
    ensures |Stream(source, n)| == |Stream(source, n - 1)| + |BufferOf(source(n - 1))|
  {
  }

  function Joined(outs: seq<seq<byte>>): seq<byte> {
    if outs == [] then [] else Joined(outs[..|outs| - 1]) + outs[|outs| - 1]
  }

  lemma {:induction false} JoinedSnoc(outs: seq<seq<byte>>, out: seq<byte>)
    ensures Joined(outs + [out]) == Joined(outs) + out
  {
    assert (outs + [out])[..|outs|] == outs;
  }

  /** Two runs over the same buffers agree on all they both play, however differently they are cut. */
  lemma SameStream(source: nat -> Decoded, m: nat, n: nat, a: seq<byte>, b: seq<byte>)
    requires a <= Stream(source, m) && b <= Stream(source, n) && |a| <= |b|
    ensures a <= b
  {
    hide Stream;
    if m <= n {
      StreamGrows(source, m, n);
    } else {
      StreamGrows(source, n, m);
    }
  }
}
