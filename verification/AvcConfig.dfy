/**
 The decoder configuration of AVC video (section 5.2.4.1 of ISO/IEC 14496-15): two lists of parameter
 sets, each set behind its own length, the first list behind a count of five bits.
 */
module AvcConfig {
  import opened Wrappers
  import opened ByteCodec
  import opened AtomTree
  import opened Mp4File

  /** The counts of the two lists are not kept apart from the lists. */
  datatype Config = Config(version: nat, profile: nat, compatibility: nat, level: nat,
                           reserved: nat, lengthSize: nat, reserved1: nat,
                           sps: seq<seq<byte>>, pps: seq<seq<byte>>)

  function Entries(es: seq<seq<byte>>): seq<byte> {
    if es == [] then [] else BigEndian(|es[0]|, 2) + es[0] + Entries(es[1..])
  }

  predicate Fits(c: Config) {
    && c.version < 0x100 && c.profile < 0x100 && c.compatibility < 0x100 && c.level < 0x100
    && c.reserved < 64 && c.lengthSize < 4 && c.reserved1 < 8
    && (forall i :: 0 <= i < |c.sps| ==> |c.sps[i]| < 0x1_0000)
    && (forall i :: 0 <= i < |c.pps| ==> |c.pps[i]| < 0x1_0000)
  }

  /** What precedes the parameter sets. A count that does not fit its bits loses the higher ones. */
  function Front(c: Config): seq<byte>
    requires Fits(c)
  {
    [c.version, c.profile, c.compatibility, c.level, c.reserved * 4 + c.lengthSize, c.reserved1 * 32 + |c.sps| % 32]
  }

  function Written(c: Config): seq<byte>
    requires Fits(c)
  {
    Front(c) + Entries(c.sps) + [|c.pps| % 256] + Entries(c.pps)
  }

  /** So many entries, each with the length in front of it; with the position behind the last one. */
  function ParseEntries(d: seq<byte>, pos: nat, count: nat): (r: Result<(seq<seq<byte>>, nat), ReadError>)
    ensures r.Ok? ==> |r.value.0| == count
    decreases count
  {
    if count == 0 then Ok(([], pos))
    else if pos + 2 > |d| then Err(EndOfFile)
    else
      var n := FromBigEndian(d[pos..pos + 2]);
      if pos + 2 + n > |d| then Err(EndOfFile)
      else
        var rest := ParseEntries(d, pos + 2 + n, count - 1);
        if rest.Err? then rest
        else Ok(([d[pos + 2..pos + 2 + n]] + rest.value.0, rest.value.1))
  }

  function Parsed(d: seq<byte>): Result<Config, ReadError> {
    if |d| < 6 then Err(EndOfFile)
    else
      var sps := ParseEntries(d, 6, d[5] % 32);
      if sps.Err? then Err(sps.error)
      else
        var p := sps.value.1;
        if p + 1 > |d| then Err(EndOfFile)
        else
          var pps := ParseEntries(d, p + 1, d[p]);
          if pps.Err? then Err(pps.error)
          else Ok(Config(d[0], d[1], d[2], d[3], d[4] / 4, d[4] % 4, d[5] / 32, sps.value.0, pps.value.0))
  }

  lemma {:induction false} EntriesRoundTrip(d: seq<byte>, pos: nat, es: seq<seq<byte>>)
    requires forall i :: 0 <= i < |es| ==> |es[i]| < 0x1_0000
    requires pos + |Entries(es)| <= |d| && d[pos..pos + |Entries(es)|] == Entries(es)
    ensures ParseEntries(d, pos, |es|) == Ok((es, pos + |Entries(es)|))
    decreases es
  {
    hide BigEndian, FromBigEndian;
    if es == [] {
    } else {
      var n, b := |es[0]|, Entries(es);
      PowersOf256();
      BigEndianExact(n, 2);
      assert b == BigEndian(n, 2) + es[0] + Entries(es[1..]);
      SubSlice(d, pos, b, 0, 2);
      SubSlice(d, pos, b, 2, 2 + n);
      SubSlice(d, pos, b, 2 + n, |b|);
      assert b[0..2] == BigEndian(n, 2) && b[2..2 + n] == es[0] && b[2 + n..|b|] == Entries(es[1..]);
      EntriesRoundTrip(d, pos + 2 + n, es[1..]);
      assert es == [es[0]] + es[1..];
    }
  }

  /** A configuration whose counts fit their fields comes back. */
  lemma ConfigRoundTrip(c: Config)
    requires Fits(c) && |c.sps| <= 31 && |c.pps| <= 255
    ensures Parsed(Written(c)) == Ok(c)
  {
    hide Entries, ParseEntries;
    var d, a, b := Written(c), Entries(c.sps), Entries(c.pps);
    assert d[6..6 + |a|] == a;
    EntriesRoundTrip(d, 6, c.sps);
    var p := 6 + |a|;
    assert d[p] == |c.pps|;
    assert d[p + 1..p + 1 + |b|] == b;
    EntriesRoundTrip(d, p + 1, c.pps);
    assert d[..6] == Front(c);
    assert d[0] == c.version && d[1] == c.profile && d[2] == c.compatibility && d[3] == c.level;
    assert d[4] == c.reserved * 4 + c.lengthSize && d[5] == c.reserved1 * 32 + |c.sps|;
  }

  /** A configuration byte by byte: all reserved bits are set, and lengths have two bytes. */
  lemma ConfigBytes()
    ensures var c := Config(1, 0x42, 0xC0, 0x1E, 63, 3, 7, [[0x67, 0x42]], [[0x68]]);
            var d: seq<byte> := [1, 0x42, 0xC0, 0x1E, 0xFF, 0xE1, 0, 2, 0x67, 0x42, 1, 0, 1, 0x68];
            Fits(c) && Written(c) == d && Parsed(d) == Ok(c)
  {
    hide Parsed;
    var c := Config(1, 0x42, 0xC0, 0x1E, 63, 3, 7, [[0x67, 0x42]], [[0x68]]);
    OneEntry([0x67, 0x42]);
    OneEntry([0x68]);
    assert Front(c) == [1, 0x42, 0xC0, 0x1E, 0xFF, 0xE1];
    ConfigRoundTrip(c);
  }

  lemma OneEntry(e: seq<byte>)
    requires |e| < 0x1_0000
    ensures Entries([e]) == [|e| / 256, |e| % 256] + e
  {
    hide BigEndian;
    assert [e][1..] == [];
    PowersOf256();
    DigitAt(|e|, 2, 0);
    DigitAt(|e|, 2, 1);
    assert Pow256(0) == 1;
    assert BigEndian(|e|, 2) == [|e| / 256, |e| % 256];
  }

  /** With 32 sequence parameter sets or more the five-bit count is wrong and they do not. */
  lemma RoundTripIffCountFits(c: Config)
    requires Fits(c) && |c.pps| <= 255
    ensures Parsed(Written(c)) == Ok(c) <==> |c.sps| <= 31
  {
    hide Entries, ParseEntries;
    if |c.sps| <= 31 {
      ConfigRoundTrip(c);
    } else {
      var d := Written(c);
      assert d[5] == Front(c)[5];
    }
  }

  /** 32 empty sets are read back as none. */
  lemma LostSets(c: Config)
    requires Fits(c) && c.sps == seq(32, _ => []) && c.pps == []
    ensures Parsed(Written(c)) == Ok(c.(sps := []))
  {
    hide Entries, BigEndian;
    var d, a := Written(c), Entries(c.sps);
    assert a == BigEndian(0, 2) + [] + Entries(c.sps[1..]) by {
      assert c.sps[0] == [];
      EntriesFirst(c.sps);
    }
    assert d[..6] == Front(c) && d[6] == a[0] == 0 by {
      BigEndianOfZero();
    }
    assert d[0] == c.version && d[1] == c.profile && d[2] == c.compatibility && d[3] == c.level;
    assert d[4] == c.reserved * 4 + c.lengthSize && d[5] == c.reserved1 * 32;
  }

  lemma EntriesFirst(es: seq<seq<byte>>)
    requires es != []
    ensures Entries(es) == BigEndian(|es[0]|, 2) + es[0] + Entries(es[1..])
  {
  }

  lemma BigEndianOfZero()
    ensures BigEndian(0, 2)[0] == 0
  {
  }

  /** Reads the entries one by one: a length, then as many bytes. */
  method ReadEntries(file: MP4File, count: nat) returns (r: Result<seq<seq<byte>>, ReadError>)
    modifies file`pos
    ensures r.Err? ==> ParseEntries(file.data, old(file.pos), count) == Err(r.error)
    ensures r.Ok? ==> ParseEntries(file.data, old(file.pos), count) == Ok((r.value, file.pos))
  {
    hide ParseEntries, FromBigEndian;
    var es: seq<seq<byte>> := [];
    ghost var d, p := file.data, file.pos;
    EntriesSteps(d, p, count, []);
    for i := 0 to count
      invariant ParseEntries(d, p, count) == After(es, ParseEntries(d, file.pos, count - i))
    {
      EntriesSteps(d, file.pos, count - i, es);
      var n := file.ReadUInt(2);
      if n.Err? {
        return Err(n.error);
      }
      var b := file.ReadBytes(n.value);
      if b.Err? {
        return Err(b.error);
      }
      es := es + [b.value];
    }
    EntriesSteps(d, file.pos, 0, es);
    r := Ok(es);
  }

  function After(es: seq<seq<byte>>, r: Result<(seq<seq<byte>>, nat), ReadError>)
    : Result<(seq<seq<byte>>, nat), ReadError>
  {
    if r.Err? then r else Ok((es + r.value.0, r.value.1))
  }

  lemma {:induction false} EntriesSteps(d: seq<byte>, pos: nat, count: nat, es: seq<seq<byte>>)
    ensures es == [] ==> After(es, ParseEntries(d, pos, count)) == ParseEntries(d, pos, count)
    ensures var r := After(es, ParseEntries(d, pos, count));
            if count == 0 then r == Ok((es, pos))
            else if pos + 2 > |d| then r == Err(EndOfFile)
            else
              var n := FromBigEndian(d[pos..pos + 2]);
              if pos + 2 + n > |d| then r == Err(EndOfFile)
              else r == After(es + [d[pos + 2..pos + 2 + n]], ParseEntries(d, pos + 2 + n, count - 1))
  {
    hide FromBigEndian;
    var r := ParseEntries(d, pos, count);
    assert es == [] && r.Ok? ==> es + r.value.0 == r.value.0 && r == Ok((r.value.0, r.value.1));
    assert es + [] == es;
    if count > 0 && pos + 2 <= |d| {
      var n := FromBigEndian(d[pos..pos + 2]);
      if pos + 2 + n <= |d| {
        var rest, e := ParseEntries(d, pos + 2 + n, count - 1), d[pos + 2..pos + 2 + n];
        assert rest.Ok? ==> es + ([e] + rest.value.0) == es + [e] + rest.value.0;
      }
    }
  }
}
