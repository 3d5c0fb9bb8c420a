/** The location of media data: a flag says that it is in the same file, and then no location is written. */
module UrlAtoms {
  import opened Wrappers
  import opened ByteCodec
  import opened AtomTree
  import opened Mp4File

  datatype Url = Url(version: nat, flags: nat, location: Option<seq<byte>>)

  predicate SelfContained(flags: nat) {
    flags % 2 == 1
  }

  /** The flags as the writer sets them: the lowest bit says whether there is no location. */
  function FlagsFor(flags: nat, location: Option<seq<byte>>): nat {
    if location.None? then (if SelfContained(flags) then flags else flags + 1)
    else (flags - flags % 2) % 0x100_0000
  }

  function Written(u: Url): seq<byte> {
    BigEndian(u.version, 1) + BigEndian(u.flags, 3) + (if u.location.Some? then u.location.value + [0] else [])
  }

  /** A string runs up to the next zero byte. */
  function StringAt(d: seq<byte>, pos: nat): Result<seq<byte>, ReadError>
    decreases |d| - pos
  {
    if pos >= |d| then Err(EndOfFile)
    else if d[pos] == 0 then Ok([])
    else
      var rest := StringAt(d, pos + 1);
      if rest.Err? then rest else Ok([d[pos]] + rest.value)
  }

  function Parsed(d: seq<byte>, pos: nat, end: nat): Result<Url, ReadError> {
    if pos + 1 > |d| then Err(EndOfFile)
    else if pos + 1 > end then Err(TooSmall)
    else if pos + 4 > |d| then Err(EndOfFile)
    else if pos + 4 > end then Err(TooSmall)
    else
      var version, flags := FromBigEndian(d[pos..pos + 1]), FromBigEndian(d[pos + 1..pos + 4]);
      if SelfContained(flags) then Ok(Url(version, flags, None))
      else
        var s := StringAt(d, pos + 4);
        if s.Err? then Err(s.error)
        else if pos + 4 + |s.value| + 1 > end then Err(TooSmall)
        else Ok(Url(version, flags, Some(s.value)))
  }

  lemma {:induction false} StringRoundTrip(d: seq<byte>, pos: nat, s: seq<byte>)
    requires pos + |s| + 1 <= |d| && d[pos..pos + |s| + 1] == s + [0]
    requires forall i :: 0 <= i < |s| ==> s[i] != 0
    ensures StringAt(d, pos) == Ok(s)
    decreases s
  {
    assert d[pos] == d[pos..pos + |s| + 1][0];
    if s == [] {
    } else {
      assert d[pos + 1..pos + |s| + 1] == d[pos..pos + |s| + 1][1..];
      assert (s + [0])[1..] == s[1..] + [0] && (s + [0])[0] == s[0];
      StringRoundTrip(d, pos + 1, s[1..]);
      assert s == [s[0]] + s[1..];
    }
  }

  /** What is written with its flags set is read back, location or none. */
  lemma UrlRoundTrip(u: Url)
    requires u.version < 0x100 && u.flags < 0x100_0000
    requires u.location.Some? ==> forall i :: 0 <= i < |u.location.value| ==> u.location.value[i] != 0
    ensures var w := u.(flags := FlagsFor(u.flags, u.location));
            Parsed(Written(w), 0, |Written(w)|) == Ok(w)
  {
    hide BigEndian, FromBigEndian;
    var w := u.(flags := FlagsFor(u.flags, u.location));
    var d := Written(w);
    PowersOf256();
    BigEndianExact(w.version, 1);
    BigEndianExact(w.flags, 3);
    assert d[0..1] == BigEndian(w.version, 1) && d[1..4] == BigEndian(w.flags, 3);
    if w.location.Some? {
      assert d[4..4 + |w.location.value| + 1] == w.location.value + [0];
      StringRoundTrip(d, 4, w.location.value);
    }
  }

  /** The lowest bit of the fourth byte says that no location follows; the other flags are as they were. */
  lemma UrlBytes(u: Url)
    requires u.version < 0x100 && u.flags < 0x100_0000
    ensures var w := u.(flags := FlagsFor(u.flags, u.location));
            var d := Written(w);
            && |d| >= 4 && d[0] == u.version && d[1] == u.flags / 0x1_0000 && d[2] == u.flags / 0x100 % 0x100
            && d[3] / 2 == u.flags % 0x100 / 2 && (d[3] % 2 == 1 <==> u.location.None?)
            && d[4..] == if u.location.Some? then u.location.value + [0] else []
  {
    hide BigEndian, FlagsFor;
    var flags := FlagsFor(u.flags, u.location);
    LowestBit(u.flags, u.location);
    FlagBytes(u.version, flags);
  }

  lemma FlagBytes(version: nat, flags: nat)
    requires version < 0x100 && flags < 0x100_0000
    ensures BigEndian(version, 1) == [version]
    ensures BigEndian(flags, 3) == [flags / 0x1_0000, flags / 0x100 % 0x100, flags % 0x100]
  {
    hide BigEndian;
    PowersOf256();
    DigitAt(version, 1, 0);
    DigitAt(flags, 3, 0);
    DigitAt(flags, 3, 1);
    DigitAt(flags, 3, 2);
    assert Pow256(0) == 1;
  }

  lemma LowestBit(flags: nat, location: Option<seq<byte>>)
    requires flags < 0x100_0000
    ensures var f := FlagsFor(flags, location);
            && f < 0x100_0000 && f / 0x1_0000 == flags / 0x1_0000 && f / 0x100 == flags / 0x100
            && f % 0x100 / 2 == flags % 0x100 / 2 && (f % 0x100 % 2 == 1 <==> location.None?)
  {
    var a, b, c := flags / 0x100, flags % 0x100 / 2, flags % 2;
    assert flags == a * 0x100 + b * 2 + c && b < 0x80;
    var e := if location.None? then 1 else 0;
    assert FlagsFor(flags, location) == a * 0x100 + b * 2 + e;
  }

  class UrlAtom {
    var version: nat
    var flags: nat
    var location: Option<seq<byte>>

    ghost function Value(): Url
      reads this
    {
      Url(version, flags, location)
    }

    constructor (u: Url)
      ensures Value() == u
    {
      version, flags, location := u.version, u.flags, u.location;
    }

    method Write(file: MP4File)
      modifies this`flags, file
      ensures Value() == old(Value()).(flags := FlagsFor(old(flags), location))
      ensures var b := Written(Value());
              file.data == Splice(old(file.data), old(file.pos), b) && file.pos == old(file.pos) + |b|
    {
      hide Splice, BigEndian;
      if location.None? {
        if flags % 2 == 0 {
          flags := flags + 1;
        }
      } else {
        flags := (flags - flags % 2) % 0x100_0000;
      }
      var s := if location.Some? then location.value + [0] else [];
      SpliceAppend(old(file.data), old(file.pos), BigEndian(version, 1), BigEndian(flags, 3));
      SpliceAppend(old(file.data), old(file.pos), BigEndian(version, 1) + BigEndian(flags, 3), s);
      file.WriteBytes(BigEndian(version, 1));
      file.WriteBytes(BigEndian(flags, 3));
      file.WriteBytes(s);
    }

    method Read(file: MP4File, end: nat) returns (r: Result<(), ReadError>)
      modifies this, file`pos
      ensures r.Err? ==> Parsed(file.data, old(file.pos), end) == Err(r.error)
      ensures r.Ok? ==> Parsed(file.data, old(file.pos), end) == Ok(Value()) && file.pos == end
    {
      hide FromBigEndian, StringAt;
      var v := file.ReadUInt(1);
      if v.Err? {
        return Err(v.error);
      }
      if file.pos > end {
        return Err(TooSmall);
      }
      var f := file.ReadUInt(3);
      if f.Err? {
        return Err(f.error);
      }
      if file.pos > end {
        return Err(TooSmall);
      }
      version, flags, location := v.value, f.value, None;
      if flags % 2 == 0 {
        var s := ReadString(file);
        if s.Err? {
          return Err(s.error);
        }
        if file.pos > end {
          return Err(TooSmall);
        }
        location := Some(s.value);
      }
      file.SetPosition(end);
      r := Ok(());
    }
  }

  method ReadString(file: MP4File) returns (r: Result<seq<byte>, ReadError>)
    modifies file`pos
    ensures r == StringAt(file.data, old(file.pos))
    ensures r.Ok? ==> file.pos == old(file.pos) + |r.value| + 1
  {
    var s: seq<byte> := [];
    ghost var d, p := file.data, file.pos;
    StringSteps(d, p, []);
    while file.pos < |file.data|
      invariant file.pos == p + |s|
      invariant StringAt(d, p) == Before(s, StringAt(d, file.pos))
      decreases |file.data| - file.pos
    {
      StringSteps(d, file.pos, s);
      var b := file.ReadBytes(1);
      assert b.value == [d[file.pos - 1]];
      if b.value[0] == 0 {
        return Ok(s);
      }
      s := s + b.value;
    }
    r := Err(EndOfFile);
  }

  lemma {:induction false} StringSteps(d: seq<byte>, pos: nat, s: seq<byte>)
    ensures s == [] ==> Before(s, StringAt(d, pos)) == StringAt(d, pos)
    ensures pos < |d| && d[pos] == 0 ==> Before(s, StringAt(d, pos)) == Ok(s)
    ensures pos < |d| && d[pos] != 0 ==> Before(s, StringAt(d, pos)) == Before(s + [d[pos]], StringAt(d, pos + 1))
  {
    var r := StringAt(d, pos);
    assert s == [] && r.Ok? ==> s + r.value == r.value;
    assert s + [] == s;
    if pos < |d| && d[pos] != 0 {
      var rest := StringAt(d, pos + 1);
      assert rest.Ok? ==> s + ([d[pos]] + rest.value) == s + [d[pos]] + rest.value;
    }
  }

  function Before(s: seq<byte>, r: Result<seq<byte>, ReadError>): Result<seq<byte>, ReadError> {
    if r.Err? then r else Ok(s + r.value)
  }
}
