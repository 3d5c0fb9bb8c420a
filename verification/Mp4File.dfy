/** The file an atom tree is read from and written to: its bytes and a position. */
module Mp4File {
  import opened Wrappers
  import opened ByteCodec
  import opened AtomTree

  class MP4File {
    var data: seq<byte>
    var pos: nat

    constructor (contents: seq<byte>)
      ensures data == contents && pos == 0
    {
      data, pos := contents, 0;
    }

    method SetPosition(p: nat)
      modifies this`pos
      ensures pos == p
    {
      pos := p;
    }

    method WriteBytes(b: seq<byte>)
      modifies this
      ensures data == Splice(old(data), old(pos), b) && pos == old(pos) + |b|
    {
      data, pos := Splice(data, pos, b), pos + |b|;
    }

    method WriteUInt32(value: nat)
      modifies this
      ensures data == Splice(old(data), old(pos), BigEndian(value, 4)) && pos == old(pos) + 4
    {
      var b: seq<byte> := [value / 0x100_0000 % 256, value / 0x1_0000 % 256, value / 0x100 % 256, value % 256];
      FourBytes(value);
      WriteBytes(b);
    }

    method WriteUInt64(value: nat)
      modifies this
      ensures data == Splice(old(data), old(pos), BigEndian(value, 8)) && pos == old(pos) + 8
    {
      var v, i, b: seq<byte> := value, 8, [];
      while i > 0
        invariant |b| == 8 - i
        invariant BigEndian(value, 8) == BigEndian(v, i) + b
      {
        i, b, v := i - 1, [v % 256] + b, v / 256;
      }
      assert BigEndian(v, 0) + b == b;
      WriteBytes(b);
    }

    method ReadBytes(n: nat) returns (r: Result<seq<byte>, ReadError>)
      modifies this`pos
      ensures r == if old(pos) + n > |data| then Err(EndOfFile) else Ok(data[old(pos)..old(pos) + n])
      ensures r.Ok? ==> pos == old(pos) + n
    {
      if pos + n > |data| {
        return Err(EndOfFile);
      }
      r := Ok(data[pos..pos + n]);
      pos := pos + n;
    }

    /** An unsigned integer of four or eight bytes, assembled from the most significant byte down. */
    method ReadUInt(w: nat) returns (r: Result<nat, ReadError>)
      modifies this`pos
      ensures r == if old(pos) + w > |data| then Err(EndOfFile)
                   else Ok(FromBigEndian(data[old(pos)..old(pos) + w]))
      ensures r.Ok? ==> pos == old(pos) + w
    {
      var bytes := ReadBytes(w);
      if bytes.Err? {
        return Err(bytes.error);
      }
      var b := bytes.value;
      var n: nat := 0;
      for i := 0 to w
        invariant n == FromBigEndian(b[..i])
      {
        assert b[..i + 1][..i] == b[..i];
        n := n * 256 + b[i];
      }
      assert b[..w] == b;
      r := Ok(n);
    }
  }

  lemma FourBytes(v: nat)
    ensures BigEndian(v, 4) == [v / 0x100_0000 % 256, v / 0x1_0000 % 256, v / 0x100 % 256, v % 256]
  {
    var v1 := v / 256;
    var v2 := v1 / 256;
    var v3 := v2 / 256;
    assert v2 == v / 0x1_0000 && v3 == v / 0x100_0000;
    assert BigEndian(v3, 1) == BigEndian(v3 / 256, 0) + [v3 % 256];
    assert BigEndian(v2, 2) == BigEndian(v3, 1) + [v2 % 256];
    assert BigEndian(v1, 3) == BigEndian(v2, 2) + [v1 % 256];
  }
}
