/**
 RTP packets interleaved with RTSP replies on one TCP connection (section 10.12 of RFC 2326): a
 connection whose state locks the socket while a packet or a reply is only partly sent.
 */
module RtspInterleave {
  import opened Wrappers
  import opened ByteCodec

  const DOLLAR: byte := 0x24
  const MAX_TCP_PACKET: nat := 1472

  // ---------------------------------------------------------------- what goes over the wire

  /** What the server sends as a whole: an RTP packet of one sender, or a reply to a request. */
  datatype Unit = Frame(from: nat, stream: nat, payload: seq<byte>) | Reply(text: seq<byte>)

  /** The second byte of the 32-bit length in front of a packet. */
  function LengthByte(len: nat): byte {
    len / 0x1_0000 % 256
  }

  /** The channel is odd for what the sender takes to be an RTCP packet. */
  function Channel(stream: nat, len: nat): byte {
    (2 * stream + (if LengthByte(len) == 200 then 1 else 0)) % 256
  }

  function FrameHeader(channel: byte, len: nat): (h: seq<byte>)
    ensures |h| == 4
  {
    [DOLLAR, channel, len / 256 % 256, len % 256]
  }

  function UnitBytes(u: Unit): seq<byte> {
    match u
    case Frame(_, stream, payload) => FrameHeader(Channel(stream, |payload|), |payload|) + payload
    case Reply(text) => text
  }

  function Wire(us: seq<Unit>): seq<byte> {
    if us == [] then [] else Wire(us[..|us| - 1]) + UnitBytes(us[|us| - 1])
  }

  lemma {:induction false} WireSnoc(us: seq<Unit>, u: Unit)
    ensures Wire(us + [u]) == Wire(us) + UnitBytes(u)
  {
    assert (us + [u])[..|us|] == us;
  }

  lemma Associative(a: seq<byte>, b: seq<byte>, c: seq<byte>)
    ensures (a + b) + c == a + (b + c)
  {
  }

  lemma {:induction false} WireCons(u: Unit, us: seq<Unit>)
    ensures Wire([u] + us) == UnitBytes(u) + Wire(us)
  {
    hide UnitBytes;
    if us == [] {
      assert [u] + us == [u] && [u][..0] == [];
    } else {
      WireCons(u, us[..|us| - 1]);
      assert ([u] + us)[..|us|] == [u] + us[..|us| - 1] && ([u] + us)[|us|] == us[|us| - 1];
      Associative(UnitBytes(u), Wire(us[..|us| - 1]), UnitBytes(us[|us| - 1]));
    }
  }

  // ---------------------------------------------------------------- what the client makes of it

  datatype Piece = Packet(channel: byte, data: seq<byte>) | Answer(data: seq<byte>)

  /** The length in the header of a packet. */
  function DataLength(s: seq<byte>): nat
    requires |s| >= 4
  {
    var hi: nat, lo: nat := s[2], s[3];
    256 * hi + lo
  }

  /** A client takes the wire apart, knowing of each expected reply only its length. */
  function Demux(s: seq<byte>, replies: seq<nat>): Option<seq<Piece>>
    decreases |s|
  {
    if s == [] then Some([])
    else if s[0] == DOLLAR then
      if |s| < 4 then None
      else
        var n := DataLength(s);
        if |s| < 4 + n then None
        else
          var rest := Demux(s[4 + n..], replies);
          if rest.None? then None else Some([Packet(s[1], s[4..4 + n])] + rest.value)
    else if replies == [] || replies[0] == 0 || |s| < replies[0] then None
    else
      var rest := Demux(s[replies[0]..], replies[1..]);
      if rest.None? then None else Some([Answer(s[..replies[0]])] + rest.value)
  }

  function Pieces(us: seq<Unit>): seq<Piece> {
    if us == [] then []
    else [match us[0]
          case Frame(_, stream, payload) => Packet(Channel(stream, |payload|), payload)
          case Reply(text) => Answer(text)] + Pieces(us[1..])
  }

  function ReplyLengths(us: seq<Unit>): seq<nat> {
    if us == [] then []
    else (if us[0].Reply? then [|us[0].text|] else []) + ReplyLengths(us[1..])
  }

  /** A packet whose length fits two bytes, or a reply that does not start with the packet sign. */
  predicate Framable(u: Unit) {
    match u
    case Frame(_, _, payload) => |payload| < 0x1_0000
    case Reply(text) => text != [] && text[0] != DOLLAR
  }

  lemma {:induction false} DemuxFrame(u: Unit, rest: seq<byte>, replies: seq<nat>)
    requires u.Frame? && |u.payload| < 0x1_0000
    ensures var r, p := Demux(rest, replies), Packet(Channel(u.stream, |u.payload|), u.payload);
            Demux(UnitBytes(u) + rest, replies) == if r.None? then None else Some([p] + r.value)
  {
    hide Channel;
    var s, n := UnitBytes(u) + rest, |u.payload|;
    assert DataLength(s) == n && s[0] == DOLLAR && s[1] == Channel(u.stream, n);
    assert s[4..4 + n] == u.payload && s[4 + n..] == rest;
  }

  lemma {:induction false} DemuxReply(u: Unit, rest: seq<byte>, replies: seq<nat>)
    requires u.Reply? && Framable(u)
    ensures var r := Demux(rest, replies);
            Demux(UnitBytes(u) + rest, [|u.text|] + replies)
            == if r.None? then None else Some([Answer(u.text)] + r.value)
  {
    var s := UnitBytes(u) + rest;
    assert s[0] == u.text[0];
    assert s[..|u.text|] == u.text && s[|u.text|..] == rest && ([|u.text|] + replies)[1..] == replies;
  }

  /** Whole units can be taken apart again, whatever their order. */
  lemma {:induction false} Demultiplexed(us: seq<Unit>)
    requires forall i :: 0 <= i < |us| ==> Framable(us[i])
    ensures Demux(Wire(us), ReplyLengths(us)) == Some(Pieces(us))
  {
    hide Demux, UnitBytes;
    if us == [] {
      assert Demux([], []) == Some([]) by {
        DemuxNothing();
      }
    } else {
      var u, rest := us[0], us[1..];
      Demultiplexed(rest);
      WireCons(u, rest);
      assert us == [u] + rest;
      if u.Frame? {
        DemuxFrame(u, Wire(rest), ReplyLengths(rest));
        assert ReplyLengths(us) == ReplyLengths(rest);
      } else {
        DemuxReply(u, Wire(rest), ReplyLengths(rest));
      }
    }
  }

  lemma DemuxNothing()
    ensures Demux([], []) == Some([])
  {
  }

  /** A packet of 65536 bytes or more is not recovered: its length field is cut to two bytes. */
  lemma {:induction false} FrameReadBack(from: nat, stream: nat, payload: seq<byte>)
    ensures Demux(UnitBytes(Frame(from, stream, payload)), []) == Some([Packet(Channel(stream, |payload|), payload)])
       <==> |payload| < 0x1_0000
  {
    var u := Frame(from, stream, payload);
    if |payload| < 0x1_0000 {
      DemuxFrame(u, [], []);
      DemuxNothing();
      var p := Packet(Channel(stream, |payload|), payload);
      assert UnitBytes(u) + [] == UnitBytes(u) && [p] + [] == [p];
    } else {
      var s, n := UnitBytes(u), |payload| % 0x1_0000;
      assert DataLength(s) == n;
      assert |s[4..4 + n]| == n;
    }
  }

  /**
   The channel is meant to be odd for RTCP packets, whose second byte is 200. The test looks at the
   length in front of the packet instead, so it answers a question about the length alone.
   */
  lemma OddChannel(from: nat, stream: nat, payload: seq<byte>)
    ensures UnitBytes(Frame(from, stream, payload))[1] % 2 == 1 <==> |payload| / 0x1_0000 % 256 == 200
    ensures |payload| <= MAX_TCP_PACKET ==> UnitBytes(Frame(from, stream, payload))[1] % 2 == 0
  {
  }

  /** A packet on the wire: the packet sign, twice the number of its stream, its length in two bytes, its bytes. */
  lemma FrameOnTheWire(from: nat, stream: nat, payload: seq<byte>)
    requires |payload| <= MAX_TCP_PACKET
    ensures UnitBytes(Frame(from, stream, payload))
         == [0x24, 2 * stream % 256, |payload| / 256, |payload| % 256] + payload
    ensures stream < 128 ==> UnitBytes(Frame(from, stream, payload))[1] / 2 == stream
  {
  }

  /** A sender report on an even channel. */
  lemma SenderReportOnEvenChannel()
    ensures exists payload: seq<byte> :: |payload| <= MAX_TCP_PACKET && |payload| > 1 && payload[1] == 200
              && UnitBytes(Frame(0, 0, payload))[1] == 0
  {
    var payload: seq<byte> := [0x80, 200];
    assert UnitBytes(Frame(0, 0, payload))[1] == 0;
  }

  // ---------------------------------------------------------------- requests

  const LF: byte := 10
  const CR: byte := 13

  predicate EndsRequest(s: seq<byte>) {
    || (|s| >= 2 && s[|s| - 2..] == [LF, LF])
    || (|s| >= 4 && s[|s| - 4..] == [CR, LF, CR, LF])
  }

  /** The requests in a stream of bytes, each up to its first blank line, and what is left over. */
  function Requests(s: seq<byte>): (seq<seq<byte>>, seq<byte>) {
    if s == [] then ([], [])
    else
      var (rs, cur) := Requests(s[..|s| - 1]);
      var r := cur + [s[|s| - 1]];
      if EndsRequest(r) then (rs + [r], []) else (rs, r)
  }

  lemma {:induction false} RequestsSnoc(s: seq<byte>, b: byte)
    ensures var r := Requests(s).1 + [b];
            Requests(s + [b]) == if EndsRequest(r) then (Requests(s).0 + [r], []) else (Requests(s).0, r)
  {
    assert (s + [b])[..|s|] == s;
  }

  /** Two line ends in a row, with or without carriage returns. */
  predicate BlankLineEnds(s: seq<byte>) {
    var n := |s|;
    || (n >= 2 && s[n - 2] == 10 && s[n - 1] == 10)
    || (n >= 4 && s[n - 4] == 13 && s[n - 3] == 10 && s[n - 2] == 13 && s[n - 1] == 10)
  }

  predicate NoneEndsBefore(s: seq<byte>, n: nat)
    requires n <= |s| + 1
  {
    forall k: nat :: k < n ==> !BlankLineEnds(s[..k])
  }

  function Flat(rs: seq<seq<byte>>): seq<byte> {
    if rs == [] then [] else Flat(rs[..|rs| - 1]) + rs[|rs| - 1]
  }

  /** Requests and what is left over are all of the bytes; a request ends at a blank line and not before. */
  lemma {:induction false} CutAtBlankLines(s: seq<byte>)
    ensures var (rs, left) := Requests(s);
            && Flat(rs) + left == s
            && (forall i :: 0 <= i < |rs| ==> BlankLineEnds(rs[i]) && NoneEndsBefore(rs[i], |rs[i]|))
            && NoneEndsBefore(left, |left| + 1)
  {
    hide BlankLineEnds, EndsRequest;
    assert !BlankLineEnds([]) by {
      SameEnd([]);
    }
    if s == [] {
    } else {
      var n := |s| - 1;
      CutAtBlankLines(s[..n]);
      var (rs, left) := Requests(s[..n]);
      var r := left + [s[n]];
      SameEnd(r);
      forall k: nat | k < |r| ensures r[..k] == left[..k] {
      }
      assert r[..|r|] == r && s == s[..n] + [s[n]];
      assert (rs + [r])[..|rs|] == rs;
    }
  }

  lemma SameEnd(s: seq<byte>)
    ensures EndsRequest(s) <==> BlankLineEnds(s)
    ensures s == [] ==> !BlankLineEnds(s)
  {
    var n := |s|;
    assert n >= 2 ==> s[n - 2..] == [s[n - 2], s[n - 1]];
    assert n >= 4 ==> s[n - 4..] == [s[n - 4], s[n - 3], s[n - 2], s[n - 1]];
  }

  // ---------------------------------------------------------------- packets of a sender

  /** A packet as the packetizer buffers it, behind its 32-bit length. */
  function Prefixed(payload: seq<byte>): seq<byte> {
    BigEndian(|payload|, 4) + payload
  }

  function PrefixedAll(ps: seq<seq<byte>>): seq<byte> {
    if ps == [] then [] else Prefixed(ps[0]) + PrefixedAll(ps[1..])
  }

  /** What the sender does with its buffer next. */
  datatype Next = Discard | Overread | Send(payload: seq<byte>, rest: seq<byte>)

  /** The length is a signed 32-bit number; it is compared with all that is left, prefix included. */
  function NextPacket(buffer: seq<byte>): Next {
    if |buffer| < 4 then Discard
    else
      var n := FromBigEndian(buffer[..4]);
      if n < 0x8000_0000 && n > |buffer| then Discard
      else if n >= 0x8000_0000 || 4 + n > |buffer| then Overread
      else Send(buffer[4..4 + n], buffer[4 + n..])
  }

  lemma {:induction false} NextOfPrefixed(p: seq<byte>, rest: seq<byte>)
    requires |p| < 0x8000_0000
    ensures NextPacket(Prefixed(p) + rest) == Send(p, rest)
  {
    hide BigEndian, FromBigEndian;
    var b := Prefixed(p) + rest;
    PowersOf256();
    BigEndianExact(|p|, 4);
    assert b[..4] == BigEndian(|p|, 4) && b[4..4 + |p|] == p && b[4 + |p|..] == rest;
  }

  /** A packet and the stream it belongs to. */
  datatype Routed = Routed(stream: nat, payload: seq<byte>)

  /** The packets of one sender on the wire, in order, each with the stream in its header. */
  function PacketsFrom(us: seq<Unit>, id: nat): seq<Routed> {
    if us == [] then []
    else
      var u := us[|us| - 1];
      PacketsFrom(us[..|us| - 1], id) + (if u.Frame? && u.from == id then [Routed(u.stream, u.payload)] else [])
  }

  function Tagged(stream: nat, ps: seq<seq<byte>>): (r: seq<Routed>)
    ensures |r| == |ps| && forall i :: 0 <= i < |ps| ==> r[i] == Routed(stream, ps[i])
  {
    seq(|ps|, i requires 0 <= i < |ps| => Routed(stream, ps[i]))
  }

  lemma Regrouped(a: seq<Routed>, x: Routed, b: seq<Routed>)
    ensures a + ([x] + b) == a + [x] + b
  {
  }

  lemma FirstTagged(stream: nat, ps: seq<seq<byte>>)
    ensures ps != [] ==> Tagged(stream, ps) == [Routed(stream, ps[0])] + Tagged(stream, ps[1..])
  {
  }

  lemma {:induction false} PacketsFromSnoc(us: seq<Unit>, u: Unit, id: nat)
    ensures PacketsFrom(us + [u], id)
         == PacketsFrom(us, id) + (if u.Frame? && u.from == id then [Routed(u.stream, u.payload)] else [])
  {
    assert (us + [u])[..|us|] == us;
  }

  lemma ReplyIsNoPacket(us: seq<Unit>, u: Unit)
    requires u.Reply?
    ensures forall id :: PacketsFrom(us + [u], id) == PacketsFrom(us, id)
  {
    forall id ensures PacketsFrom(us + [u], id) == PacketsFrom(us, id) {
      PacketsFromSnoc(us, u, id);
    }
  }

  /** The packetizer's length: four bytes, the most significant first. */
  lemma PrefixInBuffer(p: seq<byte>)
    ensures var n := |p|;
            Prefixed(p) == [n / 0x100_0000 % 256, n / 0x1_0000 % 256, n / 0x100 % 256, n % 256] + p
  {
    FourDigits(|p|);
  }

  /** A packet cut short by up to four bytes passes the length check all the same. */
  lemma {:induction false} CutPacket(p: seq<byte>, missing: nat)
    requires 0 < missing <= |p| < 0x8000_0000
    ensures NextPacket(Prefixed(p)[..4 + |p| - missing]) == if missing <= 4 then Overread else Discard
  {
    hide BigEndian, FromBigEndian;
    PowersOf256();
    BigEndianExact(|p|, 4);
    assert Prefixed(p)[..4 + |p| - missing][..4] == BigEndian(|p|, 4);
  }

  // ---------------------------------------------------------------- the connection

  datatype State = WaitRequest | SendReply | SendPacket | Closed

  /** How many bytes a non-blocking send takes; a negative result takes none. */
  function Taken(result: int, offered: nat): (n: nat)
    ensures n <= offered
  {
    if result < 0 then 0 else if result > offered then offered else result
  }

  lemma FrameBytes(from: nat, stream: nat, payload: seq<byte>)
    ensures UnitBytes(Frame(from, stream, payload)) == FrameHeader(Channel(stream, |payload|), |payload|) + payload
    ensures UnitBytes(Reply(payload)) == payload
  {
  }

  lemma SplitAt(sent: seq<byte>, pending: seq<byte>, n: nat)
    requires n <= |pending|
    ensures (sent + pending[..n]) + pending[n..] == sent + pending
  {
  }

  class RtspConnection {
    const room: nat
    var state: State
    var request: seq<byte>
    var reply: seq<byte>
    var packet: seq<byte>
    var sent: seq<byte>
    ghost var received: seq<byte>
    ghost var parsed: seq<seq<byte>>
    ghost var units: seq<Unit>
    ghost var left: seq<byte>

    /** The wire holds whole units but for the end of the last one, and no request byte is lost. */
    ghost predicate Valid()
      reads this
    {
      && sent + left == Wire(units)
      && (left != [] ==> units != [] && |left| <= |UnitBytes(units[|units| - 1])|)
      && (state == WaitRequest ==> left == [])
      && (state == SendReply ==> left == reply && units != [] && units[|units| - 1].Reply?)
      && (state == SendPacket ==> left == packet && units != [] && units[|units| - 1].Frame?)
      && (state != Closed ==> Requests(received) == (parsed, if state == SendReply then [] else request))
    }

    constructor (room: nat)
      ensures Valid() && state == WaitRequest && this.room == room
      ensures sent == [] && request == [] && received == [] && units == [] && parsed == []
    {
      this.room, state, request, reply, packet, sent := room, WaitRequest, [], [], [], [];
      received, parsed, units, left := [], [], [], [];
    }

    method StartWaitRequest()
      modifies this`request, this`state
      ensures request == [] && state == WaitRequest
    {
      request, state := [], WaitRequest;
    }

    method Close()
      requires Valid()
      modifies this`state
      ensures Valid() && state == Closed
    {
      state := Closed;
    }

    /** Sends what it can of the rest of a unit. */
    method Push(pending: seq<byte>, result: int) returns (rest: seq<byte>)
      modifies this`sent
      ensures sent == old(sent) + pending[..Taken(result, |pending|)]
      ensures rest == pending[Taken(result, |pending|)..]
    {
      var n := Taken(result, |pending|);
      sent, rest := sent + pending[..n], pending[n..];
    }

    /** The packet behind its header. */
    static method Framed(ghost from: nat, stream: nat, payload: seq<byte>) returns (bytes: seq<byte>)
      ensures bytes == UnitBytes(Frame(from, stream, payload))
    {
      var index := 2 * stream;
      if LengthByte(|payload|) == 200 {
        index := index + 1;
      }
      var header: seq<byte> := [DOLLAR, index % 256, |payload| / 256 % 256, |payload| % 256];
      bytes := header + payload;
    }

    /** A packet of a sender: locks the connection unless all of it goes out at once. */
    method Interleave(from: nat, stream: nat, payload: seq<byte>, result: int)
      requires Valid() && state == WaitRequest
      modifies this`packet, this`sent, this`state, this`units, this`left
      ensures Valid() && units == old(units) + [Frame(from, stream, payload)]
      ensures var bytes := UnitBytes(Frame(from, stream, payload));
              && packet == bytes[Taken(result, |bytes|)..] && sent == old(sent) + bytes[..Taken(result, |bytes|)]
      ensures state == if packet == [] then WaitRequest else SendPacket
    {
      hide Wire, Requests, UnitBytes;
      WireSnoc(units, Frame(from, stream, payload));
      packet := Framed(from, stream, payload);
      units := units + [Frame(from, stream, payload)];
      SplitAt(sent, packet, Taken(result, |packet|));
      packet := Push(packet, result);
      left := packet;
      if packet != [] {
        state := SendPacket;
      }
    }

    /**
     The socket can be written: go on with the packet or the reply that locks it. After a packet the
     request being received is kept; after a reply a new one is started.
     */
    method Writable(result: int, fatal: bool)
      requires Valid()
      modifies this`packet, this`reply, this`request, this`sent, this`state, this`left
      ensures Valid() && old(sent) <= sent
      ensures old(state) in {WaitRequest, Closed} ==> state == old(state) && request == old(request)
      ensures old(state) in {WaitRequest, Closed} ==> sent == old(sent)
      ensures old(state) in {SendReply, SendPacket} && result < 0 ==>
                sent == old(sent) && request == old(request) && state == if fatal then Closed else old(state)
      ensures old(state) in {SendReply, SendPacket} && result >= 0 ==>
                && sent + left == old(sent + left) && |left| == |old(left)| - Taken(result, |old(left)|)
                && state == if left == [] then WaitRequest else old(state)
      ensures result > 0 && old(left) != [] && old(state) != Closed ==> |left| < |old(left)|
      ensures old(state) == SendPacket ==> request == old(request)
      ensures old(state) == SendReply && state == WaitRequest ==> request == []
    {
      hide Wire, Requests, UnitBytes;
      SplitAt(sent, left, Taken(result, |left|));
      if state == SendReply {
        if result < 0 {
          if fatal {
            Close();
          }
          return;
        }
        reply := Push(reply, result);
        left := reply;
        if reply == [] {
          StartWaitRequest();
        }
      } else if state == SendPacket {
        if result < 0 {
          if fatal {
            Close();
          }
          return;
        }
        packet := Push(packet, result);
        left := packet;
        if packet == [] {
          state := WaitRequest;
        }
      }
    }

    /** One more byte of a request: the request may be complete, or too long. */
    method ReceiveByte(b: byte, answer: Option<seq<byte>>)
      requires Valid() && state == WaitRequest
      modifies this`request, this`reply, this`state, this`received, this`parsed, this`units, this`left
      ensures Valid() && received == old(received) + [b] && request == old(request) + [b]
      ensures state == if EndsRequest(request) then (if answer.Some? then SendReply else Closed)
                       else if |request| >= room then Closed else WaitRequest
      ensures parsed == old(parsed) + if EndsRequest(request) then [request] else []
      ensures units == old(units) + if state == SendReply then [Reply(reply)] else []
      ensures state == SendReply ==> answer == Some(reply)
      ensures forall id :: PacketsFrom(units, id) == PacketsFrom(old(units), id)
    {
      hide Wire, Requests, UnitBytes, EndsRequest, PacketsFrom;
      RequestsSnoc(received, b);
      received := received + [b];
      request := request + [b];
      if EndsRequest(request) {
        parsed := parsed + [request];
        if answer.None? {
          state := Closed;
        } else {
          WireSnoc(units, Reply(answer.value));
          FrameBytes(0, 0, answer.value);
          ReplyIsNoPacket(units, Reply(answer.value));
          reply, state := answer.value, SendReply;
          units, left := units + [Reply(reply)], reply;
        }
      } else if |request| >= room {
        state := Closed;
      }
    }

    /**
     Reads byte by byte until a request is complete, the buffer is full or there is no more input.
     `answer` is the reply the request gets, if parsing it succeeds.
     */
    method Receive(input: seq<byte>, ended: bool, answer: Option<seq<byte>>) returns (used: nat)
      requires Valid()
      modifies this`request, this`reply, this`state, this`received, this`parsed, this`units, this`left
      ensures Valid() && used <= |input| && sent == old(sent)
      ensures old(state) != WaitRequest ==> used == 0 && state == old(state) && request == old(request)
      ensures old(state) != WaitRequest ==> units == old(units) && parsed == old(parsed)
      ensures received == old(received) + input[..used] && old(parsed) <= parsed
      ensures state == SendReply && old(state) == WaitRequest ==>
                |parsed| == |old(parsed)| + 1 && answer == Some(reply) && units == old(units) + [Reply(reply)]
      ensures state != SendReply ==> units == old(units)
      ensures state == Closed && old(state) == WaitRequest ==> ended || answer.None? || |request| >= room
      ensures forall id :: PacketsFrom(units, id) == PacketsFrom(old(units), id)
      ensures state == WaitRequest ==> used == |input| && parsed == old(parsed)
    {
      hide Wire, Requests, UnitBytes, EndsRequest, PacketsFrom;
      used := 0;
      if state != WaitRequest {
        assert input[..0] == [];
        return;
      }
      assert old(received) + input[..0] == received;
      while used < |input|
        invariant used <= |input| && Valid() && state == WaitRequest
        invariant received == old(received) + input[..used] && parsed == old(parsed) && units == old(units)
      {
        ReceiveByte(input[used], answer);
        used := used + 1;
        assert received == old(received) + input[..used];
        if state != WaitRequest {
          return;
        }
      }
      if ended {
        Close();
      }
    }
  }

  // ---------------------------------------------------------------- the senders

  datatype SendStatus = Wait | NeedData | NoConnection

  class RtpSender {
    const id: nat
    const conn: RtspConnection
    var stream: nat
    var buffer: seq<byte>
    ghost var waiting: seq<seq<byte>>
    ghost var prepared: seq<Routed>

    /** Every packet prepared so far is on the wire or still in the buffer, in order. */
    ghost predicate Valid()
      reads this, conn
    {
      && buffer == PrefixedAll(waiting)
      && (forall i :: 0 <= i < |waiting| ==> |waiting[i]| < 0x8000_0000)
      && PacketsFrom(conn.units, id) + Tagged(stream, waiting) == prepared
    }

    constructor (id: nat, conn: RtspConnection)
      requires PacketsFrom(conn.units, id) == []
      ensures Valid() && this.id == id && this.conn == conn && prepared == []
    {
      this.id, this.conn, this.stream, this.buffer := id, conn, 0, [];
      this.waiting, this.prepared := [], [];
    }

    /** New packets of one stream, once the buffer has been used up. */
    method Prepare(stream: nat, packets: seq<seq<byte>>)
      requires Valid() && forall i :: 0 <= i < |packets| ==> |packets[i]| < 0x8000_0000
      modifies this
      ensures Valid()
      ensures prepared == old(prepared) + if old(buffer) == [] then Tagged(stream, packets) else []
      ensures this.stream == if old(buffer) == [] then stream else old(this.stream)
      ensures waiting == if old(buffer) == [] then packets else old(waiting)
    {
      hide PacketsFrom, Prefixed;
      if buffer != [] {
        assert prepared + [] == prepared;
        return;
      }
      NothingWaiting(waiting);
      assert prepared == PacketsFrom(conn.units, id);
      var filled: seq<byte> := [];
      for i := 0 to |packets|
        invariant filled == PrefixedAll(packets[..i]) && prepared == old(prepared)
      {
        filled := filled + BigEndian(|packets[i]|, 4) + packets[i];
        PrefixedSnoc(packets[..i], packets[i]);
        assert packets[..i + 1] == packets[..i] + [packets[i]];
      }
      assert packets[..|packets|] == packets;
      this.stream, buffer := stream, filled;
      prepared, waiting := prepared + Tagged(stream, packets), packets;
    }

    /** One packet into the connection, which must be idle. */
    method SendOne(result: int)
      requires Valid() && conn.Valid() && conn.state == WaitRequest && buffer != []
      modifies this`buffer, this`waiting, conn`packet, conn`sent, conn`state, conn`units, conn`left
      ensures Valid() && conn.Valid() && conn.state in {WaitRequest, SendPacket}
      ensures Extends(old(History(conn)), History(conn))
      ensures old(waiting) != [] && waiting == old(waiting)[1..] && |buffer| < |old(buffer)|
      ensures conn.units == old(conn.units) + [Frame(id, stream, old(waiting)[0])] && prepared == old(prepared)
      ensures forall j :: j != id ==> PacketsFrom(conn.units, j) == PacketsFrom(old(conn.units), j)
    {
      hide PacketsFrom, Prefixed, NextPacket, Wire, UnitBytes, Tagged;
      ghost var us := conn.units;
      FirstTagged(stream, waiting);
      NextOfPrefixed(waiting[0], PrefixedAll(waiting[1..]));
      var next := NextPacket(buffer);
      assert next == Send(waiting[0], PrefixedAll(waiting[1..]));
      PrefixedLonger(waiting);
      conn.Interleave(id, stream, next.payload, result);
      PacketIsNoOther(us, Frame(id, stream, next.payload));
      buffer := next.rest;
      Regrouped(PacketsFrom(us, id), Routed(stream, waiting[0]), Tagged(stream, waiting[1..]));
      waiting := waiting[1..];
    }

    /** Sends packets until one is not due yet, the connection is busy, or there are no more. */
    method SendData(due: nat -> bool, taken: nat -> int) returns (status: SendStatus)
      requires Valid() && conn.Valid()
      modifies this`buffer, this`waiting, conn`packet, conn`sent, conn`state, conn`units, conn`left
      ensures Valid() && conn.Valid()
      ensures Extends(old(History(conn)), History(conn))
      ensures old(conn.state) == Closed ==> conn.state == Closed
      ensures old(conn.state) in {SendReply, SendPacket, Closed} ==> conn.units == old(conn.units)
      ensures old(conn.state) in {SendReply, SendPacket, Closed} ==> conn.sent == old(conn.sent)
      ensures |old(conn.units)| <= |conn.units|
      ensures forall t :: 0 <= t < |conn.units| - |old(conn.units)| ==> due(t)
      ensures status == Wait && conn.state == WaitRequest ==> !due(|conn.units| - |old(conn.units)|)
      ensures old(conn.state) == WaitRequest && old(buffer) != [] && due(0) ==> |old(conn.units)| < |conn.units|
      ensures status == NeedData ==> waiting == [] && buffer == []
      ensures status == NoConnection ==> conn.state == Closed
      ensures forall j :: j != id ==> PacketsFrom(conn.units, j) == PacketsFrom(old(conn.units), j)
    {
      hide PacketsFrom, Prefixed, PrefixedAll, NextPacket, Wire, UnitBytes, RtspConnection.Valid;
      var turn: nat := 0;
      while buffer != []
        invariant Valid() && conn.Valid()
        invariant turn == |conn.units| - |old(conn.units)| && forall t :: 0 <= t < turn ==> due(t)
        invariant turn == 0 ==> buffer == old(buffer) && conn.state == old(conn.state)
        invariant Extends(old(History(conn)), History(conn))
        invariant conn.state == old(conn.state) || (old(conn.state) == WaitRequest && conn.state == SendPacket)
        invariant old(conn.state) != WaitRequest ==> conn.units == old(conn.units) && conn.sent == old(conn.sent)
        invariant forall j :: j != id ==> PacketsFrom(conn.units, j) == PacketsFrom(old(conn.units), j)
        decreases |buffer|
      {
        if !due(turn) {
          return Wait;
        }
        if conn.state == Closed {
          return NoConnection;
        }
        if conn.state != WaitRequest {
          return Wait;
        }
        SendOne(taken(turn));
        if conn.state == SendPacket {
          return Wait;
        }
        turn := turn + 1;
      }
      NothingWaiting(waiting);
      status := NeedData;
    }
  }

  lemma PacketIsNoOther(us: seq<Unit>, u: Unit)
    requires u.Frame?
    ensures PacketsFrom(us + [u], u.from) == PacketsFrom(us, u.from) + [Routed(u.stream, u.payload)]
    ensures forall j :: j != u.from ==> PacketsFrom(us + [u], j) == PacketsFrom(us, j)
  {
    PacketsFromSnoc(us, u, u.from);
    forall j | j != u.from ensures PacketsFrom(us + [u], j) == PacketsFrom(us, j) {
      PacketsFromSnoc(us, u, j);
    }
  }

  lemma NothingWaiting(ps: seq<seq<byte>>)
    requires PrefixedAll(ps) == []
    ensures ps == []
  {
  }

  lemma PrefixedLonger(ps: seq<seq<byte>>)
    requires ps != []
    ensures PrefixedAll(ps) == Prefixed(ps[0]) + PrefixedAll(ps[1..])
    ensures |PrefixedAll(ps[1..])| < |PrefixedAll(ps)|
  {
  }

  lemma {:induction false} PrefixedSnoc(ps: seq<seq<byte>>, p: seq<byte>)
    ensures PrefixedAll(ps + [p]) == PrefixedAll(ps) + BigEndian(|p|, 4) + p
  {
    hide BigEndian;
    if ps == [] {
      assert [] + [p] == [p] && [p][1..] == [];
      assert PrefixedAll([p]) == Prefixed(p) + PrefixedAll([]);
    } else {
      PrefixedSnoc(ps[1..], p);
      assert (ps + [p])[1..] == ps[1..] + [p];
    }
  }

  // ---------------------------------------------------------------- runs

  datatype Event =
    | Prepared(i: nat, stream: nat, packets: seq<seq<byte>>)
    | SendTurn(i: nat, due: nat -> bool, taken: nat -> int)
    | CanWrite(result: int, fatal: bool)
    | Input(bytes: seq<byte>, ended: bool, answer: Option<seq<byte>>)
    | Broken

  ghost predicate AllValid(conn: RtspConnection, senders: seq<RtpSender>)
    reads conn, senders
  {
    && conn.Valid()
    && (forall i :: 0 <= i < |senders| ==> senders[i].conn == conn && senders[i].id == i && senders[i].Valid())
  }

  predicate Sensible(e: Event, n: nat) {
    match e
    case Prepared(i, _, packets) => i < n && forall k :: 0 <= k < |packets| ==> |packets[k]| < 0x8000_0000
    case SendTurn(i, _, _) => i < n
    case _ => true
  }

  /** Everything that has happened on a connection, and on its wire. */
  datatype Past = Past(units: seq<Unit>, sent: seq<byte>, received: seq<byte>, parsed: seq<seq<byte>>)

  ghost function History(conn: RtspConnection): Past
    reads conn
  {
    Past(conn.units, conn.sent, conn.received, conn.parsed)
  }

  predicate Extends(p: Past, q: Past) {
    p.units <= q.units && p.sent <= q.sent && p.received <= q.received && p.parsed <= q.parsed
  }

  /** The turn of one sender; what the others have waiting is not affected. */
  method SendOf(conn: RtspConnection, senders: seq<RtpSender>, i: nat, due: nat -> bool, taken: nat -> int)
    requires AllValid(conn, senders) && i < |senders|
    modifies senders`buffer, senders`waiting
    modifies conn`packet, conn`sent, conn`state, conn`units, conn`left
    ensures AllValid(conn, senders)
    ensures Extends(old(History(conn)), History(conn))
    ensures old(conn.state) == WaitRequest && old(senders[i].buffer) != [] && due(0) ==>
              |old(conn.units)| < |conn.units|
  {
    hide PacketsFrom, PrefixedAll, Wire, UnitBytes, Requests, RtspConnection.Valid, Tagged;
    var _ := senders[i].SendData(due, taken);
  }

  /** New packets for one sender. */
  method PrepareOf(conn: RtspConnection, senders: seq<RtpSender>, i: nat, stream: nat, packets: seq<seq<byte>>)
    requires AllValid(conn, senders) && i < |senders|
    requires forall k :: 0 <= k < |packets| ==> |packets[k]| < 0x8000_0000
    modifies senders
    ensures AllValid(conn, senders)
    ensures forall j :: 0 <= j < |senders| ==>
              senders[j].prepared == old(senders[j].prepared)
                + if j == i && old(senders[i].buffer) == [] then Tagged(stream, packets) else []
  {
    hide PacketsFrom, PrefixedAll, Wire, UnitBytes, Requests, RtspConnection.Valid, Tagged;
    senders[i].Prepare(stream, packets);
  }

  /** One event of the server loop. */
  method Handle(conn: RtspConnection, senders: seq<RtpSender>, e: Event)
    requires AllValid(conn, senders) && Sensible(e, |senders|)
    modifies conn, senders
    ensures AllValid(conn, senders)
    ensures Extends(old(History(conn)), History(conn))
    ensures e.Broken? ==> conn.state == Closed
    ensures var sends := e.CanWrite? && e.result > 0 && old(conn.left) != [] && old(conn.state) != Closed;
            sends ==> |conn.left| < |old(conn.left)|
    ensures e.SendTurn? && old(conn.state) == WaitRequest && old(senders[e.i].buffer) != [] && e.due(0) ==>
              |old(conn.units)| < |conn.units|
    ensures e.Prepared? && old(senders[e.i].buffer) == [] ==>
              senders[e.i].prepared == old(senders[e.i].prepared) + Tagged(e.stream, e.packets)
    ensures Adds(old(PreparedBy(senders)), PreparedBy(senders), e)
  {
    hide PacketsFrom, PrefixedAll, Wire, UnitBytes, Requests, RtspConnection.Valid, Tagged;
    match e
    case Prepared(i, stream, packets) => PrepareOf(conn, senders, i, stream, packets);
    case SendTurn(i, due, taken) => SendOf(conn, senders, i, due, taken);
    case CanWrite(result, fatal) => conn.Writable(result, fatal);
    case Input(bytes, ended, answer) => var _ := conn.Receive(bytes, ended, answer);
    case Broken => conn.Close();
  }

  /** The packet was handed to sender `i` by this event, for this stream. */
  predicate HandedOver(e: Event, i: nat, x: Routed) {
    e.Prepared? && e.i == i && x.stream == e.stream && x.payload in e.packets
  }

  ghost predicate OfSome(events: seq<Event>, i: nat, x: Routed) {
    exists k :: 0 <= k < |events| && HandedOver(events[k], i, x)
  }

  /** All packets since were handed over by one of the events. */
  ghost predicate AllHandedOver(before: seq<Routed>, now: seq<Routed>, i: nat, events: seq<Event>) {
    && before <= now
    && forall n :: |before| <= n < |now| ==> OfSome(events, i, now[n])
  }

  /** The same for all senders. */
  ghost predicate NothingElse(before: seq<seq<Routed>>, now: seq<seq<Routed>>, events: seq<Event>) {
    |before| == |now| && forall i :: 0 <= i < |now| ==> AllHandedOver(before[i], now[i], i, events)
  }

  /** What one event adds to what the senders have been given. */
  predicate Adds(now: seq<seq<Routed>>, after: seq<seq<Routed>>, e: Event) {
    && |now| == |after|
    && forall i :: 0 <= i < |now| ==>
         after[i] == now[i] || (e.Prepared? && e.i == i && after[i] == now[i] + Tagged(e.stream, e.packets))
  }

  lemma OneMoreEvent(before: seq<Routed>, now: seq<Routed>, after: seq<Routed>, i: nat,
                     events: seq<Event>, e: Event)
    requires AllHandedOver(before, now, i, events)
    requires after == now || (e.Prepared? && e.i == i && after == now + Tagged(e.stream, e.packets))
    ensures AllHandedOver(before, after, i, events + [e])
  {
    var es := events + [e];
    assert before <= after;
    forall n | |before| <= n < |after| ensures OfSome(es, i, after[n]) {
      if n < |now| {
        var k :| 0 <= k < |events| && HandedOver(events[k], i, now[n]);
        assert HandedOver(es[k], i, after[n]);
      } else {
        assert HandedOver(es[|events|], i, after[n]);
      }
    }
  }

  lemma NothingElseStep(before: seq<seq<Routed>>, now: seq<seq<Routed>>, after: seq<seq<Routed>>,
                        events: seq<Event>, e: Event)
    requires NothingElse(before, now, events) && Adds(now, after, e)
    ensures NothingElse(before, after, events + [e])
  {
    hide AllHandedOver;
    forall i | 0 <= i < |now| ensures AllHandedOver(before[i], after[i], i, events + [e]) {
      OneMoreEvent(before[i], now[i], after[i], i, events, e);
    }
  }

  lemma NothingNew(before: seq<seq<Routed>>)
    ensures NothingElse(before, before, [])
  {
  }

  ghost function PreparedBy(senders: seq<RtpSender>): (r: seq<seq<Routed>>)
    reads senders
    ensures |r| == |senders| && forall i :: 0 <= i < |r| ==> r[i] == senders[i].prepared
  {
    seq(|senders|, i requires 0 <= i < |senders| reads senders => senders[i].prepared)
  }

  /**
   Any run of the server: the wire holds whole packets and replies and at most one more that is still
   being sent, nothing sent is ever taken back, every request is cut out of the received bytes at its
   blank line, and each sender's packets are on the wire in order, each for the stream it was prepared for,
   or still in its buffer.
   */
  method Run(conn: RtspConnection, senders: seq<RtpSender>, events: seq<Event>)
    requires AllValid(conn, senders) && forall k :: 0 <= k < |events| ==> Sensible(events[k], |senders|)
    modifies conn, senders
    ensures AllValid(conn, senders)
    ensures Extends(old(History(conn)), History(conn))
    ensures conn.sent + conn.left == Wire(conn.units)
    ensures conn.left != [] ==> conn.units != [] && |conn.left| <= |UnitBytes(conn.units[|conn.units| - 1])|
    ensures conn.state != Closed ==> Requests(conn.received).0 == conn.parsed
    ensures forall i :: 0 <= i < |senders| ==> PacketsFrom(conn.units, i) <= senders[i].prepared
    ensures NothingElse(old(PreparedBy(senders)), PreparedBy(senders), events)
  {
    hide AllValid, NothingElse, Adds, Extends, PacketsFrom, Wire, UnitBytes, Requests;
    ghost var was := PreparedBy(senders);
    NothingNew(was);
    Stays(History(conn));
    for k := 0 to |events|
      invariant AllValid(conn, senders)
      invariant Extends(old(History(conn)), History(conn))
      invariant NothingElse(was, PreparedBy(senders), events[..k])
    {
      ghost var now, past := PreparedBy(senders), History(conn);
      Handle(conn, senders, events[k]);
      Goes(old(History(conn)), past, History(conn));
      assert events[..k + 1] == events[..k] + [events[k]];
      NothingElseStep(was, now, PreparedBy(senders), events[..k], events[k]);
    }
    assert events[..|events|] == events;
    OnTheWire(conn, senders);
  }

  lemma OnTheWire(conn: RtspConnection, senders: seq<RtpSender>)
    requires AllValid(conn, senders)
    ensures conn.sent + conn.left == Wire(conn.units)
    ensures conn.left != [] ==> conn.units != [] && |conn.left| <= |UnitBytes(conn.units[|conn.units| - 1])|
    ensures conn.state != Closed ==> Requests(conn.received).0 == conn.parsed
    ensures forall i :: 0 <= i < |senders| ==> PacketsFrom(conn.units, i) <= senders[i].prepared
  {
    hide PacketsFrom, PrefixedAll, Wire, UnitBytes, Requests;
  }

  lemma Goes(p: Past, q: Past, r: Past)
    requires Extends(p, q) && Extends(q, r)
    ensures Extends(p, r)
  {
  }

  lemma Stays(p: Past)
    ensures Extends(p, p)
  {
  }
}
