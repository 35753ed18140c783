/** The client side of the Wialon link in wialond/connection.py: building the
    login, position, picture and keep-alive frames, numbering them with the
    16-bit cyclic sequence counter, correlating the server's acks with the
    pending results by sequence number, checking command frames, and closing.

    The socket is not modelled: a send is told how the write went, and the
    listener is given the bytes the server sends before it closes. CRC-16 is
    wialond/util/crc16.py, which is not part of this model; every operation
    that needs it takes it as the parameter `crc`. */
module Connection {
  import opened Base
  import opened Binary
  import opened Concurrency

  /** The message types the client sends: 0 login, 1 data, 2 keep-alive. */
  type MsgType = t: int | 0 <= t <= 2

  const KeepAlive: MsgType := 2

  type Crc16 = seq<Byte> -> U16

  /** The sequence counter cycles through `range(1 << 16)`. */
  const SequenceSpace: nat := 0x1_0000

  /** The marker that starts every frame the client sends. */
  const ClientHead: seq<Byte> := ToBigEndian(0x2424, 2)

  /** The marker that starts every frame the server sends. */
  const ServerHead: nat := 0x4040

  /** The state of a Connection: the cycle iterator's next value, the table
      of pending results keyed by sequence number, and whether it is closed.
      Every AsyncResult ever handed out is kept in `futures`, indexed by the
      number of sends before it, so that a caller's result can be followed
      after the table lets go of it. */
  datatype Conn = Conn(counter: U16, acks: map<U16, nat>, futures: seq<AsyncResult<bool>>, closed: bool)

  /** A connection just opened (wialond/connection.py:33-40). */
  function Open(): (r: Conn)
    ensures Valid(r) && !r.closed && r.acks == map[] && r.futures == []
  {
    Conn(0, map[], [], false)
  }

  /** The entry for sequence number `sq` is the latest send that carried
      `sq`, and its result is still unresolved. */
  ghost predicate Pending(c: Conn, sq: U16)
    requires sq in c.acks
  {
    var id := c.acks[sq];
    && id < |c.futures| <= id + SequenceSpace
    && id % SequenceSpace == sq
    && c.futures[id] == Unresolved()
  }

  /** The representation invariant: the counter is the number of sends
      modulo 2^16, and every table entry is pending. */
  ghost predicate Valid(c: Conn) {
    && c.counter == |c.futures| % SequenceSpace
    && forall sq :: sq in c.acks ==> Pending(c, sq)
  }

  /** `next(cycle(range(1 << 16)))` */
  function NextSeq(x: U16): (r: U16)
    ensures r == (x + 1) % SequenceSpace
  {
    if x == 0xFFFF then 0 else x + 1
  }

  // ---------------------------------------------------------------------
  // Frames

  /** The bytes `_send_message` writes: the marker 0x2424, the type as a
      one-byte varint (for types 0 to 2 the byte itself, by PackVarOneByte),
      the sequence number, the payload, and, except for a keep-alive, the
      CRC-16 of everything before it. */
  function Frame(t: MsgType, sq: U16, payload: seq<Byte>, crc: Crc16): seq<Byte> {
    var body := ClientHead + [t] + ToBigEndian(sq, 2) + payload;
    if t == KeepAlive then body else body + ToBigEndian(crc(body), 2)
  }

  /** A client message as the server sees it. */
  datatype ClientMessage = ClientMessage(msgType: MsgType, number: U16, payload: seq<Byte>)

  /** The server's reading of a client frame: the marker, a type byte, the
      sequence number, and, for types 0 and 1, a trailing CRC that must match
      the CRC of the bytes before it. */
  function ParseFrame(b: seq<Byte>, crc: Crc16): (r: Option<ClientMessage>)
    ensures r.Some? ==> |r.value.payload| < |b|
  {
    if |b| < 5 || b[..2] != ClientHead || b[2] > 2 then None
    else if b[2] == KeepAlive then Some(ClientMessage(KeepAlive, FromBigEndian(b[3..5]), b[5..]))
    else if |b| < 7 || FromBigEndian(b[|b| - 2..]) != crc(b[..|b| - 2]) then None
    else Some(ClientMessage(b[2], FromBigEndian(b[3..5]), b[5..|b| - 2]))
  }

  lemma {:induction false} FrameLayout(t: MsgType, sq: U16, payload: seq<Byte>, crc: Crc16)
    ensures var f := Frame(t, sq, payload, crc);
            && |f| == 5 + |payload| + (if t == KeepAlive then 0 else 2)
            && f[..2] == ClientHead && f[2] == t && f[3..5] == ToBigEndian(sq, 2)
            && f[5..5 + |payload|] == payload
            && (t != KeepAlive ==> f[5 + |payload|..] == ToBigEndian(crc(f[..5 + |payload|]), 2))
  {
    var body := ClientHead + [t] + ToBigEndian(sq, 2) + payload;
    assert body[..2] == ClientHead;
    assert body[3..5] == ToBigEndian(sq, 2);
    assert body[5..] == payload;
    if t != KeepAlive {
      var f := body + ToBigEndian(crc(body), 2);
      assert f[..5 + |payload|] == body;
    }
  }

  /** Every frame the client writes is read back by the server as the
      message it was built from. */
  lemma {:induction false} FrameRoundTrip(t: MsgType, sq: U16, payload: seq<Byte>, crc: Crc16)
    ensures ParseFrame(Frame(t, sq, payload, crc), crc) == Some(ClientMessage(t, sq, payload))
  {
    var f := Frame(t, sq, payload, crc);
    FrameLayout(t, sq, payload, crc);
    if t != KeepAlive {
      assert f[|f| - 2..] == ToBigEndian(crc(f[..5 + |payload|]), 2);
      assert f[5..|f| - 2] == payload;
    }
  }

  /** Conversely, every byte string the server accepts is exactly the frame
      built from what it read. */
  lemma {:induction false} ParsedFrameIsFrame(b: seq<Byte>, crc: Crc16)
    requires ParseFrame(b, crc).Some?
    ensures var m := ParseFrame(b, crc).value; b == Frame(m.msgType, m.number, m.payload, crc)
  {
    var m := ParseFrame(b, crc).value;
    ToFromBigEndian(b[3..5]);
    if m.msgType == KeepAlive {
      assert b == ClientHead + [b[2]] + b[3..5] + b[5..];
    } else {
      ToFromBigEndian(b[|b| - 2..]);
      var body := b[..|b| - 2];
      assert body == ClientHead + [b[2]] + b[3..5] + b[5..|b| - 2];
      assert b == body + b[|b| - 2..];
    }
  }

  // ---------------------------------------------------------------------
  // Sending

  /** How the socket write went: all bytes sent; a ConnectionError (reset,
      broken pipe); or another OSError. */
  datatype SocketWrite = Delivered | Reset | Failed

  /** A send: the connection after it, the frame handed to the socket, and
      the index of the returned AsyncResult in `futures`, or the exception. */
  datatype Sent = Sent(conn: Conn, frame: seq<Byte>, outcome: Result<nat>)

  /** Lines 95-97: take the next sequence number and register a fresh
      result under it, replacing any older entry with the same number. */
  function Register(c: Conn): (r: Conn)
    requires Valid(c)
    ensures Valid(r) && r.closed == c.closed
    ensures r.acks == c.acks[c.counter := |c.futures|]
    ensures r.futures == c.futures + [Unresolved()]
  {
    var r := Conn(NextSeq(c.counter), c.acks[c.counter := |c.futures|], c.futures + [Unresolved()], c.closed);
    RegisterKeepsPending(c, r);
    r
  }

  /** Every entry the new one does not replace stays pending: its send is
      less than 2^16 sends old, or it would carry the new number. */
  lemma {:induction false} RegisterKeepsPending(c: Conn, r: Conn)
    requires Valid(c)
    requires r.acks == c.acks[c.counter := |c.futures|] && r.futures == c.futures + [Unresolved()]
    ensures forall sq :: sq in r.acks ==> Pending(r, sq)
  {
    forall sq | sq in r.acks
      ensures Pending(r, sq)
    {
      if sq == c.counter {
        assert r.acks[sq] == |c.futures| && r.futures[|c.futures|] == Unresolved();
      } else {
        assert sq in c.acks && r.acks[sq] == c.acks[sq];
        OlderEntryStaysPending(c, sq);
        assert r.futures[c.acks[sq]] == c.futures[c.acks[sq]];
      }
    }
  }

  /** A pending entry other than the counter's was sent fewer than 2^16
      sends before the next one. */
  lemma {:induction false} OlderEntryStaysPending(c: Conn, sq: U16)
    requires Valid(c) && sq in c.acks && sq != c.counter
    ensures c.acks[sq] < |c.futures| < c.acks[sq] + SequenceSpace
    ensures c.acks[sq] % SequenceSpace == sq && c.futures[c.acks[sq]] == Unresolved()
  {
    assert Pending(c, sq);
    var id := c.acks[sq];
    assert (id + SequenceSpace) % SequenceSpace == sq != c.counter;
  }

  /** `close()`: mark closed and fail every registered result with
      ConnectionClosedError, emptying the table. Results no longer in the
      table are left as they are. */
  function Close(c: Conn): (r: Conn)
    requires Valid(c)
    ensures Valid(r) && r.closed && r.acks == map[]
    ensures r.counter == c.counter && |r.futures| == |c.futures|
    ensures forall sq :: sq in c.acks ==> Get(r.futures[c.acks[sq]]) == Err(ConnectionClosedError)
    ensures forall i :: 0 <= i < |c.futures| && i !in c.acks.Values ==> r.futures[i] == c.futures[i]
  {
    var failed := seq(|c.futures|, i requires 0 <= i < |c.futures| =>
      if i in c.acks.Values then SetError(c.futures[i], Exception(ConnectionClosedError)).value
      else c.futures[i]);
    Conn(c.counter, map[], failed, true)
  }

  /** Closing twice is closing once. */
  lemma {:induction false} CloseIdempotent(c: Conn)
    requires Valid(c)
    ensures Close(Close(c)) == Close(c)
  {
  }

  /** `_send_message(t, payload)`. The entry is registered before the write.
      A ConnectionError from the write closes the connection, which fails
      the new result too. Writing to a socket that is already closed raises
      an OSError that is not a ConnectionError, so nothing is closed again
      and the new entry stays in the table. */
  function SendMessage(c: Conn, t: MsgType, payload: seq<Byte>, crc: Crc16, w: SocketWrite): (r: Sent)
    requires Valid(c)
    ensures Valid(r.conn)
    ensures ParseFrame(r.frame, crc) == Some(ClientMessage(t, |c.futures| % SequenceSpace, payload))
    ensures |r.conn.futures| == |c.futures| + 1
    ensures r.outcome.Ok? <==> !c.closed && w == Delivered
    ensures r.outcome.Ok? ==> r.outcome.value == |c.futures|
    ensures r.outcome.Err? ==> r.outcome.error == if !c.closed && w == Reset then ConnectionBroken else OSError
    ensures r.conn.closed <==> c.closed || w == Reset
    ensures c.closed || w != Reset ==>
              && r.conn.acks == c.acks[|c.futures| % SequenceSpace := |c.futures|]
              && r.conn.futures == c.futures + [Unresolved()]
    ensures !c.closed && w == Reset ==> ClosedAfterSend(c, r.conn)
  {
    var registered := Register(c);
    var frame := Frame(t, c.counter, payload, crc);
    FrameRoundTrip(t, c.counter, payload, crc);
    if c.closed then Sent(registered, frame, Err(OSError))
    else match w
      case Delivered => Sent(registered, frame, Ok(|c.futures|))
      case Failed => Sent(registered, frame, Err(OSError))
      case Reset =>
        CloseAfterRegister(c);
        Sent(Close(registered), frame, Err(ConnectionBroken))
  }

  /** After a send whose write reset the connection: the table is empty, the
      new message's result and every result that was pending have failed
      with ConnectionClosedError, except the one whose entry the new message
      replaced. */
  ghost predicate ClosedAfterSend(c: Conn, r: Conn)
    requires |r.futures| > |c.futures|
  {
    && r.acks == map[]
    && Get(r.futures[|c.futures|]) == Err(ConnectionClosedError)
    && forall sq :: sq in c.acks && sq != |c.futures| % SequenceSpace ==>
         c.acks[sq] < |c.futures| && Get(r.futures[c.acks[sq]]) == Err(ConnectionClosedError)
  }

  lemma {:induction false} CloseAfterRegister(c: Conn)
    requires Valid(c)
    ensures |Close(Register(c)).futures| == |c.futures| + 1
    ensures ClosedAfterSend(c, Close(Register(c)))
  {
    var registered := Register(c);
    assert registered.acks[c.counter] == |c.futures|;
    forall sq | sq in c.acks && sq != c.counter
      ensures c.acks[sq] in registered.acks.Values
    {
      assert registered.acks[sq] == c.acks[sq];
    }
  }

  /** A body with the `pack_var(len(body), 2)` length prefix, as `send_login`
      and `_send_data` build their payloads. The prefix reads back as the
      length of what follows it. */
  function LengthPrefixed(body: seq<Byte>): (r: Result<seq<Byte>>)
    ensures r.Ok? <==> |body| < LongFlag(2)
    ensures r.Err? ==> r.error == ValueError
    ensures r.Ok? ==> |r.value| > |body|
    ensures r.Ok? ==> ReadVarWithBuf(r.value, 2) == Ok(VarRead(|body|, r.value[..|r.value| - |body|], body))
  {
    var prefix :- PackVar(|body|, 2);
    PackVarRoundTrip(|body|, 2, body);
    assert (prefix + body)[..|prefix|] == prefix;
    Ok(prefix + body)
  }

  /** The login payload (lines 57-59): subtype 1, protocol version 64, and
      the device id as a NUL-terminated string, behind the length prefix. */
  function LoginPayload(id: seq<Byte>): (r: Result<seq<Byte>>)
    ensures r.Ok? <==> |id| + 3 < LongFlag(2)
    ensures r.Ok? ==> var d := ReadVarWithBuf(r.value, 2);
                      && d.Ok? && d.value.value == |d.value.rest|
                      && |d.value.rest| > 2 && d.value.rest[..2] == [1, 64]
                      && (0 !in id ==> ReadCString(d.value.rest[2..]) == Ok(Taken(id, [])))
  {
    var body := [1, 64] + id + [0];
    assert body[2..] == id + [0] + [];
    if 0 in id then LengthPrefixed(body)
    else
      CStringExact(id, []);
      LengthPrefixed(body)
  }

  /** The data payload of `_send_data` (lines 90-92): the timestamp as an
      unsigned 32-bit integer, subtype 1, then the data, behind the length
      prefix. A timestamp outside 32 bits raises struct.error. */
  function DataPayload(ts: int, inner: seq<Byte>): (r: Result<seq<Byte>>)
    ensures r.Ok? <==> 0 <= ts < Pow256(4) && |inner| + 5 < LongFlag(2)
    ensures !(0 <= ts < Pow256(4)) ==> r == Err(StructError)
    ensures r.Ok? ==> var d := ReadVarWithBuf(r.value, 2);
                      && d.Ok? && d.value.value == |d.value.rest|
                      && ReadUInt(d.value.rest, 4) == Ok((ts, [1] + inner))
  {
    var stamp :- PackUInt(4, ts);
    ReadUIntPacked(4, ts, [1] + inner);
    assert stamp + [1] + inner == ToBigEndian(ts, 4) + ([1] + inner);
    LengthPrefixed(stamp + [1] + inner)
  }

  /** The integers `send_position` packs with `!BIIHHHBH` after subtype 1. */
  datatype PositionFields = PositionFields(lat: int, lon: int, speed: int, course: int, height: int, stats: int, hdop: int)

  /** The `int()` conversions of lines 81-83: micro-degrees, and whole
      units of speed, course, altitude and HDOP, truncated toward zero. */
  function FieldsOf(f: Fix): PositionFields {
    PositionFields(Trunc(f.lat * 1000000.0), Trunc(f.lon * 1000000.0), Trunc(f.speed),
                   Trunc(f.track), Trunc(f.alt), f.stats, Trunc(f.hdop))
  }

  /** Whether every field fits its unsigned struct code. */
  predicate FieldsFit(p: PositionFields) {
    && 0 <= p.lat < Pow256(4) && 0 <= p.lon < Pow256(4)
    && 0 <= p.speed < Pow256(2) && 0 <= p.course < Pow256(2) && 0 <= p.height < Pow256(2)
    && 0 <= p.stats < Pow256(1) && 0 <= p.hdop < Pow256(2)
  }

  /** The receiving side of the 18-byte position record. */
  function DecodePosition(b: seq<Byte>): PositionFields
    requires |b| == 18
  {
    PositionFields(FromBigEndian(b[1..5]), FromBigEndian(b[5..9]), FromBigEndian(b[9..11]),
                   FromBigEndian(b[11..13]), FromBigEndian(b[13..15]), b[15], FromBigEndian(b[16..18]))
  }

  /** `struct.pack('!BIIHHHBH', 1, ...)` of lines 79-84. */
  function PositionData(f: Fix): (r: Result<seq<Byte>>)
    ensures r.Ok? <==> FieldsFit(FieldsOf(f))
    ensures r.Err? ==> r.error == StructError
    ensures r.Ok? ==> |r.value| == 18 && r.value[0] == 1 && DecodePosition(r.value) == FieldsOf(f)
  {
    var p := FieldsOf(f);
    var sub := [1];
    var lat :- PackUInt(4, p.lat);
    var lon :- PackUInt(4, p.lon);
    var speed :- PackUInt(2, p.speed);
    var course :- PackUInt(2, p.course);
    var height :- PackUInt(2, p.height);
    var stats :- PackUInt(1, p.stats);
    var hdop :- PackUInt(2, p.hdop);
    var b := sub + lat + lon + speed + course + height + stats + hdop;
    PositionSlices(sub, lat, lon, speed, course, height, stats, hdop);
    Ok(b)
  }

  lemma {:induction false} PositionSlices(sub: seq<Byte>, lat: seq<Byte>, lon: seq<Byte>, speed: seq<Byte>, course: seq<Byte>,
                       height: seq<Byte>, stats: seq<Byte>, hdop: seq<Byte>)
    requires |sub| == 1 && |lat| == 4 && |lon| == 4 && |speed| == 2 && |course| == 2
    requires |height| == 2 && |stats| == 1 && |hdop| == 2
    ensures var b := sub + lat + lon + speed + course + height + stats + hdop;
            && |b| == 18 && b[0] == sub[0] && b[1..5] == lat && b[5..9] == lon && b[9..11] == speed
            && b[11..13] == course && b[13..15] == height && b[15] == stats[0] && b[16..18] == hdop
  {
  }

  /** The fields are unsigned, so a fix at least one millionth of a degree
      south of the equator or west of Greenwich cannot be packed; a smaller
      negative coordinate truncates to 0 and packs. */
  lemma {:induction false} NegativeCoordinateRejected(f: Fix)
    requires f.lat <= -0.000001 || f.lon <= -0.000001
    ensures PositionData(f) == Err(StructError)
  {
  }

  /** The picture data of lines 62-72: subtype 3, index 0, the picture's
      length as a two-byte varint, index 0 again, a NUL-terminated token and
      the picture. `token` is the hex of a fresh uuid4. */
  function PictureData(data: seq<Byte>, token: seq<Byte>): (r: Result<seq<Byte>>)
    ensures r.Ok? <==> |data| < LongFlag(2)
    ensures r.Err? ==> r.error == ValueError
    ensures r.Ok? ==> |r.value| > 2 && r.value[..2] == [3, 0]
    ensures r.Ok? ==> var d := ReadVarWithBuf(r.value[2..], 2);
                      && d.Ok? && d.value.value == |data|
                      && d.value.rest == [0] + token + [0] + data
  {
    var size :- PackVar(|data|, 2);
    PackVarOneByte(3);
    PackVarOneByte(0);
    var index := PackVar(0, 1).value;
    var tail := index + token + [0] + data;
    PackVarRoundTrip(|data|, 2, tail);
    var b := PackVar(3, 1).value + index + size + tail;
    assert b == [3, 0] + (size + tail);
    Ok(b)
  }

  /** `send_login(id)`: build the payload, then send a type-0 message. */
  function SendLogin(c: Conn, id: seq<Byte>, crc: Crc16, w: SocketWrite): (r: Result<Sent>)
    requires Valid(c)
    ensures r.Ok? <==> |id| + 3 < LongFlag(2)
    ensures r.Ok? ==> && Valid(r.value.conn)
                      && ParseFrame(r.value.frame, crc) == Some(ClientMessage(0, |c.futures| % SequenceSpace, LoginPayload(id).value))
  {
    var payload :- LoginPayload(id);
    Ok(SendMessage(c, 0, payload, crc, w))
  }

  /** `_send_data(ts, data)`: a type-1 message; a failure to build the
      payload raises before a sequence number is taken. */
  function SendData(c: Conn, ts: int, inner: seq<Byte>, crc: Crc16, w: SocketWrite): (r: Result<Sent>)
    requires Valid(c)
    ensures r.Ok? <==> DataPayload(ts, inner).Ok?
    ensures r.Err? ==> r.error == DataPayload(ts, inner).error
    ensures r.Ok? ==> && Valid(r.value.conn)
                      && ParseFrame(r.value.frame, crc) == Some(ClientMessage(1, |c.futures| % SequenceSpace, DataPayload(ts, inner).value))
  {
    var payload :- DataPayload(ts, inner);
    Ok(SendMessage(c, 1, payload, crc, w))
  }

  /** `send_position(ts, fix)` */
  function SendPosition(c: Conn, ts: int, f: Fix, crc: Crc16, w: SocketWrite): (r: Result<Sent>)
    requires Valid(c)
    ensures !FieldsFit(FieldsOf(f)) ==> r == Err(StructError)
    ensures !(0 <= ts < Pow256(4)) ==> r == Err(StructError)
    ensures r.Ok? <==> FieldsFit(FieldsOf(f)) && 0 <= ts < Pow256(4)
    ensures r.Ok? ==> Valid(r.value.conn) && |r.value.conn.futures| == |c.futures| + 1
  {
    var inner :- PositionData(f);
    PositionRecordFits();
    SendData(c, ts, inner, crc, w)
  }

  /** The position record and its five-byte prefix fit the short form of a
      two-byte varint length. */
  lemma {:induction false} PositionRecordFits()
    ensures 18 + 5 < LongFlag(2)
  {
    HalfRange(2);
    Pow2Mono(15, 31);
  }

  /** `send_picture(ts, data)` with the fresh token as a parameter. */
  function SendPicture(c: Conn, ts: int, data: seq<Byte>, token: seq<Byte>, crc: Crc16, w: SocketWrite): (r: Result<Sent>)
    requires Valid(c)
    ensures |data| >= LongFlag(2) ==> r == Err(ValueError)
    ensures r.Ok? ==> Valid(r.value.conn) && |r.value.conn.futures| == |c.futures| + 1
  {
    var inner :- PictureData(data, token);
    SendData(c, ts, inner, crc, w)
  }

  /** `send_keep_alive()`: a bare five-byte frame without payload or CRC. */
  function SendKeepAlive(c: Conn, crc: Crc16, w: SocketWrite): (r: Sent)
    requires Valid(c)
    ensures Valid(r.conn)
    ensures |r.frame| == 5 && r.frame[2] == KeepAlive
    ensures r.frame[3..] == ToBigEndian(|c.futures| % SequenceSpace, 2)
  {
    FrameLayout(KeepAlive, c.counter, [], crc);
    SendMessage(c, KeepAlive, [], crc, w)
  }

  // ---------------------------------------------------------------------
  // Receiving

  /** A handled server frame: the connection after it, and the rest of the
      stream. */
  datatype Step = Step(conn: Conn, rest: seq<Byte>)

  /** `r` came from `c` by resolving only results `c` had pending: no send
      happened, the table only lost entries, and every result outside the
      table is as it was. */
  ghost predicate Settled(c: Conn, r: Conn) {
    && |r.futures| == |c.futures|
    && (forall sq :: sq in r.acks ==> sq in c.acks && r.acks[sq] == c.acks[sq])
    && (forall i :: 0 <= i < |c.futures| && i !in c.acks.Values ==> r.futures[i] == c.futures[i])
  }

  lemma {:induction false} SettledTransitive(a: Conn, b: Conn, c: Conn)
    requires Settled(a, b) && Settled(b, c)
    ensures Settled(a, c)
  {
    forall i | 0 <= i < |a.futures| && i !in a.acks.Values
      ensures i !in b.acks.Values
    {
      forall sq | sq in b.acks
        ensures b.acks[sq] != i
      {
        assert a.acks[sq] in a.acks.Values;
      }
    }
  }

  /** The sequence number an ack refers to. */
  function AckedSeq(s: seq<Byte>): U16
    requires |s| >= 2
  {
    assert Pow256(2) == SequenceSpace;
    FromBigEndian(s[..2])
  }

  /** What `get` on an acknowledged result gives for an ack code. */
  function AckOutcome(code: int): Result<bool> {
    if code == 0 then Ok(true) else Err(AckRejected(code))
  }

  /** `_handle_ack(code)`: read the sequence number, pop its entry, and
      resolve it: True for code 0, otherwise an error carrying the code. An
      ack for no pending entry is ignored. */
  function HandleAck(c: Conn, code: int, s: seq<Byte>): (r: Result<Step>)
    requires Valid(c) && 0 <= code <= 4
    ensures |s| == 0 ==> r == Err(ConnectionClosedError)
    ensures |s| == 1 ==> r == Err(StructError)
    ensures r.Ok? <==> |s| >= 2
    ensures r.Ok? ==> && Valid(r.value.conn) && r.value.rest == s[2..]
                      && r.value.conn.closed == c.closed && Settled(c, r.value.conn)
    ensures r.Ok? && AckedSeq(s) !in c.acks ==> r.value.conn == c
    ensures r.Ok? && AckedSeq(s) in c.acks ==>
              var id := c.acks[AckedSeq(s)];
              && r.value.conn.acks == c.acks - {AckedSeq(s)}
              && Get(r.value.conn.futures[id]) == AckOutcome(code)
              && forall i :: 0 <= i < |c.futures| && i != id ==> r.value.conn.futures[i] == c.futures[i]
  {
    var t :- Read(s, 2);
    if |t.bytes| != 2 then Err(StructError)
    else
      assert t.bytes == s[..2];
      var sq := AckedSeq(s);
      if sq !in c.acks then Ok(Step(c, t.rest))
      else
        var id := c.acks[sq];
        var resolved := if code == 0 then SetResult(c.futures[id], true)
                        else SetError(c.futures[id], Exception(AckRejected(code))).value;
        assert id in c.acks.Values;
        Ok(Step(Conn(c.counter, c.acks - {sq}, c.futures[id := resolved], c.closed), t.rest))
  }

  /** The end of `_handle_command`: a line of text, then the CRC-16 of
      everything read so far, which must match. */
  function CommandTail(covered: seq<Byte>, s: seq<Byte>, crc: Crc16): (r: Result<seq<Byte>>)
    ensures r.Ok? ==> |r.value| + 2 <= |s|
  {
    var line := ReadLine(s);
    var trailer :- ReadUInt(line.rest, 2);
    if trailer.0 != crc(covered + line.bytes) then Err(ValueError) else Ok(trailer.1)
  }

  /** `_handle_command(header)`: the size varint (whose value is not used),
      a four-byte timestamp, the command type varint, which must be 0, a
      line of text, and a CRC-16 over everything read from the header on,
      which must match. Nothing changes in the connection. */
  function HandleCommand(header: seq<Byte>, s: seq<Byte>, crc: Crc16): (r: Result<seq<Byte>>)
    ensures r.Ok? ==> |r.value| < |s|
  {
    var size :- ReadVarWithBuf(s, 2);
    var stamp :- Read(size.rest, 4);
    var stampValue :- UnpackUInt(4, stamp.bytes);
    var kind :- ReadVarWithBuf(stamp.rest, 1);
    if kind.value != 0 then Err(AssertionError)
    else CommandTail(header + size.buf + stamp.bytes + kind.buf, kind.rest, crc)
  }

  /** A line followed by a CRC is accepted exactly when the CRC is that of
      the bytes read before it and the line. */
  lemma {:induction false} CommandTailDecides(covered: seq<Byte>, text: seq<Byte>, trailer: U16, rest: seq<Byte>, crc: Crc16)
    requires 10 !in text
    ensures CommandTail(covered, text + [10] + ToBigEndian(trailer, 2) + rest, crc)
              == if trailer == crc(covered + (text + [10])) then Ok(rest) else Err(ValueError)
  {
    var tail := ToBigEndian(trailer, 2) + rest;
    assert text + [10] + ToBigEndian(trailer, 2) + rest == text + [10] + tail;
    ReadLineExact(text, tail);
    ReadUIntPacked(2, trailer, rest);
  }

  /** A well-formed command is accepted exactly when its CRC is the CRC of
      the header and the command bytes, and then the stream continues right
      after it. */
  lemma {:induction false} CommandCrcDecides(header: seq<Byte>, size: nat, stamp: seq<Byte>, text: seq<Byte>,
                          trailer: U16, rest: seq<Byte>, crc: Crc16)
    requires size < LongFlag(2) && |stamp| == 4 && 10 !in text
    ensures PackVar(size, 2).Ok?
    ensures var covered := PackVar(size, 2).value + stamp + [0] + (text + [10]);
            HandleCommand(header, covered + (ToBigEndian(trailer, 2) + rest), crc)
              == if trailer == crc(header + covered) then Ok(rest) else Err(ValueError)
  {
    var sizeBuf := PackVar(size, 2).value;
    var line := text + [10];
    var tail := ToBigEndian(trailer, 2) + rest;
    var prefix := sizeBuf + stamp + [0];
    Associative(line, ToBigEndian(trailer, 2), rest);
    Associative(prefix, line, tail);
    Associative3(sizeBuf, stamp, [0], line + tail);
    PackVarOneByte(0);
    PackVarRoundTrip(0, 1, line + tail);
    CommandHead(header, size, stamp, [0] + (line + tail), crc);
    Associative3(header, sizeBuf, stamp, [0]);
    CommandTailDecides(header + prefix, text, trailer, rest, crc);
    Associative(header, prefix, line);
  }

  lemma {:induction false} Associative(a: seq<Byte>, b: seq<Byte>, c: seq<Byte>)
    ensures a + b + c == a + (b + c)
  {
  }

  lemma {:induction false} Associative3(a: seq<Byte>, b: seq<Byte>, c: seq<Byte>, d: seq<Byte>)
    ensures a + b + c + d == a + (b + (c + d))
    ensures a + b + c + d == a + (b + c + d)
  {
  }

  /** The start of a command with type 0, in whatever form the type varint
      takes: after the size, the timestamp and the type, the tail is read
      with the CRC covering all of them. */
  lemma {:induction false} CommandHead(header: seq<Byte>, size: nat, stamp: seq<Byte>, afterStamp: seq<Byte>, crc: Crc16)
    requires size < LongFlag(2) && |stamp| == 4
    requires ReadVarWithBuf(afterStamp, 1).Ok? && ReadVarWithBuf(afterStamp, 1).value.value == 0
    ensures PackVar(size, 2).Ok?
    ensures var sizeBuf := PackVar(size, 2).value;
            var kind := ReadVarWithBuf(afterStamp, 1).value;
            HandleCommand(header, sizeBuf + (stamp + afterStamp), crc)
              == CommandTail(header + sizeBuf + stamp + kind.buf, kind.rest, crc)
  {
    PackVarRoundTrip(size, 2, stamp + afterStamp);
    assert (stamp + afterStamp)[..4] == stamp && (stamp + afterStamp)[4..] == afterStamp;
  }

  /** A command whose type is not 0, in whatever form the type varint
      takes, fails the assertion, whatever follows. */
  lemma {:induction false} CommandTypeMustBeZero(header: seq<Byte>, size: nat, stamp: seq<Byte>, afterStamp: seq<Byte>,
                              crc: Crc16)
    requires size < LongFlag(2) && |stamp| == 4
    requires ReadVarWithBuf(afterStamp, 1).Ok? && ReadVarWithBuf(afterStamp, 1).value.value != 0
    ensures PackVar(size, 2).Ok?
    ensures HandleCommand(header, PackVar(size, 2).value + stamp + afterStamp, crc) == Err(AssertionError)
  {
    var sizeBuf := PackVar(size, 2).value;
    assert sizeBuf + stamp + afterStamp == sizeBuf + (stamp + afterStamp);
    PackVarRoundTrip(size, 2, stamp + afterStamp);
    assert (stamp + afterStamp)[..4] == stamp && (stamp + afterStamp)[4..] == afterStamp;
  }

  /** The two-byte long form `80 00` is a type 0 too, so a command may
      carry its type in either form. */
  lemma {:induction false} LongFormZeroType(rest: seq<Byte>)
    ensures ReadVarWithBuf([128, 0] + rest, 1) == Ok(VarRead(0, [128, 0], rest))
  {
    HalfRange(2);
    assert FromBigEndian([128, 0]) == LongFlag(1) by {
      assert [128, 0][..1] == [128];
      assert FromBigEndian([128]) == 128 by { assert [128][..0] == []; }
    }
    ReadLongForm(0, 1, [128, 0], rest);
  }

  /** The dispatch of `_handle_message` on the header's code: 255 is a
      command, 0 to 4 an ack, anything else a ValueError. */
  function Dispatch(c: Conn, header: seq<Byte>, s: seq<Byte>, crc: Crc16): (r: Result<Step>)
    requires Valid(c) && |header| == 3
    ensures 4 < header[2] < 255 ==> r == Err(ValueError)
    ensures r.Ok? ==> && Valid(r.value.conn) && r.value.conn.closed == c.closed
                      && Settled(c, r.value.conn) && |r.value.rest| < |s|
    ensures r.Ok? && header[2] == 255 ==> r.value.conn == c
  {
    var code := header[2];
    if code == 255 then
      var rest :- HandleCommand(header, s, crc);
      Ok(Step(c, rest))
    else if code <= 4 then HandleAck(c, code, s)
    else Err(ValueError)
  }

  /** `_handle_message()`: read the three-byte header `!HB`, check the
      server marker, and dispatch on the code. */
  function HandleMessage(c: Conn, s: seq<Byte>, crc: Crc16): (r: Result<Step>)
    requires Valid(c)
    ensures s == [] ==> r == Err(ConnectionClosedError)
    ensures 0 < |s| < 3 ==> r == Err(StructError)
    ensures |s| >= 3 && FromBigEndian(s[..2]) != ServerHead ==> r == Err(AssertionError)
    ensures |s| >= 3 && FromBigEndian(s[..2]) == ServerHead && 4 < s[2] < 255 ==> r == Err(ValueError)
    ensures r.Ok? ==> && Valid(r.value.conn) && r.value.conn.closed == c.closed
                      && Settled(c, r.value.conn) && |r.value.rest| < |s|
    ensures r.Ok? && s[2] == 255 ==> r.value.conn == c
  {
    var head :- Read(s, 3);
    if |head.bytes| != 3 then Err(StructError)
    else
      assert head.bytes == s[..3] && head.bytes[..2] == s[..2];
      if FromBigEndian(head.bytes[..2]) != ServerHead then Err(AssertionError)
      else Dispatch(c, head.bytes, head.rest, crc)
  }

  /** `_listen()`: handle frames while the connection is open; the end of
      the stream or any failure closes it. A connection closed meanwhile
      stops the loop at its next turn. */
  function Listen(c: Conn, s: seq<Byte>, crc: Crc16): (r: Conn)
    requires Valid(c)
    ensures Valid(r) && r.closed
    ensures c.closed ==> r == c
    ensures !c.closed ==> r.acks == map[]
    ensures Settled(c, r)
    decreases |s|
  {
    if c.closed then c
    else match HandleMessage(c, s, crc)
      case Ok(step) =>
        var r := Listen(step.conn, step.rest, crc);
        SettledTransitive(c, step.conn, r);
        r
      case Err(_) => Close(c)
  }

  /** The end of the stream closes an open connection, failing every
      pending result. */
  lemma {:induction false} EndOfStreamCloses(c: Conn, crc: Crc16)
    requires Valid(c) && !c.closed
    ensures Listen(c, [], crc) == Close(c)
  {
    assert HandleMessage(c, [], crc) == Err(ConnectionClosedError);
  }

  /** An ack frame `40 40 code seq`. */
  function AckFrame(code: Byte, sq: U16): seq<Byte> {
    ToBigEndian(ServerHead, 2) + [code] + ToBigEndian(sq, 2)
  }

  /** An ack frame is handed to `_handle_ack` with its sequence number. */
  lemma {:induction false} AckFrameHandled(c: Conn, code: Byte, sq: U16, rest: seq<Byte>, crc: Crc16)
    requires Valid(c) && code <= 4
    ensures HandleMessage(c, AckFrame(code, sq) + rest, crc) == HandleAck(c, code, ToBigEndian(sq, 2) + rest)
  {
    var s := AckFrame(code, sq) + rest;
    var m := ToBigEndian(ServerHead, 2);
    var tail := ToBigEndian(sq, 2) + rest;
    assert s == m + [code] + tail;
    assert s[..3] == m + [code] && s[3..] == tail;
    assert s[..2] == m;
    HeaderDispatched(c, s, crc);
  }

  /** The ack handler reads back the sequence number the frame carries. */
  lemma {:induction false} AckedSeqOf(sq: U16, rest: seq<Byte>)
    ensures AckedSeq(ToBigEndian(sq, 2) + rest) == sq
  {
    var tail := ToBigEndian(sq, 2) + rest;
    assert tail[..2] == ToBigEndian(sq, 2);
  }

  /** A frame that starts with the server marker is dispatched on its
      code, with the rest of the stream after the header. */
  lemma {:induction false} HeaderDispatched(c: Conn, s: seq<Byte>, crc: Crc16)
    requires Valid(c) && |s| >= 3 && FromBigEndian(s[..2]) == ServerHead
    ensures HandleMessage(c, s, crc) == Dispatch(c, s[..3], s[3..], crc)
  {
    assert s[..3][..2] == s[..2];
  }

  /** An ack for a pending sequence number resolves exactly that entry's
      result with the code's outcome and removes the entry. */
  lemma {:induction false} AckResolves(c: Conn, code: Byte, sq: U16, rest: seq<Byte>, crc: Crc16)
    requires Valid(c) && code <= 4 && sq in c.acks
    ensures var h := HandleMessage(c, AckFrame(code, sq) + rest, crc);
            && h.Ok? && h.value.rest == rest && h.value.conn.closed == c.closed
            && h.value.conn.acks == c.acks - {sq}
            && Get(h.value.conn.futures[c.acks[sq]]) == AckOutcome(code)
  {
    AckFrameHandled(c, code, sq, rest, crc);
    AckedSeqOf(sq, rest);
    var tail := ToBigEndian(sq, 2) + rest;
    assert tail[2..] == rest;
    var h := HandleAck(c, code, tail);
    assert h.Ok? && AckedSeq(tail) in c.acks;
  }

  /** The bytes of a run of ack frames. */
  function AckStream(acks: seq<(Byte, U16)>): seq<Byte> {
    if |acks| == 0 then [] else AckFrame(acks[0].0, acks[0].1) + AckStream(acks[1..])
  }

  /** Ack correlation: however the server orders its acks for pending
      messages, each one resolves the result of the message that carried
      its sequence number, and the results stay resolved when the stream
      ends and the connection closes. */
  lemma {:induction false} AcksRouted(c: Conn, acks: seq<(Byte, U16)>, crc: Crc16)
    requires Valid(c) && !c.closed
    requires forall k :: 0 <= k < |acks| ==> acks[k].0 <= 4 && acks[k].1 in c.acks
    requires forall k, l :: 0 <= k < l < |acks| ==> acks[k].1 != acks[l].1
    ensures forall k :: 0 <= k < |acks| ==>
              Get(Listen(c, AckStream(acks), crc).futures[c.acks[acks[k].1]]) == AckOutcome(acks[k].0)
  {
    assert Routable(c.acks, acks);
    forall k | 0 <= k < |acks|
      ensures Get(Listen(c, AckStream(acks), crc).futures[c.acks[acks[k].1]]) == AckOutcome(acks[k].0)
    {
      AckRouted(c, acks, crc, k);
    }
  }

  /** A run of acks with known codes for distinct pending numbers. */
  ghost predicate Routable(pending: map<U16, nat>, acks: seq<(Byte, U16)>) {
    && (forall k :: 0 <= k < |acks| ==> acks[k].0 <= 4 && acks[k].1 in pending)
    && (forall k, l :: 0 <= k < l < |acks| ==> acks[k].1 != acks[l].1)
  }

  /** The k-th ack of the run reaches its result. */
  lemma {:induction false} AckRouted(c: Conn, acks: seq<(Byte, U16)>, crc: Crc16, k: nat)
    requires Valid(c) && !c.closed
    requires Routable(c.acks, acks)
    requires k < |acks|
    ensures Get(Listen(c, AckStream(acks), crc).futures[c.acks[acks[k].1]]) == AckOutcome(acks[k].0)
    decreases k, 1
  {
    var next := ListenFirstAck(c, acks, crc);
    if k > 0 {
      LaterAckRouted(c, next, acks, crc, k);
    }
  }

  /** A later ack of the run reaches its result from where the first ack
      leaves the connection. */
  lemma {:induction false} LaterAckRouted(c: Conn, next: Conn, acks: seq<(Byte, U16)>, crc: Crc16, k: nat)
    requires Valid(c) && !c.closed
    requires Routable(c.acks, acks)
    requires 0 < k < |acks|
    requires Valid(next) && !next.closed && next.acks == c.acks - {acks[0].1}
    requires forall sq :: sq in next.acks ==> next.acks[sq] == c.acks[sq]
    requires Listen(c, AckStream(acks), crc) == Listen(next, AckStream(acks[1..]), crc)
    ensures Get(Listen(c, AckStream(acks), crc).futures[c.acks[acks[k].1]]) == AckOutcome(acks[k].0)
    decreases k, 0
  {
    var tail := acks[1..];
    TailRoutable(c, next, acks);
    AckRouted(next, tail, crc, k - 1);
    assert acks[k] == tail[k - 1];
    assert acks[k].1 in next.acks && next.acks[acks[k].1] == c.acks[acks[k].1];
    TailOutcome(c, next, acks, crc, k);
  }

  /** The outcome the rest of the run gives the (k-1)-th ack of the tail is
      the outcome of the k-th ack of the whole run. */
  lemma {:induction false} TailOutcome(c: Conn, next: Conn, acks: seq<(Byte, U16)>, crc: Crc16, k: nat)
    requires Valid(c) && Valid(next) && 0 < k < |acks|
    requires acks[k].1 in c.acks && acks[k].1 in next.acks && next.acks[acks[k].1] == c.acks[acks[k].1]
    requires acks[1..][k - 1] == acks[k]
    requires Listen(c, AckStream(acks), crc) == Listen(next, AckStream(acks[1..]), crc)
    requires Get(Listen(next, AckStream(acks[1..]), crc).futures[next.acks[acks[1..][k - 1].1]]) == AckOutcome(acks[1..][k - 1].0)
    ensures Get(Listen(c, AckStream(acks), crc).futures[c.acks[acks[k].1]]) == AckOutcome(acks[k].0)
  {
  }

  /** The first ack of a run, handled: listening goes on with the rest of
      the run from the connection it leaves. */
  lemma {:induction false} ListenFirstAck(c: Conn, acks: seq<(Byte, U16)>, crc: Crc16) returns (next: Conn)
    requires Valid(c) && !c.closed && |acks| > 0 && acks[0].0 <= 4 && acks[0].1 in c.acks
    ensures Valid(next) && !next.closed && next.acks == c.acks - {acks[0].1}
    ensures Listen(c, AckStream(acks), crc) == Listen(next, AckStream(acks[1..]), crc)
    ensures Get(Listen(c, AckStream(acks), crc).futures[c.acks[acks[0].1]]) == AckOutcome(acks[0].0)
    ensures forall sq :: sq in next.acks ==> next.acks[sq] == c.acks[sq]
  {
    next := ListenAck(c, acks[0].0, acks[0].1, AckStream(acks[1..]), crc);
  }

  /** Once the first ack has removed its entry, the remaining acks are
      still for distinct pending entries, under the same results. */
  lemma {:induction false} TailRoutable(c: Conn, next: Conn, acks: seq<(Byte, U16)>)
    requires |acks| > 0
    requires Routable(c.acks, acks)
    requires next.acks == c.acks - {acks[0].1}
    ensures Routable(next.acks, acks[1..])
  {
    var tail := acks[1..];
    forall k | 0 <= k < |tail|
      ensures tail[k].0 <= 4 && tail[k].1 in next.acks
    {
      assert tail[k] == acks[k + 1] && acks[0].1 != acks[k + 1].1;
    }
    forall k, l | 0 <= k < l < |tail|
      ensures tail[k].1 != tail[l].1
    {
      assert tail[k] == acks[k + 1] && tail[l] == acks[l + 1];
    }
  }

  /** Listening to an ack for a pending entry: the entry is resolved and
      removed, and listening goes on from there. */
  lemma {:induction false} ListenAck(c: Conn, code: Byte, sq: U16, rest: seq<Byte>, crc: Crc16) returns (next: Conn)
    requires Valid(c) && !c.closed && code <= 4 && sq in c.acks
    ensures Valid(next) && !next.closed && next.acks == c.acks - {sq}
    ensures Listen(c, AckFrame(code, sq) + rest, crc) == Listen(next, rest, crc)
    ensures Get(Listen(next, rest, crc).futures[c.acks[sq]]) == AckOutcome(code)
    ensures forall sq' :: sq' in next.acks ==> next.acks[sq'] == c.acks[sq']
  {
    next := AckStep(c, code, sq, rest, crc);
    ListenStep(c, AckFrame(code, sq) + rest, crc, Step(next, rest));
    var id := c.acks[sq];
    var after := Listen(next, rest, crc);
    SettledKeeps(next, after, id);
  }

  /** Listening goes on from wherever a handled frame leaves it. */
  lemma {:induction false} ListenStep(c: Conn, s: seq<Byte>, crc: Crc16, step: Step)
    requires Valid(c) && !c.closed && HandleMessage(c, s, crc) == Ok(step)
    ensures Valid(step.conn) && Listen(c, s, crc) == Listen(step.conn, step.rest, crc)
  {
  }

  /** The ack frame handled as one step, with the connection it leaves. */
  lemma {:induction false} AckStep(c: Conn, code: Byte, sq: U16, rest: seq<Byte>, crc: Crc16) returns (next: Conn)
    requires Valid(c) && !c.closed && code <= 4 && sq in c.acks
    ensures HandleMessage(c, AckFrame(code, sq) + rest, crc) == Ok(Step(next, rest))
    ensures Valid(next) && !next.closed && next.acks == c.acks - {sq}
    ensures c.acks[sq] < |next.futures| && c.acks[sq] !in next.acks.Values
    ensures Get(next.futures[c.acks[sq]]) == AckOutcome(code)
  {
    var h := HandleMessage(c, AckFrame(code, sq) + rest, crc);
    AckResolves(c, code, sq, rest, crc);
    next := h.value.conn;
    ResolvedEntryGone(c, next, sq);
  }

  /** An ack followed by the end of the stream: the acked result keeps the
      code's outcome, and every other pending result fails with
      ConnectionClosedError. */
  lemma {:induction false} AckThenEnd(c: Conn, code: Byte, sq: U16, crc: Crc16) returns (next: Conn, end: Conn)
    requires Valid(c) && !c.closed && code <= 4 && sq in c.acks
    ensures HandleMessage(c, AckFrame(code, sq), crc) == Ok(Step(next, []))
    ensures !next.closed && c.acks[sq] < |next.futures| && Get(next.futures[c.acks[sq]]) == AckOutcome(code)
    ensures Listen(next, [], crc) == end && end.closed && |end.futures| == |c.futures|
    ensures Get(end.futures[c.acks[sq]]) == AckOutcome(code)
    ensures forall other :: other in c.acks && other != sq ==>
              c.acks[other] < |end.futures| && Get(end.futures[c.acks[other]]) == Err(ConnectionClosedError)
  {
    next := AckStep(c, code, sq, [], crc);
    assert AckFrame(code, sq) + [] == AckFrame(code, sq);
    end := EndAfterAck(c, sq, next, crc);
  }

  /** The end of the stream after an ack: the other pending results fail,
      the acked one is left as the ack set it. */
  lemma {:induction false} EndAfterAck(c: Conn, sq: U16, next: Conn, crc: Crc16) returns (end: Conn)
    requires Valid(c) && sq in c.acks && Valid(next) && !next.closed && Settled(c, next)
    requires next.acks == c.acks - {sq} && c.acks[sq] !in next.acks.Values
    ensures Listen(next, [], crc) == end && end.closed && |end.futures| == |c.futures|
    ensures end.futures[c.acks[sq]] == next.futures[c.acks[sq]]
    ensures forall other :: other in c.acks && other != sq ==>
              c.acks[other] < |end.futures| && Get(end.futures[c.acks[other]]) == Err(ConnectionClosedError)
  {
    assert Pending(c, sq);
    EndOfStreamCloses(next, crc);
    end := Close(next);
    forall other | other in c.acks && other != sq
      ensures c.acks[other] < |end.futures| && Get(end.futures[c.acks[other]]) == Err(ConnectionClosedError)
    {
      assert other in next.acks && next.acks[other] == c.acks[other];
    }
  }

  /** Once an entry is removed, no other entry refers to its result: two
      pending entries never share one. */
  lemma {:induction false} ResolvedEntryGone(c: Conn, next: Conn, sq: U16)
    requires Valid(c) && sq in c.acks && Settled(c, next) && next.acks == c.acks - {sq}
    ensures c.acks[sq] < |next.futures| && c.acks[sq] !in next.acks.Values
  {
    assert Pending(c, sq);
    forall other | other in next.acks
      ensures next.acks[other] != c.acks[sq]
    {
      assert Pending(c, other);
    }
  }

  /** A result outside the table is left alone by whatever settles it. */
  lemma {:induction false} SettledKeeps(c: Conn, r: Conn, i: nat)
    requires Settled(c, r) && i < |c.futures| && i !in c.acks.Values
    ensures r.futures[i] == c.futures[i]
  {
  }

  /** A send that did not reset the connection leaves it exactly as
      registering the new entry does; the bytes written do not matter. */
  lemma {:induction false} SendRegisters(c: Conn, t: MsgType, payload: seq<Byte>, crc: Crc16, w: SocketWrite)
    requires Valid(c) && (c.closed || w != Reset)
    ensures SendMessage(c, t, payload, crc, w).conn == Register(c)
  {
  }

  /** The connection after n sends that did not reset it. */
  function SendAll(c: Conn, n: nat): (r: Conn)
    requires Valid(c)
    ensures Valid(r) && r.closed == c.closed && |r.futures| == |c.futures| + n
    decreases n
  {
    if n == 0 then c else SendAll(Register(c), n - 1)
  }

  /** While fewer than 2^16 messages have been sent, every send gets its own
      entry: the k-th message is registered under sequence number k, and
      no entry is overwritten. */
  lemma {:induction false} SendAllRegisters(c: Conn, n: nat)
    requires Valid(c) && |c.futures| + n <= SequenceSpace
    ensures var r := SendAll(c, n);
            && (forall sq :: sq in c.acks ==> sq in r.acks && r.acks[sq] == c.acks[sq])
            && (forall k: U16 :: |c.futures| <= k < |c.futures| + n ==> k in r.acks && r.acks[k] == k)
    decreases n
  {
    forall sq | sq in c.acks
      ensures sq in SendAll(c, n).acks && SendAll(c, n).acks[sq] == c.acks[sq]
    {
      SendAllKeeps(c, n, sq);
    }
    forall k: U16 | |c.futures| <= k < |c.futures| + n
      ensures k in SendAll(c, n).acks && SendAll(c, n).acks[k] == k
    {
      SendAllNumbers(c, n, k);
    }
  }

  /** An entry from before the sends survives them. */
  lemma {:induction false} SendAllKeeps(c: Conn, n: nat, sq: U16)
    requires Valid(c) && |c.futures| + n <= SequenceSpace && sq in c.acks
    ensures sq in SendAll(c, n).acks && SendAll(c, n).acks[sq] == c.acks[sq]
    decreases n
  {
    if n > 0 {
      var next := Register(c);
      SmallNumbersDiffer(c, sq);
      SendAllKeeps(next, n - 1, sq);
    }
  }

  /** Before the first wrap-around, a pending number is not the counter. */
  lemma {:induction false} SmallNumbersDiffer(c: Conn, sq: U16)
    requires Valid(c) && |c.futures| < SequenceSpace && sq in c.acks
    ensures sq != c.counter && Register(c).acks[sq] == c.acks[sq]
  {
    assert Pending(c, sq);
  }

  /** Before the first wrap-around, a send is registered under its own
      index. */
  lemma {:induction false} RegisterBeforeWrap(c: Conn)
    requires Valid(c) && |c.futures| < SequenceSpace
    ensures c.counter == |c.futures|
    ensures c.counter in Register(c).acks && Register(c).acks[c.counter] == |c.futures|
  {
  }

  /** The k-th message is registered under number k. */
  lemma {:induction false} SendAllNumbers(c: Conn, n: nat, k: U16)
    requires Valid(c) && |c.futures| + n <= SequenceSpace && |c.futures| <= k < |c.futures| + n
    ensures k in SendAll(c, n).acks && SendAll(c, n).acks[k] == k
    decreases n
  {
    var next := Register(c);
    if k == |c.futures| {
      RegisterBeforeWrap(c);
      SendAllKeeps(next, n - 1, k);
    } else {
      SendAllNumbers(next, n - 1, k);
    }
  }

  /** Ack correlation from a fresh connection: after up to 2^16 sends, acks
      arriving in any order, one per message, each resolve the result of
      the message whose number they carry. */
  lemma {:induction false} AckCorrelation(n: nat, acks: seq<(Byte, U16)>, crc: Crc16)
    requires n <= SequenceSpace
    requires forall k :: 0 <= k < |acks| ==> acks[k].0 <= 4 && acks[k].1 < n
    requires forall k, l :: 0 <= k < l < |acks| ==> acks[k].1 != acks[l].1
    ensures var sent := SendAll(Open(), n);
            forall k :: 0 <= k < |acks| ==>
              Get(Listen(sent, AckStream(acks), crc).futures[acks[k].1]) == AckOutcome(acks[k].0)
  {
    var start := Open();
    var sent := SendAll(start, n);
    SendAllRegisters(start, n);
    forall sq: U16 | sq < n
      ensures sq in sent.acks && sent.acks[sq] == sq
    {
      assert |start.futures| <= sq < |start.futures| + n;
      assert sq in SendAll(start, n).acks;
    }
    AcksRouted(sent, acks, crc);
  }

  /** An ack reaches the sender: right after a delivered send, the server's
      ack for that message's sequence number resolves that message's result
      with the code's outcome. */
  lemma {:induction false} AckReachesSender(c: Conn, t: MsgType, payload: seq<Byte>, crc: Crc16, code: Byte, rest: seq<Byte>)
    requires Valid(c) && !c.closed && code <= 4
    ensures var sent := SendMessage(c, t, payload, crc, Delivered);
            var h := HandleMessage(sent.conn, AckFrame(code, |c.futures| % SequenceSpace) + rest, crc);
            && h.Ok? && h.value.rest == rest && !h.value.conn.closed
            && Get(h.value.conn.futures[|c.futures|]) == AckOutcome(code)
  {
    var sent := SendMessage(c, t, payload, crc, Delivered);
    var sq: U16 := |c.futures| % SequenceSpace;
    AckFrameHandled(sent.conn, code, sq, rest, crc);
    AckedSeqOf(sq, rest);
    assert sent.conn.acks[sq] == |c.futures|;
  }

  /** After 2^16 further sends the sequence number comes round again: the
      new entry replaces the old one, whose result is no longer in the
      table, so neither an ack nor close() will ever resolve it. */
  lemma {:induction false} WrapOrphansPending(c: Conn, t: MsgType, payload: seq<Byte>, crc: Crc16)
    requires Valid(c) && !c.closed && c.counter in c.acks
    ensures var prior := c.acks[c.counter];
            var r := SendMessage(c, t, payload, crc, Delivered).conn;
            && prior !in r.acks.Values
            && Close(r).futures[prior] == Unresolved()
  {
    var prior := c.acks[c.counter];
    var r := SendMessage(c, t, payload, crc, Delivered).conn;
    forall sq | sq in r.acks
      ensures r.acks[sq] != prior
    {
      if sq != c.counter {
        assert r.acks[sq] == c.acks[sq];
        assert r.acks[sq] % SequenceSpace != prior % SequenceSpace;
      }
    }
  }
}
