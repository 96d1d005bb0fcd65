/** server.js: the length-prefixed framing between the highlighting server and its
    clients, and the per-connection handler that gathers one request frame into a buffer
    and answers it. A frame is a 16-bit little-endian length, counting its own two bytes,
    followed by the payload. Buffers behave as in the Node.js releases the server was
    written for: a negative size gives an empty buffer, `copy` stops at the end of the
    target, reading or writing a 16-bit value out of range throws. */
module Framing {
  import opened Wrappers

  newtype Byte = b: int | 0 <= b < 256

  /** The largest value `writeUInt16LE` accepts. */
  const MaxUInt16 := 0xFFFF

  /** `readUInt16LE` on two bytes. */
  function LE16(lo: Byte, hi: Byte): (n: nat)
    ensures n <= MaxUInt16
  {
    lo as int + 256 * hi as int
  }

  /** `encodeData(data)`: the two-byte header holding the frame's total length, then the
      data. The header cannot hold a length over 0xFFFF, and writing it throws. */
  function EncodeData(data: seq<Byte>): (r: Result<seq<Byte>, string>)
    ensures r.Success? <==> |data| + 2 <= MaxUInt16
    ensures r.Success? ==> |r.value| == |data| + 2 && LE16(r.value[0], r.value[1]) == |data| + 2 && r.value[2..] == data
  {
    var n := |data| + 2;
    if n > MaxUInt16 then Failure("value is out of bounds")
    else Success([(n % 256) as Byte, (n / 256) as Byte] + data)
  }

  /** What `decodeData` returns: the declared payload length (the header's value less the
      header itself, possibly negative) and the bytes after the header. */
  datatype DataInfo = DataInfo(length: int, data: seq<Byte>)

  /** `decodeData(data)`; reading the header of a chunk shorter than two bytes throws. */
  function DecodeData(data: seq<Byte>): (r: Result<DataInfo, string>)
    ensures r.Success? <==> |data| >= 2
    ensures r.Success? ==> r.value.length + 2 == data[0] as int + 256 * data[1] as int && r.value.data == data[2..]
    ensures r.Failure? ==> r.error == "Trying to access beyond buffer length"
  {
    if |data| < 2 then Failure("Trying to access beyond buffer length")
    else Success(DataInfo(LE16(data[0], data[1]) - 2, data[2..]))
  }

  /** Decoding an encoded payload gives its length and the payload back. */
  lemma DecodeEncode(b: seq<Byte>)
    requires |b| + 2 <= MaxUInt16
    ensures EncodeData(b).Success?
    ensures DecodeData(EncodeData(b).value) == Success(DataInfo(|b|, b))
  {
  }

  /** A chunk whose header states its own length is the encoding of its payload. */
  lemma EncodeDecode(d: seq<Byte>)
    requires |d| >= 2 && LE16(d[0], d[1]) == |d|
    ensures EncodeData(DecodeData(d).value.data) == Success(d)
  {
    var n := |d|;
    assert d[0] as int == n % 256 && d[1] as int == n / 256;
    assert d == [d[0], d[1]] + d[2..];
  }

  // ---------------------------------------------------------------------------
  // The connection handler, as a state machine

  /** What the handler passes to `client.end`: the error text or the encoded answer. */
  datatype Reply = WrongData | Response(frame: seq<Byte>)

  /** The handler's state: `dataInfo` (absent before the first chunk), the cursor `pos`,
      the payload bytes taken so far, the replies sent, and whether the handler has thrown
      (which ends the server process). */
  datatype State = State(info: Option<DataInfo>, pos: int, accepted: seq<Byte>, replies: seq<Reply>, crashed: bool)

  const Initial := State(None, 0, [], [], false)

  /** The check after each chunk: when the cursor has reached the declared length, the
      payload is handed to `handle` and the answer encoded and sent. */
  function Respond(s: State, handle: seq<Byte> -> seq<Byte>): State
    requires s.info.Some?
  {
    if s.pos == s.info.value.length then
      match EncodeData(handle(s.accepted))
      case Success(frame) => s.(replies := s.replies + [Response(frame)])
      case Failure(_) => s.(crashed := true)
    else s
  }

  /** One `data` event. The first chunk is decoded and fixes the declared length; a later
      chunk is taken while the cursor is short of it and refused with `'wrong data'`
      otherwise. The cursor advances by the whole chunk even when the buffer is full. */
  function Next(s: State, data: seq<Byte>, handle: seq<Byte> -> seq<Byte>): State {
    if s.crashed then s
    else if s.info.None? then
      match DecodeData(data)
      case Failure(_) => s.(crashed := true)
      case Success(info) => Respond(s.(info := Some(info), pos := |info.data|, accepted := info.data), handle)
    else if s.pos < s.info.value.length then
      Respond(s.(pos := s.pos + |data|, accepted := s.accepted + data), handle)
    else
      Respond(s.(replies := s.replies + [WrongData]), handle)
  }

  /** One `data` event before its length check: the chunk decoded, taken, or refused. */
  function Take(s: State, data: seq<Byte>): (t: State)
    requires !s.crashed
    ensures !t.crashed ==> t.info.Some?
    ensures t.crashed ==> s.info.None? && |data| < 2
  {
    if s.info.None? then
      match DecodeData(data)
      case Failure(_) => s.(crashed := true)
      case Success(info) => s.(info := Some(info), pos := |info.data|, accepted := info.data)
    else if s.pos < s.info.value.length then
      s.(pos := s.pos + |data|, accepted := s.accepted + data)
    else
      s.(replies := s.replies + [WrongData])
  }

  /** A `data` event is the chunk taken, then the length check. */
  lemma NextTakesThenResponds(s: State, data: seq<Byte>, handle: seq<Byte> -> seq<Byte>)
    requires !s.crashed
    ensures var t := Take(s, data); Next(s, data, handle) == if t.crashed then t else Respond(t, handle)
  {
  }

  /** The state after a series of chunks. */
  function Run(s: State, chunks: seq<seq<Byte>>, handle: seq<Byte> -> seq<Byte>): State
    decreases |chunks|
  {
    if |chunks| == 0 then s else Run(Next(s, chunks[0], handle), chunks[1..], handle)
  }

  /** The first chunk: shorter than two bytes it throws; otherwise it fixes the declared
      length, its payload is taken whole and the cursor moves past it. A declared payload
      of 0 in a two-byte chunk is answered at once. */
  lemma FirstChunk(data: seq<Byte>, handle: seq<Byte> -> seq<Byte>)
    ensures var t := Next(Initial, data, handle);
      (|data| < 2 <==> t.crashed && t.info.None?)
      && (|data| >= 2 ==> t.info == Some(DecodeData(data).value) && t.pos == |data| - 2 && t.accepted == data[2..])
      && (|data| == 2 && LE16(data[0], data[1]) == 2 && |handle([])| + 2 <= MaxUInt16 ==> t.replies == [Response(EncodeData(handle([])).value)])
  {
    if |data| == 2 {
      assert data[2..] == [];
    }
  }

  /** An answer is sent exactly when the cursor reaches the declared length (unless the
      answer is too long to encode, which throws), and it encodes what `handle` makes of
      the payload taken. */
  lemma RespondsWhenComplete(s: State, data: seq<Byte>, handle: seq<Byte> -> seq<Byte>)
    requires !s.crashed && s.info.Some?
    ensures var t := Next(s, data, handle);
      var n := t.info.value.length;
      t.info == s.info
      && (t.pos != n ==> !t.crashed && (t.replies == s.replies || t.replies == s.replies + [WrongData]))
      && (t.pos == n && |handle(t.accepted)| + 2 <= MaxUInt16 ==> !t.crashed && t.replies[|t.replies| - 1] == Response(EncodeData(handle(t.accepted)).value))
      && (t.pos == n && |handle(t.accepted)| + 2 > MaxUInt16 ==> t.crashed)
  {
  }

  /** A chunk that arrives after the answer is refused, and since the cursor still equals
      the declared length the answer is sent a second time. */
  lemma LateChunkAfterAnswer(s: State, data: seq<Byte>, handle: seq<Byte> -> seq<Byte>)
    requires !s.crashed && s.info.Some? && s.pos == s.info.value.length
    requires |handle(s.accepted)| + 2 <= MaxUInt16
    ensures Next(s, data, handle).replies == s.replies + [WrongData, Response(EncodeData(handle(s.accepted)).value)]
  {
  }

  /** Once a chunk has carried the cursor past the declared length, no later chunk is ever
      answered: each one is refused with `'wrong data'` and the cursor stays put. */
  lemma {:induction false} OvershootNeverResponds(s: State, chunks: seq<seq<Byte>>, handle: seq<Byte> -> seq<Byte>)
    requires s.info.Some? && s.pos > s.info.value.length
    ensures var t := Run(s, chunks, handle);
      t.pos == s.pos && t.crashed == s.crashed
      && |t.replies| >= |s.replies| && t.replies[..|s.replies|] == s.replies
      && forall k :: |s.replies| <= k < |t.replies| ==> t.replies[k] == WrongData
    decreases |chunks|
  {
    if |chunks| > 0 {
      var s1 := Next(s, chunks[0], handle);
      OvershootNeverResponds(s1, chunks[1..], handle);
      var t := Run(s1, chunks[1..], handle);
      assert t.replies[..|s.replies|] == t.replies[..|s1.replies|][..|s.replies|];
    }
  }

  /** A client that sends one encoded frame, whole or cut anywhere after the header, gets
      exactly one answer: the encoding of what `handle` makes of its payload. */
  lemma OneFrameExchange(b: seq<Byte>, cut: nat, handle: seq<Byte> -> seq<Byte>)
    requires |b| + 2 <= MaxUInt16 && |handle(b)| + 2 <= MaxUInt16
    requires 2 <= cut < |b| + 2
    ensures Run(Initial, [EncodeData(b).value], handle).replies == [Response(EncodeData(handle(b)).value)]
    ensures var frame := EncodeData(b).value;
      Run(Initial, [frame[..cut], frame[cut..]], handle).replies == [Response(EncodeData(handle(b)).value)]
  {
    var frame := EncodeData(b).value;
    DecodeEncode(b);
    assert Run(Initial, [frame], handle) == Run(Next(Initial, frame, handle), [], handle);
    var first := frame[..cut];
    assert DecodeData(first).value == DataInfo(|b|, b[..cut - 2]);
    var s1 := Next(Initial, first, handle);
    assert s1.pos == cut - 2 < |b| && s1.replies == [];
    var s2 := Next(s1, frame[cut..], handle);
    assert frame[cut..] == b[cut - 2..];
    assert s1.accepted + frame[cut..] == b;
    assert [first, frame[cut..]][1..] == [frame[cut..]];
    assert Run(Initial, [first, frame[cut..]], handle) == Run(s1, [frame[cut..]], handle);
    assert Run(s1, [frame[cut..]], handle) == Run(s2, [], handle);
  }

  // ---------------------------------------------------------------------------
  // The handler over its buffer

  function Min(a: int, b: int): int {
    if a < b then a else b
  }

  /** `source.copy(target, start)`: the bytes that fit from `start` on are overwritten,
      the rest of the target is left as it was. */
  method CopyInto(target: array<Byte>, start: nat, source: seq<Byte>)
    requires start <= target.Length
    modifies target
    ensures var n := Min(|source|, target.Length - start);
      target[..] == old(target[..start]) + source[..n] + old(target[start + n..])
  {
    var n := Min(|source|, target.Length - start);
    var k := 0;
    while k < n
      invariant 0 <= k <= n
      invariant target[..start] == old(target[..start])
      invariant target[start..start + k] == source[..k]
      invariant target[start + n..] == old(target[start + n..])
    {
      target[start + k] := source[k];
      assert target[start..start + k + 1] == target[start..start + k] + [source[k]];
      k := k + 1;
    }
    assert target[..] == target[..start] + target[start..start + n] + target[start + n..];
  }

  class Connection {
    var dataInfo: Option<DataInfo>
    var chunks: array<Byte>
    var pos: int
    var replies: seq<Reply>
    var crashed: bool
    /** The payload bytes taken so far; the buffer holds those that fit. */
    ghost var accepted: seq<Byte>
    /** `highlight` with the conversions around it: text in, text out. */
    const handle: seq<Byte> -> seq<Byte>

    ghost function Abstract(): State
      reads this
    {
      State(dataInfo, pos, accepted, replies, crashed)
    }

    /** The buffer has the declared size and holds the taken bytes up to the cursor, as
        far as they fit. */
    ghost predicate Valid()
      reads this, chunks
    {
      crashed
      || (dataInfo.None? && pos == 0 && accepted == [] && replies == [])
      || (dataInfo.Some?
        && chunks.Length == (if dataInfo.value.length < 0 then 0 else dataInfo.value.length)
        && pos == |accepted|
        && chunks[..Min(pos, chunks.Length)] == accepted[..Min(pos, chunks.Length)])
    }

    /** A new connection: nothing received yet. */
    constructor (handle: seq<Byte> -> seq<Byte>)
      ensures Valid() && Abstract() == Initial && this.handle == handle && fresh(chunks)
    {
      dataInfo := None;
      chunks := new Byte[0];
      pos := 0;
      replies := [];
      crashed := false;
      accepted := [];
      this.handle := handle;
    }

    /** The `data` handler. */
    method Receive(data: seq<Byte>)
      requires Valid() && !crashed
      modifies this, chunks
      ensures Valid()
      ensures Abstract() == Next(old(Abstract()), data, handle)
    {
      NextTakesThenResponds(Abstract(), data, handle);
      TakeChunk(data);
      if !crashed {
        RespondIfComplete();
      }
    }

    /** The `data` handler up to the length check: the chunk is decoded, taken into the
        buffer, or refused. */
    method TakeChunk(data: seq<Byte>)
      requires Valid() && !crashed
      modifies this, chunks
      ensures Valid() && Abstract() == Take(old(Abstract()), data)
      ensures !crashed ==> dataInfo.Some?
    {
      if dataInfo.None? {
        TakeFirst(data);
      } else if pos < dataInfo.value.length {
        TakeMore(data);
      } else {
        replies := replies + [WrongData];
      }
    }

    /** The first chunk: its header fixes the declared length and a buffer of that size,
        and its payload is copied in. */
    method TakeFirst(data: seq<Byte>)
      requires Valid() && !crashed && dataInfo.None?
      modifies this
      ensures Valid() && Abstract() == Take(old(Abstract()), data)
    {
      var decoded := DecodeData(data);
      if decoded.Failure? {
        crashed := true;
        return;
      }
      var info := decoded.value;
      var buffer := new Byte[if info.length < 0 then 0 else info.length];
      CopyInto(buffer, 0, info.data);
      assert buffer[..Min(|info.data|, buffer.Length)] == info.data[..Min(|info.data|, buffer.Length)];
      dataInfo := Some(info);
      chunks := buffer;
      pos := |info.data|;
      accepted := info.data;
    }

    /** A later chunk while the cursor is short of the declared length: what fits is
        copied in after the cursor, which moves past the whole chunk. */
    method TakeMore(data: seq<Byte>)
      requires Valid() && !crashed && dataInfo.Some? && pos < dataInfo.value.length
      modifies this, chunks
      ensures Valid() && Abstract() == Take(old(Abstract()), data)
    {
      var n := Min(|data|, chunks.Length - pos);
      CopyInto(chunks, pos, data);
      assert chunks[..pos + n] == old(chunks[..pos]) + data[..n];
      pos := pos + |data|;
      accepted := accepted + data;
      assert Min(pos, chunks.Length) == old(pos) + n;
      assert accepted[..old(pos) + n] == old(accepted) + data[..n];
    }

    /** The length check: once the cursor equals the declared length, the buffer holds
        the whole payload, and its handled and encoded form is sent. */
    method RespondIfComplete()
      requires Valid() && !crashed && dataInfo.Some?
      modifies this
      ensures Valid() && Abstract() == Respond(old(Abstract()), handle)
    {
      if pos == dataInfo.value.length {
        assert chunks[..] == accepted;
        var encoded := EncodeData(handle(chunks[..]));
        if encoded.Failure? {
          crashed := true;
        } else {
          replies := replies + [Response(encoded.value)];
        }
      }
    }
  }

  /** Serving one whole frame on a new connection sends exactly one answer: the encoded
      result of handling its payload. */
  method ServeOneFrame(b: seq<Byte>, handle: seq<Byte> -> seq<Byte>) returns (replies: seq<Reply>)
    requires |b| + 2 <= MaxUInt16 && |handle(b)| + 2 <= MaxUInt16
    ensures replies == [Response(EncodeData(handle(b)).value)]
  {
    var c := new Connection(handle);
    DecodeEncode(b);
    c.Receive(EncodeData(b).value);
    replies := c.replies;
    OneFrameExchangeWhole(b, handle);
  }

  /** The whole-frame half of `OneFrameExchange`, stated on `Next`. */
  lemma OneFrameExchangeWhole(b: seq<Byte>, handle: seq<Byte> -> seq<Byte>)
    requires |b| + 2 <= MaxUInt16 && |handle(b)| + 2 <= MaxUInt16
    ensures Next(Initial, EncodeData(b).value, handle).replies == [Response(EncodeData(handle(b)).value)]
  {
    DecodeEncode(b);
  }
}
