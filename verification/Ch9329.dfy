/** CH9329 packet building, frame extraction and the serial exchange
    (src/hid/ch9329_proto.rs, src/hid/ch9329.rs:361-420; WCH Serial Communication Protocol V1.0). */
module Ch9329 {
  import opened Common

  type Bytes = seq<Byte>

  const HEADER_0: Byte := 0x57
  const HEADER_1: Byte := 0xAB
  const MAX_DATA_LEN: nat := 64
  const MAX_PACKET_SIZE: nat := 70

  /** The top two bits of an error response are set: cmd & 0xC0 == 0xC0. */
  predicate IsErrorCmd(cmd: Byte) { cmd >= 0xC0 }

  /** expected_response_cmd: cmd | 0x80 for success, cmd | 0xC0 for an error. */
  function Expected(cmd: Byte, isError: bool): Byte {
    if isError then 0xC0 + cmd % 0x40 else if cmd < 0x80 then cmd + 0x80 else cmd
  }

  /** The arithmetic above is that of the masks, on eight-bit words. */
  lemma Masks(b: bv8)
    ensures IsErrorCmd(b as int) <==> b & 0xC0 == 0xC0
    ensures Expected(b as int, false) == (b | 0x80) as int
    ensures Expected(b as int, true) == (b | 0xC0) as int
  {
    SuccessMask(b);
    ErrorMask(b);
  }

  lemma SuccessMask(b: bv8)
    ensures Expected(b as int, false) == (b | 0x80) as int
  {
  }

  lemma ErrorMask(b: bv8)
    ensures Expected(b as int, true) == (b | 0xC0) as int
  {
  }

  datatype ErrorCode =
    Success | Timeout | InvalidHeader | InvalidCommand | ChecksumError | ParameterError | OperationFailed

  function ErrorFrom(code: Byte): ErrorCode {
    match code
    case 0x00 => Success
    case 0xE1 => Timeout
    case 0xE2 => InvalidHeader
    case 0xE3 => InvalidCommand
    case 0xE4 => ChecksumError
    case 0xE5 => ParameterError
    case _ => OperationFailed
  }

  /** The byte by which the chip reports an error. */
  function CodeOf(e: ErrorCode): Byte {
    match e
    case Success => 0x00
    case Timeout => 0xE1
    case InvalidHeader => 0xE2
    case InvalidCommand => 0xE3
    case ChecksumError => 0xE4
    case ParameterError => 0xE5
    case OperationFailed => 0xE6
  }

  /** Every reported error is read as itself, and every other byte as a failed operation. */
  lemma ErrorsAreRead(e: ErrorCode, code: Byte)
    ensures ErrorFrom(CodeOf(e)) == e
    ensures (forall f: ErrorCode :: code != CodeOf(f)) ==> ErrorFrom(code) == OperationFailed
  {
    assert code != CodeOf(Success) || code != CodeOf(Timeout);
    if forall f: ErrorCode :: code != CodeOf(f) {
      assert code != CodeOf(Success) && code != CodeOf(Timeout) && code != CodeOf(InvalidHeader);
      assert code != CodeOf(InvalidCommand) && code != CodeOf(ChecksumError) && code != CodeOf(ParameterError);
    }
  }

  datatype Response = Response(cmd: Byte, data: Bytes, isError: bool, errorCode: Option<ErrorCode>)

  /** The response a frame with this command and payload stands for. */
  function ResponseOf(cmd: Byte, data: Bytes): Response {
    var isError := IsErrorCmd(cmd);
    Response(cmd, data, isError, if isError && data != [] then Some(ErrorFrom(data[0])) else None)
  }

  /** Sum of all octets modulo 256. */
  function Checksum(s: Bytes): Byte {
    if s == [] then 0 else (Checksum(s[..|s| - 1]) + s[|s| - 1]) % 256
  }

  // ---------------------------------------------------------------- building

  /** A packet up to its checksum. */
  function Body(address: Byte, cmd: Byte, data: Bytes): Bytes
    requires |data| < 256
  {
    [HEADER_0, HEADER_1, address, cmd, |data|] + data
  }

  function Packet(address: Byte, cmd: Byte, data: Bytes): Bytes
    requires |data| < 256
  {
    Body(address, cmd, data) + [Checksum(Body(address, cmd, data))]
  }

  /** calculate_checksum: a fold with wrapping addition. */
  method CalculateChecksum(a: array<Byte>, n: nat) returns (sum: Byte)
    requires n <= a.Length
    ensures sum == Checksum(a[..n])
  {
    sum := 0;
    for i := 0 to n
      invariant sum == Checksum(a[..i])
    {
      assert a[..i + 1][..i] == a[..i];
      sum := (sum + a[i]) % 256;
    }
  }

  /** build_packet_buf fills a fixed buffer; the first `len` bytes are the packet. */
  method BuildPacketBuf(address: Byte, cmd: Byte, data: Bytes) returns (buf: array<Byte>, len: nat)
    requires |data| <= MAX_DATA_LEN
    ensures fresh(buf) && buf.Length == MAX_PACKET_SIZE && len == 6 + |data|
    ensures buf[..len] == Packet(address, cmd, data)
    ensures forall i | len <= i < buf.Length :: buf[i] == 0
  {
    buf := new Byte[MAX_PACKET_SIZE](_ => 0);
    len := 6 + |data|;
    buf[0], buf[1], buf[2], buf[3], buf[4] := HEADER_0, HEADER_1, address, cmd, |data|;
    for i := 0 to |data|
      invariant buf[..5 + i] == [HEADER_0, HEADER_1, address, cmd, |data|] + data[..i]
      invariant forall j | 5 + i <= j < buf.Length :: buf[j] == 0
    {
      buf[5 + i] := data[i];
      assert buf[..5 + (i + 1)] == buf[..5 + i] + [data[i]];
    }
    assert buf[..5 + |data|] == Body(address, cmd, data);
    var sum := CalculateChecksum(buf, 5 + |data|);
    buf[5 + |data|] := sum;
    assert buf[..len] == buf[..5 + |data|] + [sum];
  }

  // ---------------------------------------------------------------- parsing

  function Parse(bytes: Bytes): Option<Response> {
    if |bytes| < 6 || bytes[0] != HEADER_0 || bytes[1] != HEADER_1 then None
    else
      var len: nat := bytes[4];
      if |bytes| < 5 + len + 1 then None
      else if bytes[5 + len] != Checksum(bytes[..5 + len]) then None
      else Some(ResponseOf(bytes[3], bytes[5..5 + len]))
  }

  function FrameLen(len: Byte): nat {
    var n: nat := len;
    6 + n
  }

  datatype Found = Found(response: Response, consumed: nat)

  /** The first well-formed frame at or after `offset`; scanning stops at a header whose frame is incomplete. */
  function ExtractFrom(b: Bytes, offset: nat): (r: Option<Found>)
    ensures r.Some? ==> offset + 6 <= r.value.consumed <= |b|
    decreases |b| - offset
  {
    if offset + 6 > |b| then None
    else if b[offset] != HEADER_0 || b[offset + 1] != HEADER_1 then ExtractFrom(b, offset + 1)
    else
      var frameLen := FrameLen(b[offset + 4]);
      if offset + frameLen > |b| then None
      else
        var p := Parse(b[offset..offset + frameLen]);
        if p.Some? then Some(Found(p.value, offset + frameLen)) else ExtractFrom(b, offset + 1)
  }

  function Extract(b: Bytes): Option<Found> {
    ExtractFrom(b, 0)
  }

  /** try_extract_response: the scanning loop. */
  method TryExtractResponse(b: Bytes) returns (r: Option<Found>)
    ensures r == Extract(b)
  {
    var offset := 0;
    while offset + 6 <= |b|
      invariant ExtractFrom(b, offset) == Extract(b)
      decreases |b| - offset
    {
      if b[offset] != HEADER_0 || b[offset + 1] != HEADER_1 {
        offset := offset + 1;
        continue;
      }
      var frameLen := FrameLen(b[offset + 4]);
      if offset + frameLen > |b| {
        return None;
      }
      var p := Parse(b[offset..offset + frameLen]);
      if p.Some? {
        return Some(Found(p.value, offset + frameLen));
      }
      offset := offset + 1;
    }
    return None;
  }

  /** Stability: a frame found in a buffer is found identically when more bytes arrive. */
  lemma {:induction false} ExtractStable(b: Bytes, more: Bytes, offset: nat)
    requires ExtractFrom(b, offset).Some?
    ensures ExtractFrom(b + more, offset) == ExtractFrom(b, offset)
    decreases |b| - offset
  {
    var all := b + more;
    assert all[offset] == b[offset] && all[offset + 1] == b[offset + 1] && all[offset + 4] == b[offset + 4];
    if b[offset] != HEADER_0 || b[offset + 1] != HEADER_1 {
      ExtractStable(b, more, offset + 1);
    } else {
      var frameLen := FrameLen(b[offset + 4]);
      assert all[offset..offset + frameLen] == b[offset..offset + frameLen];
      if Parse(b[offset..offset + frameLen]).None? {
        ExtractStable(b, more, offset + 1);
      }
    }
  }

  // ---------------------------------------------------------------- draining a buffer

  datatype Drained = Drained(responses: seq<Response>, rest: Bytes)

  function Prepend(r: Response, d: Drained): Drained {
    Drained([r] + d.responses, d.rest)
  }

  /** The frames try_extract_response finds one after the other in a buffer, and the remainder. */
  function Drain(b: Bytes): (d: Drained)
    ensures |d.rest| <= |b|
    decreases |b|
  {
    match Extract(b)
    case None => Drained([], b)
    case Some(f) => Prepend(f.response, Drain(b[f.consumed..]))
  }

  lemma {:induction false} DrainIsComplete(b: Bytes)
    ensures Extract(Drain(b).rest).None?
    decreases |b|
  {
    if Extract(b).Some? {
      DrainIsComplete(b[Extract(b).value.consumed..]);
    }
  }

  /** Drain goes on with the remainder `e` of a longer buffer. */
  function Then(d: Drained, e: Drained): Drained {
    Drained(d.responses + e.responses, e.rest)
  }

  lemma ThenPrepend(r: Response, d: Drained, e: Drained)
    ensures Then(Prepend(r, d), e) == Prepend(r, Then(d, e))
  {
    assert [r] + d.responses + e.responses == [r] + (d.responses + e.responses);
  }

  lemma {:induction false} DrainAppend(a: Bytes, b: Bytes)
    ensures Drain(a + b) == Then(Drain(a), Drain(Drain(a).rest + b))
    decreases |a|
  {
    var x := Extract(a);
    if x.Some? {
      var tail := a[x.value.consumed..];
      ExtractStable(a, b, 0);
      assert (a + b)[x.value.consumed..] == tail + b;
      DrainAppend(tail, b);
      ThenPrepend(x.value.response, Drain(tail), Drain(Drain(tail).rest + b));
    } else {
      assert [] + Drain(a + b).responses == Drain(a + b).responses;
    }
  }

  /** Feeding chunk after chunk to a buffer, draining after each one; `d` is what happened so far. */
  function Feed(d: Drained, chunks: seq<Bytes>): Drained
    decreases |chunks|
  {
    if chunks == [] then d else Feed(Then(d, Drain(d.rest + chunks[0])), chunks[1..])
  }

  function Concat(chunks: seq<Bytes>): Bytes
    decreases |chunks|
  {
    if chunks == [] then [] else chunks[0] + Concat(chunks[1..])
  }

  lemma {:induction false} FeedAppend(p: Bytes, d: Drained, chunks: seq<Bytes>)
    requires d == Drain(p)
    ensures Feed(d, chunks) == Drain(p + Concat(chunks))
    decreases |chunks|
  {
    if chunks == [] {
      assert p + Concat(chunks) == p;
    } else {
      DrainAppend(p, chunks[0]);
      FeedAppend(p + chunks[0], Then(d, Drain(d.rest + chunks[0])), chunks[1..]);
      Associative(p, chunks[0], Concat(chunks[1..]));
    }
  }

  /** Any chunking of the serial stream yields the responses and the remainder of the whole stream. */
  lemma ChunkingDoesNotMatter(chunks: seq<Bytes>)
    ensures Feed(Drained([], []), chunks) == Drain(Concat(chunks))
  {
    FeedAppend([], Drained([], []), chunks);
    assert [] + Concat(chunks) == Concat(chunks);
  }

  // ---------------------------------------------------------------- round trip with built packets

  datatype Message = Message(address: Byte, cmd: Byte, data: Bytes)

  predicate Sendable(ms: seq<Message>) {
    forall i | 0 <= i < |ms| :: |ms[i].data| <= MAX_DATA_LEN
  }

  function Stream(ms: seq<Message>): Bytes
    requires Sendable(ms)
  {
    if ms == [] then [] else Packet(ms[0].address, ms[0].cmd, ms[0].data) + Stream(ms[1..])
  }

  function Responses(ms: seq<Message>): seq<Response> {
    if ms == [] then [] else [ResponseOf(ms[0].cmd, ms[0].data)] + Responses(ms[1..])
  }

  /** Parsing a built packet gives back its command and payload. */
  lemma ParsePacket(address: Byte, cmd: Byte, data: Bytes)
    requires |data| < 256
    ensures Parse(Packet(address, cmd, data)) == Some(ResponseOf(cmd, data))
  {
    var p, n := Packet(address, cmd, data), |data|;
    assert p[..5 + n] == Body(address, cmd, data);
    assert p[5..5 + n] == data;
  }

  /** A frame is accepted exactly when it is a built packet. */
  lemma ParseExactly(bytes: Bytes)
    requires |bytes| >= 6 && |bytes| == FrameLen(bytes[4])
    ensures var data := bytes[5..|bytes| - 1];
            if bytes == Packet(bytes[2], bytes[3], data) then Parse(bytes) == Some(ResponseOf(bytes[3], data))
            else Parse(bytes) == None
  {
    var data := bytes[5..|bytes| - 1];
    var body := bytes[..|bytes| - 1];
    assert bytes == body + [bytes[|bytes| - 1]];
    if bytes[0] == HEADER_0 && bytes[1] == HEADER_1 {
      assert body == Body(bytes[2], bytes[3], data);
    }
    PacketBytes(bytes[2], bytes[3], data);
  }

  lemma PacketBytes(address: Byte, cmd: Byte, data: Bytes)
    requires |data| < 256
    ensures var p := Packet(address, cmd, data);
            && |p| == 6 + |data| && p[0] == HEADER_0 && p[1] == HEADER_1 && p[2] == address && p[3] == cmd
            && p[4] == |data| && p[5..5 + |data|] == data && p[..5 + |data|] == Body(address, cmd, data)
  {
  }

  /** A built packet stands at position `j`. */
  ghost predicate PacketAt(b: Bytes, j: nat) {
    exists address: Byte, cmd: Byte, data: Bytes | |data| < 256 ::
      j + 6 + |data| <= |b| && b[j..j + 6 + |data|] == Packet(address, cmd, data)
  }

  /** A header stands at `j` whose frame goes beyond the end, or fewer than six bytes are left. */
  predicate Unfinished(b: Bytes, j: nat) {
    j + 6 > |b| || (b[j] == HEADER_0 && b[j + 1] == HEADER_1 && j + FrameLen(b[j + 4]) > |b|)
  }

  /** A complete frame at `j` that parses. */
  predicate Framed(b: Bytes, j: nat) {
    && j + 6 <= |b| && b[j] == HEADER_0 && b[j + 1] == HEADER_1
    && j + FrameLen(b[j + 4]) <= |b| && Parse(b[j..j + FrameLen(b[j + 4])]).Some?
  }

  lemma PacketIsFramed(b: Bytes, j: nat, address: Byte, cmd: Byte, data: Bytes)
    requires |data| < 256 && j + 6 + |data| <= |b| && b[j..j + 6 + |data|] == Packet(address, cmd, data)
    ensures Framed(b, j)
  {
    PacketBytes(address, cmd, data);
    ParsePacket(address, cmd, data);
    var p := b[j..j + 6 + |data|];
    assert p[0] == b[j] && p[1] == b[j + 1] && p[4] == b[j + 4];
  }

  lemma SliceParts(b: Bytes, j: nat, n: nat)
    requires 6 <= n && j + n <= |b|
    ensures var f := b[j..j + n];
            f[2] == b[j + 2] && f[3] == b[j + 3] && f[4] == b[j + 4] && f[5..n - 1] == b[j + 5..j + n - 1]
  {
    var f := b[j..j + n];
    var x, y := f[5..n - 1], b[j + 5..j + n - 1];
    assert |x| == |y|;
    forall i | 0 <= i < |x| ensures x[i] == y[i] {
      assert x[i] == f[5 + i] == b[j + 5 + i];
    }
  }

  lemma ShowPacket(b: Bytes, j: nat, address: Byte, cmd: Byte, data: Bytes)
    requires |data| < 256 && j + 6 + |data| <= |b| && b[j..j + 6 + |data|] == Packet(address, cmd, data)
    ensures PacketAt(b, j)
  {
  }

  lemma FramedIsPacket(b: Bytes, j: nat)
    requires Framed(b, j)
    ensures var n := FrameLen(b[j + 4]);
            var data := b[j + 5..j + n - 1];
            && |data| < 256 && b[j..j + n] == Packet(b[j + 2], b[j + 3], data)
            && Parse(b[j..j + n]) == Some(ResponseOf(b[j + 3], data)) && PacketAt(b, j)
  {
    var n := FrameLen(b[j + 4]);
    var f, data := b[j..j + n], b[j + 5..j + n - 1];
    SliceParts(b, j, n);
    ParseExactly(f);
    ShowPacket(b, j, b[j + 2], b[j + 3], data);
  }

  lemma FrameAt(b: Bytes, j: nat)
    ensures PacketAt(b, j) <==> Framed(b, j)
  {
    if PacketAt(b, j) {
      var address: Byte, cmd: Byte, data: Bytes :|
        |data| < 256 && j + 6 + |data| <= |b| && b[j..j + 6 + |data|] == Packet(address, cmd, data);
      PacketIsFramed(b, j, address, cmd, data);
    }
    if Framed(b, j) {
      FramedIsPacket(b, j);
    }
  }

  /** The found frame ends where its packet ends. */
  ghost predicate IsPacket(b: Bytes, o: nat, f: Found) {
    && o + 6 <= |b| && |f.response.data| < 256 && f.consumed == o + 6 + |f.response.data| <= |b|
    && b[o..f.consumed] == Packet(b[o + 2], f.response.cmd, f.response.data)
    && f.response == ResponseOf(f.response.cmd, f.response.data)
  }

  /** Extraction finds the first built packet that no unfinished frame precedes, and nothing else: the bytes it
      consumes end with that packet, and its command and payload are the packet's. */
  lemma {:induction false} ExtractExactly(b: Bytes, offset: nat) returns (o: nat)
    requires offset <= |b|
    ensures offset <= o <= |b| && forall j | offset <= j < o :: !PacketAt(b, j) && !Unfinished(b, j)
    ensures match ExtractFrom(b, offset)
            case None => Unfinished(b, o)
            case Some(f) => IsPacket(b, o, f)
    decreases |b| - offset
  {
    o := offset;
    if !Unfinished(b, offset) {
      FrameAt(b, offset);
      if Framed(b, offset) {
        FramedIsPacket(b, offset);
      } else {
        o := ExtractExactly(b, offset + 1);
      }
    }
  }

  lemma ExtractPacket(address: Byte, cmd: Byte, data: Bytes, more: Bytes)
    requires |data| < 256
    ensures Extract(Packet(address, cmd, data) + more) == Some(Found(ResponseOf(cmd, data), 6 + |data|))
  {
    var p := Packet(address, cmd, data);
    ParsePacket(address, cmd, data);
    assert (p + more)[0..6 + |data|] == p;
  }

  lemma DrainPacket(m: Message, more: Bytes)
    requires |m.data| < 256
    ensures Drain(Packet(m.address, m.cmd, m.data) + more) == Prepend(ResponseOf(m.cmd, m.data), Drain(more))
  {
    var b := Packet(m.address, m.cmd, m.data) + more;
    ExtractPacket(m.address, m.cmd, m.data, more);
    assert b[6 + |m.data|..] == more;
  }

  /** A proper prefix of a packet contains no frame. */
  lemma NoFrameInPrefix(address: Byte, cmd: Byte, data: Bytes, k: nat)
    requires |data| < 256 && k < 6 + |data|
    ensures Extract(Packet(address, cmd, data)[..k]).None?
  {
  }

  /** What a prefix of a stream of packets decodes to. */
  ghost predicate Decodes(ms: seq<Message>, k: nat, d: Drained)
    requires Sendable(ms)
  {
    && d.responses <= Responses(ms) && |d.rest| < MAX_PACKET_SIZE
    && (k == |Stream(ms)| ==> d == Drained(Responses(ms), []))
  }

  lemma DecodesPrepend(ms: seq<Message>, k: nat, d: Drained)
    requires Sendable(ms) && ms != [] && Decodes(ms[1..], k, d)
    ensures Decodes(ms, 6 + |ms[0].data| + k, Prepend(ResponseOf(ms[0].cmd, ms[0].data), d))
  {
  }

  lemma CutInside<T>(p: seq<T>, tail: seq<T>, k: nat)
    requires k <= |p + tail|
    ensures (p + tail)[..k] == if k < |p| then p[..k] else p + tail[..k - |p|]
  {
  }

  /** Any concatenation of built packets decodes to exactly those packets in order, with nothing left; any
      prefix of it decodes to the packets it completes, and what is left is shorter than one packet. */
  lemma {:induction false} PacketsRoundTrip(ms: seq<Message>, k: nat)
    requires Sendable(ms) && k <= |Stream(ms)|
    ensures Decodes(ms, k, Drain(Stream(ms)[..k]))
    decreases |ms|
  {
    if ms == [] {
      EmptyDecodes();
    } else {
      var m := ms[0];
      var p, tail := Packet(m.address, m.cmd, m.data), Stream(ms[1..]);
      CutInside(p, tail, k);
      if k < |p| {
        PrefixDecodes(ms, k);
        } else {
        DrainPacket(m, tail[..k - |p|]);
        PacketsRoundTrip(ms[1..], k - |p|);
        DecodesPrepend(ms, k - |p|, Drain(tail[..k - |p|]));
      }
    }
  }

  lemma EmptyDecodes()
    ensures Decodes([], 0, Drain([])) && Drain([]) == Drained([], [])
  {
  }

  lemma PrefixDecodes(ms: seq<Message>, k: nat)
    requires Sendable(ms) && ms != [] && k < 6 + |ms[0].data|
    ensures var p := Packet(ms[0].address, ms[0].cmd, ms[0].data);
            Decodes(ms, k, Drain(p[..k])) && Drain(p[..k]) == Drained([], p[..k])
  {
    NoFrameInPrefix(ms[0].address, ms[0].cmd, ms[0].data, k);
  }

  lemma StreamCons(m: Message, ms: seq<Message>)
    requires |m.data| <= MAX_DATA_LEN && Sendable(ms)
    ensures Sendable([m] + ms) && Stream([m] + ms) == Packet(m.address, m.cmd, m.data) + Stream(ms)
    ensures Responses([m] + ms) == [ResponseOf(m.cmd, m.data)] + Responses(ms)
  {
    assert ([m] + ms)[1..] == ms;
  }

  /** The bytes `b` are the packets `done` and a remainder that does not complete the first of `later`. */
  ghost predicate Completes(b: Bytes, done: seq<Message>, later: seq<Message>, rest: Bytes) {
    && Sendable(done) && b == Stream(done) + rest && Drain(b) == Drained(Responses(done), rest)
    && (if later == [] then rest == [] else |rest| < 6 + |later[0].data|)
  }

  lemma CompletesPrepend(m: Message, b: Bytes, done: seq<Message>, later: seq<Message>, rest: Bytes)
    requires |m.data| <= MAX_DATA_LEN && Completes(b, done, later, rest)
    ensures Completes(Packet(m.address, m.cmd, m.data) + b, [m] + done, later, rest)
  {
    StreamCons(m, done);
    DrainPacket(m, b);
    Associative(Packet(m.address, m.cmd, m.data), Stream(done), rest);
  }

  /** A prefix of the stream decodes to every packet it completes: the prefix is the stream of the decoded packets
      followed by a remainder that does not complete the next one. */
  lemma {:induction false} CompletePackets(ms: seq<Message>, k: nat)
    returns (done: seq<Message>, later: seq<Message>, rest: Bytes)
    requires Sendable(ms) && k <= |Stream(ms)|
    ensures ms == done + later && Completes(Stream(ms)[..k], done, later, rest)
    decreases |ms|
  {
    if ms == [] || k < 6 + |ms[0].data| {
      done, later, rest := [], ms, Stream(ms)[..k];
      NothingComplete(ms, k);
    } else {
      var m := ms[0];
      var p, tail := Packet(m.address, m.cmd, m.data), Stream(ms[1..]);
      CutInside(p, tail, k);
      done, later, rest := CompletePackets(ms[1..], k - |p|);
      CompletesPrepend(m, tail[..k - |p|], done, later, rest);
      Rejoin(ms, done, later);
      done := [m] + done;
    }
  }

  lemma NothingComplete(ms: seq<Message>, k: nat)
    requires Sendable(ms) && k <= |Stream(ms)| && (ms != [] ==> k < 6 + |ms[0].data|)
    ensures Completes(Stream(ms)[..k], [], ms, Stream(ms)[..k])
  {
    if ms == [] {
      EmptyDecodes();
    } else {
      CutInside(Packet(ms[0].address, ms[0].cmd, ms[0].data), Stream(ms[1..]), k);
      PrefixDecodes(ms, k);
    }
  }

  lemma Rejoin(ms: seq<Message>, done: seq<Message>, later: seq<Message>)
    requires ms != [] && ms[1..] == done + later
    ensures ms == ([ms[0]] + done) + later
  {
    HeadTail(ms);
    Associative([ms[0]], done, later);
  }

  // ---------------------------------------------------------------- the exchange

  /** One read of the serial port; the deadline passes after the last one. */
  datatype Read = Data(bytes: Bytes) | Idle | Broken

  datatype Reply = Answer(response: Response) | NoResponse | ReadFailed

  predicate Matches(r: Response, cmd: Byte) {
    r.cmd == Expected(cmd, false) || r.cmd == Expected(cmd, true)
  }

  function FirstMatch(rs: seq<Response>, cmd: Byte): (m: Option<Response>)
    ensures m.Some? ==> Matches(m.value, cmd)
  {
    if rs == [] then None else if Matches(rs[0], cmd) then Some(rs[0]) else FirstMatch(rs[1..], cmd)
  }

  /** An oversized remainder is cut to its last MAX_PACKET_SIZE bytes. */
  function Trim(b: Bytes): Bytes {
    if |b| > MAX_PACKET_SIZE * 4 then b[|b| - MAX_PACKET_SIZE..] else b
  }

  function Serve(pending: Bytes, port: seq<Read>, cmd: Byte): Reply
    decreases |port|
  {
    if port == [] then NoResponse
    else match port[0]
      case Broken => ReadFailed
      case Idle => Serve(pending, port[1..], cmd)
      case Data(bytes) =>
        var d := Drain(pending + bytes);
        var m := FirstMatch(d.responses, cmd);
        if m.Some? then Answer(m.value) else Serve(Trim(d.rest), port[1..], cmd)
  }

  /** xfer_packet after its write: read, extract, skip out-of-order responses, trim, until the deadline. */
  method XferPacket(port: seq<Read>, cmd: Byte) returns (reply: Reply)
    ensures reply == Serve([], port, cmd)
  {
    var pending: Bytes := [];
    for i := 0 to |port|
      invariant Serve(pending, port[i..], cmd) == Serve([], port, cmd)
      invariant |pending| <= MAX_PACKET_SIZE * 4
    {
      assert port[i..][1..] == port[i + 1..];
      match port[i] {
        case Broken => return ReadFailed;
        case Idle =>
        case Data(bytes) =>
          pending := pending + bytes;
          ghost var d := Drain(pending);
          var found := TryExtractResponse(pending);
          while found.Some?
            invariant found == Extract(pending)
            invariant Drain(pending).rest == d.rest
            invariant FirstMatch(Drain(pending).responses, cmd) == FirstMatch(d.responses, cmd)
            decreases |pending|
          {
            var r := found.value.response;
            ghost var before := Drain(pending).responses;
            pending := pending[found.value.consumed..];
            assert before[0] == r && before[1..] == Drain(pending).responses;
            if Matches(r, cmd) {
              return Answer(r);
            }
            found := TryExtractResponse(pending);
          }
          if |pending| > MAX_PACKET_SIZE * 4 {
            pending := pending[|pending| - MAX_PACKET_SIZE..];
          }
      }
    }
    return NoResponse;
  }

  /** Trimming bounds the buffer and keeps its last seventy bytes, so no packet that is still incomplete is cut. */
  lemma TrimKeepsTheEnd(b: Bytes, n: nat)
    requires n <= |b| && n <= MAX_PACKET_SIZE
    ensures |Trim(b)| <= MAX_PACKET_SIZE * 4 && n <= |Trim(b)| && Trim(b)[|Trim(b)| - n..] == b[|b| - n..]
    ensures |b| <= MAX_PACKET_SIZE * 4 ==> Trim(b) == b
  {
  }

  /** The bytes that arrive before the port breaks. */
  function Received(port: seq<Read>): Bytes {
    if port == [] || port[0].Broken? then []
    else (if port[0].Data? then port[0].bytes else []) + Received(port[1..])
  }

  /** The reply when no answer came: the read error if there was one. */
  function Ending(port: seq<Read>): Reply {
    if exists i | 0 <= i < |port| :: port[i].Broken? then ReadFailed else NoResponse
  }

  lemma EndingNext(port: seq<Read>)
    requires port != []
    ensures Ending(port) == if port[0].Broken? then ReadFailed else Ending(port[1..])
  {
    if i :| 0 <= i < |port| && port[i].Broken? {
      assert i > 0 ==> port[1..][i - 1].Broken?;
    }
    if j :| 0 <= j < |port[1..]| && port[1..][j].Broken? {
      assert port[j + 1].Broken?;
    }
  }

  lemma {:induction false} FirstMatchAppend(a: seq<Response>, b: seq<Response>, cmd: Byte)
    ensures FirstMatch(a + b, cmd) == if FirstMatch(a, cmd).Some? then FirstMatch(a, cmd) else FirstMatch(b, cmd)
    decreases |a|
  {
    if a == [] {
      assert a + b == b;
    } else {
      assert (a + b)[1..] == a[1..] + b;
      FirstMatchAppend(a[1..], b, cmd);
    }
  }

  function ReplyFor(m: Option<Response>, port: seq<Read>): Reply {
    if m.Some? then Answer(m.value) else Ending(port)
  }

  lemma {:induction false} ServeFrom(ms: seq<Message>, h: Bytes, port: seq<Read>, cmd: Byte)
    requires Sendable(ms) && h + Received(port) <= Stream(ms)
    requires FirstMatch(Drain(h).responses, cmd).None?
    ensures Serve(Drain(h).rest, port, cmd) == ReplyFor(FirstMatch(Drain(h + Received(port)).responses, cmd), port)
    decreases |port|
  {
    if port == [] {
      assert h + Received(port) == h;
    } else if port[0].Broken? {
      EndingNext(port);
      assert h + Received(port) == h;
    } else if port[0].Idle? {
      EndingNext(port);
      assert Received(port) == Received(port[1..]);
      ServeFrom(ms, h, port[1..], cmd);
    } else {
      ServeData(ms, h, port, cmd);
      var h1 := h + port[0].bytes;
      if FirstMatch(Drain(Drain(h).rest + port[0].bytes).responses, cmd).None? {
        ServeFrom(ms, h1, port[1..], cmd);
        EndingNext(port);
      }
    }
  }

  /** One read with data: it brings the answer, or the exchange goes on with what is left. */
  lemma ServeData(ms: seq<Message>, h: Bytes, port: seq<Read>, cmd: Byte)
    requires Sendable(ms) && h + Received(port) <= Stream(ms) && port != [] && port[0].Data?
    requires FirstMatch(Drain(h).responses, cmd).None?
    ensures var h1 := h + port[0].bytes;
            var m := FirstMatch(Drain(Drain(h).rest + port[0].bytes).responses, cmd);
            && h + Received(port) == h1 + Received(port[1..]) && h1 + Received(port[1..]) <= Stream(ms)
            && (m.Some? ==> FirstMatch(Drain(h + Received(port)).responses, cmd) == m
                            && Serve(Drain(h).rest, port, cmd) == Answer(m.value))
            && (m.None? ==> FirstMatch(Drain(h1).responses, cmd).None?
                            && Serve(Drain(h).rest, port, cmd) == Serve(Drain(h1).rest, port[1..], cmd))
  {
    var bytes, later := port[0].bytes, Received(port[1..]);
    var h1 := h + bytes;
    assert h + Received(port) == h1 + later;
    DrainAppend(h, bytes);
    var d := Drain(Drain(h).rest + bytes);
    FirstMatchAppend(Drain(h).responses, d.responses, cmd);
    assert h1 == Stream(ms)[..|h1|];
    PacketsRoundTrip(ms, |h1|);
    if FirstMatch(d.responses, cmd).Some? {
      DrainAppend(h1, later);
      FirstMatchAppend(Drain(h1).responses, Drain(Drain(h1).rest + later).responses, cmd);
    }
  }

  /** When the chip sends packets, the exchange returns the first one that answers the command, for every
      chunking and at every deadline; the trimming never interferes.  Without an answer it reports the read error,
      if there was one, or no response. */
  lemma ExchangeFindsTheAnswer(ms: seq<Message>, port: seq<Read>, cmd: Byte)
    requires Sendable(ms) && Received(port) <= Stream(ms)
    ensures Serve([], port, cmd) == ReplyFor(FirstMatch(Drain(Received(port)).responses, cmd), port)
    ensures Received(port) == Stream(ms) ==> Serve([], port, cmd) == ReplyFor(FirstMatch(Responses(ms), cmd), port)
  {
    assert [] + Received(port) == Received(port);
    ServeFrom(ms, [], port, cmd);
    if Received(port) == Stream(ms) {
      PacketsRoundTrip(ms, |Stream(ms)|);
      assert Stream(ms)[..|Stream(ms)|] == Stream(ms);
    }
  }

  /** The answer to a command below 0x40 has the command's byte with 0x80 added, or 0xC0 for an error. */
  predicate Answers(byte: Byte, cmd: Byte) {
    byte == cmd + 0x80 || byte == cmd + 0xC0
  }

  lemma {:induction false} FirstMatchIs(ms: seq<Message>, cmd: Byte, i: nat)
    requires cmd < 0x40 && i <= |ms| && forall j | 0 <= j < i :: !Answers(ms[j].cmd, cmd)
    requires i < |ms| ==> Answers(ms[i].cmd, cmd)
    ensures FirstMatch(Responses(ms), cmd) == if i == |ms| then None else Some(ResponseOf(ms[i].cmd, ms[i].data))
  {
    if i > 0 {
      FirstMatchIs(ms[1..], cmd, i - 1);
    }
  }

  /** In bytes: of the packets sent, the first with an answering command byte is the reply, with its payload and as an
      error exactly when the byte says so; packets with other bytes are skipped, and without an answer there is no
      response. */
  lemma ReplyIsTheFirstAnswer(ms: seq<Message>, port: seq<Read>, cmd: Byte, i: nat)
    requires Sendable(ms) && Received(port) == Stream(ms) && cmd < 0x40
    requires i <= |ms| && (forall j | 0 <= j < i :: !Answers(ms[j].cmd, cmd)) && (i < |ms| ==> Answers(ms[i].cmd, cmd))
    ensures var r := Serve([], port, cmd);
            if i < |ms| then
              && r.Answer? && r.response.cmd == ms[i].cmd && r.response.data == ms[i].data
              && (r.response.isError <==> ms[i].cmd == cmd + 0xC0)
              && (r.response.isError && ms[i].data != [] ==>
                    r.response.errorCode == Some(ErrorFrom(ms[i].data[0])))
            else if exists k | 0 <= k < |port| :: port[k].Broken? then r == ReadFailed
            else r == NoResponse
  {
    ExchangeFindsTheAnswer(ms, port, cmd);
    FirstMatchIs(ms, cmd, i);
  }
}
