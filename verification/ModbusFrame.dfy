/** Modbus request and response frames, RTU and TCP (common/ModbusRtu.cpp; MODBUS Application Protocol
    V1.1b3, section 6.3; MODBUS Messaging on TCP/IP Implementation Guide V1.0b, section 3.1.3). */
module ModbusFrame {
  import opened ModbusCrc
  import opened ModbusErrors
  import opened Options

  const READ_HOLDING: bv8 := 3

  datatype Request = Request(slave: bv8, functionCode: bv8, start: bv16, quantity: bv16)

  /** ModbusResponse, filled in by the decoders. */
  class Response {
    var slave: bv8
    var functionCode: bv8
    var byteCount: nat
    var registers: seq<bv16>

    constructor ()
      ensures slave == 0 && functionCode == 0 && byteCount == 0 && registers == []
    {
      slave, functionCode, byteCount, registers := 0, 0, 0, [];
    }
  }

  // ---------------------------------------------------------------- words and bytes

  function Hi(w: bv16): bv8 {
    TopHalfSmall(w);
    (w >> 8) as bv8
  }

  function Lo(w: bv16): bv8 {
    LowHalfSmall(w);
    (w & 0xFF) as bv8
  }

  lemma TopHalfSmall(w: bv16)
    ensures w >> 8 < 0x100
  {
  }

  lemma LowHalfSmall(w: bv16)
    ensures w & 0xFF < 0x100
  {
  }

  lemma WordOfHalves(w: bv16)
    ensures Word(Lo(w), Hi(w)) == w
  {
    LowBack(w);
    HighBack(w);
    Joined(w);
  }

  lemma LowBack(w: bv16)
    ensures Lo(w) as bv16 == w & 0xFF
  {
  }

  lemma HighBack(w: bv16)
    ensures Hi(w) as bv16 == w >> 8
  {
  }

  lemma Joined(w: bv16)
    ensures (w & 0xFF) | ((w >> 8) << 8) == w
  {
  }

  lemma HalvesOfWord(lo: bv8, hi: bv8)
    ensures Lo(Word(lo, hi)) == lo && Hi(Word(lo, hi)) == hi
  {
  }

  /** Registers on the wire, high byte first. */
  function BigEndian(regs: seq<bv16>): (bytes: seq<bv8>)
    ensures |bytes| == 2 * |regs|
  {
    if regs == [] then [] else BigEndian(regs[..|regs| - 1]) + [Hi(regs[|regs| - 1]), Lo(regs[|regs| - 1])]
  }

  /** The n registers that start at a byte offset. */
  function RegistersAt(data: seq<bv8>, at: nat, n: nat): (regs: seq<bv16>)
    requires at + 2 * n <= |data|
    ensures |regs| == n
    ensures forall i | 0 <= i < n :: regs[i] == Word(data[at + 2 * i + 1], data[at + 2 * i])
  {
    seq(n, i requires 0 <= i < n => Word(data[at + 2 * i + 1], data[at + 2 * i]))
  }

  /** Writing registers out again gives the bytes they were read from. */
  lemma {:induction false} RegistersAreRaw(data: seq<bv8>, at: nat, n: nat)
    requires at + 2 * n <= |data|
    ensures BigEndian(RegistersAt(data, at, n)) == data[at..at + 2 * n]
    decreases n
  {
    if n > 0 {
      RegistersAreRaw(data, at, n - 1);
      LastRegister(data, at, n);
      TwoMore(data, at, at + 2 * (n - 1));
    }
  }

  lemma LastRegister(data: seq<bv8>, at: nat, n: nat)
    requires n > 0 && at + 2 * n <= |data|
    ensures BigEndian(RegistersAt(data, at, n))
         == BigEndian(RegistersAt(data, at, n - 1)) + [data[at + 2 * n - 2], data[at + 2 * n - 1]]
  {
    var regs := RegistersAt(data, at, n);
    assert regs[..n - 1] == RegistersAt(data, at, n - 1);
    HalvesOfWord(data[at + 2 * n - 1], data[at + 2 * n - 2]);
  }

  lemma TwoMore(data: seq<bv8>, from: nat, to: nat)
    requires from <= to && to + 2 <= |data|
    ensures data[from..to + 2] == data[from..to] + [data[to], data[to + 1]]
  {
  }

  /** Reading back registers that were written out. */
  lemma {:induction false} RawAreRegisters(before: seq<bv8>, regs: seq<bv16>, after: seq<bv8>)
    ensures RegistersAt(before + BigEndian(regs) + after, |before|, |regs|) == regs
    decreases |regs|
  {
    if regs != [] {
      var n := |regs| - 1;
      var last := [Hi(regs[n]), Lo(regs[n])];
      var data := before + BigEndian(regs) + after;
      assert data == before + BigEndian(regs[..n]) + (last + after);
      RawAreRegisters(before, regs[..n], last + after);
      WordOfHalves(regs[n]);
      assert data[|before| + 2 * n] == last[0] && data[|before| + 2 * n + 1] == last[1];
      assert RegistersAt(data, |before|, |regs|)[..n] == RegistersAt(data, |before|, n);
    }
  }

  // ---------------------------------------------------------------- RTU

  /** What the slave sends to be believed: a CRC that passes, no exception bit, and all the announced data
      before the two CRC bytes. */
  predicate Accepts(data: seq<bv8>) {
    && |data| >= 6
    && Passes(data)
    && data[1] & 0x80 == 0
    && 3 + data[2] as nat + 2 <= |data|
  }

  /** encode_request: the function code of the request is not used. */
  method EncodeRequest(req: Request) returns (frame: seq<bv8>)
    ensures frame == RtuRequest(req)
    ensures SlaveReads(frame) == Some(req.(functionCode := READ_HOLDING))
  {
    var buf := new bv8[8];
    FillBody(buf, req);
    ghost var body := RtuBody(req);
    var crc := Crc16(buf[..6]);
    buf[6] := Lo(crc);
    buf[7] := Hi(crc);
    assert buf[..6] == body && buf[6..] == [Lo(crc), Hi(crc)];
    frame := buf[..6] + buf[6..];
    RequestArrives(req);
  }

  /** The six bytes before the CRC. */
  method FillBody(buf: array<bv8>, req: Request)
    requires buf.Length == 8
    modifies buf
    ensures buf[..6] == RtuBody(req)
  {
    buf[0] := req.slave;
    buf[1] := READ_HOLDING;
    buf[2] := Hi(req.start);
    buf[3] := Lo(req.start);
    buf[4] := Hi(req.quantity);
    buf[5] := Lo(req.quantity);
  }

  function RtuBody(req: Request): seq<bv8> {
    [req.slave, READ_HOLDING, Hi(req.start), Lo(req.start), Hi(req.quantity), Lo(req.quantity)]
  }

  function RtuRequest(req: Request): seq<bv8> {
    RtuBody(req) + [Lo(Crc(RtuBody(req))), Hi(Crc(RtuBody(req)))]
  }

  /** What a slave makes of a request frame. */
  function SlaveReads(frame: seq<bv8>): Option<Request> {
    if |frame| == 8 && Passes(frame)
    then Some(Request(frame[0], frame[1], Word(frame[3], frame[2]), Word(frame[5], frame[4])))
    else None
  }

  /** The CRC appended low byte first makes any frame pass. */
  lemma AppendedCrcPasses(body: seq<bv8>)
    ensures Passes(body + [Lo(Crc(body)), Hi(Crc(body))])
  {
    WordOfHalves(Crc(body));
    CrcMatchesIffRegisterZero(body, Lo(Crc(body)), Hi(Crc(body)));
  }

  /** The slave always gets a well-formed request for holding registers; it is the caller's request exactly
      when the caller asked for function code 3. */
  lemma RequestArrives(req: Request)
    ensures SlaveReads(RtuRequest(req)) == Some(req.(functionCode := READ_HOLDING))
    ensures SlaveReads(RtuRequest(req)) == Some(req) <==> req.functionCode == READ_HOLDING
  {
    AppendedCrcPasses(RtuBody(req));
    WordOfHalves(req.start);
    WordOfHalves(req.quantity);
  }

  /** decode_response. */
  method DecodeResponse(data: seq<bv8>, resp: Response) returns (ok: bool)
    modifies resp
    ensures ok <==> Accepts(data)
    ensures |data| < 6 || !Passes(data) ==>
              resp.slave == old(resp.slave) && resp.functionCode == old(resp.functionCode)
    ensures |data| >= 6 && Passes(data) ==> resp.slave == data[0] && resp.functionCode == data[1]
    ensures !ok ==> resp.byteCount == old(resp.byteCount) && resp.registers == old(resp.registers)
    ensures ok ==> resp.byteCount == data[2] as nat
    ensures ok ==> resp.registers == RegistersAt(data, 3, data[2] as nat / 2)
  {
    if |data| < 6 {
      return false;
    }
    var n := |data| - 2;
    var crc := Crc16(data[..n]);
    var wire := Word(data[n], data[n + 1]);
    CrcMatchesIffRegisterZero(data[..n], data[n], data[n + 1]);
    assert data == data[..n] + [data[n], data[n + 1]];
    if crc != wire {
      return false;
    }
    resp.slave := data[0];
    resp.functionCode := data[1];
    if resp.functionCode & 0x80 != 0 {
      return false;
    }
    var byteCount := data[2] as nat;
    if 3 + byteCount + 2 > |data| {
      return false;
    }
    resp.byteCount := byteCount;
    resp.registers := ReadRegisters(data, 3, byteCount / 2);
    return true;
  }

  /** The loop of both decoders: resize, then fill by index. */
  method ReadRegisters(data: seq<bv8>, at: nat, n: nat) returns (regs: seq<bv16>)
    requires at + 2 * n <= |data|
    ensures regs == RegistersAt(data, at, n)
  {
    var filled := new bv16[n](_ => 0);
    for i := 0 to n
      invariant forall j | 0 <= j < i :: filled[j] == Word(data[at + 2 * j + 1], data[at + 2 * j])
    {
      filled[i] := Word(data[at + 2 * i + 1], data[at + 2 * i]);
    }
    regs := filled[..];
  }

  /** The answer of a slave: section 6.3 of the application protocol. */
  function Reply(slave: bv8, count: bv8, regs: seq<bv16>): seq<bv8>
    requires count as nat == 2 * |regs|
  {
    var body := [slave, READ_HOLDING, count] + BigEndian(regs);
    body + [Lo(Crc(body)), Hi(Crc(body))]
  }

  /** A slave's answer is accepted, and yields its registers, whenever it carries at least one; an answer with
      none is five bytes and falls below the minimum length. */
  lemma ReplyDecodes(slave: bv8, count: bv8, regs: seq<bv16>)
    requires count as nat == 2 * |regs|
    ensures Accepts(Reply(slave, count, regs)) <==> regs != []
    ensures var frame := Reply(slave, count, regs);
            frame[0] == slave && frame[2] == count && RegistersAt(frame, 3, |regs|) == regs
  {
    var head := [slave, READ_HOLDING, count];
    var body := head + BigEndian(regs);
    var frame := Reply(slave, count, regs);
    AppendedCrcPasses(body);
    assert frame[0] == head[0] && frame[1] == head[1] && frame[2] == head[2];
    RawAreRegisters(head, regs, [Lo(Crc(body)), Hi(Crc(body))]);
  }

  /** No accepted frame turns into another accepted frame by a change within two adjacent bytes. */
  lemma CorruptedReplyIsRefused(frame: seq<bv8>, received: seq<bv8>, at: nat)
    requires Accepts(frame) && |received| == |frame| && received != frame
    requires forall k | 0 <= k < |frame| && k != at && k != at + 1 :: received[k] == frame[k]
    ensures !Accepts(received)
  {
    AdjacentBytesAreCaught(frame, received, at);
  }

  // ---------------------------------------------------------------- TCP

  predicate TcpAccepts(data: seq<bv8>) {
    && |data| >= 9
    && data[7] & 0x80 == 0
    && 9 + data[8] as nat <= |data|
  }

  /** decode_tcp_response. */
  method DecodeTcpResponse(data: seq<bv8>, resp: Response) returns (ok: bool)
    modifies resp
    ensures ok <==> TcpAccepts(data)
    ensures |data| < 9 ==> resp.slave == old(resp.slave) && resp.functionCode == old(resp.functionCode)
    ensures |data| >= 9 ==> resp.slave == data[6] && resp.functionCode == data[7]
    ensures !ok ==> resp.byteCount == old(resp.byteCount) && resp.registers == old(resp.registers)
    ensures ok ==> resp.byteCount == data[8] as nat
    ensures ok ==> resp.registers == RegistersAt(data, 9, data[8] as nat / 2)
  {
    if |data| < 9 {
      return false;
    }
    resp.slave := data[6];
    resp.functionCode := data[7];
    if resp.functionCode & 0x80 != 0 {
      return false;
    }
    var byteCount := data[8] as nat;
    if 9 + byteCount > |data| {
      return false;
    }
    resp.byteCount := byteCount;
    resp.registers := ReadRegisters(data, 9, byteCount / 2);
    return true;
  }

  /** What precedes the function code: transaction, protocol 0, the number of bytes that follow, unit. */
  function Header(trans: bv16, length: bv16, unit: bv8): (h: seq<bv8>)
    ensures |h| == 7
  {
    [Hi(trans), Lo(trans), 0, 0, Hi(length), Lo(length), unit]
  }

  /** The answer of a server: byte count and registers. */
  function TcpReply(trans: bv16, unit: bv8, count: bv8, regs: seq<bv16>): seq<bv8>
    requires count as nat == 2 * |regs|
  {
    Header(trans, (count as bv16) + 3, unit) + [READ_HOLDING, count] + BigEndian(regs)
  }

  /** The answer of a server that refuses: section 7 of the application protocol. */
  function TcpException(trans: bv16, unit: bv8, code: bv8): seq<bv8> {
    Header(trans, 3, unit) + [READ_HOLDING | 0x80, code]
  }

  lemma BodyDecodes(header: seq<bv8>, count: bv8, regs: seq<bv16>)
    requires |header| == 7 && count as nat == 2 * |regs|
    ensures var frame := header + [READ_HOLDING, count] + BigEndian(regs);
            TcpAccepts(frame) && frame[6] == header[6] && frame[8] == count && RegistersAt(frame, 9, |regs|) == regs
  {
    var head := header + [READ_HOLDING, count];
    var frame := head + BigEndian(regs);
    assert frame == head + BigEndian(regs) + [];
    assert frame[6] == header[6] && frame[7] == head[7] == READ_HOLDING && frame[8] == head[8] == count;
    RawAreRegisters(head, regs, []);
  }

  /** A server's answer is accepted and yields its registers, none included. */
  lemma TcpReplyDecodes(trans: bv16, unit: bv8, count: bv8, regs: seq<bv16>)
    requires count as nat == 2 * |regs|
    ensures var frame := TcpReply(trans, unit, count, regs);
            TcpAccepts(frame) && frame[6] == unit && frame[8] == count && RegistersAt(frame, 9, |regs|) == regs
  {
    BodyDecodes(Header(trans, (count as bv16) + 3, unit), count, regs);
  }

  /** A refusal is not. */
  lemma TcpExceptionIsRefused(trans: bv16, unit: bv8, code: bv8)
    ensures !TcpAccepts(TcpException(trans, unit, code))
  {
    var frame := TcpException(trans, unit, code);
    assert |frame| == 9 && frame[7] == READ_HOLDING | 0x80;
  }

  function TcpRequest(trans: bv16, req: Request): seq<bv8> {
    [Hi(trans), Lo(trans), 0, 0, 0, 6, req.slave, req.functionCode,
     Hi(req.start), Lo(req.start), Hi(req.quantity), Lo(req.quantity)]
  }

  /** encode_tcp_request. */
  method EncodeTcpRequest(trans: bv16, req: Request) returns (frame: seq<bv8>)
    ensures frame == TcpRequest(trans, req)
    ensures ServerReads(frame) == Some((trans, req))
  {
    var buf := new bv8[12];
    buf[0] := Hi(trans);
    buf[1] := Lo(trans);
    buf[2] := 0;
    buf[3] := 0;
    buf[4] := 0;
    buf[5] := 6;
    buf[6] := req.slave;
    buf[7] := req.functionCode;
    buf[8] := Hi(req.start);
    buf[9] := Lo(req.start);
    buf[10] := Hi(req.quantity);
    buf[11] := Lo(req.quantity);
    frame := buf[..];
    assert frame == TcpRequest(trans, req);
    TcpRequestArrives(trans, req);
  }

  /** What a server makes of a frame: protocol 0, the length field counting exactly what follows it. */
  function ServerReads(frame: seq<bv8>): Option<(bv16, Request)> {
    if |frame| == 12 && frame[2] == 0 && frame[3] == 0 && Word(frame[5], frame[4]) == 6
    then Some((Word(frame[1], frame[0]),
               Request(frame[6], frame[7], Word(frame[9], frame[8]), Word(frame[11], frame[10]))))
    else None
  }

  lemma TcpRequestArrives(trans: bv16, req: Request)
    ensures ServerReads(TcpRequest(trans, req)) == Some((trans, req))
  {
    WordOfHalves(trans);
    WordOfHalves(req.start);
    WordOfHalves(req.quantity);
  }
}
