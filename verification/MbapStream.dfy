/** Re-framing of a Modbus TCP byte stream (gateway_access/ModbusTcpDriver.cpp:96-168; MODBUS Messaging on
    TCP/IP Implementation Guide V1.0b, section 3.1.3). */
module MbapStream {
  import opened ModbusFrame
  import opened ModbusErrors

  const MAX_LENGTH: nat := 256
  const READ_SIZE: nat := 256
  const MAX_RECV_BUF: nat := 65536

  /** What a byte stream amounts to: the payloads handed on, what is kept for the next read, and whether an
      impossible length field ended the connection. */
  datatype Parsed = Parsed(messages: seq<seq<bv8>>, rest: seq<bv8>, broken: bool)

  /** The length field of a header. */
  function Length(s: seq<bv8>): nat
    requires |s| >= 6
  {
    Word(s[5], s[4]) as nat
  }

  /** A frame is handed on as the raw bytes of its whole registers, or not at all. */
  function Emit(frame: seq<bv8>): seq<seq<bv8>> {
    if TcpAccepts(frame) then [frame[9..9 + 2 * (frame[8] as nat / 2)]] else []
  }

  function Parse(s: seq<bv8>): Parsed
    decreases |s|
  {
    if |s| < 6 then Parsed([], s, false)
    else if Length(s) < 1 || Length(s) > MAX_LENGTH then Parsed([], [], true)
    else if |s| < 6 + Length(s) then Parsed([], s, false)
    else Prefixed(Emit(s[..6 + Length(s)]), Parse(s[6 + Length(s)..]))
  }

  function Prefixed(m: seq<seq<bv8>>, p: Parsed): Parsed {
    Parsed(m + p.messages, p.rest, p.broken)
  }

  lemma PrefixTwice(a: seq<seq<bv8>>, b: seq<seq<bv8>>, p: Parsed)
    ensures Prefixed(a, Prefixed(b, p)) == Prefixed(a + b, p)
  {
    assert a + (b + p.messages) == a + b + p.messages;
  }

  lemma LengthOfPrefix(a: seq<bv8>, b: seq<bv8>)
    requires |a| >= 6
    ensures Length(a + b) == Length(a)
  {
    assert (a + b)[4] == a[4] && (a + b)[5] == a[5];
  }

  lemma PrefixNext(done: seq<seq<bv8>>, s: seq<bv8>, total: nat)
    requires |s| >= 6 && 1 <= Length(s) <= MAX_LENGTH && total == 6 + Length(s) <= |s|
    ensures Prefixed(done, Parse(s)) == Prefixed(done + Emit(s[..total]), Parse(s[total..]))
  {
    PrefixTwice(done, Emit(s[..total]), Parse(s[total..]));
  }

  // ---------------------------------------------------------------- the driver

  class Driver {
    var recvBuf: seq<bv8>
    var delivered: seq<seq<bv8>>   // payloads handed to m_on_data
    var reconnects: nat

    constructor ()
      ensures recvBuf == [] && delivered == [] && reconnects == 0
    {
      recvBuf, delivered, reconnects := [], [], 0;
    }

    /** One read: append, guard, extract. */
    method OnRead(chunk: seq<bv8>)
      requires 1 <= |chunk| <= READ_SIZE
      modifies this
      ensures |old(recvBuf) + chunk| <= MAX_RECV_BUF ==>
                var p := Parse(old(recvBuf) + chunk);
                && recvBuf == p.rest
                && delivered == old(delivered) + p.messages
                && reconnects == old(reconnects) + if p.broken then 1 else 0
      ensures |old(recvBuf) + chunk| > MAX_RECV_BUF ==>
                recvBuf == [] && delivered == old(delivered) && reconnects == old(reconnects) + 1
      ensures |recvBuf| <= 261
    {
      recvBuf := recvBuf + chunk;
      if |recvBuf| > MAX_RECV_BUF {
        recvBuf := [];
        reconnects := reconnects + 1;
        return;
      }
      Extract();
      RestIsShort(old(recvBuf) + chunk);
    }

    /** The extraction loop. */
    method Extract()
      modifies this
      ensures var p := Parse(old(recvBuf));
              && recvBuf == p.rest
              && delivered == old(delivered) + p.messages
              && reconnects == old(reconnects) + if p.broken then 1 else 0
    {
      ghost var done := [];
      while |recvBuf| >= 6
        invariant reconnects == old(reconnects)
        invariant delivered == old(delivered) + done
        invariant Parse(old(recvBuf)) == Prefixed(done, Parse(recvBuf))
        decreases |recvBuf|
      {
        var length := Length(recvBuf);
        if length < 1 || length > MAX_LENGTH {
          recvBuf := [];
          reconnects := reconnects + 1;
          return;
        }
        var total := 6 + length;
        if |recvBuf| < total {
          break;
        }
        var frame := recvBuf[..total];
        Deliver(frame);
        PrefixNext(done, recvBuf, total);
        recvBuf := recvBuf[total..];
        done := done + Emit(frame);
      }
    }

    /** One complete frame. */
    method Deliver(frame: seq<bv8>)
      modifies this`delivered
      ensures delivered == old(delivered) + Emit(frame)
    {
      var resp := new Response();
      var ok := DecodeTcpResponse(frame, resp);
      if ok {
        var payload := Serialize(resp.registers);
        RegistersAreRaw(frame, 9, frame[8] as nat / 2);
        delivered := delivered + [payload];
      }
    }

    /** The payload loop: registers become bytes again, high byte first. */
    method Serialize(regs: seq<bv16>) returns (payload: seq<bv8>)
      ensures payload == BigEndian(regs)
    {
      payload := [];
      for i := 0 to |regs|
        invariant payload == BigEndian(regs[..i])
      {
        assert regs[..i + 1][..i] == regs[..i];
        payload := payload + [Hi(regs[i]), Lo(regs[i])];
      }
      assert regs[..|regs|] == regs;
    }

    /** End of stream, read error or timeout: a fresh connection and a fresh buffer. */
    method OnSilence()
      modifies this
      ensures recvBuf == [] && delivered == old(delivered) && reconnects == old(reconnects) + 1
    {
      recvBuf := [];
      reconnects := reconnects + 1;
    }

    /** A failed write reconnects without clearing the buffer. */
    method OnWriteFailure()
      modifies this
      ensures recvBuf == old(recvBuf) && delivered == old(delivered) && reconnects == old(reconnects) + 1
    {
      reconnects := reconnects + 1;
    }
  }

  // ---------------------------------------------------------------- bounded buffer

  /** What is kept is a proper prefix of one frame. */
  lemma {:induction false} RestIsShort(s: seq<bv8>)
    ensures |Parse(s).rest| <= 261
    ensures Parse(s).broken ==> Parse(s).rest == []
    ensures Parse(Parse(s).rest) == Parsed([], Parse(s).rest, false)
    decreases |s|
  {
    if |s| >= 6 && 1 <= Length(s) <= MAX_LENGTH && |s| >= 6 + Length(s) {
      RestIsShort(s[6 + Length(s)..]);
    }
  }

  /** The bound is met: a header announcing 256 bytes, all but the last of them there. */
  lemma RestIsTight()
    ensures |Parse([0, 0, 0, 0, 1, 0] + seq(255, _ => 0)).rest| == 261
  {
    var s: seq<bv8> := [0, 0, 0, 0, 1, 0] + seq(255, _ => 0);
    assert s[4] == 1 && s[5] == 0;
    assert Word(0, 1) == 0x100;
  }

  // ---------------------------------------------------------------- cutting the stream

  /** Parsing can stop anywhere and go on with what was kept. */
  lemma {:induction false} ParseResumes(a: seq<bv8>, b: seq<bv8>)
    ensures !Parse(a).broken ==> Parse(a + b) == Prefixed(Parse(a).messages, Parse(Parse(a).rest + b))
    ensures Parse(a).broken ==> Parse(a + b) == Parse(a)
    decreases |a|
  {
    if |a| >= 6 {
      LengthOfPrefix(a, b);
      if 1 <= Length(a) <= MAX_LENGTH && |a| >= 6 + Length(a) {
        var total := 6 + Length(a);
        assert (a + b)[..total] == a[..total];
        assert (a + b)[total..] == a[total..] + b;
        ParseResumes(a[total..], b);
        var next := Parse(a[total..]);
        PrefixTwice(Emit(a[..total]), next.messages, Parse(next.rest + b));
      }
    }
  }

  function Join<T>(chunks: seq<seq<T>>): seq<T> {
    if chunks == [] then [] else Join(chunks[..|chunks| - 1]) + chunks[|chunks| - 1]
  }

  /** A connection that receives its stream in these reads; it ends at the first impossible length. */
  function Receive(chunks: seq<seq<bv8>>): Parsed {
    if chunks == [] then Parsed([], [], false)
    else
      var p := Receive(chunks[..|chunks| - 1]);
      if p.broken then p else Prefixed(p.messages, Parse(p.rest + chunks[|chunks| - 1]))
  }

  /** The reads never matter: what a connection delivers, keeps and rejects depends on the bytes alone. */
  lemma {:induction false} ReceiveIsParse(chunks: seq<seq<bv8>>)
    ensures Receive(chunks) == Parse(Join(chunks))
    decreases |chunks|
  {
    if chunks != [] {
      var n := |chunks| - 1;
      ReceiveIsParse(chunks[..n]);
      ParseResumes(Join(chunks[..n]), chunks[n]);
    }
  }

  lemma ChunkIndependence(p: seq<seq<bv8>>, q: seq<seq<bv8>>)
    requires Join(p) == Join(q)
    ensures Receive(p) == Receive(q)
  {
    ReceiveIsParse(p);
    ReceiveIsParse(q);
  }

  /** With reads of at most 256 bytes the buffer never passes 517 bytes, so the guard at 65536 never fires. */
  lemma GuardNeverFires(chunks: seq<seq<bv8>>, chunk: seq<bv8>)
    requires |chunk| <= READ_SIZE
    ensures |Receive(chunks).rest + chunk| <= 517 < MAX_RECV_BUF
  {
    ReceiveIsParse(chunks);
    RestIsShort(Join(chunks));
  }

  // ---------------------------------------------------------------- frames in, payloads out

  /** A frame whose length field counts what follows it. */
  predicate Framed(frame: seq<bv8>) {
    |frame| >= 7 && |frame| == 6 + Length(frame) && Length(frame) <= MAX_LENGTH
  }

  function EmitAll(frames: seq<seq<bv8>>): seq<seq<bv8>> {
    if frames == [] then [] else EmitAll(frames[..|frames| - 1]) + Emit(frames[|frames| - 1])
  }

  /** Whatever frames the server sends back to back, each is recovered, once and in order. */
  lemma {:induction false} FramesRecovered(frames: seq<seq<bv8>>)
    requires forall f | f in frames :: Framed(f)
    ensures Parse(Join(frames)) == Parsed(EmitAll(frames), [], false)
    decreases |frames|
  {
    if frames != [] {
      var n := |frames| - 1;
      FramesRecovered(frames[..n]);
      ParseResumes(Join(frames[..n]), frames[n]);
      FrameParses(frames[n]);
      assert [] + frames[n] == frames[n];
    }
  }

  lemma FrameParses(f: seq<bv8>)
    requires Framed(f)
    ensures Parse(f) == Parsed(Emit(f), [], false)
  {
    assert f[..6 + Length(f)] == f && f[6 + Length(f)..] == [];
    assert Parse([]) == Parsed([], [], false);
  }

  /** What starts neither with a whole frame nor with less than one: the length field is impossible. */
  predicate Impossible(s: seq<bv8>) {
    |s| >= 6 && !(1 <= Length(s) <= MAX_LENGTH)
  }

  /** The beginning of a frame, or nothing. */
  predicate Incomplete(s: seq<bv8>) {
    |s| < 6 || (1 <= Length(s) <= MAX_LENGTH && |s| < 6 + Length(s))
  }

  lemma {:induction false} JoinCons<T>(f: seq<T>, frames: seq<seq<T>>)
    ensures Join([f] + frames) == f + Join(frames)
    decreases |frames|
  {
    if frames == [] {
      assert [f] + frames == [f] && [f][..0] == [];
      assert Join([f]) == [] + f;
    } else {
      var n := |frames| - 1;
      assert ([f] + frames)[..n + 1] == [f] + frames[..n];
      JoinCons(f, frames[..n]);
    }
  }

  /** All elements have p. */
  ghost predicate All<T>(p: T -> bool, s: seq<T>) {
    forall k | 0 <= k < |s| :: p(s[k])
  }

  lemma AllCons<T>(p: T -> bool, x: T, s: seq<T>)
    requires p(x) && All(p, s)
    ensures All(p, [x] + s)
  {
  }

  lemma AllIn<T>(p: T -> bool, s: seq<T>)
    requires All(p, s)
    ensures forall x | x in s :: p(x)
  {
  }

  /** A stream of whole frames and a tail: the frames are handed on; the tail is kept, or, if its length field is
      impossible, ends the connection and is lost. */
  lemma FramesAndTail(frames: seq<seq<bv8>>, tail: seq<bv8>)
    requires All(Framed, frames) && (Impossible(tail) || Incomplete(tail))
    ensures Parse(Join(frames) + tail)
            == Parsed(EmitAll(frames), if Impossible(tail) then [] else tail, Impossible(tail))
  {
    AllIn(Framed, frames);
    FramesRecovered(frames);
    ParseResumes(Join(frames), tail);
    assert [] + tail == tail;
    TailParses(tail);
  }

  lemma TailParses(tail: seq<bv8>)
    requires Impossible(tail) || Incomplete(tail)
    ensures Parse(tail) == Parsed([], if Impossible(tail) then [] else tail, Impossible(tail))
  {
  }

  lemma HeadIsFrame(s: seq<bv8>, n: nat)
    requires |s| >= 6 && n == 6 + Length(s) <= |s| && 1 <= Length(s) <= MAX_LENGTH
    ensures Framed(s[..n]) && s == s[..n] + s[n..]
  {
  }

  /** And every stream is of that form. */
  lemma {:induction false} StreamIsFramesAndTail(s: seq<bv8>) returns (frames: seq<seq<bv8>>, tail: seq<bv8>)
    ensures s == Join(frames) + tail && All(Framed, frames)
    ensures Impossible(tail) != Incomplete(tail)
    decreases |s|
  {
    if |s| < 6 || !(1 <= Length(s) <= MAX_LENGTH) || |s| < 6 + Length(s) {
      frames, tail := [], s;
      assert [] + s == s;
    } else {
      var n := 6 + Length(s);
      HeadIsFrame(s, n);
      frames, tail := StreamIsFramesAndTail(s[n..]);
      JoinCons(s[..n], frames);
      AllCons(Framed, s[..n], frames);
      Regrouped(s[..n], Join(frames), tail);
      frames := [s[..n]] + frames;
    }
  }

  lemma Regrouped<T>(a: seq<T>, b: seq<T>, c: seq<T>)
    ensures a + (b + c) == a + b + c
  {
  }

  lemma LengthField(count: bv8)
    ensures ((count as bv16) + 3) as nat == count as nat + 3
  {
  }

  lemma ReplyLength(trans: bv16, unit: bv8, count: bv8, regs: seq<bv16>)
    requires count as nat == 2 * |regs|
    ensures |TcpReply(trans, unit, count, regs)| == 9 + count as nat
    ensures Length(TcpReply(trans, unit, count, regs)) == 3 + count as nat
  {
    var frame := TcpReply(trans, unit, count, regs);
    var length := (count as bv16) + 3;
    LengthField(count);
    WordOfHalves(length);
    assert frame[4] == Header(trans, length, unit)[4] && frame[5] == Header(trans, length, unit)[5];
  }

  lemma EmitIs(frame: seq<bv8>, n: nat)
    requires TcpAccepts(frame) && frame[8] as nat / 2 == n
    ensures Emit(frame) == [frame[9..9 + 2 * n]]
  {
  }

  lemma EmitsRegisters(frame: seq<bv8>, regs: seq<bv16>, n: nat)
    requires TcpAccepts(frame) && frame[8] as nat / 2 == n && |frame| >= 9 + 2 * n && RegistersAt(frame, 9, n) == regs
    ensures Emit(frame) == [BigEndian(regs)]
  {
    RegistersAreRaw(frame, 9, n);
    EmitIs(frame, n);
  }

  lemma ParsesAlone(frame: seq<bv8>)
    requires |frame| >= 7 && |frame| == 6 + Length(frame)
    ensures Parse(frame) == if Length(frame) <= MAX_LENGTH then Parsed(Emit(frame), [], false) else Parsed([], [], true)
  {
    if Length(frame) <= MAX_LENGTH { FrameParses(frame); }
  }

  /** The answer of a server is handed on as the bytes of its registers if it carries at most 126 of them (the
      protocol allows 125); a longer one would end the connection. */
  lemma ReplyArrives(trans: bv16, unit: bv8, count: bv8, regs: seq<bv16>)
    requires count as nat == 2 * |regs|
    ensures Parse(TcpReply(trans, unit, count, regs))
            == if |regs| <= 126 then Parsed([BigEndian(regs)], [], false) else Parsed([], [], true)
  {
    ReplyLength(trans, unit, count, regs);
    TcpReplyDecodes(trans, unit, count, regs);
    EmitsRegisters(TcpReply(trans, unit, count, regs), regs, |regs|);
    ParsesAlone(TcpReply(trans, unit, count, regs));
  }

  // ---------------------------------------------------------------- bytes left over by a failed write

  /** An answer with no registers. */
  function Empty(trans: bv8): seq<bv8> {
    [trans, 0, 0, 0, 0, 3, 1, 3, 0]
  }

  /** The same with an impossible length. */
  const HOLLOW: seq<bv8> := [0, 0, 0, 0, 0, 0, 1, 3, 0]

  lemma SmallWords()
    ensures Word(3, 0) as nat == 3 && Word(0, 0) as nat == 0
  {
    assert Word(3, 0) == 3 && Word(0, 0) == 0;
  }

  lemma EmptyParses(trans: bv8)
    ensures Parse(Empty(trans)).messages == [[]]
  {
    var f := Empty(trans);
    SmallWords();
    assert f[4] == 0 && f[5] == 3 && Length(f) == 3;
    FrameParses(f);
    assert TcpAccepts(f);
    assert f[9..9] == [];
  }

  lemma HollowParses()
    ensures Parse(HOLLOW).messages == []
  {
    SmallWords();
    assert HOLLOW[4] == 0 && HOLLOW[5] == 0;
  }

  lemma {:induction false} ShortSaysNothing(s: seq<bv8>)
    requires |s| < 9
    ensures Parse(s).messages == []
    decreases |s|
  {
    if |s| >= 6 && 1 <= Length(s) <= MAX_LENGTH && |s| >= 6 + Length(s) {
      ShortSaysNothing(s[6 + Length(s)..]);
    }
  }

  /** Some bytes kept from a connection that was lost make the next one deliver something else than its own
      stream says. */
  ghost predicate Misleads(kept: seq<bv8>, stream: seq<bv8>) {
    Parse(kept + stream).messages != Parse(stream).messages
  }

  lemma WordBig(lo: bv8)
    ensures Word(0xFF, lo) as nat >= 255 && (Word(0xFF, lo) as nat <= 256 ==> Word(0xFF, lo) as nat == 255)
  {
    assert Word(0xFF, lo) & 0xFF == 0xFF;
    assert Word(0xFF, lo) >= 255 && Word(0xFF, lo) != 256;
  }

  /** Less than a header. */
  lemma HeadMisleads(kept: seq<bv8>)
    requires 1 <= |kept| < 6
    ensures Misleads(kept, Empty(if |kept| == 5 then 0xFF else 0))
  {
    var f := Empty(if |kept| == 5 then 0xFF else 0);
    EmptyParses(f[0]);
    var z := kept + f;
    SmallWords();
    assert z[5] == f[5 - |kept|];
    if |kept| == 5 {
      WordBig(z[4]);
    } else {
      assert z[4] == f[4 - |kept|];
      assert Length(z) == 0;
    }
  }

  lemma Completed(kept: seq<bv8>, s: seq<bv8>)
    requires |kept| >= 6 && 1 <= Length(kept) <= MAX_LENGTH
    requires |kept| < 6 + Length(kept) <= |kept| + |s| < 15 + Length(kept)
    ensures Parse(kept + s).messages == Emit(kept + s[..6 + Length(kept) - |kept|])
  {
    var total := 6 + Length(kept);
    LengthOfPrefix(kept, s);
    Cut(kept, s, total - |kept|);
    ShortSaysNothing((kept + s)[total..]);
  }

  lemma Cut(kept: seq<bv8>, s: seq<bv8>, n: nat)
    requires n <= |s|
    ensures (kept + s)[..|kept| + n] == kept + s[..n]
  {
  }

  lemma SameDecision(a: seq<bv8>, b: seq<bv8>)
    requires |a| == |b| >= 9 && a[7] == b[7] && a[8] == b[8]
    ensures Emit(a) == [] <==> Emit(b) == []
  {
  }

  /** A header and part of its frame. */
  lemma PartMisleads(kept: seq<bv8>)
    requires |kept| >= 6 && 1 <= Length(kept) <= MAX_LENGTH && |kept| < 6 + Length(kept)
    ensures exists s :: Misleads(kept, s)
  {
    var f, missing := Empty(0), 6 + Length(kept) - |kept|;
    EmptyParses(0);
    LengthOfPrefix(kept, f);
    if missing > 9 {
      assert Misleads(kept, f);
      return;
    }
    Completed(kept, f);
    if Emit(kept + f[..missing]) == [] {
      assert Misleads(kept, f);
    } else if missing < 9 {
      ShortSaysNothing(f[..missing]);
      Completed(kept, f[..missing]);
      assert f[..missing][..missing] == f[..missing];
      assert Misleads(kept, f[..missing]);
    } else {
      HollowParses();
      Completed(kept, HOLLOW);
      assert f[..9] == f && HOLLOW[..9] == HOLLOW;
      SameDecision(kept + f, kept + HOLLOW);
      assert Misleads(kept, HOLLOW);
    }
  }

  lemma {:induction false} RestIsSuffix(s: seq<bv8>)
    ensures |Parse(s).rest| <= |s|
    ensures |Parse(s).rest| == |s| >= 6 && !Parse(s).broken ==> 1 <= Length(s) <= MAX_LENGTH && |s| < 6 + Length(s)
    decreases |s|
  {
    if |s| >= 6 && 1 <= Length(s) <= MAX_LENGTH && |s| >= 6 + Length(s) {
      RestIsSuffix(s[6 + Length(s)..]);
    }
  }

  lemma KeptMisleads(kept: seq<bv8>)
    requires Parse(kept) == Parsed([], kept, false) && kept != []
    ensures exists s :: Misleads(kept, s)
  {
    if |kept| < 6 {
      HeadMisleads(kept);
    } else {
      RestIsSuffix(kept);
      PartMisleads(kept);
    }
  }

  /** After a failed write the new connection delivers what its own stream says, whatever that stream is,
      exactly if nothing was kept from the old one. */
  lemma FailedWriteIsHarmlessIffNothingKept(received: seq<bv8>)
    ensures (forall s :: !Misleads(Parse(received).rest, s)) <==> Parse(received).rest == []
  {
    var kept := Parse(received).rest;
    RestIsShort(received);
    if kept == [] {
      forall s ensures !Misleads(kept, s) { assert [] + s == s; }
    } else {
      KeptMisleads(kept);
    }
  }
}
