/**
 * Distribution messages: how `transport_msg` builds them, the frame that
 * `connection::send` writes and what `transport_msg_decode` makes of one.
 */
module Messages {
  import opened Codec
  import opened CodecBuffer
  import opened CodecRoundTrip
  import opened Slices
  import opened Terms

  const TICK := 0
  const LINK := 1
  const SEND := 2
  const EXIT := 3
  const UNLINK := 4
  const REG_SEND := 6
  const GROUP_LEADER := 7
  const EXIT2 := 8
  const SEND_TT := 12
  const EXIT_TT := 13
  const REG_SEND_TT := 16
  const EXIT2_TT := 18
  const MONITOR_P := 19
  const DEMONITOR_P := 20
  const MONITOR_P_EXIT := 21
  const PASS_THROUGH: Byte := 112

  /** The type as a code (the source keeps the bit `1 << code`), control tuple and payload. */
  datatype Message = Message(code: nat, cntrl: seq<Term>, msg: Option<Term>)

  predicate CarriesPayload(code: nat) {
    code in {SEND, REG_SEND, SEND_TT, REG_SEND_TT}
  }

  // ----- accessors: the switch over the type, None where the source throws -----

  function Field(m: Message, k: nat): Option<Term> {
    if k < |m.cntrl| then Some(m.cntrl[k]) else None
  }

  function Sender(m: Message): Option<Term> {
    if m.code in {REG_SEND, LINK, UNLINK, EXIT, EXIT2, GROUP_LEADER, REG_SEND_TT, EXIT_TT,
                  EXIT2_TT, MONITOR_P, DEMONITOR_P, MONITOR_P_EXIT}
    then Field(m, 1) else None
  }

  function Recipient(m: Message): Option<Term> {
    if m.code == REG_SEND then Field(m, 3)
    else if m.code == REG_SEND_TT then Field(m, 4)
    else if m.code in {SEND, LINK, UNLINK, EXIT, EXIT2, GROUP_LEADER, SEND_TT, EXIT_TT,
                       EXIT2_TT, MONITOR_P, DEMONITOR_P, MONITOR_P_EXIT}
    then Field(m, 2) else None
  }

  function Reason(m: Message): Option<Term> {
    if m.code in {EXIT, EXIT2} then Field(m, 3)
    else if m.code in {EXIT_TT, EXIT2_TT, MONITOR_P_EXIT} then Field(m, 4)
    else None
  }

  function Reference(m: Message): Option<Term> {
    if m.code in {MONITOR_P, DEMONITOR_P, MONITOR_P_EXIT} then Field(m, 3) else None
  }

  // ----- the message object -----

  class TransportMsg {
    var code: nat
    var cntrl: seq<Term>
    var msg: Option<Term>

    ghost function Value(): Message
      reads this
    {
      Message(code, cntrl, msg)
    }

    constructor ()
      ensures Value() == Message(TICK, [], None)
    {
      code, cntrl, msg := TICK, [], None;
    }

    method Set(code: nat, cntrl: seq<Term>, msg: Option<Term>)
      modifies this
      ensures Value() == Message(code, cntrl, msg)
    {
      this.code := code;
      this.cntrl := cntrl;
      this.msg := msg;
    }

    method SetSend(to: Term, payload: Term)
      modifies this
      ensures Value() == Message(2, [Long(2), Atom([]), to], Some(payload))
      ensures Recipient(Value()) == Some(to) && WellBuilt(Value())
    {
      Set(SEND, [Long(SEND), Atom([]), to], Some(payload));
    }

    method SetRegSend(from: Term, to: Name, payload: Term)
      modifies this
      ensures Value() == Message(6, [Long(6), from, Atom([]), Atom(to)], Some(payload))
      ensures Sender(Value()) == Some(from) && Recipient(Value()) == Some(Atom(to)) && WellBuilt(Value())
    {
      Set(REG_SEND, [Long(REG_SEND), from, Atom([]), Atom(to)], Some(payload));
    }

    method SetExit(from: Term, to: Term, reason: Term)
      modifies this
      ensures Value() == Message(3, [Long(3), from, to, reason], None)
      ensures ExitOf(Value(), from, to, reason)
    {
      Set(EXIT, [Long(EXIT), from, to, reason], None);
    }

    method SetExit2(from: Term, to: Term, reason: Term)
      modifies this
      ensures Value() == Message(8, [Long(8), from, to, reason], None)
      ensures ExitOf(Value(), from, to, reason)
    {
      Set(EXIT2, [Long(EXIT2), from, to, reason], None);
    }

    /** `to` is a pid or the atom of a registered name. */
    method SetMonitor(from: Term, to: Term, r: Term)
      modifies this
      ensures Value() == Message(19, [Long(19), from, to, r], None)
      ensures MonitorOf(Value(), from, to, r)
    {
      Set(MONITOR_P, [Long(MONITOR_P), from, to, r], None);
    }

    method SetDemonitor(from: Term, to: Term, r: Term)
      modifies this
      ensures Value() == Message(20, [Long(20), from, to, r], None)
      ensures MonitorOf(Value(), from, to, r)
    {
      Set(DEMONITOR_P, [Long(DEMONITOR_P), from, to, r], None);
    }

    method SetMonitorExit(from: Term, to: Term, r: Term, reason: Term)
      modifies this
      ensures Value() == Message(21, [Long(21), from, to, r, reason], None)
      ensures MonitorOf(Value(), from, to, r) && Reason(Value()) == Some(reason)
    {
      Set(MONITOR_P_EXIT, [Long(MONITOR_P_EXIT), from, to, r, reason], None);
    }
  }

  ghost predicate ExitOf(m: Message, from: Term, to: Term, reason: Term) {
    && Sender(m) == Some(from) && Recipient(m) == Some(to) && Reason(m) == Some(reason)
    && |m.cntrl| == 4 && m.msg.None? && WellBuilt(m)
  }

  ghost predicate MonitorOf(m: Message, from: Term, to: Term, r: Term) {
    && Sender(m) == Some(from) && Recipient(m) == Some(to) && Reference(m) == Some(r)
    && m.msg.None? && WellBuilt(m)
  }

  /** What the constructors above establish: type and payload agree with the control tuple. */
  predicate WellBuilt(m: Message) {
    && LINK <= m.code <= MONITOR_P_EXIT
    && m.cntrl != [] && m.cntrl[0] == Long(m.code)
    && (m.msg.Some? <==> CarriesPayload(m.code))
  }

  predicate Sendable(m: Message) {
    && WellBuilt(m)
    && Encodable(Tuple(m.cntrl))
    && (m.msg.Some? ==> Encodable(m.msg.value))
    && |Body(m)| < 0x1_0000_0000
  }

  // ----- framing -----

  function Versioned(t: Term): Bytes
    requires Encodable(t)
  {
    [VERSION_MAGIC] + Encode(t)
  }

  /** Everything behind the length field. */
  function Body(m: Message): Bytes
    requires Encodable(Tuple(m.cntrl)) && (m.msg.Some? ==> Encodable(m.msg.value))
  {
    [PASS_THROUGH] + Versioned(Tuple(m.cntrl)) + Payload(m)
  }

  function Frame(m: Message): Bytes
    requires Sendable(m)
  {
    Be32(|Body(m)|) + Body(m)
  }

  method WriteVersioned(t: Term, buf: array<Byte>, idx: nat) returns (idx': nat)
    requires Encodable(t) && idx + |Versioned(t)| <= buf.Length
    modifies buf
    ensures idx' == idx + |Versioned(t)| && Written(buf[..], old(buf[..]), idx, Versioned(t))
  {
    ghost var b0 := buf[..];
    idx' := Put8(buf, idx, VERSION_MAGIC);
    ghost var b1 := buf[..];
    idx' := EncodeInto(t, buf, idx');
    WrittenThen(b0, b1, buf[..], idx, [VERSION_MAGIC], Encode(t));
  }

  method WriteHead(len: nat, buf: array<Byte>) returns (idx': nat)
    requires len < 0x1_0000_0000 && 5 <= buf.Length
    modifies buf
    ensures idx' == 5 && Written(buf[..], old(buf[..]), 0, Be32(len) + [PASS_THROUGH])
  {
    ghost var b0 := buf[..];
    idx' := Put32(buf, 0, len);
    ghost var b1 := buf[..];
    idx' := Put8(buf, idx', PASS_THROUGH);
    WrittenThen(b0, b1, buf[..], 0, Be32(len), [PASS_THROUGH]);
  }

  function Payload(m: Message): Bytes
    requires m.msg.Some? ==> Encodable(m.msg.value)
  {
    if m.msg.Some? then Versioned(m.msg.value) else []
  }

  method WriteParts(m: Message, len: nat, buf: array<Byte>)
    requires Sendable(m) && len < 0x1_0000_0000
    requires 5 + |Versioned(Tuple(m.cntrl))| + |Payload(m)| <= buf.Length
    modifies buf
    ensures Written(buf[..], old(buf[..]), 0,
                    Be32(len) + [PASS_THROUGH] + Versioned(Tuple(m.cntrl)) + Payload(m))
  {
    var cntrl := Tuple(m.cntrl);
    ghost var b0 := buf[..];
    var s := WriteHead(len, buf);
    ghost var b1, w1 := buf[..], Be32(len) + [PASS_THROUGH];
    s := WriteVersioned(cntrl, buf, s);
    ghost var b2 := buf[..];
    WrittenThen(b0, b1, b2, 0, w1, Versioned(cntrl));
    if m.msg.Some? {
      s := WriteVersioned(m.msg.value, buf, s);
      WrittenThen(b0, b2, buf[..], 0, w1 + Versioned(cntrl), Versioned(m.msg.value));
    } else {
      assert w1 + Versioned(cntrl) + [] == w1 + Versioned(cntrl);
    }
  }

  lemma FrameIs(m: Message)
    requires Sendable(m)
    ensures Frame(m) == Be32(|Body(m)|) + [PASS_THROUGH] + Versioned(Tuple(m.cntrl)) + Payload(m)
  {
    var (v, p) := (Versioned(Tuple(m.cntrl)), Payload(m));
    Regroup(Be32(|Body(m)|), [PASS_THROUGH], v, p);
  }

  lemma Regroup(a: Bytes, b: Bytes, c: Bytes, d: Bytes)
    ensures a + (b + c + d) == a + b + c + d
  {
  }

  /** `connection::send`: sizes first, then the frame is written into one buffer. */
  method WriteFrame(m: Message) returns (frame: Bytes)
    requires Sendable(m)
    ensures frame == Frame(m)
  {
    var cntrl := Tuple(m.cntrl);
    SizeIsExact(cntrl);
    var cntrlSize := PacketSize(cntrl, 0, true);
    var msgSize := 0;
    if m.msg.Some? {
      SizeIsExact(m.msg.value);
      msgSize := PacketSize(m.msg.value, 0, true);
    }
    var size := cntrlSize + msgSize + 1 + 4;
    var data := new Byte[size](_ => 0);
    assert size == |Body(m)| + 4;
    WriteParts(m, size - 4, data);
    FrameIs(m);
    MatchesSlice(data[..], 0, Frame(m));
    frame := data[..];
  }

  // ----- decoding -----

  datatype Received =
    | Tick
    | Received(m: Message)
    | NoPassThrough
    | BadVersion
    | BadControl
    | BadType
    | Undecodable(failure: DecodeFailure)

  predicate VersionAt(b: Bytes, i: nat) {
    i < |b| && b[i] == VERSION_MAGIC
  }

  /** The control tuple at `i`; the source leaves anything but a tuple undefined. */
  function ControlAt(b: Bytes, i: nat): (r: Decoded<seq<Term>>)
    ensures r.Ok? ==> i < r.pos <= |b|
  {
    if i >= |b| then Err(EmptyTerm)
    else if b[i] != SMALL_TUPLE_EXT && b[i] != LARGE_TUPLE_EXT then Err(Unsupported)
    else
      match Decode(b, i)
      case Ok(Tuple(es), pos) => Ok(es, pos)
      case Ok(_, _) => Err(Unsupported)
      case Err(e) => Err(e)
  }

  /** `transport_msg_decode` on the bytes of one frame, without its length field. */
  function Receive(b: Bytes): Received {
    if b == [] then Tick
    else if b[0] != PASS_THROUGH then NoPassThrough
    else if !VersionAt(b, 1) then BadVersion
    else
      match ControlAt(b, 2)
      case Err(e) => Undecodable(e)
      case Ok(cntrl, pos) =>
        if cntrl == [] || !cntrl[0].Long? then BadControl
        else
          var code := cntrl[0].value;
          if code <= TICK || code > MONITOR_P_EXIT then BadType
          else if !CarriesPayload(code) then Received(Message(code, cntrl, None))
          else if !VersionAt(b, pos) then BadVersion
          else
            match Decode(b, pos + 1)
            case Err(e) => Undecodable(e)
            case Ok(t, _) => Received(Message(code, cntrl, Some(t)))
  }

  method TransportMsgDecode(b: Bytes) returns (r: Received)
    ensures r == Receive(b)
  {
    if |b| == 0 {
      return Tick;
    }
    if b[0] != PASS_THROUGH {
      return NoPassThrough;
    }
    if !VersionAt(b, 1) {
      return BadVersion;
    }
    if 2 >= |b| {
      return Undecodable(EmptyTerm);
    }
    if b[2] != SMALL_TUPLE_EXT && b[2] != LARGE_TUPLE_EXT {
      return Undecodable(Unsupported);
    }
    var c := ReadTuple(b, 2);
    if c.Err? {
      return Undecodable(c.failure);
    }
    var cntrl := c.value.elems;
    if cntrl == [] || !cntrl[0].Long? {
      return BadControl;
    }
    var code := cntrl[0].value;
    if code <= TICK || code > MONITOR_P_EXIT {
      return BadType;
    }
    if !CarriesPayload(code) {
      return Received(Message(code, cntrl, None));
    }
    if !VersionAt(b, c.pos) {
      return BadVersion;
    }
    var t := ReadTerm(b, c.pos + 1);
    r := if t.Err? then Undecodable(t.failure) else Received(Message(code, cntrl, Some(t.value)));
  }

  // ----- the round trip -----

  function NormMessage(m: Message): Message {
    Message(m.code, NormAll(m.cntrl), match m.msg case None => None case Some(t) => Some(Norm(t)))
  }

  lemma ControlDecodes(b: Bytes, i: nat, cntrl: seq<Term>)
    requires Encodable(Tuple(cntrl)) && Matches(b, i, Encode(Tuple(cntrl)))
    ensures ControlAt(b, i) == Ok(NormAll(cntrl), i + |Encode(Tuple(cntrl))|)
  {
    DecodeUndoesEncode(Tuple(cntrl), b, i);
    var hdr := TupleHeader(|cntrl|);
    MatchesParts(b, i, hdr, EncodeAll(cntrl));
    MatchesAt(b, i, hdr, 0);
  }

  lemma VersionedReads(b: Bytes, i: nat, t: Term)
    requires Encodable(t) && Matches(b, i, Versioned(t))
    ensures VersionAt(b, i) && Matches(b, i + 1, Encode(t))
  {
    MatchesParts(b, i, [VERSION_MAGIC], Encode(t));
    MatchesAt(b, i, [VERSION_MAGIC], 0);
  }

  lemma BodyParts(m: Message)
    requires Encodable(Tuple(m.cntrl)) && (m.msg.Some? ==> Encodable(m.msg.value))
    ensures var b, w := Body(m), Versioned(Tuple(m.cntrl));
            && b[0] == PASS_THROUGH && Matches(b, 1, w)
            && (m.msg.Some? ==> Matches(b, 1 + |w|, Versioned(m.msg.value)))
  {
    var b, w := Body(m), Versioned(Tuple(m.cntrl));
    var p := if m.msg.Some? then Versioned(m.msg.value) else [];
    MatchesPrefix(b, b);
    ThreeParts(b, 0, [PASS_THROUGH], w, p);
  }

  lemma LengthReads(body: Bytes)
    requires |body| < 0x1_0000_0000
    ensures var f := Be32(|body|) + body; |f| == |body| + 4 && Get32(f, 0) == |body| && f[4..] == body
  {
    var f := Be32(|body|) + body;
    MatchesPrefix(f, Be32(|body|));
    Get32Reads(f, 0, |body|);
  }

  lemma NormKeepsCode(m: Message)
    requires Sendable(m)
    ensures |NormAll(m.cntrl)| == |m.cntrl| > 0 && NormAll(m.cntrl)[0] == m.cntrl[0] == Long(m.code)
    ensures WellBuilt(NormMessage(m))
  {
    assert Norm(m.cntrl[0]) == Long(m.code);
  }

  /** What is received once all the parts of a body have been read. */
  lemma PartsReceived(b: Bytes, m: Message, pos: nat, end: nat)
    requires b != [] && b[0] == PASS_THROUGH && VersionAt(b, 1)
    requires ControlAt(b, 2) == Ok(m.cntrl, pos) && WellBuilt(m)
    requires m.msg.Some? ==> VersionAt(b, pos) && Decode(b, pos + 1) == Ok(m.msg.value, end)
    ensures Receive(b) == Received(m)
  {
  }

  lemma PayloadDecodes(b: Bytes, pos: nat, t: Term)
    requires Encodable(t) && Matches(b, pos, Versioned(t))
    ensures VersionAt(b, pos) && Decode(b, pos + 1) == Ok(Norm(t), pos + 1 + |Encode(t)|)
  {
    VersionedReads(b, pos, t);
    DecodeUndoesEncode(t, b, pos + 1);
  }

  lemma HeadDecodes(b: Bytes, m: Message)
    requires Sendable(m) && Matches(b, 1, Versioned(Tuple(m.cntrl)))
    ensures VersionAt(b, 1)
    ensures ControlAt(b, 2) == Ok(NormAll(m.cntrl), 1 + |Versioned(Tuple(m.cntrl))|)
  {
    VersionedReads(b, 1, Tuple(m.cntrl));
    ControlDecodes(b, 2, m.cntrl);
  }

  lemma BodyReceived(m: Message)
    requires Sendable(m)
    ensures Receive(Body(m)) == Received(NormMessage(m))
  {
    var b, pos := Body(m), 1 + |Versioned(Tuple(m.cntrl))|;
    BodyParts(m);
    HeadDecodes(b, m);
    NormKeepsCode(m);
    if m.msg.Some? {
      PayloadDecodes(b, pos, m.msg.value);
      PartsReceived(b, NormMessage(m), pos, pos + 1 + |Encode(m.msg.value)|);
    } else {
      PartsReceived(b, NormMessage(m), pos, pos);
    }
  }

  /**
   * Every message that the constructors can build, sent and received: the length field
   * counts the bytes behind it, and those bytes decode to the same type, control tuple
   * and payload, up to normal form.
   */
  lemma ReceiveUndoesSend(m: Message)
    requires Sendable(m)
    ensures Get32(Frame(m), 0) == |Frame(m)| - 4
    ensures Receive(Frame(m)[4..]) == Received(NormMessage(m))
    ensures WellBuilt(NormMessage(m))
  {
    LengthReads(Body(m));
    BodyReceived(m);
    NormKeepsCode(m);
  }
}
