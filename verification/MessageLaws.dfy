/** Distribution messages in literal bytes and codes: what is sent, and what is taken from a frame. */
module MessageLaws {
  import opened Codec
  import opened CodecBuffer
  import opened CodecRoundTrip
  import opened Messages
  import opened Terms
  import opened Wire
  import WireExact

  // ----- accessors -----

  /** Where the sender stands, for LINK, EXIT, UNLINK, REG_SEND, GROUP_LEADER, EXIT2 and the rest. */
  lemma SenderIs(m: Message)
    ensures Sender(m) ==
      if m.code in {1, 3, 4, 6, 7, 8, 13, 16, 18, 19, 20, 21} && 2 <= |m.cntrl| then Some(m.cntrl[1]) else None
  {
  }

  lemma RecipientIs(m: Message)
    ensures Recipient(m) ==
      if m.code in {1, 2, 3, 4, 7, 8, 12, 13, 18, 19, 20, 21} && 3 <= |m.cntrl| then Some(m.cntrl[2])
      else if m.code == 6 && 4 <= |m.cntrl| then Some(m.cntrl[3])
      else if m.code == 16 && 5 <= |m.cntrl| then Some(m.cntrl[4])
      else None
  {
  }

  lemma ReasonIs(m: Message)
    ensures Reason(m) ==
      if m.code in {3, 8} && 4 <= |m.cntrl| then Some(m.cntrl[3])
      else if m.code in {13, 18, 21} && 5 <= |m.cntrl| then Some(m.cntrl[4])
      else None
  {
  }

  lemma ReferenceIs(m: Message)
    ensures Reference(m) == if m.code in {19, 20, 21} && 4 <= |m.cntrl| then Some(m.cntrl[3]) else None
  {
  }

  // ----- what is sent -----

  /** The code stands first in the control tuple; SEND, REG_SEND and their traced forms have a payload. */
  lemma WellBuiltIff(m: Message)
    ensures WellBuilt(m) <==>
      && 1 <= m.code <= 21 && 1 <= |m.cntrl| && m.cntrl[0] == Long(m.code)
      && (m.msg.Some? <==> m.code in {2, 6, 12, 16})
  {
  }

  /** A packet: its length in `h` bytes, most significant first, the version byte if wanted, the term. */
  lemma PacketIs(t: Term, h: nat, withVersion: bool)
    requires Encodable(t) && h in {0, 1, 2, 4}
    ensures var rest := (if withVersion then [131] else []) + Encode(t);
      && PacketSize(t, h, withVersion) == h + |rest|
      && Packet(t, h, withVersion) ==
         (if h == 0 then [] else if h == 1 then [|rest| % 256]
          else if h == 2 then B2(|rest| % 65536) else B4(|rest| % 4294967296)) + rest
  {
    SizeIsExact(t);
    var v: Bytes := if withVersion then [131] else [];
    B4IsBe32(|v + Encode(t)| % 4294967296);
    Together(LengthField(h, |v + Encode(t)|), v, Encode(t));
  }

  lemma Together(u: Bytes, v: Bytes, w: Bytes)
    ensures u + v + w == u + (v + w)
  {
  }

  /** A message: the pass-through byte 112, the control tuple, and the payload if there is one. */
  function Spelled(m: Message): Bytes
    requires Sendable(m)
  {
    [112] + ([131] + Encode(Tuple(m.cntrl))) + if m.msg.Some? then [131] + Encode(m.msg.value) else []
  }

  /** A frame: its length in four bytes, most significant first, and the message. */
  lemma FrameSpells(m: Message)
    requires Sendable(m)
    ensures |Spelled(m)| < 4294967296 && Frame(m) == B4(|Spelled(m)|) + Spelled(m)
    ensures m.msg.Some? <==> m.code in {2, 6, 12, 16}
  {
    B4IsBe32(|Spelled(m)|);
  }

  // ----- what is received -----

  /** The control tuple of a message, behind the bytes 112 and 131. */
  ghost predicate Controls(b: Bytes, cntrl: seq<Term>, e: nat) {
    2 <= |b| && b[0] == 112 && b[1] == 131 && WireExact.Written(b, 2, Tuple(cntrl), e)
  }

  ghost predicate PaysTo(b: Bytes, i: nat, t: Term, e: nat) {
    i < |b| && b[i] == 131 && WireExact.Written(b, i + 1, t, e)
  }

  ghost predicate Pays(b: Bytes, i: nat, t: Term) {
    exists e :: PaysTo(b, i, t, e)
  }

  ghost predicate Stands(b: Bytes, m: Message, e: nat) {
    && Controls(b, m.cntrl, e)
    && m.cntrl != [] && m.cntrl[0] == Long(m.code) && 1 <= m.code <= 21
    && if m.code in {2, 6, 12, 16} then m.msg.Some? && Pays(b, e, m.msg.value) else m.msg.None?
  }

  lemma SimpleIsNoTuple(b: Bytes, i: nat)
    ensures DecodeSimple(b, i).Ok? ==> !DecodeSimple(b, i).value.Tuple?
  {
  }

  lemma OnlyTuples(b: Bytes, i: nat)
    requires i < |b| && b[i] != 104 && b[i] != 105
    ensures Decode(b, i).Ok? ==> !Decode(b, i).value.Tuple?
  {
    if b[i] == 108 {
      assert Decode(b, i) == ListAt(b, Codec.Simple(b), i);
    } else {
      assert Decode(b, i) == Codec.Simple(b)(i) == DecodeSimple(b, i);
      SimpleIsNoTuple(b, i);
    }
  }

  lemma ControlIff(b: Bytes, cntrl: seq<Term>, e: nat)
    requires 2 <= |b|
    ensures ControlAt(b, 2) == Ok(cntrl, e) <==> WireExact.Written(b, 2, Tuple(cntrl), e)
  {
    WireExact.DecodeIffWire(b, 2, Tuple(cntrl), e);
    if 2 < |b| && b[2] != 104 && b[2] != 105 { OnlyTuples(b, 2); }
  }

  /** What is taken from a body whose control tuple is known. */
  function Taken(b: Bytes, cntrl: seq<Term>, e: nat): Received {
    if cntrl == [] || !cntrl[0].Long? then BadControl
    else if !(1 <= cntrl[0].value <= 21) then BadType
    else if cntrl[0].value !in {2, 6, 12, 16} then Received(Message(cntrl[0].value, cntrl, None))
    else if !(e < |b| && b[e] == 131) then BadVersion
    else
      var r := Decode(b, e + 1);
      if r.Ok? then Received(Message(cntrl[0].value, cntrl, Some(r.value))) else Undecodable(r.failure)
  }

  lemma TakenIs(b: Bytes, cntrl: seq<Term>, e: nat)
    requires 2 <= |b| && b[0] == 112 && b[1] == 131 && ControlAt(b, 2) == Ok(cntrl, e)
    ensures Receive(b) == Taken(b, cntrl, e)
  {
  }

  lemma PaysIff(b: Bytes, i: nat, t: Term)
    requires i < |b| && b[i] == 131
    ensures Pays(b, i, t) <==> Decode(b, i + 1).Ok? && Decode(b, i + 1).value == t
  {
    var r := Decode(b, i + 1);
    if r.Ok? {
      WireExact.DecodeIffWire(b, i + 1, r.value, r.pos);
      assert PaysTo(b, i, r.value, r.pos);
    }
    if Pays(b, i, t) {
      var e :| PaysTo(b, i, t, e);
      WireExact.DecodeIffWire(b, i + 1, t, e);
    }
  }

  /** A message is received exactly when one stands in the bytes. */
  lemma ReceivedIff(b: Bytes, m: Message)
    ensures Receive(b) == Received(m) <==> exists e :: Stands(b, m, e)
  {
    if Receive(b) == Received(m) {
      var c := ControlAt(b, 2);
      ControlIff(b, c.value, c.pos);
      TakenIs(b, c.value, c.pos);
      if m.code in {2, 6, 12, 16} { PaysIff(b, c.pos, m.msg.value); }
      assert Stands(b, m, c.pos);
    }
    if e :| Stands(b, m, e) {
      ControlIff(b, m.cntrl, e);
      TakenIs(b, m.cntrl, e);
      if m.code in {2, 6, 12, 16} { PaysIff(b, e, m.msg.value); }
    }
  }

  /** Each refusal, by the bytes that cause it. */
  lemma RefusedIff(b: Bytes)
    ensures Receive(b) == Tick <==> b == []
    ensures Receive(b) == NoPassThrough <==> b != [] && b[0] != 112
    ensures Receive(b) == BadControl <==>
      exists cntrl: seq<Term>, e: nat :: Controls(b, cntrl, e) && (cntrl == [] || !cntrl[0].Long?)
    ensures Receive(b) == BadType <==>
      exists cntrl: seq<Term>, e: nat ::
        Controls(b, cntrl, e) && cntrl != [] && cntrl[0].Long? && !(1 <= cntrl[0].value <= 21)
    ensures Receive(b) == BadVersion <==>
      || (b != [] && b[0] == 112 && (|b| < 2 || b[1] != 131))
      || exists cntrl: seq<Term>, e: nat :: Controls(b, cntrl, e) && cntrl != []
          && cntrl[0] in {Long(2), Long(6), Long(12), Long(16)} && !(e < |b| && b[e] == 131)
  {
    forall cntrl, e | Controls(b, cntrl, e) ensures Receive(b) == Taken(b, cntrl, e) {
      ControlIff(b, cntrl, e);
      TakenIs(b, cntrl, e);
    }
    if 2 <= |b| && b[0] == 112 && b[1] == 131 && ControlAt(b, 2).Ok? {
      var c := ControlAt(b, 2);
      ControlIff(b, c.value, c.pos);
      assert Controls(b, c.value, c.pos);
    }
  }
}
