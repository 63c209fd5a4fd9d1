/**
 * The connection object of the handshake: its handlers update its fields check by check, as
 * the completion handlers do. The object remembers what has completed, so what is proved
 * of every run holds of the object at any time.
 */
module HandshakeConnection {
  import opened Handshake
  import opened HandshakeSafety
  import opened Terms

  class TcpConnection {
    const cfg: Config
    var state: ConnState
    var version: nat
    var flags: bv64
    var remoteChallenge: nat
    var endpoints: nat
    var pending: seq<Op>
    var calls: seq<Callback>
    var sent: seq<Sent>
    ghost var trace: seq<Completion>    // all that has completed

    /** The value of all fields. */
    ghost function Now(): Conn
      reads this
    {
      Conn(state, version, flags, remoteChallenge, endpoints, pending, calls, sent)
    }

    /** The object is where the completions so far lead. */
    ghost predicate Valid()
      reads this
    {
      After(cfg, trace) == Some(Now())
    }

    constructor (cfg: Config)
      ensures Valid() && trace == [] && this.cfg == cfg
    {
      this.cfg := cfg;
      version, flags, remoteChallenge, endpoints, calls, sent := 0, 0, 0, 0, [], [];
      state, pending, trace := WaitResolve, [Resolve], [];
    }

    method OnFailure()
      modifies this
      ensures Now() == Fail(old(Now())) && trace == old(trace)
    {
      calls := calls + [OnConnectFailure];
    }

    method Begin(next: ConnState, op: Op)
      modifies this
      ensures Now() == Await(old(Now()), next, op) && trace == old(trace)
    {
      state := next;
      pending := pending + [op];
    }

    method Resolved(x: Completion)
      requires Entered(Now(), WaitResolve) && (x.Failed? || (x.Resolved? && x.endpoints > 0))
      modifies this
      ensures Now() == HandleResolve(old(Now()), x) && trace == old(trace)
    {
      if x.Failed? {
        OnFailure();
        return;
      }
      endpoints := x.endpoints - 1;
      Begin(WaitEpmdConnect, EpmdConnect);
    }

    method EpmdConnected(ok: bool)
      requires Entered(Now(), WaitEpmdConnect)
      modifies this
      ensures Now() == HandleEpmdConnect(old(Now()), ok) && trace == old(trace)
    {
      if ok {
        Begin(WaitEpmdWriteDone, EpmdWrite);
      } else if endpoints > 0 {
        endpoints := endpoints - 1;
        pending := pending + [EpmdConnect];
      } else {
        OnFailure();
      }
    }

    method EpmdWritten(ok: bool)
      requires Entered(Now(), WaitEpmdWriteDone)
      modifies this
      ensures Now() == HandleEpmdWrite(old(Now()), ok) && trace == old(trace)
    {
      if !ok {
        OnFailure();
        return;
      }
      Begin(WaitEpmdReply, EpmdReadHeader);
    }

    method EpmdHeaderRead(x: Completion)
      requires Entered(Now(), WaitEpmdReply) && (x.Failed? || x.EpmdHeader?)
      modifies this
      ensures Now() == HandleEpmdReadHeader(old(Now()), x) && trace == old(trace)
    {
      if x.Failed? {
        OnFailure();
        return;
      }
      if x.kind != EPMD_PORT2_RESP {
        OnFailure();
        return;
      }
      if x.result != 0 {
        OnFailure();
        return;
      }
      if x.distHigh.None? {
        pending := pending + [EpmdReadBody];
      } else {
        EpmdBodyRead(EpmdBody(x.distHigh.value));
      }
    }

    /** The version is the lower of the reported one and 6; below 5 the attempt ends here. */
    method EpmdBodyRead(x: Completion)
      requires Entered(Now(), WaitEpmdReply) && (x.Failed? || x.EpmdBody?)
      modifies this
      ensures version == if x.Failed? then old(version) else Min(x.high, 6)
      ensures if x.EpmdBody? && x.high >= 5
              then state == WaitConnect && pending == [Connect] && calls == []
              else state == old(state) && pending == [] && calls == [OnConnectFailure]
      ensures unchanged(this`flags, this`remoteChallenge, this`endpoints, this`sent, this`trace)
    {
      if x.Failed? {
        OnFailure();
        return;
      }
      version := if x.high > DIST_6 then DIST_6 else x.high;
      if version <= 4 {
        OnFailure();
        return;
      }
      Begin(WaitConnect, Connect);
    }

    /** A node looked up with version 5 is greeted the old way, unless our name is too long. */
    method PeerConnected(ok: bool)
      requires Entered(Now(), WaitConnect)
      modifies this
      ensures if ok && GreetingFits(cfg, version)
              then sent == old(sent) + [Greeting(version)] && calls == []
                   && state == WaitWriteChallengeDone && pending == [WriteName]
              else sent == old(sent) && calls == [OnConnectFailure] && state == old(state) && pending == []
      ensures unchanged(this`version, this`flags, this`remoteChallenge, this`endpoints, this`trace)
    {
      if !ok {
        OnFailure();
        return;
      }
      var tag := if version == DIST_5 then TAG_OLD else TAG_NEW;
      var size := 2 + 1 + 8 + 4 + 2 + cfg.nodeBytes;
      if tag == TAG_OLD {
        size := 2 + 1 + 2 + 4 + cfg.nodeBytes;
      }
      if size > NODE_BUFFER {
        OnFailure();
        return;
      }
      if tag == TAG_OLD {
        version := DIST_5;
      }
      sent := sent + [Name(tag, LOCAL_FLAGS)];
      Begin(WaitWriteChallengeDone, WriteName);
    }

    method NameWritten(ok: bool)
      requires Entered(Now(), WaitWriteChallengeDone)
      modifies this
      ensures Now() == HandleWriteName(old(Now()), ok) && trace == old(trace)
    {
      if !ok {
        OnFailure();
        return;
      }
      Begin(WaitStatus, ReadStatusHeader);
    }

    method StatusHeaderRead(x: Completion)
      requires Entered(Now(), WaitStatus) && (x.Failed? || x.StatusHeader?)
      modifies this
      ensures Now() == HandleReadStatusHeader(cfg, old(Now()), x) && trace == old(trace)
    {
      if x.Failed? {
        OnFailure();
        return;
      }
      if x.status.size > MAX_NODE + 8 {
        OnFailure();
        return;
      }
      if x.status.body.None? {
        pending := pending + [ReadStatusBody];
      } else {
        StatusBodyRead(StatusBody(x.status.body.value, x.next));
      }
    }

    method StatusBodyRead(x: Completion)
      requires Entered(Now(), WaitStatus) && (x.Failed? || x.StatusBody?)
      modifies this
      ensures Now() == HandleReadStatusBody(cfg, old(Now()), x) && trace == old(trace)
    {
      if x.Failed? {
        OnFailure();
        return;
      }
      if !(SOK <= x.payload) {
        OnFailure();
        return;
      }
      state := WaitChallenge;
      if |x.payload| > 3 && x.payload[3] != 0 {
        OnFailure();
        return;
      }
      if x.next.Some? {
        ChallengeHeaderRead(ChallengeHeader(x.next.value));
      } else {
        pending := pending + [ReadChallengeHeader];
      }
    }

    method ChallengeHeaderRead(x: Completion)
      requires Entered(Now(), WaitChallenge) && (x.Failed? || x.ChallengeHeader?)
      modifies this
      ensures Now() == HandleReadChallengeHeader(cfg, old(Now()), x) && trace == old(trace)
    {
      if x.Failed? {
        OnFailure();
        return;
      }
      var fixed := if version == DIST_5 then 11 else 19;
      if x.challenge.size > MAX_NODE + fixed {
        OnFailure();
        return;
      }
      if x.challenge.body.None? {
        pending := pending + [ReadChallengeBody];
      } else {
        ChallengeBodyRead(ChallengeBody(x.challenge.body.value));
      }
    }

    /** Reads the version, the flags and the challenge; false if the layout is refused. */
    method ReadFields(m: Challenge) returns (ok: bool)
      requires m.tag == TAG_OLD || m.tag == TAG_NEW
      modifies this
      ensures Now() == Noted(old(Now()), m) && trace == old(trace)
      ensures ok == LaidOut(m)
    {
      var nameLen;
      if m.tag == TAG_OLD {
        version := m.version;
        if version != DIST_5 {
          return false;
        }
        flags, remoteChallenge, nameLen := m.flags, m.challenge, m.room;
      } else {
        version := DIST_6;
        flags, remoteChallenge, nameLen := m.flags, m.challenge, m.nameLen;
        if nameLen > m.room {
          return false;
        }
      }
      return nameLen <= MAX_NODE;
    }

    /**
     * An acceptable challenge, and no other, is answered with the digest it asks for, after
     * a complement if it raises the version; any other one is noted and ends the attempt.
     */
    method ChallengeBodyRead(x: Completion)
      requires Entered(Now(), WaitChallenge) && (x.Failed? || x.ChallengeBody?)
      modifies this
      ensures Replying(Now()) <==> x.ChallengeBody? && Welcome(x.body)
      ensures Replying(Now()) ==>
        && state == WaitWriteChallengeReplyDone && calls == []
        && version == Spoken(x.body) && flags == x.body.flags && remoteChallenge == x.body.challenge
        && sent == old(sent)
           + (if Spoken(x.body) > old(version) then [Complement(4, cfg.creation)] else [])
           + [Reply(cfg.challenge, cfg.digest(x.body.challenge, cfg.cookie))]
      ensures !Replying(Now()) ==> Now() == Fail(if x.Failed? then old(Now()) else Noted(old(Now()), x.body))
      ensures unchanged(this`endpoints, this`trace)
    {
      if x.Failed? {
        OnFailure();
        return;
      }
      if x.body.tag != TAG_OLD && x.body.tag != TAG_NEW {
        OnFailure();
        return;
      }
      var before := version;
      var ok := ReadFields(x.body);
      if !ok || flags & EXTENDED_REFERENCES == 0 || flags & EXTENDED_PIDS_PORTS == 0 || flags & NEW_FLOATS == 0 {
        OnFailure();
        return;
      }
      if version > before {
        sent := sent + [Complement(LOCAL_FLAGS >> 32, cfg.creation)];
      }
      sent := sent + [Reply(cfg.challenge, cfg.digest(remoteChallenge, cfg.cookie))];
      Begin(WaitWriteChallengeReplyDone, WriteChallengeReply);
    }

    method ReplyWritten(ok: bool)
      requires Entered(Now(), WaitWriteChallengeReplyDone)
      modifies this
      ensures Now() == HandleWriteChallengeReply(old(Now()), ok) && trace == old(trace)
    {
      if !ok {
        OnFailure();
        return;
      }
      Begin(WaitChallengeAck, ReadAckHeader);
    }

    method AckHeaderRead(x: Completion)
      requires Entered(Now(), WaitChallengeAck) && (x.Failed? || x.AckHeader?)
      modifies this
      ensures Now() == HandleReadAckHeader(cfg, old(Now()), x) && trace == old(trace)
    {
      if x.Failed? {
        OnFailure();
        return;
      }
      if x.ack.size > NODE_BUFFER - 2 {
        OnFailure();
        return;
      }
      if x.ack.body.None? {
        pending := pending + [ReadAckBody];
      } else {
        AckBodyRead(AckBody(x.ack.body.value));
      }
    }

    /** Connected if and only if the acknowledgement has the right tag and digest. */
    method AckBodyRead(x: Completion)
      requires Entered(Now(), WaitChallengeAck) && (x.Failed? || x.AckBody?)
      modifies this
      ensures state.Connected? <==> AckIn(x) == Some(Ack(97, cfg.digest(cfg.challenge, cfg.cookie)))
      ensures if state.Connected? then pending == [ReadLoop] && calls == [OnConnect]
              else state == old(state) && pending == [] && calls == [OnConnectFailure]
      ensures unchanged(this`version, this`flags, this`remoteChallenge, this`endpoints, this`sent, this`trace)
    {
      if x.Failed? {
        OnFailure();
        return;
      }
      if x.reply.tag != TAG_ACK {
        OnFailure();
        return;
      }
      if x.reply.digest != cfg.digest(cfg.challenge, cfg.cookie) {
        OnFailure();
        return;
      }
      calls := calls + [OnConnect];
      Begin(Connected, ReadLoop);
    }

    method DispatchOpening(op: Op, x: Completion)
      requires Entered(Now(), Expected(op)) && Fits(op, x)
      requires op in {Resolve, EpmdConnect, EpmdWrite, EpmdReadHeader, EpmdReadBody, Connect, WriteName}
      modifies this
      ensures Now() == Step(cfg, old(Now()).(pending := [op]), x) && trace == old(trace)
    {
      assert [op][1..] == [];
      match op
      case Resolve => Resolved(x);
      case EpmdConnect => EpmdConnected(x.Done?);
      case EpmdWrite => EpmdWritten(x.Done?);
      case EpmdReadHeader => EpmdHeaderRead(x);
      case EpmdReadBody => EpmdBodyRead(x);
      case Connect => PeerConnected(x.Done?);
      case WriteName => NameWritten(x.Done?);
    }

    method Dispatch(op: Op, x: Completion)
      requires Entered(Now(), Expected(op)) && Fits(op, x)
      modifies this
      ensures Now() == Step(cfg, old(Now()).(pending := [op]), x) && trace == old(trace)
    {
      assert [op][1..] == [];
      if op in {Resolve, EpmdConnect, EpmdWrite, EpmdReadHeader, EpmdReadBody, Connect, WriteName} {
        DispatchOpening(op, x);
        return;
      }
      match op
      case ReadStatusHeader => StatusHeaderRead(x);
      case ReadStatusBody => StatusBodyRead(x);
      case ReadChallengeHeader => ChallengeHeaderRead(x);
      case ReadChallengeBody => ChallengeBodyRead(x);
      case WriteChallengeReply => ReplyWritten(x.Done?);
      case ReadAckHeader => AckHeaderRead(x);
      case ReadAckBody => AckBodyRead(x);
    }

    /** The pending operation completes and its handler runs. */
    method Complete(x: Completion)
      requires Valid() && pending != [] && Fits(pending[0], x)
      modifies this
      ensures Valid() && trace == old(trace) + [x] && Now() == Step(cfg, old(Now()), x)
      ensures |pending| <= 1 && |calls| <= 1 && (calls == [] <==> pending != [] && !pending[0].ReadLoop?)
      ensures Left(Now()) < old(Left(Now())) + if x.Resolved? then x.endpoints else 0
    {
      StepMakesProgress(cfg, Now(), x);
      Extend(cfg, trace, Now(), x);
      var op := pending[0];
      pending := [];
      Dispatch(op, x);
      trace := trace + [x];
    }

    /** Lets operation after operation complete as `world` decides, to the end. */
    method RunToOutcome(world: (Op, nat) -> Completion)
      requires Valid() && trace == []
      requires forall op: Op, k: nat :: !op.ReadLoop? ==> Fits(op, world(op, k))
      modifies this
      ensures Valid() && |calls| == 1
      ensures calls == [OnConnect] <==> state.Connected?
    {
      var k := 0;
      RunsAreBounded(cfg, trace);
      while calls == []
        invariant Valid() && Sound(Now())
        invariant pending == [Resolve] <==> trace == []
        decreases if trace == [] then 1 else 0, Left(Now())
      {
        NoReturnToResolve(cfg, Now(), world(pending[0], k));
        Complete(world(pending[0], k));
        k := k + 1;
      }
    }

    /** The version and capabilities agreed with the peer, once there is one. */
    method Peer() returns (r: Option<(nat, bv64)>)
      requires Valid()
      ensures r == if state.Connected? then Some((version, flags)) else None
      ensures r.Some? ==> version == 5 || version == 6
      ensures r.Some? ==> flags & 4 != 0 && flags & 0x100 != 0 && flags & 0x800 != 0
      ensures r.Some? ==> trace != [] && Acknowledged(cfg, trace[|trace| - 1])
      ensures r.Some? ==> StatusHeard(trace) && Answered(cfg, trace, version, flags, sent)
      ensures r.Some? ==> sent != []
      ensures r.Some? ==> (Complements(sent) <==> sent[0] == Name(110, 0x4_0107_4f9c) && version == 6)
    {
      if state.Connected? {
        ConnectedIsAuthenticated(cfg, trace, Now());
        RunJustified(cfg, trace);
        r := Some((version, flags));
      } else {
        r := None;
      }
    }
  }
}
