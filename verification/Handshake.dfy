/**
 * The outgoing connection handshake: the handlers that run when an asynchronous
 * operation completes, as steps on the state of the connection. Input arrives as whole
 * messages; names follow the "Distribution Handshake" section of the ERTS User's Guide.
 */
module Handshake {
  import opened Terms

  datatype ConnState =
    | WaitResolve | WaitEpmdConnect | WaitEpmdWriteDone | WaitEpmdReply | WaitConnect
    | WaitWriteChallengeDone | WaitStatus | WaitChallenge | WaitWriteChallengeReplyDone
    | WaitChallengeAck | Connected

  /** The asynchronous operation whose completion runs the handler of the same name. */
  datatype Op =
    | Resolve | EpmdConnect | EpmdWrite | EpmdReadHeader | EpmdReadBody | Connect | WriteName
    | ReadStatusHeader | ReadStatusBody | ReadChallengeHeader | ReadChallengeBody
    | WriteChallengeReply | ReadAckHeader | ReadAckBody
    | ReadLoop    // the read loop of an established connection

  datatype Callback = OnConnect | OnConnectFailure

  /** A challenge; `room` is how many bytes follow its fixed part. */
  datatype Challenge = Challenge(tag: Byte, version: nat, flags: bv64, challenge: nat, nameLen: nat, room: nat)
  datatype Ack = Ack(tag: Byte, digest: seq<Byte>)

  /** The length of a frame, and its content if that has already arrived. */
  datatype Framed<+T> = Framed(size: nat, body: Option<T>)

  /** How an operation completes. `next` is what has already been read behind the status. */
  datatype Completion =
    | Failed
    | Resolved(endpoints: nat)
    | Done
    | EpmdHeader(kind: Byte, result: Byte, distHigh: Option<nat>)
    | EpmdBody(high: nat)
    | StatusHeader(status: Framed<seq<Byte>>, next: Option<Framed<Challenge>>)
    | StatusBody(payload: seq<Byte>, next: Option<Framed<Challenge>>)
    | ChallengeHeader(challenge: Framed<Challenge>)
    | ChallengeBody(body: Challenge)
    | AckHeader(ack: Framed<Ack>)
    | AckBody(reply: Ack)

  datatype Sent =
    | Name(tag: Byte, flags: bv64)
    | Complement(flagsHigh: bv64, creation: nat)
    | Reply(challenge: nat, digest: seq<Byte>)

  /** What is fixed for one connection; `digest` stands for MD5 over cookie and challenge. */
  datatype Config = Config(nodeBytes: nat, creation: nat, cookie: seq<Byte>, challenge: nat,
                           digest: (nat, seq<Byte>) -> seq<Byte>)

  datatype Conn = Conn(state: ConnState, version: nat, flags: bv64, remoteChallenge: nat,
                       endpoints: nat, pending: seq<Op>, calls: seq<Callback>, sent: seq<Sent>)

  const DIST_5 := 5
  const DIST_6 := 6
  const EPMD_PORT2_RESP: Byte := 119
  const MAX_NODE := 128
  const NODE_BUFFER := 256
  const TAG_OLD: Byte := 110        // n
  const TAG_NEW: Byte := 78         // N
  const TAG_ACK: Byte := 97         // a
  const SOK: seq<Byte> := [115, 111, 107]

  const EXTENDED_REFERENCES: bv64 := 4
  const EXTENDED_PIDS_PORTS: bv64 := 0x100
  const NEW_FLOATS: bv64 := 0x800
  const LOCAL_FLAGS: bv64 := 0x4_0107_4f9c

  predicate Capable(flags: bv64) {
    flags & EXTENDED_REFERENCES != 0 && flags & EXTENDED_PIDS_PORTS != 0 && flags & NEW_FLOATS != 0
  }

  /** The state that the handler of `op` asserts on entry. */
  function Expected(op: Op): ConnState {
    match op
    case Resolve => WaitResolve
    case EpmdConnect => WaitEpmdConnect
    case EpmdWrite => WaitEpmdWriteDone
    case EpmdReadHeader => WaitEpmdReply
    case EpmdReadBody => WaitEpmdReply
    case Connect => WaitConnect
    case WriteName => WaitWriteChallengeDone
    case ReadStatusHeader => WaitStatus
    case ReadStatusBody => WaitStatus
    case ReadChallengeHeader => WaitChallenge
    case ReadChallengeBody => WaitChallenge
    case WriteChallengeReply => WaitWriteChallengeReplyDone
    case ReadAckHeader => WaitChallengeAck
    case ReadAckBody => WaitChallengeAck
    case ReadLoop => Connected
  }

  /**
   * One operation is pending and no callback was made, or the handshake is over with
   * exactly one callback; the pending operation's handler will find the state it asserts.
   */
  predicate Sound(c: Conn) {
    && |c.pending| <= 1
    && (c.pending != [] ==> c.state == Expected(c.pending[0]))
    && (c.calls == [] <==> c.pending != [] && !c.pending[0].ReadLoop?)
    && (c.calls != [] ==> c.calls == [OnConnectFailure] || c.calls == [OnConnect])
    && (c.calls == [OnConnect] <==> c.pending == [ReadLoop])
    && (c.state.Connected? <==> c.pending == [ReadLoop])
  }

  /** What a handler finds: the state it asserts, its own operation over, no callback made. */
  predicate Entered(c: Conn, state: ConnState) {
    c.state == state && c.pending == [] && c.calls == []
  }

  // ----- handlers: each requires the state that the source asserts on entry -----

  /** `connect`: the state in which the first operation is started. */
  function Start(): Conn {
    Conn(WaitResolve, 0, 0, 0, 0, [Resolve], [], [])
  }

  function Fail(c: Conn): Conn {
    c.(calls := c.calls + [OnConnectFailure])
  }

  function Await(c: Conn, state: ConnState, op: Op): Conn {
    c.(state := state, pending := c.pending + [op])
  }

  function HandleResolve(c: Conn, x: Completion): (c': Conn)
    requires Entered(c, WaitResolve) && (x.Failed? || (x.Resolved? && x.endpoints > 0))
    ensures Sound(c')
  {
    if x.Failed? then Fail(c)
    else Await(c.(endpoints := x.endpoints - 1), WaitEpmdConnect, EpmdConnect)
  }

  function HandleEpmdConnect(c: Conn, ok: bool): (c': Conn)
    requires Entered(c, WaitEpmdConnect)
    ensures Sound(c')
  {
    if ok then Await(c, WaitEpmdWriteDone, EpmdWrite)
    else if c.endpoints > 0 then Await(c.(endpoints := c.endpoints - 1), WaitEpmdConnect, EpmdConnect)
    else Fail(c)
  }

  function HandleEpmdWrite(c: Conn, ok: bool): (c': Conn)
    requires Entered(c, WaitEpmdWriteDone)
    ensures Sound(c')
  {
    if ok then Await(c, WaitEpmdReply, EpmdReadHeader) else Fail(c)
  }

  function HandleEpmdReadHeader(c: Conn, x: Completion): (c': Conn)
    requires Entered(c, WaitEpmdReply) && (x.Failed? || x.EpmdHeader?)
    ensures Sound(c')
  {
    if x.Failed? || x.kind != EPMD_PORT2_RESP || x.result != 0 then Fail(c)
    else if x.distHigh.None? then Await(c, WaitEpmdReply, EpmdReadBody)
    else HandleEpmdReadBody(c, EpmdBody(x.distHigh.value))
  }

  function HandleEpmdReadBody(c: Conn, x: Completion): (c': Conn)
    requires Entered(c, WaitEpmdReply) && (x.Failed? || x.EpmdBody?)
    ensures Sound(c')
  {
    if x.Failed? then Fail(c)
    else
      var v := if x.high > DIST_6 then DIST_6 else x.high;
      if v <= 4 then Fail(c.(version := v)) else Await(c.(version := v), WaitConnect, Connect)
  }

  function HandleConnect(cfg: Config, c: Conn, ok: bool): (c': Conn)
    requires Entered(c, WaitConnect)
    ensures Sound(c')
  {
    if !ok then Fail(c)
    else
      var tag := if c.version == DIST_5 then TAG_OLD else TAG_NEW;
      var size := (if tag == TAG_OLD then 2 + 1 + 2 + 4 else 2 + 1 + 8 + 4 + 2) + cfg.nodeBytes;
      if size > NODE_BUFFER then Fail(c)
      else Await(c.(sent := c.sent + [Name(tag, LOCAL_FLAGS)]), WaitWriteChallengeDone, WriteName)
  }

  function HandleWriteName(c: Conn, ok: bool): (c': Conn)
    requires Entered(c, WaitWriteChallengeDone)
    ensures Sound(c')
  {
    if ok then Await(c, WaitStatus, ReadStatusHeader) else Fail(c)
  }

  function HandleReadStatusHeader(cfg: Config, c: Conn, x: Completion): (c': Conn)
    requires Entered(c, WaitStatus) && (x.Failed? || x.StatusHeader?)
    ensures Sound(c')
  {
    if x.Failed? || x.status.size > MAX_NODE + 8 then Fail(c)
    else if x.status.body.None? then Await(c, WaitStatus, ReadStatusBody)
    else HandleReadStatusBody(cfg, c, StatusBody(x.status.body.value, x.next))
  }

  /**
   * A local node name is always set, so the only acceptable status starts with `sok`. The
   * next header is read three bytes on, whatever the length of the status: in a longer one it
   * starts with the fourth byte, and is refused as too big unless that byte is 0.
   */
  predicate StatusOk(payload: seq<Byte>) {
    SOK <= payload && (|payload| > 3 ==> payload[3] == 0)
  }

  function HandleReadStatusBody(cfg: Config, c: Conn, x: Completion): (c': Conn)
    requires Entered(c, WaitStatus) && (x.Failed? || x.StatusBody?)
    ensures Sound(c')
  {
    if x.Failed? || !(SOK <= x.payload) then Fail(c)
    else if !StatusOk(x.payload) then Fail(c.(state := WaitChallenge))
    else if x.next.None? then Await(c, WaitChallenge, ReadChallengeHeader)
    else HandleReadChallengeHeader(cfg, c.(state := WaitChallenge), ChallengeHeader(x.next.value))
  }

  function HandleReadChallengeHeader(cfg: Config, c: Conn, x: Completion): (c': Conn)
    requires Entered(c, WaitChallenge) && (x.Failed? || x.ChallengeHeader?)
    ensures Sound(c')
  {
    if x.Failed? || x.challenge.size > MAX_NODE + (if c.version == DIST_5 then 11 else 19) then Fail(c)
    else if x.challenge.body.None? then Await(c, WaitChallenge, ReadChallengeBody)
    else HandleReadChallengeBody(cfg, c, ChallengeBody(x.challenge.body.value))
  }

  /** Which challenges are answered, and the version that is then spoken. */
  predicate Acceptable(m: Challenge) {
    LaidOut(m) && Capable(m.flags)
  }

  predicate LaidOut(m: Challenge) {
    && (m.tag == TAG_OLD || m.tag == TAG_NEW)
    && (m.tag == TAG_OLD ==> m.version == DIST_5 && m.room <= MAX_NODE)
    && (m.tag == TAG_NEW ==> m.nameLen <= m.room && m.nameLen <= MAX_NODE)
  }

  function Negotiated(m: Challenge): nat {
    if m.tag == TAG_OLD then DIST_5 else DIST_6
  }

  /** The fields read from a challenge, as far as its version and tag let it be read. */
  function Noted(c: Conn, m: Challenge): Conn {
    if m.tag == TAG_OLD && m.version != DIST_5 then c.(version := m.version)
    else if m.tag == TAG_OLD || m.tag == TAG_NEW then
      c.(version := Negotiated(m), flags := m.flags, remoteChallenge := m.challenge)
    else c
  }

  function HandleReadChallengeBody(cfg: Config, c: Conn, x: Completion): (c': Conn)
    requires Entered(c, WaitChallenge) && (x.Failed? || x.ChallengeBody?)
    ensures Sound(c')
  {
    if x.Failed? then Fail(c)
    else if !Acceptable(x.body) then Fail(Noted(c, x.body))
    else
      var d := Noted(c, x.body);
      var complement := if d.version > c.version then [Complement(LOCAL_FLAGS >> 32, cfg.creation)] else [];
      var reply := [Reply(cfg.challenge, cfg.digest(d.remoteChallenge, cfg.cookie))];
      Await(d.(sent := c.sent + complement + reply), WaitWriteChallengeReplyDone, WriteChallengeReply)
  }

  function HandleWriteChallengeReply(c: Conn, ok: bool): (c': Conn)
    requires Entered(c, WaitWriteChallengeReplyDone)
    ensures Sound(c')
  {
    if ok then Await(c, WaitChallengeAck, ReadAckHeader) else Fail(c)
  }

  function HandleReadAckHeader(cfg: Config, c: Conn, x: Completion): (c': Conn)
    requires Entered(c, WaitChallengeAck) && (x.Failed? || x.AckHeader?)
    ensures Sound(c')
  {
    if x.Failed? || x.ack.size > NODE_BUFFER - 2 then Fail(c)
    else if x.ack.body.None? then Await(c, WaitChallengeAck, ReadAckBody)
    else HandleReadAckBody(cfg, c, AckBody(x.ack.body.value))
  }

  function HandleReadAckBody(cfg: Config, c: Conn, x: Completion): (c': Conn)
    requires Entered(c, WaitChallengeAck) && (x.Failed? || x.AckBody?)
    ensures Sound(c')
  {
    if x.Failed? || x.reply.tag != TAG_ACK || x.reply.digest != cfg.digest(cfg.challenge, cfg.cookie) then Fail(c)
    else c.(state := Connected, calls := c.calls + [OnConnect], pending := c.pending + [ReadLoop])
  }

  // ----- steps and runs -----

  /** Can operation `op` complete as `x`? */
  predicate Fits(op: Op, x: Completion) {
    match op
    case Resolve => x.Failed? || (x.Resolved? && x.endpoints > 0)
    case EpmdReadHeader => x.Failed? || x.EpmdHeader?
    case EpmdReadBody => x.Failed? || x.EpmdBody?
    case ReadStatusHeader => x.Failed? || x.StatusHeader?
    case ReadStatusBody => x.Failed? || x.StatusBody?
    case ReadChallengeHeader => x.Failed? || x.ChallengeHeader?
    case ReadChallengeBody => x.Failed? || x.ChallengeBody?
    case ReadAckHeader => x.Failed? || x.AckHeader?
    case ReadAckBody => x.Failed? || x.AckBody?
    case ReadLoop => false
    case _ => x.Failed? || x.Done?
  }

  /** Operation `c.pending[0]` completes as `x`. */
  function Step(cfg: Config, c: Conn, x: Completion): (c': Conn)
    requires Sound(c) && c.pending != [] && Fits(c.pending[0], x)
    ensures Sound(c')
  {
    var op := c.pending[0];
    var d := c.(pending := c.pending[1..]);
    match op
    case Resolve => HandleResolve(d, x)
    case EpmdConnect => HandleEpmdConnect(d, x.Done?)
    case EpmdWrite => HandleEpmdWrite(d, x.Done?)
    case EpmdReadHeader => HandleEpmdReadHeader(d, x)
    case EpmdReadBody => HandleEpmdReadBody(d, x)
    case Connect => HandleConnect(cfg, d, x.Done?)
    case WriteName => HandleWriteName(d, x.Done?)
    case ReadStatusHeader => HandleReadStatusHeader(cfg, d, x)
    case ReadStatusBody => HandleReadStatusBody(cfg, d, x)
    case ReadChallengeHeader => HandleReadChallengeHeader(cfg, d, x)
    case ReadChallengeBody => HandleReadChallengeBody(cfg, d, x)
    case WriteChallengeReply => HandleWriteChallengeReply(d, x.Done?)
    case ReadAckHeader => HandleReadAckHeader(cfg, d, x)
    case ReadAckBody => HandleReadAckBody(cfg, d, x)
  }

  /** The connection after the completions `xs`, or None if they cannot happen. */
  function After(cfg: Config, xs: seq<Completion>): (r: Option<Conn>)
    ensures r.Some? ==> Sound(r.value)
  {
    if xs == [] then Some(Start())
    else
      var n := |xs| - 1;
      match After(cfg, xs[..n])
      case None => None
      case Some(c) =>
        if c.pending != [] && Fits(c.pending[0], xs[n]) then Some(Step(cfg, c, xs[n])) else None
  }
}
