/** What holds of every run of the handshake, and why every run ends. */
module HandshakeSafety {
  import opened Terms
  import opened Handshake

  // ----- what peers may say, in literals -----

  /** Extended references, extended pids and ports, and new floats. */
  predicate Enough(flags: bv64) {
    flags & 4 != 0 && flags & 0x100 != 0 && flags & 0x800 != 0
  }

  /** A challenge `n` of version 5, or `N` with its name inside, neither name above 128 bytes. */
  predicate Welcome(m: Challenge) {
    && ((m.tag == 110 && m.version == 5 && m.room <= 128)
        || (m.tag == 78 && m.nameLen <= m.room && m.nameLen <= 128))
    && Enough(m.flags)
  }

  /** The version spoken after a challenge. */
  function Spoken(m: Challenge): nat {
    if m.tag == 110 then 5 else 6
  }

  /** The bytes of `sok`, with nothing or a NUL byte behind them. */
  predicate Sok(payload: seq<Byte>) {
    && 3 <= |payload| && payload[0] == 115 && payload[1] == 111 && payload[2] == 107
    && (|payload| > 3 ==> payload[3] == 0)
  }

  lemma SokIff(payload: seq<Byte>)
    ensures StatusOk(payload) <==> Sok(payload)
  {
    assert |payload| >= 3 ==> payload[..3] == [payload[0], payload[1], payload[2]];
  }

  lemma WelcomeIff(m: Challenge)
    ensures Acceptable(m) <==> Welcome(m)
    ensures Welcome(m) ==> Negotiated(m) == Spoken(m)
  {
  }

  // ----- what a completion brought -----

  predicate SaysOk(x: Completion) {
    || (x.StatusHeader? && x.status.body.Some? && Sok(x.status.body.value))
    || (x.StatusBody? && Sok(x.payload))
  }

  function FramedChallenge(f: Option<Framed<Challenge>>): Option<Challenge> {
    if f.Some? then f.value.body else None
  }

  function ChallengeIn(x: Completion): Option<Challenge> {
    match x
    case StatusHeader(_, next) => FramedChallenge(next)
    case StatusBody(_, next) => FramedChallenge(next)
    case ChallengeHeader(f) => f.body
    case ChallengeBody(m) => Some(m)
    case _ => None
  }

  function AckIn(x: Completion): Option<Ack> {
    match x
    case AckHeader(f) => f.body
    case AckBody(a) => Some(a)
    case _ => None
  }

  /** The highest version that epmd reported, in a reply of kind 119 with result 0. */
  function HighIn(x: Completion): Option<nat> {
    match x
    case EpmdHeader(kind, result, high) => if kind == 119 && result == 0 then high else None
    case EpmdBody(high) => Some(high)
    case _ => None
  }

  // ----- the history invariant -----

  predicate HighHeard(xs: seq<Completion>, high: nat) {
    exists i | 0 <= i < |xs| :: HighIn(xs[i]) == Some(high)
  }

  predicate StatusHeard(xs: seq<Completion>) {
    exists i | 0 <= i < |xs| :: SaysOk(xs[i])
  }

  /** A status said `sok`, and with it or later came the challenge `m`. */
  predicate ChallengeHeard(xs: seq<Completion>, m: Challenge) {
    exists i, j | 0 <= i <= j < |xs| :: SaysOk(xs[i]) && ChallengeIn(xs[j]) == Some(m)
  }

  function Min(a: nat, b: nat): nat {
    if a <= b then a else b
  }

  /** What is sent to a node that epmd lists with version `high`. */
  function Greeting(high: nat): Sent {
    Name(if high == 5 then 110 else 78, 0x4_0107_4f9c)
  }

  /** What is sent in all to such a node once it has answered with `m`. */
  function Conversation(cfg: Config, high: nat, m: Challenge): seq<Sent> {
    [Greeting(high)]
    + (if high == 5 && m.tag == 78 then [Complement(4, cfg.creation)] else [])
    + [Reply(cfg.challenge, cfg.digest(m.challenge, cfg.cookie))]
  }

  predicate Listed(xs: seq<Completion>, version: nat, high: nat) {
    HighHeard(xs, high) && high >= 5 && version == Min(high, 6)
  }

  ghost predicate LookedUp(xs: seq<Completion>, version: nat) {
    exists high: nat :: Listed(xs, version, high)
  }

  ghost predicate NameSent(xs: seq<Completion>, version: nat, sent: seq<Sent>) {
    exists high: nat :: Listed(xs, version, high) && sent == [Greeting(high)]
  }

  /** `m` was accepted from a node listed with `high`, and the connection is what they imply. */
  predicate Replied(cfg: Config, version: nat, flags: bv64, sent: seq<Sent>, high: nat, m: Challenge) {
    && high >= 5 && Welcome(m)
    && version == Spoken(m) && flags == m.flags && sent == Conversation(cfg, high, m)
  }

  ghost predicate Answered(cfg: Config, xs: seq<Completion>, version: nat, flags: bv64, sent: seq<Sent>) {
    exists high: nat, m :: HighHeard(xs, high) && ChallengeHeard(xs, m) && Replied(cfg, version, flags, sent, high, m)
  }

  predicate Acknowledged(cfg: Config, x: Completion) {
    AckIn(x) == Some(Ack(97, cfg.digest(cfg.challenge, cfg.cookie)))
  }

  /** What the state says about the past, while the handshake has not failed. */
  ghost predicate Justified(cfg: Config, xs: seq<Completion>, c: Conn) {
    c.pending != [] ==>
      match c.state
      case WaitConnect => LookedUp(xs, c.version) && c.sent == []
      case WaitWriteChallengeDone => NameSent(xs, c.version, c.sent)
      case WaitStatus => NameSent(xs, c.version, c.sent)
      case WaitChallenge => NameSent(xs, c.version, c.sent) && StatusHeard(xs)
      case WaitWriteChallengeReplyDone => Answered(cfg, xs, c.version, c.flags, c.sent)
      case WaitChallengeAck => Answered(cfg, xs, c.version, c.flags, c.sent)
      case Connected =>
        Answered(cfg, xs, c.version, c.flags, c.sent) && xs != [] && Acknowledged(cfg, xs[|xs| - 1])
      case _ => c.sent == []
  }

  /** Work left: the stages behind the pending operation, and the endpoints left to try. */
  function Left(c: Conn): nat {
    if c.pending == [] then 0
    else
      match c.pending[0]
      case Resolve => 14
      case EpmdConnect => 13 + c.endpoints
      case EpmdWrite => 12
      case EpmdReadHeader => 11
      case EpmdReadBody => 10
      case Connect => 9
      case WriteName => 8
      case ReadStatusHeader => 7
      case ReadStatusBody => 6
      case ReadChallengeHeader => 5
      case ReadChallengeBody => 4
      case WriteChallengeReply => 3
      case ReadAckHeader => 2
      case ReadAckBody => 1
      case ReadLoop => 0
  }

  // ----- every step keeps it -----

  lemma HeardStays(xs: seq<Completion>, x: Completion)
    ensures forall high :: HighHeard(xs, high) ==> HighHeard(xs + [x], high)
    ensures StatusHeard(xs) ==> StatusHeard(xs + [x])
    ensures forall m :: ChallengeHeard(xs, m) ==> ChallengeHeard(xs + [x], m)
  {
    var ys := xs + [x];
    assert forall i | 0 <= i < |xs| :: xs[i] == ys[i];
  }

  lemma HeardNow(xs: seq<Completion>, x: Completion)
    ensures forall high :: HighIn(x) == Some(high) ==> HighHeard(xs + [x], high)
    ensures SaysOk(x) ==> StatusHeard(xs + [x])
    ensures forall m :: (StatusHeard(xs) || SaysOk(x)) && ChallengeIn(x) == Some(m) ==> ChallengeHeard(xs + [x], m)
  {
    var ys := xs + [x];
    assert ys[|xs|] == x;
    if StatusHeard(xs) {
      var i :| 0 <= i < |xs| && SaysOk(xs[i]);
      assert SaysOk(ys[i]);
    }
  }

  lemma EpmdJustified(cfg: Config, xs: seq<Completion>, c: Conn, x: Completion, high: nat)
    requires Entered(c, WaitEpmdReply) && c.sent == []
    requires HighIn(x) == Some(high)
    ensures Justified(cfg, xs + [x], HandleEpmdReadBody(c, EpmdBody(high)))
  {
    HeardNow(xs, x);
    assert high >= 5 ==> Listed(xs + [x], Min(high, 6), high);
  }

  lemma ConnectJustified(cfg: Config, xs: seq<Completion>, c: Conn, x: Completion)
    requires Entered(c, WaitConnect) && LookedUp(xs, c.version) && c.sent == []
    ensures Justified(cfg, xs + [x], HandleConnect(cfg, c, x.Done?))
  {
    HeardStays(xs, x);
    var high: nat :| Listed(xs, c.version, high);
    assert Listed(xs + [x], c.version, high);
  }

  lemma NameStays(xs: seq<Completion>, x: Completion, version: nat, sent: seq<Sent>)
    requires NameSent(xs, version, sent)
    ensures NameSent(xs + [x], version, sent)
  {
    HeardStays(xs, x);
    var high: nat :| Listed(xs, version, high) && sent == [Greeting(high)];
    assert Listed(xs + [x], version, high);
  }

  lemma AnsweredStays(cfg: Config, xs: seq<Completion>, x: Completion, version: nat, flags: bv64, sent: seq<Sent>)
    requires Answered(cfg, xs, version, flags, sent)
    ensures Answered(cfg, xs + [x], version, flags, sent)
  {
    HeardStays(xs, x);
  }

  /** The challenge `m`, however it arrived. */
  lemma ChallengeJustified(cfg: Config, xs: seq<Completion>, c: Conn, x: Completion, m: Challenge)
    requires Entered(c, WaitChallenge) && NameSent(xs, c.version, c.sent)
    requires StatusHeard(xs) || SaysOk(x)
    requires ChallengeIn(x) == Some(m)
    ensures Justified(cfg, xs + [x], HandleReadChallengeBody(cfg, c, ChallengeBody(m)))
  {
    HeardStays(xs, x);
    HeardNow(xs, x);
    var high: nat :| Listed(xs, c.version, high) && c.sent == [Greeting(high)];
    WelcomeIff(m);
    if Welcome(m) {
      var d := HandleReadChallengeBody(cfg, c, ChallengeBody(m));
      assert Replied(cfg, d.version, d.flags, d.sent, high, m);
    }
  }

  lemma ChallengeFrameJustified(cfg: Config, xs: seq<Completion>, c: Conn, x: Completion, f: Framed<Challenge>)
    requires Entered(c, WaitChallenge) && NameSent(xs, c.version, c.sent)
    requires StatusHeard(xs) || SaysOk(x)
    requires ChallengeIn(x) == f.body
    ensures Justified(cfg, xs + [x], HandleReadChallengeHeader(cfg, c, ChallengeHeader(f)))
  {
    HeardStays(xs, x);
    HeardNow(xs, x);
    NameStays(xs, x, c.version, c.sent);
    if f.body.Some? {
      ChallengeJustified(cfg, xs, c, x, f.body.value);
    }
  }

  lemma StatusJustified(cfg: Config, xs: seq<Completion>, c: Conn, x: Completion, payload: seq<Byte>,
                        next: Option<Framed<Challenge>>)
    requires Entered(c, WaitStatus) && NameSent(xs, c.version, c.sent)
    requires Sok(payload) ==> SaysOk(x)
    requires ChallengeIn(x) == FramedChallenge(next)
    ensures Justified(cfg, xs + [x], HandleReadStatusBody(cfg, c, StatusBody(payload, next)))
  {
    SokIff(payload);
    HeardNow(xs, x);
    NameStays(xs, x, c.version, c.sent);
    if Sok(payload) && next.Some? {
      ChallengeFrameJustified(cfg, xs, c.(state := WaitChallenge), x, next.value);
    }
  }

  lemma OpeningJustified(cfg: Config, xs: seq<Completion>, c: Conn, x: Completion)
    requires Sound(c) && c.pending != [] && Fits(c.pending[0], x)
    requires Left(c) >= 8 && Justified(cfg, xs, c)
    ensures Justified(cfg, xs + [x], Step(cfg, c, x))
  {
    assert c.pending[1..] == [];
    var d := c.(pending := c.pending[1..]);
    match c.pending[0]
    case EpmdReadHeader =>
      if x.EpmdHeader? && x.kind == 119 && x.result == 0 && x.distHigh.Some? {
        EpmdJustified(cfg, xs, d, x, x.distHigh.value);
      }
    case EpmdReadBody =>
      if x.EpmdBody? {
        EpmdJustified(cfg, xs, d, x, x.high);
      }
    case Connect => ConnectJustified(cfg, xs, d, x);
    case WriteName => NameStays(xs, x, c.version, c.sent);
    case _ =>
  }

  lemma AnswerJustified(cfg: Config, xs: seq<Completion>, c: Conn, x: Completion)
    requires Sound(c) && c.pending != [] && Fits(c.pending[0], x)
    requires 4 <= Left(c) <= 7 && Justified(cfg, xs, c)
    ensures Justified(cfg, xs + [x], Step(cfg, c, x))
  {
    assert c.pending[1..] == [];
    var d := c.(pending := c.pending[1..]);
    match c.pending[0]
    case ReadStatusHeader =>
      NameStays(xs, x, c.version, c.sent);
      if x.StatusHeader? && x.status.body.Some? {
        StatusJustified(cfg, xs, d, x, x.status.body.value, x.next);
      }
    case ReadStatusBody =>
      if x.StatusBody? {
        StatusJustified(cfg, xs, d, x, x.payload, x.next);
      }
    case ReadChallengeHeader =>
      if x.ChallengeHeader? {
        ChallengeFrameJustified(cfg, xs, d, x, x.challenge);
      }
    case ReadChallengeBody =>
      if x.ChallengeBody? {
        ChallengeJustified(cfg, xs, d, x, x.body);
      }
  }

  lemma AckJustified(cfg: Config, xs: seq<Completion>, c: Conn, x: Completion, a: Ack)
    requires Entered(c, WaitChallengeAck) && Answered(cfg, xs, c.version, c.flags, c.sent)
    requires AckIn(x) == Some(a)
    ensures Justified(cfg, xs + [x], HandleReadAckBody(cfg, c, AckBody(a)))
  {
    AnsweredStays(cfg, xs, x, c.version, c.flags, c.sent);
    assert (xs + [x])[|xs|] == x;
  }

  lemma ClosingJustified(cfg: Config, xs: seq<Completion>, c: Conn, x: Completion)
    requires Sound(c) && c.pending != [] && Fits(c.pending[0], x)
    requires Left(c) <= 3 && Justified(cfg, xs, c)
    ensures Justified(cfg, xs + [x], Step(cfg, c, x))
  {
    assert c.pending[1..] == [];
    var d := c.(pending := c.pending[1..]);
    match x
    case AckHeader(f) =>
      AnsweredStays(cfg, xs, x, c.version, c.flags, c.sent);
      if f.body.Some? {
        AckJustified(cfg, xs, d, x, f.body.value);
      }
    case AckBody(a) => AckJustified(cfg, xs, d, x, a);
    case Done => AnsweredStays(cfg, xs, x, c.version, c.flags, c.sent);
    case _ =>
  }

  lemma StepJustified(cfg: Config, xs: seq<Completion>, c: Conn, x: Completion)
    requires Sound(c) && c.pending != [] && Fits(c.pending[0], x)
    requires Justified(cfg, xs, c)
    ensures Justified(cfg, xs + [x], Step(cfg, c, x))
  {
    if Left(c) >= 8 {
      OpeningJustified(cfg, xs, c, x);
    } else if Left(c) >= 4 {
      AnswerJustified(cfg, xs, c, x);
    } else {
      ClosingJustified(cfg, xs, c, x);
    }
  }

  lemma {:induction false} RunJustified(cfg: Config, xs: seq<Completion>)
    ensures After(cfg, xs).Some? ==> Justified(cfg, xs, After(cfg, xs).value)
  {
    if xs != [] && After(cfg, xs).Some? {
      var n := |xs| - 1;
      RunJustified(cfg, xs[..n]);
      StepJustified(cfg, xs[..n], After(cfg, xs[..n]).value, xs[n]);
      assert xs == xs[..n] + [xs[n]];
    }
  }

  // ----- main results -----

  predicate Complements(sent: seq<Sent>) {
    exists k | 0 <= k < |sent| :: sent[k].Complement?
  }

  /**
   * Whoever is connected said `sok`, challenged us with the capabilities we need, agreed
   * on version 5 or 6, and knew the cookie; a complement was sent exactly when we had
   * greeted a version 5 node and it turned out to speak version 6.
   */
  lemma ConnectedIsAuthenticated(cfg: Config, xs: seq<Completion>, c: Conn)
    requires After(cfg, xs) == Some(c) && c.state.Connected?
    ensures c.version == 5 || c.version == 6
    ensures c.flags & 4 != 0 && c.flags & 0x100 != 0 && c.flags & 0x800 != 0
    ensures xs != [] && AckIn(xs[|xs| - 1]) == Some(Ack(97, cfg.digest(cfg.challenge, cfg.cookie)))
    ensures exists high: nat, m ::
              && HighHeard(xs, high) && high >= 5 && ChallengeHeard(xs, m) && Welcome(m)
              && c.version == Spoken(m) && c.flags == m.flags && c.sent == Conversation(cfg, high, m)
    ensures c.sent != []
    ensures Complements(c.sent) <==> c.sent[0] == Name(110, 0x4_0107_4f9c) && c.version == 6
  {
    RunJustified(cfg, xs);
    var high: nat, m :|
      HighHeard(xs, high) && ChallengeHeard(xs, m) && Replied(cfg, c.version, c.flags, c.sent, high, m);
    ComplementIff(cfg, high, m);
  }

  lemma ComplementIff(cfg: Config, high: nat, m: Challenge)
    requires Welcome(m)
    ensures var sent := Conversation(cfg, high, m);
      Complements(sent) <==> sent[0] == Name(110, 0x4_0107_4f9c) && Spoken(m) == 6
  {
    var sent := Conversation(cfg, high, m);
    if high == 5 && m.tag == 78 {
      assert sent[1].Complement?;
    }
  }

  lemma StepMakesProgress(cfg: Config, c: Conn, x: Completion)
    requires Sound(c) && c.pending != [] && Fits(c.pending[0], x)
    ensures Left(Step(cfg, c, x)) < Left(c) + if x.Resolved? then x.endpoints else 0
  {
    assert c.pending[1..] == [];
  }

  function Offered(xs: seq<Completion>): nat {
    if xs != [] && xs[0].Resolved? then xs[0].endpoints else 0
  }

  /** No run is longer than 14 completions and one more per endpoint that can fail. */
  lemma {:induction false} RunsAreBounded(cfg: Config, xs: seq<Completion>)
    requires After(cfg, xs).Some?
    ensures |xs| + Left(After(cfg, xs).value) <= 14 + if Offered(xs) > 0 then Offered(xs) - 1 else 0
    ensures After(cfg, xs).value.pending == [Resolve] <==> xs == []
  {
    if xs != [] {
      var n := |xs| - 1;
      RunsAreBounded(cfg, xs[..n]);
      StepMakesProgress(cfg, After(cfg, xs[..n]).value, xs[n]);
      NoReturnToResolve(cfg, After(cfg, xs[..n]).value, xs[n]);
      if n == 0 {
        assert xs[..n] == [];
      } else {
        assert xs[..n][0] == xs[0];
      }
    }
  }

  lemma NoReturnToResolve(cfg: Config, c: Conn, x: Completion)
    requires Sound(c) && c.pending != [] && Fits(c.pending[0], x)
    ensures Step(cfg, c, x).pending != [Resolve]
    ensures x.Resolved? <==> c.pending[0].Resolve? && !x.Failed?
  {
    assert c.pending[1..] == [];
  }

  /**
   * At every point of every run at most one operation is pending, in the state its handler
   * asserts, and the run can go on exactly until one of the callbacks has been made, once.
   */
  lemma EveryRunHasOneOutcome(cfg: Config, xs: seq<Completion>, c: Conn)
    requires After(cfg, xs) == Some(c)
    ensures |c.pending| <= 1 && (c.pending != [] ==> c.state == Expected(c.pending[0]))
    ensures c.calls == [] || c.calls == [OnConnect] || c.calls == [OnConnectFailure]
    ensures c.calls == [OnConnect] <==> c.state.Connected?
    ensures c.calls == [] <==> exists x :: After(cfg, xs + [x]).Some?
  {
    forall x ensures (xs + [x])[..|xs|] == xs {
    }
    if c.calls == [] {
      assert Fits(c.pending[0], Failed);
      assert After(cfg, xs + [Failed]).Some?;
    }
  }

  lemma Extend(cfg: Config, xs: seq<Completion>, c: Conn, x: Completion)
    requires After(cfg, xs) == Some(c) && c.pending != [] && Fits(c.pending[0], x)
    ensures After(cfg, xs + [x]) == Some(Step(cfg, c, x))
  {
    assert (xs + [x])[..|xs|] == xs;
  }

  /** The local node name fits the buffer of the greeting. */
  predicate GreetingFits(cfg: Config, high: nat) {
    cfg.nodeBytes + (if high == 5 then 9 else 17) <= 256
  }

  lemma Greets(cfg: Config, high: nat) returns (xs: seq<Completion>, c: Conn)
    requires high >= 5 && GreetingFits(cfg, high)
    ensures After(cfg, xs) == Some(c) && c.pending == [ReadStatusHeader] && HighHeard(xs, high)
    ensures c.version == Min(high, 6)
  {
    xs, c := LooksUp(cfg, high);
    Extend(cfg, xs, c, Done);
    HeardStays(xs, Done);
    xs, c := xs + [Done], Step(cfg, c, Done);
    Extend(cfg, xs, c, Done);
    HeardStays(xs, Done);
    xs, c := xs + [Done], Step(cfg, c, Done);
  }

  lemma LooksUp(cfg: Config, high: nat) returns (xs: seq<Completion>, c: Conn)
    requires high >= 5
    ensures After(cfg, xs) == Some(c) && c.pending == [Connect] && HighHeard(xs, high)
    ensures c.version == Min(high, 6)
  {
    Extend(cfg, [], Start(), Resolved(1));
    xs, c := [] + [Resolved(1)], Step(cfg, Start(), Resolved(1));
    Extend(cfg, xs, c, Done);
    xs, c := xs + [Done], Step(cfg, c, Done);
    Extend(cfg, xs, c, Done);
    xs, c := xs + [Done], Step(cfg, c, Done);
    var x := EpmdHeader(119, 0, Some(high));
    Extend(cfg, xs, c, x);
    HeardNow(xs, x);
    xs, c := xs + [x], Step(cfg, c, x);
  }

  // ----- honest peers -----

  /** The frame that carries `m`: its length is the fixed part and the name. */
  function FrameOf(m: Challenge): Framed<Challenge> {
    Framed(if m.tag == 110 then 11 + m.room else 19 + m.nameLen, Some(m))
  }

  /** Nothing but the name follows the fixed part. */
  predicate Honest(m: Challenge) {
    m.tag == 78 ==> m.nameLen == m.room
  }

  /** Longer than a version 5 node may send, although a version 6 node may have such a name. */
  predicate Outgrown(version: nat, m: Challenge) {
    version == 5 && m.tag == 78 && m.nameLen > 120
  }

  predicate Replying(c: Conn) {
    c.pending == [WriteChallengeReply]
  }

  /**
   * An honest challenge is answered, whether it arrives in one piece or in two, iff it is
   * acceptable and does not outgrow the version that the node was looked up with.
   */
  lemma HonestAnsweredIff(cfg: Config, c: Conn, m: Challenge)
    requires Entered(c, WaitChallenge) && Honest(m) && (m.tag == 110 || m.tag == 78)
    ensures Replying(HandleReadChallengeHeader(cfg, c, ChallengeHeader(FrameOf(m)))) <==>
              Welcome(m) && !Outgrown(c.version, m)
    ensures Welcome(m) ==>
              var d := HandleReadChallengeHeader(cfg, c, ChallengeHeader(Framed(FrameOf(m).size, None)));
              if Outgrown(c.version, m) then d.calls == [OnConnectFailure]
              else
                && d.pending == [ReadChallengeBody]
                && Replying(Step(cfg, d, ChallengeBody(m)))
  {
    WelcomeIff(m);
    if Welcome(m) && !Outgrown(c.version, m) {
      var d := HandleReadChallengeHeader(cfg, c, ChallengeHeader(Framed(FrameOf(m).size, None)));
      assert d.pending == [ReadChallengeBody];
    }
  }

  /** Which status lets the handshake go on, and that any other one ends it. */
  lemma StatusTakenIff(cfg: Config, c: Conn, payload: seq<Byte>)
    requires Entered(c, WaitStatus)
    ensures var d := HandleReadStatusBody(cfg, c, StatusBody(payload, None));
      if Sok(payload) then d.pending == [ReadChallengeHeader] else d.calls == [OnConnectFailure]
  {
    SokIff(payload);
  }

  function StatusIn(x: Completion): Option<seq<Byte>> {
    match x
    case StatusHeader(status, _) => status.body
    case StatusBody(payload, _) => Some(payload)
    case _ => None
  }

  /** No run in which the peer gives another status gets any further. */
  lemma OtherStatusEnds(cfg: Config, xs: seq<Completion>, x: Completion, c: Conn)
    requires After(cfg, xs + [x]) == Some(c) && StatusIn(x).Some? && !Sok(StatusIn(x).value)
    ensures c.calls == [OnConnectFailure]
  {
    SokIff(StatusIn(x).value);
    assert (xs + [x])[..|xs|] == xs;
  }

  /** The status of a node that is connecting to us at the same time is one of those. */
  const SOK_SIMULTANEOUS: seq<Byte> :=
    [115, 111, 107, 95, 115, 105, 109, 117, 108, 116, 97, 110, 101, 111, 117, 115]

  lemma SimultaneousIsRefused()
    ensures [115, 111, 107] <= SOK_SIMULTANEOUS && !Sok(SOK_SIMULTANEOUS)
  {
    assert SOK_SIMULTANEOUS[3] == 95;
  }

  lemma Replies(cfg: Config, high: nat, m: Challenge) returns (xs: seq<Completion>, c: Conn)
    requires high >= 5 && GreetingFits(cfg, high)
    requires Welcome(m) && Honest(m) && !Outgrown(Min(high, 6), m)
    ensures After(cfg, xs) == Some(c) && c.pending == [WriteChallengeReply]
    ensures HighHeard(xs, high) && ChallengeHeard(xs, m)
  {
    xs, c := Greets(cfg, high);
    var x := StatusHeader(Framed(3, Some([115, 111, 107])), Some(FrameOf(m)));
    Extend(cfg, xs, c, x);
    HeardNow(xs, x);
    HeardStays(xs, x);
    AnswersAtOnce(cfg, c, m);
    xs, c := xs + [x], Step(cfg, c, x);
  }

  lemma AnswersAtOnce(cfg: Config, c: Conn, m: Challenge)
    requires Sound(c) && c.pending == [ReadStatusHeader]
    requires Welcome(m) && Honest(m) && !Outgrown(c.version, m)
    ensures Replying(Step(cfg, c, StatusHeader(Framed(3, Some([115, 111, 107])), Some(FrameOf(m)))))
  {
    var (d, f) := (c.(pending := []), FrameOf(m));
    SokIff([115, 111, 107]);
    StatusHeaderStep(cfg, c, StatusHeader(Framed(3, Some([115, 111, 107])), Some(f)));
    StatusThenFrame(cfg, d, [115, 111, 107], f);
    HonestAnsweredIff(cfg, d.(state := WaitChallenge), m);
  }

  lemma StatusHeaderStep(cfg: Config, c: Conn, x: Completion)
    requires Sound(c) && c.pending == [ReadStatusHeader] && x.StatusHeader?
    ensures Step(cfg, c, x) == HandleReadStatusHeader(cfg, c.(pending := []), x)
  {
    assert c.pending[1..] == [];
  }

  lemma StatusThenFrame(cfg: Config, c: Conn, payload: seq<Byte>, f: Framed<Challenge>)
    requires Entered(c, WaitStatus) && StatusOk(payload) && |payload| <= 136
    ensures HandleReadStatusHeader(cfg, c, StatusHeader(Framed(|payload|, Some(payload)), Some(f))) ==
            HandleReadChallengeHeader(cfg, c.(state := WaitChallenge), ChallengeHeader(f))
  {
  }

  /**
   * An honest peer does get connected, whatever version it turns out to speak, unless its
   * challenge outgrows the version it was looked up with.
   */
  lemma WillingPeerConnects(cfg: Config, high: nat, m: Challenge) returns (xs: seq<Completion>, c: Conn)
    requires high >= 5 && GreetingFits(cfg, high)
    requires Welcome(m) && Honest(m) && !Outgrown(Min(high, 6), m)
    ensures After(cfg, xs) == Some(c) && c.state.Connected?
    ensures HighHeard(xs, high) && ChallengeHeard(xs, m)
  {
    xs, c := Replies(cfg, high, m);
    Extend(cfg, xs, c, Done);
    HeardStays(xs, Done);
    xs, c := xs + [Done], Step(cfg, c, Done);
    var y := RightAck(cfg, c);
    Extend(cfg, xs, c, y);
    HeardStays(xs, y);
    xs, c := xs + [y], Step(cfg, c, y);
  }

  lemma RightAck(cfg: Config, c: Conn) returns (y: Completion)
    requires Sound(c) && c.pending == [ReadAckHeader]
    ensures Fits(ReadAckHeader, y) && Step(cfg, c, y).state.Connected?
    ensures y == AckHeader(Framed(17, Some(Ack(97, cfg.digest(cfg.challenge, cfg.cookie)))))
  {
    assert c.pending[1..] == [];
    y := AckHeader(Framed(17, Some(Ack(97, cfg.digest(cfg.challenge, cfg.cookie)))));
  }
}
