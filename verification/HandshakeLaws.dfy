/**
 * The handshake as a table in literals: which completions end the attempt, and where each of
 * the others leads.
 */
module HandshakeLaws {
  import opened Handshake
  import opened HandshakeSafety
  import opened Terms

  // ----- what can happen -----

  /** Which operation a completion belongs to; a failure can belong to any but the read loop. */
  predicate Completes(x: Completion, op: Op) {
    match x
    case Failed => op != ReadLoop
    case Resolved(endpoints) => op == Resolve && endpoints > 0
    case Done => op in {EpmdConnect, EpmdWrite, Connect, WriteName, WriteChallengeReply}
    case EpmdHeader(_, _, _) => op == EpmdReadHeader
    case EpmdBody(_) => op == EpmdReadBody
    case StatusHeader(_, _) => op == ReadStatusHeader
    case StatusBody(_, _) => op == ReadStatusBody
    case ChallengeHeader(_) => op == ReadChallengeHeader
    case ChallengeBody(_) => op == ReadChallengeBody
    case AckHeader(_) => op == ReadAckHeader
    case AckBody(_) => op == ReadAckBody
  }

  /** Every completion of the pending operation, whatever it brings, continues the run; no other does. */
  lemma ContinuesIff(cfg: Config, xs: seq<Completion>, c: Conn, x: Completion)
    requires After(cfg, xs) == Some(c)
    ensures After(cfg, xs + [x]).Some? <==> c.pending != [] && Completes(x, c.pending[0])
  {
    assert (xs + [x])[..|xs|] == xs;
    if c.pending != [] { assert Fits(c.pending[0], x) <==> Completes(x, c.pending[0]); }
  }

  // ----- what ends the attempt -----

  /** The acknowledgement of a peer that knows the cookie. */
  predicate Right(cfg: Config, a: Ack) {
    a.tag == 97 && a.digest == cfg.digest(cfg.challenge, cfg.cookie)
  }

  predicate RefusesFrame(version: nat, f: Framed<Challenge>) {
    f.size > (if version == 5 then 139 else 147) || (f.body.Some? && !Welcome(f.body.value))
  }

  predicate RefusesStatus(version: nat, payload: seq<Byte>, next: Option<Framed<Challenge>>) {
    !Sok(payload) || (next.Some? && RefusesFrame(version, next.value))
  }

  /** What makes the handler of the pending operation give up. */
  predicate Refuses(cfg: Config, c: Conn, x: Completion)
    requires c.pending != []
  {
    match x
    case Failed => c.pending[0] != EpmdConnect || c.endpoints == 0
    case Resolved(_) => false
    case Done => c.pending[0] == Connect && cfg.nodeBytes > (if c.version == 5 then 247 else 239)
    case EpmdHeader(kind, result, high) => kind != 119 || result != 0 || (high.Some? && high.value < 5)
    case EpmdBody(high) => high < 5
    case StatusHeader(f, next) => f.size > 136 || (f.body.Some? && RefusesStatus(c.version, f.body.value, next))
    case StatusBody(payload, next) => RefusesStatus(c.version, payload, next)
    case ChallengeHeader(f) => RefusesFrame(c.version, f)
    case ChallengeBody(m) => !Welcome(m)
    case AckHeader(f) => f.size > 254 || (f.body.Some? && !Right(cfg, f.body.value))
    case AckBody(a) => !Right(cfg, a)
  }

  lemma BodyAnsweredIff(cfg: Config, c: Conn, m: Challenge)
    requires Entered(c, WaitChallenge)
    ensures HandleReadChallengeBody(cfg, c, ChallengeBody(m)).calls == [OnConnectFailure] <==> !Welcome(m)
  {
    WelcomeIff(m);
  }

  lemma FrameAnsweredIff(cfg: Config, c: Conn, f: Framed<Challenge>)
    requires Entered(c, WaitChallenge)
    ensures var d := HandleReadChallengeHeader(cfg, c, ChallengeHeader(f));
      d.calls == [OnConnectFailure] <==> RefusesFrame(c.version, f)
  {
    if f.body.Some? { BodyAnsweredIff(cfg, c, f.body.value); }
  }

  lemma StatusAnsweredIff(cfg: Config, c: Conn, payload: seq<Byte>, next: Option<Framed<Challenge>>)
    requires Entered(c, WaitStatus)
    ensures var d := HandleReadStatusBody(cfg, c, StatusBody(payload, next));
      d.calls == [OnConnectFailure] <==> RefusesStatus(c.version, payload, next)
  {
    SokIff(payload);
    if next.Some? { FrameAnsweredIff(cfg, c.(state := WaitChallenge), next.value); }
  }

  lemma AckAnsweredIff(cfg: Config, c: Conn, a: Ack)
    requires Entered(c, WaitChallengeAck)
    ensures HandleReadAckBody(cfg, c, AckBody(a)).calls == [OnConnectFailure] <==> !Right(cfg, a)
  {
  }

  predicate Plain(x: Completion) {
    x.Failed? || x.Resolved? || x.Done? || x.EpmdHeader? || x.EpmdBody?
  }

  lemma OpeningFailsIff(cfg: Config, c: Conn, x: Completion)
    requires Sound(c) && c.pending != [] && Fits(c.pending[0], x) && Plain(x)
    ensures Step(cfg, c, x).calls == [OnConnectFailure] <==> Refuses(cfg, c, x)
  {
    assert c.pending[1..] == [];
  }

  lemma StatusFailsIff(cfg: Config, c: Conn, x: Completion)
    requires Sound(c) && c.pending != [] && Fits(c.pending[0], x) && (x.StatusHeader? || x.StatusBody?)
    ensures Step(cfg, c, x).calls == [OnConnectFailure] <==> Refuses(cfg, c, x)
  {
    assert c.pending[1..] == [];
    var d := c.(pending := []);
    match x
    case StatusHeader(f, next) =>
      StatusHeaderStep(cfg, c, x);
      StatusHeaderFailsIff(cfg, d, f, next);
    case StatusBody(payload, next) => StatusAnsweredIff(cfg, d, payload, next);
  }

  lemma StatusHeaderFailsIff(cfg: Config, d: Conn, f: Framed<seq<Byte>>, next: Option<Framed<Challenge>>)
    requires Entered(d, WaitStatus)
    ensures HandleReadStatusHeader(cfg, d, StatusHeader(f, next)).calls == [OnConnectFailure] <==>
            f.size > 136 || (f.body.Some? && RefusesStatus(d.version, f.body.value, next))
  {
    if f.body.Some? { StatusAnsweredIff(cfg, d, f.body.value, next); }
  }

  lemma ChallengeFailsIff(cfg: Config, c: Conn, x: Completion)
    requires Sound(c) && c.pending != [] && Fits(c.pending[0], x) && (x.ChallengeHeader? || x.ChallengeBody?)
    ensures Step(cfg, c, x).calls == [OnConnectFailure] <==> Refuses(cfg, c, x)
  {
    assert c.pending[1..] == [];
    var d := c.(pending := []);
    match x
    case ChallengeHeader(f) => FrameAnsweredIff(cfg, d, f);
    case ChallengeBody(m) => BodyAnsweredIff(cfg, d, m);
  }

  lemma AckFailsIff(cfg: Config, c: Conn, x: Completion)
    requires Sound(c) && c.pending != [] && Fits(c.pending[0], x)
    requires x.AckHeader? || x.AckBody?
    ensures Step(cfg, c, x).calls == [OnConnectFailure] <==> Refuses(cfg, c, x)
  {
    assert c.pending[1..] == [];
    var d := c.(pending := []);
    match x
    case AckHeader(f) => if f.body.Some? { AckAnsweredIff(cfg, d, f.body.value); }
    case AckBody(a) => AckAnsweredIff(cfg, d, a);
  }

  /** The attempt ends with a failure exactly on what is refused. */
  lemma FailsIff(cfg: Config, c: Conn, x: Completion)
    requires Sound(c) && c.pending != [] && Fits(c.pending[0], x)
    ensures Step(cfg, c, x).calls == [OnConnectFailure] <==> Refuses(cfg, c, x)
  {
    if Plain(x) {
      OpeningFailsIff(cfg, c, x);
    } else if x.AckHeader? || x.AckBody? {
      AckFailsIff(cfg, c, x);
    } else if x.StatusHeader? || x.StatusBody? {
      StatusFailsIff(cfg, c, x);
    } else {
      ChallengeFailsIff(cfg, c, x);
    }
  }

  // ----- where the others lead -----

  function NextOfFrame(f: Framed<Challenge>): Op {
    if f.body.None? then ReadChallengeBody else WriteChallengeReply
  }

  function NextOfStatus(next: Option<Framed<Challenge>>): Op {
    if next.None? then ReadChallengeHeader else NextOfFrame(next.value)
  }

  /** The operation that is started next. */
  function Next(op: Op, x: Completion): Op {
    match x
    case Failed => EpmdConnect
    case Resolved(_) => EpmdConnect
    case Done =>
      (match op
       case EpmdConnect => EpmdWrite
       case EpmdWrite => EpmdReadHeader
       case Connect => WriteName
       case WriteName => ReadStatusHeader
       case _ => ReadAckHeader)
    case EpmdHeader(_, _, high) => if high.None? then EpmdReadBody else Connect
    case EpmdBody(_) => Connect
    case StatusHeader(f, next) => if f.body.None? then ReadStatusBody else NextOfStatus(next)
    case StatusBody(_, next) => NextOfStatus(next)
    case ChallengeHeader(f) => NextOfFrame(f)
    case ChallengeBody(_) => WriteChallengeReply
    case AckHeader(f) => if f.body.None? then ReadAckBody else ReadLoop
    case AckBody(_) => ReadLoop
  }

  /** The challenge that a completion puts before us: the one behind a status only if that has arrived. */
  function Put(x: Completion): Option<Challenge> {
    if x.StatusHeader? && x.status.body.None? then None else ChallengeIn(x)
  }

  /** The fields that a completion changes: the version reported, or all that a challenge says. */
  function Learnt(c: Conn, x: Completion): Conn {
    if HighIn(x).Some? then c.(version := Min(HighIn(x).value, 6))
    else if Put(x).Some? then
      var m := Put(x).value;
      c.(version := Spoken(m), flags := m.flags, remoteChallenge := m.challenge)
    else c
  }

  /** A greeting once connected, a reply to a challenge, behind a complement if it raises the version. */
  function Says(cfg: Config, c: Conn, x: Completion): seq<Sent>
    requires c.pending != []
  {
    if c.pending[0] == Connect then [Greeting(c.version)]
    else if Put(x).Some? then
      var m := Put(x).value;
      (if Spoken(m) > c.version then [Complement(4, cfg.creation)] else [])
      + [Reply(cfg.challenge, cfg.digest(m.challenge, cfg.cookie))]
    else []
  }

  function Remaining(c: Conn, x: Completion): int {
    if x.Resolved? then x.endpoints - 1 else if x.Failed? then c.endpoints - 1 else c.endpoints
  }

  /** `d` follows `c` on `x` as the table says. */
  ghost predicate Follows(cfg: Config, c: Conn, x: Completion, d: Conn)
    requires c.pending != []
  {
    && d.pending == [Next(c.pending[0], x)] && d.sent == c.sent + Says(cfg, c, x)
    && d.endpoints == Remaining(c, x)
    && var l := Learnt(c, x);
       d.version == l.version && d.flags == l.flags && d.remoteChallenge == l.remoteChallenge
  }

  lemma BodyFollows(cfg: Config, c: Conn, m: Challenge)
    requires Entered(c, WaitChallenge) && Welcome(m)
    ensures var d := HandleReadChallengeBody(cfg, c, ChallengeBody(m));
      Follows(cfg, c.(pending := [ReadChallengeBody]), ChallengeBody(m), d)
  {
    WelcomeIff(m);
    var complement := if Spoken(m) > c.version then [Complement(4, cfg.creation)] else [];
    var reply := [Reply(cfg.challenge, cfg.digest(m.challenge, cfg.cookie))];
    assert c.sent + complement + reply == c.sent + (complement + reply);
  }

  lemma FrameFollows(cfg: Config, c: Conn, f: Framed<Challenge>)
    requires Entered(c, WaitChallenge) && !RefusesFrame(c.version, f)
    ensures var d := HandleReadChallengeHeader(cfg, c, ChallengeHeader(f));
      Follows(cfg, c.(pending := [ReadChallengeHeader]), ChallengeHeader(f), d)
  {
    FrameRead(cfg, c, f);
    if f.body.Some? {
      var d := HandleReadChallengeBody(cfg, c, ChallengeBody(f.body.value));
      BodyFollows(cfg, c, f.body.value);
      FollowsAtOnce(cfg, c, f, d);
    } else {
      assert c.sent + [] == c.sent;
    }
  }

  lemma FrameRead(cfg: Config, c: Conn, f: Framed<Challenge>)
    requires Entered(c, WaitChallenge) && !RefusesFrame(c.version, f)
    ensures HandleReadChallengeHeader(cfg, c, ChallengeHeader(f)) ==
      if f.body.Some? then HandleReadChallengeBody(cfg, c, ChallengeBody(f.body.value))
      else c.(pending := [ReadChallengeBody])
  {
  }

  lemma FollowsAtOnce(cfg: Config, c: Conn, f: Framed<Challenge>, d: Conn)
    requires f.body.Some? && Follows(cfg, c.(pending := [ReadChallengeBody]), ChallengeBody(f.body.value), d)
    ensures Follows(cfg, c.(pending := [ReadChallengeHeader]), ChallengeHeader(f), d)
  {
  }

  lemma StatusFollows(cfg: Config, c: Conn, payload: seq<Byte>, next: Option<Framed<Challenge>>)
    requires Entered(c, WaitStatus) && !RefusesStatus(c.version, payload, next)
    ensures var d := HandleReadStatusBody(cfg, c, StatusBody(payload, next));
      Follows(cfg, c.(pending := [ReadStatusBody]), StatusBody(payload, next), d)
  {
    SokIff(payload);
    if next.Some? {
      FrameFollows(cfg, c.(state := WaitChallenge), next.value);
    } else {
      assert c.sent + [] == c.sent;
    }
  }

  lemma ConnectFollows(cfg: Config, c: Conn, x: Completion)
    requires Sound(c) && c.pending == [Connect] && x.Done? && !Refuses(cfg, c, x)
    ensures Follows(cfg, c, x, Step(cfg, c, x))
  {
    assert c.pending[1..] == [];
  }

  lemma DoneFollows(cfg: Config, c: Conn, x: Completion)
    requires Sound(c) && c.pending != [] && Fits(c.pending[0], x) && x.Done? && !c.pending[0].Connect?
    ensures Follows(cfg, c, x, Step(cfg, c, x))
  {
    assert c.pending[1..] == [];
    assert c.sent + [] == c.sent;
  }

  lemma LookupFollows(cfg: Config, c: Conn, x: Completion)
    requires Sound(c) && c.pending != [] && Fits(c.pending[0], x) && !Refuses(cfg, c, x)
    requires x.Failed? || x.Resolved?
    ensures Follows(cfg, c, x, Step(cfg, c, x))
  {
    assert c.pending[1..] == [];
    assert c.sent + [] == c.sent;
  }

  lemma EpmdFollows(cfg: Config, c: Conn, x: Completion)
    requires Sound(c) && c.pending != [] && Fits(c.pending[0], x) && !Refuses(cfg, c, x)
    requires x.EpmdHeader? || x.EpmdBody?
    ensures Follows(cfg, c, x, Step(cfg, c, x))
  {
    assert c.pending[1..] == [];
    assert c.sent + [] == c.sent;
  }

  lemma AckFollows(cfg: Config, c: Conn, x: Completion)
    requires Sound(c) && c.pending != [] && Fits(c.pending[0], x) && !Refuses(cfg, c, x)
    requires x.AckHeader? || x.AckBody?
    ensures Follows(cfg, c, x, Step(cfg, c, x))
  {
    assert c.pending[1..] == [];
    assert c.sent + [] == c.sent;
  }

  /** Whatever is not refused takes the connection exactly where the table says. */
  lemma StepFollows(cfg: Config, c: Conn, x: Completion)
    requires Sound(c) && c.pending != [] && Fits(c.pending[0], x) && !Refuses(cfg, c, x)
    ensures Follows(cfg, c, x, Step(cfg, c, x))
  {
    assert c.pending[1..] == [];
    var d := c.(pending := []);
    match x
    case StatusHeader(f, next) =>
      if f.body.Some? { StatusFollows(cfg, d, f.body.value, next); } else { assert c.sent + [] == c.sent; }
    case StatusBody(payload, next) => StatusFollows(cfg, d, payload, next);
    case ChallengeHeader(f) => FrameFollows(cfg, d, f);
    case ChallengeBody(m) => BodyFollows(cfg, d, m);
    case AckHeader(_) => AckFollows(cfg, c, x);
    case AckBody(_) => AckFollows(cfg, c, x);
    case EpmdHeader(_, _, _) => EpmdFollows(cfg, c, x);
    case EpmdBody(_) => EpmdFollows(cfg, c, x);
    case Done => if c.pending[0].Connect? { ConnectFollows(cfg, c, x); } else { DoneFollows(cfg, c, x); }
    case _ => LookupFollows(cfg, c, x);
  }

  // ----- over runs -----

  /**
   * A run that has reached `c` goes on with `x` to a failure, with one callback and nothing
   * pending, exactly if `x` is refused; otherwise it follows the table.
   */
  lemma RunFollows(cfg: Config, xs: seq<Completion>, c: Conn, x: Completion)
    requires After(cfg, xs) == Some(c) && c.pending != [] && Fits(c.pending[0], x)
    ensures After(cfg, xs + [x]).Some?
    ensures var d := After(cfg, xs + [x]).value;
      if Refuses(cfg, c, x) then d.calls == [OnConnectFailure] && d.pending == [] && d.sent == c.sent
      else Follows(cfg, c, x, d) && (d.calls == [OnConnect] <==> d.pending == [ReadLoop])
  {
    Extend(cfg, xs, c, x);
    FailsIff(cfg, c, x);
    if Refuses(cfg, c, x) {
      FailureIsSilent(cfg, c, x, Step(cfg, c, x));
    } else {
      StepFollows(cfg, c, x);
    }
  }

  lemma FrameIsSilent(cfg: Config, c: Conn, f: Framed<Challenge>)
    requires Entered(c, WaitChallenge)
    ensures var d := HandleReadChallengeHeader(cfg, c, ChallengeHeader(f));
      d.calls == [OnConnectFailure] ==> d.sent == c.sent
  {
    if f.body.Some? { BodyIsSilent(cfg, c, f.body.value); }
  }

  lemma BodyIsSilent(cfg: Config, c: Conn, m: Challenge)
    requires Entered(c, WaitChallenge)
    ensures var d := HandleReadChallengeBody(cfg, c, ChallengeBody(m));
      d.calls == [OnConnectFailure] ==> d.sent == c.sent
  {
  }

  lemma StatusIsSilent(cfg: Config, c: Conn, payload: seq<Byte>, next: Option<Framed<Challenge>>)
    requires Entered(c, WaitStatus)
    ensures var d := HandleReadStatusBody(cfg, c, StatusBody(payload, next));
      d.calls == [OnConnectFailure] ==> d.sent == c.sent
  {
    if next.Some? { FrameIsSilent(cfg, c.(state := WaitChallenge), next.value); }
  }

  lemma AnswerIsSilent(cfg: Config, c: Conn, x: Completion)
    requires Sound(c) && c.pending != [] && Fits(c.pending[0], x) && (x.StatusHeader? || x.StatusBody?)
    ensures Step(cfg, c, x).calls == [OnConnectFailure] ==> Step(cfg, c, x).sent == c.sent
  {
    assert c.pending[1..] == [];
    var d := c.(pending := []);
    if x.StatusBody? {
      StatusIsSilent(cfg, d, x.payload, x.next);
    } else {
      StatusHeaderStep(cfg, c, x);
      if x.status.body.Some? { StatusIsSilent(cfg, d, x.status.body.value, x.next); }
    }
  }

  lemma OpeningIsSilent(cfg: Config, c: Conn, x: Completion)
    requires Sound(c) && c.pending != [] && Fits(c.pending[0], x) && Plain(x)
    ensures Step(cfg, c, x).calls == [OnConnectFailure] ==> Step(cfg, c, x).sent == c.sent
  {
    assert c.pending[1..] == [];
  }

  lemma ChallengeStep(cfg: Config, c: Conn, x: Completion)
    requires Sound(c) && c.pending != [] && Fits(c.pending[0], x)
    ensures x.ChallengeHeader? ==> Step(cfg, c, x) == HandleReadChallengeHeader(cfg, c.(pending := []), x)
    ensures x.ChallengeBody? ==> Step(cfg, c, x) == HandleReadChallengeBody(cfg, c.(pending := []), x)
  {
    assert c.pending[1..] == [];
  }

  lemma ChallengeIsSilent(cfg: Config, c: Conn, x: Completion, d: Conn)
    requires Sound(c) && c.pending != [] && Fits(c.pending[0], x) && (x.ChallengeHeader? || x.ChallengeBody?)
    requires d == Step(cfg, c, x) && d.calls == [OnConnectFailure]
    ensures d.sent == c.sent
  {
    ChallengeStep(cfg, c, x);
    if x.ChallengeHeader? {
      FrameIsSilent(cfg, c.(pending := []), x.challenge);
    } else {
      BodyIsSilent(cfg, c.(pending := []), x.body);
    }
  }

  lemma AckIsSilent(cfg: Config, c: Conn, x: Completion)
    requires Sound(c) && c.pending != [] && Fits(c.pending[0], x) && (x.AckHeader? || x.AckBody?)
    ensures Step(cfg, c, x).calls == [OnConnectFailure] ==> Step(cfg, c, x).sent == c.sent
  {
    assert c.pending[1..] == [];
  }

  lemma FailureIsSilent(cfg: Config, c: Conn, x: Completion, d: Conn)
    requires Sound(c) && c.pending != [] && Fits(c.pending[0], x)
    requires d == Step(cfg, c, x) && d.calls == [OnConnectFailure]
    ensures d.pending == [] && d.sent == c.sent
  {
    if x.StatusHeader? || x.StatusBody? {
      AnswerIsSilent(cfg, c, x);
    } else if x.ChallengeHeader? || x.ChallengeBody? {
      ChallengeIsSilent(cfg, c, x, d);
    } else if x.AckHeader? || x.AckBody? {
      AckIsSilent(cfg, c, x);
    } else {
      OpeningIsSilent(cfg, c, x);
    }
  }

  predicate Negative(x: Completion) {
    x.EpmdHeader? && (x.kind != 119 || x.result != 0 || (x.distHigh.Some? && x.distHigh.value < 5))
  }

  lemma NegativeFails(cfg: Config, c: Conn, x: Completion)
    requires Sound(c) && c.pending != [] && Fits(c.pending[0], x) && Negative(x)
    ensures Step(cfg, c, x).calls == [OnConnectFailure]
  {
    OpeningFailsIff(cfg, c, x);
  }

  lemma LastStep(cfg: Config, xs: seq<Completion>, c: Conn) returns (b: Conn)
    requires After(cfg, xs) == Some(c) && xs != []
    ensures var n := |xs| - 1;
      && After(cfg, xs[..n]) == Some(b) && Sound(b) && b.pending != [] && Fits(b.pending[0], xs[n])
      && c == Step(cfg, b, xs[n])
  {
    b := After(cfg, xs[..|xs| - 1]).value;
  }

  lemma StepCallsBack(cfg: Config, b: Conn, x: Completion, c: Conn)
    requires Sound(b) && b.pending != [] && Fits(b.pending[0], x) && c == Step(cfg, b, x)
    ensures b.calls == []
  {
  }

  /** A reply of epmd that is not positive, or lists a version below 5, is the end of its run. */
  lemma {:induction false} NegativeReplyEnds(cfg: Config, xs: seq<Completion>, c: Conn, k: nat)
    requires After(cfg, xs) == Some(c) && k < |xs| && xs[k].EpmdHeader?
    requires xs[k].kind != 119 || xs[k].result != 0 || (xs[k].distHigh.Some? && xs[k].distHigh.value < 5)
    ensures k == |xs| - 1 && c.calls == [OnConnectFailure]
    decreases |xs|
  {
    var n := |xs| - 1;
    var b := LastStep(cfg, xs, c);
    StepCallsBack(cfg, b, xs[n], c);
    if k < n {
      NegativeReplyEnds(cfg, xs[..n], b, k);
    } else {
      NegativeFails(cfg, b, xs[n]);
    }
  }

  /** The first operation is the look-up of the host; nothing is known, called or sent yet. */
  lemma BeginsWithResolve(cfg: Config)
    ensures After(cfg, []) == Some(Conn(WaitResolve, 0, 0, 0, 0, [Resolve], [], []))
  {
  }
}
