/**
 * The mailbox registry: one index by pid and one by registered name, and the name that
 * each mailbox carries itself. Operations are atomic, under the registry's lock.
 */
module Registry {
  import opened Terms
  import PidCounter

  /** A mailbox; `closed` once `close` has stamped it. */
  datatype Box = Box(pid: nat, name: Name, closed: bool)

  /** Mailboxes are known by the order of their creation; `drawn` counts the pids issued. */
  datatype State = State(boxes: seq<Box>, byName: map<Name, nat>, byPid: map<nat, nat>, drawn: nat)

  datatype Event =
    | DrawPid                         // a pid issued for something other than a mailbox
    | Create(name: Name)
    | Register(name: Name, h: nat)
    | Close(h: nat)
    | Clear

  datatype Added = Added | NameTaken | EmptyName | AlreadyRegistered

  function Init(): State {
    State([], map[], map[], 0)
  }

  predicate Exists(s: State, h: nat) {
    h < |s.boxes|
  }

  function Rename(s: State, h: nat, name: Name): State
    requires Exists(s, h)
  {
    s.(boxes := s.boxes[h := s.boxes[h].(name := name)])
  }

  /** The mailbox that `create_mailbox` returns. */
  function CreateResult(s: State, name: Name): nat {
    if name != [] && name in s.byName then s.byName[name] else |s.boxes|
  }

  function WithBox(s: State, name: Name, pid: nat): State {
    State(s.boxes + [Box(pid, name, false)],
          if name != [] then s.byName[name := |s.boxes|] else s.byName,
          if pid in s.byPid then s.byPid else s.byPid[pid := |s.boxes|],
          s.drawn + 1)
  }

  function DoCreate(s: State, name: Name): State {
    if name != [] && name in s.byName then s else WithBox(s, name, PidCounter.Number(s.drawn))
  }

  function AddResult(s: State, name: Name, h: nat): Added
    requires Exists(s, h)
  {
    if name == [] then EmptyName
    else if s.boxes[h].name != [] then AlreadyRegistered
    else if name in s.byName then NameTaken
    else Added
  }

  function DoAdd(s: State, name: Name, h: nat): State
    requires Exists(s, h)
  {
    if AddResult(s, name, h).Added? then Rename(s, h, name).(byName := s.byName[name := h]) else s
  }

  function DoClose(s: State, h: nat): State
    requires Exists(s, h)
  {
    var b := s.boxes[h];
    s.(byPid := s.byPid - {b.pid},
       byName := s.byName - {b.name},
       boxes := s.boxes[h := Box(b.pid, [], true)])
  }

  function Shut(s: State, b: Box): Box {
    if b.pid in s.byPid then Box(b.pid, [], true) else b
  }

  function DoClear(s: State): State {
    State(seq(|s.boxes|, i requires 0 <= i < |s.boxes| => Shut(s, s.boxes[i])), map[], map[], s.drawn)
  }

  predicate Enabled(s: State, e: Event) {
    match e
    case Register(_, h) => Exists(s, h)
    case Close(h) => Exists(s, h)
    case _ => true
  }

  function Step(s: State, e: Event): State
    requires Enabled(s, e)
  {
    match e
    case DrawPid => s.(drawn := s.drawn + 1)
    case Create(name) => DoCreate(s, name)
    case Register(name, h) => DoAdd(s, name, h)
    case Close(h) => DoClose(s, h)
    case Clear => DoClear(s)
  }

  // ----- what always holds -----

  /** How many pids the counter issues before it repeats one. */
  const PIDS := PidCounter.PIDS

  /** Pids are issued in order, so mailboxes differ by them until the counter wraps. */
  predicate PidsOk(s: State) {
    && (forall h | 0 <= h < |s.boxes| :: 1 <= s.boxes[h].pid <= s.drawn)
    && (forall h, k | 0 <= h < k < |s.boxes| :: s.boxes[h].pid != s.boxes[k].pid)
  }

  /** The pid index holds exactly the live mailboxes, each under its own pid. */
  predicate PidIndexOk(s: State) {
    && (forall h | 0 <= h < |s.boxes| :: !s.boxes[h].closed <==> s.boxes[h].pid in s.byPid)
    && (forall p | p in s.byPid :: Exists(s, s.byPid[p]) && s.boxes[s.byPid[p]].pid == p)
  }

  /** Whoever is found under a name carries it. */
  predicate NameIndexSound(s: State) {
    forall n | n in s.byName :: n != [] && Exists(s, s.byName[n]) && s.boxes[s.byName[n]].name == n
  }

  predicate Inv(s: State) {
    s.drawn <= PIDS && PidsOk(s) && PidIndexOk(s) && NameIndexSound(s)
  }

  /** Whoever carries a name is live and found under it. */
  predicate NameIndexComplete(s: State) {
    forall h | 0 <= h < |s.boxes| && s.boxes[h].name != [] ::
      !s.boxes[h].closed && s.boxes[h].name in s.byName && s.byName[s.boxes[h].name] == h
  }

  predicate Draws(e: Event) {
    e.DrawPid? || e.Create?
  }

  lemma NextPid(drawn: nat)
    requires drawn < PIDS
    ensures PidCounter.Number(drawn) == drawn + 1
  {
    PidCounter.NumberCycles(drawn);
  }

  lemma NewPidKeeps(s: State, b: Box, r: State)
    requires PidsOk(s) && b.pid == s.drawn + 1 == r.drawn && r.boxes == s.boxes + [b]
    ensures PidsOk(r)
  {
    assert forall h | 0 <= h < |s.boxes| :: r.boxes[h] == s.boxes[h];
  }

  lemma NewPidIsIndexed(s: State, b: Box, r: State)
    requires PidIndexOk(s) && !b.closed && r.boxes == s.boxes + [b] && r.byPid == s.byPid[b.pid := |s.boxes|]
    requires forall h | 0 <= h < |s.boxes| :: s.boxes[h].pid != b.pid
    ensures PidIndexOk(r)
  {
    assert forall h | 0 <= h < |s.boxes| :: r.boxes[h] == s.boxes[h];
  }

  lemma NewNameIsSound(s: State, b: Box, r: State)
    requires NameIndexSound(s) && r.boxes == s.boxes + [b]
    requires r.byName == if b.name != [] then s.byName[b.name := |s.boxes|] else s.byName
    ensures NameIndexSound(r)
  {
    assert forall h | 0 <= h < |s.boxes| :: r.boxes[h] == s.boxes[h];
  }

  lemma NewNameIsIndexed(s: State, b: Box, r: State)
    requires NameIndexComplete(s) && !b.closed && b.name !in s.byName && r.boxes == s.boxes + [b]
    requires r.byName == if b.name != [] then s.byName[b.name := |s.boxes|] else s.byName
    ensures NameIndexComplete(r)
  {
    assert forall h | 0 <= h < |s.boxes| :: r.boxes[h] == s.boxes[h];
  }

  lemma CreateKeeps(s: State, name: Name)
    requires Inv(s) && s.drawn < PIDS
    ensures Inv(DoCreate(s, name)) && (NameIndexComplete(s) ==> NameIndexComplete(DoCreate(s, name)))
  {
    if name == [] || name !in s.byName {
      NextPid(s.drawn);
      var (b, r) := (Box(s.drawn + 1, name, false), DoCreate(s, name));
      assert b.pid !in s.byPid;
      NewPidKeeps(s, b, r);
      NewPidIsIndexed(s, b, r);
      NewNameIsSound(s, b, r);
      if NameIndexComplete(s) {
        NewNameIsIndexed(s, b, r);
      }
    }
  }

  lemma AddKeepsInv(s: State, name: Name, h: nat)
    requires Inv(s) && Exists(s, h)
    ensures Inv(DoAdd(s, name, h))
  {
  }

  lemma AddKeeps(s: State, name: Name, h: nat)
    requires Inv(s) && Exists(s, h)
    ensures Inv(DoAdd(s, name, h))
    ensures NameIndexComplete(s) ==>
      (NameIndexComplete(DoAdd(s, name, h)) <==> !(AddResult(s, name, h).Added? && s.boxes[h].closed))
  {
    AddKeepsInv(s, name, h);
    var r := DoAdd(s, name, h);
    if AddResult(s, name, h).Added? {
      assert r.boxes[h] == Box(s.boxes[h].pid, name, s.boxes[h].closed);
      assert forall k | 0 <= k < |s.boxes| && k != h :: r.boxes[k] == s.boxes[k];
    }
  }

  lemma CloseKeeps(s: State, h: nat)
    requires Inv(s) && Exists(s, h)
    ensures Inv(DoClose(s, h)) && (NameIndexComplete(s) ==> NameIndexComplete(DoClose(s, h)))
  {
  }

  lemma ClearKeeps(s: State)
    requires Inv(s)
    ensures Inv(DoClear(s)) && (NameIndexComplete(s) ==> NameIndexComplete(DoClear(s)))
  {
  }

  /** Registering a mailbox that is closed already, under a free name. */
  predicate RegistersClosed(s: State, e: Event)
    requires Enabled(s, e)
  {
    e.Register? && AddResult(s, e.name, e.h).Added? && s.boxes[e.h].closed
  }

  lemma StepKeeps(s: State, e: Event)
    requires Inv(s) && Enabled(s, e) && (Draws(e) ==> s.drawn < PIDS)
    ensures Inv(Step(s, e))
    ensures NameIndexComplete(s) ==> (NameIndexComplete(Step(s, e)) <==> !RegistersClosed(s, e))
  {
    match e
    case DrawPid =>
    case Create(name) => CreateKeeps(s, name);
    case Register(name, h) => AddKeeps(s, name, h);
    case Close(h) => CloseKeeps(s, h);
    case Clear => ClearKeeps(s);
  }

  // ----- what the operations are for -----

  /** Nothing about mailbox `h` changes between `s` and `r`, nor how it is found. */
  ghost predicate SameFor(s: State, r: State, h: nat) {
    && h < |s.boxes| && h < |r.boxes| && s.boxes[h] == r.boxes[h]
    && (forall p :: p in s.byPid && s.byPid[p] == h <==> p in r.byPid && r.byPid[p] == h)
    && (forall n :: n in s.byName && s.byName[n] == h <==> n in r.byName && r.byName[n] == h)
  }

  lemma CreateLeavesOthers(s: State, name: Name)
    requires Inv(s) && s.drawn < PIDS
    ensures forall k | 0 <= k < |s.boxes| :: SameFor(s, DoCreate(s, name), k)
  {
    NextPid(s.drawn);
  }

  /** What `create_mailbox` returns is live, found under its pid and, if named, its name. */
  lemma CreatedIsFound(s: State, name: Name)
    requires Inv(s) && NameIndexComplete(s) && s.drawn < PIDS
    ensures var r, h := DoCreate(s, name), CreateResult(s, name);
      && Exists(r, h) && r.boxes[h].name == name
      && r.boxes[h].pid in r.byPid && r.byPid[r.boxes[h].pid] == h
      && (name != [] ==> name in r.byName && r.byName[name] == h)
      && forall k | 0 <= k < |s.boxes| :: SameFor(s, r, k)
    ensures if name != [] && name in s.byName then DoCreate(s, name) == s && CreateResult(s, name) == s.byName[name]
            else CreateResult(s, name) == |s.boxes| && DoCreate(s, name).drawn == s.drawn + 1
                 && DoCreate(s, name).boxes == s.boxes + [Box(s.drawn + 1, name, false)]
  {
    NextPid(s.drawn);
    CreateLeavesOthers(s, name);
    CreateKeeps(s, name);
    var r, h := DoCreate(s, name), CreateResult(s, name);
    assert !r.boxes[h].closed;
    var k := r.byPid[r.boxes[h].pid];
    assert r.boxes[k].pid == r.boxes[h].pid;
  }

  lemma AddLeavesOthers(s: State, name: Name, h: nat)
    requires Exists(s, h)
    ensures forall k | 0 <= k < |s.boxes| && k != h :: SameFor(s, DoAdd(s, name, h), k)
  {
  }

  /** The first mailbox of a registry has pid 1. */
  lemma FirstMailbox(name: Name)
    ensures DoCreate(Init(), name).boxes == [Box(1, name, false)]
  {
    NextPid(0);
  }

  /** Each refusal: no name, a mailbox that has one, a name that is in use. */
  lemma RefusalIs(s: State, name: Name, h: nat)
    requires Exists(s, h)
    ensures AddResult(s, name, h) == EmptyName <==> |name| == 0
    ensures AddResult(s, name, h) == AlreadyRegistered <==> |name| > 0 && |s.boxes[h].name| > 0
    ensures AddResult(s, name, h) == NameTaken <==> |name| > 0 && |s.boxes[h].name| == 0 && name in s.byName
  {
  }

  /** Registration succeeds iff mailbox and name are both unused, and touches nothing else. */
  lemma RegisteredIsFound(s: State, name: Name, h: nat)
    requires Inv(s) && NameIndexComplete(s) && Exists(s, h) && name != []
    ensures var r := DoAdd(s, name, h);
      && (name in r.byName && r.byName[name] == h <==>
            s.boxes[h].name == name || (s.boxes[h].name == [] && name !in s.byName))
      && (AddResult(s, name, h).Added? || r == s)
      && forall k | 0 <= k < |s.boxes| && k != h :: SameFor(s, r, k)
  {
    AddLeavesOthers(s, name, h);
  }

  /** A closed mailbox is gone, and all others are found as before. */
  lemma ClosedIsGone(s: State, h: nat)
    requires Inv(s) && NameIndexComplete(s) && Exists(s, h)
    ensures var r := DoClose(s, h);
      && h !in r.byPid.Values && h !in r.byName.Values
      && r.boxes[h] == Box(s.boxes[h].pid, [], true) && r.drawn == s.drawn
      && forall k | 0 <= k < |s.boxes| && k != h :: SameFor(s, r, k)
  {
  }

  /** After `clear` nothing is found, and every mailbox is closed; a live one loses its name. */
  lemma ClearedIsEmpty(s: State)
    requires Inv(s)
    ensures var r := DoClear(s);
      && r.byPid == map[] && r.byName == map[] && |r.boxes| == |s.boxes| && r.drawn == s.drawn
      && forall h | 0 <= h < |s.boxes| ::
           && r.boxes[h].closed && r.boxes[h].pid == s.boxes[h].pid
           && r.boxes[h].name == if s.boxes[h].closed then s.boxes[h].name else []
  {
  }

  // ----- runs -----

  predicate Possible(s: State, e: Event) {
    Enabled(s, e) && (Draws(e) ==> s.drawn < PIDS)
  }

  /** The events `es` lead from `s` to `r`, with no more pids drawn than there are. */
  predicate Run(s: State, es: seq<Event>, r: State)
    decreases |es|
  {
    if es == [] then r == s else Possible(s, es[0]) && Run(Step(s, es[0]), es[1..], r)
  }

  /** Whichever way a mailbox is found, it is live; and a live one is found both ways. */
  ghost predicate IndexesAgree(s: State) {
    && (forall h | 0 <= h < |s.boxes| && !s.boxes[h].closed ::
          s.boxes[h].pid in s.byPid && s.byPid[s.boxes[h].pid] == h)
    && (forall h, n | 0 <= h < |s.boxes| && n != [] ::
          n in s.byName && s.byName[n] == h <==> s.boxes[h].name == n)
    && (forall h, n | 0 <= h < |s.boxes| && s.boxes[h].closed && n in s.byName :: s.byName[n] != h)
    && (forall h, p | 0 <= h < |s.boxes| && s.boxes[h].closed && p in s.byPid :: s.byPid[p] != h)
  }

  lemma AgreeIffComplete(s: State)
    requires Inv(s)
    ensures IndexesAgree(s) <==> NameIndexComplete(s)
  {
    if NameIndexComplete(s) {
      forall h, n | 0 <= h < |s.boxes| && n != []
        ensures n in s.byName && s.byName[n] == h <==> s.boxes[h].name == n
      {
      }
    }
    if IndexesAgree(s) {
      forall h | 0 <= h < |s.boxes| && s.boxes[h].name != []
        ensures !s.boxes[h].closed && s.boxes[h].name in s.byName && s.byName[s.boxes[h].name] == h
      {
        var n := s.boxes[h].name;
        assert n in s.byName && s.byName[n] == h;
      }
    }
  }

  lemma {:induction false} RunKeeps(s: State, es: seq<Event>, r: State)
    requires Inv(s) && Run(s, es, r)
    ensures Inv(r)
    decreases |es|
  {
    if es != [] {
      StepKeeps(s, es[0]);
      RunKeeps(Step(s, es[0]), es[1..], r);
    }
  }

  /** After any events a live mailbox, and no closed one, is found under its own pid. */
  lemma FoundByPidIffLive(es: seq<Event>, s: State, h: nat)
    requires Run(Init(), es, s) && h < |s.boxes|
    ensures !s.boxes[h].closed <==> s.boxes[h].pid in s.byPid && s.byPid[s.boxes[h].pid] == h
    ensures s.boxes[h].closed ==> h !in s.byPid.Values
    ensures forall n | n in s.byName && s.byName[n] == h :: s.boxes[h].name == n
  {
    RunKeeps(Init(), es, s);
    if !s.boxes[h].closed {
      var k := s.byPid[s.boxes[h].pid];
      assert s.boxes[k].pid == s.boxes[h].pid;
    }
  }

  /** Wherever a run clears the registry, every mailbox so far is closed and none can be found. */
  lemma ClearEndsAll(es: seq<Event>, s: State)
    requires Run(Init(), es, s)
    ensures var r := Step(s, Clear);
      r.byPid == map[] && r.byName == map[] && |r.boxes| == |s.boxes| && forall b | b in r.boxes :: b.closed
  {
    RunKeeps(Init(), es, s);
    ClearedIsEmpty(s);
  }

  /** The indexes agree in every state that the events lead through. */
  ghost predicate AgreeThroughout(s: State, es: seq<Event>)
    decreases |es|
  {
    IndexesAgree(s) && (es != [] && Possible(s, es[0]) ==> AgreeThroughout(Step(s, es[0]), es[1..]))
  }

  /** No mailbox is registered once it is closed. */
  predicate Careful(s: State, es: seq<Event>)
    decreases |es|
  {
    es != [] && Possible(s, es[0]) ==> !RegistersClosed(s, es[0]) && Careful(Step(s, es[0]), es[1..])
  }

  lemma {:induction false} AgreeThroughoutIffCareful(s: State, es: seq<Event>)
    requires Inv(s) && IndexesAgree(s)
    ensures AgreeThroughout(s, es) <==> Careful(s, es)
    decreases |es|
  {
    AgreeIffComplete(s);
    if es != [] && Possible(s, es[0]) {
      var r := Step(s, es[0]);
      StepKeeps(s, es[0]);
      AgreeIffComplete(r);
      if IndexesAgree(r) {
        AgreeThroughoutIffCareful(r, es[1..]);
      }
    }
  }

  /**
   * From an empty registry, the two indexes and the mailboxes' own names agree all the
   * time exactly when nobody registers a closed mailbox.
   */
  lemma IndexesAgreeIffCareful(es: seq<Event>)
    ensures AgreeThroughout(Init(), es) <==> Careful(Init(), es)
  {
    assert IndexesAgree(Init());
    AgreeThroughoutIffCareful(Init(), es);
  }

  /** The registry does not refuse a closed mailbox: it can be found by name afterwards. */
  lemma ClosedMailboxCanBeFound() returns (es: seq<Event>, s: State)
    ensures Run(Init(), es, s) && s.byName == map[[97] := 0]
    ensures |s.boxes| == 1 && s.boxes[0].closed
  {
    es := [Create([]), Close(0), Register([97], 0)];
    var a := Step(Init(), es[0]);
    var b := Step(a, es[1]);
    s := Step(b, es[2]);
    assert Run(b, es[2..], s);
    assert Run(a, es[1..], s);
  }
}
