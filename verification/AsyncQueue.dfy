/**
 * The queue with asynchronous delivery: one consumer, whose invocations pop values in
 * batches and reschedule themselves, while any number of producers push at any moment.
 */
module AsyncQueue {
  import opened Slices

  type Value = nat

  const INFINITE := 0x7fff_ffff

  /** What one invocation has done: its data calls, its timeout calls, whether a pop failed. */
  datatype Visit = Visit(data: seq<Value>, timeouts: nat, sawEmpty: bool)

  datatype Mode =
    | Idle                          // `async_dequeue` not called yet
    | Scheduled(count: nat)         // posted, or waiting on the timer
    | Running(visit: Visit, count: nat)
    | Leaving(visit: Visit, count: nat)   // out of the loop
    | Over

  /**
   * `first` is what `async_dequeue` itself delivered, `past` the invocations that are over,
   * `budget` the repeat count it started with; `posts` and `arms` count the reschedulings.
   */
  datatype State = State(queue: seq<Value>, first: seq<Value>, past: seq<Visit>, mode: Mode,
                         repeats: bool, budget: nat, posts: nat, arms: nat)

  datatype Event =
    | Push(value: Value)
    | Dequeue(wait: int, repeat: int, keep: bool)   // `async_dequeue`; `keep` is what a handler call returns
    | Fire
    | Pop(keep: bool)
    | LeaveLoop
    | Finish(keep: bool)

  function Init(): State {
    State([], [], [], Idle, false, 0, 0, 0)
  }

  function DecRepeatCount(n: nat): nat {
    if n == INFINITE || n == 0 then n else n - 1
  }

  function Stop(s: State, v: Visit): State {
    s.(past := s.past + [v], mode := Over)
  }

  function Rearm(s: State, v: Visit, count: nat): State {
    var n := DecRepeatCount(count);
    if s.repeats && n > 0 then s.(past := s.past + [v], mode := Scheduled(n), arms := s.arms + 1) else Stop(s, v)
  }

  /** `async_dequeue`: a first value at once if there is one, then the schedule. */
  function Begin(s: State, wait: int, repeat: int, keep: bool): State {
    var popped := s.queue != [];
    var t := if popped then s.(queue := s.queue[1..], first := [s.queue[0]]) else s;
    var left := if popped && repeat > 0 then repeat - 1 else repeat;
    if popped && !keep then t.(mode := Over)
    else if left == 0 then t.(mode := Over)
    else
      var rep := if left < 0 then INFINITE else left;
      t.(mode := Scheduled(rep), budget := rep, repeats := wait != 0)
  }

  /** What follows the loop: give way to others, tell the handler of the timeout, rearm. */
  function End(batch: nat, s: State, v: Visit, count: nat, keep: bool): State {
    if |v.data| == batch && s.queue != [] then
      s.(past := s.past + [v], mode := Scheduled(count), posts := s.posts + 1)
    else if v.data == [] then
      var w := v.(timeouts := v.timeouts + 1);
      if keep then Rearm(s, w, count) else Stop(s, w)
    else Rearm(s, v, count)
  }

  predicate Enabled(batch: nat, s: State, e: Event) {
    match e
    case Push(_) => true
    case Dequeue(_, repeat, _) => s.mode.Idle? && repeat <= INFINITE
    case Fire => s.mode.Scheduled?
    case Pop(_) => s.mode.Running? && |s.mode.visit.data| < batch && s.queue != []
    case LeaveLoop => s.mode.Running? && (|s.mode.visit.data| >= batch || s.queue == [])
    case Finish(_) => s.mode.Leaving?
  }

  function Step(batch: nat, s: State, e: Event): State
    requires Enabled(batch, s, e)
  {
    match e
    case Push(x) => s.(queue := s.queue + [x])
    case Dequeue(wait, repeat, keep) => Begin(s, wait, repeat, keep)
    case Fire => s.(mode := Running(Visit([], 0, false), s.mode.count))
    case Pop(keep) =>
      var v := s.mode.visit.(data := s.mode.visit.data + [s.queue[0]]);
      var t := s.(queue := s.queue[1..]);
      if keep then t.(mode := Running(v, DecRepeatCount(s.mode.count))) else Stop(t, v)
    case LeaveLoop =>
      var v := s.mode.visit;
      s.(mode := Leaving(v.(sawEmpty := |v.data| < batch && s.queue == []), s.mode.count))
    case Finish(keep) => End(batch, s, s.mode.visit, s.mode.count, keep)
  }

  // ----- the invariant -----

  function Flatten(vs: seq<Visit>): seq<Value> {
    if vs == [] then [] else Flatten(vs[..|vs| - 1]) + vs[|vs| - 1].data
  }

  function Current(m: Mode): seq<Value> {
    if m.Running? || m.Leaving? then m.visit.data else []
  }

  /** The values that handlers have been called with, in that order. */
  function Delivered(s: State): seq<Value> {
    s.first + Flatten(s.past) + Current(s.mode)
  }

  /** A batch of data calls at most; or one timeout call, after a pop that failed. */
  predicate VisitOk(batch: nat, v: Visit) {
    || (1 <= |v.data| <= batch && v.timeouts == 0)
    || (v.data == [] && v.timeouts == 1 && v.sawEmpty)
  }

  predicate ModeOk(batch: nat, m: Mode) {
    && (m.Running? || m.Leaving? ==> |m.visit.data| <= batch && m.visit.timeouts == 0)
    && (m.Leaving? ==> m.visit.sawEmpty == (|m.visit.data| < batch))
  }

  predicate Counting(m: Mode) {
    m.Scheduled? || m.Running? || m.Leaving?
  }

  /** What the schedule has used up; only an infinite budget is never used. */
  predicate BudgetOk(s: State) {
    && s.budget <= INFINITE
    && (s.mode.Idle? ==> s.arms == 0 && s.posts == 0)
    && (Counting(s.mode) ==> s.budget > 0)
    && (s.budget == INFINITE && Counting(s.mode) ==> s.mode.count == INFINITE)
    && (0 < s.budget < INFINITE && Counting(s.mode) ==> s.mode.count + s.arms <= s.budget)
    && (s.budget < INFINITE ==> s.arms == 0 || s.arms < s.budget)
  }

  predicate VisitsOk(batch: nat, past: seq<Visit>) {
    forall i | 0 <= i < |past| :: VisitOk(batch, past[i])
  }

  /** Each post left a full batch behind. */
  predicate PostsOk(batch: nat, posts: nat, past: seq<Visit>) {
    posts * batch <= |Flatten(past)|
  }

  predicate Inv(batch: nat, s: State) {
    && VisitsOk(batch, s.past)
    && ModeOk(batch, s.mode)
    && BudgetOk(s)
    && PostsOk(batch, s.posts, s.past)
    && |s.first| <= 1
    && (s.mode.Idle? ==> s.past == [] && s.first == [])
    && |s.past| + (if Counting(s.mode) then 1 else 0) <= 1 + s.posts + s.arms
  }

  // ----- every step keeps it -----

  lemma FlattenSnoc(vs: seq<Visit>, v: Visit)
    ensures Flatten(vs + [v]) == Flatten(vs) + v.data
  {
    assert (vs + [v])[..|vs|] == vs;
  }

  lemma PastKeeps(batch: nat, past: seq<Visit>, v: Visit)
    requires VisitsOk(batch, past) && VisitOk(batch, v)
    ensures VisitsOk(batch, past + [v]) && Flatten(past + [v]) == Flatten(past) + v.data
  {
    FlattenSnoc(past, v);
  }

  lemma PostsKeep(batch: nat, posts: nat, past: seq<Visit>, v: Visit)
    requires PostsOk(batch, posts, past)
    ensures PostsOk(batch, posts, past + [v])
    ensures |v.data| >= batch ==> PostsOk(batch, posts + 1, past + [v])
  {
    FlattenSnoc(past, v);
    assert (posts + 1) * batch == posts * batch + batch;
  }

  /** The invocation, as it is remembered. */
  function Recorded(v: Visit): Visit {
    if v.data == [] then v.(timeouts := v.timeouts + 1) else v
  }

  lemma EndKeepsBudget(batch: nat, s: State, keep: bool)
    requires batch > 0 && Inv(batch, s) && s.mode.Leaving?
    ensures var r := Step(batch, s, Finish(keep));
      && BudgetOk(r) && |r.past| == |s.past| + 1
      && |r.past| + (if Counting(r.mode) then 1 else 0) <= 1 + r.posts + r.arms
  {
  }

  lemma EndKeepsPast(batch: nat, s: State, keep: bool)
    requires batch > 0 && Inv(batch, s) && s.mode.Leaving?
    ensures var r := Step(batch, s, Finish(keep));
      && r.past == s.past + [Recorded(s.mode.visit)]
      && VisitsOk(batch, r.past) && PostsOk(batch, r.posts, r.past)
  {
    var w := Recorded(s.mode.visit);
    PastKeeps(batch, s.past, w);
    PostsKeep(batch, s.posts, s.past, w);
  }

  lemma EndKeeps(batch: nat, s: State, keep: bool)
    requires batch > 0 && Inv(batch, s) && s.mode.Leaving?
    ensures var r := Step(batch, s, Finish(keep));
      Inv(batch, r) && r.past == s.past + [Recorded(s.mode.visit)] && r.queue == s.queue && r.first == s.first
      && !r.mode.Running? && !r.mode.Leaving?
  {
    EndKeepsPast(batch, s, keep);
    EndKeepsBudget(batch, s, keep);
  }

  lemma PopKeeps(batch: nat, s: State, keep: bool)
    requires Inv(batch, s) && Enabled(batch, s, Pop(keep))
    ensures Inv(batch, Step(batch, s, Pop(keep)))
  {
    var v := s.mode.visit.(data := s.mode.visit.data + [s.queue[0]]);
    if !keep {
      PastKeeps(batch, s.past, v);
      PostsKeep(batch, s.posts, s.past, v);
    }
  }

  lemma PopDelivers(batch: nat, s: State, keep: bool)
    requires Enabled(batch, s, Pop(keep))
    ensures Delivered(Step(batch, s, Pop(keep))) == Delivered(s) + [s.queue[0]]
  {
    var data := s.mode.visit.data;
    var v := s.mode.visit.(data := data + [s.queue[0]]);
    FlattenSnoc(s.past, v);
    Associative(s.first, Flatten(s.past), data + [s.queue[0]]);
    Associative(s.first + Flatten(s.past), data, [s.queue[0]]);
  }

  function Pushed(e: Event): seq<Value> {
    if e.Push? then [e.value] else []
  }

  lemma BeginKeeps(batch: nat, s: State, wait: int, repeat: int, keep: bool)
    requires Inv(batch, s) && Enabled(batch, s, Dequeue(wait, repeat, keep))
    ensures var r := Step(batch, s, Dequeue(wait, repeat, keep));
      Inv(batch, r) && Delivered(r) + r.queue == Delivered(s) + s.queue
  {
    var r := Step(batch, s, Dequeue(wait, repeat, keep));
    assert r.past == [] && Current(r.mode) == [];
    assert s.queue != [] ==> s.queue == [s.queue[0]] + s.queue[1..];
    assert Delivered(s) == [] && Delivered(r) == r.first;
  }

  /** The steps that only change the mode. */
  lemma MoveKeeps(batch: nat, s: State, e: Event)
    requires Inv(batch, s) && Enabled(batch, s, e) && (e.Fire? || e.LeaveLoop?)
    ensures var r := Step(batch, s, e);
      Inv(batch, r) && Delivered(r) == Delivered(s) && r.queue == s.queue
  {
  }

  lemma FinishDelivers(batch: nat, s: State, keep: bool)
    requires batch > 0 && Inv(batch, s) && s.mode.Leaving?
    ensures Delivered(Step(batch, s, Finish(keep))) == Delivered(s)
  {
    EndKeeps(batch, s, keep);
    FlattenSnoc(s.past, Recorded(s.mode.visit));
    assert Recorded(s.mode.visit).data == s.mode.visit.data;
  }

  lemma PopMoves(batch: nat, s: State, keep: bool)
    requires Inv(batch, s) && Enabled(batch, s, Pop(keep))
    ensures var r := Step(batch, s, Pop(keep));
      Inv(batch, r) && Delivered(r) + r.queue == Delivered(s) + s.queue
  {
    PopKeeps(batch, s, keep);
    PopDelivers(batch, s, keep);
    assert s.queue == [s.queue[0]] + s.queue[1..];
    Associative(Delivered(s), [s.queue[0]], s.queue[1..]);
  }

  /** Nothing is lost, doubled or overtaken: what is delivered is what left the queue. */
  lemma StepKeeps(batch: nat, s: State, e: Event)
    requires batch > 0 && Inv(batch, s) && Enabled(batch, s, e)
    ensures var r := Step(batch, s, e);
      Inv(batch, r) && Delivered(r) + r.queue == Delivered(s) + s.queue + Pushed(e)
  {
    match e
    case Push(x) => Associative(Delivered(s), s.queue, [x]);
    case Dequeue(wait, repeat, keep) => BeginKeeps(batch, s, wait, repeat, keep);
    case Fire => MoveKeeps(batch, s, e);
    case Pop(keep) => PopMoves(batch, s, keep);
    case LeaveLoop => MoveKeeps(batch, s, e);
    case Finish(keep) =>
      EndKeeps(batch, s, keep);
      FinishDelivers(batch, s, keep);
  }

  // ----- runs -----

  predicate Run(batch: nat, s: State, es: seq<Event>, r: State)
    decreases |es|
  {
    if es == [] then r == s else Enabled(batch, s, es[0]) && Run(batch, Step(batch, s, es[0]), es[1..], r)
  }

  function AllPushed(es: seq<Event>): seq<Value> {
    if es == [] then [] else Pushed(es[0]) + AllPushed(es[1..])
  }

  lemma {:induction false} RunKeeps(batch: nat, s: State, es: seq<Event>, r: State)
    requires batch > 0 && Inv(batch, s) && Run(batch, s, es, r)
    ensures Inv(batch, r) && Delivered(r) + r.queue == Delivered(s) + s.queue + AllPushed(es)
    decreases |es|
  {
    if es != [] {
      StepKeeps(batch, s, es[0]);
      RunKeeps(batch, Step(batch, s, es[0]), es[1..], r);
      Associative(Delivered(s) + s.queue, Pushed(es[0]), AllPushed(es[1..]));
    }
  }

  // ----- main results -----

  /** The handlers see the values in the order of the pushes, each once, none skipped. */
  lemma DeliveredInOrder(batch: nat, es: seq<Event>, s: State)
    requires batch > 0 && Run(batch, Init(), es, s)
    ensures AllPushed(es) == Delivered(s) + s.queue
  {
    RunKeeps(batch, Init(), es, s);
  }

  /** Each invocation that is over made a batch of data calls or one timeout call. */
  lemma InvocationsAreBounded(batch: nat, es: seq<Event>, s: State, i: nat)
    requires batch > 0 && Run(batch, Init(), es, s) && i < |s.past|
    ensures var v := s.past[i];
      if v.data == [] then v.timeouts == 1 && v.sawEmpty else |v.data| <= batch && v.timeouts == 0
  {
    RunKeeps(batch, Init(), es, s);
  }

  /**
   * A finite repeat count and finitely many pushes stop the schedule: the timer is rearmed
   * less often than the count says, a post costs a batch of values, and each invocation
   * but the first needs one of them. An infinite count stays infinite.
   */
  lemma SchedulingIsBounded(batch: nat, es: seq<Event>, s: State)
    requires batch > 0 && Run(batch, Init(), es, s)
    ensures |s.past| <= 1 + s.posts + s.arms
    ensures s.posts * batch <= |AllPushed(es)|
    ensures s.budget < INFINITE ==> s.arms == 0 || s.arms < s.budget
    ensures s.budget == INFINITE && Counting(s.mode) ==> s.mode.count == INFINITE
  {
    RunKeeps(batch, Init(), es, s);
    DeliveredInOrder(batch, es, s);
  }

  const TIMED_OUT := Visit([], 1, true)

  /** Nothing is pushed, and the handler always wants to go on. */
  predicate Quiet(es: seq<Event>) {
    forall i | 0 <= i < |es| :: !es[i].Push? && (es[i].Finish? ==> es[i].keep)
  }

  const ROUND := [Fire, LeaveLoop, Finish(true)]

  /** One invocation on an empty queue: the handler is told, and the count goes down. */
  function Timeout(s: State): State
    requires s.mode.Scheduled?
  {
    Rearm(s, TIMED_OUT, s.mode.count)
  }

  lemma RoundIsTimeout(batch: nat, s: State)
    requires batch > 0 && s.mode.Scheduled? && s.queue == []
    ensures Run(batch, s, ROUND, Timeout(s)) && Timeout(s).queue == []
  {
    var a := Step(batch, s, ROUND[0]);
    var b := Step(batch, a, ROUND[1]);
    assert Step(batch, b, ROUND[2]) == Timeout(s);
    assert Run(batch, b, ROUND[2..], Timeout(s));
    assert Run(batch, a, ROUND[1..], Timeout(s));
  }

  /** A quiet run that gets past its schedule starts with such a round. */
  lemma QuietRunsInRounds(batch: nat, s: State, es: seq<Event>, r: State)
    requires batch > 0 && s.mode.Scheduled? && s.queue == []
    requires Run(batch, s, es, r) && Quiet(es) && r.mode.Over?
    ensures |es| >= 3 && Run(batch, Timeout(s), es[3..], r)
  {
    assert es[0] == Fire;
    var a := Step(batch, s, es[0]);
    assert Run(batch, a, es[1..], r) && es[1..][0] == LeaveLoop;
    var b := Step(batch, a, es[1]);
    assert Run(batch, b, es[1..][1..], r) && es[1..][1..] == es[2..];
    assert es[2] == Finish(true) && es[2..][1..] == es[3..];
  }

  lemma OverIsOver(batch: nat, s: State, es: seq<Event>, r: State)
    requires s.mode.Over? && Run(batch, s, es, r) && Quiet(es)
    ensures r == s
  {
  }

  /**
   * On an empty queue a schedule of `n` means exactly `n` timeout calls and `n - 1`
   * rearmings, in every run in which nothing is pushed and the handler goes on to the end.
   */
  lemma {:induction false} TimeoutsRunOut(batch: nat, s: State, n: nat, es: seq<Event>, r: State)
    requires batch > 0 && s.mode == Scheduled(n) && 0 < n < INFINITE && s.repeats && s.queue == []
    requires Run(batch, s, es, r) && Quiet(es) && r.mode.Over?
    ensures r.arms == s.arms + n - 1 && r.posts == s.posts
    ensures r.past == s.past + seq(n, _ => TIMED_OUT)
    decreases n
  {
    QuietRunsInRounds(batch, s, es, r);
    if n == 1 {
      OverIsOver(batch, Timeout(s), es[3..], r);
    } else {
      TimeoutsRunOut(batch, Timeout(s), n - 1, es[3..], r);
    }
  }

  /** And there is such a run. */
  lemma {:induction false} TimeoutsEnd(batch: nat, s: State, n: nat) returns (es: seq<Event>, r: State)
    requires batch > 0 && s.mode == Scheduled(n) && 0 < n < INFINITE && s.repeats && s.queue == []
    ensures Run(batch, s, es, r) && Quiet(es) && r.mode.Over?
    decreases n
  {
    RoundIsTimeout(batch, s);
    if n == 1 {
      es, r := ROUND, Timeout(s);
    } else {
      var fs;
      fs, r := TimeoutsEnd(batch, Timeout(s), n - 1);
      RunsJoin(batch, s, ROUND, Timeout(s), fs, r);
      es := ROUND + fs;
    }
  }

  lemma {:induction false} RunsJoin(batch: nat, s: State, es: seq<Event>, m: State, fs: seq<Event>, r: State)
    requires Run(batch, s, es, m) && Run(batch, m, fs, r)
    ensures Run(batch, s, es + fs, r)
    decreases |es|
  {
    if es == [] {
      assert es + fs == fs;
    } else {
      RunsJoin(batch, Step(batch, s, es[0]), es[1..], m, fs, r);
      assert (es + fs)[1..] == es[1..] + fs;
    }
  }

  /** The consumer is never stuck: it can go on until it is over. */
  lemma ConsumerMovesOn(batch: nat, s: State)
    ensures Counting(s.mode) <==>
      exists e | e == Fire || e == Pop(true) || e == LeaveLoop || e == Finish(true) :: Enabled(batch, s, e)
  {
    if Counting(s.mode) {
      assert Enabled(batch, s, Fire) || Enabled(batch, s, Pop(true))
        || Enabled(batch, s, LeaveLoop) || Enabled(batch, s, Finish(true));
    }
  }

  // ----- the object -----

  lemma {:induction false} RunOneMore(batch: nat, s: State, es: seq<Event>, r: State, e: Event)
    requires Run(batch, s, es, r) && Enabled(batch, r, e)
    ensures Run(batch, s, es + [e], Step(batch, r, e))
    decreases |es|
  {
    if es == [] {
      assert (es + [e])[1..] == [];
    } else {
      RunOneMore(batch, Step(batch, s, es[0]), es[1..], r, e);
      assert (es + [e])[1..] == es[1..] + [e];
    }
  }

  /** What an invocation leaves scheduled. */
  datatype Next = Nothing | Posted(count: nat) | Armed(count: nat)

  function ModeAfter(next: Next): Mode {
    if next.Nothing? then Over else Scheduled(next.count)
  }

  /**
   * `keep` and `keepIdle` are what the handler returns for a value and for a timeout;
   * `arrivals(k)` is pushed by other threads before the k-th look at the queue.
   */
  datatype World = World(keep: Value -> bool, keepIdle: bool, arrivals: nat -> seq<Value>)

  class Queue {
    const batchSize: nat
    var items: seq<Value>
    ghost var now: State
    ghost var trace: seq<Event>     // all that has happened

    ghost predicate Valid()
      reads this
    {
      batchSize > 0 && items == now.queue && Run(batchSize, Init(), trace, now)
    }

    constructor (batchSize: nat)
      requires batchSize > 0
      ensures Valid() && this.batchSize == batchSize && now == Init()
    {
      this.batchSize := batchSize;
      items, now, trace := [], Init(), [];
    }

    ghost method Take(e: Event)
      requires Run(batchSize, Init(), trace, now) && Enabled(batchSize, now, e)
      modifies this`now, this`trace
      ensures now == Step(batchSize, old(now), e) && trace == old(trace) + [e]
      ensures Run(batchSize, Init(), trace, now)
    {
      RunOneMore(batchSize, Init(), trace, now, e);
      trace, now := trace + [e], Step(batchSize, now, e);
    }

    method Enqueue(x: Value)
      requires Valid()
      modifies this
      ensures Valid() && now == Step(batchSize, old(now), Push(x)) && trace == old(trace) + [Push(x)]
    {
      Take(Push(x));
      items := items + [x];
    }

    method EnqueueAll(xs: seq<Value>)
      requires Valid()
      modifies this
      ensures Valid() && now == old(now).(queue := old(now.queue) + xs) && old(trace) <= trace
    {
      for i := 0 to |xs|
        invariant Valid() && old(trace) <= trace
        invariant now == old(now).(queue := old(now.queue) + xs[..i])
      {
        Enqueue(xs[i]);
      }
    }

    /**
     * One invocation: its loop and what follows are steps of the machine, whatever arrives
     * meanwhile, and it leaves scheduled what the machine's mode says.
     */
    method ProcessQueue(w: World, repeats: bool, repeatCount: nat) returns (next: Next, called: seq<Value>)
      requires Valid() && now.mode == Scheduled(repeatCount) && now.repeats == repeats
      modifies this
      ensures Valid() && old(trace) <= trace
      ensures |now.past| == |old(now.past)| + 1 && now.past[|old(now.past)|].data == called
      ensures forall i | 0 <= i < |called| - 1 :: w.keep(called[i])
      ensures now.mode == ModeAfter(next)
      ensures now.posts == old(now.posts) + if next.Posted? then 1 else 0
      ensures now.arms == old(now.arms) + if next.Armed? then 1 else 0
    {
      var count, i, k := repeatCount, 0, 0;
      called := [];
      Take(Fire);
      EnqueueAll(w.arrivals(k));
      while i < batchSize && items != []
        invariant Valid() && old(trace) <= trace
        invariant i == |called| <= batchSize
        invariant now.mode == Running(Visit(called, 0, false), count) && now.repeats == repeats
        invariant now.past == old(now.past) && now.posts == old(now.posts) && now.arms == old(now.arms)
        invariant forall j | 0 <= j < |called| :: w.keep(called[j])
        decreases batchSize - i
      {
        var value := items[0];
        Take(Pop(w.keep(value)));
        items := items[1..];
        i := i + 1;
        count := DecRepeatCount(count);
        called := called + [value];
        if !w.keep(value) {
          return Nothing, called;
        }
        k := k + 1;
        EnqueueAll(w.arrivals(k));
      }
      next := Leave(w, k + 1, repeats, count, i);
    }

    /** What follows the loop: give way to others, tell the handler of the timeout, rearm. */
    method Leave(w: World, k: nat, repeats: bool, count: nat, i: nat) returns (next: Next)
      requires Valid() && now.mode.Running? && now.mode.visit == Visit(now.mode.visit.data, 0, false)
      requires now.mode.count == count && |now.mode.visit.data| == i <= batchSize && now.repeats == repeats
      requires i == batchSize || items == []
      modifies this
      ensures Valid() && old(trace) <= trace
      ensures |now.past| == |old(now.past)| + 1 && now.past[|old(now.past)|].data == old(now.mode.visit.data)
      ensures now.mode == ModeAfter(next)
      ensures now.posts == old(now.posts) + if next.Posted? then 1 else 0
      ensures now.arms == old(now.arms) + if next.Armed? then 1 else 0
    {
      Take(LeaveLoop);
      EnqueueAll(w.arrivals(k));
      if i == batchSize && items != [] {
        Take(Finish(true));
        return Posted(count);
      }
      Take(Finish(w.keepIdle));
      if i == 0 && !w.keepIdle {
        return Nothing;
      }
      var n := DecRepeatCount(count);
      if repeats && n > 0 {
        return Armed(n);
      }
      return Nothing;
    }

    /**
     * Delivers a value at once if there is one, and schedules what the repeat count leaves;
     * a negative count means no end. True if no invocation was scheduled.
     */
    method AsyncDequeue(w: World, wait: int, repeat: int) returns (done: bool)
      requires Valid() && now.mode.Idle? && repeat <= INFINITE
      modifies this
      ensures Valid() && exists keep :: trace == old(trace) + [Dequeue(wait, repeat, keep)]
      ensures old(items) == [] ==> items == [] && now.first == old(now.first)
      ensures old(items) != [] ==> items == old(items)[1..] && now.first == [old(items)[0]]
      ensures done <==> now.mode.Over?
      ensures var left := if old(items) != [] && repeat > 0 then repeat - 1 else repeat;
        && (done <==> left == 0 || (old(items) != [] && !w.keep(old(items)[0])))
        && (!done ==>
            && now.mode == Scheduled(if left < 0 then 2147483647 else left)
            && now.budget == now.mode.count && now.repeats == (wait != 0))
      ensures now.past == old(now.past) && now.posts == old(now.posts) && now.arms == old(now.arms)
    {
      var count := repeat;
      if items != [] {
        var value := items[0];
        Take(Dequeue(wait, repeat, w.keep(value)));
        items := items[1..];
        if !w.keep(value) {
          return true;
        }
        if count > 0 {
          count := count - 1;
        }
      } else {
        Take(Dequeue(wait, repeat, true));
      }
      return count == 0;
    }
  }
}
