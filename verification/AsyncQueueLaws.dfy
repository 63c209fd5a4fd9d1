/**
 * What a call of `async_dequeue` means for the rest of the run: how often the handler will be
 * called, and what each step does to the schedule.
 */
module AsyncQueueLaws {
  import opened AsyncQueue

  /** What is left of the repeat count once a waiting value has been delivered. */
  function Left(waiting: bool, repeat: int): int {
    if waiting && repeat > 0 then repeat - 1 else repeat
  }

  /** The machine after `async_dequeue` on an idle queue that holds `q`. */
  ghost predicate Begun(q: seq<Value>, wait: int, repeat: int, keep: bool, s: State) {
    var left := Left(q != [], repeat);
    && s.past == [] && s.posts == 0 && s.arms == 0
    && (q == [] ==> s.queue == [] && s.first == [])
    && (q != [] ==> s.queue == q[1..] && s.first == [q[0]])
    && if left == 0 || (q != [] && !keep) then s.mode == Over
       else s.mode == Scheduled(if left < 0 then 2147483647 else left) && s.repeats == (wait != 0)
  }

  lemma BeginIs(batch: nat, q: seq<Value>, wait: int, repeat: int, keep: bool)
    requires repeat <= 2147483647
    ensures var s := Init().(queue := q);
      && Enabled(batch, s, Dequeue(wait, repeat, keep))
      && Begun(q, wait, repeat, keep, Step(batch, s, Dequeue(wait, repeat, keep)))
  {
  }

  // ----- quiet runs of a schedule -----

  /** A schedule without end. */
  lemma {:induction false} NeverRunsOut(batch: nat, s: State, es: seq<Event>, r: State)
    requires batch > 0 && s.mode == Scheduled(2147483647) && s.repeats && s.queue == []
    requires Run(batch, s, es, r) && Quiet(es)
    ensures !r.mode.Over?
    decreases |es|
  {
    if r.mode.Over? {
      QuietRunsInRounds(batch, s, es, r);
      NeverRunsOut(batch, Timeout(s), es[3..], r);
    }
  }

  /** A schedule that is not to be repeated. */
  lemma OnceOnly(batch: nat, s: State, es: seq<Event>, r: State)
    requires batch > 0 && s.mode.Scheduled? && !s.repeats && s.queue == []
    requires Run(batch, s, es, r) && Quiet(es) && r.mode.Over?
    ensures r.past == s.past + [Visit([], 1, true)] && r.arms == s.arms && r.posts == s.posts && r.first == s.first
  {
    QuietRunsInRounds(batch, s, es, r);
    OverIsOver(batch, Timeout(s), es[3..], r);
  }

  lemma {:induction false} FirstStays(batch: nat, s: State, es: seq<Event>, r: State)
    requires Run(batch, s, es, r) && !s.mode.Idle?
    ensures r.first == s.first
    decreases |es|
  {
    if es != [] { FirstStays(batch, Step(batch, s, es[0]), es[1..], r); }
  }

  // ----- quiet runs from the beginning -----

  /** How the handler has been called when a quiet run is over. */
  ghost predicate Called(r: State, first: seq<Value>, timeouts: nat, arms: nat) {
    && r.first == first && r.past == seq(timeouts, _ => Visit([], 1, true))
    && r.arms == arms && r.posts == 0
  }

  /**
   * On an empty queue: `n` timeout calls and `n - 1` rearmings if the timer is repeated, one
   * timeout call if it is not, none at all for a count of zero, and no end for a negative
   * count or the largest one.
   */
  lemma EmptyQueueTimesOut(batch: nat, wait: int, n: int, keep: bool, es: seq<Event>, r: State)
    requires batch > 0 && n <= 2147483647 && Quiet(es)
    requires Run(batch, Init(), [Dequeue(wait, n, keep)] + es, r)
    ensures wait != 0 && 0 < n < 2147483647 && r.mode.Over? ==> Called(r, [], n, n - 1)
    ensures wait == 0 && n != 0 && r.mode.Over? ==> Called(r, [], 1, 0)
    ensures n == 0 ==> r.mode.Over? && Called(r, [], 0, 0)
    ensures wait != 0 && (n < 0 || n == 2147483647) ==> !r.mode.Over?
  {
    var s := Step(batch, Init(), Dequeue(wait, n, keep));
    BeginIs(batch, [], wait, n, keep);
    assert Init().(queue := []) == Init();
    assert ([Dequeue(wait, n, keep)] + es)[1..] == es;
    ScheduleRuns(batch, s, es, r);
  }

  /** And such a run does come to its end. */
  lemma EmptyQueueEnds(batch: nat, wait: int, n: int, keep: bool) returns (es: seq<Event>, r: State)
    requires batch > 0 && wait != 0 && 0 < n < 2147483647
    ensures Run(batch, Init(), [Dequeue(wait, n, keep)] + es, r) && Quiet(es) && r.mode.Over?
  {
    var s := Step(batch, Init(), Dequeue(wait, n, keep));
    es, r := TimeoutsEnd(batch, s, n);
    assert ([Dequeue(wait, n, keep)] + es)[1..] == es;
  }

  /** The run of whatever `async_dequeue` left behind. */
  lemma ScheduleRuns(batch: nat, s: State, es: seq<Event>, r: State)
    requires batch > 0 && Quiet(es) && Run(batch, s, es, r)
    requires s.past == [] && s.posts == 0 && s.arms == 0 && s.queue == []
    requires s.mode.Over? || (s.mode.Scheduled? && s.mode.count > 0)
    ensures s.mode.Over? ==> r == s
    ensures s.mode.Scheduled? && !s.repeats && r.mode.Over? ==> Called(r, s.first, 1, 0)
    ensures s.mode.Scheduled? && s.repeats && s.mode.count < 2147483647 && r.mode.Over? ==>
              Called(r, s.first, s.mode.count, s.mode.count - 1)
    ensures s.mode.Scheduled? && s.repeats && s.mode.count == 2147483647 ==> !r.mode.Over?
  {
    FirstStays(batch, s, es, r);
    if s.mode.Over? {
      OverIsOver(batch, s, es, r);
    } else if s.repeats && s.mode.count == 2147483647 {
      NeverRunsOut(batch, s, es, r);
    } else if r.mode.Over? && !s.repeats {
      OnceOnly(batch, s, es, r);
    } else if r.mode.Over? && s.mode.count < 2147483647 {
      TimeoutsRunOut(batch, s, s.mode.count, es, r);
    }
  }

  /** With one value waiting, it is delivered at once and costs one of the calls. */
  lemma WaitingValueComesFirst(batch: nat, x: Value, wait: int, n: int, keep: bool, es: seq<Event>, r: State)
    requires batch > 0 && n <= 2147483647 && Quiet(es)
    requires Run(batch, Init(), [Push(x), Dequeue(wait, n, keep)] + es, r)
    ensures r.first == [x]
    ensures !keep || n == 0 || n == 1 ==> r.mode.Over? && Called(r, [x], 0, 0)
    ensures keep && wait != 0 && 2 <= n && r.mode.Over? ==> Called(r, [x], n - 1, n - 2)
    ensures keep && wait == 0 && n != 0 && n != 1 && r.mode.Over? ==> Called(r, [x], 1, 0)
    ensures keep && wait != 0 && n < 0 ==> !r.mode.Over?
  {
    var all := [Push(x), Dequeue(wait, n, keep)] + es;
    var a := Step(batch, Init(), Push(x));
    assert a == Init().(queue := [x]);
    BeginIs(batch, [x], wait, n, keep);
    var s := Step(batch, a, Dequeue(wait, n, keep));
    assert all[1..][0] == Dequeue(wait, n, keep) && all[1..][1..] == es;
    FirstStays(batch, s, es, r);
    ScheduleRuns(batch, s, es, r);
  }

  // ----- what each step does to the schedule -----

  /** One less, except that zero and the largest count stay. */
  function Less(n: nat): nat {
    if n == 0 || n == 2147483647 then n else n - 1
  }

  /** A value goes to the handler and counts; the handler decides whether to go on. */
  lemma PopIs(batch: nat, s: State, keep: bool)
    requires Enabled(batch, s, Pop(keep))
    ensures |s.mode.visit.data| < batch && s.queue != []
    ensures var (r, v) := (Step(batch, s, Pop(keep)), s.mode.visit);
      && r.queue == s.queue[1..]
      && (keep ==> r.past == s.past
                   && r.mode == Running(Visit(v.data + [s.queue[0]], v.timeouts, v.sawEmpty), Less(s.mode.count)))
      && (!keep ==> r.past == s.past + [Visit(v.data + [s.queue[0]], v.timeouts, v.sawEmpty)] && r.mode == Over)
  {
  }

  /** After a full batch with more to come the consumer is posted again with the same count. */
  predicate Reposts(batch: nat, s: State)
    requires s.mode.Leaving?
  {
    |s.mode.visit.data| == batch && s.queue != []
  }

  /**
   * Otherwise the timer is rearmed exactly if it repeats, at least two calls are left (or no
   * end was set), and the handler, told of the timeout when there was no data, wants to go on.
   */
  lemma FinishIs(batch: nat, s: State, keep: bool)
    requires s.mode.Leaving?
    ensures var (r, v, n) := (Step(batch, s, Finish(keep)), s.mode.visit, s.mode.count);
      && r.queue == s.queue && r.first == s.first
      && if Reposts(batch, s) then
           r.mode == Scheduled(n) && r.past == s.past + [v] && r.posts == s.posts + 1 && r.arms == s.arms
         else
           && r.past == s.past + [if v.data == [] then Visit([], v.timeouts + 1, v.sawEmpty) else v]
           && r.posts == s.posts
           && if s.repeats && 2 <= n && (v.data != [] || keep)
              then r.mode == Scheduled(Less(n)) && r.arms == s.arms + 1
              else r.mode == Over && r.arms == s.arms
  {
  }

  // ----- the count of a run -----

  /** Every value taken from the queue and every rearming counts once, down to zero. */
  ghost predicate CountOk(s: State) {
    Counting(s.mode) && s.budget < 2147483647 ==>
      var used := |Flatten(s.past)| + |Current(s.mode)| + s.arms;
      s.mode.count == if used <= s.budget then s.budget - used else 0
  }

  lemma StepCounts(batch: nat, s: State, e: Event)
    requires batch > 0 && Inv(batch, s) && CountOk(s) && Enabled(batch, s, e)
    ensures CountOk(Step(batch, s, e))
  {
    match e
    case Dequeue(_, _, _) => assert s.past == [];
    case Finish(keep) => FinishCounts(batch, s, keep);
    case Pop(keep) => PopCounts(batch, s, keep);
    case _ =>
  }

  lemma PopCounts(batch: nat, s: State, keep: bool)
    requires Inv(batch, s) && CountOk(s) && Enabled(batch, s, Pop(keep))
    ensures CountOk(Step(batch, s, Pop(keep)))
  {
    PopIs(batch, s, keep);
  }

  lemma FinishCounts(batch: nat, s: State, keep: bool)
    requires batch > 0 && Inv(batch, s) && CountOk(s) && s.mode.Leaving?
    ensures CountOk(Step(batch, s, Finish(keep)))
  {
    var v := Recorded(s.mode.visit);
    FinishIs(batch, s, keep);
    EndKeeps(batch, s, keep);
    FlattenSnoc(s.past, v);
    assert v.data == s.mode.visit.data;
  }

  lemma {:induction false} RunCounts(batch: nat, s: State, es: seq<Event>, r: State)
    requires batch > 0 && Inv(batch, s) && CountOk(s) && Run(batch, s, es, r)
    ensures CountOk(r)
    decreases |es|
  {
    if es != [] {
      StepKeeps(batch, s, es[0]);
      StepCounts(batch, s, es[0]);
      RunCounts(batch, Step(batch, s, es[0]), es[1..], r);
    }
  }

  /** The count that is left is exact in every run, whatever is pushed and whenever. */
  lemma CountIsExact(batch: nat, es: seq<Event>, s: State)
    requires batch > 0 && Run(batch, Init(), es, s) && Counting(s.mode) && s.budget < 2147483647
    ensures var used := |Flatten(s.past)| + |Current(s.mode)| + s.arms;
      s.mode.count == if used <= s.budget then s.budget - used else 0
  {
    RunCounts(batch, Init(), es, s);
  }
}
