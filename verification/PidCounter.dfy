/**
 * Pid and port numbers: an atomic counter that threads increment, and that a thread sets
 * back to 1 when it finds 28 bits used up.
 */
module PidCounter {
  import opened Slices

  const LIMIT := 0x0fff_ffff

  /** How many numbers there are: 1 to 0x0ffffffe. */
  const PIDS := LIMIT - 1

  /** `over` holds the threads between their increment and their exchange. */
  datatype State = State(counter: nat, over: set<nat>, issued: seq<nat>)

  datatype Event =
    | FetchAdd(t: nat)
    | Exchange(t: nat)

  function Init(): State {
    State(1, {}, [])
  }

  predicate Enabled(s: State, e: Event) {
    if e.FetchAdd? then e.t !in s.over else e.t in s.over
  }

  function Step(s: State, e: Event): State
    requires Enabled(s, e)
  {
    match e
    case FetchAdd(t) =>
      var n := s.counter;
      if n < LIMIT then State(n + 1, s.over, s.issued + [n]) else State(n + 1, s.over + {t}, s.issued)
    case Exchange(t) =>
      State(1, s.over - {t}, if s.counter == 1 then s.issued + [1] else s.issued)
  }

  predicate Run(s: State, es: seq<Event>, r: State)
    decreases |es|
  {
    if es == [] then r == s else Enabled(s, es[0]) && Run(Step(s, es[0]), es[1..], r)
  }

  // ----- what holds of every run -----

  predicate InRange(issued: seq<nat>) {
    forall i | 0 <= i < |issued| :: 1 <= issued[i] < LIMIT
  }

  predicate Inv(s: State) {
    1 <= s.counter <= LIMIT + |s.over| && InRange(s.issued)
  }

  lemma {:induction false} RunKeeps(s: State, es: seq<Event>, r: State)
    requires Inv(s) && Run(s, es, r)
    ensures Inv(r)
    decreases |es|
  {
    if es != [] {
      RunKeeps(Step(s, es[0]), es[1..], r);
    }
  }

  /**
   * However threads interleave, the counter passes the limit by no more than the threads
   * that have yet to reset it, and every number fits 28 bits and is not 0.
   */
  lemma NumbersAreInRange(es: seq<Event>, s: State)
    requires Run(Init(), es, s)
    ensures s.counter <= LIMIT + |s.over|
    ensures forall i | 0 <= i < |s.issued| :: 1 <= s.issued[i] <= 0x0fff_fffe
  {
    RunKeeps(Init(), es, s);
  }

  // ----- one thread -----

  /** The number issued for a counter, and the counter left behind. */
  function Issue(counter: nat): (nat, nat) {
    if counter < LIMIT then (counter, counter + 1) else (1, 2)
  }

  /** What a thread does in `create_pid` when nobody interferes. */
  lemma AloneIssues(s: State, t: nat) returns (es: seq<Event>, r: State)
    requires 1 <= s.counter <= LIMIT && t !in s.over
    ensures Run(s, es, r) && (forall i | 0 <= i < |es| :: es[i].t == t)
    ensures r.issued == s.issued + [Issue(s.counter).0] && r.counter == Issue(s.counter).1
    ensures r.over == s.over
  {
    if s.counter < LIMIT {
      es, r := [FetchAdd(t)], Step(s, FetchAdd(t));
    } else {
      es := [FetchAdd(t), Exchange(t), FetchAdd(t)];
      var a := Step(s, es[0]);
      var b := Step(a, es[1]);
      r := Step(b, es[2]);
      assert Run(b, es[2..], r);
      assert Run(a, es[1..], r);
    }
  }

  /** The counter behind `k` numbers. */
  function Counter(k: nat): nat {
    if k == 0 then 1 else Issue(Counter(k - 1)).1
  }

  /** The `k`-th number, counting from 0. */
  function Number(k: nat): nat {
    Issue(Counter(k)).0
  }

  lemma {:induction false} CounterCycles(k: nat)
    ensures Counter(k) == if k == 0 then 1 else (k - 1) % (LIMIT - 1) + 2
  {
    if k > 0 {
      CounterCycles(k - 1);
    }
  }

  /** The closed form of the sequence: 1, 2, and so on to 0x0ffffffe, and again from 1. */
  lemma NumberCycles(k: nat)
    ensures Number(k) == k % (LIMIT - 1) + 1
  {
    CounterCycles(k);
  }

  /** Without interference, a number comes back only after all the others. */
  lemma ConsecutiveNumbersDiffer(i: nat, j: nat)
    requires i < j < i + 0x0fff_fffe
    ensures Number(i) != Number(j)
  {
    NumberCycles(i);
    NumberCycles(j);
  }

  // ----- when numbers repeat -----

  /** Any 0x0ffffffe consecutive numbers are distinct. */
  predicate Spread(issued: seq<nat>) {
    forall i, j | 0 <= i < j < |issued| && j < i + PIDS :: issued[i] != issued[j]
  }

  /** Every reset finds the counter used up, and not set back already by another thread. */
  predicate Orderly(s: State, es: seq<Event>)
    decreases |es|
  {
    es != [] && Enabled(s, es[0]) ==>
      (es[0].Exchange? ==> s.counter >= LIMIT) && Orderly(Step(s, es[0]), es[1..])
  }

  predicate CountsOn(issued: seq<nat>) {
    forall i | 0 <= i < |issued| :: issued[i] == Number(i)
  }

  /** The numbers so far are those of a single thread, and so will be the next one. */
  predicate InStep(s: State) {
    var next := Counter(|s.issued|);
    && CountsOn(s.issued)
    && (s.over != {} ==> s.issued != [])
    && if s.counter > LIMIT then next == LIMIT
       else s.counter == next || (s.counter == 1 && next == LIMIT)
  }

  lemma CounterBounds(k: nat)
    ensures 1 <= Counter(k) <= LIMIT && (Counter(k) == 1 <==> k == 0)
  {
    CounterCycles(k);
  }

  lemma OrderlyStep(s: State, e: Event)
    requires InStep(s) && Enabled(s, e) && (e.Exchange? ==> s.counter >= LIMIT)
    ensures InStep(Step(s, e))
  {
    CounterBounds(|s.issued|);
    assert Counter(|s.issued| + 1) == Issue(Counter(|s.issued|)).1;
  }

  lemma CountingIsSpread(issued: seq<nat>)
    requires CountsOn(issued)
    ensures Spread(issued)
  {
    forall i, j | 0 <= i < j < |issued| && j < i + PIDS
      ensures issued[i] != issued[j]
    {
      ConsecutiveNumbersDiffer(i, j);
    }
  }

  /** A number 1 that is too recent to be issued again, and a counter that will do it. */
  predicate Doomed(s: State) {
    || !Spread(s.issued)
    || (s.counter == 1 && exists i | 0 <= i < |s.issued| < i + PIDS :: s.issued[i] == 1)
  }

  lemma DoomedStays(s: State, e: Event)
    requires Doomed(s) && Enabled(s, e)
    ensures Doomed(Step(s, e))
    ensures s.counter < LIMIT && e.FetchAdd? ==> !Spread(Step(s, e).issued)
  {
    var (n, r) := (|s.issued|, Step(s, e));
    if !Spread(s.issued) {
      var i, j :| 0 <= i < j < n && j < i + PIDS && s.issued[i] == s.issued[j];
      assert r.issued[i] == r.issued[j];
    } else {
      var i :| 0 <= i < n < i + PIDS && s.issued[i] == 1;
      assert r.issued[i] == r.issued[n];
    }
  }

  /** A reset that finds the counter set back already. */
  lemma LateResetDooms(s: State, e: Event)
    requires InStep(s) && Enabled(s, e) && e.Exchange? && s.counter < LIMIT
    ensures Doomed(Step(s, e))
  {
    var (k, r) := (|s.issued|, Step(s, e));
    CounterBounds(k);
    if s.counter == 1 {
      assert r.issued[k] == 1;
    } else {
      var i := k - (s.counter - 1);
      CounterCycles(k);
      NumberCycles(i);
      assert r.issued[i] == 1;
    }
  }

  lemma {:induction false} DoomedRun(s: State, es: seq<Event>, r: State)
    requires Doomed(s) && Run(s, es, r)
    ensures Doomed(r)
    decreases |es|
  {
    if es != [] {
      DoomedStays(s, es[0]);
      DoomedRun(Step(s, es[0]), es[1..], r);
    }
  }

  lemma {:induction false} OrderlyRun(s: State, es: seq<Event>, r: State)
    requires InStep(s) && Run(s, es, r)
    ensures Orderly(s, es) ==> InStep(r)
    ensures !Orderly(s, es) ==> Doomed(r)
    decreases |es|
  {
    if es != [] {
      if es[0].Exchange? && s.counter < LIMIT {
        LateResetDooms(s, es[0]);
        DoomedRun(Step(s, es[0]), es[1..], r);
      } else {
        OrderlyStep(s, es[0]);
        OrderlyRun(Step(s, es[0]), es[1..], r);
      }
    }
  }

  /** In an orderly run the threads together get what a single one would. */
  lemma OrderlyRunsCount(es: seq<Event>, s: State)
    requires Run(Init(), es, s) && Orderly(Init(), es)
    ensures forall i | 0 <= i < |s.issued| :: s.issued[i] == Number(i)
    ensures Spread(s.issued)
  {
    OrderlyRun(Init(), es, s);
    CountingIsSpread(s.issued);
  }

  /**
   * The exact condition. After any run and one more increment, any 0x0ffffffe consecutive
   * numbers are distinct if and only if every reset of the run found the counter used up.
   */
  lemma NumbersSpreadIffOrderly(es: seq<Event>, s: State, t: nat)
    requires Run(Init(), es, s) && t !in s.over
    ensures Spread(Step(s, FetchAdd(t)).issued) <==> Orderly(Init(), es)
  {
    OrderlyRun(Init(), es, s);
    var r := Step(s, FetchAdd(t));
    if Orderly(Init(), es) {
      OrderlyStep(s, FetchAdd(t));
      CountingIsSpread(r.issued);
    } else {
      DoomedStays(s, FetchAdd(t));
    }
  }

  // ----- the condition in terms of threads -----

  /** Nobody resets the counter while another thread is about to. */
  predicate Alone(s: State, es: seq<Event>)
    decreases |es|
  {
    es != [] && Enabled(s, es[0]) ==>
      (es[0].Exchange? ==> s.over == {es[0].t}) && Alone(Step(s, es[0]), es[1..])
  }

  lemma {:induction false} AloneIsOrderly(s: State, es: seq<Event>)
    requires s.over != {} ==> s.counter >= LIMIT
    requires Alone(s, es)
    ensures Orderly(s, es)
    decreases |es|
  {
    if es != [] && Enabled(s, es[0]) {
      assert es[0].Exchange? ==> s.over - {es[0].t} == {};
      AloneIsOrderly(Step(s, es[0]), es[1..]);
    }
  }

  /** If resets never overlap, the numbers are those of a single thread. */
  lemma AloneRunsCount(es: seq<Event>, s: State)
    requires Run(Init(), es, s) && Alone(Init(), es)
    ensures forall i | 0 <= i < |s.issued| :: s.issued[i] == Number(i)
    ensures Spread(s.issued)
  {
    AloneIsOrderly(Init(), es);
    OrderlyRunsCount(es, s);
  }

  /** Whenever two threads are about to reset, they can make the others get 1 twice. */
  lemma OverlapRepeats(s: State, t: nat, u: nat) returns (es: seq<Event>, r: State)
    requires t in s.over && u in s.over && t != u
    ensures es == [Exchange(t), FetchAdd(t), Exchange(u), FetchAdd(t)] && Run(s, es, r)
    ensures |r.issued| >= |s.issued| + 2
    ensures r.issued[|r.issued| - 2] == r.issued[|r.issued| - 1] == 1
  {
    es := [Exchange(t), FetchAdd(t), Exchange(u), FetchAdd(t)];
    var a := Step(s, es[0]);
    var b := Step(a, es[1]);
    var c := Step(b, es[2]);
    r := Step(c, es[3]);
    assert Run(c, es[3..], r);
    assert Run(b, es[2..], r);
    assert Run(a, es[1..], r);
  }

  lemma {:induction false} RunsJoin(s: State, es: seq<Event>, m: State, fs: seq<Event>, r: State)
    requires Run(s, es, m) && Run(m, fs, r)
    ensures Run(s, es + fs, r)
    decreases |es|
  {
    if es == [] {
      assert es + fs == fs;
    } else {
      RunsJoin(Step(s, es[0]), es[1..], m, fs, r);
      assert (es + fs)[1..] == es[1..] + fs;
    }
  }

  lemma {:induction false} CountsTo(n: nat) returns (es: seq<Event>, s: State)
    requires 1 <= n <= LIMIT
    ensures Run(Init(), es, s) && s.counter == n && s.over == {}
  {
    if n == 1 {
      es, s := [], Init();
    } else {
      es, s := CountsTo(n - 1);
      var r := Step(s, FetchAdd(0));
      assert Run(s, [FetchAdd(0)], r);
      RunsJoin(Init(), es, s, [FetchAdd(0)], r);
      es, s := es + [FetchAdd(0)], r;
    }
  }

  /** And such runs exist. */
  lemma NumbersCanRepeat() returns (es: seq<Event>, s: State)
    ensures Run(Init(), es, s) && !Spread(s.issued)
  {
    var m, fs;
    es, m := CountsTo(LIMIT);
    var n := Step(Step(m, FetchAdd(0)), FetchAdd(1));
    var both := [FetchAdd(0), FetchAdd(1)];
    assert Run(Step(m, both[0]), both[1..], n);
    RunsJoin(Init(), es, m, both, n);
    fs, s := OverlapRepeats(n, 0, 1);
    RunsJoin(Init(), es + both, n, fs, s);
    es := es + both + fs;
    var k := |s.issued| - 2;
    assert s.issued[k] == s.issued[k + 1];
  }

  /** Until the first reset the numbers are 1, 2, 3 and so on. */
  lemma {:induction false} CountsUp(s: State, es: seq<Event>, r: State)
    requires Run(s, es, r) && forall i | 0 <= i < |es| :: es[i].FetchAdd?
    requires forall i | 0 <= i < |s.issued| :: s.issued[i] == i + 1
    requires |s.issued| + 1 == if s.counter < LIMIT then s.counter else LIMIT
    ensures forall i | 0 <= i < |r.issued| :: r.issued[i] == i + 1
    decreases |es|
  {
    if es != [] {
      CountsUp(Step(s, es[0]), es[1..], r);
    }
  }

  lemma DistinctBeforeReset(es: seq<Event>, s: State)
    requires Run(Init(), es, s) && forall i | 0 <= i < |es| :: es[i].FetchAdd?
    ensures Distinct(s.issued)
  {
    CountsUp(Init(), es, s);
  }

  class Node {
    var pidCount: nat

    /** The retry loop, when no other thread steps in between. */
    method CreatePid() returns (n: nat)
      requires 1 <= pidCount <= LIMIT
      modifies this
      ensures (n, pidCount) == Issue(old(pidCount))
      ensures 1 <= n < LIMIT && 1 <= pidCount <= LIMIT
    {
      var first: nat := 1;
      while true
        invariant 1 <= pidCount <= LIMIT
        invariant pidCount == old(pidCount) || (pidCount == 1 && old(pidCount) == LIMIT)
        decreases pidCount
      {
        n := pidCount;
        pidCount := pidCount + 1;
        if n < LIMIT {
          break;
        }
        var was := pidCount;
        pidCount := first;
        if was == first {
          n := first;
          break;
        }
      }
    }
  }
}
