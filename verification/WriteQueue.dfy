/**
 * The double-buffered outgoing queue of a connection: writes collect in one queue while the
 * other one is with the socket. A buffer is named by the address that was allocated for it.
 */
module WriteQueue {
  import opened Slices

  type Buffer = nat

  /**
   * `queues`, `available`, `writing` and `aborted` are the connection's fields. The rest is
   * what its environment sees: the writes that are with the socket, the buffers whose
   * write has succeeded, and the buffers given back to the allocator.
   */
  datatype Out = Out(queues: seq<seq<Buffer>>, available: nat, writing: bool, aborted: bool,
                     socket: seq<seq<Buffer>>, written: seq<Buffer>, freed: seq<Buffer>)

  datatype Event =
    | Write(buffer: Buffer)
    | Completed(i: nat, ok: bool)     // the i-th outstanding write is over
    | Stop

  predicate TwoQueues(q: Out) {
    |q.queues| == 2 && q.available < 2
  }

  /** The queue that is with the socket, and the queue that collects new buffers. */
  function InFlight(q: Out): seq<Buffer>
    requires TwoQueues(q)
  {
    q.queues[1 - q.available]
  }

  function Waiting(q: Out): seq<Buffer>
    requires TwoQueues(q)
  {
    q.queues[q.available]
  }

  function Fresh(): Out {
    Out([[], []], 0, false, false, [], [], [])
  }

  /** Hands the waiting buffers to the socket, unless it is busy or there are none. */
  function Pump(q: Out): Out
    requires TwoQueues(q)
  {
    if !q.writing && Waiting(q) != []
    then q.(writing := true, available := 1 - q.available, socket := q.socket + [Waiting(q)])
    else q
  }

  function Enqueue(q: Out, b: Buffer): Out
    requires TwoQueues(q)
  {
    Pump(q.(queues := q.queues[q.available := Waiting(q) + [b]]))
  }

  /** The completion handler, with the completed write already off the socket. */
  function OnWritten(q: Out, ok: bool): Out
    requires TwoQueues(q)
  {
    if q.aborted then q
    else if !ok then q.(aborted := true)
    else
      Pump(q.(freed := q.freed + InFlight(q), queues := q.queues[1 - q.available := []], writing := false))
  }

  function Off(q: Out, i: nat, ok: bool): Out
    requires i < |q.socket|
  {
    q.(socket := q.socket[..i] + q.socket[i + 1..],
       written := if ok then q.written + q.socket[i] else q.written)
  }

  predicate Enabled(q: Out, e: Event) {
    e.Completed? ==> e.i < |q.socket|
  }

  function Step(q: Out, e: Event): Out
    requires TwoQueues(q) && Enabled(q, e)
  {
    match e
    case Write(b) => Enqueue(q, b)
    case Completed(i, ok) => OnWritten(Off(q, i, ok), ok)
    case Stop => q.(aborted := true)
  }

  // ----- the invariant -----

  /**
   * One write at most is with the socket, and it is the in-flight queue; the socket is
   * busy exactly when `writing` says so (unless the connection was aborted, when the flag
   * stays up); and nothing is held while the flag is down.
   */
  predicate Inv(q: Out) {
    && TwoQueues(q)
    && (q.socket == [] || q.socket == [InFlight(q)])
    && (q.socket != [] ==> q.writing && InFlight(q) != [])
    && (q.writing && !q.aborted ==> q.socket != [])
    && (!q.writing ==> InFlight(q) == [] && Waiting(q) == [])
    && (if q.aborted then q.freed <= q.written else q.freed == q.written)
  }

  /** Everything that the queue knows of, oldest first. */
  function Held(q: Out): seq<Buffer>
    requires TwoQueues(q)
  {
    q.freed + InFlight(q) + Waiting(q)
  }

  function Accepted(e: Event): seq<Buffer> {
    if e.Write? then [e.buffer] else []
  }

  lemma EnqueueKeeps(q: Out, b: Buffer)
    requires Inv(q)
    ensures Inv(Enqueue(q, b)) && Held(Enqueue(q, b)) == Held(q) + [b]
  {
    var collected := q.(queues := q.queues[q.available := Waiting(q) + [b]]);
    assert Held(collected) == Held(q) + [b];
    assert Held(Pump(collected)) == Held(collected);
  }

  lemma CompletedKeeps(q: Out, ok: bool)
    requires Inv(q) && q.socket != []
    ensures Inv(OnWritten(Off(q, 0, ok), ok)) && Held(OnWritten(Off(q, 0, ok), ok)) == Held(q)
  {
    var off := Off(q, 0, ok);
    if ok && !q.aborted {
      var emptied := off.queues[1 - off.available := []];
      var freed := off.(freed := off.freed + InFlight(off), queues := emptied, writing := false);
      assert Held(freed) == Held(q);
      assert Held(Pump(freed)) == Held(freed);
    }
  }

  lemma StepKeeps(q: Out, e: Event)
    requires Inv(q) && Enabled(q, e)
    ensures Inv(Step(q, e)) && Held(Step(q, e)) == Held(q) + Accepted(e)
  {
    match e
    case Write(b) => EnqueueKeeps(q, b);
    case Completed(i, ok) => CompletedKeeps(q, ok);
    case Stop =>
  }

  // ----- runs -----

  predicate Run(q: Out, es: seq<Event>, r: Out)
    requires Inv(q)
    decreases |es|
  {
    if es == [] then r == q
    else Enabled(q, es[0]) && (StepKeeps(q, es[0]); Run(Step(q, es[0]), es[1..], r))
  }

  function AllAccepted(es: seq<Event>): seq<Buffer> {
    if es == [] then [] else Accepted(es[0]) + AllAccepted(es[1..])
  }

  lemma {:induction false} RunKeeps(q: Out, es: seq<Event>, r: Out)
    requires Inv(q) && Run(q, es, r)
    ensures Inv(r) && Held(r) == Held(q) + AllAccepted(es)
    decreases |es|
  {
    if es != [] {
      StepKeeps(q, es[0]);
      RunKeeps(Step(q, es[0]), es[1..], r);
      Associative(Held(q), Accepted(es[0]), AllAccepted(es[1..]));
    }
  }

  /**
   * After any events, the buffers accepted are the freed ones, the ones in flight and the
   * waiting ones, in that order. One write at most is outstanding, and a buffer is freed
   * only when a write of it has succeeded.
   */
  lemma NothingLostOrReordered(es: seq<Event>, q: Out)
    requires Run(Fresh(), es, q)
    ensures TwoQueues(q) && AllAccepted(es) == q.freed + InFlight(q) + Waiting(q)
    ensures |q.socket| <= 1 && (q.socket != [] ==> q.socket == [InFlight(q)])
    ensures q.freed <= q.written && (!q.aborted ==> q.freed == q.written)
    ensures !q.aborted && q.socket == [] ==> q.queues == [[], []] && !q.writing && q.freed == AllAccepted(es)
  {
    RunKeeps(Fresh(), es, q);
    assert AllAccepted(es) == q.freed + InFlight(q) + Waiting(q);
    if !q.aborted && q.socket == [] { IdleIsEmpty(q); }
  }

  lemma IdleIsEmpty(q: Out)
    requires Inv(q) && !q.aborted && q.socket == []
    ensures q.queues == [[], []] && !q.writing && q.freed + InFlight(q) + Waiting(q) == q.freed
  {
  }

  /** No buffer is freed twice, nor while the queue still needs it. */
  lemma FreedOnce(es: seq<Event>, q: Out)
    requires Run(Fresh(), es, q) && Distinct(AllAccepted(es))
    ensures Distinct(q.freed)
    ensures TwoQueues(q) && forall b | b in q.freed :: b !in InFlight(q) && b !in Waiting(q)
  {
    NothingLostOrReordered(es, q);
    var all := AllAccepted(es);
    var n := |q.freed|;
    assert forall i | 0 <= i < n :: q.freed[i] == all[i];
    var held := InFlight(q) + Waiting(q);
    assert forall i | 0 <= i < |held| :: held[i] == all[n + i];
    forall b | b in q.freed
      ensures b !in held
    {
      var i :| 0 <= i < n && q.freed[i] == b;
      assert all[i] == b;
    }
    assert forall b | b in InFlight(q) || b in Waiting(q) :: b in held;
  }

  /** After an abort nothing is freed any more, so what the queue then holds stays held. */
  lemma {:induction false} AbortedFreesNothing(q: Out, es: seq<Event>, r: Out)
    requires Inv(q) && q.aborted && Run(q, es, r)
    ensures r.aborted && r.freed == q.freed
    decreases |es|
  {
    if es != [] {
      StepKeeps(q, es[0]);
      AbortedFreesNothing(Step(q, es[0]), es[1..], r);
    }
  }

  /** Steps that make a buffer unreachable for `handle_write`: the exact ones. */
  predicate Leaks(q: Out, e: Event)
    requires TwoQueues(q)
  {
    match e
    case Write(_) => q.aborted
    case Completed(_, ok) => !ok && !q.aborted
    case Stop => !q.aborted && (InFlight(q) != [] || Waiting(q) != [])
  }

  /** No write fails, nothing is held when the connection is stopped, and nothing is written then. */
  predicate Tidy(q: Out, es: seq<Event>)
    requires Inv(q)
    decreases |es|
  {
    es != [] && Enabled(q, es[0]) ==>
      !Leaks(q, es[0]) && (StepKeeps(q, es[0]); Tidy(Step(q, es[0]), es[1..]))
  }

  predicate Stranded(q: Out)
    requires TwoQueues(q)
  {
    q.aborted && InFlight(q) + Waiting(q) != []
  }

  lemma StrandedStays(q: Out, e: Event)
    requires Inv(q) && Enabled(q, e)
    requires Stranded(q) || Leaks(q, e)
    ensures Inv(Step(q, e)) && Stranded(Step(q, e))
  {
    StepKeeps(q, e);
  }

  lemma TidyStep(q: Out, e: Event)
    requires Inv(q) && Enabled(q, e) && !Stranded(q) && !Leaks(q, e)
    ensures Inv(Step(q, e)) && !Stranded(Step(q, e))
  {
    StepKeeps(q, e);
  }

  lemma {:induction false} StrandedRun(q: Out, es: seq<Event>, r: Out)
    requires Inv(q) && Stranded(q) && Run(q, es, r)
    ensures Inv(r) && Stranded(r)
    decreases |es|
  {
    if es != [] {
      StrandedStays(q, es[0]);
      StrandedRun(Step(q, es[0]), es[1..], r);
    }
  }

  lemma {:induction false} StrandedIffUntidy(q: Out, es: seq<Event>, r: Out)
    requires Inv(q) && !Stranded(q) && Run(q, es, r)
    ensures Inv(r) && (Tidy(q, es) <==> !Stranded(r))
    decreases |es|
  {
    if es != [] {
      if Leaks(q, es[0]) {
        StrandedStays(q, es[0]);
        StrandedRun(Step(q, es[0]), es[1..], r);
      } else {
        TidyStep(q, es[0]);
        StrandedIffUntidy(Step(q, es[0]), es[1..], r);
      }
    }
  }

  /**
   * Once no write is outstanding, every accepted buffer has been freed if and only if no
   * write failed, nothing was held when the connection was stopped, and nothing was
   * written after that.
   */
  lemma AllFreedIffTidy(es: seq<Event>, q: Out)
    requires Run(Fresh(), es, q) && q.socket == []
    ensures q.freed == AllAccepted(es) <==> Tidy(Fresh(), es)
  {
    NothingLostOrReordered(es, q);
    StrandedIffUntidy(Fresh(), es, q);
    Associative(q.freed, InFlight(q), Waiting(q));
  }

  /** A run that leaks: the write of a buffer fails, and nothing is outstanding. */
  lemma FailedWriteLeaks(b: Buffer) returns (es: seq<Event>, q: Out)
    ensures Run(Fresh(), es, q) && q.socket == []
    ensures AllAccepted(es) == [b] && q.freed == []
  {
    es := [Write(b), Completed(0, false)];
    var m := Step(Fresh(), es[0]);
    StepKeeps(Fresh(), es[0]);
    q := Step(m, es[1]);
    StepKeeps(m, es[1]);
    assert Run(q, es[2..], q);
    assert Run(m, es[1..], q);
    assert AllAccepted(es[1..]) == [] by { assert AllAccepted(es[2..]) == []; }
  }

  /** Two successful completions empty a live queue, if nothing more is written. */
  lemma Drains(q: Out)
    requires Inv(q) && !q.aborted && q.socket != []
    ensures var r := Step(q, Completed(0, true));
      Inv(r) && r.freed == q.freed + InFlight(q) &&
      if r.socket == [] then r.freed == Held(q)
      else Step(r, Completed(0, true)).freed == Held(q) && Step(r, Completed(0, true)).socket == []
  {
    StepKeeps(q, Completed(0, true));
    var r := Step(q, Completed(0, true));
    if r.socket != [] {
      StepKeeps(r, Completed(0, true));
    }
  }

  // ----- the object -----

  class Connection {
    const queues: array<seq<Buffer>>
    var available: nat
    var writing: bool
    var aborted: bool
    var socket: seq<seq<Buffer>>
    var written: seq<Buffer>
    var freed: seq<Buffer>

    ghost predicate Valid()
      reads this, queues
    {
      queues.Length == 2 && Inv(Now())
    }

    ghost function Now(): Out
      reads this, queues
    {
      Out(queues[..], available, writing, aborted, socket, written, freed)
    }

    constructor ()
      ensures Valid() && fresh(queues) && Now() == Fresh()
    {
      queues := new seq<Buffer>[2](_ => []);
      available, writing, aborted, socket, written, freed := 0, false, false, [], [], [];
      new;
      assert queues[..] == [[], []];
    }

    method WritingQueue() returns (i: nat)
      requires available < 2
      ensures i == 1 - available
    {
      return (available + 1) % 2;
    }

    method DoWriteInternal()
      requires queues.Length == 2 && available < 2
      modifies this
      ensures Now() == Pump(old(Now()))
    {
      if !writing && queues[available] != [] {
        var buffers := queues[available];
        writing := true;
        available := WritingQueue();
        socket := socket + [buffers];
      }
    }

    method DoWrite(b: Buffer)
      requires Valid()
      modifies this, queues
      ensures Valid() && Now() == Step(old(Now()), Write(b))
    {
      EnqueueKeeps(Now(), b);
      queues[available] := queues[available] + [b];
      DoWriteInternal();
    }

    /** Gives the buffers of the writing queue back, one by one. */
    method FreeWritten()
      requires queues.Length == 2 && available < 2
      modifies this`freed
      ensures freed == old(freed) + queues[1 - available]
    {
      var w := WritingQueue();
      var k := 0;
      while k < |queues[w]|
        invariant k <= |queues[w]|
        invariant freed == old(freed) + queues[w][..k]
      {
        freed := freed + [queues[w][k]];
        k := k + 1;
      }
    }

    method HandleWrite(ok: bool)
      requires queues.Length == 2 && available < 2
      modifies this, queues
      ensures Now() == OnWritten(old(Now()), ok)
    {
      if aborted {
        return;
      }
      if !ok {
        DoStop();
        return;
      }
      FreeWritten();
      var w := WritingQueue();
      queues[w] := [];
      writing := false;
      DoWriteInternal();
    }

    method DoStop()
      modifies this`aborted
      ensures aborted
    {
      if aborted {
        return;
      }
      aborted := true;
    }

    /** The socket finishes its only write and the handler runs. */
    method Complete(ok: bool)
      requires Valid() && socket != []
      modifies this, queues
      ensures Valid() && Now() == Step(old(Now()), Completed(0, ok))
    {
      CompletedKeeps(Now(), ok);
      if ok {
        written := written + socket[0];
      }
      socket := socket[1..];
      HandleWrite(ok);
    }
  }
}
