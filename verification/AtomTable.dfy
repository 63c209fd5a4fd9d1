/**
 * The atom table: names interned to indices through a hash index, by any number of threads
 * that probe without the lock and probe again under it before they append.
 */
module AtomTable {
  import opened Terms

  // ----- the hash index -----

  /** The index is keyed by the C string of a name, which ends at the first NUL. */
  datatype Entry = Entry(key: Name, index: nat)

  datatype Table = Table(atoms: seq<Name>, buckets: seq<seq<Entry>>)

  /** Any hash function will do; `capacity` is how many atoms fit. */
  datatype Config = Config(hash: Name -> nat, capacity: nat)

  /** The first entry for `key`, or 0. */
  function FindIn(bucket: seq<Entry>, key: Name): nat {
    if bucket == [] then 0
    else if bucket[0].key == key then bucket[0].index
    else FindIn(bucket[1..], key)
  }

  function Find(cfg: Config, t: Table, key: Name): nat
    requires t.buckets != []
  {
    FindIn(t.buckets[cfg.hash(key) % |t.buckets|], key)
  }

  predicate HasKey(bucket: seq<Entry>, key: Name) {
    exists i | 0 <= i < |bucket| :: bucket[i].key == key
  }

  /** `m_index[key] = n` within a bucket; a new entry goes anywhere in it. */
  function Store(bucket: seq<Entry>, key: Name, n: nat, at: nat): seq<Entry> {
    if bucket != [] && bucket[0].key == key then [Entry(key, n)] + bucket[1..]
    else if bucket == [] || (at == 0 && !HasKey(bucket, key)) then [Entry(key, n)] + bucket
    else [bucket[0]] + Store(bucket[1..], key, n, if at > 0 then at - 1 else 0)
  }

  lemma {:induction false} StoreFinds(bucket: seq<Entry>, key: Name, n: nat, at: nat, other: Name)
    ensures FindIn(Store(bucket, key, n, at), other) == if other == key then n else FindIn(bucket, other)
  {
    var r := Store(bucket, key, n, at);
    if bucket != [] && bucket[0].key == key {
      assert r[1..] == bucket[1..];
    } else if bucket == [] || (at == 0 && !HasKey(bucket, key)) {
      assert r[1..] == bucket;
    } else {
      var at' := if at > 0 then at - 1 else 0;
      assert r[1..] == Store(bucket[1..], key, n, at');
      StoreFinds(bucket[1..], key, n, at', other);
    }
  }

  function Insert(cfg: Config, t: Table, key: Name, n: nat, at: nat): Table
    requires t.buckets != []
  {
    var b := cfg.hash(key) % |t.buckets|;
    t.(buckets := t.buckets[b := Store(t.buckets[b], key, n, at)])
  }

  lemma InsertFinds(cfg: Config, t: Table, key: Name, n: nat, at: nat, other: Name)
    requires t.buckets != []
    ensures Find(cfg, Insert(cfg, t, key, n, at), other) == if other == key then n else Find(cfg, t, other)
  {
    StoreFinds(t.buckets[cfg.hash(key) % |t.buckets|], key, n, at, other);
  }

  // ----- threads -----

  datatype Result = Index(n: nat) | TooLong | Full

  /** Where a thread stands in `lookup`; from Locked on it holds the lock. */
  datatype Pc =
    | Idle
    | Missed(name: Name)
    | Locked(name: Name)
    | Absent(name: Name)
    | Pushed(name: Name, n: nat)
    | Stored(name: Name, n: nat)

  datatype Returned = Returned(name: Name, result: Result)

  datatype State = State(table: Table, pcs: map<nat, Pc>, holder: Option<nat>, log: seq<Returned>)

  datatype Event =
    | Call(t: nat, name: Name)      // the checks and the unlocked probe
    | Acquire(t: nat)
    | Reprobe(t: nat)
    | Append(t: nat)
    | Publish(t: nat, at: nat)
    | Release(t: nat)

  function At(s: State, t: nat): Pc {
    if t in s.pcs then s.pcs[t] else Idle
  }

  function Goto(s: State, t: nat, pc: Pc): State {
    s.(pcs := s.pcs[t := pc])
  }

  /** `lookup` returns or throws; the guard releases the lock if the thread holds it. */
  function Return(s: State, t: nat, name: Name, r: Result): State {
    Goto(s, t, Idle).(log := s.log + [Returned(name, r)],
                      holder := if s.holder == Some(t) then None else s.holder)
  }

  predicate Enabled(s: State, e: Event) {
    match e
    case Call(t, _) => At(s, t).Idle?
    case Acquire(t) => At(s, t).Missed? && s.holder.None?
    case Reprobe(t) => At(s, t).Locked?
    case Append(t) => At(s, t).Absent?
    case Publish(t, _) => At(s, t).Pushed?
    case Release(t) => At(s, t).Stored?
  }

  function Begin(cfg: Config, s: State, t: nat, name: Name): State
    requires s.table.buckets != []
  {
    if name == [] then Return(s, t, name, Index(0))
    else if !ValidName(name) then Return(s, t, name, TooLong)
    else
      var n := Find(cfg, s.table, CStr(name));
      if n > 0 then Return(s, t, name, Index(n)) else Goto(s, t, Missed(name))
  }

  function Step(cfg: Config, s: State, e: Event): State
    requires s.table.buckets != [] && Enabled(s, e)
  {
    match e
    case Call(t, name) => Begin(cfg, s, t, name)
    case Acquire(t) => Goto(s, t, Locked(At(s, t).name)).(holder := Some(t))
    case Reprobe(t) =>
      var name := At(s, t).name;
      var n := Find(cfg, s.table, CStr(name));
      if n > 0 then Return(s, t, name, Index(n)) else Goto(s, t, Absent(name))
    case Append(t) =>
      var name := At(s, t).name;
      var n := |s.table.atoms|;
      if n == cfg.capacity then Return(s, t, name, Full)
      else Goto(s, t, Pushed(name, n)).(table := s.table.(atoms := s.table.atoms + [name]))
    case Publish(t, at) =>
      var (name, n) := (At(s, t).name, At(s, t).n);
      Goto(s, t, Stored(name, n)).(table := Insert(cfg, s.table, CStr(name), n, at))
    case Release(t) => Return(s, t, At(s, t).name, Index(At(s, t).n))
  }

  // ----- the invariant -----

  /** The atoms that the hash index knows: all but one that is just being added. */
  function Known(s: State): nat {
    if s.holder.Some? && At(s, s.holder.value).Pushed? && s.table.atoms != []
    then |s.table.atoms| - 1 else |s.table.atoms|
  }

  /** The index leads from each known atom to its own place, and nowhere else. */
  ghost predicate IndexAgrees(cfg: Config, table: Table, known: nat)
    requires known <= |table.atoms|
  {
    && table.buckets != []
    && (forall i | 0 < i < known :: Find(cfg, table, CStr(table.atoms[i])) == i)
    && (forall k :: Find(cfg, table, k) > 0 ==>
          Find(cfg, table, k) < known && CStr(table.atoms[Find(cfg, table, k)]) == k)
  }

  predicate Critical(pc: Pc) {
    pc.Locked? || pc.Absent? || pc.Pushed? || pc.Stored?
  }

  predicate ThreadOk(cfg: Config, table: Table, pc: Pc)
    requires table.buckets != []
  {
    && (!pc.Idle? ==> pc.name != [] && ValidName(pc.name))
    && (pc.Absent? || pc.Pushed? ==> Find(cfg, table, CStr(pc.name)) == 0)
    && (pc.Pushed? ==> pc.n == |table.atoms| - 1)
    && (pc.Pushed? || pc.Stored? ==> 0 < pc.n < |table.atoms| && table.atoms[pc.n] == pc.name)
  }

  /** What a finished lookup was told is true of the table, then and ever after. */
  predicate AnswerOk(cfg: Config, atoms: seq<Name>, r: Returned) {
    match r.result
    case Index(n) =>
      && ValidName(r.name) && n < |atoms| && (n == 0 <==> r.name == [])
      && CStr(atoms[n]) == CStr(r.name)
    case TooLong => !ValidName(r.name)
    case Full => |atoms| == cfg.capacity
  }

  predicate Named(cfg: Config, atoms: seq<Name>) {
    && 0 < |atoms| <= cfg.capacity && atoms[0] == []
    && (forall i | 0 < i < |atoms| :: atoms[i] != [])
  }

  ghost predicate LockOk(s: State) {
    forall t: nat :: Critical(At(s, t)) <==> s.holder == Some(t)
  }

  ghost predicate ThreadsOk(cfg: Config, s: State)
    requires s.table.buckets != []
  {
    forall t: nat :: ThreadOk(cfg, s.table, At(s, t))
  }

  predicate AnswersOk(cfg: Config, atoms: seq<Name>, log: seq<Returned>) {
    forall i | 0 <= i < |log| :: AnswerOk(cfg, atoms, log[i])
  }

  ghost predicate Good(cfg: Config, s: State) {
    && Named(cfg, s.table.atoms)
    && IndexAgrees(cfg, s.table, Known(s))
    && LockOk(s)
    && ThreadsOk(cfg, s)
    && AnswersOk(cfg, s.table.atoms, s.log)
  }

  /** A thread moves on without touching the table or the lock. */
  lemma GotoKeeps(cfg: Config, s: State, t: nat, pc: Pc)
    requires Good(cfg, s) && !At(s, t).Pushed? && !pc.Pushed?
    requires ThreadOk(cfg, s.table, pc) && Critical(pc) == Critical(At(s, t))
    ensures Good(cfg, Goto(s, t, pc))
  {
    var r := Goto(s, t, pc);
    assert forall u: nat :: At(r, u) == if u == t then pc else At(s, u);
  }

  lemma ReturnKeeps(cfg: Config, s: State, t: nat, name: Name, result: Result)
    requires Good(cfg, s) && !At(s, t).Pushed?
    requires AnswerOk(cfg, s.table.atoms, Returned(name, result))
    ensures Good(cfg, Return(s, t, name, result))
  {
    var r := Return(s, t, name, result);
    assert forall u: nat :: At(r, u) == if u == t then Idle else At(s, u);
    assert LockOk(r);
  }

  lemma AcquireKeeps(cfg: Config, s: State, t: nat)
    requires Good(cfg, s) && At(s, t).Missed? && s.holder.None?
    ensures Good(cfg, Step(cfg, s, Acquire(t)))
  {
    var r := Step(cfg, s, Acquire(t));
    assert forall u: nat :: At(r, u) == if u == t then Locked(At(s, t).name) else At(s, u);
  }

  lemma AppendKeeps(cfg: Config, s: State, t: nat)
    requires Good(cfg, s) && At(s, t).Absent? && |s.table.atoms| < cfg.capacity
    ensures Good(cfg, Step(cfg, s, Append(t)))
  {
    var r := Step(cfg, s, Append(t));
    var n := |s.table.atoms|;
    assert forall u: nat :: At(r, u) == if u == t then Pushed(At(s, t).name, n) else At(s, u);
    assert Known(s) == n == Known(r);
    assert r.table.atoms[..n] == s.table.atoms;
    assert forall k :: Find(cfg, r.table, k) == Find(cfg, s.table, k);
    assert forall u: nat | u != t :: !Critical(At(s, u));
    AnswersStay(cfg, s.table.atoms, At(s, t).name, s.log);
  }

  lemma AnswersStay(cfg: Config, atoms: seq<Name>, name: Name, log: seq<Returned>)
    requires AnswersOk(cfg, atoms, log) && |atoms| < cfg.capacity
    ensures AnswersOk(cfg, atoms + [name], log)
  {
  }

  lemma StoreKeeps(cfg: Config, s: State, t: nat, at: nat)
    requires Good(cfg, s) && At(s, t).Pushed?
    ensures Good(cfg, Step(cfg, s, Publish(t, at)))
  {
    var r := Step(cfg, s, Publish(t, at));
    var (name, n) := (At(s, t).name, At(s, t).n);
    assert forall u: nat :: At(r, u) == if u == t then Stored(name, n) else At(s, u);
    assert s.holder == Some(t) && Known(s) == n && Known(r) == n + 1;
    forall k
      ensures Find(cfg, r.table, k) == if k == CStr(name) then n else Find(cfg, s.table, k)
    {
      InsertFinds(cfg, s.table, CStr(name), n, at, k);
    }
    assert forall u: nat | u != t :: !Critical(At(s, u));
    assert IndexAgrees(cfg, r.table, Known(r));
  }

  lemma ProbeKeeps(cfg: Config, s: State, t: nat, name: Name, miss: Pc)
    requires Good(cfg, s) && !At(s, t).Pushed? && name != [] && ValidName(name)
    requires miss == if Critical(At(s, t)) then Absent(name) else Missed(name)
    ensures var n := Find(cfg, s.table, CStr(name));
      Good(cfg, if n > 0 then Return(s, t, name, Index(n)) else Goto(s, t, miss))
  {
    var n := Find(cfg, s.table, CStr(name));
    if n > 0 {
      ReturnKeeps(cfg, s, t, name, Index(n));
    } else {
      GotoKeeps(cfg, s, t, miss);
    }
  }

  lemma StepKeeps(cfg: Config, s: State, e: Event)
    requires Good(cfg, s) && Enabled(s, e)
    ensures Good(cfg, Step(cfg, s, e))
  {
    match e
    case Call(t, name) =>
      if name == [] {
        ReturnKeeps(cfg, s, t, name, Index(0));
      } else if !ValidName(name) {
        ReturnKeeps(cfg, s, t, name, TooLong);
      } else {
        ProbeKeeps(cfg, s, t, name, Missed(name));
      }
    case Acquire(t) => AcquireKeeps(cfg, s, t);
    case Reprobe(t) =>
      assert ThreadOk(cfg, s.table, At(s, t));
      ProbeKeeps(cfg, s, t, At(s, t).name, Absent(At(s, t).name));
    case Append(t) =>
      if |s.table.atoms| == cfg.capacity {
        ReturnKeeps(cfg, s, t, At(s, t).name, Full);
      } else {
        AppendKeeps(cfg, s, t);
      }
    case Publish(t, at) => StoreKeeps(cfg, s, t, at);
    case Release(t) =>
      assert ThreadOk(cfg, s.table, At(s, t));
      ReturnKeeps(cfg, s, t, At(s, t).name, Index(At(s, t).n));
  }

  // ----- runs -----

  function EmptyBuckets(n: nat): seq<seq<Entry>> {
    seq(n, _ => [])
  }

  /** The new table: the empty name at 0, in `n` buckets. */
  function Init(cfg: Config, n: nat): State
    requires n > 0
  {
    var empty := Table([[]], EmptyBuckets(n));
    State(Insert(cfg, empty, [], 0, 0), map[], None, [])
  }

  lemma InitIsGood(cfg: Config, n: nat)
    requires n > 0 && cfg.capacity > 0
    ensures Good(cfg, Init(cfg, n))
  {
    var empty := Table([[]], EmptyBuckets(n));
    forall k
      ensures Find(cfg, Init(cfg, n).table, k) == 0
    {
      InsertFinds(cfg, empty, [], 0, 0, k);
    }
  }

  ghost predicate Run(cfg: Config, s: State, es: seq<Event>, r: State)
    requires Good(cfg, s)
    decreases |es|
  {
    if es == [] then r == s
    else Enabled(s, es[0]) && (StepKeeps(cfg, s, es[0]); Run(cfg, Step(cfg, s, es[0]), es[1..], r))
  }

  lemma StepGrows(cfg: Config, s: State, e: Event)
    requires Good(cfg, s) && Enabled(s, e)
    ensures s.table.atoms <= Step(cfg, s, e).table.atoms && s.log <= Step(cfg, s, e).log
  {
  }

  /** Atoms are only ever added behind the others, so an index never changes its meaning. */
  lemma {:induction false} IndicesAreStable(cfg: Config, s: State, es: seq<Event>, r: State)
    requires Good(cfg, s) && Run(cfg, s, es, r)
    ensures Good(cfg, r) && s.table.atoms <= r.table.atoms && s.log <= r.log
    decreases |es|
  {
    if es != [] {
      StepKeeps(cfg, s, es[0]);
      StepGrows(cfg, s, es[0]);
      IndicesAreStable(cfg, Step(cfg, s, es[0]), es[1..], r);
    }
  }

  /** The events `es`, in that interleaving, lead a new table to `s`. */
  ghost predicate Reached(cfg: Config, buckets: nat, es: seq<Event>, s: State) {
    buckets > 0 && cfg.capacity > 0 && (InitIsGood(cfg, buckets); Run(cfg, Init(cfg, buckets), es, s))
  }

  // ----- main results -----

  lemma KeysDiffer(cfg: Config, s: State, i: nat, j: nat)
    requires Good(cfg, s) && 0 < i < j < |s.table.atoms|
    ensures CStr(s.table.atoms[i]) != CStr(s.table.atoms[j])
  {
    if j == Known(s) {
      assert ThreadOk(cfg, s.table, At(s, s.holder.value));
    }
  }

  /** At any moment of any interleaving no two indices stand for the same name. */
  lemma NoNameTwice(cfg: Config, buckets: nat, es: seq<Event>, s: State, i: nat, j: nat)
    requires Reached(cfg, buckets, es, s) && i < j < |s.table.atoms|
    ensures s.table.atoms[i] != s.table.atoms[j]
    ensures i > 0 ==> CStr(s.table.atoms[i]) != CStr(s.table.atoms[j])
  {
    InitIsGood(cfg, buckets);
    IndicesAreStable(cfg, Init(cfg, buckets), es, s);
    if i > 0 {
      KeysDiffer(cfg, s, i, j);
    }
  }

  /** The last-resort meaning of a lookup: go through all names. */
  function Scan(atoms: seq<Name>, key: Name, i: nat): (n: nat)
    requires i <= |atoms|
    ensures n == 0 || (i <= n < |atoms| && CStr(atoms[n]) == key)
    decreases |atoms| - i
  {
    if i == |atoms| then 0
    else if CStr(atoms[i]) == key then i
    else Scan(atoms, key, i + 1)
  }

  lemma {:induction false} ScanFindsAll(atoms: seq<Name>, key: Name, i: nat, n: nat)
    requires 0 < i <= n < |atoms| && CStr(atoms[n]) == key
    ensures 0 < Scan(atoms, key, i) <= n
    decreases |atoms| - i
  {
    if CStr(atoms[i]) != key {
      ScanFindsAll(atoms, key, i + 1, n);
    }
  }

  /** The hash search finds what a scan of the indexed names finds, whatever the hash. */
  lemma FindIsScan(cfg: Config, t: Table, key: Name)
    requires t.atoms != [] && IndexAgrees(cfg, t, |t.atoms|)
    ensures Find(cfg, t, key) == Scan(t.atoms, key, 1)
  {
    var n := Find(cfg, t, key);
    if n > 0 {
      ScanFindsAll(t.atoms, key, 1, n);
    }
  }

  /** Names that the table cannot tell apart: the index sees them up to the first NUL. */
  predicate SameKey(a: Name, b: Name) {
    (a == [] <==> b == []) && CStr(a) == CStr(b)
  }

  predicate Answered(s: State, name: Name, n: nat) {
    Returned(name, Index(n)) in s.log
  }

  /** Comparing indices is comparing names, for any two lookups of any run. */
  lemma IndexEqualityIsNameEquality(cfg: Config, buckets: nat, es: seq<Event>, s: State,
                                    a: Name, m: nat, b: Name, n: nat)
    requires Reached(cfg, buckets, es, s) && Answered(s, a, m) && Answered(s, b, n)
    ensures m == n <==> SameKey(a, b)
    ensures 0 !in a && 0 !in b ==> (m == n <==> a == b)
  {
    InitIsGood(cfg, buckets);
    IndicesAreStable(cfg, Init(cfg, buckets), es, s);
    var i :| 0 <= i < |s.log| && s.log[i] == Returned(a, Index(m));
    var j :| 0 <= j < |s.log| && s.log[j] == Returned(b, Index(n));
    assert AnswerOk(cfg, s.table.atoms, s.log[i]) && AnswerOk(cfg, s.table.atoms, s.log[j]);
    if m < n && m > 0 {
      KeysDiffer(cfg, s, m, n);
    } else if n < m && n > 0 {
      KeysDiffer(cfg, s, n, m);
    }
    if 0 !in a && 0 !in b {
      CStrOfNulFree(a);
      CStrOfNulFree(b);
    }
  }

  predicate NulFreeName(n: Name) {
    0 !in n
  }

  predicate Clean(s: State) {
    && (forall i | 0 <= i < |s.table.atoms| :: NulFreeName(s.table.atoms[i]))
    && (forall t | t in s.pcs :: !s.pcs[t].Idle? ==> NulFreeName(s.pcs[t].name))
    && (forall i | 0 <= i < |s.log| :: NulFreeName(s.log[i].name))
  }

  predicate CleanEvents(es: seq<Event>) {
    forall i | 0 <= i < |es| :: es[i].Call? ==> NulFreeName(es[i].name)
  }

  lemma CleanStep(cfg: Config, s: State, e: Event)
    requires Good(cfg, s) && Enabled(s, e) && Clean(s)
    requires e.Call? ==> NulFreeName(e.name)
    ensures Clean(Step(cfg, s, e))
  {
  }

  lemma {:induction false} CleanRun(cfg: Config, s: State, es: seq<Event>, r: State)
    requires Good(cfg, s) && Run(cfg, s, es, r) && Clean(s) && CleanEvents(es)
    ensures Clean(r)
    decreases |es|
  {
    if es != [] {
      StepKeeps(cfg, s, es[0]);
      CleanStep(cfg, s, es[0]);
      CleanRun(cfg, Step(cfg, s, es[0]), es[1..], r);
    }
  }

  /** `get(lookup(s)) == s`, when no thread looks up a name with a NUL in it. */
  lemma GetUndoesLookup(cfg: Config, buckets: nat, es: seq<Event>, s: State, name: Name, n: nat)
    requires Reached(cfg, buckets, es, s) && CleanEvents(es) && Answered(s, name, n)
    ensures n < |s.table.atoms| && s.table.atoms[n] == name
  {
    InitIsGood(cfg, buckets);
    IndicesAreStable(cfg, Init(cfg, buckets), es, s);
    CleanRun(cfg, Init(cfg, buckets), es, s);
    var i :| 0 <= i < |s.log| && s.log[i] == Returned(name, Index(n));
    assert AnswerOk(cfg, s.table.atoms, s.log[i]) && NulFreeName(s.log[i].name);
    CStrOfNulFree(name);
    CStrOfNulFree(s.table.atoms[n]);
  }

  /** Another name that the table cannot tell from `name` is in it. */
  predicate Shadowed(atoms: seq<Name>, name: Name) {
    exists i | 0 <= i < |atoms| :: SameKey(atoms[i], name) && atoms[i] != name
  }

  /** `get(lookup(s)) == s` in any run at all, exactly when no other such name is there. */
  lemma GetUndoesLookupIff(cfg: Config, buckets: nat, es: seq<Event>, s: State, name: Name, n: nat)
    requires Reached(cfg, buckets, es, s) && Answered(s, name, n)
    ensures n < |s.table.atoms|
    ensures s.table.atoms[n] == name <==> name in s.table.atoms
    ensures s.table.atoms[n] == name <==> !Shadowed(s.table.atoms, name)
  {
    InitIsGood(cfg, buckets);
    IndicesAreStable(cfg, Init(cfg, buckets), es, s);
    var atoms := s.table.atoms;
    var k :| 0 <= k < |s.log| && s.log[k] == Returned(name, Index(n));
    assert AnswerOk(cfg, atoms, s.log[k]);
    forall i | 0 <= i < |atoms| && SameKey(atoms[i], name)
      ensures i == n
    {
      OneOfAKey(cfg, s, i, n);
    }
    assert SameKey(atoms[n], name);
  }

  lemma OneOfAKey(cfg: Config, s: State, i: nat, j: nat)
    requires Good(cfg, s) && i < |s.table.atoms| && j < |s.table.atoms|
    requires SameKey(s.table.atoms[i], s.table.atoms[j])
    ensures i == j
  {
    if 0 < i < j {
      KeysDiffer(cfg, s, i, j);
    } else if 0 < j < i {
      KeysDiffer(cfg, s, j, i);
    }
  }

  // ----- one thread on its own -----

  lemma {:induction false} RunOneMore(cfg: Config, s: State, es: seq<Event>, r: State, e: Event)
    requires Good(cfg, s) && Run(cfg, s, es, r) && Enabled(r, e)
    ensures Good(cfg, r) && Run(cfg, s, es + [e], Step(cfg, r, e)) && Good(cfg, Step(cfg, r, e))
    decreases |es|
  {
    if es == [] {
      StepKeeps(cfg, s, e);
      assert ([] + [e])[1..] == [];
    } else {
      StepKeeps(cfg, s, es[0]);
      RunOneMore(cfg, Step(cfg, s, es[0]), es[1..], r, e);
      assert (es + [e])[1..] == es[1..] + [e];
    }
  }

  /** A thread that misses goes as far as the locked probe, and misses there too. */
  lemma LookupMisses(cfg: Config, s: State, t: nat, name: Name) returns (es: seq<Event>, r: State)
    requires Good(cfg, s) && At(s, t).Idle? && s.holder.None?
    requires name != [] && ValidName(name) && Find(cfg, s.table, CStr(name)) == 0
    ensures Run(cfg, s, es, r) && Good(cfg, r)
    ensures At(r, t) == Absent(name) && r.holder == Some(t) && r.table == s.table && r.log == s.log
  {
    es, r := [], s;
    RunOneMore(cfg, s, es, r, Call(t, name));
    es, r := es + [Call(t, name)], Step(cfg, r, Call(t, name));
    RunOneMore(cfg, s, es, r, Acquire(t));
    es, r := es + [Acquire(t)], Step(cfg, r, Acquire(t));
    RunOneMore(cfg, s, es, r, Reprobe(t));
    es, r := es + [Reprobe(t)], Step(cfg, r, Reprobe(t));
  }

  /** A lookup that nobody disturbs adds a new name, and the index finds it from then on. */
  lemma LookupAdds(cfg: Config, s: State, t: nat, name: Name) returns (es: seq<Event>, r: State)
    requires Good(cfg, s) && At(s, t).Idle? && s.holder.None?
    requires name != [] && ValidName(name) && Find(cfg, s.table, CStr(name)) == 0
    requires |s.table.atoms| < cfg.capacity
    ensures Run(cfg, s, es, r) && Good(cfg, r) && At(r, t).Idle? && r.holder.None?
    ensures r.table.atoms == s.table.atoms + [name]
    ensures r.log == s.log + [Returned(name, Index(|s.table.atoms|))]
    ensures Find(cfg, r.table, CStr(name)) == |s.table.atoms|
  {
    es, r := LookupMisses(cfg, s, t, name);
    RunOneMore(cfg, s, es, r, Append(t));
    es, r := es + [Append(t)], Step(cfg, r, Append(t));
    InsertFinds(cfg, r.table, CStr(name), |s.table.atoms|, 0, CStr(name));
    RunOneMore(cfg, s, es, r, Publish(t, 0));
    es, r := es + [Publish(t, 0)], Step(cfg, r, Publish(t, 0));
    RunOneMore(cfg, s, es, r, Release(t));
    es, r := es + [Release(t)], Step(cfg, r, Release(t));
  }

  /** With a NUL in it, a name can take the place of another: here `a` is answered by `a\0`. */
  lemma NulHidesName(cfg: Config, buckets: nat) returns (es: seq<Event>, s: State)
    requires buckets > 0 && cfg.capacity > 1
    ensures Reached(cfg, buckets, es, s) && Answered(s, [97], 1)
    ensures |s.table.atoms| == 2 && s.table.atoms[1] == [97, 0] != [97]
  {
    InitIsGood(cfg, buckets);
    var init := Init(cfg, buckets);
    var name: Name := [97, 0];
    assert Utf8Length([97]) == 1;
    assert CStr(name) == [97] == CStr([97]) && ValidName(name);
    InsertFinds(cfg, Table([[]], EmptyBuckets(buckets)), [], 0, 0, [97]);
    es, s := LookupAdds(cfg, init, 0, name);
    RunOneMore(cfg, init, es, s, Call(0, [97]));
    es, s := es + [Call(0, [97])], Step(cfg, s, Call(0, [97]));
  }

  // ----- the object -----

  class AtomTable {
    const cfg: Config
    var atoms: seq<Name>
    const buckets: array<seq<Entry>>

    ghost function Now(): Table
      reads this, buckets
    {
      Table(atoms, buckets[..])
    }

    ghost predicate Valid()
      reads this, buckets
    {
      buckets.Length > 0 && Named(cfg, atoms) && IndexAgrees(cfg, Now(), |atoms|)
    }

    constructor (cfg: Config, size: nat)
      requires cfg.capacity > 0 && size > 0
      ensures Valid() && fresh(buckets) && this.cfg == cfg && atoms == [[]]
    {
      this.cfg := cfg;
      atoms := [[]];
      buckets := new seq<Entry>[size](_ => []);
      new;
      InitIsGood(cfg, size);
      assert buckets[..] == EmptyBuckets(size);
      var b := cfg.hash([]) % size;
      buckets[b] := Store(buckets[b], [], 0, 0);
      assert Now() == Init(cfg, size).table;
    }

    /** Walks one bucket; 0 if no entry has the key. */
    method FindValue(bucket: nat, key: Name) returns (n: nat)
      requires bucket < buckets.Length
      ensures n == FindIn(buckets[bucket], key)
    {
      var chain := buckets[bucket];
      var i := 0;
      while i < |chain| && chain[i].key != key
        invariant i <= |chain|
        invariant FindIn(chain[i..], key) == FindIn(chain, key)
      {
        assert chain[i..][1..] == chain[i + 1..];
        i := i + 1;
      }
      return if i == |chain| then 0 else chain[i].index;
    }

    /** The first component says whether the name is known; 1 is unknown, 2 is too long. */
    method TryLookup(name: Name) returns (found: bool, n: nat)
      requires Valid()
      ensures name == [] ==> found && n == 0
      ensures name != [] && !ValidName(name) ==> !found && n == 2
      ensures name != [] && ValidName(name) ==>
        var i := Scan(atoms, CStr(name), 1); found == (i > 0) && n == if found then i else 1
    {
      if |name| == 0 {
        return true, 0;
      }
      if |name| > MAX_ATOM_BYTES || Utf8Length(name) > MAX_ATOM_CHARS {
        return false, 2;
      }
      n := FindValue(cfg.hash(CStr(name)) % buckets.Length, CStr(name));
      FindIsScan(cfg, Now(), CStr(name));
      if n > 0 {
        return true, n;
      }
      return false, 1;
    }

    /** Finds the name by its C string, or appends it. */
    method Lookup(name: Name) returns (r: Result)
      requires Valid()
      modifies this, buckets
      ensures Valid()
      ensures r.TooLong? <==> !ValidName(name)
      ensures r.Full? <==>
        ValidName(name) && |old(atoms)| == cfg.capacity && name != [] && Scan(old(atoms), CStr(name), 1) == 0
      ensures r.Index? ==> r.n == if name == [] then 0 else Scan(atoms, CStr(name), 1)
      ensures atoms == old(atoms) || (r == Index(|old(atoms)|) && atoms == old(atoms) + [name])
      ensures r.Index? ==> r.n < |atoms| && (atoms[r.n] == name <==> !Shadowed(old(atoms), name))
    {
      var found, n := TryLookup(name);
      if found {
        return Index(n);
      }
      if n == 2 {
        return TooLong;
      }
      var bucket := cfg.hash(CStr(name)) % buckets.Length;
      n := FindValue(bucket, CStr(name));
      FindIsScan(cfg, Now(), CStr(name));
      var added := Index(n);
      if n > 0 {
        return added;
      }
      n := |atoms|;
      if n == cfg.capacity {
        return Full;
      }
      Add(name);
      FindIsScan(cfg, Now(), CStr(name));
      return Index(n);
    }

    method Add(name: Name)
      requires Valid() && |atoms| < cfg.capacity
      requires name != [] && Find(cfg, Now(), CStr(name)) == 0
      modifies this, buckets
      ensures Valid() && atoms == old(atoms) + [name]
      ensures Find(cfg, Now(), CStr(name)) == |old(atoms)|
    {
      var key, n := CStr(name), |atoms|;
      var bucket := cfg.hash(key) % buckets.Length;
      ghost var before := Now();
      atoms := atoms + [name];
      ghost var pushed := Now();
      buckets[bucket] := Store(buckets[bucket], key, n, 0);
      assert Now() == Insert(cfg, pushed, key, n, 0);
      AddAgrees(cfg, before, pushed, Now(), name);
    }
  }

  lemma AddAgrees(cfg: Config, before: Table, pushed: Table, after: Table, name: Name)
    requires before.atoms != [] && IndexAgrees(cfg, before, |before.atoms|)
    requires Find(cfg, before, CStr(name)) == 0
    requires pushed == before.(atoms := before.atoms + [name])
    requires after == Insert(cfg, pushed, CStr(name), |before.atoms|, 0)
    ensures IndexAgrees(cfg, after, |after.atoms|)
    ensures Find(cfg, after, CStr(name)) == |before.atoms|
  {
    var n := |before.atoms|;
    forall k
      ensures Find(cfg, after, k) == if k == CStr(name) then n else Find(cfg, before, k)
    {
      InsertFinds(cfg, pushed, CStr(name), n, 0, k);
    }
    assert forall i | 0 <= i < n :: after.atoms[i] == before.atoms[i];
  }
}
