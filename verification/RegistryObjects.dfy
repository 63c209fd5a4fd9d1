/** The registry and its mailboxes as objects, proved to take the steps of Registry. */
module RegistryObjects {
  import opened Terms
  import opened Registry
  import PidCounter

  class Mailbox {
    const self: nat
    var name: Name
    var freed: bool          // `close` has stamped the time
    ghost const order: nat   // its place among all mailboxes

    constructor (self: nat, name: Name, ghost order: nat)
      ensures this.self == self && this.name == name && !freed && this.order == order
    {
      this.self, this.name, freed, this.order := self, name, false, order;
    }
  }

  /** The mailboxes when all in the pid index but those in `todo` have been closed. */
  ghost function ShutExcept(s: State, todo: set<nat>): (r: seq<Box>)
    ensures |r| == |s.boxes|
  {
    seq(|s.boxes|, i requires 0 <= i < |s.boxes| =>
      if s.boxes[i].pid in todo then s.boxes[i] else Shut(s, s.boxes[i]))
  }

  lemma ShutOne(s: State, todo: set<nat>, p: nat)
    requires PidsOk(s) && PidIndexOk(s) && p in todo && p in s.byPid
    ensures ShutExcept(s, todo - {p}) == ShutExcept(s, todo)[s.byPid[p] := Box(p, [], true)]
  {
  }

  lemma NothingShut(s: State)
    requires s.byPid.Keys == {}
    ensures DoClear(s).boxes == s.boxes
  {
    assert forall p :: p !in s.byPid;
  }

  /** `n` pids issued to others. */
  ghost function LaterDrawn(s: State, n: nat): State {
    s.(drawn := s.drawn + n)
  }

  lemma {:induction false} LaterDrawnKeeps(s: State, n: nat)
    requires Inv(s) && s.drawn + n <= PIDS
    ensures Inv(LaterDrawn(s, n))
    decreases n
  {
    if n > 0 {
      StepKeeps(s, DrawPid);
      LaterDrawnKeeps(Step(s, DrawPid), n - 1);
    }
  }

  class MailboxRegistry {
    var byName: map<Name, Mailbox>
    var byPid: map<nat, Mailbox>
    ghost var boxes: seq<Mailbox>     // all mailboxes ever created, in that order
    ghost var now: State

    ghost predicate Knows(m: Mailbox)
      reads this
    {
      m.order < |boxes| && boxes[m.order] == m
    }

    ghost predicate BoxesAre(s: seq<Box>)
      reads this, boxes
    {
      && |s| == |boxes|
      && forall i | 0 <= i < |boxes| ::
           boxes[i].order == i && Box(boxes[i].self, boxes[i].name, boxes[i].freed) == s[i]
    }

    ghost predicate NamesAre(m: map<Name, nat>)
      reads this
    {
      byName.Keys == m.Keys && forall n | n in m :: m[n] < |boxes| && byName[n] == boxes[m[n]]
    }

    ghost predicate PidsAre(m: map<nat, nat>)
      reads this
    {
      byPid.Keys == m.Keys && forall p | p in m :: m[p] < |boxes| && byPid[p] == boxes[m[p]]
    }

    /** The fields hold what `now` says. */
    ghost predicate Linked()
      reads this, boxes
    {
      BoxesAre(now.boxes) && NamesAre(now.byName) && PidsAre(now.byPid)
    }

    ghost predicate Valid()
      reads this, boxes
    {
      Linked() && Inv(now)
    }

    constructor ()
      ensures Valid() && now == Init()
    {
      byName, byPid, boxes, now := map[], map[], [], Init();
    }

    /** `pid` is the number that the node issues next, after `others` that it gave elsewhere. */
    method CreateMailbox(name: Name, pid: nat, ghost others: nat) returns (m: Mailbox)
      requires Valid() && now.drawn + others < PIDS && pid == PidCounter.Number(now.drawn + others)
      modifies this
      ensures Valid() && now == DoCreate(LaterDrawn(old(now), others), name)
      ensures Knows(m) && m.order == CreateResult(old(now), name)
    {
      LaterDrawnKeeps(now, others);
      now := LaterDrawn(now, others);
      m := FindOrInsert(name, pid);
    }

    method FindOrInsert(name: Name, pid: nat) returns (m: Mailbox)
      requires Valid() && now.drawn < PIDS && pid == PidCounter.Number(now.drawn)
      modifies this
      ensures Valid() && now == DoCreate(old(now), name)
      ensures Knows(m) && m.order == CreateResult(old(now), name)
    {
      CreateKeeps(now, name);
      if |name| > 0 {
        if name in byName {
          return byName[name];
        }
      }
      m := Insert(name, pid);
    }

    method Insert(name: Name, pid: nat) returns (m: Mailbox)
      requires Linked()
      modifies this
      ensures Linked() && now == WithBox(old(now), name, pid)
      ensures Knows(m) && m.order == |old(boxes)|
    {
      m := new Mailbox(pid, name, |boxes|);
      now, boxes := WithBox(now, name, pid), boxes + [m];
      if |name| > 0 {
        byName := byName[name := m];
      }
      if m.self !in byPid {
        byPid := byPid[m.self := m];
      }
      assert |boxes| == |old(boxes)| + 1;
    }

    method Add(name: Name, m: Mailbox) returns (r: Added)
      requires Valid() && Knows(m)
      modifies this, m
      ensures Valid() && boxes == old(boxes)
      ensures r == AddResult(old(now), name, m.order)
      ensures now == DoAdd(old(now), name, m.order)
    {
      AddKeeps(now, name, m.order);
      if |name| == 0 {
        return EmptyName;
      }
      if |m.name| > 0 {
        return AlreadyRegistered;
      }
      if name in byName {
        return NameTaken;
      }
      SetName(name, m);
      return Added;
    }

    method SetName(name: Name, m: Mailbox)
      requires Linked() && Knows(m) && AddResult(now, name, m.order).Added?
      modifies this, m
      ensures Linked() && boxes == old(boxes) && now == DoAdd(old(now), name, m.order)
    {
      now := DoAdd(now, name, m.order);
      byName := byName[name := m];
      m.name := name;
    }

    method Erase(m: Mailbox)
      modifies this`byPid, this`byName, m
      ensures m.name == [] && m.freed == old(m.freed)
      ensures byPid == old(byPid) - {m.self}
      ensures byName == if old(m.name) == [] then old(byName) else old(byName) - {old(m.name)}
    {
      byPid := byPid - {m.self};
      if |m.name| > 0 {
        byName := byName - {m.name};
      }
      m.name := [];
    }

    /** `close` of the mailbox itself, which removes it from the registry. */
    method CloseMailbox(m: Mailbox)
      requires Valid() && Knows(m)
      modifies this, m
      ensures Valid() && boxes == old(boxes)
      ensures now == DoClose(old(now), m.order)
    {
      CloseKeeps(now, m.order);
      assert [] !in byName;
      now := DoClose(now, m.order);
      m.freed := true;
      Erase(m);
      m.name := [];
    }

    /** `close` without a visit to the registry. */
    method CloseQuietly(p: nat, ghost todo: set<nat>)
      requires BoxesAre(ShutExcept(now, todo)) && PidsAre(now.byPid)
      requires p in todo && p in byPid && PidsOk(now) && PidIndexOk(now)
      modifies byPid[p]
      ensures BoxesAre(ShutExcept(now, todo - {p}))
    {
      var m := byPid[p];
      assert m.order == now.byPid[p] && m.self == p;
      m.freed := true;
      m.name := [];
      ShutOne(now, todo, p);
    }

    /** Closes one by one the mailboxes that are reachable by pid. */
    method CloseAll()
      requires BoxesAre(now.boxes) && PidsAre(now.byPid) && PidsOk(now) && PidIndexOk(now)
      modifies boxes
      ensures BoxesAre(DoClear(now).boxes)
    {
      var todo := byPid.Keys;
      assert ShutExcept(now, todo) == now.boxes;
      while todo != {}
        invariant todo <= byPid.Keys && BoxesAre(ShutExcept(now, todo))
        decreases todo
      {
        var p :| p in todo;
        CloseQuietly(p, todo);
        todo := todo - {p};
      }
      assert ShutExcept(now, {}) == DoClear(now).boxes;
    }

    method ClearAll()
      requires Valid()
      modifies this, boxes
      ensures Valid() && boxes == old(boxes) && now == DoClear(old(now))
      ensures byName == map[] && byPid == map[] && forall m | m in boxes :: m.freed
    {
      ClearKeeps(now);
      ClearedIsEmpty(now);
      EmptyBoth();
      now := DoClear(now);
      ClosedAreFreed();
    }

    method EmptyBoth()
      requires Linked() && PidsOk(now) && PidIndexOk(now)
      modifies this`byName, this`byPid, boxes
      ensures BoxesAre(DoClear(now).boxes) && byName == map[] && byPid == map[]
    {
      if byName != map[] || byPid != map[] {
        byName := map[];
        CloseAll();
        byPid := map[];
      } else {
        assert now.byPid.Keys == {};
        NothingShut(now);
      }
    }

    lemma ClosedAreFreed()
      requires Linked() && forall h | 0 <= h < |now.boxes| :: now.boxes[h].closed
      ensures forall m | m in boxes :: m.freed
    {
      forall h | 0 <= h < |boxes| ensures boxes[h].freed {
        assert now.boxes[h].closed;
      }
    }

    method GetByName(name: Name) returns (m: Option<Mailbox>)
      requires Valid()
      ensures m.Some? <==> name in now.byName
      ensures m.Some? ==> Knows(m.value) && m.value.order == now.byName[name] && m.value.name == name
    {
      if name in byName {
        return Some(byName[name]);
      }
      return None;
    }

    method GetByPid(pid: nat) returns (m: Option<Mailbox>)
      requires Valid()
      ensures m.Some? <==> pid in now.byPid
      ensures m.Some? ==> Knows(m.value) && m.value.self == pid && !m.value.freed
    {
      if pid in byPid {
        return Some(byPid[pid]);
      }
      return None;
    }
  }
}
