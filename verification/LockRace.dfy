/**
 Why the conditions on the lock protocol are needed: checking a lock's age and unlinking it are
 two steps, and a waiter that pauses between them can delete a lock file made in the meantime.
*/
module LockRace {
  import opened Results
  import opened LockProtocol

  /** The events lead from `st` to `last`, and every live holder is timely on the way. */
  ghost predicate Leads(c: Config, st: State, events: seq<Event>, last: State)
    decreases |events|
  {
    if events == [] then st == last
    else
      && TimelyHolders(c, st)
      && Next(c, st, events[0]).Some?
      && Leads(c, Next(c, st, events[0]).value, events[1..], last)
  }

  lemma LeadsBy(c: Config, st: State, e: Event, mid: State, events: seq<Event>, last: State)
    requires TimelyHolders(c, st) && Next(c, st, e) == Some(mid) && Leads(c, mid, events, last)
    ensures Leads(c, st, [e] + events, last)
  {
    assert ([e] + events)[1..] == events;
  }

  lemma {:induction false} LeadsConcat(
      c: Config, st: State, a: seq<Event>, mid: State, b: seq<Event>, last: State)
    requires Leads(c, st, a, mid) && Leads(c, mid, b, last)
    ensures Leads(c, st, a + b, last)
    decreases |a|
  {
    if a == [] {
      assert a + b == b;
    } else {
      LeadsConcat(c, Next(c, st, a[0]).value, a[1..], mid, b, last);
      assert (a + b)[1..] == a[1..] + b;
    }
  }

  /** Such events, from an initial state, are a run with timely holders. */
  lemma {:induction false} LeadsIsRun(c: Config, st: State, events: seq<Event>, last: State) returns (states: seq<State>)
    requires Leads(c, st, events, last)
    ensures |states| == |events| + 1 && states[0] == st && states[|events|] == last
    ensures forall i :: 0 <= i < |events| ==>
              Next(c, states[i], events[i]) == Some(states[i + 1]) && TimelyHolders(c, states[i])
    decreases |events|
  {
    if events == [] {
      states := [st];
    } else {
      var rest := LeadsIsRun(c, Next(c, st, events[0]).value, events[1..], last);
      states := [st] + rest;
      forall i | 0 <= i < |events|
        ensures Next(c, states[i], events[i]) == Some(states[i + 1]) && TimelyHolders(c, states[i])
      {
        if i > 0 {
          assert events[1..][i - 1] == events[i] && rest[i - 1] == states[i];
        }
      }
    }
  }

  ghost predicate NoHolders(st: State) {
    forall q: Pid :: !st.At(q).Holds()
  }

  lemma NoHoldersAreTimely(c: Config, st: State, p: Pid, pc: Pc)
    requires NoHolders(st) && !pc.Holds()
    ensures NoHolders(st.Move(p, pc)) && TimelyHolders(c, st.Move(p, pc))
  {
    forall q: Pid
      ensures !st.Move(p, pc).At(q).Holds()
    {
      assert q != p ==> st.Move(p, pc).At(q) == st.At(q);
    }
  }

  /** One instruction of a process among no holders, with the rest of the way known. */
  lemma WaiterStep(c: Config, st: State, p: Pid, pc: Pc, pc': Pc, events: seq<Event>, last: State)
    requires NoHolders(st) && !pc.Holds() && !pc'.Holds()
    requires Instruction(c, st.Move(p, pc), p) == Some(st.Move(p, pc).Move(p, pc'))
    requires Leads(c, st.Move(p, pc'), events, last)
    ensures Leads(c, st.Move(p, pc), [Go(p)] + events, last)
  {
    NoHoldersAreTimely(c, st, p, pc);
    assert st.Move(p, pc).Move(p, pc') == st.Move(p, pc');
    LeadsBy(c, st.Move(p, pc), Go(p), st.Move(p, pc'), events, last);
  }

  /** A waiter at the lock: it finds the file there, and finds it stale. */
  lemma WaiterSeesStale(c: Config, st: State, p: Pid, d: int)
    requires NoHolders(st)
    requires st.lock.Some? && st.clock - st.lock.value.mtime > c.stale
    ensures Leads(c, st.Move(p, TryLock(GetOrCreate, d)), [Go(p), Go(p)], st.Move(p, UnlinkLock(GetOrCreate, d)))
  {
    var last := st.Move(p, UnlinkLock(GetOrCreate, d));
    assert Leads(c, last, [], last);
    WaiterStep(c, st, p, StatLock(GetOrCreate, d, st.clock), UnlinkLock(GetOrCreate, d), [], last);
    WaiterStep(c, st, p, TryLock(GetOrCreate, d), StatLock(GetOrCreate, d, st.clock), [Go(p)], last);
    assert [Go(p)] + [Go(p)] == [Go(p), Go(p)];
  }

  /** With nothing cached, a call before its deadline goes to the lock. */
  lemma WaiterComes(c: Config, st: State, p: Pid, d: int)
    requires st.At(p).Idle? && st.credential.None? && NoHolders(st) && d == st.clock + c.maxWait
    ensures TimelyHolders(c, st)
    ensures Next(c, st, Begin(p, GetOrCreate)) == Some(st.Move(p, Loop(GetOrCreate, d)))
    ensures Instruction(c, st.Move(p, Loop(GetOrCreate, d)), p)
            == Some(st.Move(p, Loop(GetOrCreate, d)).Move(p, ReadCache(GetOrCreate, d)))
    ensures Instruction(c, st.Move(p, ReadCache(GetOrCreate, d)), p)
            == Some(st.Move(p, ReadCache(GetOrCreate, d)).Move(p, TryLock(GetOrCreate, d)))
  {}

  /** The five events of a waiter that finds a stale lock file. */
  lemma WaiterFindsStale(c: Config, st: State, p: Pid)
    requires st.At(p).Idle? && st.credential.None? && NoHolders(st)
    requires st.lock.Some? && st.clock - st.lock.value.mtime > c.stale
    ensures Leads(c, st, [Begin(p, GetOrCreate), Go(p), Go(p), Go(p), Go(p)],
                  st.Move(p, UnlinkLock(GetOrCreate, st.clock + c.maxWait)))
    ensures NoHolders(st.Move(p, UnlinkLock(GetOrCreate, st.clock + c.maxWait)))
  {
    hide Next, Instruction, TimelyHolders, Leads;
    var d := st.clock + c.maxWait;
    var last := st.Move(p, UnlinkLock(GetOrCreate, d));
    NoHoldersAreTimely(c, st, p, UnlinkLock(GetOrCreate, d));
    WaiterSeesStale(c, st, p, d);
    WaiterComes(c, st, p, d);
    WaiterStep(c, st, p, ReadCache(GetOrCreate, d), TryLock(GetOrCreate, d), [Go(p), Go(p)], last);
    var three := [Go(p)] + [Go(p), Go(p)];
    WaiterStep(c, st, p, Loop(GetOrCreate, d), ReadCache(GetOrCreate, d), three, last);
    LeadsBy(c, st, Begin(p, GetOrCreate), st.Move(p, Loop(GetOrCreate, d)), [Go(p)] + three, last);
    assert [Begin(p, GetOrCreate)] + ([Go(p)] + three) == [Begin(p, GetOrCreate), Go(p), Go(p), Go(p), Go(p)];
  }

  function AfterUnlink(st: State, p: Pid): State {
    st.(lock := Some(LockFile(st.nextNonce, st.clock, false)), nextNonce := st.nextNonce + 1)
      .Move(p, WriteOwner(GetOrCreate, st.nextNonce))
  }

  /** The way of one process from its unlink to its next attempt at the lock. */
  function Returning(st: State, p: Pid, pc: Pc): State { st.(lock := None).Move(p, pc) }

  lemma ReturningIsTimely(c: Config, st: State, p: Pid, pc: Pc)
    ensures TimelyHolders(c, Returning(st, p, pc))
  {}

  lemma ReturningStep(c: Config, st: State, p: Pid, pc: Pc, pc': Pc)
    requires Instruction(c, Returning(st, p, pc), p) == Some(Returning(st, p, pc).Move(p, pc'))
    ensures Next(c, Returning(st, p, pc), Go(p)) == Some(Returning(st, p, pc'))
  {
    assert Returning(st, p, pc).Move(p, pc') == Returning(st, p, pc');
  }

  lemma UnlinkerReturns(c: Config, st: State, p: Pid, d: int, last: State, events: seq<Event>)
    requires st.clock <= d && st.credential.None?
    requires Leads(c, Returning(st, p, TryLock(GetOrCreate, d)), events, last)
    ensures Leads(c, Returning(st, p, Sleep(GetOrCreate, d)), [Go(p)] + ([Go(p)] + ([Go(p)] + events)), last)
  {
    hide Leads, TimelyHolders, Returning;
    ReturningSteps(c, st, p, d);
    var s1, s2, s3, s4 := Returning(st, p, Sleep(GetOrCreate, d)), Returning(st, p, Loop(GetOrCreate, d)),
      Returning(st, p, ReadCache(GetOrCreate, d)), Returning(st, p, TryLock(GetOrCreate, d));
    ReturningIsTimely(c, st, p, Sleep(GetOrCreate, d));
    ReturningIsTimely(c, st, p, Loop(GetOrCreate, d));
    ReturningIsTimely(c, st, p, ReadCache(GetOrCreate, d));
    LeadsBy(c, s3, Go(p), s4, events, last);
    LeadsBy(c, s2, Go(p), s3, [Go(p)] + events, last);
    LeadsBy(c, s1, Go(p), s2, [Go(p)] + ([Go(p)] + events), last);
  }

  lemma ReturningSteps(c: Config, st: State, p: Pid, d: int)
    requires st.clock <= d && st.credential.None?
    ensures Next(c, Returning(st, p, Sleep(GetOrCreate, d)), Go(p)) == Some(Returning(st, p, Loop(GetOrCreate, d)))
    ensures Next(c, Returning(st, p, Loop(GetOrCreate, d)), Go(p)) == Some(Returning(st, p, ReadCache(GetOrCreate, d)))
    ensures Next(c, Returning(st, p, ReadCache(GetOrCreate, d)), Go(p)) == Some(Returning(st, p, TryLock(GetOrCreate, d)))
  {
    ReturningStep(c, st, p, Sleep(GetOrCreate, d), Loop(GetOrCreate, d));
    ReturningStep(c, st, p, Loop(GetOrCreate, d), ReadCache(GetOrCreate, d));
    ReturningStep(c, st, p, ReadCache(GetOrCreate, d), TryLock(GetOrCreate, d));
  }

  lemma ReturnedLocks(c: Config, st: State, p: Pid, d: int)
    ensures Leads(c, Returning(st, p, TryLock(GetOrCreate, d)), [Go(p)], AfterUnlink(st, p))
  {
    var s, s' := Returning(st, p, TryLock(GetOrCreate, d)), AfterUnlink(st, p);
    assert s.procs[p := WriteOwner(GetOrCreate, st.nextNonce)] == s'.procs;
    assert Leads(c, s', [], s');
    LeadsBy(c, s, Go(p), s', [], s');
  }

  /** A waiter that decided to unlink goes on to create its own lock, whatever was there. */
  lemma UnlinkerLocks(c: Config, st: State, p: Pid)
    requires st.At(p).UnlinkLock? && st.At(p).op == GetOrCreate && st.clock <= st.At(p).deadline
    requires st.credential.None? && TimelyHolders(c, st)
    ensures Leads(c, st, [Go(p), Go(p), Go(p), Go(p), Go(p)], AfterUnlink(st, p))
  {
    hide Leads, TimelyHolders;
    var d, last := st.At(p).deadline, AfterUnlink(st, p);
    ReturnedLocks(c, st, p, d);
    UnlinkerReturns(c, st, p, d, last, [Go(p)]);
    var four := [Go(p)] + ([Go(p)] + ([Go(p)] + [Go(p)]));
    LeadsBy(c, st, Go(p), Returning(st, p, Sleep(GetOrCreate, d)), four, last);
    assert [Go(p)] + four == [Go(p), Go(p), Go(p), Go(p), Go(p)];
  }

  lemma {:induction false} FreshPid(pids: set<Pid>) returns (r: Pid)
    ensures r !in pids && forall p :: p in pids ==> p < r
    decreases pids
  {
    r := 0;
    if pids != {} {
      var p :| p in pids;
      var s := FreshPid(pids - {p});
      r := if p < s then s else p + 1;
      assert forall q :: q in pids ==> q == p || q in pids - {p};
    }
  }

  /** After a lock was stolen, an idle process that begins an `invalidate` gets a second one. */
  lemma NewcomerLocksToo(c: Config, st: State, r: Pid, token: string) returns (mid: seq<State>)
    requires st.lock.None? && st.At(r).Idle? && exists q: Pid :: st.At(q).Holds()
    ensures |mid| == 3
    ensures Next(c, st, Begin(r, Invalidate(token))) == Some(mid[0])
    ensures Next(c, mid[0], Go(r)) == Some(mid[1]) && Next(c, mid[1], Go(r)) == Some(mid[2])
    ensures !MutualExclusion(mid[2])
  {
    var q: Pid :| st.At(q).Holds();
    var d := st.clock + c.maxWait;
    var s0 := st.Move(r, Loop(Invalidate(token), d));
    var s1 := s0.Move(r, TryLock(Invalidate(token), d));
    var s2 := s1.(lock := Some(LockFile(st.nextNonce, st.clock, false)), nextNonce := st.nextNonce + 1)
                .Move(r, WriteOwner(Invalidate(token), st.nextNonce));
    mid := [s0, s1, s2];
    assert s2.At(r).Holds() && s2.At(q).Holds() && q != r;
  }

  /**
   Every steal breaks exclusion: whatever run leads to a step that unlinks a live holder's lock,
   four more events from there on put two processes in possession of it.
  */
  lemma StolenLockLetsTwoIn(c: Config, events: seq<Event>, states: seq<State>, n: nat)
      returns (events': seq<Event>, states': seq<State>)
    requires Run(c, events, states) && n < |events| && Steals(states[n], events[n])
    ensures Run(c, events', states') && |events'| == n + 4 && events'[..n + 1] == events[..n + 1]
    ensures !MutualExclusion(states'[n + 4])
  {
    hide Next;
    var st := states[n + 1];
    StealFreesTheLock(c, states[n], events[n], st);
    var r := FreshPid(st.procs.Keys);
    var mid := NewcomerLocksToo(c, st, r, "");
    events' := events[..n + 1] + [Begin(r, Invalidate("")), Go(r), Go(r)];
    states' := states[..n + 2] + mid;
    forall i | 0 <= i < |events'| ensures Next(c, states'[i], events'[i]) == Some(states'[i + 1]) {
      if i <= n {
        assert events'[i] == events[i] && states'[i] == states[i] && states'[i + 1] == states[i + 1];
      } else {
        assert states'[n + 1] == st && states'[n + 2] == mid[0] && states'[n + 3] == mid[1] && states'[n + 4] == mid[2];
        assert i == n + 1 || i == n + 2 || i == n + 3;
      }
    }
  }

  lemma StealFreesTheLock(c: Config, st: State, e: Event, st': State)
    requires Steals(st, e) && Next(c, st, e) == Some(st')
    ensures st'.lock.None? && exists q: Pid :: st'.At(q).Holds()
  {
    var q: Pid :| st.At(q).Holds();
    assert q != e.pid && st'.At(q).Holds();
  }

  /** A waiting login can be its own newcomer: it needs nobody else to break exclusion. */
  lemma ThiefLocksToo(c: Config, st: State, p: Pid, q: Pid)
    requires st.At(p).UnlinkLock? && st.At(p).op == GetOrCreate && st.clock <= st.At(p).deadline
    requires st.credential.None? && TimelyHolders(c, st)
    requires p != q && st.At(q).Holds()
    ensures Steals(st, Go(p))
    ensures Leads(c, st, [Go(p), Go(p), Go(p), Go(p), Go(p)], AfterUnlink(st, p))
    ensures !MutualExclusion(AfterUnlink(st, p))
  {
    UnlinkerLocks(c, st, p);
    assert AfterUnlink(st, p).At(p).Holds() && AfterUnlink(st, p).At(q).Holds();
  }

  const WAIT1 := [Begin(1, GetOrCreate), Go(1), Go(1), Go(1), Go(1)]
  const WAIT2 := [Begin(2, GetOrCreate), Go(2), Go(2), Go(2), Go(2)]
  const LOCK1 := [Go(1), Go(1), Go(1), Go(1), Go(1)]
  const LOCK2 := [Go(2), Go(2), Go(2), Go(2), Go(2)]

  /** Two waiters behind one stale lock file. */
  lemma BothFindStale(c: Config, s1: State) returns (s3: State)
    requires NoHolders(s1) && s1.At(1).Idle? && s1.At(2).Idle? && s1.credential.None?
    requires s1.lock.Some? && s1.clock - s1.lock.value.mtime > c.stale
    ensures Leads(c, s1, WAIT1 + WAIT2, s3) && NoHolders(s3) && s3.clock == s1.clock && s3.credential.None?
    ensures s3.At(1) == s3.At(2) == UnlinkLock(GetOrCreate, s1.clock + c.maxWait)
  {
    hide Leads;
    WaiterFindsStale(c, s1, 1);
    var s2 := s1.Move(1, UnlinkLock(GetOrCreate, s1.clock + c.maxWait));
    WaiterFindsStale(c, s2, 2);
    s3 := s2.Move(2, UnlinkLock(GetOrCreate, s1.clock + c.maxWait));
    LeadsConcat(c, s1, WAIT1, s2, WAIT2, s3);
  }

  /** One replaces the file, the other deletes the replacement. */
  lemma BothLock(c: Config, s3: State) returns (s5: State)
    requires NoHolders(s3) && s3.credential.None?
    requires s3.At(1) == s3.At(2) && s3.At(1).UnlinkLock? && s3.At(1).op == GetOrCreate && s3.clock <= s3.At(1).deadline
    ensures Leads(c, s3, LOCK1 + LOCK2, s5) && !MutualExclusion(s5)
  {
    hide Leads;
    UnlinkerLocks(c, s3, 1);
    var s4 := AfterUnlink(s3, 1);
    assert s4.At(2) == s3.At(2) && s4.At(1).Holds();
    ThiefLocksToo(c, s4, 2, 1);
    s5 := AfterUnlink(s4, 2);
    LeadsConcat(c, s3, LOCK1, s4, LOCK2, s5);
  }

  /**
   The race itself, for every configuration: after one crash two waiters see the same stale lock;
   one replaces it, the other deletes the replacement, and both end up holding a lock, although
   no live holder ever exceeds the stale time.
  */
  lemma TimelyHoldersAloneDoNotExclude(c: Config) returns (events: seq<Event>, states: seq<State>)
    ensures Run(c, events, states)
    ensures forall i :: 0 <= i < |events| ==> TimelyHolders(c, states[i])
    ensures !MutualExclusion(states[|events|])
  {
    var s0 := State(0, None, None, map[], 0);
    var crash := CrashedHolder(c, s0);
    var s1 := s0.(lock := Some(LockFile(0, 0, false)), nextNonce := 1).Move(0, Crashed).(clock := c.stale + 1);
    var s3 := BothFindStale(c, s1);
    var s5 := BothLock(c, s3);
    LeadsConcat(c, s1, WAIT1 + WAIT2, s3, LOCK1 + LOCK2, s5);
    LeadsConcat(c, s0, crash, s1, (WAIT1 + WAIT2) + (LOCK1 + LOCK2), s5);
    events := crash + ((WAIT1 + WAIT2) + (LOCK1 + LOCK2));
    states := LeadsIsRun(c, s0, events, s5);
  }

  /** A process takes the lock and crashes; then the lock file grows stale. */
  lemma CrashedHolder(c: Config, s0: State) returns (events: seq<Event>)
    requires s0 == State(0, None, None, map[], 0)
    ensures Leads(c, s0, events,
                  s0.(lock := Some(LockFile(0, 0, false)), nextNonce := 1).Move(0, Crashed).(clock := c.stale + 1))
  {
    var d := s0.clock + c.maxWait;
    var taken := s0.(lock := Some(LockFile(0, 0, false)), nextNonce := 1);
    var s1 := s0.Move(0, Loop(GetOrCreate, d));
    var s2 := s0.Move(0, ReadCache(GetOrCreate, d));
    var s3 := s0.Move(0, TryLock(GetOrCreate, d));
    var s4 := taken.Move(0, WriteOwner(GetOrCreate, 0));
    var s5 := taken.Move(0, Crashed);
    var s6 := s5.(clock := c.stale + 1);
    assert s1.Move(0, ReadCache(GetOrCreate, d)) == s2 && s2.Move(0, TryLock(GetOrCreate, d)) == s3;
    assert s3.procs[0 := WriteOwner(GetOrCreate, 0)] == s4.procs && s4.procs[0 := Crashed] == s5.procs;
    assert Leads(c, s6, [], s6);
    LeadsBy(c, s5, Tick(c.stale + 1), s6, [], s6);
    LeadsBy(c, s4, Crash(0), s5, [Tick(c.stale + 1)], s6);
    LeadsBy(c, s3, Go(0), s4, [Crash(0), Tick(c.stale + 1)], s6);
    LeadsBy(c, s2, Go(0), s3, [Go(0), Crash(0), Tick(c.stale + 1)], s6);
    LeadsBy(c, s1, Go(0), s2, [Go(0), Go(0), Crash(0), Tick(c.stale + 1)], s6);
    LeadsBy(c, s0, Begin(0, GetOrCreate), s1, [Go(0), Go(0), Go(0), Crash(0), Tick(c.stale + 1)], s6);
    events := [Begin(0, GetOrCreate), Go(0), Go(0), Go(0), Crash(0), Tick(c.stale + 1)];
  }
}
