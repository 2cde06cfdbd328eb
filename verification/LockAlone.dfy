/**
 What a call does to lock and credential when nobody else moves meanwhile: with the interleavings of the other
 laws taken away, the steps of a process add up to what the call is for, and no call gets stuck.
*/
module LockAlone {
  import opened Results
  import opened LockProtocol

  /** The next step of one process; `answer` is what its login would end with. */
  function Turn(c: Config, st: State, p: Pid, answer: Option<Credential>): State {
    var next := Next(c, st, if st.At(p).Acquire? then Reply(p, answer) else Go(p));
    if next.Some? then next.value else st
  }

  function Turns(c: Config, st: State, p: Pid, answer: Option<Credential>, n: nat): State {
    if n == 0 then st else Turn(c, Turns(c, st, p, answer, n - 1), p, answer)
  }

  /** Within `n` steps of its own the process leaves the state so. */
  ghost predicate Within(c: Config, st: State, p: Pid, answer: Option<Credential>, n: nat, after: State) {
    exists k: nat :: k <= n && Turns(c, st, p, answer, k) == after
  }

  lemma {:induction false} TurnsAdd(c: Config, st: State, p: Pid, answer: Option<Credential>, m: nat, n: nat)
    ensures Turns(c, Turns(c, st, p, answer, m), p, answer, n) == Turns(c, st, p, answer, m + n)
  {
    hide Turn;
    if n > 0 {
      TurnsAdd(c, st, p, answer, m, n - 1);
    }
  }

  /** One step first, and then the rest. */
  lemma TurnFirst(c: Config, st: State, p: Pid, answer: Option<Credential>, n: nat, after: State)
    requires Within(c, Turn(c, st, p, answer), p, answer, n, after)
    ensures Within(c, st, p, answer, n + 1, after)
  {
    hide Turn;
    var k: nat :| k <= n && Turns(c, Turn(c, st, p, answer), p, answer, k) == after;
    assert Turns(c, st, p, answer, 0) == st;
    assert Turns(c, st, p, answer, 1) == Turn(c, st, p, answer);
    TurnsAdd(c, st, p, answer, 1, k);
  }

  lemma Arrived(c: Config, st: State, p: Pid, answer: Option<Credential>, n: nat)
    ensures Within(c, st, p, answer, n, st)
  {
    assert Turns(c, st, p, answer, 0) == st;
  }

  lemma MovedAgain(st: State, p: Pid, a: Pc, b: Pc)
    ensures st.Move(p, a).At(p) == a && st.Move(p, a).Move(p, b) == st.Move(p, b)
  {
    assert st.procs[p := a][p := b] == st.procs[p := b];
  }

  // ---------------------------------------------------------------- letting go

  /** The lock after a release by the process that drew the nonce: its own file is gone, and any other stays. */
  function Released(lock: Option<LockFile>, nonce: nat): Option<LockFile> {
    if lock.Some? && lock.value.nonce == nonce && lock.value.written then None else lock
  }

  lemma Releases(c: Config, st: State, p: Pid, answer: Option<Credential>, nonce: nat)
    requires st.At(p) == ReleaseRead(nonce)
    ensures Within(c, st, p, answer, 2, st.(lock := Released(st.lock, nonce)).Move(p, Idle))
  {
    var done := st.(lock := Released(st.lock, nonce)).Move(p, Idle);
    if Released(st.lock, nonce) == st.lock {
      assert Turn(c, st, p, answer) == done;
    } else {
      MovedAgain(st, p, ReleaseUnlink(nonce), Idle);
      assert Turn(c, st, p, answer) == st.Move(p, ReleaseUnlink(nonce));
      assert Turn(c, st.Move(p, ReleaseUnlink(nonce)), p, answer) == done;
      Arrived(c, done, p, answer, 0);
      TurnFirst(c, st.Move(p, ReleaseUnlink(nonce)), p, answer, 0, done);
      TurnFirst(c, st, p, answer, 1, done);
      return;
    }
    Arrived(c, done, p, answer, 1);
    TurnFirst(c, st, p, answer, 1, done);
  }

  // ---------------------------------------------------------------- under the lock

  /** What a call leaves as the credential, by what it finds once it has the lock. */
  function Left(c: Config, st: State, op: Op, answer: Option<Credential>): Option<Credential> {
    match op
    case GetOrCreate =>
      if st.credential.Some? && st.credential.value.expiresAt > st.clock + c.skew then st.credential
      else if answer.Some? && answer.value.expiresAt > st.clock then answer
      else st.credential
    case Invalidate(token) =>
      if st.credential.Some? && st.credential.value.token == token then None else st.credential
  }

  lemma FromReleaseRead(c: Config, st: State, p: Pid, answer: Option<Credential>, nonce: nat, lock: LockFile)
    requires st.At(p) == ReleaseRead(nonce) && st.lock == Some(lock) && lock.nonce == nonce && lock.written
    ensures Within(c, st, p, answer, 2, st.(lock := None).Move(p, Idle))
  {
    Releases(c, st, p, answer, nonce);
  }

  lemma LoginFinishes(c: Config, st: State, p: Pid, answer: Option<Credential>, nonce: nat, lock: LockFile)
    requires st.At(p) == Recheck(nonce) && st.lock == Some(lock) && lock.nonce == nonce && lock.written
    ensures Within(c, st, p, answer, 5, st.(lock := None, credential := Left(c, st, GetOrCreate, answer)).Move(p, Idle))
  {
    var left := Left(c, st, GetOrCreate, answer);
    var done := st.(lock := None, credential := left).Move(p, Idle);
    if Usable(c, st.credential, st.clock) {
      var s1 := st.Move(p, ReleaseRead(nonce));
      assert Turn(c, st, p, answer) == s1;
      MovedAgain(st, p, ReleaseRead(nonce), Idle);
      FromReleaseRead(c, s1, p, answer, nonce, lock);
      assert s1.(lock := None).Move(p, Idle) == done;
      TurnFirst(c, st, p, answer, 2, done);
    } else {
      var s1 := st.Move(p, Acquire(nonce));
      assert Turn(c, st, p, answer) == s1;
      if left == answer && answer.Some? && answer.value.expiresAt > st.clock {
        var s2 := st.Move(p, Store(nonce, answer.value));
        MovedAgain(st, p, Acquire(nonce), Store(nonce, answer.value));
        assert Turn(c, s1, p, answer) == s2;
        var s3 := st.(credential := answer).Move(p, ReleaseRead(nonce));
        MovedAgain(st, p, Store(nonce, answer.value), ReleaseRead(nonce));
        assert Turn(c, s2, p, answer) == s3;
        MovedAgain(st, p, ReleaseRead(nonce), Idle);
        FromReleaseRead(c, s3, p, answer, nonce, lock);
        assert s3.(lock := None).Move(p, Idle) == done;
        TurnFirst(c, s2, p, answer, 2, done);
        TurnFirst(c, s1, p, answer, 3, done);
        TurnFirst(c, st, p, answer, 4, done);
      } else {
        var s2 := st.Move(p, ReleaseRead(nonce));
        MovedAgain(st, p, Acquire(nonce), ReleaseRead(nonce));
        assert Turn(c, s1, p, answer) == s2;
        MovedAgain(st, p, ReleaseRead(nonce), Idle);
        FromReleaseRead(c, s2, p, answer, nonce, lock);
        assert s2.(lock := None).Move(p, Idle) == done;
        TurnFirst(c, s1, p, answer, 2, done);
        TurnFirst(c, st, p, answer, 3, done);
      }
    }
  }

  lemma InvalidationFinishes(c: Config, st: State, p: Pid, answer: Option<Credential>, nonce: nat, token: string, lock: LockFile)
    requires st.At(p) == Inspect(nonce, token) && st.lock == Some(lock) && lock.nonce == nonce && lock.written
    ensures Within(c, st, p, answer, 5, st.(lock := None, credential := Left(c, st, Invalidate(token), answer)).Move(p, Idle))
  {
    var done := st.(lock := None, credential := Left(c, st, Invalidate(token), answer)).Move(p, Idle);
    MovedAgain(st, p, ReleaseRead(nonce), Idle);
    if st.credential.Some? && st.credential.value.token == token {
      var s1, s2 := st.Move(p, Remove(nonce, token)), st.(credential := None).Move(p, ReleaseRead(nonce));
      assert Turn(c, st, p, answer) == s1;
      MovedAgain(st, p, Remove(nonce, token), ReleaseRead(nonce));
      assert Turn(c, s1, p, answer) == s2;
      FromReleaseRead(c, s2, p, answer, nonce, lock);
      assert s2.(lock := None).Move(p, Idle) == done;
      TurnFirst(c, s1, p, answer, 2, done);
      TurnFirst(c, st, p, answer, 3, done);
      Longer(c, st, p, answer, 4, 5, done);
    } else {
      var s1 := st.Move(p, ReleaseRead(nonce));
      assert Turn(c, st, p, answer) == s1;
      FromReleaseRead(c, s1, p, answer, nonce, lock);
      assert s1.(lock := None).Move(p, Idle) == done;
      TurnFirst(c, st, p, answer, 2, done);
      Longer(c, st, p, answer, 3, 5, done);
    }
  }

  lemma Longer(c: Config, st: State, p: Pid, answer: Option<Credential>, m: nat, n: nat, after: State)
    requires m <= n && Within(c, st, p, answer, m, after)
    ensures Within(c, st, p, answer, n, after)
  {
  }

  // ---------------------------------------------------------------- whole calls

  /** The state after the call: it is over, the lock is free again, and the credential is as the call wants it. */
  function Finished(c: Config, st: State, p: Pid, op: Op, answer: Option<Credential>): State {
    st.(lock := None, credential := Left(c, st, op, answer), nextNonce := st.nextNonce + 1).Move(p, Idle)
  }

  /** With the lock free, a call that tries to take it gets its way. */
  lemma FreeLockIsTaken(c: Config, st: State, p: Pid, op: Op, deadline: int, answer: Option<Credential>)
    requires st.At(p) == TryLock(op, deadline) && st.lock.None?
    ensures Within(c, st, p, answer, 7, Finished(c, st, p, op, answer))
  {
    var nonce := st.nextNonce;
    var s1 := st.(lock := Some(LockFile(nonce, st.clock, false)), nextNonce := nonce + 1).Move(p, WriteOwner(op, nonce));
    assert Turn(c, st, p, answer) == s1;
    var inside := if op.GetOrCreate? then Recheck(nonce) else Inspect(nonce, op.token);
    var lock := LockFile(nonce, st.clock, true);
    var s2 := st.(lock := Some(lock), nextNonce := nonce + 1).Move(p, inside);
    MovedAgain(st, p, WriteOwner(op, nonce), inside);
    assert Turn(c, s1, p, answer) == s2;
    var done := Finished(c, st, p, op, answer);
    MovedAgain(st, p, inside, Idle);
    assert Left(c, s2, op, answer) == Left(c, st, op, answer);
    assert s2.(lock := None, credential := Left(c, s2, op, answer)).Move(p, Idle) == done;
    if op.GetOrCreate? {
      LoginFinishes(c, s2, p, answer, nonce, lock);
    } else {
      InvalidationFinishes(c, s2, p, answer, nonce, op.token, lock);
    }
    hide Turn, Left, Finished;
    TurnFirst(c, s1, p, answer, 5, done);
    TurnFirst(c, st, p, answer, 6, done);
  }

  /** The way from the head of the loop to the lock; a usable credential ends a login before it. */
  lemma ReachesTheLock(c: Config, st: State, p: Pid, op: Op, deadline: int, answer: Option<Credential>, n: nat, after: State)
    requires st.At(p) == Loop(op, deadline) && st.clock <= deadline
    requires op.GetOrCreate? ==> !Usable(c, st.credential, st.clock)
    requires Within(c, st.Move(p, TryLock(op, deadline)), p, answer, n, after)
    ensures Within(c, st, p, answer, n + 2, after)
  {
    if op.GetOrCreate? {
      var s1 := st.Move(p, ReadCache(op, deadline));
      assert Turn(c, st, p, answer) == s1;
      MovedAgain(st, p, ReadCache(op, deadline), TryLock(op, deadline));
      assert Turn(c, s1, p, answer) == st.Move(p, TryLock(op, deadline));
      TurnFirst(c, s1, p, answer, n, after);
      TurnFirst(c, st, p, answer, n + 1, after);
    } else {
      assert Turn(c, st, p, answer) == st.Move(p, TryLock(op, deadline));
      TurnFirst(c, st, p, answer, n, after);
      Longer(c, st, p, answer, n + 1, n + 2, after);
    }
  }

  /** A login with a usable credential ends at once and changes nothing, whoever holds the lock. */
  lemma UsableCredentialIsUsed(c: Config, st: State, p: Pid, deadline: int, answer: Option<Credential>)
    requires st.At(p) == Loop(GetOrCreate, deadline) && st.clock <= deadline
    requires st.credential.Some? && st.credential.value.expiresAt > st.clock + c.skew
    ensures Within(c, st, p, answer, 2, st.Move(p, Idle))
  {
    var s1 := st.Move(p, ReadCache(GetOrCreate, deadline));
    assert Turn(c, st, p, answer) == s1;
    MovedAgain(st, p, ReadCache(GetOrCreate, deadline), Idle);
    assert Turn(c, s1, p, answer) == st.Move(p, Idle);
    Arrived(c, st.Move(p, Idle), p, answer, 0);
    TurnFirst(c, s1, p, answer, 0, st.Move(p, Idle));
    TurnFirst(c, st, p, answer, 1, st.Move(p, Idle));
  }

  /**
   With the lock free, a call does what it is for: a login leaves a credential that outlives the skew as it is and
   stores an unexpired answer otherwise, an invalidation deletes the credential with its token and no other.
  */
  lemma LoneCallFinishes(c: Config, st: State, p: Pid, op: Op, deadline: int, answer: Option<Credential>)
    requires st.At(p) == Loop(op, deadline) && st.clock <= deadline && st.lock.None?
    requires op.GetOrCreate? ==> !Usable(c, st.credential, st.clock)
    ensures Within(c, st, p, answer, 9, Finished(c, st, p, op, answer))
  {
    var s := st.Move(p, TryLock(op, deadline));
    FreeLockIsTaken(c, s, p, op, deadline, answer);
    MovedAgain(st, p, TryLock(op, deadline), Idle);
    assert Finished(c, s, p, op, answer) == Finished(c, st, p, op, answer);
    ReachesTheLock(c, st, p, op, deadline, answer, 7, Finished(c, st, p, op, answer));
  }

  /** A lock that is not stale sends the call around its loop, and nothing is changed. */
  lemma FreshLockIsWaitedFor(c: Config, st: State, p: Pid, op: Op, deadline: int, answer: Option<Credential>)
    requires st.At(p) == Loop(op, deadline) && st.clock <= deadline
    requires st.lock.Some? && st.clock - st.lock.value.mtime <= c.stale
    requires op.GetOrCreate? ==> !Usable(c, st.credential, st.clock)
    ensures Within(c, st, p, answer, 5, st)
  {
    var s1, s2, s3 := st.Move(p, TryLock(op, deadline)), st.Move(p, StatLock(op, deadline, st.clock)), st.Move(p, Sleep(op, deadline));
    MovedAgain(st, p, TryLock(op, deadline), StatLock(op, deadline, st.clock));
    MovedAgain(st, p, StatLock(op, deadline, st.clock), Sleep(op, deadline));
    MovedAgain(st, p, Sleep(op, deadline), Loop(op, deadline));
    assert Turn(c, s1, p, answer) == s2 && Turn(c, s2, p, answer) == s3;
    assert st.Move(p, Loop(op, deadline)) == st by {
      assert st.procs[p := Loop(op, deadline)] == st.procs;
    }
    assert Turn(c, s3, p, answer) == st;
    Arrived(c, st, p, answer, 0);
    TurnFirst(c, s3, p, answer, 0, st);
    TurnFirst(c, s2, p, answer, 1, st);
    TurnFirst(c, s1, p, answer, 2, st);
    ReachesTheLock(c, st, p, op, deadline, answer, 3, st);
  }

  /** A stale lock is removed, whoever left it, and the call is back at the head of its loop. */
  lemma StaleLockIsRemoved(c: Config, st: State, p: Pid, op: Op, deadline: int, answer: Option<Credential>, n: nat, after: State)
    requires st.At(p) == Loop(op, deadline) && st.clock <= deadline
    requires st.lock.Some? && st.clock - st.lock.value.mtime > c.stale
    requires Within(c, st.(lock := None), p, answer, n, after)
    ensures Within(c, st.Move(p, TryLock(op, deadline)), p, answer, n + 4, after)
  {
    var free := st.(lock := None);
    var s1, s2 := st.Move(p, TryLock(op, deadline)), st.Move(p, StatLock(op, deadline, st.clock));
    var s3, s4 := st.Move(p, UnlinkLock(op, deadline)), free.Move(p, Sleep(op, deadline));
    MovedAgain(st, p, TryLock(op, deadline), StatLock(op, deadline, st.clock));
    MovedAgain(st, p, StatLock(op, deadline, st.clock), UnlinkLock(op, deadline));
    MovedAgain(st, p, UnlinkLock(op, deadline), Sleep(op, deadline));
    MovedAgain(free, p, Sleep(op, deadline), Loop(op, deadline));
    assert Turn(c, s1, p, answer) == s2 && Turn(c, s2, p, answer) == s3 && Turn(c, s3, p, answer) == s4;
    assert free.Move(p, Loop(op, deadline)) == free by {
      assert st.procs[p := Loop(op, deadline)] == st.procs;
    }
    assert Turn(c, s4, p, answer) == free;
    hide Turn, Within;
    TurnFirst(c, s4, p, answer, n, after);
    TurnFirst(c, s3, p, answer, n + 1, after);
    TurnFirst(c, s2, p, answer, n + 2, after);
    TurnFirst(c, s1, p, answer, n + 3, after);
  }

  /** With a stale lock, too, the call does what it is for. */
  lemma StaleLockIsSucceeded(c: Config, st: State, p: Pid, op: Op, deadline: int, answer: Option<Credential>)
    requires st.At(p) == Loop(op, deadline) && st.clock <= deadline
    requires st.lock.Some? && st.clock - st.lock.value.mtime > c.stale
    requires op.GetOrCreate? ==> !Usable(c, st.credential, st.clock)
    ensures Within(c, st, p, answer, 15, Finished(c, st, p, op, answer))
  {
    hide Turn, Within;
    LoneCallFinishes(c, st.(lock := None), p, op, deadline, answer);
    assert Finished(c, st.(lock := None), p, op, answer) == Finished(c, st, p, op, answer);
    StaleLockIsRemoved(c, st, p, op, deadline, answer, 9, Finished(c, st, p, op, answer));
    ReachesTheLock(c, st, p, op, deadline, answer, 13, Finished(c, st, p, op, answer));
  }

  /** After its deadline a call gives up at the head of its loop. */
  lemma LateCallGivesUp(c: Config, st: State, p: Pid, op: Op, deadline: int, answer: Option<Credential>)
    requires st.At(p) == Loop(op, deadline) && st.clock > deadline
    ensures Turn(c, st, p, answer) == st.Move(p, Idle)
  {
  }

  /** A usable credential ends a login; otherwise the call waits for a fresh lock, and finishes with a free or stale one. */
  function Outcome(c: Config, st: State, p: Pid, op: Op, answer: Option<Credential>): State {
    if op.GetOrCreate? && st.credential.Some? && st.credential.value.expiresAt > st.clock + c.skew then st.Move(p, Idle)
    else if st.lock.Some? && st.clock - st.lock.value.mtime <= c.stale then st.Move(p, Loop(op, st.clock + c.maxWait))
    else Finished(c, st, p, op, answer)
  }

  /** What every call comes to when it begins and nobody else moves. */
  lemma CallComesToItsOutcome(c: Config, st: State, p: Pid, op: Op, answer: Option<Credential>)
    requires st.At(p).Idle?
    ensures Next(c, st, Begin(p, op)).Some?
    ensures Within(c, Next(c, st, Begin(p, op)).value, p, answer, 15, Outcome(c, st, p, op, answer))
  {
    var deadline := st.clock + c.maxWait;
    var s0, done := st.Move(p, Loop(op, deadline)), Outcome(c, st, p, op, answer);
    MovedAgain(st, p, Loop(op, deadline), Idle);
    if op.GetOrCreate? && Usable(c, st.credential, st.clock) {
      UsableCredentialIsUsed(c, s0, p, deadline, answer);
      Longer(c, s0, p, answer, 2, 15, done);
    } else if st.lock.Some? && st.clock - st.lock.value.mtime <= c.stale {
      FreshLockIsWaitedFor(c, s0, p, op, deadline, answer);
      Longer(c, s0, p, answer, 5, 15, done);
    } else {
      assert Finished(c, s0, p, op, answer) == done;
      if st.lock.Some? {
        StaleLockIsSucceeded(c, s0, p, op, deadline, answer);
      } else {
        LoneCallFinishes(c, s0, p, op, deadline, answer);
        Longer(c, s0, p, answer, 9, 15, done);
      }
    }
  }

  // ---------------------------------------------------------------- no holder is stuck

  /** An upper bound of the steps that a holder has left. */
  function StepsLeft(pc: Pc): nat {
    match pc
    case WriteOwner(_, _) => 6
    case Recheck(_) => 5
    case Inspect(_, _) => 5
    case Acquire(_) => 4
    case Store(_, _) => 3
    case Remove(_, _) => 3
    case ReleaseRead(_) => 2
    case ReleaseUnlink(_) => 1
    case _ => 0
  }

  lemma TurnOfHolder(c: Config, st: State, p: Pid, answer: Option<Credential>)
    requires st.At(p).Holds() && OwnsLock(st, p)
    ensures var after := Turn(c, st, p, answer);
            && (forall q: Pid :: q != p ==> after.At(q) == st.At(q))
            && if st.At(p).ReleaseUnlink? then after.At(p).Idle? && after.lock.None?
               else after.At(p).Holds() && OwnsLock(after, p) && StepsLeft(after.At(p)) < StepsLeft(st.At(p))
  {
  }

  /** Wherever a holder of its own lock stands, six steps of its own free the lock, and nobody else is moved. */
  lemma {:induction false} HolderLetsGo(c: Config, st: State, p: Pid, answer: Option<Credential>) returns (k: nat)
    requires st.At(p).Holds() && OwnsLock(st, p)
    ensures k <= StepsLeft(st.At(p)) <= 6
    ensures var after := Turns(c, st, p, answer, k);
            after.At(p).Idle? && after.lock.None? && forall q: Pid :: q != p ==> after.At(q) == st.At(q)
    decreases StepsLeft(st.At(p))
  {
    var next := Turn(c, st, p, answer);
    TurnOfHolder(c, st, p, answer);
    hide Turn;
    assert Turns(c, st, p, answer, 0) == st;
    assert Turns(c, st, p, answer, 1) == next;
    if st.At(p).ReleaseUnlink? {
      k := 1;
    } else {
      k := HolderLetsGo(c, next, p, answer);
      TurnsAdd(c, st, p, answer, 1, k);
      k := k + 1;
    }
  }

  // ---------------------------------------------------------------- who touches the lock file

  /** In any interleaving the lock file is only made where there is none, written by its maker, and unlinked. */
  lemma LockFileIsOnlyMadeWrittenAndUnlinked(c: Config, st: State, e: Event, st': State)
    requires Next(c, st, e) == Some(st') && st'.lock != st.lock
    ensures e.Go?
    ensures || (st.lock.None? && st.At(e.pid).TryLock? && st'.lock == Some(LockFile(st.nextNonce, st.clock, false)))
            || (st.lock.Some? && st.At(e.pid).WriteOwner? && st.At(e.pid).nonce == st.lock.value.nonce
                && st'.lock == Some(LockFile(st.lock.value.nonce, st.clock, true)))
            || (st'.lock.None? && (st.At(e.pid).ReleaseUnlink? || st.At(e.pid).UnlinkLock?))
  {
  }

  /** A process that is about to unlink has found its own written file, or one that was stale when it looked. */
  lemma UnlinkingIsPreparedByALook(c: Config, st: State, e: Event, st': State, p: Pid)
    requires Next(c, st, e) == Some(st') && st'.At(p) != st.At(p)
    ensures st'.At(p).ReleaseUnlink? ==>
              && e == Go(p) && st.At(p) == ReleaseRead(st'.At(p).nonce)
              && st.lock.Some? && st.lock.value.written && st.lock.value.nonce == st'.At(p).nonce
    ensures st'.At(p).UnlinkLock? ==>
              && e == Go(p) && st.At(p).StatLock? && st.lock.Some?
              && st.At(p).seenAt - st.lock.value.mtime > c.stale
  {
  }

  // ---------------------------------------------------------------- deadlines

  predicate Waits(pc: Pc) {
    pc.Loop? || pc.ReadCache? || pc.TryLock? || pc.StatLock? || pc.UnlinkLock? || pc.Sleep?
  }

  /** A call that waits began before, and has kept the deadline it set then. */
  lemma {:induction false} WaitingBegan(c: Config, events: seq<Event>, states: seq<State>, n: nat, p: Pid) returns (i: nat)
    requires Run(c, events, states) && n <= |events| && Waits(states[n].At(p))
    ensures i < n && events[i].Begin? && events[i].pid == p && states[n].At(p).deadline == states[i].clock + c.maxWait
    ensures forall k :: i < k <= n ==> Waits(states[k].At(p))
  {
    assert n > 0;
    var e, before, after := events[n - 1], states[n - 1], states[n];
    assert Next(c, before, e) == Some(after);
    if e.Begin? && e.pid == p {
      i := n - 1;
    } else {
      StillWaits(c, before, e, after, p);
      i := WaitingBegan(c, events, states, n - 1, p);
    }
  }

  lemma StillWaits(c: Config, st: State, e: Event, st': State, p: Pid)
    requires Next(c, st, e) == Some(st') && Waits(st'.At(p)) && !(e.Begin? && e.pid == p)
    ensures Waits(st.At(p)) && st.At(p).deadline == st'.At(p).deadline
  {
  }

  /** In every interleaving a call goes from its loop to the cache or the lock at most its longest wait after it began. */
  lemma TriesInTime(c: Config, events: seq<Event>, states: seq<State>, n: nat, p: Pid) returns (i: nat)
    requires Run(c, events, states) && n < |events| && events[n] == Go(p) && states[n].At(p).Loop?
    ensures i < n && events[i].Begin? && events[i].pid == p
    ensures states[n + 1].At(p).Idle? <==> states[n].clock > states[i].clock + c.maxWait
  {
    i := WaitingBegan(c, events, states, n, p);
    assert Next(c, states[n], events[n]) == Some(states[n + 1]);
  }
}
