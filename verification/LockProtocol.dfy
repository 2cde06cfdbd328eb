/**
 The lock-file protocol by which several connector processes share one login.

 Every file-system call, clock reading or remote reply of `getOrCreate` and `invalidate` is one
 atomic step; any number of processes interleave, and any of them may crash between two steps.
*/
module LockProtocol {
  import opened Results

  type Pid = nat

  datatype Credential = Credential(token: string, expiresAt: int)

  /** A lock file: whose it is, its timestamp, and whether its owner has been written into it. */
  datatype LockFile = LockFile(nonce: nat, mtime: int, written: bool)

  datatype Config = Config(skew: nat, stale: nat, maxWait: nat)

  datatype Op = GetOrCreate | Invalidate(token: string)

  /** Where a process stands; from `WriteOwner` to `ReleaseUnlink` it holds the lock it created. */
  datatype Pc =
    | Idle
    | Loop(op: Op, deadline: int)
    | ReadCache(op: Op, deadline: int)
    | TryLock(op: Op, deadline: int)
    | WriteOwner(op: Op, nonce: nat)
    | Recheck(nonce: nat)
    | Acquire(nonce: nat)
    | Store(nonce: nat, credential: Credential)
    | Inspect(nonce: nat, token: string)
    | Remove(nonce: nat, token: string)
    | ReleaseRead(nonce: nat)
    | ReleaseUnlink(nonce: nat)
    | StatLock(op: Op, deadline: int, seenAt: int)
    | UnlinkLock(op: Op, deadline: int)
    | Sleep(op: Op, deadline: int)
    | Crashed
  {
    predicate Holds() {
      WriteOwner? || Recheck? || Acquire? || Store? || Inspect? || Remove? || ReleaseRead? || ReleaseUnlink?
    }
  }

  datatype State = State(
    clock: int, lock: Option<LockFile>, credential: Option<Credential>, procs: map<Pid, Pc>, nextNonce: nat)
  {
    function At(p: Pid): Pc { if p in procs then procs[p] else Idle }

    function Move(p: Pid, pc: Pc): State { this.(procs := procs[p := pc]) }
  }

  datatype Event =
    | Tick(ms: nat)
    | Begin(pid: Pid, op: Op)
    | Go(pid: Pid)                                   // the next instruction of the process
    | Reply(pid: Pid, answer: Option<Credential>)    // the login ends, with a credential or an error
    | Crash(pid: Pid)

  /** The cached credential lives longer than the expiry skew. */
  predicate Usable(c: Config, credential: Option<Credential>, now: int) {
    credential.Some? && credential.value.expiresAt > now + c.skew
  }

  function Instruction(c: Config, st: State, p: Pid): Option<State> {
    match st.At(p)
    case Loop(op, deadline) =>
      Some(st.Move(p, if st.clock > deadline then Idle
                      else if op.GetOrCreate? then ReadCache(op, deadline) else TryLock(op, deadline)))
    case ReadCache(op, deadline) =>
      Some(st.Move(p, if Usable(c, st.credential, st.clock) then Idle else TryLock(op, deadline)))
    case TryLock(op, deadline) =>
      if st.lock.None? then
        Some(st.(lock := Some(LockFile(st.nextNonce, st.clock, false)), nextNonce := st.nextNonce + 1)
               .Move(p, WriteOwner(op, st.nextNonce)))
      else Some(st.Move(p, StatLock(op, deadline, st.clock)))
    case WriteOwner(op, nonce) =>
      var written := st.Move(p, if op.GetOrCreate? then Recheck(nonce) else Inspect(nonce, op.token));
      if st.lock.Some? && st.lock.value.nonce == nonce
      then Some(written.(lock := Some(LockFile(nonce, st.clock, true))))
      else Some(written)
    case Recheck(nonce) =>
      Some(st.Move(p, if Usable(c, st.credential, st.clock) then ReleaseRead(nonce) else Acquire(nonce)))
    case Store(nonce, credential) =>
      Some(st.(credential := Some(credential)).Move(p, ReleaseRead(nonce)))
    case Inspect(nonce, token) =>
      Some(st.Move(p, if st.credential.Some? && st.credential.value.token == token
                      then Remove(nonce, token) else ReleaseRead(nonce)))
    case Remove(nonce, _) =>
      Some(st.(credential := None).Move(p, ReleaseRead(nonce)))
    case ReleaseRead(nonce) =>
      Some(st.Move(p, if st.lock.Some? && st.lock.value.written && st.lock.value.nonce == nonce
                      then ReleaseUnlink(nonce) else Idle))
    case ReleaseUnlink(_) =>
      Some(st.(lock := None).Move(p, Idle))
    case StatLock(op, deadline, seenAt) =>
      Some(st.Move(p, if st.lock.Some? && seenAt - st.lock.value.mtime > c.stale
                      then UnlinkLock(op, deadline) else Sleep(op, deadline)))
    case UnlinkLock(op, deadline) =>
      Some(st.(lock := None).Move(p, Sleep(op, deadline)))
    case Sleep(op, deadline) =>
      Some(st.Move(p, Loop(op, deadline)))
    case _ => None
  }

  /** The state after an event, or none when the event cannot happen now. */
  function Next(c: Config, st: State, e: Event): Option<State> {
    match e
    case Tick(ms) => Some(st.(clock := st.clock + ms))
    case Begin(p, op) =>
      if st.At(p).Idle? then Some(st.Move(p, Loop(op, st.clock + c.maxWait))) else None
    case Go(p) => Instruction(c, st, p)
    case Reply(p, answer) =>
      if st.At(p).Acquire? then
        // A fresh credential need only be unexpired; the skew is not applied to it.
        if answer.Some? && answer.value.expiresAt > st.clock
        then Some(st.Move(p, Store(st.At(p).nonce, answer.value)))
        else Some(st.Move(p, ReleaseRead(st.At(p).nonce)))
      else None
    case Crash(p) => if st.At(p).Idle? then None else Some(st.Move(p, Crashed))
  }

  predicate Initial(st: State) {
    st.lock.None? && st.procs == map[]
  }

  /** A run: each state follows from the one before by the event between them. */
  predicate Run(c: Config, events: seq<Event>, states: seq<State>) {
    && |states| == |events| + 1
    && Initial(states[0])
    && forall i :: 0 <= i < |events| ==> Next(c, states[i], events[i]) == Some(states[i + 1])
  }

  // ---------------------------------------------------------------- the invariant

  ghost predicate MutualExclusion(st: State) {
    forall p: Pid, q: Pid :: p != q ==> !(st.At(p).Holds() && st.At(q).Holds())
  }

  /** The lock file is the one that process `p` created. */
  predicate OwnsLock(st: State, p: Pid)
    requires st.At(p).Holds()
  {
    && st.lock.Some?
    && st.lock.value.nonce == st.At(p).nonce
    && (st.lock.value.written || st.At(p).WriteOwner?)
  }

  /** What a holder has read about the shared credential is still so. */
  predicate KnowsCredential(c: Config, st: State, pc: Pc) {
    match pc
    case Acquire(_) => !Usable(c, st.credential, st.clock)
    case Store(_, _) => !Usable(c, st.credential, st.clock)
    case Remove(_, token) => st.credential.Some? && st.credential.value.token == token
    case _ => true
  }

  ghost predicate Nonces(st: State) {
    && (forall p: Pid :: st.At(p).Holds() ==> st.At(p).nonce < st.nextNonce)
    && (forall p: Pid, q: Pid :: p != q && st.At(p).Holds() && st.At(q).Holds() ==> st.At(p).nonce != st.At(q).nonce)
    && (st.lock.Some? ==> st.lock.value.nonce < st.nextNonce)
  }

  ghost predicate Inv(c: Config, st: State) {
    && Nonces(st)
    && (forall p: Pid :: st.At(p).Holds() ==> OwnsLock(st, p) && KnowsCredential(c, st, st.At(p)))
  }

  /** The step that can break the protocol: a waiter unlinks the lock file of a live holder. */
  ghost predicate Steals(st: State, e: Event) {
    e.Go? && st.At(e.pid).UnlinkLock? && exists q: Pid :: st.At(q).Holds()
  }

  lemma InvExcludes(c: Config, st: State)
    requires Inv(c, st)
    ensures MutualExclusion(st)
  {
  }

  /** A process comes to hold a lock only by creating it, with a nonce never drawn before. */
  lemma NonceOrigin(c: Config, st: State, e: Event, st': State, p: Pid)
    requires Next(c, st, e) == Some(st') && st'.At(p).Holds()
    ensures || (st.At(p).Holds() && st'.At(p).nonce == st.At(p).nonce)
            || (e == Go(p) && st.At(p).TryLock? && st.lock.None? && st'.At(p).nonce == st.nextNonce
                && st'.nextNonce == st.nextNonce + 1)
  {
  }

  lemma LockOrigin(c: Config, st: State, e: Event, st': State)
    requires Next(c, st, e) == Some(st') && Nonces(st)
    ensures st.nextNonce <= st'.nextNonce
    ensures st'.lock.Some? ==> st'.lock.value.nonce < st'.nextNonce
  {
  }

  lemma NoncesKept(c: Config, st: State, e: Event, st': State)
    requires Nonces(st) && Next(c, st, e) == Some(st')
    ensures Nonces(st')
  {
    hide Next;
    LockOrigin(c, st, e, st');
    forall p: Pid | st'.At(p).Holds()
      ensures st'.At(p).nonce < st'.nextNonce
    {
      NonceOrigin(c, st, e, st', p);
    }
    forall p: Pid, q: Pid | p != q && st'.At(p).Holds() && st'.At(q).Holds()
      ensures st'.At(p).nonce != st'.At(q).nonce
    {
      NonceOrigin(c, st, e, st', p);
      NonceOrigin(c, st, e, st', q);
    }
  }

  /** A process that does not move keeps what it holds, unless its lock is stolen. */
  lemma OthersKept(c: Config, st: State, e: Event, st': State, q: Pid)
    requires Inv(c, st) && Next(c, st, e) == Some(st') && !Steals(st, e)
    requires st.At(q).Holds() && (e.Tick? || e.pid != q)
    ensures st'.At(q) == st.At(q) && OwnsLock(st', q) && KnowsCredential(c, st', st'.At(q))
  {
    assert st'.At(q) == st.At(q);
    if !e.Tick? {
      assert !st.At(e.pid).Holds();
    }
  }

  lemma MoverKept(c: Config, st: State, e: Event, st': State)
    requires Inv(c, st) && Next(c, st, e) == Some(st') && !e.Tick?
    ensures st'.At(e.pid).Holds() ==> OwnsLock(st', e.pid) && KnowsCredential(c, st', st'.At(e.pid))
  {
  }

  lemma OthersStay(c: Config, st: State, e: Event, st': State, q: Pid)
    requires Next(c, st, e) == Some(st') && (e.Tick? || e.pid != q)
    ensures st'.At(q) == st.At(q)
  {}

  lemma StolenIsLost(c: Config, st: State, e: Event, st': State)
    requires Steals(st, e) && Next(c, st, e) == Some(st')
    ensures exists q: Pid :: st'.At(q).Holds() && !OwnsLock(st', q)
  {
    var q: Pid :| st.At(q).Holds();
    assert st'.At(q) == st.At(q) && st'.lock.None?;
  }

  /** Exactly the stealing steps break the invariant. */
  lemma InvKeptIffNothingStolen(c: Config, st: State, e: Event, st': State)
    requires Inv(c, st) && Next(c, st, e) == Some(st')
    ensures Inv(c, st') <==> !Steals(st, e)
  {
    hide Next, KnowsCredential, Nonces;
    NoncesKept(c, st, e, st');
    if Steals(st, e) {
      StolenIsLost(c, st, e, st');
    } else {
      forall q: Pid | st'.At(q).Holds()
        ensures OwnsLock(st', q) && KnowsCredential(c, st', st'.At(q))
      {
        if !e.Tick? && e.pid == q {
          MoverKept(c, st, e, st');
        } else {
          OthersStay(c, st, e, st', q);
          OthersKept(c, st, e, st', q);
        }
      }
    }
  }

  lemma InitialInv(c: Config, st: State)
    requires Initial(st)
    ensures Inv(c, st)
  {
  }

  /** Over whole runs: the invariant holds throughout exactly when no step steals a lock. */
  lemma {:induction false} InvThroughoutIffNothingStolen(c: Config, events: seq<Event>, states: seq<State>)
    requires Run(c, events, states)
    ensures (forall i :: 0 <= i < |states| ==> Inv(c, states[i])) <==>
            (forall i :: 0 <= i < |events| ==> !Steals(states[i], events[i]))
  {
    InitialInv(c, states[0]);
    if events != [] {
      var n := |events| - 1;
      assert Run(c, events[..n], states[..n + 1]);
      InvThroughoutIffNothingStolen(c, events[..n], states[..n + 1]);
      assert forall i :: 0 <= i <= n ==> states[..n + 1][i] == states[i];
      assert forall i :: 0 <= i < n ==> events[..n][i] == events[i];
      if Inv(c, states[n]) {
        InvKeptIffNothingStolen(c, states[n], events[n], states[n + 1]);
      }
    }
  }

  // ---------------------------------------------------------------- when nothing is stolen

  /** Every live holder is still within the stale time of its lock file. */
  ghost predicate TimelyHolders(c: Config, st: State) {
    (exists p: Pid :: st.At(p).Holds()) && st.lock.Some? ==> st.clock - st.lock.value.mtime <= c.stale
  }

  /** The unlink hits only a stale file, as it would if check and unlink were one step. */
  predicate AtomicCheck(c: Config, st: State, e: Event) {
    e.Go? && st.At(e.pid).UnlinkLock? && st.lock.Some? ==> st.clock - st.lock.value.mtime > c.stale
  }

  /** The lock file, whoever left it, never gets old enough to be called stale. */
  predicate NeverStale(c: Config, st: State) {
    st.lock.Some? ==> st.clock - st.lock.value.mtime <= c.stale
  }

  lemma AtomicCheckNeverSteals(c: Config, st: State, e: Event)
    requires Inv(c, st) && TimelyHolders(c, st) && AtomicCheck(c, st, e)
    ensures !Steals(st, e)
  {
  }

  /** A waiter judges a lock by a clock reading that is not ahead of the clock. */
  ghost predicate NobodySawStale(st: State) {
    forall p: Pid :: !st.At(p).UnlinkLock? && (st.At(p).StatLock? ==> st.At(p).seenAt <= st.clock)
  }

  lemma NobodySeesStale(c: Config, st: State, e: Event, st': State)
    requires NobodySawStale(st) && NeverStale(c, st) && Next(c, st, e) == Some(st')
    ensures NobodySawStale(st')
  {
    forall p: Pid
      ensures !st'.At(p).UnlinkLock? && (st'.At(p).StatLock? ==> st'.At(p).seenAt <= st'.clock)
    {
      if e.Tick? || e.pid != p {
        assert st'.At(p) == st.At(p) && st.clock <= st'.clock;
      } else {
        assert !st.At(p).UnlinkLock?;
      }
    }
  }

  /**
   Mutual exclusion in every interleaving of any number of processes, when holders are timely
   and stale files are checked and unlinked in one step.
  */
  lemma {:induction false} TimelyHoldersExclude(c: Config, events: seq<Event>, states: seq<State>)
    requires Run(c, events, states)
    requires forall i :: 0 <= i < |events| ==> TimelyHolders(c, states[i]) && AtomicCheck(c, states[i], events[i])
    ensures forall i :: 0 <= i < |events| ==> !Steals(states[i], events[i])
    ensures forall i :: 0 <= i < |states| ==> Inv(c, states[i]) && MutualExclusion(states[i])
  {
    NothingStolen(c, events, states, |events|);
    InvThroughoutIffNothingStolen(c, events, states);
    forall i | 0 <= i < |states|
      ensures MutualExclusion(states[i])
    {
      InvExcludes(c, states[i]);
    }
  }

  lemma {:induction false} NothingStolen(c: Config, events: seq<Event>, states: seq<State>, n: nat)
    requires Run(c, events, states) && n <= |events|
    requires forall i :: 0 <= i < n ==> TimelyHolders(c, states[i]) && AtomicCheck(c, states[i], events[i])
    ensures forall i :: 0 <= i < n ==> !Steals(states[i], events[i])
    ensures Inv(c, states[n])
  {
    InitialInv(c, states[0]);
    if n > 0 {
      NothingStolen(c, events, states, n - 1);
      AtomicCheckNeverSteals(c, states[n - 1], events[n - 1]);
      InvKeptIffNothingStolen(c, states[n - 1], events[n - 1], states[n]);
    }
  }

  /** Mutual exclusion in every interleaving in which no lock file reaches stale age. */
  lemma {:induction false} FreshLocksExclude(c: Config, events: seq<Event>, states: seq<State>)
    requires Run(c, events, states)
    requires forall i :: 0 <= i < |events| ==> NeverStale(c, states[i])
    ensures forall i :: 0 <= i < |events| ==> !Steals(states[i], events[i])
    ensures forall i :: 0 <= i < |states| ==> Inv(c, states[i]) && MutualExclusion(states[i])
  {
    forall i | 0 <= i < |events|
      ensures !Steals(states[i], events[i])
    {
      NobodyEverSawStale(c, events, states, i);
    }
    InvThroughoutIffNothingStolen(c, events, states);
    forall i | 0 <= i < |states|
      ensures MutualExclusion(states[i])
    {
      InvExcludes(c, states[i]);
    }
  }

  lemma {:induction false} NobodyEverSawStale(c: Config, events: seq<Event>, states: seq<State>, n: nat)
    requires Run(c, events, states) && n <= |events|
    requires forall i :: 0 <= i < n ==> NeverStale(c, states[i])
    ensures NobodySawStale(states[n])
  {
    if n > 0 {
      NobodyEverSawStale(c, events, states, n - 1);
      NobodySeesStale(c, states[n - 1], events[n - 1], states[n]);
    }
  }

  // ---------------------------------------------------------------- one login per lifetime

  /** Between the two states `p` asks the user to log in. */
  predicate StartsLogin(st: State, st': State, p: Pid) {
    !st.At(p).Acquire? && st'.At(p).Acquire?
  }

  predicate Stores(st: State, e: Event, credential: Credential) {
    e.Go? && st.At(e.pid).Store? && st.At(e.pid).credential == credential
  }

  /** An `invalidate` call deletes the shared credential because `token` was rejected. */
  predicate Deletes(st: State, e: Event, token: string) {
    e.Go? && st.At(e.pid).Remove? && st.At(e.pid).token == token
  }

  predicate Caches(st: State, token: string) {
    st.credential.Some? && st.credential.value.token == token
  }

  /**
   `invalidate` deletes exactly the credential that its caller saw rejected: under the lock it goes
   on to delete if and only if the token matches, the token still matches when it deletes, and
   nothing is cached afterwards.
  */
  lemma DeletesExactlyTheRejected(c: Config, st: State, p: Pid, st': State)
    requires Inv(c, st) && Next(c, st, Go(p)) == Some(st')
    ensures st.At(p).Inspect? ==>
              st'.credential == st.credential && (st'.At(p).Remove? <==> Caches(st, st.At(p).token))
    ensures st'.At(p).Remove? ==> st.At(p).Inspect? && st'.At(p).token == st.At(p).token
    ensures st.At(p).Remove? ==> Caches(st, st.At(p).token) && st'.credential.None?
    ensures st.credential.Some? && st'.credential.None? ==> st.At(p).Remove?
  {
    if st.At(p).Remove? {
      assert st.At(p).Holds();
    }
  }

  lemma CredentialLasts(c: Config, st: State, e: Event, st': State, credential: Credential)
    requires Inv(c, st) && Next(c, st, e) == Some(st') && !Deletes(st, e, credential.token)
    requires st.credential == Some(credential) || credential.expiresAt <= st.clock + c.skew
    ensures st'.credential == Some(credential) || credential.expiresAt <= st'.clock + c.skew
  {
    if e.Go? && st.At(e.pid).Holds() {
      assert KnowsCredential(c, st, st.At(e.pid));
    }
  }

  /**
   No second login: from the moment a credential is stored until its expiry less the skew, no
   process starts a login, unless an `invalidate` for that very token deleted it in between.
  */
  lemma {:induction false} NoDuplicateLogin(
      c: Config, events: seq<Event>, states: seq<State>, i: nat, j: nat, credential: Credential, p: Pid)
    requires Run(c, events, states) && i < j < |events|
    requires forall k :: 0 <= k < |events| ==> !Steals(states[k], events[k])
    requires Stores(states[i], events[i], credential) && StartsLogin(states[j], states[j + 1], p)
    ensures || credential.expiresAt <= states[j].clock + c.skew
            || exists k :: i < k < j && Deletes(states[k], events[k], credential.token)
  {
    InvThroughoutIffNothingStolen(c, events, states);
    if forall k :: i < k < j ==> !Deletes(states[k], events[k], credential.token) {
      assert Next(c, states[i], events[i]) == Some(states[i + 1]);
      StoredLasts(c, events, states, i, j, credential);
      LoginNeedsNothingUsable(c, states[j], events[j], states[j + 1], p);
    }
  }

  lemma LoginNeedsNothingUsable(c: Config, st: State, e: Event, st': State, p: Pid)
    requires Next(c, st, e) == Some(st') && StartsLogin(st, st', p)
    ensures st.credential.Some? ==> st.credential.value.expiresAt <= st.clock + c.skew
  {
  }

  lemma {:induction false} StoredLasts(
      c: Config, events: seq<Event>, states: seq<State>, i: nat, j: nat, credential: Credential)
    requires Run(c, events, states) && i < j <= |events|
    requires forall k :: 0 <= k < |states| ==> Inv(c, states[k])
    requires states[i + 1].credential == Some(credential)
    requires forall k :: i < k < j ==> !Deletes(states[k], events[k], credential.token)
    ensures states[j].credential == Some(credential) || credential.expiresAt <= states[j].clock + c.skew
  {
    hide Next, Inv, Deletes;
    if j > i + 1 {
      StoredLasts(c, events, states, i, j - 1, credential);
      CredentialLasts(c, states[j - 1], events[j - 1], states[j], credential);
    }
  }
}
