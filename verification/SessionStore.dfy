/**
 The polling loops of the shared session store. Between any two looks of this process the others
 may have done anything to the lock file and the credential; while it holds the lock they leave
 both alone, which is the invariant of `LockProtocol`.
*/
module SessionStore {
  import opened Results
  import opened LockProtocol

  datatype Outcome = Returned(credential: Credential) | LoginFailed | TimedOut

  datatype Removal = Deleted | Kept | RemovalTimedOut

  datatype Disk = Disk(lock: Option<LockFile>, credential: Option<Credential>)

  /** What the other processes make of the disk, each time that this one may be overtaken. */
  type World = (nat, Disk) -> Disk

  /** No other process is running. */
  ghost predicate Alone(world: World) {
    forall k: nat, d: Disk :: world(k, d) == d
  }

  class SharedSessionStore {
    const config: Config
    const poll: nat
    var clock: int
    var lock: Option<LockFile>
    var credential: Option<Credential>
    var nextNonce: nat

    constructor (config: Config, poll: nat, clock: int, lock: Option<LockFile>, credential: Option<Credential>,
                 nextNonce: nat)
      ensures this.config == config && this.poll == poll && this.clock == clock && this.lock == lock
      ensures this.credential == credential && this.nextNonce == nextNonce
    {
      this.config, this.poll, this.clock, this.lock := config, poll, clock, lock;
      this.credential, this.nextNonce := credential, nextNonce;
    }

    /** The lock file, if there is one, was not left in the future. */
    predicate LeftInThePast()
      reads this
    {
      lock.Some? ==> lock.value.mtime <= clock
    }

    method Overtaken(world: World, k: nat)
      modifies this`lock, this`credential
      ensures Disk(lock, credential) == world(k, old(Disk(lock, credential)))
    {
      var disk := world(k, Disk(lock, credential));
      lock, credential := disk.lock, disk.credential;
    }

    method TryAcquireLock() returns (owner: Option<nat>)
      modifies this`lock, this`nextNonce
      ensures nextNonce == old(nextNonce) + 1
      ensures old(lock).None? ==> owner == Some(old(nextNonce)) && lock == Some(LockFile(old(nextNonce), clock, true))
      ensures old(lock).Some? ==> owner == None && lock == old(lock)
    {
      owner := None;
      if lock.None? {
        owner := Some(nextNonce);
        lock := Some(LockFile(nextNonce, clock, true));
      }
      nextNonce := nextNonce + 1;
    }

    method ReleaseOwnedLock(nonce: nat)
      modifies this`lock
      ensures lock == if old(lock).Some? && old(lock).value.written && old(lock).value.nonce == nonce
                      then None else old(lock)
    {
      if lock.Some? && lock.value.written && lock.value.nonce == nonce {
        lock := None;
      }
    }

    method RemoveStaleLock()
      modifies this`lock
      ensures lock == if old(lock).Some? && clock - old(lock).value.mtime > config.stale then None else old(lock)
    {
      if lock.Some? && clock - lock.value.mtime > config.stale {
        lock := None;
      }
    }

    /**
     `delay(k)` is how long the k-th sleep really takes, at least the polling interval; `login` is
     the user's answer, given after `loginTime`. `asked` tells whether the user was asked, and
     `seen` is the credential found just before.
    */
    method GetOrCreate(world: World, login: Option<Credential>, loginTime: nat, delay: nat -> nat, jitter: nat)
      returns (outcome: Outcome, rounds: nat, asked: bool, seen: Option<Credential>)
      requires poll > 0 && forall k: nat :: poll <= delay(k) <= poll + jitter
      modifies this
      // Whatever the others do, the loop is bounded by the clock alone.
      ensures rounds <= config.maxWait / poll + 1 && old(clock) + rounds * poll <= clock
      ensures outcome.TimedOut? ==> clock > old(clock) + config.maxWait && !asked
      ensures !outcome.TimedOut? ==> rounds <= config.maxWait / poll && clock <= old(clock) + config.maxWait + loginTime
      // What is returned without asking is cached and usable now.
      ensures !outcome.TimedOut? && !asked ==>
                outcome.Returned? && credential == Some(outcome.credential) && outcome.credential.expiresAt > clock + config.skew
      // The user is asked only under the lock and when nothing usable was cached; the lock is freed.
      ensures asked ==>
                && lock == None && (seen.Some? ==> seen.value.expiresAt <= clock - loginTime + config.skew)
                && if login.Some? && login.value.expiresAt > clock
                   then outcome == Returned(login.value) && credential == login
                   else outcome == LoginFailed && credential == seen
      // Alone, a usable credential is returned at once and nothing changes.
      ensures Alone(world) && old(credential).Some? && old(credential).value.expiresAt > old(clock) + config.skew ==>
                && outcome == Returned(old(credential).value) && rounds == 0 && !asked
                && lock == old(lock) && credential == old(credential) && clock == old(clock)
      // Alone, a crashed holder does not block a process whose patience exceeds the stale time.
      ensures Alone(world) && old(LeftInThePast()) && config.stale + 2 * (poll + jitter) <= config.maxWait ==>
                !outcome.TimedOut?
      ensures Alone(world) && old(lock).None? ==> !outcome.TimedOut? && rounds == 0
      ensures Alone(world) && asked ==> seen == old(credential)
    {
      var deadline := clock + config.maxWait;
      var step := poll + jitter;
      rounds, asked, seen := 0, false, None;
      while clock <= deadline
        invariant !asked && old(clock) + rounds * poll <= clock
        invariant rounds <= config.maxWait / poll + 1
        invariant rounds == 0 ==> clock == old(clock)
        invariant Alone(world) ==> credential == old(credential) && (lock == old(lock) || (lock == None && rounds > 0))
        invariant Alone(world) && rounds > 0 ==> old(lock).Some? && !Usable(config, old(credential), old(clock))
        invariant Alone(world) && old(LeftInThePast()) ==>
                    clock <= old(clock) + config.stale + (if lock == old(lock) then step else 2 * step)
        decreases deadline + 1 - clock
      {
        RoundsFit(rounds, poll, config.maxWait);
        Overtaken(world, 3 * rounds);
        if Usable(config, credential, clock) {
          return Returned(credential.value), rounds, false, credential;
        }
        Overtaken(world, 3 * rounds + 1);
        var owner := TryAcquireLock();
        if owner.Some? {
          seen := credential;
          if Usable(config, credential, clock) {
            ReleaseOwnedLock(owner.value);
            return Returned(credential.value), rounds, false, seen;
          }
          asked := true;
          clock := clock + loginTime;
          outcome := LoginFailed;
          if login.Some? && login.value.expiresAt > clock {
            credential := login;
            outcome := Returned(login.value);
          }
          ReleaseOwnedLock(owner.value);
          return;
        }
        Overtaken(world, 3 * rounds + 2);
        RemoveStaleLock();
        clock := clock + delay(rounds);
        rounds := rounds + 1;
      }
      outcome := TimedOut;
    }

    /** The same loop for a rejected token; `seen` is the credential found under the lock. */
    method InvalidateToken(world: World, token: string, delay: nat -> nat, jitter: nat)
      returns (removal: Removal, rounds: nat, seen: Option<Credential>)
      requires poll > 0 && forall k: nat :: poll <= delay(k) <= poll + jitter
      modifies this
      ensures rounds <= config.maxWait / poll + 1 && old(clock) + rounds * poll <= clock
      ensures removal.RemovalTimedOut? ==> clock > old(clock) + config.maxWait
      ensures !removal.RemovalTimedOut? ==>
                && rounds <= config.maxWait / poll && clock <= old(clock) + config.maxWait && lock == None
                && if seen.Some? && seen.value.token == token
                   then removal == Deleted && credential == None
                   else removal == Kept && credential == seen
      ensures Alone(world) ==>
                && (removal.RemovalTimedOut? ==> credential == old(credential))
                && (!removal.RemovalTimedOut? ==> seen == old(credential))
      ensures Alone(world) && old(LeftInThePast()) && config.stale + 2 * (poll + jitter) <= config.maxWait ==>
                !removal.RemovalTimedOut?
    {
      var deadline := clock + config.maxWait;
      var step := poll + jitter;
      rounds, seen := 0, None;
      while clock <= deadline
        invariant old(clock) + rounds * poll <= clock
        invariant rounds <= config.maxWait / poll + 1
        invariant rounds == 0 ==> clock == old(clock)
        invariant Alone(world) ==> credential == old(credential) && (lock == old(lock) || (lock == None && rounds > 0))
        invariant Alone(world) && old(LeftInThePast()) ==>
                    clock <= old(clock) + config.stale + (if lock == old(lock) then step else 2 * step)
        decreases deadline + 1 - clock
      {
        RoundsFit(rounds, poll, config.maxWait);
        Overtaken(world, 2 * rounds);
        var owner := TryAcquireLock();
        if owner.Some? {
          seen := credential;
          removal := Kept;
          if credential.Some? && credential.value.token == token {
            credential := None;
            removal := Deleted;
          }
          ReleaseOwnedLock(owner.value);
          return;
        }
        Overtaken(world, 2 * rounds + 1);
        RemoveStaleLock();
        clock := clock + delay(rounds);
        rounds := rounds + 1;
      }
      removal := RemovalTimedOut;
    }
  }

  lemma MulMonotone(a: nat, b: nat, n: nat)
    requires a <= b
    ensures a * n <= b * n
  {
    assert (b - a) * n >= 0;
  }

  lemma RoundsFit(rounds: nat, poll: nat, maxWait: nat)
    requires poll > 0 && rounds * poll <= maxWait
    ensures rounds <= maxWait / poll
    ensures (rounds + 1) * poll == rounds * poll + poll
  {
    var q := maxWait / poll;
    assert maxWait == q * poll + maxWait % poll;
    assert (q + 1) * poll == q * poll + poll;
    if rounds >= q + 1 {
      MulMonotone(q + 1, rounds, poll);
      assert false;
    }
  }

  const DEFAULTS := Config(60_000, 600_000, 660_000)
  const DEFAULT_POLL := 150

  /** The shipped defaults leave time to recover, even if each sleep takes up to half a minute. */
  lemma DefaultsRecover(jitter: nat)
    ensures DEFAULTS.stale + 2 * (DEFAULT_POLL + jitter) <= DEFAULTS.maxWait <==> jitter <= 29_850
  {
  }

  /**
   With the shipped defaults a login call outlasts a crashed holder, when nobody else is about and
   no sleep takes half a minute longer than it should.
  */
  method LoginWithDefaults(store: SharedSessionStore, world: World, login: Option<Credential>, loginTime: nat,
                           delay: nat -> nat, jitter: nat)
    returns (outcome: Outcome, rounds: nat)
    requires store.config == DEFAULTS && store.poll == DEFAULT_POLL
    requires Alone(world) && store.LeftInThePast() && jitter <= 29_850
    requires forall k: nat :: DEFAULT_POLL <= delay(k) <= DEFAULT_POLL + jitter
    modifies store
    ensures !outcome.TimedOut? && rounds <= 4_400
    ensures store.clock <= old(store.clock) + DEFAULTS.maxWait + loginTime
  {
    DefaultsRecover(jitter);
    var asked, seen;
    outcome, rounds, asked, seen := store.GetOrCreate(world, login, loginTime, delay, jitter);
  }
}
