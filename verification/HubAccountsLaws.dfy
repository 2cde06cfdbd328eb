/** What every run of the session callback keeps, what it loses, and why. */
module HubAccountsLaws {
  import opened Results
  import opened HubAccounts

  predicate DistinctSubjects(accounts: seq<Account>) {
    forall i, j :: 0 <= i < j < |accounts| ==> accounts[i].subject != accounts[j].subject
  }

  /** The token's own fields are those of the account; a missing name shows as the user name. */
  predicate Shows(t: Token, a: Account) {
    && t.subject == Some(a.subject) && t.username == Some(a.username) && t.idToken == Some(a.idToken)
    && t.expiresAt == a.expiresAt && t.refreshToken == a.refreshToken && t.refreshExpiresAt == a.refreshExpiresAt
    && t.name == (if a.name.Some? then a.name else Some(a.username)) && t.email == a.email && t.image == a.image
  }

  predicate TokenInv(size: nat, t: Token) {
    && DistinctSubjects(t.cached) && |t.cached| <= size
    && (forall i :: 0 <= i < |t.cached| ==> IsCachedAccount(t.cached[i]))
    && exists i :: 0 <= i < |t.cached| && Shows(t, t.cached[i])
  }

  // ---------------------------------------------------------------- lists of accounts

  lemma {:induction false} FilterMembers(accounts: seq<Account>, p: Account -> bool, a: Account)
    ensures a in Filter(accounts, p) <==> a in accounts && p(a)
  {
    if accounts != [] {
      FilterMembers(accounts[1..], p, a);
    }
  }

  lemma {:induction false} FilterKeepsDistinct(accounts: seq<Account>, p: Account -> bool)
    requires DistinctSubjects(accounts)
    ensures DistinctSubjects(Filter(accounts, p)) && |Filter(accounts, p)| <= |accounts|
  {
    if accounts != [] {
      FilterKeepsDistinct(accounts[1..], p);
      var rest := Filter(accounts[1..], p);
      forall k | 0 <= k < |rest| ensures rest[k].subject != accounts[0].subject {
        FilterMembers(accounts[1..], p, rest[k]);
        assert rest[k] in accounts[1..];
      }
    }
  }

  lemma {:induction false} FilterAll(accounts: seq<Account>, p: Account -> bool)
    requires forall i :: 0 <= i < |accounts| ==> p(accounts[i])
    ensures Filter(accounts, p) == accounts
  {
    if accounts != [] {
      FilterAll(accounts[1..], p);
      assert [accounts[0]] + accounts[1..] == accounts;
    }
  }

  lemma {:induction false} FirstOfEachIsDistinct(accounts: seq<Account>, seen: set<string>)
    ensures DistinctSubjects(FirstOfEach(accounts, seen))
    ensures forall i :: 0 <= i < |FirstOfEach(accounts, seen)| ==>
              FirstOfEach(accounts, seen)[i].subject !in seen && FirstOfEach(accounts, seen)[i] in accounts
  {
    if accounts != [] {
      FirstOfEachIsDistinct(accounts[1..], seen);
      FirstOfEachIsDistinct(accounts[1..], seen + {accounts[0].subject});
    }
  }

  lemma {:induction false} FirstOfDistinct(accounts: seq<Account>, seen: set<string>)
    requires DistinctSubjects(accounts)
    requires forall i :: 0 <= i < |accounts| ==> accounts[i].subject !in seen
    ensures FirstOfEach(accounts, seen) == accounts
  {
    if accounts != [] {
      FirstOfDistinct(accounts[1..], seen + {accounts[0].subject});
      assert [accounts[0]] + accounts[1..] == accounts;
    }
  }

  lemma CompactIsCompact(size: nat, accounts: seq<Account>, now: int)
    ensures DistinctSubjects(Compact(size, accounts, now)) && |Compact(size, accounts, now)| <= size
    ensures forall a :: a in Compact(size, accounts, now) ==> a in accounts && IsUsable(a, now)
  {
    hide IsUsable;
    var p := (a: Account) => IsUsable(a, now);
    var usable := Filter(accounts, p);
    FirstOfEachIsDistinct(usable, {});
    forall a | a in Compact(size, accounts, now) ensures a in accounts && IsUsable(a, now) {
      assert a in FirstOfEach(usable, {});
      FilterMembers(accounts, p, a);
    }
  }

  /** On a list that is already compact only the accounts that have run out are dropped. */
  lemma CompactKeepsUsable(size: nat, accounts: seq<Account>, now: int)
    requires DistinctSubjects(accounts) && |accounts| <= size
    ensures forall a :: a in Compact(size, accounts, now) <==> a in accounts && IsUsable(a, now)
  {
    hide IsUsable;
    var p := (a: Account) => IsUsable(a, now);
    FilterKeepsDistinct(accounts, p);
    FirstOfDistinct(Filter(accounts, p), {});
    forall a ensures a in Compact(size, accounts, now) <==> a in accounts && IsUsable(a, now) {
      FilterMembers(accounts, p, a);
    }
  }

  lemma OneAccountPerSubject(accounts: seq<Account>, a: Account, b: Account)
    requires DistinctSubjects(accounts) && a in accounts && b in accounts && a.subject == b.subject
    ensures a == b
  {
  }

  lemma FindFinds(accounts: seq<Account>, a: Account)
    requires DistinctSubjects(accounts) && a in accounts
    ensures Find(accounts, Some(a.subject)) == Some(a)
  {
    if Find(accounts, Some(a.subject)).Some? {
      OneAccountPerSubject(accounts, a, Find(accounts, Some(a.subject)).value);
    }
  }

  lemma CachedAreAccounts(t: Token)
    ensures forall a :: a in CachedAccounts(t) ==> IsCachedAccount(a)
  {
    forall a | a in Filter(t.cached, IsCachedAccount) ensures IsCachedAccount(a) {
      FilterMembers(t.cached, IsCachedAccount, a);
    }
  }

  /** The legacy account is only added to tokens that the callback did not make. */
  lemma CachedOfInv(size: nat, t: Token)
    requires TokenInv(size, t)
    ensures CachedAccounts(t) == t.cached
  {
    FilterAll(t.cached, IsCachedAccount);
  }

  lemma GatheredAreAccounts(t: Token, g: Trigger, a: Account)
    requires (IsSignIn(g) ==> Complete(g.profile)) && a in Gathered(t, g)
    ensures IsCachedAccount(a)
  {
    hide CachedAccounts;
    CachedAreAccounts(t);
    if IsSignIn(g) && g.previous.Some? {
      CachedAreAccounts(g.previous.value);
      FilterMembers(CachedAccounts(g.previous.value), (x: Account) => x.subject != g.profile.sub.value, a);
    }
  }

  // ---------------------------------------------------------------- the invariant

  predicate Good(size: nat, accounts: seq<Account>) {
    DistinctSubjects(accounts) && |accounts| <= size && forall i :: 0 <= i < |accounts| ==> IsCachedAccount(accounts[i])
  }

  lemma ApplyIsInv(size: nat, accounts: seq<Account>, a: Account)
    requires Good(size, accounts) && a in accounts
    ensures TokenInv(size, Apply(a, accounts))
  {
    var i :| 0 <= i < |accounts| && accounts[i] == a;
    assert Shows(Apply(a, accounts), accounts[i]);
  }

  lemma RefreshedIsInv(size: nat, accounts: seq<Account>, a: Account, provider: Provider)
    requires Good(size, accounts) && a in accounts && Refresh(a, provider).Some?
    ensures var r := Refresh(a, provider).value;
            && r.subject == a.subject && Good(size, Replace(accounts, r)) && r in Replace(accounts, r)
            && TokenInv(size, Apply(r, Replace(accounts, r)))
  {
    var r := Refresh(a, provider).value;
    var replaced := Replace(accounts, r);
    var i :| 0 <= i < |accounts| && accounts[i] == a;
    assert replaced[i] == r;
    assert forall k :: 0 <= k < |accounts| ==> replaced[k].subject == accounts[k].subject;
    ApplyIsInv(size, replaced, r);
  }

  lemma OthersAreGood(size: nat, accounts: seq<Account>, subject: string)
    requires Good(size, accounts)
    ensures Good(size, Except(accounts, subject))
    ensures forall a :: a in Except(accounts, subject) <==> a in accounts && a.subject != subject
  {
    var p := (a: Account) => a.subject != subject;
    FilterKeepsDistinct(accounts, p);
    forall a ensures a in Filter(accounts, p) <==> a in accounts && p(a) {
      FilterMembers(accounts, p, a);
    }
    forall i | 0 <= i < |Filter(accounts, p)| ensures IsCachedAccount(Filter(accounts, p)[i]) {
      assert Filter(accounts, p)[i] in accounts;
    }
  }

  lemma ActivateMakesInv(size: nat, t: Token, g: Trigger, accounts: seq<Account>, a: Account, provider: Provider, now: int)
    requires Good(size, accounts) && a in accounts && Activate(t, g, accounts, a, provider, now).Some?
    ensures TokenInv(size, Activate(t, g, accounts, a, provider, now).value)
  {
    hide TokenInv, Good, Apply, Refresh, Replace, Due, Except;
    ApplyIsInv(size, accounts, a);
    OthersAreGood(size, accounts, a.subject);
    var others := Except(accounts, a.subject);
    if Refresh(a, provider).Some? {
      RefreshedIsInv(size, accounts, a, provider);
    }
    if Find(others, t.subject).Some? {
      var current := Find(others, t.subject).value;
      ApplyIsInv(size, others, current);
      if Refresh(current, provider).Some? {
        RefreshedIsInv(size, others, current, provider);
      }
    }
  }

  lemma CompactIsGood(size: nat, t: Token, g: Trigger, now: int)
    requires IsSignIn(g) ==> Complete(g.profile)
    ensures Good(size, Compact(size, Gathered(t, g), now))
  {
    hide Compact, Gathered, IsCachedAccount;
    var accounts := Compact(size, Gathered(t, g), now);
    CompactIsCompact(size, Gathered(t, g), now);
    forall i | 0 <= i < |accounts| ensures IsCachedAccount(accounts[i]) {
      GatheredAreAccounts(t, g, accounts[i]);
    }
  }

  /**
   Whatever token comes in, every token that goes out has accounts of distinct subjects, at most
   as many as the cache holds, and its own fields are those of one of them.
  */
  lemma StepMakesInv(size: nat, t: Token, g: Trigger, provider: Provider, now: int)
    requires Step(size, t, g, provider, now).Some?
    ensures TokenInv(size, Step(size, t, g, provider, now).value)
  {
    hide TokenInv, Good, Activate, Compact, Gathered;
    var accounts := Compact(size, Gathered(t, g), now);
    CompactIsGood(size, t, g, now);
    var asked := Find(accounts, Requested(t, g));
    var selected := if asked.None? && g.Update? then Find(accounts, StringValue(t.subject)) else asked;
    ActivateMakesInv(size, t, g, accounts, selected.value, provider, now);
  }

  // ---------------------------------------------------------------- switching and reading

  /** The account is cached, has not run out, and can be refreshed if it is due. */
  predicate Serves(t: Token, subject: string, provider: Provider, now: int) {
    exists i :: 0 <= i < |t.cached| && t.cached[i].subject == subject
      && IsUsable(t.cached[i], now) && (Due(t.cached[i], now) ==> Refresh(t.cached[i], provider).Some?)
  }

  lemma ServesMeans(t: Token, subject: string, provider: Provider, now: int, a: Account)
    requires DistinctSubjects(t.cached) && a in t.cached && a.subject == subject
    ensures Serves(t, subject, provider, now) <==>
            IsUsable(a, now) && (Due(a, now) ==> Refresh(a, provider).Some?)
  {
    hide IsUsable, Due, Refresh;
    var k :| 0 <= k < |t.cached| && t.cached[k] == a;
  }

  /** After the first pass over a token in order: which accounts are there to choose from. */
  lemma FoundIffUsable(size: nat, t: Token, g: Trigger, now: int, subject: string)
    requires TokenInv(size, t) && !IsSignIn(g)
    ensures var accounts := Compact(size, Gathered(t, g), now);
            && DistinctSubjects(accounts)
            && (forall a :: a in accounts <==> a in t.cached && IsUsable(a, now))
            && (Find(accounts, Some(subject)).Some? ==>
                  Find(accounts, Some(subject)).value in t.cached && IsUsable(Find(accounts, Some(subject)).value, now))
            && (Find(accounts, Some(subject)).None? ==> forall a :: a in t.cached && a.subject == subject ==> !IsUsable(a, now))
  {
    hide Compact, CachedAccounts, IsUsable;
    CachedOfInv(size, t);
    CompactKeepsUsable(size, t.cached, now);
    CompactIsCompact(size, t.cached, now);
    var accounts := Compact(size, t.cached, now);
    forall a | a in accounts && a.subject == subject ensures Find(accounts, Some(subject)).Some? {
      FindFinds(accounts, a);
    }
  }

  /** What happens to a selected account: it becomes active, or the token's own account does, or nothing does. */
  lemma ActivateSelected(t: Token, g: Trigger, accounts: seq<Account>, a: Account, provider: Provider, now: int)
    requires DistinctSubjects(accounts) && a in accounts
    ensures (Due(a, now) ==> Refresh(a, provider).Some?) ==>
              Activate(t, g, accounts, a, provider, now).Some?
              && Activate(t, g, accounts, a, provider, now).value.subject == Some(a.subject)
    ensures Due(a, now) && Refresh(a, provider).None? && (!g.Update? || t.subject == Some(a.subject)) ==>
              Activate(t, g, accounts, a, provider, now).None?
  {
    hide Due, Replace;
  }

  lemma ActivateFallsBack(t: Token, g: Trigger, accounts: seq<Account>, a: Account, current: Option<Account>,
                          provider: Provider, now: int)
    requires DistinctSubjects(accounts) && a in accounts && g.Update? && t.subject.Some? && t.subject != Some(a.subject)
    requires Due(a, now) && Refresh(a, provider).None?
    requires current == Find(Except(accounts, a.subject), t.subject)
    ensures Activate(t, g, accounts, a, provider, now).Some? <==>
              current.Some? && (Due(current.value, now) ==> Refresh(current.value, provider).Some?)
    ensures Activate(t, g, accounts, a, provider, now).Some? ==>
              Activate(t, g, accounts, a, provider, now).value.subject == t.subject
  {
    hide Due, Replace, Except;
  }

  lemma CurrentAmongOthers(accounts: seq<Account>, a: Account, subject: string)
    requires DistinctSubjects(accounts) && a in accounts && subject != a.subject
    ensures Find(Except(accounts, a.subject), Some(subject)) == Find(accounts, Some(subject))
  {
    hide Find;
    var p := (x: Account) => x.subject != a.subject;
    FilterKeepsDistinct(accounts, p);
    forall x ensures x in Filter(accounts, p) <==> x in accounts && p(x) {
      FilterMembers(accounts, p, x);
    }
    var among, within := Find(Except(accounts, a.subject), Some(subject)), Find(accounts, Some(subject));
    if among.Some? {
      FindFinds(accounts, among.value);
    } else if within.Some? {
      FindFinds(Filter(accounts, p), within.value);
    }
  }

  /** Reading a session ends it exactly when its own account no longer serves. */
  lemma ReadEndsIff(size: nat, t: Token, provider: Provider, now: int)
    requires TokenInv(size, t)
    ensures Step(size, t, Read, provider, now).Some? <==> Serves(t, t.subject.value, provider, now)
    ensures Step(size, t, Read, provider, now).Some? ==>
              Step(size, t, Read, provider, now).value.subject == t.subject
  {
    hide Compact, Gathered, IsUsable, Due, Refresh, Activate;
    var accounts := Compact(size, Gathered(t, Read), now);
    FoundIffUsable(size, t, Read, now, t.subject.value);
    var i :| 0 <= i < |t.cached| && Shows(t, t.cached[i]);
    var own := t.cached[i];
    ServesMeans(t, own.subject, provider, now, own);
    if Find(accounts, t.subject).Some? {
      OneAccountPerSubject(t.cached, own, Find(accounts, t.subject).value);
      ActivateSelected(t, Read, accounts, own, provider, now);
    }
  }

  /**
   Switching makes the wanted account active if it serves, otherwise keeps the current one if
   that serves, and ends the session only when neither does.
  */
  lemma SwitchOutcome(size: nat, t: Token, wanted: string, provider: Provider, now: int)
    requires TokenInv(size, t) && wanted != ""
    ensures var r := Step(size, t, Update(Some(wanted)), provider, now);
            if Serves(t, wanted, provider, now) then r.Some? && r.value.subject == Some(wanted)
            else if Serves(t, t.subject.value, provider, now) then r.Some? && r.value.subject == t.subject
            else r.None?
  {
    hide Compact, Gathered, IsUsable, Due, Refresh, Activate, Serves, Except;
    var g := Update(Some(wanted));
    var accounts := Compact(size, Gathered(t, g), now);
    FoundIffUsable(size, t, g, now, wanted);
    FoundIffUsable(size, t, g, now, t.subject.value);
    var i :| 0 <= i < |t.cached| && Shows(t, t.cached[i]);
    var own := t.cached[i];
    ServesMeans(t, own.subject, provider, now, own);
    var current := Find(accounts, t.subject);
    if current.Some? {
      OneAccountPerSubject(t.cached, own, current.value);
    }
    var asked := Find(accounts, Some(wanted));
    if asked.Some? {
      ServesMeans(t, wanted, provider, now, asked.value);
      ActivateSelected(t, g, accounts, asked.value, provider, now);
      if wanted != own.subject && Due(asked.value, now) && Refresh(asked.value, provider).None? {
        CurrentAmongOthers(accounts, asked.value, own.subject);
        ActivateFallsBack(t, g, accounts, asked.value, current, provider, now);
      }
    } else {
      NotUsableDoesNotServe(t, wanted, provider, now);
      if current.Some? {
        ActivateSelected(t, g, accounts, own, provider, now);
      }
    }
  }

  lemma NotUsableDoesNotServe(t: Token, subject: string, provider: Provider, now: int)
    requires forall a :: a in t.cached && a.subject == subject ==> !IsUsable(a, now)
    ensures !Serves(t, subject, provider, now)
  {
    hide IsUsable, Due, Refresh;
  }

  // ---------------------------------------------------------------- what is lost

  lemma ReplaceKeepsSubjects(accounts: seq<Account>, r: Account, subject: string)
    ensures HasSubject(Replace(accounts, r), subject) <==> HasSubject(accounts, subject)
  {
    var replaced := Replace(accounts, r);
    assert forall i :: 0 <= i < |accounts| ==> replaced[i].subject == accounts[i].subject;
    if HasSubject(accounts, subject) {
      var i :| 0 <= i < |accounts| && accounts[i].subject == subject;
      assert replaced[i].subject == subject;
    }
  }

  lemma OthersKeepSubjects(accounts: seq<Account>, gone: string, a: Account)
    requires a in accounts && a.subject != gone
    ensures HasSubject(Except(accounts, gone), a.subject)
  {
    FilterMembers(accounts, (x: Account) => x.subject != gone, a);
  }

  lemma ActivateKeeps(t: Token, g: Trigger, accounts: seq<Account>, selected: Account, provider: Provider, now: int, a: Account)
    requires a in accounts && selected in accounts && Activate(t, g, accounts, selected, provider, now).Some?
    ensures || HasSubject(Activate(t, g, accounts, selected, provider, now).value.cached, a.subject)
            || (a.subject == selected.subject && Due(selected, now) && Refresh(selected, provider).None?
                && g.Update? && t.subject != Some(selected.subject))
  {
    hide Due, Refresh, Replace, Except, Find;
    var others := Except(accounts, selected.subject);
    if a.subject != selected.subject {
      OthersKeepSubjects(accounts, selected.subject, a);
    }
    if Refresh(selected, provider).Some? {
      ReplaceKeepsSubjects(accounts, Refresh(selected, provider).value, a.subject);
    }
    if Find(others, t.subject).Some? && Refresh(Find(others, t.subject).value, provider).Some? {
      ReplaceKeepsSubjects(others, Refresh(Find(others, t.subject).value, provider).value, a.subject);
    }
  }

  /**
   Reading or switching loses no usable account but one: the account that was asked for, when it
   was due and could not be refreshed.
  */
  lemma NothingElseIsLost(size: nat, t: Token, g: Trigger, provider: Provider, now: int, a: Account)
    requires TokenInv(size, t) && !IsSignIn(g) && Step(size, t, g, provider, now).Some?
    requires a in t.cached && IsUsable(a, now)
    ensures || HasSubject(Step(size, t, g, provider, now).value.cached, a.subject)
            || (g.Update? && g.activeSubject == Some(a.subject) && Due(a, now) && Refresh(a, provider).None?)
  {
    hide Compact, Gathered, IsUsable, Due, Refresh, Activate;
    var accounts := Compact(size, Gathered(t, g), now);
    FoundIffUsable(size, t, g, now, a.subject);
    var asked := Find(accounts, Requested(t, g));
    var selected := if asked.None? && g.Update? then Find(accounts, StringValue(t.subject)) else asked;
    ActivateKeeps(t, g, accounts, selected.value, provider, now, a);
    if a.subject == selected.value.subject {
      OneAccountPerSubject(t.cached, a, selected.value);
    }
  }

  lemma {:induction false} FilterConcat(x: seq<Account>, y: seq<Account>, p: Account -> bool)
    ensures Filter(x + y, p) == Filter(x, p) + Filter(y, p)
  {
    if x == [] {
      assert x + y == y;
    } else {
      FilterConcat(x[1..], y, p);
      assert (x + y)[1..] == x[1..] + y && (x + y)[0] == x[0];
      var head := if p(x[0]) then [x[0]] else [];
      assert Filter(x + y, p) == head + (Filter(x[1..], p) + Filter(y, p));
      assert Filter(x, p) == head + Filter(x[1..], p);
    }
  }

  /** The usable accounts, other than the one signing in, that stand before position `k`. */
  function Ahead(accounts: seq<Account>, k: nat, subject: string, now: int): seq<Account>
    requires k <= |accounts|
  {
    Filter(Except(accounts[..k], subject), (x: Account) => IsUsable(x, now))
  }

  lemma UsableOthers(accounts: seq<Account>, k: nat, subject: string, now: int)
    requires k < |accounts| && accounts[k].subject != subject && IsUsable(accounts[k], now)
    ensures var u := Ahead(accounts, |accounts|, subject, now);
            var j := |Ahead(accounts, k, subject, now)|;
            j < |u| && u[j] == accounts[k]
  {
    hide IsUsable;
    var p, q := (x: Account) => x.subject != subject, (x: Account) => IsUsable(x, now);
    var a := accounts[k];
    assert accounts[..|accounts|] == accounts[..k] + ([a] + accounts[k + 1..]);
    FilterConcat(accounts[..k], [a] + accounts[k + 1..], p);
    FilterConcat([a], accounts[k + 1..], p);
    assert Filter([a], p) == [a];
    var rest := Filter(accounts[k + 1..], p);
    FilterConcat(Filter(accounts[..k], p), [a] + rest, q);
    FilterConcat([a], rest, q);
    assert Filter([a], q) == [a];
  }

  lemma UsableOthersDistinct(accounts: seq<Account>, subject: string, now: int)
    requires DistinctSubjects(accounts)
    ensures DistinctSubjects(Ahead(accounts, |accounts|, subject, now))
    ensures forall x :: x in Ahead(accounts, |accounts|, subject, now) ==> x.subject != subject
  {
    hide IsUsable;
    assert accounts[..|accounts|] == accounts;
    var p, q := (x: Account) => x.subject != subject, (x: Account) => IsUsable(x, now);
    FilterKeepsDistinct(accounts, p);
    FilterKeepsDistinct(Filter(accounts, p), q);
    forall x | x in Ahead(accounts, |accounts|, subject, now) ensures x.subject != subject {
      FilterMembers(Filter(accounts, p), q, x);
      FilterMembers(accounts, p, x);
    }
  }

  /** The accounts of a successful sign-in: the new one, then the usable others, up to the size of the cache. */
  lemma SignInAccounts(size: nat, t: Token, g: Trigger, now: int)
    requires IsSignIn(g) && Complete(g.profile) && g.previous.Some? && TokenInv(size, g.previous.value)
    requires IsUsable(NewAccount(g.profile, t), now)
    ensures var cached := g.previous.value.cached;
            Compact(size, Gathered(t, g), now)
            == Take([NewAccount(g.profile, t)] + Ahead(cached, |cached|, g.profile.sub.value, now), size)
  {
    hide IsUsable, NewAccount;
    var cached := g.previous.value.cached;
    var new_ := NewAccount(g.profile, t);
    var q := (x: Account) => IsUsable(x, now);
    CachedOfInv(size, g.previous.value);
    assert cached[..|cached|] == cached;
    var others := Except(cached, g.profile.sub.value);
    FilterConcat([new_], others, q);
    assert Filter([new_], q) == [new_];
    UsableOthersDistinct(cached, g.profile.sub.value, now);
    assert NewAccount(g.profile, t).subject == g.profile.sub.value by {
      NewAccountSubject(g.profile, t);
    }
    FirstOfDistinct([new_] + Ahead(cached, |cached|, g.profile.sub.value, now), {});
  }

  lemma NewAccountSubject(p: Profile, t: Token)
    requires p.sub.Some? && p.username.Some?
    ensures NewAccount(p, t).subject == p.sub.value
  {
  }

  lemma TakenIff(accounts: seq<Account>, size: nat, j: nat)
    requires DistinctSubjects(accounts) && j < |accounts|
    ensures HasSubject(Take(accounts, size), accounts[j].subject) <==> j < size
  {
    if j < size {
      assert Take(accounts, size)[j] == accounts[j];
    }
  }

  lemma SignInActivates(size: nat, t: Token, g: Trigger, provider: Provider, now: int)
    requires IsSignIn(g) && Complete(g.profile) && g.previous.Some? && TokenInv(size, g.previous.value)
    requires Step(size, t, g, provider, now).Some?
    ensures IsUsable(NewAccount(g.profile, t), now)
    ensures forall subject :: HasSubject(Step(size, t, g, provider, now).value.cached, subject) <==>
                              HasSubject(Compact(size, Gathered(t, g), now), subject)
  {
    hide IsUsable, Due, Refresh, Replace, Compact, NewAccount;
    var accounts := Compact(size, Gathered(t, g), now);
    var selected := Find(accounts, Requested(t, g)).value;
    CompactIsCompact(size, Gathered(t, g), now);
    OnlyNewHasItsSubject(t, g, selected);
    if Refresh(selected, provider).Some? {
      forall subject ensures HasSubject(Replace(accounts, Refresh(selected, provider).value), subject) <==> HasSubject(accounts, subject) {
        ReplaceKeepsSubjects(accounts, Refresh(selected, provider).value, subject);
      }
    }
  }

  lemma OnlyNewHasItsSubject(t: Token, g: Trigger, a: Account)
    requires IsSignIn(g) && Complete(g.profile) && a in Gathered(t, g) && Some(a.subject) == g.profile.sub
    ensures a == NewAccount(g.profile, t)
  {
    hide CachedAccounts, NewAccount;
    if g.previous.Some? {
      FilterMembers(CachedAccounts(g.previous.value), (x: Account) => x.subject != g.profile.sub.value, a);
    }
  }

  /**
   A sign-in can evict an account, even the one that was active: a usable account stays exactly
   when fewer than `size - 1` usable others stand before it in the cache.
  */
  lemma SignInKeepsIff(size: nat, t: Token, g: Trigger, provider: Provider, now: int, k: nat)
    requires IsSignIn(g) && Complete(g.profile) && g.previous.Some? && TokenInv(size, g.previous.value)
    requires Step(size, t, g, provider, now).Some?
    requires var cached := g.previous.value.cached;
             k < |cached| && Some(cached[k].subject) != g.profile.sub && IsUsable(cached[k], now)
    ensures var cached := g.previous.value.cached;
            HasSubject(Step(size, t, g, provider, now).value.cached, cached[k].subject) <==>
            |Ahead(cached, k, g.profile.sub.value, now)| < size - 1
  {
    hide IsUsable, Step, Gathered, Compact, NewAccount, Ahead;
    var cached := g.previous.value.cached;
    var new_ := NewAccount(g.profile, t);
    var subject := g.profile.sub.value;
    SignInActivates(size, t, g, provider, now);
    SignInAccounts(size, t, g, now);
    UsableOthers(cached, k, subject, now);
    UsableOthersDistinct(cached, subject, now);
    NewAccountSubject(g.profile, t);
    TakenIff([new_] + Ahead(cached, |cached|, subject, now), size, 1 + |Ahead(cached, k, subject, now)|);
  }

  /** With a cache of one, signing in as somebody else loses the active account, usable or not. */
  lemma SmallestCacheForgets(t: Token, g: Trigger, provider: Provider, now: int)
    requires IsSignIn(g) && Complete(g.profile) && g.previous.Some? && TokenInv(1, g.previous.value)
    requires Step(1, t, g, provider, now).Some? && g.previous.value.subject != g.profile.sub
    requires IsUsable(g.previous.value.cached[0], now)
    ensures !HasSubject(Step(1, t, g, provider, now).value.cached, g.previous.value.subject.value)
  {
    SignInKeepsIff(1, t, g, provider, now, 0);
  }

  /** A token made by a sign-in shows the profile, and its tokens too unless they had to be refreshed at once. */
  lemma SignInShowsTheProfile(size: nat, t: Token, g: Trigger, provider: Provider, now: int)
    requires IsSignIn(g) && Step(size, t, g, provider, now).Some?
    ensures var r, p := Step(size, t, g, provider, now).value, g.profile;
            && r.subject == p.sub && r.username == p.username
            && r.name == (if OrElse(p.name, t.name).Some? then OrElse(p.name, t.name) else p.username)
            && r.email == OrElse(p.email, t.email) && r.image == OrElse(p.image, t.image)
            && (p.expiresAt.value > now + 30 ==>
                  r.idToken == Some(p.idToken) && r.expiresAt == p.expiresAt
                  && r.refreshToken == StringValue(p.refreshToken) && r.refreshExpiresAt == p.refreshExpiresAt)
  {
    hide Compact, Find, Gathered, Replace;
    var accounts := Compact(size, Gathered(t, g), now);
    var selected := Find(accounts, Requested(t, g)).value;
    CompactIsCompact(size, Gathered(t, g), now);
    FoundHasSubject(accounts, Requested(t, g));
    OnlyNewHasItsSubject(t, g, selected);
  }

  lemma FoundHasSubject(accounts: seq<Account>, subject: Option<string>)
    requires Find(accounts, subject).Some?
    ensures Find(accounts, subject).value in accounts && subject == Some(Find(accounts, subject).value.subject)
  {
  }

  // ---------------------------------------------------------------- whole runs

  /** One call of the callback: a sign-in, with or without the old cookie, or a later request. */
  datatype Call = Call(profile: Option<Profile>, base: Token, cookieSent: bool, later: Trigger, provider: Provider, now: int)

  function Next(size: nat, s: Option<Token>, c: Call): Option<Token> {
    if c.profile.Some? then
      Step(size, c.base, SignIn(c.profile.value, if c.cookieSent then s else None), c.provider, c.now)
    else if s.None? then None
    else Step(size, s.value, c.later, c.provider, c.now)
  }

  predicate Run(size: nat, calls: seq<Call>, states: seq<Option<Token>>) {
    && |states| == |calls| + 1 && states[0] == None
    && forall i :: 0 <= i < |calls| ==> states[i + 1] == Next(size, states[i], calls[i])
  }

  lemma {:induction false} RunKeepsInv(size: nat, calls: seq<Call>, states: seq<Option<Token>>, n: nat)
    requires Run(size, calls, states) && n < |states|
    ensures states[n].Some? ==> TokenInv(size, states[n].value)
  {
    hide TokenInv, Step;
    if n > 0 && states[n].Some? {
      var c := calls[n - 1];
      if c.profile.Some? {
        StepMakesInv(size, c.base, SignIn(c.profile.value, if c.cookieSent then states[n - 1] else None), c.provider, c.now);
      } else {
        StepMakesInv(size, states[n - 1].value, c.later, c.provider, c.now);
      }
    }
  }

  /** The call reads or switches, the session goes on, and the account is not lost for one of the two reasons. */
  ghost predicate KeepsAt(s: Option<Token>, s': Option<Token>, c: Call, subject: string) {
    && s.Some? && s'.Some? && c.profile.None? && !IsSignIn(c.later)
    && forall a :: a in s.value.cached && a.subject == subject ==>
         IsUsable(a, c.now)
         && !(c.later.Update? && c.later.activeSubject == Some(subject) && Due(a, c.now) && Refresh(a, c.provider).None?)
  }

  /**
   Over any stretch of reads and switches an account stays cached, through every refresh, as long
   as it is usable and no switch to it fails.
  */
  lemma {:induction false} AccountStays(size: nat, calls: seq<Call>, states: seq<Option<Token>>, m: nat, n: nat, subject: string)
    requires Run(size, calls, states) && m <= n < |states|
    requires states[m].Some? && HasSubject(states[m].value.cached, subject)
    requires forall i :: m <= i < n ==> KeepsAt(states[i], states[i + 1], calls[i], subject)
    ensures states[n].Some? && HasSubject(states[n].value.cached, subject)
  {
    hide TokenInv, Step, IsUsable, Due, Refresh;
    if n > m {
      AccountStays(size, calls, states, m, n - 1, subject);
      RunKeepsInv(size, calls, states, n - 1);
      assert KeepsAt(states[n - 1], states[n - 1 + 1], calls[n - 1], subject);
      var t, c := states[n - 1].value, calls[n - 1];
      var i :| 0 <= i < |t.cached| && t.cached[i].subject == subject;
      NothingElseIsLost(size, t, c.later, c.provider, c.now, t.cached[i]);
    }
  }

  /** An account is serving at a call: cached, not run out, and refreshed if it is due. */
  predicate ServedAt(s: Option<Token>, subject: string, c: Call) {
    s.Some? && Serves(s.value, subject, c.provider, c.now)
  }

  /** The account serves, and the call does not switch to another one that serves. */
  predicate LeavesActive(s: Option<Token>, c: Call, subject: string) {
    && c.profile.None? && ServedAt(s, subject, c)
    && (c.later == Read
        || (c.later.Update? && StringValue(c.later.activeSubject).Some?
            && (c.later.activeSubject == Some(subject) || !ServedAt(s, c.later.activeSubject.value, c))))
  }

  /**
   Over any stretch of reads, and of switches to it or to accounts that do not serve, the active
   account stays active as long as it serves.
  */
  lemma {:induction false} ActiveStays(size: nat, calls: seq<Call>, states: seq<Option<Token>>, m: nat, n: nat, subject: string)
    requires Run(size, calls, states) && m <= n < |states|
    requires states[m].Some? && states[m].value.subject == Some(subject)
    requires forall i :: m <= i < n ==> LeavesActive(states[i], calls[i], subject)
    ensures states[n].Some? && states[n].value.subject == Some(subject)
  {
    hide TokenInv, Step, Serves;
    if n > m {
      ActiveStays(size, calls, states, m, n - 1, subject);
      RunKeepsInv(size, calls, states, n - 1);
      var t, c := states[n - 1].value, calls[n - 1];
      assert LeavesActive(states[n - 1], c, subject);
      if c.later == Read {
        ReadEndsIff(size, t, c.provider, c.now);
      } else {
        SwitchOutcome(size, t, c.later.activeSubject.value, c.provider, c.now);
      }
    }
  }
}
