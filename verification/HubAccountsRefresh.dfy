/**
 What a read or a switch makes of the session, in terms of the accounts that were cached and of what the
 identity provider answers.
*/
module HubAccountsRefresh {
  import opened Results
  import opened HubAccounts
  import opened HubAccountsLaws

  /** The provider answers the account's refresh token with an ID token that has an expiry. */
  predicate Answered(a: Account, provider: Provider) {
    && a.refreshToken.Some? && a.refreshToken.value != ""
    && provider(a).Some? && provider(a).value.idToken != "" && provider(a).value.expiresAt != 0
  }

  /** `b` is `a` with the tokens and times of the answer, and its own where the answer has none. */
  predicate Renewed(a: Account, r: Refreshed, b: Account) {
    && b.subject == a.subject && b.username == a.username
    && b.name == a.name && b.email == a.email && b.image == a.image
    && b.idToken == r.idToken && b.expiresAt == Some(r.expiresAt)
    && (if r.refreshToken.Some? && r.refreshToken.value != "" then b.refreshToken == r.refreshToken
        else b.refreshToken == a.refreshToken)
    && (if r.refreshExpiresAt.Some? then b.refreshExpiresAt == r.refreshExpiresAt
        else b.refreshExpiresAt == a.refreshExpiresAt)
  }

  /**
   The session that makes `a`, one of the accounts, the active one: with its own tokens unless they are due,
   with the provider's if they are, and no session if the provider has none. The other accounts are unchanged.
  */
  ghost predicate Activates(r: Option<Token>, accounts: set<Account>, a: Account, provider: Provider, now: int) {
    if !Due(a, now) then
      r.Some? && Shows(r.value, a) && forall x :: x in r.value.cached <==> x in accounts
    else if Answered(a, provider) then
      && r.Some?
      && exists b :: Renewed(a, provider(a).value, b) && Shows(r.value, b)
           && forall x :: x in r.value.cached <==> x == b || (x in accounts && x.subject != a.subject)
    else r.None?
  }

  function UsableOf(t: Token, now: int): set<Account> { set a | a in t.cached && IsUsable(a, now) }

  lemma RefreshIsRenewal(a: Account, provider: Provider)
    ensures Refresh(a, provider).Some? <==> Answered(a, provider)
    ensures Answered(a, provider) ==> Renewed(a, provider(a).value, Refresh(a, provider).value)
  {
  }

  lemma ReplacedMembers(accounts: seq<Account>, a: Account, b: Account)
    requires DistinctSubjects(accounts) && a in accounts && b.subject == a.subject
    ensures forall x :: x in Replace(accounts, b) <==> x == b || (x in accounts && x.subject != a.subject)
  {
    var replaced := Replace(accounts, b);
    var i :| 0 <= i < |accounts| && accounts[i] == a;
    assert replaced[i] == b;
    forall x | x in accounts && x.subject != a.subject ensures x in replaced {
      var k :| 0 <= k < |accounts| && accounts[k] == x;
      assert replaced[k] == x;
    }
  }

  lemma ApplyShows(a: Account, cached: seq<Account>)
    ensures Shows(Apply(a, cached), a) && Apply(a, cached).cached == cached
  {
  }

  /** One account of a list made active, without another to fall back to. */
  lemma MadeActive(accounts: seq<Account>, a: Account, provider: Provider, now: int, r: Option<Token>)
    requires DistinctSubjects(accounts) && a in accounts
    requires r == if !Due(a, now) then Some(Apply(a, accounts))
                  else if Refresh(a, provider).Some? then Some(Apply(Refresh(a, provider).value, Replace(accounts, Refresh(a, provider).value)))
                  else None
    ensures Activates(r, (set x | x in accounts), a, provider, now)
  {
    hide Apply, Replace, Refresh, Due, Answered, Shows;
    ApplyShows(a, accounts);
    RefreshIsRenewal(a, provider);
    if Refresh(a, provider).Some? {
      var b := Refresh(a, provider).value;
      ReplacedMembers(accounts, a, b);
      ApplyShows(b, Replace(accounts, b));
    }
  }

  lemma ActivateDirectly(t: Token, g: Trigger, accounts: seq<Account>, a: Account, provider: Provider, now: int)
    requires DistinctSubjects(accounts) && a in accounts
    requires !Due(a, now) || Answered(a, provider) || !g.Update? || Some(a.subject) == t.subject
    ensures Activates(Activate(t, g, accounts, a, provider, now), (set x | x in accounts), a, provider, now)
  {
    hide Apply, Replace, Refresh, Due, Answered, Activates, Except;
    RefreshIsRenewal(a, provider);
    MadeActive(accounts, a, provider, now, Activate(t, g, accounts, a, provider, now));
  }

  lemma ActivateInstead(t: Token, g: Trigger, accounts: seq<Account>, a: Account, current: Option<Account>, provider: Provider, now: int)
    requires DistinctSubjects(accounts) && a in accounts && g.Update? && Some(a.subject) != t.subject
    requires Due(a, now) && !Answered(a, provider) && current == Find(Except(accounts, a.subject), t.subject)
    ensures var r := Activate(t, g, accounts, a, provider, now);
            if current.None? then r.None?
            else Activates(r, (set x | x in accounts) - {a}, current.value, provider, now)
  {
    hide Apply, Replace, Refresh, Due, Answered, Activates, Except;
    RefreshIsRenewal(a, provider);
    if current.Some? {
      var others := Except(accounts, a.subject);
      OthersAre(accounts, a);
      MadeActive(others, current.value, provider, now, Activate(t, g, accounts, a, provider, now));
      assert (set x | x in others) == (set x | x in accounts) - {a};
    }
  }

  lemma OthersAre(accounts: seq<Account>, a: Account)
    requires DistinctSubjects(accounts) && a in accounts
    ensures DistinctSubjects(Except(accounts, a.subject))
    ensures forall x :: x in Except(accounts, a.subject) <==> x in accounts && x != a
  {
    var p := (x: Account) => x.subject != a.subject;
    FilterKeepsDistinct(accounts, p);
    forall x ensures x in Filter(accounts, p) <==> x in accounts && x != a {
      FilterMembers(accounts, p, x);
      if x in accounts && x.subject == a.subject {
        OneAccountPerSubject(accounts, x, a);
      }
    }
  }

  lemma AccountsAreUsable(size: nat, t: Token, g: Trigger, now: int)
    requires TokenInv(size, t) && !IsSignIn(g)
    ensures var accounts := Compact(size, Gathered(t, g), now);
            DistinctSubjects(accounts) && (set x | x in accounts) == UsableOf(t, now)
            && forall x :: x in accounts <==> x in UsableOf(t, now)
  {
    hide Compact, Gathered, IsUsable;
    FoundIffUsable(size, t, g, now, "");
  }

  /**
   A read makes the active account active again if it has not run out, and ends the session otherwise.
  */
  lemma ReadOutcome(size: nat, t: Token, provider: Provider, now: int, own: Account)
    requires TokenInv(size, t) && own in t.cached && t.subject == Some(own.subject)
    ensures var r := Step(size, t, Read, provider, now);
            if IsUsable(own, now) then Activates(r, UsableOf(t, now), own, provider, now) else r.None?
  {
    hide Compact, Gathered, IsUsable, Due, Refresh, Activate, Activates, Answered;
    var accounts := Compact(size, Gathered(t, Read), now);
    OwnIsAccount(size, t, own);
    AccountsAreUsable(size, t, Read, now);
    FoundIffUsable(size, t, Read, now, own.subject);
    if IsUsable(own, now) {
      FindFinds(accounts, own);
      ActivateDirectly(t, Read, accounts, own, provider, now);
    } else {
      NotFound(t, accounts, own, now);
    }
  }

  lemma OwnIsAccount(size: nat, t: Token, own: Account)
    requires TokenInv(size, t) && own in t.cached
    ensures StringValue(Some(own.subject)) == Some(own.subject)
  {
  }

  lemma NotFound(t: Token, accounts: seq<Account>, a: Account, now: int)
    requires DistinctSubjects(t.cached) && a in t.cached && !IsUsable(a, now)
    requires forall x :: x in accounts ==> x in t.cached && IsUsable(x, now)
    ensures Find(accounts, Some(a.subject)).None?
  {
    hide IsUsable;
    var found := Find(accounts, Some(a.subject));
    if found.Some? {
      OneAccountPerSubject(t.cached, a, found.value);
    }
  }

  /**
   A switch makes the wanted account active if it has not run out and is not due or answered for. If the provider
   has no answer for it, the account is dropped and the active one stays; if it is not there to switch to,
   the call is like a read.
  */
  lemma SwitchOutcomeIs(size: nat, t: Token, wanted: Account, provider: Provider, now: int, own: Account)
    requires TokenInv(size, t) && own in t.cached && t.subject == Some(own.subject) && wanted in t.cached
    ensures var r := Step(size, t, Update(Some(wanted.subject)), provider, now);
            if IsUsable(wanted, now) && (wanted == own || !Due(wanted, now) || Answered(wanted, provider)) then
              Activates(r, UsableOf(t, now), wanted, provider, now)
            else if !IsUsable(own, now) then r.None?
            else Activates(r, UsableOf(t, now) - {wanted}, own, provider, now)
  {
    hide Compact, Gathered, IsUsable, Due, Refresh, Activate, Activates, Answered, Except;
    var g := Update(Some(wanted.subject));
    var accounts := Compact(size, Gathered(t, g), now);
    OwnIsAccount(size, t, own);
    OwnIsAccount(size, t, wanted);
    AccountsAreUsable(size, t, g, now);
    FoundIffUsable(size, t, g, now, own.subject);
    if IsUsable(own, now) {
      FindFinds(accounts, own);
    } else {
      NotFound(t, accounts, own, now);
    }
    if wanted.subject == own.subject {
      OneAccountPerSubject(t.cached, wanted, own);
    }
    if IsUsable(wanted, now) {
      FindFinds(accounts, wanted);
      if wanted == own || !Due(wanted, now) || Answered(wanted, provider) {
        ActivateDirectly(t, g, accounts, wanted, provider, now);
      } else {
        CurrentAmongOthers(accounts, wanted, own.subject);
        ActivateInstead(t, g, accounts, wanted, Find(accounts, t.subject), provider, now);
      }
    } else {
      NotFound(t, accounts, wanted, now);
      assert UsableOf(t, now) - {wanted} == UsableOf(t, now);
      if IsUsable(own, now) {
        ActivateDirectly(t, g, accounts, own, provider, now);
      }
    }
  }

  /** A switch to a subject that is not cached is a read. */
  lemma SwitchToStranger(size: nat, t: Token, subject: string, provider: Provider, now: int)
    requires TokenInv(size, t) && !HasSubject(t.cached, subject)
    ensures Step(size, t, Update(Some(subject)), provider, now) == Step(size, t, Read, provider, now)
  {
    hide Compact, IsUsable, Due, Refresh, Apply;
    var g := Update(Some(subject));
    var accounts := Compact(size, Gathered(t, g), now);
    FoundIffUsable(size, t, g, now, subject);
  }

  /** A time in seconds, where zero and none both mean unlimited. */
  function Until(time: Option<int>): int { if time.Some? then time.value else 0 }

  /**
   In seconds: the session goes on exactly when the active ID token has no end or more than half a minute
   left, or the provider renews it, which it is only asked to do while one of the two tokens lives. Of the
   other accounts exactly those stay that have an ID token without end or not yet ended, or a refresh token
   without end or not yet ended.
  */
  lemma ReadGoesOnIff(size: nat, t: Token, provider: Provider, now: int, own: Account)
    requires TokenInv(size, t) && own in t.cached && t.subject == Some(own.subject)
    ensures var r, until, refreshUntil := Step(size, t, Read, provider, now), Until(own.expiresAt), Until(own.refreshExpiresAt);
            && (r.Some? <==>
                  || until == 0 || until > now + 30
                  || (Answered(own, provider) && (until > now || refreshUntil == 0 || refreshUntil > now)))
            && (r.Some? ==> forall x: Account :: x.subject != own.subject ==>
                  (x in r.value.cached <==>
                     && x in t.cached
                     && (|| Until(x.expiresAt) == 0 || Until(x.expiresAt) > now
                         || (StringValue(x.refreshToken).Some? && (Until(x.refreshExpiresAt) == 0 || Until(x.refreshExpiresAt) > now)))))
  {
    hide Step, TokenInv, Answered, Shows, Renewed;
    ReadOutcome(size, t, provider, now, own);
    if Answered(own, provider) {
      AnsweredHasToken(own, provider);
    }
    if Step(size, t, Read, provider, now).Some? {
      forall x: Account | x.subject != own.subject
        ensures x in Step(size, t, Read, provider, now).value.cached <==> x in UsableOf(t, now)
      {
        OthersAreKept(Step(size, t, Read, provider, now), UsableOf(t, now), own, provider, now, x);
      }
    }
  }

  lemma AnsweredHasToken(a: Account, provider: Provider)
    requires Answered(a, provider)
    ensures StringValue(a.refreshToken).Some?
  {
  }

  lemma OthersAreKept(r: Option<Token>, accounts: set<Account>, a: Account, provider: Provider, now: int, x: Account)
    requires Activates(r, accounts, a, provider, now) && r.Some? && x.subject != a.subject
    ensures x in r.value.cached <==> x in accounts
  {
    hide Shows, Answered, Due;
  }
}
