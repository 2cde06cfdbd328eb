/** Which accounts a token or a sign-in brings along, and what a sign-in makes of them. */
module HubAccountsSignIn {
  import opened Results
  import opened HubAccounts
  import opened HubAccountsLaws
  import opened HubAccountsRefresh

  /** The text, unless it is empty. */
  predicate IsText(r: Option<string>, s: Option<string>) { if Texted(s) then r == s else r.None? }

  /** The first of two texts that is not empty. */
  predicate IsEither(r: Option<string>, a: Option<string>, b: Option<string>) {
    (Texted(a) ==> r == a) && (!Texted(a) ==> IsText(r, b))
  }

  /** A cached entry counts as an account if it has what identifies it. */
  predicate Whole(a: Account) { |a.subject| > 0 && |a.username| > 0 && |a.idToken| > 0 }

  /** A token of the time before accounts were cached describes its one account itself. */
  predicate Describes(t: Token, a: Account) {
    && Whole(a) && t.subject == Some(a.subject) && t.username == Some(a.username) && t.idToken == Some(a.idToken)
    && a.expiresAt == t.expiresAt && IsText(a.refreshToken, t.refreshToken) && a.refreshExpiresAt == t.refreshExpiresAt
    && IsText(a.name, t.name) && IsText(a.email, t.email) && IsText(a.image, t.image)
  }

  /** The accounts of any token: the whole ones in its cache, and its own if that is not among them. */
  predicate Brings(t: Token, a: Account) {
    || (a in t.cached && Whole(a))
    || (Describes(t, a) && forall x :: x in t.cached && Whole(x) ==> x.subject != a.subject)
  }

  lemma OwnIsDescribed(t: Token, a: Account)
    ensures AccountFromToken(t) == Some(a) <==> Describes(t, a)
  {
  }

  lemma AccountsAreThoseBrought(t: Token, a: Account)
    ensures a in CachedAccounts(t) <==> Brings(t, a)
  {
    var cached := Filter(t.cached, IsCachedAccount);
    forall x ensures x in cached <==> x in t.cached && Whole(x) {
      FilterMembers(t.cached, IsCachedAccount, x);
      assert IsCachedAccount(x) <==> Whole(x);
    }
    OwnIsDescribed(t, a);
    hide AccountFromToken, Describes, Filter;
    if HasSubject(cached, a.subject) {
      var i :| 0 <= i < |cached| && cached[i].subject == a.subject;
      assert cached[i] in cached;
    } else {
      forall x | x in cached ensures x.subject != a.subject {
        var i :| 0 <= i < |cached| && cached[i] == x;
      }
    }
  }

  lemma CompactOne(size: nat, a: Account, now: int)
    requires size > 0
    ensures Compact(size, [a], now) == if IsUsable(a, now) then [a] else []
  {
    var usable := (x: Account) => IsUsable(x, now);
    var kept := Filter([a], usable);
    hide IsUsable;
    FilterMembers([a], usable, a);
    FilterKeepsDistinct([a], usable);
    forall x | x in kept ensures x == a {
      FilterMembers([a], usable, x);
    }
    assert IsUsable(a, now) <==> a in kept;
    assert kept == if kept == [] then [] else [kept[0]];
    FirstOfDistinct(kept, {});
  }

  /** A token without a cache is taken up: its own account is kept, and active if it has not run out. */
  lemma TokenWithoutCacheIsTakenUp(size: nat, t: Token, a: Account, provider: Provider, now: int)
    requires size > 0 && t.cached == [] && Describes(t, a)
    ensures var r := Step(size, t, Read, provider, now);
            if IsUsable(a, now) then Activates(r, {a}, a, provider, now) else r.None?
  {
    OwnIsDescribed(t, a);
    assert Gathered(t, Read) == [a];
    hide AccountFromToken, IsUsable, Gathered, Compact, Activates, Due, Refresh, Activate;
    CompactOne(size, a, now);
    var one := Compact(size, [a], now);
    if IsUsable(a, now) {
      assert (set x | x in one) == {a};
      FindFinds(one, a);
      ActivateDirectly(t, Read, one, a, provider, now);
    }
  }

  /** What the identity provider said, with the session's names where it gave none. */
  predicate SignedIn(p: Profile, t: Token, a: Account) {
    && p.sub == Some(a.subject) && p.username == Some(a.username) && p.idToken == a.idToken && p.expiresAt == a.expiresAt
    && IsText(a.refreshToken, p.refreshToken) && a.refreshExpiresAt == p.refreshExpiresAt
    && IsEither(a.name, p.name, t.name) && IsEither(a.email, p.email, t.email) && IsEither(a.image, p.image, t.image)
  }

  /** The accounts after a sign-in: the new one, and others of the earlier session that have not run out. */
  ghost predicate Joins(accounts: set<Account>, new_: Account, previous: Option<Token>, now: int) {
    && new_ in accounts
    && forall x :: x in accounts && x != new_ ==>
         previous.Some? && Brings(previous.value, x) && x.subject != new_.subject && IsUsable(x, now)
  }

  lemma {:induction false} FirstStaysFirst(size: nat, accounts: seq<Account>, now: int)
    requires size > 0 && accounts != [] && IsUsable(accounts[0], now)
    ensures accounts[0] in Compact(size, accounts, now)
  {
    var usable := Filter(accounts, (a: Account) => IsUsable(a, now));
    assert usable[0] == accounts[0];
    assert FirstOfEach(usable, {})[0] == accounts[0];
    assert Compact(size, accounts, now)[0] == accounts[0];
  }

  lemma GatheredAtSignIn(t: Token, p: Profile, previous: Option<Token>, x: Account)
    requires p.idToken != "" && Complete(p) && x in Gathered(t, SignIn(p, previous)) && x != NewAccount(p, t)
    ensures previous.Some? && Brings(previous.value, x) && x.subject != p.sub.value
  {
    hide CachedAccounts, NewAccount, Brings;
    if previous.Some? {
      FilterMembers(CachedAccounts(previous.value), (a: Account) => a.subject != p.sub.value, x);
      AccountsAreThoseBrought(previous.value, x);
    }
  }

  /**
   A sign-in fails exactly when the profile has no user name, subject or expiry, or its account has run out or
   is due and not answered for. Otherwise it makes the profile's account the active one.
  */
  lemma SignInOutcome(size: nat, t: Token, p: Profile, previous: Option<Token>, provider: Provider, now: int)
    requires size > 0 && p.idToken != ""
    ensures var r := Step(size, t, SignIn(p, previous), provider, now);
            if !Texted(p.username) || !Texted(p.sub) || p.expiresAt in {None, Some(0)} then r.None?
            else exists new_ ::
              && SignedIn(p, t, new_)
              && if !IsUsable(new_, now) then r.None?
                 else exists accounts :: Joins(accounts, new_, previous, now) && Activates(r, accounts, new_, provider, now)
  {
    var g := SignIn(p, previous);
    if Complete(p) {
      var new_ := NewAccount(p, t);
      assert SignedIn(p, t, new_);
      NewIsFirst(t, p, previous);
      hide NewAccount, Gathered, Compact, IsUsable, Brings, Activates, Due, Refresh, Activate, SignedIn;
      var gathered := Gathered(t, g);
      var accounts := Compact(size, gathered, now);
      CompactIsCompact(size, gathered, now);
      if IsUsable(new_, now) {
        FirstStaysFirst(size, gathered, now);
        forall x | x in accounts && x != new_
          ensures previous.Some? && Brings(previous.value, x) && x.subject != new_.subject && IsUsable(x, now)
        {
          GatheredAtSignIn(t, p, previous, x);
        }
        FindFinds(accounts, new_);
        ActivateDirectly(t, g, accounts, new_, provider, now);
        assert Joins((set x | x in accounts), new_, previous, now);
      } else if Find(accounts, p.sub).Some? {
        OnlyNewHasItsSubject(t, g, Find(accounts, p.sub).value);
      }
    }
  }

  lemma NewIsFirst(t: Token, p: Profile, previous: Option<Token>)
    requires p.idToken != "" && Complete(p)
    ensures Gathered(t, SignIn(p, previous)) != [] && Gathered(t, SignIn(p, previous))[0] == NewAccount(p, t)
    ensures p.sub == Some(NewAccount(p, t).subject) && Requested(t, SignIn(p, previous)) == p.sub
  {
  }
}
