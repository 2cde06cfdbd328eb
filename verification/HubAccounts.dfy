/**
 The hub's session token and the accounts cached in it: sign-in, switching and refreshing.
 The identity provider's answer to a refresh is a function parameter.
*/
module HubAccounts {
  import opened Results

  datatype Account = Account(
    subject: string, username: string, idToken: string, expiresAt: Option<int>,
    refreshToken: Option<string>, refreshExpiresAt: Option<int>,
    name: Option<string>, email: Option<string>, image: Option<string>)

  datatype Token = Token(
    subject: Option<string>, username: Option<string>, idToken: Option<string>, expiresAt: Option<int>,
    refreshToken: Option<string>, refreshExpiresAt: Option<int>,
    name: Option<string>, email: Option<string>, image: Option<string>, cached: seq<Account>)

  /** What the identity provider answered at sign-in. */
  datatype Profile = Profile(
    sub: Option<string>, username: Option<string>, expiresAt: Option<int>, idToken: string,
    refreshToken: Option<string>, refreshExpiresAt: Option<int>,
    name: Option<string>, email: Option<string>, image: Option<string>)

  datatype Trigger = SignIn(profile: Profile, previous: Option<Token>) | Update(activeSubject: Option<string>) | Read

  datatype Refreshed = Refreshed(idToken: string, expiresAt: int, refreshToken: Option<string>, refreshExpiresAt: Option<int>)

  type Provider = Account -> Option<Refreshed>

  /** An empty text counts as absent, and so does a time of zero. */
  function StringValue(s: Option<string>): Option<string> { if s == Some("") then None else s }

  predicate Given(time: Option<int>) { time.Some? && time.value != 0 }

  function OrElse(a: Option<string>, b: Option<string>): Option<string> {
    if StringValue(a).Some? then StringValue(a) else StringValue(b)
  }

  predicate IsCachedAccount(a: Account) { a.subject != "" && a.username != "" && a.idToken != "" }

  predicate CanRefresh(a: Account, now: int) {
    a.refreshToken.Some? && a.refreshToken.value != "" && (!Given(a.refreshExpiresAt) || a.refreshExpiresAt.value > now)
  }

  predicate IsUsable(a: Account, now: int) {
    !Given(a.expiresAt) || a.expiresAt.value > now || CanRefresh(a, now)
  }

  /** The ID token has at most half a minute left. */
  predicate Due(a: Account, now: int) { Given(a.expiresAt) && a.expiresAt.value <= now + 30 }

  function AccountFromToken(t: Token): Option<Account> {
    var subject, username, idToken := StringValue(t.subject), StringValue(t.username), StringValue(t.idToken);
    if subject == None || username == None || idToken == None then None
    else Some(Account(subject.value, username.value, idToken.value, t.expiresAt, StringValue(t.refreshToken),
                      t.refreshExpiresAt, StringValue(t.name), StringValue(t.email), StringValue(t.image)))
  }

  function Filter(accounts: seq<Account>, p: Account -> bool): seq<Account> {
    if accounts == [] then []
    else (if p(accounts[0]) then [accounts[0]] else []) + Filter(accounts[1..], p)
  }

  predicate HasSubject(accounts: seq<Account>, subject: string) {
    exists i :: 0 <= i < |accounts| && accounts[i].subject == subject
  }

  function CachedAccounts(t: Token): seq<Account> {
    var cached := Filter(t.cached, IsCachedAccount);
    var legacy := AccountFromToken(t);
    if legacy.Some? && !HasSubject(cached, legacy.value.subject) then [legacy.value] + cached else cached
  }

  /** Keeps the first account of each subject that is not among those seen. */
  function FirstOfEach(accounts: seq<Account>, seen: set<string>): seq<Account> {
    if accounts == [] then []
    else if accounts[0].subject in seen then FirstOfEach(accounts[1..], seen)
    else [accounts[0]] + FirstOfEach(accounts[1..], seen + {accounts[0].subject})
  }

  function Take(accounts: seq<Account>, size: nat): seq<Account> {
    if |accounts| <= size then accounts else accounts[..size]
  }

  function Compact(size: nat, accounts: seq<Account>, now: int): seq<Account> {
    Take(FirstOfEach(Filter(accounts, (a: Account) => IsUsable(a, now)), {}), size)
  }

  function Find(accounts: seq<Account>, subject: Option<string>): (r: Option<Account>)
    ensures r.Some? ==> r.value in accounts && subject == Some(r.value.subject)
    ensures r.None? && subject.Some? ==> !HasSubject(accounts, subject.value)
  {
    if accounts == [] then None
    else if subject == Some(accounts[0].subject) then Some(accounts[0])
    else Find(accounts[1..], subject)
  }

  /** A refresh replaces the tokens and nothing else; an answer without a usable expiry is a failure. */
  function Refresh(a: Account, provider: Provider): Option<Account> {
    if StringValue(a.refreshToken).None? then None
    else
      match provider(a)
      case None => None
      case Some(r) =>
        if r.idToken == "" || r.expiresAt == 0 then None
        else Some(a.(idToken := r.idToken, expiresAt := Some(r.expiresAt),
                     refreshToken := if StringValue(r.refreshToken).Some? then r.refreshToken else a.refreshToken,
                     refreshExpiresAt := if r.refreshExpiresAt.Some? then r.refreshExpiresAt else a.refreshExpiresAt))
  }

  function Replace(accounts: seq<Account>, a: Account): (r: seq<Account>)
    ensures |r| == |accounts|
    ensures forall i :: 0 <= i < |r| ==> r[i] == if accounts[i].subject == a.subject then a else accounts[i]
  {
    seq(|accounts|, i requires 0 <= i < |accounts| => if accounts[i].subject == a.subject then a else accounts[i])
  }

  function Except(accounts: seq<Account>, subject: string): seq<Account> {
    Filter(accounts, (a: Account) => a.subject != subject)
  }

  function Apply(a: Account, cached: seq<Account>): Token {
    Token(Some(a.subject), Some(a.username), Some(a.idToken), a.expiresAt, a.refreshToken, a.refreshExpiresAt,
          if a.name.Some? then a.name else Some(a.username), a.email, a.image, cached)
  }

  function NewAccount(p: Profile, t: Token): Account
    requires p.sub.Some? && p.username.Some?
  {
    Account(p.sub.value, p.username.value, p.idToken, p.expiresAt, StringValue(p.refreshToken), p.refreshExpiresAt,
            OrElse(p.name, t.name), OrElse(p.email, t.email), OrElse(p.image, t.image))
  }

  predicate Complete(p: Profile) {
    StringValue(p.username).Some? && StringValue(p.sub).Some? && Given(p.expiresAt)
  }

  /** A sign-in has an ID token; without one the callback treats the call as a read. */
  predicate IsSignIn(g: Trigger) { g.SignIn? && g.profile.idToken != "" }

  function Gathered(t: Token, g: Trigger): seq<Account>
    requires IsSignIn(g) ==> Complete(g.profile)
  {
    if IsSignIn(g) then
      [NewAccount(g.profile, t)]
      + (if g.previous.Some? then Except(CachedAccounts(g.previous.value), g.profile.sub.value) else [])
    else CachedAccounts(t)
  }

  function Requested(t: Token, g: Trigger): Option<string> {
    if IsSignIn(g) then g.profile.sub
    else if g.Update? && StringValue(g.activeSubject).Some? then g.activeSubject
    else StringValue(t.subject)
  }

  /** The token after the callback, or none when the session ends. */
  function Step(size: nat, t: Token, g: Trigger, provider: Provider, now: int): Option<Token> {
    if IsSignIn(g) && !Complete(g.profile) then None
    else
      var accounts := Compact(size, Gathered(t, g), now);
      var asked := Find(accounts, Requested(t, g));
      var fallBack := asked.None? && g.Update?;
      var selected := if fallBack then Find(accounts, StringValue(t.subject)) else asked;
      if selected.None? then None
      else Activate(t, g, accounts, selected.value, provider, now)
  }

  function Activate(t: Token, g: Trigger, accounts: seq<Account>, selected: Account, provider: Provider, now: int): Option<Token> {
    if !Due(selected, now) then Some(Apply(selected, accounts))
    else
      match Refresh(selected, provider)
      case Some(refreshed) => Some(Apply(refreshed, Replace(accounts, refreshed)))
      case None =>
        if !g.Update? || Some(selected.subject) == t.subject then None
        else
          var others := Except(accounts, selected.subject);
          match Find(others, t.subject)
          case None => None
          case Some(current) =>
            if !Due(current, now) then Some(Apply(current, others))
            else
              match Refresh(current, provider)
              case None => None
              case Some(refreshed) => Some(Apply(refreshed, Replace(others, refreshed)))
  }

  // ---------------------------------------------------------------- the callback

  method CompactAccounts(size: nat, accounts: seq<Account>, now: int) returns (r: seq<Account>)
    ensures r == Compact(size, accounts, now)
  {
    var usable := Filter(accounts, (a: Account) => IsUsable(a, now));
    var subjects: set<string> := {};
    var kept: seq<Account> := [];
    var i := 0;
    while i < |usable|
      invariant i <= |usable|
      invariant kept + FirstOfEach(usable[i..], subjects) == FirstOfEach(usable, {})
    {
      assert usable[i..][0] == usable[i] && usable[i..][1..] == usable[i + 1..];
      if usable[i].subject !in subjects {
        subjects := subjects + {usable[i].subject};
        kept := kept + [usable[i]];
      }
      i := i + 1;
    }
    assert kept == FirstOfEach(usable, {});
    r := if |kept| <= size then kept else kept[..size];
  }

  method Jwt(size: nat, token: Token, trigger: Trigger, provider: Provider, now: int) returns (r: Option<Token>)
    ensures r == Step(size, token, trigger, provider, now)
  {
    hide Compact, CachedAccounts, Find, Except;
    var accounts := CachedAccounts(token);
    var requestedSubject := StringValue(token.subject);
    if IsSignIn(trigger) {
      var p := trigger.profile;
      if StringValue(p.username).None? || StringValue(p.sub).None? || !Given(p.expiresAt) {
        return None;
      }
      accounts := [NewAccount(p, token)]
        + (if trigger.previous.Some? then Except(CachedAccounts(trigger.previous.value), p.sub.value) else []);
      requestedSubject := p.sub;
    } else if trigger.Update? {
      if StringValue(trigger.activeSubject).Some? {
        requestedSubject := trigger.activeSubject;
      }
    }
    accounts := CompactAccounts(size, accounts, now);
    var selected := Find(accounts, requestedSubject);
    if selected.None? && trigger.Update? {
      requestedSubject := StringValue(token.subject);
      selected := Find(accounts, requestedSubject);
    }
    if selected.None? {
      return None;
    }
    if Due(selected.value, now) {
      var refreshed := Refresh(selected.value, provider);
      if refreshed.None? {
        if trigger.Update? && requestedSubject != token.subject {
          accounts := Except(accounts, requestedSubject.value);
          selected := Find(accounts, token.subject);
          if selected.None? {
            return None;
          }
          if Due(selected.value, now) {
            var currentRefreshed := Refresh(selected.value, provider);
            if currentRefreshed.None? {
              return None;
            }
            selected := currentRefreshed;
            accounts := Replace(accounts, currentRefreshed.value);
          }
        } else {
          return None;
        }
      } else {
        selected := refreshed;
        accounts := Replace(accounts, refreshed.value);
      }
    }
    return Some(Apply(selected.value, accounts));
  }
}
