/**
 Where the tokens come from that the manager hands out, how long they live by what their own reply
 said, and that a token which lives is used again.
*/
module TokenManagerLife {
  import opened Results
  import opened SortedStrings
  import opened ScopeCover
  import opened TokenManager
  import opened TokenManagerLaws

  // ---------------------------------------------------------------- what a reply grants

  /** A bound on the life of a token: its `exp` claim, the session's end, the reply's `expires_in`. */
  predicate IsBound(bound: int, r: Response, at: int, s: Session) {
    || (r.exp.Some? && bound == r.exp.value * 1000)
    || bound == s.expiresAt * 1000
    || (r.expiresIn.Some? && bound == at + r.expiresIn.value * 1000)
  }

  /** The entry carries the token and claims of the reply, and lives up to the earliest bound. */
  ghost predicate GrantedFrom(e: Entry, r: Response, at: int, s: Session) {
    && e.token == r.token && e.cachedAt == at
    && StrictlySorted(e.scopes) && Elements(e.scopes) == Elements(r.scopes)
    && StrictlySorted(e.audiences) && Elements(e.audiences) == Elements(r.audiences)
    && IsBound(e.expiresAt, r, at, s)
    && (forall bound :: IsBound(bound, r, at, s) ==> e.expiresAt <= bound)
  }

  /** What the source demands of a reply: a readable token that lives beyond the skew by every bound. */
  ghost predicate Acceptable(r: Response, at: int, s: Session) {
    && r.token != "" && r.decodable && r.scopes != [] && r.audiences != [] && r.exp.Some?
    && (r.scope.Some? ==> ExactlyMatch(SortUnique(r.scopes), SortUnique(r.scope.value)))
    && (r.expiresIn.Some? ==> r.expiresIn.value > 0)
    && forall bound :: IsBound(bound, r, at, s) ==> bound > at + SKEW_MS
  }

  lemma NothingSorted(s: seq<string>)
    ensures SortUnique(s) == [] <==> s == []
  {
    SortUniqueSorts(s);
    if s != [] {
      assert s[0] in Elements(s);
    }
  }

  lemma ThreeBounds(r: Response, at: int, s: Session)
    requires r.exp.Some?
    ensures IsBound(r.exp.value * 1000, r, at, s) && IsBound(s.expiresAt * 1000, r, at, s)
    ensures r.expiresIn.Some? ==> IsBound(at + r.expiresIn.value * 1000, r, at, s)
  {
  }

  /** A reply is accepted exactly when it is acceptable, and then as the one entry granted from it. */
  lemma GrantIff(r: Response, at: int, s: Session, e: Entry)
    ensures Grant(r, at, s.expiresAt) == Success(e) <==> Acceptable(r, at, s) && GrantedFrom(e, r, at, s)
  {
    hide SortUnique, ExactlyMatch, StrictlySorted, Elements;
    NothingSorted(r.scopes);
    NothingSorted(r.audiences);
    SortUniqueSorts(r.scopes);
    SortUniqueSorts(r.audiences);
    if r.exp.Some? {
      ThreeBounds(r, at, s);
    }
    if Acceptable(r, at, s) && GrantedFrom(e, r, at, s) {
      SortedIsCanonical(e.scopes, SortUnique(r.scopes));
      SortedIsCanonical(e.audiences, SortUnique(r.audiences));
    }
  }

  lemma RefusalsOfAReply(r: Response, at: int, s: Session)
    ensures Grant(r, at, s.expiresAt).Failure? ==> Grant(r, at, s.expiresAt).error != InsufficientScope
    ensures Grant(r, at, s.expiresAt).Success? <==> Acceptable(r, at, s)
    ensures Grant(r, at, s.expiresAt) in {Failure(InvalidLifetime), Failure(TooCloseToExpiry)} ==>
              (Grant(r, at, s.expiresAt) == Failure(InvalidLifetime) <==> r.expiresIn.Some? && r.expiresIn.value <= 0)
  {
    hide SortUnique, ExactlyMatch;
    NothingSorted(r.scopes);
    NothingSorted(r.audiences);
    if r.exp.Some? {
      ThreeBounds(r, at, s);
    }
  }

  // ---------------------------------------------------------------- what a reply does to its issuance

  /** The reply grants the entry to the issuance. */
  ghost predicate GrantedBy(st: State, id: nat, reply: Option<Response>, at: int, e: Entry) {
    && id in st.issuances && reply.Some?
    && Acceptable(reply.value, at, st.issuances[id].key.session)
    && GrantedFrom(e, reply.value, at, st.issuances[id].key.session)
  }

  /**
   An issuance is given a token exactly when the reply grants one with the audience and scopes it asked for, and
   told that its scopes are insufficient exactly when only those differ.
  */
  lemma TokenReplyAnswersIff(st: State, id: nat, reply: Option<Response>, now: int, e: Entry)
    requires id in st.issuances && st.issuances[id].phase.AwaitToken?
    ensures var key := st.issuances[id].key;
            TokenReply(st, id, reply, now).issuances[id].phase == Done(Success(e)) <==>
            GrantedBy(st, id, reply, now, e) && e.audiences == [key.audience] && ExactlyMatch(e.scopes, key.scopes)
    ensures var key := st.issuances[id].key;
            GrantedBy(st, id, reply, now, e) && e.audiences == [key.audience] ==>
              (TokenReply(st, id, reply, now).issuances[id].phase == Done(Failure(InsufficientScope)) <==>
               !ExactlyMatch(e.scopes, key.scopes))
    ensures TokenReply(st, id, reply, now).issuances[id].phase == Done(Failure(InsufficientScope)) ==>
              exists x :: GrantedBy(st, id, reply, now, x) && x.audiences == [st.issuances[id].key.audience]
  {
    hide Grant, Acceptable, GrantedFrom, ExactlyMatch, Put;
    var key := st.issuances[id].key;
    if reply.Some? {
      GrantIff(reply.value, now, key.session, e);
      RefusalsOfAReply(reply.value, now, key.session);
      if Grant(reply.value, now, key.session.expiresAt).Success? {
        GrantIff(reply.value, now, key.session, Grant(reply.value, now, key.session.expiresAt).value);
      }
    }
  }

  /**
   An issuance goes on to ask for a token exactly when the reply grants an ID-JAG for the server that covers it, and
   is told that its scopes are insufficient exactly when only those are not covered.
  */
  lemma IdJagReplyGoesOnIff(st: State, zts: string, id: nat, reply: Option<Response>, now: int)
    requires id in st.issuances && st.issuances[id].phase.AwaitIdJag?
    ensures IdJagReply(st, zts, id, reply, now).issuances[id].phase == AwaitToken <==>
            exists e :: GrantedBy(st, id, reply, now, e) && zts in e.audiences && Cover(e.scopes, st.issuances[id].key.scopes)
    ensures IdJagReply(st, zts, id, reply, now).issuances[id].phase == Done(Failure(InsufficientScope)) <==>
            exists e :: GrantedBy(st, id, reply, now, e) && zts in e.audiences && !Cover(e.scopes, st.issuances[id].key.scopes)
  {
    hide Grant, Acceptable, GrantedFrom, Cover, Put;
    var key := st.issuances[id].key;
    if reply.Some? {
      RefusalsOfAReply(reply.value, now, key.session);
      forall e ensures Grant(reply.value, now, key.session.expiresAt) == Success(e) <==> GrantedBy(st, id, reply, now, e) {
        GrantIff(reply.value, now, key.session, e);
      }
    }
  }

  // ---------------------------------------------------------------- where cached entries come from

  lemma {:induction false} PutIsMember(cache: seq<Entry>, x: Entry, e: Entry)
    ensures e in Put(cache, x) ==> e == x || e in cache
    ensures e in cache && !SameKey(e, x) ==> e in Put(cache, x)
    ensures x in Put(cache, x)
  {
    if cache != [] && !SameKey(cache[0], x) {
      PutIsMember(cache[1..], x, e);
    }
  }

  lemma AskAddsNothing(st: State, zts: string, ev: Event, s: Session, e: Entry)
    requires ev.Ask?
    ensures e in CacheOf(Next(st, zts, ev).tokens, s) ==> e in CacheOf(st.tokens, s)
    ensures e in CacheOf(Next(st, zts, ev).idJags, s) ==> e in CacheOf(st.idJags, s)
  {
    hide FindToken, Live, BestIdJag, SortUnique, SelectAudience;
    var audience := SelectAudience(ev.raw, ev.configured);
    if audience.Success? {
      FindTokenIsRight(CacheOf(st.tokens, ev.session), audience.value, SortUnique(ev.raw), ev.now);
      LiveIsRight(CacheOf(st.idJags, ev.session), ev.now);
    }
  }

  /** The event brings an access token, or an ID-JAG, for the session. */
  ghost predicate BringsToken(st: State, ev: Event, s: Session, e: Entry) {
    && ev.TokenArrives? && GrantedBy(st, ev.id, ev.reply, ev.now, e)
    && st.issuances[ev.id].key.session == s && e.audiences == [st.issuances[ev.id].key.audience]
  }

  ghost predicate BringsIdJag(st: State, zts: string, ev: Event, s: Session, e: Entry) {
    && ev.IdJagArrives? && GrantedBy(st, ev.id, ev.reply, ev.now, e)
    && st.issuances[ev.id].key.session == s && zts in e.audiences
  }

  /** A new cache entry is one that the event brought, and whatever it brings is cached. */
  lemma NewEntriesAreBrought(st: State, zts: string, ev: Event, s: Session, e: Entry)
    requires Enabled(st, ev)
    ensures e in CacheOf(Next(st, zts, ev).tokens, s) ==> e in CacheOf(st.tokens, s) || BringsToken(st, ev, s, e)
    ensures e in CacheOf(Next(st, zts, ev).idJags, s) ==> e in CacheOf(st.idJags, s) || BringsIdJag(st, zts, ev, s, e)
    ensures BringsToken(st, ev, s, e) ==> e in CacheOf(Next(st, zts, ev).tokens, s)
    ensures BringsIdJag(st, zts, ev, s, e) ==> e in CacheOf(Next(st, zts, ev).idJags, s)
  {
    hide Get, IdJagReply, TokenReply;
    match ev {
      case Ask(_, _, _, _) => AskAddsNothing(st, zts, ev, s, e);
      case IdJagArrives(id, reply, now) => NewIdJag(st, zts, id, reply, now, s, e);
      case TokenArrives(id, reply, now) => NewToken(st, zts, id, reply, now, s, e);
      case Settles(_) =>
    }
  }

  lemma NewToken(st: State, zts: string, id: nat, reply: Option<Response>, now: int, s: Session, e: Entry)
    requires id in st.issuances && st.issuances[id].phase.AwaitToken?
    ensures var next, ev := TokenReply(st, id, reply, now), TokenArrives(id, reply, now);
            && next.idJags == st.idJags
            && (e in CacheOf(next.tokens, s) ==> e in CacheOf(st.tokens, s) || BringsToken(st, ev, s, e))
            && (BringsToken(st, ev, s, e) ==> e in CacheOf(next.tokens, s))
  {
    hide Grant, Acceptable, GrantedFrom, ExactlyMatch, Put, CacheOf;
    var key := st.issuances[id].key;
    if reply.Some? {
      GrantIff(reply.value, now, key.session, e);
      if Grant(reply.value, now, key.session.expiresAt).Success? {
        var x := Grant(reply.value, now, key.session.expiresAt).value;
        GrantIff(reply.value, now, key.session, x);
        PutInto(st.tokens, key.session, x, s, e);
      }
    }
  }

  lemma NewIdJag(st: State, zts: string, id: nat, reply: Option<Response>, now: int, s: Session, e: Entry)
    requires id in st.issuances && st.issuances[id].phase.AwaitIdJag?
    ensures var next, ev := IdJagReply(st, zts, id, reply, now), IdJagArrives(id, reply, now);
            && next.tokens == st.tokens
            && (e in CacheOf(next.idJags, s) ==> e in CacheOf(st.idJags, s) || BringsIdJag(st, zts, ev, s, e))
            && (BringsIdJag(st, zts, ev, s, e) ==> e in CacheOf(next.idJags, s))
  {
    hide Grant, Acceptable, GrantedFrom, Cover, Put, CacheOf;
    var key := st.issuances[id].key;
    if reply.Some? {
      GrantIff(reply.value, now, key.session, e);
      if Grant(reply.value, now, key.session.expiresAt).Success? {
        var x := Grant(reply.value, now, key.session.expiresAt).value;
        GrantIff(reply.value, now, key.session, x);
        PutInto(st.idJags, key.session, x, s, e);
      }
    }
  }

  lemma PutInto(m: map<Session, seq<Entry>>, at: Session, x: Entry, s: Session, e: Entry)
    ensures var m' := m[at := Put(CacheOf(m, at), x)];
            && (e in CacheOf(m', s) ==> e in CacheOf(m, s) || (at == s && e == x))
            && (at == s && e == x ==> e in CacheOf(m', s))
            && (e in CacheOf(m, s) && (at == s ==> !SameKey(e, x)) ==> e in CacheOf(m', s))
  {
    PutIsMember(CacheOf(m, at), x, e);
  }

  /** Every cached access token was brought, for its session, by an earlier event of the run. */
  lemma {:induction false} CachedTokensWereBrought(zts: string, events: seq<Event>, states: seq<State>, n: nat, s: Session, e: Entry)
    returns (i: nat)
    requires Run(zts, events, states) && n <= |events| && e in CacheOf(states[n].tokens, s)
    ensures i < n && BringsToken(states[i], events[i], s, e)
  {
    hide Next, BringsToken, BringsIdJag, CacheOf, Enabled;
    if n == 0 {
      NothingCached(s);
    } else {
      NewEntriesAreBrought(states[n - 1], zts, events[n - 1], s, e);
      if e in CacheOf(states[n - 1].tokens, s) {
        i := CachedTokensWereBrought(zts, events, states, n - 1, s, e);
      } else {
        i := n - 1;
      }
    }
  }

  /** And so was every cached ID-JAG. */
  lemma {:induction false} CachedIdJagsWereBrought(zts: string, events: seq<Event>, states: seq<State>, n: nat, s: Session, e: Entry)
    returns (i: nat)
    requires Run(zts, events, states) && n <= |events| && e in CacheOf(states[n].idJags, s)
    ensures i < n && BringsIdJag(states[i], zts, events[i], s, e)
  {
    hide Next, BringsToken, BringsIdJag, CacheOf, Enabled;
    if n == 0 {
      NothingCached(s);
    } else {
      NewEntriesAreBrought(states[n - 1], zts, events[n - 1], s, e);
      if e in CacheOf(states[n - 1].idJags, s) {
        i := CachedIdJagsWereBrought(zts, events, states, n - 1, s, e);
      } else {
        i := n - 1;
      }
    }
  }

  lemma NothingCached(s: Session)
    ensures CacheOf(START.tokens, s) == [] && CacheOf(START.idJags, s) == []
  {
  }

  // ---------------------------------------------------------------- what is handed out

  /** By its own reply, by its own claims and by the session, the token outlives the instant by more than the skew. */
  predicate OutlivesSkew(reply: Response, arrived: int, s: Session, now: int) {
    && reply.exp.Some? && reply.exp.value * 1000 > now + SKEW_MS
    && (reply.expiresIn.Some? ==> arrived + reply.expiresIn.value * 1000 > now + SKEW_MS)
    && s.expiresAt * 1000 > now + SKEW_MS
  }

  lemma LiveEntryOutlives(e: Entry, r: Response, at: int, s: Session, now: int)
    requires Acceptable(r, at, s) && GrantedFrom(e, r, at, s) && !Expired(e, now)
    ensures OutlivesSkew(r, at, s, now)
  {
    ThreeBounds(r, at, s);
  }

  /**
   A call answered from the cache gets the token of an earlier reply, which was for exactly the selected
   audience and the requested scopes, and which by that reply lives for more than the skew from now on.
  */
  lemma HitCameFromALivingReply(zts: string, events: seq<Event>, states: seq<State>, n: nat, e: Entry) returns (i: nat)
    requires Run(zts, events, states) && n < |events| && events[n].Ask?
    requires Get(states[n], zts, events[n].session, events[n].raw, events[n].configured, events[n].now).1 == Cached(e)
    ensures i < n && events[i].TokenArrives? && events[i].reply.Some? && events[i].reply.value.token == e.token
    ensures var r := events[i].reply.value;
            && OutlivesSkew(r, events[i].now, events[n].session, events[n].now)
            && SelectAudience(events[n].raw, events[n].configured).Success?
            && Elements(r.audiences) == {SelectAudience(events[n].raw, events[n].configured).value}
            && ExactlyMatch(SortUnique(r.scopes), SortUnique(events[n].raw))
  {
    hide Next, SortUnique, SelectAudience, ExactlyMatch, Acceptable;
    var ask := events[n];
    var audience := SelectAudience(ask.raw, ask.configured).value;
    FindTokenIsRight(CacheOf(states[n].tokens, ask.session), audience, SortUnique(ask.raw), ask.now);
    i := CachedTokensWereBrought(zts, events, states, n, ask.session, e);
    var r := events[i].reply.value;
    LiveEntryOutlives(e, r, events[i].now, ask.session, ask.now);
    SortUniqueSorts(r.scopes);
    SortedIsCanonical(e.scopes, SortUnique(r.scopes));
  }

  /**
   A call that starts an issuance without asking for an ID-JAG has one from an earlier reply that names
   the server, covers the requested scopes and by that reply lives for more than the skew from now on.
  */
  lemma ReusedIdJagCameFromALivingReply(zts: string, events: seq<Event>, states: seq<State>, n: nat, id: nat) returns (i: nat)
    requires Run(zts, events, states) && n < |events| && events[n].Ask?
    requires Get(states[n], zts, events[n].session, events[n].raw, events[n].configured, events[n].now).1 == Started(id)
    requires states[n + 1].issuances[id].phase.AwaitToken?
    ensures i < n && events[i].IdJagArrives? && events[i].reply.Some?
    ensures var r := events[i].reply.value;
            && OutlivesSkew(r, events[i].now, events[n].session, events[n].now)
            && zts in r.audiences && Cover(SortUnique(r.scopes), SortUnique(events[n].raw))
            && BestIdJag(Live(CacheOf(states[n].idJags, events[n].session), events[n].now), zts, SortUnique(events[n].raw)).Some?
            && r.token == BestIdJag(Live(CacheOf(states[n].idJags, events[n].session), events[n].now), zts, SortUnique(events[n].raw)).value.token
  {
    hide SortUnique, SelectAudience, Cover, Acceptable, FindToken, Live, BestIdJag;
    var ask := events[n];
    var cache := CacheOf(states[n].idJags, ask.session);
    var live := Live(cache, ask.now);
    LiveIsRight(cache, ask.now);
    BestIdJagIsShortest(live, zts, SortUnique(ask.raw));
    assert states[n + 1] == Next(states[n], zts, ask);
    var e := BestIdJag(live, zts, SortUnique(ask.raw)).value;
    i := CachedIdJagsWereBrought(zts, events, states, n, ask.session, e);
    var r := events[i].reply.value;
    LiveEntryOutlives(e, r, events[i].now, ask.session, ask.now);
    SortUniqueSorts(r.scopes);
    SortedIsCanonical(e.scopes, SortUnique(r.scopes));
    assert zts in Elements(e.audiences);
  }

  lemma AskFinishesNothing(st: State, zts: string, ev: Event, id: nat, e: Entry)
    requires ev.Ask? && id in Next(st, zts, ev).issuances && Next(st, zts, ev).issuances[id].phase == Done(Success(e))
    ensures id in st.issuances && st.issuances[id] == Next(st, zts, ev).issuances[id]
  {
    hide FindToken, Live, BestIdJag, SortUnique, SelectAudience;
  }

  /** An issuance is finished with a token only by the reply that grants it. */
  lemma FinishedByItsReply(st: State, zts: string, ev: Event, id: nat, e: Entry)
    requires Enabled(st, ev)
    requires id in Next(st, zts, ev).issuances && Next(st, zts, ev).issuances[id].phase == Done(Success(e))
    ensures || (id in st.issuances && st.issuances[id].phase == Done(Success(e)))
            || (ev.TokenArrives? && ev.id == id && GrantedBy(st, id, ev.reply, ev.now, e))
  {
    hide Get, Grant, Put, CacheOf, ExactlyMatch, Cover, Acceptable, GrantedFrom;
    match ev {
      case Ask(_, _, _, _) => AskFinishesNothing(st, zts, ev, id, e);
      case IdJagArrives(_, _, _) =>
      case TokenArrives(at, reply, now) =>
        if at == id {
          TokenReplyAnswersIff(st, id, reply, now, e);
        }
      case Settles(_) =>
    }
  }

  /** The token of a finished issuance is that of its own reply, and outlived the skew when it arrived. */
  lemma {:induction false} OutcomeCameFromItsReply(zts: string, events: seq<Event>, states: seq<State>, n: nat, id: nat, e: Entry)
    returns (i: nat)
    requires Run(zts, events, states) && n <= |events|
    requires id in states[n].issuances && states[n].issuances[id].phase == Done(Success(e))
    ensures i < n && events[i].TokenArrives? && events[i].id == id && events[i].reply.Some?
    ensures id in states[i].issuances && events[i].reply.value.token == e.token
    ensures OutlivesSkew(events[i].reply.value, events[i].now, states[i].issuances[id].key.session, events[i].now)
  {
    hide Next, Acceptable, Enabled;
    FinishedByItsReply(states[n - 1], zts, events[n - 1], id, e);
    if id in states[n - 1].issuances && states[n - 1].issuances[id].phase == Done(Success(e)) {
      i := OutcomeCameFromItsReply(zts, events, states, n - 1, id, e);
    } else {
      i := n - 1;
      AcceptedOutlives(e, events[i].reply.value, events[i].now, states[i].issuances[id].key.session);
    }
  }

  lemma AcceptedOutlives(e: Entry, r: Response, at: int, s: Session)
    requires Acceptable(r, at, s) && GrantedFrom(e, r, at, s)
    ensures OutlivesSkew(r, at, s, at)
  {
    ThreeBounds(r, at, s);
  }

  // ---------------------------------------------------------------- a living token is used again

  /** The event neither looks at the entry after its life nor brings another one in its place. */
  ghost predicate SparesToken(st: State, ev: Event, s: Session, e: Entry) {
    && (ev.Ask? && ev.session == s ==> !Expired(e, ev.now))
    && (forall x :: BringsToken(st, ev, s, x) ==> e.audiences != x.audiences || e.scopes != x.scopes)
  }

  ghost predicate SparesIdJag(st: State, zts: string, ev: Event, s: Session, e: Entry) {
    && (ev.Ask? && ev.session == s ==> !Expired(e, ev.now))
    && (forall x :: BringsIdJag(st, zts, ev, s, x) ==> e.audiences != x.audiences || e.scopes != x.scopes)
  }

  lemma AskSpares(st: State, zts: string, ev: Event, s: Session, e: Entry)
    requires ev.Ask? && (ev.session == s ==> !Expired(e, ev.now))
    ensures e in CacheOf(st.tokens, s) ==> e in CacheOf(Next(st, zts, ev).tokens, s)
    ensures e in CacheOf(st.idJags, s) ==> e in CacheOf(Next(st, zts, ev).idJags, s)
  {
    hide FindToken, Live, BestIdJag, SortUnique, SelectAudience;
    var audience := SelectAudience(ev.raw, ev.configured);
    if audience.Success? {
      FindTokenIsRight(CacheOf(st.tokens, ev.session), audience.value, SortUnique(ev.raw), ev.now);
      LiveIsRight(CacheOf(st.idJags, ev.session), ev.now);
    }
  }

  lemma TokenReplySpares(st: State, id: nat, reply: Option<Response>, now: int, s: Session, e: Entry)
    requires id in st.issuances && st.issuances[id].phase.AwaitToken?
    requires forall x :: BringsToken(st, TokenArrives(id, reply, now), s, x) ==> e.audiences != x.audiences || e.scopes != x.scopes
    requires e in CacheOf(st.tokens, s)
    ensures e in CacheOf(TokenReply(st, id, reply, now).tokens, s)
  {
    hide Grant, Acceptable, GrantedFrom, ExactlyMatch, Put, CacheOf;
    var key := st.issuances[id].key;
    if reply.Some? && Grant(reply.value, now, key.session.expiresAt).Success? {
      var x := Grant(reply.value, now, key.session.expiresAt).value;
      GrantIff(reply.value, now, key.session, x);
      assert x.audiences == [key.audience] && key.session == s ==> BringsToken(st, TokenArrives(id, reply, now), s, x);
      PutInto(st.tokens, key.session, x, s, e);
    }
  }

  lemma IdJagReplySpares(st: State, zts: string, id: nat, reply: Option<Response>, now: int, s: Session, e: Entry)
    requires id in st.issuances && st.issuances[id].phase.AwaitIdJag?
    requires forall x :: BringsIdJag(st, zts, IdJagArrives(id, reply, now), s, x) ==> e.audiences != x.audiences || e.scopes != x.scopes
    requires e in CacheOf(st.idJags, s)
    ensures e in CacheOf(IdJagReply(st, zts, id, reply, now).idJags, s)
  {
    hide Grant, Acceptable, GrantedFrom, Cover, Put, CacheOf;
    var key := st.issuances[id].key;
    if reply.Some? && Grant(reply.value, now, key.session.expiresAt).Success? {
      var x := Grant(reply.value, now, key.session.expiresAt).value;
      GrantIff(reply.value, now, key.session, x);
      assert zts in x.audiences && key.session == s ==> BringsIdJag(st, zts, IdJagArrives(id, reply, now), s, x);
      PutInto(st.idJags, key.session, x, s, e);
    }
  }

  lemma StepSpares(st: State, zts: string, ev: Event, s: Session, e: Entry)
    requires Enabled(st, ev)
    ensures SparesToken(st, ev, s, e) && e in CacheOf(st.tokens, s) ==> e in CacheOf(Next(st, zts, ev).tokens, s)
    ensures SparesIdJag(st, zts, ev, s, e) && e in CacheOf(st.idJags, s) ==> e in CacheOf(Next(st, zts, ev).idJags, s)
  {
    hide Get, TokenReply, IdJagReply, BringsToken, BringsIdJag, CacheOf;
    match ev {
      case Ask(_, _, _, _) =>
        if ev.session == s ==> !Expired(e, ev.now) {
          AskSpares(st, zts, ev, s, e);
        }
      case TokenArrives(id, reply, now) =>
        NewToken(st, zts, id, reply, now, s, e);
        if SparesToken(st, ev, s, e) && e in CacheOf(st.tokens, s) {
          TokenReplySpares(st, id, reply, now, s, e);
        }
      case IdJagArrives(id, reply, now) =>
        NewIdJag(st, zts, id, reply, now, s, e);
        if SparesIdJag(st, zts, ev, s, e) && e in CacheOf(st.idJags, s) {
          IdJagReplySpares(st, zts, id, reply, now, s, e);
        }
      case Settles(_) =>
    }
  }

  lemma {:induction false} TokenStaysCached(zts: string, events: seq<Event>, states: seq<State>, i: nat, n: nat, s: Session, e: Entry)
    requires Run(zts, events, states) && i < n <= |events| && BringsToken(states[i], events[i], s, e)
    requires forall k :: i < k < n ==> SparesToken(states[k], events[k], s, e)
    ensures e in CacheOf(states[n].tokens, s)
  {
    hide Next, Enabled, BringsToken, BringsIdJag, CacheOf, SparesToken;
    if n == i + 1 {
      NewEntriesAreBrought(states[i], zts, events[i], s, e);
    } else {
      TokenStaysCached(zts, events, states, i, n - 1, s, e);
      StepSpares(states[n - 1], zts, events[n - 1], s, e);
    }
  }

  lemma {:induction false} IdJagStaysCached(zts: string, events: seq<Event>, states: seq<State>, i: nat, n: nat, s: Session, e: Entry)
    requires Run(zts, events, states) && i < n <= |events| && BringsIdJag(states[i], zts, events[i], s, e)
    requires forall k :: i < k < n ==> SparesIdJag(states[k], zts, events[k], s, e)
    ensures e in CacheOf(states[n].idJags, s)
  {
    hide Next, Enabled, BringsToken, BringsIdJag, CacheOf, SparesIdJag;
    if n == i + 1 {
      NewEntriesAreBrought(states[i], zts, events[i], s, e);
    } else {
      IdJagStaysCached(zts, events, states, i, n - 1, s, e);
      StepSpares(states[n - 1], zts, events[n - 1], s, e);
    }
  }

  /**
   From the moment a token is brought, a call for its audience and scopes is answered from the cache
   as long as it lives beyond the skew, unless a later reply brought another for the same scopes.
  */
  lemma LivingTokenIsReused(zts: string, events: seq<Event>, states: seq<State>, i: nat, n: nat, ask: Event, e: Entry)
    requires ask.Ask?
    requires Run(zts, events, states) && i < n <= |events| && BringsToken(states[i], events[i], ask.session, e)
    requires forall k :: i < k < n ==> SparesToken(states[k], events[k], ask.session, e)
    requires !Expired(e, ask.now)
    requires SelectAudience(ask.raw, ask.configured) == Success(e.audiences[0]) && ExactlyMatch(e.scopes, SortUnique(ask.raw))
    ensures Get(states[n], zts, ask.session, ask.raw, ask.configured, ask.now).1.Cached?
  {
    hide Next, SortUnique, SelectAudience, ExactlyMatch, Acceptable, GrantedFrom, FindToken;
    TokenStaysCached(zts, events, states, i, n, ask.session, e);
    FindTokenIsRight(CacheOf(states[n].tokens, ask.session), e.audiences[0], SortUnique(ask.raw), ask.now);
  }

  /** And no call that a living ID-JAG covers asks the identity provider for another, or for a new sign-in. */
  lemma LivingIdJagIsReused(zts: string, events: seq<Event>, states: seq<State>, i: nat, n: nat, ask: Event, e: Entry, id: nat)
    requires ask.Ask?
    requires Run(zts, events, states) && i < n <= |events| && BringsIdJag(states[i], zts, events[i], ask.session, e)
    requires forall k :: i < k < n ==> SparesIdJag(states[k], zts, events[k], ask.session, e)
    requires !Expired(e, ask.now) && Cover(e.scopes, SortUnique(ask.raw))
    requires Get(states[n], zts, ask.session, ask.raw, ask.configured, ask.now).1 == Started(id)
    ensures Next(states[n], zts, ask).issuances[id].phase == AwaitToken
  {
    hide SortUnique, SelectAudience, Cover, Acceptable, GrantedFrom, FindToken, Live, BestIdJag;
    IdJagStaysCached(zts, events, states, i, n, ask.session, e);
    LiveIsRight(CacheOf(states[n].idJags, ask.session), ask.now);
    BestIdJagIsShortest(Live(CacheOf(states[n].idJags, ask.session), ask.now), zts, SortUnique(ask.raw));
  }

  /** Without one, a call asks for an ID-JAG exactly when the identity token outlives the skew, and for a sign-in otherwise. */
  lemma StartsByTheIdentityToken(st: State, zts: string, ask: Event, id: nat)
    requires ask.Ask? && Get(st, zts, ask.session, ask.raw, ask.configured, ask.now).1 == Started(id)
    requires forall e :: e in CacheOf(st.idJags, ask.session) && zts in e.audiences && Cover(e.scopes, SortUnique(ask.raw)) ==> Expired(e, ask.now)
    ensures Next(st, zts, ask).issuances[id].phase ==
              if ask.session.idTokenExpiresAt * 1000 > ask.now + SKEW_MS then AwaitIdJag else Done(Failure(Reauthenticate))
  {
    hide SortUnique, SelectAudience, Cover, FindToken, Live, BestIdJag;
    LiveIsRight(CacheOf(st.idJags, ask.session), ask.now);
    BestIdJagIsShortest(Live(CacheOf(st.idJags, ask.session), ask.now), zts, SortUnique(ask.raw));
  }
}
