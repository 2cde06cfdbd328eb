/** What the token manager keeps over every interleaving of calls, replies and clean-ups. */
module TokenManagerLaws {
  import opened Results
  import opened SortedStrings
  import opened ScopeCover
  import Texts
  import opened TokenManager

  datatype Event =
    | Ask(session: Session, raw: seq<string>, configured: Option<string>, now: int)
    | IdJagArrives(id: nat, reply: Option<Response>, now: int)
    | TokenArrives(id: nat, reply: Option<Response>, now: int)
    | Settles(id: nat)

  predicate Enabled(st: State, e: Event) {
    match e
    case Ask(_, _, _, _) => true
    case IdJagArrives(id, _, _) => id in st.issuances && st.issuances[id].phase.AwaitIdJag?
    case TokenArrives(id, _, _) => id in st.issuances && st.issuances[id].phase.AwaitToken?
    case Settles(id) => id in st.issuances && st.issuances[id].phase.Done? && !st.issuances[id].cleaned
  }

  function Next(st: State, zts: string, e: Event): State
    requires Enabled(st, e)
  {
    match e
    case Ask(s, raw, configured, now) => Get(st, zts, s, raw, configured, now).0
    case IdJagArrives(id, reply, now) => IdJagReply(st, zts, id, reply, now)
    case TokenArrives(id, reply, now) => TokenReply(st, id, reply, now)
    case Settles(id) => Cleanup(st, id)
  }

  const START := State(map[], map[], map[], map[], 0)

  predicate Run(zts: string, events: seq<Event>, states: seq<State>) {
    && |states| == |events| + 1
    && states[0] == START
    && forall i :: 0 <= i < |events| ==>
         Enabled(states[i], events[i]) && states[i + 1] == Next(states[i], zts, events[i])
  }

  // ---------------------------------------------------------------- caches

  /** Granted with more than the skew to live, and not beyond its session. */
  predicate Sound(e: Entry, s: Session) {
    e.cachedAt + SKEW_MS < e.expiresAt <= s.expiresAt * 1000
  }

  predicate AllSound(cache: seq<Entry>, s: Session) { forall e :: e in cache ==> Sound(e, s) }

  predicate DistinctKeys(cache: seq<Entry>) {
    forall i, j :: 0 <= i < j < |cache| ==> cache[i].audiences != cache[j].audiences || cache[i].scopes != cache[j].scopes
  }

  lemma GrantIsSound(r: Response, now: int, s: Session)
    requires Grant(r, now, s.expiresAt).Success?
    ensures var e := Grant(r, now, s.expiresAt).value;
            && Sound(e, s) && e.cachedAt == now && e.token == r.token
            && StrictlySorted(e.scopes) && Elements(e.scopes) == Elements(r.scopes)
  {
    SortUniqueSorts(r.scopes);
  }

  lemma {:induction false} PutKeeps(cache: seq<Entry>, e: Entry)
    requires DistinctKeys(cache)
    ensures DistinctKeys(Put(cache, e)) && e in Put(cache, e)
    ensures forall x :: x in Put(cache, e) ==> x == e || x in cache
    ensures forall x :: x in cache && !SameKey(x, e) ==> x in Put(cache, e)
  {
    if cache != [] && !SameKey(cache[0], e) {
      PutKeeps(cache[1..], e);
      var rest := Put(cache[1..], e);
      assert cache == [cache[0]] + cache[1..];
      forall i | 0 <= i < |rest|
        ensures !SameKey(cache[0], rest[i])
      {
        if rest[i] != e {
          assert rest[i] in cache[1..];
        }
      }
    }
  }

  /** A lookup returns a live answer if there is one, and only removes expired entries. */
  lemma {:induction false} FindTokenIsRight(cache: seq<Entry>, audience: string, scopes: seq<string>, now: int)
    ensures var r := FindToken(cache, audience, scopes, now);
            && (r.0.Some? ==> r.0.value in cache && Answers(r.0.value, audience, scopes) && !Expired(r.0.value, now))
            && (r.0.None? ==> forall e :: e in cache && Answers(e, audience, scopes) ==> Expired(e, now))
            && (forall e :: e in r.1 ==> e in cache)
            && (forall e :: e in cache && !Expired(e, now) ==> e in r.1)
  {
    hide Answers;
    if cache != [] {
      FindTokenIsRight(cache[1..], audience, scopes, now);
      assert cache == [cache[0]] + cache[1..];
    }
  }

  lemma {:induction false} FindTokenKeepsDistinct(cache: seq<Entry>, audience: string, scopes: seq<string>, now: int)
    requires DistinctKeys(cache)
    ensures DistinctKeys(FindToken(cache, audience, scopes, now).1)
  {
    hide Answers;
    if cache != [] {
      FindTokenKeepsDistinct(cache[1..], audience, scopes, now);
      FindTokenIsRight(cache[1..], audience, scopes, now);
      var rest := FindToken(cache[1..], audience, scopes, now).1;
      forall i | 0 <= i < |rest|
        ensures !SameKey(cache[0], rest[i])
      {
        assert rest[i] in cache[1..];
      }
    }
  }

  lemma {:induction false} LiveIsRight(cache: seq<Entry>, now: int)
    ensures forall e :: e in Live(cache, now) <==> e in cache && !Expired(e, now)
    ensures DistinctKeys(cache) ==> DistinctKeys(Live(cache, now))
  {
    if cache != [] {
      var n := |cache| - 1;
      LiveIsRight(cache[..n], now);
      assert cache == cache[..n] + [cache[n]];
      var live := Live(cache[..n], now);
      if DistinctKeys(cache) {
        assert DistinctKeys(cache[..n]);
        forall i | 0 <= i < |live|
          ensures !SameKey(live[i], cache[n])
        {
          assert live[i] in cache[..n];
        }
      }
    }
  }

  /** A reused ID-JAG covers the request, and no usable one has a shorter scope list. */
  lemma {:induction false} BestIdJagIsShortest(live: seq<Entry>, zts: string, scopes: seq<string>)
    ensures var best := BestIdJag(live, zts, scopes);
            && (best.None? <==> forall e :: e in live ==> !Grants(e, zts, scopes))
            && (best.Some? ==> best.value in live && Grants(best.value, zts, scopes)
                               && forall e :: e in live && Grants(e, zts, scopes) ==> |best.value.scopes| <= |e.scopes|)
  {
    hide Grants;
    if live != [] {
      var n := |live| - 1;
      BestIdJagIsShortest(live[..n], zts, scopes);
      assert live == live[..n] + [live[n]];
    }
  }

  // ---------------------------------------------------------------- the invariant

  predicate CachesSound(m: map<Session, seq<Entry>>) {
    forall s :: s in m ==> AllSound(m[s], s) && DistinctKeys(m[s])
  }

  /** The requests in flight and the unfinished issuances correspond one to one. */
  predicate SingleFlight(st: State) {
    && (forall k :: k in st.inFlight ==>
          && st.inFlight[k] in st.issuances
          && st.issuances[st.inFlight[k]].key == k && !st.issuances[st.inFlight[k]].cleaned)
    && (forall id :: id in st.issuances ==>
          && id < st.nextId
          && (!st.issuances[id].cleaned ==>
                st.issuances[id].key in st.inFlight && st.inFlight[st.issuances[id].key] == id)
          && (st.issuances[id].cleaned ==> st.issuances[id].phase.Done?))
  }

  /** A token that is handed out answers its request and was granted with life beyond the skew. */
  predicate OutcomeAnswers(i: Issuance) {
    i.phase.Done? && i.phase.outcome.Success? ==>
      var e := i.phase.outcome.value;
      Answers(e, i.key.audience, i.key.scopes) && Sound(e, i.key.session)
  }

  predicate Inv(st: State) {
    && CachesSound(st.tokens)
    && CachesSound(st.idJags)
    && SingleFlight(st)
    && forall id :: id in st.issuances ==> OutcomeAnswers(st.issuances[id])
  }

  lemma CachePutSound(m: map<Session, seq<Entry>>, s: Session, e: Entry)
    requires CachesSound(m) && Sound(e, s)
    ensures CachesSound(m[s := Put(CacheOf(m, s), e)])
  {
    PutKeeps(CacheOf(m, s), e);
  }

  lemma FailureAnswers(i: Issuance)
    ensures (i.phase.Done? && i.phase.outcome.Success?) || OutcomeAnswers(i)
  {
  }

  lemma SweepKeepsCaches(m: map<Session, seq<Entry>>, s: Session, cache: seq<Entry>)
    requires CachesSound(m)
    requires forall e :: e in cache ==> e in CacheOf(m, s)
    requires DistinctKeys(cache)
    ensures CachesSound(if s in m then m[s := cache] else m)
  {
    hide Sound, DistinctKeys;
  }

  lemma CachesAreDistinct(m: map<Session, seq<Entry>>, s: Session)
    requires CachesSound(m)
    ensures DistinctKeys(CacheOf(m, s))
  {}

  lemma GetKeepsCaches(st: State, zts: string, e: Event)
    requires Inv(st) && e.Ask?
    ensures CachesSound(Next(st, zts, e).tokens) && CachesSound(Next(st, zts, e).idJags)
  {
    hide FindToken, Live, BestIdJag, SortUnique, SelectAudience, CachesSound, SingleFlight, OutcomeAnswers;
    var audience := SelectAudience(e.raw, e.configured);
    if audience.Success? {
      var s, tokens, idJags := e.session, CacheOf(st.tokens, e.session), CacheOf(st.idJags, e.session);
      assert DistinctKeys(tokens) && DistinctKeys(idJags) by {
        CachesAreDistinct(st.tokens, s);
        CachesAreDistinct(st.idJags, s);
      }
      FindTokenIsRight(tokens, audience.value, SortUnique(e.raw), e.now);
      FindTokenKeepsDistinct(tokens, audience.value, SortUnique(e.raw), e.now);
      LiveIsRight(idJags, e.now);
      SweepKeepsCaches(st.tokens, s, FindToken(tokens, audience.value, SortUnique(e.raw), e.now).1);
      SweepKeepsCaches(st.idJags, s, Live(idJags, e.now));
    }
  }

  /** What a call adds to the table of requests: nothing, or one issuance under a new number. */
  predicate Starts(st: State, next: State, key: RequestKey, phase: Phase) {
    && key !in st.inFlight
    && next.inFlight == st.inFlight[key := st.nextId]
    && next.issuances == st.issuances[st.nextId := Issuance(key, phase, false)]
    && next.nextId == st.nextId + 1
  }

  lemma GetStarts(st: State, zts: string, e: Event) returns (key: RequestKey, phase: Phase)
    requires e.Ask?
    ensures var next := Next(st, zts, e);
            || (next.inFlight == st.inFlight && next.issuances == st.issuances && next.nextId == st.nextId)
            || (Starts(st, next, key, phase) && OutcomeAnswers(Issuance(key, phase, false)))
  {
    hide FindToken, Live, BestIdJag, SortUnique, SelectAudience, OutcomeAnswers;
    var audience := SelectAudience(e.raw, e.configured);
    key := RequestKey(e.session, if audience.Success? then audience.value else "", SortUnique(e.raw));
    var next := Next(st, zts, e);
    phase := if st.nextId in next.issuances then next.issuances[st.nextId].phase else AwaitToken;
    FailureAnswers(Issuance(key, phase, false));
  }

  lemma StartKeepsFlights(st: State, next: State, key: RequestKey, phase: Phase)
    requires Inv(st) && Starts(st, next, key, phase) && OutcomeAnswers(Issuance(key, phase, false))
    ensures SingleFlight(next)
    ensures forall id :: id in next.issuances ==> OutcomeAnswers(next.issuances[id])
  {
    hide OutcomeAnswers, CachesSound;
  }

  lemma GetKeepsFlights(st: State, zts: string, e: Event)
    requires Inv(st) && e.Ask?
    ensures SingleFlight(Next(st, zts, e))
    ensures forall id :: id in Next(st, zts, e).issuances ==> OutcomeAnswers(Next(st, zts, e).issuances[id])
  {
    hide OutcomeAnswers, CachesSound, Next, Starts;
    var next := Next(st, zts, e);
    var key, phase := GetStarts(st, zts, e);
    if Starts(st, next, key, phase) && OutcomeAnswers(Issuance(key, phase, false)) {
      StartKeepsFlights(st, next, key, phase);
    }
  }

  lemma PhaseKeepsFlights(st: State, id: nat, phase: Phase)
    requires Inv(st) && id in st.issuances && !st.issuances[id].cleaned
    requires OutcomeAnswers(st.issuances[id].(phase := phase))
    ensures SingleFlight(SetPhase(st, id, phase))
    ensures forall i :: i in SetPhase(st, id, phase).issuances ==> OutcomeAnswers(SetPhase(st, id, phase).issuances[i])
  {
    hide OutcomeAnswers;
  }

  lemma StepKeepsInv(st: State, zts: string, e: Event)
    requires Inv(st) && Enabled(st, e)
    ensures Inv(Next(st, zts, e))
  {
    match e {
      case Ask(_, _, _, _) =>
        GetKeepsCaches(st, zts, e);
        GetKeepsFlights(st, zts, e);
      case IdJagArrives(id, reply, now) => IdJagKeepsInv(st, zts, id, reply, now);
      case TokenArrives(id, reply, now) => TokenKeepsInv(st, id, reply, now);
      case Settles(id) =>
        forall i | i in Next(st, zts, e).issuances
          ensures OutcomeAnswers(Next(st, zts, e).issuances[i])
        {
          assert OutcomeAnswers(st.issuances[i]);
        }
    }
  }

  lemma IdJagKeepsInv(st: State, zts: string, id: nat, reply: Option<Response>, now: int)
    requires Inv(st) && id in st.issuances && st.issuances[id].phase.AwaitIdJag?
    ensures Inv(IdJagReply(st, zts, id, reply, now))
  {
    var key := st.issuances[id].key;
    var phase := IdJagReply(st, zts, id, reply, now).issuances[id].phase;
    FailureAnswers(st.issuances[id].(phase := phase));
    PhaseKeepsFlights(st, id, phase);
    if reply.Some? && Grant(reply.value, now, key.session.expiresAt).Success? {
      GrantIsSound(reply.value, now, key.session);
      CachePutSound(st.idJags, key.session, Grant(reply.value, now, key.session.expiresAt).value);
    }
  }

  lemma TokenKeepsInv(st: State, id: nat, reply: Option<Response>, now: int)
    requires Inv(st) && id in st.issuances && st.issuances[id].phase.AwaitToken?
    ensures Inv(TokenReply(st, id, reply, now))
  {
    var key := st.issuances[id].key;
    var phase := TokenReply(st, id, reply, now).issuances[id].phase;
    if reply.Some? && Grant(reply.value, now, key.session.expiresAt).Success? {
      GrantIsSound(reply.value, now, key.session);
      CachePutSound(st.tokens, key.session, Grant(reply.value, now, key.session.expiresAt).value);
    }
    FailureAnswers(st.issuances[id].(phase := phase));
    PhaseKeepsFlights(st, id, phase);
  }

  /** In every run: sound caches, single flight, and only right answers. */
  lemma {:induction false} RunKeepsInv(zts: string, events: seq<Event>, states: seq<State>, n: nat)
    requires Run(zts, events, states) && n <= |events|
    ensures Inv(states[n])
  {
    if n > 0 {
      RunKeepsInv(zts, events, states, n - 1);
      StepKeepsInv(states[n - 1], zts, events[n - 1]);
    }
  }

  // ---------------------------------------------------------------- what callers see

  /** At any time at most one unfinished issuance serves a session, audience and set of scopes. */
  lemma AtMostOneIssuanceInFlight(zts: string, events: seq<Event>, states: seq<State>, n: nat, a: nat, b: nat)
    requires Run(zts, events, states) && n <= |events|
    requires a in states[n].issuances && b in states[n].issuances
    requires !states[n].issuances[a].cleaned && !states[n].issuances[b].cleaned
    requires states[n].issuances[a].key == states[n].issuances[b].key
    ensures a == b
  {
    RunKeepsInv(zts, events, states, n);
  }

  /** No cached token or ID-JAG outlives its session. */
  lemma CachedEntriesDieWithTheSession(zts: string, events: seq<Event>, states: seq<State>, n: nat, s: Session, e: Entry)
    requires Run(zts, events, states) && n <= |events|
    requires e in CacheOf(states[n].tokens, s) || e in CacheOf(states[n].idJags, s)
    ensures e.expiresAt <= s.expiresAt * 1000
  {
    RunKeepsInv(zts, events, states, n);
  }

  /** Requests that name the same scopes, in whatever order or number, share one key. */
  lemma SameScopesShareAKey(s: Session, audience: string, a: seq<string>, b: seq<string>)
    ensures RequestKey(s, audience, SortUnique(a)) == RequestKey(s, audience, SortUnique(b)) <==> Elements(a) == Elements(b)
  {
    SameNormalFormIffSameSet(a, b);
  }

  /** A cache hit is an exact answer with more than the skew to live at the lookup. */
  lemma CacheHitIsExact(st: State, zts: string, e: Event)
    requires e.Ask? && Get(st, zts, e.session, e.raw, e.configured, e.now).1.Cached?
    ensures SelectAudience(e.raw, e.configured).Success?
    ensures var hit := Get(st, zts, e.session, e.raw, e.configured, e.now).1.entry;
            && hit.audiences == [SelectAudience(e.raw, e.configured).value]
            && ExactlyMatch(hit.scopes, SortUnique(e.raw))
            && hit.expiresAt > e.now + SKEW_MS
  {
    FindTokenIsRight(CacheOf(st.tokens, e.session), SelectAudience(e.raw, e.configured).value, SortUnique(e.raw), e.now);
  }

  /** The selected audience is the domain of a requested scope. */
  lemma AudienceIsARequestedDomain(raw: seq<string>, configured: Option<string>)
    ensures SelectAudience(raw, configured).Success? <==>
            && (forall i :: 0 <= i < |raw| ==> ScopeDomain(raw[i]).Some?)
            && (exists i :: 0 <= i < |raw| && (configured.Some? ==> ScopeDomain(raw[i]) == configured))
    ensures SelectAudience(raw, configured).Success? ==>
              exists i :: 0 <= i < |raw| && ScopeDomain(raw[i]) == Some(SelectAudience(raw, configured).value)
  {
    if configured.None? && raw != [] && ScopeDomain(raw[0]).Some? {
      assert ScopeDomain(raw[0]) == Some(ScopeDomain(raw[0]).value);
    }
  }

  /** A scope is qualified exactly when a domain stands before its first `:role.` and a role name after it. */
  lemma ScopeDomainIff(scope: string, domain: string)
    ensures ScopeDomain(scope) == Some(domain) <==>
            && domain != "" && domain <= scope && |scope| > |domain| + |":role."|
            && Texts.StandsAt(scope, ":role.", |domain|)
            && forall i :: 0 <= i < |domain| ==> !Texts.StandsAt(scope, ":role.", i)
  {
    var at := IndexOf(scope, MARKER);
    forall i | Texts.StandsAt(scope, MARKER, i) ensures 0 <= at <= i {
      IndexOfIsFirst(scope, MARKER, i);
    }
    assert at >= 0 ==> Texts.StandsAt(scope, MARKER, at);
    assert domain <= scope ==> scope[..|domain|] == domain;
  }

  /** A call that waits, waits for an issuance of exactly its own request. */
  lemma WaitsForItsOwnRequest(st: State, zts: string, e: Event, id: nat)
    requires Inv(st) && e.Ask?
    requires var r := Get(st, zts, e.session, e.raw, e.configured, e.now).1; r == Joined(id) || r == Started(id)
    ensures SelectAudience(e.raw, e.configured).Success?
    ensures var next := Next(st, zts, e);
            && id in next.issuances
            && next.issuances[id].key == RequestKey(e.session, SelectAudience(e.raw, e.configured).value, SortUnique(e.raw))
    ensures id in st.issuances <==> Get(st, zts, e.session, e.raw, e.configured, e.now).1.Joined?
  {
    hide FindToken, Live, BestIdJag, SortUnique;
  }

  lemma IdsAreDrawn(st: State, id: nat)
    requires Inv(st) && id in st.issuances
    ensures id < st.nextId
  {
  }

  lemma AskKeepsKeys(st: State, zts: string, e: Event, id: nat)
    requires Inv(st) && e.Ask? && id in st.issuances
    ensures id in Next(st, zts, e).issuances && Next(st, zts, e).issuances[id] == st.issuances[id]
  {
    hide Inv, OutcomeAnswers, Next;
    var key, phase := GetStarts(st, zts, e);
    IdsAreDrawn(st, id);
  }

  predicate KeepsKey(st: State, next: State, id: nat)
    requires id in st.issuances
  {
    id in next.issuances && next.issuances[id].key == st.issuances[id].key
  }

  lemma IdJagReplyKeepsKeys(st: State, zts: string, at: nat, reply: Option<Response>, now: int, id: nat)
    requires at in st.issuances && st.issuances[at].phase.AwaitIdJag? && id in st.issuances
    ensures KeepsKey(st, IdJagReply(st, zts, at, reply, now), id)
  {
    hide Grant, Put, Cover, CacheOf;
  }

  lemma TokenReplyKeepsKeys(st: State, at: nat, reply: Option<Response>, now: int, id: nat)
    requires at in st.issuances && st.issuances[at].phase.AwaitToken? && id in st.issuances
    ensures KeepsKey(st, TokenReply(st, at, reply, now), id)
  {
    hide Grant, Put, ExactlyMatch, CacheOf;
  }

  lemma CleanupKeepsKeys(st: State, at: nat, id: nat)
    requires at in st.issuances && st.issuances[at].phase.Done? && id in st.issuances
    ensures KeepsKey(st, Cleanup(st, at), id)
  {}

  lemma ReplyKeepsKeys(st: State, zts: string, e: Event, id: nat)
    requires !e.Ask? && Enabled(st, e) && id in st.issuances
    ensures KeepsKey(st, Next(st, zts, e), id)
  {
    hide IdJagReply, TokenReply, KeepsKey;
    match e {
      case IdJagArrives(at, reply, now) => IdJagReplyKeepsKeys(st, zts, at, reply, now, id);
      case TokenArrives(at, reply, now) => TokenReplyKeepsKeys(st, at, reply, now, id);
      case Settles(at) => CleanupKeepsKeys(st, at, id);
    }
  }

  lemma KeysAreFixed(st: State, zts: string, e: Event, id: nat)
    requires Inv(st) && Enabled(st, e) && id in st.issuances
    ensures id in Next(st, zts, e).issuances && Next(st, zts, e).issuances[id].key == st.issuances[id].key
  {
    hide Next, Inv, Enabled;
    if e.Ask? {
      AskKeepsKeys(st, zts, e, id);
    } else {
      ReplyKeepsKeys(st, zts, e, id);
    }
  }

  lemma {:induction false} KeysStayFixed(zts: string, events: seq<Event>, states: seq<State>, i: nat, j: nat, id: nat)
    requires Run(zts, events, states) && i <= j <= |events| && id in states[i].issuances
    ensures id in states[j].issuances && states[j].issuances[id].key == states[i].issuances[id].key
  {
    hide Next, Inv;
    if i < j {
      KeysStayFixed(zts, events, states, i, j - 1, id);
      RunKeepsInv(zts, events, states, j - 1);
      KeysAreFixed(states[j - 1], zts, events[j - 1], id);
    }
  }

  /**
   Whoever waits, as the starter or as a later caller, gets a token for exactly the audience and
   scopes it asked for, granted with more than the skew to live and not beyond the session.
  */
  lemma WaitersGetWhatTheyAskedFor(zts: string, events: seq<Event>, states: seq<State>, i: nat, j: nat, id: nat)
    requires Run(zts, events, states) && i < j <= |events| && events[i].Ask?
    requires var r := Get(states[i], zts, events[i].session, events[i].raw, events[i].configured, events[i].now).1;
             r == Joined(id) || r == Started(id)
    ensures SelectAudience(events[i].raw, events[i].configured).Success?
    ensures id in states[j].issuances
    ensures var done := states[j].issuances[id].phase;
            done.Done? && done.outcome.Success? ==>
              && done.outcome.value.audiences == [SelectAudience(events[i].raw, events[i].configured).value]
              && ExactlyMatch(done.outcome.value.scopes, SortUnique(events[i].raw))
              && Sound(done.outcome.value, events[i].session)
  {
    hide Next, Get, ExactlyMatch, SortUnique, SelectAudience;
    RunKeepsInv(zts, events, states, i);
    WaitsForItsOwnRequest(states[i], zts, events[i], id);
    assert states[i + 1] == Next(states[i], zts, events[i]);
    KeysStayFixed(zts, events, states, i + 1, j, id);
    RunKeepsInv(zts, events, states, j);
    assert OutcomeAnswers(states[j].issuances[id]);
  }
}
