/**
 The other half of single use: what the gateway has handed out works in its role until it is used or runs
 out, whatever else happens in between, so that an honest client's flow goes through.
*/
module OAuthWorks {
  import opened Results
  import opened OAuthFlow
  import opened OAuthLaws

  // ---------------------------------------------------------------- what the stores hold

  datatype Slot =
    | ClientSlot(client: string)
    | TransactionSlot(state: string)
    | PendingSlot(id: nat)
    | CodeSlot(code: string)
    | SessionSlot(token: string)
    | TicketSlot(ticket: string)

  datatype Held =
    | Uris(uris: seq<string>)
    | OfTransaction(txn: Transaction)
    | OfCode(code: Code)
    | OfSession(session: Session)
    | OfTicket(ticket: Ticket)

  predicate Holds(st: State, slot: Slot, x: Held) {
    match slot
    case ClientSlot(c) => c in st.drawn && c in st.clients && x == Uris(st.clients[c])
    case TransactionSlot(s) => s in st.drawn && s in st.transactions && x == OfTransaction(st.transactions[s])
    case PendingSlot(id) => id < st.nextId && id in st.pending && x == OfTransaction(st.pending[id])
    case CodeSlot(c) => c in st.drawn && c in st.codes && x == OfCode(st.codes[c])
    case SessionSlot(t) => t in st.drawn && Digest(t) in st.sessions && x == OfSession(st.sessions[Digest(t)])
    case TicketSlot(t) => t in st.drawn && t in st.tickets && x == OfTicket(st.tickets[t])
  }

  /** The request does not use the slot, and comes before what is in it would be swept away. */
  predicate Spares(slot: Slot, x: Held, e: Event, now: int) {
    match slot
    case ClientSlot(_) => true
    case TransactionSlot(s) => !(e.Callback? && e.state == s)
    case PendingSlot(id) => !(e.Exchanged? && e.id == id)
    case CodeSlot(c) => !(e.Token? && e.code == c)
    case SessionSlot(t) =>
      !((e.Revoke? || e.LogoutTicket?) && e.token == t)
      && (e.Use? && e.token == t && x.OfSession? ==> now < x.session.expiresAt)
    case TicketSlot(t) =>
      !(e.Logout? && e.ticket == t) && (e.LogoutTicket? && x.OfTicket? ==> now + e.wait < x.ticket.expiresAt)
  }

  lemma ClientStays(ttls: Ttls, st: State, slot: Slot, x: Held, e: Event, now: int)
    requires slot.ClientSlot? && Holds(st, slot, x) && Fresh(st, e)
    ensures Holds(Handle(ttls, st, e, now).0, slot, x)
  {
    hide IsAllowedRedirectUri, AcceptsAuthorization, Redeems, LiveTicket;
  }

  lemma TransactionStays(ttls: Ttls, st: State, slot: Slot, x: Held, e: Event, now: int)
    requires slot.TransactionSlot? && Holds(st, slot, x) && Fresh(st, e) && Spares(slot, x, e, now)
    ensures Holds(Handle(ttls, st, e, now).0, slot, x)
  {
    hide IsAllowedRedirectUri, AcceptsAuthorization, Redeems, LiveTicket;
  }

  lemma PendingStays(ttls: Ttls, st: State, slot: Slot, x: Held, e: Event, now: int)
    requires slot.PendingSlot? && Holds(st, slot, x) && Fresh(st, e) && Spares(slot, x, e, now)
    ensures Holds(Handle(ttls, st, e, now).0, slot, x)
  {
    hide IsAllowedRedirectUri, AcceptsAuthorization, Redeems, LiveTicket;
  }

  lemma CodeStays(ttls: Ttls, st: State, slot: Slot, x: Held, e: Event, now: int)
    requires slot.CodeSlot? && Holds(st, slot, x) && Fresh(st, e) && Spares(slot, x, e, now)
    ensures Holds(Handle(ttls, st, e, now).0, slot, x)
  {
    hide IsAllowedRedirectUri, AcceptsAuthorization, Redeems, LiveTicket;
  }

  lemma SessionStays(ttls: Ttls, st: State, slot: Slot, x: Held, e: Event, now: int)
    requires slot.SessionSlot? && Holds(st, slot, x) && Fresh(st, e) && Spares(slot, x, e, now)
    ensures Holds(Handle(ttls, st, e, now).0, slot, x)
  {
    hide IsAllowedRedirectUri, AcceptsAuthorization, Redeems, LiveTicket;
  }

  lemma TicketStays(ttls: Ttls, st: State, slot: Slot, x: Held, e: Event, now: int)
    requires slot.TicketSlot? && Holds(st, slot, x) && Fresh(st, e) && Spares(slot, x, e, now)
    ensures Holds(Handle(ttls, st, e, now).0, slot, x)
  {
    hide IsAllowedRedirectUri, AcceptsAuthorization, Redeems;
  }

  lemma StepSpares(ttls: Ttls, st: State, slot: Slot, x: Held, e: Event, now: int)
    requires Holds(st, slot, x) && Fresh(st, e) && Spares(slot, x, e, now)
    ensures Holds(Handle(ttls, st, e, now).0, slot, x)
  {
    hide Handle, Holds, Spares, Fresh;
    match slot {
      case ClientSlot(_) => ClientStays(ttls, st, slot, x, e, now);
      case TransactionSlot(_) => TransactionStays(ttls, st, slot, x, e, now);
      case PendingSlot(_) => PendingStays(ttls, st, slot, x, e, now);
      case CodeSlot(_) => CodeStays(ttls, st, slot, x, e, now);
      case SessionSlot(_) => SessionStays(ttls, st, slot, x, e, now);
      case TicketSlot(_) => TicketStays(ttls, st, slot, x, e, now);
    }
  }

  /** Nothing between two points of a run uses the slot or outlives what is in it. */
  predicate SparedBetween(slot: Slot, x: Held, events: seq<(Event, int)>, i: nat, n: nat)
    requires n <= |events|
  {
    forall k :: i <= k < n ==> Spares(slot, x, events[k].0, events[k].1)
  }

  /** What is handed out stays until it is used or runs out. */
  lemma {:induction false} HeldUntilUsed(ttls: Ttls, events: seq<(Event, int)>, worlds: seq<World>, i: nat, n: nat, slot: Slot, x: Held)
    requires Run(ttls, events, worlds) && i <= n <= |events|
    requires Holds(worlds[i].st, slot, x) && SparedBetween(slot, x, events, i, n)
    ensures Holds(worlds[n].st, slot, x)
  {
    hide Handle, Holds, Spares, Fresh;
    if i < n {
      HeldUntilUsed(ttls, events, worlds, i, n - 1, slot, x);
      StepSpares(ttls, worlds[n - 1].st, slot, x, events[n - 1].0, events[n - 1].1);
    }
  }

  /** How the request at one point of a run is answered. */
  function Answer(ttls: Ttls, events: seq<(Event, int)>, worlds: seq<World>, n: nat): Response
    requires n < |events| && |worlds| == |events| + 1
  {
    Handle(ttls, worlds[n].st, events[n].0, events[n].1).1
  }

  // ---------------------------------------------------------------- where a browser may be sent

  /** An address over TLS or on the browser's own machine, with nothing in it that the gateway would have to keep. */
  predicate Secure(u: RedirectUri) {
    && (u.protocol != "https:" ==> u.protocol == "http:" && u.hostname in ["127.0.0.1", "localhost"])
    && !(u.hasHashOrLogin || !u.parses)
  }

  /** A client is registered exactly when it has redirect URIs and all of them are secure. */
  lemma RegistersIff(ttls: Ttls, events: seq<(Event, int)>, worlds: seq<World>, n: nat)
    requires Run(ttls, events, worlds) && n < |events| && events[n].0.Register?
    ensures Answer(ttls, events, worlds, n) ==
            if events[n].0.uris != [] && forall k :: 0 <= k < |events[n].0.uris| ==> Secure(events[n].0.uris[k])
            then Registered(events[n].0.draw) else BadRequest
  {
  }

  /** Some client registered this address before, as a secure one. */
  ghost predicate Vetted(events: seq<(Event, int)>, n: nat, uri: string)
    requires n <= |events|
  {
    exists i: nat, k: nat ::
      i < n && events[i].0.Register? && k < |events[i].0.uris| && events[i].0.uris[k].text == uri && Secure(events[i].0.uris[k])
  }

  ghost predicate AllVetted(events: seq<(Event, int)>, n: nat, st: State)
    requires n <= |events|
  {
    && (forall c, uri :: c in st.clients && uri in st.clients[c] ==> Vetted(events, n, uri))
    && (forall s :: s in st.transactions ==> Vetted(events, n, st.transactions[s].redirectUri))
    && (forall id :: id in st.pending ==> Vetted(events, n, st.pending[id].redirectUri))
  }

  lemma VettedStays(events: seq<(Event, int)>, n: nat, uri: string)
    requires n < |events| && Vetted(events, n, uri)
    ensures Vetted(events, n + 1, uri)
  {
  }

  lemma RegistrationVets(events: seq<(Event, int)>, n: nat, uri: string)
    requires n < |events| && events[n].0.Register? && uri in Texts(events[n].0.uris)
    requires forall i :: 0 <= i < |events[n].0.uris| ==> IsAllowedRedirectUri(events[n].0.uris[i])
    ensures Vetted(events, n + 1, uri)
  {
    var uris := events[n].0.uris;
    var k :| 0 <= k < |uris| && uris[k].text == uri;
    assert IsAllowedRedirectUri(uris[k]);
    assert Secure(uris[k]);
  }

  /** A client's redirect URIs are those it had, or those of its registration. */
  lemma ClientsComeFrom(ttls: Ttls, st: State, e: Event, now: int, c: string)
    requires c in Handle(ttls, st, e, now).0.clients
    ensures var uris := Handle(ttls, st, e, now).0.clients[c];
            || (c in st.clients && uris == st.clients[c])
            || (e.Register? && Handle(ttls, st, e, now).1 == Registered(c) && uris == Texts(e.uris) && forall i :: 0 <= i < |e.uris| ==> IsAllowedRedirectUri(e.uris[i]))
  {
    hide IsAllowedRedirectUri, AcceptsAuthorization, Redeems, LiveTicket, Texts;
  }

  /** A transaction was there before or returns to an address of its client. */
  lemma TransactionsComeFrom(ttls: Ttls, st: State, e: Event, now: int)
    ensures var after := Handle(ttls, st, e, now).0;
            forall s :: s in after.transactions ==>
              || (s in st.transactions && after.transactions[s] == st.transactions[s])
              || (e.Authorize? && e.clientId in st.clients && after.transactions[s].redirectUri in st.clients[e.clientId])
  {
    hide IsAllowedRedirectUri, Redeems, LiveTicket, Texts;
  }

  /** One in exchange was there before or is the one whose state was presented. */
  lemma PendingComeFrom(ttls: Ttls, st: State, e: Event, now: int)
    ensures var after := Handle(ttls, st, e, now).0;
            forall id :: id in after.pending ==>
              || (id in st.pending && after.pending[id] == st.pending[id])
              || (e.Callback? && e.state in st.transactions && after.pending[id] == st.transactions[e.state])
  {
    hide IsAllowedRedirectUri, AcceptsAuthorization, Redeems, LiveTicket, Texts;
  }

  lemma StepKeepsVetted(ttls: Ttls, events: seq<(Event, int)>, n: nat, st: State)
    requires n < |events| && AllVetted(events, n, st)
    ensures AllVetted(events, n + 1, Handle(ttls, st, events[n].0, events[n].1).0)
  {
    hide Handle, Vetted, IsAllowedRedirectUri, Texts;
    var e, after := events[n].0, Handle(ttls, st, events[n].0, events[n].1).0;
    TransactionsComeFrom(ttls, st, e, events[n].1);
    PendingComeFrom(ttls, st, e, events[n].1);
    forall c, uri | c in after.clients && uri in after.clients[c] ensures Vetted(events, n + 1, uri) {
      ClientsComeFrom(ttls, st, e, events[n].1, c);
      if c in st.clients && uri in st.clients[c] {
        VettedStays(events, n, uri);
      } else {
        RegistrationVets(events, n, uri);
      }
    }
    forall s | s in after.transactions ensures Vetted(events, n + 1, after.transactions[s].redirectUri) {
      VettedStays(events, n, after.transactions[s].redirectUri);
    }
    forall id | id in after.pending ensures Vetted(events, n + 1, after.pending[id].redirectUri) {
      VettedStays(events, n, after.pending[id].redirectUri);
    }
  }

  lemma {:induction false} StoresAreVetted(ttls: Ttls, events: seq<(Event, int)>, worlds: seq<World>, n: nat)
    requires Run(ttls, events, worlds) && n <= |events|
    ensures AllVetted(events, n, worlds[n].st)
  {
    if n > 0 {
      hide Handle, AllVetted, Fresh;
      StoresAreVetted(ttls, events, worlds, n - 1);
      StepKeepsVetted(ttls, events, n - 1, worlds[n - 1].st);
    } else {
      assert worlds[0].st == START;
    }
  }

  /** Whatever clients register and ask for, no code and no error leaves for an address that is not secure. */
  lemma RedirectsAreSecure(ttls: Ttls, events: seq<(Event, int)>, worlds: seq<World>, n: nat)
    requires Run(ttls, events, worlds) && n < |events|
    ensures var answer := Answer(ttls, events, worlds, n);
            answer.RedirectCode? || answer.RedirectError? ==> Vetted(events, n, answer.redirectUri)
  {
    hide Vetted, IsAllowedRedirectUri, AcceptsAuthorization, Redeems, LiveTicket;
    StoresAreVetted(ttls, events, worlds, n);
  }

  // ---------------------------------------------------------------- one request after another

  /** A registered client may authorize with each of its redirect URIs. */
  lemma RegisteredMayAuthorize(ttls: Ttls, events: seq<(Event, int)>, worlds: seq<World>, i: nat, n: nat)
    requires Run(ttls, events, worlds) && i < n < |events|
    requires events[i].0.Register? && events[n].0.Authorize?
    requires var uris := events[i].0.uris; uris != [] && forall k :: 0 <= k < |uris| ==> Secure(uris[k])
    requires var e := events[n].0;
             && e.clientId == events[i].0.draw && e.redirectUri != "" && e.redirectUri in Texts(events[i].0.uris)
             && e.responseType == "code" && e.clientState != ""
             && e.challenge.Some? && e.challenge != Some(OtherText("")) && e.challengeMethod == "S256"
    ensures Answer(ttls, events, worlds, i) == Registered(events[i].0.draw)
    ensures Answer(ttls, events, worlds, n) == SentUpstream(events[n].0.draw, events[n].0.nonce)
    ensures var e := events[n].0;
            Holds(worlds[n + 1].st, TransactionSlot(e.draw),
                  OfTransaction(Transaction(e.clientId, e.clientState, e.redirectUri, e.challenge.value, e.verifier, e.nonce,
                                            events[n].1 + ttls.transaction)))
  {
    hide Redeems, LiveTicket;
    assert forall u: RedirectUri :: Secure(u) ==> IsAllowedRedirectUri(u);
    hide IsAllowedRedirectUri, Secure;
    var slot, x := ClientSlot(events[i].0.draw), Uris(Texts(events[i].0.uris));
    assert worlds[i + 1] == Next(ttls, worlds[i], events[i].0, events[i].1);
    assert Fresh(worlds[i].st, events[i].0);
    assert Holds(worlds[i + 1].st, slot, x);
    HeldUntilUsed(ttls, events, worlds, i + 1, n, slot, x);
    assert worlds[n + 1] == Next(ttls, worlds[n], events[n].0, events[n].1);
  }

  lemma {:induction false} Registration(ttls: Ttls, events: seq<(Event, int)>, worlds: seq<World>, n: nat, c: string) returns (i: nat)
    requires Run(ttls, events, worlds) && n <= |events| && c in worlds[n].st.clients
    ensures i < n && events[i].0.Register? && Answer(ttls, events, worlds, i) == Registered(c)
    ensures worlds[n].st.clients[c] == Texts(events[i].0.uris)
  {
    hide Handle, Fresh, Texts, IsAllowedRedirectUri;
    assert n > 0;
    ClientsComeFrom(ttls, worlds[n - 1].st, events[n - 1].0, events[n - 1].1, c);
    if c in worlds[n - 1].st.clients && worlds[n].st.clients[c] == worlds[n - 1].st.clients[c] {
      i := Registration(ttls, events, worlds, n - 1, c);
    } else {
      i := n - 1;
    }
  }

  /** The client was registered before with this redirect URI. */
  ghost predicate IsRegistered(ttls: Ttls, events: seq<(Event, int)>, worlds: seq<World>, n: nat, c: string, uri: string)
    requires n <= |events| && |worlds| == |events| + 1
  {
    exists i: nat :: i < n && events[i].0.Register? && Answer(ttls, events, worlds, i) == Registered(c) && uri in Texts(events[i].0.uris)
  }

  lemma RegisteredIsHeld(ttls: Ttls, events: seq<(Event, int)>, worlds: seq<World>, i: nat)
    requires Run(ttls, events, worlds) && i < |events| && events[i].0.Register? && Answer(ttls, events, worlds, i).Registered?
    ensures var c := Answer(ttls, events, worlds, i).clientId;
            c != "" && Holds(worlds[i + 1].st, ClientSlot(c), Uris(Texts(events[i].0.uris)))
  {
    hide IsAllowedRedirectUri, Texts;
    assert Fresh(worlds[i].st, events[i].0);
    assert worlds[i + 1] == Next(ttls, worlds[i], events[i].0, events[i].1);
  }

  lemma HeldClientIsStored(st: State, c: string, uris: seq<string>)
    requires Holds(st, ClientSlot(c), Uris(uris))
    ensures c in st.clients && st.clients[c] == uris
  {
  }

  lemma RegisteredIffStored(ttls: Ttls, events: seq<(Event, int)>, worlds: seq<World>, n: nat, c: string, uri: string)
    requires Run(ttls, events, worlds) && n <= |events|
    ensures IsRegistered(ttls, events, worlds, n, c, uri) <==> c in worlds[n].st.clients && uri in worlds[n].st.clients[c]
    ensures IsRegistered(ttls, events, worlds, n, c, uri) ==> c != ""
  {
    hide Handle, Holds, Answer, Fresh, Texts, Next, SparedBetween;
    if c in worlds[n].st.clients {
      var i := Registration(ttls, events, worlds, n, c);
    }
    if IsRegistered(ttls, events, worlds, n, c, uri) {
      var i: nat :| i < n && events[i].0.Register? && Answer(ttls, events, worlds, i) == Registered(c) && uri in Texts(events[i].0.uris);
      var slot, x := ClientSlot(c), Uris(Texts(events[i].0.uris));
      RegisteredIsHeld(ttls, events, worlds, i);
      ClientsAreSpared(slot, x, events, i + 1, n);
      HeldUntilUsed(ttls, events, worlds, i + 1, n, slot, x);
      HeldClientIsStored(worlds[n].st, c, Texts(events[i].0.uris));
    }
  }

  lemma ClientsAreSpared(slot: Slot, x: Held, events: seq<(Event, int)>, i: nat, n: nat)
    requires slot.ClientSlot? && i <= n <= |events|
    ensures SparedBetween(slot, x, events, i, n)
  {
  }

  /** A browser is sent upstream exactly for a code request with state and challenge of a client registered for its redirect URI. */
  lemma AuthorizesIff(ttls: Ttls, events: seq<(Event, int)>, worlds: seq<World>, n: nat)
    requires Run(ttls, events, worlds) && n < |events| && events[n].0.Authorize?
    ensures var e := events[n].0;
            Answer(ttls, events, worlds, n) ==
            if && IsRegistered(ttls, events, worlds, n, e.clientId, e.redirectUri) && |e.redirectUri| > 0
               && e.responseType == "code" && |e.clientState| > 0 && e.challengeMethod == "S256"
               && e.challenge !in {None, Some(OtherText(""))}
            then SentUpstream(e.draw, e.nonce) else BadRequest
  {
    RegisteredIffStored(ttls, events, worlds, n, events[n].0.clientId, events[n].0.redirectUri);
    hide IsAllowedRedirectUri, Redeems, LiveTicket, Texts, IsRegistered, Fresh, Next;
  }

  /** A state that has not been presented leads on, or back to the client, until its transaction runs out. */
  lemma StateWorks(ttls: Ttls, events: seq<(Event, int)>, worlds: seq<World>, i: nat, n: nat, state: string, txn: Transaction)
    requires Run(ttls, events, worlds) && i <= n < |events|
    requires Holds(worlds[i].st, TransactionSlot(state), OfTransaction(txn))
    requires SparedBetween(TransactionSlot(state), OfTransaction(txn), events, i, n)
    requires events[n].0.Callback? && events[n].0.state == state && state != ""
    ensures var e, answer := events[n].0, Answer(ttls, events, worlds, n);
            if events[n].1 >= txn.expiresAt then answer == BadRequest
            else if e.error != "" then answer == RedirectError(txn.redirectUri, txn.clientState)
            else if e.upstreamCode == "" then answer == BadRequest
            else answer.Exchanging? && Holds(worlds[n + 1].st, PendingSlot(answer.id), OfTransaction(txn))
  {
    hide IsAllowedRedirectUri, AcceptsAuthorization, Redeems, LiveTicket;
    HeldUntilUsed(ttls, events, worlds, i, n, TransactionSlot(state), OfTransaction(txn));
    assert worlds[n + 1] == Next(ttls, worlds[n], events[n].0, events[n].1);
  }

  /** The end of an exchange sends the client a code for the identity, or an error. */
  lemma ExchangeWorks(ttls: Ttls, events: seq<(Event, int)>, worlds: seq<World>, i: nat, n: nat, id: nat, txn: Transaction)
    requires Run(ttls, events, worlds) && i <= n < |events|
    requires Holds(worlds[i].st, PendingSlot(id), OfTransaction(txn))
    requires SparedBetween(PendingSlot(id), OfTransaction(txn), events, i, n)
    requires events[n].0.Exchanged? && events[n].0.id == id
    ensures var e, answer := events[n].0, Answer(ttls, events, worlds, n);
            if e.identity.None? then answer == BadGateway
            else
              && answer == RedirectCode(txn.redirectUri, e.draw, txn.clientState)
              && Holds(worlds[n + 1].st, CodeSlot(e.draw),
                       OfCode(Code(txn.clientId, txn.redirectUri, txn.challenge, e.identity.value,
                                   Min(e.identity.value.expiresAt, events[n].1 + ttls.code))))
  {
    hide IsAllowedRedirectUri, AcceptsAuthorization, Redeems, LiveTicket;
    HeldUntilUsed(ttls, events, worlds, i, n, PendingSlot(id), OfTransaction(txn));
    assert Fresh(worlds[n].st, events[n].0);
    assert worlds[n + 1] == Next(ttls, worlds[n], events[n].0, events[n].1);
  }

  /** A code that has not been presented is redeemed exactly by a matching request in time. */
  lemma CodeWorks(ttls: Ttls, events: seq<(Event, int)>, worlds: seq<World>, i: nat, n: nat, c: string, code: Code)
    requires Run(ttls, events, worlds) && i <= n < |events|
    requires Holds(worlds[i].st, CodeSlot(c), OfCode(code)) && SparedBetween(CodeSlot(c), OfCode(code), events, i, n)
    requires events[n].0.Token? && events[n].0.code == c && c != ""
    ensures var e, now, answer := events[n].0, events[n].1, Answer(ttls, events, worlds, n);
            && (answer == Issued(e.draw) <==>
                  && now < code.expiresAt && e.grantType == "authorization_code"
                  && e.clientId == code.clientId && e.redirectUri == code.redirectUri
                  && e.verifier != "" && code.challenge == S256(e.verifier)
                  && now + e.wait + e.pause < code.identity.expiresAt && e.pause < ttls.session)
            && (answer == Issued(e.draw) ==>
                  Holds(worlds[n + 1].st, SessionSlot(e.draw), OfSession(Session(code.identity, now + e.wait + ttls.session))))
  {
    hide IsAllowedRedirectUri, AcceptsAuthorization, LiveTicket;
    HeldUntilUsed(ttls, events, worlds, i, n, CodeSlot(c), OfCode(code));
    assert worlds[n + 1] == Next(ttls, worlds[n], events[n].0, events[n].1);
  }

  /** A session token that has not been revoked gives its session exactly until that runs out. */
  lemma SessionWorks(ttls: Ttls, events: seq<(Event, int)>, worlds: seq<World>, i: nat, n: nat, token: string, session: Session)
    requires Run(ttls, events, worlds) && i <= n < |events|
    requires Holds(worlds[i].st, SessionSlot(token), OfSession(session))
    requires SparedBetween(SessionSlot(token), OfSession(session), events, i, n)
    requires events[n].0 == Use(token)
    ensures Answer(ttls, events, worlds, n) == if events[n].1 < session.expiresAt then Served(session) else InvalidToken
  {
    HeldUntilUsed(ttls, events, worlds, i, n, SessionSlot(token), OfSession(session));
  }

  /** It also buys a logout ticket that carries the session's ID token. */
  lemma TicketIsBought(ttls: Ttls, events: seq<(Event, int)>, worlds: seq<World>, i: nat, n: nat, token: string, session: Session)
    requires Run(ttls, events, worlds) && i <= n < |events|
    requires Holds(worlds[i].st, SessionSlot(token), OfSession(session))
    requires SparedBetween(SessionSlot(token), OfSession(session), events, i, n)
    requires events[n].0.LogoutTicket? && events[n].0.token == token && token != ""
    ensures var e, now, answer := events[n].0, events[n].1, Answer(ttls, events, worlds, n);
            && answer == (if now < session.expiresAt then TicketIssued(e.draw) else InvalidToken)
            && (answer == TicketIssued(e.draw) ==>
                  Holds(worlds[n + 1].st, TicketSlot(e.draw), OfTicket(Ticket(session.identity.idToken, now + e.wait + ttls.ticket))))
  {
    hide IsAllowedRedirectUri, AcceptsAuthorization, Redeems;
    HeldUntilUsed(ttls, events, worlds, i, n, SessionSlot(token), OfSession(session));
    assert worlds[n + 1] == Next(ttls, worlds[n], events[n].0, events[n].1);
  }

  /** A ticket that has not been presented signs out exactly until it runs out. */
  lemma TicketWorks(ttls: Ttls, events: seq<(Event, int)>, worlds: seq<World>, i: nat, n: nat, ticket: string, x: Ticket)
    requires Run(ttls, events, worlds) && i <= n < |events|
    requires Holds(worlds[i].st, TicketSlot(ticket), OfTicket(x))
    requires SparedBetween(TicketSlot(ticket), OfTicket(x), events, i, n)
    requires events[n].0 == Logout(ticket) && ticket != "" && x.idToken != ""
    ensures Answer(ttls, events, worlds, n) == if events[n].1 < x.expiresAt then SignedOut(x.idToken) else BadRequest
  {
    hide IsAllowedRedirectUri, AcceptsAuthorization, Redeems;
    HeldUntilUsed(ttls, events, worlds, i, n, TicketSlot(ticket), OfTicket(x));
  }

  // ---------------------------------------------------------------- the whole flow

  /** The positions of a client's own requests in a run. */
  datatype Flow = Flow(register: nat, authorize: nat, callback: nat, exchange: nat, token: nat)

  /** The client does what it should, with its own identity, and in time. */
  predicate Honest(ttls: Ttls, events: seq<(Event, int)>, f: Flow, clientState: string, uri: string, verifier: string,
                   identity: Identity, id: nat)
  {
    && f.register < f.authorize < f.callback < f.exchange < f.token < |events|
    && var r, a, c, x, t := events[f.register], events[f.authorize], events[f.callback], events[f.exchange], events[f.token];
       && r.0.Register? && uri != "" && uri in Texts(r.0.uris)
       && (forall k :: 0 <= k < |r.0.uris| ==> Secure(r.0.uris[k]))
       && a.0.Authorize? && a.0.clientId == r.0.draw && a.0.redirectUri == uri && a.0.responseType == "code"
       && clientState != "" && a.0.clientState == clientState
       && a.0.challenge == Some(S256(verifier)) && a.0.challengeMethod == "S256"
       && c.0.Callback? && c.0.state == a.0.draw && c.0.error == "" && c.0.upstreamCode != ""
       && c.1 < a.1 + ttls.transaction
       && x.0.Exchanged? && x.0.id == id && x.0.identity == Some(identity)
       && t.0.Token? && t.0.code == x.0.draw && t.0.clientId == r.0.draw && t.0.redirectUri == uri
       && t.0.grantType == "authorization_code" && verifier != "" && t.0.verifier == verifier
       && t.1 < x.1 + ttls.code && t.1 + t.0.wait + t.0.pause < identity.expiresAt && t.0.pause < ttls.session
  }

  /** Nobody else presents what the client was given. */
  predicate Undisturbed(events: seq<(Event, int)>, f: Flow, id: nat)
    requires f.authorize < f.callback < f.exchange < f.token < |events|
    requires events[f.authorize].0.Authorize? && events[f.exchange].0.Exchanged?
  {
    && (forall k :: f.authorize < k < f.callback ==> !(events[k].0.Callback? && events[k].0.state == events[f.authorize].0.draw))
    && (forall k :: f.callback < k < f.exchange ==> !(events[k].0.Exchanged? && events[k].0.id == id))
    && (forall k :: f.exchange < k < f.token ==> !(events[k].0.Token? && events[k].0.code == events[f.exchange].0.draw))
  }

  /** The transaction that such a flow opens. */
  function Opened(ttls: Ttls, a: (Event, int)): Transaction
    requires a.0.Authorize? && a.0.challenge.Some?
  {
    Transaction(a.0.clientId, a.0.clientState, a.0.redirectUri, a.0.challenge.value, a.0.verifier, a.0.nonce, a.1 + ttls.transaction)
  }

  /** The callback of such a flow goes upstream. */
  lemma HonestFlowGoesUpstream(ttls: Ttls, events: seq<(Event, int)>, worlds: seq<World>, f: Flow, clientState: string,
                               uri: string, verifier: string, identity: Identity, id: nat)
    requires Run(ttls, events, worlds) && Honest(ttls, events, f, clientState, uri, verifier, identity, id)
    requires Undisturbed(events, f, id)
    ensures Answer(ttls, events, worlds, f.callback).Exchanging?
    ensures Holds(worlds[f.callback + 1].st, PendingSlot(Answer(ttls, events, worlds, f.callback).id),
                  OfTransaction(Opened(ttls, events[f.authorize])))
  {
    hide Handle, Holds, Answer, IsAllowedRedirectUri;
    RegisteredMayAuthorize(ttls, events, worlds, f.register, f.authorize);
    var a := events[f.authorize];
    assert Fresh(worlds[f.authorize].st, a.0);
    StateWorks(ttls, events, worlds, f.authorize + 1, f.callback, a.0.draw, Opened(ttls, a));
  }

  /** The exchange of such a flow sends the client back with its own state and a code for the identity. */
  lemma HonestFlowGetsACode(ttls: Ttls, events: seq<(Event, int)>, worlds: seq<World>, f: Flow, clientState: string,
                            uri: string, verifier: string, identity: Identity, id: nat)
    requires Run(ttls, events, worlds) && Honest(ttls, events, f, clientState, uri, verifier, identity, id)
    requires Undisturbed(events, f, id) && Answer(ttls, events, worlds, f.callback) == Exchanging(id)
    ensures var x := events[f.exchange];
            && Answer(ttls, events, worlds, f.exchange) == RedirectCode(uri, x.0.draw, clientState)
            && Holds(worlds[f.exchange + 1].st, CodeSlot(x.0.draw),
                     OfCode(Code(events[f.register].0.draw, uri, S256(verifier), identity, Min(identity.expiresAt, x.1 + ttls.code))))
  {
    hide Handle, Holds, Answer, IsAllowedRedirectUri;
    HonestFlowGoesUpstream(ttls, events, worlds, f, clientState, uri, verifier, identity, id);
    ExchangeWorks(ttls, events, worlds, f.callback + 1, f.exchange, id, Opened(ttls, events[f.authorize]));
  }

  /**
   Whatever the other requests of a run are, an honest client whose state, exchange and code nobody else
   presents gets a session for its own identity.
  */
  lemma HonestFlowGetsASession(ttls: Ttls, events: seq<(Event, int)>, worlds: seq<World>, f: Flow, clientState: string,
                               uri: string, verifier: string, identity: Identity, id: nat)
    requires Run(ttls, events, worlds) && Honest(ttls, events, f, clientState, uri, verifier, identity, id)
    requires Undisturbed(events, f, id) && Answer(ttls, events, worlds, f.callback) == Exchanging(id)
    ensures var t := events[f.token];
            && Answer(ttls, events, worlds, f.token) == Issued(t.0.draw)
            && Holds(worlds[f.token + 1].st, SessionSlot(t.0.draw), OfSession(Session(identity, t.1 + t.0.wait + ttls.session)))
  {
    hide Handle, Holds, Answer, IsAllowedRedirectUri;
    HonestFlowGetsACode(ttls, events, worlds, f, clientState, uri, verifier, identity, id);
    var r, x := events[f.register], events[f.exchange];
    var code := Code(r.0.draw, uri, S256(verifier), identity, Min(identity.expiresAt, x.1 + ttls.code));
    assert Fresh(worlds[f.exchange].st, x.0);
    CodeWorks(ttls, events, worlds, f.exchange + 1, f.token, x.0.draw, code);
  }

  // ---------------------------------------------------------------- signing out

  lemma TicketCarries(ttls: Ttls, st: State, e: Event, now: int, s: string)
    requires s in Handle(ttls, st, e, now).0.tickets
    ensures || (s in st.tickets && Handle(ttls, st, e, now).0.tickets[s] == st.tickets[s])
            || (e.LogoutTicket? && Digest(e.token) in st.sessions && Handle(ttls, st, e, now).1 == TicketIssued(s)
                && Handle(ttls, st, e, now).0.tickets[s].idToken == st.sessions[Digest(e.token)].identity.idToken)
  {
    hide IsAllowedRedirectUri, AcceptsAuthorization, Redeems;
  }

  /** The point of a run at which a stored ticket was bought, and the session it was bought with. */
  lemma {:induction false} TicketSale(ttls: Ttls, events: seq<(Event, int)>, worlds: seq<World>, n: nat, s: string) returns (i: nat)
    requires Run(ttls, events, worlds) && n <= |events| && s in worlds[n].st.tickets
    ensures i < n && events[i].0.LogoutTicket? && Answer(ttls, events, worlds, i) == TicketIssued(s)
    ensures Digest(events[i].0.token) in worlds[i].st.sessions
    ensures worlds[n].st.tickets[s].idToken == worlds[i].st.sessions[Digest(events[i].0.token)].identity.idToken
  {
    hide Handle, Fresh;
    assert n > 0;
    TicketCarries(ttls, worlds[n - 1].st, events[n - 1].0, events[n - 1].1, s);
    if s in worlds[n - 1].st.tickets && worlds[n].st.tickets[s] == worlds[n - 1].st.tickets[s] {
      i := TicketSale(ttls, events, worlds, n - 1, s);
    } else {
      i := n - 1;
    }
  }

  lemma SignsOutWith(ttls: Ttls, st: State, e: Event, now: int, idToken: string)
    requires Handle(ttls, st, e, now).1 == SignedOut(idToken)
    ensures e.Logout? && e.ticket in st.tickets && st.tickets[e.ticket].idToken == idToken
  {
    hide IsAllowedRedirectUri, AcceptsAuthorization, Redeems;
  }

  /**
   Whoever is sent to sign out takes along the ID token of the session whose token bought the ticket, which is
   the ID token that the exchange of that session's own flow brought.
  */
  lemma SignOutCarriesItsOwnIdToken(ttls: Ttls, events: seq<(Event, int)>, worlds: seq<World>, n: nat, idToken: string)
      returns (i: nat, o: Origin, issued: nat)
    requires Run(ttls, events, worlds) && n < |events| && Answer(ttls, events, worlds, n) == SignedOut(idToken)
    ensures i < n && events[i].0.LogoutTicket? && events[n].0.Logout?
    ensures Answer(ttls, events, worlds, i) == TicketIssued(events[n].0.ticket)
    ensures var d := Digest(events[i].0.token);
            && d in worlds[i].st.sessions && worlds[i].st.sessions[d].identity.idToken == idToken
            && FromToken(ttls, worlds[i].trace, o, issued, d.token, worlds[i].st.sessions[d])
  {
    hide Handle, Fresh, FromToken;
    SignsOutWith(ttls, worlds[n].st, events[n].0, events[n].1, idToken);
    i := TicketSale(ttls, events, worlds, n, events[n].0.ticket);
    o, issued := SessionsHaveProvenance(ttls, events, worlds, i, Digest(events[i].0.token));
  }
}
