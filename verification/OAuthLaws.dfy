/** Provenance and single use over whole runs of the gateway's OAuth handlers. */
module OAuthLaws {
  import opened Results
  import opened OAuthFlow

  datatype Step = Step(event: Event, now: int, response: Response)

  /** The stores, and everything requested and answered so far. */
  datatype World = World(st: State, trace: seq<Step>)

  function Next(ttls: Ttls, w: World, e: Event, now: int): World {
    var r := Handle(ttls, w.st, e, now);
    World(r.0, w.trace + [Step(e, now, r.1)])
  }

  predicate Run(ttls: Ttls, events: seq<(Event, int)>, worlds: seq<World>) {
    && |worlds| == |events| + 1
    && worlds[0] == World(START, [])
    && forall i :: 0 <= i < |events| ==>
         Fresh(worlds[i].st, events[i].0) && worlds[i + 1] == Next(ttls, worlds[i], events[i].0, events[i].1)
  }

  // ---------------------------------------------------------------- provenance

  /** The steps a stored object goes back to. */
  datatype Origin = Origin(
    registered: nat, authorized: nat, consumed: nat, minted: nat, state: string, id: nat, txn: Transaction)

  /** A registered client was sent upstream with its own state, redirect URI and challenge. */
  predicate FromAuthorization(ttls: Ttls, t: seq<Step>, o: Origin) {
    && o.registered < o.authorized < |t|
    && t[o.registered].event.Register?
    && t[o.registered].response == Registered(o.txn.clientId)
    && o.txn.redirectUri in Texts(t[o.registered].event.uris)
    && (forall i :: 0 <= i < |t[o.registered].event.uris| ==> IsAllowedRedirectUri(t[o.registered].event.uris[i]))
    && o.txn.expiresAt == t[o.authorized].now + ttls.transaction
    && var e := t[o.authorized].event;
       && e.Authorize?
       && t[o.authorized].response == SentUpstream(o.state, o.txn.nonce)
       && e.clientId == o.txn.clientId && e.redirectUri == o.txn.redirectUri
       && e.clientState == o.txn.clientState && e.challenge == Some(o.txn.challenge)
  }

  predicate FromCallback(ttls: Ttls, t: seq<Step>, o: Origin) {
    && FromAuthorization(ttls, t, o)
    && o.authorized < o.consumed < |t|
    && t[o.consumed].event.Callback? && t[o.consumed].event.state == o.state
    && t[o.consumed].response == Exchanging(o.id)
    && t[o.consumed].now < o.txn.expiresAt
  }

  predicate FromExchange(ttls: Ttls, t: seq<Step>, o: Origin, code: string, c: Code) {
    && FromCallback(ttls, t, o)
    && o.consumed < o.minted < |t|
    && t[o.minted].event.Exchanged? && t[o.minted].event.id == o.id
    && t[o.minted].event.identity == Some(c.identity)
    && t[o.minted].response == RedirectCode(o.txn.redirectUri, code, o.txn.clientState)
    && c.clientId == o.txn.clientId && c.redirectUri == o.txn.redirectUri && c.challenge == o.txn.challenge
    && c.expiresAt == Min(c.identity.expiresAt, t[o.minted].now + ttls.code)
  }

  /** The code that a token request redeems, if it matches; it lives no longer than the identity. */
  function Redeemed(ttls: Ttls, e: Event, s: Session, minted: int): Code
    requires e.Token?
  {
    Code(e.clientId, e.redirectUri, S256(e.verifier), s.identity, Min(s.identity.expiresAt, minted + ttls.code))
  }

  /** The token request that was answered with `token` matched the code and the transaction, in time. */
  predicate FromToken(ttls: Ttls, t: seq<Step>, o: Origin, issued: nat, token: string, s: Session) {
    && o.minted < issued < |t|
    && t[issued].event.Token?
    && t[issued].response == Issued(token)
    && var code := Redeemed(ttls, t[issued].event, s, t[o.minted].now);
       && FromExchange(ttls, t, o, t[issued].event.code, code)
       && t[issued].now < code.expiresAt
       && s.expiresAt == t[issued].now + t[issued].event.wait + ttls.session
  }

  lemma AuthorizationGrows(ttls: Ttls, t: seq<Step>, x: Step, o: Origin)
    requires FromAuthorization(ttls, t, o)
    ensures FromAuthorization(ttls, t + [x], o) && o.authorized < |t|
  {
  }

  lemma CallbackGrows(ttls: Ttls, t: seq<Step>, x: Step, o: Origin)
    requires FromCallback(ttls, t, o)
    ensures FromCallback(ttls, t + [x], o)
  {
    AuthorizationGrows(ttls, t, x, o);
    assert (t + [x])[o.consumed] == t[o.consumed];
  }

  lemma ExchangeGrows(ttls: Ttls, t: seq<Step>, x: Step, o: Origin, code: string, c: Code)
    requires FromExchange(ttls, t, o, code, c)
    ensures FromExchange(ttls, t + [x], o, code, c)
  {
    CallbackGrows(ttls, t, x, o);
    assert (t + [x])[o.minted] == t[o.minted];
  }

  lemma TokenGrows(ttls: Ttls, t: seq<Step>, x: Step, o: Origin, issued: nat, token: string, s: Session)
    requires FromToken(ttls, t, o, issued, token, s)
    ensures FromToken(ttls, t + [x], o, issued, token, s)
  {
    ExchangeGrows(ttls, t, x, o, t[issued].event.code, Redeemed(ttls, t[issued].event, s, t[o.minted].now));
    assert (t + [x])[issued] == t[issued] && (t + [x])[o.minted] == t[o.minted];
  }

  /** Where the entries of each store come from. */
  lemma TransactionSource(ttls: Ttls, st: State, e: Event, now: int, s: string)
    requires s in Handle(ttls, st, e, now).0.transactions
    ensures var r := Handle(ttls, st, e, now);
            || (s in st.transactions && r.0.transactions[s] == st.transactions[s])
            || (e.Authorize? && AcceptsAuthorization(st.clients, e) && s == e.draw && r.1 == SentUpstream(s, e.nonce)
                && var txn := r.0.transactions[s];
                   txn.clientId == e.clientId && txn.redirectUri == e.redirectUri && txn.clientState == e.clientState
                   && Some(txn.challenge) == e.challenge && txn.nonce == e.nonce
                   && txn.expiresAt == now + ttls.transaction)
  {
    hide IsAllowedRedirectUri, Redeems, LiveTicket;
  }

  lemma PendingSource(ttls: Ttls, st: State, e: Event, now: int, id: nat)
    requires id in Handle(ttls, st, e, now).0.pending
    ensures var r := Handle(ttls, st, e, now);
            || (id in st.pending && r.0.pending[id] == st.pending[id])
            || (e.Callback? && e.state in st.transactions && r.0.pending[id] == st.transactions[e.state]
                && r.1 == Exchanging(id) && now < r.0.pending[id].expiresAt)
  {
    hide IsAllowedRedirectUri, AcceptsAuthorization, Redeems, LiveTicket;
  }

  lemma CodeSource(ttls: Ttls, st: State, e: Event, now: int, c: string)
    requires c in Handle(ttls, st, e, now).0.codes
    ensures var r := Handle(ttls, st, e, now);
            || (c in st.codes && r.0.codes[c] == st.codes[c])
            || (e.Exchanged? && e.id in st.pending && e.identity == Some(r.0.codes[c].identity) && c == e.draw
                && var txn := st.pending[e.id];
                   r.0.codes[c].clientId == txn.clientId && r.0.codes[c].redirectUri == txn.redirectUri
                   && r.0.codes[c].challenge == txn.challenge
                   && r.0.codes[c].expiresAt == Min(r.0.codes[c].identity.expiresAt, now + ttls.code)
                   && r.1 == RedirectCode(txn.redirectUri, c, txn.clientState))
  {
    hide IsAllowedRedirectUri, AcceptsAuthorization, Redeems, LiveTicket;
  }

  lemma SessionSource(ttls: Ttls, st: State, e: Event, now: int, d: Digest)
    requires d in Handle(ttls, st, e, now).0.sessions
    ensures var r := Handle(ttls, st, e, now);
            || (d in st.sessions && r.0.sessions[d] == st.sessions[d])
            || (e.Token? && e.code in st.codes && Redeems(e, st.codes[e.code], now) && r.1 == Issued(d.token)
                && r.0.sessions[d] == Session(st.codes[e.code].identity, now + e.wait + ttls.session))
  {
    hide IsAllowedRedirectUri, AcceptsAuthorization, Redeems, LiveTicket;
  }

  lemma TicketSource(ttls: Ttls, st: State, e: Event, now: int, s: string)
    requires s in Handle(ttls, st, e, now).0.tickets
    ensures s in st.tickets || Handle(ttls, st, e, now).1 == TicketIssued(s)
  {
    hide IsAllowedRedirectUri, AcceptsAuthorization, Redeems;
  }

  ghost predicate KnownClients(w: World) {
    forall c :: c in w.st.clients ==>
      exists i: nat :: i < |w.trace| && Registers(w.trace[i], c, w.st.clients[c])
  }

  ghost predicate KnownTransactions(ttls: Ttls, w: World) {
    forall s :: s in w.st.transactions ==>
      exists o: Origin :: o.state == s && o.txn == w.st.transactions[s] && FromAuthorization(ttls, w.trace, o)
  }

  ghost predicate KnownPending(ttls: Ttls, w: World) {
    forall id :: id in w.st.pending ==>
      exists o: Origin :: o.id == id && o.txn == w.st.pending[id] && FromCallback(ttls, w.trace, o)
  }

  ghost predicate KnownCodes(ttls: Ttls, w: World) {
    forall c :: c in w.st.codes ==> exists o: Origin :: FromExchange(ttls, w.trace, o, c, w.st.codes[c])
  }

  ghost predicate KnownSessions(ttls: Ttls, w: World) {
    forall d :: d in w.st.sessions ==>
      exists o: Origin, issued: nat :: FromToken(ttls, w.trace, o, issued, d.token, w.st.sessions[d])
  }

  /** The step that registered a client with those redirect URIs, all of them allowed. */
  predicate Registers(x: Step, client: string, uris: seq<string>) {
    && x.event.Register? && x.response == Registered(client) && uris == Texts(x.event.uris)
    && forall k :: 0 <= k < |x.event.uris| ==> IsAllowedRedirectUri(x.event.uris[k])
  }

  lemma ClientSource(ttls: Ttls, st: State, e: Event, now: int, c: string)
    requires c in Handle(ttls, st, e, now).0.clients
    ensures var r := Handle(ttls, st, e, now);
            || (c in st.clients && r.0.clients[c] == st.clients[c])
            || Registers(Step(e, now, r.1), c, r.0.clients[c])
  {
  }

  lemma ClientsKept(ttls: Ttls, w: World, e: Event, now: int)
    requires KnownClients(w)
    ensures KnownClients(Next(ttls, w, e, now))
  {
    hide Handle, Registers;
    var w' := Next(ttls, w, e, now);
    forall c | c in w'.st.clients
      ensures exists i: nat :: i < |w'.trace| && Registers(w'.trace[i], c, w'.st.clients[c])
    {
      ClientSource(ttls, w.st, e, now, c);
      if c in w.st.clients && w'.st.clients[c] == w.st.clients[c] {
        var i: nat :| i < |w.trace| && Registers(w.trace[i], c, w.st.clients[c]);
        assert w'.trace[i] == w.trace[i];
      } else {
        assert Registers(w'.trace[|w.trace|], c, w'.st.clients[c]);
      }
    }
  }

  lemma TransactionsKept(ttls: Ttls, w: World, e: Event, now: int)
    requires KnownClients(w) && KnownTransactions(ttls, w)
    ensures KnownTransactions(ttls, Next(ttls, w, e, now))
  {
    hide Handle;
    var w' := Next(ttls, w, e, now);
    var x := Step(e, now, Handle(ttls, w.st, e, now).1);
    forall s | s in w'.st.transactions
      ensures exists o: Origin :: o.state == s && o.txn == w'.st.transactions[s] && FromAuthorization(ttls, w'.trace, o)
    {
      TransactionSource(ttls, w.st, e, now, s);
      if s in w.st.transactions && w'.st.transactions[s] == w.st.transactions[s] {
        var o: Origin :| o.state == s && o.txn == w.st.transactions[s] && FromAuthorization(ttls, w.trace, o);
        AuthorizationGrows(ttls, w.trace, x, o);
      } else {
        var i: nat :| i < |w.trace| && Registers(w.trace[i], e.clientId, w.st.clients[e.clientId]);
        var o := Origin(i, |w.trace|, 0, 0, s, 0, w'.st.transactions[s]);
        assert w'.trace[i] == w.trace[i] && w'.trace[|w.trace|] == x;
        assert FromAuthorization(ttls, w'.trace, o);
      }
    }
  }

  lemma PendingKept(ttls: Ttls, w: World, e: Event, now: int)
    requires KnownTransactions(ttls, w) && KnownPending(ttls, w)
    ensures KnownPending(ttls, Next(ttls, w, e, now))
  {
    hide Handle, FromAuthorization;
    var w' := Next(ttls, w, e, now);
    var x := Step(e, now, Handle(ttls, w.st, e, now).1);
    forall id | id in w'.st.pending
      ensures exists o: Origin :: o.id == id && o.txn == w'.st.pending[id] && FromCallback(ttls, w'.trace, o)
    {
      PendingSource(ttls, w.st, e, now, id);
      if id in w.st.pending && w'.st.pending[id] == w.st.pending[id] {
        var o: Origin :| o.id == id && o.txn == w.st.pending[id] && FromCallback(ttls, w.trace, o);
        CallbackGrows(ttls, w.trace, x, o);
      } else {
        var o: Origin :| o.state == e.state && o.txn == w.st.transactions[e.state] && FromAuthorization(ttls, w.trace, o);
        AuthorizationGrows(ttls, w.trace, x, o);
        AuthorizationIgnoresLater(ttls, w'.trace, o, |w.trace|, id);
        assert w'.trace[|w.trace|] == x;
        assert FromCallback(ttls, w'.trace, o.(consumed := |w.trace|, id := id));
      }
    }
  }

  /** The later parts of an origin do not matter to the earlier ones. */
  lemma AuthorizationIgnoresLater(ttls: Ttls, t: seq<Step>, o: Origin, consumed: nat, id: nat)
    requires FromAuthorization(ttls, t, o)
    ensures FromAuthorization(ttls, t, o.(consumed := consumed, id := id))
  {
  }

  lemma CallbackIgnoresLater(ttls: Ttls, t: seq<Step>, o: Origin, minted: nat)
    requires FromCallback(ttls, t, o)
    ensures FromCallback(ttls, t, o.(minted := minted))
  {
  }

  lemma CodesKept(ttls: Ttls, w: World, e: Event, now: int)
    requires KnownPending(ttls, w) && KnownCodes(ttls, w)
    ensures KnownCodes(ttls, Next(ttls, w, e, now))
  {
    hide Handle;
    hide FromAuthorization;
    var w' := Next(ttls, w, e, now);
    var x := Step(e, now, Handle(ttls, w.st, e, now).1);
    forall c | c in w'.st.codes
      ensures exists o: Origin :: FromExchange(ttls, w'.trace, o, c, w'.st.codes[c])
    {
      CodeSource(ttls, w.st, e, now, c);
      if c in w.st.codes && w'.st.codes[c] == w.st.codes[c] {
        var o: Origin :| FromExchange(ttls, w.trace, o, c, w.st.codes[c]);
        ExchangeGrows(ttls, w.trace, x, o, c, w.st.codes[c]);
      } else {
        var o: Origin :| o.id == e.id && o.txn == w.st.pending[e.id] && FromCallback(ttls, w.trace, o);
        CallbackGrows(ttls, w.trace, x, o);
        CallbackIgnoresLater(ttls, w'.trace, o, |w.trace|);
        assert w'.trace[|w.trace|] == x;
        assert FromExchange(ttls, w'.trace, o.(minted := |w.trace|), c, w'.st.codes[c]);
      }
    }
  }

  lemma RedeemingMakesASession(ttls: Ttls, t: seq<Step>, x: Step, o: Origin, token: string, c: Code)
    requires x.event.Token? && FromExchange(ttls, t, o, x.event.code, c) && Redeems(x.event, c, x.now)
    requires x.response == Issued(token)
    ensures FromToken(ttls, t + [x], o, |t|, token, Session(c.identity, x.now + x.event.wait + ttls.session))
  {
    hide FromCallback;
    ExchangeGrows(ttls, t, x, o, x.event.code, c);
    assert (t + [x])[|t|] == x && (t + [x])[o.minted] == t[o.minted];
  }

  lemma SessionsKept(ttls: Ttls, w: World, e: Event, now: int)
    requires KnownCodes(ttls, w) && KnownSessions(ttls, w)
    ensures KnownSessions(ttls, Next(ttls, w, e, now))
  {
    hide Handle, FromToken, FromExchange, Redeems;
    var w' := Next(ttls, w, e, now);
    var x := Step(e, now, Handle(ttls, w.st, e, now).1);
    forall d | d in w'.st.sessions
      ensures exists o: Origin, issued: nat :: FromToken(ttls, w'.trace, o, issued, d.token, w'.st.sessions[d])
    {
      SessionSource(ttls, w.st, e, now, d);
      if d in w.st.sessions && w'.st.sessions[d] == w.st.sessions[d] {
        var o: Origin, issued: nat :| FromToken(ttls, w.trace, o, issued, d.token, w.st.sessions[d]);
        TokenGrows(ttls, w.trace, x, o, issued, d.token, w.st.sessions[d]);
      } else {
        var o: Origin :| FromExchange(ttls, w.trace, o, e.code, w.st.codes[e.code]);
        RedeemingMakesASession(ttls, w.trace, x, o, d.token, w.st.codes[e.code]);
        assert FromToken(ttls, w'.trace, o, |w.trace|, d.token, w'.st.sessions[d]);
      }
    }
  }

  // ---------------------------------------------------------------- single use

  /** The text, if any, that the response hands out as a state, code, token or ticket. */
  function HandedOut(r: Response): Option<string> {
    match r
    case Registered(c) => Some(c)
    case SentUpstream(s, _) => Some(s)
    case RedirectCode(_, c, _) => Some(c)
    case Issued(t) => Some(t)
    case TicketIssued(t) => Some(t)
    case _ => None
  }

  predicate HandedOutWasDrawn(w: World) {
    && (forall i :: 0 <= i < |w.trace| && HandedOut(w.trace[i].response).Some? ==>
          HandedOut(w.trace[i].response).value in w.st.drawn)
    && (forall s :: s in w.st.transactions ==> s in w.st.drawn)
    && (forall s :: s in w.st.codes ==> s in w.st.drawn)
    && (forall d :: d in w.st.sessions ==> d.token in w.st.drawn)
    && (forall s :: s in w.st.tickets ==> s in w.st.drawn)
  }

  predicate NeverTwiceHandedOut(w: World) {
    forall i, j :: 0 <= i < j < |w.trace| && HandedOut(w.trace[i].response).Some? ==>
      HandedOut(w.trace[i].response) != HandedOut(w.trace[j].response)
  }

  /** Every callback that went upstream has its own exchange. */
  predicate ExchangesDiffer(w: World) {
    && (forall i :: 0 <= i < |w.trace| && w.trace[i].response.Exchanging? ==> w.trace[i].response.id < w.st.nextId)
    && (forall i, j :: 0 <= i < j < |w.trace| && w.trace[i].response.Exchanging? ==>
          w.trace[i].response != w.trace[j].response)
  }

  /** Whatever has been presented for its own use after it was handed out is gone for good. */
  predicate UsedIsGone(w: World) {
    forall i, j :: 0 <= i < j < |w.trace| && HandedOut(w.trace[i].response).Some?
                   && IsUse(w.trace[i].response, w.trace[j].event) ==>
                     !StillThere(w.st, w.trace[i].response)
  }

  /** The request presents the text in the role in which the response handed it out. */
  predicate IsUse(r: Response, e: Event) {
    match r
    case SentUpstream(s, _) => e.Callback? && e.state == s
    case RedirectCode(_, c, _) => e.Token? && e.code == c
    case Issued(t) => (e.Revoke? || e.LogoutTicket?) && e.token == t
    case TicketIssued(t) => e.Logout? && e.ticket == t
    case _ => false
  }

  predicate StillThere(st: State, r: Response) {
    match r
    case SentUpstream(s, _) => s in st.transactions
    case RedirectCode(_, c, _) => c in st.codes
    case Issued(t) => Digest(t) in st.sessions
    case TicketIssued(t) => t in st.tickets
    case _ => false
  }

  lemma HandedOutIsFresh(ttls: Ttls, st: State, e: Event, now: int)
    ensures var r := Handle(ttls, st, e, now);
            && (HandedOut(r.1).Some? ==> HandedOut(r.1).value in Draws(e) && HandedOut(r.1).value in r.0.drawn)
            && st.drawn <= r.0.drawn <= st.drawn + Draws(e)
  {
  }

  lemma DrawnKept(ttls: Ttls, w: World, e: Event, now: int)
    requires HandedOutWasDrawn(w) && Fresh(w.st, e)
    ensures HandedOutWasDrawn(Next(ttls, w, e, now))
  {
    hide Handle;
    hide AcceptsAuthorization;
    hide Redeems;
    HandedOutIsFresh(ttls, w.st, e, now);
    var st' := Handle(ttls, w.st, e, now).0;
    forall s | s in st'.transactions ensures s in st'.drawn {
      TransactionSource(ttls, w.st, e, now, s);
    }
    forall c | c in st'.codes ensures c in st'.drawn {
      CodeSource(ttls, w.st, e, now, c);
    }
    forall d | d in st'.sessions ensures d.token in st'.drawn {
      SessionSource(ttls, w.st, e, now, d);
    }
    forall s | s in st'.tickets ensures s in st'.drawn {
      TicketSource(ttls, w.st, e, now, s);
    }
  }

  lemma NeverTwiceKept(ttls: Ttls, w: World, e: Event, now: int)
    requires HandedOutWasDrawn(w) && NeverTwiceHandedOut(w) && Fresh(w.st, e)
    ensures NeverTwiceHandedOut(Next(ttls, w, e, now))
  {
    HandedOutIsFresh(ttls, w.st, e, now);
  }

  lemma NextExchange(ttls: Ttls, st: State, e: Event, now: int)
    ensures var r := Handle(ttls, st, e, now);
            r.0.nextId >= st.nextId && (r.1.Exchanging? ==> r.1.id == st.nextId && r.0.nextId > st.nextId)
  {
  }

  lemma ExchangesKept(ttls: Ttls, w: World, e: Event, now: int)
    requires ExchangesDiffer(w)
    ensures ExchangesDiffer(Next(ttls, w, e, now))
  {
    hide Handle;
    NextExchange(ttls, w.st, e, now);
  }

  /** Presenting a text removes it, and only drawing it would store it. */
  lemma UseRemoves(ttls: Ttls, st: State, e: Event, now: int, r: Response)
    requires HandedOut(r).Some? && HandedOut(r).value != "" && IsUse(r, e)
    ensures !StillThere(Handle(ttls, st, e, now).0, r)
  {
    hide Handle;
    match e
    case Callback(_, _, _) => CallbackConsumes(ttls, st, e, now);
    case Token(_, _, _, _, _, _, _, _) => TokenConsumes(ttls, st, e, now);
    case Logout(_) => LogoutConsumes(ttls, st, e, now);
    case _ => SignOutConsumes(ttls, st, e, now);
  }

  lemma CallbackConsumes(ttls: Ttls, st: State, e: Event, now: int)
    requires e.Callback? && e.state != ""
    ensures e.state !in Handle(ttls, st, e, now).0.transactions
  {
  }

  lemma TokenConsumes(ttls: Ttls, st: State, e: Event, now: int)
    requires e.Token? && e.code != ""
    ensures e.code !in Handle(ttls, st, e, now).0.codes
  {
  }

  lemma LogoutConsumes(ttls: Ttls, st: State, e: Event, now: int)
    requires e.Logout? && e.ticket != ""
    ensures e.ticket !in Handle(ttls, st, e, now).0.tickets
  {
  }

  lemma SignOutConsumes(ttls: Ttls, st: State, e: Event, now: int)
    requires (e.Revoke? || e.LogoutTicket?) && e.token != ""
    ensures Digest(e.token) !in Handle(ttls, st, e, now).0.sessions
  {
  }

  lemma OnlyDrawsStore(ttls: Ttls, st: State, e: Event, now: int, r: Response)
    requires HandedOut(r).Some? && HandedOut(r).value in st.drawn && Fresh(st, e) && !StillThere(st, r)
    ensures !StillThere(Handle(ttls, st, e, now).0, r)
  {
    hide Handle;
    hide AcceptsAuthorization;
    hide Redeems;
    HandedOutIsFresh(ttls, st, e, now);
    var st' := Handle(ttls, st, e, now).0;
    if StillThere(st', r) {
      match r
      case SentUpstream(s, _) => TransactionSource(ttls, st, e, now, s);
      case RedirectCode(_, c, _) => CodeSource(ttls, st, e, now, c);
      case Issued(t) => SessionSource(ttls, st, e, now, Digest(t));
      case TicketIssued(t) => TicketSource(ttls, st, e, now, t);
      case _ =>
    }
  }

  predicate NonEmptyDraws(w: World) {
    "" !in w.st.drawn
  }

  lemma UsedKept(ttls: Ttls, w: World, e: Event, now: int)
    requires HandedOutWasDrawn(w) && UsedIsGone(w) && NonEmptyDraws(w) && Fresh(w.st, e)
    ensures UsedIsGone(Next(ttls, w, e, now))
  {
    hide Handle;
    var w' := Next(ttls, w, e, now);
    forall i, j | 0 <= i < j < |w'.trace| && HandedOut(w'.trace[i].response).Some?
                  && IsUse(w'.trace[i].response, w'.trace[j].event)
      ensures !StillThere(w'.st, w'.trace[i].response)
    {
      assert w'.trace[i] == w.trace[i];
      if j < |w.trace| {
        assert w'.trace[j] == w.trace[j];
        OnlyDrawsStore(ttls, w.st, e, now, w.trace[i].response);
      } else {
        UseRemoves(ttls, w.st, e, now, w.trace[i].response);
      }
    }
  }

  // ---------------------------------------------------------------- whole runs

  ghost predicate Inv(ttls: Ttls, w: World) {
    && KnownClients(w) && KnownTransactions(ttls, w) && KnownPending(ttls, w) && KnownCodes(ttls, w) && KnownSessions(ttls, w)
    && HandedOutWasDrawn(w) && NeverTwiceHandedOut(w) && ExchangesDiffer(w) && UsedIsGone(w) && NonEmptyDraws(w)
  }

  lemma StepKeepsInv(ttls: Ttls, w: World, e: Event, now: int)
    requires Inv(ttls, w) && Fresh(w.st, e)
    ensures Inv(ttls, Next(ttls, w, e, now))
  {
    ClientsKept(ttls, w, e, now);
    TransactionsKept(ttls, w, e, now);
    PendingKept(ttls, w, e, now);
    CodesKept(ttls, w, e, now);
    SessionsKept(ttls, w, e, now);
    DrawnKept(ttls, w, e, now);
    NeverTwiceKept(ttls, w, e, now);
    ExchangesKept(ttls, w, e, now);
    UsedKept(ttls, w, e, now);
    HandedOutIsFresh(ttls, w.st, e, now);
  }

  lemma {:induction false} RunKeepsInv(ttls: Ttls, events: seq<(Event, int)>, worlds: seq<World>, n: nat)
    requires Run(ttls, events, worlds) && n <= |events|
    ensures Inv(ttls, worlds[n])
  {
    if n > 0 {
      RunKeepsInv(ttls, events, worlds, n - 1);
      StepKeepsInv(ttls, worlds[n - 1], events[n - 1].0, events[n - 1].1);
    }
  }

  /**
   Every stored session goes back to one token request, one code, one callback, one authorization
   and one registration, in that order and each within the lifetime of what it consumed, whose
   client, redirect URI and challenge all agree with the token request's client, redirect URI and
   verifier.
  */
  lemma SessionsHaveProvenance(ttls: Ttls, events: seq<(Event, int)>, worlds: seq<World>, n: nat, d: Digest)
      returns (o: Origin, issued: nat)
    requires Run(ttls, events, worlds) && n <= |events| && d in worlds[n].st.sessions
    ensures FromToken(ttls, worlds[n].trace, o, issued, d.token, worlds[n].st.sessions[d])
  {
    RunKeepsInv(ttls, events, worlds, n);
    o, issued :| FromToken(ttls, worlds[n].trace, o, issued, d.token, worlds[n].st.sessions[d]);
  }

  lemma HandedOutOnce(w: World, i: nat, j: nat)
    requires NeverTwiceHandedOut(w) && i < |w.trace| && j < |w.trace| && HandedOut(w.trace[i].response).Some?
    requires HandedOut(w.trace[i].response) == HandedOut(w.trace[j].response)
    ensures i == j
  {}

  lemma ExchangedOnce(w: World, i: nat, j: nat)
    requires ExchangesDiffer(w) && i < |w.trace| && j < |w.trace| && w.trace[i].response.Exchanging?
    requires w.trace[i].response == w.trace[j].response
    ensures i == j
  {}

  /** That provenance is unique: same token request, code, callback, authorization and client. */
  lemma ProvenanceIsUnique(ttls: Ttls, events: seq<(Event, int)>, worlds: seq<World>, n: nat, token: string,
                           o: Origin, issued: nat, s: Session, o': Origin, issued': nat, s': Session)
    requires Run(ttls, events, worlds) && n <= |events|
    requires FromToken(ttls, worlds[n].trace, o, issued, token, s) && FromToken(ttls, worlds[n].trace, o', issued', token, s')
    ensures issued == issued' && s.identity == s'.identity
    ensures o.minted == o'.minted && o.consumed == o'.consumed && o.authorized == o'.authorized
    ensures o.registered == o'.registered && o.state == o'.state
  {
    hide Handle, KnownClients, KnownTransactions, KnownPending, KnownCodes, KnownSessions, UsedIsGone;
    hide NeverTwiceHandedOut, ExchangesDiffer, HandedOutWasDrawn, NonEmptyDraws;
    RunKeepsInv(ttls, events, worlds, n);
    HandedOutOnce(worlds[n], issued, issued');
    HandedOutOnce(worlds[n], o.minted, o'.minted);
    ExchangedOnce(worlds[n], o.consumed, o'.consumed);
    HandedOutOnce(worlds[n], o.authorized, o'.authorized);
    HandedOutOnce(worlds[n], o.registered, o'.registered);
  }

  /** What a request that presents something already gone gets. */
  predicate Refused(ttls: Ttls, st: State, e: Event, now: int) {
    var r := Handle(ttls, st, e, now);
    match e
    case Callback(_, _, _) => r.1 == BadRequest
    case Token(_, _, _, _, _, _, _, _) => r.1 == InvalidGrant
    case LogoutTicket(_, _, _) => r.1 == InvalidToken
    case Logout(_) => r.1 == BadRequest
    case Revoke(_) => r.0 == st
    case _ => true
  }

  lemma GoneIsRefused(ttls: Ttls, st: State, e: Event, now: int, r: Response)
    requires IsUse(r, e) && !StillThere(st, r)
    ensures Refused(ttls, st, e, now)
  {
    if e.Revoke? {
      assert st.sessions - {Digest(e.token)} == st.sessions;
    }
  }

  /**
   A state, code, session token or logout ticket works at most once: after it was handed out and
   presented in its role, whatever came of it, presenting it again is refused.
  */
  lemma PresentedTwiceIsRefused(ttls: Ttls, events: seq<(Event, int)>, worlds: seq<World>, n: nat, i: nat, j: nat)
    requires Run(ttls, events, worlds) && n < |events| && i < j < |worlds[n].trace|
    requires var r := worlds[n].trace[i].response;
             HandedOut(r).Some? && IsUse(r, worlds[n].trace[j].event) && IsUse(r, events[n].0)
    ensures Refused(ttls, worlds[n].st, events[n].0, events[n].1)
  {
    hide Handle;
    hide Refused;
    var r := worlds[n].trace[i].response;
    RunKeepsInv(ttls, events, worlds, n);
    assert !StillThere(worlds[n].st, r);
    GoneIsRefused(ttls, worlds[n].st, events[n].0, events[n].1, r);
  }

  predicate CodesWithinIdentity(st: State) {
    forall c :: c in st.codes ==> st.codes[c].expiresAt <= st.codes[c].identity.expiresAt
  }

  lemma CodesStayWithinIdentity(ttls: Ttls, st: State, e: Event, now: int)
    requires CodesWithinIdentity(st)
    ensures CodesWithinIdentity(Handle(ttls, st, e, now).0)
  {
    var st' := Handle(ttls, st, e, now).0;
    forall c | c in st'.codes ensures st'.codes[c].expiresAt <= st'.codes[c].identity.expiresAt {
      if !e.Exchanged? {
        CodeSource(ttls, st, e, now, c);
      }
    }
  }

  lemma {:induction false} CodesDieWithIdentity(ttls: Ttls, events: seq<(Event, int)>, worlds: seq<World>, n: nat)
    requires Run(ttls, events, worlds) && n <= |events|
    ensures CodesWithinIdentity(worlds[n].st)
  {
    hide Handle, CodesWithinIdentity;
    if n > 0 {
      CodesDieWithIdentity(ttls, events, worlds, n - 1);
      CodesStayWithinIdentity(ttls, worlds[n - 1].st, events[n - 1].0, events[n - 1].1);
    } else {
      NoCodesAtFirst();
    }
  }

  lemma NoCodesAtFirst()
    ensures CodesWithinIdentity(START)
  {
  }

  /** Between the first and the last reading of the clock the identity, or a whole session, has expired. */
  predicate RanOut(ttls: Ttls, identity: Identity, e: Event, now: int)
    requires e.Token?
  {
    now < identity.expiresAt <= now + e.wait + e.pause || ttls.session <= e.pause
  }

  /**
   In every run the session store refuses the session of a token request exactly when the request
   redeems its code and time runs out between the readings of the clock; never at one reading.
  */
  lemma RedeemedCodeMakesALiveSession(ttls: Ttls, events: seq<(Event, int)>, worlds: seq<World>, n: nat)
    requires Run(ttls, events, worlds) && n < |events| && events[n].0.Token?
    ensures var st, e, now := worlds[n].st, events[n].0, events[n].1;
            && (Handle(ttls, st, e, now).1 == ServerError <==>
                  e.code != "" && e.code in st.codes && Redeems(e, st.codes[e.code], now)
                  && RanOut(ttls, st.codes[e.code].identity, e, now))
            && (ttls.Positive() && e.wait == e.pause == 0 ==> Handle(ttls, st, e, now).1 != ServerError)
  {
    CodesDieWithIdentity(ttls, events, worlds, n);
  }
}
