/**
 The gateway's OAuth handlers and the in-memory stores behind them: clients, authorization
 transactions, authorization codes, sessions and logout tickets.

 Digests are modelled by a free constructor, so different texts have different digests, and a
 drawn token is any text not drawn before.
*/
module OAuthFlow {
  import opened Results

  /** Configured lifetimes in seconds; every one is positive. */
  datatype Ttls = Ttls(transaction: nat, code: nat, ticket: nat, session: nat) {
    predicate Positive() { transaction > 0 && code > 0 && ticket > 0 && session > 0 }
  }

  /** A challenge is any text a client may send; some are digests of verifiers. */
  datatype Challenge = S256(verifier: string) | OtherText(text: string)

  datatype Digest = Digest(token: string)

  datatype RedirectUri = RedirectUri(text: string, parses: bool, hasHashOrLogin: bool, protocol: string, hostname: string)

  datatype Transaction = Transaction(
    clientId: string, clientState: string, redirectUri: string, challenge: Challenge,
    verifier: string, nonce: string, expiresAt: int)

  datatype Identity = Identity(idToken: string, subject: string, username: string, expiresAt: int)

  datatype Code = Code(
    clientId: string, redirectUri: string, challenge: Challenge, identity: Identity, expiresAt: int)

  datatype Session = Session(identity: Identity, expiresAt: int)

  datatype Ticket = Ticket(idToken: string, expiresAt: int)

  datatype State = State(
    clients: map<string, seq<string>>, transactions: map<string, Transaction>, pending: map<nat, Transaction>,
    codes: map<string, Code>, sessions: map<Digest, Session>, tickets: map<string, Ticket>,
    nextId: nat, drawn: set<string>)

  const START := State(map[], map[], map[], map[], map[], map[], 0, {})

  /**
   One request to the gateway, or the end of an upstream exchange, with the tokens it may draw. A
   handler that reads the clock again does so `wait` later, and once more `pause` after that.
  */
  datatype Event =
    | Register(uris: seq<RedirectUri>, draw: string)
    | Authorize(clientId: string, redirectUri: string, responseType: string, clientState: string,
                challenge: Option<Challenge>, challengeMethod: string, draw: string, verifier: string, nonce: string)
    | Callback(state: string, error: string, upstreamCode: string)
    | Exchanged(id: nat, identity: Option<Identity>, draw: string)
    | Token(code: string, clientId: string, redirectUri: string, verifier: string, grantType: string, draw: string,
            wait: nat, pause: nat)
    | Revoke(token: string)
    | LogoutTicket(token: string, draw: string, wait: nat)
    | Logout(ticket: string)
    | Use(token: string)

  datatype Response =
    | BadRequest
    | Registered(clientId: string)
    | SentUpstream(state: string, nonce: string)
    | Exchanging(id: nat)
    | RedirectError(redirectUri: string, clientState: string)
    | RedirectCode(redirectUri: string, code: string, clientState: string)
    | BadGateway
    | InvalidGrant
    | ServerError
    | Issued(token: string)
    | Done
    | InvalidToken
    | TicketIssued(ticket: string)
    | SignedOut(idToken: string)
    | Served(session: Session)

  predicate IsAllowedRedirectUri(u: RedirectUri) {
    && u.parses && !u.hasHashOrLogin
    && (u.protocol == "https:" || (u.protocol == "http:" && (u.hostname == "127.0.0.1" || u.hostname == "localhost")))
  }

  function Texts(uris: seq<RedirectUri>): seq<string> {
    seq(|uris|, i requires 0 <= i < |uris| => uris[i].text)
  }

  predicate AcceptsAuthorization(clients: map<string, seq<string>>, e: Event)
    requires e.Authorize?
  {
    && e.clientId != "" && e.clientId in clients
    && e.redirectUri != "" && e.redirectUri in clients[e.clientId]
    && e.responseType == "code" && e.clientState != ""
    && e.challenge.Some? && e.challenge != Some(OtherText(""))
    && e.challengeMethod == "S256"
  }

  /** Section 4.1.3 of RFC 6749 and section 4.6 of RFC 7636: the request must match the code. */
  predicate Redeems(e: Event, code: Code, now: int)
    requires e.Token?
  {
    && code.expiresAt > now
    && e.grantType == "authorization_code"
    && e.clientId == code.clientId
    && e.redirectUri == code.redirectUri
    && e.verifier != "" && code.challenge == S256(e.verifier)
  }

  predicate LiveTicket(t: Ticket, now: int) { t.expiresAt > now }

  /** What a handler does to the stores, and what it answers. */
  function Handle(ttls: Ttls, st: State, e: Event, now: int): (State, Response) {
    match e
    case Register(uris, draw) =>
      if uris == [] || exists i :: 0 <= i < |uris| && !IsAllowedRedirectUri(uris[i]) then (st, BadRequest)
      else (st.(clients := st.clients[draw := Texts(uris)], drawn := st.drawn + {draw}), Registered(draw))
    case Authorize(clientId, redirectUri, _, clientState, challenge, _, draw, verifier, nonce) =>
      if !AcceptsAuthorization(st.clients, e) then (st, BadRequest)
      else
        var txn := Transaction(clientId, clientState, redirectUri, challenge.value, verifier, nonce, now + ttls.transaction);
        (st.(transactions := st.transactions[draw := txn], drawn := st.drawn + {draw, verifier, nonce}),
         SentUpstream(draw, nonce))
    case Callback(state, error, upstreamCode) =>
      var consumed := st.(transactions := st.transactions - {state});
      if state == "" then (st, BadRequest)
      else if state !in st.transactions || st.transactions[state].expiresAt <= now then (consumed, BadRequest)
      else
        var txn := st.transactions[state];
        if error != "" then (consumed, RedirectError(txn.redirectUri, txn.clientState))
        else if upstreamCode == "" then (consumed, BadRequest)
        else (consumed.(pending := st.pending[st.nextId := txn], nextId := st.nextId + 1), Exchanging(st.nextId))
    case Exchanged(id, identity, draw) =>
      if id !in st.pending then (st, BadGateway)
      else
        var txn := st.pending[id];
        var ended := st.(pending := st.pending - {id});
        if identity.None? then (ended, BadGateway)
        else
          var code := Code(txn.clientId, txn.redirectUri, txn.challenge, identity.value,
                           Min(identity.value.expiresAt, now + ttls.code));
          (ended.(codes := st.codes[draw := code], drawn := st.drawn + {draw}),
           RedirectCode(txn.redirectUri, draw, txn.clientState))
    case Token(code, _, _, _, _, draw, wait, pause) =>
      var consumed := st.(codes := st.codes - {code});
      if code == "" then (st, InvalidGrant)
      else if code !in st.codes || !Redeems(e, st.codes[code], now) then (consumed, InvalidGrant)
      else
        var session := Session(st.codes[code].identity, now + wait + ttls.session);
        if session.identity.expiresAt <= now + wait + pause || session.expiresAt <= now + wait + pause
        then (consumed, ServerError)
        else (consumed.(sessions := st.sessions[Digest(draw) := session], drawn := st.drawn + {draw}), Issued(draw))
    case Revoke(token) =>
      (if token == "" then st else st.(sessions := st.sessions - {Digest(token)}), Done)
    case LogoutTicket(token, draw, wait) =>
      if token == "" then (st, InvalidToken)
      else
        var consumed := st.(sessions := st.sessions - {Digest(token)});
        if Digest(token) !in st.sessions || st.sessions[Digest(token)].expiresAt <= now then (consumed, InvalidToken)
        else
          var kept := map t | t in st.tickets && LiveTicket(st.tickets[t], now + wait) :: st.tickets[t];
          (consumed.(tickets := kept[draw := Ticket(st.sessions[Digest(token)].identity.idToken, now + wait + ttls.ticket)],
                     drawn := st.drawn + {draw}),
           TicketIssued(draw))
    case Logout(ticket) =>
      if ticket == "" then (st, BadRequest)
      else
        var consumed := st.(tickets := st.tickets - {ticket});
        if ticket !in st.tickets || !LiveTicket(st.tickets[ticket], now) || st.tickets[ticket].idToken == "" then
          (consumed, BadRequest)
        else (consumed, SignedOut(st.tickets[ticket].idToken))
    case Use(token) =>
      if Digest(token) !in st.sessions then (st, InvalidToken)
      else if st.sessions[Digest(token)].expiresAt <= now then
        (st.(sessions := st.sessions - {Digest(token)}), InvalidToken)
      else (st, Served(st.sessions[Digest(token)]))
  }

  /** The tokens an event would draw. */
  function Draws(e: Event): set<string> {
    match e
    case Register(_, draw) => {draw}
    case Authorize(_, _, _, _, _, _, draw, verifier, nonce) => {draw, verifier, nonce}
    case Exchanged(_, _, draw) => {draw}
    case Token(_, _, _, _, _, draw, _, _) => {draw}
    case LogoutTicket(_, draw, _) => {draw}
    case _ => {}
  }

  /** Tokens are drawn fresh, non-empty and distinct. */
  predicate Fresh(st: State, e: Event) {
    && Draws(e) !! st.drawn && "" !in Draws(e)
    && (e.Authorize? ==> e.draw != e.verifier && e.draw != e.nonce && e.verifier != e.nonce)
  }

  // ---------------------------------------------------------------- the session store

  class SessionStore {
    var sessions: map<Digest, Session>

    constructor ()
      ensures sessions == map[]
    {
      sessions := map[];
    }

    method Create(session: Session, draw: string, now: int) returns (r: Result<string, ()>)
      modifies this
      ensures r == if session.identity.expiresAt <= now || session.expiresAt <= now then Failure(()) else Success(draw)
      ensures sessions == if r.Success? then old(sessions)[Digest(draw) := session] else old(sessions)
    {
      if session.identity.expiresAt <= now || session.expiresAt <= now {
        return Failure(());
      }
      sessions := sessions[Digest(draw) := session];
      return Success(draw);
    }

    method Lookup(token: string, now: int) returns (r: Option<Session>)
      modifies this
      ensures r == if Digest(token) in old(sessions) && old(sessions)[Digest(token)].expiresAt > now
                   then Some(old(sessions)[Digest(token)]) else None
      ensures sessions == if r.None? then old(sessions) - {Digest(token)} else old(sessions)
    {
      var key := Digest(token);
      if key !in sessions {
        return None;
      }
      if sessions[key].expiresAt <= now {
        sessions := sessions - {key};
        return None;
      }
      return Some(sessions[key]);
    }

    method Delete(token: string)
      modifies this
      ensures sessions == old(sessions) - {Digest(token)}
    {
      sessions := sessions - {Digest(token)};
    }

    method Consume(token: string, now: int) returns (r: Option<Session>)
      modifies this
      ensures r == if Digest(token) in old(sessions) && old(sessions)[Digest(token)].expiresAt > now
                   then Some(old(sessions)[Digest(token)]) else None
      ensures sessions == old(sessions) - {Digest(token)}
    {
      var key := Digest(token);
      r := if key in sessions && sessions[key].expiresAt > now then Some(sessions[key]) else None;
      sessions := sessions - {key};
    }

    /** Deletes the expired sessions while it collects the others; `order` is the order of collection. */
    method ListActive(now: int) returns (active: seq<Session>, ghost order: seq<Digest>)
      modifies this
      ensures sessions == map k | k in old(sessions) && old(sessions)[k].expiresAt > now :: old(sessions)[k]
      ensures |active| == |order| && forall i :: 0 <= i < |order| ==> order[i] in sessions && active[i] == sessions[order[i]]
      ensures forall i, j :: 0 <= i < j < |order| ==> order[i] != order[j]
      ensures forall k :: k in sessions ==> k in order
    {
      var keys := sessions.Keys;
      active, order := [], [];
      while keys != {}
        invariant keys <= old(sessions).Keys
        invariant forall k :: k in sessions <==> k in old(sessions) && (k in keys || old(sessions)[k].expiresAt > now)
        invariant forall k :: k in sessions ==> sessions[k] == old(sessions)[k]
        invariant |active| == |order|
        invariant forall i :: 0 <= i < |order| ==> order[i] in sessions && order[i] !in keys && active[i] == sessions[order[i]]
        invariant forall i, j :: 0 <= i < j < |order| ==> order[i] != order[j]
        invariant forall k :: k in sessions && k !in keys ==> k in order
        decreases keys
      {
        var k :| k in keys;
        if sessions[k].expiresAt <= now {
          sessions := sessions - {k};
        } else {
          active, order := active + [sessions[k]], order + [k];
        }
        keys := keys - {k};
      }
    }
  }
}
