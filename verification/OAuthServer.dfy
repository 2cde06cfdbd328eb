/**
 The gateway's handlers as they run: maps updated in place and a session store object. Each
 handler does to the stores exactly what the transition function says. Values that the source
 draws at random are parameters.
*/
module OAuthServer {
  import opened Results
  import opened OAuthFlow

  class Gateway {
    const ttls: Ttls
    const sessionStore: SessionStore
    var clients: map<string, seq<string>>
    var transactions: map<string, Transaction>
    var authorizationCodes: map<string, Code>
    var logoutTickets: map<string, Ticket>

    /** Callbacks waiting for the identity provider, numbered in order of arrival. */
    var pending: map<nat, Transaction>
    var nextId: nat
    ghost var drawn: set<string>

    constructor (ttls: Ttls)
      ensures Abs() == START && this.ttls == ttls
      ensures fresh(sessionStore)
    {
      this.ttls := ttls;
      sessionStore := new SessionStore();
      clients, transactions, authorizationCodes, logoutTickets := map[], map[], map[], map[];
      pending, nextId, drawn := map[], 0, {};
    }

    ghost function Abs(): State
      reads this, sessionStore
    {
      State(clients, transactions, pending, authorizationCodes, sessionStore.sessions, logoutTickets, nextId, drawn)
    }

    method Register(uris: seq<RedirectUri>, draw: string, now: int) returns (r: Response)
      modifies this
      ensures (Abs(), r) == Handle(ttls, old(Abs()), Event.Register(uris, draw), now)
    {
      var allowed := true;
      for i := 0 to |uris|
        invariant allowed <==> forall k :: 0 <= k < i ==> IsAllowedRedirectUri(uris[k])
      {
        if !IsAllowedRedirectUri(uris[i]) {
          allowed := false;
        }
      }
      if |uris| == 0 || !allowed {
        return BadRequest;
      }
      clients, drawn := clients[draw := Texts(uris)], drawn + {draw};
      return Registered(draw);
    }

    method Authorize(clientId: string, redirectUri: string, responseType: string, clientState: string,
                     challenge: Option<Challenge>, challengeMethod: string, draw: string, verifier: string,
                     nonce: string, now: int) returns (r: Response)
      modifies this
      ensures (Abs(), r) == Handle(ttls, old(Abs()), Event.Authorize(clientId, redirectUri, responseType, clientState,
                                   challenge, challengeMethod, draw, verifier, nonce), now)
    {
      if clientId == "" || clientId !in clients {
        return BadRequest;
      }
      if redirectUri == "" || redirectUri !in clients[clientId] || responseType != "code" || clientState == "" {
        return BadRequest;
      }
      if challenge == None || challenge == Some(OtherText("")) || challengeMethod != "S256" {
        return BadRequest;
      }
      transactions := transactions[draw := Transaction(clientId, clientState, redirectUri, challenge.value,
                                                       verifier, nonce, now + ttls.transaction)];
      drawn := drawn + {draw, verifier, nonce};
      return SentUpstream(draw, nonce);
    }

    method ConsumeTransaction(state: string, now: int) returns (r: Option<Transaction>)
      modifies this
      ensures Abs() == old(Abs()).(transactions := old(transactions) - {state})
      ensures r == if state in old(transactions) && old(transactions)[state].expiresAt > now
                   then Some(old(transactions)[state]) else None
    {
      r := if state in transactions && transactions[state].expiresAt > now then Some(transactions[state]) else None;
      transactions := transactions - {state};
    }

    method Callback(state: string, error: string, upstreamCode: string, now: int) returns (r: Response)
      modifies this
      ensures (Abs(), r) == Handle(ttls, old(Abs()), Event.Callback(state, error, upstreamCode), now)
    {
      if state == "" {
        return BadRequest;
      }
      var txn := ConsumeTransaction(state, now);
      if txn == None {
        return BadRequest;
      }
      if error != "" {
        return RedirectError(txn.value.redirectUri, txn.value.clientState);
      }
      if upstreamCode == "" {
        return BadRequest;
      }
      r := Exchanging(nextId);
      pending, nextId := pending[nextId := txn.value], nextId + 1;
    }

    /** The continuation of a callback once the identity provider has answered or failed. */
    method Exchanged(id: nat, identity: Option<Identity>, draw: string, now: int) returns (r: Response)
      modifies this
      ensures (Abs(), r) == Handle(ttls, old(Abs()), Event.Exchanged(id, identity, draw), now)
    {
      if id !in pending {
        return BadGateway;
      }
      var txn := pending[id];
      pending := pending - {id};
      if identity == None {
        return BadGateway;
      }
      var expiresAt := now + ttls.code;
      if identity.value.expiresAt < expiresAt {
        expiresAt := identity.value.expiresAt;
      }
      authorizationCodes :=
        authorizationCodes[draw := Code(txn.clientId, txn.redirectUri, txn.challenge, identity.value, expiresAt)];
      drawn := drawn + {draw};
      return RedirectCode(txn.redirectUri, draw, txn.clientState);
    }

    method ConsumeCode(code: string, now: int) returns (r: Option<Code>)
      modifies this
      ensures Abs() == old(Abs()).(codes := old(authorizationCodes) - {code})
      ensures r == if code in old(authorizationCodes) && old(authorizationCodes)[code].expiresAt > now
                   then Some(old(authorizationCodes)[code]) else None
    {
      r := if code in authorizationCodes && authorizationCodes[code].expiresAt > now
           then Some(authorizationCodes[code]) else None;
      authorizationCodes := authorizationCodes - {code};
    }

    method Token(code: string, clientId: string, redirectUri: string, verifier: string, grantType: string,
                 draw: string, now: int, granted: int, stored: int) returns (r: Response)
      requires now <= granted <= stored
      modifies this, sessionStore
      ensures var e := Event.Token(code, clientId, redirectUri, verifier, grantType, draw, granted - now, stored - granted);
              (Abs(), r) == Handle(ttls, old(Abs()), e, now)
    {
      if code == "" {
        return InvalidGrant;
      }
      var authorizationCode := ConsumeCode(code, now);
      if authorizationCode == None || grantType != "authorization_code" {
        return InvalidGrant;
      }
      var c := authorizationCode.value;
      if clientId != c.clientId || redirectUri != c.redirectUri || verifier == "" || c.challenge != S256(verifier) {
        return InvalidGrant;
      }
      var created := sessionStore.Create(Session(c.identity, granted + ttls.session), draw, stored);
      if created.Failure? {
        return ServerError;
      }
      drawn := drawn + {draw};
      return Issued(draw);
    }

    method Revoke(token: string, now: int) returns (r: Response)
      modifies sessionStore
      ensures (Abs(), r) == Handle(ttls, old(Abs()), Event.Revoke(token), now)
    {
      if token != "" {
        sessionStore.Delete(token);
      }
      return Done;
    }

    /** Drops the expired tickets one by one, then stores the new one. */
    method CreateLogoutTicket(idToken: string, draw: string, now: int)
      modifies this
      ensures var kept := map t | t in old(logoutTickets) && LiveTicket(old(logoutTickets)[t], now) :: old(logoutTickets)[t];
              Abs() == old(Abs()).(tickets := kept[draw := Ticket(idToken, now + ttls.ticket)], drawn := old(drawn) + {draw})
    {
      var keys := logoutTickets.Keys;
      while keys != {}
        invariant keys <= logoutTickets.Keys
        invariant forall t :: t in logoutTickets <==>
                    t in old(logoutTickets) && (t in keys || LiveTicket(old(logoutTickets)[t], now))
        invariant forall t :: t in logoutTickets ==> logoutTickets[t] == old(logoutTickets)[t]
        invariant Abs() == old(Abs()).(tickets := logoutTickets)
        decreases keys
      {
        var t :| t in keys;
        if logoutTickets[t].expiresAt <= now {
          logoutTickets := logoutTickets - {t};
        }
        keys := keys - {t};
      }
      assert logoutTickets == map t | t in old(logoutTickets) && LiveTicket(old(logoutTickets)[t], now) :: old(logoutTickets)[t];
      logoutTickets, drawn := logoutTickets[draw := Ticket(idToken, now + ttls.ticket)], drawn + {draw};
    }

    method LogoutTicket(token: string, draw: string, now: int, stored: int) returns (r: Response)
      requires now <= stored
      modifies this, sessionStore
      ensures (Abs(), r) == Handle(ttls, old(Abs()), Event.LogoutTicket(token, draw, stored - now), now)
    {
      if token == "" {
        return InvalidToken;
      }
      var session := sessionStore.Consume(token, now);
      if session == None {
        return InvalidToken;
      }
      CreateLogoutTicket(session.value.identity.idToken, draw, stored);
      return TicketIssued(draw);
    }

    method Logout(ticket: string, now: int) returns (r: Response)
      modifies this
      ensures (Abs(), r) == Handle(ttls, old(Abs()), Event.Logout(ticket), now)
    {
      if ticket == "" {
        return BadRequest;
      }
      var entry := if ticket in logoutTickets then Some(logoutTickets[ticket]) else None;
      logoutTickets := logoutTickets - {ticket};
      if entry == None || entry.value.expiresAt <= now || entry.value.idToken == "" {
        return BadRequest;
      }
      return SignedOut(entry.value.idToken);
    }

    method Use(token: string, now: int) returns (r: Response)
      modifies sessionStore
      ensures (Abs(), r) == Handle(ttls, old(Abs()), Event.Use(token), now)
    {
      var session := sessionStore.Lookup(token, now);
      if session == None {
        assert Digest(token) in old(sessionStore.sessions) || sessionStore.sessions == old(sessionStore.sessions);
        return InvalidToken;
      }
      return Served(session.value);
    }
  }
}
