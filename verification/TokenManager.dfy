/**
 The gateway's access-token manager: per-session caches with an expiry skew, reuse of ID-JAGs,
 and one shared issuance per request. Between two awaits the code runs undisturbed, so each
 stretch of it is one step, and replies may arrive in any order.
*/
module TokenManager {
  import opened Results
  import opened SortedStrings
  import opened ScopeCover

  const SKEW_MS := 60_000

  /** Expiry times of the session in seconds; `id` stands for the identity of the object. */
  datatype Session = Session(id: nat, idTokenExpiresAt: int, expiresAt: int)

  datatype Entry = Entry(token: string, audiences: seq<string>, cachedAt: int, expiresAt: int, scopes: seq<string>)

  datatype RequestKey = RequestKey(session: Session, audience: string, scopes: seq<string>)

  datatype Problem =
    | NotQualified | WrongAudience | Reauthenticate | NoToken | Undecodable | NoScopes | ScopeMismatch
    | NoAudience | NoExpiry | InvalidLifetime | TooCloseToExpiry | InsufficientScope | Unreachable

  /** What the token endpoint returned, with the claims of its token already decoded. */
  datatype Response = Response(
    token: string, decodable: bool, scopes: seq<string>, audiences: seq<string>, exp: Option<int>,
    expiresIn: Option<int>, scope: Option<seq<string>>)

  datatype Phase = AwaitIdJag | AwaitToken | Done(outcome: Result<Entry, Problem>)

  /** `cleaned` once its starter's `finally` has run. */
  datatype Issuance = Issuance(key: RequestKey, phase: Phase, cleaned: bool)

  datatype State = State(
    tokens: map<Session, seq<Entry>>, idJags: map<Session, seq<Entry>>, inFlight: map<RequestKey, nat>,
    issuances: map<nat, Issuance>, nextId: nat)

  // ---------------------------------------------------------------- requests

  /** The part before `:role.`, when there is one and a role name follows. */
  function ScopeDomain(scope: string): Option<string> {
    var index := IndexOf(scope, MARKER);
    if index <= 0 || index + |MARKER| == |scope| then None else Some(scope[..index])
  }

  /** Each scope must be qualified; the audience must be the domain of one of them. */
  function SelectAudience(raw: seq<string>, configured: Option<string>): Result<string, Problem> {
    if exists i :: 0 <= i < |raw| && ScopeDomain(raw[i]).None? then Failure(NotQualified)
    else if configured.None? && raw == [] then Failure(WrongAudience)
    else
      var audience := if configured.Some? then configured.value else ScopeDomain(raw[0]).value;
      if exists i :: 0 <= i < |raw| && ScopeDomain(raw[i]) == Some(audience) then Success(audience)
      else Failure(WrongAudience)
  }

  // ---------------------------------------------------------------- caches

  predicate Expired(e: Entry, now: int) { e.expiresAt <= now + SKEW_MS }

  function CacheOf(m: map<Session, seq<Entry>>, s: Session): seq<Entry> {
    if s in m then m[s] else []
  }

  predicate SameKey(a: Entry, b: Entry) { a.audiences == b.audiences && a.scopes == b.scopes }

  /** Setting a key of an insertion-ordered map. */
  function Put(cache: seq<Entry>, e: Entry): seq<Entry> {
    if cache == [] then [e]
    else if SameKey(cache[0], e) then [e] + cache[1..]
    else [cache[0]] + Put(cache[1..], e)
  }

  predicate Answers(e: Entry, audience: string, scopes: seq<string>) {
    e.audiences == [audience] && ExactlyMatch(e.scopes, scopes)
  }

  /** The first live entry that answers, and the cache without the expired entries met before it. */
  function FindToken(cache: seq<Entry>, audience: string, scopes: seq<string>, now: int): (Option<Entry>, seq<Entry>) {
    if cache == [] then (None, [])
    else if Expired(cache[0], now) then FindToken(cache[1..], audience, scopes, now)
    else if Answers(cache[0], audience, scopes) then (Some(cache[0]), cache)
    else
      var rest := FindToken(cache[1..], audience, scopes, now);
      (rest.0, [cache[0]] + rest.1)
  }

  function Live(cache: seq<Entry>, now: int): seq<Entry> {
    if cache == [] then []
    else if Expired(cache[|cache| - 1], now) then Live(cache[..|cache| - 1], now)
    else Live(cache[..|cache| - 1], now) + [cache[|cache| - 1]]
  }

  predicate Grants(e: Entry, zts: string, scopes: seq<string>) {
    zts in e.audiences && Cover(e.scopes, scopes)
  }

  /** The first of the shortest scope lists among the usable ID-JAGs. */
  function BestIdJag(live: seq<Entry>, zts: string, scopes: seq<string>): Option<Entry> {
    if live == [] then None
    else
      var best, last := BestIdJag(live[..|live| - 1], zts, scopes), live[|live| - 1];
      if !Grants(last, zts, scopes) then best
      else if best.None? || |last.scopes| < |best.value.scopes| then Some(last)
      else best
  }

  // ---------------------------------------------------------------- grants

  /** The checks on a token response, and the entry to cache. */
  function Grant(r: Response, now: int, sessionExpiresAt: int): Result<Entry, Problem> {
    var scopes, audiences := SortUnique(r.scopes), SortUnique(r.audiences);
    if r.token == "" then Failure(NoToken)
    else if !r.decodable then Failure(Undecodable)
    else if scopes == [] then Failure(NoScopes)
    else if r.scope.Some? && !ExactlyMatch(scopes, SortUnique(r.scope.value)) then Failure(ScopeMismatch)
    else if audiences == [] then Failure(NoAudience)
    else if r.exp.None? then Failure(NoExpiry)
    else if r.expiresIn.Some? && r.expiresIn.value <= 0 then Failure(InvalidLifetime)
    else
      var capped := Min(r.exp.value * 1000, sessionExpiresAt * 1000);
      var expiresAt := if r.expiresIn.Some? then Min(capped, now + r.expiresIn.value * 1000) else capped;
      if expiresAt <= now + SKEW_MS then Failure(TooCloseToExpiry)
      else Success(Entry(r.token, audiences, now, expiresAt, scopes))
  }

  // ---------------------------------------------------------------- steps

  datatype Lookup = Rejected(problem: Problem) | Cached(entry: Entry) | Joined(id: nat) | Started(id: nat)

  function SetPhase(st: State, id: nat, phase: Phase): State
    requires id in st.issuances
  {
    st.(issuances := st.issuances[id := st.issuances[id].(phase := phase)])
  }

  /** The stretch of `getAccessToken` up to its first await. */
  function Get(st: State, zts: string, s: Session, raw: seq<string>, configured: Option<string>, now: int)
    : (State, Lookup)
  {
    match SelectAudience(raw, configured)
    case Failure(p) => (st, Rejected(p))
    case Success(audience) =>
      var scopes := SortUnique(raw);
      var found := FindToken(CacheOf(st.tokens, s), audience, scopes, now);
      var swept := if s in st.tokens then st.(tokens := st.tokens[s := found.1]) else st;
      var key := RequestKey(s, audience, scopes);
      if found.0.Some? then (swept, Cached(found.0.value))
      else if key in st.inFlight then (swept, Joined(st.inFlight[key]))
      else
        var live := Live(CacheOf(st.idJags, s), now);
        var phase :=
          if BestIdJag(live, zts, scopes).Some? then AwaitToken
          else if s.idTokenExpiresAt * 1000 <= now + SKEW_MS then Done(Failure(Reauthenticate))
          else AwaitIdJag;
        (swept.(idJags := if s in st.idJags then st.idJags[s := live] else st.idJags,
                inFlight := st.inFlight[key := st.nextId],
                issuances := st.issuances[st.nextId := Issuance(key, phase, false)],
                nextId := st.nextId + 1),
         Started(st.nextId))
  }

  /** The ID-JAG reply arrives; no reply stands for an error or a rejected identity token. */
  function IdJagReply(st: State, zts: string, id: nat, reply: Option<Response>, now: int): State
    requires id in st.issuances && st.issuances[id].phase.AwaitIdJag?
  {
    var key := st.issuances[id].key;
    if reply.None? then SetPhase(st, id, Done(Failure(Unreachable)))
    else match Grant(reply.value, now, key.session.expiresAt)
      case Failure(p) => SetPhase(st, id, Done(Failure(p)))
      case Success(e) =>
        if zts !in e.audiences then SetPhase(st, id, Done(Failure(WrongAudience)))
        else
          var cached := st.(idJags := st.idJags[key.session := Put(CacheOf(st.idJags, key.session), e)]);
          SetPhase(cached, id, if Cover(e.scopes, key.scopes) then AwaitToken else Done(Failure(InsufficientScope)))
  }

  /** The access-token reply arrives. A grant is cached even when it does not answer this request. */
  function TokenReply(st: State, id: nat, reply: Option<Response>, now: int): State
    requires id in st.issuances && st.issuances[id].phase.AwaitToken?
  {
    var key := st.issuances[id].key;
    if reply.None? then SetPhase(st, id, Done(Failure(Unreachable)))
    else match Grant(reply.value, now, key.session.expiresAt)
      case Failure(p) => SetPhase(st, id, Done(Failure(p)))
      case Success(e) =>
        if e.audiences != [key.audience] then SetPhase(st, id, Done(Failure(WrongAudience)))
        else
          var cached := st.(tokens := st.tokens[key.session := Put(CacheOf(st.tokens, key.session), e)]);
          SetPhase(cached, id, Done(if ExactlyMatch(e.scopes, key.scopes) then Success(e) else Failure(InsufficientScope)))
  }

  /** The `finally` of the call that started the issuance. */
  function Cleanup(st: State, id: nat): State
    requires id in st.issuances && st.issuances[id].phase.Done?
  {
    st.(inFlight := st.inFlight - {st.issuances[id].key},
        issuances := st.issuances[id := st.issuances[id].(cleaned := true)])
  }

  // ---------------------------------------------------------------- the class

  class AthenzAccessTokenManager {
    const zts: string
    var cachedTokens: map<Session, seq<Entry>>
    var cachedIdJags: map<Session, seq<Entry>>
    var inFlight: map<RequestKey, nat>
    var issuances: map<nat, Issuance>
    var nextId: nat

    constructor (zts: string)
      ensures this.zts == zts && Abs() == State(map[], map[], map[], map[], 0)
    {
      this.zts := zts;
      cachedTokens, cachedIdJags, inFlight, issuances, nextId := map[], map[], map[], map[], 0;
    }

    function Abs(): State
      reads this
    {
      State(cachedTokens, cachedIdJags, inFlight, issuances, nextId)
    }

    method FindAccessToken(s: Session, audience: string, scopes: seq<string>, now: int) returns (found: Option<Entry>)
      modifies this`cachedTokens
      ensures var r := FindToken(CacheOf(old(cachedTokens), s), audience, scopes, now);
              && found == r.0
              && cachedTokens == if s in old(cachedTokens) then old(cachedTokens)[s := r.1] else old(cachedTokens)
    {
      if s !in cachedTokens {
        return None;
      }
      var cache := cachedTokens[s];
      var kept: seq<Entry> := [];
      for i := 0 to |cache|
        invariant var all, rest := FindToken(cache, audience, scopes, now), FindToken(cache[i..], audience, scopes, now);
          all.0 == rest.0 && all.1 == kept + rest.1
        invariant cachedTokens == old(cachedTokens)
      {
        assert cache[i..][0] == cache[i] && cache[i..][1..] == cache[i + 1..];
        ghost var rest := FindToken(cache[i + 1..], audience, scopes, now).1;
        if Expired(cache[i], now) {
          continue;
        }
        if Answers(cache[i], audience, scopes) {
          cachedTokens := cachedTokens[s := kept + cache[i..]];
          return Some(cache[i]);
        }
        assert kept + ([cache[i]] + rest) == (kept + [cache[i]]) + rest;
        kept := kept + [cache[i]];
      }
      assert kept + [] == kept;
      cachedTokens := cachedTokens[s := kept];
      return None;
    }

    method FindIdJag(s: Session, scopes: seq<string>, now: int) returns (found: Option<Entry>)
      modifies this`cachedIdJags
      ensures found == BestIdJag(Live(CacheOf(old(cachedIdJags), s), now), zts, scopes)
      ensures cachedIdJags == if s in old(cachedIdJags)
                              then old(cachedIdJags)[s := Live(CacheOf(old(cachedIdJags), s), now)]
                              else old(cachedIdJags)
    {
      found := None;
      if s !in cachedIdJags {
        return;
      }
      var cache := cachedIdJags[s];
      var live: seq<Entry> := [];
      for i := 0 to |cache|
        invariant live == Live(cache[..i], now) && found == BestIdJag(live, zts, scopes)
        invariant cachedIdJags == old(cachedIdJags)
      {
        assert cache[..i + 1][..i] == cache[..i];
        if Expired(cache[i], now) {
          continue;
        }
        assert (live + [cache[i]])[..|live|] == live;
        live := live + [cache[i]];
        if Grants(cache[i], zts, scopes) && (found.None? || |cache[i].scopes| < |found.value.scopes|) {
          found := Some(cache[i]);
        }
      }
      assert cache[..|cache|] == cache;
      cachedIdJags := cachedIdJags[s := live];
    }

    method GetAccessToken(s: Session, raw: seq<string>, configured: Option<string>, now: int) returns (r: Lookup)
      modifies this
      ensures (Abs(), r) == Get(old(Abs()), zts, s, raw, configured, now)
    {
      hide FindToken, Live, BestIdJag, SortUnique, SelectAudience;
      var selected := SelectAudience(raw, configured);
      if selected.Failure? {
        return Rejected(selected.error);
      }
      var scopes := SortUnique(raw);
      var cached := FindAccessToken(s, selected.value, scopes, now);
      if cached.Some? {
        return Cached(cached.value);
      }
      var key := RequestKey(s, selected.value, scopes);
      if key in inFlight {
        return Joined(inFlight[key]);
      }
      var idJag := FindIdJag(s, scopes, now);
      var phase := AwaitIdJag;
      if idJag.Some? {
        phase := AwaitToken;
      } else if s.idTokenExpiresAt * 1000 <= now + SKEW_MS {
        phase := Done(Failure(Reauthenticate));
      }
      var id := nextId;
      issuances := issuances[id := Issuance(key, phase, false)];
      nextId := nextId + 1;
      inFlight := inFlight[key := id];
      return Started(id);
    }

    method OnIdJag(id: nat, reply: Option<Response>, now: int)
      requires id in issuances && issuances[id].phase.AwaitIdJag?
      modifies this
      ensures Abs() == IdJagReply(old(Abs()), zts, id, reply, now)
    {
      var issuance := issuances[id];
      var key := issuance.key;
      var phase := Done(Failure(Unreachable));
      if reply.Some? {
        var grant := Grant(reply.value, now, key.session.expiresAt);
        if grant.Failure? {
          phase := Done(Failure(grant.error));
        } else if zts !in grant.value.audiences {
          phase := Done(Failure(WrongAudience));
        } else {
          cachedIdJags := cachedIdJags[key.session := Put(CacheOf(cachedIdJags, key.session), grant.value)];
          phase := if Cover(grant.value.scopes, key.scopes) then AwaitToken else Done(Failure(InsufficientScope));
        }
      }
      issuances := issuances[id := issuance.(phase := phase)];
    }

    method OnToken(id: nat, reply: Option<Response>, now: int)
      requires id in issuances && issuances[id].phase.AwaitToken?
      modifies this
      ensures Abs() == TokenReply(old(Abs()), id, reply, now)
    {
      var issuance := issuances[id];
      var key := issuance.key;
      var outcome := Failure(Unreachable);
      if reply.Some? {
        var grant := Grant(reply.value, now, key.session.expiresAt);
        if grant.Failure? {
          outcome := Failure(grant.error);
        } else if grant.value.audiences != [key.audience] {
          outcome := Failure(WrongAudience);
        } else {
          cachedTokens := cachedTokens[key.session := Put(CacheOf(cachedTokens, key.session), grant.value)];
          outcome := if ExactlyMatch(grant.value.scopes, key.scopes) then Success(grant.value) else Failure(InsufficientScope);
        }
      }
      issuances := issuances[id := issuance.(phase := Done(outcome))];
    }

    method OnSettled(id: nat)
      requires id in issuances && issuances[id].phase.Done?
      modifies this
      ensures Abs() == Cleanup(old(Abs()), id)
    {
      inFlight := inFlight - {issuances[id].key};
      issuances := issuances[id := issuances[id].(cleaned := true)];
    }
  }
}
