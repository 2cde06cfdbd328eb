/**
 Discovery of the GenAI scopes a workload may request for a user: for every service project,
 the user's roles whose exchanger role the workload holds. Replies of the directory are values.
*/
module Discovery {
  import opened Results
  import opened SortedStrings
  import opened ScopeCover
  import opened GenAi
  import Texts

  datatype Membership = Membership(domain: string, role: string)

  datatype Member = Member(name: string, roles: seq<Membership>)

  /** A reply has a status and a body that may not decode. */
  datatype Outcome<T> = Unreachable | Reply(status: int, body: Option<T>)

  /** The listings of one domain: the workload's expanded roles, and every member with its roles. */
  datatype DomainListing = DomainListing(exchangers: Outcome<seq<Membership>>, members: Outcome<seq<Member>>)

  datatype ServiceScopes = ServiceScopes(service: string, domain: string, scopes: seq<string>)

  datatype DiscoverError =
    | NoIdToken | BadUser | BadWorkload | BadTemplate | BadRole
    | UserListingFailed | DomainListingFailed(domain: string)

  // ---------------------------------------------------------------- what is held

  /** The domain and role that a membership of the user names, if it names one. */
  function Resolve(m: Membership): Option<RoleScope> {
    if MarkerFree(m.role) && m.domain == "" then None
    else
      var rs := SplitScope(if MarkerFree(m.role) then Scope(m.domain, m.role) else m.role);
      if rs.None? || (m.domain != "" && m.domain != rs.value.domain) then None else rs
  }

  predicate UserHolds(list: seq<Membership>, domain: string, role: string) {
    exists m :: m in list && Resolve(m) == Some(RoleScope(domain, role))
  }

  /** The scope that a membership lets its holder exchange tokens for in the domain, if any. */
  function Exchangeable(m: Membership, domain: string): Option<string> {
    if m.domain != "" && m.domain != domain then None
    else TargetFromExchanger(domain, if MarkerFree(m.role) then Scope(domain, m.role) else m.role)
  }

  predicate WorkloadHolds(list: seq<Membership>, domain: string, role: string) {
    exists m :: m in list && Exchangeable(m, domain) == Some(Scope(domain, role))
  }

  function InDomain(roles: seq<Membership>, domain: string): seq<Membership> {
    seq(|roles|, i requires 0 <= i < |roles| => if roles[i].domain == "" then roles[i].(domain := domain) else roles[i])
  }

  function WildcardRoles(members: seq<Member>, principal: string, domain: string): seq<Membership> {
    if members == [] then []
    else
      (if WildcardMatches(members[0].name, principal) then InDomain(members[0].roles, domain) else [])
      + WildcardRoles(members[1..], principal, domain)
  }

  /** The expanded listing may be missing; the member listing may not. */
  predicate Readable(l: DomainListing) {
    && l.exchangers.Reply? && (l.exchangers.status == 404 || (l.exchangers.status == 200 && l.exchangers.body.Some?))
    && l.members.Reply? && l.members.status == 200 && l.members.body.Some?
  }

  function WorkloadRoles(l: DomainListing, principal: string, domain: string): seq<Membership>
    requires Readable(l)
  {
    (if l.exchangers.status == 200 then l.exchangers.body.value else [])
    + WildcardRoles(l.members.body.value, principal, domain)
  }

  // ---------------------------------------------------------------- the result

  /** A project's domain where the user holds the baseline role. */
  predicate Candidate(list: seq<Membership>, matcher: DomainMatcher, baseline: string, domain: string) {
    Match(matcher, domain).Some? && UserHolds(list, domain, baseline)
  }

  function Domains(result: seq<ServiceScopes>): (domains: seq<string>)
    ensures |domains| == |result| && forall i :: 0 <= i < |result| ==> domains[i] == result[i].domain
  {
    seq(|result|, i requires 0 <= i < |result| => result[i].domain)
  }

  ghost predicate Lists(scopes: set<string>, list: seq<Membership>, held: seq<Membership>, domain: string) {
    && (forall s :: s in scopes ==> exists r :: s == Scope(domain, r) && UserHolds(list, domain, r) && WorkloadHolds(held, domain, r))
    && (forall r :: UserHolds(list, domain, r) && WorkloadHolds(held, domain, r) ==> Scope(domain, r) in scopes)
  }

  ghost predicate IsEntry(e: ServiceScopes, list: seq<Membership>, held: seq<Membership>, matcher: DomainMatcher) {
    && Match(matcher, e.domain) == Some(e.service)
    && StrictlySorted(e.scopes)
    && Lists(Elements(e.scopes), list, held, e.domain)
  }

  /** Exactly the candidates whose baseline exchanger the workload holds, each with exactly its scopes. */
  ghost predicate IsDiscovery(result: seq<ServiceScopes>, list: seq<Membership>, listing: string -> DomainListing,
                              matcher: DomainMatcher, workload: string, baseline: string) {
    && (forall d :: Candidate(list, matcher, baseline, d) ==> Readable(listing(d)))
    && StrictlySorted(Domains(result))
    && (forall d :: d in Domains(result) <==>
          Candidate(list, matcher, baseline, d) && WorkloadHolds(WorkloadRoles(listing(d), workload, d), d, baseline))
    && (forall i :: 0 <= i < |result| ==>
          && Candidate(list, matcher, baseline, result[i].domain)
          && IsEntry(result[i], list, WorkloadRoles(listing(result[i].domain), workload, result[i].domain), matcher))
  }

  // ---------------------------------------------------------------- the procedure

  datatype Project = Project(service: string, roles: set<string>)

  predicate HoldsAny(list: seq<Membership>, domain: string) {
    exists m :: m in list && Resolve(m).Some? && Resolve(m).value.domain == domain
  }

  ghost predicate Gathered(projects: map<string, Project>, list: seq<Membership>, matcher: DomainMatcher) {
    && (forall d :: d in projects <==> Match(matcher, d).Some? && HoldsAny(list, d))
    && (forall d :: d in projects ==> Match(matcher, d) == Some(projects[d].service))
    && (forall d, r :: d in projects ==> (r in projects[d].roles <==> UserHolds(list, d, r)))
  }

  lemma HoldsOneMore(list: seq<Membership>, k: nat, d: string, r: string)
    requires k < |list|
    ensures UserHolds(list[..k + 1], d, r) <==> UserHolds(list[..k], d, r) || Resolve(list[k]) == Some(RoleScope(d, r))
  {
    hide Resolve;
    assert list[..k + 1] == list[..k] + [list[k]];
    assert forall m :: m in list[..k + 1] <==> m in list[..k] || m == list[k];
  }

  lemma HoldsAnyOneMore(list: seq<Membership>, k: nat, d: string)
    requires k < |list|
    ensures HoldsAny(list[..k + 1], d) <==> HoldsAny(list[..k], d) || (Resolve(list[k]).Some? && Resolve(list[k]).value.domain == d)
  {
    hide Resolve;
    assert list[..k + 1] == list[..k] + [list[k]];
    assert forall m :: m in list[..k + 1] <==> m in list[..k] || m == list[k];
  }

  lemma GatherOneMore(projects: map<string, Project>, list: seq<Membership>, k: nat, matcher: DomainMatcher)
    requires k < |list| && Gathered(projects, list[..k], matcher)
    requires Resolve(list[k]).None? || Match(matcher, Resolve(list[k]).value.domain).None?
    ensures Gathered(projects, list[..k + 1], matcher)
  {
    hide Resolve, Match, UserHolds, HoldsAny;
    forall d, r ensures UserHolds(list[..k + 1], d, r) <==>
                          UserHolds(list[..k], d, r) || Resolve(list[k]) == Some(RoleScope(d, r)) {
      HoldsOneMore(list, k, d, r);
    }
    forall d ensures Match(matcher, d).Some? ==> (HoldsAny(list[..k + 1], d) <==> HoldsAny(list[..k], d)) {
      HoldsAnyOneMore(list, k, d);
    }
  }

  method GatherProjects(list: seq<Membership>, matcher: DomainMatcher) returns (projects: map<string, Project>)
    ensures Gathered(projects, list, matcher)
  {
    hide Resolve, Match, UserHolds, HoldsAny;
    projects := map[];
    NothingGathered(matcher);
    var k := 0;
    while k < |list|
      invariant k <= |list|
      invariant Gathered(projects, list[..k], matcher)
    {
      var rs := Resolve(list[k]);
      if rs.None? || Match(matcher, rs.value.domain).None? {
        GatherOneMore(projects, list, k, matcher);
      } else {
        var d := rs.value.domain;
        var candidate := if d in projects then projects[d] else Project(Match(matcher, d).value, {});
        AddGathered(projects, list, k, matcher);
        projects := projects[d := candidate.(roles := candidate.roles + {rs.value.role})];
      }
      k := k + 1;
    }
    assert list[..|list|] == list;
  }

  lemma NothingGathered(matcher: DomainMatcher)
    ensures Gathered(map[], [], matcher)
  {
  }

  lemma AddGathered(projects: map<string, Project>, list: seq<Membership>, k: nat, matcher: DomainMatcher)
    requires k < |list| && Gathered(projects, list[..k], matcher)
    requires Resolve(list[k]).Some? && Match(matcher, Resolve(list[k]).value.domain).Some?
    ensures var rs := Resolve(list[k]).value;
            var candidate := if rs.domain in projects then projects[rs.domain] else Project(Match(matcher, rs.domain).value, {});
            Gathered(projects[rs.domain := candidate.(roles := candidate.roles + {rs.role})], list[..k + 1], matcher)
  {
    hide Resolve, Match, UserHolds, HoldsAny;
    var rs := Resolve(list[k]).value;
    var candidate := if rs.domain in projects then projects[rs.domain] else Project(Match(matcher, rs.domain).value, {});
    var projects' := projects[rs.domain := candidate.(roles := candidate.roles + {rs.role})];
    forall d, r ensures UserHolds(list[..k + 1], d, r) <==> UserHolds(list[..k], d, r) || rs == RoleScope(d, r) {
      HoldsOneMore(list, k, d, r);
    }
    forall d ensures HoldsAny(list[..k + 1], d) <==> HoldsAny(list[..k], d) || d == rs.domain {
      HoldsAnyOneMore(list, k, d);
    }
    if rs.domain !in projects {
      forall r ensures !UserHolds(list[..k], rs.domain, r) {
        NoneHeld(list[..k], rs.domain, r);
      }
    }
    assert forall d :: d in projects' ==> Match(matcher, d) == Some(projects'[d].service);
    forall d, r | d in projects'
      ensures r in projects'[d].roles <==> UserHolds(list[..k + 1], d, r)
    {
      assert r in projects'[d].roles <==> (d in projects && r in projects[d].roles) || rs == RoleScope(d, r);
      assert UserHolds(list[..k + 1], d, r) <==> UserHolds(list[..k], d, r) || rs == RoleScope(d, r);
    }
  }

  lemma NoneHeld(list: seq<Membership>, domain: string, role: string)
    requires !HoldsAny(list, domain)
    ensures !UserHolds(list, domain, role)
  {
    hide Resolve;
  }

  method ExchangerRoles(l: DomainListing, workload: string, domain: string) returns (r: Option<seq<Membership>>)
    ensures r == if Readable(l) then Some(WorkloadRoles(l, workload, domain)) else None
  {
    if l.exchangers.Unreachable? || l.exchangers.status !in {200, 404} {
      return None;
    }
    var roles: seq<Membership> := [];
    if l.exchangers.status == 200 {
      if l.exchangers.body.None? {
        return None;
      }
      roles := l.exchangers.body.value;
    }
    if l.members.Unreachable? || l.members.status != 200 || l.members.body.None? {
      return None;
    }
    var wild := WildcardListing(l.members.body.value, workload, domain);
    return Some(roles + wild);
  }

  method WildcardListing(members: seq<Member>, workload: string, domain: string) returns (roles: seq<Membership>)
    ensures roles == WildcardRoles(members, workload, domain)
  {
    hide WildcardMatches, InDomain, WildcardRoles;
    roles := [];
    var i := 0;
    assert members[0..] == members;
    while i < |members|
      invariant i <= |members|
      invariant roles + WildcardRoles(members[i..], workload, domain) == WildcardRoles(members, workload, domain)
    {
      WildcardStep(members, i, workload, domain);
      if WildcardMatches(members[i].name, workload) {
        roles := roles + InDomain(members[i].roles, domain);
      }
      i := i + 1;
    }
    NoWildcards(workload, domain);
    assert members[i..] == [];
  }

  lemma WildcardStep(members: seq<Member>, i: nat, workload: string, domain: string)
    requires i < |members|
    ensures WildcardRoles(members[i..], workload, domain)
            == if WildcardMatches(members[i].name, workload)
               then InDomain(members[i].roles, domain) + WildcardRoles(members[i + 1..], workload, domain)
               else WildcardRoles(members[i + 1..], workload, domain)
  {
    hide WildcardMatches, InDomain;
    assert members[i..][0] == members[i] && members[i..][1..] == members[i + 1..];
  }

  lemma NoWildcards(workload: string, domain: string)
    ensures WildcardRoles([], workload, domain) == []
  {
  }

  /** The scopes whose role is among the user's and whose exchanger is held. */
  method CollectScopes(held: seq<Membership>, roles: set<string>, domain: string) returns (scopes: set<string>)
    ensures forall s :: s in scopes <==>
              exists m, r :: m in held && Exchangeable(m, domain) == Some(s) && SplitScope(s) == Some(RoleScope(domain, r)) && r in roles
  {
    hide SplitScope, Exchangeable;
    scopes := {};
    var i := 0;
    while i < |held|
      invariant i <= |held|
      invariant forall s :: s in scopes <==>
                  exists m, r :: m in held[..i] && Exchangeable(m, domain) == Some(s)
                                 && SplitScope(s) == Some(RoleScope(domain, r)) && r in roles
    {
      assert held[..i + 1] == held[..i] + [held[i]];
      assert forall m :: m in held[..i + 1] <==> m in held[..i] || m == held[i];
      var target := Exchangeable(held[i], domain);
      if target.Some? {
        ExchangeableSplits(held[i], domain, target.value);
        var targetRole := SplitScope(target.value).value.role;
        if targetRole in roles {
          scopes := scopes + {target.value};
        }
      }
      i := i + 1;
    }
    assert held[..|held|] == held;
  }

  lemma ExchangeableSplits(m: Membership, domain: string, s: string)
    requires Exchangeable(m, domain) == Some(s)
    ensures SplitScope(s).Some? && SplitScope(s).value.domain == domain && s == Scope(domain, SplitScope(s).value.role)
  {
    hide SplitScope, TargetFromExchanger;
    var exchangerRole := if MarkerFree(m.role) then Scope(domain, m.role) else m.role;
    TargetIsNamedByExchanger(domain, exchangerRole, s);
    var role :| SplitScope(exchangerRole) == Some(RoleScope(domain, role + EXCHANGER_SUFFIX)) && s == Scope(domain, role);
    TargetIsAScope(domain, role, exchangerRole);
  }

  /** The membership names the role in the domain, in short or in full. */
  predicate NamesRole(m: Membership, domain: string, role: string) {
    && (m.domain == "" || m.domain == domain)
    && SplitScope(if MarkerFree(m.role) then Scope(domain, m.role) else m.role) == Some(RoleScope(domain, role))
  }

  /** Holding a role's exchange is being a member of the role's exchanger, and nothing else. */
  lemma HoldingIsMembership(held: seq<Membership>, domain: string, role: string)
    ensures WorkloadHolds(held, domain, role) <==> exists m :: m in held && NamesRole(m, domain, role + EXCHANGER_SUFFIX)
  {
    forall m ensures Exchangeable(m, domain) == Some(Scope(domain, role)) <==> NamesRole(m, domain, role + EXCHANGER_SUFFIX) {
      ExchangeIsNamed(m, domain, role);
    }
  }

  lemma ExchangeIsNamed(m: Membership, domain: string, role: string)
    ensures Exchangeable(m, domain) == Some(Scope(domain, role)) <==> NamesRole(m, domain, role + EXCHANGER_SUFFIX)
  {
    hide SplitScope, TargetFromExchanger, Scope;
    var full := if MarkerFree(m.role) then Scope(domain, m.role) else m.role;
    TargetIsNamedByExchanger(domain, full, Scope(domain, role));
    if Exchangeable(m, domain) == Some(Scope(domain, role)) {
      var r :| SplitScope(full) == Some(RoleScope(domain, r + EXCHANGER_SUFFIX)) && Scope(domain, role) == Scope(domain, r);
      ScopeIsInjective(domain, role, r);
    }
  }

  /** A domain and a role that a scope can name. */
  predicate CanBeNamed(domain: string, role: string) {
    domain != "" && MarkerFree(domain) && DottedName(role)
  }

  lemma ResolvesTo(m: Membership, domain: string, role: string)
    ensures Resolve(m) == Some(RoleScope(domain, role)) <==>
            && CanBeNamed(domain, role)
            && (|| (m.domain == domain && m.role == role)
                || (m.role == Scope(domain, role) && (m.domain == "" || m.domain == domain)))
  {
    hide SplitScope, Scope, MarkerFree, DottedName;
    SplitUndoesScope(m.role, domain, role);
    SplitUndoesScope(Scope(m.domain, m.role), domain, role);
    SplitUndoesScope(Scope(domain, role), domain, role);
    if CanBeNamed(domain, role) {
      DottedIsMarkerFree(role);
      ScopeHasMarker(domain, role);
    }
    if MarkerFree(m.role) && Resolve(m) == Some(RoleScope(domain, role)) {
      ScopeIsInjective(domain, m.role, role);
    }
  }

  lemma DottedIsMarkerFree(role: string)
    requires DottedName(role)
    ensures MarkerFree(role)
  {
    assert ':' !in role;
    NoColonNoMarker(role);
  }

  lemma ScopeHasMarker(domain: string, role: string)
    requires MarkerFree(domain)
    ensures !MarkerFree(Scope(domain, role))
  {
    MarkerAfterDomain(domain, role);
  }

  /**
   The user holds a role exactly when the listing has it: as the domain and the short role name, or as the
   full scope with the domain repeated or left out.
  */
  lemma UserHoldsIff(list: seq<Membership>, domain: string, role: string)
    ensures UserHolds(list, domain, role) <==>
            && CanBeNamed(domain, role)
            && exists m :: m in list
                 && (|| (m.domain == domain && m.role == role)
                     || (m.role == Scope(domain, role) && (m.domain == "" || m.domain == domain)))
  {
    hide Resolve, CanBeNamed, Scope;
    forall m
      ensures Resolve(m) == Some(RoleScope(domain, role)) <==>
              && CanBeNamed(domain, role)
              && (|| (m.domain == domain && m.role == role)
                  || (m.role == Scope(domain, role) && (m.domain == "" || m.domain == domain)))
    {
      ResolvesTo(m, domain, role);
    }
  }

  lemma NamesRoleIff(m: Membership, domain: string, role: string)
    ensures NamesRole(m, domain, role) <==>
            CanBeNamed(domain, role) && (m.domain == "" || m.domain == domain) && (m.role == role || m.role == Scope(domain, role))
  {
    hide SplitScope, Scope, MarkerFree, DottedName;
    SplitUndoesScope(m.role, domain, role);
    SplitUndoesScope(Scope(domain, m.role), domain, role);
    if CanBeNamed(domain, role) {
      DottedIsMarkerFree(role);
      ScopeHasMarker(domain, role);
    }
    if NamesRole(m, domain, role) && MarkerFree(m.role) {
      ScopeIsInjective(domain, m.role, role);
    }
  }

  lemma ExchangerCanBeNamed(domain: string, role: string)
    ensures CanBeNamed(domain, role + EXCHANGER_SUFFIX) <==> CanBeNamed(domain, role)
  {
    hide MarkerFree;
    var full := role + EXCHANGER_SUFFIX;
    assert forall i :: 0 <= i < |role| ==> full[i] == role[i];
    assert forall i :: 0 <= i < |EXCHANGER_SUFFIX| ==> full[|role| + i] == EXCHANGER_SUFFIX[i];
    assert forall i :: |role| <= i < |full| ==> full[i] == EXCHANGER_SUFFIX[i - |role|];
    assert role == "" ==> full[0] == '-';
  }

  /** The workload can exchange for a role exactly when the listing has the role's exchanger, in short or in full. */
  lemma WorkloadHoldsIff(held: seq<Membership>, domain: string, role: string)
    ensures WorkloadHolds(held, domain, role) <==>
            && CanBeNamed(domain, role)
            && exists m :: m in held && (m.domain == "" || m.domain == domain)
                 && (m.role == role + EXCHANGER_SUFFIX || m.role == Scope(domain, role + EXCHANGER_SUFFIX))
  {
    hide CanBeNamed, NamesRole, WorkloadHolds, Scope;
    HoldingIsMembership(held, domain, role);
    ExchangerCanBeNamed(domain, role);
    forall m
      ensures NamesRole(m, domain, role + EXCHANGER_SUFFIX) <==>
              && CanBeNamed(domain, role + EXCHANGER_SUFFIX) && (m.domain == "" || m.domain == domain)
              && (m.role == role + EXCHANGER_SUFFIX || m.role == Scope(domain, role + EXCHANGER_SUFFIX))
    {
      NamesRoleIff(m, domain, role + EXCHANGER_SUFFIX);
    }
  }

  /** A role of a member whose wildcard name covers the workload. */
  ghost predicate HeldByWildcard(m: Membership, members: seq<Member>, workload: string, domain: string) {
    exists member, r :: member in members && r in member.roles && WildcardMatches(member.name, workload)
      && m.role == r.role && m.domain == (if r.domain == "" then domain else r.domain)
  }

  lemma InDomainMembers(roles: seq<Membership>, domain: string, m: Membership)
    ensures m in InDomain(roles, domain) <==>
            exists r :: r in roles && m.role == r.role && m.domain == (if r.domain == "" then domain else r.domain)
  {
    var placed := InDomain(roles, domain);
    if r :| r in roles && m.role == r.role && m.domain == (if r.domain == "" then domain else r.domain) {
      var i :| 0 <= i < |roles| && roles[i] == r;
      assert placed[i] == m;
    }
  }

  lemma {:induction false} WildcardRolesAre(members: seq<Member>, workload: string, domain: string, m: Membership)
    ensures m in WildcardRoles(members, workload, domain) <==> HeldByWildcard(m, members, workload, domain)
  {
    hide WildcardMatches, InDomain;
    if members != [] {
      InDomainMembers(members[0].roles, domain, m);
      WildcardRolesAre(members[1..], workload, domain, m);
      assert forall member :: member in members <==> member == members[0] || member in members[1..];
    }
  }

  /** What counts as the workload's: the expanded listing, when there is one, and the roles of covering wildcards. */
  lemma WorkloadRolesAre(l: DomainListing, workload: string, domain: string, m: Membership)
    requires Readable(l)
    ensures m in WorkloadRoles(l, workload, domain) <==>
            || (l.exchangers.status == 200 && m in l.exchangers.body.value)
            || HeldByWildcard(m, l.members.body.value, workload, domain)
  {
    WildcardRolesAre(l.members.body.value, workload, domain, m);
  }

  lemma CollectedIsIntersection(list: seq<Membership>, held: seq<Membership>, domain: string, roles: set<string>, scopes: set<string>)
    requires forall r :: r in roles <==> UserHolds(list, domain, r)
    requires forall s :: s in scopes <==>
               exists m, r :: m in held && Exchangeable(m, domain) == Some(s) && SplitScope(s) == Some(RoleScope(domain, r)) && r in roles
    ensures Lists(scopes, list, held, domain)
  {
    hide SplitScope, Exchangeable, UserHolds, Scope;
    forall s | s in scopes
      ensures exists r :: s == Scope(domain, r) && UserHolds(list, domain, r) && WorkloadHolds(held, domain, r)
    {
      var m, r :| m in held && Exchangeable(m, domain) == Some(s) && SplitScope(s) == Some(RoleScope(domain, r)) && r in roles;
      ExchangeableSplits(m, domain, s);
      assert s == Scope(domain, r);
      assert WorkloadHolds(held, domain, r);
    }
    forall r | UserHolds(list, domain, r) && WorkloadHolds(held, domain, r)
      ensures Scope(domain, r) in scopes
    {
      var m :| m in held && Exchangeable(m, domain) == Some(Scope(domain, r));
      ExchangeableSplits(m, domain, Scope(domain, r));
      ScopeIsInjective(domain, r, SplitScope(Scope(domain, r)).value.role);
    }
  }

  /** The candidate domains in order. */
  method CandidateDomains(projects: map<string, Project>, baseline: string) returns (domains: seq<string>)
    ensures StrictlySorted(domains)
    ensures forall d :: d in domains <==> d in projects && baseline in projects[d].roles
  {
    var unsorted: seq<string> := [];
    var keys := projects.Keys;
    while keys != {}
      invariant keys <= projects.Keys
      invariant forall d :: d in unsorted <==> d in projects && d !in keys && baseline in projects[d].roles
      decreases keys
    {
      var d :| d in keys;
      if baseline in projects[d].roles {
        unsorted := unsorted + [d];
      }
      keys := keys - {d};
    }
    domains := SortedSet(unsorted);
  }

  method SortedSet(unsorted: seq<string>) returns (sorted: seq<string>)
    ensures StrictlySorted(sorted) && forall x :: x in sorted <==> x in unsorted
  {
    SortUniqueSorts(unsorted);
    sorted := SortUnique(unsorted);
    assert forall x :: x in sorted <==> x in Elements(sorted);
    assert forall x :: x in unsorted <==> x in Elements(unsorted);
  }

  ghost predicate EntriesFor(result: seq<ServiceScopes>, domains: seq<string>, list: seq<Membership>,
                             listing: string -> DomainListing, matcher: DomainMatcher, workload: string, baseline: string) {
    && (forall d :: d in domains ==> Readable(listing(d)))
    && StrictlySorted(Domains(result))
    && (forall d :: d in Domains(result) <==> d in domains && WorkloadHolds(WorkloadRoles(listing(d), workload, d), d, baseline))
    && (forall i :: 0 <= i < |result| ==>
          Readable(listing(result[i].domain))
          && IsEntry(result[i], list, WorkloadRoles(listing(result[i].domain), workload, result[i].domain), matcher))
  }

  lemma SkipDomain(result: seq<ServiceScopes>, domains: seq<string>, k: nat, list: seq<Membership>,
                   listing: string -> DomainListing, matcher: DomainMatcher, workload: string, baseline: string)
    requires k < |domains| && EntriesFor(result, domains[..k], list, listing, matcher, workload, baseline)
    requires Readable(listing(domains[k]))
    requires !WorkloadHolds(WorkloadRoles(listing(domains[k]), workload, domains[k]), domains[k], baseline)
    ensures EntriesFor(result, domains[..k + 1], list, listing, matcher, workload, baseline)
  {
    hide Readable, WorkloadHolds, WorkloadRoles, IsEntry, StrictlySorted;
    assert forall d :: d in domains[..k + 1] <==> d in domains[..k] || d == domains[k];
  }

  lemma AddEntry(result: seq<ServiceScopes>, domains: seq<string>, k: nat, e: ServiceScopes, list: seq<Membership>,
                 listing: string -> DomainListing, matcher: DomainMatcher, workload: string, baseline: string)
    requires k < |domains| && StrictlySorted(domains) && e.domain == domains[k]
    requires EntriesFor(result, domains[..k], list, listing, matcher, workload, baseline)
    requires Readable(listing(domains[k]))
    requires WorkloadHolds(WorkloadRoles(listing(domains[k]), workload, domains[k]), domains[k], baseline)
    requires IsEntry(e, list, WorkloadRoles(listing(e.domain), workload, e.domain), matcher)
    ensures EntriesFor(result + [e], domains[..k + 1], list, listing, matcher, workload, baseline)
  {
    hide Readable, WorkloadHolds, WorkloadRoles, IsEntry;
    assert Domains(result + [e]) == Domains(result) + [e.domain];
    assert forall d :: d in domains[..k + 1] <==> d in domains[..k] || d == domains[k];
    forall i | 0 <= i < |result| ensures Less(Domains(result)[i], e.domain) {
      assert Domains(result)[i] in domains[..k];
    }
  }

  /** One pass of the loop over candidate domains. */
  method DiscoverDomain(list: seq<Membership>, domain: string, project: Project, l: DomainListing, matcher: DomainMatcher,
                        workload: string, baseline: string) returns (r: Option<Option<ServiceScopes>>)
    requires Match(matcher, domain) == Some(project.service) && UserHolds(list, domain, baseline)
    requires forall r :: r in project.roles <==> UserHolds(list, domain, r)
    ensures r.Some? <==> Readable(l)
    ensures r.Some? ==> (r.value.Some? <==> WorkloadHolds(WorkloadRoles(l, workload, domain), domain, baseline))
    ensures r.Some? && r.value.Some? ==>
              r.value.value.domain == domain && IsEntry(r.value.value, list, WorkloadRoles(l, workload, domain), matcher)
  {
    hide Readable, WorkloadHolds, WorkloadRoles, UserHolds, Match, Exchangeable, IsEntry, Lists, Scope, SplitScope;
    var held := ExchangerRoles(l, workload, domain);
    if held.None? {
      return None;
    }
    var scopes := CollectScopes(held.value, project.roles, domain);
    CollectedIsIntersection(list, held.value, domain, project.roles, scopes);
    BaselineListed(list, held.value, domain, baseline, scopes);
    if Scope(domain, baseline) !in scopes {
      return Some(None);
    }
    var sorted := Listed(scopes);
    var e := ServiceScopes(project.service, domain, sorted);
    EntryIsRight(e, list, held.value, matcher, scopes);
    return Some(Some(e));
  }

  method DiscoverIn(list: seq<Membership>, listing: string -> DomainListing, matcher: DomainMatcher, workload: string,
                    baseline: string) returns (r: Result<seq<ServiceScopes>, DiscoverError>)
    ensures r.Success? ==> IsDiscovery(r.value, list, listing, matcher, workload, baseline)
    ensures r.Failure? ==> r.error.DomainListingFailed? && !Readable(listing(r.error.domain))
                           && Candidate(list, matcher, baseline, r.error.domain)
                           && forall d :: Candidate(list, matcher, baseline, d) && Less(d, r.error.domain) ==> Readable(listing(d))
  {
    hide Readable, WorkloadHolds, WorkloadRoles, UserHolds, Match, IsEntry, HoldsAny, EntriesFor, IsDiscovery;
    var projects := GatherProjects(list, matcher);
    var domains := CandidateDomains(projects, baseline);
    CandidatesAreGathered(projects, list, matcher, baseline, domains);
    var result: seq<ServiceScopes> := [];
    NoEntries(list, listing, matcher, workload, baseline);
    var k := 0;
    while k < |domains|
      invariant k <= |domains|
      invariant EntriesFor(result, domains[..k], list, listing, matcher, workload, baseline)
    {
      var domain := domains[k];
      assert domain in projects && baseline in projects[domain].roles;
      var found := DiscoverDomain(list, domain, projects[domain], listing(domain), matcher, workload, baseline);
      if found.None? {
        EntriesAreReadable(result, domains[..k], list, listing, matcher, workload, baseline);
        FirstUnreadable(domains, k, listing);
        return Failure(DomainListingFailed(domain));
      }
      if found.value.None? {
        SkipDomain(result, domains, k, list, listing, matcher, workload, baseline);
      } else {
        AddEntry(result, domains, k, found.value.value, list, listing, matcher, workload, baseline);
        result := result + [found.value.value];
      }
      k := k + 1;
    }
    assert domains[..|domains|] == domains;
    EntriesMakeDiscovery(result, domains, list, listing, matcher, workload, baseline);
    return Success(result);
  }

  lemma NoEntries(list: seq<Membership>, listing: string -> DomainListing, matcher: DomainMatcher, workload: string, baseline: string)
    ensures EntriesFor([], [], list, listing, matcher, workload, baseline)
  {
  }

  lemma EntriesAreReadable(result: seq<ServiceScopes>, domains: seq<string>, list: seq<Membership>,
                           listing: string -> DomainListing, matcher: DomainMatcher, workload: string, baseline: string)
    requires EntriesFor(result, domains, list, listing, matcher, workload, baseline)
    ensures forall d :: d in domains ==> Readable(listing(d))
  {
  }

  lemma EntriesMakeDiscovery(result: seq<ServiceScopes>, domains: seq<string>, list: seq<Membership>,
                             listing: string -> DomainListing, matcher: DomainMatcher, workload: string, baseline: string)
    requires EntriesFor(result, domains, list, listing, matcher, workload, baseline)
    requires forall d :: d in domains <==> Candidate(list, matcher, baseline, d)
    ensures IsDiscovery(result, list, listing, matcher, workload, baseline)
  {
    hide Readable, WorkloadHolds, WorkloadRoles, Candidate, IsEntry, StrictlySorted;
    forall i | 0 <= i < |result| ensures result[i].domain in domains {
      assert Domains(result)[i] in Domains(result);
    }
  }

  lemma CandidatesAreGathered(projects: map<string, Project>, list: seq<Membership>, matcher: DomainMatcher, baseline: string,
                              domains: seq<string>)
    requires Gathered(projects, list, matcher)
    requires forall d :: d in domains <==> d in projects && baseline in projects[d].roles
    ensures forall d :: d in domains <==> Candidate(list, matcher, baseline, d)
  {
    hide Resolve, Match, UserHolds, HoldsAny;
    forall d ensures UserHolds(list, d, baseline) ==> HoldsAny(list, d) {
      if !HoldsAny(list, d) {
        NoneHeld(list, d, baseline);
      }
    }
  }

  lemma FirstUnreadable(domains: seq<string>, k: nat, listing: string -> DomainListing)
    requires k < |domains| && StrictlySorted(domains) && forall d :: d in domains[..k] ==> Readable(listing(d))
    ensures forall d :: d in domains && Less(d, domains[k]) ==> Readable(listing(d))
  {
    hide Readable, Less;
    forall d | d in domains && Less(d, domains[k]) ensures Readable(listing(d)) {
      var j :| 0 <= j < |domains| && domains[j] == d;
      LessTotal(d, domains[k]);
      assert j < k;
      assert domains[..k][j] == d;
    }
  }

  lemma BaselineListed(list: seq<Membership>, held: seq<Membership>, domain: string, baseline: string, scopes: set<string>)
    requires Lists(scopes, list, held, domain) && UserHolds(list, domain, baseline)
    ensures Scope(domain, baseline) in scopes <==> WorkloadHolds(held, domain, baseline)
  {
    hide UserHolds, WorkloadHolds, Scope;
    if Scope(domain, baseline) in scopes {
      var r :| Scope(domain, baseline) == Scope(domain, r) && UserHolds(list, domain, r) && WorkloadHolds(held, domain, r);
      ScopeIsInjective(domain, baseline, r);
    }
  }

  lemma EntryIsRight(e: ServiceScopes, list: seq<Membership>, held: seq<Membership>, matcher: DomainMatcher, scopes: set<string>)
    requires Match(matcher, e.domain) == Some(e.service) && StrictlySorted(e.scopes)
    requires Elements(e.scopes) == scopes && Lists(scopes, list, held, e.domain)
    ensures IsEntry(e, list, held, matcher)
  {
  }

  /** The whole procedure, with its checks of the inputs and of the first listing. */
  method DiscoverGenAiScopes(idToken: string, user: string, workload: string, template: string, baselineRole: string,
                             userListing: Outcome<seq<Membership>>, listing: string -> DomainListing)
      returns (r: Result<seq<ServiceScopes>, DiscoverError>)
    ensures if Texts.Trim(idToken) == "" then r == Failure(NoIdToken)
            else if !MemberName(user) then r == Failure(BadUser)
            else if !MemberName(workload) then r == Failure(BadWorkload)
            else if ParseDomainTemplate(template).None? then r == Failure(BadTemplate)
            else if !ValidTargetRole(baselineRole) then r == Failure(BadRole)
            else if userListing.Reply? && userListing.status == 404 then r == Success([])
            else if userListing.Unreachable? || userListing.status != 200 || userListing.body.None? then
              r == Failure(UserListingFailed)
            else
              var list, m := userListing.body.value, ParseDomainTemplate(template).value;
              var baseline := Texts.Trim(baselineRole);
              && (r.Success? ==> IsDiscovery(r.value, list, listing, m, workload, baseline))
              && (r.Failure? <==> exists d :: Candidate(list, m, baseline, d) && !Readable(listing(d)))
  {
    hide IsDiscovery, Candidate, Readable, ParseDomainTemplate, MemberName, ValidTargetRole, Texts.Trim;
    if Texts.Trim(idToken) == "" {
      return Failure(NoIdToken);
    }
    if !MemberName(user) {
      return Failure(BadUser);
    }
    if !MemberName(workload) {
      return Failure(BadWorkload);
    }
    var matcher := ParseDomainTemplate(template);
    if matcher.None? {
      return Failure(BadTemplate);
    }
    if !ValidTargetRole(baselineRole) {
      return Failure(BadRole);
    }
    if userListing.Unreachable? {
      return Failure(UserListingFailed);
    }
    if userListing.status == 404 {
      return Success([]);
    }
    if userListing.status != 200 || userListing.body.None? {
      return Failure(UserListingFailed);
    }
    r := DiscoverIn(userListing.body.value, listing, matcher.value, workload, Texts.Trim(baselineRole));
    if r.Success? {
      DiscoveryIsReadable(r.value, userListing.body.value, listing, matcher.value, workload, Texts.Trim(baselineRole));
    }
  }

  lemma DiscoveryIsReadable(result: seq<ServiceScopes>, list: seq<Membership>, listing: string -> DomainListing,
                            matcher: DomainMatcher, workload: string, baseline: string)
    requires IsDiscovery(result, list, listing, matcher, workload, baseline)
    ensures forall d :: Candidate(list, matcher, baseline, d) ==> Readable(listing(d))
  {
  }
}
