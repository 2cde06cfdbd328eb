/**
 The naming convention of GenAI service projects: role scopes, exchanger roles, and the domain
 template with one project placeholder.
*/
module GenAi {
  import opened Results
  import opened ScopeCover
  import opened Texts

  const EXCHANGER_SUFFIX := "-jag-exchangers"
  const PLACEHOLDER := "{{project}}"
  const DOTTED_PLACEHOLDER := "{{.project}}"

  predicate IsWordChar(c: char) { 'A' <= c <= 'Z' || 'a' <= c <= 'z' || '0' <= c <= '9' || c == '_' }

  predicate ServiceName(s: string) {
    s != "" && IsWordChar(s[0]) && forall i :: 0 <= i < |s| ==> IsWordChar(s[i]) || s[i] == '-'
  }

  /** The pattern of role names and of domain names. */
  predicate DottedName(s: string) {
    s != "" && IsWordChar(s[0]) && forall i :: 0 <= i < |s| ==> IsWordChar(s[i]) || s[i] == '-' || s[i] == '.'
  }

  predicate HasSuffix(s: string, suffix: string) {
    |suffix| <= |s| && s[|s| - |suffix|..] == suffix
  }

  function TrimPrefix(s: string, prefix: string): string {
    if prefix <= s then s[|prefix|..] else s
  }

  function TrimSuffix(s: string, suffix: string): string {
    if HasSuffix(s, suffix) then s[..|s| - |suffix|] else s
  }

  // ---------------------------------------------------------------- scopes

  datatype RoleScope = RoleScope(domain: string, role: string)

  function Scope(domain: string, role: string): string { domain + MARKER + role }

  /** Exactly one `:role.`, a domain before it and a role name after it. */
  function SplitScope(scope: string): Option<RoleScope> {
    var i := IndexOf(scope, MARKER);
    if i <= 0 then None
    else
      var role := scope[i + |MARKER|..];
      if IndexOf(role, MARKER) >= 0 || !DottedName(role) then None else Some(RoleScope(scope[..i], role))
  }

  function TargetFromExchanger(domain: string, exchangerRole: string): Option<string> {
    match SplitScope(exchangerRole)
    case None => None
    case Some(rs) =>
      if rs.domain != domain || !HasSuffix(rs.role, EXCHANGER_SUFFIX) then None
      else Some(Scope(domain, TrimSuffix(rs.role, EXCHANGER_SUFFIX)))
  }

  predicate MarkerFree(s: string) { IndexOf(s, MARKER) < 0 }

  lemma {:induction false} NoColonNoMarker(s: string)
    requires ':' !in s
    ensures MarkerFree(s)
  {
    if |s| >= |MARKER| {
      assert s[0] != MARKER[0];
      NoColonNoMarker(s[1..]);
    }
  }

  /** The first marker of a scope is the one that ends a marker-free domain. */
  lemma {:induction false} MarkerAfterDomain(domain: string, rest: string)
    requires MarkerFree(domain)
    ensures IndexOf(domain + MARKER + rest, MARKER) == |domain|
  {
    var s := domain + MARKER + rest;
    if domain == "" {
      assert s[..|MARKER|] == MARKER;
    } else {
      MarkerNotAcross(domain, rest);
      assert s[1..] == domain[1..] + MARKER + rest;
      assert MarkerFree(domain[1..]);
      MarkerAfterDomain(domain[1..], rest);
    }
  }

  /** The marker cannot overlap itself: it has one colon, at its start. */
  lemma MarkerNotAcross(domain: string, rest: string)
    requires MarkerFree(domain) && domain != ""
    ensures !(MARKER <= domain + MARKER + rest)
  {
    var s := domain + MARKER + rest;
    if |domain| >= |MARKER| {
      assert !(MARKER <= domain);
      assert s[..|MARKER|] == domain[..|MARKER|];
    } else {
      assert s[|domain|] == ':' && MARKER[|domain|] != ':';
    }
  }

  lemma {:induction false} BeforeFirstMarker(s: string)
    requires IndexOf(s, MARKER) >= 0
    ensures MarkerFree(s[..IndexOf(s, MARKER)])
  {
    var i := IndexOf(s, MARKER);
    if i > 0 {
      BeforeFirstMarker(s[1..]);
      assert s[..i][1..] == s[1..][..i - 1];
      assert !(MARKER <= s);
      if |s[..i]| >= |MARKER| {
        assert s[..i][..|MARKER|] == s[..|MARKER|];
      }
    }
  }

  lemma ScopeSplits(domain: string, role: string)
    requires domain != "" && MarkerFree(domain) && DottedName(role)
    ensures SplitScope(Scope(domain, role)) == Some(RoleScope(domain, role))
  {
    hide IndexOf;
    var scope := Scope(domain, role);
    MarkerAfterDomain(domain, role);
    assert scope[..|domain|] == domain;
    assert scope[|domain| + |MARKER|..] == role;
    NoColonNoMarker(role);
  }

  lemma SplitRejoins(scope: string)
    requires SplitScope(scope).Some?
    ensures var rs := SplitScope(scope).value;
            scope == Scope(rs.domain, rs.role) && rs.domain != "" && MarkerFree(rs.domain) && DottedName(rs.role)
  {
    hide IndexOf, DottedName;
    BeforeFirstMarker(scope);
    var i := IndexOf(scope, MARKER);
    assert scope == scope[..i] + scope[i..i + |MARKER|] + scope[i + |MARKER|..];
  }

  /** Splitting and joining are inverse: the split succeeds exactly on well-formed scopes. */
  lemma SplitUndoesScope(scope: string, domain: string, role: string)
    ensures SplitScope(scope) == Some(RoleScope(domain, role)) <==>
            scope == Scope(domain, role) && domain != "" && MarkerFree(domain) && DottedName(role)
  {
    hide SplitScope, Scope, MarkerFree, DottedName;
    if SplitScope(scope).Some? {
      SplitRejoins(scope);
    }
    if domain != "" && MarkerFree(domain) && DottedName(role) {
      ScopeSplits(domain, role);
    }
  }

  /** An exchanger role maps to the one target role it is named after. */
  lemma TargetIsNamedByExchanger(domain: string, exchangerRole: string, target: string)
    ensures TargetFromExchanger(domain, exchangerRole) == Some(target) <==>
            exists role :: SplitScope(exchangerRole) == Some(RoleScope(domain, role + EXCHANGER_SUFFIX))
                           && target == Scope(domain, role)
  {
    if TargetFromExchanger(domain, exchangerRole) == Some(target) {
      var r := SplitScope(exchangerRole).value.role;
      var role := TrimSuffix(r, EXCHANGER_SUFFIX);
      assert r == role + EXCHANGER_SUFFIX;
      assert SplitScope(exchangerRole) == Some(RoleScope(domain, role + EXCHANGER_SUFFIX));
    }
    if role :| SplitScope(exchangerRole) == Some(RoleScope(domain, role + EXCHANGER_SUFFIX))
               && target == Scope(domain, role) {
      assert TrimSuffix(role + EXCHANGER_SUFFIX, EXCHANGER_SUFFIX) == role;
    }
  }

  /** The target is itself a well-formed scope of the same domain. */
  lemma TargetIsAScope(domain: string, role: string, exchangerRole: string)
    requires SplitScope(exchangerRole) == Some(RoleScope(domain, role + EXCHANGER_SUFFIX))
    ensures SplitScope(Scope(domain, role)) == Some(RoleScope(domain, role))
  {
    var full := role + EXCHANGER_SUFFIX;
    SplitUndoesScope(exchangerRole, domain, full);
    assert role == "" ==> full == EXCHANGER_SUFFIX;
    assert EXCHANGER_SUFFIX[0] == '-';
    assert forall i :: 0 <= i < |role| ==> role[i] == full[i];
    assert DottedName(role);
    SplitUndoesScope(Scope(domain, role), domain, role);
  }

  lemma ScopeIsInjective(domain: string, a: string, b: string)
    requires Scope(domain, a) == Scope(domain, b)
    ensures a == b
  {
    assert Scope(domain, a)[|domain| + |MARKER|..] == a;
    assert Scope(domain, b)[|domain| + |MARKER|..] == b;
  }

  // ---------------------------------------------------------------- the domain template

  datatype DomainMatcher = DomainMatcher(prefix: string, suffix: string)

  function Match(m: DomainMatcher, domain: string): Option<string> {
    if !(m.prefix <= domain) || !HasSuffix(domain, m.suffix) then None
    else
      var project := TrimSuffix(TrimPrefix(domain, m.prefix), m.suffix);
      if ServiceName(project) then Some(project) else None
  }

  /** Every project's domain matches, and gives the project back. */
  lemma MatchUndoesTemplate(m: DomainMatcher, project: string)
    requires ServiceName(project)
    ensures Match(m, m.prefix + project + m.suffix) == Some(project)
  {
    var domain := m.prefix + project + m.suffix;
    assert domain[..|m.prefix|] == m.prefix;
    assert domain[|domain| - |m.suffix|..] == m.suffix;
    assert domain[|m.prefix|..] == project + m.suffix;
    assert (project + m.suffix)[|project|..] == m.suffix;
    assert (project + m.suffix)[..|project|] == project;
  }

  lemma LongMatchIsFilled(m: DomainMatcher, domain: string)
    requires Match(m, domain).Some? && |domain| >= |m.prefix| + |m.suffix|
    ensures domain == m.prefix + Match(m, domain).value + m.suffix
  {
    hide ServiceName;
    var rest := domain[|m.prefix|..];
    assert rest[|rest| - |m.suffix|..] == domain[|domain| - |m.suffix|..];
    assert domain == m.prefix + rest;
    assert rest == rest[..|rest| - |m.suffix|] + m.suffix;
  }

  /** What matches was made from the template exactly when prefix and suffix do not overlap in it. */
  lemma TemplateUndoesMatch(m: DomainMatcher, domain: string, project: string)
    requires Match(m, domain) == Some(project)
    ensures domain == m.prefix + project + m.suffix <==> |domain| >= |m.prefix| + |m.suffix|
  {
    hide Match;
    if |domain| >= |m.prefix| + |m.suffix| {
      LongMatchIsFilled(m, domain);
    }
  }

  /** Different domains of one project are possible only through such an overlap. */
  lemma MatchIsInjective(m: DomainMatcher, a: string, b: string)
    requires Match(m, a).Some? && Match(m, a) == Match(m, b)
    requires |a| >= |m.prefix| + |m.suffix| && |b| >= |m.prefix| + |m.suffix|
    ensures a == b
  {
    TemplateUndoesMatch(m, a, Match(m, a).value);
    TemplateUndoesMatch(m, b, Match(m, b).value);
  }

  lemma OverlapMatchesToo()
    ensures Match(DomainMatcher("a.", ".a"), "a.a") == Some("a")
    ensures Match(DomainMatcher("a.", ".a"), "a.a.a") == Some("a")
  {
    var m := DomainMatcher("a.", ".a");
    assert "a." <= "a.a" && "a.a"[1..] == ".a" && "a.a"[2..] == "a";
    assert ServiceName("a");
    MatchUndoesTemplate(m, "a");
    assert m.prefix + "a" + m.suffix == "a.a.a";
  }

  function Count(s: string, sub: string): nat
    requires sub != ""
  {
    if |s| < |sub| then 0
    else if sub <= s then 1 + Count(s[|sub|..], sub)
    else Count(s[1..], sub)
  }

  function TrimDots(s: string): string {
    if s != "" && s[0] == '.' then TrimDots(s[1..])
    else if s != "" && s[|s| - 1] == '.' then TrimDots(s[..|s| - 1])
    else s
  }

  predicate ValidFragment(fragment: string) {
    fragment == ""
    || (':' !in fragment && '/' !in fragment && ' ' !in fragment && DottedName(TrimDots(fragment)))
  }

  function ParseDomainTemplate(value: string): Option<DomainMatcher> {
    var template := ReplaceAll(Trim(value), DOTTED_PLACEHOLDER, PLACEHOLDER);
    var i := IndexOf(template, PLACEHOLDER);
    if Count(template, PLACEHOLDER) != 1 || i < 0 then None
    else
      var m := DomainMatcher(template[..i], template[i + |PLACEHOLDER|..]);
      if ValidFragment(m.prefix) && ValidFragment(m.suffix) then Some(m) else None
  }

  /** The characters of a fragment: what its trimmed part may hold, and dots around it. */
  lemma {:induction false} FragmentChars(s: string, i: nat)
    requires DottedName(TrimDots(s)) && i < |s|
    ensures IsWordChar(s[i]) || s[i] == '-' || s[i] == '.'
    decreases |s|
  {
    if s[0] == '.' {
      if i > 0 {
        FragmentChars(s[1..], i - 1);
      }
    } else if s[|s| - 1] == '.' {
      if i < |s| - 1 {
        FragmentChars(s[..|s| - 1], i);
      }
    }
  }

  predicate BraceFree(s: string) { '{' !in s }

  lemma FragmentIsPlain(s: string)
    requires ValidFragment(s)
    ensures BraceFree(s) && forall i :: 0 <= i < |s| ==> !IsBlank(s[i])
  {
    forall i | 0 <= i < |s| ensures s[i] != '{' && !IsBlank(s[i]) {
      FragmentChars(s, i);
    }
  }

  lemma {:induction false} ReplaceAfterPlain(a: string, rest: string, old_: string, new_: string)
    requires BraceFree(a) && old_ != "" && old_[0] == '{'
    ensures ReplaceAll(a + rest, old_, new_) == a + ReplaceAll(rest, old_, new_)
  {
    if a == "" {
      assert a + rest == rest;
    } else {
      assert (a + rest)[1..] == a[1..] + rest;
      assert (a + rest)[0] != old_[0];
      ReplaceAfterPlain(a[1..], rest, old_, new_);
      if |a + rest| < |old_| {
        assert ReplaceAll(a[1..] + rest, old_, new_) == a[1..] + rest;
        assert ReplaceAll(rest, old_, new_) == rest;
      }
      assert [a[0]] + (a[1..] + ReplaceAll(rest, old_, new_)) == a + ReplaceAll(rest, old_, new_);
    }
  }

  lemma {:induction false} CountAfterPlain(a: string, rest: string, sub: string)
    requires BraceFree(a) && sub != "" && sub[0] == '{'
    ensures Count(a + rest, sub) == Count(rest, sub)
    ensures IndexOf(rest, sub) >= 0 ==> IndexOf(a + rest, sub) == |a| + IndexOf(rest, sub)
  {
    if a == "" {
      assert a + rest == rest;
    } else {
      assert (a + rest)[1..] == a[1..] + rest;
      assert (a + rest)[0] != sub[0];
      CountAfterPlain(a[1..], rest, sub);
    }
  }

  lemma PlainHasNone(s: string, sub: string, new_: string)
    requires BraceFree(s) && sub != "" && sub[0] == '{'
    ensures Count(s, sub) == 0 && ReplaceAll(s, sub, new_) == s
  {
    assert s + "" == s;
    CountAfterPlain(s, "", sub);
    ReplaceAfterPlain(s, "", sub, new_);
  }

  lemma ReplacedTemplate(prefix: string, suffix: string, dotted: bool)
    requires BraceFree(prefix) && BraceFree(suffix)
    ensures ReplaceAll(prefix + (if dotted then DOTTED_PLACEHOLDER else PLACEHOLDER) + suffix, DOTTED_PLACEHOLDER, PLACEHOLDER)
            == prefix + PLACEHOLDER + suffix
  {
    var mark := if dotted then DOTTED_PLACEHOLDER else PLACEHOLDER;
    assert prefix + mark + suffix == prefix + (mark + suffix);
    ReplaceAfterPlain(prefix, mark + suffix, DOTTED_PLACEHOLDER, PLACEHOLDER);
    if dotted {
      assert DOTTED_PLACEHOLDER <= mark + suffix;
      assert (mark + suffix)[|mark|..] == suffix;
      PlainHasNone(suffix, DOTTED_PLACEHOLDER, PLACEHOLDER);
    } else {
      PlainPlaceholderStays(suffix);
    }
    assert prefix + (PLACEHOLDER + suffix) == prefix + PLACEHOLDER + suffix;
  }

  lemma NotReplacedHere(c: char, rest: string, old_: string, new_: string)
    requires old_ != "" && !(old_ <= [c] + rest)
    ensures ReplaceAll([c] + rest, old_, new_) == [c] + ReplaceAll(rest, old_, new_)
  {
    assert ([c] + rest)[1..] == rest;
  }

  lemma PlainPlaceholderStays(suffix: string)
    requires BraceFree(suffix)
    ensures ReplaceAll(PLACEHOLDER + suffix, DOTTED_PLACEHOLDER, PLACEHOLDER) == PLACEHOLDER + suffix
  {
    hide ReplaceAll;
    var tail := "project}}" + suffix;
    assert BraceFree(tail);
    PlainHasNone(tail, DOTTED_PLACEHOLDER, PLACEHOLDER);
    var one := ['{'] + tail;
    assert one[1] == 'p' && DOTTED_PLACEHOLDER[1] == '{';
    NotReplacedHere('{', tail, DOTTED_PLACEHOLDER, PLACEHOLDER);
    var two := ['{'] + one;
    assert two[2] == 'p' && DOTTED_PLACEHOLDER[2] == '.';
    NotReplacedHere('{', one, DOTTED_PLACEHOLDER, PLACEHOLDER);
    assert two == PLACEHOLDER + suffix;
  }

  lemma PlaceholderInFront(suffix: string)
    ensures Count(PLACEHOLDER + suffix, PLACEHOLDER) == 1 + Count(suffix, PLACEHOLDER)
    ensures IndexOf(PLACEHOLDER + suffix, PLACEHOLDER) == 0
  {
    assert PLACEHOLDER <= PLACEHOLDER + suffix;
    assert (PLACEHOLDER + suffix)[|PLACEHOLDER|..] == suffix;
  }

  lemma OnePlaceholder(prefix: string, suffix: string)
    requires BraceFree(prefix) && BraceFree(suffix)
    ensures Count(prefix + PLACEHOLDER + suffix, PLACEHOLDER) == 1
    ensures IndexOf(prefix + PLACEHOLDER + suffix, PLACEHOLDER) == |prefix|
  {
    hide BraceFree, Count, IndexOf;
    assert prefix + PLACEHOLDER + suffix == prefix + (PLACEHOLDER + suffix);
    PlaceholderInFront(suffix);
    PlainHasNone(suffix, PLACEHOLDER, "");
    CountAfterPlain(prefix, PLACEHOLDER + suffix, PLACEHOLDER);
  }

  lemma StripPlain(s: string)
    requires s != "" && !IsBlank(s[0]) && !IsBlank(s[|s| - 1])
    ensures Trim(s) == s
  {
  }

  lemma TemplateIsStripped(prefix: string, mark: string, suffix: string)
    requires ValidFragment(prefix) && ValidFragment(suffix) && mark in {PLACEHOLDER, DOTTED_PLACEHOLDER}
    ensures Trim(prefix + mark + suffix) == prefix + mark + suffix
  {
    hide ValidFragment;
    FragmentIsPlain(prefix);
    FragmentIsPlain(suffix);
    var value := prefix + mark + suffix;
    assert value[0] == (if prefix == "" then '{' else prefix[0]);
    assert value[|value| - 1] == (if suffix == "" then '}' else suffix[|suffix| - 1]);
    StripPlain(value);
  }

  /** Either spelling of the placeholder between two valid fragments gives those fragments. */
  lemma TemplatesParse(prefix: string, suffix: string, dotted: bool)
    requires ValidFragment(prefix) && ValidFragment(suffix)
    ensures ParseDomainTemplate(prefix + (if dotted then DOTTED_PLACEHOLDER else PLACEHOLDER) + suffix)
            == Some(DomainMatcher(prefix, suffix))
  {
    hide ValidFragment, ReplaceAll, Count, IndexOf, Trim;
    FragmentIsPlain(prefix);
    FragmentIsPlain(suffix);
    TemplateIsStripped(prefix, if dotted then DOTTED_PLACEHOLDER else PLACEHOLDER, suffix);
    ReplacedTemplate(prefix, suffix, dotted);
    OnePlaceholder(prefix, suffix);
    var template := prefix + PLACEHOLDER + suffix;
    assert template[..|prefix|] == prefix && template[|prefix| + |PLACEHOLDER|..] == suffix;
  }

  /** And only such texts parse. */
  lemma ParsedTemplatesHaveOnePlaceholder(value: string)
    requires ParseDomainTemplate(value).Some?
    ensures var m := ParseDomainTemplate(value).value;
            && ReplaceAll(Trim(value), DOTTED_PLACEHOLDER, PLACEHOLDER) == m.prefix + PLACEHOLDER + m.suffix
            && ValidFragment(m.prefix) && ValidFragment(m.suffix)
  {
    hide ReplaceAll, Count, ValidFragment, Trim;
    var template := ReplaceAll(Trim(value), DOTTED_PLACEHOLDER, PLACEHOLDER);
    var i := IndexOf(template, PLACEHOLDER);
    assert template == template[..i] + template[i..i + |PLACEHOLDER|] + template[i + |PLACEHOLDER|..];
  }

  // ---------------------------------------------------------------- principals

  predicate MemberName(s: string)
    decreases |s|
  {
    var i := IndexOf(s, ".");
    i >= 0 && ServiceName(s[..i]) && (ServiceName(s[i + 1..]) || MemberName(s[i + 1..]))
  }

  predicate ValidTargetRole(role: string) {
    DottedName(Trim(role)) && !HasSuffix(role, EXCHANGER_SUFFIX)
  }

  lemma {:induction false} TrimLeftIsASuffix(s: string)
    ensures HasSuffix(s, TrimLeftBy(s, IsBlank))
  {
    if s != "" && IsBlank(s[0]) {
      TrimLeftIsASuffix(s[1..]);
      var t := TrimLeftBy(s[1..], IsBlank);
      assert s[|s| - |t|..] == s[1..][|s[1..]| - |t|..];
    }
  }

  lemma SuffixOfSuffix(s: string, t: string, u: string)
    requires HasSuffix(s, t) && HasSuffix(t, u)
    ensures HasSuffix(s, u)
  {
    assert s[|s| - |u|..] == t[|t| - |u|..];
  }

  lemma EndsAlike(s: string, suffix: string)
    requires HasSuffix(s, suffix) && suffix != ""
    ensures s[|s| - 1] == suffix[|suffix| - 1]
  {
    assert s[|s| - |suffix|..][|suffix| - 1] == s[|s| - 1];
  }

  /**
   The suffix is looked for before trimming: a role whose trimmed name is an exchanger role is
   accepted as a target exactly when it ends in a blank.
  */
  lemma ExchangerRolePassesIff(role: string)
    requires DottedName(Trim(role)) && HasSuffix(Trim(role), EXCHANGER_SUFFIX)
    ensures role != "" && (ValidTargetRole(role) <==> IsBlank(role[|role| - 1]))
  {
    var left := TrimLeftBy(role, IsBlank);
    TrimLeftIsASuffix(role);
    assert left[|left| - 1] == role[|role| - 1];
    if IsBlank(role[|role| - 1]) {
      assert EXCHANGER_SUFFIX[|EXCHANGER_SUFFIX| - 1] == 's';
      if HasSuffix(role, EXCHANGER_SUFFIX) {
        EndsAlike(role, EXCHANGER_SUFFIX);
      }
    } else {
      assert Trim(role) == left;
      SuffixOfSuffix(role, left, EXCHANGER_SUFFIX);
    }
  }

  /** The shortest such role: one letter, the suffix and a blank. */
  lemma SpacedExchangerRolePasses()
    ensures ValidTargetRole("a-jag-exchangers ") && HasSuffix(Trim("a-jag-exchangers "), EXCHANGER_SUFFIX)
  {
    var name := "a-jag-exchangers";
    var role := name + " ";
    assert role == "a-jag-exchangers ";
    assert role[..|role| - 1] == name;
    assert TrimRightBy(name, IsBlank) == name;
    assert name[|name| - |EXCHANGER_SUFFIX|..] == EXCHANGER_SUFFIX;
    ExchangerRolePassesIff(role);
  }

  predicate WildcardMatches(memberName: string, principal: string) {
    memberName == "*" || (HasSuffix(memberName, "*") && TrimSuffix(memberName, "*") <= principal)
  }

  /** A wildcard member is a literal prefix followed by one star. */
  lemma WildcardIsAPrefix(memberName: string, principal: string)
    ensures WildcardMatches(memberName, principal) <==> exists n :: 0 <= n <= |principal| && memberName == principal[..n] + "*"
  {
    if WildcardMatches(memberName, principal) {
      var literal := memberName[..|memberName| - 1];
      assert memberName == literal + "*";
      assert literal == principal[..|literal|];
    }
    if n :| 0 <= n <= |principal| && memberName == principal[..n] + "*" {
      assert memberName[|memberName| - 1..] == "*";
      assert memberName[..|memberName| - 1] == principal[..n];
    }
  }
}
