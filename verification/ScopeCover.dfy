/**
 The gateway's comparison of requested with granted scopes: a greedy matching under an
 equivalence that is not transitive, because `role` matches both `a:role.role` and `b:role.role`.
*/
module ScopeCover {
  import opened Results
  import Texts

  const MARKER := ":role."

  /** The index of the first occurrence of `sub`, or -1. */
  function IndexOf(s: string, sub: string): (i: int)
    requires sub != []
    ensures -1 <= i <= |s| - |sub| || i == -1
    ensures i >= 0 ==> s[i..i + |sub|] == sub
  {
    if |s| < |sub| then -1
    else if sub <= s then 0
    else
      var rest := IndexOf(s[1..], sub);
      assert rest >= 0 ==> s[1..][rest..rest + |sub|] == s[rest + 1..rest + 1 + |sub|];
      if rest < 0 then -1 else rest + 1
  }

  /** No occurrence is missed, and none stands before the one that is found. */
  lemma {:induction false} IndexOfIsFirst(s: string, sub: string, j: int)
    requires sub != [] && Texts.StandsAt(s, sub, j)
    ensures 0 <= IndexOf(s, sub) <= j
  {
    if !(sub <= s) {
      assert j > 0 by {
        assert s[0..|sub|] == s[..|sub|];
      }
      assert s[1..][j - 1..j - 1 + |sub|] == s[j..j + |sub|];
      IndexOfIsFirst(s[1..], sub, j - 1);
    }
  }

  function RoleName(scope: string): Option<string> {
    var index := IndexOf(scope, MARKER);
    if index >= 0 then Some(scope[index + |MARKER|..]) else None
  }

  predicate Equivalent(left: string, right: string) {
    left == right || RoleName(left) == Some(right) || RoleName(right) == Some(left)
  }

  function FindIndex(available: seq<string>, scope: string): (i: int)
    ensures i == -1 || 0 <= i < |available|
    ensures i >= 0 ==> Equivalent(available[i], scope) && forall j :: 0 <= j < i ==> !Equivalent(available[j], scope)
    ensures i < 0 ==> forall j :: 0 <= j < |available| ==> !Equivalent(available[j], scope)
  {
    if available == [] then -1
    else if Equivalent(available[0], scope) then 0
    else
      var rest := FindIndex(available[1..], scope);
      if rest < 0 then -1 else rest + 1
  }

  function Without<T>(s: seq<T>, i: nat): seq<T>
    requires i < |s|
  {
    s[..i] + s[i + 1..]
  }

  /** Each requested scope in turn takes the first granted one left that is equivalent to it. */
  function Cover(granted: seq<string>, requested: seq<string>): bool
    decreases |requested|
  {
    if requested == [] then true
    else
      var i := FindIndex(granted, requested[0]);
      i >= 0 && Cover(Without(granted, i), requested[1..])
  }

  method ScopesCover(granted: seq<string>, requested: seq<string>) returns (r: bool)
    ensures r == Cover(granted, requested)
  {
    var available := granted;
    for i := 0 to |requested|
      invariant Cover(granted, requested) == Cover(available, requested[i..])
    {
      var match_ := FindIndex(available, requested[i]);
      assert requested[i..][0] == requested[i] && requested[i..][1..] == requested[i + 1..];
      if match_ < 0 {
        return false;
      }
      available := Without(available, match_);
    }
    return true;
  }

  predicate ExactlyMatch(left: seq<string>, right: seq<string>) {
    |left| == |right| && Cover(left, right)
  }

  // ---------------------------------------------------------------- soundness

  /** `f` gives every requested scope its own equivalent granted one. */
  predicate Assigns(f: seq<nat>, granted: seq<string>, requested: seq<string>) {
    Fits(f, granted, requested) && Injective(f)
  }

  predicate Fits(f: seq<nat>, granted: seq<string>, requested: seq<string>) {
    && |f| == |requested|
    && forall i :: 0 <= i < |f| ==> f[i] < |granted| && Equivalent(granted[f[i]], requested[i])
  }

  predicate Injective(f: seq<nat>) {
    forall i, j :: 0 <= i < j < |f| ==> f[i] != f[j]
  }

  predicate Onto(f: seq<nat>, n: nat) {
    forall k: nat :: k < n ==> k in f
  }

  function Shift(f: seq<nat>, at: nat): seq<nat> {
    seq(|f|, i requires 0 <= i < |f| => if f[i] < at then f[i] else f[i] + 1)
  }

  lemma PrependFits(at: nat, rest: seq<nat>, granted: seq<string>, requested: seq<string>)
    requires requested != [] && at < |granted| && Equivalent(granted[at], requested[0])
    requires Fits(rest, Without(granted, at), requested[1..])
    ensures Fits([at] + Shift(rest, at), granted, requested)
  {
    hide Equivalent;
    var f := [at] + Shift(rest, at);
    forall i | 0 <= i < |f|
      ensures f[i] < |granted| && Equivalent(granted[f[i]], requested[i])
    {
      if i > 0 {
        assert Equivalent(Without(granted, at)[rest[i - 1]], requested[1..][i - 1]);
        assert Without(granted, at)[rest[i - 1]] == granted[f[i]];
      }
    }
  }

  lemma PrependInjective(at: nat, rest: seq<nat>)
    requires Injective(rest)
    ensures Injective([at] + Shift(rest, at))
  {
    var f := [at] + Shift(rest, at);
    forall i, j | 0 <= i < j < |f|
      ensures f[i] != f[j]
    {
      if i > 0 {
        assert rest[i - 1] != rest[j - 1];
      }
    }
  }

  lemma PrependOnto(at: nat, rest: seq<nat>, n: nat)
    requires at < n && Onto(rest, n - 1)
    ensures Onto([at] + Shift(rest, at), n)
  {
    var f := [at] + Shift(rest, at);
    forall k: nat | k < n
      ensures k in f
    {
      if k != at {
        var k' := if k < at then k else k - 1;
        assert k' in rest;
        var i :| 0 <= i < |rest| && rest[i] == k';
        assert f[i + 1] == k;
      } else {
        assert f[0] == k;
      }
    }
  }

  /** A covering match is an injective assignment, and an exact match a bijection. */
  lemma {:induction false} CoverAssigns(granted: seq<string>, requested: seq<string>) returns (f: seq<nat>)
    requires Cover(granted, requested)
    ensures Assigns(f, granted, requested)
    ensures |granted| == |requested| ==> Onto(f, |granted|)
    decreases |requested|
  {
    hide Equivalent;
    if requested == [] {
      f := [];
    } else {
      var at := FindIndex(granted, requested[0]);
      var rest := CoverAssigns(Without(granted, at), requested[1..]);
      f := [at] + Shift(rest, at);
      PrependFits(at, rest, granted, requested);
      PrependInjective(at, rest);
      if |granted| == |requested| {
        PrependOnto(at, rest, |granted|);
      }
    }
  }

  // ---------------------------------------------------------------- completeness

  function MapKeys(key: string -> string, s: seq<string>): (r: seq<string>)
    ensures |r| == |s| && forall i :: 0 <= i < |s| ==> r[i] == key(s[i])
  {
    seq(|s|, i requires 0 <= i < |s| => key(s[i]))
  }

  /** Equivalence between the two lists amounts to equality of keys. */
  predicate Keyed(granted: seq<string>, requested: seq<string>, kg: string -> string, kr: string -> string) {
    forall g, r :: g in granted && r in requested ==> (Equivalent(g, r) <==> kg(g) == kr(r))
  }

  lemma WithoutMultiset<T>(s: seq<T>, i: nat)
    requires i < |s|
    ensures multiset(Without(s, i)) == multiset(s) - multiset{s[i]}
  {
    assert s == s[..i] + [s[i]] + s[i + 1..];
  }

  lemma MapWithout(key: string -> string, s: seq<string>, i: nat)
    requires i < |s|
    ensures MapKeys(key, Without(s, i)) == Without(MapKeys(key, s), i)
  {
  }

  /** Greedy matching by keys succeeds exactly when enough scopes of each key are granted. */
  lemma {:induction false} CoverIffKeysContained(
      granted: seq<string>, requested: seq<string>, kg: string -> string, kr: string -> string)
    requires Keyed(granted, requested, kg, kr)
    ensures Cover(granted, requested) <==> multiset(MapKeys(kr, requested)) <= multiset(MapKeys(kg, granted))
    decreases |requested|
  {
    if requested == [] {
      assert MapKeys(kr, requested) == [];
    } else {
      var r, rest := requested[0], requested[1..];
      var need, have := MapKeys(kr, requested), MapKeys(kg, granted);
      assert need == [kr(r)] + MapKeys(kr, rest);
      var i := FindIndex(granted, r);
      if i < 0 {
        forall j | 0 <= j < |have|
          ensures have[j] != kr(r)
        {
          assert granted[j] in granted && r in requested;
        }
        assert kr(r) !in have;
        assert multiset(need)[kr(r)] > 0;
      } else {
        assert granted[i] in granted && r in requested;
        assert have[i] == kr(r);
        WithoutMultiset(have, i);
        MapWithout(kg, granted, i);
        KeyedRest(granted, i, requested, kg, kr);
        CoverIffKeysContained(Without(granted, i), rest, kg, kr);
        assert multiset(need) == multiset{kr(r)} + multiset(MapKeys(kr, rest));
      }
    }
  }

  function Unshift(f: seq<nat>, at: nat): seq<nat> {
    seq(|f|, i requires 0 <= i < |f| => if f[i] <= at then f[i] else f[i] - 1)
  }

  lemma DropFirstAssigns(f: seq<nat>, granted: seq<string>, requested: seq<string>)
    requires requested != [] && Assigns(f, granted, requested)
    ensures Assigns(Unshift(f[1..], f[0]), Without(granted, f[0]), requested[1..])
  {
    hide Equivalent;
    var at, g := f[0], Unshift(f[1..], f[0]);
    forall i | 0 <= i < |g|
      ensures g[i] < |Without(granted, at)| && Equivalent(Without(granted, at)[g[i]], requested[1..][i])
    {
      assert f[0] != f[i + 1];
      assert Equivalent(granted[f[i + 1]], requested[i + 1]);
      assert Without(granted, at)[g[i]] == granted[f[i + 1]];
    }
    forall i, j | 0 <= i < j < |g|
      ensures g[i] != g[j]
    {
      assert f[i + 1] != f[j + 1] && f[0] != f[i + 1] && f[0] != f[j + 1];
    }
  }

  lemma KeyedRest(granted: seq<string>, at: nat, requested: seq<string>, kg: string -> string, kr: string -> string)
    requires Keyed(granted, requested, kg, kr) && at < |granted| && requested != []
    ensures Keyed(Without(granted, at), requested[1..], kg, kr)
  {
    hide Equivalent;
    assert forall x :: x in Without(granted, at) ==> x in granted;
    assert forall x :: x in requested[1..] ==> x in requested;
  }

  lemma {:induction false} AssignmentContained(
      f: seq<nat>, granted: seq<string>, requested: seq<string>, kg: string -> string, kr: string -> string)
    requires Keyed(granted, requested, kg, kr) && Assigns(f, granted, requested)
    ensures multiset(MapKeys(kr, requested)) <= multiset(MapKeys(kg, granted))
    decreases |requested|
  {
    hide Equivalent;
    var need, have := MapKeys(kr, requested), MapKeys(kg, granted);
    if requested == [] {
      assert need == [];
    } else {
      var at := f[0];
      DropFirstAssigns(f, granted, requested);
      KeyedRest(granted, at, requested, kg, kr);
      AssignmentContained(Unshift(f[1..], at), Without(granted, at), requested[1..], kg, kr);
      assert granted[at] in granted && requested[0] in requested && Equivalent(granted[at], requested[0]);
      MapWithout(kg, granted, at);
      assert need == [kr(requested[0])] + MapKeys(kr, requested[1..]);
      ContainedWithFirst(kr(requested[0]), MapKeys(kr, requested[1..]), have, at);
    }
  }

  lemma ContainedWithFirst(x: string, need: seq<string>, have: seq<string>, at: nat)
    requires at < |have| && have[at] == x && multiset(need) <= multiset(Without(have, at))
    ensures multiset([x] + need) <= multiset(have)
  {
    WithoutMultiset(have, at);
    assert have[at] in multiset(have);
  }

  /** With keys, the greedy answer is the right one: yes exactly when some assignment exists. */
  lemma GreedyCompleteByKeys(granted: seq<string>, requested: seq<string>, kg: string -> string, kr: string -> string)
    requires Keyed(granted, requested, kg, kr)
    ensures Cover(granted, requested) <==> exists f :: Assigns(f, granted, requested)
  {
    CoverIffKeysContained(granted, requested, kg, kr);
    if Cover(granted, requested) {
      var f := CoverAssigns(granted, requested);
    }
    forall f | Assigns(f, granted, requested)
      ensures Cover(granted, requested)
    {
      AssignmentContained(f, granted, requested, kg, kr);
    }
  }

  // ---------------------------------------------------------------- which scopes have keys

  /** `domain:role.name` with the marker exactly once. */
  predicate Qualified(scope: string) {
    RoleName(scope).Some? && RoleName(RoleName(scope).value).None?
  }

  predicate AllQualified(s: seq<string>) { forall x :: x in s ==> Qualified(x) }

  predicate AllRoleOnly(s: seq<string>) { forall x :: x in s ==> RoleName(x).None? }

  function Itself(scope: string): string { scope }

  function Simple(scope: string): string {
    if RoleName(scope).Some? then RoleName(scope).value else scope
  }

  lemma QualifiedIsKeyed(granted: seq<string>, requested: seq<string>)
    requires AllQualified(granted) && AllQualified(requested)
    ensures Keyed(granted, requested, Itself, Itself)
  {}

  lemma SameSizeContained<T>(a: seq<T>, b: seq<T>)
    requires |a| == |b| && multiset(a) <= multiset(b)
    ensures multiset(a) == multiset(b)
  {
    assert |multiset(b) - multiset(a)| == 0;
  }

  lemma SameMultisetSameSize<T>(a: seq<T>, b: seq<T>)
    requires multiset(a) == multiset(b)
    ensures |a| == |b|
  {
    assert |multiset(a)| == |a| && |multiset(b)| == |b|;
  }

  /** For fully qualified names, covering is containment of multisets. */
  lemma QualifiedCoverIsContainment(granted: seq<string>, requested: seq<string>)
    requires AllQualified(granted) && AllQualified(requested)
    ensures Cover(granted, requested) <==> multiset(requested) <= multiset(granted)
    ensures ExactlyMatch(granted, requested) <==> multiset(requested) == multiset(granted)
  {
    hide Cover, Keyed, AllQualified;
    QualifiedIsKeyed(granted, requested);
    CoverIffKeysContained(granted, requested, Itself, Itself);
    assert MapKeys(Itself, granted) == granted && MapKeys(Itself, requested) == requested;
    if multiset(requested) == multiset(granted) {
      SameMultisetSameSize(requested, granted);
    } else if multiset(requested) <= multiset(granted) && |granted| == |requested| {
      SameSizeContained(requested, granted);
    }
  }

  /**
   The greedy answer is right whenever the two lists do not mix both kinds of names: all
   qualified, or everything granted without a domain, or everything requested without one.
  */
  lemma UnmixedGreedyIsComplete(granted: seq<string>, requested: seq<string>)
    requires (AllQualified(granted) && AllQualified(requested)) || AllRoleOnly(granted) || AllRoleOnly(requested)
    ensures Cover(granted, requested) <==> exists f :: Assigns(f, granted, requested)
  {
    if AllRoleOnly(requested) {
      GreedyCompleteByKeys(granted, requested, Simple, Itself);
    } else if AllRoleOnly(granted) {
      GreedyCompleteByKeys(granted, requested, Itself, Simple);
    } else {
      GreedyCompleteByKeys(granted, requested, Itself, Itself);
    }
  }
}
