/**
 Exactly when the greedy matching of scopes is right for lists of distinct names, in any order, if
 what is requested names a domain; granted names may be qualified or role-only.
*/
module ScopeGreedy {
  import opened Results
  import opened SortedStrings
  import opened ScopeCover

  /** Every requested name has a role, and none is itself the role of another name in play. */
  predicate Apart(granted: seq<string>, requested: seq<string>) {
    && (forall y :: y in requested ==> RoleName(y).Some?)
    && (forall g, y :: g in granted && y in requested ==> RoleName(g) != Some(y))
    && (forall x, y :: x in requested && y in requested ==> RoleName(x) != Some(y))
  }

  /** The role of a requested name. */
  function Role(y: string): string { if RoleName(y).Some? then RoleName(y).value else y }

  predicate Precedes(s: seq<string>, a: string, b: string) {
    exists i, j :: 0 <= i < j < |s| && s[i] == a && s[j] == b
  }

  /** A requested name that is not granted in full needs its role, and no two need the same one. */
  predicate Enough(granted: seq<string>, requested: seq<string>) {
    && (forall y :: y in requested && y !in granted ==> Role(y) in granted)
    && (forall i, j :: 0 <= i < j < |requested| && requested[i] !in granted && requested[j] !in granted ==>
          Role(requested[i]) != Role(requested[j]))
  }

  /** A name granted in full spends the role, which stands before it, that a later name needs. */
  predicate Wasted(granted: seq<string>, requested: seq<string>, i: int, j: int) {
    && 0 <= i < j < |requested|
    && Role(requested[i]) == Role(requested[j])
    && requested[j] !in granted
    && Precedes(granted, Role(requested[i]), requested[i])
  }

  predicate Shadowed(granted: seq<string>, requested: seq<string>) {
    exists i, j :: 0 <= i < j < |requested| && Wasted(granted, requested, i, j)
  }

  // ---------------------------------------------------------------- taking one name

  lemma WithoutMembers(s: seq<string>, i: nat, x: string)
    requires Distinct(s) && i < |s|
    ensures x in Without(s, i) <==> x in s && x != s[i]
    ensures Distinct(Without(s, i))
  {
    var rest := Without(s, i);
    forall k | 0 <= k < |rest| ensures rest[k] == s[if k < i then k else k + 1] {
    }
    if x in s && x != s[i] {
      var k :| 0 <= k < |s| && s[k] == x;
      assert rest[if k < i then k else k - 1] == x;
    }
  }

  lemma PrecedesWithout(s: seq<string>, i: nat, a: string, b: string)
    requires Distinct(s) && i < |s| && Precedes(Without(s, i), a, b)
    ensures Precedes(s, a, b) && a != s[i] && b != s[i]
  {
    var rest := Without(s, i);
    var k, l :| 0 <= k < l < |rest| && rest[k] == a && rest[l] == b;
    var k', l' := if k < i then k else k + 1, if l < i then l else l + 1;
    assert s[k'] == a && s[l'] == b;
  }

  lemma WithoutPrecedes(s: seq<string>, i: nat, a: string, b: string)
    requires Distinct(s) && i < |s|
    ensures Precedes(Without(s, i), a, b) <==> Precedes(s, a, b) && a != s[i] && b != s[i]
  {
    if Precedes(Without(s, i), a, b) {
      PrecedesWithout(s, i, a, b);
    } else if Precedes(s, a, b) && a != s[i] && b != s[i] {
      var k, l :| 0 <= k < l < |s| && s[k] == a && s[l] == b;
      StillPrecedes(s, i, k, l);
    }
  }

  lemma StillPrecedes(s: seq<string>, i: nat, k: nat, l: nat)
    requires i < |s| && k < l < |s| && k != i && l != i
    ensures Precedes(Without(s, i), s[k], s[l])
  {
    var rest := Without(s, i);
    var k', l' := if k < i then k else k - 1, if l < i then l else l - 1;
    assert rest[k'] == s[k] && rest[l'] == s[l];
  }

  /** What is found first for a name: the name itself or its role, whichever stands first. */
  lemma FoundFirst(granted: seq<string>, requested: seq<string>)
    requires requested != [] && Apart(granted, requested)
    ensures var r, i := requested[0], FindIndex(granted, requested[0]);
            && (i < 0 ==> r !in granted && Role(r) !in granted)
            && (i >= 0 && granted[i] == r ==> forall k :: 0 <= k < i ==> granted[k] != Role(r))
            && (i >= 0 && granted[i] != r ==>
                  granted[i] == Role(r) && forall k :: 0 <= k < i ==> granted[k] != r)
  {
    var r := requested[0];
    assert r in requested;
    forall g | g in granted ensures Equivalent(g, r) <==> g == r || g == Role(r) {
    }
  }

  lemma RestApart(granted: seq<string>, requested: seq<string>, i: nat)
    requires requested != [] && i < |granted| && Apart(granted, requested) && Distinct(granted) && Distinct(requested)
    ensures Apart(Without(granted, i), requested[1..])
    ensures Distinct(Without(granted, i)) && Distinct(requested[1..]) && requested[0] !in requested[1..]
  {
    hide RoleName;
    forall g | g in Without(granted, i) ensures g in granted {
      WithoutMembers(granted, i, g);
    }
    WithoutMembers(granted, i, "");
  }

  /** A name that takes its own grant leaves the others exactly what they had. */
  lemma TakesItself(granted: seq<string>, requested: seq<string>, i: nat)
    requires requested != [] && i < |granted| && Apart(granted, requested) && Distinct(granted) && Distinct(requested)
    requires granted[i] == requested[0] && forall k :: 0 <= k < i ==> granted[k] != Role(requested[0])
    ensures Enough(granted, requested) <==> Enough(Without(granted, i), requested[1..])
  {
    hide RoleName;
    var r, rest := requested[0], requested[1..];
    RestApart(granted, requested, i);
    forall y | y in rest
      ensures y in Without(granted, i) <==> y in granted
      ensures Role(y) in Without(granted, i) <==> Role(y) in granted
    {
      RolesAreApart(granted, requested, y, r);
      WithoutMembers(granted, i, y);
      WithoutMembers(granted, i, Role(y));
    }
    EnoughOfRest(granted, requested, Without(granted, i));
  }

  lemma RolesAreApart(granted: seq<string>, requested: seq<string>, x: string, y: string)
    requires Apart(granted, requested) && x in requested && y in requested
    ensures Role(x) != y
  {
  }

  /** When the first name is granted, only the others need anything. */
  lemma EnoughOfRest(granted: seq<string>, requested: seq<string>, left: seq<string>)
    requires requested != [] && requested[0] in granted
    requires forall y :: y in requested[1..] ==> (y in left <==> y in granted) && (Role(y) in left <==> Role(y) in granted)
    ensures Enough(granted, requested) <==> Enough(left, requested[1..])
  {
    hide Role;
    var rest := requested[1..];
    assert forall k :: 0 < k < |requested| ==> requested[k] == rest[k - 1] && requested[k] in rest;
    assert forall k :: 0 <= k < |rest| ==> rest[k] == requested[k + 1];
    if Enough(left, rest) {
      forall y | y in requested && y !in granted ensures Role(y) in granted {
        var k :| 0 <= k < |requested| && requested[k] == y;
        assert rest[k - 1] == y;
      }
      forall k, l | 0 <= k < l < |requested| && requested[k] !in granted && requested[l] !in granted
        ensures Role(requested[k]) != Role(requested[l])
      {
        assert rest[k - 1] !in left && rest[l - 1] !in left;
      }
    }
    if Enough(granted, requested) {
      forall k, l | 0 <= k < l < |rest| && rest[k] !in left && rest[l] !in left
        ensures Role(rest[k]) != Role(rest[l])
      {
        assert requested[k + 1] !in granted && requested[l + 1] !in granted;
      }
    }
  }

  lemma TakesItselfUnshadowed(granted: seq<string>, requested: seq<string>, i: nat)
    requires requested != [] && i < |granted| && Apart(granted, requested) && Distinct(granted) && Distinct(requested)
    requires granted[i] == requested[0] && forall k :: 0 <= k < i ==> granted[k] != Role(requested[0])
    ensures Shadowed(granted, requested) <==> Shadowed(Without(granted, i), requested[1..])
  {
    hide RoleName;
    var rest, left := requested[1..], Without(granted, i);
    RestApart(granted, requested, i);
    if Shadowed(granted, requested) {
      var k, l :| 0 <= k < l < |requested| && Wasted(granted, requested, k, l);
      NotBefore(granted, i, Role(requested[0]));
      RolesAreApart(granted, requested, requested[k], requested[0]);
      WithoutPrecedes(granted, i, Role(requested[k]), requested[k]);
      WithoutMembers(granted, i, requested[l]);
      assert k > 0;
      assert Wasted(left, rest, k - 1, l - 1);
    }
    if Shadowed(left, rest) {
      var k, l :| 0 <= k < l < |rest| && Wasted(left, rest, k, l);
      WithoutPrecedes(granted, i, Role(rest[k]), rest[k]);
      WithoutMembers(granted, i, rest[l]);
      assert Wasted(granted, requested, k + 1, l + 1);
    }
  }

  lemma NotBefore(s: seq<string>, i: nat, a: string)
    requires Distinct(s) && i < |s| && forall k :: 0 <= k < i ==> s[k] != a
    ensures !Precedes(s, a, s[i])
  {
  }

  /** A name that takes its role: what is left suffices exactly when nobody else needed it. */
  lemma TakesRole(granted: seq<string>, requested: seq<string>, i: nat)
    requires requested != [] && i < |granted| && Apart(granted, requested) && Distinct(granted) && Distinct(requested)
    requires granted[i] == Role(requested[0]) && forall k :: 0 <= k < i ==> granted[k] != requested[0]
    ensures Enough(granted, requested) && !Shadowed(granted, requested) ==>
              Enough(Without(granted, i), requested[1..]) && !Shadowed(Without(granted, i), requested[1..])
  {
    hide RoleName;
    var r, rest, left := requested[0], requested[1..], Without(granted, i);
    RestApart(granted, requested, i);
    if Enough(granted, requested) && !Shadowed(granted, requested) {
      forall y | y in rest && y !in left ensures Role(y) in left {
        var k :| 0 <= k < |rest| && rest[k] == y;
        RolesAreApart(granted, requested, r, y);
        WithoutMembers(granted, i, y);
        if Role(y) == Role(r) {
          FirstWouldWaste(granted, requested, i, k + 1);
        }
        WithoutMembers(granted, i, Role(y));
      }
      forall k, l | 0 <= k < l < |rest| && rest[k] !in left && rest[l] !in left
        ensures Role(rest[k]) != Role(rest[l])
      {
        RolesAreApart(granted, requested, r, rest[k]);
        RolesAreApart(granted, requested, r, rest[l]);
        WithoutMembers(granted, i, rest[k]);
        WithoutMembers(granted, i, rest[l]);
        assert requested[k + 1] == rest[k] && requested[l + 1] == rest[l];
      }
      if Shadowed(left, rest) {
        ShadowStays(granted, requested, i);
      }
    }
  }

  /** If the first name took the role that the name at `l` needs, it was wasted, or missing from the start. */
  lemma FirstWouldWaste(granted: seq<string>, requested: seq<string>, i: nat, l: nat)
    requires 0 < l < |requested| && i < |granted| && Distinct(granted)
    requires granted[i] == Role(requested[0]) && forall k :: 0 <= k < i ==> granted[k] != requested[0]
    requires requested[0] != Role(requested[0])
    requires Role(requested[l]) == Role(requested[0]) && requested[l] !in granted
    ensures !Enough(granted, requested) || Shadowed(granted, requested)
  {
    hide Role;
    if requested[0] in granted {
      var k :| 0 <= k < |granted| && granted[k] == requested[0];
      assert Precedes(granted, Role(requested[0]), requested[0]);
      assert Wasted(granted, requested, 0, l);
    }
  }

  lemma ShadowStays(granted: seq<string>, requested: seq<string>, i: nat)
    requires requested != [] && i < |granted| && Apart(granted, requested) && Distinct(granted)
    requires granted[i] == Role(requested[0]) && Shadowed(Without(granted, i), requested[1..])
    ensures Shadowed(granted, requested)
  {
    hide RoleName;
    var rest, left := requested[1..], Without(granted, i);
    var k, l :| 0 <= k < l < |rest| && Wasted(left, rest, k, l);
    WithoutPrecedes(granted, i, Role(rest[k]), rest[k]);
    RolesAreApart(granted, requested, requested[0], rest[l]);
    WithoutMembers(granted, i, rest[l]);
    assert Wasted(granted, requested, k + 1, l + 1);
  }

  /** And the other way round: enough is left only if enough was there, and nothing was wasted. */
  lemma TookRole(granted: seq<string>, requested: seq<string>, i: nat)
    requires requested != [] && i < |granted| && Apart(granted, requested) && Distinct(granted) && Distinct(requested)
    requires granted[i] == Role(requested[0])
    requires Enough(Without(granted, i), requested[1..]) && !Shadowed(Without(granted, i), requested[1..])
    ensures Enough(granted, requested) && !Shadowed(granted, requested)
  {
    hide RoleName;
    var r, rest, left := requested[0], requested[1..], Without(granted, i);
    RestApart(granted, requested, i);
    forall k | 0 < k < |requested| && requested[k] !in granted
      ensures Role(requested[k]) in granted && Role(requested[k]) != Role(r)
      ensures rest[k - 1] !in left
    {
      assert rest[k - 1] == requested[k];
      WithoutMembers(granted, i, requested[k]);
      WithoutMembers(granted, i, Role(requested[k]));
    }
    forall k, l | 0 <= k < l < |requested| && requested[k] !in granted && requested[l] !in granted
      ensures Role(requested[k]) != Role(requested[l])
    {
      if k > 0 {
        assert rest[k - 1] == requested[k] && rest[l - 1] == requested[l];
      }
    }
    if Shadowed(granted, requested) {
      var k, l :| 0 <= k < l < |requested| && Wasted(granted, requested, k, l);
      WasteRemains(granted, requested, i, k, l);
    }
  }

  lemma WasteRemains(granted: seq<string>, requested: seq<string>, i: nat, k: nat, l: nat)
    requires requested != [] && i < |granted| && Apart(granted, requested) && Distinct(granted) && Distinct(requested)
    requires granted[i] == Role(requested[0]) && Enough(Without(granted, i), requested[1..])
    requires k < l < |requested| && Wasted(granted, requested, k, l)
    ensures Shadowed(Without(granted, i), requested[1..])
  {
    hide RoleName;
    var rest, left := requested[1..], Without(granted, i);
    assert rest[l - 1] == requested[l];
    WithoutMembers(granted, i, requested[l]);
    WithoutMembers(granted, i, Role(requested[l]));
    assert k != 0;
    RolesAreApart(granted, requested, requested[0], requested[k]);
    WithoutPrecedes(granted, i, Role(requested[k]), requested[k]);
    assert Wasted(left, rest, k - 1, l - 1);
  }

  // ---------------------------------------------------------------- the exact condition

  /** The greedy answer is yes exactly when enough is granted and no role is wasted. */
  lemma {:induction false} CoverIffEnoughUnshadowed(granted: seq<string>, requested: seq<string>)
    requires Apart(granted, requested) && Distinct(granted) && Distinct(requested)
    ensures Cover(granted, requested) <==> Enough(granted, requested) && !Shadowed(granted, requested)
    decreases |requested|
  {
    hide RoleName, Enough, Shadowed;
    if requested == [] {
      NothingRequested(granted);
    } else {
      var i := FindIndex(granted, requested[0]);
      FoundFirst(granted, requested);
      if i < 0 {
        NotEnough(granted, requested);
      } else {
        RestApart(granted, requested, i);
        CoverIffEnoughUnshadowed(Without(granted, i), requested[1..]);
        if granted[i] == requested[0] {
          TakesItself(granted, requested, i);
          TakesItselfUnshadowed(granted, requested, i);
        } else {
          TakesRole(granted, requested, i);
          if Cover(granted, requested) {
            TookRole(granted, requested, i);
          }
        }
      }
    }
  }

  lemma NothingRequested(granted: seq<string>)
    ensures Enough(granted, []) && !Shadowed(granted, [])
  {
  }

  lemma NotEnough(granted: seq<string>, requested: seq<string>)
    requires requested != [] && requested[0] !in granted && Role(requested[0]) !in granted
    ensures !Enough(granted, requested)
  {
    assert requested[0] in requested;
  }

  function Position(s: seq<string>, x: string): (i: nat)
    requires x in s
    ensures i < |s| && s[i] == x
  {
    if s[0] == x then 0 else Position(s[1..], x) + 1
  }

  /** Some assignment exists exactly when enough is granted. */
  lemma AssignableIffEnough(granted: seq<string>, requested: seq<string>)
    requires Apart(granted, requested) && Distinct(granted) && Distinct(requested)
    ensures (exists f :: Assigns(f, granted, requested)) <==> Enough(granted, requested)
  {
    if f :| Assigns(f, granted, requested) {
      AssignedIsEnough(f, granted, requested);
    }
    if Enough(granted, requested) {
      var f := Assignment(granted, requested);
      AssignmentFits(granted, requested);
      forall i, j | 0 <= i < j < |f| ensures f[i] != f[j] {
        assert requested[i] in requested && requested[j] in requested;
        RolesAreApart(granted, requested, requested[i], requested[j]);
        RolesAreApart(granted, requested, requested[j], requested[i]);
        assert granted[f[i]] == Wanted(granted, requested[i]) && granted[f[j]] == Wanted(granted, requested[j]);
      }
      assert Assigns(f, granted, requested);
    }
  }

  /** What a name is given when enough is granted: itself, or else its role. */
  function Wanted(granted: seq<string>, y: string): string { if y in granted then y else Role(y) }

  function Assignment(granted: seq<string>, requested: seq<string>): (f: seq<nat>)
    requires Enough(granted, requested)
    ensures |f| == |requested|
    ensures forall i :: 0 <= i < |f| ==> f[i] < |granted| && granted[f[i]] == Wanted(granted, requested[i])
  {
    seq(|requested|, i requires 0 <= i < |requested| =>
      assert requested[i] in requested;
      Position(granted, Wanted(granted, requested[i])))
  }

  lemma AssignmentFits(granted: seq<string>, requested: seq<string>)
    requires Apart(granted, requested) && Enough(granted, requested)
    ensures Fits(Assignment(granted, requested), granted, requested)
  {
    forall i | 0 <= i < |requested| ensures Equivalent(Wanted(granted, requested[i]), requested[i]) {
      assert requested[i] in requested;
    }
  }

  lemma AssignedIsEnough(f: seq<nat>, granted: seq<string>, requested: seq<string>)
    requires Apart(granted, requested) && Distinct(granted) && Assigns(f, granted, requested)
    ensures Enough(granted, requested)
  {
    forall i | 0 <= i < |requested| && requested[i] !in granted
      ensures granted[f[i]] == Role(requested[i])
    {
      assert granted[f[i]] in granted && requested[i] in requested;
      assert Equivalent(granted[f[i]], requested[i]);
    }
    forall y | y in requested && y !in granted ensures Role(y) in granted {
      var i :| 0 <= i < |requested| && requested[i] == y;
      assert granted[f[i]] in granted;
    }
  }

  /**
   The greedy answer is no although some assignment exists exactly when a requested name that is
   granted in full spends its role, standing before it among the granted names, and a later
   requested name of that role is not granted in full.
  */
  lemma GreedyIsRightIffUnshadowed(granted: seq<string>, requested: seq<string>)
    requires Apart(granted, requested) && Distinct(granted) && Distinct(requested)
    ensures Cover(granted, requested) <==> (exists f :: Assigns(f, granted, requested)) && !Shadowed(granted, requested)
  {
    hide Cover, Enough, Shadowed, Assigns, Apart;
    CoverIffEnoughUnshadowed(granted, requested);
    AssignableIffEnough(granted, requested);
  }

  // ---------------------------------------------------------------- the smallest failure

  lemma RoleOf(domain: char)
    requires domain != ':'
    ensures RoleName([domain] + ":role.a") == Some("a")
  {
    var s := [domain] + ":role.a";
    assert s[1..] == MARKER + "a";
    assert IndexOf(s[1..], MARKER) == 0;
    assert s[0] != MARKER[0];
    assert IndexOf(s, MARKER) == 1;
    assert s[7..] == "a";
  }

  /** Sorted lists on which the greedy answer is no although an assignment exists. */
  lemma MixedGreedyCanFail()
    ensures var granted, requested := ["a", "b:role.a"], ["b:role.a", "c:role.a"];
            && SortUnique(granted) == granted && SortUnique(requested) == requested
            && !Cover(granted, requested) && Assigns([1, 0], granted, requested)
  {
    var b, c := ['b'] + ":role.a", ['c'] + ":role.a";
    assert b == "b:role.a" && c == "c:role.a";
    var granted, requested := ["a", b], [b, c];
    assert Less("a", b) && Less(b, c);
    SortedIsNormal(granted);
    SortedIsNormal(requested);
    RoleOf('b');
    RoleOf('c');
    assert RoleName("a") == None;
    FailsWhen(b, c);
  }

  lemma FailsWhen(b: string, c: string)
    requires RoleName(b) == RoleName(c) == Some("a") && RoleName("a") == None && b != c && b != "a" && c != "a"
    ensures !Cover(["a", b], [b, c]) && Assigns([1, 0], ["a", b], [b, c])
  {
    hide RoleName, Cover;
    var granted, requested := ["a", b], [b, c];
    assert Precedes(granted, Role(b), b) by {
      assert granted[0] == "a" && granted[1] == b;
    }
    assert Wasted(granted, requested, 0, 1);
    CoverIffEnoughUnshadowed(granted, requested);
  }
}
