/**
 When the greedy matching is right if the requested names may be role-only too, as they are when a
 token is compared with the scope that the token response states.
*/
module ScopeMixed {
  import opened Results
  import opened SortedStrings
  import opened ScopeCover
  import opened ScopeGreedy

  /** At most one marker: qualified, or role-only. */
  predicate Single(x: string) { Qualified(x) || RoleName(x).None? }

  predicate AllSingle(s: seq<string>) { forall x :: x in s ==> Single(x) }

  predicate IsRole(x: string) { Role(x) == x }

  /** Sorted lists of such names. */
  predicate Normal(granted: seq<string>, requested: seq<string>) {
    StrictlySorted(granted) && StrictlySorted(requested) && AllSingle(granted) && AllSingle(requested)
  }

  // ---------------------------------------------------------------- what a role-only name takes

  /** A requested name of this role that is not granted in full. */
  predicate Lacks(granted: seq<string>, requested: seq<string>, role: string, y: string) {
    y in requested && Role(y) == role && y !in granted
  }

  /**
   When the role-only name is looked at, `x` has gone: to the same name, requested before, or, if it
   is the role, to a name requested before and not granted in full.
  */
  predicate Gone(granted: seq<string>, requested: seq<string>, role: string, x: string) {
    if x == role then exists y :: y in requested && Less(y, role) && Lacks(granted, requested, role, y)
    else x in requested && Less(x, role)
  }

  predicate Left(granted: seq<string>, requested: seq<string>, role: string, x: string) {
    x in granted && Role(x) == role && !Gone(granted, requested, role, x)
  }

  /** The first granted name that is left for the role-only name. */
  predicate Takes(granted: seq<string>, requested: seq<string>, role: string, x: string) {
    && Left(granted, requested, role, x)
    && forall z :: z in granted && Left(granted, requested, role, z) ==> z == x || Less(x, z)
  }

  /** It is requested itself later on, or it is the role that another name lacks. */
  predicate Needed(granted: seq<string>, requested: seq<string>, role: string, x: string) {
    if x == role then exists y :: y in requested && Lacks(granted, requested, role, y) else x in requested
  }

  predicate RobbedAt(granted: seq<string>, requested: seq<string>, role: string) {
    && IsRole(role)
    && exists x :: x in granted && Takes(granted, requested, role, x) && Needed(granted, requested, role, x)
  }

  /** Some role-only name takes what a later name needs. */
  predicate Robbed(granted: seq<string>, requested: seq<string>) {
    exists role :: role in requested && RobbedAt(granted, requested, role)
  }

  // ---------------------------------------------------------------- names and their order

  lemma RoleOfSingle(x: string)
    requires Single(x)
    ensures IsRole(Role(x)) && RoleName(Role(x)).None? && (IsRole(x) <==> RoleName(x).None?)
  {
    if RoleName(x).Some? {
      assert |RoleName(x).value| < |x|;
    }
  }

  lemma EquivalentIff(x: string, y: string)
    requires Single(x) && Single(y)
    ensures Equivalent(x, y) <==> x == y || (Role(x) == Role(y) && (IsRole(x) || IsRole(y)))
  {
    RoleOfSingle(x);
    RoleOfSingle(y);
  }

  lemma FirstIsLeast(s: seq<string>, x: string)
    requires StrictlySorted(s) && x in s
    ensures x == s[0] || Less(s[0], x)
    ensures x in s[1..] <==> x != s[0]
  {
    var k :| 0 <= k < |s| && s[k] == x;
    if k > 0 {
      assert s[1..][k - 1] == x;
      LessTotal(s[0], x);
    } else if x in s[1..] {
      var l :| 0 <= l < |s[1..]| && s[1..][l] == x;
      LessTotal(s[0], s[l + 1]);
    }
  }

  /** Of the granted names that a requested one may take, the least is found. */
  lemma FoundIsLeast(s: seq<string>, y: string, z: string)
    requires StrictlySorted(s) && z in s && Equivalent(z, y)
    ensures var i := FindIndex(s, y); i >= 0 && (z == s[i] || Less(s[i], z))
  {
    hide Equivalent;
    var k :| 0 <= k < |s| && s[k] == z;
    var i := FindIndex(s, y);
    assert i >= 0 && i <= k;
  }

  lemma SortedWithout(s: seq<string>, i: nat)
    requires StrictlySorted(s) && i < |s|
    ensures StrictlySorted(Without(s, i))
    ensures forall x :: x in Without(s, i) <==> x in s && x != s[i]
  {
    SortedIsDistinct(s);
    forall x ensures x in Without(s, i) <==> x in s && x != s[i] {
      WithoutMembers(s, i, x);
    }
  }

  /** What is known when the first requested name `y` takes the granted name `x`. */
  ghost predicate Step(granted: seq<string>, requested: seq<string>, left: seq<string>, rest: seq<string>, y: string, x: string) {
    && Normal(granted, requested) && Normal(left, rest)
    && y in requested && x in granted && Equivalent(x, y)
    && (forall z :: z in left <==> z in granted && z != x)
    && (forall z :: z in rest <==> z in requested && z != y)
    && (forall z :: z in requested ==> z == y || Less(y, z))
    && (forall z :: z in granted && Equivalent(z, y) ==> z == x || Less(x, z))
  }

  lemma StepOf(granted: seq<string>, requested: seq<string>)
    requires Normal(granted, requested) && requested != [] && FindIndex(granted, requested[0]) >= 0
    ensures var i := FindIndex(granted, requested[0]);
            Step(granted, requested, Without(granted, i), requested[1..], requested[0], granted[i])
  {
    hide Equivalent, Single;
    var i, y := FindIndex(granted, requested[0]), requested[0];
    SortedWithout(granted, i);
    forall z | z in requested ensures (z == y || Less(y, z)) && (z in requested[1..] <==> z != y) {
      FirstIsLeast(requested, z);
    }
    FirstIsLeast(requested, y);
    forall z | z in granted && Equivalent(z, y) ensures z == granted[i] || Less(granted[i], z) {
      FoundIsLeast(granted, y, z);
    }
  }

  // ---------------------------------------------------------------- a spent role, by name

  /** `a` is granted in full but spends its role, which stands before it, and the later `b` lacks it. */
  predicate Shadows(granted: seq<string>, requested: seq<string>, a: string, b: string) {
    && a in requested && b in requested && a in granted && b !in granted
    && Role(a) == Role(b) && Role(a) in granted && Less(Role(a), a) && Less(a, b)
  }

  lemma LessPrecedes(s: seq<string>, a: string, b: string)
    requires StrictlySorted(s) && a in s && b in s && Less(a, b)
    ensures Precedes(s, a, b)
  {
    var i :| 0 <= i < |s| && s[i] == a;
    var j :| 0 <= j < |s| && s[j] == b;
    LessTotal(a, b);
    assert i < j;
  }

  lemma ShadowedByName(granted: seq<string>, requested: seq<string>)
    requires StrictlySorted(granted) && StrictlySorted(requested)
    ensures Shadowed(granted, requested) <==> exists a, b :: Shadows(granted, requested, a, b)
  {
    hide Role;
    if Shadowed(granted, requested) {
      var i, j :| 0 <= i < j < |requested| && Wasted(granted, requested, i, j);
      assert Shadows(granted, requested, requested[i], requested[j]);
    }
    if a, b :| Shadows(granted, requested, a, b) {
      LessPrecedes(requested, a, b);
      LessPrecedes(granted, Role(a), a);
      var i, j :| 0 <= i < j < |requested| && requested[i] == a && requested[j] == b;
      assert Wasted(granted, requested, i, j);
    }
  }

  // ---------------------------------------------------------------- one step

  /** What a name takes has its role; a qualified name takes itself or the role, whichever is first. */
  lemma StepTakes(granted: seq<string>, requested: seq<string>, left: seq<string>, rest: seq<string>, y: string, x: string)
    requires Step(granted, requested, left, rest, y, x)
    ensures Role(x) == Role(y) && IsRole(Role(y)) && (x == y || x == Role(y) || IsRole(y))
    ensures forall z :: z in granted && Role(z) == Role(y) && (IsRole(y) || z == y || z == Role(y)) ==> z == x || Less(x, z)
  {
    EquivalentIff(x, y);
    RoleOfSingle(x);
    RoleOfSingle(y);
    forall z | z in granted && Role(z) == Role(y) && (IsRole(y) || z == y || z == Role(y)) ensures z == x || Less(x, z) {
      EquivalentIff(z, y);
    }
  }

  lemma ShadowStaysAway(granted: seq<string>, requested: seq<string>, left: seq<string>, rest: seq<string>,
                        y: string, x: string, a: string, b: string)
    requires Step(granted, requested, left, rest, y, x) && Shadows(left, rest, a, b)
    ensures Shadows(granted, requested, a, b)
  {
    hide Role, Equivalent, Single;
    if b == x {
      StepTakes(granted, requested, left, rest, y, x);
      LessTransitive(Role(a), a, b);
      LessTotal(Role(a), b);
      assert false;
    }
  }

  /** A role-only name other than the first finds the same names left, and the same of them needed. */
  lemma SameLeft(granted: seq<string>, requested: seq<string>, left: seq<string>, rest: seq<string>,
                 y: string, x: string, role: string, z: string)
    requires Step(granted, requested, left, rest, y, x) && role in rest && IsRole(role)
    ensures Left(granted, requested, role, z) <==> Left(left, rest, role, z)
    ensures Left(left, rest, role, z) ==> (Needed(granted, requested, role, z) <==> Needed(left, rest, role, z))
  {
    hide Role, Equivalent, Single;
    StepTakes(granted, requested, left, rest, y, x);
    LessTotal(y, role);
  }

  lemma RobbedAtStays(granted: seq<string>, requested: seq<string>, left: seq<string>, rest: seq<string>,
                      y: string, x: string, role: string)
    requires Step(granted, requested, left, rest, y, x) && role in rest
    ensures RobbedAt(granted, requested, role) <==> RobbedAt(left, rest, role)
  {
    hide Role, Equivalent, Single, Left, Needed, Step;
    if IsRole(role) {
      forall z
        ensures Left(granted, requested, role, z) <==> Left(left, rest, role, z)
        ensures Left(left, rest, role, z) ==> (Needed(granted, requested, role, z) <==> Needed(left, rest, role, z))
      {
        SameLeft(granted, requested, left, rest, y, x, role, z);
      }
      forall z | Left(granted, requested, role, z) ensures z in granted && z in left {
        LeftIsGranted(granted, requested, role, z);
        LeftIsGranted(left, rest, role, z);
      }
    }
  }

  lemma LeftIsGranted(granted: seq<string>, requested: seq<string>, role: string, x: string)
    requires Left(granted, requested, role, x)
    ensures x in granted
  {}

  // ---------------------------------------------------------------- a step that robs nobody

  /** At its own turn nothing has gone for the first requested name: it takes what it finds. */
  lemma FirstTakes(granted: seq<string>, requested: seq<string>, left: seq<string>, rest: seq<string>, y: string, x: string)
    requires Step(granted, requested, left, rest, y, x) && IsRole(y)
    ensures Takes(granted, requested, y, x)
    ensures Needed(granted, requested, y, x) ==> RobbedAt(granted, requested, y)
  {
    hide Role, Equivalent, Single;
    StepTakes(granted, requested, left, rest, y, x);
    forall z | z in requested ensures !Less(z, y) {
      LessTotal(z, y);
    }
    assert Left(granted, requested, y, x);
  }

  /**
   If an assignment gives `x` to another name `w`, and `y` something that `w` cannot have instead,
   then `w` is granted in full, and only `w` itself or `y` could have that.
  */
  lemma OtherCanMove(granted: seq<string>, requested: seq<string>, left: seq<string>, rest: seq<string>,
                     y: string, x: string, z: string, w: string)
    requires Step(granted, requested, left, rest, y, x)
    requires z in granted && z != x && Equivalent(z, y) && w in rest && Equivalent(x, w) && !Equivalent(z, w)
    requires (forall a, b :: !Shadows(granted, requested, a, b)) && !RobbedAt(granted, requested, y)
    ensures w in granted && w != x
    ensures forall v :: v in rest && Equivalent(w, v) ==> v == w
  {
    hide Role, Equivalent, Single;
    StepTakes(granted, requested, left, rest, y, x);
    EquivalentIff(x, w);
    EquivalentIff(z, w);
    EquivalentIff(z, y);
    if IsRole(y) {
      FirstTakes(granted, requested, left, rest, y, x);
    } else {
      LessTotal(x, y);
      assert !Shadows(granted, requested, y, w);
    }
    forall v | v in rest && Equivalent(w, v) ensures v == w {
      EquivalentIff(w, v);
      LessTotal(v, y);
    }
  }

  ghost predicate Assignable(granted: seq<string>, requested: seq<string>) {
    exists f :: Assigns(f, granted, requested)
  }

  predicate NothingLost(granted: seq<string>, requested: seq<string>) {
    !Shadowed(granted, requested) && !Robbed(granted, requested)
  }

  lemma FreeExchange(f: seq<nat>, granted: seq<string>, requested: seq<string>, i: nat)
    requires Assigns(f, granted, requested) && requested != [] && i < |granted| && Equivalent(granted[i], requested[0])
    requires i !in f
    ensures Assigns(f[0 := i], granted, requested)
  {}

  lemma SwapExchange(f: seq<nat>, granted: seq<string>, requested: seq<string>, k: nat)
    requires Assigns(f, granted, requested) && 0 < k < |f|
    requires Equivalent(granted[f[k]], requested[0]) && Equivalent(granted[f[0]], requested[k])
    ensures Assigns(f[0 := f[k]][k := f[0]], granted, requested)
  {}

  lemma MoveExchange(f: seq<nat>, granted: seq<string>, requested: seq<string>, k: nat, j: nat)
    requires Assigns(f, granted, requested) && 0 < k < |f| && j < |granted| && j !in f
    requires Equivalent(granted[f[k]], requested[0]) && Equivalent(granted[j], requested[k])
    ensures Assigns(f[0 := f[k]][k := j], granted, requested)
  {}

  /** If nothing is lost, some assignment gives the first name what the greedy matching gives it. */
  lemma Exchange(f: seq<nat>, granted: seq<string>, requested: seq<string>) returns (f': seq<nat>)
    requires Normal(granted, requested) && requested != [] && Assigns(f, granted, requested)
    requires FindIndex(granted, requested[0]) >= 0 && NothingLost(granted, requested)
    ensures Assigns(f', granted, requested) && f'[0] == FindIndex(granted, requested[0])
  {
    hide Equivalent, Single, Step, Shadowed, RobbedAt, Shadows;
    var y, i := requested[0], FindIndex(granted, requested[0]);
    if f[0] == i {
      f' := f;
    } else if i !in f {
      FreeExchange(f, granted, requested, i);
      f' := f[0 := i];
    } else {
      var k :| 0 <= k < |f| && f[k] == i;
      if Equivalent(granted[f[0]], requested[k]) {
        SwapExchange(f, granted, requested, k);
        f' := f[0 := f[k]][k := f[0]];
      } else {
        var j := Elsewhere(f, granted, requested, k);
        MoveExchange(f, granted, requested, k, j);
        f' := f[0 := f[k]][k := j];
      }
    }
  }

  /** The other name can have itself instead. */
  lemma Elsewhere(f: seq<nat>, granted: seq<string>, requested: seq<string>, k: nat) returns (j: nat)
    requires Normal(granted, requested) && Assigns(f, granted, requested) && 0 < k < |f|
    requires f[k] == FindIndex(granted, requested[0]) && !Equivalent(granted[f[0]], requested[k])
    requires NothingLost(granted, requested)
    ensures j < |granted| && j !in f && Equivalent(granted[j], requested[k])
  {
    hide Single, RobbedAt, Shadowed, Step;
    var y, w, i := requested[0], requested[k], f[k];
    StepOf(granted, requested);
    ShadowedByName(granted, requested);
    SortedIsDistinct(granted);
    SortedIsDistinct(requested);
    assert requested[1..][k - 1] == w && y in requested;
    assert granted[f[0]] != granted[i];
    OtherCanMove(granted, requested, Without(granted, i), requested[1..], y, granted[i], granted[f[0]], w);
    j := Position(granted, w);
    forall l | 0 <= l < |f| ensures f[l] != j {
      if l > 0 {
        assert requested[1..][l - 1] == requested[l];
      }
    }
  }

  /** A name without a granted name of its own cannot be assigned. */
  lemma NoneForIt(f: seq<nat>, granted: seq<string>, requested: seq<string>, y: string)
    requires Assigns(f, granted, requested) && y in requested
    ensures exists z :: z in granted && Equivalent(z, y)
  {
    var k :| 0 <= k < |requested| && requested[k] == y;
    assert granted[f[k]] in granted;
  }

  // ---------------------------------------------------------------- the exact condition

  lemma NothingLostStays(granted: seq<string>, requested: seq<string>, left: seq<string>, rest: seq<string>, y: string, x: string)
    requires Step(granted, requested, left, rest, y, x) && NothingLost(granted, requested)
    ensures NothingLost(left, rest)
  {
    hide Shadows, RobbedAt, Single, Equivalent, Shadowed;
    ShadowedByName(granted, requested);
    ShadowedByName(left, rest);
    forall a, b ensures !Shadows(left, rest, a, b) {
      if Shadows(left, rest, a, b) {
        ShadowStaysAway(granted, requested, left, rest, y, x, a, b);
      }
    }
    forall role | role in rest ensures !RobbedAt(left, rest, role) {
      RobbedAtStays(granted, requested, left, rest, y, x, role);
    }
  }

  /** What is robbed at the first step cannot be assigned after it. */
  lemma RobbedFirst(f: seq<nat>, granted: seq<string>, requested: seq<string>, left: seq<string>, rest: seq<string>,
                    y: string, x: string)
    requires Step(granted, requested, left, rest, y, x) && Assigns(f, left, rest)
    ensures !RobbedAt(granted, requested, y)
  {
    hide Role, Equivalent, Single, Assigns;
    if RobbedAt(granted, requested, y) {
      FirstTakes(granted, requested, left, rest, y, x);
      StepTakes(granted, requested, left, rest, y, x);
      var t :| t in granted && Takes(granted, requested, y, t) && Needed(granted, requested, y, t);
      LessTotal(t, x);
      var w := x;
      if x == y {
        w :| w in requested && Lacks(granted, requested, y, w);
      }
      NoneForIt(f, left, rest, w);
      var z :| z in left && Equivalent(z, w);
      EquivalentIff(z, w);
      LessTotal(x, y);
      assert false;
    }
  }

  /** What is spent at the first step cannot be assigned after it, and what is spent later is spent then. */
  lemma ShadowedFirst(f: seq<nat>, granted: seq<string>, requested: seq<string>, left: seq<string>, rest: seq<string>,
                      y: string, x: string, a: string, b: string)
    requires Step(granted, requested, left, rest, y, x) && Assigns(f, left, rest)
    requires Shadows(granted, requested, a, b)
    ensures Shadows(left, rest, a, b)
  {
    hide Role, Equivalent, Single, Assigns;
    StepTakes(granted, requested, left, rest, y, x);
    LessTotal(a, b);
    LessTotal(b, y);
    LessTotal(Role(a), a);
    LessTotal(x, a);
    NoneForIt(f, left, rest, b);
    var z :| z in left && Equivalent(z, b);
    EquivalentIff(z, b);
  }

  lemma WasNothingLost(f: seq<nat>, granted: seq<string>, requested: seq<string>, left: seq<string>, rest: seq<string>,
                       y: string, x: string)
    requires Step(granted, requested, left, rest, y, x) && Assigns(f, left, rest) && NothingLost(left, rest)
    ensures NothingLost(granted, requested)
  {
    hide Shadows, RobbedAt, Single, Equivalent, Shadowed, Assigns;
    ShadowedByName(granted, requested);
    ShadowedByName(left, rest);
    forall a, b ensures !Shadows(granted, requested, a, b) {
      if Shadows(granted, requested, a, b) {
        ShadowedFirst(f, granted, requested, left, rest, y, x, a, b);
      }
    }
    forall role | role in requested ensures !RobbedAt(granted, requested, role) {
      if role == y {
        RobbedFirst(f, granted, requested, left, rest, y, x);
      } else {
        RobbedAtStays(granted, requested, left, rest, y, x, role);
      }
    }
  }

  lemma NothingToLose(granted: seq<string>)
    ensures Assignable(granted, []) && NothingLost(granted, [])
  {
    assert Assigns([], granted, []);
  }

  lemma NotFound(f: seq<nat>, granted: seq<string>, requested: seq<string>)
    requires requested != [] && FindIndex(granted, requested[0]) < 0
    ensures !Assigns(f, granted, requested)
  {}

  lemma StepIsNormal(granted: seq<string>, requested: seq<string>, left: seq<string>, rest: seq<string>, y: string, x: string)
    requires Step(granted, requested, left, rest, y, x)
    ensures Normal(left, rest)
  {}

  /** The greedy answer is yes exactly when some assignment exists and no name takes what a later one needs. */
  lemma {:induction false} CoverIffNothingLost(granted: seq<string>, requested: seq<string>)
    requires Normal(granted, requested)
    ensures Cover(granted, requested) <==> Assignable(granted, requested) && NothingLost(granted, requested)
    decreases |requested|
  {
    hide NothingLost, Step, Normal, Assigns, Equivalent;
    if requested == [] {
      NothingToLose(granted);
    } else {
      var i := FindIndex(granted, requested[0]);
      if i < 0 {
        forall f ensures !Assigns(f, granted, requested) {
          NotFound(f, granted, requested);
        }
      } else {
        StepOf(granted, requested);
        var left, rest := Without(granted, i), requested[1..];
        StepIsNormal(granted, requested, left, rest, requested[0], granted[i]);
        CoverIffNothingLost(left, rest);
        if Cover(left, rest) {
          var f :| Assigns(f, left, rest);
          WasNothingLost(f, granted, requested, left, rest, requested[0], granted[i]);
          var _ := CoverAssigns(granted, requested);
        } else if Assignable(granted, requested) && NothingLost(granted, requested) {
          var f :| Assigns(f, granted, requested);
          var f' := Exchange(f, granted, requested);
          DropFirstAssigns(f', granted, requested);
          NothingLostStays(granted, requested, left, rest, requested[0], granted[i]);
          assert false;
        }
      }
    }
  }


  /** The same of any lists of such names, once they are normalized. */
  lemma NormalizedGreedyIsRightIff(granted: seq<string>, requested: seq<string>)
    requires AllSingle(granted) && AllSingle(requested)
    ensures var g, r := SortUnique(granted), SortUnique(requested);
            Cover(g, r) <==> (exists f :: Assigns(f, g, r)) && !Shadowed(g, r) && !Robbed(g, r)
  {
    hide Single, Cover, Shadowed, Robbed, Assigns;
    var g, r := SortUnique(granted), SortUnique(requested);
    SortUniqueSorts(granted);
    SortUniqueSorts(requested);
    forall x ensures (x in g <==> x in granted) && (x in r <==> x in requested) {
      NormalFormKeepsMembers(granted, x);
      NormalFormKeepsMembers(requested, x);
    }
    CoverIffNothingLost(g, r);
  }

  /** Requests of qualified names alone rob nobody. */
  lemma QualifiedRobNobody(granted: seq<string>, requested: seq<string>)
    requires AllQualified(requested)
    ensures !Robbed(granted, requested)
  {
    forall role | role in requested ensures !IsRole(role) {
      RoleOfSingle(role);
    }
  }

  // ---------------------------------------------------------------- the smallest robbery

  /** Sorted lists on which a role-only name takes what the next name needs, although it could do without. */
  lemma RoleOnlyRequestCanFail()
    ensures var granted, requested := ["b:role.a", "c:role.a"], ["a", "b:role.a"];
            && SortUnique(granted) == granted && SortUnique(requested) == requested
            && !Cover(granted, requested) && Assigns([1, 0], granted, requested) && !Shadowed(granted, requested)
  {
    var b, c := ['b'] + ":role.a", ['c'] + ":role.a";
    assert b == "b:role.a" && c == "c:role.a";
    var granted, requested := [b, c], ["a", b];
    assert Less("a", b) && Less(b, c);
    SortedIsNormal(granted);
    SortedIsNormal(requested);
    RoleOf('b');
    RoleOf('c');
    assert RoleName("a") == None;
    TakesTheNext(b, c);
  }

  lemma TakesTheNext(b: string, c: string)
    requires RoleName(b) == RoleName(c) == Some("a") && RoleName("a") == None && b != c && b != "a" && c != "a"
    ensures !Cover([b, c], ["a", b]) && Assigns([1, 0], [b, c], ["a", b]) && !Shadowed([b, c], ["a", b])
  {
    hide RoleName;
    var granted, requested := [b, c], ["a", b];
    assert FindIndex(granted, "a") == 0;
    assert Without(granted, 0) == [c] && requested[1..] == [b];
    assert FindIndex([c], b) == -1 by {
      assert [c][1..] == [];
    }
  }
}
