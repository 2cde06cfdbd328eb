/** Sorted lists of distinct strings: the canonical form of a set of scopes. */
module SortedStrings {

  /** Lexicographic order by code unit. */
  predicate Less(a: string, b: string) {
    if b == "" then false
    else if a == "" then true
    else a[0] < b[0] || (a[0] == b[0] && Less(a[1..], b[1..]))
  }

  lemma {:induction false} LessTotal(a: string, b: string)
    ensures Less(a, b) || a == b || Less(b, a)
    ensures Less(a, b) ==> a != b && !Less(b, a)
  {
    if a != "" && b != "" {
      LessTotal(a[1..], b[1..]);
      assert a[0] == b[0] && a[1..] == b[1..] ==> a == b by {
        assert a == [a[0]] + a[1..] && b == [b[0]] + b[1..];
      }
    }
  }

  lemma {:induction false} LessTransitive(a: string, b: string, c: string)
    requires Less(a, b) && Less(b, c)
    ensures Less(a, c)
  {
    if a != "" && a[0] == b[0] == c[0] {
      LessTransitive(a[1..], b[1..], c[1..]);
    }
  }

  predicate StrictlySorted(s: seq<string>) {
    forall i, j :: 0 <= i < j < |s| ==> Less(s[i], s[j])
  }

  function Elements(s: seq<string>): set<string> { set x | x in s }

  function Insert(s: seq<string>, x: string): seq<string> {
    if s == [] then [x]
    else if Less(x, s[0]) then [x] + s
    else if x == s[0] then s
    else [s[0]] + Insert(s[1..], x)
  }

  lemma {:induction false} InsertSorts(s: seq<string>, x: string)
    requires StrictlySorted(s)
    ensures StrictlySorted(Insert(s, x)) && Elements(Insert(s, x)) == Elements(s) + {x}
  {
    if s != [] {
      LessTotal(x, s[0]);
      if Less(x, s[0]) {
        forall j | 0 <= j < |s|
          ensures Less(x, s[j])
        {
          if j > 0 {
            LessTransitive(x, s[0], s[j]);
          }
        }
      } else if x != s[0] {
        InsertSorts(s[1..], x);
        var rest := Insert(s[1..], x);
        assert s == [s[0]] + s[1..];
        assert forall y :: y in rest <==> y in Elements(rest);
        forall j | 0 <= j < |rest|
          ensures Less(s[0], rest[j])
        {
          assert rest[j] in Elements(rest);
          if rest[j] != x {
            assert rest[j] in s[1..];
          }
        }
      }
    }
  }

  /** The distinct strings of `s`, sorted. */
  function SortUnique(s: seq<string>): seq<string> {
    if s == [] then [] else Insert(SortUnique(s[..|s| - 1]), s[|s| - 1])
  }

  lemma {:induction false} SortUniqueSorts(s: seq<string>)
    ensures StrictlySorted(SortUnique(s)) && Elements(SortUnique(s)) == Elements(s)
  {
    if s != [] {
      var n := |s| - 1;
      SortUniqueSorts(s[..n]);
      InsertSorts(SortUnique(s[..n]), s[n]);
      assert s == s[..n] + [s[n]];
    }
  }

  /** A sorted list of distinct strings is determined by its elements. */
  lemma {:induction false} SortedIsCanonical(a: seq<string>, b: seq<string>)
    requires StrictlySorted(a) && StrictlySorted(b) && Elements(a) == Elements(b)
    ensures a == b
  {
    assert forall x :: x in a <==> x in Elements(a);
    assert forall x :: x in b <==> x in Elements(b);
    assert a != [] ==> a[0] in a;
    assert b != [] ==> b[0] in b;
    if a != [] {
      SameFirst(a, b);
      forall x | x in a[1..]
        ensures x in b[1..]
      {
        TailMember(a, b, x);
      }
      forall x | x in b[1..]
        ensures x in a[1..]
      {
        TailMember(b, a, x);
      }
      SortedIsCanonical(a[1..], b[1..]);
    }
  }

  lemma SameFirst(a: seq<string>, b: seq<string>)
    requires StrictlySorted(a) && StrictlySorted(b) && a != [] && b != []
    requires forall x :: x in a <==> x in b
    ensures a[0] == b[0]
  {
    assert a[0] in b && b[0] in a;
    var i :| 0 <= i < |b| && b[i] == a[0];
    var j :| 0 <= j < |a| && a[j] == b[0];
    LessTotal(a[0], b[0]);
  }

  lemma TailMember(a: seq<string>, b: seq<string>, x: string)
    requires StrictlySorted(a) && a != [] && b != [] && a[0] == b[0] && x in a[1..]
    requires forall y :: y in a ==> y in b
    ensures x in b[1..]
  {
    var i :| 0 <= i < |a[1..]| && a[1..][i] == x;
    assert Less(a[0], a[i + 1]);
    LessTotal(a[0], x);
    assert x in a;
    var j :| 0 <= j < |b| && b[j] == x;
    assert b[1..][j - 1] == x;
  }

  /** Two lists normalize alike exactly when they hold the same strings. */
  lemma SameNormalFormIffSameSet(a: seq<string>, b: seq<string>)
    ensures SortUnique(a) == SortUnique(b) <==> Elements(a) == Elements(b)
  {
    SortUniqueSorts(a);
    SortUniqueSorts(b);
    if Elements(a) == Elements(b) {
      SortedIsCanonical(SortUnique(a), SortUnique(b));
    }
  }

  lemma NormalFormKeepsMembers(s: seq<string>, x: string)
    ensures x in SortUnique(s) <==> x in s
  {
    SortUniqueSorts(s);
    assert x in SortUnique(s) <==> x in Elements(SortUnique(s));
    assert x in s <==> x in Elements(s);
  }

  predicate Distinct(s: seq<string>) {
    forall i, j :: 0 <= i < j < |s| ==> s[i] != s[j]
  }

  lemma SortedIsDistinct(s: seq<string>)
    requires StrictlySorted(s)
    ensures Distinct(s)
  {
    forall i, j | 0 <= i < j < |s| ensures s[i] != s[j] {
      LessTotal(s[i], s[j]);
    }
  }

  /** A sorted list of distinct strings is its own normal form. */
  lemma SortedIsNormal(s: seq<string>)
    requires StrictlySorted(s)
    ensures SortUnique(s) == s
  {
    SortUniqueSorts(s);
    SortedIsCanonical(SortUnique(s), s);
  }

  /** The one strictly sorted list of a set. */
  ghost function SortedList(set_: set<string>): (r: seq<string>)
    ensures StrictlySorted(r) && Elements(r) == set_
  {
    if set_ == {} then []
    else
      var x :| x in set_;
      var rest := SortedList(set_ - {x});
      InsertSorts(rest, x);
      Insert(rest, x)
  }

  /** Lists a set in order, whatever order its elements come in. */
  method Listed(set_: set<string>) returns (sorted: seq<string>)
    ensures sorted == SortedList(set_)
  {
    var unsorted: seq<string> := [];
    var rest := set_;
    while rest != {}
      invariant rest <= set_
      invariant forall x :: x in unsorted <==> x in set_ && x !in rest
      decreases rest
    {
      var x :| x in rest;
      unsorted := unsorted + [x];
      rest := rest - {x};
    }
    SortUniqueSorts(unsorted);
    sorted := SortUnique(unsorted);
    SortedIsCanonical(sorted, SortedList(set_));
  }
}
