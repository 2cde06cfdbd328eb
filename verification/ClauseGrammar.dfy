/**
 What the scanner accepts, told without a scanner: texts made of plain characters, quoted stretches and
 parenthesized groups. A comma separates exactly where it is a plain character outside all groups.
*/
module ClauseGrammar {
  import opened Results
  import opened Texts
  import opened Clauses

  datatype Text =
    | End
    | Plain(c: char, rest: Text)
    | Quoted(quote: char, inside: string, rest: Text)
    | Group(body: Text, rest: Text)

  /** Either quote ends at the next character like it, whatever stands between; nothing escapes it. */
  predicate WellMade(t: Text) {
    match t
    case End => true
    case Plain(c, rest) => c !in "'`()" && WellMade(rest)
    case Quoted(quote, inside, rest) => quote in "'`" && quote !in inside && WellMade(rest)
    case Group(body, rest) => WellMade(body) && WellMade(rest)
  }

  function Printed(t: Text): string {
    match t
    case End => ""
    case Plain(c, rest) => [c] + Printed(rest)
    case Quoted(quote, inside, rest) => ([quote] + inside + [quote]) + Printed(rest)
    case Group(body, rest) => (['('] + Printed(body) + [')']) + Printed(rest)
  }

  /** No comma stands outside quotes and groups. */
  predicate Whole(t: Text) {
    match t
    case End => true
    case Plain(c, rest) => c != ',' && Whole(rest)
    case Quoted(_, _, rest) => Whole(rest)
    case Group(_, rest) => Whole(rest)
  }

  // ---------------------------------------------------------------- scanning at a depth

  function At(depth: int): Scan { Scan(depth, None) }

  /** The scanner stays at or above the depth and ends at it. */
  predicate Closed(d: int, s: string) {
    After(At(d), s) == At(d) && forall i :: 0 <= i <= |s| ==> After(At(d), s[..i]).depth >= d
  }

  predicate Quiet(d: int, s: string) {
    forall i: nat :: i < |s| && s[i] == ',' ==> After(At(d), s[..i]) != At(d)
  }

  lemma ClosedIsBalanced(s: string)
    ensures Closed(0, s) <==> Balanced(s)
    ensures Closed(0, s) && Quiet(0, s) <==> Clause(s)
  {
    assert forall i: nat :: i < |s| ==> (IsCut(s, i) <==> s[i] == ',' && After(At(0), s[..i]) == At(0));
  }

  lemma ClosedConcat(d: int, a: string, b: string)
    requires Closed(d, a) && Closed(d, b)
    ensures Closed(d, a + b)
    ensures Quiet(d, a) && Quiet(d, b) ==> Quiet(d, a + b)
  {
    var s := a + b;
    AfterConcat(At(d), a, b);
    forall i | 0 <= i <= |s|
      ensures After(At(d), s[..i]) == if i <= |a| then After(At(d), a[..i]) else After(At(d), b[..i - |a|])
    {
      if i <= |a| {
        assert s[..i] == a[..i];
      } else {
        assert s[..i] == a + b[..i - |a|];
        AfterConcat(At(d), a, b[..i - |a|]);
      }
    }
    assert a[..|a|] == a && b[..0] == "";
  }

  /** The scanner inside a pair of delimiters. */
  lemma Delimited(s: Scan, o: char, x: string, c: char, i: nat)
    requires i <= |x|
    ensures After(s, ([o] + x + [c])[..i + 1]) == After(Step(s, o), x[..i])
    ensures After(s, [o] + x + [c]) == Step(After(Step(s, o), x), c)
  {
    assert [o][..0] == "";
    assert After(s, [o]) == Step(s, o);
    assert ([o] + x + [c])[..i + 1] == [o] + x[..i];
    AfterConcat(s, [o], x[..i]);
    AfterConcat(s, [o], x);
    AfterSnoc(s, [o] + x, c);
  }

  lemma {:induction false} InQuotes(d: int, quote: char, x: string)
    requires quote !in x
    ensures After(Scan(d, Some(quote)), x) == Scan(d, Some(quote))
  {
    if x != [] {
      InQuotes(d, quote, x[..|x| - 1]);
    }
  }

  lemma QuotedIsClosed(d: int, quote: char, x: string)
    requires quote in "'`" && quote !in x
    ensures Closed(d, [quote] + x + [quote]) && Quiet(d, [quote] + x + [quote])
  {
    var s := [quote] + x + [quote];
    InQuotes(d, quote, x);
    Delimited(At(d), quote, x, quote, |x|);
    forall i | 0 < i < |s| ensures After(At(d), s[..i]) == Scan(d, Some(quote)) {
      Delimited(At(d), quote, x, quote, i - 1);
      InQuotes(d, quote, x[..i - 1]);
    }
    assert s[..|s|] == s && s[..0] == "";
  }

  lemma GroupIsClosed(d: int, x: string)
    requires Closed(d + 1, x)
    ensures Closed(d, ['('] + x + [')']) && Quiet(d, ['('] + x + [')'])
  {
    var s := ['('] + x + [')'];
    Delimited(At(d), '(', x, ')', |x|);
    forall i | 0 < i < |s| ensures After(At(d), s[..i]).depth > d {
      Delimited(At(d), '(', x, ')', i - 1);
    }
    assert s[..|s|] == s && s[..0] == "";
  }

  lemma PlainIsClosed(d: int, c: char)
    requires c !in "'`()"
    ensures Closed(d, [c]) && (c != ',' ==> Quiet(d, [c]))
  {
    assert [c][..0] == "" && [c][..1] == [c];
    assert After(At(d), [c]) == Step(After(At(d), ""), c);
  }

  lemma {:induction false} PrintedIsClosed(t: Text, d: int)
    requires WellMade(t)
    ensures Closed(d, Printed(t)) && (Whole(t) ==> Quiet(d, Printed(t)))
  {
    hide Closed, Quiet, After;
    match t {
      case End =>
        NothingIsClosed(d);
      case Plain(c, rest) =>
        PlainIsClosed(d, c);
        PrintedIsClosed(rest, d);
        ClosedConcat(d, [c], Printed(rest));
      case Quoted(quote, inside, rest) =>
        QuotedIsClosed(d, quote, inside);
        PrintedIsClosed(rest, d);
        ClosedConcat(d, [quote] + inside + [quote], Printed(rest));
      case Group(body, rest) =>
        PrintedIsClosed(body, d + 1);
        GroupIsClosed(d, Printed(body));
        PrintedIsClosed(rest, d);
        ClosedConcat(d, ['('] + Printed(body) + [')'], Printed(rest));
    }
  }

  lemma NothingIsClosed(d: int)
    ensures Closed(d, "") && Quiet(d, "")
  {
  }

  // ---------------------------------------------------------------- reading a text back

  /** The rest of a closed text behind a front that is closed itself. */
  lemma RestIsClosed(d: int, a: string, b: string)
    requires Closed(d, a + b) && After(At(d), a) == At(d)
    ensures Closed(d, b) && (Quiet(d, a + b) ==> Quiet(d, b))
  {
    var s := a + b;
    AfterConcat(At(d), a, b);
    forall i | 0 <= i <= |b| ensures After(At(d), s[..|a| + i]) == After(At(d), b[..i]) {
      assert s[..|a| + i] == a + b[..i];
      AfterConcat(At(d), a, b[..i]);
    }
    forall i | 0 <= i <= |b| ensures After(At(d), b[..i]).depth >= d {
      assert After(At(d), s[..|a| + i]).depth >= d;
    }
    forall i: nat | i < |b| && b[i] == ',' && Quiet(d, s) ensures After(At(d), b[..i]) != At(d) {
      assert s[|a| + i] == ',';
    }
  }

  /** Where the quotes that were opened before `s` are closed. */
  lemma EndOfQuotes(d: int, quote: char, s: string) returns (k: nat)
    requires After(Scan(d, Some(quote)), s).quote.None?
    ensures k < |s| && s[k] == quote && quote !in s[..k]
  {
    if quote !in s {
      InQuotes(d, quote, s);
    }
    k := FirstOf(quote, s);
  }

  lemma {:induction false} FirstOf(c: char, s: string) returns (k: nat)
    requires c in s
    ensures k < |s| && s[k] == c && c !in s[..k]
  {
    var n := |s| - 1;
    if c in s[..n] {
      k := FirstOf(c, s[..n]);
      assert s[..n][..k] == s[..k];
    } else {
      assert s == s[..n] + [s[n]];
      k := n;
    }
  }

  /** How long the group is whose parenthesis was opened before `s`: up to the first return to the depth below it. */
  lemma {:induction false} EndOfGroup(d: int, s: string, n: nat) returns (k: nat)
    requires n <= |s| && After(At(d + 1), s[..n]).depth <= d
    ensures k < n && s[k] == ')' && Closed(d + 1, s[..k])
  {
    assert n > 0 by {
      assert s[..0] == "";
    }
    if m: nat :| m < n && After(At(d + 1), s[..m]).depth <= d {
      k := EndOfGroup(d, s, m);
    } else {
      k := n - 1;
      assert s[..n] == s[..k] + [s[k]];
      AfterSnoc(At(d + 1), s[..k], s[k]);
      forall i | 0 <= i <= k ensures After(At(d + 1), s[..k][..i]).depth >= d + 1 {
        assert s[..k][..i] == s[..i];
      }
    }
  }

  lemma FirstStep(d: int, s: string)
    requires s != "" && Closed(d, s)
    ensures After(Step(At(d), s[0]), s[1..]) == At(d) && s[0] != ')'
  {
    assert s == [s[0]] + s[1..];
    AfterConcat(At(d), [s[0]], s[1..]);
    assert [s[0]][..0] == "" && s[..1] == [s[0]];
    assert After(At(d), [s[0]]) == Step(At(d), s[0]);
  }

  lemma ClosedEnds(d: int, s: string)
    requires Closed(d, s)
    ensures After(At(d), s) == At(d)
  {
  }

  /** The text that a closed string is the print of. */
  lemma {:induction false} Read(d: int, s: string) returns (t: Text)
    requires Closed(d, s)
    ensures WellMade(t) && Printed(t) == s && (Quiet(d, s) ==> Whole(t))
    decreases |s|, 1
  {
    hide Closed, Quiet, After;
    if s == "" {
      return End;
    }
    var c, tail := s[0], s[1..];
    FirstStep(d, s);
    if c in "'`" {
      var k := EndOfQuotes(d, c, tail);
      QuotedIsClosed(d, c, tail[..k]);
      var rest := RestOf(d, s, [c] + tail[..k] + [c]);
      t := Quoted(c, tail[..k], rest);
    } else if c == '(' {
      assert tail[..|tail|] == tail;
      var k := EndOfGroup(d, tail, |tail|);
      GroupIsClosed(d, tail[..k]);
      var body := Read(d + 1, tail[..k]);
      var rest := RestOf(d, s, ['('] + tail[..k] + [')']);
      t := Group(body, rest);
    } else {
      PlainIsClosed(d, c);
      var rest := RestOf(d, s, [c]);
      if Quiet(d, s) {
        NoCommaFirst(d, s);
      }
      t := Plain(c, rest);
    }
  }

  /** What follows a closed front. */
  lemma {:induction false} RestOf(d: int, s: string, front: string) returns (t: Text)
    requires Closed(d, s) && Closed(d, front) && 0 < |front| <= |s| && s[..|front|] == front
    ensures WellMade(t) && s == front + Printed(t) && (Quiet(d, s) ==> Whole(t))
    decreases |s|, 0
  {
    hide Closed, Quiet, After;
    var rest := s[|front|..];
    assert s == front + rest;
    ClosedEnds(d, front);
    RestIsClosed(d, front, rest);
    t := Read(d, rest);
  }

  lemma NoCommaFirst(d: int, s: string)
    requires s != "" && Quiet(d, s)
    ensures s[0] != ','
  {
    assert s[..0] == "";
  }

  // ---------------------------------------------------------------- what the tool accepts

  ghost predicate IsText(s: string) { exists t :: WellMade(t) && Printed(t) == s }

  ghost predicate IsClause(s: string) { exists t :: WellMade(t) && Whole(t) && Printed(t) == s }

  lemma TextIffClosed(s: string)
    ensures IsText(s) <==> Closed(0, s)
  {
    hide Closed, Quiet;
    if Closed(0, s) {
      var t := Read(0, s);
    }
    forall t | WellMade(t) && Printed(t) == s ensures Closed(0, s) {
      PrintedIsClosed(t, 0);
    }
  }

  lemma ClauseIffIsClause(s: string)
    ensures Clause(s) <==> IsClause(s)
  {
    hide Closed, Quiet, Clause;
    ClosedIsBalanced(s);
    if Clause(s) {
      var t := Read(0, s);
    }
    forall t | WellMade(t) && Whole(t) && Printed(t) == s ensures Clause(s) {
      PrintedIsClosed(t, 0);
    }
  }

  /** The tool accepts exactly the texts of the grammar, and gives back the trimmed clauses between their commas. */
  lemma SplitReadsClauses(body: string, clauses: seq<string>)
    ensures Split(body).Success? <==> IsText(body)
    ensures Split(body) == Success(clauses) <==>
            exists p: Pieces :: Join(p) == body && clauses == StripAll(p.All())
                                && forall k :: 0 <= k < |p.All()| ==> IsClause(p.All()[k])
  {
    hide Clause, IsText, IsClause, Closed, Cut, Join, StripAll;
    TextIffClosed(body);
    ClosedIsBalanced(body);
    forall s ensures Clause(s) <==> IsClause(s) {
      ClauseIffIsClause(s);
    }
    AcceptedIffJoinedClauses(body);
    forall p: Pieces | Join(p) == body && forall k :: 0 <= k < |p.All()| ==> Clause(p.All()[k])
      ensures Split(body) == Success(StripAll(p.All()))
    {
      SplitUndoesJoin(p);
    }
  }

  /** Of the refused texts, those in which a text of the grammar is followed by one closing parenthesis too many. */
  lemma UnsupportedIff(body: string)
    ensures Split(body) == Failure(UnsupportedSyntax) <==>
            exists k: nat :: k < |body| && body[k] == ')' && IsText(body[..k])
  {
    hide IsText;
    if i :| 0 <= i <= |body| && After(START, body[..i]).depth < 0 {
      var k := EndOfGroup(-1, body, i);
      TextIffClosed(body[..k]);
    }
    forall k: nat | k < |body| && body[k] == ')' && IsText(body[..k]) ensures !NeverNegative(body) {
      TextIffClosed(body[..k]);
      AfterSnoc(START, body[..k], body[k]);
      assert body[..k + 1] == body[..k] + [body[k]];
    }
  }

  // ---------------------------------------------------------------- trimming

  /** The blanks of Python among the ASCII characters: tab to carriage return, the four separators, and space. */
  predicate IsPythonSpace(c: char) { c as int in {9, 10, 11, 12, 13, 28, 29, 30, 31, 32} }

  ghost predicate AllSpaces(s: string) { forall i :: 0 <= i < |s| ==> IsPythonSpace(s[i]) }

  /** A clause comes back without the blanks around it and otherwise as it stands. */
  lemma StripIff(s: string, t: string)
    ensures Strip(s) == t <==>
            && (t != "" ==> !IsPythonSpace(t[0]) && !IsPythonSpace(t[|t| - 1]))
            && exists a, b :: AllSpaces(a) && AllSpaces(b) && s == a + t + b
  {
    assert forall c :: IsSpace(c) <==> IsPythonSpace(c);
    hide IsPythonSpace, Clauses.IsSpace;
    TrimIff(s, t, Clauses.IsSpace);
    forall x ensures AllBlank(x, Clauses.IsSpace) <==> AllSpaces(x) {
    }
    hide AllBlank, AllSpaces;
  }
}
