/**
 The clause scanner of the schema migration tool: it cuts the body of a CREATE TABLE
 statement at the commas that are neither quoted nor inside parentheses.
*/
module Clauses {
  import opened Results
  import opened Texts

  datatype SplitError = UnsupportedSyntax | UnbalancedDefinition

  /** What the scanner remembers between two characters. */
  datatype Scan = Scan(depth: int, quote: Option<char>)

  const START := Scan(0, None)

  function Step(s: Scan, c: char): Scan {
    if s.quote.Some? then
      if c == s.quote.value then s.(quote := None) else s
    else if c == '\'' || c == '`' then s.(quote := Some(c))
    else if c == '(' then s.(depth := s.depth + 1)
    else if c == ')' then s.(depth := s.depth - 1)
    else s
  }

  /** The scanner's memory after reading all of `text`. */
  function After(s: Scan, text: string): Scan {
    if text == [] then s else Step(After(s, text[..|text| - 1]), text[|text| - 1])
  }

  /** No closing parenthesis comes before its opening one. */
  predicate NeverNegative(text: string) {
    forall i :: 0 <= i <= |text| ==> After(START, text[..i]).depth >= 0
  }

  predicate Balanced(text: string) {
    NeverNegative(text) && After(START, text) == START
  }

  /** Position `i` holds a comma at depth zero and outside quotes. */
  predicate IsCut(text: string, i: nat) {
    i < |text| && text[i] == ',' && After(START, text[..i]) == START
  }

  predicate NoCut(text: string) {
    forall i: nat :: i < |text| ==> !IsCut(text, i)
  }

  /** A clause can be printed between commas: balanced, and nothing in it separates. */
  predicate Clause(text: string) {
    Balanced(text) && NoCut(text)
  }

  /** A text cut so far: the finished pieces and the piece still being read. */
  datatype Pieces = Pieces(done: seq<string>, open: string) {
    function All(): seq<string> { done + [open] }
  }

  /** `text` cut at its separating commas, before trimming. */
  function Cut(text: string): Pieces {
    if text == [] then Pieces([], "")
    else
      var n := |text| - 1;
      var p := Cut(text[..n]);
      if IsCut(text, n) then Pieces(p.done + [p.open], "") else Pieces(p.done, p.open + [text[n]])
  }

  /** Each finished piece followed by its comma. */
  function WithCommas(done: seq<string>): string {
    if done == [] then "" else WithCommas(done[..|done| - 1]) + done[|done| - 1] + ","
  }

  function Join(p: Pieces): string { WithCommas(p.done) + p.open }

  // ---------------------------------------------------------------- trimming

  predicate IsSpace(c: char) {
    c == ' ' || ('\t' <= c <= '\r') || ('\U{1c}' <= c <= '\U{1f}')
  }

  function Strip(s: string): string { TrimBy(s, IsSpace) }

  function StripAll(pieces: seq<string>): (stripped: seq<string>)
    ensures |stripped| == |pieces|
    ensures forall k :: 0 <= k < |pieces| ==> stripped[k] == Strip(pieces[k])
  {
    if pieces == [] then []
    else StripAll(pieces[..|pieces| - 1]) + [Strip(pieces[|pieces| - 1])]
  }

  predicate Trimmed(s: string) {
    s != [] ==> !IsSpace(s[0]) && !IsSpace(s[|s| - 1])
  }

  // ---------------------------------------------------------------- the scanner

  /** What the scanner must return. */
  function Split(body: string): Result<seq<string>, SplitError> {
    if !NeverNegative(body) then Failure(UnsupportedSyntax)
    else if After(START, body) != START then Failure(UnbalancedDefinition)
    else Success(StripAll(Cut(body).All()))
  }

  lemma AfterSnoc(s: Scan, text: string, c: char)
    ensures After(s, text + [c]) == Step(After(s, text), c)
  {
    assert (text + [c])[..|text|] == text;
  }

  lemma CutSnoc(text: string, c: char)
    ensures var p := Cut(text);
            Cut(text + [c]) ==
              if c == ',' && After(START, text) == START then Pieces(p.done + [p.open], "")
              else Pieces(p.done, p.open + [c])
  {
    assert (text + [c])[..|text|] == text;
  }

  lemma NeverNegativeSnoc(text: string, c: char)
    requires NeverNegative(text)
    ensures NeverNegative(text + [c]) <==> After(START, text + [c]).depth >= 0
  {
    var longer := text + [c];
    assert longer[..|longer|] == longer;
    forall i | 0 <= i <= |text| && After(START, longer).depth >= 0
      ensures After(START, longer[..i]).depth >= 0
    {
      assert longer[..i] == text[..i];
    }
  }

  lemma NeverNegativePrefix(text: string, n: nat)
    requires n <= |text|
    ensures NeverNegative(text) ==> NeverNegative(text[..n])
  {
    assert forall i :: 0 <= i <= n ==> text[..n][..i] == text[..i];
  }

  lemma NothingScanned()
    ensures After(START, "") == START && NeverNegative("") && Cut("") == Pieces([], "") && StripAll([]) == []
  {}

  lemma StripAllSnoc(done: seq<string>, open: string)
    ensures StripAll(done + [open]) == StripAll(done) + [Strip(open)]
  {
    assert (done + [open])[..|done|] == done;
  }

  method SplitDefinitions(body: string) returns (r: Result<seq<string>, SplitError>)
    ensures r == Split(body)
  {
    hide After, Cut, NeverNegative, StripAll, Strip;
    NothingScanned();
    var parts: seq<string> := [];
    var start, depth := 0, 0;
    var quote: Option<char> := None;
    var pos := 0;
    while pos < |body|
      invariant 0 <= start <= pos <= |body|
      invariant Scan(depth, quote) == After(START, body[..pos])
      invariant NeverNegative(body[..pos])
      invariant parts == StripAll(Cut(body[..pos]).done) && body[start..pos] == Cut(body[..pos]).open
    {
      var c := body[pos];
      ghost var done, open := Cut(body[..pos]).done, Cut(body[..pos]).open;
      assert body[..pos + 1] == body[..pos] + [c];
      AfterSnoc(START, body[..pos], c);
      CutSnoc(body[..pos], c);
      NeverNegativeSnoc(body[..pos], c);
      if quote.Some? {
        if c == quote.value {
          quote := None;
        }
      } else if c == '\'' || c == '`' {
        quote := Some(c);
      } else if c == '(' {
        depth := depth + 1;
      } else if c == ')' {
        depth := depth - 1;
      } else if c == ',' && depth == 0 {
        StripAllSnoc(done, open);
        parts := parts + [Strip(body[start..pos])];
        start := pos + 1;
      }
      if depth < 0 {
        NeverNegativePrefix(body, pos + 1);
        return Failure(UnsupportedSyntax);
      }
      pos := pos + 1;
    }
    assert body[..pos] == body;
    if quote.Some? || depth != 0 {
      return Failure(UnbalancedDefinition);
    }
    StripAllSnoc(Cut(body).done, Cut(body).open);
    return Success(parts + [Strip(body[start..])]);
  }

  // ---------------------------------------------------------------- nothing is lost

  /** The pieces, joined again by commas, are the text: nothing is lost or reordered. */
  lemma {:induction false} PiecesRejoin(text: string)
    ensures Join(Cut(text)) == text
  {
    if text != [] {
      var n := |text| - 1;
      var p := Cut(text[..n]);
      PiecesRejoin(text[..n]);
      assert text == text[..n] + [text[n]];
      assert (p.done + [p.open])[..|p.done|] == p.done;
    }
  }

  /** Where the comma after piece `k` stands in the joined text. */
  function EndOf(done: seq<string>, k: nat): int
    requires k < |done|
  {
    |WithCommas(done[..k + 1])| - 1
  }

  lemma {:induction false} EndsWithin(done: seq<string>, k: nat)
    requires k < |done|
    ensures EndOf(done, k) < |WithCommas(done)|
  {
    if k < |done| - 1 {
      EndsWithin(done[..|done| - 1], k);
      assert done[..|done| - 1][..k + 1] == done[..k + 1];
    } else {
      assert done[..k + 1] == done;
    }
  }

  /** The text is cut at a position exactly when a depth-zero unquoted comma stands there. */
  lemma {:induction false} CutsAreTheSeparators(text: string, i: nat)
    ensures IsCut(text, i) <==>
            exists k: nat :: k < |Cut(text).done| && EndOf(Cut(text).done, k) == i
  {
    if text != [] {
      var n := |text| - 1;
      var p, q := Cut(text[..n]), Cut(text);
      CutsAreTheSeparators(text[..n], i);
      PiecesRejoin(text[..n]);
      assert i < n ==> text[..n][..i] == text[..i];
      forall k: nat | k < |p.done|
        ensures EndOf(q.done, k) == EndOf(p.done, k) < n
      {
        EndsWithin(p.done, k);
        assert q.done[..k + 1] == p.done[..k + 1];
      }
      if IsCut(text, n) {
        assert q.done[..|p.done|] == p.done && q.done[..|p.done| + 1] == q.done;
        assert EndOf(q.done, |p.done|) == n;
      }
    }
  }

  // ---------------------------------------------------------------- round trip

  lemma {:induction false} AfterConcat(s: Scan, a: string, b: string)
    ensures After(s, a + b) == After(After(s, a), b)
  {
    if b == [] {
      assert a + b == a;
    } else {
      var n := |b| - 1;
      AfterConcat(s, a, b[..n]);
      assert a + b == (a + b[..n]) + [b[n]];
      AfterSnoc(s, a + b[..n], b[n]);
    }
  }

  lemma AfterComma(a: string, b: string)
    requires After(START, a) == START
    ensures After(START, a + "," + b) == After(START, b)
  {
    AfterSnoc(START, a, ',');
    AfterConcat(START, a + ",", b);
  }

  lemma {:induction false} CutConcat(a: string, b: string)
    requires After(START, a) == START
    ensures Cut(a + "," + b) == Pieces(Cut(a).All() + Cut(b).done, Cut(b).open)
  {
    if b == [] {
      assert a + "," + b == a + [','];
      CutSnoc(a, ',');
    } else {
      var m := |b| - 1;
      var front := a + "," + b[..m];
      CutConcat(a, b[..m]);
      AfterComma(a, b[..m]);
      assert a + "," + b == front + [b[m]];
      CutSnoc(front, b[m]);
      assert b == b[..m] + [b[m]];
      CutSnoc(b[..m], b[m]);
    }
  }

  lemma {:induction false} ClauseIsOnePiece(text: string, n: nat)
    requires n <= |text| && NoCut(text)
    ensures Cut(text[..n]) == Pieces([], text[..n])
  {
    if n > 0 {
      ClauseIsOnePiece(text, n - 1);
      assert text[..n] == text[..n - 1] + [text[n - 1]];
      assert !IsCut(text, n - 1);
      CutSnoc(text[..n - 1], text[n - 1]);
    }
  }

  lemma NeverNegativeConcat(a: string, b: string)
    requires Balanced(a) && NeverNegative(b)
    ensures NeverNegative(a + "," + b)
  {
    var whole := a + "," + b;
    forall i | 0 <= i <= |whole|
      ensures After(START, whole[..i]).depth >= 0
    {
      if i <= |a| {
        assert whole[..i] == a[..i];
      } else {
        AfterComma(a, b[..i - |a| - 1]);
        assert whole[..i] == a + "," + b[..i - |a| - 1];
      }
    }
  }

  /** One more clause behind a comma. */
  lemma ClauseBehind(front: string, p: Pieces, open: string)
    requires Balanced(front) && Cut(front) == p && Clause(open)
    ensures Balanced(front + "," + open) && Cut(front + "," + open) == Pieces(p.All(), open)
  {
    hide Cut, After, NeverNegative, NoCut;
    ClauseIsOnePiece(open, |open|);
    assert open[..|open|] == open;
    NeverNegativeConcat(front, open);
    AfterComma(front, open);
    CutConcat(front, open);
  }

  lemma {:induction false} JoinedClauses(done: seq<string>, open: string)
    requires Clause(open) && forall k :: 0 <= k < |done| ==> Clause(done[k])
    ensures Balanced(Join(Pieces(done, open))) && Cut(Join(Pieces(done, open))) == Pieces(done, open)
  {
    if done == [] {
      ClauseIsOnePiece(open, |open|);
      assert Join(Pieces(done, open)) == open == open[..|open|];
    } else {
      hide Cut, Balanced, NoCut;
      var n := |done| - 1;
      var front := Join(Pieces(done[..n], done[n]));
      JoinedClauses(done[..n], done[n]);
      assert Join(Pieces(done, open)) == front + "," + open;
      ClauseBehind(front, Pieces(done[..n], done[n]), open);
    }
  }

  /** Splitting undoes printing: every list of clauses comes back, each without its padding. */
  lemma SplitUndoesJoin(p: Pieces)
    requires forall k :: 0 <= k < |p.All()| ==> Clause(p.All()[k])
    ensures Split(Join(p)) == Success(StripAll(p.All()))
    ensures (forall k :: 0 <= k < |p.All()| ==> Trimmed(p.All()[k])) ==> StripAll(p.All()) == p.All()
  {
    assert p.All()[|p.done|] == p.open;
    assert forall k :: 0 <= k < |p.done| ==> p.All()[k] == p.done[k];
    JoinedClauses(p.done, p.open);
  }

  lemma OpenPieceGrows(open: string, c: char)
    requires NeverNegative(open) && NoCut(open)
    requires After(START, open + [c]).depth >= 0
    requires c == ',' ==> After(START, open) != START
    ensures NeverNegative(open + [c]) && NoCut(open + [c])
  {
    NeverNegativeSnoc(open, c);
    var longer := open + [c];
    forall i: nat | i < |longer|
      ensures !IsCut(longer, i)
    {
      assert longer[..i] == open[..i];
      assert open[..|open|] == open;
      assert i < |open| ==> !IsCut(open, i);
    }
  }

  /** A finished piece is a clause; the open one scans like the end of the text. */
  lemma {:induction false} CutMakesClauses(text: string)
    requires NeverNegative(text)
    ensures forall k :: 0 <= k < |Cut(text).done| ==> Clause(Cut(text).done[k])
    ensures NeverNegative(Cut(text).open) && NoCut(Cut(text).open)
    ensures After(START, Cut(text).open) == After(START, text)
  {
    if text != [] {
      var n := |text| - 1;
      NeverNegativePrefix(text, n);
      CutMakesClauses(text[..n]);
      var open, c := Cut(text[..n]).open, text[n];
      AfterSnoc(START, open, c);
      assert text[..|text|] == text;
      if !IsCut(text, n) {
        OpenPieceGrows(open, c);
      }
    }
  }

  /** Both directions of acceptance: exactly the comma-joined lists of clauses are accepted. */
  lemma AcceptedIffJoinedClauses(body: string)
    ensures Split(body).Success? <==>
            exists p: Pieces :: Join(p) == body && forall k :: 0 <= k < |p.All()| ==> Clause(p.All()[k])
  {
    if Split(body).Success? {
      var p := Cut(body);
      PiecesRejoin(body);
      CutMakesClauses(body);
      assert Clause(p.open);
      assert forall k :: 0 <= k < |p.All()| ==> Clause(p.All()[k]);
    }
    forall p: Pieces | Join(p) == body && forall k :: 0 <= k < |p.All()| ==> Clause(p.All()[k])
      ensures Split(body).Success?
    {
      SplitUndoesJoin(p);
    }
  }
}
