/**
 What the order of the route table means for a request: it goes to an operation whose path has the fewest
 parameters of all that match, so that a path spelled out in full always wins.
*/
module OpenApiSpecificity {
  import opened Results
  import opened Splitting
  import opened OpenApiIndex

  /** Where the pieces are parameters, and where they are not empty. */
  function ParameterPositions(pieces: seq<string>): set<nat> {
    set k: nat | k < |pieces| && IsParam(pieces[k])
  }

  function FilledPositions(pieces: seq<string>): set<nat> {
    set k: nat | k < |pieces| && pieces[k] != ""
  }

  /** The number of parameters of a template. */
  function Parameters(template: string): nat { |ParameterPositions(Segments(template))| }

  lemma {:induction false} LiteralsConcat(a: seq<string>, b: seq<string>)
    ensures Literals(a + b) == Literals(a) + Literals(b)
  {
    hide IsParam;
    if a == [] {
      assert a + b == b;
    } else {
      LiteralsConcat(a[1..], b);
      assert (a + b)[1..] == a[1..] + b;
    }
  }

  lemma OneLiteral(piece: string)
    ensures Literals([piece]) == if piece != "" && !IsParam(piece) then 1 else 0
  {
    hide IsParam;
    assert [piece][1..] == [];
  }

  lemma OneMore(a: set<nat>, b: set<nat>, n: nat, more: bool)
    requires forall k :: k in a ==> k < n
    requires forall k :: k in b <==> k in a || (more && k == n)
    ensures |b| == |a| + if more then 1 else 0
  {
    assert b == if more then a + {n} else a;
  }

  lemma PositionsSnoc(pieces: seq<string>, piece: string)
    ensures |ParameterPositions(pieces + [piece])| == |ParameterPositions(pieces)| + if IsParam(piece) then 1 else 0
    ensures |FilledPositions(pieces + [piece])| == |FilledPositions(pieces)| + if piece != "" then 1 else 0
  {
    hide IsParam;
    var more := pieces + [piece];
    assert forall k: nat :: k < |pieces| ==> more[k] == pieces[k];
    OneMore(ParameterPositions(pieces), ParameterPositions(more), |pieces|, IsParam(piece));
    OneMore(FilledPositions(pieces), FilledPositions(more), |pieces|, piece != "");
  }

  /** Every piece that is not empty is spelled out or a parameter. */
  lemma {:induction false} PiecesAreCounted(pieces: seq<string>)
    ensures Literals(pieces) + |ParameterPositions(pieces)| == |FilledPositions(pieces)|
  {
    hide IsParam;
    if pieces != [] {
      var n := |pieces| - 1;
      PiecesAreCounted(pieces[..n]);
      assert pieces == pieces[..n] + [pieces[n]];
      LiteralsConcat(pieces[..n], [pieces[n]]);
      OneLiteral(pieces[n]);
      PositionsSnoc(pieces[..n], pieces[n]);
      NoEmptyParameter(pieces[n]);
    }
  }

  lemma NoEmptyParameter(piece: string)
    ensures IsParam(piece) ==> piece != ""
  {
  }

  // ---------------------------------------------------------------- the measure

  /** Pieces that can stand between slashes. */
  predicate IsTemplate(pieces: seq<string>) { pieces != [] && forall i :: 0 <= i < |pieces| ==> '/' !in pieces[i] }

  /** Spelling out one parameter of a template raises its specificity by one. */
  lemma LiteralRaises(pieces: seq<string>, k: nat, literal: string)
    requires IsTemplate(pieces) && k < |pieces| && IsParam(pieces[k])
    requires literal != "" && '/' !in literal && !IsParam(literal)
    ensures RouteSpecificity(Join(pieces[k := literal], '/')) == RouteSpecificity(Join(pieces, '/')) + 1
  {
    hide IsParam, Split, Join;
    SplitUndoesJoin(pieces, '/');
    SplitUndoesJoin(pieces[k := literal], '/');
    var front, back := pieces[..k], pieces[k + 1..];
    assert pieces == front + [pieces[k]] + back;
    assert pieces[k := literal] == front + [literal] + back;
    LiteralsConcat(front, [pieces[k]]);
    LiteralsConcat(front + [pieces[k]], back);
    LiteralsConcat(front, [literal]);
    LiteralsConcat(front + [literal], back);
    OneLiteral(pieces[k]);
    OneLiteral(literal);
  }

  lemma MatchFillsTheSame(template: seq<string>, parts: seq<string>)
    requires AllMatch(template, parts)
    ensures FilledPositions(template) == FilledPositions(parts)
  {
    hide IsParam;
    forall k | 0 <= k < |parts| ensures template[k] == "" <==> parts[k] == "" {
      assert SegmentMatches(template[k], parts[k]);
      NoEmptyParameter(template[k]);
    }
  }

  /** One more slash at the end adds an empty piece. */
  lemma TrailingSlash(pathname: string)
    requires pathname != "" && pathname[|pathname| - 1] == '/'
    ensures |FilledPositions(Segments(pathname))| == |FilledPositions(Segments(pathname[..|pathname| - 1]))|
  {
    hide IsParam;
    var shorter := pathname[..|pathname| - 1];
    assert pathname == shorter + ['/'] + "";
    SplitConcat(shorter, "", '/');
    assert Segments(pathname) == Segments(shorter) + [""];
    PositionsSnoc(Segments(shorter), "");
  }

  /** Of a template that matches a path, specificity and parameters add up to the path's pieces that are not empty. */
  lemma MatchIsMeasured(template: string, pathname: string)
    requires PathMatches(template, pathname)
    ensures RouteSpecificity(template) + Parameters(template) == |FilledPositions(Segments(pathname))|
  {
    hide IsParam, Split;
    PiecesAreCounted(Segments(template));
    if AllMatch(Segments(template), Segments(pathname)) {
      MatchFillsTheSame(Segments(template), Segments(pathname));
    } else {
      MatchFillsTheSame(Segments(template), Segments(pathname[..|pathname| - 1]));
      TrailingSlash(pathname);
    }
  }

  // ---------------------------------------------------------------- what a request gets

  /**
   For every description, a request resolves to the scope of an operation that answers it with the fewest
   parameters in its path, and to nothing exactly when no scoped operation answers.
  */
  lemma ResolvedHasFewestParameters(spec: Spec, method_: string, pathname: string)
    ensures var r := Resolved(TableOf(spec), method_, pathname);
            && (r.None? <==> forall item, op :: !Answers(spec, item, op, method_, pathname))
            && (r.Some? ==> exists item, op ::
                  && Answers(spec, item, op, method_, pathname) && r.value == NormalizeScope(op.rawScope)
                  && forall item', op' :: Answers(spec, item', op', method_, pathname) ==>
                       Parameters(item.path) <= Parameters(item'.path))
  {
    hide Segments, IsParam, Resolved, TableOf, RouteSpecificity, Parameters, FilledPositions, NormalizeScope, PathMatches;
    ResolvedIsTheMostSpecific(spec, method_, pathname);
    var r := Resolved(TableOf(spec), method_, pathname);
    if r.Some? {
      var item, op :| Answers(spec, item, op, method_, pathname) && r.value == NormalizeScope(op.rawScope)
                      && forall item', op' :: Answers(spec, item', op', method_, pathname) ==>
                           RouteSpecificity(item'.path) <= RouteSpecificity(item.path);
      MatchIsMeasured(item.path, pathname);
      forall item', op' | Answers(spec, item', op', method_, pathname)
        ensures Parameters(item.path) <= Parameters(item'.path)
      {
        MatchIsMeasured(item'.path, pathname);
      }
    }
  }

  /** A path spelled out in full wins over every template: the request resolves to an operation without parameters. */
  lemma SpelledOutPathWins(spec: Spec, method_: string, pathname: string, plain: PathItem, op: Operation)
    requires Answers(spec, plain, op, method_, pathname)
    requires forall k :: 0 <= k < |Segments(plain.path)| ==> !IsParam(Segments(plain.path)[k])
    ensures exists item, op' ::
              && Answers(spec, item, op', method_, pathname)
              && Resolved(TableOf(spec), method_, pathname) == Some(NormalizeScope(op'.rawScope))
              && forall k :: 0 <= k < |Segments(item.path)| ==> !IsParam(Segments(item.path)[k])
  {
    hide Segments, IsParam, Resolved, TableOf, NormalizeScope, PathMatches;
    ResolvedHasFewestParameters(spec, method_, pathname);
    var r := Resolved(TableOf(spec), method_, pathname);
    assert ParameterPositions(Segments(plain.path)) == {};
    var item, op' :| Answers(spec, item, op', method_, pathname) && r.value == NormalizeScope(op'.rawScope)
                     && forall item'', op'' :: Answers(spec, item'', op'', method_, pathname) ==>
                          Parameters(item.path) <= Parameters(item''.path);
    assert Parameters(item.path) == 0;
    assert ParameterPositions(Segments(item.path)) == {};
    forall k: nat | k < |Segments(item.path)| ensures !IsParam(Segments(item.path)[k]) {
      assert k !in ParameterPositions(Segments(item.path));
    }
  }
}
