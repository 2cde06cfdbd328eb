/** What a template's pieces and a generated operation id look like, and when two operations get the same id. */
module OpenApiNames {
  import opened Results
  import opened SortedStrings
  import opened Splitting
  import opened Texts
  import opened OpenApiIndex
  import opened OpenApiSpecificity

  // ---------------------------------------------------------------- templates

  ghost predicate Braced(segment: string) {
    exists name: string :: segment == "{" + name + "}" && name != "" && '{' !in name && '}' !in name
  }

  lemma ParameterIffBraced(segment: string)
    ensures IsParam(segment) <==> Braced(segment)
  {
    if IsParam(segment) {
      var name := segment[1..|segment| - 1];
      assert segment == "{" + name + "}";
      assert forall i :: 0 <= i < |name| ==> name[i] == segment[i + 1];
    }
    forall name: string | segment == "{" + name + "}" && name != "" && '{' !in name && '}' !in name
      ensures IsParam(segment)
    {
      assert forall i :: 0 < i < |segment| - 1 ==> segment[i] == name[i - 1];
    }
  }

  /** A braced piece stands for any text without a slash, every other one for itself. */
  ghost predicate Spells(pieces: seq<string>, parts: seq<string>) {
    && |pieces| == |parts|
    && forall i :: 0 <= i < |parts| ==>
         if Braced(pieces[i]) then parts[i] != "" && '/' !in parts[i] else parts[i] == pieces[i]
  }

  /** A path matches a template exactly when it spells its pieces, perhaps with a slash after them. */
  lemma MatchesIffSpelled(pieces: seq<string>, pathname: string)
    requires IsTemplate(pieces)
    ensures PathMatches(Join(pieces, '/'), pathname) <==>
            exists parts: seq<string> ::
              parts != [] && Spells(pieces, parts) && (pathname == Join(parts, '/') || pathname == Join(parts, '/') + "/")
  {
    hide IsParam, Split, Join, PathMatches, Braced;
    MatchingIsFilling(Join(pieces, '/'), pathname);
    SplitUndoesJoin(pieces, '/');
    forall parts: seq<string> | parts != []
      ensures Fills(Join(pieces, '/'), parts) <==> Spells(pieces, parts)
    {
      forall i | 0 <= i < |pieces| ensures IsParam(pieces[i]) <==> Braced(pieces[i]) {
        ParameterIffBraced(pieces[i]);
      }
      assert Fills(Join(pieces, '/'), parts) <==> AllMatch(pieces, parts) && forall part :: part in parts ==> '/' !in part;
      if AllMatch(pieces, parts) && forall part :: part in parts ==> '/' !in part {
        forall i | 0 <= i < |parts|
          ensures if Braced(pieces[i]) then parts[i] != "" && '/' !in parts[i] else parts[i] == pieces[i]
        {
          assert SegmentMatches(pieces[i], parts[i]);
          assert parts[i] in parts;
        }
      }
      if Spells(pieces, parts) {
        assert forall i :: 0 <= i < |parts| ==> SegmentMatches(pieces[i], parts[i]) && '/' !in parts[i];
      }
    }
  }

  // ---------------------------------------------------------------- generated ids

  /** The letters and digits of ASCII by their codes. */
  lemma AlphanumericIff(c: char)
    ensures IsAlphanumeric(c) <==> var n := c as int; 48 <= n < 58 || 65 <= n < 91 || 97 <= n < 123
  {
  }

  predicate IsRun(r: string) { r != "" && forall i :: 0 <= i < |r| ==> IsAlphanumeric(r[i]) }

  /** The stretches of letters and digits, as long as they go. */
  function Runs(s: string): (runs: seq<string>)
    ensures s != "" && IsAlphanumeric(s[0]) ==> runs != []
    ensures forall i :: 0 <= i < |runs| ==> IsRun(runs[i])
  {
    if s == "" then []
    else if !IsAlphanumeric(s[0]) then Runs(s[1..])
    else if |s| > 1 && IsAlphanumeric(s[1]) then [[s[0]] + Runs(s[1..])[0]] + Runs(s[1..])[1..]
    else [[s[0]]] + Runs(s[1..])
  }

  function Joined(runs: seq<string>): string { if runs == [] then "" else Join(runs, '_') }

  /** What replacing and squeezing leave: the runs with one underscore between them, and one where the text begins or ends otherwise. */
  function Framed(s: string): string {
    if s == "" then "" else if Runs(s) == [] then "_"
    else (if IsAlphanumeric(s[0]) then "" else "_") + Join(Runs(s), '_') + (if IsAlphanumeric(s[|s| - 1]) then "" else "_")
  }

  lemma UnderscoredTail(s: string)
    requires s != ""
    ensures Underscored(s)[1..] == Underscored(s[1..])
  {
  }

  lemma LongerRun(c: char, runs: seq<string>)
    requires runs != []
    ensures Join([[c] + runs[0]] + runs[1..], '_') == [c] + Join(runs, '_')
  {
    assert ([[c] + runs[0]] + runs[1..])[1..] == runs[1..];
  }

  lemma OneMoreRun(run: string, runs: seq<string>)
    requires runs != []
    ensures Join([run] + runs, '_') == run + "_" + Join(runs, '_')
  {
    assert ([run] + runs)[1..] == runs;
  }

  lemma {:induction false} SqueezedIsFramed(s: string)
    ensures Squeezed(Underscored(s)) == Framed(s)
  {
    hide IsAlphanumeric, Join;
    if |s| > 1 {
      var tail := s[1..];
      SqueezedIsFramed(tail);
      UnderscoredTail(s);
      AlphanumericIff('_');
      if IsAlphanumeric(s[0]) {
        assert Squeezed(Underscored(s)) == [s[0]] + Framed(tail);
        if IsAlphanumeric(s[1]) {
          LongerRun(s[0], Runs(tail));
        } else if Runs(tail) == [] {
          RunsOfEnd(s);
        } else {
          OneMoreRun([s[0]], Runs(tail));
        }
      }
    } else if |s| == 1 {
      RunsOfEnd(s);
    }
  }

  lemma RunsOfEnd(s: string)
    requires s != "" && Runs(s[1..]) == []
    ensures Runs(s) == if IsAlphanumeric(s[0]) then [[s[0]]] else []
    ensures IsAlphanumeric(s[0]) ==> Join(Runs(s), '_') == [s[0]]
    ensures |s| > 1 ==> !IsAlphanumeric(s[|s| - 1])
  {
    LastIsInRun(s[1..]);
  }

  lemma {:induction false} LastIsInRun(s: string)
    ensures s != "" && Runs(s) == [] ==> !IsAlphanumeric(s[|s| - 1])
  {
    if |s| > 1 {
      LastIsInRun(s[1..]);
    }
  }

  lemma UnderscoredConcat(a: string, b: string)
    requires forall i :: 0 <= i < |a| ==> IsAlphanumeric(a[i])
    ensures Underscored(a + "_" + b) == a + "_" + Underscored(b)
  {
  }

  lemma Unframed(s: string)
    ensures var framed := Framed(s);
            var front := if framed != "" && framed[0] == '_' then framed[1..] else framed;
            Joined(Runs(s)) == if front != "" && front[|front| - 1] == '_' then front[..|front| - 1] else front
  {
    hide IsAlphanumeric, Join;
    if s != "" && Runs(s) != [] {
      JoinedEnds(Runs(s));
      AlphanumericIff('_');
      var joined, lead := Join(Runs(s), '_'), if IsAlphanumeric(s[0]) then "" else "_";
      assert Framed(s)[|lead|..] == joined + (if IsAlphanumeric(s[|s| - 1]) then "" else "_");
      assert (joined + "_")[..|joined|] == joined;
    }
  }

  lemma {:induction false} JoinedEnds(runs: seq<string>)
    requires runs != [] && forall i :: 0 <= i < |runs| ==> IsRun(runs[i])
    ensures var joined := Join(runs, '_');
            joined != "" && IsAlphanumeric(joined[0]) && IsAlphanumeric(joined[|joined| - 1])
  {
    hide IsAlphanumeric;
    assert IsRun(runs[0]);
    if |runs| > 1 {
      JoinedEnds(runs[1..]);
    }
  }

  /** A generated id is the lower-case runs of letters and digits in method and path, with one underscore between them. */
  lemma IdIsTheRuns(method_: string, path: string)
    requires forall i :: 0 <= i < |method_| ==> IsAlphanumeric(method_[i])
    ensures MakeOperationId(method_, path) == Lower(Joined(Runs(method_ + "_" + path)))
  {
    hide IsAlphanumeric, Framed, Join, Lower, Underscored, Squeezed, Runs;
    UnderscoredConcat(method_, path);
    SqueezedIsFramed(method_ + "_" + path);
    Unframed(method_ + "_" + path);
  }

  function LowerAll(runs: seq<string>): (r: seq<string>)
    ensures |r| == |runs| && forall i :: 0 <= i < |r| ==> r[i] == Lower(runs[i])
  {
    seq(|runs|, i requires 0 <= i < |runs| => Lower(runs[i]))
  }

  lemma {:induction false} LowerJoined(runs: seq<string>)
    requires runs != []
    ensures Lower(Join(runs, '_')) == Join(LowerAll(runs), '_')
  {
    if |runs| > 1 {
      LowerJoined(runs[1..]);
      assert LowerAll(runs)[1..] == LowerAll(runs[1..]);
      assert Lower(runs[0] + ['_'] + Join(runs[1..], '_')) == Lower(runs[0]) + ['_'] + Lower(Join(runs[1..], '_'));
    }
  }

  lemma RunsComeBack(runs: seq<string>)
    requires runs != [] && forall i :: 0 <= i < |runs| ==> IsRun(runs[i])
    ensures Split(Lower(Joined(runs)), '_') == LowerAll(runs) && Lower(Joined(runs)) == Join(LowerAll(runs), '_') != ""
  {
    LowerJoined(runs);
    forall i | 0 <= i < |runs| ensures '_' !in LowerAll(runs)[i] {
      assert IsRun(runs[i]);
    }
    SplitUndoesJoin(LowerAll(runs), '_');
    JoinedEnds(runs);
  }

  /** Two operations without ids get the same one exactly when their runs agree but for case: `/a/{b}` and `/a-b` do. */
  lemma SameIdIffSameRuns(method_: string, path: string, method': string, path': string)
    requires forall i :: 0 <= i < |method_| ==> IsAlphanumeric(method_[i])
    requires forall i :: 0 <= i < |method'| ==> IsAlphanumeric(method'[i])
    ensures MakeOperationId(method_, path) == MakeOperationId(method', path') <==>
            LowerAll(Runs(method_ + "_" + path)) == LowerAll(Runs(method' + "_" + path'))
  {
    hide IsAlphanumeric, IsRun, MakeOperationId, Split, Join, Lower;
    var a, b := Runs(method_ + "_" + path), Runs(method' + "_" + path');
    IdIsTheRuns(method_, path);
    IdIsTheRuns(method', path');
    if a != [] {
      RunsComeBack(a);
    }
    if b != [] {
      RunsComeBack(b);
    }
    LowerOfNothing();
  }

  lemma LowerOfNothing()
    ensures Lower("") == ""
  {
  }

  /** The route of an operation, field by field; a generated id only stands in for a missing one. */
  predicate IsRouteOf(path: string, op: Operation, r: Route) {
    && Lower(op.method_) in ["get", "post", "put", "patch", "delete", "head", "options"] && |op.rawScope| > 0
    && r.method_ == Lower(op.method_) && r.path == path
    && (|op.operationId| > 0 ==> r.operationId == op.operationId)
    && (op.operationId == "" ==> r.operationId == Lower(Joined(Runs(r.method_ + "_" + path))))
    && Elements(Words(r.scope)) == Elements(Words(op.rawScope)) && r.scope == NormalizeScope(r.scope)
  }

  lemma RouteIs(path: string, op: Operation, r: Route)
    ensures RouteOf(path, op) == Some(r) <==> IsRouteOf(path, op, r)
  {
    hide MakeOperationId, Runs, NormalizeScope, Lower, IsAlphanumeric;
    NormalFormIsCanonical(r.scope, op.rawScope);
    NormalFormIsCanonical(op.rawScope, r.scope);
    if Lower(op.method_) in VALID_METHODS {
      MethodsAreLetters(Lower(op.method_));
      IdIsTheRuns(Lower(op.method_), path);
    }
  }

  /** The routes of a description are those of its operations with a known method and a scope. */
  lemma RoutesAre(items: seq<PathItem>, r: Route)
    ensures r in RoutesOf(items) <==>
            exists item, op :: item in items && op in item.operations && IsRouteOf(item.path, op, r)
  {
    hide RoutesOf, RouteOf, IsRouteOf;
    RoutesAreScopedOperations(items, r);
    forall item, op | item in items && op in item.operations
      ensures RouteOf(item.path, op) == Some(r) <==> IsRouteOf(item.path, op, r)
    {
      RouteIs(item.path, op, r);
    }
  }

  lemma MethodsAreLetters(method_: string)
    requires method_ in VALID_METHODS
    ensures forall i :: 0 <= i < |method_| ==> IsAlphanumeric(method_[i])
  {
  }
}
