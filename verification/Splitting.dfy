/** Cutting a sequence at every separator, and putting it together again. */
module Splitting {

  /** The pieces between separators; there is always one more piece than there are separators. */
  function Split<T(==)>(s: seq<T>, sep: T): (pieces: seq<seq<T>>)
    ensures pieces != []
  {
    if s == [] then [[]] else AddItem(s[0], Split(s[1..], sep), sep)
  }

  /** The pieces after one more item in front. */
  function AddItem<T(==)>(x: T, pieces: seq<seq<T>>, sep: T): (r: seq<seq<T>>)
    requires pieces != []
    ensures r != []
  {
    if x == sep then [[]] + pieces else [[x] + pieces[0]] + pieces[1..]
  }

  function Join<T>(pieces: seq<seq<T>>, sep: T): seq<T>
    requires pieces != []
  {
    if |pieces| == 1 then pieces[0] else pieces[0] + [sep] + Join(pieces[1..], sep)
  }

  lemma AddItemInFront<T>(x: T, a: seq<seq<T>>, later: seq<seq<T>>, sep: T)
    requires a != []
    ensures AddItem(x, a + later, sep) == AddItem(x, a, sep) + later
  {
    assert (a + later)[1..] == a[1..] + later;
  }

  lemma {:induction false} SplitConcat<T>(a: seq<T>, b: seq<T>, sep: T)
    ensures Split(a + [sep] + b, sep) == Split(a, sep) + Split(b, sep)
  {
    if a == [] {
      assert (a + [sep] + b)[1..] == b;
    } else {
      SplitConcat(a[1..], b, sep);
      assert (a + [sep] + b)[1..] == a[1..] + [sep] + b;
      AddItemInFront(a[0], Split(a[1..], sep), Split(b, sep), sep);
    }
  }

  lemma {:induction false} OnePiece<T>(s: seq<T>, sep: T)
    requires sep !in s
    ensures Split(s, sep) == [s]
  {
    if s != [] {
      OnePiece(s[1..], sep);
      assert [s[0]] + s[1..] == s;
    }
  }

  lemma {:induction false} PiecesHoldNoSeparator<T>(s: seq<T>, sep: T)
    ensures forall piece :: piece in Split(s, sep) ==> sep !in piece
  {
    if s != [] {
      PiecesHoldNoSeparator(s[1..], sep);
    }
  }

  lemma {:induction false} JoinUndoesSplit<T>(s: seq<T>, sep: T)
    ensures Join(Split(s, sep), sep) == s
  {
    if s != [] {
      JoinUndoesSplit(s[1..], sep);
      var rest := Split(s[1..], sep);
      assert [s[0]] + s[1..] == s;
      if s[0] == sep {
        assert ([[]] + rest)[1..] == rest;
        assert Join([[]] + rest, sep) == [] + [sep] + Join(rest, sep);
      } else {
        assert ([[s[0]] + rest[0]] + rest[1..])[1..] == rest[1..];
      }
    }
  }

  /** Pieces without separators come back from their join. */
  lemma {:induction false} SplitUndoesJoin<T>(pieces: seq<seq<T>>, sep: T)
    requires pieces != [] && forall i :: 0 <= i < |pieces| ==> sep !in pieces[i]
    ensures Split(Join(pieces, sep), sep) == pieces
  {
    OnePiece(pieces[0], sep);
    if |pieces| > 1 {
      SplitUndoesJoin(pieces[1..], sep);
      SplitConcat(pieces[0], Join(pieces[1..], sep), sep);
      assert pieces == [pieces[0]] + pieces[1..];
    } else {
      assert pieces == [pieces[0]];
    }
  }
}
