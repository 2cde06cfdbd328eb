/** The names of roles, domains and principals, told without the patterns that check them. */
module GenAiNames {
  import opened Splitting
  import opened ScopeCover
  import opened GenAi

  /** By code: letters, digits and underscores, and behind the first of them hyphens and, in roles and domains, dots. */
  lemma NamesByCode(s: string)
    ensures ServiceName(s) <==> DottedName(s) && '.' !in s
    ensures DottedName(s) <==>
            |s| > 0 && forall i :: 0 <= i < |s| ==>
              var n := s[i] as int;
              48 <= n < 58 || 65 <= n < 91 || n == 95 || 97 <= n < 123 || (i > 0 && 45 <= n < 47)
  {
    if |s| > 0 && forall i :: 0 <= i < |s| ==>
         var n := s[i] as int;
         48 <= n < 58 || 65 <= n < 91 || n == 95 || 97 <= n < 123 || (i > 0 && 45 <= n < 47)
    {
      assert IsWordChar(s[0]);
    }
  }

  lemma CutAtFirstDot(s: string)
    ensures var i := IndexOf(s, ".");
            if i < 0 then '.' !in s
            else s == s[..i] + ['.'] + s[i + 1..] && '.' !in s[..i]
  {
    var i := IndexOf(s, ".");
    forall j | 0 <= j < |s| && s[j] == '.' ensures 0 <= i <= j {
      assert s[j..j + 1] == ".";
      IndexOfIsFirst(s, ".", j);
    }
  }

  lemma SimpleNameIsOnePiece(s: string)
    ensures ServiceName(s) ==> Split(s, '.') == [s]
    ensures |Split(s, '.')| == 1 ==> Split(s, '.') == [s]
  {
    hide IsWordChar;
    if ServiceName(s) {
      NamesByCode(s);
      OnePiece(s, '.');
    }
    JoinUndoesSplit(s, '.');
  }

  /** The name of a user or a workload is two or more simple names with dots between them. */
  lemma {:induction false} MemberNameIsDotted(s: string)
    ensures MemberName(s) <==>
            |Split(s, '.')| > 1 && forall k :: 0 <= k < |Split(s, '.')| ==> ServiceName(Split(s, '.')[k])
    decreases |s|
  {
    hide ServiceName, Split;
    CutAtFirstDot(s);
    var i := IndexOf(s, ".");
    if i < 0 {
      OnePiece(s, '.');
    } else {
      var front, rest := s[..i], s[i + 1..];
      OnePiece(front, '.');
      SplitConcat(front, rest, '.');
      assert Split(s, '.') == [front] + Split(rest, '.');
      SimpleNameIsOnePiece(rest);
      MemberNameIsDotted(rest);
      AllInFront(front, Split(rest, '.'));
      assert MemberName(s) <==> ServiceName(front) && (ServiceName(rest) || MemberName(rest));
      assert Split(rest, '.') == [rest] ==> Split(rest, '.')[0] == rest;
    }
  }

  lemma AllInFront(front: string, pieces: seq<string>)
    ensures (forall k :: 0 <= k <= |pieces| ==> ServiceName(([front] + pieces)[k])) <==>
            ServiceName(front) && forall k :: 0 <= k < |pieces| ==> ServiceName(pieces[k])
  {
    hide ServiceName;
    var all := [front] + pieces;
    assert all[0] == front && all[1..] == pieces;
    assert forall k :: 0 <= k < |pieces| ==> pieces[k] == all[k + 1];
    if forall k :: 0 <= k <= |pieces| ==> ServiceName(all[k]) {
      forall k | 0 <= k < |pieces| ensures ServiceName(pieces[k]) {
        assert ServiceName(all[k + 1]);
      }
    }
  }

  predicate IsNameChar(c: char) { IsWordChar(c) || c == '-' || c == '.' }

  /** Nothing but dots comes before the word character at `i`. */
  predicate BeginsAt(s: string, i: int) {
    0 <= i < |s| && IsWordChar(s[i]) && forall j :: 0 <= j < i ==> s[j] == '.'
  }

  lemma {:induction false} TrimmedIsNamed(s: string)
    ensures DottedName(TrimDots(s)) <==>
            (forall i :: 0 <= i < |s| ==> IsNameChar(s[i])) && exists i :: BeginsAt(s, i)
    decreases |s|
  {
    if s != "" && s[0] == '.' {
      var tail := s[1..];
      TrimmedIsNamed(tail);
      assert forall i :: 0 < i < |s| ==> s[i] == tail[i - 1];
      if i :| BeginsAt(tail, i) {
        assert BeginsAt(s, i + 1);
      }
      if i :| BeginsAt(s, i) {
        assert BeginsAt(tail, i - 1);
      }
    } else if s != "" && s[|s| - 1] == '.' {
      var front := s[..|s| - 1];
      TrimmedIsNamed(front);
      if i :| BeginsAt(front, i) {
        assert BeginsAt(s, i);
      }
      if i :| BeginsAt(s, i) {
        assert BeginsAt(front, i);
      }
    } else if s != "" {
      assert IsWordChar(s[0]) ==> BeginsAt(s, 0);
      if i :| BeginsAt(s, i) {
        assert i == 0;
      }
    }
  }

  /** Around the placeholder may stand name characters that begin, dots aside, with a word character; or nothing. */
  lemma FragmentIff(s: string)
    ensures ValidFragment(s) <==>
            s == "" || ((forall i :: 0 <= i < |s| ==> IsNameChar(s[i])) && exists i :: BeginsAt(s, i))
  {
    hide TrimDots, DottedName;
    TrimmedIsNamed(s);
  }
}
