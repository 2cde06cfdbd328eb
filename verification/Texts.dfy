/** Trimming, words, case and replacement in ASCII texts. */
module Texts {

  function LowerChar(c: char): char {
    if 'A' <= c <= 'Z' then c - 'A' + 'a' else c
  }

  function Lower(s: string): string {
    seq(|s|, i requires 0 <= i < |s| => LowerChar(s[i]))
  }

  predicate StandsAt(s: string, sub: string, i: int) { 0 <= i <= |s| - |sub| && s[i..i + |sub|] == sub }

  /** Every non-overlapping occurrence of `from`, left to right, becomes `to`. */
  function ReplaceAll(s: string, from: string, to: string): string
    requires from != []
    decreases |s|
  {
    if |s| < |from| then s
    else if from <= s then to + ReplaceAll(s[|from|..], from, to)
    else [s[0]] + ReplaceAll(s[1..], from, to)
  }

  function TrimLeftBy(s: string, blank: char -> bool): string {
    if s != "" && blank(s[0]) then TrimLeftBy(s[1..], blank) else s
  }

  function TrimRightBy(s: string, blank: char -> bool): string {
    if s != "" && blank(s[|s| - 1]) then TrimRightBy(s[..|s| - 1], blank) else s
  }

  /** What counts as blank differs between the languages of the repository. */
  function TrimBy(s: string, blank: char -> bool): string { TrimRightBy(TrimLeftBy(s, blank), blank) }

  ghost predicate AllBlank(s: string, blank: char -> bool) { forall i :: 0 <= i < |s| ==> blank(s[i]) }

  /** `t` stands in `s` with blanks around it and none at its ends. */
  ghost predicate TrimsTo(s: string, t: string, blank: char -> bool) {
    && (t != "" ==> !blank(t[0]) && !blank(t[|t| - 1]))
    && exists a, b :: AllBlank(a, blank) && AllBlank(b, blank) && s == a + t + b
  }

  lemma {:induction false} TrimLeftDrops(a: string, s: string, blank: char -> bool)
    requires AllBlank(a, blank)
    ensures TrimLeftBy(a + s, blank) == TrimLeftBy(s, blank)
  {
    if a == "" {
      assert a + s == s;
    } else {
      assert (a + s)[1..] == a[1..] + s;
      TrimLeftDrops(a[1..], s, blank);
    }
  }

  lemma {:induction false} TrimRightDrops(s: string, b: string, blank: char -> bool)
    requires AllBlank(b, blank)
    ensures TrimRightBy(s + b, blank) == TrimRightBy(s, blank)
  {
    if b == "" {
      assert s + b == s;
    } else {
      assert (s + b)[..|s + b| - 1] == s + b[..|b| - 1];
      TrimRightDrops(s, b[..|b| - 1], blank);
    }
  }

  lemma {:induction false} TrimLeftDropped(s: string, blank: char -> bool) returns (a: string)
    ensures AllBlank(a, blank) && s == a + TrimLeftBy(s, blank)
    ensures TrimLeftBy(s, blank) != "" ==> !blank(TrimLeftBy(s, blank)[0])
  {
    a := "";
    if s != "" && blank(s[0]) {
      a := TrimLeftDropped(s[1..], blank);
      a := [s[0]] + a;
    }
  }

  lemma {:induction false} TrimRightDropped(s: string, blank: char -> bool) returns (b: string)
    ensures AllBlank(b, blank) && s == TrimRightBy(s, blank) + b
    ensures TrimRightBy(s, blank) != "" ==> !blank(TrimRightBy(s, blank)[|TrimRightBy(s, blank)| - 1])
  {
    b := "";
    if s != "" && blank(s[|s| - 1]) {
      b := TrimRightDropped(s[..|s| - 1], blank);
      b := b + [s[|s| - 1]];
    }
  }

  lemma TrimsInside(s: string, blank: char -> bool)
    ensures TrimsTo(s, TrimBy(s, blank), blank)
  {
    hide AllBlank, TrimLeftBy, TrimRightBy;
    var left := TrimLeftBy(s, blank);
    var a := TrimLeftDropped(s, blank);
    var b := TrimRightDropped(left, blank);
    assert s == a + TrimBy(s, blank) + b;
    assert TrimBy(s, blank) != "" ==> TrimBy(s, blank)[0] == left[0];
  }

  lemma TrimsPadded(a: string, t: string, b: string, blank: char -> bool)
    requires AllBlank(a, blank) && AllBlank(b, blank) && (t != "" ==> !blank(t[0]) && !blank(t[|t| - 1]))
    ensures TrimBy(a + t + b, blank) == t
  {
    hide AllBlank;
    assert a + t + b == a + (t + b);
    TrimLeftDrops(a, t + b, blank);
    if t == "" {
      assert t + b == b + "";
      TrimLeftDrops(b, "", blank);
    } else {
      assert (t + b)[0] == t[0];
      TrimRightDrops(t, b, blank);
    }
  }

  /** Trimming takes away all blanks around a text and nothing else. */
  lemma TrimIff(s: string, t: string, blank: char -> bool)
    ensures TrimBy(s, blank) == t <==> TrimsTo(s, t, blank)
  {
    hide AllBlank, TrimBy;
    TrimsInside(s, blank);
    if TrimsTo(s, t, blank) {
      var a, b :| AllBlank(a, blank) && AllBlank(b, blank) && s == a + t + b;
      TrimsPadded(a, t, b, blank);
    }
  }

  /** The blanks of JavaScript and Go. */
  predicate IsBlank(c: char) { c == ' ' || '\t' <= c <= '\r' }

  function Trim(s: string): string { TrimBy(s, IsBlank) }

  function BlankLength(s: string): (n: nat)
    ensures n <= |s|
    ensures forall i :: 0 <= i < n ==> IsBlank(s[i])
    ensures n < |s| ==> !IsBlank(s[n])
  {
    if s == "" || !IsBlank(s[0]) then 0 else 1 + BlankLength(s[1..])
  }

  predicate IsWord(w: string) {
    w != "" && forall i :: 0 <= i < |w| ==> !IsBlank(w[i])
  }

  function WordLength(s: string): (n: nat)
    ensures n <= |s|
    ensures forall i :: 0 <= i < n ==> !IsBlank(s[i])
    ensures n < |s| ==> IsBlank(s[n])
  {
    if s == "" || IsBlank(s[0]) then 0 else 1 + WordLength(s[1..])
  }

  /** The words between blanks. */
  function Words(s: string): (words: seq<string>)
    ensures forall i :: 0 <= i < |words| ==> IsWord(words[i])
    decreases |s|
  {
    if s == "" then []
    else if IsBlank(s[0]) then Words(s[1..])
    else [s[..WordLength(s)]] + Words(s[WordLength(s)..])
  }

  function JoinWords(words: seq<string>): string {
    if words == [] then ""
    else if |words| == 1 then words[0]
    else words[0] + " " + JoinWords(words[1..])
  }

  lemma FirstWord(w: string, rest: string)
    requires IsWord(w) && (rest == "" || IsBlank(rest[0]))
    ensures Words(w + rest) == [w] + Words(rest)
  {
    var s := w + rest;
    var n := WordLength(s);
    assert s[0] == w[0];
    assert forall i :: 0 <= i < |w| ==> s[i] == w[i];
    assert rest != "" ==> s[|w|] == rest[0];
    assert n == |w|;
    assert s[..n] == w && s[n..] == rest;
  }

  /** Joining words with single spaces and splitting them again gives the words back. */
  lemma {:induction false} WordsOfJoin(words: seq<string>)
    requires forall i :: 0 <= i < |words| ==> IsWord(words[i])
    ensures Words(JoinWords(words)) == words
  {
    if |words| == 1 {
      assert words[0] + "" == words[0];
      FirstWord(words[0], "");
      assert words == [words[0]];
    } else if |words| > 1 {
      WordsOfJoin(words[1..]);
      var rest := " " + JoinWords(words[1..]);
      assert rest[1..] == JoinWords(words[1..]);
      FirstWord(words[0], rest);
      assert words[0] + rest == JoinWords(words);
      assert words == [words[0]] + words[1..];
    }
  }
}
