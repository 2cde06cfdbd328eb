/** What the normal forms of types, defaults and character sets identify, told without computing them. */
module SchemaLaws {
  import opened Results
  import opened Texts
  import opened Schema

  // ---------------------------------------------------------------- types

  predicate IsStorageClass(t: SqlType) { t in [TinyText, Text(None), MediumText, LongText] }

  /** How many bytes a storage class holds: those whose number fits in one to four bytes. */
  function Capacity(t: SqlType): nat
    requires IsStorageClass(t)
  {
    match t
    case TinyText => 0x100 - 1
    case MediumText => 0x100_0000 - 1
    case LongText => 0x1_0000_0000 - 1
    case _ => 0x1_0000 - 1
  }

  /** A TEXT of so many characters, of three bytes each, becomes the smallest class that holds them, if one does. */
  lemma TextGetsTheSmallestClass(n: nat, t: SqlType)
    ensures NormalizeType(Text(Some(n))) == Success(t) <==>
            && IsStorageClass(t) && 3 * n <= Capacity(t)
            && forall c :: IsStorageClass(c) && 3 * n <= Capacity(c) ==> Capacity(t) <= Capacity(c)
    ensures NormalizeType(Text(Some(n))).Failure? <==> forall c :: IsStorageClass(c) ==> Capacity(c) < 3 * n
  {
    assert IsStorageClass(TinyText) && IsStorageClass(Text(None)) && IsStorageClass(MediumText) && IsStorageClass(LongText);
  }

  /** Of all other types only the display width of integers and the case of letters are dropped. */
  lemma OtherTypesAgreeIff(a: SqlType, b: SqlType)
    requires !a.Text? && !b.Text?
    ensures NormalizeType(a).Success?
    ensures NormalizeType(a) == NormalizeType(b) <==>
            || a == b
            || (a.Integer? && b.Integer? && a.name == b.name && a.unsigned == b.unsigned)
            || (a.Other? && b.Other? && Lower(a.text) == Lower(b.text))
  {
  }

  // ---------------------------------------------------------------- replacing

  lemma StandsLater(s: string, sub: string, i: nat)
    requires s != ""
    ensures StandsAt(s[1..], sub, i) <==> StandsAt(s, sub, i + 1)
  {
    assert i + 1 + |sub| <= |s| ==> s[1..][i..i + |sub|] == s[i + 1..i + 1 + |sub|];
  }

  lemma PassesOver(s: string, from: string, to: string)
    requires from != [] && s != "" && !StandsAt(s, from, 0)
    ensures ReplaceAll(s, from, to) == [s[0]] + ReplaceAll(s[1..], from, to)
  {
  }

  /** Replacing passes over a front in which no occurrence begins. */
  lemma {:induction false} PassesFront(front: string, rest: string, from: string, to: string)
    requires from != [] && forall j :: 0 <= j < |front| ==> !StandsAt(front + rest, from, j)
    ensures ReplaceAll(front + rest, from, to) == front + ReplaceAll(rest, from, to)
  {
    hide ReplaceAll;
    if front == "" {
      assert front + rest == rest;
    } else {
      var s := front + rest;
      assert s[1..] == front[1..] + rest;
      assert !StandsAt(s, from, 0);
      forall j | 0 <= j < |front| - 1 ensures !StandsAt(s[1..], from, j) {
        assert !StandsAt(s, from, j + 1);
        StandsLater(s, from, j);
      }
      hide StandsAt;
      PassesOver(s, from, to);
      PassesFront(front[1..], rest, from, to);
      assert [s[0]] + front[1..] == front;
      assert [s[0]] + (front[1..] + ReplaceAll(rest, from, to)) == front + ReplaceAll(rest, from, to);
    }
  }

  lemma ReplacesAtStart(from: string, rest: string, to: string)
    requires from != []
    ensures ReplaceAll(from + rest, from, to) == to + ReplaceAll(rest, from, to)
  {
    assert from <= from + rest && (from + rest)[|from|..] == rest;
  }

  /** Replacing changes the first occurrence and goes on behind it. */
  lemma ReplacesTheFirst(front: string, rest: string, from: string, to: string)
    requires from != [] && forall j :: 0 <= j < |front| ==> !StandsAt(front + from + rest, from, j)
    ensures ReplaceAll(front + from + rest, from, to) == front + to + ReplaceAll(rest, from, to)
  {
    hide ReplaceAll, StandsAt;
    assert front + from + rest == front + (from + rest);
    PassesFront(front, from + rest, from, to);
    ReplacesAtStart(from, rest, to);
    assert front + (to + ReplaceAll(rest, from, to)) == front + to + ReplaceAll(rest, from, to);
  }

  /** A text without an occurrence stays as it is. */
  lemma ReplacesNothing(s: string, from: string, to: string)
    requires from != [] && forall j :: 0 <= j < |s| ==> !StandsAt(s, from, j)
    ensures ReplaceAll(s, from, to) == s
  {
    assert s + "" == s;
    PassesFront(s, "", from, to);
  }

  // ---------------------------------------------------------------- defaults and character sets

  predicate Quoted(s: string) { s != "" && s[0] == '\'' }

  /** No default is the same as NULL in any case of letters; quoted defaults are compared as they stand. */
  lemma DefaultIs(value: string)
    ensures NormalizeDefault(None) == None
    ensures NormalizeDefault(Some(value)).None? <==>
            |value| == 4 && value[0] in "nN" && value[1] in "uU" && value[2] in "lL" && value[3] in "lL"
    ensures Quoted(value) ==> NormalizeDefault(Some(value)) == Some(value)
    ensures NormalizeDefault(Some(value)).Some? && !Quoted(value) ==>
              NormalizeDefault(Some(value)).value == NormalizeExtra(value)
  {
    assert Lower(value) == "null" <==> |Lower(value)| == 4 && Lower(value)[0] == 'n' && Lower(value)[1] == 'u'
                                       && Lower(value)[2] == 'l' && Lower(value)[3] == 'l';
  }

  /** The time stamp of a default or of an update, with and without parentheses and in any case of letters. */
  lemma TimestampsAgree(value: string, rest: string)
    requires Lower(value) == "current_timestamp()" + rest
    ensures NormalizeExtra(value) == "current_timestamp" + ReplaceAll(rest, "current_timestamp()", "current_timestamp")
  {
    hide Lower, ReplaceAll;
    ReplacesAtStart("current_timestamp()", rest, "current_timestamp");
  }

  /** A character set or collation agrees with its older name. */
  lemma OlderNamesAgree(rest: string)
    requires !("mb3" <= rest)
    ensures Canonical(Some("utf8mb3" + rest)) == Canonical(Some("utf8" + rest)) == "utf8" + Canonical(Some(rest))
  {
    ReplacesAtStart("utf8mb3", rest, "utf8");
    NoAliasInside(rest);
    hide ReplaceAll, StandsAt;
    PassesFront("utf8", rest, "utf8mb3", "utf8");
  }

  lemma NoAliasInside(rest: string)
    requires !("mb3" <= rest)
    ensures forall j :: 0 <= j < |"utf8"| ==> !StandsAt("utf8" + rest, "utf8mb3", j)
  {
    var s, alias := "utf8" + rest, "utf8mb3";
    if |rest| >= 3 {
      assert rest[0] == 'm' && rest[1] == 'b' && rest[2] == '3' ==> "mb3" <= rest;
      assert s[0..7][4] == rest[0] && s[0..7][5] == rest[1] && s[0..7][6] == rest[2];
    }
    forall j | 0 < j < 4 ensures !StandsAt(s, alias, j) {
      assert j <= |s| - 7 ==> s[j..j + 7][0] == s[j];
    }
  }
}
