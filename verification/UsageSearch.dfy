/** What the search of a response finds, told without the functions that find it, and which lines are read as JSON. */
module UsageSearch {
  import opened Results
  import opened Texts
  import opened UsageText

  predicate AreDigits(s: string) { forall i :: 0 <= i < |s| ==> '0' <= s[i] <= '9' }

  /** A field as it stands in a text: the name in quotes, a colon and a number, with blanks before the last two. */
  datatype Field = Field(name: string, before: string, behind: string, digits: string) {
    function Text(): string { ("\"" + name + "\"") + (before + (":" + (behind + digits))) }

    ghost predicate Valid(names: seq<string>) {
      name in names && AllBlank(before, IsBlank) && AllBlank(behind, IsBlank) && digits != "" && AreDigits(digits)
    }
  }

  /** The field stands in front of the text, and its number does not go on behind it. */
  ghost predicate StandsInFront(s: string, f: Field) {
    f.Text() <= s && (|f.Text()| < |s| ==> !('0' <= s[|f.Text()|] <= '9'))
  }

  // ---------------------------------------------------------------- the parts of a field

  lemma BlanksEnd(a: string, x: string)
    requires AllBlank(a, IsBlank) && (x == "" || !IsBlank(x[0]))
    ensures BlankLength(a + x) == |a|
  {
    var s, n := a + x, BlankLength(a + x);
    assert forall i :: 0 <= i < |a| ==> s[i] == a[i];
    assert x != "" ==> s[|a|] == x[0];
  }

  lemma DigitsEnd(d: string, x: string)
    requires AreDigits(d) && (x == "" || !('0' <= x[0] <= '9'))
    ensures DigitLength(d + x) == |d|
  {
    var s, n := d + x, DigitLength(d + x);
    assert forall i :: 0 <= i < |d| ==> s[i] == d[i];
    assert x != "" ==> s[|d|] == x[0];
  }

  lemma NumberAfterColonIs(s: string, colon: nat, blanks: nat, digits: string)
    requires colon == BlankLength(s) < |s| && s[colon] == ':' && blanks == BlankLength(s[colon + 1..])
    requires digits != "" && AreDigits(digits)
    requires var last := s[colon + 1 + blanks..]; DigitLength(last) == |digits| && last[..|digits|] == digits
    ensures NumberAfterColon(s) == Some(Match(Number(digits), colon + 1 + blanks + |digits|))
  {
    hide BlankLength, DigitLength, Number;
  }

  lemma NumberParts(s: string)
    requires NumberAfterColon(s).Some?
    ensures var colon := BlankLength(s);
            && colon < |s| && s[colon] == ':'
            && DigitLength(s[colon + 1 + BlankLength(s[colon + 1..])..]) > 0
  {
    hide BlankLength, DigitLength, Number;
  }

  /** A text that is cut into the parts of a number behind a colon is matched so. */
  lemma NumberIsMatched(s: string, before: string, colon: string, tail: string, behind: string, last: string, digits: string, rest: string)
    requires AllBlank(before, IsBlank) && AllBlank(behind, IsBlank) && digits != "" && AreDigits(digits)
    requires rest == "" || !('0' <= rest[0] <= '9')
    requires s == before + colon && colon == ":" + tail && tail == behind + last && last == digits + rest
    ensures NumberAfterColon(s) == Some(Match(Number(digits), |before| + 1 + |behind| + |digits|))
  {
    hide *;
    NoBlanks(digits, rest, tail);
    BlanksEnd(before, colon);
    BlanksEnd(behind, last);
    DigitsEnd(digits, rest);
    Slices(s, before, colon, tail, behind, last);
    assert last[..|digits|] == digits;
    NumberAfterColonIs(s, |before|, |behind|, digits);
  }

  lemma Slices(s: string, before: string, colon: string, tail: string, behind: string, last: string)
    requires s == before + colon && colon == ":" + tail && tail == behind + last
    ensures s[|before|] == ':' && s[|before| + 1..] == tail && s[|before| + 1 + |behind|..] == last
  {
    assert s[|before|..] == colon && colon[1..] == tail && tail[|behind|..] == last;
    assert s[|before|..][1..] == s[|before| + 1..];
    assert s[|before| + 1..][|behind|..] == s[|before| + 1 + |behind|..];
  }

  lemma NoBlanks(digits: string, rest: string, tail: string)
    requires digits != "" && AreDigits(digits)
    ensures !IsBlank((digits + rest)[0]) && !IsBlank((":" + tail)[0])
  {
  }

  lemma BlankPart(s: string)
    ensures AllBlank(s[..BlankLength(s)], IsBlank)
  {
  }

  lemma DigitPart(s: string)
    ensures var n := DigitLength(s); AreDigits(s[..n]) && (s[n..] == "" || !('0' <= s[n..][0] <= '9'))
  {
  }

  lemma MatchIsNumber(s: string) returns (before: string, behind: string, digits: string, rest: string)
    requires NumberAfterColon(s).Some?
    ensures AllBlank(before, IsBlank) && AllBlank(behind, IsBlank) && digits != "" && AreDigits(digits)
    ensures rest == "" || !('0' <= rest[0] <= '9')
    ensures s == before + (":" + (behind + (digits + rest)))
    ensures NumberAfterColon(s) == Some(Match(Number(digits), |before| + 1 + |behind| + |digits|))
  {
    hide *;
    NumberParts(s);
    var colon := BlankLength(s);
    var tail := s[colon + 1..];
    var blanks := BlankLength(tail);
    var last := s[colon + 1 + blanks..];
    var n := DigitLength(last);
    before, behind, digits, rest := s[..colon], tail[..blanks], last[..n], last[n..];
    BlankPart(s);
    BlankPart(tail);
    DigitPart(last);
    NumberAfterColonIs(s, colon, blanks, digits);
    assert tail[blanks..] == last;
    PutTogether(s, colon, blanks, n);
  }

  lemma PutTogether(s: string, colon: nat, blanks: nat, n: nat)
    requires colon < |s| && s[colon] == ':' && colon + 1 + blanks + n <= |s|
    ensures var tail := s[colon + 1..];
            s == s[..colon] + (":" + (tail[..blanks] + (tail[blanks..][..n] + tail[blanks..][n..])))
  {
    var tail := s[colon + 1..];
    assert tail[blanks..] == tail[blanks..][..n] + tail[blanks..][n..];
    assert tail == tail[..blanks] + tail[blanks..];
    assert s[colon..] == ":" + tail;
    assert s == s[..colon] + s[colon..];
  }

  /** At most one of the names stands in front, as none holds a quote. */
  lemma {:induction false} NameIsMatched(s: string, names: seq<string>, name: string)
    requires AreNames(names) && name in names && Quote(name) <= s
    ensures NameLength(s, names) == |name| + 2
  {
    if Quote(names[0]) <= s {
      SameName(s, names[0], name, names);
    } else {
      assert name in names[1..];
      NameIsMatched(s, names[1..], name);
    }
  }

  lemma SameName(s: string, a: string, b: string, names: seq<string>)
    requires AreNames(names) && a in names && b in names && Quote(a) <= s && Quote(b) <= s
    ensures a == b
  {
    var i :| 0 <= i < |names| && names[i] == a;
    var j :| 0 <= j < |names| && names[j] == b;
    assert IsName(names[i]) && IsName(names[j]);
    assert s[|a| + 1] == Quote(a)[|a| + 1] == '\"' && s[|b| + 1] == Quote(b)[|b| + 1] == '\"';
    assert |a| == |b|;
    forall k | 0 <= k < |a| ensures a[k] == b[k] {
      assert s[k + 1] == Quote(a)[k + 1] == a[k] && s[k + 1] == Quote(b)[k + 1] == b[k];
    }
  }

  // ---------------------------------------------------------------- a field in front

  lemma FieldIsMatched(s: string, names: seq<string>, f: Field)
    requires AreNames(names) && f.Valid(names) && StandsInFront(s, f)
    ensures FieldAt(s, names) == Some(Match(Number(f.digits), |f.Text()|))
  {
    hide NumberAfterColon, Number, AreNames;
    var rest := s[|f.Text()|..];
    var number := f.before + (":" + (f.behind + (f.digits + rest)));
    FieldIsItsParts(s, f);
    NameIsMatched(s, names, f.name);
    NumberIsMatched(number, f.before, ":" + (f.behind + (f.digits + rest)), f.behind + (f.digits + rest), f.behind, f.digits + rest,
                    f.digits, rest);
  }

  lemma FieldIsItsParts(s: string, f: Field)
    requires f.Text() <= s
    ensures Quote(f.name) <= s
    ensures s[|f.name| + 2..] == f.before + (":" + (f.behind + (f.digits + s[|f.Text()|..])))
    ensures |f.Text()| == |f.name| + 2 + |f.before| + 1 + |f.behind| + |f.digits|
  {
    assert s == f.Text() + s[|f.Text()|..];
    assert s == Quote(f.name) + (f.before + (":" + (f.behind + (f.digits + s[|f.Text()|..]))));
  }

  lemma MatchIsField(s: string, names: seq<string>) returns (f: Field)
    requires AreNames(names) && FieldAt(s, names).Some?
    ensures f.Valid(names) && StandsInFront(s, f) && FieldAt(s, names) == Some(Match(Number(f.digits), |f.Text()|))
  {
    hide NumberAfterColon, Number, AreNames;
    var n := NameLength(s, names);
    var k :| 0 <= k < |names| && n == |Quote(names[k])| && Quote(names[k]) <= s;
    var before, behind, digits, rest := MatchIsNumber(s[n..]);
    f := Field(names[k], before, behind, digits);
    hide AllBlank, AreDigits, NameLength;
    PartsAreTheField(s, f, rest);
  }

  lemma PartsAreTheField(s: string, f: Field, rest: string)
    requires Quote(f.name) <= s && s[|f.name| + 2..] == f.before + (":" + (f.behind + (f.digits + rest)))
    ensures f.Text() <= s && s[|f.Text()|..] == rest && |f.Text()| == |f.name| + 2 + |f.before| + 1 + |f.behind| + |f.digits|
  {
    assert s == Quote(f.name) + s[|f.name| + 2..];
    assert s == f.Text() + rest;
  }

  /** The expression matches in front of a text exactly when one of its fields stands there. */
  lemma MatchesIffFieldInFront(s: string, names: seq<string>, n: nat)
    requires AreNames(names)
    ensures (exists size :: FieldAt(s, names) == Some(Match(n, size))) <==>
            exists f: Field :: f.Valid(names) && StandsInFront(s, f) && Number(f.digits) == n
  {
    if FieldAt(s, names).Some? {
      var f := MatchIsField(s, names);
    }
    forall f: Field | f.Valid(names) && StandsInFront(s, f) && Number(f.digits) == n
      ensures FieldAt(s, names) == Some(Match(n, |f.Text()|))
    {
      FieldIsMatched(s, names, f);
    }
  }

  // ---------------------------------------------------------------- the last field

  ghost predicate FieldStandsAt(s: string, names: seq<string>, i: int, n: nat) {
    0 <= i <= |s| && exists f: Field :: f.Valid(names) && StandsInFront(s[i..], f) && Number(f.digits) == n
  }

  lemma NothingInFront(names: seq<string>, n: nat)
    ensures !FieldStandsAt("", names, 0, n)
  {
    forall f: Field ensures !StandsInFront(""[0..], f) {
      assert f.Text()[0] == '\"';
    }
  }

  lemma StandsLater(s: string, names: seq<string>, i: nat, n: nat)
    requires s != "" && i < |s|
    ensures FieldStandsAt(s[1..], names, i, n) <==> FieldStandsAt(s, names, i + 1, n)
  {
    assert s[1..][i..] == s[i + 1..];
  }

  /** Nothing at all, or the number of the field that stands behind all others. */
  ghost predicate IsLastField(s: string, names: seq<string>, r: Option<nat>) {
    if r.None? then forall i, n: nat :: !FieldStandsAt(s, names, i, n)
    else exists i :: FieldStandsAt(s, names, i, r.value) && forall j, n: nat :: j > i ==> !FieldStandsAt(s, names, j, n)
  }

  lemma HereIff(s: string, names: seq<string>, n: nat)
    requires AreNames(names)
    ensures FieldStandsAt(s, names, 0, n) <==> FieldAt(s, names).Some? && FieldAt(s, names).value.number == n
  {
    hide FieldAt;
    assert s[0..] == s;
    MatchesIffFieldInFront(s, names, n);
    if FieldAt(s, names).Some? && FieldAt(s, names).value.number == n {
      assert FieldAt(s, names) == Some(Match(n, FieldAt(s, names).value.size));
    }
  }

  /** The search finds the number of the last field that has one of the names, and none exactly when no field has. */
  lemma {:induction false} SearchFindsTheLast(s: string, names: seq<string>)
    requires AreNames(names)
    ensures IsLastField(s, names, LastField(s, names))
  {
    hide FieldAt, FieldStandsAt, AreNames;
    if s == "" {
      forall n: nat ensures !FieldStandsAt(s, names, 0, n) {
        NothingInFront(names, n);
      }
      OnlyWithin(s, names);
    } else {
      var tail := s[1..];
      SearchFindsTheLast(tail, names);
      OnlyWithin(s, names);
      OnlyWithin(tail, names);
      forall i: nat, n: nat | i < |s| ensures FieldStandsAt(tail, names, i, n) <==> FieldStandsAt(s, names, i + 1, n) {
        StandsLater(s, names, i, n);
      }
      forall n: nat ensures FieldStandsAt(s, names, 0, n) <==> FieldAt(s, names).Some? && FieldAt(s, names).value.number == n {
        HereIff(s, names, n);
      }
      OneMoreInFront(s, names);
    }
  }

  lemma OnlyWithin(s: string, names: seq<string>)
    ensures forall i, n: nat :: FieldStandsAt(s, names, i, n) ==> 0 <= i <= |s|
  {
  }

  lemma OneMoreInFront(s: string, names: seq<string>)
    requires s != "" && IsLastField(s[1..], names, LastField(s[1..], names))
    requires forall i, n: nat :: FieldStandsAt(s, names, i, n) ==> 0 <= i <= |s|
    requires forall i, n: nat :: FieldStandsAt(s[1..], names, i, n) ==> 0 <= i < |s|
    requires forall i: nat, n: nat :: i < |s| ==> (FieldStandsAt(s[1..], names, i, n) <==> FieldStandsAt(s, names, i + 1, n))
    requires forall n: nat ::
               FieldStandsAt(s, names, 0, n) <==> FieldAt(s, names).Some? && FieldAt(s, names).value.number == n
    ensures IsLastField(s, names, LastField(s, names))
  {
    hide FieldAt, FieldStandsAt;
    var tail, later := s[1..], LastField(s[1..], names);
    forall j: int, n: nat | j > 0 && FieldStandsAt(s, names, j, n) ensures FieldStandsAt(tail, names, j - 1, n) {
      assert FieldStandsAt(s, names, j - 1 + 1, n);
    }
    assert forall j: int, n: nat :: j < 0 ==> !FieldStandsAt(s, names, j, n);
    if later.None? {
      if FieldAt(s, names).Some? {
        assert FieldStandsAt(s, names, 0, FieldAt(s, names).value.number);
      }
    } else {
      var i :| FieldStandsAt(tail, names, i, later.value) && forall j, n: nat :: j > i ==> !FieldStandsAt(tail, names, j, n);
      assert FieldStandsAt(s, names, i + 1, later.value);
    }
  }

  // ---------------------------------------------------------------- lines

  /** A line of an event stream or a bare one: with or without the prefix, and blanks wherever they may be, it is its payload. */
  lemma PaddedLineIsItsPayload(a: string, prefix: string, b: string, payload: string, z: string)
    requires AllBlank(a, IsBlank) && AllBlank(z, IsBlank) && prefix in ["", "data:"]
    requires AllBlank(b, IsBlank) && (prefix == "" ==> b == "")
    requires payload != "" && !IsBlank(payload[0]) && !IsBlank(payload[|payload| - 1]) && payload[0] != 'd'
    ensures Payload(a + (prefix + b + payload) + z) == payload
  {
    var inner := prefix + b + payload;
    assert inner[|inner| - 1] == payload[|payload| - 1];
    assert inner[0] == if prefix == "" then payload[0] else 'd';
    TrimsPadded(a, inner, z, IsBlank);
    if prefix == "" {
      assert inner == payload;
      assert !(DATA <= inner);
    } else {
      assert inner[|DATA|..] == b + payload;
      assert inner[..|DATA|] == DATA;
      BlanksEnd(b, payload);
      assert (b + payload)[|b|..] == payload;
    }
  }
}
