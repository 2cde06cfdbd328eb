/**
 Two responses on which the tail and the whole are metered differently, for any numbers in them.
 All that is asked of the JSON reader is that it reads the one object that occurs.
*/
module UsageTailGaps {
  import opened Results
  import opened Splitting
  import opened Texts
  import opened UsageText
  import opened UsageTail

  // ---------------------------------------------------------------- compact JSON

  function Decimal(n: nat): string {
    if n < 10 then [('0' as int + n) as char] else Decimal(n / 10) + [('0' as int + n % 10) as char]
  }

  /** Compact JSON; texts are printed as they are, which is right for those that need no escapes. */
  function Print(v: Json): string
    decreases v, 1, 0
  {
    match v
    case Null => "null"
    case Count(n) => Decimal(n)
    case Text(s) => Quote(s)
    case Object(members) => "{" + PrintMembers(v, 0)
    case Other => "[]"
  }

  /** The members of an object from the k-th on, and the closing brace. */
  function PrintMembers(v: Json, k: nat): string
    requires v.Object? && k <= |v.members|
    decreases v, 0, |v.members| - k
  {
    if k == |v.members| then "}"
    else
      var rest := if k + 1 == |v.members| then "}" else "," + PrintMembers(v, k + 1);
      Quote(v.members[k].name) + (":" + (Print(v.members[k].value) + rest))
  }

  lemma {:induction false} DecimalIsDigits(n: nat)
    ensures Decimal(n) != "" && forall i :: 0 <= i < |Decimal(n)| ==> IsDigit(Decimal(n)[i])
  {
    if n >= 10 {
      DecimalIsDigits(n / 10);
    }
  }

  /** Printing a number and reading its digits gives it back. */
  lemma {:induction false} NumberUndoesDecimal(n: nat)
    ensures forall i :: 0 <= i < |Decimal(n)| ==> IsDigit(Decimal(n)[i])
    ensures Number(Decimal(n)) == n
  {
    DecimalIsDigits(n);
    if n < 10 {
      assert Decimal(n)[..0] == "";
    } else {
      NumberUndoesDecimal(n / 10);
      assert Decimal(n)[..|Decimal(n)| - 1] == Decimal(n / 10);
    }
  }

  lemma {:induction false} DigitsStop(digits: string, rest: string)
    requires forall i :: 0 <= i < |digits| ==> IsDigit(digits[i])
    requires rest == "" || !IsDigit(rest[0])
    ensures DigitLength(digits + rest) == |digits|
  {
    if digits == "" {
      assert digits + rest == rest;
    } else {
      DigitsStop(digits[1..], rest);
      assert (digits + rest)[1..] == digits[1..] + rest;
    }
  }

  // ---------------------------------------------------------------- what the search passes over

  lemma {:induction false} PlainIsPassed(plain: string, rest: string, names: seq<string>)
    requires AreNames(names) && '\"' !in plain
    ensures LastField(plain + rest, names) == LastField(rest, names)
  {
    hide FieldAt, AreNames;
    if plain == "" {
      assert plain + rest == rest;
    } else {
      PlainIsPassed(plain[1..], rest, names);
      assert (plain + rest)[1..] == plain[1..] + rest;
      NoNameHere(plain + rest, names);
    }
  }

  lemma SameQuoted(name: string, w: string, rest: string)
    requires IsName(name) && '\"' !in w && Quote(name) <= Quote(w) + rest
    ensures name == w
  {
    var s := Quote(w) + rest;
    assert forall i :: 0 <= i < |w| ==> s[i + 1] == w[i] != '\"';
    assert forall i :: 0 <= i < |name| ==> s[i + 1] == Quote(name)[i + 1] == name[i] != '\"';
    assert s[|w| + 1] == '\"' && s[|name| + 1] == Quote(name)[|name| + 1] == '\"';
    assert |name| == |w|;
  }

  lemma OtherNameHere(w: string, rest: string, names: seq<string>)
    requires AreNames(names) && '\"' !in w && w !in names
    ensures FieldAt(Quote(w) + rest, names) == None
  {
    hide Quote, IsName;
    var s := Quote(w) + rest;
    var n := NameLength(s, names);
    if n > 0 {
      var k :| 0 <= k < |names| && n == |Quote(names[k])| && Quote(names[k]) <= s;
      SameQuoted(names[k], w, rest);
    }
  }

  lemma {:induction false} SomeNameHere(s: string, names: seq<string>, k: nat)
    requires k < |names| && Quote(names[k]) <= s
    ensures NameLength(s, names) > 0
  {
    if k > 0 && !(Quote(names[0]) <= s) {
      assert names[1..][k - 1] == names[k];
      SomeNameHere(s, names[1..], k - 1);
    }
  }

  lemma ThisNameHere(rest: string, names: seq<string>, k: nat)
    requires AreNames(names) && k < |names|
    ensures NameLength(Quote(names[k]) + rest, names) == |Quote(names[k])|
  {
    hide Quote;
    var s := Quote(names[k]) + rest;
    SomeNameHere(s, names, k);
    var j :| 0 <= j < |names| && NameLength(s, names) == |Quote(names[j])| && Quote(names[j]) <= s;
    assert IsName(names[j]) && IsName(names[k]);
    SameQuoted(names[j], names[k], rest);
  }

  /** A quoted text that is none of the names. */
  lemma QuotedIsPassed(w: string, rest: string, names: seq<string>)
    requires AreNames(names) && '\"' !in w && w !in names
    requires rest == "" || !IsNameChar(rest[0])
    ensures LastField(Quote(w) + rest, names) == LastField(rest, names)
  {
    hide FieldAt, AreNames;
    var s := Quote(w) + rest;
    OtherNameHere(w, rest, names);
    assert s[1..] == w + ("\"" + rest);
    PlainIsPassed(w, "\"" + rest, names);
    NoNameHere("\"" + rest, names);
    assert ("\"" + rest)[1..] == rest;
  }

  lemma ColonAndDigits(digits: string, rest: string)
    requires digits != "" && forall i :: 0 <= i < |digits| ==> IsDigit(digits[i])
    requires rest == "" || !IsDigit(rest[0])
    ensures NumberAfterColon(":" + (digits + rest)) == Some(Match(Number(digits), 1 + |digits|))
  {
    hide Number, DigitLength;
    var s := ":" + (digits + rest);
    assert s[1..] == digits + rest;
    assert IsDigit(digits[0]) && s[1] == digits[0];
    assert BlankLength(s) == 0 && BlankLength(s[1..]) == 0;
    DigitsStop(digits, rest);
    assert s[1..][..|digits|] == digits;
  }

  lemma MatchIsRead(name: string, n: nat, rest: string, names: seq<string>)
    requires name in names && AreNames(names)
    requires rest != "" && !IsDigit(rest[0])
    ensures FieldAt(Quote(name) + (":" + (Decimal(n) + rest)), names)
            == Some(Match(n, |Quote(name)| + 1 + |Decimal(n)|))
  {
    hide AreNames, NameLength, Decimal, NumberAfterColon, Number, IsDigit;
    var digits := Decimal(n);
    var after := ":" + (digits + rest);
    var k :| 0 <= k < |names| && names[k] == name;
    ThisNameHere(after, names, k);
    NumberUndoesDecimal(n);
    DecimalIsDigits(n);
    ColonAndDigits(digits, rest);
    assert (Quote(name) + after)[|Quote(name)|..] == after;
  }

  /** A quoted name with a number is what the search looks for. */
  lemma FieldIsFound(name: string, n: nat, rest: string, names: seq<string>)
    requires name in names && AreNames(names)
    requires rest != "" && !IsDigit(rest[0])
    ensures LastField(Quote(name) + (":" + (Decimal(n) + rest)), names)
            == if LastField(rest, names).Some? then LastField(rest, names) else Some(n)
  {
    hide FieldAt, AreNames, LastField;
    var s := Quote(name) + (":" + (Decimal(n) + rest));
    MatchIsRead(name, n, rest, names);
    AfterTheMatch(s, names);
    assert s[|Quote(name)| + 1 + |Decimal(n)|..] == rest;
  }

  // ---------------------------------------------------------------- the end of both responses

  function Pad(n: nat): string { seq(n, i => '.') }

  /** The text of the answer is the last member of both responses. */
  function Ending(n: nat): string { "," + (Quote("message") + (":" + (Quote(Pad(n)) + "}"))) }

  lemma BraceEnds(names: seq<string>)
    requires AreNames(names)
    ensures LastField("}", names) == None && LastField("\"}", names) == None
  {
    hide FieldAt;
    NoNameHere("}", names);
    NoNameHere("\"}", names);
    assert "}"[1..] == "" && "\"}"[1..] == "}";
  }

  lemma PadIsNoName(n: nat)
    ensures !IsName(Pad(n))
  {
    if n > 0 {
      assert !IsNameChar(Pad(n)[0]);
    }
  }

  lemma EndingIsPassed(n: nat, names: seq<string>)
    requires AreNames(names) && "message" !in names
    ensures LastField(Ending(n), names) == None
  {
    hide LastField;
    var text := Quote(Pad(n)) + "}";
    PadIsNoName(n);
    BraceEnds(names);
    QuotedIsPassed(Pad(n), "}", names);
    PlainIsPassed(":", text, names);
    QuotedIsPassed("message", ":" + text, names);
    PlainIsPassed(",", Quote("message") + (":" + text), names);
  }

  lemma PayloadStays(s: string)
    requires s != "" && !IsBlank(s[0]) && s[0] != 'd' && !IsBlank(s[|s| - 1])
    ensures Payload(s) == s
  {
    assert DATA[0] == 'd';
  }

  // ---------------------------------------------------------------- a long answer after its usage

  function Counts(prompt: nat, completion: nat): Json {
    Object([Member("prompt_tokens", Count(prompt)), Member("completion_tokens", Count(completion))])
  }

  /** The usage first and then the text of the answer. */
  function LongAnswer(prompt: nat, completion: nat, n: nat): Json {
    Object([Member("usage", Counts(prompt, completion)), Member("message", Text(Pad(n)))])
  }

  lemma PrintLongAnswer(prompt: nat, completion: nat, n: nat)
    ensures Print(LongAnswer(prompt, completion, n))
            == "{" + (Quote("usage") + (":" + (Print(Counts(prompt, completion)) + Ending(n))))
  {
    hide Decimal, Pad, Counts, Quote;
    var v := LongAnswer(prompt, completion, n);
    assert PrintMembers(v, 1) == Quote("message") + (":" + (Quote(Pad(n)) + "}"));
  }

  lemma PrintCounts(prompt: nat, completion: nat)
    ensures Print(Counts(prompt, completion))
            == "{" + (Quote("prompt_tokens") + (":" + (Decimal(prompt)
               + ("," + (Quote("completion_tokens") + (":" + (Decimal(completion) + "}")))))))
  {
    hide Decimal, Quote;
    var v := Counts(prompt, completion);
    assert Print(Count(prompt)) == Decimal(prompt) && Print(Count(completion)) == Decimal(completion);
    assert PrintMembers(v, 1) == Quote("completion_tokens") + (":" + (Decimal(completion) + "}"));
  }

  lemma LookupLast(members: seq<Member>, m: Member, name: string)
    ensures Lookup(members + [m], name) == if m.name == name then Some(m.value) else Lookup(members, name)
  {
    assert (members + [m])[..|members|] == members;
  }

  lemma LookupOfTwo(a: Member, b: Member, name: string)
    ensures Lookup([a, b], name)
            == if b.name == name then Some(b.value) else if a.name == name then Some(a.value) else None
  {
    assert [a, b] == [a] + [b] && [a] == [] + [a];
    LookupLast([a], b, name);
    LookupLast([], a, name);
  }

  lemma UsageOfCounts(prompt: nat, completion: nat)
    ensures OpenAiUsage(Counts(prompt, completion).members) == Some(Usage(prompt, completion, prompt + completion))
  {
    hide Lookup;
    var a, b := Member("prompt_tokens", Count(prompt)), Member("completion_tokens", Count(completion));
    LookupOfTwo(a, b, "prompt_tokens");
    LookupOfTwo(a, b, "completion_tokens");
    LookupOfTwo(a, b, "total_tokens");
  }

  lemma UsageOfLongAnswer(prompt: nat, completion: nat, n: nat)
    ensures UsageFromObject(LongAnswer(prompt, completion, n)) == Some(Usage(prompt, completion, prompt + completion))
  {
    hide Lookup, OpenAiUsage, Pad;
    var a, b := Member("usage", Counts(prompt, completion)), Member("message", Text(Pad(n)));
    LookupOfTwo(a, b, "response");
    LookupOfTwo(a, b, "usage");
    UsageOfCounts(prompt, completion);
  }

  lemma DecimalIsOneLine(n: nat)
    ensures '\n' !in Decimal(n)
  {
    DecimalIsDigits(n);
  }

  lemma EndingIsOneLine(n: nat)
    ensures '\n' !in Ending(n)
  {}

  lemma NameIsOneLine(name: string)
    requires '\n' !in name
    ensures '\n' !in Quote(name)
  {}

  lemma LongAnswerIsOneLine(prompt: nat, completion: nat, n: nat)
    ensures '\n' !in Print(LongAnswer(prompt, completion, n))
  {
    hide Decimal, Print, PrintMembers, Ending, Quote, LongAnswer, Counts;
    PrintLongAnswer(prompt, completion, n);
    PrintCounts(prompt, completion);
    DecimalIsOneLine(prompt);
    DecimalIsOneLine(completion);
    EndingIsOneLine(n);
    NameIsOneLine("usage");
    NameIsOneLine("prompt_tokens");
    NameIsOneLine("completion_tokens");
  }

  /** What remains of a text whose end is longer than the tail. */
  lemma TailOfEnding(front: string, n: nat)
    requires n >= MAX_TAIL
    ensures LastBytes(front + Ending(n)) == Pad(MAX_TAIL - 2) + "\"}"
  {
    var text := front + Ending(n);
    var cut := |text| - MAX_TAIL;
    assert text == front + ",\"message\":\"" + Pad(n) + "\"}";
    assert text[cut..] == Pad(MAX_TAIL - 2) + "\"}";
  }

  lemma NotBraced(line: string, reader: Reader)
    requires !IsBraced(Payload(line))
    ensures Meter(line, reader) == None
  {}

  lemma NothingInPad(n: nat, names: seq<string>)
    requires AreNames(names)
    ensures LastField(Pad(n) + "\"}", names) == None
  {
    PlainIsPassed(Pad(n), "\"}", names);
    BraceEnds(names);
  }

  lemma PadIsNotMetered(n: nat, reader: Reader)
    requires n > 0
    ensures Extract(Pad(n) + "\"}", reader) == None
  {
    hide LastField, Meter;
    var tail := Pad(n) + "\"}";
    assert tail[0] == '.';
    PayloadStays(tail);
    NotBraced(tail, reader);
    UsageOfOneLine(tail, reader);
    PromptNames();
    CompletionNames();
    TotalNames();
    NothingInPad(n, PROMPT_NAMES);
    NothingInPad(n, COMPLETION_NAMES);
    NothingInPad(n, TOTAL_NAMES);
  }

  /** A line that is an object is metered by it. */
  lemma ObjectIsMetered(line: string, v: Json, reader: Reader)
    requires IsBraced(line) && '\n' !in line && reader(line) == Some(v) && v.Object? && UsageFromObject(v).Some?
    ensures Extract(line, reader) == Meter(line, reader) == UsageFromObject(v)
  {
    hide UsageFromObject, Payload, Lines, LastUsage;
    PayloadStays(line);
    UsageOfOneLine(line, reader);
  }

  lemma PrintIsBraced(front: string, n: nat)
    requires front != "" && front[0] == '{'
    ensures IsBraced(front + Ending(n))
  {}

  lemma AnswerIsMetered(prompt: nat, completion: nat, n: nat, reader: Reader)
    requires var v := LongAnswer(prompt, completion, n); reader(Print(v)) == Some(v)
    ensures var line := Print(LongAnswer(prompt, completion, n));
            && '\n' !in line
            && Extract(line, reader) == Meter(line, reader) == Some(Usage(prompt, completion, prompt + completion))
  {
    hide Print, PrintMembers, UsageFromObject, Ending, Extract, Quote, Meter;
    var v := LongAnswer(prompt, completion, n);
    PrintLongAnswer(prompt, completion, n);
    UsageOfLongAnswer(prompt, completion, n);
    LongAnswerIsOneLine(prompt, completion, n);
    var front := "{" + (Quote("usage") + (":" + Print(Counts(prompt, completion))));
    assert Print(v) == front + Ending(n);
    PrintIsBraced(front, n);
    ObjectIsMetered(Print(v), v, reader);
  }

  /** Every JSON reader that reads two short answers tells lines apart. */
  lemma ReadersTellApart(reader: Reader)
    requires forall k: nat :: k < 2 ==> var v := LongAnswer(k, 0, 0); reader(Print(v)) == Some(v)
    ensures TellsApart(reader, Print(LongAnswer(0, 0, 0)), Print(LongAnswer(1, 0, 0)))
  {
    hide Print, Meter, LongAnswer, Extract;
    AnswerIsMetered(0, 0, 0, reader);
    AnswerIsMetered(1, 0, 0, reader);
  }

  /**
   A response of one line that gives its usage first and is longer than the tail: the whole would
   be metered, the tail is not.
  */
  lemma LongAnswerIsNotMetered(prompt: nat, completion: nat, n: nat, reader: Reader)
    requires n >= MAX_TAIL
    requires var v := LongAnswer(prompt, completion, n); reader(Print(v)) == Some(v)
    ensures var text := Print(LongAnswer(prompt, completion, n));
            && Extract(text, reader) == Some(Usage(prompt, completion, prompt + completion))
            && Extract(LastBytes(text), reader) == None
  {
    hide Print, PrintMembers, LastBytes, Ending, Extract, Quote, Meter;
    PrintLongAnswer(prompt, completion, n);
    AnswerIsMetered(prompt, completion, n, reader);
    var front := "{" + (Quote("usage") + (":" + Print(Counts(prompt, completion))));
    assert Print(LongAnswer(prompt, completion, n)) == front + Ending(n);
    TailOfEnding(front, n);
    PadIsNotMetered(MAX_TAIL - 2, reader);
  }

  // ---------------------------------------------------------------- an object that the cut lays bare

  function OneCount(prompt: nat): Json { Object([Member("prompt_tokens", Count(prompt))]) }

  /** An object that states two numbers of prompt tokens, once in its usage and once beside it. */
  function TwoCounts(inner: nat, outer: nat, n: nat): Json {
    Object([Member("usage", OneCount(inner)), Member("prompt_tokens", Count(outer)), Member("message", Text(Pad(n)))])
  }

  function AfterUsage(outer: nat, n: nat): string {
    Quote("prompt_tokens") + (":" + (Decimal(outer) + Ending(n)))
  }

  lemma PrintOneCount(prompt: nat)
    ensures Print(OneCount(prompt)) == "{" + (Quote("prompt_tokens") + (":" + (Decimal(prompt) + "}")))
  {
    hide Decimal, Quote;
    assert Print(Count(prompt)) == Decimal(prompt);
  }

  lemma PrintTwoCounts(inner: nat, outer: nat, n: nat)
    ensures Print(TwoCounts(inner, outer, n))
            == "{" + (Quote("usage") + (":" + (Print(OneCount(inner)) + ("," + AfterUsage(outer, n)))))
  {
    hide Decimal, Quote, Pad, OneCount;
    var v := TwoCounts(inner, outer, n);
    assert Print(Count(outer)) == Decimal(outer);
    assert PrintMembers(v, 2) == Quote("message") + (":" + (Quote(Pad(n)) + "}"));
    assert PrintMembers(v, 1) == AfterUsage(outer, n);
  }

  lemma LookupOfThree(a: Member, b: Member, c: Member, name: string)
    ensures Lookup([a, b, c], name) == if c.name == name then Some(c.value) else Lookup([a, b], name)
    ensures Lookup([a, b], name)
            == if b.name == name then Some(b.value) else if a.name == name then Some(a.value) else None
  {
    assert [a, b, c] == [a, b] + [c];
    LookupLast([a, b], c, name);
    LookupOfTwo(a, b, name);
  }

  lemma LookupOfOne(m: Member, name: string)
    ensures Lookup([m], name) == if m.name == name then Some(m.value) else None
  {
    assert [m] == [] + [m];
    LookupLast([], m, name);
  }

  lemma UsageOfOneCount(prompt: nat)
    ensures OpenAiUsage(OneCount(prompt).members) == Some(Usage(prompt, 0, prompt))
  {
    hide Lookup;
    LookupOfOne(Member("prompt_tokens", Count(prompt)), "prompt_tokens");
    LookupOfOne(Member("prompt_tokens", Count(prompt)), "completion_tokens");
    LookupOfOne(Member("prompt_tokens", Count(prompt)), "output_tokens");
    LookupOfOne(Member("prompt_tokens", Count(prompt)), "total_tokens");
  }

  lemma UsageOfTwoCounts(inner: nat, outer: nat, n: nat)
    ensures UsageFromObject(TwoCounts(inner, outer, n)) == Some(Usage(inner, 0, inner))
  {
    hide Lookup, Pad;
    var a, b, c := Member("usage", OneCount(inner)), Member("prompt_tokens", Count(outer)), Member("message", Text(Pad(n)));
    LookupOfThree(a, b, c, "response");
    LookupOfThree(a, b, c, "usage");
    UsageOfOneCount(inner);
  }

  /** The number of padding characters that makes the object exactly as long as the tail. */
  function Filling(inner: nat, outer: nat): nat
    requires |Print(TwoCounts(inner, outer, 0))| <= MAX_TAIL
  {
    MAX_TAIL - |Print(TwoCounts(inner, outer, 0))|
  }

  lemma FilledIsTheTail(inner: nat, outer: nat)
    requires |Print(TwoCounts(inner, outer, 0))| <= MAX_TAIL
    ensures |Print(TwoCounts(inner, outer, Filling(inner, outer)))| == MAX_TAIL
  {
    hide Print, PrintMembers, Decimal;
    PrintTwoCounts(inner, outer, 0);
    PrintTwoCounts(inner, outer, Filling(inner, outer));
  }

  lemma CountIsPassed(name: string, n: nat, rest: string, names: seq<string>)
    requires AreNames(names) && '\"' !in name && name !in names
    ensures LastField(Quote(name) + (":" + (Decimal(n) + rest)), names) == LastField(rest, names)
  {
    hide LastField, AreNames;
    DecimalIsDigits(n);
    PlainIsPassed(Decimal(n), rest, names);
    PlainIsPassed(":", Decimal(n) + rest, names);
    QuotedIsPassed(name, ":" + (Decimal(n) + rest), names);
  }

  lemma OtherFieldsAbsent(inner: nat, outer: nat, n: nat, names: seq<string>)
    requires AreNames(names) && "usage" !in names && "prompt_tokens" !in names && "message" !in names
    ensures LastField(": " + Print(TwoCounts(inner, outer, n)), names) == None
  {
    hide LastField, AreNames, Ending, Print, PrintMembers, Decimal, Quote;
    var after := AfterUsage(outer, n);
    EndingIsPassed(n, names);
    CountIsPassed("prompt_tokens", outer, Ending(n), names);
    PlainIsPassed("},", after, names);
    CountIsPassed("prompt_tokens", inner, "}," + after, names);
    var usage := Quote("prompt_tokens") + (":" + (Decimal(inner) + ("}," + after)));
    PlainIsPassed(":{", usage, names);
    QuotedIsPassed("usage", ":{" + usage, names);
    PlainIsPassed(": {", Quote("usage") + (":{" + usage), names);
    PrintOneCount(inner);
    PrintTwoCounts(inner, outer, n);
    assert ": " + Print(TwoCounts(inner, outer, n)) == ": {" + (Quote("usage") + (":{" + usage));
  }

  lemma OuterCountIsFound(inner: nat, outer: nat, n: nat)
    ensures LastField(": " + Print(TwoCounts(inner, outer, n)), PROMPT_NAMES) == Some(outer)
  {
    hide LastField, AreNames, Print, PrintMembers, Decimal, Quote;
    PromptNames();
    EndingIsPassed(n, PROMPT_NAMES);
    assert PROMPT_NAMES[1] == "prompt_tokens";
    FieldIsFound("prompt_tokens", outer, Ending(n), PROMPT_NAMES);
    var head := ": {" + Quote("usage") + ":" + Print(OneCount(inner)) + ",";
    FieldsOfTheTail(head, AfterUsage(outer, n), PROMPT_NAMES);
    PrintTwoCounts(inner, outer, n);
    assert ": " + Print(TwoCounts(inner, outer, n)) == head + AfterUsage(outer, n);
  }

  lemma SearchOfTwoCounts(inner: nat, outer: nat, n: nat)
    ensures Search(": " + Print(TwoCounts(inner, outer, n))) == Some(Usage(outer, 0, outer))
  {
    hide LastField, AreNames, Print, PrintMembers;
    OuterCountIsFound(inner, outer, n);
    CompletionNames();
    TotalNames();
    assert "prompt_tokens"[0] != "output_tokens"[0] && "prompt_tokens"[0] != "total_tokens"[0];
    OtherFieldsAbsent(inner, outer, n, COMPLETION_NAMES);
    OtherFieldsAbsent(inner, outer, n, TOTAL_NAMES);
  }

  lemma TwoCountsIsOneLine(inner: nat, outer: nat, n: nat)
    ensures var text := Print(TwoCounts(inner, outer, n)); '\n' !in text && IsBraced(text)
  {
    hide Decimal, Print, PrintMembers, Quote, TwoCounts, OneCount;
    PrintTwoCounts(inner, outer, n);
    PrintOneCount(inner);
    DecimalIsOneLine(inner);
    DecimalIsOneLine(outer);
    EndingIsOneLine(n);
    NameIsOneLine("usage");
    NameIsOneLine("prompt_tokens");
  }

  lemma CommentIsNotMetered(text: string, reader: Reader)
    requires IsBraced(text)
    ensures Meter(": " + text, reader) == None
  {
    var line := ": " + text;
    assert line[|line| - 1] == '}';
    PayloadStays(line);
  }

  /**
   A comment of an event stream that ends in an object as long as the tail: the whole is metered by
   the search, with the outer number, and the tail by the object, with the inner one.
  */
  lemma CutLaysBareAnObject(inner: nat, outer: nat, reader: Reader)
    requires |Print(TwoCounts(inner, outer, 0))| <= MAX_TAIL
    requires var v := TwoCounts(inner, outer, Filling(inner, outer)); reader(Print(v)) == Some(v)
    ensures var text := ": " + Print(TwoCounts(inner, outer, Filling(inner, outer)));
            && Extract(text, reader) == Some(Usage(outer, 0, outer))
            && Extract(LastBytes(text), reader) == Some(Usage(inner, 0, inner))
  {
    hide Print, PrintMembers, UsageFromObject, Lines, Meter, LastUsage, Search, IsBraced;
    var n := Filling(inner, outer);
    var v := TwoCounts(inner, outer, n);
    FilledIsTheTail(inner, outer);
    TwoCountsIsOneLine(inner, outer, n);
    UsageOfTwoCounts(inner, outer, n);
    ObjectIsMetered(Print(v), v, reader);
    var text := ": " + Print(v);
    assert LastBytes(text) == Print(v);
    CommentIsNotMetered(Print(v), reader);
    UsageOfOneLine(text, reader);
    SearchOfTwoCounts(inner, outer, n);
  }
}
