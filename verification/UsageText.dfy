/**
 What the ledger reads out of the text of a response: the usage in the last line that is a JSON
 object, and otherwise the last numbers that stand behind the names of the usage fields. The JSON
 reader is a parameter.
*/
module UsageText {
  import opened Results
  import opened Splitting
  import opened Texts

  datatype Usage = Usage(prompt: nat, completion: nat, total: nat)

  // ---------------------------------------------------------------- JSON values

  /** `Other` stands for booleans, arrays and numbers that are no counts. */
  datatype Json = Null | Count(n: nat) | Text(s: string) | Object(members: seq<Member>) | Other

  datatype Member = Member(name: string, value: Json)

  /** Reads a text as JSON, unless it is none. */
  type Reader = string -> Option<Json>

  /** Of members with one name the last counts. */
  function Lookup(members: seq<Member>, name: string): (r: Option<Json>)
    ensures r.Some? ==> exists i :: 0 <= i < |members| && members[i].value == r.value
  {
    if members == [] then None
    else if members[|members| - 1].name == name then Some(members[|members| - 1].value)
    else Lookup(members[..|members| - 1], name)
  }

  /** The `??` of the source: absent and null give way to the second. */
  function Either(a: Option<Json>, b: Option<Json>): Option<Json> {
    if a.None? || a.value.Null? then b else a
  }

  function CountOf(v: Option<Json>): Option<nat> {
    if v.Some? && v.value.Count? then Some(v.value.n) else None
  }

  function Default(n: Option<nat>, otherwise: nat): nat { if n.Some? then n.value else otherwise }

  function NormalizedUsage(prompt: Option<nat>, completion: Option<nat>, total: Option<nat>): Option<Usage> {
    if prompt.None? && completion.None? && total.None? then None
    else
      var p, c := Default(prompt, 0), Default(completion, 0);
      Some(Usage(p, c, Default(total, p + c)))
  }

  function OpenAiUsage(usage: seq<Member>): Option<Usage> {
    NormalizedUsage(CountOf(Either(Lookup(usage, "prompt_tokens"), Lookup(usage, "input_tokens"))),
                    CountOf(Either(Lookup(usage, "completion_tokens"), Lookup(usage, "output_tokens"))),
                    CountOf(Lookup(usage, "total_tokens")))
  }

  function OwnUsage(members: seq<Member>): Option<Usage> {
    var usage := Lookup(members, "usage");
    if usage.Some? && usage.value.Object? then OpenAiUsage(usage.value.members)
    else NormalizedUsage(CountOf(Lookup(members, "prompt_eval_count")), CountOf(Lookup(members, "eval_count")), None)
  }

  function UsageFromObject(v: Json): Option<Usage>
    requires v.Object?
  {
    var response := Lookup(v.members, "response");
    var inner := if response.Some? && response.value.Object? then UsageFromObject(response.value) else None;
    if inner.Some? then inner else OwnUsage(v.members)
  }

  // ---------------------------------------------------------------- lines

  function Lines(text: string): seq<string> { Split(text, '\n') }

  const DATA := "data:"

  /** The line without its blanks around, and without the prefix of a server-sent event. */
  function Payload(line: string): string {
    var t := Trim(line);
    if DATA <= t then t[|DATA| + BlankLength(t[|DATA|..])..] else t
  }

  predicate IsBraced(s: string) { s != "" && s[0] == '{' && s[|s| - 1] == '}' }

  function Meter(line: string, reader: Reader): Option<Usage> {
    var payload := Payload(line);
    if !IsBraced(payload) then None
    else
      var value := reader(payload);
      if value.Some? && value.value.Object? then UsageFromObject(value.value) else None
  }

  /** The usage of the last line that has one. */
  function LastUsage(lines: seq<string>, reader: Reader): Option<Usage> {
    if lines == [] then None
    else
      var later := LastUsage(lines[1..], reader);
      if later.Some? then later else Meter(lines[0], reader)
  }

  lemma {:induction false} LastUsageConcat(a: seq<string>, b: seq<string>, reader: Reader)
    ensures LastUsage(a + b, reader)
            == if LastUsage(b, reader).Some? then LastUsage(b, reader) else LastUsage(a, reader)
  {
    if a == [] {
      assert a + b == b;
    } else {
      LastUsageConcat(a[1..], b, reader);
      assert (a + b)[1..] == a[1..] + b;
    }
  }

  // ---------------------------------------------------------------- the search for the three numbers

  const PROMPT_NAMES := ["prompt_eval_count", "prompt_tokens", "input_tokens"]
  const COMPLETION_NAMES := ["eval_count", "completion_tokens", "output_tokens"]
  const TOTAL_NAMES := ["total_tokens"]

  predicate IsNameChar(c: char) { 'a' <= c <= 'z' || c == '_' }

  predicate IsName(name: string) {
    name != "" && forall i :: 0 <= i < |name| ==> IsNameChar(name[i])
  }

  predicate AreNames(names: seq<string>) { forall k :: 0 <= k < |names| ==> IsName(names[k]) }

  lemma PromptNames()
    ensures AreNames(PROMPT_NAMES)
  {}

  lemma CompletionNames()
    ensures AreNames(COMPLETION_NAMES)
  {}

  lemma TotalNames()
    ensures AreNames(TOTAL_NAMES)
  {}

  function Quote(s: string): string { "\"" + s + "\"" }

  /** The length of the quoted name in front, and zero if there is none. */
  function NameLength(s: string, names: seq<string>): (n: nat)
    ensures n <= |s|
    ensures n > 0 ==> exists k :: 0 <= k < |names| && n == |Quote(names[k])| && Quote(names[k]) <= s
  {
    if names == [] then 0
    else if Quote(names[0]) <= s then |Quote(names[0])|
    else
      var n := NameLength(s, names[1..]);
      assert n > 0 ==> exists k :: 0 <= k < |names| && n == |Quote(names[k])| && Quote(names[k]) <= s by {
        if n > 0 {
          var k :| 0 <= k < |names[1..]| && n == |Quote(names[1..][k])| && Quote(names[1..][k]) <= s;
          assert names[k + 1] == names[1..][k];
        }
      }
      n
  }

  predicate IsDigit(c: char) { '0' <= c <= '9' }

  function DigitLength(s: string): (n: nat)
    ensures n <= |s|
    ensures forall i :: 0 <= i < n ==> IsDigit(s[i])
    ensures n < |s| ==> !IsDigit(s[n])
  {
    if s == "" || !IsDigit(s[0]) then 0 else 1 + DigitLength(s[1..])
  }

  function Number(digits: string): nat
    requires forall i :: 0 <= i < |digits| ==> IsDigit(digits[i])
  {
    if digits == "" then 0
    else
      var last := digits[|digits| - 1];
      assert IsDigit(last);
      Number(digits[..|digits| - 1]) * 10 + (last as int - '0' as int)
  }

  datatype Match = Match(number: nat, size: nat)

  /** A colon and digits in front, with blanks before each. */
  function NumberAfterColon(s: string): (r: Option<Match>)
    ensures r.Some? ==> 0 < r.value.size <= |s|
  {
    var colon := BlankLength(s);
    if colon == |s| || s[colon] != ':' then None
    else
      var digits := colon + 1 + BlankLength(s[colon + 1..]);
      var n := DigitLength(s[digits..]);
      if n == 0 then None else Some(Match(Number(s[digits..][..n]), digits + n))
  }

  /** The expression of the source, matched at the front of a text: a quoted name, a colon and digits. */
  function FieldAt(s: string, names: seq<string>): (r: Option<Match>)
    ensures r.Some? ==> 0 < r.value.size <= |s|
  {
    var name := NameLength(s, names);
    if name == 0 then None
    else
      var rest := NumberAfterColon(s[name..]);
      if rest.Some? then Some(Match(rest.value.number, name + rest.value.size)) else None
  }

  /** The number of the last position at which the expression matches. */
  function LastField(s: string, names: seq<string>): Option<nat> {
    if s == "" then None
    else
      var later := LastField(s[1..], names);
      if later.Some? then later
      else
        var here := FieldAt(s, names);
        if here.Some? then Some(here.value.number) else None
  }

  lemma NameInFront(s: string, names: seq<string>)
    requires AreNames(names) && NameLength(s, names) > 0
    ensures |s| > 2 && s[0] == '\"' && IsNameChar(s[1])
  {
    var k :| 0 <= k < |names| && NameLength(s, names) == |Quote(names[k])| && Quote(names[k]) <= s;
    assert IsName(names[k]);
    assert s[1] == Quote(names[k])[1] == names[k][0];
  }

  lemma NoNameHere(s: string, names: seq<string>)
    requires AreNames(names)
    requires |s| < 2 || s[0] != '\"' || !IsNameChar(s[1])
    ensures FieldAt(s, names) == None
  {
    if NameLength(s, names) > 0 {
      NameInFront(s, names);
    }
  }

  lemma ColonHoldsNoQuote(s: string, k: nat)
    requires NumberAfterColon(s).Some? && k < NumberAfterColon(s).value.size
    ensures s[k] != '\"' && !IsNameChar(s[0])
  {
    var colon := BlankLength(s);
    var digits := colon + 1 + BlankLength(s[colon + 1..]);
    if colon < k < digits {
      assert s[k] == s[colon + 1..][k - colon - 1];
    } else if digits <= k {
      assert s[k] == s[digits..][k - digits];
    }
  }

  /** Matches do not overlap, so the matches from left to right are those of all positions. */
  lemma MatchesDoNotOverlap(s: string, names: seq<string>, k: nat)
    requires AreNames(names) && FieldAt(s, names).Some? && 0 < k < FieldAt(s, names).value.size
    ensures FieldAt(s[k..], names) == None
  {
    hide NumberAfterColon;
    var n := NameLength(s, names);
    var w :| 0 <= w < |names| && n == |Quote(names[w])| && Quote(names[w]) <= s;
    assert IsName(names[w]);
    if k < n - 1 {
      assert s[k] == Quote(names[w])[k] == names[w][k - 1];
    } else if k == n - 1 {
      ColonHoldsNoQuote(s[n..], 0);
    } else {
      ColonHoldsNoQuote(s[n..], k - n);
    }
    NoNameHere(s[k..], names);
  }

  lemma {:induction false} NoFieldBetween(s: string, names: seq<string>, i: nat, k: nat)
    requires i <= k <= |s| && forall j :: i <= j < k ==> FieldAt(s[j..], names) == None
    ensures LastField(s[i..], names) == LastField(s[k..], names)
    decreases k - i
  {
    hide FieldAt;
    if i < k {
      assert s[i..][1..] == s[i + 1..];
      NoFieldBetween(s, names, i + 1, k);
    }
  }

  /** What a match in front leaves to be found. */
  lemma AfterTheMatch(s: string, names: seq<string>)
    requires AreNames(names) && FieldAt(s, names).Some?
    ensures var m := FieldAt(s, names).value;
            LastField(s, names)
            == if LastField(s[m.size..], names).Some? then LastField(s[m.size..], names) else Some(m.number)
  {
    hide FieldAt, AreNames;
    var m := FieldAt(s, names).value;
    forall j | 1 <= j < m.size
      ensures FieldAt(s[j..], names) == None
    {
      MatchesDoNotOverlap(s, names, j);
    }
    NoFieldBetween(s, names, 1, m.size);
  }

  /** The loop over the matches of the expression, from left to right. */
  method LastInteger(text: string, names: seq<string>) returns (last: Option<nat>)
    requires AreNames(names)
    ensures last == LastField(text, names)
  {
    hide FieldAt, AreNames;
    last := None;
    var i := 0;
    while i < |text|
      invariant 0 <= i <= |text|
      invariant LastField(text, names)
                == if LastField(text[i..], names).Some? then LastField(text[i..], names) else last
    {
      var here := FieldAt(text[i..], names);
      if here.Some? {
        AfterTheMatch(text[i..], names);
        assert text[i..][here.value.size..] == text[i + here.value.size..];
        last := Some(here.value.number);
        i := i + here.value.size;
      } else {
        assert text[i..][1..] == text[i + 1..];
        i := i + 1;
      }
    }
  }

  function Search(text: string): Option<Usage> {
    NormalizedUsage(LastField(text, PROMPT_NAMES), LastField(text, COMPLETION_NAMES), LastField(text, TOTAL_NAMES))
  }

  // ---------------------------------------------------------------- both together

  function Extract(text: string, reader: Reader): Option<Usage> {
    var usage := LastUsage(Lines(text), reader);
    if usage.Some? then usage else Search(text)
  }

  /** The last line first, as the source goes through them, and then the search. */
  method ExtractTokenUsage(text: string, reader: Reader) returns (r: Option<Usage>)
    ensures r == Extract(text, reader)
  {
    hide Meter, LastField, NormalizedUsage, AreNames, Lines;
    var lines := Lines(text);
    var i := |lines|;
    while i > 0
      invariant 0 <= i <= |lines|
      invariant LastUsage(lines[i..], reader) == None
    {
      i := i - 1;
      var usage := Meter(lines[i], reader);
      assert lines[i..][1..] == lines[i + 1..];
      if usage.Some? {
        assert lines == lines[..i] + lines[i..];
        LastUsageConcat(lines[..i], lines[i..], reader);
        return usage;
      }
    }
    assert lines[0..] == lines;
    PromptNames();
    CompletionNames();
    TotalNames();
    var prompt := LastInteger(text, PROMPT_NAMES);
    var completion := LastInteger(text, COMPLETION_NAMES);
    var total := LastInteger(text, TOTAL_NAMES);
    r := NormalizedUsage(prompt, completion, total);
  }
}
