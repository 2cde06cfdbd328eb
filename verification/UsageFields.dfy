/** Which field of a response is which number, for the services that the proxy talks to. */
module UsageFields {
  import opened Results
  import opened UsageText
  import opened UsageTailGaps

  // ---------------------------------------------------------------- fields of an object

  /** The last member of that name has the value. */
  predicate Gives(members: seq<Member>, name: string, value: Json) {
    exists i :: 0 <= i < |members| && members[i] == Member(name, value)
      && forall j :: i < j < |members| ==> members[j].name != name
  }

  predicate Lacks(members: seq<Member>, name: string) {
    forall i :: 0 <= i < |members| ==> members[i].name != name
  }

  lemma GivesSnoc(members: seq<Member>, m: Member, name: string, value: Json)
    ensures Gives(members + [m], name, value) <==> if m.name == name then m.value == value else Gives(members, name, value)
  {
    var more, n := members + [m], |members|;
    assert more[n] == m && forall i :: 0 <= i < n ==> more[i] == members[i];
    if m.name == name {
      assert m == Member(name, m.value);
    } else if Gives(members, name, value) {
      var i :| 0 <= i < n && members[i] == Member(name, value) && forall j :: i < j < n ==> members[j].name != name;
      assert more[i] == Member(name, value);
    }
  }

  lemma {:induction false} LookupIsLast(members: seq<Member>, name: string, value: Json)
    ensures Lookup(members, name) == Some(value) <==> Gives(members, name, value)
    ensures Lookup(members, name) == None <==> Lacks(members, name)
  {
    hide Gives;
    if members == [] {
      NothingGiven(name, value);
    } else {
      var n := |members| - 1;
      LookupIsLast(members[..n], name, value);
      assert members == members[..n] + [members[n]];
      GivesSnoc(members[..n], members[n], name, value);
    }
  }

  lemma NothingGiven(name: string, value: Json)
    ensures !Gives([], name, value)
  {
  }

  /** The counter of that name; a value that is no number of tokens is as good as none. */
  ghost predicate Reads(members: seq<Member>, name: string, n: Option<nat>) {
    && (n.Some? ==> Gives(members, name, Count(n.value)))
    && (n.None? ==> forall k: nat :: !Gives(members, name, Count(k)))
  }

  /** The two spellings of a counter; the second is read when the first is missing or null. */
  ghost predicate ReadsEither(members: seq<Member>, first: string, second: string, n: Option<nat>) {
    if Lacks(members, first) || Gives(members, first, Null) then Reads(members, second, n) else Reads(members, first, n)
  }

  /** The usage of three counters: none without any, else zeros for the missing ones and their sum for a missing total. */
  predicate Makes(prompt: Option<nat>, completion: Option<nat>, total: Option<nat>, r: Option<Usage>) {
    && (r.None? <==> prompt.None? && completion.None? && total.None?)
    && (r.Some? ==>
          && r.value.prompt == (if prompt.Some? then prompt.value else 0)
          && r.value.completion == (if completion.Some? then completion.value else 0)
          && r.value.total == if total.Some? then total.value else r.value.prompt + r.value.completion)
  }

  /** The nested response, if there is one, has no usage of its own. */
  ghost predicate NothingNested(members: seq<Member>) {
    forall r: Json :: r.Object? && Gives(members, "response", r) ==> UsageFromObject(r) == None
  }

  lemma CounterIsRead(members: seq<Member>, name: string, n: Option<nat>)
    ensures Reads(members, name, n) <==> CountOf(Lookup(members, name)) == n
  {
    hide Lookup, Gives, Lacks;
    forall k: nat ensures Lookup(members, name) == Some(Count(k)) <==> Gives(members, name, Count(k)) {
      LookupIsLast(members, name, Count(k));
    }
  }

  lemma EitherIsRead(members: seq<Member>, first: string, second: string, n: Option<nat>)
    ensures ReadsEither(members, first, second, n) <==>
            CountOf(Either(Lookup(members, first), Lookup(members, second))) == n
  {
    hide Lookup, Gives, Lacks, Reads;
    LookupIsLast(members, first, Null);
    CounterIsRead(members, first, n);
    CounterIsRead(members, second, n);
  }

  lemma OwnUsageDecides(members: seq<Member>)
    requires NothingNested(members)
    ensures UsageFromObject(Object(members)) == OwnUsage(members)
  {
    hide Lookup, Gives, OwnUsage;
    var response := Lookup(members, "response");
    if response.Some? {
      LookupIsLast(members, "response", response.value);
    }
  }

  /** A nested response that has a usage decides, whatever stands beside it. */
  lemma NestedResponseDecides(members: seq<Member>, response: Json)
    requires response.Object? && Gives(members, "response", response) && UsageFromObject(response).Some?
    ensures UsageFromObject(Object(members)) == UsageFromObject(response)
  {
    hide Lookup, OwnUsage;
    LookupIsLast(members, "response", response);
  }

  /** Without one, the counters of an OpenAI reply, which stand in its usage object. */
  lemma OpenAiCountersAreRead(members: seq<Member>, usage: seq<Member>,
                              prompt: Option<nat>, completion: Option<nat>, total: Option<nat>)
    requires NothingNested(members) && Gives(members, "usage", Object(usage))
    requires ReadsEither(usage, "prompt_tokens", "input_tokens", prompt)
    requires ReadsEither(usage, "completion_tokens", "output_tokens", completion)
    requires Reads(usage, "total_tokens", total)
    ensures Makes(prompt, completion, total, UsageFromObject(Object(members)))
  {
    hide Lookup, Gives, Lacks, NothingNested, Reads, ReadsEither;
    OwnUsageDecides(members);
    LookupIsLast(members, "usage", Object(usage));
    EitherIsRead(usage, "prompt_tokens", "input_tokens", prompt);
    EitherIsRead(usage, "completion_tokens", "output_tokens", completion);
    CounterIsRead(usage, "total_tokens", total);
  }

  /** Without a usage object either, the counters of an Ollama reply, which stand in the object itself. */
  lemma OllamaCountersAreRead(members: seq<Member>, prompt: Option<nat>, completion: Option<nat>)
    requires NothingNested(members) && forall usage :: !Gives(members, "usage", Object(usage))
    requires Reads(members, "prompt_eval_count", prompt) && Reads(members, "eval_count", completion)
    ensures Makes(prompt, completion, None, UsageFromObject(Object(members)))
  {
    hide Lookup, Gives, NothingNested, Reads;
    OwnUsageDecides(members);
    var usage := Lookup(members, "usage");
    if usage.Some? && usage.value.Object? {
      LookupIsLast(members, "usage", usage.value);
    }
    CounterIsRead(members, "prompt_eval_count", prompt);
    CounterIsRead(members, "eval_count", completion);
  }

  // ---------------------------------------------------------------- fields of a text

  function Field(name: string, n: nat, rest: string): string { Quote(name) + (":" + (Decimal(n) + rest)) }

  lemma OtherFieldIsPassed(name: string, n: nat, rest: string, names: seq<string>)
    requires AreNames(names) && '\"' !in name && name !in names
    ensures LastField(Field(name, n, rest), names) == LastField(rest, names)
  {
    hide AreNames, LastField, Decimal, Quote, IsDigit;
    var digits := Decimal(n);
    DecimalIsDigits(n);
    var after := ":" + (digits + rest);
    QuotedIsPassed(name, after, names);
    NoQuoteInDigits(digits);
    assert ":" + (digits + rest) == (":" + digits) + rest;
    PlainIsPassed(":" + digits, rest, names);
  }

  lemma NoQuoteInDigits(digits: string)
    requires forall i :: 0 <= i < |digits| ==> IsDigit(digits[i])
    ensures '\"' !in digits
  {
  }

  /** Three fields of a text, under any of the names that the services use. */
  function ThreeFields(p: string, prompt: nat, c: string, completion: nat, total: nat, rest: string): string {
    Field(p, prompt, "," + Field(c, completion, "," + Field("total_tokens", total, rest)))
  }

  lemma CommaIsPassed(rest: string, names: seq<string>)
    requires AreNames(names)
    ensures LastField("," + rest, names) == LastField(rest, names)
  {
    PlainIsPassed(",", rest, names);
  }

  lemma FieldNames(p: string, c: string)
    requires p in {"prompt_eval_count", "prompt_tokens", "input_tokens"}
    requires c in {"eval_count", "completion_tokens", "output_tokens"}
    ensures '\"' !in p && '\"' !in c && p in PROMPT_NAMES && c in COMPLETION_NAMES
    ensures p !in COMPLETION_NAMES && p !in TOTAL_NAMES && c !in PROMPT_NAMES && c !in TOTAL_NAMES
    ensures "total_tokens" !in PROMPT_NAMES && "total_tokens" !in COMPLETION_NAMES && "total_tokens" in TOTAL_NAMES
    ensures '\"' !in "total_tokens"
  {
  }

  lemma FieldsBehind(c: string, completion: nat, total: nat, rest: string)
    requires c in {"eval_count", "completion_tokens", "output_tokens"}
    requires rest != "" && !IsDigit(rest[0])
    requires forall names :: AreNames(names) ==> LastField(rest, names) == None
    ensures var behind := "," + Field(c, completion, "," + Field("total_tokens", total, rest));
            && LastField(behind, PROMPT_NAMES) == None
            && LastField(behind, COMPLETION_NAMES) == Some(completion)
            && LastField(behind, TOTAL_NAMES) == Some(total)
  {
    hide AreNames, LastField, Decimal, Quote, Field, FieldAt;
    PromptNames();
    CompletionNames();
    TotalNames();
    FieldNames("prompt_tokens", c);
    var last := Field("total_tokens", total, rest);
    OtherFieldIsPassed("total_tokens", total, rest, PROMPT_NAMES);
    OtherFieldIsPassed("total_tokens", total, rest, COMPLETION_NAMES);
    TotalIsFound(total, rest);
    CommaIsPassed(last, PROMPT_NAMES);
    CommaIsPassed(last, COMPLETION_NAMES);
    CommaIsPassed(last, TOTAL_NAMES);
    OtherFieldIsPassed(c, completion, "," + last, PROMPT_NAMES);
    OtherFieldIsPassed(c, completion, "," + last, TOTAL_NAMES);
    FoundInFront(c, completion, "," + last, COMPLETION_NAMES);
    CommaIsPassed(Field(c, completion, "," + last), PROMPT_NAMES);
    CommaIsPassed(Field(c, completion, "," + last), COMPLETION_NAMES);
    CommaIsPassed(Field(c, completion, "," + last), TOTAL_NAMES);
  }

  lemma FoundInFront(name: string, n: nat, rest: string, names: seq<string>)
    requires name in names && AreNames(names) && rest != "" && !IsDigit(rest[0])
    ensures LastField(Field(name, n, rest), names) == if LastField(rest, names).Some? then LastField(rest, names) else Some(n)
  {
    hide AreNames, LastField, Decimal, Quote;
    FieldIsFound(name, n, rest, names);
  }

  lemma TotalIsFound(total: nat, rest: string)
    requires rest != "" && !IsDigit(rest[0]) && forall names :: AreNames(names) ==> LastField(rest, names) == None
    ensures LastField(Field("total_tokens", total, rest), TOTAL_NAMES) == Some(total)
  {
    hide AreNames, LastField, Field;
    TotalNames();
    FoundInFront("total_tokens", total, rest, TOTAL_NAMES);
  }

  /** The search reads each counter from its own field, whichever of its names it has. */
  lemma SearchTellsTheFieldsApart(p: string, prompt: nat, c: string, completion: nat, total: nat, rest: string)
    requires p in {"prompt_eval_count", "prompt_tokens", "input_tokens"}
    requires c in {"eval_count", "completion_tokens", "output_tokens"}
    requires rest != "" && !IsDigit(rest[0])
    requires forall names :: AreNames(names) ==> LastField(rest, names) == None
    ensures Search(ThreeFields(p, prompt, c, completion, total, rest)) == Some(Usage(prompt, completion, total))
  {
    hide AreNames, LastField, Decimal, Quote, Field, FieldAt;
    PromptNames();
    CompletionNames();
    TotalNames();
    FieldNames(p, c);
    FieldsBehind(c, completion, total, rest);
    var behind := "," + Field(c, completion, "," + Field("total_tokens", total, rest));
    FoundInFront(p, prompt, behind, PROMPT_NAMES);
    OtherFieldIsPassed(p, prompt, behind, COMPLETION_NAMES);
    OtherFieldIsPassed(p, prompt, behind, TOTAL_NAMES);
  }
}
