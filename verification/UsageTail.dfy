/**
 The bounded tail of a streamed response, and when metering the tail gives what metering the whole
 response would give. A character is a byte here.
*/
module UsageTail {
  import opened Results
  import opened Splitting
  import opened Texts
  import opened UsageText

  const MAX_TAIL := 131_072

  // ---------------------------------------------------------------- the tail

  function LastBytes(text: string): string {
    if |text| <= MAX_TAIL then text else text[|text| - MAX_TAIL..]
  }

  function AppendTail(current: string, chunk: string): string { LastBytes(current + chunk) }

  function Concat(chunks: seq<string>): string {
    if chunks == [] then "" else Concat(chunks[..|chunks| - 1]) + chunks[|chunks| - 1]
  }

  lemma TailOfTail(a: string, b: string)
    ensures LastBytes(LastBytes(a) + b) == LastBytes(a + b)
  {
    var cut := |a| - |LastBytes(a)|;
    assert LastBytes(a) + b == (a + b)[cut..];
  }

  /** The handlers of the chunks of a response, one after the other: however it was cut, its last bytes remain. */
  method ReadTail(chunks: seq<string>) returns (tail: string)
    ensures tail == LastBytes(Concat(chunks))
  {
    tail := "";
    for i := 0 to |chunks|
      invariant tail == LastBytes(Concat(chunks[..i]))
    {
      assert chunks[..i + 1][..i] == chunks[..i];
      TailOfTail(Concat(chunks[..i]), chunks[i]);
      tail := AppendTail(tail, chunks[i]);
    }
    assert chunks[..|chunks|] == chunks;
  }

  // ---------------------------------------------------------------- a last metered line within the tail

  predicate EndsLine(before: string) { before == "" || before[|before| - 1] == '\n' }

  predicate StartsLine(after: string) { after == "" || after[0] == '\n' }

  /** The text is cut around a line that has a usage, and no later line has one. */
  predicate LastMetered(text: string, before: string, line: string, after: string, reader: Reader) {
    && text == before + line + after
    && EndsLine(before) && '\n' !in line && StartsLine(after)
    && Meter(line, reader).Some?
    && (after != "" ==> LastUsage(Lines(after[1..]), reader).None?)
  }

  lemma UsageOfOneLine(line: string, reader: Reader)
    requires '\n' !in line
    ensures LastUsage(Lines(line), reader) == Meter(line, reader)
  {
    hide Meter;
    OnePiece(line, '\n');
    assert [line][1..] == [];
  }

  lemma LineThenRest(line: string, after: string, reader: Reader)
    requires '\n' !in line && StartsLine(after) && Meter(line, reader).Some?
    requires after != "" ==> LastUsage(Lines(after[1..]), reader).None?
    ensures LastUsage(Lines(line + after), reader) == Meter(line, reader)
  {
    hide Split, LastUsage, Meter;
    UsageOfOneLine(line, reader);
    if after == "" {
      assert line + after == line;
    } else {
      assert after == "\n" + after[1..];
      assert line + after == line + "\n" + after[1..];
      SplitConcat(line, after[1..], '\n');
      LastUsageConcat(Lines(line), Lines(after[1..]), reader);
    }
  }

  lemma MeteredLineIsFound(text: string, before: string, line: string, after: string, reader: Reader)
    requires LastMetered(text, before, line, after, reader)
    ensures LastUsage(Lines(text), reader) == Meter(line, reader)
  {
    hide Split, LastUsage, Meter;
    LineThenRest(line, after, reader);
    if before == "" {
      assert text == line + after;
    } else {
      var b := before[..|before| - 1];
      assert before == b + "\n";
      assert text == b + "\n" + (line + after);
      SplitConcat(b, line + after, '\n');
      LastUsageConcat(Lines(b), Lines(line + after), reader);
    }
  }

  function FirstNewline(text: string): (n: nat)
    requires '\n' in text
    ensures n < |text| && text[n] == '\n' && '\n' !in text[..n]
  {
    if text[0] == '\n' then 0
    else
      assert '\n' in text[1..];
      var n := FirstNewline(text[1..]);
      assert text[..n + 1] == [text[0]] + text[1..][..n];
      n + 1
  }

  lemma LaterStillMetered(a: string, b: string, before: string, line: string, after: string, reader: Reader)
    requires LastMetered(b, before, line, after, reader)
    ensures LastMetered(a + "\n" + b, a + "\n" + before, line, after, reader)
  {
    hide Split, LastUsage, Meter;
    assert a + "\n" + (before + line + after) == (a + "\n" + before) + line + after;
  }

  /** Whenever some line has a usage, the last such line can be named. */
  lemma {:induction false} MeteredLineExists(text: string, reader: Reader)
    returns (before: string, line: string, after: string)
    requires LastUsage(Lines(text), reader).Some?
    ensures LastMetered(text, before, line, after, reader)
    decreases |text|
  {
    hide Split, LastUsage, Meter;
    if '\n' !in text {
      UsageOfOneLine(text, reader);
      before, line, after := "", text, "";
    } else {
      var n := FirstNewline(text);
      var a, b := text[..n], text[n + 1..];
      assert text == a + "\n" + b;
      SplitConcat(a, b, '\n');
      LastUsageConcat(Lines(a), Lines(b), reader);
      if LastUsage(Lines(b), reader).Some? {
        var inner;
        inner, line, after := MeteredLineExists(b, reader);
        before := a + "\n" + inner;
        LaterStillMetered(a, b, inner, line, after, reader);
      } else {
        UsageOfOneLine(a, reader);
        before, line, after := "", a, "\n" + b;
        assert after[1..] == b;
      }
    }
  }

  /**
   Chunking and truncation do not change the metering of a response whose last metered line lies
   wholly within the tail.
  */
  lemma TailMetersTheResponse(chunks: seq<string>, before: string, line: string, after: string, reader: Reader)
    requires LastMetered(Concat(chunks), before, line, after, reader)
    requires |line| + |after| <= MAX_TAIL
    ensures Extract(LastBytes(Concat(chunks)), reader) == Extract(Concat(chunks), reader) == Meter(line, reader)
  {
    hide Meter, LastUsage, Lines, Search;
    var text := Concat(chunks);
    MeteredLineIsFound(text, before, line, after, reader);
    var cut := |text| - |LastBytes(text)|;
    assert text[cut..] == before[cut..] + line + after;
    MeteredLineIsFound(LastBytes(text), before[cut..], line, after, reader);
  }

  // ---------------------------------------------------------------- when the tail is as good as the whole

  /** What is left of the line that was cut; the other lines of the tail are lines of the whole. */
  function Remnant(tail: string): string { Lines(tail)[0] }

  function LaterLines(tail: string): seq<string> { Lines(tail)[1..] }

  /** The lines of the whole up to and with the one that was cut. */
  function EarlierLines(head: string, tail: string): seq<string> { Lines(head + Remnant(tail)) }

  lemma LinesOfTheWhole(head: string, tail: string)
    ensures Lines(head + tail) == EarlierLines(head, tail) + LaterLines(tail)
  {
    if '\n' !in tail {
      OnePiece(tail, '\n');
      assert Lines(tail) == [tail];
      assert Lines(head + tail) + [] == Lines(head + tail);
    } else {
      hide Split;
      var n := FirstNewline(tail);
      var a, b := tail[..n], tail[n + 1..];
      assert tail == a + "\n" + b;
      SplitConcat(a, b, '\n');
      OnePiece(a, '\n');
      assert Lines(tail) == [a] + Lines(b);
      assert head + tail == head + a + "\n" + b;
      SplitConcat(head + a, b, '\n');
    }
  }

  /** The search finds in the whole what it finds in the tail. */
  lemma {:induction false} FieldsOfTheTail(head: string, tail: string, names: seq<string>)
    requires LastField(tail, names).Some?
    ensures LastField(head + tail, names) == LastField(tail, names)
  {
    hide FieldAt;
    if head == "" {
      assert head + tail == tail;
    } else {
      FieldsOfTheTail(head[1..], tail, names);
      assert (head + tail)[1..] == head[1..] + tail;
    }
  }

  /** The number is found in the tail, or nowhere, or is the one that is taken in its place. */
  predicate IsKept(head: string, tail: string, names: seq<string>, otherwise: nat) {
    var wanted := LastField(head + tail, names);
    LastField(tail, names).Some? || wanted.None? || wanted == Some(otherwise)
  }

  predicate HasField(text: string) {
    || LastField(text, PROMPT_NAMES).Some?
    || LastField(text, COMPLETION_NAMES).Some?
    || LastField(text, TOTAL_NAMES).Some?
  }

  /** Each of the three numbers is kept, and at least one is left if there were any. */
  predicate SearchIsKept(head: string, tail: string) {
    var prompt := Default(LastField(head + tail, PROMPT_NAMES), 0);
    var completion := Default(LastField(head + tail, COMPLETION_NAMES), 0);
    && IsKept(head, tail, PROMPT_NAMES, 0)
    && IsKept(head, tail, COMPLETION_NAMES, 0)
    && IsKept(head, tail, TOTAL_NAMES, prompt + completion)
    && (HasField(head + tail) ==> HasField(tail))
  }

  /** The search of the tail gives the usage of the search of the whole exactly when nothing it needs was cut off. */
  lemma SearchAgreesIff(head: string, tail: string)
    ensures Search(tail) == Search(head + tail) <==> SearchIsKept(head, tail)
  {
    hide LastField;
    if LastField(tail, PROMPT_NAMES).Some? {
      FieldsOfTheTail(head, tail, PROMPT_NAMES);
    }
    if LastField(tail, COMPLETION_NAMES).Some? {
      FieldsOfTheTail(head, tail, COMPLETION_NAMES);
    }
    if LastField(tail, TOTAL_NAMES).Some? {
      FieldsOfTheTail(head, tail, TOTAL_NAMES);
    }
  }

  /**
   When the tail gives the usage of the whole response: a line that begins in the tail has one;
   or the remnant of the cut line reads as just the usage that the earlier lines or else the search
   give; or the remnant reads as nothing, and the search of the tail finds what the earlier lines
   have, or, if they have nothing, keeps what the search needs.
  */
  predicate TailSuffices(head: string, tail: string, reader: Reader) {
    var remnant := Meter(Remnant(tail), reader);
    var earlier := LastUsage(EarlierLines(head, tail), reader);
    || LastUsage(LaterLines(tail), reader).Some?
    || (remnant.Some? && remnant == if earlier.Some? then earlier else Search(head + tail))
    || (remnant.None? && earlier.Some? && Search(tail) == earlier)
    || (remnant.None? && earlier.None? && SearchIsKept(head, tail))
  }

  lemma TailAgreesIff(head: string, tail: string, reader: Reader)
    ensures Extract(tail, reader) == Extract(head + tail, reader) <==> TailSuffices(head, tail, reader)
  {
    hide Split, Meter, Search, SearchIsKept;
    LinesOfTheWhole(head, tail);
    LastUsageConcat(EarlierLines(head, tail), LaterLines(tail), reader);
    assert Lines(tail) == [Remnant(tail)] + LaterLines(tail);
    SearchAgreesIff(head, tail);
  }

  // ---------------------------------------------------------------- when the tail alone decides

  /** Two lines that the reader meters differently. */
  predicate TellsApart(reader: Reader, a: string, b: string) {
    && '\n' !in a && '\n' !in b
    && Meter(a, reader).Some? && Meter(b, reader).Some? && Meter(a, reader) != Meter(b, reader)
  }

  /** What may have been cut off: a line, and the beginning of the next, which is no brace. */
  function HeadWith(line: string): string { line + "\nx" }

  lemma NotALine(remnant: string, reader: Reader)
    ensures Meter("x" + remnant, reader) == None
  {
    var line := "x" + remnant;
    assert line[0] == 'x' && DATA[0] == 'd';
    TrimKeepsFirst(line);
  }

  lemma TrimKeepsFirst(s: string)
    requires s != "" && !IsBlank(s[0])
    ensures Trim(s) != "" && Trim(s)[0] == s[0]
  {
    TrimRightKeepsFirst(s);
  }

  lemma {:induction false} TrimRightKeepsFirst(s: string)
    requires s != "" && !IsBlank(s[0])
    ensures TrimRightBy(s, IsBlank) != "" && TrimRightBy(s, IsBlank)[0] == s[0]
    decreases |s|
  {
    if IsBlank(s[|s| - 1]) {
      TrimRightKeepsFirst(s[..|s| - 1]);
    }
  }

  /** Behind such a head, a tail without a metered later line is metered by the head's line. */
  lemma MeteredByTheHead(line: string, tail: string, reader: Reader)
    requires '\n' !in line && Meter(line, reader).Some? && LastUsage(LaterLines(tail), reader).None?
    ensures Extract(HeadWith(line) + tail, reader) == Meter(line, reader)
  {
    hide Split, Meter, LastUsage, Search;
    var cut := "x" + Remnant(tail);
    LinesOfTheWhole(HeadWith(line), tail);
    LastUsageConcat(EarlierLines(HeadWith(line), tail), LaterLines(tail), reader);
    RemnantIsOneLine(tail);
    assert HeadWith(line) + Remnant(tail) == line + "\n" + cut;
    SplitConcat(line, cut, '\n');
    LastUsageConcat(Lines(line), Lines(cut), reader);
    UsageOfOneLine(line, reader);
    UsageOfOneLine(cut, reader);
    NotALine(Remnant(tail), reader);
  }

  lemma RemnantIsOneLine(tail: string)
    ensures '\n' !in Remnant(tail)
  {
    PiecesHoldNoSeparator(tail, '\n');
  }

  /** Whatever was cut off, the tail gives the usage of the whole exactly when a line that begins in it has one. */
  lemma LaterLineDecidesIff(tail: string, reader: Reader, a: string, b: string)
    requires TellsApart(reader, a, b)
    ensures (forall head :: Extract(head + tail, reader) == Extract(tail, reader))
            <==> LastUsage(LaterLines(tail), reader).Some?
  {
    hide Extract, Meter, LastUsage, TailSuffices;
    if LastUsage(LaterLines(tail), reader).Some? {
      forall head ensures Extract(head + tail, reader) == Extract(tail, reader) {
        TailAgreesIff(head, tail, reader);
        LaterLineSuffices(head, tail, reader);
      }
    } else {
      MeteredByTheHead(a, tail, reader);
      MeteredByTheHead(b, tail, reader);
      assert !(Extract(HeadWith(a) + tail, reader) == Extract(tail, reader) == Extract(HeadWith(b) + tail, reader));
    }
  }

  lemma LaterLineSuffices(head: string, tail: string, reader: Reader)
    requires LastUsage(LaterLines(tail), reader).Some?
    ensures TailSuffices(head, tail, reader)
  {}

  lemma TailOfMore(head: string, tail: string)
    requires |tail| == MAX_TAIL
    ensures LastBytes(head + tail) == tail
  {}

  lemma WhatWasCut(text: string)
    requires |LastBytes(text)| == MAX_TAIL
    ensures text == text[..|text| - MAX_TAIL] + LastBytes(text)
  {}

  /**
   What can be told from the tail alone: every response that leaves this tail is metered like it
   exactly when it is shorter than the bound or a line that begins in it has a usage.
  */
  lemma TailDecidesIff(tail: string, reader: Reader, a: string, b: string)
    requires TellsApart(reader, a, b) && |tail| <= MAX_TAIL
    ensures (forall text :: LastBytes(text) == tail ==> Extract(text, reader) == Extract(tail, reader))
            <==> |tail| < MAX_TAIL || LastUsage(LaterLines(tail), reader).Some?
  {
    hide Extract, LastUsage, TellsApart, LaterLines;
    LaterLineDecidesIff(tail, reader, a, b);
    if |tail| < MAX_TAIL {
      forall text | LastBytes(text) == tail ensures text == tail {
      }
    } else if LastUsage(LaterLines(tail), reader).Some? {
      forall text | LastBytes(text) == tail ensures Extract(text, reader) == Extract(tail, reader) {
        WhatWasCut(text);
      }
    } else {
      var head :| Extract(head + tail, reader) != Extract(tail, reader);
      TailOfMore(head, tail);
    }
  }
}
