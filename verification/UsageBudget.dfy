/** Prices, the daily limit and the time to wait, in units of a ten-millionth of a US dollar. */
module UsageBudget {
  import opened Results
  import opened SortedStrings
  import opened UsageLedger
  import opened UsageLaws
  import opened UsageSnapshot
  import opened UsageSnapshotLaws
  import Texts

  /** Per token, a ten-millionth of a dollar is a tenth of a dollar per million. */
  function Cost(model: string, prompt: nat, completion: nat): nat {
    if model == "gpt-5.6-sol" then 50 * prompt + 300 * completion
    else if model == "gpt-5.6-terra" then 25 * prompt + 150 * completion
    else if model == "gpt-5.6-luna" then 10 * prompt + 60 * completion
    else prompt + 3 * completion
  }

  function ModelCost(m: ModelUsage): nat { Cost(m.model, m.counters.prompt, m.counters.completion) }

  function LineCost(l: Line): nat { Cost(ModelName(l), l.prompt, l.completion) }

  function DailyLimit(serviceCode: string): Option<nat> {
    if serviceCode == "athenz" then Some(2_400_000_000)
    else if serviceCode == "spire" then Some(20_000)
    else None
  }

  function Spend(report: seq<ModelUsage>): nat {
    if report == [] then 0 else ModelCost(report[0]) + Spend(report[1..])
  }

  /** What the requests of a project and day cost one by one. */
  function LogSpend(log: seq<Line>, project: string, day: int): nat {
    if log == [] then 0
    else
      var l := log[|log| - 1];
      LogSpend(log[..|log| - 1], project, day) + if l.project == project && JstDay(l.ms) == day then LineCost(l) else 0
  }

  method EstimatedUsageCost(report: seq<ModelUsage>) returns (total: nat)
    ensures total == Spend(report)
  {
    total := 0;
    for i := 0 to |report|
      invariant total + Spend(report[i..]) == Spend(report)
    {
      assert report[i..][1..] == report[i + 1..];
      total := total + ModelCost(report[i]);
    }
  }

  // ---------------------------------------------------------------- spend

  /** The cost of each model's share of the log. */
  function ByModel(log: seq<Line>, project: string, day: int, names: seq<string>): nat {
    if names == [] then 0
    else
      var c := Total(log, OfModel(project, day, names[0]));
      Cost(names[0], c.prompt, c.completion) + ByModel(log, project, day, names[1..])
  }

  lemma CostAdds(model: string, a: Counters, b: Counters)
    ensures Cost(model, Plus(a, b).prompt, Plus(a, b).completion)
            == Cost(model, a.prompt, a.completion) + Cost(model, b.prompt, b.completion)
  {
  }

  lemma {:induction false} OneMoreLine(log: seq<Line>, project: string, day: int, names: seq<string>)
    requires log != [] && Distinct(names)
    ensures var l := log[|log| - 1];
            ByModel(log, project, day, names) == ByModel(log[..|log| - 1], project, day, names)
              + if l.project == project && JstDay(l.ms) == day && ModelName(l) in names then LineCost(l) else 0
  {
    if names != [] {
      OneMoreLine(log, project, day, names[1..]);
      var before, l := log[..|log| - 1], log[|log| - 1];
      var a := Total(before, OfModel(project, day, names[0]));
      CostAdds(names[0], a, if OfModel(project, day, names[0])(l) then Used(l) else ZERO);
      if ModelName(l) == names[0] {
        assert ModelName(l) !in names[1..];
      } else {
        assert ModelName(l) in names <==> ModelName(l) in names[1..];
      }
    }
  }

  lemma {:induction false} NoLinesNoCost(project: string, day: int, names: seq<string>)
    ensures ByModel([], project, day, names) == 0
  {
    if names != [] {
      NoLinesNoCost(project, day, names[1..]);
    }
  }

  predicate Covers(log: seq<Line>, project: string, day: int, names: seq<string>) {
    forall i :: 0 <= i < |log| && log[i].project == project && JstDay(log[i].ms) == day ==> ModelName(log[i]) in names
  }

  lemma {:induction false} GroupingKeepsCost(log: seq<Line>, project: string, day: int, names: seq<string>)
    requires Distinct(names) && Covers(log, project, day, names)
    ensures ByModel(log, project, day, names) == LogSpend(log, project, day)
  {
    if log == [] {
      NoLinesNoCost(project, day, names);
    } else {
      assert Covers(log[..|log| - 1], project, day, names);
      GroupingKeepsCost(log[..|log| - 1], project, day, names);
      OneMoreLine(log, project, day, names);
    }
  }

  lemma {:induction false} SpendByModel(log: seq<Line>, project: string, day: int, report: seq<ModelUsage>)
    requires forall i :: 0 <= i < |report| ==> report[i].counters == Total(log, OfModel(project, day, report[i].model))
    ensures Spend(report) == ByModel(log, project, day, Names(report))
  {
    if report != [] {
      assert Names(report)[1..] == Names(report[1..]);
      SpendByModel(log, project, day, report[1..]);
    }
  }

  /** The report is the log grouped by model for the project and day, with no model missing. */
  ghost predicate Groups(report: seq<ModelUsage>, log: seq<Line>, project: string, day: int) {
    && StrictlySorted(Names(report))
    && (forall i :: 0 <= i < |report| ==> report[i].counters == Total(log, OfModel(project, day, report[i].model)))
    && (forall n: string :: n in Names(report) <==> Any(log, OfModel(project, day, n)))
  }

  /** Grouping requests by model does not change what they cost. */
  lemma SpendOfGroups(log: seq<Line>, project: string, day: int, report: seq<ModelUsage>)
    requires Groups(report, log, project, day)
    ensures Spend(report) == LogSpend(log, project, day)
  {
    SpendByModel(log, project, day, report);
    SortedIsDistinct(Names(report));
    forall i | 0 <= i < |log| && log[i].project == project && JstDay(log[i].ms) == day
      ensures ModelName(log[i]) in Names(report)
    {
      assert OfModel(project, day, ModelName(log[i]))(log[i]);
    }
    GroupingKeepsCost(log, project, day, Names(report));
  }

  /** The cost of the daily report is the sum of the costs of the day's requests. */
  lemma SpendIsTheLog(log: seq<Line>, project: string, day: int, report: seq<ModelUsage>)
    requires IsDailyReport(report, UsersOf(Replay(log), project), day)
    ensures Spend(report) == LogSpend(log, project, day)
  {
    hide Replay, Spend, LogSpend;
    DailyReportIsTheLog(log, project, day, report);
    SpendOfGroups(log, project, day, report);
  }

  /** The same after a restart: requests from before and after the file was written cost what they cost. */
  lemma SpendIsTheLogAfterARestart(a: seq<Line>, b: seq<Line>, names: seq<string>, at: int, project: string, day: int,
                                   report: seq<ModelUsage>)
    requires (forall l :: l in a ==> StorableLine(l)) && NamesOf(Replay(a), names)
    requires Parse(Snapshot(Replay(a), names), at).Success?
    requires IsDailyReport(report,
               UsersOf(ReplayFrom(Load(Parse(Snapshot(Replay(a), names), at).value), b), project), day)
    ensures Spend(report) == LogSpend(a + b, project, day)
  {
    hide Replay, ReplayFrom, Parse, Load, Snapshot, Spend, LogSpend;
    RestartIsInvisible(a, b, names, at, project, day, report);
    SpendOfGroups(a + b, project, day, report);
  }

  // ---------------------------------------------------------------- waiting for the next day

  function SecondsUntilNextJstDay(now: int): int {
    var nextMidnight := (JstDay(now) + 1) * DAY_MS - JST_OFFSET_MS;
    var ceiling := (nextMidnight - now + 999) / 1000;
    if ceiling < 1 then 1 else ceiling
  }

  /** Waiting that long, and not one second less, reaches the next day. */
  lemma RetryAfterIsTheNextDay(now: int)
    ensures 1 <= SecondsUntilNextJstDay(now) <= 86_400
    ensures JstDay(now + 1000 * SecondsUntilNextJstDay(now)) == JstDay(now) + 1
    ensures JstDay(now + 1000 * (SecondsUntilNextJstDay(now) - 1)) == JstDay(now)
  {
    var day, rest := JstDay(now), (now + JST_OFFSET_MS) % DAY_MS;
    assert now + JST_OFFSET_MS == day * DAY_MS + rest;
    var wait := SecondsUntilNextJstDay(now);
    assert wait == (DAY_MS - rest + 999) / 1000;
    DayOf(day + 1, now + 1000 * wait);
    DayOf(day, now + 1000 * (wait - 1));
  }

  lemma DayOf(day: int, ms: int)
    requires day * DAY_MS <= ms + JST_OFFSET_MS < (day + 1) * DAY_MS
    ensures JstDay(ms) == day
  {
  }

  lemma {:induction false} NothingOccursLater(users: seq<UserUsage>, today: int, day: int, n: string)
    requires (forall u :: u in users ==> u.day <= today) && today < day
    ensures !OccursOn(users, day, n)
  {
    if users != [] {
      NothingOccursLater(users[1..], today, day, n);
    }
  }

  /**
   A client that waits as told finds an untouched budget, if nothing was recorded meanwhile: in any
   store, recorded or loaded, that has no entry dated in the future.
  */
  lemma RetryAfterFindsAFreshBudget(users: seq<UserUsage>, now: int, report: seq<ModelUsage>)
    requires forall u :: u in users ==> u.day <= JstDay(now)
    requires IsDailyReport(report, users, JstDay(now + 1000 * SecondsUntilNextJstDay(now)))
    ensures report == [] && Spend(report) == 0
  {
    RetryAfterIsTheNextDay(now);
    assert report != [] ==> Names(report)[0] in Names(report);
    forall n: string ensures n !in Names(report) {
      NothingOccursLater(users, JstDay(now), JstDay(now) + 1, n);
    }
  }

  lemma AddedEntryIsToday(users: seq<UserUsage>, l: Line, u: UserUsage)
    requires || u == AddToEntry(NewEntry(l), l)
             || exists v :: v in users && KeyOf(v) == KeyOfLine(l) && u == AddToEntry(v, l)
    ensures u.day == JstDay(l.ms)
  {
    hide ModelName, AddToModels, JstDay;
  }

  /** Recording at nondecreasing times dates no entry in the future. */
  lemma {:induction false} RecordedEntriesAreNotLater(log: seq<Line>, project: string, now: int, u: UserUsage)
    requires (forall l :: l in log ==> l.ms <= now) && u in UsersOf(Replay(log), project)
    ensures u.day <= JstDay(now)
  {
    hide AddToUsers, AddToEntry, NewEntry, KeyOf, KeyOfLine, JstDay;
    var before, l := log[..|log| - 1], log[|log| - 1];
    assert forall x :: x in before ==> x in log;
    assert l in log;
    DayGrows(l.ms, now);
    if l.project != project {
      RecordedEntriesAreNotLater(before, project, now, u);
    } else {
      var users := UsersOf(Replay(before), project);
      EntryOrigin(users, l, u);
      if u in users {
        RecordedEntriesAreNotLater(before, project, now, u);
      } else {
        AddedEntryIsToday(users, l, u);
      }
    }
  }

  /** So it is in every store made by recording at times up to now. */
  lemma RetryAfterRecordingFindsAFreshBudget(log: seq<Line>, project: string, now: int, report: seq<ModelUsage>)
    requires forall l :: l in log ==> l.ms <= now
    requires IsDailyReport(report, UsersOf(Replay(log), project), JstDay(now + 1000 * SecondsUntilNextJstDay(now)))
    ensures report == [] && Spend(report) == 0
  {
    hide IsDailyReport, SecondsUntilNextJstDay, JstDay;
    forall u | u in UsersOf(Replay(log), project) ensures u.day <= JstDay(now) {
      RecordedEntriesAreNotLater(log, project, now, u);
    }
    RetryAfterFindsAFreshBudget(UsersOf(Replay(log), project), now, report);
  }

  // ---------------------------------------------------------------- the limit over whole runs

  /** The decision before a metered request goes upstream: refuse, with the time to wait, or let pass. */
  method CheckDailyLimit(store: UsageStore, serviceCode: string, audience: string, now: int)
      returns (retryAfter: Option<int>)
    ensures forall report :: IsDailyReport(report, UsersOf(store.projects, audience), JstDay(now)) ==>
              retryAfter == if DailyLimit(serviceCode).Some? && Spend(report) >= DailyLimit(serviceCode).value
                            then Some(SecondsUntilNextJstDay(now)) else None
  {
    hide IsDailyReport;
    var models := store.CurrentDailyModels(audience, now);
    forall report | IsDailyReport(report, UsersOf(store.projects, audience), JstDay(now)) ensures report == models {
      OneDailyReport(report, models, UsersOf(store.projects, audience), JstDay(now));
    }
    var limit := DailyLimit(serviceCode);
    if limit.Some? {
      var spend := EstimatedUsageCost(models);
      if spend >= limit.value {
        return Some(SecondsUntilNextJstDay(now));
      }
    }
    return None;
  }

  /** The daily report is determined by the entries. */
  lemma OneDailyReport(a: seq<ModelUsage>, b: seq<ModelUsage>, users: seq<UserUsage>, day: int)
    requires IsDailyReport(a, users, day) && IsDailyReport(b, users, day)
    ensures a == b
  {
    hide DayTotal, OccursOn;
    assert forall n :: n in Elements(Names(a)) <==> n in Elements(Names(b));
    SortedIsCanonical(Names(a), Names(b));
    forall i | 0 <= i < |a| ensures a[i] == b[i] {
      assert Names(a)[i] == Names(b)[i];
    }
  }

  /** The check is on what the day's requests cost one by one: the gate's decision below. */
  lemma LimitIsOnTheLog(log: seq<Line>, audience: string, now: int, limit: nat, report: seq<ModelUsage>)
    requires Groups(report, log, audience, JstDay(now))
    ensures Spend(report) >= limit <==> Admit(limit, audience, Gate(log, 0, now), Arrive(now)).inFlight == 0
  {
    SpendOfGroups(log, audience, JstDay(now), report);
  }

  /** The requests of one project against its limit; a request is recorded when its response ends. */
  datatype Gate = Gate(log: seq<Line>, inFlight: nat, clock: int)

  datatype Event =
    | Arrive(now: int)
    | Finish(line: Line)
    | Abandon(now: int)
    | Elsewhere(line: Line)

  function TimeOf(e: Event): int {
    match e
    case Arrive(now) => now
    case Finish(line) => line.ms
    case Abandon(now) => now
    case Elsewhere(line) => line.ms
  }

  function Admit(limit: nat, project: string, g: Gate, e: Event): Gate
    requires (e.Finish? || e.Abandon?) ==> g.inFlight > 0
  {
    match e
    case Arrive(now) =>
      if LogSpend(g.log, project, JstDay(now)) >= limit then g.(clock := now)
      else g.(inFlight := g.inFlight + 1, clock := now)
    case Finish(line) => Gate(g.log + [line], g.inFlight - 1, line.ms)
    case Abandon(now) => g.(inFlight := g.inFlight - 1, clock := now)
    case Elsewhere(line) => g.(log := g.log + [line], clock := line.ms)
  }

  /** A run with at most `most` requests at once, none of them costing more than `dear`. */
  predicate GateRun(limit: nat, project: string, most: nat, dear: nat, events: seq<Event>, gates: seq<Gate>) {
    && |gates| == |events| + 1
    && gates[0].log == [] && gates[0].inFlight == 0
    && forall i :: 0 <= i < |events| ==> GateStep(limit, project, most, dear, gates[i], events[i], gates[i + 1])
  }

  predicate GateStep(limit: nat, project: string, most: nat, dear: nat, g: Gate, e: Event, g': Gate) {
    && TimeOf(e) >= g.clock
    && ((e.Finish? || e.Abandon?) ==> g.inFlight > 0)
    && (e.Finish? ==> e.line.project == project && LineCost(e.line) <= dear)
    && (e.Elsewhere? ==> e.line.project != project)
    && g' == Admit(limit, project, g, e)
    && g'.inFlight <= most
  }

  /** The most that a day can cost: one unit short of the limit, and then everything allowed at once. */
  function MostSpend(limit: nat, most: nat, dear: nat): nat {
    if limit == 0 || most == 0 || dear == 0 then 0 else limit - 1 + most * dear
  }

  predicate Within(limit: nat, project: string, most: nat, dear: nat, g: Gate, day: int) {
    && g.inFlight <= most
    && (limit == 0 ==> g.inFlight == 0)
    && LogSpend(g.log, project, day) + (if day == JstDay(g.clock) then g.inFlight * dear else 0) <= MostSpend(limit, most, dear)
    && (JstDay(g.clock) < day ==> LogSpend(g.log, project, day) == 0)
  }

  lemma DayGrows(a: int, b: int)
    requires a <= b
    ensures JstDay(a) <= JstDay(b)
  {
  }

  lemma LastLineSpend(log: seq<Line>, l: Line, project: string, day: int)
    ensures LogSpend(log + [l], project, day)
            == LogSpend(log, project, day) + if l.project == project && JstDay(l.ms) == day then LineCost(l) else 0
  {
    assert (log + [l])[..|log|] == log;
  }

  lemma Multiply(a: nat, b: nat, c: nat)
    requires a <= b
    ensures a * c <= b * c
  {
  }

  /** What may still be in flight never costs more than the most that a day can. */
  lemma FlightFits(limit: nat, most: nat, dear: nat, spend: nat, inFlight: nat)
    requires inFlight <= most && (inFlight > 0 ==> spend < limit)
    requires inFlight == 0 || dear == 0 ==> spend <= MostSpend(limit, most, dear)
    ensures spend + inFlight * dear <= MostSpend(limit, most, dear)
  {
    if inFlight > 0 && dear > 0 {
      Multiply(inFlight, most, dear);
    }
  }

  lemma ArriveStaysWithin(limit: nat, project: string, most: nat, dear: nat, g: Gate, e: Event, g': Gate, day: int)
    requires Within(limit, project, most, dear, g, day) && GateStep(limit, project, most, dear, g, e, g')
    requires e.Arrive?
    ensures Within(limit, project, most, dear, g', day)
  {
    hide LineCost, JstDay, MostSpend;
    DayGrows(g.clock, e.now);
    var spend := LogSpend(g.log, project, day);
    if day == JstDay(e.now) && g'.inFlight > g.inFlight {
      FlightFits(limit, most, dear, spend, g'.inFlight);
    } else if day == JstDay(e.now) && JstDay(g.clock) < day && limit > 0 {
      FlightFits(limit, most, dear, spend, g'.inFlight);
    }
  }

  lemma FinishStaysWithin(limit: nat, project: string, most: nat, dear: nat, g: Gate, e: Event, g': Gate, day: int)
    requires Within(limit, project, most, dear, g, day) && GateStep(limit, project, most, dear, g, e, g')
    requires e.Finish?
    ensures Within(limit, project, most, dear, g', day)
  {
    hide LineCost, JstDay, MostSpend;
    DayGrows(g.clock, e.line.ms);
    LastLineSpend(g.log, e.line, project, day);
    assert g'.inFlight * dear == g.inFlight * dear - dear;
    if day == JstDay(e.line.ms) && JstDay(g.clock) < day && limit > 0 {
      FlightFits(limit, most, dear, 0, g.inFlight);
    }
  }

  lemma AbandonStaysWithin(limit: nat, project: string, most: nat, dear: nat, g: Gate, e: Event, g': Gate, day: int)
    requires Within(limit, project, most, dear, g, day) && GateStep(limit, project, most, dear, g, e, g')
    requires e.Abandon?
    ensures Within(limit, project, most, dear, g', day)
  {
    hide LineCost, JstDay, MostSpend;
    DayGrows(g.clock, e.now);
    Multiply(g'.inFlight, g.inFlight, dear);
    if day == JstDay(e.now) && JstDay(g.clock) < day && limit > 0 {
      FlightFits(limit, most, dear, 0, g'.inFlight);
    }
  }

  lemma ElsewhereStaysWithin(limit: nat, project: string, most: nat, dear: nat, g: Gate, e: Event, g': Gate, day: int)
    requires Within(limit, project, most, dear, g, day) && GateStep(limit, project, most, dear, g, e, g')
    requires e.Elsewhere?
    ensures Within(limit, project, most, dear, g', day)
  {
    hide LineCost, JstDay, MostSpend;
    DayGrows(g.clock, e.line.ms);
    LastLineSpend(g.log, e.line, project, day);
    if day == JstDay(e.line.ms) && JstDay(g.clock) < day && limit > 0 {
      FlightFits(limit, most, dear, 0, g'.inFlight);
    }
  }

  lemma StepStaysWithin(limit: nat, project: string, most: nat, dear: nat, g: Gate, e: Event, g': Gate, day: int)
    requires Within(limit, project, most, dear, g, day) && GateStep(limit, project, most, dear, g, e, g')
    ensures Within(limit, project, most, dear, g', day)
  {
    hide Within, GateStep;
    match e
    case Arrive(_) => ArriveStaysWithin(limit, project, most, dear, g, e, g', day);
    case Finish(_) => FinishStaysWithin(limit, project, most, dear, g, e, g', day);
    case Abandon(_) => AbandonStaysWithin(limit, project, most, dear, g, e, g', day);
    case Elsewhere(_) => ElsewhereStaysWithin(limit, project, most, dear, g, e, g', day);
  }

  lemma {:induction false} RunStaysWithin(
      limit: nat, project: string, most: nat, dear: nat, events: seq<Event>, gates: seq<Gate>, n: nat, day: int)
    requires GateRun(limit, project, most, dear, events, gates) && n <= |events|
    ensures Within(limit, project, most, dear, gates[n], day)
  {
    if n > 0 {
      RunStaysWithin(limit, project, most, dear, events, gates, n - 1, day);
      StepStaysWithin(limit, project, most, dear, gates[n - 1], events[n - 1], gates[n], day);
    }
  }

  /**
   However requests overlap, a day's spend is at most what was spent one unit short of the limit
   and what the requests allowed at once can cost: the check is made on arrival and the cost is
   known only at the end.
  */
  lemma OverrunIsBounded(
      limit: nat, project: string, most: nat, dear: nat, events: seq<Event>, gates: seq<Gate>, n: nat, day: int)
    requires GateRun(limit, project, most, dear, events, gates) && n <= |events|
    ensures LogSpend(gates[n].log, project, day) <= MostSpend(limit, most, dear)
  {
    RunStaysWithin(limit, project, most, dear, events, gates, n, day);
  }

  // ---------------------------------------------------------------- the bound is reached

  function Last(gates: seq<Gate>): Gate
    requires gates != []
  {
    gates[|gates| - 1]
  }

  lemma Extend(limit: nat, project: string, most: nat, dear: nat, events: seq<Event>, gates: seq<Gate>, e: Event, g': Gate)
    requires GateRun(limit, project, most, dear, events, gates) && GateStep(limit, project, most, dear, Last(gates), e, g')
    ensures GateRun(limit, project, most, dear, events + [e], gates + [g'])
  {
    hide GateStep;
    var all, seen := events + [e], gates + [g'];
    forall i | 0 <= i < |all| ensures GateStep(limit, project, most, dear, seen[i], all[i], seen[i + 1]) {
      if i < |events| {
        assert all[i] == events[i] && seen[i] == gates[i] && seen[i + 1] == gates[i + 1];
      }
    }
  }

  /** A request of the project that costs exactly so much. */
  function Costing(project: string, cost: nat, ms: int): Line {
    Line(project, "user.u", "c", project + ":role.gen-ai-users", Some("m"), cost, 0, cost, ms)
  }

  lemma CostingCosts(project: string, cost: nat, ms: int)
    ensures LineCost(Costing(project, cost, ms)) == cost
  {
    assert Texts.Trim("m") == "m";
  }

  /** One more request comes in, at the time of the last event. */
  lemma ArriveOnce(limit: nat, project: string, most: nat, dear: nat, events: seq<Event>, gates: seq<Gate>)
      returns (events': seq<Event>, gates': seq<Gate>)
    requires GateRun(limit, project, most, dear, events, gates)
    requires LogSpend(Last(gates).log, project, JstDay(Last(gates).clock)) < limit && Last(gates).inFlight < most
    ensures GateRun(limit, project, most, dear, events', gates') && events <= events'
    ensures Last(gates') == Last(gates).(inFlight := Last(gates).inFlight + 1)
  {
    var g := Last(gates);
    var e, g' := Arrive(g.clock), g.(inFlight := g.inFlight + 1);
    Extend(limit, project, most, dear, events, gates, e, g');
    events', gates' := events + [e], gates + [g'];
  }

  /** One request ends, at the time of the last event, having cost so much. */
  lemma FinishOnce(limit: nat, project: string, most: nat, dear: nat, events: seq<Event>, gates: seq<Gate>, cost: nat)
      returns (events': seq<Event>, gates': seq<Gate>)
    requires GateRun(limit, project, most, dear, events, gates) && Last(gates).inFlight > 0 && cost <= dear
    ensures GateRun(limit, project, most, dear, events', gates') && events <= events'
    ensures Last(gates').inFlight == Last(gates).inFlight - 1 && Last(gates').clock == Last(gates).clock
    ensures var day := JstDay(Last(gates).clock);
            LogSpend(Last(gates').log, project, day) == LogSpend(Last(gates).log, project, day) + cost
  {
    hide LineCost, JstDay, LogSpend;
    var g := Last(gates);
    InFlightFits(limit, project, most, dear, events, gates);
    var line := Costing(project, cost, g.clock);
    CostingCosts(project, cost, g.clock);
    LastLineSpend(g.log, line, project, JstDay(g.clock));
    var e, g' := Finish(line), Gate(g.log + [line], g.inFlight - 1, g.clock);
    Extend(limit, project, most, dear, events, gates, e, g');
    events', gates' := events + [e], gates + [g'];
  }

  lemma InFlightFits(limit: nat, project: string, most: nat, dear: nat, events: seq<Event>, gates: seq<Gate>)
    requires GateRun(limit, project, most, dear, events, gates)
    ensures Last(gates).inFlight <= most
  {
    RunStaysWithin(limit, project, most, dear, events, gates, |events|, 0);
  }

  lemma {:induction false} FinishMany(
      limit: nat, project: string, most: nat, dear: nat, events: seq<Event>, gates: seq<Gate>, k: nat)
      returns (events': seq<Event>, gates': seq<Gate>)
    requires GateRun(limit, project, most, dear, events, gates) && k <= Last(gates).inFlight
    ensures GateRun(limit, project, most, dear, events', gates') && events <= events'
    ensures var day := JstDay(Last(gates).clock);
            LogSpend(Last(gates').log, project, day) == LogSpend(Last(gates).log, project, day) + k * dear
    ensures Last(gates').clock == Last(gates).clock
    decreases k
  {
    hide GateRun, JstDay, LogSpend;
    events', gates' := events, gates;
    if k > 0 {
      events', gates' := FinishOnce(limit, project, most, dear, events, gates, dear);
      events', gates' := FinishMany(limit, project, most, dear, events', gates', k - 1);
      assert (k - 1) * dear + dear == k * dear;
    }
  }

  lemma {:induction false} ArriveMany(
      limit: nat, project: string, most: nat, dear: nat, events: seq<Event>, gates: seq<Gate>, k: nat)
      returns (events': seq<Event>, gates': seq<Gate>)
    requires GateRun(limit, project, most, dear, events, gates) && Last(gates).inFlight + k <= most
    requires LogSpend(Last(gates).log, project, JstDay(Last(gates).clock)) < limit
    ensures GateRun(limit, project, most, dear, events', gates') && events <= events'
    ensures Last(gates') == Last(gates).(inFlight := Last(gates).inFlight + k)
    decreases k
  {
    hide GateRun, JstDay, LogSpend;
    events', gates' := events, gates;
    if k > 0 {
      events', gates' := ArriveOnce(limit, project, most, dear, events, gates);
      events', gates' := ArriveMany(limit, project, most, dear, events', gates', k - 1);
    }
  }

  /** Requests of cost one, one after the other, bring the spend to any amount below the limit. */
  lemma {:induction false} SpendUpTo(limit: nat, project: string, most: nat, dear: nat, amount: nat)
      returns (events: seq<Event>, gates: seq<Gate>)
    requires amount < limit && most > 0 && dear > 0
    ensures GateRun(limit, project, most, dear, events, gates)
    ensures Last(gates).inFlight == 0 && LogSpend(Last(gates).log, project, JstDay(Last(gates).clock)) == amount
  {
    hide JstDay;
    if amount == 0 {
      events, gates := [], [Gate([], 0, 0)];
    } else {
      hide GateRun, LogSpend;
      events, gates := SpendUpTo(limit, project, most, dear, amount - 1);
      events, gates := ArriveOnce(limit, project, most, dear, events, gates);
      events, gates := FinishOnce(limit, project, most, dear, events, gates, 1);
    }
  }

  /** For every limit, number of requests and cost there is a run whose day costs exactly the most. */
  lemma MostIsReached(limit: nat, project: string, most: nat, dear: nat) returns (events: seq<Event>, gates: seq<Gate>)
    ensures GateRun(limit, project, most, dear, events, gates)
    ensures LogSpend(Last(gates).log, project, JstDay(Last(gates).clock)) == MostSpend(limit, most, dear)
  {
    hide JstDay;
    if limit == 0 || most == 0 || dear == 0 {
      events, gates := [], [Gate([], 0, 0)];
    } else {
      hide GateRun, LogSpend;
      events, gates := SpendUpTo(limit, project, most, dear, limit - 1);
      events, gates := ArriveMany(limit, project, most, dear, events, gates, most);
      events, gates := FinishMany(limit, project, most, dear, events, gates, most);
    }
  }

  // ---------------------------------------------------------------- when no overrun can follow

  /** Even if every request in flight and the new one cost the most, the limit holds. */
  predicate Room(limit: nat, project: string, dear: nat, g: Gate, now: int) {
    LogSpend(g.log, project, JstDay(now)) + (g.inFlight + 1) * dear <= limit
  }

  /** Every request that is let through had room. */
  predicate Cautious(limit: nat, project: string, dear: nat, events: seq<Event>, gates: seq<Gate>)
    requires |gates| == |events| + 1
  {
    forall i :: 0 <= i < |events| && gates[i + 1].inFlight > gates[i].inFlight ==> HadRoom(limit, project, dear, gates[i], events[i])
  }

  predicate HadRoom(limit: nat, project: string, dear: nat, g: Gate, e: Event) {
    e.Arrive? && Room(limit, project, dear, g, e.now)
  }

  predicate Safe(limit: nat, project: string, dear: nat, g: Gate, day: int) {
    && LogSpend(g.log, project, day) + (if day == JstDay(g.clock) then g.inFlight * dear else 0) <= limit
    && g.inFlight * dear <= limit
    && (JstDay(g.clock) < day ==> LogSpend(g.log, project, day) == 0)
  }

  lemma CautiousStepIsSafe(limit: nat, project: string, most: nat, dear: nat, g: Gate, e: Event, g': Gate, day: int)
    requires Safe(limit, project, dear, g, day) && GateStep(limit, project, most, dear, g, e, g')
    requires g'.inFlight > g.inFlight ==> HadRoom(limit, project, dear, g, e)
    ensures Safe(limit, project, dear, g', day)
  {
    hide LineCost, JstDay, LogSpend;
    DayGrows(g.clock, TimeOf(e));
    if e.Finish? || e.Elsewhere? {
      LastLineSpend(g.log, e.line, project, day);
    }
    Multiply(g'.inFlight, g.inFlight + 1, dear);
    if e.Finish? || e.Abandon? {
      assert g'.inFlight * dear == g.inFlight * dear - dear;
    }
  }

  lemma NothingSpentAtFirst(project: string, day: int)
    ensures LogSpend([], project, day) == 0
  {
  }

  /** When every admitted request had room, no day of the run ever passes the limit. */
  lemma {:induction false} CautionNeverOverruns(
      limit: nat, project: string, most: nat, dear: nat, events: seq<Event>, gates: seq<Gate>, n: nat, day: int)
    requires GateRun(limit, project, most, dear, events, gates) && Cautious(limit, project, dear, events, gates)
    requires n <= |events|
    ensures Safe(limit, project, dear, gates[n], day) && LogSpend(gates[n].log, project, day) <= limit
  {
    hide GateStep, HadRoom, JstDay, LogSpend;
    if n == 0 {
      NothingSpentAtFirst(project, day);
    } else {
      assert GateStep(limit, project, most, dear, gates[n - 1], events[n - 1], gates[n]);
      assert gates[n - 1 + 1] == gates[n];
      CautionNeverOverruns(limit, project, most, dear, events, gates, n - 1, day);
      CautiousStepIsSafe(limit, project, most, dear, gates[n - 1], events[n - 1], gates[n], day);
    }
  }

  /** And a request that is let through without room can end in an overrun of the same day. */
  lemma NoRoomCanOverrun(limit: nat, project: string, most: nat, dear: nat, events: seq<Event>, gates: seq<Gate>, now: int)
      returns (events': seq<Event>, gates': seq<Gate>)
    requires GateRun(limit, project, most, dear, events, gates) && now >= Last(gates).clock
    requires LogSpend(Last(gates).log, project, JstDay(now)) < limit && Last(gates).inFlight < most
    requires !Room(limit, project, dear, Last(gates), now)
    ensures GateRun(limit, project, most, dear, events', gates') && events + [Arrive(now)] <= events'
    ensures LogSpend(Last(gates').log, project, JstDay(now)) > limit
  {
    hide JstDay, LogSpend;
    var g := Last(gates);
    var g' := g.(inFlight := g.inFlight + 1, clock := now);
    Extend(limit, project, most, dear, events, gates, Arrive(now), g');
    events', gates' := events + [Arrive(now)], gates + [g'];
    events', gates' := FinishMany(limit, project, most, dear, events', gates', g'.inFlight);
  }
}
