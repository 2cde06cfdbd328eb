/**
 The usage ledger: one entry per project, JST day and caller, with counters in total and per
 model. Entries of a project are kept in the order in which they were first made.
*/
module UsageLedger {
  import opened Results
  import opened SortedStrings
  import Texts

  const DAY_MS := 86_400_000
  const JST_OFFSET_MS := 32_400_000
  const DEFAULT_MODEL := "gpt-5.6-luna"

  datatype Counters = Counters(requests: nat, prompt: nat, completion: nat, total: nat)

  const ZERO := Counters(0, 0, 0, 0)

  function Plus(a: Counters, b: Counters): Counters {
    Counters(a.requests + b.requests, a.prompt + b.prompt, a.completion + b.completion, a.total + b.total)
  }

  lemma PlusLaws(a: Counters, b: Counters, c: Counters)
    ensures Plus(Plus(a, b), c) == Plus(a, Plus(b, c)) == Plus(Plus(a, c), b)
    ensures Plus(a, ZERO) == a == Plus(ZERO, a)
  {
  }

  datatype ModelUsage = ModelUsage(model: string, counters: Counters)

  datatype UserUsage = UserUsage(
    day: int, lastMs: int, models: seq<ModelUsage>, subject: string, clientId: string, scope: string,
    counters: Counters)

  /** One metered request: who made it, with which model, when, and what it used. */
  datatype Line = Line(
    project: string, subject: string, clientId: string, scope: string, model: Option<string>,
    prompt: nat, completion: nat, total: nat, ms: int)

  /** The day number of an instant in Japan; `/` rounds down. */
  function JstDay(ms: int): int { (ms + JST_OFFSET_MS) / DAY_MS }

  function ModelName(line: Line): string {
    if line.model == None || Texts.Trim(line.model.value) == "" then DEFAULT_MODEL
    else Texts.Trim(line.model.value)
  }

  function Used(line: Line): Counters { Counters(1, line.prompt, line.completion, line.total) }

  /** The date has a fixed width, so only the rest of the joined key is text here. */
  datatype Key = Key(day: int, caller: string)

  function Caller(subject: string, clientId: string, scope: string): string {
    subject + ['\0'] + clientId + ['\0'] + scope
  }

  function KeyOfLine(line: Line): Key {
    Key(JstDay(line.ms), Caller(line.subject, line.clientId, line.scope))
  }

  function KeyOf(u: UserUsage): Key { Key(u.day, Caller(u.subject, u.clientId, u.scope)) }

  function AddToModels(models: seq<ModelUsage>, name: string, c: Counters): seq<ModelUsage> {
    if models == [] then [ModelUsage(name, c)]
    else if models[0].model == name then [ModelUsage(name, Plus(models[0].counters, c))] + models[1..]
    else [models[0]] + AddToModels(models[1..], name, c)
  }

  function NewEntry(line: Line): UserUsage {
    UserUsage(JstDay(line.ms), line.ms, [], line.subject, line.clientId, line.scope, ZERO)
  }

  function AddToEntry(u: UserUsage, line: Line): UserUsage {
    u.(counters := Plus(u.counters, Used(line)), lastMs := line.ms,
       models := AddToModels(u.models, ModelName(line), Used(line)))
  }

  function AddToUsers(users: seq<UserUsage>, line: Line): seq<UserUsage> {
    if users == [] then [AddToEntry(NewEntry(line), line)]
    else if KeyOf(users[0]) == KeyOfLine(line) then [AddToEntry(users[0], line)] + users[1..]
    else [users[0]] + AddToUsers(users[1..], line)
  }

  type Projects = map<string, seq<UserUsage>>

  function UsersOf(projects: Projects, project: string): seq<UserUsage> {
    if project in projects then projects[project] else []
  }

  function Recorded(projects: Projects, line: Line): Projects {
    projects[line.project := AddToUsers(UsersOf(projects, line.project), line)]
  }

  function Replay(log: seq<Line>): Projects {
    if log == [] then map[] else Recorded(Replay(log[..|log| - 1]), log[|log| - 1])
  }

  // ---------------------------------------------------------------- totals of a store

  function TotalFor(models: seq<ModelUsage>, name: string): Counters {
    if models == [] then ZERO
    else Plus(if models[0].model == name then models[0].counters else ZERO, TotalFor(models[1..], name))
  }

  predicate Occurs(models: seq<ModelUsage>, name: string) {
    models != [] && (models[0].model == name || Occurs(models[1..], name))
  }

  function DayTotal(users: seq<UserUsage>, day: int, name: string): Counters {
    if users == [] then ZERO
    else Plus(if users[0].day == day then TotalFor(users[0].models, name) else ZERO, DayTotal(users[1..], day, name))
  }

  predicate OccursOn(users: seq<UserUsage>, day: int, name: string) {
    users != [] && ((users[0].day == day && Occurs(users[0].models, name)) || OccursOn(users[1..], day, name))
  }

  /** The report lists each model of the day once, in order, with its total over all entries. */
  ghost predicate IsDailyReport(report: seq<ModelUsage>, users: seq<UserUsage>, day: int) {
    && StrictlySorted(Names(report))
    && (forall n: string :: n in Names(report) <==> OccursOn(users, day, n))
    && (forall i :: 0 <= i < |report| ==> report[i].counters == DayTotal(users, day, report[i].model))
  }

  function Names(models: seq<ModelUsage>): (names: seq<string>)
    ensures |names| == |models| && forall i :: 0 <= i < |names| ==> names[i] == models[i].model
  {
    seq(|models|, i requires 0 <= i < |models| => models[i].model)
  }

  function Get(totals: map<string, Counters>, name: string): Counters {
    if name in totals then totals[name] else ZERO
  }

  // ---------------------------------------------------------------- the store

  class UsageStore {
    var projects: Projects

    constructor ()
      ensures projects == map[]
    {
      projects := map[];
    }

    method FindEntry(users: seq<UserUsage>, line: Line) returns (k: nat)
      ensures k <= |users|
      ensures k < |users| ==> KeyOf(users[k]) == KeyOfLine(line)
      ensures AddToUsers(users, line) ==
              users[..k] + (if k == |users| then [AddToEntry(NewEntry(line), line)]
                            else [AddToEntry(users[k], line)] + users[k + 1..])
    {
      hide KeyOf;
      hide KeyOfLine;
      hide AddToEntry;
      hide NewEntry;
      k := 0;
      while k < |users| && KeyOf(users[k]) != KeyOfLine(line)
        invariant k <= |users|
        invariant AddToUsers(users, line) == users[..k] + AddToUsers(users[k..], line)
      {
        assert users[..k] + [users[k]] == users[..k + 1];
        assert users[k..][1..] == users[k + 1..];
        k := k + 1;
      }
      if k < |users| {
        assert users[k..][1..] == users[k + 1..];
      }
    }

    method AddModel(models: seq<ModelUsage>, name: string, c: Counters) returns (r: seq<ModelUsage>)
      ensures r == AddToModels(models, name, c)
    {
      var k := 0;
      while k < |models| && models[k].model != name
        invariant k <= |models|
        invariant AddToModels(models, name, c) == models[..k] + AddToModels(models[k..], name, c)
      {
        assert models[..k] + [models[k]] == models[..k + 1];
        assert models[k..][1..] == models[k + 1..];
        k := k + 1;
      }
      if k < |models| {
        assert models[k..][1..] == models[k + 1..];
        r := models[k := ModelUsage(name, Plus(models[k].counters, c))];
        assert r == models[..k] + ([ModelUsage(name, Plus(models[k].counters, c))] + models[k + 1..]);
      } else {
        r := models + [ModelUsage(name, c)];
        assert models[..k] == models;
      }
    }

    method Record(line: Line)
      modifies this
      ensures projects == Recorded(old(projects), line)
    {
      var users := if line.project in projects then projects[line.project] else [];
      var k := FindEntry(users, line);
      var current := if k < |users| then users[k] else NewEntry(line);
      var c := current.counters;
      var counters := Counters(c.requests + 1, c.prompt + line.prompt, c.completion + line.completion, c.total + line.total);
      var models := AddModel(current.models, ModelName(line), Used(line));
      current := current.(counters := counters, lastMs := line.ms, models := models);
      if k < |users| {
        assert users[k := current] == users[..k] + ([current] + users[k + 1..]);
        users := users[k := current];
      } else {
        assert users[..k] == users;
        users := users + [current];
      }
      projects := projects[line.project := users];
    }

    method CurrentDailyModels(project: string, now: int) returns (report: seq<ModelUsage>)
      ensures IsDailyReport(report, UsersOf(projects, project), JstDay(now))
    {
      hide Plus, TotalFor, Occurs, JstDay;
      var day := JstDay(now);
      var users := UsersOf(projects, project);
      var totals: map<string, Counters>, order: seq<string> := map[], [];
      var i := 0;
      assert users[0..] == users;
      forall n: string ensures DayTotal(users, day, n) == Plus(Get(totals, n), DayTotal(users, day, n)) {
        PlusLaws(DayTotal(users, day, n), ZERO, ZERO);
      }
      while i < |users|
        invariant i <= |users|
        invariant forall n: string :: DayTotal(users, day, n) == Plus(Get(totals, n), DayTotal(users[i..], day, n))
        invariant forall n: string :: OccursOn(users, day, n) <==> n in totals || OccursOn(users[i..], day, n)
        invariant forall n: string :: n in totals <==> n in order
      {
        assert users[i..][1..] == users[i + 1..];
        ghost var before := totals;
        if users[i].day == day {
          totals, order := AddModels(users[i].models, totals, order);
        }
        forall n: string
          ensures Plus(Get(totals, n), DayTotal(users[i + 1..], day, n)) == Plus(Get(before, n), DayTotal(users[i..], day, n))
        {
          PlusLaws(Get(before, n), TotalFor(users[i].models, n), DayTotal(users[i + 1..], day, n));
          PlusLaws(DayTotal(users[i + 1..], day, n), ZERO, ZERO);
        }
        i := i + 1;
      }
      forall n: string ensures Get(totals, n) == DayTotal(users, day, n) {
        PlusLaws(Get(totals, n), ZERO, ZERO);
      }
      SortUniqueSorts(order);
      var names := SortUnique(order);
      assert forall n: string :: n in names <==> n in totals by {
        assert forall n: string :: n in names <==> n in Elements(names);
        assert forall n: string :: n in order <==> n in Elements(order);
      }
      report := seq(|names|, k requires 0 <= k < |names| && names[k] in totals => ModelUsage(names[k], totals[names[k]]));
      assert Names(report) == names;
    }

    /** Adds one entry's models to the running totals. */
    method AddModels(models: seq<ModelUsage>, totals: map<string, Counters>, order: seq<string>)
        returns (totals': map<string, Counters>, order': seq<string>)
      requires forall n: string :: n in totals <==> n in order
      ensures forall n: string :: Get(totals', n) == Plus(Get(totals, n), TotalFor(models, n))
      ensures forall n: string :: n in totals' <==> n in totals || Occurs(models, n)
      ensures forall n: string :: n in totals' <==> n in order'
    {
      hide Plus;
      totals', order' := totals, order;
      var j := 0;
      while j < |models|
        invariant j <= |models|
        invariant forall n: string ::
                    Plus(Get(totals', n), TotalFor(models[j..], n)) == Plus(Get(totals, n), TotalFor(models, n))
        invariant forall n: string :: n in totals' || Occurs(models[j..], n) <==> n in totals || Occurs(models, n)
        invariant forall n: string :: n in totals' <==> n in order'
      {
        assert models[j..][1..] == models[j + 1..];
        var model := models[j];
        if model.model !in totals' {
          order' := order' + [model.model];
        }
        ghost var before := totals';
        totals' := totals'[model.model := Plus(Get(totals', model.model), model.counters)];
        forall n: string
          ensures Plus(Get(totals', n), TotalFor(models[j + 1..], n)) == Plus(Get(before, n), TotalFor(models[j..], n))
        {
          PlusLaws(Get(before, n), model.counters, TotalFor(models[j + 1..], n));
          PlusLaws(TotalFor(models[j + 1..], n), ZERO, ZERO);
        }
        j := j + 1;
      }
      forall n: string ensures Get(totals', n) == Plus(Get(totals, n), TotalFor(models, n)) {
        PlusLaws(Get(totals', n), ZERO, ZERO);
      }
    }
  }
}
