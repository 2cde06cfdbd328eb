/** Which ledger files are accepted, and what each accepted field becomes, in terms of the fields alone. */
module UsageSnapshotAccepts {
  import opened Results
  import opened SortedStrings
  import opened UsageLedger
  import opened UsageSnapshot
  import opened UsageSnapshotLaws

  predicate Numbered(requests: Option<nat>, prompt: Option<nat>, completion: Option<nat>, total: Option<nat>) {
    requests.Some? && prompt.Some? && completion.Some? && total.Some?
  }

  /** The day in Japan is counted from the 15th hour of the day before in UTC. */
  predicate IsOnDay(ms: int, day: int) {
    (day * 24 - 9) * 3_600_000 <= ms < (day * 24 + 15) * 3_600_000
  }

  predicate ModelReadable(m: RawModel) {
    Texted(m.model) && Numbered(m.requests, m.prompt, m.completion, m.total)
  }

  ghost predicate ModelsReadable(raws: Option<seq<RawModel>>) {
    && raws.Some?
    && (forall i :: 0 <= i < |raws.value| ==> ModelReadable(raws.value[i]))
    && (forall i, j :: 0 <= i < j < |raws.value| ==> raws.value[i].model != raws.value[j].model)
  }

  ghost predicate UserReadable(version: int, raw: RawUsage) {
    && Texted(raw.subject) && Texted(raw.clientId) && Texted(raw.scope)
    && Numbered(raw.requests, raw.prompt, raw.completion, raw.total)
    && (raw.date.ADate? || (raw.date.NoDate? && version == 1))
    && (version >= 3 ==> raw.lastUsage.AStamp? && raw.date.ADate? && IsOnDay(raw.lastUsage.ms, raw.date.day))
    && (version == 4 ==> ModelsReadable(raw.models))
  }

  ghost predicate ProjectReadable(version: int, raw: RawProject) {
    && Texted(raw.project) && raw.users.Some?
    && forall i :: 0 <= i < |raw.users.value| ==> UserReadable(version, raw.users.value[i])
  }

  predicate CountersOf(c: Counters, requests: Option<nat>, prompt: Option<nat>, completion: Option<nat>,
                       total: Option<nat>) {
    requests == Some(c.requests) && prompt == Some(c.prompt) && completion == Some(c.completion)
    && total == Some(c.total)
  }

  predicate IsModelOf(m: ModelUsage, raw: RawModel) {
    raw.model == Some(m.model) && CountersOf(m.counters, raw.requests, raw.prompt, raw.completion, raw.total)
  }

  predicate IsModelsOf(models: seq<ModelUsage>, raws: seq<RawModel>) {
    |models| == |raws| && forall i :: 0 <= i < |models| ==> IsModelOf(models[i], raws[i])
  }

  /** Before version 3 the file's time stands in for the entry's, or the first instant of its day. */
  predicate IsUserOf(version: int, modifiedAt: int, u: UserUsage, raw: RawUsage) {
    && raw.subject == Some(u.subject) && raw.clientId == Some(u.clientId) && raw.scope == Some(u.scope)
    && CountersOf(u.counters, raw.requests, raw.prompt, raw.completion, raw.total)
    && (raw.date.ADate? ==> u.day == raw.date.day)
    && (!raw.date.ADate? ==> IsOnDay(modifiedAt, u.day))
    && (version >= 3 ==> raw.lastUsage == AStamp(u.lastMs))
    && (version < 3 && IsOnDay(modifiedAt, u.day) ==> u.lastMs == modifiedAt)
    && (version < 3 && !IsOnDay(modifiedAt, u.day) ==> u.lastMs == (u.day * 24 - 9) * 3_600_000)
    && (version < 4 ==> u.models == [ModelUsage("gpt-5.6-luna", u.counters)])
    && (version == 4 ==> raw.models.Some? && IsModelsOf(u.models, raw.models.value))
  }

  predicate IsProjectOf(version: int, modifiedAt: int, p: ProjectUsage, raw: RawProject) {
    && raw.project == Some(p.project)
    && raw.users.Some? && |p.users| == |raw.users.value|
    && forall i :: 0 <= i < |p.users| ==> IsUserOf(version, modifiedAt, p.users[i], raw.users.value[i])
  }

  lemma DayOf(ms: int, day: int)
    ensures JstDay(ms) == day <==> IsOnDay(ms, day)
  {
  }

  lemma {:induction false} ModelListIsReadOff(raws: seq<RawModel>)
    ensures ParseModelList(raws).Success? <==> forall i :: 0 <= i < |raws| ==> ModelReadable(raws[i])
    ensures ParseModelList(raws).Success? ==> IsModelsOf(ParseModelList(raws).value, raws)
  {
    if raws != [] {
      ModelListIsReadOff(raws[1..]);
      assert forall i :: 0 < i < |raws| ==> raws[i] == raws[1..][i - 1];
      assert ParseModel(raws[0]).Success? <==> ModelReadable(raws[0]);
      if ParseModelList(raws).Success? {
        var models := ParseModelList(raws).value;
        assert models[1..] == ParseModelList(raws[1..]).value;
        assert forall i :: 0 < i < |models| ==> models[i] == models[1..][i - 1];
      }
    }
  }

  lemma ModelsAreReadOff(raws: Option<seq<RawModel>>)
    ensures ParseModels(raws).Success? <==> ModelsReadable(raws)
    ensures ParseModels(raws).Success? ==> raws.Some? && IsModelsOf(ParseModels(raws).value, raws.value)
  {
    if raws.Some? {
      ModelListIsReadOff(raws.value);
      if ParseModelList(raws.value).Success? {
        var models := ParseModelList(raws.value).value;
        assert forall i :: 0 <= i < |models| ==> raws.value[i].model == Some(models[i].model);
      }
    }
  }

  lemma UserIsReadOff(version: int, modifiedAt: int, raw: RawUsage)
    requires 1 <= version <= 4
    ensures ParseUser(version, modifiedAt, raw).Success? <==> UserReadable(version, raw)
    ensures var r := ParseUser(version, modifiedAt, raw); r.Success? ==> IsUserOf(version, modifiedAt, r.value, raw)
  {
    hide ParseModels, ModelsReadable, IsModelsOf, JstDay, IsOnDay;
    ModelsAreReadOff(raw.models);
    DayOf(modifiedAt, JstDay(modifiedAt));
    if raw.date.ADate? {
      DayOf(modifiedAt, raw.date.day);
      if raw.lastUsage.AStamp? {
        DayOf(raw.lastUsage.ms, raw.date.day);
      }
    }
    var r := ParseUser(version, modifiedAt, raw);
    if r.Success? {
      assert JstDay(modifiedAt) == r.value.day <==> IsOnDay(modifiedAt, r.value.day);
      assert r.value.day * DAY_MS - JST_OFFSET_MS == (r.value.day * 24 - 9) * 3_600_000;
    }
  }

  lemma {:induction false} UsersAreReadOff(version: int, modifiedAt: int, raws: seq<RawUsage>)
    requires 1 <= version <= 4
    ensures ParseUsers(version, modifiedAt, raws).Success? <==>
            forall i :: 0 <= i < |raws| ==> UserReadable(version, raws[i])
    ensures var r := ParseUsers(version, modifiedAt, raws); r.Success? ==>
            |r.value| == |raws| && forall i :: 0 <= i < |raws| ==> IsUserOf(version, modifiedAt, r.value[i], raws[i])
  {
    if raws != [] {
      hide ParseUser, UserReadable, IsUserOf;
      UserIsReadOff(version, modifiedAt, raws[0]);
      UsersAreReadOff(version, modifiedAt, raws[1..]);
      assert forall i :: 0 < i < |raws| ==> raws[i] == raws[1..][i - 1];
      if ParseUsers(version, modifiedAt, raws).Success? {
        var users := ParseUsers(version, modifiedAt, raws).value;
        assert users[1..] == ParseUsers(version, modifiedAt, raws[1..]).value;
        assert forall i :: 0 < i < |users| ==> users[i] == users[1..][i - 1];
      }
    }
  }

  lemma ProjectIsReadOff(version: int, modifiedAt: int, raw: RawProject)
    requires 1 <= version <= 4
    ensures ParseProject(version, modifiedAt, raw).Success? <==> ProjectReadable(version, raw)
    ensures var r := ParseProject(version, modifiedAt, raw); r.Success? ==> IsProjectOf(version, modifiedAt, r.value, raw)
  {
    hide ParseUsers, UserReadable, IsUserOf;
    if raw.users.Some? {
      UsersAreReadOff(version, modifiedAt, raw.users.value);
    }
  }

  lemma {:induction false} ProjectsAreReadOff(version: int, modifiedAt: int, raws: seq<RawProject>)
    requires 1 <= version <= 4
    ensures ParseProjects(version, modifiedAt, raws).Success? <==>
            forall i :: 0 <= i < |raws| ==> ProjectReadable(version, raws[i])
    ensures var r := ParseProjects(version, modifiedAt, raws); r.Success? ==>
            |r.value| == |raws| && forall i :: 0 <= i < |raws| ==> IsProjectOf(version, modifiedAt, r.value[i], raws[i])
  {
    if raws != [] {
      hide ParseProject, ProjectReadable, IsProjectOf;
      ProjectIsReadOff(version, modifiedAt, raws[0]);
      ProjectsAreReadOff(version, modifiedAt, raws[1..]);
      assert forall i :: 0 < i < |raws| ==> raws[i] == raws[1..][i - 1];
      if ParseProjects(version, modifiedAt, raws).Success? {
        var projects := ParseProjects(version, modifiedAt, raws).value;
        assert projects[1..] == ParseProjects(version, modifiedAt, raws[1..]).value;
        assert forall i :: 0 < i < |projects| ==> projects[i] == projects[1..][i - 1];
      }
    }
  }

  lemma NameOf(version: int, modifiedAt: int, p: ProjectUsage, raw: RawProject)
    requires IsProjectOf(version, modifiedAt, p, raw)
    ensures raw.project == Some(p.project)
  {
  }

  /** Every file of a known version whose entries are complete and whose project names differ is accepted. */
  lemma SnapshotAcceptedIff(raw: RawSnapshot, modifiedAt: int)
    ensures Parse(raw, modifiedAt).Success? <==>
            && 1 <= raw.version <= 4
            && (forall i :: 0 <= i < |raw.projects| ==> ProjectReadable(raw.version, raw.projects[i]))
            && (forall i, j :: 0 <= i < j < |raw.projects| ==> raw.projects[i].project != raw.projects[j].project)
  {
    hide ParseProject, ProjectReadable, IsProjectOf;
    if 1 <= raw.version <= 4 {
      ProjectsAreReadOff(raw.version, modifiedAt, raw.projects);
      var r := ParseProjects(raw.version, modifiedAt, raw.projects);
      if r.Success? {
        forall i | 0 <= i < |r.value| ensures raw.projects[i].project == Some(r.value[i].project) {
          assert IsProjectOf(raw.version, modifiedAt, r.value[i], raw.projects[i]);
          NameOf(raw.version, modifiedAt, r.value[i], raw.projects[i]);
        }
      }
    }
  }

  /** What an accepted file is read as: every field, entry by entry, in the order of the file. */
  lemma SnapshotIsReadOff(raw: RawSnapshot, modifiedAt: int)
    requires Parse(raw, modifiedAt).Success?
    ensures var projects := Parse(raw, modifiedAt).value;
            && |projects| == |raw.projects|
            && forall i :: 0 <= i < |projects| ==> IsProjectOf(raw.version, modifiedAt, projects[i], raw.projects[i])
  {
    hide ParseProject, ProjectReadable, IsProjectOf;
    ProjectsAreReadOff(raw.version, modifiedAt, raw.projects);
  }

  // ---------------------------------------------------------------- what is written

  /** The leap years of the Gregorian calendar before a year; `/` rounds down. */
  function LeapsBefore(year: int): int { (year - 1) / 4 - (year - 1) / 100 + (year - 1) / 400 }

  /** The day number of a year's first day, counted from the first day of 1970. */
  function NewYear(year: int): int { (year - 1970) * 365 + LeapsBefore(year) - LeapsBefore(1970) }

  predicate IsLeap(year: int) { year % 4 == 0 && (year % 100 == 0 ==> year % 400 == 0) }

  lemma NextMultiples(k: int)
    ensures k / 4 == (k - 1) / 4 + if k % 4 == 0 then 1 else 0
    ensures k / 100 == (k - 1) / 100 + if k % 100 == 0 then 1 else 0
    ensures k / 400 == (k - 1) / 400 + if k % 400 == 0 then 1 else 0
  {
  }

  lemma CenturiesAreMultiples(k: int)
    ensures k % 100 == 0 ==> k % 4 == 0
    ensures k % 400 == 0 ==> k % 100 == 0
  {
    assert k % 100 == 0 ==> k == 4 * (25 * (k / 100));
    assert k % 400 == 0 ==> k == 100 * (4 * (k / 400));
  }

  lemma YearStep(year: int)
    ensures NewYear(year + 1) == NewYear(year) + 365 + (year / 4 - (year - 1) / 4)
                                 - (year / 100 - (year - 1) / 100) + (year / 400 - (year - 1) / 400)
  {
  }

  /** The calendar: every year is 365 or 366 days long. */
  lemma YearsAreYears(year: int)
    ensures NewYear(year + 1) == NewYear(year) + if IsLeap(year) then 366 else 365
  {
    NextMultiples(year);
    CenturiesAreMultiples(year);
    YearStep(year);
  }

  /** An entry can be written with a date of ten characters exactly on the days of the years 0 to 9999. */
  lemma FourDigitYearsAre(day: int)
    ensures FourDigitYear(day) <==> NewYear(0) <= day < NewYear(10_000)
  {
  }

  /** Later days first, then later uses, then the callers in order. */
  predicate ListedBefore(a: UserUsage, b: UserUsage) {
    && a.day >= b.day
    && (a.day == b.day ==> a.lastMs >= b.lastMs)
    && (a.day == b.day && a.lastMs == b.lastMs ==> AtMost(a.subject, b.subject))
    && (a.day == b.day && a.lastMs == b.lastMs && a.subject == b.subject ==> AtMost(a.clientId, b.clientId))
    && (a.day == b.day && a.lastMs == b.lastMs && a.subject == b.subject && a.clientId == b.clientId ==>
          AtMost(a.scope, b.scope))
  }

  predicate AtMost(a: string, b: string) { a == b || Less(a, b) }

  lemma OrderIsListing(a: UserUsage, b: UserUsage)
    ensures !Before(b, a) ==> ListedBefore(a, b)
  {
    hide Less;
    LessTotal(a.subject, b.subject);
    LessTotal(a.clientId, b.clientId);
    LessTotal(a.scope, b.scope);
  }

  /** The entries of a project, as they are written. */
  lemma EntriesAreListedInOrder(users: seq<UserUsage>, i: nat)
    requires 0 < i < |SortUsers(users)|
    ensures ListedBefore(SortUsers(users)[i - 1], SortUsers(users)[i])
  {
    hide Before, ListedBefore, SortUsers;
    SortOrders(users);
    OrderIsListing(SortUsers(users)[i - 1], SortUsers(users)[i]);
  }
}
