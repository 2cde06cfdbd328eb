/** What the persisted form keeps: round trips, migrations and restarts. */
module UsageSnapshotLaws {
  import opened Results
  import opened SortedStrings
  import opened UsageLedger
  import opened UsageLaws
  import opened UsageSnapshot

  // ---------------------------------------------------------------- stores made by recording

  predicate Named(models: seq<ModelUsage>) {
    forall m :: m in models ==> m.model != ""
  }

  /** What recording guarantees of an entry: it was last used on its day, and its models have names. */
  predicate Made(u: UserUsage) {
    JstDay(u.lastMs) == u.day && Named(u.models) && DistinctModels(u.models)
  }

  predicate Storable(u: UserUsage) {
    u.subject != "" && u.clientId != "" && u.scope != "" && FourDigitYear(u.day)
  }

  ghost predicate MadeStore(store: Projects) {
    forall p :: p in store ==> DistinctKeys(store[p]) && forall u :: u in store[p] ==> Made(u)
  }

  ghost predicate StorableStore(store: Projects) {
    forall p :: p in store ==> p != "" && forall u :: u in store[p] ==> Storable(u)
  }

  predicate StorableLine(l: Line) {
    l.project != "" && l.subject != "" && l.clientId != "" && l.scope != "" && FourDigitYear(JstDay(l.ms))
  }

  lemma {:induction false} AddKeepsNames(models: seq<ModelUsage>, m: string, c: Counters)
    requires Named(models) && m != ""
    ensures Named(AddToModels(models, m, c))
  {
    if models != [] && models[0].model != m {
      AddKeepsNames(models[1..], m, c);
    }
  }

  lemma EntryIsMade(u: UserUsage, l: Line)
    requires Made(u) && KeyOf(u) == KeyOfLine(l)
    ensures Made(AddToEntry(u, l))
  {
    KeysAgreeOnTheDay(u, l);
    AddKeepsNames(u.models, ModelName(l), Used(l));
    AddKeepsDistinct(u.models, ModelName(l), Used(l));
  }

  /** Every entry is an old one, an old one with the line added, or a new one with the line added. */
  lemma {:induction false} EntryOrigin(users: seq<UserUsage>, l: Line, u: UserUsage)
    requires u in AddToUsers(users, l)
    ensures || u in users || u == AddToEntry(NewEntry(l), l)
            || exists v :: v in users && KeyOf(v) == KeyOfLine(l) && u == AddToEntry(v, l)
  {
    hide AddToEntry, NewEntry, KeyOf, KeyOfLine;
    if users != [] && KeyOf(users[0]) != KeyOfLine(l) && u != users[0] {
      EntryOrigin(users[1..], l, u);
    }
  }

  lemma UsersAreMade(users: seq<UserUsage>, l: Line, u: UserUsage)
    requires (forall v :: v in users ==> Made(v)) && u in AddToUsers(users, l)
    ensures Made(u)
    ensures StorableLine(l) && (forall v :: v in users ==> Storable(v)) ==> Storable(u)
  {
    hide AddToUsers, KeyOf, KeyOfLine, ModelName, AddToModels, JstDay, FourDigitYear;
    EntryOrigin(users, l, u);
    NewEntryIsEmpty(l, None);
    if u !in users {
      if u == AddToEntry(NewEntry(l), l) {
        EntryIsMade(NewEntry(l), l);
      } else {
        var v :| v in users && KeyOf(v) == KeyOfLine(l) && u == AddToEntry(v, l);
        EntryIsMade(v, l);
      }
    }
  }

  lemma {:induction false} ReplayIsMade(log: seq<Line>)
    ensures MadeStore(Replay(log))
    ensures (forall l :: l in log ==> StorableLine(l)) ==> StorableStore(Replay(log))
  {
    if log != [] {
      hide AddToUsers, KeyOf, Made, Storable, DistinctKeys, Balanced;
      var before, l := log[..|log| - 1], log[|log| - 1];
      ReplayIsMade(before);
      assert forall x :: x in before ==> x in log;
      assert l in log;
      var users := UsersOf(Replay(before), l.project);
      forall u | u in AddToUsers(users, l)
        ensures Made(u)
        ensures StorableLine(l) && StorableStore(Replay(before)) ==> Storable(u)
      {
        UsersAreMade(users, l, u);
      }
      forall p | p in Replay(log) ensures DistinctKeys(Replay(log)[p]) {
        ReplayIsSound(log, p);
      }
    }
  }

  // ---------------------------------------------------------------- reading what was written

  lemma {:induction false} ModelsRoundTrip(models: seq<ModelUsage>)
    requires Named(models)
    ensures ParseModelList(WriteModels(models)) == Success(models)
  {
    if models != [] {
      ModelsRoundTrip(models[1..]);
      assert ParseModel(WriteModel(models[0])) == Success(models[0]);
      assert WriteModels(models)[1..] == WriteModels(models[1..]);
      assert [models[0]] + models[1..] == models;
    }
  }

  lemma UserRoundTrip(u: UserUsage, at: int)
    requires Made(u)
    ensures Storable(u) ==> ParseUser(4, at, WriteUser(u)) == Success(u)
    ensures !Storable(u) ==> ParseUser(4, at, WriteUser(u)).Failure?
  {
    hide JstDay, DistinctModels;
    ModelsRoundTrip(u.models);
  }

  predicate AllStorable(users: seq<UserUsage>) {
    forall u :: u in users ==> Storable(u)
  }

  lemma {:induction false} UsersRoundTrip(users: seq<UserUsage>, at: int)
    requires forall u :: u in users ==> Made(u)
    ensures AllStorable(users) ==> ParseUsers(4, at, WriteUsers(users)) == Success(users)
    ensures !AllStorable(users) ==> ParseUsers(4, at, WriteUsers(users)).Failure?
  {
    hide WriteUser, ParseUser, Made, Storable;
    if users != [] {
      UserRoundTrip(users[0], at);
      UsersRoundTrip(users[1..], at);
      assert WriteUsers(users)[1..] == WriteUsers(users[1..]);
      assert [users[0]] + users[1..] == users;
      assert AllStorable(users) <==> Storable(users[0]) && AllStorable(users[1..]);
    }
  }

  /** The parsed form that a snapshot should come back to. */
  function Written(store: Projects, names: seq<string>): seq<ProjectUsage> {
    if names == [] then []
    else [ProjectUsage(names[0], SortUsers(UsersOf(store, names[0])))] + Written(store, names[1..])
  }

  ghost predicate NamesStorable(store: Projects, names: seq<string>) {
    forall p :: p in names ==> p != "" && AllStorable(UsersOf(store, p))
  }

  lemma {:induction false} InsertKeepsEntries(users: seq<UserUsage>, u: UserUsage)
    ensures multiset(InsertUser(users, u)) == multiset(users) + multiset{u}
  {
    hide Before;
    if users != [] && Before(users[0], u) {
      InsertKeepsEntries(users[1..], u);
      assert users == [users[0]] + users[1..];
    }
  }

  lemma {:induction false} SortKeepsEntries(users: seq<UserUsage>)
    ensures multiset(SortUsers(users)) == multiset(users)
  {
    if users != [] {
      SortKeepsEntries(users[1..]);
      InsertKeepsEntries(SortUsers(users[1..]), users[0]);
      assert users == [users[0]] + users[1..];
    }
  }

  predicate Ordered(users: seq<UserUsage>) {
    forall i :: 0 < i < |users| ==> !Before(users[i], users[i - 1])
  }

  lemma BeforeIsAsymmetric(a: UserUsage, b: UserUsage)
    requires Before(a, b)
    ensures !Before(b, a)
  {
    LessTotal(a.subject, b.subject);
    LessTotal(a.clientId, b.clientId);
    LessTotal(a.scope, b.scope);
  }

  lemma {:induction false} InsertKeepsOrder(users: seq<UserUsage>, u: UserUsage)
    requires Ordered(users)
    ensures Ordered(InsertUser(users, u))
  {
    hide Before;
    if users != [] && Before(users[0], u) {
      InsertKeepsOrder(users[1..], u);
      BeforeIsAsymmetric(users[0], u);
      var rest := InsertUser(users[1..], u);
      assert rest[0] == u || rest[0] == users[1];
      assert InsertUser(users, u) == [users[0]] + rest;
    }
  }

  /** The file lists a project's entries newest first, then by caller. */
  lemma {:induction false} SortOrders(users: seq<UserUsage>)
    ensures Ordered(SortUsers(users))
  {
    hide Before;
    if users != [] {
      SortOrders(users[1..]);
      InsertKeepsOrder(SortUsers(users[1..]), users[0]);
    }
  }

  lemma SortKeepsMembers(users: seq<UserUsage>, u: UserUsage)
    ensures u in SortUsers(users) <==> u in users
  {
    SortKeepsEntries(users);
    assert u in multiset(SortUsers(users)) <==> u in multiset(users);
  }

  lemma SortKeepsStorable(users: seq<UserUsage>)
    ensures AllStorable(SortUsers(users)) <==> AllStorable(users)
    ensures (forall u :: u in users ==> Made(u)) ==> forall u :: u in SortUsers(users) ==> Made(u)
  {
    hide Storable, Made;
    forall u ensures u in SortUsers(users) <==> u in users {
      SortKeepsMembers(users, u);
    }
  }

  lemma {:induction false} ProjectsRoundTrip(store: Projects, names: seq<string>, at: int)
    requires forall p :: p in names ==> forall u :: u in UsersOf(store, p) ==> Made(u)
    ensures var r := ParseProjects(4, at, WriteProjects(store, names));
            if NamesStorable(store, names) then r == Success(Written(store, names)) else r.Failure?
  {
    hide AllStorable, Made, SortUsers, ParseUsers, WriteUsers;
    if names != [] {
      var users := UsersOf(store, names[0]);
      SortKeepsStorable(users);
      UsersRoundTrip(SortUsers(users), at);
      ProjectsRoundTrip(store, names[1..], at);
      assert WriteProjects(store, names)[1..] == WriteProjects(store, names[1..]);
      assert forall p :: p in names <==> p == names[0] || p in names[1..];
    }
  }

  lemma {:induction false} WrittenNames(store: Projects, names: seq<string>)
    ensures |Written(store, names)| == |names|
    ensures forall i :: 0 <= i < |names| ==>
              Written(store, names)[i] == ProjectUsage(names[i], SortUsers(UsersOf(store, names[i])))
  {
    hide SortUsers;
    if names != [] {
      WrittenNames(store, names[1..]);
    }
  }

  lemma WrittenDistinct(store: Projects, names: seq<string>)
    requires StrictlySorted(names)
    ensures DistinctProjects(Written(store, names))
  {
    WrittenNames(store, names);
    forall i, j | 0 <= i < j < |names| ensures names[i] != names[j] {
      LessTotal(names[i], names[j]);
    }
  }

  // ---------------------------------------------------------------- loading

  lemma {:induction false} PutNew(users: seq<UserUsage>, u: UserUsage)
    requires forall v :: v in users ==> KeyOf(v) != KeyOf(u)
    ensures PutUser(users, u) == users + [u]
  {
    hide KeyOf;
    if users != [] {
      PutNew(users[1..], u);
      assert users == [users[0]] + users[1..];
    }
  }

  /** With unique keys loading keeps every entry, in order. */
  lemma {:induction false} LoadKeepsDistinct(users: seq<UserUsage>)
    requires DistinctKeys(users)
    ensures LoadUsers(users) == users
  {
    hide KeyOf;
    if users != [] {
      var before, u := users[..|users| - 1], users[|users| - 1];
      LoadKeepsDistinct(before);
      PutNew(before, u);
    }
  }

  predicate KeysDifferFrom(users: seq<UserUsage>, u: UserUsage) {
    forall v :: v in users ==> KeyOf(v) != KeyOf(u)
  }

  lemma {:induction false} InsertKeepsDistinct(users: seq<UserUsage>, u: UserUsage)
    requires DistinctKeys(users) && KeysDifferFrom(users, u)
    ensures DistinctKeys(InsertUser(users, u))
  {
    hide Before, KeyOf;
    if users == [] || !Before(users[0], u) {
    } else {
      InsertKeepsDistinct(users[1..], u);
      var rest := InsertUser(users[1..], u);
      forall k | 0 <= k < |rest| ensures KeyOf(users[0]) != KeyOf(rest[k]) {
        InsertKeepsEntries(users[1..], u);
        assert rest[k] in multiset(rest);
        if rest[k] != u {
          assert rest[k] in users[1..];
        }
      }
    }
  }

  lemma {:induction false} SortKeepsDistinct(users: seq<UserUsage>)
    requires DistinctKeys(users)
    ensures DistinctKeys(SortUsers(users))
  {
    hide KeyOf, InsertUser;
    if users != [] {
      SortKeepsDistinct(users[1..]);
      forall v | v in SortUsers(users[1..]) ensures KeyOf(v) != KeyOf(users[0]) {
        SortKeepsMembers(users[1..], v);
      }
      InsertKeepsDistinct(SortUsers(users[1..]), users[0]);
    }
  }

  lemma {:induction false} LoadEach(projects: seq<ProjectUsage>, i: nat)
    requires DistinctProjects(projects) && i < |projects|
    ensures projects[i].project in Load(projects)
    ensures Load(projects)[projects[i].project] == LoadUsers(projects[i].users)
  {
    if i < |projects| - 1 {
      LoadEach(projects[..|projects| - 1], i);
    }
  }

  lemma {:induction false} LoadOnly(projects: seq<ProjectUsage>, name: string)
    requires name in Load(projects)
    ensures exists i :: 0 <= i < |projects| && projects[i].project == name
  {
    if name != projects[|projects| - 1].project {
      LoadOnly(projects[..|projects| - 1], name);
      var i :| 0 <= i < |projects| - 1 && projects[..|projects| - 1][i].project == name;
      assert projects[i].project == name;
    }
  }

  /** The store after a restart: the same entries, each project's in the order of the file. */
  function Restarted(store: Projects): Projects {
    map p | p in store :: SortUsers(store[p])
  }

  lemma LoadWritten(store: Projects, names: seq<string>)
    requires NamesOf(store, names) && forall p :: p in store ==> DistinctKeys(store[p])
    ensures Load(Written(store, names)) == Restarted(store)
  {
    hide SortUsers, DistinctKeys, LoadUsers;
    WrittenNames(store, names);
    WrittenDistinct(store, names);
    var written := Written(store, names);
    forall p | p in store ensures p in Load(written) && Load(written)[p] == SortUsers(store[p]) {
      assert p in Elements(names);
      var i :| 0 <= i < |names| && names[i] == p;
      LoadEach(written, i);
      SortKeepsDistinct(store[p]);
      LoadKeepsDistinct(SortUsers(store[p]));
    }
    forall p | p in Load(written) ensures p in store {
      LoadOnly(written, p);
      assert p in Elements(names);
    }
  }

  /**
   The file written from a store that recording made can be read back if and only if every
   project and caller field is non-empty and every day has a four-digit year; then the store
   comes back with the same entries under the same projects.
  */
  lemma SnapshotRoundTrip(store: Projects, names: seq<string>, at: int)
    requires MadeStore(store) && NamesOf(store, names)
    ensures Parse(Snapshot(store, names), at).Success? <==> StorableStore(store)
    ensures StorableStore(store) ==> Load(Parse(Snapshot(store, names), at).value) == Restarted(store)
    ensures forall p :: p in store ==> multiset(Restarted(store)[p]) == multiset(store[p])
  {
    hide SortUsers, DistinctKeys, Made, Storable, ParseProjects, WriteProjects, DistinctProjects, Load;
    forall p | p in names ensures p in store {
      assert p in Elements(names);
    }
    assert NamesStorable(store, names) <==> StorableStore(store) by {
      forall p | p in store ensures p in names {
        assert p in Elements(names);
      }
    }
    ProjectsRoundTrip(store, names, at);
    WrittenDistinct(store, names);
    LoadWritten(store, names);
    forall p | p in store ensures multiset(Restarted(store)[p]) == multiset(store[p]) {
      SortKeepsEntries(store[p]);
    }
  }

  // ---------------------------------------------------------------- migration

  predicate SameCounters(u: UserUsage, raw: RawUsage) {
    && Some(u.counters.requests) == raw.requests && Some(u.counters.prompt) == raw.prompt
    && Some(u.counters.completion) == raw.completion && Some(u.counters.total) == raw.total
  }

  /** An entry of an older file keeps its counters and gets one model that carries all of them. */
  lemma MigrationBalances(version: int, at: int, raw: RawUsage)
    requires version in {1, 2, 3} && ParseUser(version, at, raw).Success?
    ensures var u := ParseUser(version, at, raw).value;
            && Balanced(u) && Made(u)
            && u.models == [ModelUsage(DEFAULT_MODEL, u.counters)]
            && SameCounters(u, raw)
            && Some(u.subject) == raw.subject && Some(u.clientId) == raw.clientId && Some(u.scope) == raw.scope
            && u.day == (if raw.date.ADate? then raw.date.day else JstDay(at))
  {
    var u := ParseUser(version, at, raw).value;
    assert u.models[1..] == [];
    if version < 3 && JstDay(at) != u.day {
      StartOfDay(u.day);
    }
  }

  lemma StartOfDay(day: int)
    ensures JstDay(day * DAY_MS - JST_OFFSET_MS) == day
  {
  }

  lemma {:induction false} ParsedUsers(version: int, at: int, raws: seq<RawUsage>)
    requires ParseUsers(version, at, raws).Success?
    ensures |ParseUsers(version, at, raws).value| == |raws|
    ensures forall i :: 0 <= i < |raws| ==>
              ParseUser(version, at, raws[i]) == Success(ParseUsers(version, at, raws).value[i])
  {
    hide ParseUser;
    if raws != [] {
      ParsedUsers(version, at, raws[1..]);
    }
  }

  /** Loading a project of an older file with unique keys keeps every entry and balances it. */
  lemma MigrationKeepsCounters(version: int, at: int, raws: seq<RawUsage>)
    requires version in {1, 2, 3} && ParseUsers(version, at, raws).Success?
    requires DistinctKeys(ParseUsers(version, at, raws).value)
    ensures var users := LoadUsers(ParseUsers(version, at, raws).value);
            && |users| == |raws| && Sound(users)
            && forall i :: 0 <= i < |raws| ==> SameCounters(users[i], raws[i])
  {
    hide ParseUser, Balanced, Made;
    var users := ParseUsers(version, at, raws).value;
    ParsedUsers(version, at, raws);
    LoadKeepsDistinct(users);
    forall i | 0 <= i < |raws| ensures Balanced(users[i]) && SameCounters(users[i], raws[i]) {
      MigrationBalances(version, at, raws[i]);
    }
  }

  /** The counters that a raw entry or model states, once it is accepted. */
  function Stated(requests: Option<nat>, prompt: Option<nat>, completion: Option<nat>, total: Option<nat>): Counters {
    if requests == None || prompt == None || completion == None || total == None then ZERO
    else Counters(requests.value, prompt.value, completion.value, total.value)
  }

  function StatedByModels(raws: seq<RawModel>): Counters {
    if raws == [] then ZERO
    else Plus(Stated(raws[0].requests, raws[0].prompt, raws[0].completion, raws[0].total), StatedByModels(raws[1..]))
  }

  lemma {:induction false} ParsedModelsSum(raws: seq<RawModel>)
    requires ParseModelList(raws).Success?
    ensures SumOf(ParseModelList(raws).value) == StatedByModels(raws)
  {
    hide Plus;
    if raws != [] {
      ParsedModelsSum(raws[1..]);
      var rest := ParseModelList(raws[1..]).value;
      assert ([ParseModel(raws[0]).value] + rest)[1..] == rest;
    }
  }

  /**
   Version 4 is taken as written: an accepted entry is balanced exactly when its counters are the
   sums over the models it lists.
  */
  lemma VersionFourBalancedIff(at: int, raw: RawUsage)
    requires ParseUser(4, at, raw).Success?
    ensures Balanced(ParseUser(4, at, raw).value) <==>
            raw.models.Some? && Stated(raw.requests, raw.prompt, raw.completion, raw.total) == StatedByModels(raw.models.value)
  {
    hide SumOf, StatedByModels, ParseModelList, Plus;
    ParsedModelsSum(raw.models.value);
  }

  /** So an entry with counters and no models is accepted, and not balanced. */
  lemma VersionFourMayBeUnbalanced(at: int)
    ensures exists raw :: ParseUser(4, at, raw).Success? && !Balanced(ParseUser(4, at, raw).value)
  {
    var u := UserUsage(0, 0, [], "s", "c", "r", Counters(1, 1, 1, 1));
    assert JstDay(0) == 0;
    UserRoundTrip(u, at);
    assert ParseUser(4, at, WriteUser(u)).Success? && !Balanced(ParseUser(4, at, WriteUser(u)).value);
  }

  lemma {:induction false} PutKeepsDistinct(users: seq<UserUsage>, u: UserUsage)
    requires DistinctKeys(users)
    ensures DistinctKeys(PutUser(users, u))
    ensures forall v :: v in PutUser(users, u) <==> v == u || (v in users && KeyOf(v) != KeyOf(u))
  {
    hide KeyOf;
    if users != [] {
      assert users == [users[0]] + users[1..];
      assert forall v :: v in users[1..] ==> KeyOf(v) != KeyOf(users[0]);
      if KeyOf(users[0]) != KeyOf(u) {
        PutKeepsDistinct(users[1..], u);
        var rest := PutUser(users[1..], u);
        forall k | 0 <= k < |rest| ensures KeyOf(users[0]) != KeyOf(rest[k]) {
          assert rest[k] in rest;
        }
      }
    }
  }

  /** The entry at `i` is the last of its key. */
  predicate LastOfKey(users: seq<UserUsage>, i: int) {
    0 <= i < |users| && forall j :: i < j < |users| ==> KeyOf(users[j]) != KeyOf(users[i])
  }

  /** Loading keeps of each key exactly the last entry. */
  lemma {:induction false} LastEntryOfEachKeyWins(users: seq<UserUsage>)
    ensures DistinctKeys(LoadUsers(users))
    ensures forall u :: u in LoadUsers(users) <==> exists i :: LastOfKey(users, i) && users[i] == u
  {
    hide KeyOf;
    if users != [] {
      var before, last := users[..|users| - 1], users[|users| - 1];
      LastEntryOfEachKeyWins(before);
      PutKeepsDistinct(LoadUsers(before), last);
      forall u ensures u in LoadUsers(users) <==> exists i :: LastOfKey(users, i) && users[i] == u {
        LastOfKeyOneMore(users, u);
      }
    }
  }

  lemma LastOfKeyOneMore(users: seq<UserUsage>, u: UserUsage)
    requires users != []
    ensures var before, last := users[..|users| - 1], users[|users| - 1];
            (exists i :: LastOfKey(users, i) && users[i] == u) <==>
            u == last || ((exists i :: LastOfKey(before, i) && before[i] == u) && KeyOf(u) != KeyOf(last))
  {
    hide KeyOf;
    var before, last := users[..|users| - 1], users[|users| - 1];
    assert LastOfKey(users, |users| - 1);
    if i :| LastOfKey(users, i) && users[i] == u && u != last {
      assert LastOfKey(before, i) && before[i] == u;
    }
    if i :| LastOfKey(before, i) && before[i] == u && KeyOf(u) != KeyOf(last) {
      assert LastOfKey(users, i) && users[i] == u;
    }
  }

  /** No version rejects two entries with one key, so loading is faithful exactly when there are none. */
  lemma LoadIsFaithfulIff(users: seq<UserUsage>)
    ensures LoadUsers(users) == users <==> DistinctKeys(users)
  {
    LastEntryOfEachKeyWins(users);
    if DistinctKeys(users) {
      LoadKeepsDistinct(users);
    }
  }

  // ---------------------------------------------------------------- restarts

  function ReplayFrom(store: Projects, log: seq<Line>): Projects {
    if log == [] then store else Recorded(ReplayFrom(store, log[..|log| - 1]), log[|log| - 1])
  }

  lemma {:induction false} InsertKeepsDayTotal(users: seq<UserUsage>, u: UserUsage, day: int, n: string)
    ensures DayTotal(InsertUser(users, u), day, n) == DayTotal([u] + users, day, n)
    ensures OccursOn(InsertUser(users, u), day, n) <==> OccursOn([u] + users, day, n)
  {
    hide Before, TotalFor, Occurs, Plus;
    assert ([u] + users)[1..] == users;
    if users != [] && Before(users[0], u) {
      InsertKeepsDayTotal(users[1..], u, day, n);
      assert ([u] + users[1..])[1..] == users[1..];
      assert InsertUser(users, u)[1..] == InsertUser(users[1..], u);
      PlusLaws(if u.day == day then TotalFor(u.models, n) else ZERO,
               if users[0].day == day then TotalFor(users[0].models, n) else ZERO, DayTotal(users[1..], day, n));
      PlusLaws(if users[0].day == day then TotalFor(users[0].models, n) else ZERO,
               if u.day == day then TotalFor(u.models, n) else ZERO, DayTotal(users[1..], day, n));
      PlusCommutes(if u.day == day then TotalFor(u.models, n) else ZERO,
                   if users[0].day == day then TotalFor(users[0].models, n) else ZERO);
    }
  }

  lemma PlusCommutes(a: Counters, b: Counters)
    ensures Plus(a, b) == Plus(b, a)
  {
  }

  lemma {:induction false} SortKeepsDayTotal(users: seq<UserUsage>, day: int, n: string)
    ensures DayTotal(SortUsers(users), day, n) == DayTotal(users, day, n)
    ensures OccursOn(SortUsers(users), day, n) <==> OccursOn(users, day, n)
  {
    hide InsertUser, TotalFor, Occurs, Plus;
    if users != [] {
      SortKeepsDayTotal(users[1..], day, n);
      InsertKeepsDayTotal(SortUsers(users[1..]), users[0], day, n);
      assert ([users[0]] + SortUsers(users[1..]))[1..] == SortUsers(users[1..]);
    }
  }

  lemma {:induction false} DayTotalsFrom(store: Projects, log: seq<Line>, project: string, day: int, n: string)
    ensures DayTotal(UsersOf(ReplayFrom(store, log), project), day, n)
            == Plus(DayTotal(UsersOf(store, project), day, n), Total(log, OfModel(project, day, n)))
    ensures OccursOn(UsersOf(ReplayFrom(store, log), project), day, n)
            <==> OccursOn(UsersOf(store, project), day, n) || Any(log, OfModel(project, day, n))
  {
    hide ModelName, JstDay, AddToUsers, DayTotal, OccursOn, Plus;
    var start := DayTotal(UsersOf(store, project), day, n);
    PlusLaws(start, ZERO, ZERO);
    if log != [] {
      var before, l := log[..|log| - 1], log[|log| - 1];
      DayTotalsFrom(store, before, project, day, n);
      DayTotalAdd(UsersOf(ReplayFrom(store, before), l.project), l, day, n);
      OccursOnAdd(UsersOf(ReplayFrom(store, before), l.project), l, day, n);
      AnyLast(log, OfModel(project, day, n));
      PlusLaws(start, Total(before, OfModel(project, day, n)), Used(l));
      PlusLaws(Total(before, OfModel(project, day, n)), ZERO, ZERO);
      PlusLaws(Plus(start, Total(before, OfModel(project, day, n))), ZERO, ZERO);
    }
  }

  lemma {:induction false} TotalConcat(a: seq<Line>, b: seq<Line>, p: Line -> bool)
    ensures Total(a + b, p) == Plus(Total(a, p), Total(b, p))
    ensures Any(a + b, p) <==> Any(a, p) || Any(b, p)
  {
    hide Plus;
    PlusLaws(Total(a, p), ZERO, ZERO);
    if b == [] {
      assert a + b == a;
    } else {
      var before, l := b[..|b| - 1], b[|b| - 1];
      TotalConcat(a, before, p);
      assert (a + b)[..|a + b| - 1] == a + before;
      assert (a + b)[|a + b| - 1] == l;
      PlusLaws(Total(a, p), Total(before, p), if p(l) then Used(l) else ZERO);
      AnyLast(a + b, p);
      AnyLast(b, p);
    }
  }

  /**
   A restart does not show: after writing the store, reading it back and recording more, the
   daily report is that of the whole log, before and after.
  */
  lemma RestartIsInvisible(a: seq<Line>, b: seq<Line>, names: seq<string>, at: int, project: string, day: int,
                           report: seq<ModelUsage>)
    requires (forall l :: l in a ==> StorableLine(l)) && NamesOf(Replay(a), names)
    requires Parse(Snapshot(Replay(a), names), at).Success?
    requires IsDailyReport(report,
               UsersOf(ReplayFrom(Load(Parse(Snapshot(Replay(a), names), at).value), b), project), day)
    ensures forall i :: 0 <= i < |report| ==>
              report[i].counters == Total(a + b, OfModel(project, day, report[i].model))
    ensures forall n: string :: n in Names(report) <==> Any(a + b, OfModel(project, day, n))
  {
    var store := Load(Parse(Snapshot(Replay(a), names), at).value);
    assert store == Restarted(Replay(a)) by {
      ReplayIsMade(a);
      SnapshotRoundTrip(Replay(a), names, at);
    }
    forall n: string
      ensures DayTotal(UsersOf(ReplayFrom(store, b), project), day, n) == Total(a + b, OfModel(project, day, n))
      ensures OccursOn(UsersOf(ReplayFrom(store, b), project), day, n) <==> Any(a + b, OfModel(project, day, n))
    {
      TotalAfterRestart(a, b, project, day, n);
    }
  }

  lemma TotalAfterRestart(a: seq<Line>, b: seq<Line>, project: string, day: int, n: string)
    ensures var users := UsersOf(ReplayFrom(Restarted(Replay(a)), b), project);
            && DayTotal(users, day, n) == Total(a + b, OfModel(project, day, n))
            && (OccursOn(users, day, n) <==> Any(a + b, OfModel(project, day, n)))
  {
    hide Replay, SortUsers, Total, Plus;
    SortKeepsDayTotal(UsersOf(Replay(a), project), day, n);
    SortKeepsDayTotal([], day, n);
    assert UsersOf(Restarted(Replay(a)), project) == SortUsers(UsersOf(Replay(a), project)) by {
      NothingToSort();
    }
    DayTotalsAreTheLog(a, project, day, n);
    DayTotalsFrom(Restarted(Replay(a)), b, project, day, n);
    TotalConcat(a, b, OfModel(project, day, n));
  }

  lemma NothingToSort()
    ensures SortUsers([]) == []
  {
  }
}
