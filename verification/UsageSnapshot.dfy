/**
 The persisted form of the ledger: what is written, how versions 1 to 4 are read back, and what
 a restart keeps. JSON values appear as records whose fields say what the reader can tell of them.
*/
module UsageSnapshot {
  import opened Results
  import opened SortedStrings
  import opened UsageLedger
  import opened UsageLaws

  /** A date field: absent, a calendar date, or anything else. */
  datatype DateField = NoDate | ADate(day: int) | NotADate

  /** A timestamp with the offset of Japan, or anything else. */
  datatype StampField = AStamp(ms: int) | NotAStamp

  /** Only non-empty texts and non-negative integers are accepted; `None` stands for the rest. */
  datatype RawModel = RawModel(
    model: Option<string>, requests: Option<nat>, prompt: Option<nat>, completion: Option<nat>, total: Option<nat>)

  datatype RawUsage = RawUsage(
    date: DateField, lastUsage: StampField, models: Option<seq<RawModel>>, subject: Option<string>,
    clientId: Option<string>, scope: Option<string>,
    requests: Option<nat>, prompt: Option<nat>, completion: Option<nat>, total: Option<nat>)

  datatype RawProject = RawProject(project: Option<string>, users: Option<seq<RawUsage>>)

  datatype RawSnapshot = RawSnapshot(version: int, projects: seq<RawProject>)

  datatype ParseError =
    | BadVersion | BadProject | BadText | BadNumber | BadDate | BadTimestamp | BadModels
    | DuplicateModel | DuplicateProject

  datatype ProjectUsage = ProjectUsage(project: string, users: seq<UserUsage>)

  // ---------------------------------------------------------------- reading

  predicate GoodText(t: Option<string>) { t.Some? && t.value != "" }

  function ParseCounters(requests: Option<nat>, prompt: Option<nat>, completion: Option<nat>, total: Option<nat>):
      Result<Counters, ParseError> {
    if requests == None || prompt == None || completion == None || total == None then Failure(BadNumber)
    else Success(Counters(requests.value, prompt.value, completion.value, total.value))
  }

  function ParseModel(raw: RawModel): Result<ModelUsage, ParseError> {
    if !GoodText(raw.model) then Failure(BadText)
    else
      match ParseCounters(raw.requests, raw.prompt, raw.completion, raw.total)
      case Failure(e) => Failure(e)
      case Success(c) => Success(ModelUsage(raw.model.value, c))
  }

  function ParseModelList(raws: seq<RawModel>): Result<seq<ModelUsage>, ParseError> {
    if raws == [] then Success([])
    else
      match ParseModel(raws[0])
      case Failure(e) => Failure(e)
      case Success(m) =>
        match ParseModelList(raws[1..])
        case Failure(e) => Failure(e)
        case Success(rest) => Success([m] + rest)
  }

  function ParseModels(raws: Option<seq<RawModel>>): Result<seq<ModelUsage>, ParseError> {
    if raws == None then Failure(BadModels)
    else
      match ParseModelList(raws.value)
      case Failure(e) => Failure(e)
      case Success(models) => if DistinctModels(models) then Success(models) else Failure(DuplicateModel)
  }

  function ParseDate(version: int, date: DateField, modifiedAt: int): Result<int, ParseError> {
    match date
    case ADate(day) => Success(day)
    case NoDate => if version == 1 then Success(JstDay(modifiedAt)) else Failure(BadDate)
    case NotADate => Failure(BadDate)
  }

  /** From version 3 on the entry has its own timestamp; before that the file's time is used if it fits. */
  function ParseLastUsage(version: int, stamp: StampField, day: int, modifiedAt: int): Result<int, ParseError> {
    if version >= 3 then
      if stamp.AStamp? && JstDay(stamp.ms) == day then Success(stamp.ms) else Failure(BadTimestamp)
    else Success(if JstDay(modifiedAt) == day then modifiedAt else day * DAY_MS - JST_OFFSET_MS)
  }

  function ParseUser(version: int, modifiedAt: int, raw: RawUsage): Result<UserUsage, ParseError> {
    match ParseDate(version, raw.date, modifiedAt)
    case Failure(e) => Failure(e)
    case Success(day) =>
      match ParseCounters(raw.requests, raw.prompt, raw.completion, raw.total)
      case Failure(e) => Failure(e)
      case Success(c) =>
        match ParseLastUsage(version, raw.lastUsage, day, modifiedAt)
        case Failure(e) => Failure(e)
        case Success(lastMs) =>
          match if version == 4 then ParseModels(raw.models) else Success([ModelUsage(DEFAULT_MODEL, c)])
          case Failure(e) => Failure(e)
          case Success(models) =>
            if !GoodText(raw.subject) || !GoodText(raw.clientId) || !GoodText(raw.scope) then Failure(BadText)
            else Success(UserUsage(day, lastMs, models, raw.subject.value, raw.clientId.value, raw.scope.value, c))
  }

  function ParseUsers(version: int, modifiedAt: int, raws: seq<RawUsage>): Result<seq<UserUsage>, ParseError> {
    if raws == [] then Success([])
    else
      match ParseUser(version, modifiedAt, raws[0])
      case Failure(e) => Failure(e)
      case Success(u) =>
        match ParseUsers(version, modifiedAt, raws[1..])
        case Failure(e) => Failure(e)
        case Success(rest) => Success([u] + rest)
  }

  function ParseProject(version: int, modifiedAt: int, raw: RawProject): Result<ProjectUsage, ParseError> {
    if raw.users == None then Failure(BadProject)
    else if !GoodText(raw.project) then Failure(BadText)
    else
      match ParseUsers(version, modifiedAt, raw.users.value)
      case Failure(e) => Failure(e)
      case Success(users) => Success(ProjectUsage(raw.project.value, users))
  }

  function ParseProjects(version: int, modifiedAt: int, raws: seq<RawProject>): Result<seq<ProjectUsage>, ParseError> {
    if raws == [] then Success([])
    else
      match ParseProject(version, modifiedAt, raws[0])
      case Failure(e) => Failure(e)
      case Success(p) =>
        match ParseProjects(version, modifiedAt, raws[1..])
        case Failure(e) => Failure(e)
        case Success(rest) => Success([p] + rest)
  }

  predicate DistinctProjects(projects: seq<ProjectUsage>) {
    forall i, j :: 0 <= i < j < |projects| ==> projects[i].project != projects[j].project
  }

  function Parse(raw: RawSnapshot, modifiedAt: int): Result<seq<ProjectUsage>, ParseError> {
    if raw.version !in {1, 2, 3, 4} then Failure(BadVersion)
    else
      match ParseProjects(raw.version, modifiedAt, raw.projects)
      case Failure(e) => Failure(e)
      case Success(projects) => if DistinctProjects(projects) then Success(projects) else Failure(DuplicateProject)
  }

  /** Sets an entry under its key, in the place of an earlier one if there is one. */
  function PutUser(users: seq<UserUsage>, u: UserUsage): seq<UserUsage> {
    if users == [] then [u]
    else if KeyOf(users[0]) == KeyOf(u) then [u] + users[1..]
    else [users[0]] + PutUser(users[1..], u)
  }

  function LoadUsers(users: seq<UserUsage>): seq<UserUsage> {
    if users == [] then [] else PutUser(LoadUsers(users[..|users| - 1]), users[|users| - 1])
  }

  function Load(projects: seq<ProjectUsage>): Projects {
    if projects == [] then map[]
    else
      var p := projects[|projects| - 1];
      Load(projects[..|projects| - 1])[p.project := LoadUsers(p.users)]
  }

  /** The loops that fill the store from a parsed snapshot. */
  method LoadSnapshot(store: UsageStore, snapshot: seq<ProjectUsage>)
    requires store.projects == map[]
    modifies store
    ensures store.projects == Load(snapshot)
  {
    var i := 0;
    while i < |snapshot|
      invariant i <= |snapshot|
      invariant store.projects == Load(snapshot[..i])
    {
      var users := snapshot[i].users;
      var projectUsers: seq<UserUsage> := [];
      for j := 0 to |users|
        invariant projectUsers == LoadUsers(users[..j])
      {
        assert users[..j + 1][..j] == users[..j];
        projectUsers := PutUser(projectUsers, users[j]);
      }
      assert users[..|users|] == users;
      assert snapshot[..i + 1][..i] == snapshot[..i];
      store.projects := store.projects[snapshot[i].project := projectUsers];
      i := i + 1;
    }
    assert snapshot[..|snapshot|] == snapshot;
  }

  // ---------------------------------------------------------------- writing

  /** Newest first, then by caller. */
  predicate Before(a: UserUsage, b: UserUsage) {
    || a.day > b.day
    || (a.day == b.day
        && (|| a.lastMs > b.lastMs
            || (a.lastMs == b.lastMs
                && (|| Less(a.subject, b.subject)
                    || (a.subject == b.subject
                        && (|| Less(a.clientId, b.clientId)
                            || (a.clientId == b.clientId && Less(a.scope, b.scope))))))))
  }

  function InsertUser(users: seq<UserUsage>, u: UserUsage): seq<UserUsage> {
    if users == [] || !Before(users[0], u) then [u] + users else [users[0]] + InsertUser(users[1..], u)
  }

  function SortUsers(users: seq<UserUsage>): seq<UserUsage> {
    if users == [] then [] else InsertUser(SortUsers(users[1..]), users[0])
  }

  function WriteModel(m: ModelUsage): RawModel {
    var c := m.counters;
    RawModel(Some(m.model), Some(c.requests), Some(c.prompt), Some(c.completion), Some(c.total))
  }

  function WriteModels(models: seq<ModelUsage>): seq<RawModel> {
    if models == [] then [] else [WriteModel(models[0])] + WriteModels(models[1..])
  }

  /** The days of the years 0000 to 9999; only these are written with a four-digit year. */
  predicate FourDigitYear(day: int) { -719_528 <= day <= 2_932_896 }

  function WriteUser(u: UserUsage): RawUsage {
    var c := u.counters;
    RawUsage(ADate(u.day), if FourDigitYear(JstDay(u.lastMs)) then AStamp(u.lastMs) else NotAStamp,
             Some(WriteModels(u.models)), Some(u.subject), Some(u.clientId), Some(u.scope),
             Some(c.requests), Some(c.prompt), Some(c.completion), Some(c.total))
  }

  function WriteUsers(users: seq<UserUsage>): seq<RawUsage> {
    if users == [] then [] else [WriteUser(users[0])] + WriteUsers(users[1..])
  }

  function WriteProjects(store: Projects, names: seq<string>): seq<RawProject> {
    if names == [] then []
    else [RawProject(Some(names[0]), Some(WriteUsers(SortUsers(UsersOf(store, names[0])))))] + WriteProjects(store, names[1..])
  }

  /** `names` are the projects in order. */
  function Snapshot(store: Projects, names: seq<string>): RawSnapshot {
    RawSnapshot(4, WriteProjects(store, names))
  }

  predicate NamesOf(store: Projects, names: seq<string>) {
    StrictlySorted(names) && Elements(names) == store.Keys
  }
}
