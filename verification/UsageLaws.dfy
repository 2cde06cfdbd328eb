/** The ledger is the plain log of requests, grouped. */
module UsageLaws {
  import opened Results
  import opened SortedStrings
  import opened UsageLedger
  import Texts

  /** The log filtered and added up, without any ledger. */
  function Total(log: seq<Line>, p: Line -> bool): Counters {
    if log == [] then ZERO
    else Plus(Total(log[..|log| - 1], p), if p(log[|log| - 1]) then Used(log[|log| - 1]) else ZERO)
  }

  predicate Any(log: seq<Line>, p: Line -> bool) {
    exists i :: 0 <= i < |log| && p(log[i])
  }

  function OfModel(project: string, day: int, name: string): Line -> bool {
    (l: Line) => l.project == project && JstDay(l.ms) == day && ModelName(l) == name
  }

  /** The lines of one key, or those of them for one model. */
  function OfKey(project: string, key: Key, name: Option<string>): Line -> bool {
    (l: Line) => l.project == project && KeyOfLine(l) == key && (name.Some? ==> ModelName(l) == name.value)
  }

  lemma {:induction false} TotalForAdd(models: seq<ModelUsage>, m: string, c: Counters, n: string)
    ensures TotalFor(AddToModels(models, m, c), n) == Plus(TotalFor(models, n), if n == m then c else ZERO)
  {
    var added := AddToModels(models, m, c);
    if models == [] {
      assert TotalFor(added[1..], n) == ZERO;
    } else if models[0].model == m {
      assert added[1..] == models[1..];
    } else {
      TotalForAdd(models[1..], m, c, n);
      assert added[1..] == AddToModels(models[1..], m, c);
    }
  }

  lemma {:induction false} OccursAdd(models: seq<ModelUsage>, m: string, c: Counters, n: string)
    ensures Occurs(AddToModels(models, m, c), n) <==> Occurs(models, n) || n == m
  {
    var added := AddToModels(models, m, c);
    if models == [] {
      assert !Occurs(added[1..], n);
    } else if models[0].model == m {
      assert added[1..] == models[1..];
    } else {
      OccursAdd(models[1..], m, c, n);
      assert added[1..] == AddToModels(models[1..], m, c);
    }
  }

  lemma KeysAgreeOnTheDay(u: UserUsage, l: Line)
    requires KeyOf(u) == KeyOfLine(l)
    ensures u.day == JstDay(l.ms)
  {
  }

  lemma {:induction false} DayTotalAdd(users: seq<UserUsage>, l: Line, day: int, n: string)
    ensures DayTotal(AddToUsers(users, l), day, n)
            == Plus(DayTotal(users, day, n), if JstDay(l.ms) == day && ModelName(l) == n then Used(l) else ZERO)
  {
    hide ModelName, Caller, JstDay, AddToModels, Plus;
    var added := AddToUsers(users, l);
    var x := if JstDay(l.ms) == day && ModelName(l) == n then Used(l) else ZERO;
    if users == [] {
      TotalForAdd([], ModelName(l), Used(l), n);
      PlusLaws(x, ZERO, ZERO);
      assert DayTotal(added[1..], day, n) == ZERO;
    } else if KeyOf(users[0]) == KeyOfLine(l) {
      TotalForAdd(users[0].models, ModelName(l), Used(l), n);
      KeysAgreeOnTheDay(users[0], l);
      PlusLaws(if users[0].day == day then TotalFor(users[0].models, n) else ZERO, DayTotal(users[1..], day, n), x);
      PlusLaws(ZERO, ZERO, ZERO);
      assert added[1..] == users[1..];
    } else {
      DayTotalAdd(users[1..], l, day, n);
      PlusLaws(if users[0].day == day then TotalFor(users[0].models, n) else ZERO, DayTotal(users[1..], day, n), x);
      assert added[1..] == AddToUsers(users[1..], l);
    }
  }

  lemma {:induction false} OccursOnAdd(users: seq<UserUsage>, l: Line, day: int, n: string)
    ensures OccursOn(AddToUsers(users, l), day, n)
            <==> OccursOn(users, day, n) || (JstDay(l.ms) == day && ModelName(l) == n)
  {
    hide ModelName, Caller, JstDay, AddToModels;
    var added := AddToUsers(users, l);
    if users == [] {
      OccursAdd([], ModelName(l), Used(l), n);
      assert !OccursOn(added[1..], day, n);
    } else if KeyOf(users[0]) == KeyOfLine(l) {
      OccursAdd(users[0].models, ModelName(l), Used(l), n);
      KeysAgreeOnTheDay(users[0], l);
      assert added[1..] == users[1..];
    } else {
      OccursOnAdd(users[1..], l, day, n);
      assert added[1..] == AddToUsers(users[1..], l);
    }
  }

  /** The ledger's totals of a day are the log grouped by model for that project and day. */
  lemma {:induction false} DayTotalsAreTheLog(log: seq<Line>, project: string, day: int, name: string)
    ensures DayTotal(UsersOf(Replay(log), project), day, name) == Total(log, OfModel(project, day, name))
    ensures OccursOn(UsersOf(Replay(log), project), day, name) <==> Any(log, OfModel(project, day, name))
  {
    hide ModelName, JstDay, AddToUsers, Plus;
    if log == [] {
      assert UsersOf(Replay(log), project) == [];
    } else {
      var before, l := log[..|log| - 1], log[|log| - 1];
      DayTotalsAreTheLog(before, project, day, name);
      PlusLaws(Total(before, OfModel(project, day, name)), ZERO, ZERO);
      DayTotalAdd(UsersOf(Replay(before), l.project), l, day, name);
      OccursOnAdd(UsersOf(Replay(before), l.project), l, day, name);
      AnyLast(log, OfModel(project, day, name));
    }
  }

  lemma AnyLast(log: seq<Line>, p: Line -> bool)
    requires log != []
    ensures Any(log, p) <==> Any(log[..|log| - 1], p) || p(log[|log| - 1])
  {
    if Any(log, p) && !p(log[|log| - 1]) {
      var i :| 0 <= i < |log| && p(log[i]);
      assert log[..|log| - 1][i] == log[i];
    }
    if Any(log[..|log| - 1], p) {
      var i :| 0 <= i < |log| - 1 && p(log[..|log| - 1][i]);
      assert p(log[i]);
    }
  }

  /** What the daily report says of any model is what the log says of it, and nothing is left out. */
  lemma DailyReportIsTheLog(log: seq<Line>, project: string, day: int, report: seq<ModelUsage>)
    requires IsDailyReport(report, UsersOf(Replay(log), project), day)
    ensures forall i :: 0 <= i < |report| ==>
              report[i].counters == Total(log, OfModel(project, day, report[i].model))
    ensures forall n: string :: n in Names(report) <==> Any(log, OfModel(project, day, n))
  {
    forall i | 0 <= i < |report|
      ensures report[i].counters == Total(log, OfModel(project, day, report[i].model))
    {
      DayTotalsAreTheLog(log, project, day, report[i].model);
    }
    forall n: string ensures n in Names(report) <==> Any(log, OfModel(project, day, n)) {
      DayTotalsAreTheLog(log, project, day, n);
    }
  }

  // ---------------------------------------------------------------- one entry

  function SumOf(models: seq<ModelUsage>): Counters {
    if models == [] then ZERO else Plus(models[0].counters, SumOf(models[1..]))
  }

  predicate DistinctModels(models: seq<ModelUsage>) {
    forall i, j :: 0 <= i < j < |models| ==> models[i].model != models[j].model
  }

  predicate Balanced(u: UserUsage) {
    u.counters == SumOf(u.models) && DistinctModels(u.models)
  }

  predicate DistinctKeys(users: seq<UserUsage>) {
    forall i, j :: 0 <= i < j < |users| ==> KeyOf(users[i]) != KeyOf(users[j])
  }

  predicate Sound(users: seq<UserUsage>) {
    DistinctKeys(users) && forall i :: 0 <= i < |users| ==> Balanced(users[i])
  }

  lemma {:induction false} AddedNames(models: seq<ModelUsage>, m: string, c: Counters, k: nat)
    requires k < |AddToModels(models, m, c)|
    ensures var name := AddToModels(models, m, c)[k].model;
            name == m || exists j :: 0 <= j < |models| && models[j].model == name
  {
    hide Plus;
    if models != [] && models[0].model != m && k > 0 {
      AddedNames(models[1..], m, c, k - 1);
      var name := AddToModels(models[1..], m, c)[k - 1].model;
      if name != m {
        var j :| 0 <= j < |models[1..]| && models[1..][j].model == name;
        assert models[j + 1].model == name;
      }
    }
  }

  lemma {:induction false} AddKeepsDistinct(models: seq<ModelUsage>, m: string, c: Counters)
    requires DistinctModels(models)
    ensures DistinctModels(AddToModels(models, m, c))
  {
    hide Plus;
    var added := AddToModels(models, m, c);
    if models != [] && models[0].model != m {
      AddKeepsDistinct(models[1..], m, c);
      forall k | 0 < k < |added|
        ensures added[k].model != added[0].model
      {
        AddedNames(models[1..], m, c, k - 1);
      }
    }
  }

  lemma {:induction false} AddKeepsSum(models: seq<ModelUsage>, m: string, c: Counters)
    ensures SumOf(AddToModels(models, m, c)) == Plus(SumOf(models), c)
  {
    var added := AddToModels(models, m, c);
    if models == [] {
      assert added[1..] == [];
    } else if models[0].model == m {
      assert added[1..] == models[1..];
    } else {
      AddKeepsSum(models[1..], m, c);
      assert added[1..] == AddToModels(models[1..], m, c);
    }
  }

  lemma EntryKeepsBalance(u: UserUsage, l: Line)
    requires Balanced(u)
    ensures Balanced(AddToEntry(u, l)) && KeyOf(AddToEntry(u, l)) == KeyOf(u)
  {
    AddKeepsDistinct(u.models, ModelName(l), Used(l));
    AddKeepsSum(u.models, ModelName(l), Used(l));
  }

  lemma {:induction false} AddedKeys(users: seq<UserUsage>, l: Line, k: nat)
    requires k < |AddToUsers(users, l)|
    ensures var key := KeyOf(AddToUsers(users, l)[k]);
            key == KeyOfLine(l) || exists j :: 0 <= j < |users| && KeyOf(users[j]) == key
  {
    hide Caller, JstDay, ModelName, AddToModels, Plus;
    if users != [] && KeyOf(users[0]) != KeyOfLine(l) && k > 0 {
      AddedKeys(users[1..], l, k - 1);
      var key := KeyOf(AddToUsers(users[1..], l)[k - 1]);
      if key != KeyOfLine(l) {
        var j :| 0 <= j < |users[1..]| && KeyOf(users[1..][j]) == key;
        assert KeyOf(users[j + 1]) == key;
      }
    }
  }

  lemma {:induction false} UsersKeepSound(users: seq<UserUsage>, l: Line)
    requires Sound(users)
    ensures Sound(AddToUsers(users, l))
  {
    hide KeyOf, KeyOfLine, Balanced, AddToEntry, NewEntry;
    var added := AddToUsers(users, l);
    if users == [] {
      NewEntryIsBalanced(l);
      EntryKeepsBalance(NewEntry(l), l);
    } else if KeyOf(users[0]) == KeyOfLine(l) {
      EntryKeepsBalance(users[0], l);
      assert forall k :: 0 < k < |added| ==> added[k] == users[k];
    } else {
      UsersKeepSound(users[1..], l);
      var rest := AddToUsers(users[1..], l);
      forall k | 0 < k < |added|
        ensures added[k] == rest[k - 1] && KeyOf(added[k]) != KeyOf(users[0])
      {
        AddedKeys(users[1..], l, k - 1);
      }
    }
  }

  lemma NewEntryIsBalanced(l: Line)
    ensures Balanced(NewEntry(l))
  {}

  /** The invariant of the store: keys are unique and each entry's counters add up over its models. */
  lemma {:induction false} ReplayIsSound(log: seq<Line>, project: string)
    ensures Sound(UsersOf(Replay(log), project))
  {
    if log != [] {
      var before, l := log[..|log| - 1], log[|log| - 1];
      ReplayIsSound(before, project);
      ReplayIsSound(before, l.project);
      UsersKeepSound(UsersOf(Replay(before), l.project), l);
    }
  }

  function Part(u: UserUsage, name: Option<string>): Counters {
    if name.None? then u.counters else TotalFor(u.models, name.value)
  }

  function KeyTotal(users: seq<UserUsage>, key: Key, name: Option<string>): Counters {
    if users == [] then ZERO
    else Plus(if KeyOf(users[0]) == key then Part(users[0], name) else ZERO, KeyTotal(users[1..], key, name))
  }

  predicate HasKey(users: seq<UserUsage>, key: Key) {
    users != [] && (KeyOf(users[0]) == key || HasKey(users[1..], key))
  }

  lemma PartAdd(u: UserUsage, l: Line, name: Option<string>)
    ensures Part(AddToEntry(u, l), name)
            == Plus(Part(u, name), if name.Some? ==> ModelName(l) == name.value then Used(l) else ZERO)
  {
    hide ModelName;
    if name.Some? {
      TotalForAdd(u.models, ModelName(l), Used(l), name.value);
    }
  }

  lemma {:induction false} KeyTotalAdd(users: seq<UserUsage>, l: Line, key: Key, name: Option<string>)
    ensures KeyTotal(AddToUsers(users, l), key, name)
            == Plus(KeyTotal(users, key, name),
                    if KeyOfLine(l) == key && (name.Some? ==> ModelName(l) == name.value) then Used(l) else ZERO)
  {
    hide ModelName, KeyOf, KeyOfLine, Part, AddToEntry, Plus;
    var added := AddToUsers(users, l);
    var x := if KeyOfLine(l) == key && (name.Some? ==> ModelName(l) == name.value) then Used(l) else ZERO;
    if users != [] {
      PlusLaws(if KeyOf(users[0]) == key then Part(users[0], name) else ZERO, KeyTotal(users[1..], key, name), x);
    }
    PlusLaws(x, ZERO, ZERO);
    PlusLaws(ZERO, ZERO, ZERO);
    if users == [] {
      EntryKeepsKey(NewEntry(l), l);
      NewEntryIsEmpty(l, name);
      PartAdd(NewEntry(l), l, name);
      assert KeyTotal(added[1..], key, name) == ZERO;
    } else if KeyOf(users[0]) == KeyOfLine(l) {
      EntryKeepsKey(users[0], l);
      PartAdd(users[0], l, name);
      assert added[1..] == users[1..];
    } else {
      KeyTotalAdd(users[1..], l, key, name);
      assert added[1..] == AddToUsers(users[1..], l);
    }
  }

  lemma EntryKeepsKey(u: UserUsage, l: Line)
    ensures KeyOf(AddToEntry(u, l)) == KeyOf(u)
  {
  }

  lemma NewEntryIsEmpty(l: Line, name: Option<string>)
    ensures KeyOf(NewEntry(l)) == KeyOfLine(l) && Part(NewEntry(l), name) == ZERO
  {
  }

  lemma {:induction false} HasKeyAdd(users: seq<UserUsage>, l: Line, key: Key)
    ensures HasKey(AddToUsers(users, l), key) <==> HasKey(users, key) || KeyOfLine(l) == key
  {
    hide KeyOf, KeyOfLine, AddToEntry;
    var added := AddToUsers(users, l);
    if users == [] {
      EntryKeepsKey(NewEntry(l), l);
      NewEntryIsEmpty(l, None);
      assert !HasKey(added[1..], key);
    } else if KeyOf(users[0]) == KeyOfLine(l) {
      EntryKeepsKey(users[0], l);
      assert added[1..] == users[1..];
    } else {
      HasKeyAdd(users[1..], l, key);
      assert added[1..] == AddToUsers(users[1..], l);
    }
  }

  lemma {:induction false} KeyTotalsAreTheLog(log: seq<Line>, project: string, key: Key, name: Option<string>)
    ensures KeyTotal(UsersOf(Replay(log), project), key, name) == Total(log, OfKey(project, key, name))
    ensures HasKey(UsersOf(Replay(log), project), key) <==> Any(log, OfKey(project, key, None))
  {
    hide ModelName, KeyOfLine, AddToUsers, Plus;
    if log == [] {
      assert UsersOf(Replay(log), project) == [];
    } else {
      var before, l := log[..|log| - 1], log[|log| - 1];
      PlusLaws(Total(before, OfKey(project, key, name)), ZERO, ZERO);
      KeyTotalsAreTheLog(before, project, key, name);
      KeyTotalAdd(UsersOf(Replay(before), l.project), l, key, name);
      HasKeyAdd(UsersOf(Replay(before), l.project), l, key);
      AnyLast(log, OfKey(project, key, None));
    }
  }

  lemma {:induction false} KeyTotalOfEntry(users: seq<UserUsage>, i: nat, key: Key, name: Option<string>)
    requires DistinctKeys(users) && i < |users| && KeyOf(users[i]) == key
    ensures KeyTotal(users, key, name) == Part(users[i], name)
    ensures HasKey(users, key)
  {
    if i > 0 {
      KeyTotalOfEntry(users[1..], i - 1, key, name);
    } else {
      NoOtherEntry(users[1..], key, name);
    }
  }

  lemma {:induction false} NoOtherEntry(users: seq<UserUsage>, key: Key, name: Option<string>)
    requires forall u :: u in users ==> KeyOf(u) != key
    ensures KeyTotal(users, key, name) == ZERO
  {
    hide KeyOf, Part;
    if users != [] {
      NoOtherEntry(users[1..], key, name);
    }
  }

  /**
   After any sequence of records from an empty store, an entry's four counters equal the sums
   over its models, and entry and models equal the sums over the log's lines with its key.
  */
  lemma EntryIsTheLog(log: seq<Line>, project: string, i: nat)
    requires i < |UsersOf(Replay(log), project)|
    ensures var u := UsersOf(Replay(log), project)[i];
            && Balanced(u)
            && u.counters == Total(log, OfKey(project, KeyOf(u), None))
            && Any(log, OfKey(project, KeyOf(u), None))
            && forall n: string :: TotalFor(u.models, n) == Total(log, OfKey(project, KeyOf(u), Some(n)))
  {
    ReplayIsSound(log, project);
    var users := UsersOf(Replay(log), project);
    var key := KeyOf(users[i]);
    KeyTotalOfEntry(users, i, key, None);
    KeyTotalsAreTheLog(log, project, key, None);
    forall n: string ensures TotalFor(users[i].models, n) == Total(log, OfKey(project, key, Some(n))) {
      KeyTotalOfEntry(users, i, key, Some(n));
      KeyTotalsAreTheLog(log, project, key, Some(n));
    }
  }

  // ---------------------------------------------------------------- joined keys

  predicate NulFree(s: string) { '\0' !in s }

  lemma {:induction false} FieldEndsAtNul(a: string, x: string, b: string, y: string)
    requires NulFree(a) && NulFree(b) && a + ['\0'] + x == b + ['\0'] + y
    ensures a == b && x == y
  {
    var left, right := a + ['\0'] + x, b + ['\0'] + y;
    assert left[|a|] == '\0' && right[|b|] == '\0';
    assert |a| == |b| by {
      assert forall k :: 0 <= k < |a| ==> left[k] == a[k];
      assert forall k :: 0 <= k < |b| ==> right[k] == b[k];
    }
    assert a == left[..|a|] && b == right[..|b|];
    assert x == left[|a| + 1..] && y == right[|b| + 1..];
  }

  /** When subjects and client ids hold no NUL, the joined key tells callers apart exactly. */
  lemma CallersDiffer(a: Line, b: Line)
    requires NulFree(a.subject) && NulFree(a.clientId) && NulFree(b.subject) && NulFree(b.clientId)
    ensures KeyOfLine(a) == KeyOfLine(b) <==>
            JstDay(a.ms) == JstDay(b.ms) && a.subject == b.subject && a.clientId == b.clientId && a.scope == b.scope
  {
    if KeyOfLine(a) == KeyOfLine(b) {
      assert Caller(a.subject, a.clientId, a.scope) == a.subject + ['\0'] + (a.clientId + ['\0'] + a.scope);
      assert Caller(b.subject, b.clientId, b.scope) == b.subject + ['\0'] + (b.clientId + ['\0'] + b.scope);
      FieldEndsAtNul(a.subject, a.clientId + ['\0'] + a.scope, b.subject, b.clientId + ['\0'] + b.scope);
      FieldEndsAtNul(a.clientId, a.scope, b.clientId, b.scope);
    }
  }

  function Nuls(s: string): nat {
    if s == "" then 0 else (if s[0] == '\0' then 1 else 0) + Nuls(s[1..])
  }

  lemma {:induction false} NulsAdd(a: string, b: string)
    ensures Nuls(a + b) == Nuls(a) + Nuls(b)
  {
    if a == "" {
      assert a + b == b;
    } else {
      NulsAdd(a[1..], b);
      assert (a + b)[1..] == a[1..] + b;
    }
  }

  lemma {:induction false} NoNulsIffFree(s: string)
    ensures Nuls(s) == 0 <==> NulFree(s)
  {
    if s != "" {
      NoNulsIffFree(s[1..]);
      assert s == [s[0]] + s[1..];
    }
  }

  lemma CallerNuls(l: Line)
    ensures Nuls(Caller(l.subject, l.clientId, l.scope)) == Nuls(l.subject) + Nuls(l.clientId) + Nuls(l.scope) + 2
  {
    var nul := ['\0'];
    assert Nuls(nul) == 1 by {
      assert nul[1..] == "";
    }
    NulsAdd(l.subject + nul + l.clientId + nul, l.scope);
    NulsAdd(l.subject + nul + l.clientId, nul);
    NulsAdd(l.subject + nul, l.clientId);
    NulsAdd(l.subject, nul);
  }

  predicate SameCaller(a: Line, b: Line) {
    a.subject == b.subject && a.clientId == b.clientId && a.scope == b.scope
  }

  predicate AllNulFree(l: Line) { NulFree(l.subject) && NulFree(l.clientId) && NulFree(l.scope) }

  /** Among all lines, a key belongs to one caller alone exactly when that caller's fields hold no NUL. */
  lemma KeyIdentifiesCallerIff(a: Line)
    ensures (forall b: Line :: KeyOfLine(b) == KeyOfLine(a) ==> SameCaller(a, b)) <==> AllNulFree(a)
  {
    if AllNulFree(a) {
      forall b: Line | KeyOfLine(b) == KeyOfLine(a) ensures SameCaller(a, b) {
        OneCallerOfKey(a, b);
      }
    } else {
      var b := OtherCallerOfKey(a);
    }
  }

  lemma OneCallerOfKey(a: Line, b: Line)
    requires AllNulFree(a) && KeyOfLine(b) == KeyOfLine(a)
    ensures SameCaller(a, b)
  {
    CallerNuls(a);
    CallerNuls(b);
    NoNulsIffFree(a.subject);
    NoNulsIffFree(a.clientId);
    NoNulsIffFree(a.scope);
    NoNulsIffFree(b.subject);
    NoNulsIffFree(b.clientId);
    CallersDiffer(a, b);
  }

  /** A NUL in any field can be taken for a separator. */
  lemma OtherCallerOfKey(a: Line) returns (b: Line)
    requires !AllNulFree(a)
    ensures KeyOfLine(b) == KeyOfLine(a) && !SameCaller(a, b)
  {
    var nul := ['\0'];
    var s, c, r := a.subject, a.clientId, a.scope;
    if !NulFree(s) {
      var i :| 0 <= i < |s| && s[i] == '\0';
      assert s == s[..i] + nul + s[i + 1..];
      MovesRight(s[..i], s[i + 1..], c, r);
      b := a.(subject := s[..i], clientId := s[i + 1..] + nul + c);
      assert |b.subject| < |s|;
    } else if !NulFree(c) {
      var i :| 0 <= i < |c| && c[i] == '\0';
      assert c == c[..i] + nul + c[i + 1..];
      MovesRight(s, c[..i], c[i + 1..], r);
      b := a.(subject := s + nul + c[..i], clientId := c[i + 1..]);
      assert |b.subject| > |s|;
    } else {
      var i :| 0 <= i < |r| && r[i] == '\0';
      assert r == r[..i] + nul + r[i + 1..];
      assert Caller(s, c, r) == Caller(s + nul + c, r[..i], r[i + 1..]);
      b := a.(subject := s + nul + c, clientId := r[..i], scope := r[i + 1..]);
      assert |b.subject| > |s|;
    }
  }

  lemma MovesRight(x: string, y: string, z: string, scope: string)
    ensures Caller(x + ['\0'] + y, z, scope) == Caller(x, y + ['\0'] + z, scope)
  {
  }

  /** What the token verifier lets through: a user, a client and the scope of the audience. */
  predicate Receivable(l: Line) {
    && "user." < l.subject && l.clientId != ""
    && "gen-ai.services." < l.project && NulFree(l.project)
    && l.scope == l.project + ":role.gen-ai-users"
  }

  /** No NUL where it could separate another receivable subject from another client id. */
  predicate NoSecondReading(l: Line)
    requires Receivable(l)
  {
    NulFree(l.subject[6..]) && NulFree(l.clientId[..|l.clientId| - 1])
  }

  /**
   Among the lines that can be received for a project, a key belongs to one caller alone exactly
   when the subject has no NUL after its first user character and the client id none before its end.
  */
  lemma ReceivableKeyIdentifiesCallerIff(a: Line)
    requires Receivable(a)
    ensures (forall b: Line :: Receivable(b) && b.project == a.project && KeyOfLine(b) == KeyOfLine(a) ==> SameCaller(a, b))
            <==> NoSecondReading(a)
  {
    if NoSecondReading(a) {
      forall b: Line | Receivable(b) && b.project == a.project && KeyOfLine(b) == KeyOfLine(a)
        ensures SameCaller(a, b)
      {
        OneReceivableReading(a, b);
      }
    } else {
      var b := OtherReceivableReading(a);
    }
  }

  lemma OneNulInside(subject: string, clientId: string, i: int)
    requires |subject| >= 6 && clientId != "" && NulFree(subject[6..]) && NulFree(clientId[..|clientId| - 1])
    requires 6 <= i < |subject| + |clientId| && i != |subject|
    ensures (subject + ['\0'] + clientId)[i] != '\0'
  {
    if i < |subject| {
      assert subject[6..][i - 6] == subject[i];
    } else {
      assert clientId[..|clientId| - 1][i - |subject| - 1] == clientId[i - |subject| - 1];
    }
  }

  lemma SameFront(left: string, right: string, tail: string)
    requires left + tail == right + tail
    ensures left == right
  {
    assert |left| == |right|;
    assert left == (left + tail)[..|left|] && right == (right + tail)[..|right|];
  }

  /** With one key, day and scope agree, and so do the texts in front of the scope. */
  lemma SameLeftPart(a: Line, b: Line)
    requires Receivable(a) && Receivable(b) && b.project == a.project && KeyOfLine(b) == KeyOfLine(a)
    ensures a.subject + ['\0'] + a.clientId == b.subject + ['\0'] + b.clientId
    ensures JstDay(a.ms) == JstDay(b.ms) && a.scope == b.scope
  {
    var nul := ['\0'];
    var left, right := a.subject + nul + a.clientId, b.subject + nul + b.clientId;
    assert left + (nul + a.scope) == Caller(a.subject, a.clientId, a.scope);
    assert right + (nul + b.scope) == Caller(b.subject, b.clientId, b.scope);
    SameFront(left, right, nul + a.scope);
  }

  lemma OneReceivableReading(a: Line, b: Line)
    requires Receivable(a) && Receivable(b) && b.project == a.project && KeyOfLine(b) == KeyOfLine(a)
    requires NoSecondReading(a)
    ensures SameCaller(a, b)
  {
    hide Caller, KeyOfLine;
    SameLeftPart(a, b);
    var left, right := a.subject + ['\0'] + a.clientId, b.subject + ['\0'] + b.clientId;
    assert left[|b.subject|] == right[|b.subject|] == '\0';
    if |b.subject| != |a.subject| {
      OneNulInside(a.subject, a.clientId, |b.subject|);
    }
    assert a.subject == left[..|a.subject|] && a.clientId == left[|a.subject| + 1..];
    assert b.subject == right[..|b.subject|] && b.clientId == right[|b.subject| + 1..];
  }

  lemma OtherReceivableReading(a: Line) returns (b: Line)
    requires Receivable(a) && !NoSecondReading(a)
    ensures Receivable(b) && b.project == a.project && KeyOfLine(b) == KeyOfLine(a) && !SameCaller(a, b)
  {
    var nul := ['\0'];
    var s, c := a.subject, a.clientId;
    if !NulFree(s[6..]) {
      var k :| 0 <= k < |s[6..]| && s[6..][k] == '\0';
      var i := k + 6;
      assert s == s[..i] + nul + s[i + 1..];
      MovesRight(s[..i], s[i + 1..], c, a.scope);
      b := a.(subject := s[..i], clientId := s[i + 1..] + nul + c);
      assert "user." < b.subject && |b.subject| < |s|;
    } else {
      var i :| 0 <= i < |c| - 1 && c[i] == '\0';
      assert c == c[..i] + nul + c[i + 1..];
      MovesRight(s, c[..i], c[i + 1..], a.scope);
      b := a.(subject := s + nul + c[..i], clientId := c[i + 1..]);
      assert |b.subject| > |s|;
    }
  }

  /** Two receivable callers, one with a NUL in its subject and one with a NUL in its client id, share an entry. */
  lemma NulMergesCallers(user: string, x: string, y: string, a: Line)
    requires "user." < user && y != "" && Receivable(a)
    requires a.subject == user + ['\0'] + x && a.clientId == y
    ensures var b := a.(subject := user, clientId := x + ['\0'] + y);
            && Receivable(b) && a.subject != b.subject && KeyOfLine(a) == KeyOfLine(b)
            && |UsersOf(Replay([a, b]), a.project)| == 1
  {
    var b := a.(subject := user, clientId := x + ['\0'] + y);
    MovesRight(user, x, y, a.scope);
    assert |a.subject| > |b.subject|;
    OneEntry(a, b);
  }

  lemma OneEntry(a: Line, b: Line)
    requires KeyOfLine(a) == KeyOfLine(b) && a.project == b.project
    ensures |UsersOf(Replay([a, b]), a.project)| == 1
  {
    hide ModelName, Caller;
    assert [a, b][..1] == [a] && [a][..0] == [];
    assert Replay([a]) == Recorded(map[], a);
    assert Replay([a, b]) == Recorded(Replay([a]), b);
    EntryKeepsKey(NewEntry(a), a);
    NewEntryIsEmpty(a, None);
  }

  // ---------------------------------------------------------------- the day

  /** A day in Japan begins at 15:00 UTC of the day before and ends at 15:00 UTC; instants are milliseconds since 1970. */
  lemma DayBeginsAtThreeInTheAfternoonUtc(ms: int, day: int)
    ensures JstDay(ms) == day <==>
            (24 * day - 9) * 60 * 60 * 1000 <= ms < (24 * day + 15) * 60 * 60 * 1000
    ensures JstDay(ms) == JstDay(ms - 1) + (if ms % (24 * 60 * 60 * 1000) == 15 * 60 * 60 * 1000 then 1 else 0)
  {
  }

  /** A request counts for the model it names, blanks aside, and for the default one exactly when it names none. */
  lemma ModelIsTheNameGiven(l: Line, name: string)
    ensures ModelName(l) == name <==>
            || (name == "gpt-5.6-luna" && (l.model.None? || Texts.AllBlank(l.model.value, Texts.IsBlank)))
            || (name != "" && l.model.Some? && Texts.TrimsTo(l.model.value, name, Texts.IsBlank))
  {
    hide Texts.TrimsTo;
    hide Texts.AllBlank;
    if l.model.Some? {
      Texts.TrimIff(l.model.value, name, Texts.IsBlank);
      BlankIffTrimsToNothing(l.model.value);
    }
  }

  lemma BlankIffTrimsToNothing(s: string)
    ensures Texts.Trim(s) == "" <==> Texts.AllBlank(s, Texts.IsBlank)
  {
    if Texts.Trim(s) == "" {
      Texts.TrimsInside(s, Texts.IsBlank);
    }
    if Texts.AllBlank(s, Texts.IsBlank) {
      assert s == s + "" + "";
      Texts.TrimsPadded(s, "", "", Texts.IsBlank);
    }
  }
}
