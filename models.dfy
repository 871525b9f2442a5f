/** The per-user tables of the fitness tracker and the statistics built from
    them (models.py). The three spreadsheet sheets are sequences of records;
    reading a sheet is reading a field, and writing one is replacing the field
    when the write succeeds, which the caller supplies as a boolean. Dates are
    integers in chronological order. */
module Models {
  import opened Wrappers
  import opened Numerics
  import opened Tables
  import Calculations

  type Date = int

  datatype User = User(
    userId: int, name: string, weight: real, height: real, age: int,
    targetWeight: real, createdDate: string, lastUpdated: string)

  datatype Activity = Activity(
    activityId: int, userId: int, date: Date, activityName: string,
    details: string, caloriesBurned: real, durationMinutes: int)

  datatype WeightRecord = WeightRecord(
    recordId: int, userId: int, date: Date, weight: real, notes: string)

  // ------------------------------------------------------------ selections

  function UserIs(userId: int): User -> bool
  {
    (u: User) => u.userId == userId
  }

  function UserIsNot(userId: int): User -> bool
  {
    (u: User) => u.userId != userId
  }

  function ActivityOf(userId: int): Activity -> bool
  {
    (a: Activity) => a.userId == userId
  }

  function ActivityIsNot(activityId: int): Activity -> bool
  {
    (a: Activity) => a.activityId != activityId
  }

  function RecordOf(userId: int): WeightRecord -> bool
  {
    (r: WeightRecord) => r.userId == userId
  }

  function RecordNotOf(userId: int): WeightRecord -> bool
  {
    (r: WeightRecord) => r.userId != userId
  }

  function RecordDate(r: WeightRecord): int
  {
    r.date
  }

  /** The key that puts later activities first. */
  function LaterFirst(a: Activity): int
  {
    -a.date
  }

  function UserIds(users: seq<User>): (ids: seq<int>)
    ensures |ids| == |users|
    ensures forall i :: 0 <= i < |users| ==> ids[i] == users[i].userId
  {
    seq(|users|, i requires 0 <= i < |users| => users[i].userId)
  }

  function ActivityIds(activities: seq<Activity>): (ids: seq<int>)
    ensures |ids| == |activities|
    ensures forall i :: 0 <= i < |activities| ==> ids[i] == activities[i].activityId
  {
    seq(|activities|, i requires 0 <= i < |activities| => activities[i].activityId)
  }

  function RecordIds(history: seq<WeightRecord>): (ids: seq<int>)
    ensures |ids| == |history|
    ensures forall i :: 0 <= i < |history| ==> ids[i] == history[i].recordId
  {
    seq(|history|, i requires 0 <= i < |history| => history[i].recordId)
  }

  // --------------------------------------------------------------- queries

  /** get_user_by_id: the first row with the id, or None. */
  function GetUserById(users: seq<User>, userId: int): (r: Option<User>)
    ensures r.None? <==> forall i :: 0 <= i < |users| ==> users[i].userId != userId
    ensures r.Some? ==> r.value.userId == userId
    ensures r.Some? ==> exists i :: 0 <= i < |users| && users[i] == r.value &&
                          (forall k :: 0 <= k < i ==> users[k].userId != userId)
  {
    var matches := Filter(users, UserIs(userId));
    if matches == [] then
      assert forall i :: 0 <= i < |users| ==> !UserIs(userId)(users[i]);
      None
    else
      assert UserIs(userId)(matches[0]);
      FilterFirst(users, UserIs(userId));
      Some(matches[0])
  }

  /** With distinct ids, the user found is the only one with that id. */
  lemma UserByIdUnique(users: seq<User>, userId: int, i: int)
    requires Distinct(UserIds(users))
    requires 0 <= i < |users| && users[i].userId == userId
    ensures GetUserById(users, userId) == Some(users[i])
  {
    var u := GetUserById(users, userId).value;
    var k :| 0 <= k < |users| && users[k] == u && forall j :: 0 <= j < k ==> users[j].userId != userId;
    assert UserIds(users)[k] == UserIds(users)[i];
  }

  /** get_user_activities: the user's activities, latest first. */
  function GetUserActivities(activities: seq<Activity>, userId: int): (r: seq<Activity>)
    ensures multiset(r) == multiset(Filter(activities, ActivityOf(userId)))
    ensures forall i, j :: 0 <= i < j < |r| ==> r[i].date >= r[j].date
  {
    var mine := Filter(activities, ActivityOf(userId));
    SortBySorted(mine, LaterFirst);
    var r := SortBy(mine, LaterFirst);
    assert forall i, j :: 0 <= i < j < |r| ==> LaterFirst(r[i]) <= LaterFirst(r[j]);
    r
  }

  /** get_weight_history: the user's weight records, earliest first. */
  function GetWeightHistory(history: seq<WeightRecord>, userId: int): (r: seq<WeightRecord>)
    ensures multiset(r) == multiset(Filter(history, RecordOf(userId)))
    ensures forall i, j :: 0 <= i < j < |r| ==> r[i].date <= r[j].date
  {
    var mine := Filter(history, RecordOf(userId));
    SortBySorted(mine, RecordDate);
    var r := SortBy(mine, RecordDate);
    assert forall i, j :: 0 <= i < j < |r| ==> RecordDate(r[i]) <= RecordDate(r[j]);
    r
  }

  /** A record is in the user's history exactly when it is one of the user's rows. */
  lemma InWeightHistory(history: seq<WeightRecord>, userId: int, rec: WeightRecord)
    ensures rec in GetWeightHistory(history, userId) <==> rec in history && rec.userId == userId
  {
    var mine := Filter(history, RecordOf(userId));
    assert rec in GetWeightHistory(history, userId) <==> rec in multiset(mine);
    if rec in history && rec.userId == userId {
      var i :| 0 <= i < |history| && history[i] == rec;
      assert RecordOf(userId)(history[i]);
    }
  }

  /** The history is empty exactly when the user has no weight rows. */
  lemma WeightHistoryEmpty(history: seq<WeightRecord>, userId: int)
    ensures GetWeightHistory(history, userId) == [] <==>
      forall i :: 0 <= i < |history| ==> history[i].userId != userId
  {
    var h := GetWeightHistory(history, userId);
    if h != [] {
      InWeightHistory(history, userId, h[0]);
    }
    if exists i :: 0 <= i < |history| && history[i].userId == userId {
      var i :| 0 <= i < |history| && history[i].userId == userId;
      InWeightHistory(history, userId, history[i]);
    }
  }

  /** The first entry of the history is one of the user's rows and no row of the user is earlier. */
  lemma {:induction false} FirstRecordIsEarliest(history: seq<WeightRecord>, userId: int, rec: WeightRecord)
    requires rec in history && rec.userId == userId
    ensures GetWeightHistory(history, userId) != []
    ensures var h := GetWeightHistory(history, userId);
      h[0] in history && h[0].userId == userId && h[0].date <= rec.date &&
      h[|h| - 1] in history && h[|h| - 1].userId == userId && rec.date <= h[|h| - 1].date
  {
    var h := GetWeightHistory(history, userId);
    InWeightHistory(history, userId, rec);
    InWeightHistory(history, userId, h[0]);
    InWeightHistory(history, userId, h[|h| - 1]);
    SortBySorted(Filter(history, RecordOf(userId)), RecordDate);
    SortedEnds(h, RecordDate, rec);
  }

  /** get_latest_weight: None for an empty history, otherwise the weight of its last entry. */
  function GetLatestWeight(history: seq<WeightRecord>, userId: int): (r: Option<real>)
    ensures r.None? <==> forall i :: 0 <= i < |history| ==> history[i].userId != userId
    ensures r.Some? ==> exists rec :: rec in history && rec.userId == userId && rec.weight == r.value &&
                          (forall i :: 0 <= i < |history| && history[i].userId == userId ==> history[i].date <= rec.date)
  {
    var h := GetWeightHistory(history, userId);
    WeightHistoryEmpty(history, userId);
    if h == [] then None
    else
      var last := h[|h| - 1];
      InWeightHistory(history, userId, last);
      assert forall i :: 0 <= i < |history| && history[i].userId == userId ==> history[i].date <= last.date by {
        forall i | 0 <= i < |history| && history[i].userId == userId ensures history[i].date <= last.date {
          FirstRecordIsEarliest(history, userId, history[i]);
        }
      }
      Some(last.weight)
  }

  // ------------------------------------------------------------ statistics

  function SumCalories(activities: seq<Activity>): real
  {
    if activities == [] then 0.0
    else activities[0].caloriesBurned + SumCalories(activities[1..])
  }

  lemma {:induction false} SumCaloriesInsert(x: Activity, s: seq<Activity>, key: Activity -> int)
    ensures SumCalories(Insert(x, s, key)) == x.caloriesBurned + SumCalories(s)
  {
    if s != [] && key(x) > key(s[0]) {
      SumCaloriesInsert(x, s[1..], key);
      assert Insert(x, s, key)[1..] == Insert(x, s[1..], key);
    }
  }

  /** Sorting does not change the total. */
  lemma {:induction false} SumCaloriesSorted(s: seq<Activity>, key: Activity -> int)
    ensures SumCalories(SortBy(s, key)) == SumCalories(s)
  {
    if s != [] {
      SumCaloriesSorted(s[1..], key);
      SumCaloriesInsert(s[0], SortBy(s[1..], key), key);
    }
  }

  /** The weight progress of get_user_stats, in percent: 0 unless current and target weight
      are non-zero and initial differs from target; otherwise the distance moved from the
      initial weight over the distance to the target, clamped to [0, 100] and rounded to 2 decimals. */
  function WeightProgress(initial: real, current: real, target: real): (p: real)
    ensures 0.0 <= p <= 100.0
    ensures current == 0.0 || target == 0.0 || initial == target ==> p == 0.0
    ensures current != 0.0 && target != 0.0 && initial != target ==>
      Abs(p - Clamp(Abs(current - initial) / Abs(target - initial) * 100.0)) <= 0.005
  {
    RoundZero(2);
    if current != 0.0 && target != 0.0 && initial != target then
      var progress := Abs(current - initial) / Abs(target - initial) * 100.0;
      Round2Error(Clamp(progress));
      assert 0 as real / Pow10(2) == 0.0 && 10000 as real / Pow10(2) == 100.0;
      RoundWithin(Clamp(progress), 0, 10000, 2);
      Round(Clamp(progress), 2)
    else
      0.0
  }

  /** max(0, min(100, x)). */
  function Clamp(x: real): (r: real)
    ensures 0.0 <= r <= 100.0
    ensures 0.0 <= x <= 100.0 ==> r == x
    ensures 100.0 < x ==> r == 100.0
    ensures x < 0.0 ==> r == 0.0
  {
    if 100.0 < x then 100.0 else if x < 0.0 then 0.0 else x
  }

  /** The arithmetic mean of n values whose sum is total. */
  function Mean(total: real, n: nat): (m: real)
    requires n > 0
    ensures m * n as real == total
  {
    CancelScale(total, n as real);
    total / n as real
  }

  /** The summary get_user_stats returns. */
  datatype UserStats = UserStats(
    user: User,
    totalActivities: nat,
    totalCaloriesBurned: real,
    avgDailyCalories: real,
    initialWeight: real,
    currentWeight: real,
    targetWeight: real,
    weightProgress: real)

  /** The status get_weight_status reports and the percentage get_user_stats computes agree:
      a constant goal or a start not yet made is 0 %, a goal reached is 100 %. */
  lemma {:induction false} StatusAgreesWithProgress(current: real, target: real, initial: real)
    requires current != 0.0 && target != 0.0
    ensures Calculations.GetWeightStatus(current, target, initial) == Calculations.ConstantGoal ==>
      WeightProgress(initial, current, target) == 0.0
    ensures Calculations.GetWeightStatus(current, target, initial).NotStarted? ==>
      WeightProgress(initial, current, target) == 0.0
    ensures Calculations.GetWeightStatus(current, target, initial) == Calculations.Achieved ==>
      WeightProgress(initial, current, target) == 100.0
  {
    if initial != target {
      var ratio := Abs(current - initial) / Abs(target - initial);
      if current == initial {
        assert ratio == 0.0;
        RoundZero(2);
      } else if Calculations.GoalReached(current, target, initial) {
        assert Abs(current - initial) >= 1.0 * Abs(target - initial);
        DivLowerBound(Abs(current - initial), 1.0, Abs(target - initial));
        assert Clamp(ratio * 100.0) == 100.0;
        RoundExact(10000, 2);
        assert 10000 as real / Pow10(2) == 100.0;
      }
    }
  }

  /** Progress counts distance from the initial weight in either direction: starting at 80 kg
      with a target of 70 kg, a current weight of 90 kg reads as 100 %. */
  lemma WrongDirectionIsFullProgress()
    ensures WeightProgress(80.0, 90.0, 70.0) == 100.0
  {
    assert Clamp(Abs(90.0 - 80.0) / Abs(70.0 - 80.0) * 100.0) == 100.0;
    RoundExact(10000, 2);
    assert 10000 as real / Pow10(2) == 100.0;
  }

  /** Overshooting the target still reads as 100 %: 80 to 60 kg against a target of 70 kg. */
  lemma OvershootClamped()
    ensures WeightProgress(80.0, 60.0, 70.0) == 100.0
  {
    assert Clamp(Abs(60.0 - 80.0) / Abs(70.0 - 80.0) * 100.0) == 100.0;
    RoundExact(10000, 2);
    assert 10000 as real / Pow10(2) == 100.0;
  }

  // ------------------------------------------------------------ user update

  /** One entry of update_user's field dictionary whose value is not None, or the timestamp. */
  datatype FieldUpdate =
    | SetName(name: string)
    | SetWeight(weight: real)
    | SetHeight(height: real)
    | SetAge(age: int)
    | SetTargetWeight(targetWeight: real)
    | SetLastUpdated(stamp: string)

  /** The optional arguments of update_user; None leaves a field as it is. */
  datatype UserPatch = UserPatch(
    name: Option<string>, weight: Option<real>, height: Option<real>,
    age: Option<int>, targetWeight: Option<real>)

  function OptionalUpdate<V>(v: Option<V>, make: V -> FieldUpdate): seq<FieldUpdate>
  {
    if v.Some? then [make(v.value)] else []
  }

  /** The updates the dictionary loop performs, in the dictionary's order. */
  function FieldUpdates(p: UserPatch): seq<FieldUpdate>
  {
    OptionalUpdate(p.name, n => SetName(n))
    + OptionalUpdate(p.weight, w => SetWeight(w))
    + OptionalUpdate(p.height, h => SetHeight(h))
    + OptionalUpdate(p.age, a => SetAge(a))
    + OptionalUpdate(p.targetWeight, t => SetTargetWeight(t))
  }

  function ApplyField(u: User, f: FieldUpdate): User
  {
    match f
    case SetName(n) => u.(name := n)
    case SetWeight(w) => u.(weight := w)
    case SetHeight(h) => u.(height := h)
    case SetAge(a) => u.(age := a)
    case SetTargetWeight(t) => u.(targetWeight := t)
    case SetLastUpdated(s) => u.(lastUpdated := s)
  }

  /** The updates applied one after another, first to last. */
  function ApplyFields(u: User, fs: seq<FieldUpdate>): User
  {
    if fs == [] then u else ApplyField(ApplyFields(u, fs[..|fs| - 1]), fs[|fs| - 1])
  }

  lemma {:induction false} ApplyFieldsAppend(u: User, a: seq<FieldUpdate>, b: seq<FieldUpdate>)
    ensures ApplyFields(u, a + b) == ApplyFields(ApplyFields(u, a), b)
  {
    if b == [] {
      assert a + b == a;
    } else {
      assert (a + b)[..|a + b| - 1] == a + b[..|b| - 1];
      ApplyFieldsAppend(u, a, b[..|b| - 1]);
    }
  }

  /** No field update touches the user id or the creation date. */
  lemma {:induction false} ApplyFieldsKeepsId(u: User, fs: seq<FieldUpdate>)
    ensures ApplyFields(u, fs).userId == u.userId
    ensures ApplyFields(u, fs).createdDate == u.createdDate
  {
    if fs != [] {
      ApplyFieldsKeepsId(u, fs[..|fs| - 1]);
    }
  }

  /** A matching row after update_user. */
  function PatchedUser(u: User, p: UserPatch, now: string): User
  {
    ApplyField(ApplyFields(u, FieldUpdates(p)), SetLastUpdated(now))
  }

  /** update_user changes exactly the fields given, and last_updated; id and creation date stay. */
  lemma PatchedUserFields(u: User, p: UserPatch, now: string)
    ensures var v := PatchedUser(u, p, now);
      && v.userId == u.userId
      && v.createdDate == u.createdDate
      && v.lastUpdated == now
      && v.name == (if p.name.Some? then p.name.value else u.name)
      && v.weight == (if p.weight.Some? then p.weight.value else u.weight)
      && v.height == (if p.height.Some? then p.height.value else u.height)
      && v.age == (if p.age.Some? then p.age.value else u.age)
      && v.targetWeight == (if p.targetWeight.Some? then p.targetWeight.value else u.targetWeight)
  {
    var n := OptionalUpdate(p.name, n => SetName(n));
    var w := OptionalUpdate(p.weight, w => SetWeight(w));
    var h := OptionalUpdate(p.height, h => SetHeight(h));
    var a := OptionalUpdate(p.age, a => SetAge(a));
    var t := OptionalUpdate(p.targetWeight, t => SetTargetWeight(t));
    ApplyFieldsAppend(u, n + w + h + a, t);
    ApplyFieldsAppend(u, n + w + h, a);
    ApplyFieldsAppend(u, n + w, h);
    ApplyFieldsAppend(u, n, w);
    var u1 := ApplyFields(u, n);
    var u2 := ApplyFields(u1, w);
    var u3 := ApplyFields(u2, h);
    var u4 := ApplyFields(u3, a);
    assert n != [] ==> n[..0] == [];
    assert w != [] ==> w[..0] == [];
    assert h != [] ==> h[..0] == [];
    assert a != [] ==> a[..0] == [];
    assert t != [] ==> t[..0] == [];
  }

  /** users.loc[mask, key] = value: the field set in every row with the id. */
  function AssignWhere(users: seq<User>, userId: int, f: FieldUpdate): (r: seq<User>)
    ensures |r| == |users|
    ensures forall i :: 0 <= i < |users| ==>
      r[i] == if users[i].userId == userId then ApplyField(users[i], f) else users[i]
  {
    seq(|users|, i requires 0 <= i < |users| =>
      if users[i].userId == userId then ApplyField(users[i], f) else users[i])
  }

  /** The Users table after a successful update_user. */
  function UpdatedUsers(users: seq<User>, userId: int, p: UserPatch, now: string): (r: seq<User>)
    ensures |r| == |users|
  {
    seq(|users|, i requires 0 <= i < |users| =>
      if users[i].userId == userId then PatchedUser(users[i], p, now) else users[i])
  }

  /** Rows of other users are untouched; rows of the user change only in the given fields. */
  lemma UpdateTouchesOnlyTheUser(users: seq<User>, userId: int, p: UserPatch, now: string, i: int)
    requires 0 <= i < |users|
    ensures users[i].userId != userId ==> UpdatedUsers(users, userId, p, now)[i] == users[i]
    ensures users[i].userId == userId ==>
      var v := UpdatedUsers(users, userId, p, now)[i];
      v.userId == userId && v.lastUpdated == now && v.createdDate == users[i].createdDate &&
      (p.name.None? ==> v.name == users[i].name) &&
      (p.weight.None? ==> v.weight == users[i].weight) &&
      (p.height.None? ==> v.height == users[i].height) &&
      (p.age.None? ==> v.age == users[i].age) &&
      (p.targetWeight.None? ==> v.targetWeight == users[i].targetWeight)
  {
    PatchedUserFields(users[i], p, now);
  }

  /** The user ids are the same after an update, so distinct ids stay distinct. */
  lemma UpdateKeepsIds(users: seq<User>, userId: int, p: UserPatch, now: string)
    ensures UserIds(UpdatedUsers(users, userId, p, now)) == UserIds(users)
  {
    forall i | 0 <= i < |users|
      ensures UserIds(UpdatedUsers(users, userId, p, now))[i] == UserIds(users)[i]
    {
      PatchedUserFields(users[i], p, now);
    }
  }

  /** An id no row has leaves the table as it was, yet update_user still writes it and
      reports the write's result: only an empty sheet gives None. */
  lemma UpdateUnknownUserIsNoOp(users: seq<User>, userId: int, p: UserPatch, now: string)
    requires forall i :: 0 <= i < |users| ==> users[i].userId != userId
    ensures UpdatedUsers(users, userId, p, now) == users
  {
  }

  /** Deleting by id removes exactly the rows with that id. */
  lemma DeleteRemovesExactly(users: seq<User>, userId: int, u: User)
    ensures u in Filter(users, UserIsNot(userId)) <==> u in users && u.userId != userId
  {
    if u in users && u.userId != userId {
      var i :| 0 <= i < |users| && users[i] == u;
      assert UserIsNot(userId)(users[i]);
    }
    if u in Filter(users, UserIsNot(userId)) {
      var i :| 0 <= i < |Filter(users, UserIsNot(userId))| && Filter(users, UserIsNot(userId))[i] == u;
    }
  }

  /** A filter keeps distinct ids distinct. */
  lemma {:induction false} FilterKeepsDistinctIds(users: seq<User>, keep: User -> bool)
    requires Distinct(UserIds(users))
    ensures Distinct(UserIds(Filter(users, keep)))
  {
    if users != [] {
      assert Distinct(UserIds(users[1..])) by {
        forall i, j | 0 <= i < j < |users[1..]| ensures users[1..][i].userId != users[1..][j].userId {
          assert UserIds(users)[i + 1] != UserIds(users)[j + 1];
        }
      }
      FilterKeepsDistinctIds(users[1..], keep);
      var rest := Filter(users[1..], keep);
      if keep(users[0]) {
        var r := [users[0]] + rest;
        forall i, j | 0 <= i < j < |r| ensures UserIds(r)[i] != UserIds(r)[j] {
          if i == 0 {
            assert r[j] in users[1..];
            var k :| 0 <= k < |users[1..]| && users[1..][k] == r[j];
            assert UserIds(users)[0] != UserIds(users)[k + 1];
          } else {
            assert UserIds(rest)[i - 1] != UserIds(rest)[j - 1];
          }
        }
      }
    }
  }

  // ------------------------------------------------------------ the database

  /** The three sheets of the workbook. */
  class FitLogDb {
    var users: seq<User>
    var activities: seq<Activity>
    var weightHistory: seq<WeightRecord>

    /** The workbook as it is read from disk. */
    constructor (users: seq<User>, activities: seq<Activity>, weightHistory: seq<WeightRecord>)
      ensures this.users == users && this.activities == activities && this.weightHistory == weightHistory
    {
      this.users := users;
      this.activities := activities;
      this.weightHistory := weightHistory;
    }

    /** add_user: a new row with the next user id; the clock is read once for each time stamp. */
    method AddUser(name: string, weight: real, height: real, age: int, targetWeight: real,
                   createdStamp: string, updatedStamp: string, writeOk: bool) returns (ok: bool)
      modifies this
      ensures ok == writeOk
      ensures writeOk ==> users == old(users) + [User(NextId(UserIds(old(users))), name, weight, height,
                                                       age, targetWeight, createdStamp, updatedStamp)]
      ensures !writeOk ==> users == old(users)
      ensures Distinct(UserIds(old(users))) ==> Distinct(UserIds(users))
      ensures activities == old(activities) && weightHistory == old(weightHistory)
    {
      var userId := 1;
      if |users| != 0 {
        userId := Max(UserIds(users)) + 1;
      }
      var newUser := User(userId, name, weight, height, age, targetWeight, createdStamp, updatedStamp);
      var table := users + [newUser];
      if writeOk {
        assert UserIds(table) == UserIds(users) + [userId];
        if Distinct(UserIds(users)) {
          NextIdKeepsDistinct(UserIds(users));
        }
        users := table;
      }
      ok := writeOk;
    }

    /** update_user: None when the sheet has no rows; otherwise every row with the id gets the
        given fields, then last_updated, and the write's result is returned. */
    method UpdateUser(userId: int, patch: UserPatch, now: string, writeOk: bool) returns (r: Option<bool>)
      modifies this
      ensures old(users) == [] ==> r == None
      ensures old(users) != [] ==> r == Some(writeOk)
      ensures users == if old(users) != [] && writeOk then UpdatedUsers(old(users), userId, patch, now)
                       else old(users)
      ensures activities == old(activities) && weightHistory == old(weightHistory)
    {
      if users == [] {
        return None;
      }
      var table := users;
      var updates := FieldUpdates(patch);
      for k := 0 to |updates|
        invariant |table| == |users|
        invariant forall i :: 0 <= i < |users| ==>
          table[i] == if users[i].userId == userId then ApplyFields(users[i], updates[..k]) else users[i]
      {
        var next := AssignWhere(table, userId, updates[k]);
        forall i | 0 <= i < |users|
          ensures next[i] == if users[i].userId == userId then ApplyFields(users[i], updates[..k + 1]) else users[i]
        {
          assert updates[..k + 1][..k] == updates[..k];
          ApplyFieldsKeepsId(users[i], updates[..k]);
        }
        table := next;
      }
      assert updates[..|updates|] == updates;
      table := AssignWhere(table, userId, SetLastUpdated(now));
      assert table == UpdatedUsers(users, userId, patch, now) by {
        forall i | 0 <= i < |users| ensures table[i] == UpdatedUsers(users, userId, patch, now)[i] {
          ApplyFieldsKeepsId(users[i], updates);
        }
      }
      if writeOk {
        users := table;
      }
      r := Some(writeOk);
    }

    /** delete_user: the user's weight history is deleted first (its write result is ignored),
        then the user's rows; the user's activities stay. */
    method DeleteUser(userId: int, historyWriteOk: bool, usersWriteOk: bool) returns (ok: bool)
      modifies this
      ensures ok == usersWriteOk
      ensures users == if usersWriteOk then Filter(old(users), UserIsNot(userId)) else old(users)
      ensures weightHistory == if historyWriteOk then Filter(old(weightHistory), RecordNotOf(userId))
                               else old(weightHistory)
      ensures activities == old(activities)
      ensures Distinct(UserIds(old(users))) ==> Distinct(UserIds(users))
    {
      var remaining := Filter(users, UserIsNot(userId));
      if Distinct(UserIds(users)) {
        FilterKeepsDistinctIds(users, UserIsNot(userId));
      }
      var _ := DeleteWeightHistory(userId, historyWriteOk);
      if usersWriteOk {
        users := remaining;
      }
      ok := usersWriteOk;
    }

    /** add_activity: a new row with the next activity id. */
    method AddActivity(userId: int, date: Date, activityName: string, details: string,
                       caloriesBurned: real, durationMinutes: int, writeOk: bool) returns (ok: bool)
      modifies this
      ensures ok == writeOk
      ensures writeOk ==> activities == old(activities) + [Activity(NextId(ActivityIds(old(activities))),
                            userId, date, activityName, details, caloriesBurned, durationMinutes)]
      ensures !writeOk ==> activities == old(activities)
      ensures users == old(users) && weightHistory == old(weightHistory)
    {
      var activityId := 1;
      if |activities| != 0 {
        activityId := Max(ActivityIds(activities)) + 1;
      }
      var table := activities + [Activity(activityId, userId, date, activityName, details,
                                          caloriesBurned, durationMinutes)];
      if writeOk {
        activities := table;
      }
      ok := writeOk;
    }

    /** delete_activity: every row with the activity id goes. */
    method DeleteActivity(activityId: int, writeOk: bool) returns (ok: bool)
      modifies this
      ensures ok == writeOk
      ensures activities == if writeOk then Filter(old(activities), ActivityIsNot(activityId))
                            else old(activities)
      ensures users == old(users) && weightHistory == old(weightHistory)
    {
      if writeOk {
        activities := Filter(activities, ActivityIsNot(activityId));
      }
      ok := writeOk;
    }

    /** add_weight_record: a new row with the next record id. */
    method AddWeightRecord(userId: int, date: Date, weight: real, notes: string, writeOk: bool)
      returns (ok: bool)
      modifies this
      ensures ok == writeOk
      ensures writeOk ==> weightHistory == old(weightHistory) +
                            [WeightRecord(NextId(RecordIds(old(weightHistory))), userId, date, weight, notes)]
      ensures !writeOk ==> weightHistory == old(weightHistory)
      ensures users == old(users) && activities == old(activities)
    {
      var recordId := 1;
      if |weightHistory| != 0 {
        recordId := Max(RecordIds(weightHistory)) + 1;
      }
      var table := weightHistory + [WeightRecord(recordId, userId, date, weight, notes)];
      if writeOk {
        weightHistory := table;
      }
      ok := writeOk;
    }

    /** delete_weight_history: every weight row of the user goes. */
    method DeleteWeightHistory(userId: int, writeOk: bool) returns (ok: bool)
      modifies this
      ensures ok == writeOk
      ensures weightHistory == if writeOk then Filter(old(weightHistory), RecordNotOf(userId))
                               else old(weightHistory)
      ensures users == old(users) && activities == old(activities)
    {
      if writeOk {
        weightHistory := Filter(weightHistory, RecordNotOf(userId));
      }
      ok := writeOk;
    }

    /** get_user_stats: None for an unknown user; otherwise the activity count, the total and
        per-activity mean of calories burned (0 without activities), the first weight of the
        history (the stored weight without history), and the progress percentage. */
    method GetUserStats(userId: int) returns (stats: Option<UserStats>)
      ensures stats.None? <==> GetUserById(users, userId).None?
      ensures stats.Some? ==>
        var s := stats.value;
        var user := GetUserById(users, userId).value;
        var mine := Filter(activities, ActivityOf(userId));
        var history := GetWeightHistory(weightHistory, userId);
        && s.user == user
        && s.totalActivities == |mine|
        && s.totalCaloriesBurned == SumCalories(mine)
        && (mine == [] ==> s.avgDailyCalories == 0.0)
        && (mine != [] ==> s.avgDailyCalories == Mean(s.totalCaloriesBurned, |mine|))
        && s.initialWeight == (if history == [] then user.weight else history[0].weight)
        && s.currentWeight == user.weight
        && s.targetWeight == user.targetWeight
        && s.weightProgress == WeightProgress(s.initialWeight, s.currentWeight, s.targetWeight)
        && 0.0 <= s.weightProgress <= 100.0
    {
      var found := GetUserById(users, userId);
      if found.None? {
        return None;
      }
      var user := found.value;
      var acts := GetUserActivities(activities, userId);
      var history := GetWeightHistory(weightHistory, userId);
      ghost var mine := Filter(activities, ActivityOf(userId));
      assert |acts| == |mine| by {
        assert |multiset(acts)| == |multiset(mine)|;
      }
      SumCaloriesSorted(mine, LaterFirst);
      var total := 0.0;
      var mean := 0.0;
      if acts != [] {
        total := SumCalories(acts);
        mean := Mean(total, |acts|);
      }
      var initial := if history != [] then history[0].weight else user.weight;
      var current := user.weight;
      var target := user.targetWeight;
      var progress := WeightProgress(initial, current, target);
      var s := UserStats(user, |acts|, total, mean, initial, current, target, progress);
      stats := Some(s);
    }
  }
}
