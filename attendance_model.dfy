/**
 * Daily check-in: at most one attendance row per (user, date), a fixed number of
 * points credited to the user, the check for today's row and the history query.
 */
module AttendanceModel {
  import opened Wrappers
  import opened Schema

  datatype AttendanceError = AlreadyAttended | QueryFailed

  /** Points for a check-in; the streak bonus is always 0. */
  const BasePoints: int := 10
  const DefaultHistoryLimit: nat := 30

  predicate AttendedOn(atts: seq<Attendance>, userId: int, date: Date) {
    exists i :: 0 <= i < |atts| && atts[i].userId == userId && atts[i].date == date
  }

  /** No two rows share a (user, date) pair. */
  predicate UniqueAttendance(atts: seq<Attendance>) {
    forall i, j :: 0 <= i < j < |atts| ==> !(atts[i].userId == atts[j].userId && atts[i].date == atts[j].date)
  }

  /** A row for a pair that has none keeps the table free of duplicates. */
  lemma InsertKeepsUnique(atts: seq<Attendance>, row: Attendance)
    requires UniqueAttendance(atts)
    requires !AttendedOn(atts, row.userId, row.date)
    ensures UniqueAttendance(atts + [row])
  {
    forall i, j | 0 <= i < j < |atts + [row]|
      ensures !((atts + [row])[i].userId == (atts + [row])[j].userId && (atts + [row])[i].date == (atts + [row])[j].date)
    {
      if j == |atts| {
        assert (atts + [row])[i] == atts[i];
      }
    }
  }

  /**
   * `createAttendance(userId, groupId)` on the day `today` (the day before is
   * `yesterday`). Queries: 0 today's row, 1 yesterday's row (its result unused),
   * 2 the INSERT, 3 the points UPDATE. There is no transaction: when the UPDATE throws
   * the row stays inserted and nothing is credited.
   */
  method CreateAttendance(db: Database, userId: int, groupId: Option<int>, today: Date, yesterday: Date, fault: Option<nat>)
    returns (r: Result<Attendance, AttendanceError>)
    modifies db`attendances, db`userPoints
    ensures r == Err(AlreadyAttended) <==> NoFaultBefore(fault, 1) && AttendedOn(old(db.attendances), userId, today)
    ensures r.Ok? <==> NoFaultBefore(fault, 4) && !AttendedOn(old(db.attendances), userId, today)
    ensures r.Ok? ==>
      && r.value == Attendance(userId, groupId, today, BasePoints, 0)
      && db.attendances == old(db.attendances) + [r.value]
      && db.userPoints == if userId in old(db.userPoints)
                          then old(db.userPoints)[userId := old(db.userPoints)[userId] + r.value.points]
                          else old(db.userPoints)
    ensures r.Err? && !(Fires(fault, 3) && !AttendedOn(old(db.attendances), userId, today)) ==>
      db.attendances == old(db.attendances) && db.userPoints == old(db.userPoints)
    ensures Fires(fault, 3) && !AttendedOn(old(db.attendances), userId, today) ==>
      && r == Err(QueryFailed)
      && db.attendances == old(db.attendances) + [Attendance(userId, groupId, today, BasePoints, 0)]
      && db.userPoints == old(db.userPoints)
    ensures UniqueAttendance(old(db.attendances)) ==> UniqueAttendance(db.attendances)
  {
    // SELECT * FROM attendances WHERE user_id = $1 AND attendance_date = $2 (today)
    if Fires(fault, 0) {
      return Err(QueryFailed);
    }
    if AttendedOn(db.attendances, userId, today) {
      return Err(AlreadyAttended);
    }
    // the same SELECT for yesterday; its rows are not used
    if Fires(fault, 1) {
      return Err(QueryFailed);
    }
    var bonusPoints := 0;
    var points := BasePoints + bonusPoints;
    // INSERT INTO attendances (...) RETURNING *
    if Fires(fault, 2) {
      return Err(QueryFailed);
    }
    var row := Attendance(userId, groupId, today, points, bonusPoints);
    if UniqueAttendance(db.attendances) {
      InsertKeepsUnique(db.attendances, row);
    }
    db.attendances := db.attendances + [row];
    // UPDATE users SET points = points + $1 WHERE id = $2
    if Fires(fault, 3) {
      return Err(QueryFailed);
    }
    if userId in db.userPoints {
      db.userPoints := db.userPoints[userId := db.userPoints[userId] + points];
    }
    r := Ok(row);
  }

  /** `checkTodayAttendance`: the first row of the user for the day, if any. */
  function CheckTodayAttendance(atts: seq<Attendance>, userId: int, today: Date): (r: Option<Attendance>)
    ensures r.Some? <==> AttendedOn(atts, userId, today)
    ensures r.Some? ==> r.value in atts && r.value.userId == userId && r.value.date == today
  {
    if atts == [] then None
    else if atts[0].userId == userId && atts[0].date == today then Some(atts[0])
    else
      var rest := CheckTodayAttendance(atts[1..], userId, today);
      assert AttendedOn(atts, userId, today) ==> AttendedOn(atts[1..], userId, today) by {
        if AttendedOn(atts, userId, today) {
          var i :| 0 <= i < |atts| && atts[i].userId == userId && atts[i].date == today;
          assert atts[1..][i - 1] == atts[i];
        }
      }
      assert AttendedOn(atts[1..], userId, today) ==> AttendedOn(atts, userId, today) by {
        if AttendedOn(atts[1..], userId, today) {
          var i :| 0 <= i < |atts[1..]| && atts[1..][i].userId == userId && atts[1..][i].date == today;
          assert atts[i + 1] == atts[1..][i];
        }
      }
      rest
  }

  /** With at most one row per (user, date), today's row is the one the table holds. */
  lemma TodayIsTheRow(atts: seq<Attendance>, userId: int, today: Date, k: nat)
    requires UniqueAttendance(atts)
    requires k < |atts| && atts[k].userId == userId && atts[k].date == today
    ensures CheckTodayAttendance(atts, userId, today) == Some(atts[k])
  {
  }

  /** `a` is on or after `b`: the order of `attendance_date`. */
  predicate DateAtLeast(a: Date, b: Date) {
    a.year > b.year || (a.year == b.year && (a.month > b.month || (a.month == b.month && a.day >= b.day)))
  }

  predicate SortedDesc(s: seq<Attendance>) {
    forall i, j :: 0 <= i < j < |s| ==> DateAtLeast(s[i].date, s[j].date)
  }

  /** The user's rows, in table order. */
  function RowsOf(atts: seq<Attendance>, userId: int): (r: seq<Attendance>)
    ensures forall i :: 0 <= i < |r| ==> r[i].userId == userId
    ensures multiset(r) <= multiset(atts)
  {
    if atts == [] then []
    else
      var rest := RowsOf(atts[..|atts| - 1], userId);
      var last := atts[|atts| - 1];
      assert atts == atts[..|atts| - 1] + [last];
      if last.userId == userId then rest + [last] else rest
  }

  /** No row of the user is dropped: every one in the table is among the rows kept. */
  lemma {:induction false} RowsOfComplete(atts: seq<Attendance>, userId: int, k: nat)
    requires k < |atts| && atts[k].userId == userId
    ensures atts[k] in RowsOf(atts, userId)
    decreases |atts|
  {
    if k < |atts| - 1 {
      RowsOfComplete(atts[..|atts| - 1], userId, k);
    }
  }

  /** Places a row before the first row dated strictly earlier. */
  function InsertDesc(x: Attendance, s: seq<Attendance>): (r: seq<Attendance>)
    ensures multiset(r) == multiset(s) + multiset{x}
    ensures |r| == |s| + 1
    ensures r[0] == x || (|s| > 0 && r[0] == s[0])
  {
    if s == [] then [x]
    else if DateAtLeast(x.date, s[0].date) then [x] + s
    else
      assert s == [s[0]] + s[1..];
      [s[0]] + InsertDesc(x, s[1..])
  }

  /** ORDER BY attendance_date DESC. */
  function SortDesc(s: seq<Attendance>): (r: seq<Attendance>)
    ensures multiset(r) == multiset(s)
  {
    if s == [] then []
    else
      assert s == [s[0]] + s[1..];
      InsertDesc(s[0], SortDesc(s[1..]))
  }

  lemma {:induction false} InsertDescSorted(x: Attendance, s: seq<Attendance>)
    requires SortedDesc(s)
    ensures SortedDesc(InsertDesc(x, s))
  {
    if s != [] && !DateAtLeast(x.date, s[0].date) {
      InsertDescSorted(x, s[1..]);
      var rest := InsertDesc(x, s[1..]);
      assert DateAtLeast(s[0].date, rest[0].date);
    }
  }

  lemma {:induction false} SortDescSorted(s: seq<Attendance>)
    ensures SortedDesc(SortDesc(s))
  {
    if s != [] {
      SortDescSorted(s[1..]);
      InsertDescSorted(s[0], SortDesc(s[1..]));
    }
  }

  /** `getAttendanceHistory(userId, limit)`. */
  function History(atts: seq<Attendance>, userId: int, limit: nat): seq<Attendance> {
    var sorted := SortDesc(RowsOf(atts, userId));
    if |sorted| <= limit then sorted else sorted[..limit]
  }

  lemma PrefixSorted(s: seq<Attendance>, n: nat)
    requires SortedDesc(s) && n <= |s|
    ensures SortedDesc(s[..n])
  {
    forall i, j | 0 <= i < j < n
      ensures DateAtLeast(s[..n][i].date, s[..n][j].date)
    {
      assert s[..n][i] == s[i] && s[..n][j] == s[j];
    }
  }

  /** A prefix of a newest-first sequence holds rows no older than any row after it. */
  lemma SortedPrefixNewest(s: seq<Attendance>, n: nat)
    requires SortedDesc(s) && n <= |s|
    ensures multiset(s[..n]) <= multiset(s)
    ensures forall a, i :: a in multiset(s) - multiset(s[..n]) && 0 <= i < n ==> DateAtLeast(s[i].date, a.date)
  {
    var rest := s[n..];
    assert s == s[..n] + rest;
    assert multiset(s) - multiset(s[..n]) == multiset(rest);
    forall a, i | a in multiset(s) - multiset(s[..n]) && 0 <= i < n
      ensures DateAtLeast(s[i].date, a.date)
    {
      assert a in rest;
      var j :| 0 <= j < |rest| && rest[j] == a;
      assert s[n + j] == a;
    }
  }

  /** The history is the sorted rows of the user, cut to the first `n` of them. */
  lemma HistoryIsPrefix(atts: seq<Attendance>, userId: int, limit: nat)
    ensures var sorted := SortDesc(RowsOf(atts, userId));
      var n := if |sorted| <= limit then |sorted| else limit;
      && |sorted| == |RowsOf(atts, userId)|
      && History(atts, userId, limit) == sorted[..n]
  {
    var own := RowsOf(atts, userId);
    var sorted := SortDesc(own);
    assert |sorted| == |multiset(sorted)| == |multiset(own)| == |own|;
  }

  /** Every history row is a row of the user from the table. */
  lemma HistoryRows(atts: seq<Attendance>, userId: int, limit: nat)
    ensures var h := History(atts, userId, limit);
      forall i :: 0 <= i < |h| ==> h[i].userId == userId && h[i] in atts
  {
    var own := RowsOf(atts, userId);
    var sorted := SortDesc(own);
    var h := History(atts, userId, limit);
    HistoryIsPrefix(atts, userId, limit);
    forall i | 0 <= i < |h|
      ensures h[i].userId == userId && h[i] in atts
    {
      assert h[i] == sorted[i];
      assert sorted[i] in multiset(own);
      var m :| 0 <= m < |own| && own[m] == sorted[i];
      assert own[m] in multiset(atts);
    }
  }

  /** The history holds the newest rows of the user: none left out is newer than one returned. */
  lemma HistoryNewest(atts: seq<Attendance>, userId: int, limit: nat)
    ensures var own := RowsOf(atts, userId);
      var h := History(atts, userId, limit);
      && SortedDesc(h)
      && multiset(h) <= multiset(own)
      && (|own| <= limit ==> multiset(h) == multiset(own))
      && (forall a, i :: a in multiset(own) - multiset(h) && 0 <= i < |h| ==> DateAtLeast(h[i].date, a.date))
  {
    var own := RowsOf(atts, userId);
    var sorted := SortDesc(own);
    HistoryIsPrefix(atts, userId, limit);
    var n := if |sorted| <= limit then |sorted| else limit;
    SortDescSorted(own);
    PrefixSorted(sorted, n);
    SortedPrefixNewest(sorted, n);
    if |own| <= limit {
      assert sorted[..n] == sorted;
    }
    assert multiset(sorted) == multiset(own);
  }

  /**
   * The history holds `limit` rows, or all of the user's rows when there are fewer,
   * newest first, all of the user and from the table; every row of the user left out is
   * no newer than any row returned (`ORDER BY attendance_date DESC LIMIT limit`).
   */
  lemma HistoryProperties(atts: seq<Attendance>, userId: int, limit: nat)
    ensures var own := RowsOf(atts, userId);
      var h := History(atts, userId, limit);
      && |h| == (if |own| <= limit then |own| else limit)
      && SortedDesc(h)
      && (forall i :: 0 <= i < |h| ==> h[i].userId == userId && h[i] in atts)
      && multiset(h) <= multiset(own)
      && (|own| <= limit ==> multiset(h) == multiset(own))
      && (forall a, i :: a in multiset(own) - multiset(h) && 0 <= i < |h| ==> DateAtLeast(h[i].date, a.date))
  {
    HistoryIsPrefix(atts, userId, limit);
    HistoryRows(atts, userId, limit);
    HistoryNewest(atts, userId, limit);
  }

  /**
   * The same against the table: a row of the user in the table comes back when the user
   * has at most `limit` rows, and otherwise any of them left out is no newer than every
   * row returned.
   */
  lemma HistoryCoversTable(atts: seq<Attendance>, userId: int, limit: nat, k: nat)
    requires k < |atts| && atts[k].userId == userId
    ensures var h := History(atts, userId, limit);
      && (|RowsOf(atts, userId)| <= limit ==> atts[k] in h)
      && (atts[k] !in h ==> forall i :: 0 <= i < |h| ==> DateAtLeast(h[i].date, atts[k].date))
  {
    var own := RowsOf(atts, userId);
    var h := History(atts, userId, limit);
    RowsOfComplete(atts, userId, k);
    HistoryNewest(atts, userId, limit);
    assert atts[k] in multiset(own);
    if atts[k] !in h {
      assert multiset(h)[atts[k]] == 0;
      assert atts[k] in multiset(own) - multiset(h);
    }
  }
}
