/**
 * The attendance HTTP handlers: the status mapping of a check-in, today's status and
 * the year/month filter over a user's history.
 */
module AttendanceController {
  import opened Wrappers
  import opened Schema
  import opened Js
  import opened AttendanceModel

  /** What a model query handed back: its rows, or it threw. */
  datatype Fetched<T> = Fetched(value: T) | Threw

  const AlreadyAttendedMessage := "Already attended today"
  const CheckErrorMessage := "Server error during attendance check"

  /** The response of `checkAttendance`: 201 with the row, or an error status and message. */
  datatype CheckReply = Checked(attendance: Attendance, pointsEarned: int) | Rejected(status: int, message: string)

  function Status(reply: CheckReply): int {
    if reply.Checked? then 201 else reply.status
  }

  /**
   * `checkAttendance`: a created row is a 201 that reports the row's own points;
   * `ALREADY_ATTENDED` is a 400 and any other failure a 500.
   */
  function CheckAttendance(outcome: Result<Attendance, AttendanceError>): (reply: CheckReply)
    ensures reply.Checked? <==> outcome.Ok?
    ensures outcome.Ok? ==> reply.attendance == outcome.value && reply.pointsEarned == outcome.value.points
    ensures Status(reply) == 400 <==> outcome == Err(AlreadyAttended)
    ensures Status(reply) == 500 <==> outcome == Err(QueryFailed)
    ensures Status(reply) == 400 ==> reply.message == AlreadyAttendedMessage
    ensures Status(reply) == 500 ==> reply.message == CheckErrorMessage
  {
    match outcome
    case Ok(row) => Checked(row, row.points)
    case Err(AlreadyAttended) => Rejected(400, AlreadyAttendedMessage)
    case Err(QueryFailed) => Rejected(500, CheckErrorMessage)
  }

  /** The response of `getTodayStatus`. */
  datatype TodayReply = Today(attended: bool, attendance: Option<Attendance>) | TodayError

  /**
   * `getTodayStatus` over the result of `checkTodayAttendance(userId)` on `today`:
   * `attended` is true exactly when the table holds a row of the user for the day.
   */
  function GetTodayStatus(atts: Fetched<seq<Attendance>>, userId: int, today: Date): (reply: TodayReply)
    ensures reply.TodayError? <==> atts.Threw?
    ensures atts.Fetched? ==> (reply.attended <==> AttendedOn(atts.value, userId, today))
    ensures atts.Fetched? && reply.attended ==>
      reply.attendance.Some? && reply.attendance.value in atts.value
      && reply.attendance.value.userId == userId && reply.attendance.value.date == today
  {
    match atts
    case Threw => TodayError
    case Fetched(rows) =>
      var found := CheckTodayAttendance(rows, userId, today);
      Today(found.Some?, found)
  }

  /**
   * The filter's test: the row's year and month equal the parsed values; a value that
   * does not parse (NaN) equals nothing.
   */
  predicate InMonth(a: Attendance, year: Option<int>, month: Option<int>) {
    year.Some? && month.Some? && a.date.year == year.value && a.date.month == month.value
  }

  /** `history.filter(...)`: the rows of the month, in their original order. */
  function FilterMonth(history: seq<Attendance>, year: Option<int>, month: Option<int>): (r: seq<Attendance>)
    ensures forall i :: 0 <= i < |r| ==> InMonth(r[i], year, month) && r[i] in history
  {
    if history == [] then []
    else
      var last := history[|history| - 1];
      var rest := FilterMonth(history[..|history| - 1], year, month);
      if InMonth(last, year, month) then rest + [last] else rest
  }

  /** Filtering commutes with concatenation: the relative order of the kept rows is the input's. */
  lemma {:induction false} FilterMonthAppend(a: seq<Attendance>, b: seq<Attendance>, year: Option<int>, month: Option<int>)
    ensures FilterMonth(a + b, year, month) == FilterMonth(a, year, month) + FilterMonth(b, year, month)
    decreases |b|
  {
    if b != [] {
      var b' := b[..|b| - 1];
      assert (a + b)[..|a + b| - 1] == a + b';
      assert (a + b)[|a + b| - 1] == b[|b| - 1];
      FilterMonthAppend(a, b', year, month);
    } else {
      assert a + b == a;
    }
  }

  /** Every row of the month is kept. */
  lemma {:induction false} FilterMonthComplete(history: seq<Attendance>, year: Option<int>, month: Option<int>, k: nat)
    requires k < |history| && InMonth(history[k], year, month)
    ensures history[k] in FilterMonth(history, year, month)
    decreases |history|
  {
    if k < |history| - 1 {
      FilterMonthComplete(history[..|history| - 1], year, month, k);
    }
  }

  /** Keeping some rows of a newest-first sequence leaves it newest first. */
  lemma {:induction false} FilterMonthSorted(history: seq<Attendance>, year: Option<int>, month: Option<int>)
    requires SortedDesc(history)
    ensures SortedDesc(FilterMonth(history, year, month))
    decreases |history|
  {
    if history != [] {
      var front := history[..|history| - 1];
      var last := history[|history| - 1];
      assert SortedDesc(front);
      FilterMonthSorted(front, year, month);
      var rest := FilterMonth(front, year, month);
      forall i | 0 <= i < |rest|
        ensures DateAtLeast(rest[i].date, last.date)
      {
        var m :| 0 <= m < |front| && front[m] == rest[i];
        assert history[m] == front[m];
      }
    }
  }

  /** The response of `getUserHistory` / `getMyHistory`. */
  datatype HistoryReply = HistoryRows(rows: seq<Attendance>) | HistoryError

  /**
   * `getUserHistory` over the result of `getAttendanceHistory(userId)`: the month's rows
   * when both `year` and `month` are given, the history unchanged otherwise.
   */
  function GetUserHistory(history: Fetched<seq<Attendance>>, year: Option<string>, month: Option<string>,
                          parse: string -> Option<int>): (reply: HistoryReply)
    ensures reply.HistoryError? <==> history.Threw?
    ensures history.Fetched? && !(TruthyText(year) && TruthyText(month)) ==> reply == HistoryRows(history.value)
    ensures history.Fetched? && TruthyText(year) && TruthyText(month) ==>
      forall i :: 0 <= i < |reply.rows| ==>
        reply.rows[i] in history.value && InMonth(reply.rows[i], parse(year.value), parse(month.value))
  {
    match history
    case Threw => HistoryError
    case Fetched(rows) =>
      if TruthyText(year) && TruthyText(month) then HistoryRows(FilterMonth(rows, parse(year.value), parse(month.value)))
      else HistoryRows(rows)
  }

  /**
   * Over the stored history (default limit), a filtered reply holds at most 30 rows, all of
   * the user, newest first, and contains every history row of the month.
   */
  lemma UserHistoryFromTable(atts: seq<Attendance>, userId: int, year: string, month: string,
                             parse: string -> Option<int>)
    requires year != "" && month != ""
    ensures var h := History(atts, userId, DefaultHistoryLimit);
      var reply := GetUserHistory(Fetched(h), Some(year), Some(month), parse);
      && |reply.rows| <= DefaultHistoryLimit
      && SortedDesc(reply.rows)
      && (forall i :: 0 <= i < |reply.rows| ==> reply.rows[i].userId == userId)
      && (forall k :: 0 <= k < |h| && InMonth(h[k], parse(year), parse(month)) ==> h[k] in reply.rows)
  {
    var h := History(atts, userId, DefaultHistoryLimit);
    HistoryProperties(atts, userId, DefaultHistoryLimit);
    FilterMonthSorted(h, parse(year), parse(month));
    FilterMonthLength(h, parse(year), parse(month));
    forall k | 0 <= k < |h| && InMonth(h[k], parse(year), parse(month))
      ensures h[k] in FilterMonth(h, parse(year), parse(month))
    {
      FilterMonthComplete(h, parse(year), parse(month), k);
    }
  }

  lemma {:induction false} FilterMonthLength(history: seq<Attendance>, year: Option<int>, month: Option<int>)
    ensures |FilterMonth(history, year, month)| <= |history|
    decreases |history|
  {
    if history != [] {
      FilterMonthLength(history[..|history| - 1], year, month);
    }
  }
}
