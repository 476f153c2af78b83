/**
 * The persistent store the backend core reads and writes, as in-memory tables:
 * sessions, participations, user_stats, badges, attendances and the points column
 * of users. One `Database` object stands for the PostgreSQL database.
 */
module Schema {
  import opened Wrappers

  /** A calendar date (`attendance_date`). */
  datatype Date = Date(year: int, month: int, day: int)

  /** One participant's entry of a posted session (`{ userId, score, rank, team, isWinner, mvpBadge }`). */
  datatype ParticipantResult = ParticipantResult(
    userId: int,
    score: Option<int>,
    rank: Option<int>,
    team: Option<string>,
    isWinner: bool,
    mvpBadge: Option<string>)

  /** A row of `sessions`. */
  datatype Session = Session(
    id: nat,
    gameId: Option<int>,
    groupId: Option<int>,
    sessionDate: string,
    duration: Option<int>,
    isTeamGame: bool,
    createdBy: int)

  /** A row of `participations`; the participant's values are stored as posted. */
  datatype Participation = Participation(
    id: nat,
    sessionId: nat,
    userId: int,
    score: Option<int>,
    rank: Option<int>,
    team: Option<string>,
    isWinner: bool,
    mvpBadge: Option<string>)

  /** A row of `user_stats`: the cumulative counters of one user for one game. */
  datatype StatsRow = StatsRow(
    userId: int,
    gameId: Option<int>,
    totalPlays: int,
    wins: int,
    losses: int,
    totalScore: int,
    avgScore: real,
    totalPlaytime: int,
    bestRank: Option<int>,
    mvpCount: int)

  /** A row of `badges`. */
  datatype Badge = Badge(
    userId: int,
    badgeType: string,
    badgeName: string,
    badgeIcon: string,
    description: string)

  /** A row of `attendances`. */
  datatype Attendance = Attendance(
    userId: int,
    groupId: Option<int>,
    date: Date,
    points: int,
    bonusPoints: int)

  class Database {
    var sessions: seq<Session>
    var participations: seq<Participation>
    var userStats: seq<StatsRow>
    var badges: seq<Badge>
    var attendances: seq<Attendance>
    /** `users.points`, by user id. */
    var userPoints: map<int, int>
    /** The last values handed out by the id sequences (not restored by ROLLBACK). */
    var sessionSeq: nat
    var participationSeq: nat

    constructor (points: map<int, int>)
      ensures sessions == [] && participations == [] && userStats == []
      ensures badges == [] && attendances == [] && userPoints == points
      ensures sessionSeq == 0 && participationSeq == 0
    {
      sessions, participations, userStats := [], [], [];
      badges, attendances, userPoints := [], [], points;
      sessionSeq, participationSeq := 0, 0;
    }
  }

  /**
   * Query failures: `fault == Some(k)` means the k-th query (counting from 0) that the
   * call issues throws; `None` means no query throws.
   */
  predicate Fires(fault: Option<nat>, k: nat) {
    fault == Some(k)
  }

  /** The same fault, counted from the k-th query on. */
  function Shift(fault: Option<nat>, k: nat): (r: Option<nat>)
    ensures forall j: nat :: Fires(r, j) <==> Fires(fault, k + j)
  {
    match fault
    case Some(f) => if f >= k then Some(f - k) else None
    case None => None
  }

  /** No query with index below k throws. */
  predicate NoFaultBefore(fault: Option<nat>, k: nat) {
    fault.None? || fault.value >= k
  }

  /** No throw among the first n queries of a sub-call issued from query k on. */
  lemma ShiftNoFault(fault: Option<nat>, k: nat, n: nat)
    ensures NoFaultBefore(Shift(fault, k), n) <==> NoFaultBefore(fault, k + n) || (fault.Some? && fault.value < k)
  {
  }

  /**
   * `SUM(column) ... WHERE user_id = $1` over user_stats: NULL (None) when the user
   * has no row, the sum of the column over the user's rows otherwise.
   */
  function SumForUser(rows: seq<StatsRow>, userId: int, column: StatsRow -> int): (r: Option<int>)
    ensures r.None? <==> forall i :: 0 <= i < |rows| ==> rows[i].userId != userId
  {
    if rows == [] then None
    else
      var rest := SumForUser(rows[..|rows| - 1], userId, column);
      var last := rows[|rows| - 1];
      if last.userId != userId then rest
      else Some((if rest.Some? then rest.value else 0) + column(last))
  }
}
