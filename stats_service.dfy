/**
 * The user_stats create-or-update of one participation (`updateUserStats`; the
 * session recorder runs the same transform inline). The counter computation is a
 * pure record transform; the table is changed in place.
 */
module StatsService {
  import opened Wrappers
  import opened Strings
  import opened Js
  import opened Schema

  /** The row inserted for a first participation (`total_plays = 1`). */
  function NewStats(userId: int, gameId: Option<int>, p: ParticipantResult, duration: Option<int>): StatsRow {
    var score := OrZero(p.score);
    StatsRow(
      userId, gameId, 1,
      if p.isWinner then 1 else 0,
      if p.isWinner then 0 else 1,
      score, score as real,
      OrZero(duration),
      OrNull(p.rank),
      if TruthyText(p.mvpBadge) then 1 else 0)
  }

  /** The best rank after a participation: a truthy rank replaces a falsy or a larger best. */
  function NewBestRank(best: Option<int>, rank: Option<int>): Option<int> {
    if TruthyInt(rank) && (!TruthyInt(best) || rank.value < best.value) then rank else best
  }

  /** The counters after one more participation in an existing row. */
  function UpdatedStats(row: StatsRow, p: ParticipantResult, duration: Option<int>): StatsRow
    requires row.totalPlays >= 0
  {
    var plays := row.totalPlays + 1;
    var total := row.totalScore + OrZero(p.score);
    row.(
      totalPlays := plays,
      wins := row.wins + (if p.isWinner then 1 else 0),
      losses := row.losses + (if p.isWinner then 0 else 1),
      totalScore := total,
      avgScore := total as real / plays as real,
      totalPlaytime := row.totalPlaytime + OrZero(duration),
      bestRank := NewBestRank(row.bestRank, p.rank),
      mvpCount := row.mvpCount + (if TruthyText(p.mvpBadge) then 1 else 0))
  }

  /** One participation applied to the row found for its (user, game), or to none. */
  function Step(prev: Option<StatsRow>, userId: int, gameId: Option<int>, p: ParticipantResult, duration: Option<int>): StatsRow
    requires prev.Some? ==> prev.value.totalPlays >= 0
  {
    match prev
    case None => NewStats(userId, gameId, p, duration)
    case Some(row) => UpdatedStats(row, p, duration)
  }

  /** SQL `=`: NULL equals nothing, itself included. */
  predicate SqlEq(a: Option<int>, b: Option<int>) {
    a.Some? && b.Some? && a.value == b.value
  }

  /** `WHERE user_id = $1 AND game_id = $2`. */
  predicate KeyMatches(row: StatsRow, userId: int, gameId: Option<int>) {
    row.userId == userId && SqlEq(row.gameId, gameId)
  }

  /** The index of the first row the stats lookup returns (`rows[0]`), if any. */
  function Find(rows: seq<StatsRow>, userId: int, gameId: Option<int>): (r: Option<nat>)
    ensures r.Some? ==> r.value < |rows| && KeyMatches(rows[r.value], userId, gameId)
    ensures r.Some? ==> forall j :: 0 <= j < r.value ==> !KeyMatches(rows[j], userId, gameId)
    ensures r.None? ==> forall j :: 0 <= j < |rows| ==> !KeyMatches(rows[j], userId, gameId)
  {
    if rows == [] then None
    else if KeyMatches(rows[0], userId, gameId) then Some(0)
    else match Find(rows[1..], userId, gameId)
      case Some(i) => Some(i + 1)
      case None => None
  }

  /** The row the stats lookup returns, if any. */
  function Lookup(rows: seq<StatsRow>, userId: int, gameId: Option<int>): Option<StatsRow> {
    match Find(rows, userId, gameId)
    case Some(i) => Some(rows[i])
    case None => None
  }

  predicate PlaysNonNegative(rows: seq<StatsRow>) {
    forall i :: 0 <= i < |rows| ==> rows[i].totalPlays >= 0
  }

  /** The user_stats table after one participation: insert a new row or update the found one. */
  function Upsert(rows: seq<StatsRow>, userId: int, gameId: Option<int>, p: ParticipantResult, duration: Option<int>): (r: seq<StatsRow>)
    requires PlaysNonNegative(rows)
    ensures PlaysNonNegative(r)
  {
    match Find(rows, userId, gameId)
    case None => rows + [Step(None, userId, gameId, p, duration)]
    case Some(i) => rows[i := Step(Some(rows[i]), userId, gameId, p, duration)]
  }

  /** The invariants every stored row keeps. */
  predicate RowValid(r: StatsRow) {
    && r.totalPlays >= 1
    && r.wins >= 0 && r.losses >= 0
    && r.wins + r.losses == r.totalPlays
    && r.avgScore * (r.totalPlays as real) == r.totalScore as real
    && r.bestRank != Some(0)
    && 0 <= r.mvpCount <= r.totalPlays
  }

  /** Every row is valid and no two rows share a (user, non-NULL game) pair. */
  predicate TableValid(rows: seq<StatsRow>) {
    && (forall i :: 0 <= i < |rows| ==> RowValid(rows[i]))
    && (forall i, j :: 0 <= i < j < |rows| ==> !KeyMatches(rows[j], rows[i].userId, rows[i].gameId))
  }

  lemma ValidNonNegative(rows: seq<StatsRow>)
    requires TableValid(rows)
    ensures PlaysNonNegative(rows)
  {
  }

  /** Division by the new play count gives back the total: `avg_score * total_plays = total_score`. */
  lemma AverageTimesPlays(total: int, plays: int)
    requires plays >= 1
    ensures (total as real / plays as real) * (plays as real) == total as real
  {
  }

  /**
   * A first participation, or an update of a valid row, yields a valid row; an update
   * adds one play, and exactly one to wins or to losses.
   */
  lemma StepValid(prev: Option<StatsRow>, userId: int, gameId: Option<int>, p: ParticipantResult, duration: Option<int>)
    requires prev.Some? ==> RowValid(prev.value)
    ensures RowValid(Step(prev, userId, gameId, p, duration))
    ensures var r := Step(prev, userId, gameId, p, duration);
      && r.userId == (if prev.Some? then prev.value.userId else userId)
      && r.gameId == (if prev.Some? then prev.value.gameId else gameId)
      && (prev.Some? ==> r.totalPlays == prev.value.totalPlays + 1)
      && (prev.Some? ==> (r.wins - prev.value.wins) + (r.losses - prev.value.losses) == 1)
      && (prev.Some? ==> r.totalScore == prev.value.totalScore + OrZero(p.score))
  {
    if prev.Some? {
      var row := prev.value;
      var r := UpdatedStats(row, p, duration);
      AverageTimesPlays(r.totalScore, r.totalPlays);
    }
  }

  /** The minimum of two optional ranks, absence being the neutral element. */
  function MinRank(a: Option<int>, b: Option<int>): (r: Option<int>)
    ensures r.None? <==> a.None? && b.None?
    ensures r.Some? ==> r == a || r == b
    ensures r.Some? && a.Some? ==> r.value <= a.value
    ensures r.Some? && b.Some? ==> r.value <= b.value
  {
    match (a, b)
    case (None, _) => b
    case (_, None) => a
    case (Some(x), Some(y)) => if y < x then b else a
  }

  /** Over a best rank that is never 0, the update keeps the minimum of the truthy ranks. */
  lemma BestRankIsMinimum(best: Option<int>, rank: Option<int>)
    requires best != Some(0)
    ensures NewBestRank(best, rank) == MinRank(best, OrNull(rank))
  {
  }

  /**
   * The stats lookup finds the row for (user, game) after an upsert of that key,
   * and the row is the result of the transform applied to the row found before.
   */
  lemma UpsertLookup(rows: seq<StatsRow>, userId: int, gameId: Option<int>, p: ParticipantResult, duration: Option<int>)
    requires PlaysNonNegative(rows)
    requires gameId.Some?
    ensures Lookup(Upsert(rows, userId, gameId, p, duration), userId, gameId)
         == Some(Step(Lookup(rows, userId, gameId), userId, gameId, p, duration))
  {
    var r := Upsert(rows, userId, gameId, p, duration);
    match Find(rows, userId, gameId)
    case None =>
      assert KeyMatches(r[|rows|], userId, gameId);
      FindIsFirst(r, userId, gameId, Some(|rows|));
    case Some(i) =>
      assert KeyMatches(r[i], userId, gameId);
      FindIsFirst(r, userId, gameId, Some(i));
  }

  /** The lookup is determined by which rows match: it is the first match. */
  lemma FindIsFirst(rows: seq<StatsRow>, userId: int, gameId: Option<int>, k: Option<nat>)
    requires k.Some? ==> k.value < |rows| && KeyMatches(rows[k.value], userId, gameId)
    requires k.Some? ==> forall j :: 0 <= j < k.value ==> !KeyMatches(rows[j], userId, gameId)
    requires k.None? ==> forall j :: 0 <= j < |rows| ==> !KeyMatches(rows[j], userId, gameId)
    ensures Find(rows, userId, gameId) == k
  {
  }

  /** An upsert leaves the row of every other (user, game) key as the lookup saw it. */
  lemma UpsertOtherKey(rows: seq<StatsRow>, userId: int, gameId: Option<int>, p: ParticipantResult, duration: Option<int>,
                       otherUser: int, otherGame: Option<int>)
    requires PlaysNonNegative(rows)
    requires !(otherUser == userId && SqlEq(otherGame, gameId))
    ensures Lookup(Upsert(rows, userId, gameId, p, duration), otherUser, otherGame) == Lookup(rows, otherUser, otherGame)
  {
    var r := Upsert(rows, userId, gameId, p, duration);
    var k := Find(rows, otherUser, otherGame);
    match Find(rows, userId, gameId)
    case None =>
      assert !KeyMatches(r[|rows|], otherUser, otherGame);
      FindIsFirst(r, otherUser, otherGame, k);
    case Some(i) =>
      assert rows[i].gameId == gameId;
      assert !KeyMatches(rows[i], otherUser, otherGame);
      assert !KeyMatches(r[i], otherUser, otherGame);
      FindIsFirst(r, otherUser, otherGame, k);
  }

  /**
   * An upsert on a valid table keeps it valid; it either appends exactly one row or
   * replaces the found row in place, and no row of another key changes.
   */
  lemma UpsertKeepsTable(rows: seq<StatsRow>, userId: int, gameId: Option<int>, p: ParticipantResult, duration: Option<int>)
    requires TableValid(rows)
    ensures TableValid(Upsert(rows, userId, gameId, p, duration))
    ensures var r := Upsert(rows, userId, gameId, p, duration);
      && |r| == |rows| + (if Find(rows, userId, gameId).None? then 1 else 0)
      && (forall j :: 0 <= j < |rows| && !KeyMatches(rows[j], userId, gameId) ==> r[j] == rows[j])
  {
    var r := Upsert(rows, userId, gameId, p, duration);
    match Find(rows, userId, gameId)
    case None =>
      StepValid(None, userId, gameId, p, duration);
      forall i, j | 0 <= i < j < |r|
        ensures !KeyMatches(r[j], r[i].userId, r[i].gameId)
      {
        if j == |rows| {
          assert !KeyMatches(rows[i], userId, gameId);
        }
      }
    case Some(k) =>
      StepValid(Some(rows[k]), userId, gameId, p, duration);
      assert r[k].userId == rows[k].userId && r[k].gameId == rows[k].gameId;
      forall i, j | 0 <= i < j < |r|
        ensures !KeyMatches(r[j], r[i].userId, r[i].gameId)
      {
        assert r[i].userId == rows[i].userId && r[i].gameId == rows[i].gameId;
        assert r[j].userId == rows[j].userId && r[j].gameId == rows[j].gameId;
      }
  }

  /** The row of `update_user_stats` with no row found for its key, and with a row. */
  method UpdateUserStats(db: Database, userId: int, gameId: Option<int>, p: ParticipantResult, duration: Option<int>, fault: Option<nat>)
    returns (ok: bool)
    requires PlaysNonNegative(db.userStats)
    modifies db`userStats
    ensures ok <==> NoFaultBefore(fault, 2)
    ensures PlaysNonNegative(db.userStats)
    ensures db.userStats == if ok then Upsert(old(db.userStats), userId, gameId, p, duration) else old(db.userStats)
  {
    // SELECT * FROM user_stats WHERE user_id = $1 AND game_id = $2
    if Fires(fault, 0) {
      return false;
    }
    var found := Find(db.userStats, userId, gameId);
    // INSERT INTO user_stats ... or UPDATE user_stats SET ... WHERE id = $9
    if Fires(fault, 1) {
      return false;
    }
    match found {
      case None =>
        db.userStats := db.userStats + [NewStats(userId, gameId, p, duration)];
      case Some(i) =>
        db.userStats := db.userStats[i := UpdatedStats(db.userStats[i], p, duration)];
    }
    ok := true;
  }

  /** One recorded participation of a user in a game, with the session's duration. */
  datatype Play = Play(result: ParticipantResult, duration: Option<int>)

  /** The row for one (user, game) after more participations, starting from the row found (or none). */
  function Extend(prev: Option<StatsRow>, userId: int, gameId: Option<int>, plays: seq<Play>): (r: Option<StatsRow>)
    requires prev.Some? ==> prev.value.totalPlays >= 0
    ensures r.Some? <==> prev.Some? || |plays| > 0
    ensures r.Some? ==> r.value.totalPlays == (if prev.Some? then prev.value.totalPlays else 0) + |plays|
  {
    if plays == [] then prev
    else
      var last := plays[|plays| - 1];
      Some(Step(Extend(prev, userId, gameId, plays[..|plays| - 1]), userId, gameId, last.result, last.duration))
  }

  /** The row for one (user, game) after a history of participations, starting with none. */
  function Replay(userId: int, gameId: Option<int>, plays: seq<Play>): (r: Option<StatsRow>)
    ensures r.Some? <==> |plays| > 0
    ensures r.Some? ==> r.value.totalPlays == |plays|
  {
    Extend(None, userId, gameId, plays)
  }

  function CountWins(plays: seq<Play>): nat {
    if plays == [] then 0
    else CountWins(plays[..|plays| - 1]) + (if plays[|plays| - 1].result.isWinner then 1 else 0)
  }

  function SumScores(plays: seq<Play>): int {
    if plays == [] then 0 else SumScores(plays[..|plays| - 1]) + OrZero(plays[|plays| - 1].result.score)
  }

  function SumDurations(plays: seq<Play>): int {
    if plays == [] then 0 else SumDurations(plays[..|plays| - 1]) + OrZero(plays[|plays| - 1].duration)
  }

  function CountMvp(plays: seq<Play>): nat {
    if plays == [] then 0
    else CountMvp(plays[..|plays| - 1]) + (if TruthyText(plays[|plays| - 1].result.mvpBadge) then 1 else 0)
  }

  /**
   * After N participations of one user in one game: total_plays = N, wins counts the
   * winning ones and losses the others, total_score and total_playtime are the sums,
   * and mvp_count counts the truthy mvp tags; the row satisfies RowValid.
   */
  lemma {:induction false} ReplayTotals(userId: int, gameId: Option<int>, plays: seq<Play>)
    requires |plays| > 0
    ensures var r := Replay(userId, gameId, plays).value;
      && RowValid(r)
      && r.wins == CountWins(plays)
      && r.losses == |plays| - CountWins(plays)
      && r.totalScore == SumScores(plays)
      && r.totalPlaytime == SumDurations(plays)
      && r.mvpCount == CountMvp(plays)
  {
    var init := plays[..|plays| - 1];
    var last := plays[|plays| - 1];
    var prev := Replay(userId, gameId, init);
    if init != [] {
      ReplayTotals(userId, gameId, init);
    }
    StepValid(prev, userId, gameId, last.result, last.duration);
  }

  /** A valid row's average is its total score over its number of plays. */
  lemma RowAverage(r: StatsRow)
    requires RowValid(r)
    ensures r.avgScore == r.totalScore as real / r.totalPlays as real
  {
    var n := r.totalPlays as real;
    assert n > 0.0;
    calc {
      r.totalScore as real / n;
      (r.avgScore * n) / n;
      r.avgScore;
    }
  }

  /** After N participations avg_score is exactly total_score / N. */
  lemma ReplayAverage(userId: int, gameId: Option<int>, plays: seq<Play>)
    requires |plays| > 0
    ensures Replay(userId, gameId, plays).value.avgScore == SumScores(plays) as real / |plays| as real
  {
    ReplayTotals(userId, gameId, plays);
    RowAverage(Replay(userId, gameId, plays).value);
  }

  /**
   * best_rank after a history is the minimum of the truthy ranks supplied, or NULL
   * when none was truthy.
   */
  lemma {:induction false} ReplayBestRank(userId: int, gameId: Option<int>, plays: seq<Play>)
    requires |plays| > 0
    ensures var best := Replay(userId, gameId, plays).value.bestRank;
      && (best.None? <==> forall i :: 0 <= i < |plays| ==> !TruthyInt(plays[i].result.rank))
      && (best.Some? ==> exists i :: 0 <= i < |plays| && plays[i].result.rank == best)
      && (best.Some? ==> forall i :: 0 <= i < |plays| && TruthyInt(plays[i].result.rank) ==> best.value <= plays[i].result.rank.value)
  {
    var init := plays[..|plays| - 1];
    var last := plays[|plays| - 1];
    var best := Replay(userId, gameId, plays).value.bestRank;
    assert forall i :: 0 <= i < |init| ==> plays[i] == init[i];
    if init == [] {
      assert plays == [last];
    } else {
      ReplayBestRank(userId, gameId, init);
      var prev := Replay(userId, gameId, init).value;
      ReplayTotals(userId, gameId, init);
      BestRankIsMinimum(prev.bestRank, last.result.rank);
      if prev.bestRank.Some? {
        var i :| 0 <= i < |init| && init[i].result.rank == prev.bestRank;
        assert plays[i].result.rank == prev.bestRank;
      }
      if best.Some? && best == OrNull(last.result.rank) {
        assert plays[|plays| - 1].result.rank == best;
      }
    }
  }

  /**
   * The session's duration as posted after the form field was edited is a string,
   * and `stats.total_playtime + (duration || 0)` then concatenates instead of adding.
   */
  function PlaytimeAsWritten(totalPlaytime: int, duration: JsValue): JsValue
    requires duration.Num? || duration.Str? || !Truthy(duration)
  {
    Plus(Num(totalPlaytime), Or(duration, Num(0)))
  }

  /** 30 minutes played so far plus a posted "45" is stored as 3045, not 75. */
  lemma EditedDurationConcatenates()
    ensures PlaytimeAsWritten(30, Str("45")) == Str("3045")
    ensures ParseDecimal("3045") == Some(3045)
  {
    assert NatToString(3) == "3";
    assert NatToString(30) == "30";
    ParseIntToString(3045);
    assert IntToString(3045) == "3045" by {
      assert NatToString(30) == "30";
      assert NatToString(304) == "304";
    }
  }

  /** The intended update: the posted duration is read as a number before it is added. */
  function PlaytimeCorrected(totalPlaytime: int, duration: JsValue): Option<int> {
    match ToNumber(Or(duration, Num(0)))
    case Some(d) => Some(totalPlaytime + d)
    case None => None
  }

  /** A duration posted as a number or as its decimal text is added, which is what UpdatedStats computes for its numeric duration. */
  lemma PlaytimeCorrectedAdds(totalPlaytime: int, d: int)
    ensures PlaytimeCorrected(totalPlaytime, Num(d)) == Some(totalPlaytime + OrZero(Some(d)))
    ensures PlaytimeCorrected(totalPlaytime, Str(IntToString(d))) == Some(totalPlaytime + d)
  {
    ParseIntToString(d);
  }
}
