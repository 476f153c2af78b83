/**
 * The statistics read endpoints: a user's overall and per-game statistics and the
 * rankings, both read through the cache, and the head-to-head tally of two users.
 */
module StatsController {
  import opened Wrappers
  import opened Strings
  import opened Schema
  import Redis
  import StatsService
  import SessionController

  /** The overall totals of `getUserStats`: each SUM is NULL (None) when the user has no row. */
  datatype Overall = Overall(
    totalPlays: Option<int>,
    totalWins: Option<int>,
    totalLosses: Option<int>,
    totalPlaytime: Option<int>,
    totalMvp: Option<int>)

  /** One row of the rankings query (users joined with their summed statistics). */
  datatype RankingRow = RankingRow(
    id: int,
    nickname: string,
    profileImage: Option<string>,
    totalPlays: int,
    totalWins: int,
    totalScore: int,
    totalMvp: int)

  /** What the cache holds: a statistics document or a rankings list, as JSON would. */
  datatype CachedValue =
    | StatsDoc(overall: Overall, games: seq<StatsRow>)
    | Rankings(rows: seq<RankingRow>)

  /** A read endpoint's reply: the JSON body, or 500. */
  datatype Reply = Served(body: CachedValue) | ServerError

  function Plays(r: StatsRow): int { r.totalPlays }
  function Wins(r: StatsRow): int { r.wins }
  function Losses(r: StatsRow): int { r.losses }
  function Playtime(r: StatsRow): int { r.totalPlaytime }
  function Mvps(r: StatsRow): int { r.mvpCount }

  /** The key `getUserStats` uses: the URL text as given. */
  function UserStatsKey(userIdText: string): string {
    "stats:user:" + userIdText
  }

  /** For the decimal text of an id, the key is the one the session recorder deletes. */
  lemma UserStatsKeyInvalidated(userId: int)
    ensures UserStatsKey(IntToString(userId)) == SessionController.StatsKey(userId)
    ensures Redis.Match(SessionController.StatsKey(userId), UserStatsKey(IntToString(userId)))
  {
    SessionController.StatsKeyLiteral(userId);
    Redis.LiteralMatch(SessionController.StatsKey(userId), UserStatsKey(IntToString(userId)));
  }

  /** The totals of the first query of `getUserStats`. */
  function OverallOf(rows: seq<StatsRow>, userId: int): Overall {
    Overall(SumForUser(rows, userId, Plays), SumForUser(rows, userId, Wins), SumForUser(rows, userId, Losses),
            SumForUser(rows, userId, Playtime), SumForUser(rows, userId, Mvps))
  }

  /** The per-game rows of the second query: the user's rows that join a game. */
  function GameRowsOf(rows: seq<StatsRow>, userId: int): (r: seq<StatsRow>)
    ensures forall i :: 0 <= i < |r| ==> r[i].userId == userId && r[i].gameId.Some?
    ensures forall x :: x in rows && x.userId == userId && x.gameId.Some? ==> x in r
    ensures forall x :: x in r ==> x in rows
  {
    if rows == [] then []
    else
      var rest := GameRowsOf(rows[..|rows| - 1], userId);
      var last := rows[|rows| - 1];
      assert forall x :: x in rows ==> x in rows[..|rows| - 1] || x == last;
      if last.userId == userId && last.gameId.Some? then rest + [last] else rest
  }

  /**
   * Over well-formed rows the overall totals agree with each other: the three counters
   * are all NULL or all present, wins and losses add up to plays, and the MVP count
   * stays within the plays.
   */
  lemma {:induction false} OverallBalanced(rows: seq<StatsRow>, userId: int)
    requires forall i :: 0 <= i < |rows| ==> StatsService.RowValid(rows[i])
    ensures var o := OverallOf(rows, userId);
      && (o.totalPlays.None? <==> o.totalWins.None?)
      && (o.totalPlays.None? <==> o.totalLosses.None?)
      && (o.totalPlays.Some? ==>
            && o.totalWins.value + o.totalLosses.value == o.totalPlays.value
            && 0 <= o.totalMvp.value <= o.totalPlays.value
            && o.totalPlays.value >= 1)
  {
    if rows != [] {
      var init := rows[..|rows| - 1];
      assert forall i :: 0 <= i < |init| ==> init[i] == rows[i];
      OverallBalanced(init, userId);
      assert StatsService.RowValid(rows[|rows| - 1]);
    }
  }

  /**
   * `getUserStats`. A cache hit is returned as stored, without a query. On a miss the
   * two queries run (query 0 and 1 of `fault`; `cast` is the database's reading of the
   * URL text as an integer, and text it rejects makes the query throw), and the result
   * is stored for 600 seconds before it is returned. A throw gives 500.
   */
  method GetUserStats(db: Database, cache: Redis.Cache<CachedValue>, userIdText: string,
                      cast: string -> Option<int>, getFails: bool, setFails: bool, fault: Option<nat>)
    returns (reply: Reply)
    modifies cache
    ensures var key := UserStatsKey(userIdText);
      if !getFails && key in old(cache.store) then
        reply == Served(old(cache.store)[key].value) && cache.store == old(cache.store)
      else if NoFaultBefore(fault, 2) && cast(userIdText).Some? then
        var doc := StatsDoc(OverallOf(db.userStats, cast(userIdText).value),
                            GameRowsOf(db.userStats, cast(userIdText).value));
        && reply == Served(doc)
        && cache.store == if setFails then old(cache.store) else old(cache.store)[key := Redis.Entry(doc, 600)]
      else
        reply == ServerError && cache.store == old(cache.store)
  {
    var key := UserStatsKey(userIdText);
    var cached := cache.Get(key, getFails);
    if cached.Some? {
      return Served(cached.value);
    }
    var id := cast(userIdText);
    // SELECT SUM(total_plays) ... FROM user_stats WHERE user_id = $1
    if Fires(fault, 0) || id.None? {
      return ServerError;
    }
    var overall := OverallOf(db.userStats, id.value);
    // SELECT us.*, g.name ... WHERE us.user_id = $1
    if Fires(fault, 1) {
      return ServerError;
    }
    var result := StatsDoc(overall, GameRowsOf(db.userStats, id.value));
    var _ := cache.Set(key, result, 600, setFails);
    reply := Served(result);
  }

  /** The `ORDER BY` of the rankings query for a `type` parameter. */
  function OrderBy(rankType: string): (r: string)
    ensures r in {"total_wins DESC", "total_score DESC", "total_playtime DESC", "total_mvp DESC"}
    ensures r == "total_score DESC" <==> rankType == "score"
    ensures r == "total_playtime DESC" <==> rankType == "playtime"
    ensures r == "total_mvp DESC" <==> rankType == "mvp"
    ensures r == "total_wins DESC" <==> rankType !in {"score", "playtime", "mvp"}
  {
    if rankType == "mvp" then "total_mvp DESC"
    else if rankType == "playtime" then "total_playtime DESC"
    else if rankType == "score" then "total_score DESC"
    else "total_wins DESC"
  }

  /** `type` and `limit` as the query string gives them, with the defaults `'wins'` and `10`. */
  function RankType(rankType: Option<string>): string {
    if rankType.Some? then rankType.value else "wins"
  }

  /** The default limit is the number 10, which the key template renders as "10". */
  function LimitText(limit: Option<string>): string {
    if limit.Some? then limit.value else "10"
  }

  /** The key `rankings:${type}:${limit}`. */
  function RankingsKey(rankType: Option<string>, limit: Option<string>): string {
    "rankings:" + RankType(rankType) + ":" + LimitText(limit)
  }

  /** Every rankings key lies under `rankings:`, so the recorder's `rankings:*` deletes it. */
  lemma RankingsKeyPurged(rankType: Option<string>, limit: Option<string>)
    ensures StartsWith(RankingsKey(rankType, limit), SessionController.RankingsPrefix)
    ensures Redis.Match(SessionController.RankingsPrefix + "*", RankingsKey(rankType, limit))
    ensures rankType.None? && limit.None? ==> RankingsKey(rankType, limit) == "rankings:wins:10"
  {
    var key := RankingsKey(rankType, limit);
    assert key[..|SessionController.RankingsPrefix|] == SessionController.RankingsPrefix;
    Redis.PrefixMatch(SessionController.RankingsPrefix, key);
  }

  /**
   * `getRankings`. `query(orderBy, limit)` stands for the aggregate query (None when it
   * throws). A hit is returned as stored; a miss is computed, stored for 3600 seconds
   * and returned.
   */
  method GetRankings(cache: Redis.Cache<CachedValue>, rankType: Option<string>, limit: Option<string>,
                     query: (string, string) -> Option<seq<RankingRow>>, getFails: bool, setFails: bool)
    returns (reply: Reply)
    modifies cache
    ensures var key := RankingsKey(rankType, limit);
      var rows := query(OrderBy(RankType(rankType)), LimitText(limit));
      if !getFails && key in old(cache.store) then
        reply == Served(old(cache.store)[key].value) && cache.store == old(cache.store)
      else if rows.Some? then
        && reply == Served(Rankings(rows.value))
        && cache.store == if setFails then old(cache.store) else old(cache.store)[key := Redis.Entry(Rankings(rows.value), 3600)]
      else
        reply == ServerError && cache.store == old(cache.store)
  {
    var key := RankingsKey(rankType, limit);
    var cached := cache.Get(key, getFails);
    if cached.Some? {
      return Served(cached.value);
    }
    var orderBy := OrderBy(RankType(rankType));
    var rows := query(orderBy, LimitText(limit));
    if rows.None? {
      return ServerError;
    }
    var _ := cache.Set(key, Rankings(rows.value), 3600, setFails);
    reply := Served(Rankings(rows.value));
  }

  /** One session both users played: their ranks (NULL as None), scores and winner flags. */
  datatype MatchRow = MatchRow(
    sessionId: nat,
    sessionDate: string,
    gameName: string,
    score1: Option<int>, rank1: Option<int>, winner1: bool,
    score2: Option<int>, rank2: Option<int>, winner2: bool)

  datatype Summary = Summary(totalMatches: nat, wins1: nat, wins2: nat, draws: nat)

  datatype H2HReply = H2H(summary: Summary, matches: seq<MatchRow>) | H2HError

  datatype Outcome = FirstWins | SecondWins | Draw

  /** `s.rank1 < s.rank2` on JS values: NULL compares as 0. */
  function RankNumber(rank: Option<int>): int {
    if rank.Some? then rank.value else 0
  }

  /** The lower rank wins; equal ranks are a draw. */
  function OutcomeOf(m: MatchRow): (o: Outcome)
    ensures o == FirstWins <==> RankNumber(m.rank1) < RankNumber(m.rank2)
    ensures o == SecondWins <==> RankNumber(m.rank2) < RankNumber(m.rank1)
    ensures o == Draw <==> RankNumber(m.rank1) == RankNumber(m.rank2)
  {
    if RankNumber(m.rank1) < RankNumber(m.rank2) then FirstWins
    else if RankNumber(m.rank2) < RankNumber(m.rank1) then SecondWins
    else Draw
  }

  /** How many matches end with outcome o. */
  function Count(rows: seq<MatchRow>, o: Outcome): nat {
    if rows == [] then 0
    else Count(rows[..|rows| - 1], o) + (if OutcomeOf(rows[|rows| - 1]) == o then 1 else 0)
  }

  /** A match seen from the other user: the query with the two ids exchanged. */
  function Swap(m: MatchRow): MatchRow {
    MatchRow(m.sessionId, m.sessionDate, m.gameName, m.score2, m.rank2, m.winner2, m.score1, m.rank1, m.winner1)
  }

  function SwapAll(rows: seq<MatchRow>): (r: seq<MatchRow>)
    ensures |r| == |rows| && forall i :: 0 <= i < |rows| ==> r[i] == Swap(rows[i])
  {
    seq(|rows|, i requires 0 <= i < |rows| => Swap(rows[i]))
  }

  function Mirror(o: Outcome): Outcome {
    match o
    case FirstWins => SecondWins
    case SecondWins => FirstWins
    case Draw => Draw
  }

  /** Every match is exactly one of a win for either user or a draw. */
  lemma {:induction false} CountsPartition(rows: seq<MatchRow>)
    ensures Count(rows, FirstWins) + Count(rows, SecondWins) + Count(rows, Draw) == |rows|
  {
    if rows != [] {
      CountsPartition(rows[..|rows| - 1]);
    }
  }

  /** Exchanging the two users exchanges their win counts and keeps the draws. */
  lemma {:induction false} CountsSwap(rows: seq<MatchRow>, o: Outcome)
    ensures Count(SwapAll(rows), o) == Count(rows, Mirror(o))
  {
    if rows != [] {
      var init := rows[..|rows| - 1];
      assert SwapAll(rows)[..|rows| - 1] == SwapAll(init);
      CountsSwap(init, o);
      var m := rows[|rows| - 1];
      assert OutcomeOf(Swap(m)) == Mirror(OutcomeOf(m));
      assert OutcomeOf(Swap(m)) == o <==> OutcomeOf(m) == Mirror(o);
    }
  }

  /**
   * `getHeadToHead`: `found` is the result of the shared-sessions query (None when it
   * throws); the loop counts wins and draws.
   */
  method HeadToHead(found: Option<seq<MatchRow>>) returns (reply: H2HReply)
    ensures found.None? <==> reply.H2HError?
    ensures found.Some? ==>
      && reply.matches == found.value
      && reply.summary.totalMatches == |found.value|
      && reply.summary.wins1 == Count(found.value, FirstWins)
      && reply.summary.wins2 == Count(found.value, SecondWins)
      && reply.summary.draws == Count(found.value, Draw)
  {
    if found.None? {
      return H2HError;
    }
    var rows := found.value;
    var wins1, wins2, draws := 0, 0, 0;
    var i := 0;
    while i < |rows|
      invariant 0 <= i <= |rows|
      invariant wins1 == Count(rows[..i], FirstWins)
      invariant wins2 == Count(rows[..i], SecondWins)
      invariant draws == Count(rows[..i], Draw)
    {
      assert rows[..i + 1][..i] == rows[..i];
      var s := rows[i];
      if RankNumber(s.rank1) < RankNumber(s.rank2) {
        wins1 := wins1 + 1;
      } else if RankNumber(s.rank2) < RankNumber(s.rank1) {
        wins2 := wins2 + 1;
      } else {
        draws := draws + 1;
      }
      i := i + 1;
    }
    assert rows[..|rows|] == rows;
    reply := H2H(Summary(|rows|, wins1, wins2, draws), rows);
  }
}
