/**
 * Recording a played session (`createSession`): one transaction that inserts the
 * session, one participation per participant and the participant's updated
 * user_stats row; after COMMIT, badge checks per participant and invalidation of the
 * cached statistics and rankings.
 */
module SessionController {
  import opened Wrappers
  import opened Strings
  import opened Schema
  import StatsService
  import BadgeModel
  import Redis

  /** The posted body (`gameId, groupId, sessionDate, duration, isTeamGame, participants`). */
  datatype SessionRequest = SessionRequest(
    gameId: Option<int>,
    groupId: Option<int>,
    sessionDate: string,
    duration: Option<int>,
    isTeamGame: bool,
    participants: seq<ParticipantResult>)

  /** 201 with the created rows and awarded badges, or 500 "Failed to record session". */
  datatype SessionResponse =
    | Recorded(session: Session, participations: seq<Participation>, newBadges: seq<Badge>)
    | RecordFailed

  function Status(r: SessionResponse): int {
    if r.Recorded? then 201 else 500
  }

  /** The row `INSERT INTO sessions ... RETURNING *` returns. */
  function SessionRow(id: nat, req: SessionRequest, creator: int): Session {
    Session(id, req.gameId, req.groupId, req.sessionDate, req.duration, req.isTeamGame, creator)
  }

  function ParticipationRow(id: nat, sessionId: nat, p: ParticipantResult): Participation {
    Participation(id, sessionId, p.userId, p.score, p.rank, p.team, p.isWinner, p.mvpBadge)
  }

  /**
   * The participations created for a session, in the order of the participants, with
   * the ids the sequence hands out after `lastId`.
   */
  function ParticipationRows(sessionId: nat, lastId: nat, ps: seq<ParticipantResult>): seq<Participation> {
    if ps == [] then []
    else ParticipationRows(sessionId, lastId, ps[..|ps| - 1]) + [ParticipationRow(lastId + |ps|, sessionId, ps[|ps| - 1])]
  }

  /** One participation per participant, in order, carrying the posted values and consecutive ids. */
  lemma {:induction false} ParticipationRowsContent(sessionId: nat, lastId: nat, ps: seq<ParticipantResult>)
    ensures var r := ParticipationRows(sessionId, lastId, ps);
      && |r| == |ps|
      && forall i :: 0 <= i < |ps| ==>
        && r[i].id == lastId + i + 1
        && r[i].sessionId == sessionId
        && r[i].userId == ps[i].userId
        && r[i].score == ps[i].score && r[i].rank == ps[i].rank && r[i].team == ps[i].team
        && r[i].isWinner == ps[i].isWinner && r[i].mvpBadge == ps[i].mvpBadge
  {
    if ps != [] {
      var init := ps[..|ps| - 1];
      ParticipationRowsContent(sessionId, lastId, init);
      assert forall i :: 0 <= i < |init| ==> init[i] == ps[i];
    }
  }

  /** user_stats after every participant's result has been applied, in order. */
  function ApplyAll(rows: seq<StatsRow>, gameId: Option<int>, ps: seq<ParticipantResult>, duration: Option<int>): (r: seq<StatsRow>)
    requires StatsService.PlaysNonNegative(rows)
    ensures StatsService.PlaysNonNegative(r)
  {
    if ps == [] then rows
    else
      var last := ps[|ps| - 1];
      StatsService.Upsert(ApplyAll(rows, gameId, ps[..|ps| - 1], duration), last.userId, gameId, last, duration)
  }

  /** The plays a session contributes to one user's history: that user's entries, in order. */
  function PlaysOf(ps: seq<ParticipantResult>, userId: int, duration: Option<int>): seq<StatsService.Play> {
    if ps == [] then []
    else
      var rest := PlaysOf(ps[..|ps| - 1], userId, duration);
      if ps[|ps| - 1].userId == userId then rest + [StatsService.Play(ps[|ps| - 1], duration)] else rest
  }

  /** Recording the session keeps user_stats well formed. */
  lemma {:induction false} ApplyAllValid(rows: seq<StatsRow>, gameId: Option<int>, ps: seq<ParticipantResult>, duration: Option<int>)
    requires StatsService.TableValid(rows)
    ensures StatsService.PlaysNonNegative(rows)
    ensures StatsService.TableValid(ApplyAll(rows, gameId, ps, duration))
  {
    StatsService.ValidNonNegative(rows);
    if ps != [] {
      ApplyAllValid(rows, gameId, ps[..|ps| - 1], duration);
      var last := ps[|ps| - 1];
      StatsService.UpsertKeepsTable(ApplyAll(rows, gameId, ps[..|ps| - 1], duration), last.userId, gameId, last, duration);
    }
  }

  /**
   * For a recorded game, each user's row after the session is the row before it
   * extended by exactly that user's entries of the session, in order.
   */
  lemma {:induction false} ApplyAllLookup(rows: seq<StatsRow>, gameId: Option<int>, ps: seq<ParticipantResult>, duration: Option<int>, userId: int)
    requires StatsService.TableValid(rows)
    requires gameId.Some?
    ensures StatsService.PlaysNonNegative(rows)
    ensures var before := StatsService.Lookup(rows, userId, gameId);
      StatsService.Lookup(ApplyAll(rows, gameId, ps, duration), userId, gameId) ==
      StatsService.Extend(before, userId, gameId, PlaysOf(ps, userId, duration))
  {
    StatsService.ValidNonNegative(rows);
    var before := StatsService.Lookup(rows, userId, gameId);
    if ps == [] {
      assert StatsService.Lookup(rows, userId, gameId) == before;
    } else {
      var init := ps[..|ps| - 1];
      var last := ps[|ps| - 1];
      ApplyAllLookup(rows, gameId, init, duration, userId);
      ApplyAllValid(rows, gameId, init, duration);
      var mid := ApplyAll(rows, gameId, init, duration);
      StatsService.ValidNonNegative(mid);
      var plays := PlaysOf(init, userId, duration);
      if last.userId == userId {
        StatsService.UpsertLookup(mid, userId, gameId, last, duration);
        var all := plays + [StatsService.Play(last, duration)];
        assert all[..|all| - 1] == plays;
      } else {
        StatsService.UpsertOtherKey(mid, last.userId, gameId, last, duration, userId, gameId);
      }
    }
  }

  /**
   * A user without a row for the game before their first recorded session ends up
   * with exactly the row their history of plays determines.
   */
  lemma FirstSessionReplays(rows: seq<StatsRow>, gameId: Option<int>, ps: seq<ParticipantResult>, duration: Option<int>, userId: int)
    requires StatsService.TableValid(rows)
    requires gameId.Some?
    requires StatsService.Lookup(rows, userId, gameId).None?
    ensures StatsService.PlaysNonNegative(rows)
    ensures StatsService.Lookup(ApplyAll(rows, gameId, ps, duration), userId, gameId) ==
            StatsService.Replay(userId, gameId, PlaysOf(ps, userId, duration))
  {
    ApplyAllLookup(rows, gameId, ps, duration, userId);
  }

  /** The participants' user ids, in order (one per entry, repeats kept). */
  function UserIds(ps: seq<ParticipantResult>): (ids: seq<int>)
    ensures |ids| == |ps| && forall i :: 0 <= i < |ps| ==> ids[i] == ps[i].userId
  {
    seq(|ps|, i requires 0 <= i < |ps| => ps[i].userId)
  }

  /**
   * The badges the post-commit loop awards: each participant in turn, every check
   * seeing the badges awarded before it.
   */
  function AwardSequence(stats: seq<StatsRow>, held: seq<Badge>, ids: seq<int>): seq<Badge> {
    if ids == [] then []
    else
      var prev := AwardSequence(stats, held, ids[..|ids| - 1]);
      var u := ids[|ids| - 1];
      var t := BadgeModel.Totals(stats, u);
      prev + BadgeModel.Awards(BadgeModel.Rules, held + prev, u, t.0, t.1)
  }

  /** The badges awarded for the first k participants are a prefix of those for all. */
  lemma {:induction false} AwardSequencePrefix(stats: seq<StatsRow>, held: seq<Badge>, ids: seq<int>, k: nat)
    requires k <= |ids|
    ensures AwardSequence(stats, held, ids[..k]) <= AwardSequence(stats, held, ids)
    decreases |ids|
  {
    if k < |ids| {
      var init := ids[..|ids| - 1];
      assert init[..k] == ids[..k];
      AwardSequencePrefix(stats, held, init, k);
    } else {
      assert ids[..k] == ids;
    }
  }

  /** The post-commit loop never awards a badge twice to the same user. */
  lemma {:induction false} AwardSequenceUnique(stats: seq<StatsRow>, held: seq<Badge>, ids: seq<int>)
    requires BadgeModel.UniqueBadges(held)
    ensures BadgeModel.UniqueBadges(held + AwardSequence(stats, held, ids))
  {
    if ids != [] {
      var init := ids[..|ids| - 1];
      AwardSequenceUnique(stats, held, init);
      var prev := AwardSequence(stats, held, init);
      var u := ids[|ids| - 1];
      var t := BadgeModel.Totals(stats, u);
      var more := BadgeModel.Awards(BadgeModel.Rules, held + prev, u, t.0, t.1);
      BadgeModel.AwardsKeepUnique(BadgeModel.Rules, held + prev, u, t.0, t.1);
      assert held + AwardSequence(stats, held, ids) == (held + prev) + more;
    }
  }

  lemma PrefixUnique(a: seq<Badge>, b: seq<Badge>)
    requires a <= b && BadgeModel.UniqueBadges(b)
    ensures BadgeModel.UniqueBadges(a)
  {
    assert forall i :: 0 <= i < |a| ==> a[i] == b[i];
  }

  /** The key `cacheDelPattern(`stats:user:${p.userId}`)` deletes. */
  function StatsKey(userId: int): string {
    "stats:user:" + IntToString(userId)
  }

  const RankingsPrefix: string := "rankings:"

  /** The participant's stats key contains no glob metacharacter, so it deletes only itself. */
  lemma StatsKeyLiteral(userId: int)
    ensures Redis.Literal(StatsKey(userId))
  {
    var s := IntToString(userId);
    assert forall i :: 0 <= i < |s| ==> StatsKey(userId)[11 + i] == s[i];
  }

  /**
   * The keys the invalidation phase deletes, where `cacheFaults` holds the indices of
   * the cacheDelPattern calls whose client throws: call i < n is the i-th
   * participant's stats key, call n is `rankings:*`.
   */
  predicate Purged(k: string, ids: seq<int>, cacheFaults: set<nat>) {
    || StatsPurged(k, ids, |ids|, cacheFaults)
    || (|ids| !in cacheFaults && StartsWith(k, RankingsPrefix))
  }

  /** Deleted by one of the first n stats-key calls. */
  predicate StatsPurged(k: string, ids: seq<int>, n: nat, cacheFaults: set<nat>)
    requires n <= |ids|
  {
    exists j :: 0 <= j < n && j !in cacheFaults && k == StatsKey(ids[j])
  }

  /** The keys of a store that the invalidation phase deletes. */
  function PurgedKeys<V>(store: map<string, Redis.Entry<V>>, ids: seq<int>, cacheFaults: set<nat>): (ks: set<string>)
    ensures forall k :: k in ks <==> k in store && Purged(k, ids, cacheFaults)
  {
    set k | k in store && Purged(k, ids, cacheFaults)
  }

  function StatsPurgedKeys<V>(store: map<string, Redis.Entry<V>>, ids: seq<int>, n: nat, cacheFaults: set<nat>): set<string>
    requires n <= |ids|
  {
    set k | k in store && StatsPurged(k, ids, n, cacheFaults)
  }

  /** One more stats-key call: when it does not throw, exactly that key goes. */
  lemma DeleteStatsStep<V>(orig: map<string, Redis.Entry<V>>, cur: map<string, Redis.Entry<V>>,
                           ids: seq<int>, i: nat, cacheFaults: set<nat>)
    requires i < |ids|
    requires cur == orig - StatsPurgedKeys(orig, ids, i, cacheFaults)
    ensures (if i in cacheFaults then cur else cur - Redis.MatchingKeys(cur, StatsKey(ids[i])))
            == orig - StatsPurgedKeys(orig, ids, i + 1, cacheFaults)
  {
    var key := StatsKey(ids[i]);
    forall k
      ensures StatsPurged(k, ids, i + 1, cacheFaults) <==>
              StatsPurged(k, ids, i, cacheFaults) || (i !in cacheFaults && k == key)
    {
      if StatsPurged(k, ids, i + 1, cacheFaults) {
        var j :| 0 <= j < i + 1 && j !in cacheFaults && k == StatsKey(ids[j]);
        if j < i {
          assert StatsPurged(k, ids, i, cacheFaults);
        }
      }
      if i !in cacheFaults && k == key {
        assert 0 <= i < i + 1 && i !in cacheFaults && k == StatsKey(ids[i]);
      }
    }
    if i !in cacheFaults {
      StatsKeyLiteral(ids[i]);
      forall k | k in cur
        ensures Redis.Match(key, k) <==> k == key
      {
        Redis.LiteralMatch(key, k);
      }
    }
  }

  /** The last call: when it does not throw, every key under `rankings:` goes. */
  lemma DeleteRankingsStep<V>(orig: map<string, Redis.Entry<V>>, cur: map<string, Redis.Entry<V>>,
                              ids: seq<int>, cacheFaults: set<nat>)
    requires cur == orig - StatsPurgedKeys(orig, ids, |ids|, cacheFaults)
    ensures (if |ids| in cacheFaults then cur else cur - Redis.MatchingKeys(cur, RankingsPrefix + "*"))
            == orig - PurgedKeys(orig, ids, cacheFaults)
  {
    if |ids| !in cacheFaults {
      forall k | k in cur
        ensures Redis.Match(RankingsPrefix + "*", k) <==> StartsWith(k, RankingsPrefix)
      {
        Redis.PrefixMatch(RankingsPrefix, k);
      }
    }
  }

  /** The index of COMMIT: BEGIN is query 0, the session INSERT 1, then three per participant. */
  function CommitIndex(n: nat): nat {
    2 + 3 * n
  }

  /**
   * One participant: INSERT participation (query 0), then SELECT user_stats and
   * INSERT/UPDATE user_stats (queries 1 and 2).
   */
  method RecordParticipant(db: Database, sessionId: nat, p: ParticipantResult,
                           gameId: Option<int>, duration: Option<int>, fault: Option<nat>)
    returns (ok: bool, row: Participation)
    requires StatsService.PlaysNonNegative(db.userStats)
    modifies db`participations, db`userStats, db`participationSeq
    ensures ok <==> NoFaultBefore(fault, 3)
    ensures StatsService.PlaysNonNegative(db.userStats)
    ensures ok ==>
      && row == ParticipationRow(old(db.participationSeq) + 1, sessionId, p)
      && db.participationSeq == old(db.participationSeq) + 1
      && db.participations == old(db.participations) + [row]
      && db.userStats == StatsService.Upsert(old(db.userStats), p.userId, gameId, p, duration)
  {
    row := ParticipationRow(db.participationSeq + 1, sessionId, p);
    // INSERT INTO participations (...) RETURNING *
    if Fires(fault, 0) {
      return false, row;
    }
    db.participationSeq := db.participationSeq + 1;
    db.participations := db.participations + [row];
    // SELECT * FROM user_stats ...; then INSERT or UPDATE
    ok := StatsService.UpdateUserStats(db, p.userId, gameId, p, duration, Shift(fault, 1));
  }

  /** Recording one more participant extends both the created rows and the stats fold. */
  lemma RecordStep(rows: seq<StatsRow>, gameId: Option<int>, ps: seq<ParticipantResult>, i: nat,
                   duration: Option<int>, sessionId: nat, lastId: nat)
    requires i < |ps| && StatsService.PlaysNonNegative(rows)
    ensures ParticipationRows(sessionId, lastId, ps[..i + 1]) ==
            ParticipationRows(sessionId, lastId, ps[..i]) + [ParticipationRow(lastId + i + 1, sessionId, ps[i])]
    ensures ApplyAll(rows, gameId, ps[..i + 1], duration) ==
            StatsService.Upsert(ApplyAll(rows, gameId, ps[..i], duration), ps[i].userId, gameId, ps[i], duration)
  {
    assert ps[..i + 1][..i] == ps[..i];
  }

  /**
   * One turn of the participant loop: the i-th participant recorded after the first i,
   * with its three queries numbered from 3i.
   */
  method RecordNext(db: Database, sessionId: nat, ps: seq<ParticipantResult>, i: nat,
                    gameId: Option<int>, duration: Option<int>, fault: Option<nat>,
                    ghost stats0: seq<StatsRow>, ghost parts0: seq<Participation>, ghost seq0: nat,
                    parts: seq<Participation>)
    returns (ok: bool, parts': seq<Participation>)
    requires i < |ps| && NoFaultBefore(fault, 3 * i) && StatsService.PlaysNonNegative(stats0)
    requires parts == ParticipationRows(sessionId, seq0, ps[..i])
    requires db.participations == parts0 + parts && db.participationSeq == seq0 + i
    requires db.userStats == ApplyAll(stats0, gameId, ps[..i], duration)
    modifies db`participations, db`userStats, db`participationSeq
    ensures ok <==> NoFaultBefore(fault, 3 * (i + 1))
    ensures ok ==>
      && parts' == ParticipationRows(sessionId, seq0, ps[..i + 1])
      && db.participations == parts0 + parts'
      && db.participationSeq == seq0 + i + 1
      && db.userStats == ApplyAll(stats0, gameId, ps[..i + 1], duration)
  {
    RecordStep(stats0, gameId, ps, i, duration, sessionId, seq0);
    ShiftNoFault(fault, 3 * i, 3);
    var row;
    ok, row := RecordParticipant(db, sessionId, ps[i], gameId, duration, Shift(fault, 3 * i));
    parts' := parts + [row];
  }

  /** The loop over the participants, three queries each; on a throw the caller rolls back. */
  method RecordParticipants(db: Database, sessionId: nat, ps: seq<ParticipantResult>,
                            gameId: Option<int>, duration: Option<int>, fault: Option<nat>)
    returns (ok: bool, parts: seq<Participation>)
    requires StatsService.PlaysNonNegative(db.userStats)
    modifies db`participations, db`userStats, db`participationSeq
    ensures ok <==> NoFaultBefore(fault, 3 * |ps|)
    ensures ok ==>
      && parts == ParticipationRows(sessionId, old(db.participationSeq), ps)
      && db.participations == old(db.participations) + parts
      && db.userStats == ApplyAll(old(db.userStats), gameId, ps, duration)
  {
    parts := [];
    ghost var stats0, parts0, seq0 := db.userStats, db.participations, db.participationSeq;
    var i := 0;
    while i < |ps|
      invariant 0 <= i <= |ps|
      invariant NoFaultBefore(fault, 3 * i)
      invariant parts == ParticipationRows(sessionId, seq0, ps[..i])
      invariant db.participations == parts0 + parts
      invariant db.participationSeq == seq0 + i
      invariant db.userStats == ApplyAll(stats0, gameId, ps[..i], duration)
    {
      ok, parts := RecordNext(db, sessionId, ps, i, gameId, duration, fault, stats0, parts0, seq0, parts);
      if !ok {
        return false, parts;
      }
      i := i + 1;
    }
    assert ps[..|ps|] == ps;
    ok := true;
  }

  /**
   * BEGIN; INSERT session; the participants' queries; COMMIT. A throwing query rolls
   * the three tables back; the id sequences keep the values they handed out.
   */
  method RecordTransaction(db: Database, req: SessionRequest, creator: int, fault: Option<nat>)
    returns (committed: bool, session: Session, parts: seq<Participation>)
    requires StatsService.TableValid(db.userStats)
    modifies db`sessions, db`participations, db`userStats, db`sessionSeq, db`participationSeq
    ensures StatsService.PlaysNonNegative(old(db.userStats))
    ensures StatsService.TableValid(db.userStats)
    ensures committed <==> NoFaultBefore(fault, CommitIndex(|req.participants|) + 1)
    ensures committed ==>
      && session == SessionRow(old(db.sessionSeq) + 1, req, creator)
      && parts == ParticipationRows(session.id, old(db.participationSeq), req.participants)
      && db.sessions == old(db.sessions) + [session]
      && db.participations == old(db.participations) + parts
      && db.userStats == ApplyAll(old(db.userStats), req.gameId, req.participants, req.duration)
    ensures !committed ==>
      && db.sessions == old(db.sessions)
      && db.participations == old(db.participations)
      && db.userStats == old(db.userStats)
  {
    ApplyAllValid(db.userStats, req.gameId, req.participants, req.duration);
    session := SessionRow(db.sessionSeq + 1, req, creator);
    parts := [];
    // BEGIN
    if Fires(fault, 0) {
      return false, session, parts;
    }
    // INSERT INTO sessions (...) RETURNING *
    if Fires(fault, 1) {
      return false, session, parts;
    }
    var sessions0, parts0, stats0 := db.sessions, db.participations, db.userStats;
    db.sessionSeq := db.sessionSeq + 1;
    db.sessions := db.sessions + [session];
    var ok;
    ok, parts := RecordParticipants(db, session.id, req.participants, req.gameId, req.duration, Shift(fault, 2));
    if !ok {
      // ROLLBACK
      db.sessions, db.participations, db.userStats := sessions0, parts0, stats0;
      return false, session, parts;
    }
    // COMMIT
    if Fires(fault, CommitIndex(|req.participants|)) {
      db.sessions, db.participations, db.userStats := sessions0, parts0, stats0;
      return false, session, parts;
    }
    committed := true;
  }

  /** Badges inserted before a throw: what was done, then part of the next check's awards. */
  lemma PartialPrefix(held: seq<Badge>, done: seq<Badge>, cur: seq<Badge>, more: seq<Badge>,
                      next: seq<Badge>, all: seq<Badge>)
    requires |held + done| <= |cur| && cur[..|held + done|] == held + done
    requires cur[|held + done|..] <= more
    requires next == done + more && next <= all
    ensures |held| <= |cur| && cur[..|held|] == held
    ensures cur[|held|..] <= all
  {
    var rest := cur[|held + done|..];
    assert cur == held + done + rest;
    assert cur[|held|..] == done + rest;
    assert forall i :: 0 <= i < |done + rest| ==> (done + rest)[i] == next[i];
  }

  /** One more participant's check appends that participant's awards. */
  lemma AwardStep(stats: seq<StatsRow>, held: seq<Badge>, ids: seq<int>, i: nat)
    requires i < |ids|
    ensures var t := BadgeModel.Totals(stats, ids[i]);
      AwardSequence(stats, held, ids[..i + 1]) == AwardSequence(stats, held, ids[..i]) +
        BadgeModel.Awards(BadgeModel.Rules, held + AwardSequence(stats, held, ids[..i]), ids[i], t.0, t.1)
  {
    assert ids[..i + 1][..i] == ids[..i];
  }

  /** The badges in the table after the i-th check threw: a prefix of the full award sequence. */
  lemma FailedAward(stats: seq<StatsRow>, held: seq<Badge>, ids: seq<int>, i: nat, awarded: seq<Badge>, cur: seq<Badge>)
    requires i < |ids|
    requires awarded == AwardSequence(stats, held, ids[..i])
    requires |held + awarded| <= |cur| && cur[..|held + awarded|] == held + awarded
    requires var t := BadgeModel.Totals(stats, ids[i]);
      cur[|held + awarded|..] <= BadgeModel.Awards(BadgeModel.Rules, held + awarded, ids[i], t.0, t.1)
    ensures |held| <= |cur| && cur[..|held|] == held
    ensures cur[|held|..] <= AwardSequence(stats, held, ids)
  {
    var t := BadgeModel.Totals(stats, ids[i]);
    var more := BadgeModel.Awards(BadgeModel.Rules, held + awarded, ids[i], t.0, t.1);
    AwardStep(stats, held, ids, i);
    AwardSequencePrefix(stats, held, ids, i + 1);
    PartialPrefix(held, awarded, cur, more, AwardSequence(stats, held, ids[..i + 1]), AwardSequence(stats, held, ids));
  }

  /** The post-commit badge loop; a throwing check ends it, keeping the badges already inserted. */
  method AwardAll(db: Database, ids: seq<int>, fault: Option<nat>) returns (r: Option<seq<Badge>>)
    modifies db`badges
    ensures fault.None? ==> r.Some?
    ensures var all := AwardSequence(db.userStats, old(db.badges), ids);
      && (r.Some? ==> r.value == all && db.badges == old(db.badges) + all)
      && (r.None? ==> |old(db.badges)| <= |db.badges| && db.badges[..|old(db.badges)|] == old(db.badges)
                      && db.badges[|old(db.badges)|..] <= all)
  {
    var held := db.badges;
    var awarded: seq<Badge> := [];
    var q: nat := 0;
    var i := 0;
    while i < |ids|
      invariant 0 <= i <= |ids|
      invariant fault.None? || q <= fault.value
      invariant awarded == AwardSequence(db.userStats, held, ids[..i])
      invariant db.badges == held + awarded
    {
      assert ids[..i + 1][..i] == ids[..i];
      var found, used := BadgeModel.CheckAndAwardBadges(db, ids[i], Shift(fault, q));
      ShiftNoFault(fault, q, used);
      if found.None? {
        FailedAward(db.userStats, held, ids, i, awarded, db.badges);
        return None;
      }
      awarded := awarded + found.value;
      q := q + used;
      i := i + 1;
    }
    assert ids[..|ids|] == ids;
    r := Some(awarded);
  }

  /** The invalidation loop: each participant's stats key, then every rankings key. */
  method InvalidateCaches<V>(cache: Redis.Cache<V>, ids: seq<int>, cacheFaults: set<nat>)
    modifies cache
    ensures cache.store == old(cache.store) - PurgedKeys(old(cache.store), ids, cacheFaults)
  {
    var i := 0;
    while i < |ids|
      invariant 0 <= i <= |ids|
      invariant cache.store == old(cache.store) - StatsPurgedKeys(old(cache.store), ids, i, cacheFaults)
    {
      DeleteStatsStep(old(cache.store), cache.store, ids, i, cacheFaults);
      var _ := cache.DelPattern(StatsKey(ids[i]), i in cacheFaults);
      i := i + 1;
    }
    DeleteRankingsStep(old(cache.store), cache.store, ids, cacheFaults);
    var _ := cache.DelPattern(RankingsPrefix + "*", |ids| in cacheFaults);
  }

  /**
   * Everything after COMMIT: the badge loop, then, unless a badge check threw, the
   * cache invalidation. Badge uniqueness is kept either way.
   */
  method AfterCommit<V>(db: Database, cache: Redis.Cache<V>, ids: seq<int>, fault: Option<nat>, cacheFaults: set<nat>)
    returns (awarded: Option<seq<Badge>>)
    requires BadgeModel.UniqueBadges(db.badges)
    modifies db`badges, cache
    ensures BadgeModel.UniqueBadges(db.badges)
    ensures fault.None? ==> awarded.Some?
    ensures var all := AwardSequence(db.userStats, old(db.badges), ids);
      && (awarded.Some? ==> awarded.value == all && db.badges == old(db.badges) + all)
      && (awarded.None? ==> |old(db.badges)| <= |db.badges| && db.badges[..|old(db.badges)|] == old(db.badges)
                            && db.badges[|old(db.badges)|..] <= all)
    ensures awarded.None? ==> cache.store == old(cache.store)
    ensures awarded.Some? ==> cache.store == old(cache.store) - PurgedKeys(old(cache.store), ids, cacheFaults)
  {
    var held := db.badges;
    AwardSequenceUnique(db.userStats, held, ids);
    awarded := AwardAll(db, ids, fault);
    if awarded.None? {
      assert db.badges == held + db.badges[|held|..];
      PrefixUnique(db.badges, held + AwardSequence(db.userStats, held, ids));
      return;
    }
    InvalidateCaches(cache, ids, cacheFaults);
  }

  /**
   * `createSession`. A query that throws before COMMIT returns 500 and leaves every
   * table and the cache as they were; after COMMIT the session is stored whatever
   * happens next, and a throwing badge check returns 500 without touching the cache.
   */
  method CreateSession<V>(db: Database, cache: Redis.Cache<V>, req: SessionRequest, creator: int,
                          fault: Option<nat>, cacheFaults: set<nat>)
    returns (resp: SessionResponse)
    requires StatsService.TableValid(db.userStats)
    requires BadgeModel.UniqueBadges(db.badges)
    modifies db`sessions, db`participations, db`userStats, db`sessionSeq, db`participationSeq, db`badges, cache
    ensures StatsService.TableValid(db.userStats) && BadgeModel.UniqueBadges(db.badges)
    ensures fault.None? ==> resp.Recorded?
    ensures resp.RecordFailed? ==> cache.store == old(cache.store)
    ensures !NoFaultBefore(fault, CommitIndex(|req.participants|) + 1) ==>
      && resp == RecordFailed
      && db.sessions == old(db.sessions)
      && db.participations == old(db.participations)
      && db.userStats == old(db.userStats)
      && db.badges == old(db.badges)
    ensures NoFaultBefore(fault, CommitIndex(|req.participants|) + 1) ==>
      && StatsService.PlaysNonNegative(old(db.userStats))
      && db.sessions == old(db.sessions) + [SessionRow(old(db.sessionSeq) + 1, req, creator)]
      && db.participations == old(db.participations) +
           ParticipationRows(old(db.sessionSeq) + 1, old(db.participationSeq), req.participants)
      && db.userStats == ApplyAll(old(db.userStats), req.gameId, req.participants, req.duration)
      && |old(db.badges)| <= |db.badges| && db.badges[..|old(db.badges)|] == old(db.badges)
      && db.badges[|old(db.badges)|..] <= AwardSequence(db.userStats, old(db.badges), UserIds(req.participants))
    ensures resp.Recorded? ==>
      && resp.session == SessionRow(old(db.sessionSeq) + 1, req, creator)
      && resp.participations == ParticipationRows(resp.session.id, old(db.participationSeq), req.participants)
      && resp.newBadges == AwardSequence(db.userStats, old(db.badges), UserIds(req.participants))
      && db.badges == old(db.badges) + resp.newBadges
      && cache.store == old(cache.store) - PurgedKeys(old(cache.store), UserIds(req.participants), cacheFaults)
  {
    var committed, session, parts := RecordTransaction(db, req, creator, fault);
    if !committed {
      // ROLLBACK; 500
      return RecordFailed;
    }
    var awarded := AfterCommit(db, cache, UserIds(req.participants), Shift(fault, CommitIndex(|req.participants|) + 1), cacheFaults);
    if awarded.None? {
      // the catch: ROLLBACK has nothing left to undo; 500
      return RecordFailed;
    }
    resp := Recorded(session, parts, awarded.value);
  }
}
