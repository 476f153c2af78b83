/**
 * The badge rule engine (`checkAndAwardBadges`): three threshold rules over the user's
 * play and win totals, checked in a fixed order, each guarded by a "not already held"
 * lookup, each awarded badge inserted into the badges table.
 */
module BadgeModel {
  import opened Wrappers
  import opened Schema
  import opened Js

  datatype Metric = Plays | Wins

  /** A badge rule: the badge is earned once the metric reaches the threshold. */
  datatype Rule = Rule(metric: Metric, threshold: int, name: string, icon: string, description: string)

  const AchievementType: string := "achievement"

  const FirstGame: Rule := Rule(Plays, 1, "첫 게임 시작", "\U{1F3B2}", "첫 번째 보드게임을 플레이했습니다.")
  const FirstWin: Rule := Rule(Wins, 1, "첫 승리", "\U{1F451}", "첫 번째 승리를 거두었습니다.")
  const TenWins: Rule := Rule(Wins, 10, "10승 달성", "\U{1F3C6}", "총 10번의 승리를 거두었습니다.")

  /** The rules in the order they are checked. */
  const Rules: seq<Rule> := [FirstGame, FirstWin, TenWins]

  /** The user's `totalPlays` and `totalWins` summed over all games. */
  function Totals(rows: seq<StatsRow>, userId: int): (t: (int, int))
    ensures (forall i :: 0 <= i < |rows| ==> rows[i].userId != userId) ==> t == (0, 0)
  {
    (OrZero(SumForUser(rows, userId, (r: StatsRow) => r.totalPlays)),
     OrZero(SumForUser(rows, userId, (r: StatsRow) => r.wins)))
  }

  predicate Qualifies(rule: Rule, plays: int, wins: int) {
    (if rule.metric == Plays then plays else wins) >= rule.threshold
  }

  /** `hasBadge(name)`: some row of the user carries that badge name. */
  predicate HasBadge(badges: seq<Badge>, userId: int, name: string) {
    exists i :: 0 <= i < |badges| && badges[i].userId == userId && badges[i].badgeName == name
  }

  function MakeBadge(userId: int, rule: Rule): Badge {
    Badge(userId, AchievementType, rule.name, rule.icon, rule.description)
  }

  /** The badge one rule awards against the badges held so far (none or one). */
  function AwardOne(held: seq<Badge>, userId: int, rule: Rule, plays: int, wins: int): seq<Badge> {
    if Qualifies(rule, plays, wins) && !HasBadge(held, userId, rule.name) then [MakeBadge(userId, rule)] else []
  }

  /** The badges the rules award in order, each rule seeing the ones awarded before it. */
  function Awards(rules: seq<Rule>, held: seq<Badge>, userId: int, plays: int, wins: int): (r: seq<Badge>)
    ensures |r| <= |rules|
    ensures forall i :: 0 <= i < |r| ==> r[i].userId == userId && r[i].badgeType == AchievementType
  {
    if rules == [] then []
    else
      var b := AwardOne(held, userId, rules[0], plays, wins);
      b + Awards(rules[1..], held + b, userId, plays, wins)
  }

  /** No (user, badge_name) pair appears twice. */
  predicate UniqueBadges(badges: seq<Badge>) {
    forall i, j :: 0 <= i < j < |badges| ==>
      !(badges[i].userId == badges[j].userId && badges[i].badgeName == badges[j].badgeName)
  }

  lemma HasBadgeAppend(held: seq<Badge>, extra: seq<Badge>, userId: int, name: string)
    ensures HasBadge(held + extra, userId, name) <==>
            HasBadge(held, userId, name) || HasBadge(extra, userId, name)
  {
    if HasBadge(held, userId, name) {
      var i :| 0 <= i < |held| && held[i].userId == userId && held[i].badgeName == name;
      assert (held + extra)[i] == held[i];
    }
    if HasBadge(extra, userId, name) {
      var i :| 0 <= i < |extra| && extra[i].userId == userId && extra[i].badgeName == name;
      assert (held + extra)[|held| + i] == extra[i];
    }
    if HasBadge(held + extra, userId, name) {
      var i :| 0 <= i < |held + extra| && (held + extra)[i].userId == userId && (held + extra)[i].badgeName == name;
      if i >= |held| {
        assert extra[i - |held|] == (held + extra)[i];
      }
    }
  }

  /** Evaluating the rules again right after awarding them awards nothing. */
  lemma {:induction false} AwardsIdempotent(rules: seq<Rule>, held: seq<Badge>, userId: int, plays: int, wins: int)
    ensures Awards(rules, held + Awards(rules, held, userId, plays, wins), userId, plays, wins) == []
  {
    if rules != [] {
      var b := AwardOne(held, userId, rules[0], plays, wins);
      var rest := Awards(rules[1..], held + b, userId, plays, wins);
      var after := held + (b + rest);
      assert after == (held + b) + rest;
      HasBadgeAppend(held, b + rest, userId, rules[0].name);
      HasBadgeAppend(b, rest, userId, rules[0].name);
      if b != [] {
        assert b[0].userId == userId && b[0].badgeName == rules[0].name;
        assert HasBadge(b, userId, rules[0].name);
      }
      assert AwardOne(after, userId, rules[0], plays, wins) == [];
      assert after + [] == after;
      AwardsIdempotent(rules[1..], held + b, userId, plays, wins);
    }
  }

  /** Awarding keeps the (user, badge_name) pairs unique. */
  lemma {:induction false} AwardsKeepUnique(rules: seq<Rule>, held: seq<Badge>, userId: int, plays: int, wins: int)
    requires UniqueBadges(held)
    ensures UniqueBadges(held + Awards(rules, held, userId, plays, wins))
  {
    if rules != [] {
      var b := AwardOne(held, userId, rules[0], plays, wins);
      var rest := Awards(rules[1..], held + b, userId, plays, wins);
      if b != [] {
        assert !HasBadge(held, userId, rules[0].name);
      } else {
        assert held + b == held;
      }
      AwardsKeepUnique(rules[1..], held + b, userId, plays, wins);
      assert held + (b + rest) == (held + b) + rest;
    }
  }

  /** The three rules awarded one after the other. */
  lemma AwardsUnfold(held: seq<Badge>, userId: int, plays: int, wins: int)
    ensures var b1 := AwardOne(held, userId, FirstGame, plays, wins);
      var b2 := AwardOne(held + b1, userId, FirstWin, plays, wins);
      var b3 := AwardOne(held + b1 + b2, userId, TenWins, plays, wins);
      Awards(Rules, held, userId, plays, wins) == b1 + b2 + b3
  {
    var b1 := AwardOne(held, userId, FirstGame, plays, wins);
    var b2 := AwardOne(held + b1, userId, FirstWin, plays, wins);
    var b3 := AwardOne(held + b1 + b2, userId, TenWins, plays, wins);
    assert Rules[1..] == [FirstWin, TenWins];
    assert Rules[1..][1..] == [TenWins];
    assert Awards([TenWins], held + b1 + b2, userId, plays, wins) == b3;
    assert Awards([FirstWin, TenWins], held + b1, userId, plays, wins) == b2 + b3;
  }

  /** The badge a rule awards when `cond` holds, in isolation. */
  function AwardIf(cond: bool, userId: int, rule: Rule): seq<Badge> {
    if cond then [MakeBadge(userId, rule)] else []
  }

  /**
   * With the three rules: the first-game badge is awarded iff totalPlays >= 1 and it
   * is not held, the first-win badge iff totalWins >= 1 and it is not held, the
   * ten-wins badge iff totalWins >= 10 and it is not held, in that order.
   */
  lemma AwardsClosedForm(held: seq<Badge>, userId: int, plays: int, wins: int)
    ensures Awards(Rules, held, userId, plays, wins) ==
      AwardIf(plays >= 1 && !HasBadge(held, userId, FirstGame.name), userId, FirstGame) +
      AwardIf(wins >= 1 && !HasBadge(held, userId, FirstWin.name), userId, FirstWin) +
      AwardIf(wins >= 10 && !HasBadge(held, userId, TenWins.name), userId, TenWins)
  {
    var b1 := AwardOne(held, userId, FirstGame, plays, wins);
    var b2 := AwardOne(held + b1, userId, FirstWin, plays, wins);
    AwardsUnfold(held, userId, plays, wins);
    HasBadgeAppend(held, b1, userId, FirstWin.name);
    HasBadgeAppend(held, b1 + b2, userId, TenWins.name);
    assert held + b1 + b2 == held + (b1 + b2);
    assert !HasBadge(b1, userId, FirstWin.name);
    assert !HasBadge(b1 + b2, userId, TenWins.name);
  }

  /**
   * One guarded award: `hasBadge` is queried only when the threshold is met, and
   * `createBadge` only when the badge is not held. Either query may throw; a thrown
   * query changes nothing.
   */
  method AwardIfEligible(db: Database, userId: int, rule: Rule, plays: int, wins: int, fault: Option<nat>, q: nat)
    returns (created: seq<Badge>, next: nat, failed: bool)
    requires NoFaultBefore(fault, q)
    modifies db`badges
    ensures q <= next <= q + 2
    ensures failed ==> db.badges == old(db.badges) && next > q && Fires(fault, next - 1)
    ensures !failed ==> NoFaultBefore(fault, next)
    ensures !failed ==> created == AwardOne(old(db.badges), userId, rule, plays, wins)
    ensures !failed ==> db.badges == old(db.badges) + created
  {
    created, next, failed := [], q, false;
    if Qualifies(rule, plays, wins) {
      // SELECT * FROM badges WHERE user_id = $1 AND badge_name = $2
      if Fires(fault, next) {
        return [], next + 1, true;
      }
      var held := HasBadge(db.badges, userId, rule.name);
      next := next + 1;
      if !held {
        // INSERT INTO badges (...) RETURNING *
        if Fires(fault, next) {
          return [], next + 1, true;
        }
        var badge := MakeBadge(userId, rule);
        db.badges := db.badges + [badge];
        created := [badge];
        next := next + 1;
      }
    }
  }

  /**
   * The three guarded awards of `checkAndAwardBadges`, issued from query 1 on; a
   * throw ends the call with the badges created before it still in the table.
   */
  method ApplyRules(db: Database, userId: int, plays: int, wins: int, fault: Option<nat>)
    returns (r: Option<seq<Badge>>, used: nat)
    requires NoFaultBefore(fault, 1)
    modifies db`badges
    ensures 1 <= used <= 7
    ensures r.Some? ==> NoFaultBefore(fault, used)
    ensures r.None? ==> Fires(fault, used - 1)
    ensures var b1 := AwardOne(old(db.badges), userId, FirstGame, plays, wins);
      var b2 := AwardOne(old(db.badges) + b1, userId, FirstWin, plays, wins);
      var b3 := AwardOne(old(db.badges) + b1 + b2, userId, TenWins, plays, wins);
      && (r.Some? ==> r.value == b1 + b2 + b3 && db.badges == old(db.badges) + r.value)
      && (r.None? ==> db.badges == old(db.badges) || db.badges == old(db.badges) + b1 || db.badges == old(db.badges) + (b1 + b2))
  {
    var c1, c2, c3: seq<Badge>;
    var failed: bool;
    var q := 1;
    c1, q, failed := AwardIfEligible(db, userId, FirstGame, plays, wins, fault, q);
    if failed {
      return None, q;
    }
    c2, q, failed := AwardIfEligible(db, userId, FirstWin, plays, wins, fault, q);
    if failed {
      return None, q;
    }
    c3, q, failed := AwardIfEligible(db, userId, TenWins, plays, wins, fault, q);
    if failed {
      assert db.badges == old(db.badges) + (c1 + c2);
      return None, q;
    }
    assert db.badges == old(db.badges) + (c1 + c2 + c3);
    r, used := Some(c1 + c2 + c3), q;
  }

  /**
   * `checkAndAwardBadges(userId)`: reads the totals, then applies the three rules in
   * order. `r` is the list of badges created by this call (None when a query threw),
   * `used` the number of queries issued.
   */
  method CheckAndAwardBadges(db: Database, userId: int, fault: Option<nat>) returns (r: Option<seq<Badge>>, used: nat)
    modifies db`badges
    ensures 1 <= used <= 7
    ensures r.Some? ==> NoFaultBefore(fault, used)
    ensures r.None? ==> Fires(fault, used - 1)
    ensures var t := Totals(db.userStats, userId);
      var all := Awards(Rules, old(db.badges), userId, t.0, t.1);
      && (r.Some? ==> r.value == all && db.badges == old(db.badges) + all)
      && (r.None? ==> |old(db.badges)| <= |db.badges| && db.badges[..|old(db.badges)|] == old(db.badges)
                      && db.badges[|old(db.badges)|..] <= all)
  {
    var held := db.badges;
    var t := Totals(db.userStats, userId);
    ghost var all := Awards(Rules, held, userId, t.0, t.1);
    // SELECT SUM(total_plays), SUM(wins) FROM user_stats WHERE user_id = $1
    if Fires(fault, 0) {
      StoppedAfter(held, db.badges, [], all);
      return None, 1;
    }
    AwardsUnfold(held, userId, t.0, t.1);
    ghost var b1 := AwardOne(held, userId, FirstGame, t.0, t.1);
    ghost var b2 := AwardOne(held + b1, userId, FirstWin, t.0, t.1);
    ghost var b3 := AwardOne(held + b1 + b2, userId, TenWins, t.0, t.1);
    assert all == b1 + b2 + b3;
    r, used := ApplyRules(db, userId, t.0, t.1, fault);
    if r.None? {
      if db.badges == held {
        StoppedAfter(held, db.badges, [], all);
      } else if db.badges == held + b1 {
        StoppedAfter(held, db.badges, b1, all);
      } else {
        StoppedAfter(held, db.badges, b1 + b2, all);
      }
    }
  }

  /** The table when a check stops early: what it held plus a prefix of the awards due. */
  lemma StoppedAfter(held: seq<Badge>, cur: seq<Badge>, done: seq<Badge>, all: seq<Badge>)
    requires cur == held + done
    requires done <= all
    ensures |held| <= |cur| && cur[..|held|] == held && cur[|held|..] <= all
  {
    assert cur[|held|..] == done;
  }
}
