/**
 * The participant picker of the session form: user search (results filtered against
 * the participants already added), selection, and the add button that normalises the
 * typed score and rank and resets the picker.
 */
module ParticipantInput {
  import opened Wrappers
  import opened Js
  import Schema

  /** A row of the user search. */
  datatype User = User(id: int, nickname: string, profileImage: Option<string>)

  /** A participant as the form holds it and posts it. */
  datatype Participant = Participant(
    userId: int,
    nickname: string,
    profileImage: Option<string>,
    score: int,
    rank: Option<int>,
    team: string,
    isWinner: bool,
    mvpBadge: string)

  /** The search runs only for a query of at least this many characters. */
  const MinQueryLength: nat := 2

  predicate ShouldSearch(query: string) {
    |query| >= MinQueryLength
  }

  predicate IsAdded(id: int, participants: seq<Participant>) {
    exists j :: 0 <= j < |participants| && participants[j].userId == id
  }

  /** `data.filter(u => !participants.some(p => p.userId === u.id))`. */
  function ExcludeAdded(users: seq<User>, participants: seq<Participant>): (r: seq<User>)
    ensures forall i :: 0 <= i < |r| ==> r[i] in users && !IsAdded(r[i].id, participants)
    ensures |r| <= |users|
  {
    if users == [] then []
    else
      var rest := ExcludeAdded(users[..|users| - 1], participants);
      var last := users[|users| - 1];
      if IsAdded(last.id, participants) then rest else rest + [last]
  }

  /** Every user not yet added is offered. */
  lemma {:induction false} ExcludeAddedComplete(users: seq<User>, participants: seq<Participant>, k: nat)
    requires k < |users| && !IsAdded(users[k].id, participants)
    ensures users[k] in ExcludeAdded(users, participants)
    decreases |users|
  {
    if k < |users| - 1 {
      ExcludeAddedComplete(users[..|users| - 1], participants, k);
    }
  }

  /** Filtering commutes with concatenation, so the offered users keep the search's order. */
  lemma {:induction false} ExcludeAddedAppend(a: seq<User>, b: seq<User>, participants: seq<Participant>)
    ensures ExcludeAdded(a + b, participants) == ExcludeAdded(a, participants) + ExcludeAdded(b, participants)
    decreases |b|
  {
    if b == [] {
      assert a + b == a;
    } else {
      var b' := b[..|b| - 1];
      assert (a + b)[..|a + b| - 1] == a + b';
      assert (a + b)[|a + b| - 1] == b[|b| - 1];
      ExcludeAddedAppend(a, b', participants);
    }
  }

  /**
   * What the backend reads of a posted participant: the normalised score and rank come
   * through `|| 0` and `|| null` unchanged.
   */
  function ToResult(p: Participant): (r: Schema.ParticipantResult)
    ensures r.userId == p.userId && r.isWinner == p.isWinner
    ensures OrZero(r.score) == p.score
    ensures p.rank == OrNull(p.rank) ==> OrNull(r.rank) == p.rank
  {
    Schema.ParticipantResult(p.userId, Some(p.score), p.rank, Some(p.team), p.isWinner, Some(p.mvpBadge))
  }

  class ParticipantInputState {
    var query: string
    var results: seq<User>
    var selectedUser: Option<User>
    var score: string
    var rank: string
    var team: string
    var isWinner: bool
    var mvpBadge: string

    /** The picker's fields other than the query and the results hold their initial values. */
    predicate Cleared()
      reads this
    {
      selectedUser.None? && score == "" && rank == "" && team == "" && !isWinner && mvpBadge == ""
    }

    constructor ()
      ensures query == "" && results == [] && Cleared()
    {
      query, results := "", [];
      selectedUser, score, rank, team, isWinner, mvpBadge := None, "", "", "", false, "";
    }

    /**
     * The debounced search effect for the current query: too short a query clears the
     * results; otherwise the fetched users (`None` when the request fails, which keeps
     * the results) minus those already among `participants`.
     */
    method SearchTick(participants: seq<Participant>, fetched: Option<seq<User>>)
      modifies this`results
      ensures !ShouldSearch(query) ==> results == []
      ensures ShouldSearch(query) && fetched.Some? ==> results == ExcludeAdded(fetched.value, participants)
      ensures ShouldSearch(query) && fetched.None? ==> results == old(results)
    {
      if |query| >= MinQueryLength {
        if fetched.Some? {
          var filtered := ExcludeAdded(fetched.value, participants);
          results := filtered;
        }
      } else {
        results := [];
      }
    }

    /** `handleSelectUser`: the user is selected, the query and the results are cleared. */
    method SelectUser(user: User)
      modifies this`selectedUser, this`query, this`results
      ensures selectedUser == Some(user) && query == "" && results == []
    {
      selectedUser := Some(user);
      query := "";
      results := [];
    }

    /**
     * `handleAdd`: nothing without a selected user; otherwise the participant handed to
     * `onAdd` (score `parseInt(score) || 0`, rank `parseInt(rank) || null`), after which
     * the picker is reset.
     */
    method HandleAdd(parse: string -> Option<int>) returns (added: Option<Participant>)
      modifies this`selectedUser, this`score, this`rank, this`team, this`isWinner, this`mvpBadge
      ensures old(selectedUser).None? ==>
        added.None? && selectedUser == old(selectedUser) && score == old(score) && rank == old(rank)
        && team == old(team) && isWinner == old(isWinner) && mvpBadge == old(mvpBadge)
      ensures old(selectedUser).Some? ==>
        var u := old(selectedUser).value;
        && added == Some(Participant(u.id, u.nickname, u.profileImage, OrZero(parse(old(score))),
                                     OrNull(parse(old(rank))), old(team), old(isWinner), old(mvpBadge)))
        && Cleared()
    {
      if selectedUser.None? {
        return None;
      }
      var u := selectedUser.value;
      added := Some(Participant(u.id, u.nickname, u.profileImage, OrZero(parse(score)), OrNull(parse(rank)), team, isWinner, mvpBadge));
      selectedUser := None;
      score := "";
      rank := "";
      team := "";
      isWinner := false;
      mvpBadge := "";
    }
  }
}
