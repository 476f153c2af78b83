/**
 * The session form: field edits, the participant list (append, remove by user id) and
 * the submit that validates, posts `{ ...formData, participants }` and reports the
 * outcome.
 */
module SessionForm {
  import opened Wrappers
  import opened Js
  import opened ParticipantInput

  /** The `name`, `value`, `type` and `checked` of a change event's target. */
  datatype FieldEvent = FieldEvent(name: string, value: string, inputType: string, checked: bool)

  /** The form's fields before any edit; `now` is the current time as `YYYY-MM-DDTHH:mm`. */
  function InitialForm(now: string): map<string, JsValue> {
    map["gameId" := Str(""), "sessionDate" := Str(now), "duration" := Num(30), "isTeamGame" := Bool(false)]
  }

  /**
   * `handleChange`: the named field takes `checked` for a checkbox and the text `value`
   * otherwise; every other field keeps its value.
   */
  function HandleChange(form: map<string, JsValue>, e: FieldEvent): (r: map<string, JsValue>)
    ensures r.Keys == form.Keys + {e.name}
    ensures e.inputType == "checkbox" ==> r[e.name] == Bool(e.checked)
    ensures e.inputType != "checkbox" ==> r[e.name] == Str(e.value)
    ensures forall k :: k in form && k != e.name ==> r[k] == form[k]
  {
    form[e.name := if e.inputType == "checkbox" then Bool(e.checked) else Str(e.value)]
  }

  /** `[...prev, participant]`. */
  function AddParticipant(ps: seq<Participant>, p: Participant): (r: seq<Participant>)
    ensures |r| == |ps| + 1 && r[..|ps|] == ps && r[|ps|] == p
  {
    ps + [p]
  }

  /** `prev.filter(p => p.userId !== userId)`. */
  function RemoveParticipant(ps: seq<Participant>, userId: int): (r: seq<Participant>)
    ensures forall i :: 0 <= i < |r| ==> r[i].userId != userId && r[i] in ps
    ensures |r| <= |ps|
  {
    if ps == [] then []
    else
      var rest := RemoveParticipant(ps[..|ps| - 1], userId);
      var last := ps[|ps| - 1];
      if last.userId == userId then rest else rest + [last]
  }

  /** Every entry of another user stays. */
  lemma {:induction false} RemoveKeepsOthers(ps: seq<Participant>, userId: int, k: nat)
    requires k < |ps| && ps[k].userId != userId
    ensures ps[k] in RemoveParticipant(ps, userId)
    decreases |ps|
  {
    if k < |ps| - 1 {
      RemoveKeepsOthers(ps[..|ps| - 1], userId, k);
    }
  }

  /** Removal commutes with concatenation, so the remaining entries keep their order. */
  lemma {:induction false} RemoveAppend(a: seq<Participant>, b: seq<Participant>, userId: int)
    ensures RemoveParticipant(a + b, userId) == RemoveParticipant(a, userId) + RemoveParticipant(b, userId)
    decreases |b|
  {
    if b == [] {
      assert a + b == a;
    } else {
      var b' := b[..|b| - 1];
      assert (a + b)[..|a + b| - 1] == a + b';
      assert (a + b)[|a + b| - 1] == b[|b| - 1];
      RemoveAppend(a, b', userId);
    }
  }

  /** Removing the user just added undoes the add and every earlier entry of that user. */
  lemma RemoveAfterAdd(ps: seq<Participant>, p: Participant)
    ensures RemoveParticipant(AddParticipant(ps, p), p.userId) == RemoveParticipant(ps, p.userId)
  {
    assert AddParticipant(ps, p)[..|ps|] == ps;
  }

  /** Removing twice is removing once. */
  lemma {:induction false} RemoveIdempotent(ps: seq<Participant>, userId: int)
    ensures RemoveParticipant(RemoveParticipant(ps, userId), userId) == RemoveParticipant(ps, userId)
    decreases |ps|
  {
    if ps != [] {
      var front := ps[..|ps| - 1];
      RemoveIdempotent(front, userId);
      var rest := RemoveParticipant(front, userId);
      if ps[|ps| - 1].userId != userId {
        assert (rest + [ps[|ps| - 1]])[..|rest|] == rest;
      }
    }
  }

  datatype Toast = ErrorToast(message: string) | SuccessToast(message: string)

  /** The body of `POST /sessions`: the form's fields with `participants` set to the list. */
  datatype Payload = Payload(fields: map<string, JsValue>, participants: seq<Participant>)

  const NoGameMessage := "게임을 선택해주세요."
  const NoParticipantsMessage := "최소 1명의 참여자가 필요합니다."
  const SavedMessage := "플레이 기록이 저장되었습니다!"
  const SaveFailedMessage := "기록 저장에 실패했습니다."
  const AfterSavePath := "/games"

  /** `formData.gameId`, `undefined` when the field is absent. */
  function GameIdOf(form: map<string, JsValue>): JsValue {
    if "gameId" in form then form["gameId"] else Undefined
  }

  class SessionFormState {
    var formData: map<string, JsValue>
    var participants: seq<Participant>
    var loading: bool
    /** The toasts shown, oldest first. */
    var toasts: seq<Toast>
    /** The bodies posted to `/sessions`, oldest first. */
    var posts: seq<Payload>
    /** The route the form navigated to, if any. */
    var location: Option<string>

    constructor (now: string)
      ensures formData == InitialForm(now) && participants == [] && !loading
      ensures toasts == [] && posts == [] && location == None
    {
      formData := InitialForm(now);
      participants := [];
      loading := false;
      toasts, posts, location := [], [], None;
    }

    method Change(e: FieldEvent)
      modifies this`formData
      ensures formData == HandleChange(old(formData), e)
    {
      formData := HandleChange(formData, e);
    }

    method Add(p: Participant)
      modifies this`participants
      ensures participants == AddParticipant(old(participants), p)
    {
      participants := AddParticipant(participants, p);
    }

    method Remove(userId: int)
      modifies this`participants
      ensures participants == RemoveParticipant(old(participants), userId)
    {
      participants := RemoveParticipant(participants, userId);
    }

    /**
     * `handleSubmit`: without a truthy game id, or without participants, one error toast
     * and nothing posted; otherwise one post of the form plus the participants, then a
     * success toast and the games page, or on `postFails` a failure toast; loading ends
     * false either way. The form state itself is not touched.
     */
    method HandleSubmit(postFails: bool)
      modifies this`loading, this`toasts, this`posts, this`location
      ensures !Truthy(GameIdOf(formData)) ==>
        toasts == old(toasts) + [ErrorToast(NoGameMessage)]
        && posts == old(posts) && loading == old(loading) && location == old(location)
      ensures Truthy(GameIdOf(formData)) && participants == [] ==>
        toasts == old(toasts) + [ErrorToast(NoParticipantsMessage)]
        && posts == old(posts) && loading == old(loading) && location == old(location)
      ensures Truthy(GameIdOf(formData)) && participants != [] ==>
        && posts == old(posts) + [Payload(formData - {"participants"}, participants)]
        && !loading
        && (postFails ==> toasts == old(toasts) + [ErrorToast(SaveFailedMessage)] && location == old(location))
        && (!postFails ==> toasts == old(toasts) + [SuccessToast(SavedMessage)] && location == Some(AfterSavePath))
    {
      if !Truthy(GameIdOf(formData)) {
        toasts := toasts + [ErrorToast(NoGameMessage)];
        return;
      }
      if |participants| == 0 {
        toasts := toasts + [ErrorToast(NoParticipantsMessage)];
        return;
      }
      loading := true;
      posts := posts + [Payload(formData - {"participants"}, participants)];
      if postFails {
        toasts := toasts + [ErrorToast(SaveFailedMessage)];
      } else {
        toasts := toasts + [SuccessToast(SavedMessage)];
        location := Some(AfterSavePath);
      }
      loading := false;
    }
  }
}
