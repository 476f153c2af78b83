/** The SQL the user model issues for a profile update. */
module UserModel {
  import opened Wrappers
  import opened Strings
  import opened Js
  import opened SqlText

  /** `updateUser(id, userData)`: the shared SET builder on table `users`. */
  method UpdateUser(id: JsValue, userData: seq<(string, JsValue)>) returns (q: Option<Query>)
    ensures q.None? <==> forall i :: 0 <= i < |userData| ==> userData[i].1.Undefined?
    ensures q.Some? ==>
      var d := Defined(userData);
      var n := |d|;
      && q.value.sql == UpdateSql("users", Numbered(Lefts(d)), n + 1)
      && |q.value.values| == n + 1
      && q.value.values[..n] == Values(d)
      && q.value.values[n] == id
  {
    q := BuildUpdate("users", id, userData);
  }

  /** A defined falsy value (`0`, `''`, `null`, `false`) still becomes an assignment. */
  lemma FalsyValuesAssigned(userData: seq<(string, JsValue)>, k: nat)
    requires k < |userData| && !userData[k].1.Undefined? && !Truthy(userData[k].1)
    ensures exists i :: 0 <= i < |Defined(userData)| && Defined(userData)[i] == userData[k]
  {
    var d := Defined(userData);
    assert userData[k] in d;
  }
}
