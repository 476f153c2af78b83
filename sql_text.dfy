/**
 * Building parameterised SQL text: camelCase keys turned into snake_case columns,
 * `$n` placeholders numbered from 1, and the `UPDATE ... SET` builder shared by the
 * game and user models.
 */
module SqlText {
  import opened Wrappers
  import opened Strings
  import opened Js

  /** SQL text with its positional parameters (`$1` is `values[0]`). */
  datatype Query = Query(sql: string, values: seq<JsValue>)

  predicate IsUpper(c: char) {
    'A' <= c <= 'Z'
  }

  predicate IsLower(c: char) {
    'a' <= c <= 'z'
  }

  function ToLower(c: char): (d: char)
    requires IsUpper(c)
    ensures IsLower(d)
  {
    (c as int + 32) as char
  }

  function ToUpper(c: char): (d: char)
    requires IsLower(c)
    ensures IsUpper(d)
  {
    (c as int - 32) as char
  }

  predicate NoUpper(s: string) {
    forall i :: 0 <= i < |s| ==> !IsUpper(s[i])
  }

  function CountUpper(s: string): nat {
    if s == [] then 0 else (if IsUpper(s[0]) then 1 else 0) + CountUpper(s[1..])
  }

  /**
   * `key.replace(/[A-Z]/g, letter => '_' + letter.toLowerCase())`: every ASCII capital
   * becomes an underscore and its lowercase letter; the column has no capital left and
   * is one character longer per capital.
   */
  function SnakeCase(key: string): (col: string)
    ensures NoUpper(col)
    ensures |col| == |key| + CountUpper(key)
  {
    if key == [] then []
    else (if IsUpper(key[0]) then ['_', ToLower(key[0])] else [key[0]]) + SnakeCase(key[1..])
  }

  /** A key without capitals is its own column name. */
  lemma {:induction false} SnakeCaseKeepsLowercase(key: string)
    requires NoUpper(key)
    ensures SnakeCase(key) == key
  {
    if key != [] {
      assert NoUpper(key[1..]) by {
        forall i | 0 <= i < |key[1..]| ensures !IsUpper(key[1..][i]) {
          assert key[1..][i] == key[i + 1];
        }
      }
      SnakeCaseKeepsLowercase(key[1..]);
      assert key == [key[0]] + key[1..];
    }
  }

  /** Converting a column name again changes nothing. */
  lemma SnakeCaseIdempotent(key: string)
    ensures SnakeCase(SnakeCase(key)) == SnakeCase(key)
  {
    SnakeCaseKeepsLowercase(SnakeCase(key));
  }

  predicate NoUnderscore(s: string) {
    forall i :: 0 <= i < |s| ==> s[i] != '_'
  }

  /** The reverse conversion: `_x` back to `X`. */
  function CamelCase(col: string): string {
    if |col| >= 2 && col[0] == '_' && IsLower(col[1]) then [ToUpper(col[1])] + CamelCase(col[2..])
    else if col == [] then []
    else [col[0]] + CamelCase(col[1..])
  }

  /** For keys without underscores the conversion loses nothing: distinct keys get distinct columns. */
  lemma {:induction false} CamelCaseOfSnakeCase(key: string)
    requires NoUnderscore(key)
    ensures CamelCase(SnakeCase(key)) == key
  {
    if key != [] {
      assert NoUnderscore(key[1..]) by {
        forall i | 0 <= i < |key[1..]| ensures key[1..][i] != '_' {
          assert key[1..][i] == key[i + 1];
        }
      }
      CamelCaseOfSnakeCase(key[1..]);
      var rest := SnakeCase(key[1..]);
      if IsUpper(key[0]) {
        var col := ['_', ToLower(key[0])] + rest;
        assert col[2..] == rest;
      } else {
        var col := [key[0]] + rest;
        assert col[1..] == rest;
      }
      assert key == [key[0]] + key[1..];
    }
  }

  lemma SnakeCaseInjective(a: string, b: string)
    requires NoUnderscore(a) && NoUnderscore(b)
    requires SnakeCase(a) == SnakeCase(b)
    ensures a == b
  {
    CamelCaseOfSnakeCase(a);
    CamelCaseOfSnakeCase(b);
  }

  /** `$n`. */
  function Placeholder(n: nat): string {
    "$" + NatToString(n)
  }

  /** Distinct positions get distinct placeholders. */
  lemma PlaceholderInjective(m: nat, n: nat)
    requires Placeholder(m) == Placeholder(n)
    ensures m == n
  {
    assert Placeholder(m)[1..] == NatToString(m);
    assert Placeholder(n)[1..] == NatToString(n);
    ParseNatToString(m);
    ParseNatToString(n);
  }

  /** Each left-hand side followed by its placeholder, numbered `$1, $2, ...` in order. */
  function Numbered(lefts: seq<string>): seq<string> {
    seq(|lefts|, i requires 0 <= i < |lefts| => lefts[i] + Placeholder(i + 1))
  }

  /** The assignments of `(key, value)` pairs, whose values bind `$1..$n`. */
  function Lefts(pairs: seq<(string, JsValue)>): seq<string> {
    seq(|pairs|, i requires 0 <= i < |pairs| => SnakeCase(pairs[i].0) + " = ")
  }

  function Values(pairs: seq<(string, JsValue)>): seq<JsValue> {
    seq(|pairs|, i requires 0 <= i < |pairs| => pairs[i].1)
  }

  /** The pairs whose value is not `undefined`, in key order; falsy values stay. */
  function Defined(data: seq<(string, JsValue)>): (r: seq<(string, JsValue)>)
    ensures forall p :: p in r <==> p in data && !p.1.Undefined?
    ensures |r| <= |data|
  {
    if data == [] then []
    else
      var rest := Defined(data[..|data| - 1]);
      var last := data[|data| - 1];
      assert data == data[..|data| - 1] + [last];
      if last.1.Undefined? then rest else rest + [last]
  }

  /** Keeping the defined pairs commutes with concatenation, so key order is kept. */
  lemma {:induction false} DefinedAppend(a: seq<(string, JsValue)>, b: seq<(string, JsValue)>)
    ensures Defined(a + b) == Defined(a) + Defined(b)
    decreases |b|
  {
    if b == [] {
      assert a + b == a;
    } else {
      var b' := b[..|b| - 1];
      assert (a + b)[..|a + b| - 1] == a + b';
      assert (a + b)[|a + b| - 1] == b[|b| - 1];
      DefinedAppend(a, b');
    }
  }

  /** No assignment is left exactly when every value is `undefined`. */
  lemma DefinedEmpty(data: seq<(string, JsValue)>)
    ensures Defined(data) == [] <==> forall i :: 0 <= i < |data| ==> data[i].1.Undefined?
  {
    if Defined(data) != [] {
      assert Defined(data)[0] in Defined(data);
    }
    if exists i :: 0 <= i < |data| && !data[i].1.Undefined? {
      var i :| 0 <= i < |data| && !data[i].1.Undefined?;
      assert data[i] in Defined(data);
    }
  }

  lemma DefinedStep(data: seq<(string, JsValue)>, i: nat)
    requires i < |data|
    ensures Defined(data[..i + 1]) == if data[i].1.Undefined? then Defined(data[..i]) else Defined(data[..i]) + [data[i]]
  {
    assert data[..i + 1][..i] == data[..i];
  }

  lemma AppendPair(pairs: seq<(string, JsValue)>, p: (string, JsValue))
    ensures Numbered(Lefts(pairs + [p])) == Numbered(Lefts(pairs)) + [SnakeCase(p.0) + " = " + Placeholder(|pairs| + 1)]
    ensures Values(pairs + [p]) == Values(pairs) + [p.1]
  {
    assert Lefts(pairs + [p]) == Lefts(pairs) + [SnakeCase(p.0) + " = "];
  }

  /**
   * The `Object.keys(data).forEach` loop: one `col = $n` per defined key, in order,
   * with `paramCount` one past the last placeholder used.
   */
  method SetClauses(data: seq<(string, JsValue)>) returns (fields: seq<string>, values: seq<JsValue>, paramCount: nat)
    ensures fields == Numbered(Lefts(Defined(data)))
    ensures values == Values(Defined(data))
    ensures paramCount == |Defined(data)| + 1
  {
    fields, values, paramCount := [], [], 1;
    var i := 0;
    ghost var done: seq<(string, JsValue)> := [];
    while i < |data|
      invariant 0 <= i <= |data|
      invariant done == Defined(data[..i])
      invariant fields == Numbered(Lefts(done))
      invariant values == Values(done)
      invariant paramCount == |done| + 1
    {
      DefinedStep(data, i);
      var (key, value) := data[i];
      if !value.Undefined? {
        AppendPair(done, data[i]);
        var dbCol := SnakeCase(key);
        fields := fields + [dbCol + " = " + Placeholder(paramCount)];
        values := values + [value];
        paramCount := paramCount + 1;
        done := done + [data[i]];
      }
      i := i + 1;
    }
    assert data[..i] == data;
  }

  /** `UPDATE <table> SET <assignments> WHERE id = $<idParam> RETURNING *`. */
  function UpdateSql(table: string, assignments: seq<string>, idParam: nat): string {
    "UPDATE " + table + " SET " + Join(assignments, ", ") + " WHERE id = " + Placeholder(idParam) + " RETURNING *"
  }

  /**
   * The update of `table` with `values` the n defined field
   * values followed by the id; `None` (no query) when no key is defined.
   */
  method BuildUpdate(table: string, id: JsValue, data: seq<(string, JsValue)>) returns (q: Option<Query>)
    ensures q.None? <==> forall i :: 0 <= i < |data| ==> data[i].1.Undefined?
    ensures q.Some? ==>
      var d := Defined(data);
      var n := |d|;
      && q.value.sql == UpdateSql(table, Numbered(Lefts(d)), n + 1)
      && |q.value.values| == n + 1
      && q.value.values[..n] == Values(d)
      && q.value.values[n] == id
  {
    DefinedEmpty(data);
    var fields, values, paramCount := SetClauses(data);
    if |fields| == 0 {
      return None;
    }
    values := values + [id];
    q := Some(Query(UpdateSql(table, fields, paramCount), values));
  }

  /** Every assignment binds `$i` for its own position and names a column without capitals. */
  lemma AssignmentsWellFormed(data: seq<(string, JsValue)>, i: nat)
    requires i < |Defined(data)|
    ensures var d := Defined(data);
      && Numbered(Lefts(d))[i] == SnakeCase(d[i].0) + " = " + Placeholder(i + 1)
      && NoUpper(SnakeCase(d[i].0))
      && d[i] in data && !d[i].1.Undefined?
  {
    var d := Defined(data);
    assert d[i] in d;
  }
}
