/** The SQL the game model issues for listing (with filters) and updating games. */
module GameModel {
  import opened Wrappers
  import opened Strings
  import opened Js
  import opened SqlText

  const ListPrefix := "SELECT * FROM games"
  const ListOrder := " ORDER BY name ASC"
  const WhereKeyword := " WHERE "
  const AndSeparator := " AND "
  const GenreCondition := "genre = "
  const SearchCondition := "name ILIKE "

  /** The filter conditions in the order they are tested, each with its bound value. */
  function GameFilters(genre: Option<string>, search: Option<string>): seq<(string, JsValue)> {
    GenreFilter(genre) + SearchFilter(search)
  }

  function GenreFilter(genre: Option<string>): seq<(string, JsValue)> {
    if TruthyText(genre) then [(GenreCondition, Str(genre.value))] else []
  }

  function SearchFilter(search: Option<string>): seq<(string, JsValue)> {
    if TruthyText(search) then [(SearchCondition, Str("%" + search.value + "%"))] else []
  }

  function FilterLefts(filters: seq<(string, JsValue)>): seq<string> {
    seq(|filters|, i requires 0 <= i < |filters| => filters[i].0)
  }

  lemma AppendFilter(f: seq<(string, JsValue)>, p: (string, JsValue))
    ensures Numbered(FilterLefts(f + [p])) == Numbered(FilterLefts(f)) + [p.0 + Placeholder(|f| + 1)]
    ensures Values(f + [p]) == Values(f) + [p.1]
  {
    assert FilterLefts(f + [p]) == FilterLefts(f) + [p.0];
  }

  /** ` WHERE c1 AND c2`, or nothing when there is no condition. */
  function WhereClause(conditions: seq<string>): string {
    if |conditions| > 0 then WhereKeyword + Join(conditions, AndSeparator) else ""
  }

  /** The listing query's text for the given conditions. */
  function ListSql(conditions: seq<string>): string {
    ListPrefix + WhereClause(conditions) + ListOrder
  }

  /**
   * The listing always selects from `games` and ends with the order by name; it has
   * no WHERE clause exactly when there is no condition.
   */
  lemma ListSqlShape(conditions: seq<string>)
    ensures StartsWith(ListSql(conditions), ListPrefix)
    ensures EndsWith(ListSql(conditions), ListOrder)
    ensures ListSql(conditions) == ListPrefix + ListOrder <==> conditions == []
  {
    var sql := ListSql(conditions);
    assert sql[..|ListPrefix|] == ListPrefix;
    assert sql[|sql| - |ListOrder|..] == ListOrder;
    if conditions != [] {
      assert |sql| > |ListPrefix + ListOrder|;
    }
  }

  /** The numbered conditions of the truthy filters, written out case by case. */
  lemma ConditionsWrittenOut(genre: Option<string>, search: Option<string>)
    ensures Numbered(FilterLefts(GameFilters(genre, search)))
         == (if TruthyText(genre) then [GenreCondition + Placeholder(1)] else [])
            + (if TruthyText(search) then [SearchCondition + Placeholder(if TruthyText(genre) then 2 else 1)] else [])
  {
    if TruthyText(genre) {
      AppendFilter([], (GenreCondition, Str(genre.value)));
    }
    if TruthyText(search) {
      AppendFilter(GenreFilter(genre), (SearchCondition, Str("%" + search.value + "%")));
    }
  }

  /** The values bound by the truthy filters, written out case by case. */
  lemma ValuesWrittenOut(genre: Option<string>, search: Option<string>)
    ensures Values(GameFilters(genre, search))
         == (if TruthyText(genre) then [Str(genre.value)] else [])
            + (if TruthyText(search) then [Str("%" + search.value + "%")] else [])
  {
    if TruthyText(genre) {
      AppendFilter([], (GenreCondition, Str(genre.value)));
    }
    if TruthyText(search) {
      AppendFilter(GenreFilter(genre), (SearchCondition, Str("%" + search.value + "%")));
    }
  }

  /**
   * The condition pushes of `getAllGames`: a condition per truthy filter, its
   * placeholder `$k` numbered by the values pushed so far.
   */
  method PushConditions(genre: Option<string>, search: Option<string>) returns (conditions: seq<string>, values: seq<JsValue>)
    ensures conditions == Numbered(FilterLefts(GameFilters(genre, search)))
    ensures values == Values(GameFilters(genre, search))
  {
    ConditionsWrittenOut(genre, search);
    ValuesWrittenOut(genre, search);
    values := [];
    conditions := [];
    if TruthyText(genre) {
      conditions := conditions + [GenreCondition + Placeholder(|values| + 1)];
      values := values + [Str(genre.value)];
    }
    if TruthyText(search) {
      conditions := conditions + [SearchCondition + Placeholder(|values| + 1)];
      values := values + [Str("%" + search.value + "%")];
    }
  }

  /**
   * `getAllGames({ genre, search })`: the conditions joined by AND after WHERE (no
   * WHERE without a condition), then the order by name; `$k` binds `values[k-1]`.
   */
  method GetAllGames(genre: Option<string>, search: Option<string>) returns (q: Query)
    ensures var f := GameFilters(genre, search);
      && q.sql == ListSql(Numbered(FilterLefts(f)))
      && q.values == Values(f)
  {
    var sql := ListPrefix;
    var conditions, values := PushConditions(genre, search);
    var where := "";
    if |conditions| > 0 {
      where := WhereKeyword + Join(conditions, AndSeparator);
      sql := sql + where;
    }
    assert sql == ListPrefix + WhereClause(conditions);
    sql := sql + ListOrder;
    q := Query(sql, values);
  }

  /**
   * The bound values: none exactly when no filter is truthy, the genre first and the
   * search last, wrapped in `%...%` for ILIKE.
   */
  lemma FilterValues(genre: Option<string>, search: Option<string>)
    ensures var values := Values(GameFilters(genre, search));
      && (values == [] <==> !TruthyText(genre) && !TruthyText(search))
      && |values| <= 2
      && (TruthyText(genre) ==> values[0] == Str(genre.value))
      && (TruthyText(search) ==> values[|values| - 1] == Str("%" + search.value + "%"))
  {
    var f := GameFilters(genre, search);
    assert |Values(f)| == |f|;
  }

  /** With no truthy filter the listing is the plain ordered select with no parameter. */
  lemma UnfilteredListing(genre: Option<string>, search: Option<string>)
    requires !TruthyText(genre) && !TruthyText(search)
    ensures ListSql(Numbered(FilterLefts(GameFilters(genre, search)))) == ListPrefix + ListOrder
  {
    ListSqlShape(Numbered(FilterLefts(GameFilters(genre, search))));
  }

  /** `updateGame(id, gameData)`: the shared SET builder on table `games`. */
  method UpdateGame(id: JsValue, gameData: seq<(string, JsValue)>) returns (q: Option<Query>)
    ensures q.None? <==> forall i :: 0 <= i < |gameData| ==> gameData[i].1.Undefined?
    ensures q.Some? ==>
      var d := Defined(gameData);
      var n := |d|;
      && q.value.sql == UpdateSql("games", Numbered(Lefts(d)), n + 1)
      && |q.value.values| == n + 1
      && q.value.values[..n] == Values(d)
      && q.value.values[n] == id
  {
    q := BuildUpdate("games", id, gameData);
  }
}
