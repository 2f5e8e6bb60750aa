/**
 * The recipe store (src/DatabaseUtil.py). The sqlite table `Recipes` is a map
 * from `post_id` (its primary key) to a row, together with the order in
 * which the rows were inserted, which is the order a scan returns them in.
 * List-valued fields are stored as one text with ';' between the entries.
 */
module DatabaseUtil {
  import opened Wrappers
  import opened Seqs
  import opened Strings
  import opened Recipes

  /** The query window of `get_last_weeks_recipes`: a day back, then a week further. */
  const DaySeconds: int := 86400
  const WeekSeconds: int := 604800

  // ---------------------------------------------------------------------------
  // get_csv and get_list_from_csv

  /**
   * `get_csv`: the entries joined with ';'. Entries without ';' are stored
   * with exactly one ';' between neighbours, so the count of entries is kept.
   */
  function GetCsv(items: seq<string>): (csv: string)
    ensures CsvSafe(items) ==> multiset(csv)[';'] == if items == [] then 0 else |items| - 1
  {
    assert CsvSafe(items) ==> multiset(Join(items, ';'))[';'] == if items == [] then 0 else |items| - 1 by {
      if CsvSafe(items) {
        JoinSeparatorCount(items, ';');
      }
    }
    Join(items, ';')
  }

  /** `get_list_from_csv`: the text split at every ';'. */
  function GetListFromCsv(csv: string): (items: seq<string>)
    ensures |items| >= 1
    ensures forall k :: 0 <= k < |items| ==> ';' !in items[k]
  {
    Split(csv, ';')
  }

  /** No entry holds the separator. */
  predicate CsvSafe(items: seq<string>)
  {
    forall k :: 0 <= k < |items| ==> ';' !in items[k]
  }

  /** A non-empty list of ';'-free entries survives storage unchanged. */
  lemma CsvRoundTrip(items: seq<string>)
    requires |items| >= 1 && CsvSafe(items)
    ensures GetListFromCsv(GetCsv(items)) == items
  {
    SplitJoin(items, ';');
  }

  /** Every stored text is rebuilt by splitting and joining again. */
  lemma CsvTextRoundTrip(csv: string)
    ensures GetCsv(GetListFromCsv(csv)) == csv
  {
    JoinSplit(csv, ';');
  }

  /** The empty list is stored as "" and comes back as one blank entry. */
  lemma EmptyListComesBackBlank()
    ensures GetCsv([]) == ""
    ensures GetListFromCsv(GetCsv([])) == [""]
  {
  }

  /** An entry that holds ';' comes back as two entries. */
  lemma SemicolonSplitsEntry()
    ensures GetListFromCsv(GetCsv(["salt;pepper"])) == ["salt", "pepper"]
  {
    var parts := ["salt", "pepper"];
    assert Join(parts, ';') == "salt;pepper";
    SplitJoin(parts, ';');
  }

  // ---------------------------------------------------------------------------
  // The table

  /** A row of `Recipes` without its key; list fields hold their csv text. */
  datatype Row = Row(
    author: string,
    karma: int,
    url: string,
    title: string,
    ingredients: string,
    instructions: string,
    recipeType: string,
    time: int)

  /** The rows by `post_id`, and the keys in insertion order. */
  datatype Table = Table(rows: map<string, Row>, order: seq<string>)

  /** The insertion order lists every key exactly once. */
  predicate Consistent(t: Table)
  {
    NoDuplicates(t.order) && (forall id :: id in t.rows ==> id in t.order) &&
    forall k :: 0 <= k < |t.order| ==> t.order[k] in t.rows
  }

  /** The values `add` binds to the INSERT's nine parameters (the key aside). */
  function RowOf(r: Recipe): Row
  {
    Row(r.author, r.karma, r.url, r.title, GetCsv(r.ingredients), GetCsv(r.instructions), r.recipeType, r.time)
  }

  /** The recipe a query builds from a fetched row. */
  function ToRecipe(id: string, row: Row): (r: Recipe)
    ensures r.id == id && r.author == row.author && r.karma == row.karma && r.time == row.time
    ensures r.url == row.url && r.title == row.title && r.recipeType == row.recipeType
    ensures r.ingredients == GetListFromCsv(row.ingredients)
    ensures r.instructions == GetListFromCsv(row.instructions)
  {
    NewRecipe(PostInfo(row.author, row.karma, row.time, id, row.url),
              RefinedPost(row.title, GetListFromCsv(row.ingredients), GetListFromCsv(row.instructions), row.recipeType))
  }

  /**
   * `add`: insert the recipe's row under its id. A second insert with an id
   * already present violates the primary key; the error is caught and the
   * table stays as it was.
   */
  function Insert(t: Table, r: Recipe): (t': Table)
    ensures t'.rows.Keys == t.rows.Keys + {r.id}
    ensures forall id :: id in t.rows ==> t'.rows[id] == t.rows[id]
    ensures r.id in t.rows ==> t' == t
    ensures r.id !in t.rows ==> t'.rows[r.id] == RowOf(r) && t'.order == t.order + [r.id]
  {
    if r.id in t.rows then t else Table(t.rows[r.id := RowOf(r)], t.order + [r.id])
  }

  /** Recipes added one after the other, first to last. */
  function InsertAll(t: Table, rs: seq<Recipe>): Table
    decreases |rs|
  {
    if rs == [] then t else InsertAll(Insert(t, rs[0]), rs[1..])
  }

  /** Adding a list of one recipe is adding that recipe. */
  lemma InsertAllOne(t: Table, r: Recipe)
    ensures InsertAll(t, [r]) == Insert(t, r)
  {
    assert [r][1..] == [];
  }

  /** `add` keeps the table consistent. */
  lemma InsertKeepsConsistent(t: Table, r: Recipe)
    requires Consistent(t)
    ensures Consistent(Insert(t, r))
  {
    if r.id !in t.rows {
      var o := t.order + [r.id];
      forall i, j | 0 <= i < j < |o| ensures o[i] != o[j] {
        if j == |o| - 1 {
          assert o[i] == t.order[i];
        }
      }
    }
  }

  /** A new id adds exactly one row; a known id leaves the table as it was. */
  lemma InsertCount(t: Table, r: Recipe)
    requires Consistent(t)
    ensures r.id in t.rows ==> Insert(t, r) == t
    ensures r.id !in t.rows ==> |Insert(t, r).order| == |t.order| + 1 && |Insert(t, r).rows| == |t.rows| + 1
  {
  }

  /** Adding a list is adding its parts in turn. */
  lemma {:induction false} InsertAllAppend(t: Table, a: seq<Recipe>, b: seq<Recipe>)
    ensures InsertAll(t, a + b) == InsertAll(InsertAll(t, a), b)
    decreases |a|
  {
    if a == [] {
      assert a + b == b;
    } else {
      assert (a + b)[0] == a[0];
      assert (a + b)[1..] == a[1..] + b;
      InsertAllAppend(Insert(t, a[0]), a[1..], b);
    }
  }

  /** Adding a list keeps the table consistent. */
  lemma {:induction false} InsertAllKeepsConsistent(t: Table, rs: seq<Recipe>)
    requires Consistent(t)
    ensures Consistent(InsertAll(t, rs))
    decreases |rs|
  {
    if rs != [] {
      InsertKeepsConsistent(t, rs[0]);
      InsertAllKeepsConsistent(Insert(t, rs[0]), rs[1..]);
    }
  }

  /** After a sequence of inserts, every row was stored before and is untouched, or is the row of a recipe added under its id. */
  lemma {:induction false} InsertAllRows(t: Table, rs: seq<Recipe>, id: string)
    requires id in InsertAll(t, rs).rows
    ensures (id in t.rows && InsertAll(t, rs).rows[id] == t.rows[id]) ||
            exists r :: r in rs && r.id == id && InsertAll(t, rs).rows[id] == RowOf(r)
    decreases |rs|
  {
    if rs != [] {
      var next := Insert(t, rs[0]);
      assert InsertAll(t, rs) == InsertAll(next, rs[1..]);
      InsertAllRows(next, rs[1..], id);
      if id in next.rows && InsertAll(next, rs[1..]).rows[id] == next.rows[id] {
        assert rs[0] in rs;
      } else {
        var r :| r in rs[1..] && r.id == id && InsertAll(next, rs[1..]).rows[id] == RowOf(r);
        assert r in rs;
      }
    }
  }

  // ---------------------------------------------------------------------------
  // Queries

  /** The WHERE clauses the store uses. BETWEEN includes both of its bounds. */
  datatype Query = TimeBetween(lo: int, hi: int) | AuthorIs(author: string)

  predicate Matches(row: Row, q: Query)
  {
    match q
    case TimeBetween(lo, hi) => lo <= row.time <= hi
    case AuthorIs(a) => row.author == a
  }

  /** The window of `get_last_weeks_recipes` at time `now`: from 8 days back to 1 day back. */
  function LastWeek(now: int): (q: Query)
    ensures q.TimeBetween? && q.hi == now - DaySeconds && q.hi - q.lo == WeekSeconds
  {
    var yesterday := now - DaySeconds;
    TimeBetween(yesterday - WeekSeconds, yesterday)
  }

  /** BETWEEN is inclusive: a recipe created exactly 8 days or exactly 1 day before `now` is in the window. */
  lemma WindowIncludesBothEnds(now: int, row: Row)
    requires row.time == now - DaySeconds || row.time == now - DaySeconds - WeekSeconds
    ensures Matches(row, LastWeek(now))
  {
  }

  /**
   * `fetchall()` of a SELECT: the matching rows with their keys, scanning
   * `ids` from first to last.
   */
  function Fetch(rows: map<string, Row>, ids: seq<string>, q: Query): (fetched: seq<(string, Row)>)
    ensures forall k :: 0 <= k < |fetched| ==>
      fetched[k].0 in ids && fetched[k].0 in rows && fetched[k].1 == rows[fetched[k].0] && Matches(fetched[k].1, q)
    ensures forall id :: id in ids && id in rows && Matches(rows[id], q) ==> (id, rows[id]) in fetched
    decreases |ids|
  {
    if ids == [] then []
    else
      var front := ids[..|ids| - 1];
      var id := ids[|ids| - 1];
      assert ids == front + [id];
      Fetch(rows, front, q) + (if id in rows && Matches(rows[id], q) then [(id, rows[id])] else [])
  }

  /** The body of the loops over the fetched rows: each row becomes a recipe. */
  function RowsToRecipes(fetched: seq<(string, Row)>): (rs: seq<Recipe>)
    ensures |rs| == |fetched|
    ensures forall k :: 0 <= k < |rs| ==> rs[k] == ToRecipe(fetched[k].0, fetched[k].1)
    decreases |fetched|
  {
    if fetched == [] then []
    else
      var last := fetched[|fetched| - 1];
      RowsToRecipes(fetched[..|fetched| - 1]) + [ToRecipe(last.0, last.1)]
  }

  /** The recipes a query returns, in insertion order. */
  function Select(t: Table, q: Query): seq<Recipe>
  {
    RowsToRecipes(Fetch(t.rows, t.order, q))
  }

  /** A query returns exactly the stored recipes whose rows match it. */
  lemma SelectMembership(t: Table, q: Query, r: Recipe)
    requires Consistent(t)
    ensures r in Select(t, q) <==> r.id in t.rows && Matches(t.rows[r.id], q) && r == ToRecipe(r.id, t.rows[r.id])
  {
    var f := Fetch(t.rows, t.order, q);
    var rs := Select(t, q);
    if r in rs {
      var k :| 0 <= k < |rs| && rs[k] == r;
      assert rs[k] == ToRecipe(f[k].0, f[k].1);
    }
    if r.id in t.rows && Matches(t.rows[r.id], q) && r == ToRecipe(r.id, t.rows[r.id]) {
      assert (r.id, t.rows[r.id]) in f;
      var k :| 0 <= k < |f| && f[k] == (r.id, t.rows[r.id]);
      assert rs[k] == r;
    }
  }

  /** Rows under a key that is not scanned do not change a scan. */
  lemma {:induction false} FetchIgnoresOtherKeys(rows: map<string, Row>, ids: seq<string>, q: Query, id: string, row: Row)
    requires id !in ids
    ensures Fetch(rows[id := row], ids, q) == Fetch(rows, ids, q)
    decreases |ids|
  {
    if ids != [] {
      FetchIgnoresOtherKeys(rows, ids[..|ids| - 1], q, id, row);
    }
  }

  lemma {:induction false} RowsToRecipesAppend(a: seq<(string, Row)>, b: seq<(string, Row)>)
    ensures RowsToRecipes(a + b) == RowsToRecipes(a) + RowsToRecipes(b)
  {
  }

  /** A newly added recipe comes last in every query it matches; the earlier answers stay. */
  lemma SelectAfterInsert(t: Table, r: Recipe, q: Query)
    requires Consistent(t)
    ensures Select(Insert(t, r), q) ==
      Select(t, q) + (if r.id !in t.rows && Matches(RowOf(r), q) then [ToRecipe(r.id, RowOf(r))] else [])
  {
    if r.id !in t.rows {
      var rows := t.rows[r.id := RowOf(r)];
      var o := t.order + [r.id];
      assert o[..|o| - 1] == t.order;
      FetchIgnoresOtherKeys(t.rows, t.order, q, r.id, RowOf(r));
      var extra := if Matches(RowOf(r), q) then [(r.id, RowOf(r))] else [];
      assert Fetch(rows, o, q) == Fetch(t.rows, t.order, q) + extra;
      RowsToRecipesAppend(Fetch(t.rows, t.order, q), extra);
    }
  }

  /**
   * `deserialize_to_recipe`'s lookup: the recipe under that id, or nothing
   * when `fetchone()` finds no row (the TypeError the source catches).
   */
  function Lookup(t: Table, id: string): (r: Option<Recipe>)
    ensures r.Some? <==> id in t.rows
    ensures r.Some? ==> r.value.id == id
  {
    if id in t.rows then Some(ToRecipe(id, t.rows[id])) else None
  }

  /** A stored recipe with non-empty, ';'-free lists is read back as it was written. */
  lemma LookupAfterInsert(t: Table, r: Recipe)
    requires r.id !in t.rows
    requires |r.ingredients| >= 1 && CsvSafe(r.ingredients)
    requires |r.instructions| >= 1 && CsvSafe(r.instructions)
    ensures Lookup(Insert(t, r), r.id) == Some(r)
  {
    CsvRoundTrip(r.ingredients);
    CsvRoundTrip(r.instructions);
  }

  /** A second recipe under a known id never replaces the first one. */
  lemma LookupKeepsFirst(t: Table, r: Recipe)
    requires r.id in t.rows
    ensures Lookup(Insert(t, r), r.id) == Lookup(t, r.id)
  {
  }

  /** Adding a recipe does not change what is stored under any other id. */
  lemma LookupOthersAfterInsert(t: Table, r: Recipe, id: string)
    requires id != r.id
    ensures Lookup(Insert(t, r), id) == Lookup(t, id)
  {
  }

  /** `'\n'.join` gives the same text for a ';'-free list and for the list read back from the store. */
  lemma JoinAfterCsv(items: seq<string>)
    requires CsvSafe(items)
    ensures Join(GetListFromCsv(GetCsv(items)), '\n') == Join(items, '\n')
  {
    if items != [] {
      CsvRoundTrip(items);
    }
  }

  /**
   * A stored recipe prints as the original did, even with empty lists: the
   * blank entry an empty list comes back as joins to "" like the empty list.
   */
  lemma StoredRecipeRendersSame(r: Recipe)
    requires CsvSafe(r.ingredients) && CsvSafe(r.instructions)
    ensures Render(ToRecipe(r.id, RowOf(r))) == Render(r)
  {
    JoinAfterCsv(r.ingredients);
    JoinAfterCsv(r.instructions);
  }

  // ---------------------------------------------------------------------------
  // The database object

  /** `Database`: the connection to the `Recipes` table, modelled as the table itself. */
  class Database {
    var store: Table

    ghost predicate Valid()
      reads this
    {
      Consistent(store)
    }

    /** Open the store as it was left by earlier runs (`CREATE TABLE IF NOT EXISTS`). */
    constructor (existing: Table)
      requires Consistent(existing)
      ensures Valid() && store == existing
    {
      store := existing;
    }

    /** `add`: insert the recipe; a duplicate id is reported and ignored. */
    method Add(recipe: Recipe)
      requires Valid()
      modifies this
      ensures Valid()
      ensures store == Insert(old(store), recipe)
    {
      InsertKeepsConsistent(store, recipe);
      if recipe.id !in store.rows {
        store := Table(store.rows[recipe.id := RowOf(recipe)], store.order + [recipe.id]);
      }
    }

    /** The loop shared by the queries: build a recipe from every fetched row, in order. */
    method Collect(rows: seq<(string, Row)>) returns (recipeList: seq<Recipe>)
      ensures recipeList == RowsToRecipes(rows)
    {
      recipeList := [];
      for i := 0 to |rows|
        invariant recipeList == RowsToRecipes(rows[..i])
      {
        assert rows[..i + 1][..i] == rows[..i];
        recipeList := recipeList + [ToRecipe(rows[i].0, rows[i].1)];
      }
      assert rows[..|rows|] == rows;
    }

    /** `get_last_weeks_recipes`: the recipes created between 8 days and 1 day before `now`, both ends included. */
    method GetLastWeeksRecipes(now: int) returns (recipeList: seq<Recipe>)
      ensures recipeList == Select(store, LastWeek(now))
      ensures forall k :: 0 <= k < |recipeList| ==>
        now - DaySeconds - WeekSeconds <= recipeList[k].time <= now - DaySeconds
    {
      var yesterday := now - DaySeconds;
      var weekFromYesterday := yesterday - WeekSeconds;
      var rows := Fetch(store.rows, store.order, TimeBetween(weekFromYesterday, yesterday));
      recipeList := Collect(rows);
    }

    /** `get_recipes_from_author`: every recipe stored for that redditor. */
    method GetRecipesFromAuthor(author: string) returns (recipeList: seq<Recipe>)
      ensures recipeList == Select(store, AuthorIs(author))
      ensures forall k :: 0 <= k < |recipeList| ==> recipeList[k].author == author
    {
      var rows := Fetch(store.rows, store.order, AuthorIs(author));
      recipeList := Collect(rows);
    }

    /** `deserialize_to_recipe`: the recipe stored under `recipeId`, or nothing. */
    method DeserializeToRecipe(recipeId: string) returns (recipe: Option<Recipe>)
      ensures recipe == Lookup(store, recipeId)
      ensures recipe.Some? <==> recipeId in store.rows
    {
      if recipeId in store.rows {
        var row := store.rows[recipeId];
        recipe := Some(ToRecipe(recipeId, row));
      } else {
        recipe := None;
      }
    }
  }
}
