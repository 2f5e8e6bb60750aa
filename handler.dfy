/**
 * The queue in front of the store and the weekly digest (src/RecipeHandler.py).
 * Recipes wait in a list until `manage_queue` pops them into the database;
 * once a week the past week's recipes are ranked by karma and written out.
 */
module RecipeHandling {
  import opened Seqs
  import opened Strings
  import opened Recipes
  import opened DatabaseUtil

  const DayInSeconds: int := 86400
  /** Eight days: the digest's label reaches back as far as the query window does. */
  const WeekInSeconds: int := 604800 + DayInSeconds

  // ---------------------------------------------------------------------------
  // Ranking: `recipes.sort(key=karma, reverse=True)`

  /** Karma never increases from one recipe to the next. */
  predicate SortedByKarmaDesc(rs: seq<Recipe>)
  {
    forall i, j :: 0 <= i < j < |rs| ==> rs[i].karma >= rs[j].karma
  }

  /** `x` placed right after every recipe whose karma is at least its own. */
  function InsertByKarma(sorted: seq<Recipe>, x: Recipe): (r: seq<Recipe>)
    ensures multiset(r) == multiset(sorted) + multiset{x}
    ensures |r| == |sorted| + 1
    decreases |sorted|
  {
    if sorted == [] then [x]
    else if sorted[0].karma < x.karma then [x] + sorted
    else
      assert sorted == [sorted[0]] + sorted[1..];
      [sorted[0]] + InsertByKarma(sorted[1..], x)
  }

  /**
   * Python's stable sort by descending karma: each recipe, in list order,
   * goes after the ones already placed with karma at least its own.
   */
  function SortByKarmaDesc(rs: seq<Recipe>): (sorted: seq<Recipe>)
    ensures multiset(sorted) == multiset(rs)
    decreases |rs|
  {
    if rs == [] then []
    else
      assert rs == rs[..|rs| - 1] + [rs[|rs| - 1]];
      InsertByKarma(SortByKarmaDesc(rs[..|rs| - 1]), rs[|rs| - 1])
  }

  lemma {:induction false} InsertByKarmaSorted(sorted: seq<Recipe>, x: Recipe)
    requires SortedByKarmaDesc(sorted)
    ensures SortedByKarmaDesc(InsertByKarma(sorted, x))
    ensures InsertByKarma(sorted, x)[0] == x || InsertByKarma(sorted, x)[0] == sorted[0]
    decreases |sorted|
  {
    if sorted == [] {
    } else if sorted[0].karma < x.karma {
      SortedCons(x, sorted);
    } else {
      var tail := sorted[1..];
      SortedTail(sorted);
      InsertByKarmaSorted(tail, x);
      SortedCons(sorted[0], InsertByKarma(tail, x));
    }
  }

  /** A recipe with karma at least that of the head of a ranking extends it at the front. */
  lemma SortedCons(y: Recipe, rest: seq<Recipe>)
    requires SortedByKarmaDesc(rest)
    requires rest != [] ==> y.karma >= rest[0].karma
    ensures SortedByKarmaDesc([y] + rest)
  {
    var r := [y] + rest;
    forall i, j | 0 <= i < j < |r| ensures r[i].karma >= r[j].karma {
      assert r[j] == rest[j - 1];
      if i > 0 {
        assert r[i] == rest[i - 1];
      }
    }
  }

  /** The ranking puts the highest karma first. */
  lemma {:induction false} SortByKarmaDescSorted(rs: seq<Recipe>)
    ensures SortedByKarmaDesc(SortByKarmaDesc(rs))
    decreases |rs|
  {
    if rs != [] {
      SortByKarmaDescSorted(rs[..|rs| - 1]);
      InsertByKarmaSorted(SortByKarmaDesc(rs[..|rs| - 1]), rs[|rs| - 1]);
    }
  }

  /** The recipes with karma `k`, in list order. */
  function WithKarma(rs: seq<Recipe>, k: int): seq<Recipe>
    decreases |rs|
  {
    if rs == [] then []
    else (if rs[0].karma == k then [rs[0]] else []) + WithKarma(rs[1..], k)
  }

  lemma {:induction false} WithKarmaAppend(a: seq<Recipe>, b: seq<Recipe>, k: int)
    ensures WithKarma(a + b, k) == WithKarma(a, k) + WithKarma(b, k)
    decreases |a|
  {
    if a == [] {
      assert a + b == b;
    } else {
      var head := if a[0].karma == k then [a[0]] else [];
      assert (a + b)[0] == a[0] && (a + b)[1..] == a[1..] + b;
      assert WithKarma(a + b, k) == head + WithKarma(a[1..] + b, k);
      WithKarmaAppend(a[1..], b, k);
      assert WithKarma(a, k) == head + WithKarma(a[1..], k);
    }
  }

  lemma {:induction false} WithKarmaNone(rs: seq<Recipe>, k: int)
    requires forall i :: 0 <= i < |rs| ==> rs[i].karma < k
    ensures WithKarma(rs, k) == []
    decreases |rs|
  {
    if rs != [] {
      WithKarmaNone(rs[1..], k);
    }
  }

  /** Placing `x` keeps every run of equal karma in order, `x` last in its own. */
  lemma {:induction false} InsertByKarmaStable(sorted: seq<Recipe>, x: Recipe, k: int)
    requires SortedByKarmaDesc(sorted)
    ensures WithKarma(InsertByKarma(sorted, x), k) == WithKarma(sorted, k) + (if x.karma == k then [x] else [])
    decreases |sorted|
  {
    if sorted == [] {
      assert WithKarma([x], k) == (if x.karma == k then [x] else []) + WithKarma([], k);
    } else if sorted[0].karma < x.karma {
      assert ([x] + sorted)[0] == x && ([x] + sorted)[1..] == sorted;
      if x.karma == k {
        forall i | 0 <= i < |sorted| ensures sorted[i].karma < k {
          if i > 0 {
            assert sorted[0].karma >= sorted[i].karma;
          }
        }
        WithKarmaNone(sorted, k);
      }
    } else {
      var tail := sorted[1..];
      SortedTail(sorted);
      InsertByKarmaStable(tail, x, k);
      var ins := InsertByKarma(tail, x);
      assert ([sorted[0]] + ins)[0] == sorted[0] && ([sorted[0]] + ins)[1..] == ins;
    }
  }

  /** Dropping the head of a ranking leaves a ranking. */
  lemma SortedTail(sorted: seq<Recipe>)
    requires SortedByKarmaDesc(sorted) && sorted != []
    ensures SortedByKarmaDesc(sorted[1..])
  {
    var tail := sorted[1..];
    forall i, j | 0 <= i < j < |tail| ensures tail[i].karma >= tail[j].karma {
      assert tail[i] == sorted[i + 1] && tail[j] == sorted[j + 1];
    }
  }

  /** The sort is stable: recipes of equal karma keep their store order. */
  lemma {:induction false} SortByKarmaDescStable(rs: seq<Recipe>, k: int)
    ensures WithKarma(SortByKarmaDesc(rs), k) == WithKarma(rs, k)
    decreases |rs|
  {
    if rs != [] {
      var front := rs[..|rs| - 1];
      var last := rs[|rs| - 1];
      assert rs == front + [last];
      var extra := if last.karma == k then [last] else [];
      SortByKarmaDescStable(front, k);
      SortByKarmaDescSorted(front);
      InsertByKarmaStable(SortByKarmaDesc(front), last, k);
      assert SortByKarmaDesc(rs) == InsertByKarma(SortByKarmaDesc(front), last);
      WithKarmaAppend(front, [last], k);
      assert WithKarma([last], k) == extra + WithKarma([], k);
    }
  }

  // ---------------------------------------------------------------------------
  // The digest document

  /** The separator written after every recipe: a newline, 124 dashes, two newlines. */
  const Endline: string := "\n" + Repeat('-', 124) + "\n\n"

  /** What one pass of the writing loop writes: the recipe's `str`, then the separator. */
  function Entries(recipes: seq<Recipe>): (es: seq<string>)
    ensures |es| == |recipes|
    ensures forall k :: 0 <= k < |recipes| ==> es[k] == Render(recipes[k]) + Endline
  {
    seq(|recipes|, k requires 0 <= k < |recipes| => Render(recipes[k]) + Endline)
  }

  /** The document text: every recipe's entry, in order. */
  function Digest(recipes: seq<Recipe>): string
  {
    Concat(Entries(recipes))
  }

  /** The separator is 127 characters: the dashes between a newline and a blank line. */
  lemma EndlineShape()
    ensures |Endline| == 127
    ensures Endline[0] == '\n' && Endline[125] == '\n' && Endline[126] == '\n'
    ensures forall k :: 1 <= k <= 124 ==> Endline[k] == '-'
  {
  }

  /** The digest of two lists of recipes is the first digest followed by the second. */
  lemma DigestAppend(a: seq<Recipe>, b: seq<Recipe>)
    ensures Digest(a + b) == Digest(a) + Digest(b)
  {
    assert Entries(a + b) == Entries(a) + Entries(b);
    ConcatAppend(Entries(a), Entries(b));
  }

  /** One recipe's digest is its entry. */
  lemma DigestOne(r: Recipe)
    ensures Digest([r]) == Render(r) + Endline
  {
    var es := Entries([r]);
    assert es == [Render(r) + Endline];
    assert es[..0] == [];
    assert Concat(es) == Concat(es[..0]) + es[0];
  }

  /** Extending a prefix by one recipe extends its digest by that recipe's entry. */
  lemma DigestStep(recipes: seq<Recipe>, i: nat)
    requires i < |recipes|
    ensures Digest(recipes[..i + 1]) == Digest(recipes[..i]) + Render(recipes[i]) + Endline
  {
    assert recipes[..i + 1] == recipes[..i] + [recipes[i]];
    DigestAppend(recipes[..i], [recipes[i]]);
    DigestOne(recipes[i]);
  }

  /** Each recipe takes its text and one separator; the digest is never shorter. */
  lemma {:induction false} DigestLength(recipes: seq<Recipe>)
    ensures |Digest(recipes)| >= 127 * |recipes|
    decreases |recipes|
  {
    EndlineShape();
    if recipes != [] {
      var front := recipes[..|recipes| - 1];
      var last := recipes[|recipes| - 1];
      assert recipes == front + [last];
      DigestLength(front);
      DigestAppend(front, [last]);
      DigestOne(last);
    }
  }

  /** The ranked list of the week at `now`: stored order, then stable by karma. */
  function WeeklyRanking(t: Table, now: int): seq<Recipe>
  {
    SortByKarmaDesc(Select(t, LastWeek(now)))
  }

  /**
   * The weekly ranking holds exactly the week's recipes, highest karma
   * first, each created inside the window the label names.
   */
  lemma WeeklyRankingFacts(t: Table, now: int)
    requires Consistent(t)
    ensures SortedByKarmaDesc(WeeklyRanking(t, now))
    ensures multiset(WeeklyRanking(t, now)) == multiset(Select(t, LastWeek(now)))
    ensures forall r :: r in WeeklyRanking(t, now) ==>
      r.id in t.rows && now - WeekInSeconds <= r.time <= now - DayInSeconds
  {
    var week := Select(t, LastWeek(now));
    SortByKarmaDescSorted(week);
    forall r | r in WeeklyRanking(t, now)
      ensures r.id in t.rows && now - WeekInSeconds <= r.time <= now - DayInSeconds
    {
      assert r in multiset(week);
      SelectMembership(t, LastWeek(now), r);
    }
  }

  // ---------------------------------------------------------------------------
  // The handler object

  /** `RecipeHandler`: the waiting list and the database it feeds. */
  class RecipeHandler {
    var recipeList: seq<Recipe>
    const db: Database

    /** The store is consistent and, between calls, nothing is waiting. */
    ghost predicate Valid()
      reads this, db
    {
      db.Valid() && recipeList == []
    }

    /** A fresh handler: nothing waiting, the store as earlier runs left it. */
    constructor (existing: Table)
      requires Consistent(existing)
      ensures Valid() && fresh(db)
      ensures recipeList == [] && db.store == existing
    {
      recipeList := [];
      db := new Database(existing);
    }

    /** `manage_queue`: pop recipes off the end of the list into the database until it is empty. */
    method ManageQueue()
      requires db.Valid()
      modifies this, db
      ensures Valid()
      ensures db.store == InsertAll(old(db.store), Reversed(old(recipeList)))
    {
      while |recipeList| > 0
        invariant db.Valid()
        invariant InsertAll(db.store, Reversed(recipeList)) == InsertAll(old(db.store), Reversed(old(recipeList)))
        decreases |recipeList|
      {
        var recipe := recipeList[|recipeList| - 1];
        recipeList := recipeList[..|recipeList| - 1];
        db.Add(recipe);
      }
    }

    /**
     * `add`: queue the recipe and empty the queue. Nothing is waiting between
     * calls, so this is exactly one `Database.add`.
     */
    method Add(recipe: Recipe)
      requires Valid()
      modifies this, db
      ensures Valid()
      ensures db.store == Insert(old(db.store), recipe)
    {
      recipeList := recipeList + [recipe];
      ManageQueue();
      assert Reversed([recipe]) == [recipe];
      InsertAllOne(old(db.store), recipe);
    }

    /**
     * `post_weekly`: the document of the week's recipes ranked by karma, the
     * upload title naming the first and last day of the window, and the
     * description. `format` stands for `strftime("%D", gmtime(...))`.
     */
    method PostWeekly(now: int, format: int -> string) returns (document: string, uploadTitle: string, description: string)
      ensures document == Digest(WeeklyRanking(db.store, now))
      ensures uploadTitle == format(now - WeekInSeconds) + " - " + format(now - DayInSeconds)
      ensures description == "Top recipes for week of " + format(now - WeekInSeconds)
    {
      var recipes := db.GetLastWeeksRecipes(now);
      recipes := SortByKarmaDesc(recipes);
      document := "";
      assert Entries(recipes[..0]) == [];
      for i := 0 to |recipes|
        invariant document == Digest(recipes[..i])
      {
        DigestStep(recipes, i);
        document := document + Render(recipes[i]) + Endline;
      }
      assert recipes[..|recipes|] == recipes;
      var lastWeek := format(now - WeekInSeconds);
      var yesterday := format(now - DayInSeconds);
      uploadTitle := lastWeek + " - " + yesterday;
      description := "Top recipes for week of " + lastWeek;
    }
  }

  /** The label and the query agree: the title's first day is the window's lower bound. */
  lemma LabelMatchesWindow(now: int)
    ensures LastWeek(now).lo == now - WeekInSeconds
    ensures LastWeek(now).hi == now - DayInSeconds
  {
  }
}
