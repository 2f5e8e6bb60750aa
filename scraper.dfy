/**
 * The poll loop (src/Scraper.py): walk the hot submissions, check every
 * submission that is new and more than a day old together with its whole
 * comment thread, hand each recipe found to the handler, and record the
 * submission's id in the ledger of checked submissions.
 */
module Scraper {
  import opened Wrappers
  import opened Seqs
  import opened Strings
  import opened Feed
  import opened Recipes
  import opened Analyzer
  import opened DatabaseUtil
  import opened RecipeHandling

  /** `DAY_SECONDS`: a submission is checked only once it is older than this. */
  const MinimumAge: int := 24 * 3600

  // ---------------------------------------------------------------------------
  // check_post

  /**
   * How `check_post` ends: the post is not a recipe; reading `author.name`
   * of a deleted account raised AttributeError; or a recipe was handed on.
   */
  datatype Check = NotARecipe | AttributeError | Accepted(recipe: Recipe)

  /**
   * The text the meal type is voted on. As written, `get_all_text` returns
   * the cleaned empty text; as its documentation describes it, it returns
   * the cleaned text of the whole thread.
   */
  datatype TypeText = AsWritten | AsDocumented

  /** The text `get_all_text` yields for any post of thread `s`. */
  function VotedText(source: TypeText, s: Submission): string
  {
    match source
    case AsWritten => CleanUp("")
    case AsDocumented => ThreadText(s)
  }

  /** As written, the voted text is empty whatever the thread, so it is typed "All meals!". */
  lemma AsWrittenVotesAllMeals(s: Submission)
    ensures VotedText(AsWritten, s) == ""
    ensures MealType(VotedText(AsWritten, s)) == AllMeals
  {
    EmptyTextIsAllMeals();
  }

  /**
   * `check_post` on one post. Detection runs on the cleaned text, extraction
   * on the raw text, and the type is voted on the text `source` names.
   */
  function Checked(post: Post, titles: seq<string>, ratio: (string, string) -> int, source: TypeText): (c: Check)
    requires |titles| > 0
    ensures c.Accepted? ==> c.recipe.id == post.Id() && c.recipe.title in titles
  {
    if !IsRecipe(CleanUp(post.Content())) then NotARecipe
    else if post.Author().None? then AttributeError
    else
      var info := PostInfo(post.Author().value, post.Score(), post.Created(), post.Id(), post.Url());
      var refined := RefinedPost(BestTitle(titles, post, ratio), Ingredients(post.Content()),
                                 Instructions(post.Content()), MealType(VotedText(source, post.Thread())));
      Accepted(NewRecipe(info, refined))
  }

  /** The recipes a check hands to the handler: none or one. */
  function Yield(c: Check): (rs: seq<Recipe>)
    ensures |rs| <= 1
    ensures c.Accepted? ==> rs == [c.recipe]
    ensures !c.Accepted? ==> rs == []
  {
    if c.Accepted? then [c.recipe] else []
  }

  /**
   * A post yields a recipe exactly when its cleaned text passes detection and
   * it has an author; the recipe then carries the post's fields, a catalog
   * title, both sections read from the raw text (each found after its
   * marker), and the type voted on its thread's text.
   */
  lemma AcceptedRecipe(post: Post, titles: seq<string>, ratio: (string, string) -> int, source: TypeText)
    requires |titles| > 0
    ensures Checked(post, titles, ratio, source).Accepted? <==> IsRecipe(CleanUp(post.Content())) && post.Author().Some?
    ensures Checked(post, titles, ratio, source).Accepted? ==>
      var r := Checked(post, titles, ratio, source).recipe;
      var lines := Lines(post.Content());
      Some(r.author) == post.Author() && r.karma == post.Score() && r.time == post.Created() &&
      r.id == post.Id() && r.url == post.Url() && r.title in titles &&
      r.ingredients == Ingredients(post.Content()) && r.instructions == Instructions(post.Content()) &&
      r.recipeType == MealType(VotedText(source, post.Thread())) &&
      FirstMarker(lines, IngredientsTerms) < |lines| && FirstMarker(lines, InstructionsTerms) < |lines|
  {
    DetectionMatchesExtraction(post.Content());
    BestTitleIsBest(titles, post, ratio);
  }

  // ---------------------------------------------------------------------------
  // get_all_text

  /** Each comment's body on a line of its own, in thread order. */
  function CommentTexts(comments: seq<Comment>): (texts: seq<string>)
    ensures |texts| == |comments|
    ensures forall k :: 0 <= k < |comments| ==> texts[k] == comments[k].body + "\n"
  {
    seq(|comments|, k requires 0 <= k < |comments| => comments[k].body + "\n")
  }

  /**
   * The text `get_all_text` is documented to return: the thread's title,
   * its text and every comment's body, one per line, cleaned.
   */
  function ThreadText(s: Submission): string
  {
    CleanUp(s.title + "\n" + s.selftext + "\n" + Concat(CommentTexts(s.comments)))
  }

  /** Each comment's body cleaned, on a line of its own. */
  function CleanedCommentTexts(comments: seq<Comment>): (texts: seq<string>)
    ensures |texts| == |comments|
    ensures forall k :: 0 <= k < |comments| ==> texts[k] == CleanUp(comments[k].body) + "\n"
  {
    seq(|comments|, k requires 0 <= k < |comments| => CleanUp(comments[k].body) + "\n")
  }

  /** Cleaning the joined comment lines cleans each comment on its own. */
  lemma {:induction false} CleanUpCommentTexts(comments: seq<Comment>)
    ensures CleanUp(Concat(CommentTexts(comments))) == Concat(CleanedCommentTexts(comments))
    decreases |comments|
  {
    if comments != [] {
      var n := |comments| - 1;
      var front := comments[..n];
      var texts := CommentTexts(comments);
      var cleaned := CleanedCommentTexts(comments);
      assert texts[..n] == CommentTexts(front);
      assert cleaned[..n] == CleanedCommentTexts(front);
      CleanUpCommentTexts(front);
      CleanUpAppend(Concat(CommentTexts(front)), comments[n].body + "\n");
      CleanUpAppend(comments[n].body, "\n");
      assert CleanUp("\n") == "\n";
    }
  }

  /**
   * The thread's text holds the cleaned title, the cleaned text and every
   * cleaned comment body, each ending a line, in thread order.
   */
  lemma ThreadTextParts(s: Submission)
    ensures ThreadText(s) ==
      CleanUp(s.title) + "\n" + CleanUp(s.selftext) + "\n" + Concat(CleanedCommentTexts(s.comments))
  {
    var nl := "\n";
    var rest := Concat(CommentTexts(s.comments));
    assert CleanUp(nl) == nl;
    assert s.title + nl + s.selftext + nl + rest == s.title + (nl + (s.selftext + (nl + rest)));
    CleanUpAppend(s.title, nl + (s.selftext + (nl + rest)));
    CleanUpAppend(nl, s.selftext + (nl + rest));
    CleanUpAppend(s.selftext, nl + rest);
    CleanUpAppend(nl, rest);
    CleanUpCommentTexts(s.comments);
  }

  /**
   * As written, `get_all_text` returns the cleaned empty string, so a
   * thread that asks for breakfast in its title is still typed "All meals!";
   * the thread's text votes "Breakfast".
   */
  lemma DiscardedTextLosesVote(s: Submission)
    requires s.title == "breakfast" && s.selftext == "" && s.comments == []
    ensures MealType(VotedText(AsWritten, s)) == AllMeals
    ensures MealType(VotedText(AsDocumented, s)) == "Breakfast"
  {
    AsWrittenVotesAllMeals(s);
    var text := "breakfast\n\n";
    assert CommentTexts(s.comments) == [];
    assert s.title + "\n" + s.selftext + "\n" + Concat(CommentTexts(s.comments)) == text;
    assert IsClean(text);
    CleanUpOfClean(text);
    BreakfastTextVotesBreakfast(ThreadText(s));
  }

  // ---------------------------------------------------------------------------
  // The thread of a submission

  /** The posts `run_bot` checks for one submission: itself, then each comment with it as parent. */
  function ThreadPosts(s: Submission): (posts: seq<Post>)
    ensures |posts| == |s.comments| + 1 && posts[0] == SubmissionPost(s)
    ensures forall k :: 0 <= k < |s.comments| ==> posts[k + 1] == CommentPost(s.comments[k], s)
  {
    [SubmissionPost(s)] + seq(|s.comments|, k requires 0 <= k < |s.comments| => CommentPost(s.comments[k], s))
  }

  /** The outcome of checking each post, in order. */
  function Checks(posts: seq<Post>, titles: seq<string>, ratio: (string, string) -> int, source: TypeText): (cs: seq<Check>)
    requires |titles| > 0
    ensures |cs| == |posts|
  {
    seq(|posts|, k requires 0 <= k < |posts| => Checked(posts[k], titles, ratio, source))
  }

  /** Entry `k` of the checks is the check of post `k`. */
  lemma ChecksAt(posts: seq<Post>, titles: seq<string>, ratio: (string, string) -> int, source: TypeText, k: nat)
    requires |titles| > 0 && k < |posts|
    ensures Checks(posts, titles, ratio, source)[k] == Checked(posts[k], titles, ratio, source)
  {
  }

  /** The recipes a run of checks hands on, in order; a failed check skips only its own post. */
  function Emitted(cs: seq<Check>): seq<Recipe>
    decreases |cs|
  {
    if cs == [] then [] else Emitted(cs[..|cs| - 1]) + Yield(cs[|cs| - 1])
  }

  /** A recipe is emitted exactly when one of the checks accepted it. */
  lemma {:induction false} EmittedMembership(cs: seq<Check>, r: Recipe)
    ensures r in Emitted(cs) <==> Accepted(r) in cs
    decreases |cs|
  {
    if cs != [] {
      var front := cs[..|cs| - 1];
      var c := cs[|cs| - 1];
      assert cs == front + [c];
      EmittedMembership(front, r);
      assert r in Yield(c) <==> c == Accepted(r);
    }
  }

  /** What a submission's thread contributes. */
  function ThreadRecipes(s: Submission, titles: seq<string>, ratio: (string, string) -> int, source: TypeText): seq<Recipe>
    requires |titles| > 0
  {
    Emitted(Checks(ThreadPosts(s), titles, ratio, source))
  }

  /** Checking one more post of a thread adds what that post yields. */
  lemma ThreadStep(start: Table, cs: seq<Check>, j: nat)
    requires j < |cs|
    ensures InsertAll(start, Emitted(cs[..j + 1])) == InsertAll(InsertAll(start, Emitted(cs[..j])), Yield(cs[j]))
  {
    var prefix := cs[..j + 1];
    assert prefix[..j] == cs[..j] && prefix[j] == cs[j];
    InsertAllAppend(start, Emitted(cs[..j]), Yield(cs[j]));
  }

  /** A thread contributes only recipes of its own posts, all of the type voted on the text `source` names. */
  lemma ThreadRecipesFacts(s: Submission, titles: seq<string>, ratio: (string, string) -> int, source: TypeText)
    requires |titles| > 0
    ensures forall r :: r in ThreadRecipes(s, titles, ratio, source) ==>
      r.recipeType == MealType(VotedText(source, s)) && exists k :: 0 <= k < |ThreadPosts(s)| && r.id == ThreadPosts(s)[k].Id()
  {
    var posts := ThreadPosts(s);
    var cs := Checks(posts, titles, ratio, source);
    forall r | r in ThreadRecipes(s, titles, ratio, source)
      ensures r.recipeType == MealType(VotedText(source, s)) && exists k :: 0 <= k < |posts| && r.id == posts[k].Id()
    {
      EmittedMembership(cs, r);
      var k :| 0 <= k < |cs| && cs[k] == Accepted(r);
      PostOfThread(s, k);
      ChecksAt(posts, titles, ratio, source, k);
      AcceptedRecipe(posts[k], titles, ratio, source);
    }
  }

  /** Every post of a thread belongs to that thread. */
  lemma PostOfThread(s: Submission, k: nat)
    requires k < |ThreadPosts(s)|
    ensures ThreadPosts(s)[k].Thread() == s
  {
    if k > 0 {
      assert ThreadPosts(s)[k] == CommentPost(s.comments[k - 1], s);
    }
  }

  // ---------------------------------------------------------------------------
  // run_bot's selection

  /** `run_bot`'s test: not in the ledger and created more than a day before `now`. */
  predicate Eligible(ledger: seq<string>, s: Submission, now: int)
  {
    s.id !in ledger && now - s.created > MinimumAge
  }

  /**
   * The submissions `run_bot` processes, in feed order. Each one's id joins
   * the ledger before the next is tested, so a repeated id is processed once.
   */
  function Processed(ledger: seq<string>, hot: seq<Submission>, now: int): (p: seq<Submission>)
    ensures |p| <= |hot|
    ensures forall k :: 0 <= k < |p| ==> p[k] in hot && Eligible(ledger, p[k], now)
    decreases |hot|
  {
    if hot == [] then []
    else if Eligible(ledger, hot[0], now) then [hot[0]] + Processed(ledger + [hot[0].id], hot[1..], now)
    else Processed(ledger, hot[1..], now)
  }

  function Ids(subs: seq<Submission>): (ids: seq<string>)
    ensures |ids| == |subs|
    decreases |subs|
  {
    if subs == [] then [] else [subs[0].id] + Ids(subs[1..])
  }

  /** The ids, position by position. */
  lemma {:induction false} IdsIndex(subs: seq<Submission>)
    ensures forall k :: 0 <= k < |subs| ==> Ids(subs)[k] == subs[k].id
    decreases |subs|
  {
    if subs != [] {
      IdsIndex(subs[1..]);
      assert Ids(subs) == [subs[0].id] + Ids(subs[1..]);
    }
  }

  /** Everything the processed threads contribute, thread by thread. */
  function Harvest(subs: seq<Submission>, titles: seq<string>, ratio: (string, string) -> int, source: TypeText): seq<Recipe>
    requires |titles| > 0
    decreases |subs|
  {
    if subs == [] then [] else ThreadRecipes(subs[0], titles, ratio, source) + Harvest(subs[1..], titles, ratio, source)
  }

  /**
   * Every processed submission comes from the feed, is old enough, was not
   * in the ledger, and no id is processed twice.
   */
  lemma {:induction false} ProcessedFresh(ledger: seq<string>, hot: seq<Submission>, now: int)
    ensures forall k :: 0 <= k < |Processed(ledger, hot, now)| ==>
      var s := Processed(ledger, hot, now)[k];
      s in hot && s.id !in ledger && now - s.created > MinimumAge
    ensures NoDuplicates(Ids(Processed(ledger, hot, now)))
    decreases |hot|
  {
    if hot != [] {
      var x := hot[0];
      var tail := hot[1..];
      assert forall s :: s in tail ==> s in hot;
      if Eligible(ledger, x, now) {
        ProcessedFresh(ledger + [x.id], tail, now);
        var rest := Processed(ledger + [x.id], tail, now);
        var p := [x] + rest;
        assert forall k :: 1 <= k < |p| ==> p[k] == rest[k - 1];
        assert forall k :: 0 <= k < |rest| ==> rest[k].id != x.id;
        IdsIndex(p);
        IdsIndex(rest);
      } else {
        ProcessedFresh(ledger, tail, now);
      }
    }
  }

  /** Every submission of the feed that passes the test is processed, or one with its id is. */
  lemma {:induction false} ProcessedComplete(ledger: seq<string>, hot: seq<Submission>, now: int, s: Submission)
    requires s in hot && Eligible(ledger, s, now)
    ensures s.id in Ids(Processed(ledger, hot, now))
    decreases |hot|
  {
    var x := hot[0];
    if x != s {
      assert s in hot[1..];
    }
    if Eligible(ledger, x, now) {
      if x.id != s.id {
        ProcessedComplete(ledger + [x.id], hot[1..], now, s);
      }
    } else {
      ProcessedComplete(ledger, hot[1..], now, s);
    }
  }

  /**
   * An eligible submission with no earlier eligible one of the same id is
   * processed: the ledger grows only by ids it does not hold.
   */
  lemma {:induction false} FirstEligibleIsProcessed(ledger: seq<string>, hot: seq<Submission>, now: int, i: nat)
    requires i < |hot| && Eligible(ledger, hot[i], now)
    requires forall j :: 0 <= j < i && hot[j].id == hot[i].id ==> !Eligible(ledger, hot[j], now)
    ensures hot[i] in Processed(ledger, hot, now)
    decreases |hot|
  {
    if i > 0 {
      var tail := hot[1..];
      assert tail[i - 1] == hot[i];
      assert forall j :: 0 <= j < i - 1 ==> tail[j] == hot[j + 1];
      if Eligible(ledger, hot[0], now) {
        FirstEligibleIsProcessed(ledger + [hot[0].id], tail, now, i - 1);
      } else {
        FirstEligibleIsProcessed(ledger, tail, now, i - 1);
      }
    }
  }

  /**
   * Every processed submission is the first eligible one of its id in the
   * feed: a later one with that id finds it in the ledger and is skipped.
   */
  lemma {:induction false} ProcessedIsFirstEligible(ledger: seq<string>, hot: seq<Submission>, now: int, s: Submission)
    requires s in Processed(ledger, hot, now)
    ensures exists i :: 0 <= i < |hot| && hot[i] == s &&
                        (forall j :: 0 <= j < i && hot[j].id == s.id ==> !Eligible(ledger, hot[j], now))
    decreases |hot|
  {
    var tail := hot[1..];
    if Eligible(ledger, hot[0], now) && s == hot[0] {
      assert hot[0] == s;
    } else {
      var ledger' := if Eligible(ledger, hot[0], now) then ledger + [hot[0].id] else ledger;
      assert s in Processed(ledger', tail, now);
      assert Eligible(ledger', s, now);
      ProcessedIsFirstEligible(ledger', tail, now, s);
      var i' :| 0 <= i' < |tail| && tail[i'] == s &&
                (forall j :: 0 <= j < i' && tail[j].id == s.id ==> !Eligible(ledger', tail[j], now));
      assert hot[i' + 1] == s;
      forall j | 0 <= j < i' + 1 && hot[j].id == s.id
        ensures !Eligible(ledger, hot[j], now)
      {
        if j > 0 {
          assert hot[j] == tail[j - 1];
        }
      }
    }
  }

  /** The processed submissions keep their feed order. */
  lemma {:induction false} ProcessedInFeedOrder(ledger: seq<string>, hot: seq<Submission>, now: int)
    ensures IsSubsequence(Processed(ledger, hot, now), hot)
    decreases |hot|
  {
    if hot != [] {
      var x := hot[0];
      assert [x] + hot[1..] == hot;
      if Eligible(ledger, x, now) {
        ProcessedInFeedOrder(ledger + [x.id], hot[1..], now);
        var rest := Processed(ledger + [x.id], hot[1..], now);
        assert ([x] + rest)[1..] == rest;
      } else {
        ProcessedInFeedOrder(ledger, hot[1..], now);
        SubsequenceWiden(Processed(ledger, hot[1..], now), hot[1..], x);
      }
    }
  }

  /** Every recipe the loop stores has the type voted on the text `source` names for one of the processed threads. */
  lemma {:induction false} HarvestTypes(subs: seq<Submission>, titles: seq<string>, ratio: (string, string) -> int, source: TypeText)
    requires |titles| > 0
    ensures forall r :: r in Harvest(subs, titles, ratio, source) ==>
      exists k :: 0 <= k < |subs| && r.recipeType == MealType(VotedText(source, subs[k]))
    decreases |subs|
  {
    if subs != [] {
      ThreadRecipesFacts(subs[0], titles, ratio, source);
      HarvestTypes(subs[1..], titles, ratio, source);
      var head := ThreadRecipes(subs[0], titles, ratio, source);
      var tail := Harvest(subs[1..], titles, ratio, source);
      assert Harvest(subs, titles, ratio, source) == head + tail;
      forall r: Recipe | r in head + tail
        ensures exists k :: 0 <= k < |subs| && r.recipeType == MealType(VotedText(source, subs[k]))
      {
        if r in head {
          assert r.recipeType == MealType(VotedText(source, subs[0]));
        } else {
          assert r in tail;
          var k :| 0 <= k < |subs[1..]| && r.recipeType == MealType(VotedText(source, subs[1..][k]));
          assert subs[1..][k] == subs[k + 1];
          assert r.recipeType == MealType(VotedText(source, subs[k + 1]));
        }
      }
    }
  }

  /** As written, every recipe the loop hands on is typed "All meals!", whatever its thread says. */
  lemma HarvestAllMeals(subs: seq<Submission>, titles: seq<string>, ratio: (string, string) -> int)
    requires |titles| > 0
    ensures forall r :: r in Harvest(subs, titles, ratio, AsWritten) ==> r.recipeType == AllMeals
  {
    HarvestTypes(subs, titles, ratio, AsWritten);
    forall k | 0 <= k < |subs| ensures MealType(VotedText(AsWritten, subs[k])) == AllMeals {
      AsWrittenVotesAllMeals(subs[k]);
    }
  }

  /** Every row a pass of the loop adds to the store is typed "All meals!". */
  lemma StoredRowsAllMeals(store: Table, subs: seq<Submission>, titles: seq<string>, ratio: (string, string) -> int, id: string)
    requires |titles| > 0
    requires id in InsertAll(store, Harvest(subs, titles, ratio, AsWritten)).rows && id !in store.rows
    ensures InsertAll(store, Harvest(subs, titles, ratio, AsWritten)).rows[id].recipeType == AllMeals
  {
    HarvestAllMeals(subs, titles, ratio);
    InsertAllRows(store, Harvest(subs, titles, ratio, AsWritten), id);
  }

  /** The ledger after `run_bot` has looked at `s`. */
  function NextLedger(ledger: seq<string>, s: Submission, now: int): seq<string>
  {
    if Eligible(ledger, s, now) then ledger + [s.id] else ledger
  }

  /** One step of `run_bot`'s loop, for the ledger. */
  lemma LedgerStep(ledger: seq<string>, hot: seq<Submission>, i: nat, now: int)
    requires i < |hot|
    ensures ledger + Ids(Processed(ledger, hot[i..], now)) ==
      NextLedger(ledger, hot[i], now) + Ids(Processed(NextLedger(ledger, hot[i], now), hot[i + 1..], now))
  {
    var x := hot[i];
    var todo := hot[i..];
    assert todo != [] && todo[0] == x && todo[1..] == hot[i + 1..];
    if Eligible(ledger, x, now) {
      LedgerStepTaken(ledger, x, hot[i + 1..], now);
    } else {
      assert Processed(ledger, todo, now) == Processed(ledger, hot[i + 1..], now);
    }
  }

  lemma LedgerStepTaken(ledger: seq<string>, x: Submission, tail: seq<Submission>, now: int)
    requires Eligible(ledger, x, now)
    ensures ledger + Ids(Processed(ledger, [x] + tail, now)) == (ledger + [x.id]) + Ids(Processed(ledger + [x.id], tail, now))
  {
    var rest := Processed(ledger + [x.id], tail, now);
    assert ([x] + tail)[1..] == tail;
    assert Processed(ledger, [x] + tail, now) == [x] + rest;
    IdsCons(x, rest);
    SeqAssoc(ledger, [x.id], Ids(rest));
  }

  /** Regrouping a concatenation; stated once so the ledger proofs need not search for it. */
  lemma SeqAssoc(a: seq<string>, b: seq<string>, c: seq<string>)
    ensures a + (b + c) == (a + b) + c
  {
  }

  lemma IdsCons(x: Submission, rest: seq<Submission>)
    ensures Ids([x] + rest) == [x.id] + Ids(rest)
  {
    assert ([x] + rest)[1..] == rest;
  }

  /** One step of `run_bot`'s loop, for the store. */
  lemma StoreStep(store: Table, ledger: seq<string>, hot: seq<Submission>, i: nat, now: int,
                  titles: seq<string>, ratio: (string, string) -> int, source: TypeText)
    requires i < |hot| && |titles| > 0
    ensures InsertAll(store, Harvest(Processed(ledger, hot[i..], now), titles, ratio, source)) ==
      InsertAll(if Eligible(ledger, hot[i], now) then InsertAll(store, ThreadRecipes(hot[i], titles, ratio, source)) else store,
                Harvest(Processed(NextLedger(ledger, hot[i], now), hot[i + 1..], now), titles, ratio, source))
  {
    var x := hot[i];
    assert hot[i..][0] == x && hot[i..][1..] == hot[i + 1..];
    if Eligible(ledger, x, now) {
      var rest := Processed(ledger + [x.id], hot[i + 1..], now);
      assert ([x] + rest)[1..] == rest;
      assert Harvest([x] + rest, titles, ratio, source) == ThreadRecipes(x, titles, ratio, source) + Harvest(rest, titles, ratio, source);
      InsertAllAppend(store, ThreadRecipes(x, titles, ratio, source), Harvest(rest, titles, ratio, source));
    }
  }

  // ---------------------------------------------------------------------------
  // The ledger file's lines

  /** `line[:-1]`: the line without its last character (the empty line stays empty). */
  function TrimLine(line: string): (trimmed: string)
    ensures line == [] ==> trimmed == []
    ensures line != [] ==> trimmed + [line[|line| - 1]] == line
  {
    if line == [] then line else line[..|line| - 1]
  }

  function TrimmedLines(lines: seq<string>): (ids: seq<string>)
    ensures |ids| == |lines|
    ensures forall k :: 0 <= k < |lines| ==> ids[k] == TrimLine(lines[k])
  {
    seq(|lines|, k requires 0 <= k < |lines| => TrimLine(lines[k]))
  }

  /** The lines `add_checked_submission` appends to the file. */
  function LedgerLines(ids: seq<string>): (lines: seq<string>)
    ensures |lines| == |ids|
    ensures forall k :: 0 <= k < |ids| ==> lines[k] == ids[k] + "\n"
  {
    seq(|ids|, k requires 0 <= k < |ids| => ids[k] + "\n")
  }

  /** Reading the file back recovers every id written to it. */
  lemma LedgerRoundTrip(ids: seq<string>)
    ensures TrimmedLines(LedgerLines(ids)) == ids
  {
    var back := TrimmedLines(LedgerLines(ids));
    forall k | 0 <= k < |ids| ensures back[k] == ids[k] {
      assert (ids[k] + "\n")[..|ids[k]|] == ids[k];
    }
  }

  /** A last line without its newline loses a character of the id. */
  lemma UnterminatedLineLosesCharacter(line: string)
    requires line != [] && line[|line| - 1] != '\n'
    ensures TrimLine(line) + "\n" != line
    ensures |TrimLine(line)| == |line| - 1
  {
    assert (TrimLine(line) + "\n")[|line| - 1] == '\n';
  }

  // ---------------------------------------------------------------------------
  // The bot object

  /** `RedditAPI`: the ledger of checked submissions, the handler, and the title catalog with its scorer. */
  class RedditApi {
    var oldSubmissionIds: seq<string>
    const handler: RecipeHandler
    const titles: seq<string>
    const ratio: (string, string) -> int

    ghost predicate Valid()
      reads handler, handler.db
    {
      |titles| > 0 && handler.Valid()
    }

    /**
     * Start the bot on the ledger file's lines and the store earlier runs
     * left; the catalog and scorer are supplied. The endless poll and sleep
     * cycle is not part of this model.
     */
    constructor (existing: Table, ledgerLines: seq<string>, catalog: seq<string>, scorer: (string, string) -> int)
      requires Consistent(existing) && |catalog| > 0
      ensures Valid() && fresh(handler) && fresh(handler.db)
      ensures oldSubmissionIds == TrimmedLines(ledgerLines)
      ensures handler.db.store == existing && titles == catalog
    {
      titles := catalog;
      ratio := scorer;
      oldSubmissionIds := [];
      handler := new RecipeHandler(existing);
      new;
      FillOldSubmissions(ledgerLines);
    }

    /** `fill_old_submissions`: append every line of the ledger file, its last character dropped. */
    method FillOldSubmissions(lines: seq<string>)
      modifies this
      ensures oldSubmissionIds == old(oldSubmissionIds) + TrimmedLines(lines)
    {
      ghost var start := oldSubmissionIds;
      for i := 0 to |lines|
        invariant oldSubmissionIds == start + TrimmedLines(lines[..i])
      {
        var line := lines[i];
        line := TrimLine(line);
        oldSubmissionIds := oldSubmissionIds + [line];
        assert TrimmedLines(lines[..i + 1]) == TrimmedLines(lines[..i]) + [line];
      }
      assert lines[..|lines|] == lines;
    }

    /** `add_checked_submission`: record the id; `written` is the line appended to the ledger file. */
    method AddCheckedSubmission(submissionId: string) returns (written: string)
      modifies this
      ensures oldSubmissionIds == old(oldSubmissionIds) + [submissionId]
      ensures written == LedgerLines([submissionId])[0]
    {
      oldSubmissionIds := oldSubmissionIds + [submissionId];
      written := submissionId + "\n";
    }

    /**
     * `get_all_text` as written: each `''.join(...)` builds a new string that
     * is dropped, so the cleaned empty text comes back.
     */
    method GetAllText(post: Post) returns (cleanContent: string)
      ensures cleanContent == ""
      ensures cleanContent == VotedText(AsWritten, post.Thread())
    {
      var allText := "";
      var thread := match post
        case SubmissionPost(s) => s
        case CommentPost(_, parent) => parent;
      var submissionText := thread.selftext;
      var submissionTitle := thread.title;
      var joined := allText + (submissionTitle + "\n") + (submissionText + "\n");
      var comments := thread.comments;
      for i := 0 to |comments| {
        joined := allText + (comments[i].body + "\n");
      }
      cleanContent := CleanUp(allText);
    }

    /**
     * `get_all_text` as documented: the title, the text and every comment's
     * body of the post's thread, one per line, cleaned.
     */
    method GetThreadText(post: Post) returns (cleanContent: string)
      ensures cleanContent == ThreadText(post.Thread())
    {
      var thread := match post
        case SubmissionPost(s) => s
        case CommentPost(_, parent) => parent;
      var allText := "";
      allText := allText + (thread.title + "\n") + (thread.selftext + "\n");
      var head := allText;
      var comments := thread.comments;
      for i := 0 to |comments|
        invariant allText == head + Concat(CommentTexts(comments[..i]))
      {
        assert CommentTexts(comments[..i + 1])[..i] == CommentTexts(comments[..i]);
        allText := allText + (comments[i].body + "\n");
      }
      assert comments[..|comments|] == comments;
      assert head == thread.title + "\n" + thread.selftext + "\n";
      cleanContent := CleanUp(allText);
    }

    /** `check_post`: decide, build the recipe and hand it to the handler. */
    method CheckPost(post: Post) returns (outcome: Check)
      requires Valid()
      modifies handler, handler.db
      ensures Valid()
      ensures outcome == Checked(post, titles, ratio, AsWritten)
      ensures handler.db.store == InsertAll(old(handler.db.store), Yield(outcome))
    {
      var content := post.Content();
      var cleanContent := CleanUp(content);
      if !IsRecipe(cleanContent) {
        return NotARecipe;
      }
      var allText := GetAllText(post);
      if post.Author().None? {
        return AttributeError;
      }
      var recipe := BuildRecipe(post, post.Author().value, allText, AsWritten);
      InsertAllOne(handler.db.store, recipe);
      handler.Add(recipe);
      outcome := Accepted(recipe);
    }

    /**
     * The recipe `check_post` builds once a post has passed detection and has
     * an author, with the type voted on `allText`, the text `source` names.
     */
    method BuildRecipe(post: Post, author: string, allText: string, source: TypeText) returns (recipe: Recipe)
      requires |titles| > 0
      requires IsRecipe(CleanUp(post.Content())) && post.Author() == Some(author)
      requires allText == VotedText(source, post.Thread())
      ensures Checked(post, titles, ratio, source) == Accepted(recipe)
    {
      var content := post.Content();
      var title := DetermineTitle(titles, post, ratio);
      var ingredients := GetIngredients(content);
      var instructions := GetInstructions(content);
      var recipeType := DetermineType(allText);
      recipe := NewRecipe(PostInfo(author, post.Score(), post.Created(), post.Id(), post.Url()),
                          RefinedPost(title, ingredients, instructions, recipeType));
    }

    /** The body of `run_bot` for one submission: check it, then each of its comments. */
    method CheckThread(submission: Submission)
      requires Valid()
      modifies handler, handler.db
      ensures Valid()
      ensures handler.db.store == InsertAll(old(handler.db.store), ThreadRecipes(submission, titles, ratio, AsWritten))
    {
      ghost var cs := Checks(ThreadPosts(submission), titles, ratio, AsWritten);
      ghost var start := handler.db.store;
      assert cs[..0] == [];
      CheckThreadPost(submission, 0, start);
      for j := 0 to |submission.comments|
        invariant Valid()
        invariant handler.db.store == InsertAll(start, Emitted(cs[..j + 1]))
      {
        CheckThreadPost(submission, j + 1, start);
      }
      assert cs[..|submission.comments| + 1] == cs;
    }

    /**
     * `check_post` on post `k` of the thread: the submission itself for
     * `k == 0`, comment `k - 1` otherwise. The store gains what it yields.
     */
    method CheckThreadPost(submission: Submission, k: nat, ghost start: Table)
      requires Valid() && k <= |submission.comments|
      requires handler.db.store == InsertAll(start, Emitted(Checks(ThreadPosts(submission), titles, ratio, AsWritten)[..k]))
      modifies handler, handler.db
      ensures Valid()
      ensures handler.db.store == InsertAll(start, Emitted(Checks(ThreadPosts(submission), titles, ratio, AsWritten)[..k + 1]))
    {
      ghost var posts := ThreadPosts(submission);
      ghost var cs := Checks(posts, titles, ratio, AsWritten);
      var post := if k == 0 then SubmissionPost(submission) else CommentPost(submission.comments[k - 1], submission);
      assert posts[k] == post;
      var outcome := CheckPost(post);
      ChecksAt(posts, titles, ratio, AsWritten, k);
      ThreadStep(start, cs, k);
    }

    /**
     * One pass of `run_bot`'s loop: a submission that is new and old enough
     * has its thread checked and its id recorded; any other is skipped.
     */
    method VisitSubmission(submission: Submission, now: int)
      requires Valid()
      modifies this, handler, handler.db
      ensures Valid()
      ensures oldSubmissionIds == NextLedger(old(oldSubmissionIds), submission, now)
      ensures handler.db.store ==
        if Eligible(old(oldSubmissionIds), submission, now)
        then InsertAll(old(handler.db.store), ThreadRecipes(submission, titles, ratio, AsWritten))
        else old(handler.db.store)
    {
      if submission.id !in oldSubmissionIds && now - submission.created > MinimumAge {
        CheckThread(submission);
        var written := AddCheckedSubmission(submission.id);
      }
    }

    /**
     * `run_bot` over one fetch of the hot feed at time `now`: the ledger gains
     * the processed ids in order, and the store every recipe of their threads.
     */
    method RunBot(hot: seq<Submission>, now: int)
      requires Valid()
      modifies this, handler, handler.db
      ensures Valid()
      ensures oldSubmissionIds == old(oldSubmissionIds) + Ids(Processed(old(oldSubmissionIds), hot, now))
      ensures handler.db.store ==
        InsertAll(old(handler.db.store), Harvest(Processed(old(oldSubmissionIds), hot, now), titles, ratio, AsWritten))
    {
      for i := 0 to |hot|
        invariant Valid()
        invariant old(oldSubmissionIds) + Ids(Processed(old(oldSubmissionIds), hot, now)) ==
          oldSubmissionIds + Ids(Processed(oldSubmissionIds, hot[i..], now))
        invariant InsertAll(old(handler.db.store), Harvest(Processed(old(oldSubmissionIds), hot, now), titles, ratio, AsWritten)) ==
          InsertAll(handler.db.store, Harvest(Processed(oldSubmissionIds, hot[i..], now), titles, ratio, AsWritten))
      {
        LedgerStep(oldSubmissionIds, hot, i, now);
        StoreStep(handler.db.store, oldSubmissionIds, hot, i, now, titles, ratio, AsWritten);
        VisitSubmission(hot[i], now);
      }
      assert hot[|hot|..] == [];
    }
  }

  /**
   * After a run every old-enough submission of the feed is in the ledger,
   * and the ids the run added are new and distinct.
   */
  lemma LedgerAfterRun(ledger: seq<string>, hot: seq<Submission>, now: int)
    ensures forall s :: s in hot && now - s.created > MinimumAge ==> s.id in ledger + Ids(Processed(ledger, hot, now))
    ensures NoDuplicates(Ids(Processed(ledger, hot, now)))
    ensures forall id :: id in Ids(Processed(ledger, hot, now)) ==> id !in ledger
  {
    ProcessedFresh(ledger, hot, now);
    IdsIndex(Processed(ledger, hot, now));
    forall s | s in hot && now - s.created > MinimumAge
      ensures s.id in ledger + Ids(Processed(ledger, hot, now))
    {
      if s.id !in ledger {
        ProcessedComplete(ledger, hot, now, s);
      }
    }
  }
}
