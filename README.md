# Eat Cheap and Healthy recipe centralizer, modelled in Dafny

The system is a bot for the EatCheapAndHealthy subreddit. It polls the hot submissions and checks each new one that is more than a day old, together with every comment of its thread. A text counts as a recipe when one of its lines is an ingredients heading and another is an instructions heading. For each recipe the bot:

- extracts the bulleted ingredient and instruction lines;
- classifies the meal type by a keyword vote;
- picks a title from a fixed catalog by a similarity score.

It then queues the recipe and stores it in a table keyed by post id. The submission's id goes into a ledger of checked submissions, so it is never checked twice. Once a week the recipes of the past week are ranked by karma into a text digest.

The model has one module per source file, plus three shared modules:

| module | file | models |
|---|---|---|
| `Wrappers` | `wrappers.dfy` | `Option`, for the places where the source returns `None` |
| `Seqs` | `seqs.dfy` | Python's `max(d, key=d.get)` (the first maximal entry), subsequences, reversal |
| `Strings` | `strings.dfy` | Python's `str.split(sep)`, `sep.join(parts)` and argument-less `str.split()`, with their round trips |
| `Feed` | `feed.dfy` | praw's `Submission` and `Comment` as one tagged datatype; each submission carries its flattened comment thread |
| `Recipes` | `recipe.dfy` | `src/Recipe.py`: the `PostInfo`/`RefinedPost` containers, the flattened `Recipe`, and its `str`/`repr` layout (`Render`) |
| `Analyzer` | `analyzer.dfy` | `src/Analyzer.py`: `clean_up`, `clean_list`, `determine_if_recipe`, the two extractors, `determine_type` and `determine_title` |
| `DatabaseUtil` | `database.dfy` | `src/DatabaseUtil.py`: the `;` csv pair; the `Recipes` table as a map from `post_id` with the insertion order; `add` and the three queries as methods of `Database` |
| `RecipeHandling` | `handler.dfy` | `src/RecipeHandler.py`: the LIFO queue in front of the store, the stable karma ranking, and the digest document |
| `Scraper` | `scraper.dfy` | `src/Scraper.py`: `check_post`, `get_all_text`, `add_checked_submission`, `fill_old_submissions`, and one pass of `run_bot` as methods of `RedditApi` |

The loops of the source are methods proved against pure functions, and the lemmas state what those functions promise:

- the extractors' nested scans (`GetIngredients`, `GetInstructions`);
- the vote counts in `type_dict` (`DetermineType`);
- the title table (`DetermineTitle`);
- the store queries (`Database.Collect`);
- the queue drain (`RecipeHandler.ManageQueue`);
- the digest writing loop (`PostWeekly`);
- the ledger reading loop (`FillOldSubmissions`);
- the thread sweep (`CheckThread`) and the poll loop (`RunBot`).

Abstracted collaborators:

- The fuzzy scorer is a parameter `ratio`. The date formatter is a parameter `format`. The current time is an integer `now`.
- The praw lookup of a comment's parent is the `parent` field of `Feed.Post.CommentPost`.

Two behaviours of the code are worth stating up front:

- **Time window.** The weekly query uses SQL `BETWEEN`, which includes both bounds. `DatabaseUtil.WindowIncludesBothEnds` states this.
- **Thread text.** The docstring of `get_all_text` (src/Scraper.py:147-155) promises the cleaned text of the whole thread. As written, the function returns the cleaned empty text (see Findings), so every recipe is typed "All meals!". The bot object (`RedditApi`) follows the code: `CheckPost` votes on what `GetAllText` returns. The pipeline functions take a `TypeText` parameter. `AsWritten` is the code's behaviour and `AsDocumented` is the corrected one, which votes on the thread text. `HarvestAllMeals` proves the as-written outcome; `HarvestTypes` holds for both.

## Model

| member | source | states |
|---|---|---|
| Seqs.FirstArgmax | src/Analyzer.py:128 | `max(d, key=d.get)` picks an index whose value is maximal, and every earlier value is strictly smaller (first maximum wins ties) |
| Seqs.FirstArgmaxUnique | src/Analyzer.py:43 | the first maximal index is unique: any index with those two properties is the one `max` picks |
| Seqs.Reversed | src/RecipeHandler.py:42-43 | popping a list until empty visits it back to front: entry k of the result is entry n-1-k of the list |
| Strings.Split | src/DatabaseUtil.py:177 | `split(';')` yields at least one part and no part contains the separator |
| Strings.JoinSplit | src/DatabaseUtil.py:135 | joining the parts of a split with the same separator gives back the original string, for every string |
| Strings.SplitJoin | src/DatabaseUtil.py:177 | splitting a join gives back the parts when there is at least one and none contains the separator |
| Strings.Join | src/DatabaseUtil.py:135 | `sep.join(parts)` starts with the first part |
| Strings.JoinSeparatorCount | src/DatabaseUtil.py:135 | when no part holds the separator, the join holds exactly one separator between neighbouring parts |
| Strings.JoinAppend | src/Recipe.py:36-42 | joining two non-empty lists one after the other puts exactly one separator between their joins |
| Strings.Words | src/Analyzer.py:111 | argument-less `split()` yields only non-empty runs of non-whitespace, at most one per character |
| Strings.WordsOfWordThenSpaces | src/Analyzer.py:111 | a word followed by whitespace splits into that word alone |
| Strings.WordsAfterSpaces | src/Analyzer.py:111 | leading whitespace is skipped: it starts no word and changes nothing after it |
| Strings.WordsOfWordThenRest | src/Analyzer.py:111 | a word ended by whitespace is the first token, followed by the tokens of the rest; with `WordsAfterSpaces` this fixes `split()` on every string |
| Strings.Repeat | src/RecipeHandler.py:58 | `c * n` has length n and every character is c |
| Strings.ConcatAppend | src/RecipeHandler.py:59-60 | writing two batches of strings one after the other gives the concatenation of the two texts |
| Feed.Post.Url | src/Scraper.py:103-111 | a submission's link is its permalink; a comment's is the parent's permalink followed by the comment id |
| Recipes.NewRecipe | src/Recipe.py:10-19 | the constructor copies every field one-to-one: url from `link`, time from `time`, type from `type` |
| Recipes.NewRecipeOfParts | src/Recipe.py:10-19 | flattening loses nothing: a recipe is rebuilt from its PostInfo and RefinedPost parts |
| Recipes.Render | src/Recipe.py:35-42 | `__str__`'s format string; its content is stated by `RenderLines` and `RenderIsJoinOfLayout` below |
| Recipes.RenderStartsWithTitle | src/Recipe.py:35-42 | the rendered text begins with the title |
| Recipes.RenderEndsWithInstructions | src/Recipe.py:35-42 | the rendered text ends with the last instruction, or with `Instructions:` and a blank line when there is none |
| Recipes.RenderLines | src/Recipe.py:35-42 | when no field and no list entry holds a newline, `str(recipe)` splits at `\n` into exactly these lines: `title - /u/author`, the link, a blank line, `Ingredients:`, a blank line, one line per ingredient (one blank line for none), a blank line, `Instructions:`, a blank line, then one line per instruction |
| Recipes.RenderIsJoinOfLayout | src/Recipe.py:35-42 | the format string equals those lines joined by `\n`, for every recipe |
| Recipes.LayoutLinesHaveNoNewline | src/Recipe.py:35-42 | no line of that layout holds a newline when no field and no entry does |
| Recipes.ReprText | src/Recipe.py:44-45 | `repr` is the same text as `str` |
| Analyzer.CleanUp | src/Analyzer.py:136-148 | the result has no ASCII punctuation and no upper-case ASCII letter, and is no longer than the input |
| Analyzer.CleanUpOfClean | src/Analyzer.py:136-148 | text without punctuation or capitals is left unchanged |
| Analyzer.CleanUpAppend | src/Analyzer.py:146-148 | cleaning works character by character: cleaning a concatenation concatenates the cleaned parts |
| Analyzer.CleanUpIdempotent | src/Analyzer.py:136-148 | cleaning twice is cleaning once |
| Analyzer.CleanUpKeepsLines | src/Analyzer.py:146-148 | the lines of the cleaned text are the cleaned lines of the text: cleaning never merges or splits lines |
| Analyzer.CleanList | src/Analyzer.py:151-160 | filtering never lengthens the list |
| Analyzer.CleanListKeeps | src/Analyzer.py:151-160 | an item is kept iff it occurs in the input and is none of `''`, `'- '`, `'-  '`, `' '`; the result is a subsequence of the input, in input order |
| Analyzer.CleanListAppend | src/Analyzer.py:158-160 | the filter works item by item: filtering a concatenation concatenates the filtered parts |
| Analyzer.CleanListOfClean | src/Analyzer.py:151-160 | a list without junk items is returned unchanged |
| Analyzer.AnyLineIn | src/Analyzer.py:98-99 | `any(line in terms for line in lines)` holds iff some line is exactly one of the terms |
| Analyzer.IsRecipe | src/Analyzer.py:91-101 | a text without a newline is never a recipe: the two markers must be on different lines |
| Analyzer.MarkersDisjoint | src/Analyzer.py:10-11 | no line is both an ingredients marker and an instructions marker |
| Analyzer.IsRecipeMeans | src/Analyzer.py:91-101 | a text is a recipe iff some `'\n'`-line equals an ingredients term and some line equals an instructions term, compared without cleaning |
| Analyzer.MarkerInsideLineIsNoMarker | src/Analyzer.py:97-101 | "ingredients needed" is not an ingredients line, so that text is not a recipe |
| Analyzer.FirstMarker | src/Analyzer.py:57-58 | the index found is the first line whose cleaned form is a term, or the line count when there is none |
| Analyzer.GetIngredients | src/Analyzer.py:48-68 | the nested scan returns the function `Ingredients(content)` |
| Analyzer.BulletsUntilMarker | src/Analyzer.py:59-63 | the inner loop bullets every line before the first stop marker and stops there |
| Analyzer.GetInstructions | src/Analyzer.py:71-88 | the scan returns the function `Instructions(content)` |
| Analyzer.BulletsToEnd | src/Analyzer.py:82-83 | the inner loop bullets every remaining line, with no stop condition |
| Analyzer.IngredientsSection | src/Analyzer.py:48-68 | with the first ingredients marker at i and the first instructions marker after it at j (or the end), the ingredients are the bulleted lines strictly between, without junk |
| Analyzer.NoIngredientsWithoutMarker | src/Analyzer.py:54-68 | no ingredients marker line gives no ingredients |
| Analyzer.IngredientsIgnoreLaterText | src/Analyzer.py:57-64 | once the first section is closed by an instructions marker, appending any lines (a second ingredients section included) changes nothing |
| Analyzer.InstructionsReadToEnd | src/Analyzer.py:80-86 | every line appended after the first instructions marker is extracted too, a signature included |
| Analyzer.DetectionMatchesExtraction | src/Analyzer.py:91-101 | detection on the cleaned text holds iff both extractors find their marker among the raw lines |
| Analyzer.CountsAppend | src/Analyzer.py:120-126 | one more word adds one to the counter of the first term list containing it, and changes nothing when no list contains it |
| Analyzer.MealTypeIsBest | src/Analyzer.py:104-133 | the type is "All meals!" iff every count is zero; otherwise it is a category of maximal count that no earlier category ties |
| Analyzer.DetermineType | src/Analyzer.py:104-133 | the counting loop and the `max` over `type_dict` return the function `MealType(post)` |
| Analyzer.TalliesBoundedByWords | src/Analyzer.py:120-126 | each word increments at most one counter, so the counts sum to at most the word count |
| Analyzer.MultiWordTermsNeverVote | src/Analyzer.py:111-116 | no whitespace token equals "wake up" or "family dinner", so those terms never vote |
| Analyzer.EmptyTextIsAllMeals | src/Analyzer.py:130-131 | the empty text is typed "All meals!" |
| Analyzer.BreakfastTextWords | src/Analyzer.py:111-112 | the text "breakfast" followed by a blank line has the single voting word "breakfast" |
| Analyzer.BreakfastTallies | src/Analyzer.py:120-126 | that word gives the counts Breakfast 1, Lunch 0, Dinner 0 |
| Analyzer.BreakfastTextVotesBreakfast | src/Analyzer.py:104-133 | that text is typed "Breakfast" |
| Analyzer.BestTitleIsBest | src/Analyzer.py:38-45 | the title is a catalog entry of maximal score against `title + ' ' + text`, and no earlier entry scores as high |
| Analyzer.DetermineTitle | src/Analyzer.py:22-45 | filling the title table and taking its `max` returns the function `BestTitle` |
| DatabaseUtil.GetCsv | src/DatabaseUtil.py:128-135 | entries without `;` are stored with exactly one `;` between neighbours |
| DatabaseUtil.GetListFromCsv | src/DatabaseUtil.py:169-177 | the stored text comes back as at least one entry, none holding `;` |
| DatabaseUtil.CsvRoundTrip | src/DatabaseUtil.py:128-135 | a non-empty list of `;`-free entries is read back as written |
| DatabaseUtil.CsvTextRoundTrip | src/DatabaseUtil.py:169-177 | joining the split of any stored text gives that text back |
| DatabaseUtil.EmptyListComesBackBlank | src/DatabaseUtil.py:135 | the empty list is stored as "" and read back as `['']` |
| DatabaseUtil.SemicolonSplitsEntry | src/DatabaseUtil.py:177 | an entry holding `;` is read back as two entries |
| DatabaseUtil.ToRecipe | src/DatabaseUtil.py:150-163 | a fetched row becomes a recipe with the key as id, the row's author, karma, url, title, type and time, and its two lists split at `;` |
| DatabaseUtil.Insert | src/DatabaseUtil.py:33-56 | the table afterwards holds the recipe's id and every id it held, each stored row unchanged; a new id gets the recipe's row and goes last in the order, and a known id leaves the table as it was |
| DatabaseUtil.InsertKeepsConsistent | src/DatabaseUtil.py:21 | insertion keeps the primary key: every id occurs once in the table's order, and exactly the stored ids occur |
| DatabaseUtil.InsertCount | src/DatabaseUtil.py:52-56 | a known id leaves the table unchanged (the IntegrityError is swallowed); a new id adds exactly one row |
| DatabaseUtil.InsertAllKeepsConsistent | src/RecipeHandler.py:42-44 | a sequence of inserts keeps the table consistent |
| DatabaseUtil.InsertAllRows | src/RecipeHandler.py:42-44 | after a sequence of inserts every row was stored before and is unchanged, or is the row of one of the recipes added under its id |
| DatabaseUtil.LastWeek | src/DatabaseUtil.py:63-65 | the window ends one day before `now` and spans one week |
| DatabaseUtil.WindowIncludesBothEnds | src/DatabaseUtil.py:65 | a recipe created exactly 8 days or exactly 1 day before `now` matches the window (BETWEEN is inclusive) |
| DatabaseUtil.Fetch | src/DatabaseUtil.py:65-67 | the scan returns stored rows with their keys that match the WHERE clause, and every stored matching row |
| DatabaseUtil.RowsToRecipes | src/DatabaseUtil.py:69-85 | entry k of the result is the recipe built from fetched row k |
| DatabaseUtil.SelectMembership | src/DatabaseUtil.py:58-90 | a recipe is returned by a query iff it is stored under its id, its row matches, and it is that row's recipe |
| DatabaseUtil.SelectAfterInsert | src/DatabaseUtil.py:33-56 | a new recipe comes last in every query it matches; a duplicate id changes no answer |
| DatabaseUtil.Lookup | src/DatabaseUtil.py:146-167 | the lookup finds something iff the id is stored, and what it finds carries that id |
| DatabaseUtil.LookupAfterInsert | src/DatabaseUtil.py:137-167 | a new recipe with non-empty, `;`-free lists is read back exactly as it was added |
| DatabaseUtil.LookupKeepsFirst | src/DatabaseUtil.py:52-56 | a second recipe under a known id never replaces the first |
| DatabaseUtil.LookupOthersAfterInsert | src/DatabaseUtil.py:33-56 | adding a recipe leaves every other id's lookup unchanged |
| DatabaseUtil.StoredRecipeRendersSame | src/DatabaseUtil.py:155-156 | a stored recipe with `;`-free lists prints like the original, even with empty lists |
| DatabaseUtil.Database.constructor | src/DatabaseUtil.py:11-14 | opening the store leaves the existing table as it was |
| DatabaseUtil.Database.Add | src/DatabaseUtil.py:33-56 | the table becomes `Insert(old table, recipe)` and stays consistent |
| DatabaseUtil.Database.Collect | src/DatabaseUtil.py:69-85 | the row loop returns one recipe per fetched row, in order |
| DatabaseUtil.Database.GetLastWeeksRecipes | src/DatabaseUtil.py:58-90 | returns the window query, and every recipe's time is between now-8 days and now-1 day inclusive |
| DatabaseUtil.Database.GetRecipesFromAuthor | src/DatabaseUtil.py:92-126 | returns the author query, and every recipe has that author |
| DatabaseUtil.Database.DeserializeToRecipe | src/DatabaseUtil.py:137-167 | returns the stored recipe for a stored id, and None otherwise |
| RecipeHandling.InsertByKarma | src/RecipeHandler.py:53 | placing one recipe into a ranking yields a permutation of the ranking plus that recipe |
| RecipeHandling.SortByKarmaDesc | src/RecipeHandler.py:53 | the sort returns a permutation of its input |
| RecipeHandling.SortByKarmaDescSorted | src/RecipeHandler.py:53 | the sort orders by karma, highest first |
| RecipeHandling.InsertByKarmaStable | src/RecipeHandler.py:53 | placing a recipe keeps each run of equal karma in order, the new recipe last in its run |
| RecipeHandling.SortByKarmaDescStable | src/RecipeHandler.py:53 | the sort is stable: recipes of equal karma keep their store order even with `reverse=True` |
| RecipeHandling.Entries | src/RecipeHandler.py:59-60 | the loop writes, for each recipe in order, its `str` followed by the divider |
| RecipeHandling.EndlineShape | src/RecipeHandler.py:58 | the divider is 127 characters: a newline, then 124 dashes at positions 1 to 124, then two newlines |
| RecipeHandling.DigestAppend | src/RecipeHandler.py:57-60 | the document of two lists is the first document followed by the second |
| RecipeHandling.DigestStep | src/RecipeHandler.py:59-60 | one more recipe appends its text and the divider |
| RecipeHandling.DigestLength | src/RecipeHandler.py:57-60 | the document has at least 127 characters per recipe |
| RecipeHandling.WeeklyRankingFacts | src/RecipeHandler.py:52-53 | the ranking is sorted by karma, is a permutation of the window query, and holds only stored recipes created within the labelled window |
| RecipeHandling.LabelMatchesWindow | src/RecipeHandler.py:11-12 | for one clock reading `now`, the label's eight-day start is the query window's lower bound, and its end is the upper bound |
| RecipeHandling.RecipeHandler.constructor | src/RecipeHandler.py:20-23 | a fresh handler has an empty queue |
| RecipeHandling.RecipeHandler.ManageQueue | src/RecipeHandler.py:36-44 | from any queue over a consistent store, the queue ends empty and the store has had the queued recipes added last-first |
| RecipeHandling.RecipeHandler.Add | src/RecipeHandler.py:25-34 | the handler's invariant holds that nothing is waiting between calls, so the store effect is exactly one `Database.add` |
| RecipeHandling.RecipeHandler.PostWeekly | src/RecipeHandler.py:46-68 | the document is the digest of the week's recipes ranked by karma; the upload title is `last_week + ' - ' + yesterday` and the description names `last_week` |
| Scraper.Checked | src/Scraper.py:97-133 | an accepted post's recipe carries the post's id and a title from the catalog |
| Scraper.AcceptedRecipe | src/Scraper.py:97-133 | a recipe is emitted iff the cleaned content passes detection and the author exists; its fields, catalog title and sections read from the raw content are then as stated, and its type is the vote on the text `get_all_text` yields |
| Scraper.AsWrittenVotesAllMeals | src/Scraper.py:157-173 | as written, the text voted on is empty whatever the thread, and so is typed "All meals!" |
| Scraper.ThreadTextParts | src/Scraper.py:146-173 | the thread text is the cleaned title, text and every cleaned comment body, each ending a line, in thread order |
| Scraper.DiscardedTextLosesVote | src/Scraper.py:157-173 | for a thread titled "breakfast" with no text or comments, the as-written text is typed "All meals!" while the documented thread text is typed "Breakfast" |
| Scraper.ThreadPosts | src/Scraper.py:52-58 | a thread's checks cover the submission first, then each flattened comment with it as parent |
| Scraper.EmittedMembership | src/Scraper.py:51-60 | a recipe is handed on iff one of the checks accepted it; a failed check skips only its own post |
| Scraper.ThreadRecipesFacts | src/Scraper.py:51-60 | a thread hands on only recipes of its own posts, all typed by the vote on the text `get_all_text` yields for that thread |
| Scraper.Processed | src/Scraper.py:43-61 | the loop processes at most the feed's submissions, each from the feed, not in the ledger and more than a day old |
| Scraper.ProcessedFresh | src/Scraper.py:48-50 | every processed submission comes from the feed, was not in the ledger, is more than a day old at the pass's clock reading `now`, and no id is processed twice |
| Scraper.ProcessedComplete | src/Scraper.py:48-61 | every eligible feed submission has its id processed |
| Scraper.FirstEligibleIsProcessed | src/Scraper.py:48-50 | an eligible submission with no earlier eligible submission of the same id is processed |
| Scraper.ProcessedIsFirstEligible | src/Scraper.py:48-50 | every processed submission is the first eligible one of its id in the feed, so a later one with that id is skipped |
| Scraper.ProcessedInFeedOrder | src/Scraper.py:48 | the processed submissions keep their feed order |
| Scraper.HarvestTypes | src/Scraper.py:127 | every recipe handed on has the type voted on the text `get_all_text` yields for one of the processed threads |
| Scraper.HarvestAllMeals | src/Scraper.py:127 | as written, every recipe the loop hands on is typed "All meals!" |
| Scraper.StoredRowsAllMeals | src/Scraper.py:43-61 | as written, every row one pass adds to the store is typed "All meals!" |
| Scraper.TrimLine | src/Scraper.py:40 | `line[:-1]` drops exactly the last character, and leaves an empty line empty |
| Scraper.TrimmedLines | src/Scraper.py:38-41 | each ledger line is trimmed on its own |
| Scraper.LedgerLines | src/Scraper.py:143-144 | each recorded id is written as one line ending in a newline |
| Scraper.LedgerRoundTrip | src/Scraper.py:38-41 | reading back the lines written gives every id exactly |
| Scraper.UnterminatedLineLosesCharacter | src/Scraper.py:40 | a last line without a newline loses a real character of its id |
| Scraper.RedditApi.constructor | src/Scraper.py:16-21 | the bot starts with the ledger read from the file's lines and the store as left |
| Scraper.RedditApi.FillOldSubmissions | src/Scraper.py:33-41 | the ledger gains every line of the file, trimmed, in file order |
| Scraper.RedditApi.AddCheckedSubmission | src/Scraper.py:135-144 | the ledger gains the id at its end, and the line written is the id and a newline |
| Scraper.RedditApi.GetAllText | src/Scraper.py:146-173 | as written, the result is the empty string whatever the thread |
| Scraper.RedditApi.GetThreadText | src/Scraper.py:146-173 | as documented, the result is the cleaned title, text and comment bodies of the post's thread, one per line |
| Scraper.RedditApi.CheckPost | src/Scraper.py:97-133 | the outcome is `Checked(post)` with the type voted on what `GetAllText` returns, and the store gains exactly what it yields |
| Scraper.RedditApi.BuildRecipe | src/Scraper.py:119-132 | the recipe built is the one `Checked` accepts for the text it is given |
| Scraper.RedditApi.CheckThread | src/Scraper.py:51-60 | the store gains exactly the thread's as-written recipes, in check order |
| Scraper.RedditApi.CheckThreadPost | src/Scraper.py:51-60 | one `check_post` of the thread, on the submission or on one comment, adds exactly what that check yields after the earlier posts' recipes |
| Scraper.RedditApi.VisitSubmission | src/Scraper.py:48-50 | a new, old-enough submission has its thread checked and its id recorded; any other changes nothing |
| Scraper.RedditApi.RunBot | src/Scraper.py:43-61 | the ledger gains the ids of the processed submissions in feed order, and the store every as-written recipe of their threads |
| Scraper.LedgerAfterRun | src/Scraper.py:48-61 | afterwards every old-enough feed submission is in the ledger, and the added ids are new and distinct |

## Left out

- `src/DriveAPI.py` and the upload in `post_weekly`: OAuth, interactive input and HTTP upload are network I/O. `PostWeekly` returns the document, the title and the description instead of writing and uploading them.
- The endless `while True` cycle in `RedditAPI.__init__`: this covers the Monday check, `sleep`, and the 30-minute backoff on HTTPException. It is a non-terminating schedule, so one `run_bot` pass is modelled.
- praw calls (`get_hot`, `replace_more_comments`, `flatten_tree`, `get_submission`): network I/O. The feed is a sequence of submissions, each with its flattened comments; a comment's parent is supplied with it.
- File I/O: reading `submission_IDs.txt` becomes a parameter of lines, appending to it returns the line written, writing `document.txt` returns the text, and loading `recipe_titles.txt` becomes a catalog parameter.
- sqlite connection, cursor and commit mechanics. The table scan order is taken to be insertion order. Rows holding NULL are not modelled. A NULL in a list column makes `get_list_from_csv` call `None.split` (src/DatabaseUtil.py:76-77, 111-112). That raises AttributeError, which the per-row `except TypeError` (lines 87 and 122) does not catch. A NULL in any other column raises nothing.
- `fuzz.token_set_ratio` is a foreign library: it is the uninterpreted parameter `ratio`.
- `time()`, `strftime` and `gmtime`: the time is the integer `now`, and date formatting is the parameter `format`. `print`, `simple_print` and `go_sleep` are output only.
- Eligible: `run_bot` reads `int(time())` afresh for each submission (src/Scraper.py:49), but the model takes the clock as frozen at one `now` for the whole pass. A submission that turns a day old while the pass runs is processed by the source and skipped by `Processed`, so `ProcessedFresh`'s age bound is measured at the start of the pass.
- LabelMatchesWindow: the query window (src/DatabaseUtil.py:63) and the upload label (src/RecipeHandler.py:63-64) come from three separate `time()` reads. The model takes one `now` for the whole weekly post, so the agreement it states holds only when the clock does not move between those reads; the source promises no such agreement.
- Comment, Submission: praw's `created` is a float, and the model takes it to be integral.
- LastWeek: `time()` (src/DatabaseUtil.py:63) is a float, but `now` is taken to be integral. For a fractional `now`, a row created at floor(now) - 691200 falls below the lower bound and is excluded; the model includes it.
- Checked: the `AsDocumented` text source is the documented behaviour, not what `run_bot` does; the bot object uses `AsWritten` only.
- CleanUp: lower-cases only ASCII letters, as Python's `str.lower` does for ASCII text; Unicode case mapping is not modelled.
- DetermineTitle: requires a non-empty catalog. With an empty one, `max` raises a ValueError that nothing catches.
- DetermineTitle: the module-level `recipe_titles` dict becomes a local map, because each call overwrites every key before reading any.
- SortByKarmaDesc: `list.sort` is a library call, so it is modelled as a stable insertion sort on values rather than in place.
- CheckPost: the only AttributeError modelled is reading `author.name` of a deleted account. Other missing attributes are not.
- The worked examples of extraction (a text with `Ingredients`, `Instructions` and a trailing signature) are not evaluated as concrete strings. Unfolding the string functions on literal text exceeds the verifier's resource limit. `IngredientsSection`, `IngredientsIgnoreLaterText` and `InstructionsReadToEnd` state what they illustrate for every text.

## Findings

| source | as written | input that shows it | evidently intended | confidence | as-written member | corrected member |
|---|---|---|---|---|---|---|
| src/Scraper.py:157-173 | both `''.join(...)` results (lines 166 and 169) are discarded, so `all_text` stays `''` and every recipe is typed "All meals!" | a submission titled "breakfast" with an empty selftext and no comments | the thread's title, text and comment bodies, one per line, cleaned, so that it is typed "Breakfast" | high; not executed | Scraper.RedditApi.GetAllText, Scraper.HarvestAllMeals, Scraper.DiscardedTextLosesVote | Scraper.RedditApi.GetThreadText, Scraper.ThreadTextParts, Scraper.HarvestTypes |
