/**
 * Rule-based analysis of post text (src/Analyzer.py): normalisation, the
 * recipe detector, the two extractors, the meal-type vote and the choice of
 * a catalog title.
 */
module Analyzer {
  import opened Wrappers
  import opened Seqs
  import opened Strings
  import opened Feed

  /** Marker lines that open the ingredients section. */
  const IngredientsTerms: seq<string> := ["ingredients", "ingredient", "shopping list"]

  /** Marker lines that open the instructions section. */
  const InstructionsTerms: seq<string> := ["instructions", "instruction", "method", "directions"]

  // ---------------------------------------------------------------------------
  // clean_up

  /** The 32 characters of Python's `string.punctuation`. */
  predicate IsPunctuation(c: char)
  {
    ('!' <= c <= '/') || (':' <= c <= '@') || ('[' <= c <= '`') || ('{' <= c <= '~')
  }

  predicate IsUpper(c: char)
  {
    'A' <= c <= 'Z'
  }

  /** ASCII lower-casing. */
  function Lower(c: char): char
  {
    if IsUpper(c) then (c as int + 32) as char else c
  }

  /** True of text that `CleanUp` leaves as it is. */
  predicate IsClean(text: string)
  {
    forall k :: 0 <= k < |text| ==> !IsPunctuation(text[k]) && !IsUpper(text[k])
  }

  /** `clean_up`: delete every punctuation character, then lower-case. */
  function CleanUp(text: string): (clean: string)
    ensures |clean| <= |text|
    ensures IsClean(clean)
    decreases |text|
  {
    if text == [] then ""
    else (if IsPunctuation(text[0]) then "" else [Lower(text[0])]) + CleanUp(text[1..])
  }

  /** Clean text is left unchanged. */
  lemma {:induction false} CleanUpOfClean(text: string)
    requires IsClean(text)
    ensures CleanUp(text) == text
    decreases |text|
  {
    if text != [] {
      assert IsClean(text[1..]) by {
        forall k | 0 <= k < |text[1..]|
          ensures !IsPunctuation(text[1..][k]) && !IsUpper(text[1..][k])
        {
          assert text[1..][k] == text[k + 1];
        }
      }
      CleanUpOfClean(text[1..]);
      assert [text[0]] + text[1..] == text;
    }
  }

  /** `clean_up` works character by character, so it distributes over concatenation. */
  lemma {:induction false} CleanUpAppend(a: string, b: string)
    ensures CleanUp(a + b) == CleanUp(a) + CleanUp(b)
    decreases |a|
  {
    if a == [] {
      assert a + b == b;
    } else {
      assert (a + b)[0] == a[0] && (a + b)[1..] == a[1..] + b;
      CleanUpAppend(a[1..], b);
    }
  }

  /** `clean_up` is idempotent. */
  lemma CleanUpIdempotent(text: string)
    ensures CleanUp(CleanUp(text)) == CleanUp(text)
  {
    CleanUpOfClean(CleanUp(text));
  }

  /** Every line cleaned on its own. */
  function CleanEach(lines: seq<string>): (cleaned: seq<string>)
    ensures |cleaned| == |lines|
    ensures forall k :: 0 <= k < |lines| ==> cleaned[k] == CleanUp(lines[k])
  {
    seq(|lines|, k requires 0 <= k < |lines| => CleanUp(lines[k]))
  }

  lemma CleanEachCons(x: string, xs: seq<string>)
    ensures CleanEach([x] + xs) == [CleanUp(x)] + CleanEach(xs)
  {
  }

  /** A newline in front: the cleaned text and the raw text both start a fresh line. */
  lemma {:induction false} KeepsLinesAtNewline(rest: string)
    requires Split(CleanUp(rest), '\n') == CleanEach(Split(rest, '\n'))
    ensures Split(CleanUp("\n" + rest), '\n') == CleanEach(Split("\n" + rest, '\n'))
  {
    var text := "\n" + rest;
    assert text[0] == '\n' && text[1..] == rest;
    var cr := CleanUp(rest);
    assert CleanUp(text) == "\n" + cr;
    assert ("\n" + cr)[0] == '\n' && ("\n" + cr)[1..] == cr;
    assert Split(text, '\n') == [""] + Split(rest, '\n');
    assert Split("\n" + cr, '\n') == [""] + Split(cr, '\n');
  }

  /** A punctuation character in front: it vanishes from the first line. */
  lemma {:induction false} KeepsLinesAtPunctuation(c: char, rest: string)
    requires IsPunctuation(c)
    requires Split(CleanUp(rest), '\n') == CleanEach(Split(rest, '\n'))
    ensures Split(CleanUp([c] + rest), '\n') == CleanEach(Split([c] + rest, '\n'))
  {
    var text := [c] + rest;
    assert text[0] == c && text[1..] == rest;
    var raw := Split(rest, '\n');
    assert raw == [raw[0]] + raw[1..];
    assert CleanUp(text) == CleanUp(rest);
    assert Split(text, '\n') == [[c] + raw[0]] + raw[1..];
    assert CleanUp([c] + raw[0]) == CleanUp(raw[0]) by {
      assert ([c] + raw[0])[0] == c && ([c] + raw[0])[1..] == raw[0];
    }
    CleanEachCons([c] + raw[0], raw[1..]);
    CleanEachCons(raw[0], raw[1..]);
  }

  /** Any other character in front: it is lower-cased into the first line. */
  lemma {:induction false} KeepsLinesAtOther(c: char, rest: string)
    requires c != '\n' && !IsPunctuation(c)
    requires Split(CleanUp(rest), '\n') == CleanEach(Split(rest, '\n'))
    ensures Split(CleanUp([c] + rest), '\n') == CleanEach(Split([c] + rest, '\n'))
  {
    var text := [c] + rest;
    assert text[0] == c && text[1..] == rest;
    var raw := Split(rest, '\n');
    assert raw == [raw[0]] + raw[1..];
    var l := Lower(c);
    var cr := CleanUp(rest);
    assert CleanUp(text) == [l] + cr;
    var clean := Split(cr, '\n');
    assert Split([l] + cr, '\n') == [[l] + clean[0]] + clean[1..] by {
      assert ([l] + cr)[0] == l && ([l] + cr)[1..] == cr;
    }
    assert Split(text, '\n') == [[c] + raw[0]] + raw[1..];
    assert CleanUp([c] + raw[0]) == [l] + CleanUp(raw[0]) by {
      assert ([c] + raw[0])[0] == c && ([c] + raw[0])[1..] == raw[0];
    }
    CleanEachCons([c] + raw[0], raw[1..]);
    CleanEachCons(raw[0], raw[1..]);
    assert clean[0] == CleanUp(raw[0]) && clean[1..] == CleanEach(raw[1..]);
  }

  /**
   * Cleaning keeps the line structure: newlines are neither punctuation nor
   * letters, so the lines of the cleaned text are the cleaned lines.
   */
  lemma {:induction false} CleanUpKeepsLines(text: string)
    ensures Split(CleanUp(text), '\n') == CleanEach(Split(text, '\n'))
    decreases |text|
  {
    if text == [] {
      assert CleanEach([""]) == [""];
    } else {
      var c := text[0];
      var rest := text[1..];
      assert text == [c] + rest;
      CleanUpKeepsLines(rest);
      if c == '\n' {
        KeepsLinesAtNewline(rest);
      } else if IsPunctuation(c) {
        KeepsLinesAtPunctuation(c, rest);
      } else {
        KeepsLinesAtOther(c, rest);
      }
    }
  }

  // ---------------------------------------------------------------------------
  // clean_list

  /** The entries `clean_list` throws away: empty, blank or bullet-only. */
  predicate IsJunk(item: string)
  {
    item == "" || item == "- " || item == "-  " || item == " "
  }

  /** `clean_list`: the entries that are not junk, in their original order. */
  function CleanList(items: seq<string>): (kept: seq<string>)
    ensures |kept| <= |items|
    decreases |items|
  {
    if items == [] then []
    else (if IsJunk(items[0]) then [] else [items[0]]) + CleanList(items[1..])
  }

  /** `clean_list` keeps exactly the entries that are not junk, and keeps them in order. */
  lemma {:induction false} CleanListKeeps(items: seq<string>)
    ensures forall x :: x in CleanList(items) <==> x in items && !IsJunk(x)
    ensures IsSubsequence(CleanList(items), items)
    decreases |items|
  {
    if items != [] {
      var x := items[0];
      var tail := items[1..];
      var rest := CleanList(tail);
      CleanListKeeps(tail);
      assert items == [x] + tail;
      if IsJunk(x) {
        assert CleanList(items) == rest;
        SubsequenceWiden(rest, tail, x);
      } else {
        assert CleanList(items) == [x] + rest;
        assert ([x] + rest)[1..] == rest;
      }
    }
  }

  /** `clean_list` works entry by entry: it distributes over concatenation. */
  lemma {:induction false} CleanListAppend(a: seq<string>, b: seq<string>)
    ensures CleanList(a + b) == CleanList(a) + CleanList(b)
    decreases |a|
  {
    if a == [] {
      assert a + b == b;
    } else {
      var x := a[0];
      var ab := a + b;
      assert ab[0] == x && ab[1..] == a[1..] + b;
      CleanListAppend(a[1..], b);
      var front := if IsJunk(x) then [] else [x];
      assert CleanList(ab) == front + CleanList(a[1..] + b);
      assert CleanList(a) == front + CleanList(a[1..]);
    }
  }

  /** A list without junk entries is left as it is. */
  lemma {:induction false} CleanListOfClean(items: seq<string>)
    requires forall k :: 0 <= k < |items| ==> !IsJunk(items[k])
    ensures CleanList(items) == items
    decreases |items|
  {
    if items != [] {
      CleanListOfClean(items[1..]);
    }
  }

  // ---------------------------------------------------------------------------
  // determine_if_recipe

  /** The lines of a text, as `content.split('\n')` gives them. */
  function Lines(content: string): seq<string>
  {
    Split(content, '\n')
  }

  /** Whether some line is, exactly, one of `terms`. */
  function AnyLineIn(lines: seq<string>, terms: seq<string>): (b: bool)
    ensures b <==> exists i :: 0 <= i < |lines| && lines[i] in terms
    decreases |lines|
  {
    if lines == [] then false
    else lines[0] in terms || AnyLineIn(lines[1..], terms)
  }

  /**
   * `determine_if_recipe`: some line is exactly an ingredients marker and some
   * line is exactly an instructions marker. The lines are compared as they
   * are, without cleaning.
   */
  function IsRecipe(content: string): (r: bool)
    ensures r ==> '\n' in content
  {
    var lines := Lines(content);
    assert AnyLineIn(lines, IngredientsTerms) && AnyLineIn(lines, InstructionsTerms) ==> '\n' in content by {
      if '\n' !in content && AnyLineIn(lines, IngredientsTerms) {
        SplitWithoutSeparator(content, '\n');
        MarkersDisjoint(lines[0]);
      }
    }
    AnyLineIn(lines, IngredientsTerms) && AnyLineIn(lines, InstructionsTerms)
  }

  /** No line is both an ingredients marker and an instructions marker. */
  lemma MarkersDisjoint(line: string)
    requires line in IngredientsTerms
    ensures line !in InstructionsTerms
  {
    if line == "ingredients" {
      assert line[2] == 'g';
    } else if line == "ingredient" {
      assert line[2] == 'g' && |line| == 10;
    } else {
      assert |line| == 13;
    }
  }

  /** A text is a recipe exactly when one of its lines is an ingredients marker and one an instructions marker. */
  lemma IsRecipeMeans(content: string)
    ensures IsRecipe(content) <==>
      (exists i :: 0 <= i < |Lines(content)| && Lines(content)[i] in IngredientsTerms) &&
      (exists j :: 0 <= j < |Lines(content)| && Lines(content)[j] in InstructionsTerms)
  {
  }

  /** The lines of a text built from newline-free lines are those lines. */
  lemma LinesOfJoin(lines: seq<string>)
    requires |lines| >= 1
    requires forall k :: 0 <= k < |lines| ==> '\n' !in lines[k]
    ensures Lines(Join(lines, '\n')) == lines
  {
    SplitJoin(lines, '\n');
  }

  /** A line that holds a marker among other words is not a marker line. */
  lemma MarkerInsideLineIsNoMarker(content: string)
    requires content == "ingredients needed\ninstructions"
    ensures !IsRecipe(content)
  {
    var lines := ["ingredients needed", "instructions"];
    assert Join(lines, '\n') == content;
    LinesOfJoin(lines);
    assert |lines[0]| == 18 && lines[1][2] == 's';
    assert !AnyLineIn(lines, IngredientsTerms);
  }

  // ---------------------------------------------------------------------------
  // get_ingredients and get_instructions

  /** A line whose cleaned form is exactly one of `terms`. */
  predicate IsMarker(line: string, terms: seq<string>)
  {
    CleanUp(line) in terms
  }

  /** The index of the first marker line, or `|lines|` when there is none. */
  function FirstMarker(lines: seq<string>, terms: seq<string>): (i: nat)
    ensures i <= |lines|
    ensures i < |lines| ==> IsMarker(lines[i], terms)
    ensures forall k :: 0 <= k < i ==> !IsMarker(lines[k], terms)
    decreases |lines|
  {
    if lines == [] then 0
    else if IsMarker(lines[0], terms) then 0
    else 1 + FirstMarker(lines[1..], terms)
  }

  /** The three properties above pin the first marker down. */
  lemma FirstMarkerIs(lines: seq<string>, terms: seq<string>, i: nat)
    requires i <= |lines|
    requires i < |lines| ==> IsMarker(lines[i], terms)
    requires forall k :: 0 <= k < i ==> !IsMarker(lines[k], terms)
    ensures FirstMarker(lines, terms) == i
  {
  }

  /** Lines that follow a text end do not move its first marker. */
  lemma {:induction false} FirstMarkerAppend(lines: seq<string>, extra: seq<string>, terms: seq<string>)
    requires FirstMarker(lines, terms) < |lines|
    ensures FirstMarker(lines + extra, terms) == FirstMarker(lines, terms)
  {
    var i := FirstMarker(lines, terms);
    var j := FirstMarker(lines + extra, terms);
    assert (lines + extra)[i] == lines[i];
  }

  /** Each line prefixed with "- ", the bullet the extractors add. */
  function Bullets(lines: seq<string>): (items: seq<string>)
    decreases |lines|
  {
    if lines == [] then [] else Bullets(lines[..|lines| - 1]) + ["- " + lines[|lines| - 1]]
  }

  lemma {:induction false} BulletsAppend(a: seq<string>, b: seq<string>)
    ensures Bullets(a + b) == Bullets(a) + Bullets(b)
    decreases |b|
  {
    if b != [] {
      var b' := b[..|b| - 1];
      BulletsAppend(a, b');
      assert (a + b)[..|a + b| - 1] == a + b';
      assert (a + b)[|a + b| - 1] == b[|b| - 1];
      assert Bullets(a + b) == Bullets(a + b') + ["- " + b[|b| - 1]];
      assert Bullets(b) == Bullets(b') + ["- " + b[|b| - 1]];
    } else {
      assert a + b == a;
    }
  }

  /**
   * What `get_ingredients` returns for these lines: the bulleted lines after
   * the first ingredients marker, up to the next instructions marker or the
   * end, without junk entries; nothing when no line is an ingredients marker.
   */
  function IngredientsOf(lines: seq<string>): seq<string>
  {
    var i := FirstMarker(lines, IngredientsTerms);
    if i == |lines| then []
    else
      var rest := lines[i + 1..];
      CleanList(Bullets(rest[..FirstMarker(rest, InstructionsTerms)]))
  }

  function Ingredients(content: string): seq<string>
  {
    IngredientsOf(Lines(content))
  }

  /**
   * What `get_instructions` returns for these lines: every bulleted line after
   * the first instructions marker, to the very end, without junk entries.
   */
  function InstructionsOf(lines: seq<string>): seq<string>
  {
    var i := FirstMarker(lines, InstructionsTerms);
    if i == |lines| then [] else CleanList(Bullets(lines[i + 1..]))
  }

  function Instructions(content: string): seq<string>
  {
    InstructionsOf(Lines(content))
  }

  /** `get_ingredients`: scan for the first marker, then collect until an instructions marker. */
  method GetIngredients(content: string) returns (ingredients: seq<string>)
    ensures ingredients == Ingredients(content)
  {
    ingredients := [];
    var lines := Lines(content);
    var lineNum := 0;
    while lineNum < |lines|
      invariant 0 <= lineNum <= |lines|
      invariant forall k :: 0 <= k < lineNum ==> !IsMarker(lines[k], IngredientsTerms)
      invariant ingredients == []
    {
      if IsMarker(lines[lineNum], IngredientsTerms) {
        assert FirstMarker(lines, IngredientsTerms) == lineNum;
        ingredients := BulletsUntilMarker(lines[lineNum + 1..], InstructionsTerms);
        break;
      }
      lineNum := lineNum + 1;
    }
    ingredients := CleanList(ingredients);
  }

  /** The inner loop of `get_ingredients`: bullet each line until a marker line. */
  method BulletsUntilMarker(lines: seq<string>, stop: seq<string>) returns (items: seq<string>)
    ensures items == Bullets(lines[..FirstMarker(lines, stop)])
  {
    items := [];
    var j := 0;
    while j < |lines|
      invariant 0 <= j <= |lines|
      invariant forall k :: 0 <= k < j ==> !IsMarker(lines[k], stop)
      invariant items == Bullets(lines[..j])
    {
      if !IsMarker(lines[j], stop) {
        assert lines[..j + 1][..j] == lines[..j];
        items := items + ["- " + lines[j]];
        j := j + 1;
      } else {
        break;
      }
    }
    assert FirstMarker(lines, stop) == j;
  }

  /** `get_instructions`: scan for the first marker, then collect every following line. */
  method GetInstructions(content: string) returns (instructions: seq<string>)
    ensures instructions == Instructions(content)
  {
    instructions := [];
    var lines := Lines(content);
    var lineNum := 0;
    while lineNum < |lines|
      invariant 0 <= lineNum <= |lines|
      invariant forall k :: 0 <= k < lineNum ==> !IsMarker(lines[k], InstructionsTerms)
      invariant instructions == []
    {
      if IsMarker(lines[lineNum], InstructionsTerms) {
        assert FirstMarker(lines, InstructionsTerms) == lineNum;
        instructions := BulletsToEnd(lines[lineNum + 1..]);
        break;
      }
      lineNum := lineNum + 1;
    }
    instructions := CleanList(instructions);
  }

  /** The inner loop of `get_instructions`: bullet every line, with no stop condition. */
  method BulletsToEnd(lines: seq<string>) returns (items: seq<string>)
    ensures items == Bullets(lines)
  {
    items := [];
    for j := 0 to |lines|
      invariant items == Bullets(lines[..j])
    {
      assert lines[..j + 1][..j] == lines[..j];
      items := items + ["- " + lines[j]];
    }
    assert lines[..|lines|] == lines;
  }

  /**
   * The ingredients section is the one the first marker opens: given the
   * first ingredients marker `i` and the first instructions marker `j` after
   * it (or the end), the result is the bulleted lines strictly between them.
   */
  lemma IngredientsSection(lines: seq<string>, i: nat, j: nat)
    requires i < j <= |lines|
    requires IsMarker(lines[i], IngredientsTerms)
    requires forall k :: 0 <= k < i ==> !IsMarker(lines[k], IngredientsTerms)
    requires j < |lines| ==> IsMarker(lines[j], InstructionsTerms)
    requires forall k :: i < k < j ==> !IsMarker(lines[k], InstructionsTerms)
    ensures IngredientsOf(lines) == CleanList(Bullets(lines[i + 1..j]))
  {
    FirstMarkerIs(lines, IngredientsTerms, i);
    var rest := lines[i + 1..];
    var n := j - i - 1;
    forall k | 0 <= k < n ensures !IsMarker(rest[k], InstructionsTerms) {
      assert rest[k] == lines[i + 1 + k];
    }
    if n < |rest| {
      assert rest[n] == lines[j];
    }
    FirstMarkerIs(rest, InstructionsTerms, n);
    assert rest[..n] == lines[i + 1..j];
  }

  /** No ingredients marker, no ingredients. */
  lemma NoIngredientsWithoutMarker(lines: seq<string>)
    requires forall k :: 0 <= k < |lines| ==> !IsMarker(lines[k], IngredientsTerms)
    ensures IngredientsOf(lines) == []
  {
  }

  /**
   * Once an ingredients section has been closed by an instructions marker,
   * whatever follows (another ingredients section included) is never read.
   */
  lemma IngredientsIgnoreLaterText(lines: seq<string>, extra: seq<string>)
    requires FirstMarker(lines, IngredientsTerms) < |lines|
    requires var rest := lines[FirstMarker(lines, IngredientsTerms) + 1..];
      FirstMarker(rest, InstructionsTerms) < |rest|
    ensures IngredientsOf(lines + extra) == IngredientsOf(lines)
  {
    var i := FirstMarker(lines, IngredientsTerms);
    FirstMarkerAppend(lines, extra, IngredientsTerms);
    var rest := lines[i + 1..];
    assert (lines + extra)[i + 1..] == rest + extra;
    FirstMarkerAppend(rest, extra, InstructionsTerms);
    var f := FirstMarker(rest, InstructionsTerms);
    assert (rest + extra)[..f] == rest[..f];
  }

  /**
   * Instruction extraction has no stop marker: every line after the first
   * instructions marker is kept, whatever follows it (a signature included).
   */
  lemma InstructionsReadToEnd(lines: seq<string>, extra: seq<string>)
    requires FirstMarker(lines, InstructionsTerms) < |lines|
    ensures InstructionsOf(lines + extra) == InstructionsOf(lines) + CleanList(Bullets(extra))
  {
    var i := FirstMarker(lines, InstructionsTerms);
    FirstMarkerAppend(lines, extra, InstructionsTerms);
    var tail := lines[i + 1..];
    assert (lines + extra)[i + 1..] == tail + extra;
    BulletsAppend(tail, extra);
    CleanListAppend(Bullets(tail), Bullets(extra));
    calc {
      InstructionsOf(lines + extra);
      CleanList(Bullets(tail + extra));
      CleanList(Bullets(tail) + Bullets(extra));
      CleanList(Bullets(tail)) + CleanList(Bullets(extra));
    }
  }

  /**
   * The detector and the extractors agree: detection on the cleaned text
   * holds exactly when both extractors find their marker in the raw lines.
   */
  lemma DetectionMatchesExtraction(content: string)
    ensures IsRecipe(CleanUp(content)) <==>
      FirstMarker(Lines(content), IngredientsTerms) < |Lines(content)| &&
      FirstMarker(Lines(content), InstructionsTerms) < |Lines(content)|
  {
    if IsRecipe(CleanUp(content)) {
      DetectionFindsMarkers(content);
    }
    if FirstMarker(Lines(content), IngredientsTerms) < |Lines(content)| &&
       FirstMarker(Lines(content), InstructionsTerms) < |Lines(content)| {
      MarkersAreDetected(content);
    }
  }

  lemma DetectionFindsMarkers(content: string)
    requires IsRecipe(CleanUp(content))
    ensures FirstMarker(Lines(content), IngredientsTerms) < |Lines(content)|
    ensures FirstMarker(Lines(content), InstructionsTerms) < |Lines(content)|
  {
    var raw := Lines(content);
    var clean := Lines(CleanUp(content));
    CleanUpKeepsLines(content);
    IsRecipeMeans(CleanUp(content));
    var i :| 0 <= i < |clean| && clean[i] in IngredientsTerms;
    var j :| 0 <= j < |clean| && clean[j] in InstructionsTerms;
    assert IsMarker(raw[i], IngredientsTerms);
    assert IsMarker(raw[j], InstructionsTerms);
  }

  lemma MarkersAreDetected(content: string)
    requires FirstMarker(Lines(content), IngredientsTerms) < |Lines(content)|
    requires FirstMarker(Lines(content), InstructionsTerms) < |Lines(content)|
    ensures IsRecipe(CleanUp(content))
  {
    var raw := Lines(content);
    var clean := Lines(CleanUp(content));
    CleanUpKeepsLines(content);
    IsRecipeMeans(CleanUp(content));
    var fi := FirstMarker(raw, IngredientsTerms);
    var fs := FirstMarker(raw, InstructionsTerms);
    assert clean[fi] in IngredientsTerms;
    assert clean[fs] in InstructionsTerms;
  }

  // ---------------------------------------------------------------------------
  // determine_type

  const BreakfastTerms: seq<string> := ["breakfast", "morning", "wake up"]
  const LunchTerms: seq<string> := ["lunch", "afternoon", "break"]
  const DinnerTerms: seq<string> := ["dinner", "night", "sleep", "family dinner", "supper"]

  /** The categories, in the order of `type_dict` (the order ties are broken in). */
  const MealTypes: seq<string> := ["Breakfast", "Lunch", "Dinner"]

  /** The label used when no word votes. */
  const AllMeals: string := "All meals!"

  /** The category a word votes for: the first list that contains it wins. */
  function Vote(word: string): Option<string>
  {
    if word in BreakfastTerms then Some("Breakfast")
    else if word in LunchTerms then Some("Lunch")
    else if word in DinnerTerms then Some("Dinner")
    else None
  }

  /** The number of words voting for `meal`. */
  function Tally(words: seq<string>, meal: string): nat
    decreases |words|
  {
    if words == [] then 0
    else Tally(words[..|words| - 1], meal) + (if Vote(words[|words| - 1]) == Some(meal) then 1 else 0)
  }

  /** The counters of `type_dict` after the words have voted. */
  function Counts(words: seq<string>): map<string, nat>
  {
    map["Breakfast" := Tally(words, "Breakfast"), "Lunch" := Tally(words, "Lunch"), "Dinner" := Tally(words, "Dinner")]
  }

  /** One more word adds its vote, if any, to its category's counter. */
  lemma CountsAppend(words: seq<string>, word: string)
    ensures Vote(word).None? ==> Counts(words + [word]) == Counts(words)
    ensures Vote(word).Some? ==> Counts(words + [word]) == Counts(words)[Vote(word).value := Counts(words)[Vote(word).value] + 1]
  {
    var ws := words + [word];
    assert ws[..|ws| - 1] == words && ws[|ws| - 1] == word;
  }

  /** The counters as a sequence, in category order. */
  function CountsInOrder(counts: map<string, nat>): seq<int>
    requires forall m :: m in MealTypes ==> m in counts
  {
    [counts["Breakfast"], counts["Lunch"], counts["Dinner"]]
  }

  /** The votes for each category, in category order. */
  function Tallies(words: seq<string>): (t: seq<int>)
    ensures |t| == |MealTypes|
  {
    [Tally(words, "Breakfast"), Tally(words, "Lunch"), Tally(words, "Dinner")]
  }

  /** The words the meal vote sees: the whitespace tokens, cleaned of junk. */
  function VotingWords(post: string): seq<string>
  {
    CleanList(Words(post))
  }

  /**
   * What `determine_type` returns: the category with the most votes, the
   * first in category order on a tie, and "All meals!" when nothing voted.
   */
  function MealType(post: string): string
  {
    var values := Tallies(VotingWords(post));
    var best := FirstArgmax(values);
    if values[best] == 0 then AllMeals else MealTypes[best]
  }

  /**
   * The type is "All meals!" exactly when no category got a vote; otherwise
   * it is a category with the most votes and no earlier category ties it.
   */
  lemma MealTypeIsBest(post: string)
    ensures MealType(post) == AllMeals <==> forall j :: 0 <= j < |MealTypes| ==> Tallies(VotingWords(post))[j] == 0
    ensures MealType(post) != AllMeals ==>
      exists i :: 0 <= i < |MealTypes| && MealType(post) == MealTypes[i] && IsFirstMax(Tallies(VotingWords(post)), i)
  {
    var values := Tallies(VotingWords(post));
    var best := FirstArgmax(values);
    assert IsFirstMax(values, best);
  }

  /** Entry `i` is maximal, and every entry before it is strictly smaller. */
  predicate IsFirstMax(values: seq<int>, i: nat)
    requires i < |values|
  {
    (forall j :: 0 <= j < |values| ==> values[j] <= values[i]) &&
    (forall j :: 0 <= j < i ==> values[j] < values[i])
  }

  /** `determine_type`: tokenise, count the votes in `type_dict`, take the first maximum. */
  method DetermineType(post: string) returns (recipeType: string)
    ensures recipeType == MealType(post)
  {
    var words := Words(post);
    words := CleanList(words);
    var typeDict: map<string, nat> := map["Breakfast" := 0, "Lunch" := 0, "Dinner" := 0];
    assert words[..0] == [];
    for i := 0 to |words|
      invariant typeDict == Counts(words[..i])
    {
      var word := words[i];
      assert words[..i + 1] == words[..i] + [word];
      CountsAppend(words[..i], word);
      if word in BreakfastTerms {
        typeDict := typeDict["Breakfast" := typeDict["Breakfast"] + 1];
      } else if word in LunchTerms {
        typeDict := typeDict["Lunch" := typeDict["Lunch"] + 1];
      } else if word in DinnerTerms {
        typeDict := typeDict["Dinner" := typeDict["Dinner"] + 1];
      }
    }
    assert words[..|words|] == words;
    CountsInOrderOfCounts(words);
    var best := FirstArgmax(CountsInOrder(typeDict));
    recipeType := MealTypes[best];
    CountOfCategory(typeDict, best);
    if typeDict[recipeType] == 0 {
      recipeType := AllMeals;
    }
  }

  /** The counters of `type_dict`, read in category order, are the tallies. */
  lemma CountsInOrderOfCounts(words: seq<string>)
    ensures CountsInOrder(Counts(words)) == Tallies(words)
  {
  }

  /** Entry `i` of the counters in category order is the counter of category `i`. */
  lemma CountOfCategory(counts: map<string, nat>, i: nat)
    requires forall m :: m in MealTypes ==> m in counts
    requires i < |MealTypes|
    ensures counts[MealTypes[i]] == CountsInOrder(counts)[i]
  {
  }

  /** Each word adds to at most one counter. */
  lemma {:induction false} TalliesBoundedByWords(words: seq<string>)
    ensures Tally(words, "Breakfast") + Tally(words, "Lunch") + Tally(words, "Dinner") <= |words|
    decreases |words|
  {
    if words != [] {
      TalliesBoundedByWords(words[..|words| - 1]);
    }
  }

  /** The two-word terms can never match a whitespace token, so they never vote. */
  lemma MultiWordTermsNeverVote(post: string)
    ensures forall w :: w in VotingWords(post) ==> w != "wake up" && w != "family dinner"
  {
    CleanListKeeps(Words(post));
    forall w | w in VotingWords(post) ensures w != "wake up" && w != "family dinner" {
      var ws := Words(post);
      assert w in ws;
      var k :| 0 <= k < |ws| && ws[k] == w;
      assert IsWord(w);
      assert "wake up"[4] == ' ' && "family dinner"[6] == ' ';
    }
  }

  /** Text without any voting word is typed "All meals!". */
  lemma EmptyTextIsAllMeals()
    ensures MealType("") == AllMeals
  {
  }

  /** The only voting word of "breakfast" followed by a blank line is "breakfast". */
  lemma BreakfastTextWords(text: string)
    requires text == "breakfast\n\n"
    ensures VotingWords(text) == ["breakfast"]
  {
    var w := "breakfast";
    var sp := "\n\n";
    assert w + sp == text;
    assert IsWord(w);
    WordsOfWordThenSpaces(w, sp);
    assert !IsJunk(w);
    assert [w][1..] == [];
  }

  /** One "breakfast" is one vote for the first category and none for the others. */
  lemma BreakfastTallies()
    ensures Tallies(["breakfast"]) == [1, 0, 0]
  {
    var words := ["breakfast"];
    assert words[..0] == [];
    assert Vote("breakfast") == Some("Breakfast");
  }

  /** A text whose one word is "breakfast" is typed "Breakfast". */
  lemma BreakfastTextVotesBreakfast(text: string)
    requires text == "breakfast\n\n"
    ensures MealType(text) == "Breakfast"
  {
    BreakfastTextWords(text);
    BreakfastTallies();
    var values := Tallies(VotingWords(text));
    assert values == [1, 0, 0];
    FirstArgmaxUnique(values, 0);
  }

  // ---------------------------------------------------------------------------
  // determine_title

  /** The text scored against the catalog: `' '.join((post_title, post_text))`. */
  function TitleText(post: Post): string
  {
    post.Title() + " " + post.Content()
  }

  /** The score of every catalog title against `text`, in catalog order. */
  function Scores(titles: seq<string>, text: string, ratio: (string, string) -> int): (s: seq<int>)
    ensures |s| == |titles|
  {
    seq(|titles|, k requires 0 <= k < |titles| => ratio(titles[k], text))
  }

  /**
   * What `determine_title` returns: a catalog title of maximal score, the
   * first such title in catalog order.
   */
  function BestTitle(titles: seq<string>, post: Post, ratio: (string, string) -> int): string
    requires |titles| > 0
  {
    titles[FirstArgmax(Scores(titles, TitleText(post), ratio))]
  }

  /** The title is a catalog entry of maximal score, and no earlier entry scores as high. */
  lemma BestTitleIsBest(titles: seq<string>, post: Post, ratio: (string, string) -> int)
    requires |titles| > 0
    ensures exists i ::
      0 <= i < |titles| && BestTitle(titles, post, ratio) == titles[i] &&
      IsFirstMax(Scores(titles, TitleText(post), ratio), i)
  {
    var scores := Scores(titles, TitleText(post), ratio);
    var i := FirstArgmax(scores);
    assert IsFirstMax(scores, i);
  }

  /**
   * `determine_title`: score every catalog title into the title table, then
   * take the first title of maximal score. `ratio` is the fuzzy token-set
   * scorer, taken as given.
   */
  method DetermineTitle(titles: seq<string>, post: Post, ratio: (string, string) -> int) returns (title: string)
    requires |titles| > 0
    ensures title == BestTitle(titles, post, ratio)
  {
    var textToAnalyze := post.Title() + " " + post.Content();
    var recipeTitles: map<string, int> := map[];
    for i := 0 to |titles|
      invariant forall k :: 0 <= k < i ==>
        titles[k] in recipeTitles && recipeTitles[titles[k]] == ratio(titles[k], textToAnalyze)
    {
      recipeTitles := recipeTitles[titles[i] := ratio(titles[i], textToAnalyze)];
    }
    var values := seq(|titles|, k requires 0 <= k < |titles| => recipeTitles[titles[k]]);
    assert values == Scores(titles, textToAnalyze, ratio);
    title := titles[FirstArgmax(values)];
  }
}
