/** The recipe record and its text layout (src/Recipe.py). */
module Recipes {
  import opened Strings

  /** Who posted, the score, the creation time, the post id and its link. */
  datatype PostInfo = PostInfo(author: string, karma: int, time: int, id: string, link: string)

  /** What the analysis extracted: a catalog title, the bullet lines and the meal type. */
  datatype RefinedPost = RefinedPost(title: string, ingredients: seq<string>, instructions: seq<string>, recipeType: string)

  /** A recipe: the fields of a PostInfo and a RefinedPost, flattened; `url` holds the link. */
  datatype Recipe = Recipe(
    author: string,
    karma: int,
    time: int,
    id: string,
    url: string,
    title: string,
    ingredients: seq<string>,
    instructions: seq<string>,
    recipeType: string)

  /** The PostInfo part of a recipe. */
  function Info(r: Recipe): PostInfo
  {
    PostInfo(r.author, r.karma, r.time, r.id, r.url)
  }

  /** The RefinedPost part of a recipe. */
  function Refined(r: Recipe): RefinedPost
  {
    RefinedPost(r.title, r.ingredients, r.instructions, r.recipeType)
  }

  /** `Recipe(post_info, refined_post)`: every field is copied from one of the two containers. */
  function NewRecipe(info: PostInfo, refined: RefinedPost): (r: Recipe)
    ensures Info(r) == info && Refined(r) == refined
  {
    Recipe(info.author, info.karma, info.time, info.id, info.link,
           refined.title, refined.ingredients, refined.instructions, refined.recipeType)
  }

  /** Flattening loses nothing: a recipe is rebuilt from its two parts. */
  lemma NewRecipeOfParts(r: Recipe)
    ensures NewRecipe(Info(r), Refined(r)) == r
  {
  }

  /** `str(recipe)`: title line, link, then the ingredients and instructions blocks. */
  function Render(r: Recipe): string
  {
    r.title + " - /u/" + r.author + "\n" + r.url + "\n\nIngredients:\n\n" +
      Join(r.ingredients, '\n') + "\n\nInstructions:\n\n" + Join(r.instructions, '\n')
  }

  /** The text starts with the title. */
  lemma RenderStartsWithTitle(r: Recipe)
    ensures |r.title| <= |Render(r)| && Render(r)[..|r.title|] == r.title
  {
    var rest := " - /u/" + r.author + "\n" + r.url + "\n\nIngredients:\n\n" +
      Join(r.ingredients, '\n') + "\n\nInstructions:\n\n" + Join(r.instructions, '\n');
    assert Render(r) == r.title + rest;
  }

  /** The text ends with the last instruction, or with the instructions heading when there are none. */
  lemma RenderEndsWithInstructions(r: Recipe)
    ensures r.instructions == [] ==>
      var tail := "Instructions:\n\n"; |tail| <= |Render(r)| && Render(r)[|Render(r)| - |tail|..] == tail
    ensures r.instructions != [] ==>
      var last := r.instructions[|r.instructions| - 1]; |last| <= |Render(r)| && Render(r)[|Render(r)| - |last|..] == last
  {
    var head := r.title + " - /u/" + r.author + "\n" + r.url + "\n\nIngredients:\n\n" +
      Join(r.ingredients, '\n') + "\n\n";
    var body := Join(r.instructions, '\n');
    var s := Render(r);
    if r.instructions == [] {
      assert s == head + "Instructions:\n\n";
    } else {
      assert s == (head + "Instructions:\n\n") + body;
      assert s[|s| - |body|..] == body;
      JoinEndsWithLast(r.instructions, '\n');
    }
  }

  /** A list as `'\n'.join` lays it out in lines: the empty list still takes one blank line. */
  function Block(items: seq<string>): (b: seq<string>)
    ensures |b| >= 1 && Join(b, '\n') == Join(items, '\n')
    ensures items != [] ==> b == items
  {
    if items == [] then [""] else items
  }

  /**
   * The lines of `str(recipe)`: the title line naming the author, the link,
   * a blank line, the ingredients heading and a blank line, the ingredient
   * lines, a blank line, the instructions heading and a blank line, then the
   * instruction lines.
   */
  function Layout(r: Recipe): seq<string>
  {
    [r.title + " - /u/" + r.author, r.url, "", "Ingredients:", ""] + Block(r.ingredients) +
      ["", "Instructions:", ""] + Block(r.instructions)
  }

  /** When no field and no entry holds a newline, the text splits at '\n' into exactly those lines. */
  lemma RenderLines(r: Recipe)
    requires '\n' !in r.title && '\n' !in r.author && '\n' !in r.url
    requires forall k :: 0 <= k < |r.ingredients| ==> '\n' !in r.ingredients[k]
    requires forall k :: 0 <= k < |r.instructions| ==> '\n' !in r.instructions[k]
    ensures Split(Render(r), '\n') == Layout(r)
  {
    RenderIsJoinOfLayout(r);
    LayoutLinesHaveNoNewline(r);
    SplitJoin(Layout(r), '\n');
  }

  /** The text is the layout's lines joined by '\n'. */
  lemma RenderIsJoinOfLayout(r: Recipe)
    ensures Join(Layout(r), '\n') == Render(r)
  {
    var nl := '\n';
    var head := r.title + " - /u/" + r.author;
    var top := [head, r.url, "", "Ingredients:", ""];
    var mid := ["", "Instructions:", ""];
    var ing := Block(r.ingredients);
    var ins := Block(r.instructions);
    assert Layout(r) == top + ing + mid + ins;
    JoinAppend(top, ing, nl);
    JoinAppend(top + ing, mid, nl);
    JoinAppend(top + ing + mid, ins, nl);
    TopLines(head, r.url);
    MidLines();
    var front := Join(top, nl) + [nl] + Join(r.ingredients, nl);
    AppendAssoc(front, [nl], Join(mid, nl), [nl]);
  }

  /** The first five lines, joined and ended by the separator: the title line, the link, and the ingredients heading between blank lines. */
  lemma TopLines(head: string, url: string)
    ensures Join([head, url, "", "Ingredients:", ""], '\n') + ['\n'] == head + "\n" + url + "\n\nIngredients:\n\n"
  {
    var heading := ["", "Ingredients:", ""];
    assert [head, url, "", "Ingredients:", ""] == [head] + ([url] + heading);
    JoinCons(head, [url] + heading, '\n');
    JoinCons(url, heading, '\n');
    HeadingLines();
    var x := head + "\n" + url;
    assert Join([head, url, "", "Ingredients:", ""], '\n') == x + "\n\nIngredients:\n";
    HeadingThenNewline(x);
  }

  lemma HeadingLines()
    ensures Join(["", "Ingredients:", ""], '\n') == "\nIngredients:\n"
  {
  }

  lemma HeadingThenNewline(x: string)
    ensures (x + "\n\nIngredients:\n") + ['\n'] == x + "\n\nIngredients:\n\n"
  {
    assert "\n\nIngredients:\n" + ['\n'] == "\n\nIngredients:\n\n";
  }

  /** The instructions heading between blank lines, with a separator on each side. */
  lemma MidLines()
    ensures ['\n'] + Join(["", "Instructions:", ""], '\n') + ['\n'] == "\n\nInstructions:\n\n"
  {
  }

  /** Regrouping the rendered pieces; stated once so the layout proof need not search for it. */
  lemma AppendAssoc(a: string, b: string, c: string, d: string)
    ensures a + b + c + d == a + (b + c + d)
  {
  }

  /** No line of the layout holds a newline when no field and no entry does. */
  lemma LayoutLinesHaveNoNewline(r: Recipe)
    requires '\n' !in r.title && '\n' !in r.author && '\n' !in r.url
    requires forall k :: 0 <= k < |r.ingredients| ==> '\n' !in r.ingredients[k]
    requires forall k :: 0 <= k < |r.instructions| ==> '\n' !in r.instructions[k]
    ensures forall k :: 0 <= k < |Layout(r)| ==> '\n' !in Layout(r)[k]
  {
    var top := [r.title + " - /u/" + r.author, r.url, "", "Ingredients:", ""];
    var mid := ["", "Instructions:", ""];
    var ing := Block(r.ingredients);
    var ins := Block(r.instructions);
    var l := Layout(r);
    assert l == top + ing + mid + ins;
    forall k | 0 <= k < |l| ensures '\n' !in l[k] {
      if k < 5 {
        assert l[k] == top[k];
      } else if k < 5 + |ing| {
        assert l[k] == ing[k - 5];
      } else if k < 8 + |ing| {
        assert l[k] == mid[k - 5 - |ing|];
      } else {
        assert l[k] == ins[k - 8 - |ing|];
      }
    }
  }

  /** `repr(recipe)` is the same text as `str(recipe)`. */
  function ReprText(r: Recipe): (s: string)
    ensures s == Render(r)
  {
    Render(r)
  }
}
