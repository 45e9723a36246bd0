/**
  The recommender: selection of the `n` best-scoring recipes from the similarity
  scores, and the text it answers with, one numbered block per selected recipe.

  The similarity scores (TF-IDF vectors and cosine similarity of the query against
  the corpus) are inputs here, together with the order in which an ascending
  `argsort` lists the indices.
 */
module Recommender {
  import opened Wrappers
  import opened Seqs
  import opened StringOps
  import opened TextPreprocessor
  import opened DataProcessor

  /* ---------------------------------------------------------------- selection */

  function Min(a: int, b: int): int
  {
    if a <= b then a else b
  }

  /**
    `order` is an ascending `argsort` of `scores`: every index exactly once, scores
    non-decreasing along it. The order among equal scores is left open.
   */
  predicate IsArgsort(scores: seq<real>, order: seq<nat>)
  {
    && |order| == |scores|
    && (forall i :: 0 <= i < |order| ==> order[i] < |scores|)
    && (forall i, j :: 0 <= i < j < |order| ==> order[i] != order[j])
    && (forall x :: 0 <= x < |scores| ==> x in order)
    && (forall i, j :: 0 <= i < j < |order| ==> scores[order[i]] <= scores[order[j]])
  }

  /**
    `a[:stop:-1]`: from the last element backwards, up to but excluding position
    `stop`, with a negative `stop` counted from the end and clamped at -1, and a
    `stop` beyond the end clamped at the last position.
   */
  function ReverseSliceTo<T>(a: seq<T>, stop: int): seq<T>
  {
    var len := |a|;
    var last := if stop < 0 then (if stop + len < 0 then -1 else stop + len)
                else (if stop >= len then len - 1 else stop);
    seq(len - 1 - last, k requires 0 <= k < len - 1 - last => a[len - 1 - k])
  }

  /** `order[:-n-1:-1]`. */
  function TopIndices(order: seq<nat>, n: nat): seq<nat>
  {
    ReverseSliceTo(order, -(n as int) - 1)
  }

  /** The slice is the last `min(n, |order|)` indices of the argsort, last one first. */
  lemma TopIndicesAreLastReversed(order: seq<nat>, n: nat)
    ensures |TopIndices(order, n)| == Min(n, |order|)
    ensures forall k :: 0 <= k < |TopIndices(order, n)| ==> TopIndices(order, n)[k] == order[|order| - 1 - k]
  {
  }

  /**
    The selection is a true top-n: `min(n, |scores|)` distinct valid indices, best
    score first, and no index left out scores higher than one selected.
   */
  lemma TopIndicesAreTopN(scores: seq<real>, order: seq<nat>, n: nat)
    requires IsArgsort(scores, order)
    ensures var top := TopIndices(order, n);
      && |top| == Min(n, |scores|)
      && (forall k :: 0 <= k < |top| ==> top[k] < |scores|)
      && (forall k, l :: 0 <= k < l < |top| ==> top[k] != top[l])
      && (forall k, l :: 0 <= k < l < |top| ==> scores[top[k]] >= scores[top[l]])
      && (forall x, k :: 0 <= x < |scores| && x !in top && 0 <= k < |top| ==> scores[x] <= scores[top[k]])
  {
    var top := TopIndices(order, n);
    TopIndicesAreLastReversed(order, n);
    var len := |order|;
    forall q | len - |top| <= q < len ensures order[q] in top {
      assert top[len - 1 - q] == order[q];
    }
    forall x, k | 0 <= x < |scores| && x !in top && 0 <= k < |top|
      ensures scores[x] <= scores[top[k]]
    {
      assert x in order;
      var p :| 0 <= p < len && order[p] == x;
      if p < len - 1 - k {
        assert scores[order[p]] <= scores[order[len - 1 - k]];
      }
    }
  }

  /** Asking for no recipe selects none. */
  lemma NoTopIndices(order: seq<nat>)
    ensures TopIndices(order, 0) == []
  {
  }

  /* ---------------------------------------------------------------- formatting */

  /** The fields `_format_recipe` reads. */
  datatype RecipeDict = RecipeDict(title: string, ingredients: Value, instructions: Value)

  /** The error of calling `split` on a list. */
  datatype FormatError = ListHasNoSplit

  /** A string is split on commas; a list is taken as it is. */
  function IngredientList(v: Value): seq<string>
  {
    match v
    case Text(t) => Split(t, ',')
    case Items(xs) => xs
  }

  function Bullet(piece: string): string
  {
    "- " + Strip(piece)
  }

  function IngredientLines(v: Value): seq<string>
  {
    Map(IngredientList(v), Bullet)
  }

  /** A piece that gives a step: non-blank once stripped. */
  function IsStep(p: (nat, string)): bool
  {
    Strip(p.1) != []
  }

  /** The line of the piece at position `p.0`: numbered by that position plus one. */
  function StepLine(p: (nat, string)): string
  {
    NatToString(p.0 + 1) + ". " + Strip(p.1)
  }

  /** The pieces that give steps, each with its position among all pieces. */
  function Steps(pieces: seq<string>): seq<(nat, string)>
  {
    Filter(Enumerate(pieces), IsStep)
  }

  function StepLines(pieces: seq<string>): seq<string>
  {
    Map(Steps(pieces), StepLine)
  }

  /** The instruction pieces as written: a string is split on periods, a list has no `split`. */
  function InstructionListAsWritten(v: Value): Result<seq<string>, FormatError>
  {
    match v
    case Text(t) => Success(Split(t, '.'))
    case Items(_) => Failure(ListHasNoSplit)
  }

  /** The instruction pieces, with a list taken as one piece per entry. */
  function InstructionList(v: Value): seq<string>
  {
    match v
    case Text(t) => Split(t, '.')
    case Items(xs) => xs
  }

  /** `f"{index}. {title}"`. */
  function Header(index: nat, title: string): string
  {
    NatToString(index) + ". " + title
  }

  /** The block around the header, the bullet lines and the step lines. */
  function Block(index: nat, title: string, bullets: seq<string>, steps: seq<string>): string
  {
    "\n" + Header(index, title) + "\n" + "Ingredients:" + "\n" + Join(bullets, "\n")
    + "\n" + "Instructions:" + "\n" + Join(steps, "\n") + "\n"
  }

  /** `_format_recipe` as written: a list of instructions raises. */
  function FormatRecipeAsWritten(index: nat, d: RecipeDict): (r: Result<string, FormatError>)
    ensures r.Failure? <==> d.instructions.Items?
  {
    match InstructionListAsWritten(d.instructions)
    case Failure(e) => Failure(e)
    case Success(pieces) => Success(Block(index, d.title, IngredientLines(d.ingredients), StepLines(pieces)))
  }

  /**
    `_format_recipe`, with a list of instructions read one step per entry; wherever
    the source succeeds (string instructions) the two agree.
   */
  function FormatRecipe(index: nat, d: RecipeDict): (r: string)
    ensures d.instructions.Text? ==> FormatRecipeAsWritten(index, d) == Success(r)
  {
    Block(index, d.title, IngredientLines(d.ingredients), StepLines(InstructionList(d.instructions)))
  }

  /**
    String ingredients give one line per comma-separated piece (commas plus one),
    empty pieces included; each line is `- ` and the stripped piece.
   */
  lemma IngredientLinesSpec(t: string)
    ensures |IngredientLines(Text(t))| == multiset(t)[','] + 1
    ensures forall i :: 0 <= i < |IngredientLines(Text(t))| ==>
              IngredientLines(Text(t))[i] == "- " + Strip(Split(t, ',')[i])
    ensures forall i :: 0 <= i < |IngredientLines(Text(t))| ==> ',' !in IngredientLines(Text(t))[i][2..]
  {
    SplitSpec(t, ',');
    var pieces := Split(t, ',');
    assert IngredientList(Text(t)) == pieces;
    forall i | 0 <= i < |pieces| ensures IngredientLines(Text(t))[i] == "- " + Strip(pieces[i]) {
      assert IngredientLines(Text(t))[i] == Bullet(pieces[i]);
    }
    forall i | 0 <= i < |pieces| ensures ',' !in Strip(pieces[i]) {
      StripLeadingSpec(pieces[i]);
      StripTrailingSpec(StripLeading(pieces[i]));
      var r := Strip(pieces[i]);
      forall c | c in r ensures c != ',' {
        var j :| 0 <= j < |r| && r[j] == c;
        var l := StripLeading(pieces[i]);
        assert r[j] == l[j];
        assert l[j] == pieces[i][|pieces[i]| - |l| + j];
      }
    }
  }

  /**
    A step line is emitted exactly for each non-blank piece, in order; its number is
    the piece's position among all pieces plus one, so numbers strictly increase and
    skip the blank pieces.
   */
  lemma StepsSpec(pieces: seq<string>)
    ensures IncreasingKeys(Steps(pieces))
    ensures forall k :: 0 <= k < |Steps(pieces)| ==>
              var (i, piece) := Steps(pieces)[k];
              i < |pieces| && piece == pieces[i] && Strip(piece) != []
    ensures forall i :: 0 <= i < |pieces| && Strip(pieces[i]) != [] ==> (i, pieces[i]) in Steps(pieces)
    ensures |StepLines(pieces)| == |Steps(pieces)|
  {
    var e: seq<(nat, string)> := Enumerate(pieces);
    assert IncreasingKeys(e);
    FilterIncreasingKeys<string>(e, IsStep);
    FilterIsSubsequence<(nat, string)>(e, IsStep);
    SubsequenceMembers<(nat, string)>(Steps(pieces), e);
    FilterCounts<(nat, string)>(e, IsStep);
    forall i | 0 <= i < |pieces| && Strip(pieces[i]) != [] ensures (i, pieces[i]) in Steps(pieces) {
      assert e[i] == (i, pieces[i]);
      assert multiset(e)[(i, pieces[i])] > 0;
    }
  }

  /** A leading blank does not change what `strip()` gives. */
  lemma StripAfterBlank(w: string)
    ensures Strip(" " + w) == Strip(w)
  {
    assert (" " + w)[1..] == w;
  }

  lemma SplitDoublePeriod(a: string, b: string)
    requires '.' !in a && '.' !in b
    ensures Split(a + ".. " + b, '.') == [a, "", " " + b]
  {
    var b' := " " + b;
    assert a + ".. " + b == a + ['.'] + ("" + ['.'] + b');
    SplitPair("", b', '.');
    SplitAround(a, "" + ['.'] + b', '.');
    SplitWithoutSeparator(a, '.');
  }

  lemma StepsAroundBlankPiece(a: string, b: string)
    requires a != [] && Strip(a) == a && b != [] && Strip(b) == b
    ensures StepLines([a, "", " " + b]) == ["1. " + a, "3. " + b]
  {
    var b' := " " + b;
    StripAfterBlank(b);
    assert Steps([a, "", b']) == [(0, a), (2, b')] by {
      var e: seq<(nat, string)> := Enumerate([a, "", b']);
      assert e == [(0, a)] + [(1, "")] + [(2, b')];
      FilterAppend([(0, a)] + [(1, "")], [(2, b')], IsStep);
      FilterAppend([(0, a)], [(1, "")], IsStep);
    }
    assert StepLine((0, a)) == "1. " + a;
    assert StepLine((2, b')) == "3. " + b;
  }

  /**
    Piece positions count from one and a blank piece keeps its number: `"A.. B"`
    gives the steps `1. A` and `3. B`.
   */
  lemma StepNumbersSkipBlankPieces(a: string, b: string)
    requires '.' !in a && '.' !in b
    requires a != [] && Strip(a) == a && b != [] && Strip(b) == b
    ensures Split(a + ".. " + b, '.') == [a, "", " " + b]
    ensures StepLines(Split(a + ".. " + b, '.')) == ["1. " + a, "3. " + b]
  {
    SplitDoublePeriod(a, b);
    StepsAroundBlankPiece(a, b);
  }

  /** A comma and a blank between two items give one line each: `"tomato, onion"` gives `- tomato` and `- onion`. */
  lemma IngredientPair(a: string, b: string)
    requires ',' !in a && ',' !in b
    requires Strip(a) == a && Strip(b) == b
    ensures IngredientLines(Text(a + ", " + b)) == ["- " + a, "- " + b]
  {
    assert a + ", " + b == a + [','] + (" " + b);
    SplitPair(a, " " + b, ',');
    StripAfterBlank(b);
    var m := IngredientLines(Text(a + ", " + b));
    assert m == Map([a, " " + b], Bullet);
    assert m[0] == Bullet(a) == "- " + a;
    assert m[1] == Bullet(" " + b) == "- " + b;
  }

  /**
    With a list of instructions, every non-blank entry gives a step numbered by its
    position in the list plus one.
   */
  lemma ListInstructionsGiveSteps(index: nat, d: RecipeDict)
    requires d.instructions.Items?
    ensures FormatRecipe(index, d)
            == Block(index, d.title, IngredientLines(d.ingredients), StepLines(d.instructions.items))
    ensures var xs := d.instructions.items;
      forall i :: 0 <= i < |xs| && Strip(xs[i]) != [] ==> StepLine((i, xs[i])) in StepLines(xs)
  {
    var xs := d.instructions.items;
    StepsSpec(xs);
    forall i | 0 <= i < |xs| && Strip(xs[i]) != [] ensures StepLine((i, xs[i])) in StepLines(xs) {
      var k :| 0 <= k < |Steps(xs)| && Steps(xs)[k] == (i, xs[i]);
      assert StepLines(xs)[k] == StepLine((i, xs[i]));
    }
  }

  /** The lines of a block: blank, header, `Ingredients:`, bullets, `Instructions:`, steps, blank. */
  function BlockLines(index: nat, title: string, bullets: seq<string>, steps: seq<string>): seq<string>
  {
    ["", Header(index, title), "Ingredients:"] + JoinedLines(bullets) + ["Instructions:"] + JoinedLines(steps) + [""]
  }

  lemma JoinJoinedLines(parts: seq<string>)
    ensures Join(JoinedLines(parts), "\n") == Join(parts, "\n")
  {
  }

  lemma JoinThree(x: string, y: string, z: string, sep: string)
    ensures Join([x, y, z], sep) == x + sep + y + sep + z
  {
    assert [x, y, z][1..] == [y, z];
    assert [y, z][1..] == [z];
    assert Join([y, z], sep) == y + sep + z;
  }

  /** Regrouping of the block's pieces, for any strings standing for the fixed lines. */
  lemma BlockRegroup(nl: string, h: string, ing: string, bl: string, ins: string, st: string)
    ensures nl + h + nl + ing + nl + bl + nl + ins + nl + st + nl
            == ([] + nl + h + nl + ing) + nl + (bl + nl + (ins + nl + (st + nl + [])))
  {
  }

  /** A block is its lines joined by newlines. */
  lemma BlockIsJoinedLines(index: nat, title: string, bullets: seq<string>, steps: seq<string>)
    ensures Block(index, title, bullets, steps) == Join(BlockLines(index, title, bullets, steps), "\n")
  {
    var h := Header(index, title);
    var bl, st := Join(bullets, "\n"), Join(steps, "\n");
    var b, s := JoinedLines(bullets), JoinedLines(steps);
    JoinJoinedLines(bullets);
    JoinJoinedLines(steps);
    var tail1 := s + [""];
    JoinAppend(s, [""], "\n");
    var tail2 := ["Instructions:"] + tail1;
    JoinAppend(["Instructions:"], tail1, "\n");
    var tail3 := b + tail2;
    JoinAppend(b, tail2, "\n");
    var head := ["", h, "Ingredients:"];
    JoinAppend(head, tail3, "\n");
    JoinThree("", h, "Ingredients:", "\n");
    assert BlockLines(index, title, bullets, steps) == head + tail3;
    BlockRegroup("\n", h, "Ingredients:", bl, "Instructions:", st);
  }

  /**
    Without newlines inside the title and the lines, splitting a formatted block on
    newlines gives exactly its layout.
   */
  lemma FormatRecipeLayout(index: nat, d: RecipeDict)
    requires '\n' !in d.title
    requires forall i :: 0 <= i < |IngredientLines(d.ingredients)| ==> '\n' !in IngredientLines(d.ingredients)[i]
    requires forall i :: 0 <= i < |StepLines(InstructionList(d.instructions))| ==>
               '\n' !in StepLines(InstructionList(d.instructions))[i]
    ensures Split(FormatRecipe(index, d), '\n')
            == BlockLines(index, d.title, IngredientLines(d.ingredients), StepLines(InstructionList(d.instructions)))
  {
    var bullets, steps := IngredientLines(d.ingredients), StepLines(InstructionList(d.instructions));
    BlockIsJoinedLines(index, d.title, bullets, steps);
    var lines := BlockLines(index, d.title, bullets, steps);
    assert '\n' !in Header(index, d.title) by {
      assert '\n' !in NatToString(index);
    }
    forall i | 0 <= i < |lines| ensures '\n' !in lines[i] {
    }
    SplitJoin(lines, '\n');
  }

  /* ---------------------------------------------------------------- result */

  function ToDict(r: Recipe): RecipeDict
  {
    RecipeDict(r.title, Text(r.ingredients), r.instructions)
  }

  /** The formatted blocks of the selected rows, numbered from 1 in selection order. */
  function Blocks(rows: seq<Recipe>, top: seq<nat>): (blocks: seq<string>)
    requires forall k :: 0 <= k < |top| ==> top[k] < |rows|
    ensures |blocks| == |top|
  {
    seq(|top|, k requires 0 <= k < |top| => FormatRecipe(k + 1, ToDict(rows[top[k]])))
  }

  /** The answer: two newlines, then the blocks separated by blank lines. */
  function RecommendationText(rows: seq<Recipe>, top: seq<nat>): string
    requires forall k :: 0 <= k < |top| ==> top[k] < |rows|
  {
    "\n\n" + Join(Blocks(rows, top), "\n\n")
  }

  /**
    Block `k` (from 0) opens with a newline and the header numbered `k + 1` with the
    title of the `k`-th selected row. No selection gives just two newlines. A block is
    what the source's own formatting returns exactly when that row's instructions are a
    string; for list instructions the source raises instead.
   */
  lemma RecommendationSpec(rows: seq<Recipe>, top: seq<nat>)
    requires forall k :: 0 <= k < |top| ==> top[k] < |rows|
    ensures top == [] ==> RecommendationText(rows, top) == "\n\n"
    ensures forall k :: 0 <= k < |top| ==>
              "\n" + Header(k + 1, rows[top[k]].title) + "\n" <= Blocks(rows, top)[k]
    ensures forall k :: 0 <= k < |top| ==>
              (FormatRecipeAsWritten(k + 1, ToDict(rows[top[k]])) == Success(Blocks(rows, top)[k])
               <==> rows[top[k]].instructions.Text?)
  {
  }

  /* ---------------------------------------------------------------- the recommender */

  /**
    The recommender: the recipe files it loads and the language resources (both fixed
    at construction), and the corpus, absent until `Initialize` loads it.
   */
  class RecipeRecommender {
    const files: seq<seq<RawRecord>>
    const res: Resources
    var data: Option<seq<Recipe>>

    constructor(files: seq<seq<RawRecord>>, res: Resources)
      ensures this.files == files && this.res == res && data == None
    {
      this.files := files;
      this.res := res;
      data := None;
    }

    /**
      `initialize`: load the corpus. The error is the loader's: the first file missing a
      column, or no file at all; on an error the corpus is left as it was.
     */
    method Initialize() returns (error: Option<LoadError>)
      modifies this
      ensures error.None? <==> files != [] && forall j :: 0 <= j < |files| ==> HasColumns(files[j])
      ensures error == Some(NoObjectsToConcatenate) <==> files == []
      ensures error.Some? && error.value.MissingColumns? ==>
                var k := error.value.file;
                && k < |files| && !HasColumns(files[k])
                && forall j :: 0 <= j < k ==> HasColumns(files[j])
      ensures error.None? ==> data == Some(PreprocessAll(Combined(files), res))
      ensures error.Some? ==> data == old(data)
    {
      var loaded := LoadAndPreprocessData(files, res);
      if loaded.Failure? {
        return Some(loaded.error);
      }
      data := Some(loaded.value);
      error := None;
    }

    /**
      `recommend_recipes` for the given similarity scores of the rows and an ascending
      argsort of them: the `n` best rows, formatted and numbered in selection order.
     */
    method RecommendRecipes(scores: seq<real>, order: seq<nat>, n: nat) returns (text: string)
      requires data.Some? && |scores| == |data.value| && IsArgsort(scores, order)
      ensures forall k :: 0 <= k < |TopIndices(order, n)| ==> TopIndices(order, n)[k] < |data.value|
      ensures text == RecommendationText(data.value, TopIndices(order, n))
    {
      var rows := data.value;
      var top := TopIndices(order, n);
      TopIndicesAreTopN(scores, order, n);
      var recommended: seq<string> := [];
      var i := 0;
      while i < |top|
        invariant 0 <= i <= |top|
        invariant recommended == Blocks(rows, top)[..i]
      {
        var recipe := rows[top[i]];
        var recipeDict := RecipeDict(recipe.title, Text(recipe.ingredients), recipe.instructions);
        var recipeMd := FormatRecipe(i + 1, recipeDict);
        recommended := recommended + [recipeMd];
        i := i + 1;
      }
      assert recommended == Blocks(rows, top);
      text := "\n\n" + Join(recommended, "\n\n");
    }
  }
}
