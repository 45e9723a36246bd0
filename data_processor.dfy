/**
  Loading of the recipe corpus: per file, the records missing a field are dropped,
  list ingredients are joined with spaces, and the ingredient text loses its digits
  and then its advertisement markers; the files are then concatenated in order and
  every ingredient text is normalised by `PreprocessText`.

  Reading and parsing the JSON files is outside the model: each file is given as the
  sequence of its records, in the order the parsed table lists them.
 */
module DataProcessor {
  import opened Wrappers
  import opened Seqs
  import opened StringOps
  import opened TextPreprocessor

  /** A field of a JSON record: no such key, an explicit `null`, or a value. */
  datatype Field<T> = Absent | Null | Present(value: T)

  /** A text field holds a string or a list of strings. */
  datatype Value = Text(text: string) | Items(items: seq<string>)

  /** One record of a recipe file, as parsed. */
  datatype RawRecord = RawRecord(title: Field<string>, ingredients: Field<Value>, instructions: Field<Value>)

  /** One row of the corpus: the ingredient column is a string after cleaning. */
  datatype Recipe = Recipe(title: string, ingredients: string, instructions: Value)

  /**
    Errors that end loading: a file none of whose records has one of the three
    keys (the column selection finds no such column), or no file at all (nothing
    to concatenate).
   */
  datatype LoadError = MissingColumns(file: nat) | NoObjectsToConcatenate

  /* ---------------------------------------------------------------- one file */

  /** Every one of the three columns exists: some record has the key. */
  predicate HasColumns(records: seq<RawRecord>)
  {
    && (exists i :: 0 <= i < |records| && !records[i].title.Absent?)
    && (exists i :: 0 <= i < |records| && !records[i].ingredients.Absent?)
    && (exists i :: 0 <= i < |records| && !records[i].instructions.Absent?)
  }

  /** A record that survives `dropna(how='any')`: all three fields hold a value. */
  predicate IsComplete(r: RawRecord)
  {
    r.title.Present? && r.ingredients.Present? && r.instructions.Present?
  }

  /** The records kept by the `dropna`, in the order the parsed table lists them. */
  function Kept(records: seq<RawRecord>): (kept: seq<RawRecord>)
    ensures forall i :: 0 <= i < |kept| ==> IsComplete(kept[i])
  {
    Filter(records, IsComplete)
  }

  /** `' '.join(x) if isinstance(x, list) else x`. */
  function JoinIngredients(v: Value): string
  {
    match v
    case Text(t) => t
    case Items(xs) => Join(xs, " ")
  }

  /** The ingredient chain of one file: join, then remove digits, then remove advertisements. */
  function CleanIngredients(v: Value): string
  {
    RemoveAds(RemoveDigits(JoinIngredients(v)))
  }

  function CleanRecord(r: RawRecord): Recipe
    requires IsComplete(r)
  {
    Recipe(r.title.value, CleanIngredients(r.ingredients.value), r.instructions.value)
  }

  /** The rows of one file: the complete records, cleaned, in order. */
  function FileRecipes(records: seq<RawRecord>): (rows: seq<Recipe>)
    ensures |rows| == |Kept(records)|
  {
    var kept := Kept(records);
    seq(|kept|, i requires 0 <= i < |kept| => CleanRecord(kept[i]))
  }

  /** `_load_data` on the parsed records of file number `file`. */
  function LoadData(records: seq<RawRecord>, file: nat): (r: Result<seq<Recipe>, LoadError>)
    ensures r.Failure? <==> !HasColumns(records)
    ensures r.Failure? ==> r.error == MissingColumns(file)
    ensures r.Success? ==> r.value == FileRecipes(records)
  {
    if HasColumns(records) then Success(FileRecipes(records)) else Failure(MissingColumns(file))
  }

  /**
    A record is kept exactly when all three fields hold a value; kept records stay in
    their relative order (a subsequence) and occur as often as in the file.
   */
  lemma KeptIffComplete(records: seq<RawRecord>)
    ensures IsSubsequence(Kept(records), records)
    ensures forall r :: multiset(Kept(records))[r] == if IsComplete(r) then multiset(records)[r] else 0
    ensures forall r :: r in records ==> (r in Kept(records) <==> IsComplete(r))
  {
    FilterIsSubsequence(records, IsComplete);
    FilterCounts(records, IsComplete);
    forall r | r in records ensures r in Kept(records) <==> IsComplete(r) {
      assert multiset(records)[r] > 0;
      assert r in Kept(records) <==> multiset(Kept(records))[r] > 0;
    }
  }

  /**
    The cleaning chain leaves titles and instructions as they were, and each row comes
    from the kept record at the same position.
   */
  lemma CleaningKeepsTitleAndInstructions(records: seq<RawRecord>)
    ensures var kept, rows := Kept(records), FileRecipes(records);
      forall i :: 0 <= i < |rows| ==>
        && rows[i].title == kept[i].title.value
        && rows[i].instructions == kept[i].instructions.value
        && rows[i].ingredients == CleanIngredients(kept[i].ingredients.value)
  {
  }

  /**
    A string ingredient passes the join step unchanged; list ingredients are joined
    with single spaces, so splitting on spaces gives the items back when they hold no space.
   */
  lemma JoinIngredientsSpec(v: Value)
    ensures v.Text? ==> JoinIngredients(v) == v.text
    ensures v.Items? && v.items != [] && (forall i :: 0 <= i < |v.items| ==> ' ' !in v.items[i])
            ==> Split(JoinIngredients(v), ' ') == v.items
  {
    if v.Items? && v.items != [] && (forall i :: 0 <= i < |v.items| ==> ' ' !in v.items[i]) {
      SplitJoin(v.items, ' ');
    }
  }

  /** Cleaned ingredient text holds no digit. */
  lemma CleanIngredientsHasNoDigits(v: Value)
    ensures forall i :: 0 <= i < |CleanIngredients(v)| ==> !IsDigit(CleanIngredients(v)[i])
  {
    RemoveAdsKeepsNoDigits(RemoveDigits(JoinIngredients(v)));
  }

  /**
    A digit inside a digit-free marker: digit removal restores the marker, while the
    marker scan finds nothing to delete (the digit breaks every candidate occurrence).
   */
  lemma DigitInsideMarker(marker: string, k: nat, d: char)
    requires 0 < k < |marker| && IsDigit(d)
    requires forall i :: 0 <= i < |marker| ==> !IsDigit(marker[i])
    ensures RemoveDigits(marker[..k] + [d] + marker[k..]) == marker
    ensures RemoveAll(marker[..k] + [d] + marker[k..], marker) == marker[..k] + [d] + marker[k..]
  {
    var p, q := marker[..k], marker[k..];
    var s := p + [d] + q;
    RemoveDigitsAppend(p + [d], q);
    RemoveDigitsAppend(p, [d]);
    RemoveDigitsUnchanged(p);
    RemoveDigitsUnchanged(q);
    assert RemoveDigits([d]) == [];
    assert p + q == marker;
    forall i | 0 <= i < |s| ensures !MarkerAt(s, marker, i) {
      if i <= k && i + |marker| <= |s| {
        assert s[k] == d;
        MismatchMeansNoMarker(s, marker, i, k - i);
      }
    }
    RemoveAllWithoutMarker(s, marker);
  }

  /** The marker with a digit inside it, `ADVERT1ISEMENT`. */
  function SplitMarker(): string
  {
    AdMarker[..6] + "1" + AdMarker[6..]
  }

  /**
    Digits go before advertisements: a marker split by a digit is removed entirely,
    whereas the opposite order would leave the marker behind.
   */
  lemma DigitsRemovedBeforeAds()
    ensures CleanIngredients(Text(SplitMarker())) == ""
    ensures RemoveDigits(RemoveAds(SplitMarker())) == AdMarker
  {
    assert forall i :: 0 <= i < |AdMarker| ==> !IsDigit(AdMarker[i]);
    DigitInsideMarker(AdMarker, 6, '1');
    RemoveAdsMarkerOnly();
  }

  /* ---------------------------------------------------------------- all files */

  /** The rows of all files, concatenated in file order (before normalisation). */
  function Combined(files: seq<seq<RawRecord>>): seq<Recipe>
  {
    Concat(Map(files, FileRecipes))
  }

  /** `preprocess_text` applied to the ingredient column of one row. */
  function PreprocessRecipe(r: Recipe, res: Resources): Recipe
  {
    r.(ingredients := PreprocessText(r.ingredients, res))
  }

  function PreprocessAll(rows: seq<Recipe>, res: Resources): (out: seq<Recipe>)
    ensures |out| == |rows|
    ensures forall i :: 0 <= i < |rows| ==>
              && out[i].title == rows[i].title
              && out[i].instructions == rows[i].instructions
              && out[i].ingredients == PreprocessText(rows[i].ingredients, res)
  {
    seq(|rows|, i requires 0 <= i < |rows| => PreprocessRecipe(rows[i], res))
  }

  /** Adding a file adds its rows after those of the earlier files; the row count is the sum over files. */
  lemma CombinedAppend(files: seq<seq<RawRecord>>, f: seq<RawRecord>)
    ensures Combined(files + [f]) == Combined(files) + FileRecipes(f)
    ensures |Combined(files + [f])| == |Combined(files)| + |Kept(f)|
  {
    assert Map(files + [f], FileRecipes) == Map(files, FileRecipes) + [FileRecipes(f)];
    ConcatAppend(Map(files, FileRecipes), [FileRecipes(f)]);
    assert Concat([FileRecipes(f)]) == FileRecipes(f) + Concat([]);
  }

  /**
    `load_and_preprocess_data`: load the files one after the other (the first file
    without all three columns ends loading with its error), concatenate their rows
    in order, and normalise the ingredient column.
   */
  method LoadAndPreprocessData(files: seq<seq<RawRecord>>, res: Resources)
    returns (result: Result<seq<Recipe>, LoadError>)
    ensures result.Failure? && result.error.MissingColumns? ==>
              var k := result.error.file;
              && k < |files| && !HasColumns(files[k])
              && forall j :: 0 <= j < k ==> HasColumns(files[j])
    ensures result == Failure(NoObjectsToConcatenate) <==> files == []
    ensures result.Success? <==> files != [] && forall j :: 0 <= j < |files| ==> HasColumns(files[j])
    ensures result.Success? ==> result.value == PreprocessAll(Combined(files), res)
  {
    var dfs: seq<seq<Recipe>> := [];
    var i := 0;
    while i < |files|
      invariant 0 <= i <= |files|
      invariant forall j :: 0 <= j < i ==> HasColumns(files[j])
      invariant dfs == Map(files[..i], FileRecipes)
    {
      var df := LoadData(files[i], i);
      if df.Failure? {
        return Failure(df.error);
      }
      assert files[..i + 1] == files[..i] + [files[i]];
      dfs := dfs + [df.value];
      i := i + 1;
    }
    if dfs == [] {
      return Failure(NoObjectsToConcatenate);
    }
    assert files[..i] == files;
    var data := Concat(dfs);
    result := Success(PreprocessAll(data, res));
  }
}
