# Smart recipe recommender — verified model of its core

This project models, in Dafny, the deterministic core of a recipe recommender. The
recommender loads recipes from JSON files, cleans their ingredient text, indexes it
with TF-IDF, and answers an ingredient query with the best-matching recipes as
formatted text.

The model covers three parts:

- **Text cleaning** (`TextPreprocessor`):
  - digit removal;
  - removal of the literal `ADVERTISEMENT` marker, in one left-to-right pass;
  - the normalisation pipeline: lower-case, tokenize, strip every punctuation
    character except the comma, drop stop words, lemmatize, join with single spaces.

  The tokenizer, the stop-word set and the lemmatizer are parameters (`Resources`).
- **Corpus loading** (`DataProcessor`):
  - records missing a field are dropped;
  - list ingredients are joined with spaces;
  - ingredient text loses its digits and then its markers;
  - the files are concatenated in order, and every ingredient text is normalised.

  `LoadAndPreprocessData` is the loop over the files.
- **Ranking and answer text** (`Recommender`):
  - the top-`n` selection `argsort()[:-n-1:-1]` over given similarity scores;
  - the per-recipe block (bullets split on commas, steps split on periods and
    numbered by piece position);
  - the numbered, blank-line-separated answer;
  - the `RecipeRecommender` class, whose corpus field is set by `Initialize`.

Shared pieces:

- `Seqs`: list comprehensions as `Filter`/`Map`, `enumerate`, and `pd.concat` as `Concat`.
- `StringOps`: Python's `lower`, `strip`, `split` on one character, `join`, and integer formatting.
- `Wrappers`: `Option` and `Result`. Raised exceptions become `Failure` values.

The model follows the code on three points:

- The marker match is case-sensitive and makes a single pass, so removal is not idempotent.
- Ties between equal scores are left unordered: the sort used is not stable, so no corpus order is promised.
- A negative `n`, or a query before initialisation, is a precondition, not a named error.

## Model

| member | source | states |
|---|---|---|
| TextPreprocessor.RemoveDigits | recipe_recommender/text_preprocessor.py:50 | the output is no longer than the input and holds no digit |
| TextPreprocessor.RemoveDigitsSpec | recipe_recommender/text_preprocessor.py:50 | the output is a subsequence of the input holding every non-digit character exactly as often as the input |
| TextPreprocessor.RemoveDigitsUnchanged | recipe_recommender/text_preprocessor.py:50 | a digit-free string is returned unchanged |
| TextPreprocessor.RemoveDigitsIdempotent | recipe_recommender/text_preprocessor.py:50 | removing digits twice is removing them once |
| TextPreprocessor.RemoveDigitsAppend | recipe_recommender/text_preprocessor.py:50 | digit removal distributes over concatenation |
| TextPreprocessor.RemoveAllWithoutMarker | recipe_recommender/text_preprocessor.py:63 | a string in which the marker occurs nowhere is returned unchanged |
| TextPreprocessor.RemoveAllLeftmost | recipe_recommender/text_preprocessor.py:63 | the leftmost occurrence is deleted, the text before it kept, and the scan resumes after it (no overlaps) |
| TextPreprocessor.RemoveAllIsSubsequence | recipe_recommender/text_preprocessor.py:63 | marker removal only deletes characters, keeping order |
| TextPreprocessor.RemoveAllKeepsOtherCharacters | recipe_recommender/text_preprocessor.py:63 | a character not in the marker keeps its count |
| TextPreprocessor.MarkerCountZeroIffAbsent | recipe_recommender/text_preprocessor.py:63 | the scan deletes nothing exactly when the marker occurs nowhere |
| TextPreprocessor.RemoveAdsLength | recipe_recommender/text_preprocessor.py:63 | output length is input length minus 13 per deleted marker |
| TextPreprocessor.RemoveAdsKeepsNoDigits | recipe_recommender/data_processor.py:57-58 | ad removal after digit removal cannot bring a digit back |
| TextPreprocessor.LowerCaseMarkerKept | recipe_recommender/text_preprocessor.py:63 | the match is case-sensitive: `advertisement` is kept |
| TextPreprocessor.RemoveAdsMarkerOnly | recipe_recommender/text_preprocessor.py:63 | the marker on its own is deleted entirely |
| TextPreprocessor.RemoveAdsSinglePass | recipe_recommender/text_preprocessor.py:63 | `ADVERADVERTISEMENTTISEMENT` becomes `ADVERTISEMENT`, which a second pass deletes: one pass, not idempotent |
| TextPreprocessor.StripPunctuation | recipe_recommender/text_preprocessor.py:34 | no punctuation other than the comma remains in a token |
| TextPreprocessor.StripPunctuationSpec | recipe_recommender/text_preprocessor.py:34 | removed punctuation is gone; every other character, the comma included, survives in order with its count |
| TextPreprocessor.PunctuationTokens | recipe_recommender/text_preprocessor.py:34 | `,` survives, `&` becomes empty, `(2)` becomes `2` |
| TextPreprocessor.TokensSpec | recipe_recommender/text_preprocessor.py:35-36 | kept tokens are exactly the stripped tokens not in the stop-word set, in order and with their counts, and each output token is the lemma of the kept token at the same position |
| TextPreprocessor.PreprocessIgnoresCase | recipe_recommender/text_preprocessor.py:33 | the text is lower-cased before tokenizing, so the output does not depend on case |
| TextPreprocessor.PreprocessTextSplits | recipe_recommender/text_preprocessor.py:37 | the output is the tokens joined by single spaces: when there is a token and none holds a space, splitting on spaces gives the tokens back |
| TextPreprocessor.StripAroundAmpersand | recipe_recommender/text_preprocessor.py:34 | an ampersand token between two words is stripped to an empty token |
| TextPreprocessor.PunctuationTokenLeavesDoubleSpace | recipe_recommender/text_preprocessor.py:33-37 | a pure-punctuation token is kept as `""`, giving two spaces in a row (`salt  pepper`) |
| DataProcessor.KeptIffComplete | recipe_recommender/data_processor.py:55 | a record is kept iff title, ingredients and instructions all hold a value; kept records keep their order and counts |
| DataProcessor.CleaningKeepsTitleAndInstructions | recipe_recommender/data_processor.py:55-58 | each row comes from the kept record at its position, with title and instructions unaltered |
| DataProcessor.JoinIngredientsSpec | recipe_recommender/data_processor.py:56 | string ingredients pass unchanged; list ingredients are joined by single spaces, and when the list is non-empty and no item holds a space, splitting on spaces gives the items back |
| DataProcessor.CleanIngredientsHasNoDigits | recipe_recommender/data_processor.py:57-58 | cleaned ingredient text holds no digit |
| DataProcessor.DigitInsideMarker | recipe_recommender/data_processor.py:57-58 | a digit inside a digit-free marker hides it from the marker scan, and digit removal restores it |
| DataProcessor.DigitsRemovedBeforeAds | recipe_recommender/data_processor.py:57-58 | digits go first, so `ADVERT1ISEMENT` is removed entirely, while the opposite order would leave `ADVERTISEMENT` |
| DataProcessor.LoadData | recipe_recommender/data_processor.py:55 | a file fails exactly when one of the three columns occurs in none of its records; otherwise its rows are the cleaned complete records |
| DataProcessor.PreprocessAll | recipe_recommender/data_processor.py:37 | every row keeps title and instructions and gets `preprocess_text` of its ingredients |
| DataProcessor.CombinedAppend | recipe_recommender/data_processor.py:32-36 | a further file adds its rows after those of the earlier files, so the corpus is the files in order |
| DataProcessor.LoadAndPreprocessData | recipe_recommender/data_processor.py:31-39 | loading fails at the first file missing a column, fails with nothing to concatenate iff there is no file, and otherwise yields the files' rows in order with ingredients normalised |
| Recommender.TopIndicesAreLastReversed | recipe_recommender/recipe_recommender.py:62 | the slice is the last `min(n, len)` argsort entries, last first |
| Recommender.TopIndicesAreTopN | recipe_recommender/recipe_recommender.py:62 | `min(n, len)` distinct valid indices, scores non-increasing, no unselected index scoring above a selected one |
| Recommender.NoTopIndices | recipe_recommender/recipe_recommender.py:62 | `n = 0` selects nothing |
| Recommender.IngredientLinesSpec | recipe_recommender/recipe_recommender.py:89-90 | string ingredients give commas-plus-one lines, empty pieces included; each is `- ` and the stripped piece |
| Recommender.IngredientPair | recipe_recommender/recipe_recommender.py:89-90 | `a, b` gives the lines `- a` and `- b` (as `tomato, onion`) |
| Recommender.StepsSpec | recipe_recommender/recipe_recommender.py:92-93 | a step exists exactly for each non-blank piece, in order, numbered by the piece's position plus one (strictly increasing) |
| Recommender.StepNumbersSkipBlankPieces | recipe_recommender/recipe_recommender.py:92-93 | `A.. B` splits into three pieces and gives `1. A` and `3. B` |
| Recommender.FormatRecipeAsWritten | recipe_recommender/recipe_recommender.py:92 | formatting fails exactly when the instructions are a list |
| Recommender.FormatRecipe | recipe_recommender/recipe_recommender.py:89-101 | agrees with the source wherever the source succeeds |
| Recommender.ListInstructionsGiveSteps | recipe_recommender/recipe_recommender.py:92-93 | list instructions give one step per non-blank entry, numbered by list position |
| Recommender.BlockIsJoinedLines | recipe_recommender/recipe_recommender.py:95-101 | the block is its seven template lines joined by newlines |
| Recommender.FormatRecipeLayout | recipe_recommender/recipe_recommender.py:95-101 | when the title, bullets and steps hold no newline, the block's lines are blank, `{index}. {title}`, `Ingredients:`, bullets, `Instructions:`, steps, blank |
| Recommender.RecommendationSpec | recipe_recommender/recipe_recommender.py:64-75 | block `k` opens with a header numbered `k + 1` and the `k`-th selected title; an empty selection gives `"\n\n"`; block `k` equals the as-written formatting's result exactly when that row's instructions are a string |
| Recommender.RecipeRecommender.constructor | recipe_recommender/recipe_recommender.py:16-27 | files and resources fixed, no corpus yet |
| Recommender.RecipeRecommender.Initialize | recipe_recommender/recipe_recommender.py:29-35 | on success the corpus is the loaded, normalised rows; the error is the first file missing a column, or the empty-concatenation error exactly when there is no file; on an error the corpus is untouched |
| Recommender.RecipeRecommender.RecommendRecipes | recipe_recommender/recipe_recommender.py:62-75 | the answer is `"\n\n"` followed by the blocks of the top-`n` rows, numbered from 1 in selection order, joined by `"\n\n"` |
| StringOps.Lower | recipe_recommender/text_preprocessor.py:33 | same length, no upper-case letter left, other characters unchanged |
| StringOps.StripSpec | recipe_recommender/recipe_recommender.py:90 | `strip()` is empty iff the text is blank, otherwise it starts and ends with non-space; it is a contiguous slice of the text and everything before and after that slice is white space |
| StringOps.SplitSpec | recipe_recommender/recipe_recommender.py:89 | `split(sep)` gives separators-plus-one pieces, none holding the separator |
| StringOps.JoinSplit | recipe_recommender/recipe_recommender.py:89 | joining the pieces with the separator gives the string back |
| StringOps.SplitJoin | recipe_recommender/text_preprocessor.py:37 | splitting a join of separator-free parts gives the parts back |
| StringOps.NatToStringRoundTrip | recipe_recommender/recipe_recommender.py:96 | the decimal rendering of the index reads back as the index, without a leading zero |
| Seqs.FilterCounts | recipe_recommender/text_preprocessor.py:35 | a comprehension with a condition keeps each satisfying element with its count and nothing else |
| Seqs.FilterIsSubsequence | recipe_recommender/data_processor.py:55 | filtering keeps relative order |
| Seqs.FilterIncreasingKeys | recipe_recommender/recipe_recommender.py:93 | filtering an enumeration keeps positions strictly increasing |
| Seqs.ConcatAppend | recipe_recommender/data_processor.py:36 | concatenation keeps the blocks in order; its length is the sum of theirs |

## Left out

- TF-IDF vectorisation and cosine similarity (recipe_recommender/recipe_recommender.py:38-45, 59-61). These are floating-point library code; the scores and their ascending `argsort` are inputs to `RecommendRecipes`.
- The vectorizer's own failure on an empty vocabulary in `initialize`: it belongs to the TF-IDF library and is not modelled.
- The query text and its preprocessing inside `recommend_recipes` (line 59): it only feeds the scores.
- The order among equal scores: `IsArgsort` admits every order of tied indices, because the sort used is not stable.
- Negative `n`: `RecommendRecipes` takes `n` as a `nat`.
- The default `n = 5` of `recommend_recipes` (recipe_recommender/recipe_recommender.py:47): `n` is always the caller's argument here.
- Calling `recommend_recipes` before `initialize`: a precondition (`data.Some?`), since the source just fails on `None`.
- The NLTK tokenizer, stop-word list and WordNet lemmatizer: uninterpreted parameters (`Resources`).
- Reading files and JSON parsing: each file is given as its sequence of records. Non-string titles, and values that are neither strings nor lists of strings, are not modelled. The order of rows within a file is taken as the parsed table gives it; how `DataFrame.from_dict(orient='index')` (recipe_recommender/data_processor.py:54) orders records with differing keys is not modelled.
- The `DataFrame` index: `ignore_index` renumbers rows 0..N-1, which is the position in the sequence here.
- Logging calls, `utils.py` (downloads, directories) and `run_recommender.py` (configuration, UI): I/O only.
- TextPreprocessor.RemoveDigits: deletes ASCII digits only; Python's `\d` also matches other Unicode decimal digits.
- StringOps.Lower: lower-cases ASCII letters only; Python's `lower()` also maps non-ASCII letters.
- Recommender.RecipeRecommender.RecommendRecipes: formats every selected row with the corrected `FormatRecipe` (see Findings). The source raises `AttributeError` (recipe_recommender/recipe_recommender.py:92) as soon as a selected row has list instructions, so for such selections the model returns text where the source returns none. `RecommendationSpec` states that each block agrees with the as-written formatting exactly when the row's instructions are a string.

## Findings

| source | as written | input that shows it | evidently intended | confidence | as-written member | corrected member |
|---|---|---|---|---|---|---|
| recipe_recommender/recipe_recommender.py:92 | instructions stored as a list are split with `.split('\n')`, a method lists do not have, so formatting raises `AttributeError` | a recipe whose `instructions` is `["Boil water.", "Add pasta."]` | one step per list entry, as for list ingredients on line 89 | high that it raises; intent inferred; not executed | Recommender.FormatRecipeAsWritten | Recommender.FormatRecipe |
