# Food classifier: top-1 selection, reference lookups and the nutrition-table build

This project models, in Dafny, the deterministic logic around the food-image
classifier service:

- **Top-1 selection** (`predict` in `backend/app/classifier.py`). The model's
  output vector is lined up with the label catalog. A vector one entry longer
  than the catalog loses its trailing entry. A vector of equal length is used
  as is. Any other length is an error. The first maximal score is then picked,
  and its English name and Korean display name are returned with that score.
  The Korean name falls back to the English name.
- **Allergen lookup** (`get_allergens_by_en_name` in `backend/app/allergens.py`).
  A stored value is a list, a `;`-joined string, a falsy value or something
  else, and it is normalised to a list of strings.
- **Nutrition lookup** (`get_nutrition_by_en_name` in `backend/app/nutrition.py`).
  This is an exact-key lookup that returns the empty record for an absent key.
- **The offline nutrition-table build** (`backend/app/data/build_nutrition_json.py`).
  Each class's Korean name is matched against the rows of a food-composition
  table: first the full name, then the name without one dish-type suffix, then
  a manual override by exact name. Each class gets either a resolved record or
  an all-null unresolved record, and the unresolved classes are listed in
  `missing`.

Modules:

- `Wrappers`: `Option` and `Result`.
- `PyStr`: the Python string operations the code uses: literal containment
  (the literal reading of pandas' `str.contains`), `endswith`, `split` and
  `strip`, with Python's whitespace set. The code never calls `join`; `Join`
  is there only as the inverse of `Split`, to state the round trip.
- `Classifier`, `Allergens`, `Nutrition` and `BuildNutritionJson`: one module per source file.
- `AllergenExamples`: worked examples of the allergen lookup on concrete stored strings.

The source files are pure functions over tables loaded once at start-up. Here
they are functions that take those tables as immutable parameters. Two parts
of the build script update variables step by step:

- the `for suf in SUFFIXES` loop with its `break`;
- the top-level loop that fills `nutrition_map` and appends to `missing`.

Those two are methods with loops (`StripSuffix` and `BuildNutritionMap`). Each
is proved equal to a specification function (`StripBase`, and
`NutritionMapOf` with `MissingOf`), and lemmas state what those functions
guarantee. `ChooseRowFor` follows `choose_row_for` step by step: it applies
the exact-name filter to the already-filtered subset. It is proved equal to
`ChooseRow`, which states the choice over the whole table: the first row
named exactly so, else the first containing row.

Because the lookups are functions of immutable tables, repeated lookups of the
same key always return identical results.

Points where the code is narrower than its callers might expect:

- A stored allergen *list* is returned as is. Its elements are not trimmed and
  empty ones are not dropped. Only the `;`-string path trims and filters.
- An empty catalog is an error even when the lengths reconcile, because
  `np.argmax` of an empty vector raises (`EmptyScores`).
- The confidence is the raw score and is not checked to lie in [0, 1].
- The build writes eight keys per record. The response schema
  (`backend/app/schemas.py:5-10`) holds exactly `unit` and the four nutrients
  the build writes. The request handler (`backend/app/main.py:39-69`) reads
  `unit` and 24 nutrient keys; the build writes four of them, so the other 20
  are always absent (`None`).

## Model

| member | source | states |
|---|---|---|
| `Classifier.Reconcile` | backend/app/classifier.py:62-71 | Succeeds exactly when M = L or M = L+1. It then gives a length-L prefix of the vector, the vector itself when M = L. Otherwise the error carries both lengths. |
| `Classifier.ArgMax` | backend/app/classifier.py:73 | The index holds a score ≥ every score, and every earlier score is strictly smaller, so ties go to the lowest index. |
| `Classifier.FirstMaxUnique` | backend/app/classifier.py:73 | At most one index is the first maximum, so the selection is determined by the scores. |
| `Classifier.DisplayName` | backend/app/classifier.py:77 | The Korean map entry when the key is present, else exactly the English name; defined for every name, so it never fails. |
| `Classifier.Predict` | backend/app/classifier.py:58-79 | A length mismatch error exactly when M ∉ {L, L+1}. An empty-vector error exactly when L = 0 and M ≤ 1. On success the result is the class at the first maximal index of the first L scores, its display name, and its raw score. |
| `Classifier.PredictSelectsFirstMax` | backend/app/classifier.py:65-77 | Whenever the lengths reconcile and i is the first maximal index of the first L scores, the prediction is class i with score probs[i]. Of two equal maximal scores, the lower index wins. |
| `Classifier.PredictIgnoresTrailingScore` | backend/app/classifier.py:65-66 | With M = L+1, replacing the trailing score by any value, or dropping it, leaves the result unchanged. |
| `PyStr.ContainsIsSubstring` | backend/app/data/build_nutrition_json.py:68 | The containment test holds exactly when the needle occurs as a contiguous block at some position. |
| `PyStr.Split` | backend/app/allergens.py:27 | `split(";")` gives at least one piece, and no piece contains the separator. |
| `PyStr.JoinSplit` | backend/app/allergens.py:27 | Joining the pieces of a split with the separator gives back the original string. |
| `PyStr.SplitJoin` | backend/app/allergens.py:26-27 | Splitting a join of ≥1 separator-free strings gives back exactly those strings. |
| `PyStr.LStrip` | backend/app/allergens.py:27 | The result is a suffix of the input. Everything removed is whitespace, and the result does not start with whitespace. |
| `PyStr.RStrip` | backend/app/allergens.py:27 | The result is a prefix of the input. Everything removed is whitespace, and the result does not end with whitespace. |
| `PyStr.Strip` | backend/app/allergens.py:27 | The result is a contiguous slice of the input with no whitespace at either end. It is empty exactly when the input is all whitespace. |
| `PyStr.StripRemovesOnlySpace` | backend/app/allergens.py:27 | Everything `strip()` cuts off, before and after the slice it keeps, is whitespace. |
| `PyStr.StripSubset` | backend/app/allergens.py:27 | Stripping introduces no character that was not in the input. |
| `PyStr.StripTrimmed` | backend/app/allergens.py:27 | A string without whitespace at either end is left unchanged by stripping. |
| `Allergens.CleanPieces` | backend/app/allergens.py:27 | Every output element is non-empty and has no leading or trailing whitespace. There are never more outputs than pieces. |
| `Allergens.CleanPiecesMembers` | backend/app/allergens.py:27 | A string is an output exactly when it is non-empty and is the stripped form of some piece. |
| `Allergens.CleanPiecesSound` | backend/app/allergens.py:27 | Every output is the stripped form of some piece. |
| `Allergens.CleanPiecesComplete` | backend/app/allergens.py:27 | Every piece that does not strip to nothing appears in the output, stripped. |
| `Allergens.CleanPiecesAppend` | backend/app/allergens.py:27 | The clean-up of two lists joined is the clean-up of the first followed by that of the second, so the outputs keep the order of the pieces. |
| `Allergens.CleanPiecesSemicolonFree` | backend/app/allergens.py:26-27 | From `;`-free pieces, every output element is non-empty, stripped and `;`-free. |
| `Allergens.Truthy` | backend/app/allergens.py:20 | Python truthiness: a list or string is truthy exactly when non-empty, null never, anything else as its own truth value. |
| `Allergens.Normalize` | backend/app/allergens.py:19-28 | A falsy value (null, empty list, empty string, falsy other) gives []. A list is returned element for element. Any other kind gives []. A non-empty string gives the clean-up of its `;`-split pieces, and every element is non-empty, stripped and `;`-free. |
| `Allergens.GetAllergensByEnName` | backend/app/allergens.py:17-28 | An absent key gives []. A present key gives the normalised stored value. |
| `Allergens.CleanPiecesKeepsWellFormed` | backend/app/allergens.py:27 | Pieces that are already non-empty, stripped and `;`-free pass through the clean-up unchanged. |
| `Allergens.JoinedListRoundTrip` | backend/app/allergens.py:26-27 | A list of well-formed allergens, stored `;`-joined, normalises back to the same list; the empty list joins to "", which normalises to []. |
| `AllergenExamples.SemicolonStringExample` | backend/app/allergens.py:26-27 | The stored string "대두;밀" yields ["대두", "밀"]. |
| `AllergenExamples.UntidyStringExample` | backend/app/allergens.py:26-27 | The stored string " 대두 ; ;밀" yields ["대두", "밀"]: pieces are trimmed and the blank one is dropped. |
| `Nutrition.GetNutritionByEnName` | backend/app/nutrition.py:12-17 | A present key gives exactly the stored record. An absent key gives the empty record, not an error. The lookup has no precondition, so it is defined for every key. |
| `BuildNutritionJson.Where` | backend/app/data/build_nutrition_json.py:68 | The filtered rows are exactly the table rows that satisfy the mask, and the first of them is the first such row in table order. |
| `BuildNutritionJson.WhereNarrow` | backend/app/data/build_nutrition_json.py:84-86 | Applying a stronger mask to an already filtered subset gives the same rows as applying it to the whole table. |
| `BuildNutritionJson.FirstSuffixIndex` | backend/app/data/build_nutrition_json.py:72-75 | For a list of non-empty suffixes, as `SUFFIXES` is: no earlier suffix in list order is an ending of the name, and if the index is in range, that suffix is an ending. |
| `BuildNutritionJson.StripBase` | backend/app/data/build_nutrition_json.py:71-75 | The base is a prefix of the name. With the first matching suffix it is the name minus exactly that one suffix; with none it is the name itself. |
| `BuildNutritionJson.StripSuffix` | backend/app/data/build_nutrition_json.py:71-75 | The first-match loop with `break` computes exactly `StripBase`. |
| `BuildNutritionJson.ChooseRow` | backend/app/data/build_nutrition_json.py:62-89 | A missing or empty name yields no row. Any chosen row is a table row whose name contains the full name or the stripped base. |
| `BuildNutritionJson.ChooseRowFor` | backend/app/data/build_nutrition_json.py:62-89 | The step-by-step search, with the exact filter applied to the subset, picks exactly the row `ChooseRow` describes over the whole table. |
| `BuildNutritionJson.ChooseRowFullNameFirst` | backend/app/data/build_nutrition_json.py:67-89 | If some row contains the full name, a row is chosen and it contains that name. It is the first row named exactly so if one exists, else the first containing row. |
| `BuildNutritionJson.ChooseRowFallback` | backend/app/data/build_nutrition_json.py:69-81 | If no row contains the full name, a row is chosen exactly when the stripped base has ≥2 characters and some row contains it. The row is the first such one. |
| `BuildNutritionJson.NumField` | backend/app/data/build_nutrition_json.py:120-126 | A missing (NaN) cell becomes null. A number is kept. |
| `BuildNutritionJson.ResolveRow` | backend/app/data/build_nutrition_json.py:96-104 | Any resolved row is an actual table row. |
| `BuildNutritionJson.ResolveClassRow` | backend/app/data/build_nutrition_json.py:96-104 | Automatic matching followed by the manual override computes exactly `ResolveRow`. |
| `BuildNutritionJson.ManualOnlyAfterAutomaticFailure` | backend/app/data/build_nutrition_json.py:100-104 | An automatic match is kept. Without one, a class outside the manual map stays unresolved. A listed class resolves exactly when some row has that exact food name, and then to the first such row. |
| `BuildNutritionJson.KoField` | backend/app/data/build_nutrition_json.py:96 | The `ko_name` field is null exactly when the class has no Korean name, and otherwise that name as text. |
| `BuildNutritionJson.KoOf` | backend/app/data/build_nutrition_json.py:96 | `class_names_ko.get(en_name)`: the Korean name when the class has one, else none. |
| `BuildNutritionJson.UnresolvedEntry` | backend/app/data/build_nutrition_json.py:108-117 | The record has the eight keys, and every field other than `ko_name` and `allergens` is null. |
| `BuildNutritionJson.ResolvedEntry` | backend/app/data/build_nutrition_json.py:128-137 | The record has the eight keys, and its source food name and unit are never null. |
| `BuildNutritionJson.ClassEntry` | backend/app/data/build_nutrition_json.py:106-137 | The entry has the eight keys, and its source food name is null exactly when no row was resolved for the class. |
| `BuildNutritionJson.UnresolvedEntryShape` | backend/app/data/build_nutrition_json.py:108-117 | The unresolved record has the eight keys, its Korean name, null source name, unit and four nutrients, and `allergens: []`. |
| `BuildNutritionJson.ResolvedEntryShape` | backend/app/data/build_nutrition_json.py:128-137 | The resolved record has the eight keys, its Korean name, the row's food name and unit, the four nutrients as `_num` of the row's cells, and `allergens: []`. |
| `BuildNutritionJson.ClassEntryShape` | backend/app/data/build_nutrition_json.py:106-137 | Every entry has the same eight keys, its Korean name and `allergens: []`. `source_food_name` is null exactly when no row was resolved, and then unit and the four nutrients are null. A resolved entry names its row and unit and carries the four nutrients as `_num` of the row's cells. |
| `BuildNutritionJson.PrefixStep` | backend/app/data/build_nutrition_json.py:95-137 | One more class extends the map by that class's entry. It extends `missing` by (en, ko) exactly when the class is unresolved. |
| `BuildNutritionJson.BuildNutritionMap` | backend/app/data/build_nutrition_json.py:92-137 | The loop over the classes produces exactly `NutritionMapOf` and `MissingOf` of the whole class list. |
| `BuildNutritionJson.NutritionMapCoversClasses` | backend/app/data/build_nutrition_json.py:95-137 | The map's keys are exactly the classes, and each value is that class's entry. |
| `BuildNutritionJson.MissingIsUnresolved` | backend/app/data/build_nutrition_json.py:106-107 | A pair (en, ko) is in `missing` exactly when en is a class, ko is its Korean name and no row was resolved for it. `missing` is never longer than the class list. |
| `BuildNutritionJson.MissingInClassOrder` | backend/app/data/build_nutrition_json.py:95-107 | `missing` for a list split in two is `missing` of the first part followed by `missing` of the second, so unresolved classes appear in class-list order. |
| `BuildNutritionJson.MissingMatchesNullEntries` | backend/app/data/build_nutrition_json.py:106-118 | A class's entry has a null `source_food_name` exactly when the class is listed in `missing`. |
| `BuildNutritionJson.LookupOfBuiltTable` | backend/app/nutrition.py:17 | A lookup of any catalog class in the built table returns that class's full entry, never the empty record. |

## Left out

- Image preprocessing (`preprocess_image`), model loading and inference: PIL,
  numpy and TensorFlow are foreign libraries. The output vector of the model
  is a parameter of `Classifier.Predict`.
- The HTTP layer (`backend/app/main.py`) and the response schemas
  (`backend/app/schemas.py`) are transport glue and are not modelled.
- Floating point: scores are `real`, because only their order matters. NaN
  scores, which change what `np.argmax` returns, are not modelled. The
  probability is the real value at the selected index.
- Reading the JSON and CSV files, writing `nutrition.json`, and the `print`
  calls: the loaded tables are immutable parameters.
- pandas `str.contains` interprets its pattern as a regular expression. The
  model reads it as a literal substring test, so names with regex
  metacharacters (such as parentheses) may match differently in the source.
- CSV rows with a missing food name never match (`na=False`), so food names
  are plain strings. A missing unit cell (rendered "nan" by `str`) and numeric
  columns holding text (where `float` raises) are not modelled. Numeric cells
  are a number or missing.
- Allergen lists: the model assumes the elements are strings, so `str(x)` is
  the identity. The rendering of non-string list elements is not modelled.
- Korean class names: a value in the Korean-name map is a string or absent.
  A non-string value, which `choose_row_for` rejects with `isinstance`, is not
  modelled.
