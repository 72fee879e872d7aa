# Diet recommender core, modelled in Dafny

The system has two servers.

The Node relay (`backend/server.js`) does four things:

- It coerces loosely typed values to numbers (`extractNumber`).
- It normalises a language model's nutrition answer into a fixed record. English keys are tried first, then Korean aliases.
- On any failure it answers a fixed degraded record instead.
- It builds the `user_state` sent to the recommender, and folds the recommender's list into one combined title, reason and calorie value.

The Python recommender (`ai_server/app.py`, `run_recommendation_logic`) does five things:

- It resolves feature columns through alias lists.
- It fills in missing `user_state` keys.
- It chooses the name and category columns.
- It greedily picks up to three dishes, avoiding recent names, repeated names and repeated categories.
- It assembles the result records.

The project has one module per concern:

- `Json`: the JSON value the relay handles, with JavaScript truthiness, `||`, property access (`a.b`, which throws on `null`/`undefined`), optional chaining (`a?.b`) and template interpolation.
- `Text`: `Array.prototype.join`, and counting characters.
- `NumericCoercion`: `extractNumber`. The regular expression `[0-9]+(\.[0-9]+)?` is modelled by a scanner, which is proved to find the leftmost, longest match.
- `Nutrition`: the record normalisation shared by `/analyze-image` and `/analyze-text`, the degraded records, and both endpoints.
- `RecommendationRelay`: `RECOMMENDED_INTAKE`, the `user_state` build, candidate aggregation and `/get-recommendation`.
- `Recommender`: `run_recommendation_logic`. Its step-by-step parts are methods with loop invariants, each proved against a specification function:
  - the nested alias loops with their `found` flag and `break`;
  - the defaulting loop;
  - the selection loop with `continue`/`break`;
  - the results loop.
- `Pipeline`: the two servers together. Every record the recommender emits is read back unchanged by the relay.

Some inputs are parameters of the model rather than computed by it:

- The parsed model answer (`answer: Option<Value>`, `None` when the OpenAI call or `JSON.parse` fails).
- The recommender's HTTP answer (`recommend`).
- The ranking of candidate rows (`order`) and the predicted scores (`preds`).
- The number-to-text conversions (`show` for JavaScript interpolation, `format1` for Python's `:.1f`).
- Python's `float()` on strings (`floatOfText`).

Four behaviours of the code are worth stating plainly:

- An unknown `gender` is not rejected up front. `RECOMMENDED_INTAKE[gender]` is `undefined`, reading `standard.calories` throws inside the `try`, and the endpoint answers 500 ("Python Server connection failed"), not 400 (backend/server.js:187-194, 235-238).
- The language model's answer text goes to `JSON.parse` as it is: no code fences or braces are stripped first (backend/server.js:91, 157).
- `recommend_menu` is copied into `menuName` as it is: nothing is reordered or rewritten (backend/server.js:215).
- No body-parsing middleware is installed (backend/server.js:7-11), so `req.body` is `undefined`. The destructuring at the start of each handler (lines 43, 123 and 188) therefore throws into that handler's `catch`. As written, `/analyze-image` and `/analyze-text` always answer 200 with their degraded record, and `/get-recommendation` always answers 500. The endpoint functions model the handlers from the request fields on, as they behave once the JSON body is parsed; the request functions add the body step (see "## Findings").

## Model

| member | source | states |
|---|---|---|
| NumericCoercion.ExtractNumber | backend/server.js:30-36 | a number comes back unchanged; every falsy value (`null`, `undefined`, `""`, `0`, `false`) gives 0; any other value gives a non-negative number |
| NumericCoercion.MatchIsNumeral | backend/server.js:34 | the span the scanner takes from a digit is a word of the pattern `[0-9]+(\.[0-9]+)?` |
| NumericCoercion.NotNumeralWithoutLeadingDigit | backend/server.js:34 | no match of the pattern starts with a non-digit or is empty |
| NumericCoercion.MatchIsLongest | backend/server.js:34 | no longer match of the pattern starts where the scanner's match starts |
| NumericCoercion.FindNumeralIsLeftmostLongest | backend/server.js:33-35 | the span found is a match of the pattern, no match starts earlier, no longer match starts at the same place, and when none is found the text holds no match at all |
| NumericCoercion.FindNumeral | backend/server.js:34 | a match found is a non-empty span of the string starting at its first digit; there is no match exactly when the string has no digit |
| NumericCoercion.ParseNumeral | backend/server.js:35 | `Number` of a matched numeral is never negative |
| NumericCoercion.ExtractNumberOfMatch | backend/server.js:33-35 | for any span `s[a..b]` that matches the pattern, with no match starting before `a` and no longer match starting at `a`, the string's number is `Number(s[a..b])` |
| NumericCoercion.ExtractNumberOfNoNumeral | backend/server.js:35 | a string with no match of the pattern anywhere gives 0 |
| NumericCoercion.DecimalTextValue | backend/server.js:35 | the digits of `n` read back as `n` |
| NumericCoercion.ParseDecimalText | backend/server.js:35 | `Number` of the digits of `n` is `n` |
| NumericCoercion.FindNumeralOfAnnotated | backend/server.js:34 | in digit-free text, then a whole number, then a unit, the match is exactly the number |
| NumericCoercion.FindNumeralOfDigits | backend/server.js:34 | the same for any run of digits |
| NumericCoercion.ExtractNumberOfAnnotated | backend/server.js:33-35 | a whole number wrapped in digit-free text and a unit is read back as that number |
| NumericCoercion.ExtractNumberWithoutDigits | backend/server.js:35 | a string without digits gives 0 |
| NumericCoercion.ExtractNumberOfGrams | backend/server.js:33-35 | "약 20g" gives 20 |
| NumericCoercion.ExtractNumberOfKcal | backend/server.js:33-35 | "350kcal" gives 350 |
| NumericCoercion.ExtractNumberIgnoresSign | backend/server.js:34 | "-7" gives 7: the sign is not part of the match |
| NumericCoercion.ExtractNumberOfNoNumber | backend/server.js:31-35 | "no digits here", `null` and `undefined` give 0; the number 42 gives 42 |
| NumericCoercion.ParseFraction | backend/server.js:35 | `a.b` reads as the integer value of `a` plus the fraction `0.b` |
| NumericCoercion.FindNumeralOfFraction | backend/server.js:34 | in digit-free text, then `a.b`, then a non-digit suffix, the match is the whole `a.b` |
| NumericCoercion.ExtractNumberOfDigitsWithFraction | backend/server.js:33-35 | such a string reads as the value of `a.b` |
| NumericCoercion.ExtractNumberOfAnnotatedDecimal | backend/server.js:33-35 | a decimal `n.f` wrapped in digit-free text and a unit reads as `n` plus the fraction of `f` |
| NumericCoercion.ExtractNumberOfDecimal | backend/server.js:33-35 | "12.5g" gives 12.5 |
| Json.FalsyValues | backend/server.js:32 | the falsy values are exactly `undefined`, `null`, `false`, `0` and `""`; objects are truthy |
| Json.Or | backend/server.js:95-102 | `a || b` is `a` when `a` is truthy and `b` otherwise, and is truthy exactly when one of them is |
| Json.Get | backend/server.js:95-102 | `v.key` on an object holding `key` is that property; any other result is `undefined` |
| Json.OptGet | backend/server.js:98-102 | `v?.key` is `undefined` on `null`/`undefined` and `v.key` otherwise |
| Json.ToText | backend/server.js:33 | `String(v)` of a string is the string, of a number its text, of `null` "null", of `undefined` "undefined", of an object "[object Object]" |
| Text.Join | backend/server.js:221-224 | joining no parts gives ""; otherwise the result starts with the first part |
| Text.JoinEndsWithLast | backend/server.js:221-224 | the joined text ends with the last part |
| Text.EndsWithConcat | backend/server.js:221-223 | a text ends with whatever is appended last |
| Text.JoinSnoc | backend/server.js:221-224 | joining one more part appends the separator and that part |
| Nutrition.EnglishPath | backend/server.js:96-102 | calories is a top-level key and every nutrient sits in `nutrients`, each under the field's own name |
| Nutrition.KoreanPath | backend/server.js:96-102 | 칼로리 is a top-level key and every nutrient sits in `영양소`; no Korean key equals the English one |
| Nutrition.Normalize | backend/server.js:94-104 | reading a key of a `null`/`undefined` answer throws (no record); with a truthy fallback name the record's name is always truthy |
| Nutrition.ReadingResolvesAliases | backend/server.js:96-102 | one field's reading is `extractNumber` of its English key when that is truthy, otherwise of its Korean alias, and 0 when both are falsy |
| Nutrition.NormalizedIsReading | backend/server.js:94-104 | each numeric field of the normalised record is that field's reading |
| Nutrition.NormalizeResolvesAliases | backend/server.js:96-102 | every numeric field is `extractNumber` of its English key when that is truthy, otherwise of its Korean alias, and 0 when both are falsy |
| Nutrition.NormalizeResolvesName | backend/server.js:95 | the name is `foodName` if truthy, else `음식 이름` if truthy, else the fallback |
| Nutrition.NormalizeEmptyObject | backend/server.js:94-104 | an empty answer gives the fallback name and zero everywhere |
| Nutrition.NormalizeIsIdempotent | backend/server.js:94-104 | normalising the JSON of a normalised record gives back its name and every numeric field |
| Nutrition.ReadingOfRecord | backend/server.js:96-102 | each number of a normalised record reads back as itself, zero included |
| Nutrition.ProteinOnlyReading | backend/server.js:96-102 | an answer with calories and only a protein entry gives those two coerced numbers and 0 for the other nutrients |
| Nutrition.NormalizeNamedProteinOnly | backend/server.js:94-104 | such an answer normalises to its own name, its two coerced numbers and zeros |
| Nutrition.StewReadings | backend/server.js:33-35 | "500kcal" gives 500 and "20g" gives 20 |
| Nutrition.NormalizeStewExample | backend/server.js:94-104 | `{foodName:"김치찌개", calories:"500kcal", nutrients:{protein:"20g"}}` normalises to 500 calories, 20 protein and zeros |
| Nutrition.Respond | backend/server.js:94-114 | status 200 always; a failed call or parse, or a `null`/`undefined` answer, gives the degraded record; otherwise the normalised answer |
| Nutrition.AnalyzeImage | backend/server.js:41-116 | a falsy image or MIME type gives 400 "Missing image"; otherwise status 200 with a truthy name; a failed call or parse, or a `null` answer, gives the record "분석 실패 (오류)" with all zeros; otherwise the answer normalised with fallback "음식명 없음" |
| Nutrition.AnalyzeText | backend/server.js:121-181 | a falsy text gives 400 "Text required"; otherwise status 200 with a truthy name; failure gives "검색 실패" with all zeros; otherwise the answer normalised with the request text as fallback name |
| Nutrition.AnalyzeTextFallsBackToRequest | backend/server.js:160 | an answer naming no food is recorded under the request text |
| Nutrition.ImageRequest | backend/server.js:41-44 | a `null`/`undefined` body gives 200 with "분석 실패 (오류)"; otherwise the endpoint on the body's `imageBase64` and `mimeType` |
| Nutrition.TextRequest | backend/server.js:121-124 | a `null`/`undefined` body gives 200 with "검색 실패"; otherwise the endpoint on the body's `text` |
| Nutrition.UnparsedImageRequest | backend/server.js:7-11 | with the unparsed body every image request gets the all-zero degraded record, whatever the model answers |
| Nutrition.UnparsedTextRequest | backend/server.js:7-11 | with the unparsed body every text request gets the all-zero "검색 실패" record |
| Nutrition.ParsedImageRequest | backend/server.js:41-104 | with a parsed body naming an image and its type, the answer is normalised under "음식명 없음"; a body missing either gets 400 |
| Nutrition.ParsedTextRequest | backend/server.js:121-168 | with a parsed body holding text, the answer is normalised under that text; a body without it gets 400 |
| RecommendationRelay.RecommendedIntake | backend/server.js:24-27 | a standard exists exactly for "male" and "female" |
| RecommendationRelay.UserStateKeysDistinct | backend/server.js:192-201 | the twelve `user_state` keys are pairwise different |
| RecommendationRelay.BuildUserState | backend/server.js:191-201 | the object has exactly the twelve keys, the `i`-th holding the `i`-th value |
| RecommendationRelay.UserStateValues | backend/server.js:192-201 | each `rec_*` key holds the standard's matching value, each `cur_*` key holds `extractNumber` of the matching `currentIntake` field, and there are twelve keys |
| RecommendationRelay.ToCandidate | backend/server.js:214-219 | an item throws exactly when it is `null`/`undefined`; the candidate's calories are `extractNumber` of its `calorie` |
| RecommendationRelay.ToCandidates | backend/server.js:214-219 | the map succeeds exactly when no item is `null`/`undefined`; it then has one candidate per item, in the same order |
| RecommendationRelay.TitleSegmentRank | backend/server.js:221 | the number `extractNumber` reads from a title segment `"{rank}. {name}"` is its rank |
| RecommendationRelay.TitleSegmentEndsWithName | backend/server.js:221 | a title segment ends with the menu name |
| RecommendationRelay.ReasonBlockRank | backend/server.js:222-223 | the number read from a reason block `"[{rank}위] …"` is its rank |
| RecommendationRelay.ReasonBlockEndsWithReason | backend/server.js:222-223 | a reason block ends with the reason |
| RecommendationRelay.CombinedTitle | backend/server.js:221 | no candidates give an empty title |
| RecommendationRelay.CombinedReason | backend/server.js:222-224 | no candidates give an empty reason |
| RecommendationRelay.CombinedTitleStartsWithFirst | backend/server.js:221 | the title starts with segment 1 of the first candidate |
| RecommendationRelay.CombinedTitleEndsWithLast | backend/server.js:221 | the title ends with the last candidate's segment |
| RecommendationRelay.CombinedReasonStartsWithFirst | backend/server.js:222-224 | the reason starts with block 1 of the first candidate |
| RecommendationRelay.CombinedReasonEndsWithLast | backend/server.js:222-224 | the reason ends with the last candidate's block |
| RecommendationRelay.TitleSegments | backend/server.js:221 | the `i`-th segment is `"{i+1}. {name}"` of the `i`-th candidate |
| RecommendationRelay.ReasonBlocks | backend/server.js:222-224 | the `i`-th block is `"[{i+1}위] {name} ({cal}kcal)\n👉 {reason}"` of the `i`-th candidate |
| RecommendationRelay.Aggregate | backend/server.js:213-232 | an empty list gives the fixed "추천 불가" answer; the fold succeeds exactly when no item is `null`/`undefined`; the calories are those of the first item |
| RecommendationRelay.ToCandidatesSnoc | backend/server.js:214-219 | one more item appends its candidate at the end |
| RecommendationRelay.CombinedTitleSnoc | backend/server.js:221 | one more candidate appends `" / "` and its numbered segment |
| RecommendationRelay.CombinedReasonSnoc | backend/server.js:222-224 | one more candidate appends a blank line and its numbered block |
| RecommendationRelay.AggregateKeepsOrder | backend/server.js:213-230 | appending an item to the answer extends the title and the reason at the end and leaves the calories alone: nothing is re-sorted |
| RecommendationRelay.TitleHasOneSegmentPerCandidate | backend/server.js:221 | with no `/` in any name, the title holds exactly `n - 1` separators for `n` candidates |
| RecommendationRelay.ReasonHasOneBlockPerCandidate | backend/server.js:222-224 | with single-line names, reasons and calories, the reason holds exactly `3n - 2` line breaks: one per block, two per separator |
| RecommendationRelay.BlockHasOneLineBreak | backend/server.js:223 | one reason block holds one line break |
| RecommendationRelay.GetRecommendation | backend/server.js:186-239 | missing `gender` or `currentIntake` gives 400; an unknown gender or a failed recommender call gives 500; otherwise the recommender receives the built `user_state` and `foodList` (or `[]`), and status 200 carries the aggregate of its answer, the fixed "추천 불가" answer for an empty list; an answer holding a `null`/`undefined` item gives 500 "Python Server connection failed" |
| RecommendationRelay.RecommendationRequest | backend/server.js:186-188 | a `null`/`undefined` body gives 500; otherwise the endpoint on the body's `gender` and `currentIntake` |
| RecommendationRelay.UnparsedRecommendationRequest | backend/server.js:7-11 | with the unparsed body every recommendation request answers 500 |
| RecommendationRelay.ParsedRecommendationRequest | backend/server.js:186-232 | with a parsed body of a known gender and an intake, an empty recommender answer gives 200 with the fixed "추천 불가" answer |
| Recommender.ResolveColumn | ai_server/app.py:48-52 | the chosen column is an alias that is present; nothing is chosen exactly when no alias is present |
| Recommender.ResolveColumnTakesFirstPresent | ai_server/app.py:48-52 | when the `k`-th alias is the first one present, it is the one chosen |
| Recommender.StandardColumnsDistinct | ai_server/app.py:35-42 | the six standard columns of `cols_map` are different |
| Recommender.FeatureSource | ai_server/app.py:45-60 | a standard column holds a table column exactly when an alias is present, and that column is such an alias; otherwise it is 0 when an earlier standard column was found and NaN when none was |
| Recommender.EnergyColumnRulesOutNaN | ai_server/app.py:45-54 | with an energy column in the table, no standard column is NaN |
| Recommender.NoAliasGivesNaN | ai_server/app.py:45-60 | with no alias in the table, every standard column is NaN |
| Recommender.FoundBeforeStep | ai_server/app.py:45-54 | a table column has been stored after a standard column exactly when one was stored before it or that column is found |
| Recommender.StoreStep | ai_server/app.py:50-54 | storing a standard column keeps the columns stored before it and adds only itself |
| Recommender.ResolveFeatureColumns | ai_server/app.py:45-54 | the nested loops give exactly the six standard columns, each holding what `FeatureSource` says: the first present alias, 0 or NaN |
| Recommender.DefaultUserState | ai_server/app.py:56-57 | every key of `feature_order` is present, existing keys keep their values, added keys are 0, and no other key appears |
| Recommender.ColumnIndex | ai_server/app.py:92 | the index found holds the column asked for |
| Recommender.Column | ai_server/app.py:92-93 | the column holds, row by row, that row's cell |
| Recommender.NameColumn | ai_server/app.py:88 | "음식명" when present, else the first column; an IndexError exactly when the table has no column |
| Recommender.CategoryColumn | ai_server/app.py:89 | "대표식품명" when present, else the second column; an IndexError exactly when it is absent and there are fewer than two columns |
| Recommender.HashableValues | ai_server/app.py:86 | `None`, booleans, numbers and strings can go into a `set`; a dictionary cannot |
| Recommender.ChooseColumn | ai_server/app.py:88-89 | the preferred column if present, else the column at the fallback position, and an IndexError exactly when neither exists |
| Recommender.Selection | ai_server/app.py:84-99 | at most 3 rows are chosen, all of them rows of the table |
| Recommender.Try | ai_server/app.py:91-99 | one candidate either leaves the selection alone or is appended to it, never beyond 3 |
| Recommender.SetOf | ai_server/app.py:86 | `set(recent_food_names)` holds exactly the list's elements |
| Recommender.SelectionSaturated | ai_server/app.py:99 | once 3 rows are chosen, later candidates change nothing (the `break`) |
| Recommender.SelectDiverse | ai_server/app.py:84-99 | the loop with `continue`, `break` and the two used sets chooses exactly the specified selection |
| Recommender.SelectionIsDiverse | ai_server/app.py:85-98 | no chosen name is recent, chosen names are pairwise different and chosen categories are pairwise different |
| Recommender.SelectionPositions | ai_server/app.py:91-96 | the chosen rows appear in the order at strictly increasing positions |
| Recommender.SelectionIsSubsequence | ai_server/app.py:91-96 | the selection is a subsequence of the candidate order |
| Recommender.SelectionExtends | ai_server/app.py:91-99 | what is chosen from a prefix of the order is a prefix of the final selection |
| Recommender.SelectionIsMaximal | ai_server/app.py:91-99 | every candidate tried while fewer than 3 are chosen has a recent or chosen name or a chosen category in the end: a candidate is skipped only for a conflict |
| Recommender.UnsaturatedSelectionIsMaximal | ai_server/app.py:91-99 | with fewer than 3 chosen in the end, every candidate of the order has a recent or chosen name or a chosen category |
| Recommender.CandidateConflicts | ai_server/app.py:93-94 | a candidate tried while fewer than 3 are chosen conflicts with the final selection |
| Recommender.SkippedExactlyOnConflict | ai_server/app.py:93-98 | while fewer than 3 are chosen, a candidate is passed over exactly when its name is recent or used or its category is used, and is appended otherwise |
| Recommender.KeysOf | ai_server/app.py:97-98 | the key of every selected row is in the used set |
| Recommender.KeysOfOnlySelected | ai_server/app.py:97-98 | every key in the used set is the key of a selected row |
| Recommender.KeysOfPrefix | ai_server/app.py:97-98 | the names and categories used grow with the selection |
| Recommender.ToFloat | ai_server/app.py:106-109 | a number converts to itself; a missing value or an object raises |
| Recommender.CalorieOf | ai_server/app.py:105-107 | the "에너지(kcal)" cell, else the "에너지" cell, else 0, and 0.0 when the cell does not convert |
| Recommender.MakeEntry | ai_server/app.py:111-117 | the record holds the row's name cell, its calories, its score and the reason text of that score |
| Recommender.AssembleResults | ai_server/app.py:101-117 | one record per selected row, in selection order |
| Recommender.RunRecommendationLogic | ai_server/app.py:26-118 | the features are resolved and `user_state` is defaulted; it fails exactly when the table has no rows (the KeyError of line 61: the `user_state` frame built from an empty list has no columns), `recent_food_names` holds an unhashable object (the TypeError of `set` at line 86) or the name or category column cannot be chosen (the IndexError of lines 88-89); otherwise the results are the records of the specified selection (`recent_food_names` of `None` counting as empty), at most 3, none with a recent name and no two with the same name |
| Pipeline.EntryJson | ai_server/app.py:111-117 | a result record is a JSON object, never `null` |
| Pipeline.ResultsJson | ai_server/app.py:101-118 | one JSON object per record, in order |
| Pipeline.RelayReadsEntry | backend/server.js:214-219 | the relay reads a recommender record back with its name, calories, reason and score unchanged |
| Pipeline.RelayAggregatesRecommenderResults | backend/server.js:213-232 | for any list the recommender returns, the relay's fold succeeds: the fixed answer when it is empty, otherwise the title and reason of the records in the recommender's order with the first record's calories |

## Findings

| source | as written | input that shows it | evidently intended | confidence | as-written member | corrected member |
|---|---|---|---|---|---|---|
| backend/server.js:7-11 | no JSON body parser is installed, so `req.body` is `undefined` and `/analyze-image` answers the degraded record to every request | any POST of `{imageBase64, mimeType}` with a valid model answer | `app.use(express.json())`, so the handler reads the request's fields | high, not executed | Nutrition.UnparsedImageRequest | Nutrition.ParsedImageRequest |
| backend/server.js:7-11 | the same for `/analyze-text`: every request answers "검색 실패" | any POST of `{text}` with a valid model answer | the handler reads the request's `text` | high, not executed | Nutrition.UnparsedTextRequest | Nutrition.ParsedTextRequest |
| backend/server.js:7-11 | the same for `/get-recommendation`: every request answers 500 | any POST of `{gender: "male", currentIntake: {...}}` | the handler reads `gender`, `currentIntake` and `foodList` | high, not executed | RecommendationRelay.UnparsedRecommendationRequest | RecommendationRelay.ParsedRecommendationRequest |

## Left out

- The HTTP layer is not modelled: Express, CORS, `app.listen`, the Flask route, `jsonify`, the logging and `process.exit` (backend/server.js:1-22, 241-243; ai_server/app.py:120-136). Each endpoint is a function from the request fields to a status and a body.
- The OpenAI calls, the axios call and `JSON.parse` are foreign calls. Their outcome is a parameter: the parsed answer, or `None` when the call or the parse throws.
- Pandas/Excel loading, the scaler and XGBoost prediction, the rescaling of probabilities with random noise, `argsort`, the top-50 cut and `np.random.shuffle` (ai_server/app.py:13-23, 59-82) are not modelled. They use foreign libraries, floating point and randomness. The row order tried and the scores are inputs (`order`, `preds`).
- The `except` branch of the prediction (ai_server/app.py:63-77) is not modelled. It replaces the scores with `np.random.uniform(85, 99, …)` whenever scaling or prediction raises, for any reason; the scores stay the input `preds`.
- JSON arrays are not a case of `Json.Value`. `String(array)` would need JavaScript number formatting. Lists at the boundaries are sequences of values.
- Numbers are exact reals: NaN, infinities and IEEE rounding are not modelled.
- Python's `1 == 1.0 == True` is not modelled: name and category equality is equality of values.
- Python `0` and `0.0` are one number here.
- Number-to-text conversion is the parameter `show` (JavaScript interpolation) and `format1` (Python `:.1f`). Python `float()` of a string is the parameter `floatOfText`.
- Recommender.ScoreReason: no property is stated beyond its text, because the digits come from the `format1` parameter.
- A gender such as "toString" or "constructor" names an inherited member of `Object.prototype` in JavaScript. The model treats it as unknown.
- Objects with their own `toString` are not modelled: `String(object)` is always "[object Object]".
- Recommender.MakeEntry: the `try`/`except` around `float(preds[idx])` is not modelled, because the predictions are floats and the conversion cannot fail.
- `user_state` not being a dictionary, and `recent_food_names` or `foodList` not being a list, are not modelled.
- A food table with repeated column names is excluded (`WellFormed`): pandas would return a frame for such a column.
- Recommender.DefaultUserState: the dictionary is updated in place in the source; the model returns the updated map.
- Recommender.ResolveFeatureColumns: `food_features` is built in place in the source; the model returns a map from each standard column to where its values come from (a table column, 0 or NaN), not the column itself. For a table without rows the call fails at line 61 before the features are used.
- Table cells are the scalars a spreadsheet yields: a cell holding a dictionary, which would make the `in` tests of lines 93-94 raise, is not modelled.
- `recent_food_names` elements that are lists (also unhashable in Python) are not modelled, because JSON arrays are not a case of `Json.Value`; unhashable objects are.
