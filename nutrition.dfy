/** The two analysis endpoints of backend/server.js, `/analyze-image` and
    `/analyze-text`, after the language model has answered: the answer (already
    parsed) is normalised into a fixed-shape nutrition record, and any failure
    yields a fixed degraded record with status 200. */
module Nutrition {
  import opened Json
  import opened NumericCoercion

  datatype Nutrients = Nutrients(protein: real, fat: real, carbohydrates: real, sugar: real, sodium: real)

  /** `foodName` is whatever truthy value the model gave (or the fallback), as
      the relay forwards it without conversion. */
  datatype NutritionRecord = NutritionRecord(foodName: Value, calories: real, nutrients: Nutrients)

  const ZeroNutrients := Nutrients(0.0, 0.0, 0.0, 0.0, 0.0)

  /** Name used by `/analyze-image` when the answer names no food. */
  const UnnamedFood := "음식명 없음"

  // ---------------------------------------------------------------------
  // The alias table the inline `||` chains implement.
  // ---------------------------------------------------------------------

  /** Where a field may be found: a top-level key, or a key inside a group
      object read with optional chaining (`data.group?.key`). */
  datatype Path = Key(key: string) | InGroup(group: string, key: string)

  function Lookup(data: Value, path: Path): Value
    requires !Nullish(data)
  {
    match path
    case Key(k) => Get(data, k)
    case InGroup(g, k) => OptGet(Get(data, g), k)
  }

  datatype Field = Calories | Protein | Fat | Carbohydrates | Sugar | Sodium

  /** The field's name in the record the relay sends. */
  function FieldName(f: Field): string
  {
    match f
    case Calories => "calories"
    case Protein => "protein"
    case Fat => "fat"
    case Carbohydrates => "carbohydrates"
    case Sugar => "sugar"
    case Sodium => "sodium"
  }

  /** The English key of a field: `calories` at the top level, every
      nutrient inside `nutrients`, under the field's own name. */
  function EnglishPath(f: Field): (p: Path)
    ensures p.Key? <==> f == Calories
    ensures p.InGroup? ==> p.group == "nutrients"
    ensures p.key == FieldName(f)
  {
    match f
    case Calories => Key("calories")
    case Protein => InGroup("nutrients", "protein")
    case Fat => InGroup("nutrients", "fat")
    case Carbohydrates => InGroup("nutrients", "carbohydrates")
    case Sugar => InGroup("nutrients", "sugar")
    case Sodium => InGroup("nutrients", "sodium")
  }

  /** The Korean alias of a field: `칼로리` at the top level, every nutrient
      inside `영양소`; no alias coincides with an English key. */
  function KoreanPath(f: Field): (p: Path)
    ensures p.Key? <==> f == Calories
    ensures p.InGroup? ==> p.group == "영양소"
    ensures p.key != EnglishPath(f).key
  {
    match f
    case Calories => Key("칼로리")
    case Protein => InGroup("영양소", "단백질")
    case Fat => InGroup("영양소", "지방")
    case Carbohydrates => InGroup("영양소", "탄수화물")
    case Sugar => InGroup("영양소", "당류")
    case Sodium => InGroup("영양소", "나트륨")
  }

  /** `extractNumber(english || korean)` for one field. */
  function Reading(data: Value, f: Field): real
    requires !Nullish(data)
  {
    ExtractNumber(Or(Lookup(data, EnglishPath(f)), Lookup(data, KoreanPath(f))))
  }

  function FieldOf(r: NutritionRecord, f: Field): real
  {
    match f
    case Calories => r.calories
    case Protein => r.nutrients.protein
    case Fat => r.nutrients.fat
    case Carbohydrates => r.nutrients.carbohydrates
    case Sugar => r.nutrients.sugar
    case Sodium => r.nutrients.sodium
  }

  /** `safeData` (lines 94-104 and 159-169): the name tries `foodName`, then
      `음식 이름`, then the fallback; every number tries its English key, then
      its Korean alias. Reading a key of `null` throws, which the endpoints
      turn into the degraded record; that case is `None`. */
  function Normalize(data: Value, fallbackName: Value): (r: Option<NutritionRecord>)
    ensures r.None? <==> Nullish(data)
    ensures r.Some? && Truthy(fallbackName) ==> Truthy(r.value.foodName)
  {
    if Nullish(data) then None
    else
      Some(NutritionRecord(
        Or(Or(Get(data, "foodName"), Get(data, "음식 이름")), fallbackName),
        Reading(data, Calories),
        Nutrients(Reading(data, Protein), Reading(data, Fat), Reading(data, Carbohydrates),
                  Reading(data, Sugar), Reading(data, Sodium))))
  }

  /** Each numeric field is the coercion of its English key when that is
      truthy, otherwise of its Korean alias, and 0 when both are falsy. */
  lemma NormalizeResolvesAliases(data: Value, fallbackName: Value, f: Field)
    requires !Nullish(data)
    ensures var r := Normalize(data, fallbackName).value;
      var english := Lookup(data, EnglishPath(f));
      var korean := Lookup(data, KoreanPath(f));
      (Truthy(english) ==> FieldOf(r, f) == ExtractNumber(english)) &&
      (!Truthy(english) ==> FieldOf(r, f) == ExtractNumber(korean)) &&
      (!Truthy(english) && !Truthy(korean) ==> FieldOf(r, f) == 0.0)
  {
    NormalizedIsReading(data, fallbackName, f);
    ReadingResolvesAliases(data, f);
  }

  /** One field's reading takes the English key when it is truthy, otherwise
      the Korean alias, and is 0 when both are falsy. */
  lemma ReadingResolvesAliases(data: Value, f: Field)
    requires !Nullish(data)
    ensures var english := Lookup(data, EnglishPath(f));
      var korean := Lookup(data, KoreanPath(f));
      (Truthy(english) ==> Reading(data, f) == ExtractNumber(english)) &&
      (!Truthy(english) ==> Reading(data, f) == ExtractNumber(korean)) &&
      (!Truthy(english) && !Truthy(korean) ==> Reading(data, f) == 0.0)
  {
  }

  lemma NormalizedIsReading(data: Value, fallbackName: Value, f: Field)
    requires !Nullish(data)
    ensures FieldOf(Normalize(data, fallbackName).value, f) == Reading(data, f)
  {
  }

  /** The name is the English key if truthy, else the Korean alias if truthy,
      else the fallback. */
  lemma NormalizeResolvesName(data: Value, fallbackName: Value)
    requires !Nullish(data)
    ensures var name := Normalize(data, fallbackName).value.foodName;
      (Truthy(Get(data, "foodName")) ==> name == Get(data, "foodName")) &&
      (!Truthy(Get(data, "foodName")) && Truthy(Get(data, "음식 이름")) ==> name == Get(data, "음식 이름")) &&
      (!Truthy(Get(data, "foodName")) && !Truthy(Get(data, "음식 이름")) ==> name == fallbackName)
  {
  }

  /** An empty answer object gives the fallback name and all zeros. */
  lemma NormalizeEmptyObject(fallbackName: Value)
    ensures Normalize(Obj(map[]), fallbackName) == Some(NutritionRecord(fallbackName, 0.0, ZeroNutrients))
  {
  }

  /** The record as the relay sends it. */
  function RecordToJson(r: NutritionRecord): Value
  {
    Obj(map[
      "foodName" := r.foodName,
      "calories" := Num(r.calories),
      "nutrients" := Obj(map[
        "protein" := Num(r.nutrients.protein),
        "fat" := Num(r.nutrients.fat),
        "carbohydrates" := Num(r.nutrients.carbohydrates),
        "sugar" := Num(r.nutrients.sugar),
        "sodium" := Num(r.nutrients.sodium)])])
  }

  /** Normalising a record the relay produced gives that record back, field
      by field: a zero field falls through to the missing Korean alias and is
      0 again. */
  lemma NormalizeIsIdempotent(r: NutritionRecord, fallbackName: Value, f: Field)
    requires Truthy(r.foodName)
    ensures var out := Normalize(RecordToJson(r), fallbackName).value;
      out.foodName == r.foodName && FieldOf(out, f) == FieldOf(r, f)
  {
    var data := RecordToJson(r);
    assert Get(data, "foodName") == r.foodName;
    NormalizedIsReading(data, fallbackName, f);
    ReadingOfRecord(r, f);
  }

  /** Each number of a relayed record reads back as itself. */
  lemma ReadingOfRecord(r: NutritionRecord, f: Field)
    ensures Reading(RecordToJson(r), f) == FieldOf(r, f)
  {
    var data := RecordToJson(r);
    assert Get(data, "영양소") == Undefined && Get(data, "칼로리") == Undefined;
    assert Lookup(data, EnglishPath(f)) == Num(FieldOf(r, f));
  }

  lemma StewReadings()
    ensures ExtractNumber(Str("500kcal")) == 500.0 && ExtractNumber(Str("20g")) == 20.0
  {
    assert DecimalText(500) == "500";
    assert "500kcal" == "" + DecimalText(500) + "kcal";
    ExtractNumberOfAnnotated("", 500, "kcal");
    assert DecimalText(20) == "20";
    assert "20g" == "" + DecimalText(20) + "g";
    ExtractNumberOfAnnotated("", 20, "g");
  }

  /** An answer naming the food, its calories and only its protein. */
  function ProteinOnly(name: Value, calories: Value, protein: Value): Value
  {
    Obj(map["foodName" := name, "calories" := calories,
            "nutrients" := Obj(map["protein" := protein])])
  }

  /** Such an answer normalises to its name, the number in its calories and
      in its protein, and zero for every nutrient it does not mention. */
  lemma NormalizeNamedProteinOnly(name: Value, calories: Value, protein: Value,
                                  fallbackName: Value, f: Field)
    requires Truthy(name)
    ensures var out := Normalize(ProteinOnly(name, calories, protein), fallbackName).value;
      out.foodName == name &&
      FieldOf(out, f) == (if f == Calories then ExtractNumber(calories)
                          else if f == Protein then ExtractNumber(protein) else 0.0)
  {
    var data := ProteinOnly(name, calories, protein);
    assert Get(data, "foodName") == name;
    NormalizedIsReading(data, fallbackName, f);
    ProteinOnlyReading(name, calories, protein, f);
  }

  lemma ProteinOnlyReading(name: Value, calories: Value, protein: Value, f: Field)
    ensures Reading(ProteinOnly(name, calories, protein), f)
      == (if f == Calories then ExtractNumber(calories)
          else if f == Protein then ExtractNumber(protein) else 0.0)
  {
    var data := ProteinOnly(name, calories, protein);
    assert Get(data, "영양소") == Undefined && Get(data, "칼로리") == Undefined;
    match f
    case Calories =>
      assert Lookup(data, EnglishPath(f)) == calories;
    case Protein =>
      assert Lookup(data, EnglishPath(f)) == protein;
    case Fat =>
      assert Lookup(data, EnglishPath(f)) == Undefined;
    case Carbohydrates =>
      assert Lookup(data, EnglishPath(f)) == Undefined;
    case Sugar =>
      assert Lookup(data, EnglishPath(f)) == Undefined;
    case Sodium =>
      assert Lookup(data, EnglishPath(f)) == Undefined;
  }

  /** {foodName:"김치찌개", calories:"500kcal", nutrients:{protein:"20g"}}
      normalises to 500 calories, 20 protein and zero for the rest. */
  lemma NormalizeStewExample(fallbackName: Value, f: Field)
    ensures var out := Normalize(ProteinOnly(Str("김치찌개"), Str("500kcal"), Str("20g")),
                                 fallbackName).value;
      out.foodName == Str("김치찌개") &&
      FieldOf(out, f) == (if f == Calories then 500.0 else if f == Protein then 20.0 else 0.0)
  {
    StewReadings();
    NormalizeNamedProteinOnly(Str("김치찌개"), Str("500kcal"), Str("20g"), fallbackName, f);
  }

  // ---------------------------------------------------------------------
  // The endpoints.
  // ---------------------------------------------------------------------

  datatype Body = RecordBody(record: NutritionRecord) | ErrorBody(error: string)
  datatype Response = Response(status: nat, body: Body)

  /** Degraded record of `/analyze-image` (lines 110-114). */
  const ImageFailure := NutritionRecord(Str("분석 실패 (오류)"), 0.0, ZeroNutrients)

  /** Degraded record of `/analyze-text` (lines 175-179). */
  const TextFailure := NutritionRecord(Str("검색 실패"), 0.0, ZeroNutrients)

  predicate IsDegraded(r: NutritionRecord)
  {
    Truthy(r.foodName) && r.calories == 0.0 && r.nutrients == ZeroNutrients
  }

  /** The record sent back once the request has passed its checks: `answer` is
      the parsed model answer, `None` when the call or `JSON.parse` failed. */
  function Respond(answer: Option<Value>, fallbackName: Value, failure: NutritionRecord): (resp: Response)
    ensures resp.status == 200 && resp.body.RecordBody?
    ensures answer.None? || Nullish(answer.value) ==> resp.body.record == failure
    ensures answer.Some? && !Nullish(answer.value) ==>
      resp.body.record == Normalize(answer.value, fallbackName).value
  {
    if answer.None? then Response(200, RecordBody(failure))
    else match Normalize(answer.value, fallbackName)
      case None => Response(200, RecordBody(failure))
      case Some(r) => Response(200, RecordBody(r))
  }

  /** `/analyze-image` (lines 41-116). */
  function AnalyzeImage(imageBase64: Value, mimeType: Value, answer: Option<Value>): (resp: Response)
    ensures !Truthy(imageBase64) || !Truthy(mimeType) ==> resp == Response(400, ErrorBody("Missing image"))
    ensures Truthy(imageBase64) && Truthy(mimeType) ==>
      resp.status == 200 && resp.body.RecordBody? && Truthy(resp.body.record.foodName)
    ensures Truthy(imageBase64) && Truthy(mimeType) && (answer.None? || Nullish(answer.value)) ==>
      resp.body == RecordBody(ImageFailure) && IsDegraded(ImageFailure)
    ensures Truthy(imageBase64) && Truthy(mimeType) && answer.Some? && !Nullish(answer.value) ==>
      resp.body == RecordBody(Normalize(answer.value, Str(UnnamedFood)).value)
  {
    if !Truthy(imageBase64) || !Truthy(mimeType) then Response(400, ErrorBody("Missing image"))
    else Respond(answer, Str(UnnamedFood), ImageFailure)
  }

  /** `/analyze-text` (lines 121-181): the request text is the name of last
      resort, and it is never empty because an empty text is refused. */
  function AnalyzeText(text: Value, answer: Option<Value>): (resp: Response)
    ensures !Truthy(text) ==> resp == Response(400, ErrorBody("Text required"))
    ensures Truthy(text) ==>
      resp.status == 200 && resp.body.RecordBody? && Truthy(resp.body.record.foodName)
    ensures Truthy(text) && (answer.None? || Nullish(answer.value)) ==>
      resp.body == RecordBody(TextFailure) && IsDegraded(TextFailure)
    ensures Truthy(text) && answer.Some? && !Nullish(answer.value) ==>
      resp.body == RecordBody(Normalize(answer.value, text).value)
  {
    if !Truthy(text) then Response(400, ErrorBody("Text required"))
    else Respond(answer, text, TextFailure)
  }

  // ---------------------------------------------------------------------
  // The request body. Both handlers start by destructuring `req.body`
  // (lines 43 and 123) inside their `try`; on `undefined` or `null` that
  // throws, and the `catch` answers the degraded record.
  // ---------------------------------------------------------------------

  /** `/analyze-image` from the request body on. */
  function ImageRequest(body: Value, answer: Option<Value>): (resp: Response)
    ensures Nullish(body) ==> resp == Response(200, RecordBody(ImageFailure))
    ensures !Nullish(body) ==> resp == AnalyzeImage(Get(body, "imageBase64"), Get(body, "mimeType"), answer)
  {
    if Nullish(body) then Respond(None, Str(UnnamedFood), ImageFailure)
    else AnalyzeImage(Get(body, "imageBase64"), Get(body, "mimeType"), answer)
  }

  /** `/analyze-text` from the request body on. */
  function TextRequest(body: Value, answer: Option<Value>): (resp: Response)
    ensures Nullish(body) ==> resp == Response(200, RecordBody(TextFailure))
    ensures !Nullish(body) ==> resp == AnalyzeText(Get(body, "text"), answer)
  {
    if Nullish(body) then Respond(None, Str(UnnamedFood), TextFailure)
    else AnalyzeText(Get(body, "text"), answer)
  }

  /** As written, no body-parsing middleware is installed (lines 7-11), so
      `req.body` is `undefined`: every image request, however well formed and
      whatever the model answers, gets the degraded record. */
  lemma UnparsedImageRequest(answer: Option<Value>)
    ensures ImageRequest(Undefined, answer).body == RecordBody(ImageFailure)
    ensures IsDegraded(ImageFailure)
  {
  }

  /** Likewise every text request gets "검색 실패". */
  lemma UnparsedTextRequest(answer: Option<Value>)
    ensures TextRequest(Undefined, answer).body == RecordBody(TextFailure)
    ensures IsDegraded(TextFailure)
  {
  }

  /** With the JSON body parsed (`app.use(express.json())`), a request naming
      an image and its type gets the model's answer normalised, and one
      missing either gets 400. */
  lemma ParsedImageRequest(fields: map<string, Value>, data: Value)
    requires !Nullish(data)
    ensures var body := Obj(fields);
      Truthy(Get(body, "imageBase64")) && Truthy(Get(body, "mimeType")) ==>
        ImageRequest(body, Some(data)) == Response(200, RecordBody(Normalize(data, Str(UnnamedFood)).value))
    ensures var body := Obj(fields);
      !Truthy(Get(body, "imageBase64")) || !Truthy(Get(body, "mimeType")) ==>
        ImageRequest(body, Some(data)).status == 400
  {
  }

  /** With the JSON body parsed, a request with text gets the model's answer
      normalised under that text, and one without gets 400. */
  lemma ParsedTextRequest(fields: map<string, Value>, data: Value)
    requires !Nullish(data)
    ensures var body := Obj(fields);
      Truthy(Get(body, "text")) ==>
        TextRequest(body, Some(data)) == Response(200, RecordBody(Normalize(data, Get(body, "text")).value))
    ensures !Truthy(Get(Obj(fields), "text")) ==> TextRequest(Obj(fields), Some(data)).status == 400
  {
  }

  /** A text answer that names no food is recorded under the request text. */
  lemma AnalyzeTextFallsBackToRequest(text: Value, data: Value)
    requires Truthy(text) && !Nullish(data)
    requires !Truthy(Get(data, "foodName")) && !Truthy(Get(data, "음식 이름"))
    ensures AnalyzeText(text, Some(data)).body.record.foodName == text
  {
  }
}
