/** `/get-recommendation` of backend/server.js: builds the `user_state` sent to
    the recommender from the gender's recommended intake and the current intake,
    then folds the ranked candidates that come back into one title, one
    calorie figure and one multi-paragraph reason. */
module RecommendationRelay {
  import opened Json
  import opened NumericCoercion
  import opened Text

  datatype Standard = Standard(calories: real, carbs: real, protein: real, fat: real, sugar: real, sodium: real)

  /** `RECOMMENDED_INTAKE[gender]` (lines 24-27); any other key is undefined. */
  function RecommendedIntake(gender: Value): (r: Option<Standard>)
    ensures r.Some? <==> gender == Str("male") || gender == Str("female")
  {
    if gender == Str("male") then Some(Standard(2500.0, 324.0, 60.0, 54.0, 50.0, 2000.0))
    else if gender == Str("female") then Some(Standard(2000.0, 270.0, 50.0, 45.0, 50.0, 2000.0))
    else None
  }

  type UserState = map<string, real>

  const RecommendedKeys: seq<string> := ["rec_cal", "rec_carb", "rec_pro", "rec_fat", "rec_sugar", "rec_na"]
  const CurrentKeys: seq<string> := ["cur_cal", "cur_carb", "cur_pro", "cur_fat", "cur_sugar", "cur_na"]
  /** The keys of `currentIntake` read for `cur_*`, in the same order. */
  const IntakeFields: seq<string> := ["calories", "carbs", "protein", "fat", "sugar", "sodium"]

  function StandardAt(s: Standard, i: nat): real
    requires i < 6
  {
    [s.calories, s.carbs, s.protein, s.fat, s.sugar, s.sodium][i]
  }

  /** The twelve keys of `user_state`, recommended ones first. */
  const UserStateKeys: seq<string> := RecommendedKeys + CurrentKeys

  lemma UserStateKeysDistinct()
    ensures forall i, j :: 0 <= i < j < |UserStateKeys| ==> UserStateKeys[i] != UserStateKeys[j]
  {
    var ks := UserStateKeys;
    assert |ks| == 12;
    forall i, j | 0 <= i < j < 12 ensures ks[i] != ks[j] {
      assert |ks[i]| >= 6 && |ks[j]| >= 6;
      if i < 6 <= j {
        assert ks[i][0] == 'r' && ks[j][0] == 'c';
      } else {
        assert ks[i][4] != ks[j][4] || |ks[i]| != |ks[j]|;
      }
    }
  }

  /** The value stored under the `i`-th key. */
  function UserStateValue(standard: Standard, currentIntake: Value, i: nat): real
    requires !Nullish(currentIntake) && i < 12
  {
    if i < 6 then StandardAt(standard, i)
    else ExtractNumber(Get(currentIntake, IntakeFields[i - 6]))
  }

  /** `user_state` (lines 192-201): under the `i`-th key, the `i`-th value of
      the gender's standard for the six recommended keys, the coerced `i`-th
      intake field for the six current ones. */
  function BuildUserState(standard: Standard, currentIntake: Value): (u: UserState)
    requires !Nullish(currentIntake)
    ensures forall k :: k in u <==> k in UserStateKeys
    ensures forall i :: 0 <= i < |UserStateKeys| ==> u[UserStateKeys[i]] == UserStateValue(standard, currentIntake, i)
  {
    UserStateKeysDistinct();
    var u := map i | 0 <= i < 12 :: UserStateKeys[i] := UserStateValue(standard, currentIntake, i);
    forall i | 0 <= i < 12 ensures u[UserStateKeys[i]] == UserStateValue(standard, currentIntake, i) {
      var k := UserStateKeys[i];
      assert k in u;
      var j :| 0 <= j < 12 && UserStateKeys[j] == k && u[k] == UserStateValue(standard, currentIntake, j);
    }
    u
  }

  /** The `i`-th `rec_*` key holds the `i`-th value of the standard and the
      `i`-th `cur_*` key the coerced `i`-th intake field; no other key is set. */
  lemma UserStateValues(standard: Standard, currentIntake: Value, i: nat)
    requires !Nullish(currentIntake) && i < 6
    ensures var u := BuildUserState(standard, currentIntake);
      u[RecommendedKeys[i]] == StandardAt(standard, i) &&
      u[CurrentKeys[i]] == ExtractNumber(Get(currentIntake, IntakeFields[i])) &&
      |u.Keys| == 12
  {
    var u := BuildUserState(standard, currentIntake);
    assert UserStateKeys[i] == RecommendedKeys[i] && UserStateKeys[6 + i] == CurrentKeys[i];
    UserStateKeysDistinct();
    KeyCount(UserStateKeys, u.Keys);
  }

  /** A set holding exactly the elements of a sequence without repeats has
      the sequence's length. */
  lemma {:induction false} KeyCount(ks: seq<string>, keys: set<string>)
    requires forall i, j :: 0 <= i < j < |ks| ==> ks[i] != ks[j]
    requires forall k :: k in keys <==> k in ks
    ensures |keys| == |ks|
    decreases |ks|
  {
    if |ks| > 0 {
      var last := ks[|ks| - 1];
      var rest := ks[..|ks| - 1];
      assert forall k :: k in keys - {last} <==> k in rest;
      KeyCount(rest, keys - {last});
    }
  }

  // ---------------------------------------------------------------------
  // Candidates and their aggregation (lines 213-232).
  // ---------------------------------------------------------------------

  datatype Candidate = Candidate(menuName: Value, calories: real, reason: Value, score: real)

  /** One element of `safeList`; reading a field of `null` throws (`None`). */
  function ToCandidate(item: Value): (c: Option<Candidate>)
    ensures c.None? <==> Nullish(item)
    ensures c.Some? ==> c.value.calories == ExtractNumber(Get(item, "calorie"))
  {
    if Nullish(item) then None
    else Some(Candidate(
      Get(item, "recommend_menu"),
      ExtractNumber(Get(item, "calorie")),
      Get(item, "reason"),
      ExtractNumber(Get(item, "score"))))
  }

  /** `recommendations.map(...)`: one candidate per item, in the same order. */
  function ToCandidates(items: seq<Value>): (r: Option<seq<Candidate>>)
    ensures r.Some? <==> forall i :: 0 <= i < |items| ==> !Nullish(items[i])
    ensures r.Some? ==> |r.value| == |items|
    ensures r.Some? ==> forall i :: 0 <= i < |items| ==> ToCandidate(items[i]) == Some(r.value[i])
  {
    if |items| == 0 then Some([])
    else
      match (ToCandidate(items[0]), ToCandidates(items[1..]))
      case (Some(c), Some(rest)) =>
        assert forall i :: 1 <= i < |items| ==> items[i] == items[1..][i - 1];
        Some([c] + rest)
      case (None, _) => None
      case (_, None) =>
        assert forall i :: 1 <= i < |items| ==> items[i] == items[1..][i - 1];
        None
  }

  /** "{rank}. {name}" */
  function TitleSegment(rank: nat, c: Candidate, show: real -> string): string
  {
    DecimalText(rank) + ". " + ToText(c.menuName, show)
  }

  /** "[{rank}위] {name} ({calories}kcal)\n👉 {reason}" */
  function ReasonBlock(rank: nat, c: Candidate, show: real -> string): string
  {
    "[" + DecimalText(rank) + "위] " + ToText(c.menuName, show)
      + " (" + show(c.calories) + "kcal)\n👉 " + ToText(c.reason, show)
  }

  /** The first number in a title segment is its rank. */
  lemma TitleSegmentRank(rank: nat, c: Candidate, show: real -> string)
    ensures ExtractNumber(Str(TitleSegment(rank, c, show))) == rank as real
  {
    var name := ToText(c.menuName, show);
    assert TitleSegment(rank, c, show) == "" + DecimalText(rank) + (". " + name);
    ExtractNumberOfAnnotated("", rank, ". " + name);
  }

  /** A title segment ends with the menu name. */
  lemma TitleSegmentEndsWithName(rank: nat, c: Candidate, show: real -> string)
    ensures EndsWith(TitleSegment(rank, c, show), ToText(c.menuName, show))
  {
    var head := DecimalText(rank) + ". ";
    assert TitleSegment(rank, c, show) == head + ToText(c.menuName, show);
    EndsWithConcat(head, ToText(c.menuName, show));
  }

  /** The first number in a reason block is its rank. */
  lemma ReasonBlockRank(rank: nat, c: Candidate, show: real -> string)
    ensures ExtractNumber(Str(ReasonBlock(rank, c, show))) == rank as real
  {
    var rest := "위] " + ToText(c.menuName, show) + " (" + show(c.calories) + "kcal)\n👉 " + ToText(c.reason, show);
    assert ReasonBlock(rank, c, show) == "[" + DecimalText(rank) + rest;
    assert rest[0] == '위';
    ExtractNumberOfAnnotated("[", rank, rest);
  }

  /** A reason block ends with the reason. */
  lemma ReasonBlockEndsWithReason(rank: nat, c: Candidate, show: real -> string)
    ensures EndsWith(ReasonBlock(rank, c, show), ToText(c.reason, show))
  {
    var head := "[" + DecimalText(rank) + "위] " + ToText(c.menuName, show) + " (" + show(c.calories) + "kcal)\n👉 ";
    assert ReasonBlock(rank, c, show) == head + ToText(c.reason, show);
    EndsWithConcat(head, ToText(c.reason, show));
  }

  function TitleSegments(cands: seq<Candidate>, show: real -> string): (segs: seq<string>)
    ensures |segs| == |cands|
    ensures forall i :: 0 <= i < |cands| ==> segs[i] == TitleSegment(i + 1, cands[i], show)
  {
    seq(|cands|, i requires 0 <= i < |cands| => TitleSegment(i + 1, cands[i], show))
  }

  function ReasonBlocks(cands: seq<Candidate>, show: real -> string): (blocks: seq<string>)
    ensures |blocks| == |cands|
    ensures forall i :: 0 <= i < |cands| ==> blocks[i] == ReasonBlock(i + 1, cands[i], show)
  {
    seq(|cands|, i requires 0 <= i < |cands| => ReasonBlock(i + 1, cands[i], show))
  }

  /** The separators of `join` in the combined title and reason. */
  const TitleSeparator := " / "
  const ReasonSeparator := "\n\n"

  /** `combinedTitle`: empty exactly when there is no candidate. */
  function CombinedTitle(cands: seq<Candidate>, show: real -> string): (title: string)
    ensures |cands| == 0 ==> title == ""
  {
    Join(TitleSegments(cands, show), TitleSeparator)
  }

  /** `combinedReason`: empty exactly when there is no candidate. */
  function CombinedReason(cands: seq<Candidate>, show: real -> string): (reason: string)
    ensures |cands| == 0 ==> reason == ""
  {
    Join(ReasonBlocks(cands, show), ReasonSeparator)
  }

  /** The combined title starts with the first candidate's segment. */
  lemma CombinedTitleStartsWithFirst(cands: seq<Candidate>, show: real -> string)
    requires |cands| > 0
    ensures TitleSegment(1, cands[0], show) <= CombinedTitle(cands, show)
  {
    assert TitleSegments(cands, show)[0] == TitleSegment(1, cands[0], show);
  }

  /** The combined title ends with the last candidate's segment. */
  lemma CombinedTitleEndsWithLast(cands: seq<Candidate>, show: real -> string)
    requires |cands| > 0
    ensures EndsWith(CombinedTitle(cands, show), TitleSegment(|cands|, cands[|cands| - 1], show))
  {
    var segs := TitleSegments(cands, show);
    var last := TitleSegment(|cands|, cands[|cands| - 1], show);
    assert segs[|segs| - 1] == last;
    JoinEndsWithLast(segs, TitleSeparator, last);
  }

  /** The combined reason starts with the first candidate's block. */
  lemma CombinedReasonStartsWithFirst(cands: seq<Candidate>, show: real -> string)
    requires |cands| > 0
    ensures ReasonBlock(1, cands[0], show) <= CombinedReason(cands, show)
  {
    assert ReasonBlocks(cands, show)[0] == ReasonBlock(1, cands[0], show);
  }

  /** The combined reason ends with the last candidate's block. */
  lemma CombinedReasonEndsWithLast(cands: seq<Candidate>, show: real -> string)
    requires |cands| > 0
    ensures EndsWith(CombinedReason(cands, show), ReasonBlock(|cands|, cands[|cands| - 1], show))
  {
    var blocks := ReasonBlocks(cands, show);
    var last := ReasonBlock(|cands|, cands[|cands| - 1], show);
    assert blocks[|blocks| - 1] == last;
    JoinEndsWithLast(blocks, ReasonSeparator, last);
  }

  datatype Combined = Combined(menuName: string, calories: real, reason: string)

  /** The answer when the recommender returns no candidate (line 232). */
  const NoMenu := Combined("추천 불가", 0.0, "조건에 맞는 메뉴가 없습니다.")

  /** The combined payload (lines 213-232); `None` when a candidate is null and
      reading its fields throws. The ranking of the input is kept. */
  function Aggregate(items: seq<Value>, show: real -> string): (r: Option<Combined>)
    ensures |items| == 0 ==> r == Some(NoMenu)
    ensures r.Some? <==> forall i :: 0 <= i < |items| ==> !Nullish(items[i])
    ensures |items| > 0 && r.Some? ==> r.value.calories == ExtractNumber(Get(items[0], "calorie"))
  {
    if |items| == 0 then Some(NoMenu)
    else
      match ToCandidates(items)
      case None => None
      case Some(cands) =>
        Some(Combined(CombinedTitle(cands, show), cands[0].calories, CombinedReason(cands, show)))
  }

  lemma ToCandidatesSnoc(items: seq<Value>, last: Value)
    requires ToCandidates(items).Some? && !Nullish(last)
    ensures ToCandidates(items + [last]) == Some(ToCandidates(items).value + [ToCandidate(last).value])
  {
    var all := items + [last];
    var cands := ToCandidates(items).value;
    assert forall i :: 0 <= i < |items| ==> all[i] == items[i];
    assert all[|items|] == last;
    assert forall i :: 0 <= i < |all| ==> !Nullish(all[i]);
    var allCands := ToCandidates(all).value;
    var expected := cands + [ToCandidate(last).value];
    assert |allCands| == |expected|;
    forall i | 0 <= i < |all| ensures allCands[i] == expected[i] {
      assert ToCandidate(all[i]) == Some(allCands[i]);
      if i < |items| {
        assert ToCandidate(items[i]) == Some(cands[i]);
      }
    }
    assert allCands == expected;
  }

  lemma CombinedTitleSnoc(cands: seq<Candidate>, c: Candidate, show: real -> string)
    requires |cands| > 0
    ensures CombinedTitle(cands + [c], show)
      == CombinedTitle(cands, show) + TitleSeparator + TitleSegment(|cands| + 1, c, show)
  {
    assert TitleSegments(cands + [c], show) == TitleSegments(cands, show) + [TitleSegment(|cands| + 1, c, show)];
    JoinSnoc(TitleSegments(cands, show), TitleSegment(|cands| + 1, c, show), TitleSeparator);
  }

  lemma CombinedReasonSnoc(cands: seq<Candidate>, c: Candidate, show: real -> string)
    requires |cands| > 0
    ensures CombinedReason(cands + [c], show)
      == CombinedReason(cands, show) + ReasonSeparator + ReasonBlock(|cands| + 1, c, show)
  {
    assert ReasonBlocks(cands + [c], show) == ReasonBlocks(cands, show) + [ReasonBlock(|cands| + 1, c, show)];
    JoinSnoc(ReasonBlocks(cands, show), ReasonBlock(|cands| + 1, c, show), ReasonSeparator);
  }

  /** Appending a candidate appends its numbered segment and its block after a
      separator, and leaves the top candidate's calories: nothing is re-sorted. */
  lemma AggregateKeepsOrder(items: seq<Value>, last: Value, show: real -> string)
    requires |items| > 0 && Aggregate(items, show).Some? && !Nullish(last)
    ensures var before := Aggregate(items, show).value;
      var c := ToCandidate(last).value;
      Aggregate(items + [last], show) == Some(Combined(
        before.menuName + TitleSeparator + TitleSegment(|items| + 1, c, show),
        before.calories,
        before.reason + ReasonSeparator + ReasonBlock(|items| + 1, c, show)))
  {
    var cands := ToCandidates(items).value;
    var c := ToCandidate(last).value;
    ToCandidatesSnoc(items, last);
    CombinedTitleSnoc(cands, c, show);
    CombinedReasonSnoc(cands, c, show);
    assert (cands + [c])[0] == cands[0];
  }

  lemma DigitsHaveNo(s: string, c: char)
    requires AllDigits(s) && !IsDigit(c)
    ensures Count(s, c) == 0
    decreases |s|
  {
    if |s| > 0 {
      assert AllDigits(s[1..]) by { assert forall i :: 0 <= i < |s| - 1 ==> s[1..][i] == s[i + 1]; }
      DigitsHaveNo(s[1..], c);
    }
  }

  /** When no menu name contains '/', the title is exactly `n` segments: it
      holds `n - 1` slashes, one per " / " separator. */
  lemma TitleHasOneSegmentPerCandidate(cands: seq<Candidate>, show: real -> string)
    requires |cands| > 0
    requires forall i :: 0 <= i < |cands| ==> Count(ToText(cands[i].menuName, show), '/') == 0
    ensures Count(CombinedTitle(cands, show), '/') == |cands| - 1
  {
    var segs := TitleSegments(cands, show);
    forall i | 0 <= i < |segs| ensures Count(segs[i], '/') == 0 {
      var d := DecimalText(i + 1);
      DigitsHaveNo(d, '/');
      assert Count(". ", '/') == 0;
      CountConcat(d, ". ", '/');
      CountConcat(d + ". ", ToText(cands[i].menuName, show), '/');
    }
    var n := |segs|;
    assert Count(TitleSeparator, '/') == 1;
    JoinCount(segs, TitleSeparator, '/', 0);
    assert n * 0 + (n - 1) * 1 == n - 1;
  }

  /** When no name, reason or calorie text contains a line break, the reason
      is `n` two-line blocks separated by blank lines: `3n - 2` line breaks. */
  lemma ReasonHasOneBlockPerCandidate(cands: seq<Candidate>, show: real -> string)
    requires |cands| > 0
    requires forall i :: 0 <= i < |cands| ==>
      Count(ToText(cands[i].menuName, show), '\n') == 0 &&
      Count(ToText(cands[i].reason, show), '\n') == 0 &&
      Count(show(cands[i].calories), '\n') == 0
    ensures Count(CombinedReason(cands, show), '\n') == 3 * |cands| - 2
  {
    var blocks := ReasonBlocks(cands, show);
    forall i | 0 <= i < |blocks| ensures Count(blocks[i], '\n') == 1 {
      BlockHasOneLineBreak(i + 1, cands[i], show);
    }
    var n := |blocks|;
    assert Count(ReasonSeparator, '\n') == 2;
    JoinCount(blocks, ReasonSeparator, '\n', 1);
    assert n * 1 + (n - 1) * 2 == 3 * n - 2;
  }

  /** The fixed pieces of a reason block: only the one before the reason
      holds a line break. */
  lemma TemplateLineBreaks()
    ensures Count("[", '\n') == 0 && Count("위] ", '\n') == 0 && Count(" (", '\n') == 0
    ensures Count("kcal)\n👉 ", '\n') == 1
  {
    assert Count("kcal)\n👉 ", '\n') == 1;
  }

  lemma BlockHasOneLineBreak(rank: nat, c: Candidate, show: real -> string)
    requires Count(ToText(c.menuName, show), '\n') == 0
    requires Count(ToText(c.reason, show), '\n') == 0
    requires Count(show(c.calories), '\n') == 0
    ensures Count(ReasonBlock(rank, c, show), '\n') == 1
  {
    TemplateLineBreaks();
    var d := DecimalText(rank);
    var name := ToText(c.menuName, show);
    var cal := show(c.calories);
    var why := ToText(c.reason, show);
    var p1 := "[" + d;
    assert Count(p1, '\n') == 0 by {
      DigitsHaveNo(d, '\n');
      CountConcat("[", d, '\n');
    }
    var p2 := p1 + "위] " + name;
    assert Count(p2, '\n') == 0 by {
      CountConcat(p1, "위] ", '\n');
      CountConcat(p1 + "위] ", name, '\n');
    }
    var p3 := p2 + " (" + cal;
    assert Count(p3, '\n') == 0 by {
      CountConcat(p2, " (", '\n');
      CountConcat(p2 + " (", cal, '\n');
    }
    var p4 := p3 + "kcal)\n👉 " + why;
    assert Count(p4, '\n') == 1 by {
      CountConcat(p3, "kcal)\n👉 ", '\n');
      CountConcat(p3 + "kcal)\n👉 ", why, '\n');
    }
    assert ReasonBlock(rank, c, show) == p4;
  }

  // ---------------------------------------------------------------------
  // The endpoint.
  // ---------------------------------------------------------------------

  datatype Body = CombinedBody(combined: Combined) | ErrorBody(error: string)
  datatype Response = Response(status: nat, body: Body)

  const MissingData := Response(400, ErrorBody("Missing data"))
  const ConnectionFailed := Response(500, ErrorBody("Python Server connection failed"))

  /** `/get-recommendation` (lines 186-239). `recommend` stands for the call to
      the recommender with `user_state` and `recent_food_names`, answering the
      candidate list or `None` when the call fails; `foodList` is `None` when
      the request carries no list. Every exception in the handler answers 500. */
  function GetRecommendation(gender: Value, currentIntake: Value, foodList: Option<seq<Value>>,
                             recommend: (UserState, seq<Value>) -> Option<seq<Value>>,
                             show: real -> string): (resp: Response)
    ensures !Truthy(gender) || !Truthy(currentIntake) ==> resp == MissingData
    ensures Truthy(gender) && Truthy(currentIntake) && RecommendedIntake(gender).None? ==>
      resp == ConnectionFailed
    ensures Truthy(gender) && Truthy(currentIntake) && RecommendedIntake(gender).Some? ==>
      var state := BuildUserState(RecommendedIntake(gender).value, currentIntake);
      var answer := recommend(state, if foodList.Some? then foodList.value else []);
      (answer.None? ==> resp == ConnectionFailed) &&
      (answer.Some? && answer.value == [] ==> resp == Response(200, CombinedBody(NoMenu))) &&
      (answer.Some? ==> (resp.status == 200 <==> Aggregate(answer.value, show).Some?)) &&
      (answer.Some? && Aggregate(answer.value, show).None? ==> resp == ConnectionFailed) &&
      (resp.status == 200 ==> resp.body == CombinedBody(Aggregate(answer.value, show).value))
  {
    if !Truthy(gender) || !Truthy(currentIntake) then MissingData
    else match RecommendedIntake(gender)
      case None => ConnectionFailed
      case Some(standard) =>
        var state := BuildUserState(standard, currentIntake);
        match recommend(state, if foodList.Some? then foodList.value else [])
        case None => ConnectionFailed
        case Some(recommendations) =>
          match Aggregate(recommendations, show)
          case None => ConnectionFailed
          case Some(combined) => Response(200, CombinedBody(combined))
  }

  /** `/get-recommendation` from the request body on: destructuring `req.body`
      (line 188) throws on `undefined` or `null`, and the `catch` answers 500.
      `foodList` stays a parameter, since lists are not JSON values here. */
  function RecommendationRequest(body: Value, foodList: Option<seq<Value>>,
                                 recommend: (UserState, seq<Value>) -> Option<seq<Value>>,
                                 show: real -> string): (resp: Response)
    ensures Nullish(body) ==> resp == ConnectionFailed
    ensures !Nullish(body) ==>
      resp == GetRecommendation(Get(body, "gender"), Get(body, "currentIntake"), foodList, recommend, show)
  {
    if Nullish(body) then ConnectionFailed
    else GetRecommendation(Get(body, "gender"), Get(body, "currentIntake"), foodList, recommend, show)
  }

  /** As written, no body-parsing middleware is installed (lines 7-11), so
      `req.body` is `undefined` and every recommendation request answers 500,
      whatever the recommender would have answered. */
  lemma UnparsedRecommendationRequest(foodList: Option<seq<Value>>,
                                      recommend: (UserState, seq<Value>) -> Option<seq<Value>>,
                                      show: real -> string)
    ensures RecommendationRequest(Undefined, foodList, recommend, show).status == 500
  {
  }

  /** With the JSON body parsed, a request for a known gender with an intake
      reaches the recommender, and an empty answer gives the fixed answer. */
  lemma ParsedRecommendationRequest(fields: map<string, Value>, foodList: Option<seq<Value>>,
                                    recommend: (UserState, seq<Value>) -> Option<seq<Value>>,
                                    show: real -> string)
    requires var body := Obj(fields);
      Truthy(Get(body, "currentIntake")) && RecommendedIntake(Get(body, "gender")).Some?
    requires var body := Obj(fields);
      recommend(BuildUserState(RecommendedIntake(Get(body, "gender")).value, Get(body, "currentIntake")),
                if foodList.Some? then foodList.value else []) == Some([])
    ensures RecommendationRequest(Obj(fields), foodList, recommend, show) == Response(200, CombinedBody(NoMenu))
  {
  }
}
