/** The two servers together: the records `run_recommendation_logic` returns,
    serialised as JSON objects, are the candidates `/get-recommendation`
    aggregates. */
module Pipeline {
  import opened Json
  import opened RecommendationRelay
  import opened Recommender

  /** The JSON object `jsonify` makes of one result record. */
  function EntryJson(e: Entry): (v: Value)
    ensures !Nullish(v)
  {
    var fields := map[
      "recommend_menu" := e.recommendMenu,
      "calorie" := Num(e.calorie),
      "score" := Num(e.score),
      "reason" := Str(e.reason)];
    Obj(fields)
  }

  function ResultsJson(entries: seq<Entry>): (js: seq<Value>)
    ensures |js| == |entries|
    ensures forall i :: 0 <= i < |entries| ==> js[i] == EntryJson(entries[i])
  {
    seq(|entries|, i requires 0 <= i < |entries| => EntryJson(entries[i]))
  }

  /** The candidate the relay should see for a record: its name, its
      calories and score unchanged, its reason text. */
  function AsCandidate(e: Entry): Candidate
  {
    Candidate(e.recommendMenu, e.calorie, Str(e.reason), e.score)
  }

  /** The relay reads back every field of a record unchanged: numbers pass
      `extractNumber` as they are. */
  lemma RelayReadsEntry(e: Entry)
    ensures ToCandidate(EntryJson(e)) == Some(AsCandidate(e))
  {
    var v := EntryJson(e);
    assert Get(v, "recommend_menu") == e.recommendMenu;
    assert Get(v, "calorie") == Num(e.calorie);
    assert Get(v, "score") == Num(e.score);
    assert Get(v, "reason") == Str(e.reason);
  }

  /** Whatever the recommender answers, the relay answers a combined
      recommendation: the sentinel when nothing was chosen, otherwise the
      records in the recommender's order with the first record's calories. */
  lemma RelayAggregatesRecommenderResults(entries: seq<Entry>, show: real -> string)
    ensures Aggregate(ResultsJson(entries), show).Some?
    ensures |entries| == 0 ==> Aggregate(ResultsJson(entries), show) == Some(NoMenu)
    ensures |entries| > 0 ==>
      var cands := seq(|entries|, i requires 0 <= i < |entries| => AsCandidate(entries[i]));
      Aggregate(ResultsJson(entries), show)
        == Some(Combined(CombinedTitle(cands, show), entries[0].calorie, CombinedReason(cands, show)))
  {
    var js := ResultsJson(entries);
    if |entries| > 0 {
      var cands := seq(|entries|, i requires 0 <= i < |entries| => AsCandidate(entries[i]));
      forall i | 0 <= i < |entries| ensures ToCandidate(js[i]) == Some(cands[i]) {
        RelayReadsEntry(entries[i]);
      }
      assert ToCandidates(js).value == cands;
    }
  }
}
