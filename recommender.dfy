/** The deterministic part of `run_recommendation_logic` in ai_server/app.py:
    which table column feeds each standard nutrient feature, the defaulting of
    `user_state`, the choice of the name and category columns, the greedy
    selection of at most three mutually different dishes from a ranked
    candidate order, and the assembly of the result records. The ranking
    itself (scaling, the learned model, random rescaling, sorting and
    shuffling) is an input: `order` lists row indices in the order they are
    tried and `preds` holds one score per row. */
module Recommender {
  import opened Json

  // ---------------------------------------------------------------------
  // Feature columns (lines 29-54).
  // ---------------------------------------------------------------------

  /** `feature_order`: the eighteen model inputs. */
  const FeatureOrder: seq<string> := [
    "에너지(kcal)", "탄수화물(g)", "단백질(g)", "지방(g)", "당류(g)", "나트륨(mg)",
    "rec_cal", "rec_carb", "rec_pro", "rec_fat", "rec_sugar", "rec_na",
    "cur_cal", "cur_carb", "cur_pro", "cur_fat", "cur_sugar", "cur_na"]

  /** `cols_map`: each standard nutrient column with the table columns that may
      hold it, most preferred first. */
  const ColumnAliases: seq<(string, seq<string>)> := [
    ("에너지(kcal)", ["에너지(kcal)", "에너지"]),
    ("탄수화물(g)", ["탄수화물(g)", "탄수화물"]),
    ("단백질(g)", ["단백질(g)", "단백질"]),
    ("지방(g)", ["지방(g)", "지방"]),
    ("당류(g)", ["당류(g)", "당류"]),
    ("나트륨(mg)", ["나트륨(mg)", "나트륨"])]

  /** The first alias of a standard column that is a column of the table:
      the inner loop of lines 48-52, `None` when it ends with `found` false. */
  function ResolveColumn(columns: seq<string>, aliases: seq<string>): (r: Option<string>)
    ensures r.Some? ==> r.value in aliases && r.value in columns
    ensures r.None? <==> forall a :: a in aliases ==> a !in columns
  {
    if |aliases| == 0 then None
    else if aliases[0] in columns then Some(aliases[0])
    else ResolveColumn(columns, aliases[1..])
  }

  /** Earlier aliases win: the alias chosen is the first one present. */
  lemma {:induction false} ResolveColumnTakesFirstPresent(columns: seq<string>, aliases: seq<string>, k: nat)
    requires k < |aliases| && aliases[k] in columns
    requires forall m :: 0 <= m < k ==> aliases[m] !in columns
    ensures ResolveColumn(columns, aliases) == Some(aliases[k])
    decreases k
  {
    if k > 0 {
      assert aliases[0] !in columns;
      assert aliases[1..][k - 1] == aliases[k];
      ResolveColumnTakesFirstPresent(columns, aliases[1..], k - 1);
    }
  }

  /** What a standard column of `food_features` ends up holding: the cells of
      a table column, the value 0 in every row, or NaN in every row. The frame
      of line 45 starts without rows; `= 0` on it (line 54) adds a column of
      no rows, and the first table column stored (line 50) gives the frame the
      table's rows, filling the columns it already has with NaN. A 0 stored
      after that fills every row. When no table column is ever stored, the
      `concat` of line 60 fills the standard columns with NaN. */
  datatype ColumnSource = FromColumn(column: string) | Zeros | NaNs

  /** Some standard column before the `i`-th one has a present alias. */
  predicate FoundBefore(columns: seq<string>, i: nat)
    requires i <= |ColumnAliases|
  {
    exists j :: 0 <= j < i && ResolveColumn(columns, ColumnAliases[j].1).Some?
  }

  /** The content of the `i`-th standard column after the loop of lines 46-54. */
  function FeatureSource(columns: seq<string>, i: nat): (r: ColumnSource)
    requires i < |ColumnAliases|
    ensures r.FromColumn? <==> ResolveColumn(columns, ColumnAliases[i].1).Some?
    ensures r.FromColumn? ==> r.column in ColumnAliases[i].1 && r.column in columns
    ensures r == Zeros <==> ResolveColumn(columns, ColumnAliases[i].1).None? && FoundBefore(columns, i)
    ensures r == NaNs <==> ResolveColumn(columns, ColumnAliases[i].1).None? && !FoundBefore(columns, i)
  {
    match ResolveColumn(columns, ColumnAliases[i].1)
    case Some(c) => FromColumn(c)
    case None => if FoundBefore(columns, i) then Zeros else NaNs
  }

  /** With an energy column in the table, every standard column is a table
      column or 0: the energy column comes first and gives the frame its rows. */
  lemma EnergyColumnRulesOutNaN(columns: seq<string>, i: nat)
    requires "에너지(kcal)" in columns || "에너지" in columns
    requires i < |ColumnAliases|
    ensures FeatureSource(columns, i) != NaNs
  {
    assert ResolveColumn(columns, ColumnAliases[0].1).Some?;
    if i > 0 {
      assert FoundBefore(columns, i);
    }
  }

  /** With no alias present at all, every standard column is NaN. */
  lemma NoAliasGivesNaN(columns: seq<string>, i: nat)
    requires forall j, a :: 0 <= j < |ColumnAliases| && a in ColumnAliases[j].1 ==> a !in columns
    requires i < |ColumnAliases|
    ensures FeatureSource(columns, i) == NaNs
  {
  }

  /** The feature columns of `food_features`: every standard column, each
      holding what `FeatureSource` says. */
  ghost predicate FeaturesResolved(columns: seq<string>, features: map<string, ColumnSource>)
  {
    (forall k :: k in features <==> exists i :: 0 <= i < |ColumnAliases| && ColumnAliases[i].0 == k) &&
    (forall i :: 0 <= i < |ColumnAliases| ==>
      ColumnAliases[i].0 in features && features[ColumnAliases[i].0] == FeatureSource(columns, i))
  }

  lemma StandardColumnsDistinct()
    ensures forall i, j :: 0 <= i < j < |ColumnAliases| ==> ColumnAliases[i].0 != ColumnAliases[j].0
  {
    var heads := seq(|ColumnAliases|, i requires 0 <= i < |ColumnAliases| => ColumnAliases[i].0[0]);
    assert heads == ['에', '탄', '단', '지', '당', '나'];
  }

  /** A table column has been stored after the `i`-th standard column exactly
      when one had been stored before it or it is itself found. */
  lemma FoundBeforeStep(columns: seq<string>, i: nat)
    requires i < |ColumnAliases|
    ensures FoundBefore(columns, i + 1) <==>
      FoundBefore(columns, i) || ResolveColumn(columns, ColumnAliases[i].1).Some?
  {
    if ResolveColumn(columns, ColumnAliases[i].1).Some? && !FoundBefore(columns, i) {
      assert 0 <= i < i + 1;
    }
  }

  /** Storing the `i`-th standard column keeps the ones stored before it and
      adds nothing else: the standard columns are distinct. */
  lemma StoreStep(features: map<string, ColumnSource>, i: nat, want: seq<ColumnSource>)
    requires i < |ColumnAliases| == |want|
    requires forall k :: k in features <==> exists j :: 0 <= j < i && ColumnAliases[j].0 == k
    requires forall j :: 0 <= j < i ==> ColumnAliases[j].0 in features && features[ColumnAliases[j].0] == want[j]
    ensures var after := features[ColumnAliases[i].0 := want[i]];
      (forall k :: k in after <==> exists j :: 0 <= j < i + 1 && ColumnAliases[j].0 == k) &&
      (forall j :: 0 <= j < i + 1 ==> ColumnAliases[j].0 in after && after[ColumnAliases[j].0] == want[j])
  {
    StandardColumnsDistinct();
    var after := features[ColumnAliases[i].0 := want[i]];
    forall k | k in after
      ensures exists j :: 0 <= j < i + 1 && ColumnAliases[j].0 == k
    {
      if k != ColumnAliases[i].0 {
        var j :| 0 <= j < i && ColumnAliases[j].0 == k;
      }
    }
  }

  /** The loop of lines 46-54: for each standard column, try its aliases in
      order, take the first one present and stop; with none present the
      column is set to 0, which is NaN while the frame has no rows yet.
      `hasRows` records whether a table column has been stored. */
  method ResolveFeatureColumns(columns: seq<string>) returns (features: map<string, ColumnSource>)
    ensures FeaturesResolved(columns, features)
  {
    ghost var want := seq(|ColumnAliases|, j requires 0 <= j < |ColumnAliases| => FeatureSource(columns, j));
    features := map[];
    var hasRows := false;
    var i := 0;
    while i < |ColumnAliases|
      invariant 0 <= i <= |ColumnAliases|
      invariant hasRows == FoundBefore(columns, i)
      invariant forall k :: k in features <==> exists j :: 0 <= j < i && ColumnAliases[j].0 == k
      invariant forall j :: 0 <= j < i ==> ColumnAliases[j].0 in features && features[ColumnAliases[j].0] == want[j]
    {
      var (std, candidates) := ColumnAliases[i];
      var before := features;
      var found := false;
      var k := 0;
      while k < |candidates|
        invariant 0 <= k <= |candidates|
        invariant !found && features == before
        invariant forall m :: 0 <= m < k ==> candidates[m] !in columns
      {
        if candidates[k] in columns {
          ResolveColumnTakesFirstPresent(columns, candidates, k);
          features := features[std := FromColumn(candidates[k])];
          found := true;
          break;
        }
        k := k + 1;
      }
      if !found {
        features := features[std := if hasRows then Zeros else NaNs];
      }
      assert features == before[std := want[i]];
      StoreStep(before, i, want);
      assert found <==> ResolveColumn(columns, candidates).Some?;
      FoundBeforeStep(columns, i);
      hasRows := hasRows || found;
      i := i + 1;
    }
  }

  // ---------------------------------------------------------------------
  // Defaulting of user_state (lines 56-57).
  // ---------------------------------------------------------------------

  /** `user_state` after defaulting: every feature key is present, the keys it
      had keep their values and each added key is 0. */
  ghost predicate Defaulted(userState: map<string, Value>, state: map<string, Value>)
  {
    (forall k :: k in state <==> k in userState || k in FeatureOrder) &&
    (forall k :: k in userState ==> k in state && state[k] == userState[k]) &&
    (forall k :: k in FeatureOrder && k !in userState ==> k in state && state[k] == Num(0.0))
  }

  /** `for col in feature_order: if col not in user_state: user_state[col] = 0`. */
  method DefaultUserState(userState: map<string, Value>) returns (state: map<string, Value>)
    ensures Defaulted(userState, state)
  {
    state := userState;
    for i := 0 to |FeatureOrder|
      invariant forall k :: k in state <==> k in userState || k in FeatureOrder[..i]
      invariant forall k :: k in userState ==> k in state && state[k] == userState[k]
      invariant forall k :: k in FeatureOrder[..i] && k !in userState ==> k in state && state[k] == Num(0.0)
    {
      assert FeatureOrder[..i + 1] == FeatureOrder[..i] + [FeatureOrder[i]];
      var col := FeatureOrder[i];
      if col !in state {
        state := state[col := Num(0.0)];
      }
    }
    assert FeatureOrder[..|FeatureOrder|] == FeatureOrder;
  }

  // ---------------------------------------------------------------------
  // The food table and its name and category columns (lines 88-89).
  // ---------------------------------------------------------------------

  /** `food_df`: column labels and rows of cells, one cell per column. */
  datatype Table = Table(columns: seq<string>, rows: seq<seq<Value>>)

  predicate WellFormed(t: Table)
  {
    (forall i, j :: 0 <= i < j < |t.columns| ==> t.columns[i] != t.columns[j]) &&
    (forall r :: 0 <= r < |t.rows| ==> |t.rows[r]| == |t.columns|)
  }

  function ColumnIndex(columns: seq<string>, c: string): (i: nat)
    requires c in columns
    ensures i < |columns| && columns[i] == c
  {
    if columns[0] == c then 0 else 1 + ColumnIndex(columns[1..], c)
  }

  /** `food_df[c]`: the cells of column `c`, one per row. */
  function Column(t: Table, c: string): (cells: seq<Value>)
    requires WellFormed(t) && c in t.columns
    ensures |cells| == |t.rows|
    ensures forall r :: 0 <= r < |t.rows| ==> cells[r] == t.rows[r][ColumnIndex(t.columns, c)]
  {
    seq(|t.rows|, r requires 0 <= r < |t.rows| => t.rows[r][ColumnIndex(t.columns, c)])
  }

  /** `preferred if preferred in columns else columns[position]`; `None` when
      the position is out of range and the lookup raises IndexError. */
  function ChooseColumn(columns: seq<string>, preferred: string, position: nat): (r: Option<string>)
    ensures r.Some? ==> r.value in columns
    ensures preferred in columns ==> r == Some(preferred)
    ensures preferred !in columns && position < |columns| ==> r == Some(columns[position])
    ensures r.None? <==> preferred !in columns && |columns| <= position
  {
    if preferred in columns then Some(preferred)
    else if position < |columns| then Some(columns[position])
    else None
  }

  /** `name_col`: "음식명" when present, otherwise the first column; an
      IndexError only for a table without columns. */
  function NameColumn(t: Table): (r: Option<string>)
    ensures "음식명" in t.columns ==> r == Some("음식명")
    ensures "음식명" !in t.columns && |t.columns| > 0 ==> r == Some(t.columns[0])
    ensures r.None? <==> |t.columns| == 0
  {
    ChooseColumn(t.columns, "음식명", 0)
  }

  /** `cat_col`: "대표식품명" when present, otherwise the second column; an
      IndexError when it is absent and the table has fewer than two columns. */
  function CategoryColumn(t: Table): (r: Option<string>)
    ensures "대표식품명" in t.columns ==> r == Some("대표식품명")
    ensures "대표식품명" !in t.columns && |t.columns| > 1 ==> r == Some(t.columns[1])
    ensures r.None? <==> "대표식품명" !in t.columns && |t.columns| <= 1
  {
    ChooseColumn(t.columns, "대표식품명", 1)
  }

  // ---------------------------------------------------------------------
  // Greedy diverse selection (lines 84-99).
  // ---------------------------------------------------------------------

  /** The loop stops once this many dishes are chosen. */
  const MaxPicks: nat := 3

  /** Every element of `s` is an index below `n`. */
  predicate Indexes(s: seq<nat>, n: nat)
  {
    forall i :: 0 <= i < |s| ==> s[i] < n
  }

  /** The keys (names or categories) of the selected rows. */
  function KeysOf<K>(sel: seq<nat>, key: seq<K>): (r: set<K>)
    requires Indexes(sel, |key|)
    ensures forall i :: 0 <= i < |sel| ==> key[sel[i]] in r
  {
    if |sel| == 0 then {}
    else KeysOf(sel[..|sel| - 1], key) + {key[sel[|sel| - 1]]}
  }

  /** The used set holds nothing but keys of selected rows. */
  lemma {:induction false} KeysOfOnlySelected<K>(sel: seq<nat>, key: seq<K>, v: K)
    requires Indexes(sel, |key|) && v in KeysOf(sel, key)
    ensures exists i :: 0 <= i < |sel| && key[sel[i]] == v
    decreases |sel|
  {
    var last := |sel| - 1;
    if key[sel[last]] != v {
      var shorter := sel[..last];
      KeysOfOnlySelected(shorter, key, v);
      var i :| 0 <= i < |shorter| && key[shorter[i]] == v;
      assert sel[i] == shorter[i];
    }
  }

  /** The rows chosen after trying the candidates of `order` one by one: a
      candidate is taken unless its name is recent or already chosen, or its
      category is already chosen; nothing is tried once `MaxPicks` are chosen. */
  function Selection<K(==)>(order: seq<nat>, names: seq<K>, cats: seq<K>, recent: set<K>): (sel: seq<nat>)
    requires Indexes(order, |names|) && Indexes(order, |cats|)
    ensures |sel| <= MaxPicks
    ensures Indexes(sel, |names|) && Indexes(sel, |cats|)
    decreases |order|
  {
    if |order| == 0 then []
    else
      var shorter := order[..|order| - 1];
      assert forall i :: 0 <= i < |shorter| ==> shorter[i] == order[i];
      Try(Selection(shorter, names, cats, recent), order[|order| - 1], names, cats, recent)
  }

  /** Unfolds one step of `Selection`. */
  lemma SelectionStep<K>(order: seq<nat>, names: seq<K>, cats: seq<K>, recent: set<K>)
    requires Indexes(order, |names|) && Indexes(order, |cats|) && |order| > 0
    ensures Indexes(order[..|order| - 1], |names|) && Indexes(order[..|order| - 1], |cats|)
    ensures Selection(order, names, cats, recent)
      == Try(Selection(order[..|order| - 1], names, cats, recent), order[|order| - 1], names, cats, recent)
  {
    assert forall i :: 0 <= i < |order| - 1 ==> order[..|order| - 1][i] == order[i];
  }

  /** One pass of the loop body: the selection after trying row `idx`. */
  function Try<K(==)>(prev: seq<nat>, idx: nat, names: seq<K>, cats: seq<K>, recent: set<K>): (sel: seq<nat>)
    requires Indexes(prev, |names|) && Indexes(prev, |cats|) && idx < |names| && idx < |cats|
    requires |prev| <= MaxPicks
    ensures sel == prev || sel == prev + [idx]
    ensures |sel| <= MaxPicks
    ensures Indexes(sel, |names|) && Indexes(sel, |cats|)
  {
    if |prev| == MaxPicks then prev
    else if names[idx] in recent + KeysOf(prev, names) then prev
    else if cats[idx] in KeysOf(prev, cats) then prev
    else prev + [idx]
  }

  /** Python can hash the value: a dictionary (a JSON object) it cannot, and
      `set` raises TypeError on one. */
  predicate Hashable(v: Value)
  {
    !v.Obj?
  }

  /** `None`, booleans, numbers and strings hash; a dictionary does not. */
  lemma HashableValues(v: Value)
    ensures v == Null || v.Bool? || v.Num? || v.Str? ==> Hashable(v)
    ensures v.Obj? ==> !Hashable(v)
  {
  }

  /** `set(s)` */
  function SetOf<K(!new)>(s: seq<K>): (r: set<K>)
    ensures forall v :: v in r <==> v in s
  {
    set v | v in s
  }

  /** Once `MaxPicks` rows are chosen, later candidates change nothing: the
      `break` of line 99 is equivalent to trying them all. */
  lemma {:induction false} SelectionSaturated<K>(order: seq<nat>, j: nat, names: seq<K>, cats: seq<K>, recent: set<K>)
    requires Indexes(order, |names|) && Indexes(order, |cats|)
    requires j <= |order|
    requires |Selection(order[..j], names, cats, recent)| == MaxPicks
    ensures Selection(order, names, cats, recent) == Selection(order[..j], names, cats, recent)
    decreases |order| - j
  {
    if j < |order| {
      var shorter := order[..|order| - 1];
      SelectionStep(order, names, cats, recent);
      assert shorter[..j] == order[..j];
      SelectionSaturated(shorter, j, names, cats, recent);
    } else {
      assert order[..j] == order;
    }
  }

  /** The loop of lines 84-99, with the sets `used_categories` and
      `used_food_names`. */
  method SelectDiverse<K(==,!new)>(order: seq<nat>, names: seq<K>, cats: seq<K>, recent: seq<K>)
    returns (selected: seq<nat>)
    requires Indexes(order, |names|) && Indexes(order, |cats|)
    ensures selected == Selection(order, names, cats, SetOf(recent))
  {
    var recentSet := SetOf(recent);
    selected := [];
    var usedCategories: set<K> := {};
    var usedFoodNames := recentSet;
    assert order[..|order|] == order;
    for k := 0 to |order|
      invariant selected == Selection(order[..k], names, cats, recentSet)
      invariant |selected| < MaxPicks
      invariant usedFoodNames == recentSet + KeysOf(selected, names)
      invariant usedCategories == KeysOf(selected, cats)
    {
      SelectionStep(order[..k + 1], names, cats, recentSet);
      assert order[..k + 1][..k] == order[..k];
      var idx := order[k];
      if names[idx] in usedFoodNames { continue; }
      if cats[idx] in usedCategories { continue; }
      selected := selected + [idx];
      usedCategories := usedCategories + {cats[idx]};
      usedFoodNames := usedFoodNames + {names[idx]};
      if |selected| == MaxPicks {
        SelectionSaturated(order, k + 1, names, cats, recentSet);
        break;
      }
    }
  }

  /** No chosen name is recent, and chosen names and chosen categories are
      pairwise different. */
  lemma {:induction false} SelectionIsDiverse<K>(order: seq<nat>, names: seq<K>, cats: seq<K>, recent: set<K>)
    requires Indexes(order, |names|) && Indexes(order, |cats|)
    ensures var sel := Selection(order, names, cats, recent);
      forall i :: 0 <= i < |sel| ==> names[sel[i]] !in recent
    ensures var sel := Selection(order, names, cats, recent);
      forall i, j :: 0 <= i < j < |sel| ==> names[sel[i]] != names[sel[j]]
    ensures var sel := Selection(order, names, cats, recent);
      forall i, j :: 0 <= i < j < |sel| ==> cats[sel[i]] != cats[sel[j]]
    decreases |order|
  {
    if |order| > 0 {
      SelectionStep(order, names, cats, recent);
      var prev := Selection(order[..|order| - 1], names, cats, recent);
      SelectionIsDiverse(order[..|order| - 1], names, cats, recent);
      var sel := Selection(order, names, cats, recent);
      if sel != prev {
        var idx := order[|order| - 1];
        assert sel == prev + [idx];
        assert names[idx] !in recent + KeysOf(prev, names);
        assert cats[idx] !in KeysOf(prev, cats);
        assert forall i :: 0 <= i < |prev| ==> sel[i] == prev[i];
      }
    }
  }

  /** `pos` lists strictly increasing positions of `s` holding `sub`'s elements. */
  ghost predicate SubsequenceAt(sub: seq<nat>, s: seq<nat>, pos: seq<nat>)
  {
    |pos| == |sub| &&
    (forall i :: 0 <= i < |pos| ==> pos[i] < |s| && s[pos[i]] == sub[i]) &&
    (forall i, j :: 0 <= i < j < |pos| ==> pos[i] < pos[j])
  }

  /** A subsequence of all but the last element of `s` is one of `s`, and
      stays one when that last element is appended to it. */
  lemma SubsequenceExtend(sub: seq<nat>, s: seq<nat>, pos: seq<nat>)
    requires |s| > 0 && SubsequenceAt(sub, s[..|s| - 1], pos)
    ensures SubsequenceAt(sub, s, pos)
    ensures SubsequenceAt(sub + [s[|s| - 1]], s, pos + [|s| - 1])
  {
    assert forall i :: 0 <= i < |pos| ==> s[..|s| - 1][pos[i]] == s[pos[i]];
  }

  lemma {:induction false} SelectionPositions<K>(order: seq<nat>, names: seq<K>, cats: seq<K>, recent: set<K>)
    returns (pos: seq<nat>)
    requires Indexes(order, |names|) && Indexes(order, |cats|)
    ensures SubsequenceAt(Selection(order, names, cats, recent), order, pos)
    decreases |order|
  {
    if |order| == 0 {
      pos := [];
    } else {
      SelectionStep(order, names, cats, recent);
      var shorter := order[..|order| - 1];
      var prevPos := SelectionPositions(shorter, names, cats, recent);
      var prev := Selection(shorter, names, cats, recent);
      SubsequenceExtend(prev, order, prevPos);
      var sel := Selection(order, names, cats, recent);
      if sel == prev {
        pos := prevPos;
      } else {
        assert sel == prev + [order[|order| - 1]];
        pos := prevPos + [|order| - 1];
      }
    }
  }

  /** The chosen rows appear in `order`, in the order they were tried. */
  lemma SelectionIsSubsequence<K>(order: seq<nat>, names: seq<K>, cats: seq<K>, recent: set<K>)
    requires Indexes(order, |names|) && Indexes(order, |cats|)
    ensures exists pos :: SubsequenceAt(Selection(order, names, cats, recent), order, pos)
  {
    var pos := SelectionPositions(order, names, cats, recent);
  }

  /** What is chosen from a prefix of the order is a prefix of what is chosen
      from the whole order. */
  lemma {:induction false} SelectionExtends<K>(order: seq<nat>, j: nat, names: seq<K>, cats: seq<K>, recent: set<K>)
    requires Indexes(order, |names|) && Indexes(order, |cats|)
    requires j <= |order|
    ensures var early := Selection(order[..j], names, cats, recent);
      var sel := Selection(order, names, cats, recent);
      |early| <= |sel| && sel[..|early|] == early
    decreases |order| - j
  {
    if j < |order| {
      SelectionStep(order, names, cats, recent);
      var shorter := order[..|order| - 1];
      assert shorter[..j] == order[..j];
      SelectionExtends(shorter, j, names, cats, recent);
      var early := Selection(order[..j], names, cats, recent);
      var prev := Selection(shorter, names, cats, recent);
      var sel := Selection(order, names, cats, recent);
      assert sel[..|prev|] == prev;
      assert sel[..|early|] == prev[..|early|];
    } else {
      assert order[..j] == order;
    }
  }

  /** A candidate is passed over only for a conflict: every candidate tried
      before `MaxPicks` rows were chosen has a recent or chosen name or a
      chosen category in the end. */
  lemma SelectionIsMaximal<K>(order: seq<nat>, names: seq<K>, cats: seq<K>, recent: set<K>)
    requires Indexes(order, |names|) && Indexes(order, |cats|)
    ensures var sel := Selection(order, names, cats, recent);
      forall j :: 0 <= j < |order| && |Selection(order[..j], names, cats, recent)| < MaxPicks ==>
        names[order[j]] in recent + KeysOf(sel, names) || cats[order[j]] in KeysOf(sel, cats)
  {
    var sel := Selection(order, names, cats, recent);
    forall j | 0 <= j < |order| && |Selection(order[..j], names, cats, recent)| < MaxPicks
      ensures names[order[j]] in recent + KeysOf(sel, names) || cats[order[j]] in KeysOf(sel, cats)
    {
      CandidateConflicts(order, j, names, cats, recent);
    }
  }

  /** When fewer than `MaxPicks` rows are chosen in the end, no candidate of
      the order could have been added. */
  lemma UnsaturatedSelectionIsMaximal<K>(order: seq<nat>, names: seq<K>, cats: seq<K>, recent: set<K>)
    requires Indexes(order, |names|) && Indexes(order, |cats|)
    requires |Selection(order, names, cats, recent)| < MaxPicks
    ensures var sel := Selection(order, names, cats, recent);
      forall j :: 0 <= j < |order| ==>
        names[order[j]] in recent + KeysOf(sel, names) || cats[order[j]] in KeysOf(sel, cats)
  {
    var sel := Selection(order, names, cats, recent);
    forall j | 0 <= j < |order|
      ensures names[order[j]] in recent + KeysOf(sel, names) || cats[order[j]] in KeysOf(sel, cats)
    {
      SelectionExtends(order, j, names, cats, recent);
      CandidateConflicts(order, j, names, cats, recent);
    }
  }

  /** The candidate at position `j` of the order, tried while fewer than
      `MaxPicks` rows are chosen, conflicts with the final selection: it is
      either skipped for a conflict or chosen itself. */
  lemma CandidateConflicts<K>(order: seq<nat>, j: nat, names: seq<K>, cats: seq<K>, recent: set<K>)
    requires Indexes(order, |names|) && Indexes(order, |cats|)
    requires j < |order|
    requires |Selection(order[..j], names, cats, recent)| < MaxPicks
    ensures var sel := Selection(order, names, cats, recent);
      names[order[j]] in recent + KeysOf(sel, names) || cats[order[j]] in KeysOf(sel, cats)
  {
    var sel := Selection(order, names, cats, recent);
    var idx := order[j];
    var prefix := order[..j + 1];
    assert prefix[..j] == order[..j] && prefix[j] == idx;
    SelectionStep(prefix, names, cats, recent);
    var early := Selection(order[..j], names, cats, recent);
    SelectionExtends(order, j, names, cats, recent);
    if names[idx] in recent + KeysOf(early, names) {
      KeysOfPrefix(early, sel, names);
    } else if cats[idx] in KeysOf(early, cats) {
      KeysOfPrefix(early, sel, cats);
    } else {
      var next := Selection(prefix, names, cats, recent);
      assert next == early + [idx];
      SelectionExtends(order, j + 1, names, cats, recent);
      assert sel[|early|] == next[|early|];
    }
  }

  /** The `continue` of lines 93-94: while fewer than `MaxPicks` rows are
      chosen, the candidate at position `j` is passed over exactly when its
      name is recent or already used or its category is already used, and is
      appended otherwise. */
  lemma SkippedExactlyOnConflict<K>(order: seq<nat>, j: nat, names: seq<K>, cats: seq<K>, recent: set<K>)
    requires Indexes(order, |names|) && Indexes(order, |cats|)
    requires j < |order|
    requires |Selection(order[..j], names, cats, recent)| < MaxPicks
    ensures var early := Selection(order[..j], names, cats, recent);
      var next := Selection(order[..j + 1], names, cats, recent);
      var idx := order[j];
      (next == early <==> names[idx] in recent + KeysOf(early, names) || cats[idx] in KeysOf(early, cats)) &&
      (next != early ==> next == early + [idx])
  {
    var prefix := order[..j + 1];
    assert prefix[..j] == order[..j] && prefix[j] == order[j];
    SelectionStep(prefix, names, cats, recent);
  }

  lemma KeysOfPrefix<K>(early: seq<nat>, sel: seq<nat>, key: seq<K>)
    requires Indexes(sel, |key|) && |early| <= |sel| && sel[..|early|] == early
    ensures Indexes(early, |key|)
    ensures KeysOf(early, key) <= KeysOf(sel, key)
    decreases |sel|
  {
    assert forall i :: 0 <= i < |early| ==> early[i] == sel[i];
    if |early| < |sel| {
      var shorter := sel[..|sel| - 1];
      assert shorter[..|early|] == early;
      KeysOfPrefix(early, shorter, key);
    } else {
      assert early == sel;
    }
  }

  // ---------------------------------------------------------------------
  // Result assembly (lines 101-117).
  // ---------------------------------------------------------------------

  /** `float(v)`; `floatOfText` stands for Python's conversion of a string,
      `None` where it raises ValueError. */
  function ToFloat(v: Value, floatOfText: string -> Option<real>): (r: Option<real>)
    ensures v.Num? ==> r == Some(v.n)
    ensures Nullish(v) || v.Obj? ==> r.None?
  {
    match v
    case Num(n) => Some(n)
    case Bool(b) => Some(if b then 1.0 else 0.0)
    case Str(s) => floatOfText(s)
    case _ => None
  }

  /** `cal_val`: the energy cell of the row, from "에너지(kcal)" when the
      table has that column and from "에너지" otherwise, 0 when neither column
      exists, and 0.0 when the cell does not convert. */
  function CalorieOf(t: Table, idx: nat, floatOfText: string -> Option<real>): (cal: real)
    requires WellFormed(t) && idx < |t.rows|
    ensures "에너지(kcal)" in t.columns ==>
      var v := ToFloat(Column(t, "에너지(kcal)")[idx], floatOfText);
      cal == if v.Some? then v.value else 0.0
    ensures "에너지(kcal)" !in t.columns && "에너지" in t.columns ==>
      var v := ToFloat(Column(t, "에너지")[idx], floatOfText);
      cal == if v.Some? then v.value else 0.0
    ensures "에너지(kcal)" !in t.columns && "에너지" !in t.columns ==> cal == 0.0
  {
    var calCol := if "에너지(kcal)" in t.columns then "에너지(kcal)" else "에너지";
    var raw := if calCol in t.columns then t.rows[idx][ColumnIndex(t.columns, calCol)] else Num(0.0);
    match ToFloat(raw, floatOfText)
    case Some(x) => x
    case None => 0.0
  }

  /** One element of `results`. */
  datatype Entry = Entry(recommendMenu: Value, calorie: real, score: real, reason: string)

  /** The reason text `f"AI 영양 점수 {score_val:.1f}점!"`, with `format1`
      standing for the one-decimal formatting. */
  function ScoreReason(score: real, format1: real -> string): string
  {
    "AI 영양 점수 " + format1(score) + "점!"
  }

  /** The record for row `idx`: its name cell, its calories, its predicted
      score (a float, so the fallback to 0.0 never applies) and the reason. */
  function MakeEntry(t: Table, idx: nat, nameCol: string, preds: seq<real>,
                     floatOfText: string -> Option<real>, format1: real -> string): (e: Entry)
    requires WellFormed(t) && nameCol in t.columns && idx < |t.rows| && |preds| == |t.rows|
    ensures e.recommendMenu == Column(t, nameCol)[idx]
    ensures e.calorie == CalorieOf(t, idx, floatOfText)
    ensures e.score == preds[idx]
    ensures e.reason == ScoreReason(preds[idx], format1)
  {
    Entry(t.rows[idx][ColumnIndex(t.columns, nameCol)], CalorieOf(t, idx, floatOfText),
          preds[idx], ScoreReason(preds[idx], format1))
  }

  /** The loop of lines 101-117: one record per selected row, in selection order. */
  method AssembleResults(t: Table, selected: seq<nat>, nameCol: string, preds: seq<real>,
                         floatOfText: string -> Option<real>, format1: real -> string)
    returns (results: seq<Entry>)
    requires WellFormed(t) && nameCol in t.columns && Indexes(selected, |t.rows|) && |preds| == |t.rows|
    ensures |results| == |selected|
    ensures forall i :: 0 <= i < |selected| ==>
      results[i] == MakeEntry(t, selected[i], nameCol, preds, floatOfText, format1)
  {
    results := [];
    for i := 0 to |selected|
      invariant |results| == i
      invariant forall m :: 0 <= m < i ==>
        results[m] == MakeEntry(t, selected[m], nameCol, preds, floatOfText, format1)
    {
      results := results + [MakeEntry(t, selected[i], nameCol, preds, floatOfText, format1)];
    }
  }

  // ---------------------------------------------------------------------
  // run_recommendation_logic (lines 26-118).
  // ---------------------------------------------------------------------

  /** `run_recommendation_logic` with the ranking given: `order` is the list of
      row indices tried (`top_candidates`) and `preds` the score of each row.
      Also answers the resolved feature columns and the defaulted `user_state`
      handed to the model. `None` stands for the exception that ends the call:
      the KeyError of line 61 for a table without rows (`pd.DataFrame` of an
      empty list has none of the `user_state` columns, so `merged` lacks
      them), the TypeError of `set` on a recent name that is an object (line
      86), or the IndexError raised when the table has too few columns to
      fall back on (lines 88-89). */
  method RunRecommendationLogic(userState: map<string, Value>, t: Table, order: seq<nat>, preds: seq<real>,
                                recentFoodNames: Option<seq<Value>>,
                                floatOfText: string -> Option<real>, format1: real -> string)
    returns (features: map<string, ColumnSource>, state: map<string, Value>, results: Option<seq<Entry>>)
    requires WellFormed(t) && |preds| == |t.rows| && Indexes(order, |t.rows|)
    ensures FeaturesResolved(t.columns, features)
    ensures Defaulted(userState, state)
    ensures var recent := if recentFoodNames.Some? then recentFoodNames.value else [];
      results.None? <==>
        |t.rows| == 0 ||
        (exists i :: 0 <= i < |recent| && !Hashable(recent[i])) ||
        NameColumn(t).None? || CategoryColumn(t).None?
    ensures results.Some? ==>
      var recent := if recentFoodNames.Some? then recentFoodNames.value else [];
      var sel := Selection(order, Column(t, NameColumn(t).value), Column(t, CategoryColumn(t).value), SetOf(recent));
      |results.value| == |sel| &&
      forall i :: 0 <= i < |sel| ==>
        results.value[i] == MakeEntry(t, sel[i], NameColumn(t).value, preds, floatOfText, format1)
    ensures results.Some? ==>
      var recent := if recentFoodNames.Some? then recentFoodNames.value else [];
      |results.value| <= MaxPicks &&
      (forall i :: 0 <= i < |results.value| ==> results.value[i].recommendMenu !in recent) &&
      (forall i, j :: 0 <= i < j < |results.value| ==>
        results.value[i].recommendMenu != results.value[j].recommendMenu)
  {
    var recent := if recentFoodNames.Some? then recentFoodNames.value else [];
    features := ResolveFeatureColumns(t.columns);
    state := DefaultUserState(userState);
    if |t.rows| == 0 {
      results := None;
      return;
    }
    if exists i :: 0 <= i < |recent| && !Hashable(recent[i]) {
      results := None;
      return;
    }
    var nameCol := NameColumn(t);
    var catCol := CategoryColumn(t);
    if nameCol.None? || catCol.None? {
      results := None;
      return;
    }
    var names := Column(t, nameCol.value);
    var cats := Column(t, catCol.value);
    var selected := SelectDiverse(order, names, cats, recent);
    SelectionIsDiverse(order, names, cats, SetOf(recent));
    var entries := AssembleResults(t, selected, nameCol.value, preds, floatOfText, format1);
    results := Some(entries);
  }
}
