/** Schedule conditions: three-valued expressions with AND before OR over values that may be unavailable. */
module ConditionExpressions {
  import opened Words

  datatype Truth = False | True | Unknown
  datatype Join = And | Or
  datatype Compare = Less | LessEqual | Equal | GreaterEqual | Greater

  datatype Condition = Condition(join: Join, compare: Compare, expected: real)

  /** `schedulerTruthAnd`. */
  function TruthAnd(left: Truth, right: Truth): Truth {
    if left.False? || right.False? then False
    else if left.Unknown? || right.Unknown? then Unknown
    else True
  }

  /** `schedulerTruthOr`. */
  function TruthOr(left: Truth, right: Truth): Truth {
    if left.True? || right.True? then True
    else if left.Unknown? || right.Unknown? then Unknown
    else False
  }

  /** `schedulerCompare`. */
  predicate Holds(actual: real, compare: Compare, expected: real) {
    match compare
    case Less => actual < expected
    case LessEqual => actual <= expected
    case Equal => -0.01 < actual - expected < 0.01
    case GreaterEqual => actual >= expected
    case Greater => actual > expected
  }

  /** The maximal runs of values joined by AND; an OR before position i starts a new group there. */
  function Groups<T>(values: seq<T>, joins: seq<Join>): (groups: seq<seq<T>>)
    requires 0 < |values| <= |joins|
    ensures |groups| > 0
  {
    var n := |values| - 1;
    if n == 0 then [[values[0]]]
    else
      var earlier := Groups(values[..n], joins);
      if joins[n].Or? then earlier + [[values[n]]]
      else earlier[|earlier| - 1 := earlier[|earlier| - 1] + [values[n]]]
  }

  function AndAll(group: seq<Truth>): Truth {
    if group == [] then True else TruthAnd(AndAll(group[..|group| - 1]), group[|group| - 1])
  }

  function OrAll(groups: seq<seq<Truth>>): Truth {
    if groups == [] then False else TruthOr(OrAll(groups[..|groups| - 1]), AndAll(groups[|groups| - 1]))
  }

  lemma GroupsNext(values: seq<Truth>, joins: seq<Join>, i: nat)
    requires 1 <= i < |values| <= |joins|
    ensures
      var g, h := Groups(values[..i], joins), Groups(values[..i + 1], joins);
      if joins[i].Or? then h == g + [[values[i]]]
      else h == g[..|g| - 1] + [g[|g| - 1] + [values[i]]]
  {
    assert values[..i + 1][..i] == values[..i];
  }

  /** The accumulators of the pass: everything before the last group, and the last group so far. */
  predicate Accumulated(groups: seq<seq<Truth>>, expression: Truth, andGroup: Truth) {
    groups != [] && expression == OrAll(groups[..|groups| - 1]) && andGroup == AndAll(groups[|groups| - 1])
  }

  lemma AccumulateNext(groups: seq<seq<Truth>>, expression: Truth, andGroup: Truth, value: Truth)
    requires Accumulated(groups, expression, andGroup)
    ensures Accumulated(groups + [[value]], TruthOr(expression, andGroup), value)
    ensures Accumulated(groups[..|groups| - 1] + [groups[|groups| - 1] + [value]], expression,
                        TruthAnd(andGroup, value))
  {
    assert (groups + [[value]])[..|groups|] == groups;
    var front, last := groups[..|groups| - 1], groups[|groups| - 1];
    assert (front + [last + [value]])[..|front|] == front;
    assert (last + [value])[..|last|] == last;
    assert [value][..0] == [];
  }

  /** `schedulerEvaluateConditionExpression`: one pass over the values gives the OR of the AND-groups. */
  method EvaluateConditionExpression(values: seq<Truth>, joins: seq<Join>) returns (r: Truth)
    requires |values| <= |joins|
    ensures r == if values == [] then True else OrAll(Groups(values, joins))
  {
    if values == [] { return True; }
    var expression, andGroup := False, values[0];
    var i := 1;
    ghost var groups := Groups(values[..1], joins);
    assert groups == [[values[0]]] && Accumulated(groups, expression, andGroup);
    while i < |values|
      invariant 1 <= i <= |values|
      invariant groups == Groups(values[..i], joins) && Accumulated(groups, expression, andGroup)
    {
      GroupsNext(values, joins, i);
      AccumulateNext(groups, expression, andGroup, values[i]);
      if joins[i].Or? {
        expression := TruthOr(expression, andGroup);
        andGroup := values[i];
      } else {
        andGroup := TruthAnd(andGroup, values[i]);
      }
      i := i + 1;
      groups := Groups(values[..i], joins);
    }
    assert values[..i] == values;
    r := TruthOr(expression, andGroup);
  }

  // ----- what the expression means

  predicate AllHold(group: seq<bool>) {
    forall i :: 0 <= i < |group| ==> group[i]
  }

  /** Two-valued meaning: some group holds in all its parts. */
  predicate Satisfied(groups: seq<seq<bool>>) {
    exists k :: 0 <= k < |groups| && AllHold(groups[k])
  }

  predicate Fills(bits: seq<bool>, values: seq<Truth>) {
    |bits| == |values| && forall i :: 0 <= i < |values| ==> FillsOne(bits[i], values[i])
  }

  predicate FillsOne(bit: bool, value: Truth) {
    value.Unknown? || bit == value.True?
  }

  predicate FillsGroups(groups: seq<seq<bool>>, truths: seq<seq<Truth>>) {
    |groups| == |truths| && forall k :: 0 <= k < |groups| ==> Fills(groups[k], truths[k])
  }

  lemma {:induction false} GroupsOfAFilling(bits: seq<bool>, values: seq<Truth>, joins: seq<Join>)
    requires 0 < |values| <= |joins| && Fills(bits, values)
    ensures FillsGroups(Groups(bits, joins), Groups(values, joins))
  {
    var n := |values| - 1;
    if n > 0 {
      GroupsOfAFilling(bits[..n], values[..n], joins);
      var gb, gt := Groups(bits[..n], joins), Groups(values[..n], joins);
      assert Fills(gb[|gb| - 1], gt[|gt| - 1]);
    }
  }

  lemma {:induction false} AndAllMeaning(group: seq<Truth>)
    ensures AndAll(group).True? <==> forall i :: 0 <= i < |group| ==> group[i].True?
    ensures AndAll(group).False? <==> exists i :: 0 <= i < |group| && group[i].False?
  {
    if group != [] {
      var init := group[..|group| - 1];
      AndAllMeaning(init);
      assert forall i :: 0 <= i < |init| ==> group[i] == init[i];
    }
  }

  lemma {:induction false} OrAllMeaning(groups: seq<seq<Truth>>)
    ensures OrAll(groups).True? <==> exists k :: 0 <= k < |groups| && AndAll(groups[k]).True?
    ensures OrAll(groups).False? <==> forall k :: 0 <= k < |groups| ==> AndAll(groups[k]).False?
  {
    if groups != [] {
      var init := groups[..|groups| - 1];
      OrAllMeaning(init);
      assert forall k :: 0 <= k < |init| ==> groups[k] == init[k];
    }
  }

  lemma GroupFilling(bits: seq<bool>, group: seq<Truth>)
    requires Fills(bits, group)
    ensures AndAll(group).True? ==> AllHold(bits)
    ensures AndAll(group).False? ==> !AllHold(bits)
  {
    AndAllMeaning(group);
    if AndAll(group).False? {
      var i :| 0 <= i < |group| && group[i].False?;
      assert FillsOne(bits[i], group[i]);
    }
  }

  /** A definite answer holds whatever the unavailable values turn out to be. */
  lemma {:induction false} DefiniteHoldsForEveryFilling(values: seq<Truth>, joins: seq<Join>, bits: seq<bool>)
    requires 0 < |values| <= |joins| && Fills(bits, values)
    ensures OrAll(Groups(values, joins)).True? ==> Satisfied(Groups(bits, joins))
    ensures OrAll(Groups(values, joins)).False? ==> !Satisfied(Groups(bits, joins))
  {
    var truths, groups := Groups(values, joins), Groups(bits, joins);
    GroupsOfAFilling(bits, values, joins);
    OrAllMeaning(truths);
    forall k | 0 <= k < |groups|
      ensures AndAll(truths[k]).True? ==> AllHold(groups[k])
      ensures AndAll(truths[k]).False? ==> !AllHold(groups[k])
    {
      GroupFilling(groups[k], truths[k]);
    }
  }

  /** Every unavailable value replaced by the same answer. */
  function FillAll(values: seq<Truth>, bit: bool): (bits: seq<bool>)
    ensures Fills(bits, values)
  {
    seq(|values|, i requires 0 <= i < |values| => if values[i].Unknown? then bit else values[i].True?)
  }

  /** Each group is filled with the same answer. */
  predicate FilledAlike(groups: seq<seq<bool>>, truths: seq<seq<Truth>>, bit: bool) {
    |groups| == |truths| && forall k :: 0 <= k < |groups| ==> groups[k] == FillAll(truths[k], bit)
  }

  lemma FillAllSnoc(values: seq<Truth>, value: Truth, bit: bool)
    ensures FillAll(values + [value], bit) == FillAll(values, bit) + FillAll([value], bit)
  {
  }

  /** One more value in the last group, or in a new one. */
  lemma FilledOneMore(groups: seq<seq<bool>>, truths: seq<seq<Truth>>, value: Truth, bit: bool)
    requires FilledAlike(groups, truths, bit) && truths != []
    ensures FilledAlike(groups + [FillAll([value], bit)], truths + [[value]], bit)
    ensures
      var last := |truths| - 1;
      FilledAlike(groups[last := groups[last] + FillAll([value], bit)], truths[last := truths[last] + [value]], bit)
  {
    FillAllSnoc(truths[|truths| - 1], value, bit);
  }

  lemma {:induction false} GroupsOfFillAll(values: seq<Truth>, joins: seq<Join>, bit: bool)
    requires 0 < |values| <= |joins|
    ensures FilledAlike(Groups(FillAll(values, bit), joins), Groups(values, joins), bit)
  {
    var n := |values| - 1;
    if n > 0 {
      GroupsOfFillAll(values[..n], joins, bit);
      assert FillAll(values, bit)[..n] == FillAll(values[..n], bit);
      assert [FillAll(values, bit)[n]] == FillAll([values[n]], bit);
      FilledOneMore(Groups(FillAll(values[..n], bit), joins), Groups(values[..n], joins), values[n], bit);
    }
  }

  lemma GroupExtremes(group: seq<Truth>)
    ensures AllHold(FillAll(group, true)) <==> !AndAll(group).False?
    ensures AllHold(FillAll(group, false)) <==> AndAll(group).True?
  {
    AndAllMeaning(group);
    var yes, no := FillAll(group, true), FillAll(group, false);
    assert forall i :: 0 <= i < |group| ==> yes[i] == !group[i].False? && no[i] == group[i].True?;
  }

  /** The most and the least favourable filling decide the three-valued answer. */
  lemma Extremes(values: seq<Truth>, joins: seq<Join>, bit: bool)
    requires 0 < |values| <= |joins|
    ensures
      var answer := OrAll(Groups(values, joins));
      Satisfied(Groups(FillAll(values, bit), joins)) <==> if bit then !answer.False? else answer.True?
  {
    var truths, groups := Groups(values, joins), Groups(FillAll(values, bit), joins);
    OrAllMeaning(truths);
    GroupsOfFillAll(values, joins, bit);
    forall k | 0 <= k < |groups|
      ensures AllHold(groups[k]) <==> if bit then !AndAll(truths[k]).False? else AndAll(truths[k]).True?
    {
      GroupExtremes(truths[k]);
    }
  }

  /** The answer is exact: it is UNKNOWN if and only if the unavailable values could still decide either way. */
  lemma UnknownExactlyWhenUndecided(values: seq<Truth>, joins: seq<Join>)
    requires 0 < |values| <= |joins|
    ensures OrAll(Groups(values, joins)).Unknown? <==>
      exists yes, no :: Fills(yes, values) && Fills(no, values) &&
        Satisfied(Groups(yes, joins)) && !Satisfied(Groups(no, joins))
  {
    var answer := OrAll(Groups(values, joins));
    if answer.Unknown? {
      Extremes(values, joins, true);
      Extremes(values, joins, false);
      assert Fills(FillAll(values, true), values) && Fills(FillAll(values, false), values);
    } else {
      forall bits | Fills(bits, values) ensures Satisfied(Groups(bits, joins)) == answer.True? {
        DefiniteHoldsForEveryFilling(values, joins, bits);
      }
    }
  }

  // ----- conditions over readings

  /** What `evaluateCondition` stores for one condition; None is a value that could not be read. */
  function ConditionTruth(c: Condition, reading: Option<real>): Truth {
    if reading.None? then Unknown else if Holds(reading.value, c.compare, c.expected) then True else False
  }

  function ConditionTruths(conditions: seq<Condition>, readings: seq<Option<real>>): (t: seq<Truth>)
    requires |readings| == |conditions|
    ensures |t| == |conditions|
  {
    seq(|conditions|, i requires 0 <= i < |conditions| => ConditionTruth(conditions[i], readings[i]))
  }

  /** The joins as evaluated: the first one never starts a group. */
  function JoinsOf(conditions: seq<Condition>): (j: seq<Join>)
    ensures |j| == |conditions|
  {
    seq(|conditions|, i requires 0 <= i < |conditions| => if i == 0 then And else conditions[i].join)
  }

  predicate Passes(conditions: seq<Condition>, readings: seq<Option<real>>)
    requires |readings| == |conditions|
  {
    conditions == [] || OrAll(Groups(ConditionTruths(conditions, readings), JoinsOf(conditions))).True?
  }

  /** `evaluateCondition`; without a value provider only an unconditional entry passes. */
  method EvaluateCondition(conditions: seq<Condition>, readings: seq<Option<real>>,
                           hasReader: bool) returns (pass: bool)
    requires |readings| == |conditions|
    ensures pass == (conditions == [] || (hasReader && Passes(conditions, readings)))
  {
    if conditions == [] { return true; }
    if !hasReader { return false; }
    var values, joins := [], [];
    for i := 0 to |conditions|
      invariant |values| == |joins| == i
      invariant values == ConditionTruths(conditions, readings)[..i] && joins == JoinsOf(conditions)[..i]
    {
      joins := joins + [if i == 0 then And else conditions[i].join];
      values := values + [ConditionTruth(conditions[i], readings[i])];
    }
    assert values == ConditionTruths(conditions, readings) && joins == JoinsOf(conditions);
    var expression := EvaluateConditionExpression(values, joins);
    pass := expression.True?;
  }

  /** Actual values that agree with every reading that was available. */
  predicate Completes(actual: seq<real>, readings: seq<Option<real>>) {
    |actual| == |readings| && forall i :: 0 <= i < |readings| && readings[i].Some? ==> actual[i] == readings[i].value
  }

  function Outcomes(conditions: seq<Condition>, actual: seq<real>): (bits: seq<bool>)
    requires |actual| == |conditions|
    ensures |bits| == |conditions|
  {
    seq(|conditions|, i requires 0 <= i < |conditions| =>
      Holds(actual[i], conditions[i].compare, conditions[i].expected))
  }

  /** A value that gives a comparison the wanted outcome; every comparison can go either way. */
  function ValueFor(c: Condition, wanted: bool): (v: real)
    ensures Holds(v, c.compare, c.expected) == wanted
  {
    match c.compare
    case Less => if wanted then c.expected - 1.0 else c.expected
    case LessEqual => if wanted then c.expected else c.expected + 1.0
    case Equal => if wanted then c.expected else c.expected + 1.0
    case GreaterEqual => if wanted then c.expected else c.expected - 1.0
    case Greater => if wanted then c.expected + 1.0 else c.expected
  }

  function ValueToFill(conditions: seq<Condition>, readings: seq<Option<real>>, i: nat, wanted: bool): real
    requires |readings| == |conditions| && i < |conditions|
  {
    if readings[i].Some? then readings[i].value else ValueFor(conditions[i], wanted)
  }

  /** Readings completed so that every missing comparison fails. */
  function Worst(conditions: seq<Condition>, readings: seq<Option<real>>): (actual: seq<real>)
    requires |readings| == |conditions|
    ensures Completes(actual, readings)
  {
    seq(|conditions|, i requires 0 <= i < |conditions| => ValueToFill(conditions, readings, i, false))
  }

  /**
   An entry passes exactly when its conditions hold for all actual values compatible with what could be
   read: no missing value could have forbidden the action.
   */
  lemma PassesExactlyWhenNothingCouldForbid(conditions: seq<Condition>, readings: seq<Option<real>>)
    requires |readings| == |conditions| > 0
    ensures Passes(conditions, readings) <==>
      forall actual :: Completes(actual, readings) ==>
        Satisfied(Groups(Outcomes(conditions, actual), JoinsOf(conditions)))
  {
    var values, joins := ConditionTruths(conditions, readings), JoinsOf(conditions);
    forall actual | Completes(actual, readings)
      ensures Fills(Outcomes(conditions, actual), values)
      ensures Passes(conditions, readings) ==> Satisfied(Groups(Outcomes(conditions, actual), joins))
    {
      assert Fills(Outcomes(conditions, actual), values);
      DefiniteHoldsForEveryFilling(values, joins, Outcomes(conditions, actual));
    }
    if !Passes(conditions, readings) {
      var actual := Worst(conditions, readings);
      assert Outcomes(conditions, actual) == FillAll(values, false);
      Extremes(values, joins, false);
    }
  }

  // ----- when an entry passes, by its conditions alone

  /** No condition from a + 1 to b is joined by OR, so a and b belong together. */
  predicate SameRun(conditions: seq<Condition>, a: int, b: int) {
    forall k :: a < k <= b && 0 <= k < |conditions| ==> conditions[k].join != Or
  }

  /** The reading was available and compares as the condition wants; numbers are equal if less than 0.01 apart. */
  predicate ComparesTrue(c: Condition, reading: Option<real>) {
    && reading.Some?
    && var actual := reading.value;
       || (c.compare == Less && actual < c.expected)
       || (c.compare == LessEqual && (actual < c.expected || actual == c.expected))
       || (c.compare == Equal && actual < c.expected + 0.01 && c.expected < actual + 0.01)
       || (c.compare == GreaterEqual && (actual > c.expected || actual == c.expected))
       || (c.compare == Greater && actual > c.expected)
  }

  /** A run of conditions starts at a, and all of them up to the next OR, or the end, compare true. */
  predicate RunHolds(conditions: seq<Condition>, readings: seq<Option<real>>, a: int)
    requires |readings| == |conditions|
  {
    && 0 <= a < |conditions| && (a == 0 || conditions[a].join == Or)
    && forall b :: a <= b < |conditions| && SameRun(conditions, a, b) ==> ComparesTrue(conditions[b], readings[b])
  }

  /** The same about values and joins. */
  predicate Starts(joins: seq<Join>, a: int) {
    0 <= a < |joins| && (a == 0 || joins[a] == Or)
  }

  predicate Together(joins: seq<Join>, a: int, b: int) {
    forall k :: a < k <= b && 0 <= k < |joins| ==> joins[k] != Or
  }

  predicate RunIsTrue(values: seq<Truth>, joins: seq<Join>, a: int)
    requires |values| <= |joins|
  {
    && Starts(joins, a) && a < |values|
    && forall b :: a <= b < |values| && Together(joins, a, b) ==> values[b] == True
  }

  /** Where the last run of the first n values starts. */
  function LastStart(joins: seq<Join>, n: nat): (s: nat)
    requires 0 < n <= |joins|
    ensures s < n && Starts(joins, s) && forall k :: s < k < n ==> joins[k] != Or
  {
    if n == 1 || joins[n - 1].Or? then n - 1 else LastStart(joins, n - 1)
  }

  /** The groups of the first s values. */
  function GroupsBefore(values: seq<Truth>, joins: seq<Join>, s: nat): seq<seq<Truth>>
    requires s <= |values| <= |joins|
  {
    if s == 0 then [] else Groups(values[..s], joins)
  }

  lemma LongerLast(front: seq<seq<Truth>>, last: seq<Truth>, value: Truth)
    ensures
      var groups := front + [last];
      groups[..|groups| - 1] + [groups[|groups| - 1] + [value]] == front + [last + [value]]
  {
  }

  /** The first n values form the groups before s, and the run from s to n. */
  predicate EndsWithRun(values: seq<Truth>, joins: seq<Join>, s: nat, n: nat)
    requires s < n <= |values| <= |joins|
  {
    Groups(values[..n], joins) == GroupsBefore(values, joins, s) + [values[s..n]]
  }

  lemma NewRunStarts(values: seq<Truth>, joins: seq<Join>, n: nat)
    requires 1 <= n < |values| <= |joins| && joins[n].Or?
    ensures EndsWithRun(values, joins, n, n + 1)
  {
    GroupsNext(values, joins, n);
    assert values[n..n + 1] == [values[n]];
  }

  lemma RunGoesOn(values: seq<Truth>, joins: seq<Join>, s: nat, n: nat)
    requires 1 <= n < |values| <= |joins| && !joins[n].Or? && s < n && EndsWithRun(values, joins, s, n)
    ensures EndsWithRun(values, joins, s, n + 1)
  {
    GroupsNext(values, joins, n);
    LongerLast(GroupsBefore(values, joins, s), values[s..n], values[n]);
    assert values[s..n] + [values[n]] == values[s..n + 1];
  }

  lemma FirstRun(values: seq<Truth>, joins: seq<Join>)
    requires 1 <= |values| <= |joins|
    ensures EndsWithRun(values, joins, 0, 1)
  {
    assert values[..1] == values[0..1] == [values[0]];
  }

  lemma {:induction false} LastGroup(values: seq<Truth>, joins: seq<Join>, n: nat)
    requires 0 < n <= |values| <= |joins|
    ensures EndsWithRun(values, joins, LastStart(joins, n), n)
  {
    if n == 1 {
      FirstRun(values, joins);
    } else if joins[n - 1].Or? {
      NewRunStarts(values, joins, n - 1);
    } else {
      LastGroup(values, joins, n - 1);
      RunGoesOn(values, joins, LastStart(joins, n - 1), n - 1);
    }
  }

  lemma OrOfOneMore(groups: seq<seq<Truth>>, last: seq<Truth>)
    ensures OrAll(groups + [last]).True? <==> OrAll(groups).True? || AndAll(last).True?
  {
    assert (groups + [last])[..|groups|] == groups;
  }

  lemma LastRunIsTrue(values: seq<Truth>, joins: seq<Join>)
    requires 0 < |values| <= |joins|
    ensures
      var s := LastStart(joins, |values|);
      RunIsTrue(values, joins, s) <==> AndAll(values[s..]).True?
  {
    var s := LastStart(joins, |values|);
    var run := values[s..];
    AndAllMeaning(run);
    if AndAll(run).True? {
      forall b | s <= b < |values| ensures values[b] == True {
        assert run[b - s].True?;
      }
    }
    if RunIsTrue(values, joins, s) {
      forall i | 0 <= i < |run| ensures run[i].True? {
        assert Together(joins, s, s + i);
      }
    }
  }

  /** Earlier runs end before the last one starts. */
  lemma EarlierRun(values: seq<Truth>, joins: seq<Join>, a: nat)
    requires 0 < |values| <= |joins| && a < LastStart(joins, |values|)
    ensures RunIsTrue(values[..LastStart(joins, |values|)], joins, a) <==> RunIsTrue(values, joins, a)
  {
    var s := LastStart(joins, |values|);
    forall b | s <= b < |values| ensures !Together(joins, a, b) {
      assert joins[s] == Or;
    }
  }

  lemma LaterStart(joins: seq<Join>, a: nat, n: nat)
    requires 0 < n <= |joins| && a < n && Starts(joins, a)
    ensures a <= LastStart(joins, n)
  {
  }

  /** The groups are true if the last run is, or if those before it are. */
  lemma OrOfLastRun(values: seq<Truth>, joins: seq<Join>)
    requires 0 < |values| <= |joins|
    ensures
      var s := LastStart(joins, |values|);
      OrAll(Groups(values, joins)).True? <==>
      RunIsTrue(values, joins, s) || (s > 0 && OrAll(Groups(values[..s], joins)).True?)
  {
    var s := LastStart(joins, |values|);
    LastGroup(values, joins, |values|);
    assert values[..|values|] == values && values[s..|values|] == values[s..];
    OrOfOneMore(GroupsBefore(values, joins, s), values[s..]);
    LastRunIsTrue(values, joins);
  }

  /** The OR of the groups is true exactly when some run is. */
  lemma {:induction false} SomeRunIsTrue(values: seq<Truth>, joins: seq<Join>)
    requires 0 < |values| <= |joins|
    ensures OrAll(Groups(values, joins)).True? <==> exists a :: RunIsTrue(values, joins, a)
    decreases |values|
  {
    var s := LastStart(joins, |values|);
    OrOfLastRun(values, joins);
    if s > 0 {
      SomeRunIsTrue(values[..s], joins);
    }
    if a :| RunIsTrue(values, joins, a) && a != s {
      LaterStart(joins, a, |values|);
      EarlierRun(values, joins, a);
    }
    if s > 0 {
      if a :| RunIsTrue(values[..s], joins, a) {
        EarlierRun(values, joins, a);
      }
    }
  }

  lemma SameRuns(conditions: seq<Condition>, readings: seq<Option<real>>, a: int)
    requires |readings| == |conditions|
    ensures RunHolds(conditions, readings, a) <==>
            RunIsTrue(ConditionTruths(conditions, readings), JoinsOf(conditions), a)
  {
    var values, joins := ConditionTruths(conditions, readings), JoinsOf(conditions);
    if 0 <= a < |conditions| {
      forall b | a <= b < |conditions|
        ensures SameRun(conditions, a, b) <==> Together(joins, a, b)
        ensures ComparesTrue(conditions[b], readings[b]) <==> values[b] == True
      {
        assert forall k :: a < k < |conditions| ==> joins[k] == conditions[k].join;
      }
    }
  }

  /**
   An entry with conditions passes if and only if there is a condition, the first one or one joined by OR, from which
   on every condition up to the next OR, or the end, has a reading and compares true.
   */
  lemma PassesExactly(conditions: seq<Condition>, readings: seq<Option<real>>)
    requires |readings| == |conditions|
    ensures Passes(conditions, readings) <==>
            conditions == [] || exists a :: RunHolds(conditions, readings, a)
  {
    if conditions != [] {
      SomeRunIsTrue(ConditionTruths(conditions, readings), JoinsOf(conditions));
      forall a: int
        ensures RunHolds(conditions, readings, a) <==>
                RunIsTrue(ConditionTruths(conditions, readings), JoinsOf(conditions), a)
      {
        SameRuns(conditions, readings, a);
      }
    }
  }
}
