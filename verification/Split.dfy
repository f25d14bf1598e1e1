/** Splitting benign runs into training, validation and test parts (cote3mon/training.py). */
module Split {
  import opened Wrappers
  import opened Orders

  datatype Row = Row(run: string, scenario: string, attack: bool, values: seq<real>)

  datatype Failure = Coverage | TooFewRuns | TooFewRunsIn(scenario: string) | NoTestRun(scenario: string)

  datatype Outcome<+T> = Done(value: T) | Failed(failure: Failure)

  datatype Parts = Parts(train: seq<Row>, validation: seq<Row>, test: seq<Row>)

  /** The runs given to each part. */
  datatype Ids = Ids(train: set<string>, validation: set<string>, test: set<string>)

  const NoIds := Ids({}, {}, {})

  function Benign(rows: seq<Row>): (benign: seq<Row>)
    ensures forall row :: row in benign <==> row in rows && !row.attack
    ensures forall row :: multiset(benign)[row] == if row.attack then 0 else multiset(rows)[row]
  {
    if rows == [] then [] else
      assert rows == [rows[0]] + rows[1..];
      (if rows[0].attack then [] else [rows[0]]) + Benign(rows[1..])
  }

  function Runs(rows: seq<Row>): set<string> {
    set row | row in rows :: row.run
  }

  function Scenarios(rows: seq<Row>): set<string> {
    set row | row in rows :: row.scenario
  }

  function RunsIn(rows: seq<Row>, scenario: string): set<string> {
    set row | row in rows && row.scenario == scenario :: row.run
  }

  function Chosen(rows: seq<Row>, runs: set<string>): (chosen: seq<Row>)
    ensures forall row :: row in chosen <==> row in rows && row.run in runs
  {
    if rows == [] then [] else (if rows[0].run in runs then [rows[0]] else []) + Chosen(rows[1..], runs)
  }

  function PartsFor(benign: seq<Row>, ids: Ids): Parts {
    Parts(Chosen(benign, ids.train), Chosen(benign, ids.validation), Chosen(benign, ids.test))
  }

  function SortedTexts(texts: set<string>): (sorted: seq<string>)
    ensures forall text :: text in sorted <==> text in texts
    ensures Distinct(sorted)
  {
    TextLessIsTotal();
    var sorted := Sorted(TextLess, texts);
    assert forall text :: !TextLess(text, text);
    sorted
  }

  ghost predicate Distinct(texts: seq<string>) {
    forall i, j | 0 <= i < j < |texts| :: texts[i] != texts[j]
  }

  // ----- cutting a shuffled list of runs

  /** A generator's shuffle, one for each scenario. */
  type Shuffle = (string, seq<string>) -> seq<string>

  /** A shuffle gives back the runs it was given, in any order. */
  ghost predicate Permutes(shuffle: Shuffle) {
    forall scenario, runs :: multiset(shuffle(scenario, runs)) == multiset(runs)
  }

  function TrainEnd(n: nat): int {
    var end := (n as real * 0.6).Floor;
    if end >= 1 then end else 1
  }

  function ValidationEnd(n: nat): int {
    var end := (n as real * 0.8).Floor;
    if end >= TrainEnd(n) + 1 then end else TrainEnd(n) + 1
  }

  lemma {:induction false} CutPoints(n: nat)
    requires n >= 5
    ensures TrainEnd(n) == 3 * n / 5 && ValidationEnd(n) == 4 * n / 5
    ensures 0 < TrainEnd(n) < ValidationEnd(n) < n
  {
    assert n as real * 0.6 == (3 * n) as real / 5.0;
    assert n as real * 0.8 == (4 * n) as real / 5.0;
    FloorOfFifths(3 * n);
    FloorOfFifths(4 * n);
  }

  lemma {:induction false} FloorOfFifths(n: nat)
    ensures (n as real / 5.0).Floor == n / 5
  {
    var q, r := n / 5, n % 5;
    assert n as real / 5.0 == q as real + r as real / 5.0;
  }

  function Texts(texts: seq<string>): (r: set<string>)
    ensures forall text :: text in r <==> text in texts
  {
    set text | text in texts
  }

  function Cut(runs: seq<string>): (ids: Ids)
    requires |runs| >= 5
  {
    CutPoints(|runs|);
    var trainEnd, validationEnd := TrainEnd(|runs|), ValidationEnd(|runs|);
    Ids(Texts(runs[..trainEnd]), Texts(runs[trainEnd..validationEnd]), Texts(runs[validationEnd..]))
  }

  // ----- the two splits

  function SplitBenignRuns(rows: seq<Row>, shuffle: seq<string> -> seq<string>): Outcome<Parts>
    requires forall runs :: multiset(shuffle(runs)) == multiset(runs)
  {
    var benign := Benign(rows);
    var runs := SortedTexts(Runs(benign));
    if |runs| < 5 then Failed(TooFewRuns) else
      assert |multiset(shuffle(runs))| == |multiset(runs)|;
      Done(PartsFor(benign, Cut(shuffle(runs))))
  }

  function Joined(a: Ids, b: Ids): Ids {
    Ids(a.train + b.train, a.validation + b.validation, a.test + b.test)
  }

  function CutScenario(benign: seq<Row>, shuffle: Shuffle, scenario: string): Outcome<Ids>
    requires Permutes(shuffle)
  {
    var runs := SortedTexts(RunsIn(benign, scenario));
    if |runs| < 5 then Failed(TooFewRunsIn(scenario)) else
      assert |multiset(shuffle(scenario, runs))| == |multiset(runs)|;
      if ValidationEnd(|runs|) >= |runs| then Failed(NoTestRun(scenario))
      else Done(Cut(shuffle(scenario, runs)))
  }

  /** The assignment after the given scenarios, or the first failure. */
  function Assigned(benign: seq<Row>, shuffle: Shuffle, scenarios: seq<string>): Outcome<Ids>
    requires Permutes(shuffle)
  {
    if scenarios == [] then Done(NoIds) else
      var before := Assigned(benign, shuffle, scenarios[..|scenarios| - 1]);
      if before.Failed? then before else
        var cut := CutScenario(benign, shuffle, scenarios[|scenarios| - 1]);
        if cut.Failed? then cut else Done(Joined(before.value, cut.value))
  }

  function Stratified(rows: seq<Row>, shuffle: Shuffle, scenarios: Option<set<string>>): Outcome<Parts>
    requires Permutes(shuffle)
  {
    var benign := Benign(rows);
    var observed := Scenarios(benign);
    if scenarios.Some? && observed != scenarios.value then Failed(Coverage) else
      var ids := Assigned(benign, shuffle, SortedTexts(observed));
      if ids.Failed? then Failed(ids.failure) else Done(PartsFor(benign, ids.value))
  }

  method SplitBenignRunsStratified(rows: seq<Row>, shuffle: Shuffle, scenarios: Option<set<string>>)
    returns (split: Outcome<Parts>)
    requires Permutes(shuffle)
    ensures split == Stratified(rows, shuffle, scenarios)
  {
    hide CutScenario, Assigned, PartsFor, Benign, SortedTexts, Permutes;
    var benign := Benign(rows);
    var observed := Scenarios(benign);
    var expected := if scenarios.Some? then scenarios.value else observed;
    if observed != expected {
      return Failed(Coverage);
    }
    var order := SortedTexts(expected);
    var ids := NoIds;
    NothingAssigned(benign, shuffle);
    for i := 0 to |order|
      invariant Assigned(benign, shuffle, order[..i]) == Done(ids)
    {
      AssignedNext(benign, shuffle, order, i);
      var cut := CutScenario(benign, shuffle, order[i]);
      if cut.Failed? {
        FailureStays(benign, shuffle, order, i + 1);
        return Failed(cut.failure);
      }
      ids := Joined(ids, cut.value);
    }
    assert order[..|order|] == order;
    split := Done(PartsFor(benign, ids));
  }

  lemma {:induction false} NothingAssigned(benign: seq<Row>, shuffle: Shuffle)
    requires Permutes(shuffle)
    ensures Assigned(benign, shuffle, []) == Done(NoIds)
  {
  }

  lemma {:induction false} AssignedNext(benign: seq<Row>, shuffle: Shuffle, scenarios: seq<string>, i: nat)
    requires Permutes(shuffle) && i < |scenarios| && Assigned(benign, shuffle, scenarios[..i]).Done?
    ensures Assigned(benign, shuffle, scenarios[..i + 1]) ==
      var cut := CutScenario(benign, shuffle, scenarios[i]);
      if cut.Failed? then cut else Done(Joined(Assigned(benign, shuffle, scenarios[..i]).value, cut.value))
  {
    hide CutScenario, Permutes;
    assert scenarios[..i + 1][..i] == scenarios[..i];
  }

  lemma {:induction false} FailureStays(benign: seq<Row>, shuffle: Shuffle, scenarios: seq<string>, n: nat)
    requires Permutes(shuffle) && n <= |scenarios| && Assigned(benign, shuffle, scenarios[..n]).Failed?
    ensures Assigned(benign, shuffle, scenarios) == Assigned(benign, shuffle, scenarios[..n])
  {
    hide CutScenario, Permutes;
    if n < |scenarios| {
      assert scenarios[..|scenarios| - 1][..n] == scenarios[..n];
      FailureStays(benign, shuffle, scenarios[..|scenarios| - 1], n);
    } else {
      assert scenarios[..n] == scenarios;
    }
  }

  // ----- cutting keeps every run, once

  ghost predicate Disjoint(ids: Ids) {
    ids.train !! ids.validation && ids.train !! ids.test && ids.validation !! ids.test
  }

  function All(ids: Ids): set<string> {
    ids.train + ids.validation + ids.test
  }

  lemma {:induction false} DistinctIsOnce(texts: seq<string>)
    requires Distinct(texts)
    ensures forall text :: multiset(texts)[text] == if text in texts then 1 else 0
  {
    if texts != [] {
      DistinctIsOnce(texts[1..]);
      assert texts == [texts[0]] + texts[1..];
    }
  }

  lemma {:induction false} OnceIsDistinct(texts: seq<string>)
    requires forall text :: multiset(texts)[text] <= 1
    ensures Distinct(texts)
  {
    forall i, j | 0 <= i < j < |texts| ensures texts[i] != texts[j] {
      assert texts == texts[..j] + texts[j..];
      assert texts[i] in multiset(texts[..j]) && texts[j] in multiset(texts[j..]);
      assert multiset(texts)[texts[j]] == multiset(texts[..j])[texts[j]] + multiset(texts[j..])[texts[j]];
    }
  }

  lemma {:induction false} SlicesShareNothing(texts: seq<string>, a: nat, b: nat)
    requires Distinct(texts) && a <= b <= |texts|
    ensures Texts(texts[..a]) !! Texts(texts[a..b])
    ensures Texts(texts[..a]) !! Texts(texts[b..])
    ensures Texts(texts[a..b]) !! Texts(texts[b..])
  {
    forall i, j | 0 <= i < a <= j < |texts| ensures texts[i] != texts[j] {
    }
  }

  lemma {:induction false} SlicesCover(texts: seq<string>, a: nat, b: nat)
    requires a <= b <= |texts|
    ensures Texts(texts[..a]) + Texts(texts[a..b]) + Texts(texts[b..]) == Texts(texts)
  {
    assert texts == texts[..a] + texts[a..b] + texts[b..];
  }

  /** However they are shuffled, the three parts share no run, hold every run, and none is empty. */
  lemma {:induction false} CutIsPartition(runs: seq<string>, shuffled: seq<string>)
    requires Distinct(runs) && multiset(shuffled) == multiset(runs) && |runs| >= 5
    ensures |shuffled| == |runs|
    ensures Disjoint(Cut(shuffled)) && All(Cut(shuffled)) == Texts(runs)
    ensures Cut(shuffled).train != {} && Cut(shuffled).validation != {} && Cut(shuffled).test != {}
  {
    hide Texts, Distinct, TrainEnd, ValidationEnd;
    assert |multiset(shuffled)| == |multiset(runs)|;
    DistinctIsOnce(runs);
    OnceIsDistinct(shuffled);
    CutPoints(|shuffled|);
    var a, b := TrainEnd(|shuffled|), ValidationEnd(|shuffled|);
    SlicesShareNothing(shuffled, a, b);
    SlicesCover(shuffled, a, b);
    SomeTexts(shuffled[..a]);
    SomeTexts(shuffled[a..b]);
    SomeTexts(shuffled[b..]);
    SameTexts(shuffled, runs);
  }

  lemma {:induction false} SomeTexts(texts: seq<string>)
    requires texts != []
    ensures Texts(texts) != {}
  {
    assert texts[0] in Texts(texts);
  }

  lemma {:induction false} SameTexts(a: seq<string>, b: seq<string>)
    requires multiset(a) == multiset(b)
    ensures Texts(a) == Texts(b)
  {
    forall text ensures text in a <==> text in b {
      assert text in multiset(a) <==> text in multiset(b);
    }
  }

  // ----- rows of the parts

  ghost predicate InExactlyOne(benign: seq<Row>, parts: Parts) {
    multiset(parts.train) + multiset(parts.validation) + multiset(parts.test) == multiset(benign)
  }

  ghost predicate NoRunSplit(parts: Parts) {
    Disjoint(Ids(Runs(parts.train), Runs(parts.validation), Runs(parts.test)))
  }

  lemma {:induction false} DisjointRuns(benign: seq<Row>, ids: Ids)
    requires Disjoint(ids)
    ensures NoRunSplit(PartsFor(benign, ids))
  {
    assert Runs(Chosen(benign, ids.train)) <= ids.train;
    assert Runs(Chosen(benign, ids.validation)) <= ids.validation;
    assert Runs(Chosen(benign, ids.test)) <= ids.test;
  }

  lemma {:induction false} ChosenCount(rows: seq<Row>, runs: set<string>, row: Row)
    ensures multiset(Chosen(rows, runs))[row] == if row.run in runs then multiset(rows)[row] else 0
  {
    if rows != [] {
      ChosenCount(rows[1..], runs, row);
      assert rows == [rows[0]] + rows[1..];
    }
  }

  lemma {:induction false} EveryRowOnce(benign: seq<Row>, ids: Ids)
    requires Disjoint(ids) && forall row | row in benign :: row.run in All(ids)
    ensures InExactlyOne(benign, PartsFor(benign, ids))
  {
    hide Chosen;
    var parts := PartsFor(benign, ids);
    forall row ensures multiset(parts.train)[row] + multiset(parts.validation)[row] + multiset(parts.test)[row]
        == multiset(benign)[row] {
      ChosenCount(benign, ids.train, row);
      ChosenCount(benign, ids.validation, row);
      ChosenCount(benign, ids.test, row);
      assert row in multiset(benign) ==> row in benign;
    }
  }

  /** Given at least five benign runs, and only then, every benign row is in exactly one part, no run is in two, and
      no part is empty. */
  lemma {:induction false} SplitKeepsRunsWhole(rows: seq<Row>, shuffle: seq<string> -> seq<string>)
    requires forall runs :: multiset(shuffle(runs)) == multiset(runs)
    ensures SplitBenignRuns(rows, shuffle).Done? <==> |Runs(Benign(rows))| >= 5
    ensures SplitBenignRuns(rows, shuffle).Done? ==>
      var parts := SplitBenignRuns(rows, shuffle).value;
      && InExactlyOne(Benign(rows), parts) && NoRunSplit(parts)
      && parts.train != [] && parts.validation != [] && parts.test != []
  {
    hide Cut, Benign, Chosen;
    var benign := Benign(rows);
    var runs := SortedTexts(Runs(benign));
    DistinctCount(runs, Runs(benign));
    if |runs| >= 5 {
      CutIsPartition(runs, shuffle(runs));
      var ids := Cut(shuffle(runs));
      EveryRowOnce(benign, ids);
      DisjointRuns(benign, ids);
      SomeRowOf(benign, ids.train);
      SomeRowOf(benign, ids.validation);
      SomeRowOf(benign, ids.test);
    }
  }

  lemma {:induction false} DistinctCount(texts: seq<string>, items: set<string>)
    requires Distinct(texts) && forall text :: text in texts <==> text in items
    ensures |texts| == |items|
  {
    if texts == [] {
      assert items == {};
    } else {
      assert forall text :: text in texts[1..] <==> text in texts && text != texts[0];
      DistinctCount(texts[1..], items - {texts[0]});
    }
  }

  lemma {:induction false} SomeRowOf(benign: seq<Row>, runs: set<string>)
    requires runs != {} && runs <= Runs(benign)
    ensures Chosen(benign, runs) != []
  {
    var run :| run in runs;
    assert run in Runs(benign);
    var row :| row in benign && row.run == run;
    assert row in Chosen(benign, runs);
  }

  // ----- the stratified split

  ghost predicate OneScenarioPerRun(benign: seq<Row>) {
    forall a, b | a in benign && b in benign && a.run == b.run :: a.scenario == b.scenario
  }

  ghost predicate EnoughRuns(benign: seq<Row>, scenarios: seq<string>) {
    forall scenario | scenario in scenarios :: |RunsIn(benign, scenario)| >= 5
  }

  function RunsOfAll(benign: seq<Row>, scenarios: seq<string>): set<string> {
    set row | row in benign && row.scenario in scenarios :: row.run
  }

  /** A scenario with five runs is cut in three; the check for a test run never fails. */
  lemma {:induction false} ScenarioIsCut(benign: seq<Row>, shuffle: Shuffle, scenario: string)
    requires Permutes(shuffle)
    ensures if |RunsIn(benign, scenario)| < 5 then CutScenario(benign, shuffle, scenario) == Failed(TooFewRunsIn(scenario))
      else
        && CutScenario(benign, shuffle, scenario).Done?
        && var ids := CutScenario(benign, shuffle, scenario).value;
          && Disjoint(ids) && All(ids) == RunsIn(benign, scenario)
          && ids.train != {} && ids.validation != {} && ids.test != {}
  {
    hide Cut, RunsIn;
    var runs := SortedTexts(RunsIn(benign, scenario));
    DistinctCount(runs, RunsIn(benign, scenario));
    if |runs| >= 5 {
      CutPoints(|runs|);
      CutIsPartition(runs, shuffle(scenario, runs));
    }
  }

  /** What an assignment over some scenarios keeps. */
  ghost predicate Assigns(benign: seq<Row>, scenarios: seq<string>, ids: Ids) {
    && All(ids) == RunsOfAll(benign, scenarios)
    && forall scenario | scenario in scenarios :: InEachPart(benign, scenario, ids)
  }

  ghost predicate InEachPart(benign: seq<Row>, scenario: string, ids: Ids) {
    RunsIn(benign, scenario) * ids.train != {} &&
    RunsIn(benign, scenario) * ids.validation != {} &&
    RunsIn(benign, scenario) * ids.test != {}
  }

  lemma {:induction false} MeetsMore(runs: set<string>, a: set<string>, b: set<string>)
    requires runs * a != {} || (b <= runs && b != {})
    ensures runs * (a + b) != {}
  {
    if runs * a != {} {
      var run :| run in runs * a;
      assert run in runs * (a + b);
    } else {
      var run :| run in b;
      assert run in runs * (a + b);
    }
  }

  lemma {:induction false} RunsOfMore(benign: seq<Row>, before: seq<string>, scenario: string)
    ensures RunsOfAll(benign, before + [scenario]) == RunsOfAll(benign, before) + RunsIn(benign, scenario)
  {
    assert forall row | row in benign ::
      row.scenario in before + [scenario] <==> row.scenario in before || row.scenario == scenario;
  }

  lemma {:induction false} JoinedAssigns(benign: seq<Row>, before: seq<string>, scenario: string, ids: Ids, cut: Ids)
    requires Assigns(benign, before, ids) && All(cut) == RunsIn(benign, scenario)
    requires cut.train != {} && cut.validation != {} && cut.test != {}
    ensures Assigns(benign, before + [scenario], Joined(ids, cut))
  {
    hide RunsOfAll, RunsIn;
    RunsOfMore(benign, before, scenario);
    forall s | s in before + [scenario] ensures InEachPart(benign, s, Joined(ids, cut)) {
      MeetsMore(RunsIn(benign, s), ids.train, cut.train);
      MeetsMore(RunsIn(benign, s), ids.validation, cut.validation);
      MeetsMore(RunsIn(benign, s), ids.test, cut.test);
    }
  }

  lemma {:induction false} JoinedDisjoint(benign: seq<Row>, before: seq<string>, scenario: string, ids: Ids, cut: Ids)
    requires OneScenarioPerRun(benign) && scenario !in before
    requires All(ids) == RunsOfAll(benign, before) && All(cut) == RunsIn(benign, scenario)
    requires Disjoint(ids) && Disjoint(cut)
    ensures Disjoint(Joined(ids, cut))
  {
    forall run | run in All(ids) ensures run !in All(cut) {
      var row :| row in benign && row.scenario in before && row.run == run;
    }
  }

  /** The assignment succeeds exactly when every scenario has five runs; it never misses a test run. */
  lemma {:induction false} AssignedKeeps(benign: seq<Row>, shuffle: Shuffle, scenarios: seq<string>)
    requires Permutes(shuffle)
    ensures Assigned(benign, shuffle, scenarios).Done? <==> EnoughRuns(benign, scenarios)
    ensures Assigned(benign, shuffle, scenarios).Failed? ==>
      var failure := Assigned(benign, shuffle, scenarios).failure;
      failure.TooFewRunsIn? && failure.scenario in scenarios && |RunsIn(benign, failure.scenario)| < 5
    ensures Assigned(benign, shuffle, scenarios).Done? ==>
      var ids := Assigned(benign, shuffle, scenarios).value;
      && Assigns(benign, scenarios, ids)
      && (OneScenarioPerRun(benign) && Distinct(scenarios) ==> Disjoint(ids))
  {
    hide RunsIn, CutScenario, Assigns, OneScenarioPerRun, Disjoint, Permutes;
    if scenarios == [] {
      NoneAssigned(benign);
    } else {
      var before, last := scenarios[..|scenarios| - 1], scenarios[|scenarios| - 1];
      assert scenarios == before + [last];
      AssignedKeeps(benign, shuffle, before);
      ScenarioIsCut(benign, shuffle, last);
      if EnoughRuns(benign, scenarios) {
        assert EnoughRuns(benign, before);
        var ids, cut := Assigned(benign, shuffle, before).value, CutScenario(benign, shuffle, last).value;
        JoinedAssigns(benign, before, last, ids, cut);
        if OneScenarioPerRun(benign) && Distinct(scenarios) {
          AssignsAll(benign, before, ids);
          JoinedDisjoint(benign, before, last, ids, cut);
        }
      }
    }
  }

  lemma {:induction false} AssignsAll(benign: seq<Row>, scenarios: seq<string>, ids: Ids)
    requires Assigns(benign, scenarios, ids)
    ensures All(ids) == RunsOfAll(benign, scenarios)
  {
  }

  lemma {:induction false} NoneAssigned(benign: seq<Row>)
    ensures Assigns(benign, [], NoIds) && Disjoint(NoIds)
  {
  }

  /** Some row of the scenario in each part. */
  ghost predicate CoversScenario(parts: Parts, scenario: string) {
    scenario in Scenarios(parts.train) && scenario in Scenarios(parts.validation) && scenario in Scenarios(parts.test)
  }

  lemma {:induction false} RowOfScenario(benign: seq<Row>, scenario: string, runs: set<string>)
    requires RunsIn(benign, scenario) * runs != {}
    ensures scenario in Scenarios(Chosen(benign, runs))
  {
    var run :| run in RunsIn(benign, scenario) * runs;
    var row :| row in benign && row.scenario == scenario && row.run == run;
    assert row in Chosen(benign, runs);
  }

  /** Rows that the stratified split accepts. */
  ghost predicate Splittable(rows: seq<Row>, scenarios: Option<set<string>>) {
    && (scenarios.Some? ==> scenarios.value == Scenarios(Benign(rows)))
    && forall scenario | scenario in Scenarios(Benign(rows)) :: |RunsIn(Benign(rows), scenario)| >= 5
  }

  ghost predicate Covers(benign: seq<Row>, parts: Parts) {
    forall scenario | scenario in Scenarios(benign) :: CoversScenario(parts, scenario)
  }

  lemma {:induction false} AssignedParts(benign: seq<Row>, order: seq<string>, ids: Ids)
    requires Assigns(benign, order, ids) && forall scenario :: scenario in order <==> scenario in Scenarios(benign)
    ensures Covers(benign, PartsFor(benign, ids))
    ensures Disjoint(ids) ==> InExactlyOne(benign, PartsFor(benign, ids)) && NoRunSplit(PartsFor(benign, ids))
  {
    hide RunsIn, PartsFor, Disjoint, InExactlyOne, NoRunSplit, InEachPart, CoversScenario, RunsOfAll;
    forall scenario | scenario in Scenarios(benign) ensures CoversScenario(PartsFor(benign, ids), scenario) {
      ScenarioCovered(benign, scenario, ids);
    }
    if Disjoint(ids) {
      AllRuns(benign, order);
      EveryRowOnce(benign, ids);
      DisjointRuns(benign, ids);
    }
  }

  /** For every shuffle, the stratified split succeeds exactly when the scenarios are the expected ones and each has
      five benign runs; every scenario is then in every part, and when each run belongs to one scenario, every benign
      row is in exactly one part and no run is in two. It never fails for want of a test run. */
  lemma {:induction false} StratifiedKeepsRunsWhole(rows: seq<Row>, shuffle: Shuffle, scenarios: Option<set<string>>)
    requires Permutes(shuffle)
    ensures Stratified(rows, shuffle, scenarios).Done? <==> Splittable(rows, scenarios)
    ensures Stratified(rows, shuffle, scenarios).Failed? ==> !Stratified(rows, shuffle, scenarios).failure.NoTestRun?
    ensures Stratified(rows, shuffle, scenarios).Done? ==>
      Covers(Benign(rows), Stratified(rows, shuffle, scenarios).value)
    ensures Stratified(rows, shuffle, scenarios).Done? && OneScenarioPerRun(Benign(rows)) ==>
      && InExactlyOne(Benign(rows), Stratified(rows, shuffle, scenarios).value)
      && NoRunSplit(Stratified(rows, shuffle, scenarios).value)
  {
    hide Assigned, Assigns, RunsIn, PartsFor, OneScenarioPerRun, Disjoint, Permutes, Benign, InExactlyOne, NoRunSplit,
      Covers, Scenarios;
    var benign := Benign(rows);
    var order := SortedTexts(Scenarios(benign));
    AssignedKeeps(benign, shuffle, order);
    if Assigned(benign, shuffle, order).Done? {
      AssignedParts(benign, order, Assigned(benign, shuffle, order).value);
    }
  }

  lemma {:induction false} ScenarioCovered(benign: seq<Row>, scenario: string, ids: Ids)
    requires InEachPart(benign, scenario, ids)
    ensures CoversScenario(PartsFor(benign, ids), scenario)
  {
    hide RunsIn, Chosen;
    RowOfScenario(benign, scenario, ids.train);
    RowOfScenario(benign, scenario, ids.validation);
    RowOfScenario(benign, scenario, ids.test);
  }

  lemma {:induction false} AllRuns(benign: seq<Row>, order: seq<string>)
    requires forall scenario :: scenario in order <==> scenario in Scenarios(benign)
    ensures forall row | row in benign :: row.run in RunsOfAll(benign, order)
  {
    forall row | row in benign ensures row.run in RunsOfAll(benign, order) {
      assert row.scenario in Scenarios(benign);
    }
  }

  // ----- a run recorded under two scenarios

  function Without(runs: seq<string>, run: string): (rest: seq<string>)
    requires run in runs
    ensures multiset(rest) + multiset{run} == multiset(runs)
  {
    assert runs == [runs[0]] + runs[1..];
    if runs[0] == run then runs[1..] else [runs[0]] + Without(runs[1..], run)
  }

  /** Puts a run first in one scenario and last in every other. */
  function Biased(run: string, scenario: string): Shuffle {
    (s, runs) =>
      if run !in runs then runs
      else if s == scenario then [run] + Without(runs, run)
      else Without(runs, run) + [run]
  }

  lemma {:induction false} BiasedPermutes(run: string, scenario: string)
    ensures Permutes(Biased(run, scenario))
  {
    forall s, runs ensures multiset(Biased(run, scenario)(s, runs)) == multiset(runs) {
    }
  }

  lemma {:induction false} EndsOfCut(runs: seq<string>)
    requires |runs| >= 5
    ensures runs[0] in Cut(runs).train && runs[|runs| - 1] in Cut(runs).test
  {
    hide TrainEnd, ValidationEnd;
    CutPoints(|runs|);
    var first, last := runs[..TrainEnd(|runs|)], runs[ValidationEnd(|runs|)..];
    assert first[0] == runs[0] && last[|last| - 1] == runs[|runs| - 1];
  }

  lemma {:induction false} CutOfShuffle(benign: seq<Row>, shuffle: Shuffle, scenario: string)
    requires Permutes(shuffle) && |RunsIn(benign, scenario)| >= 5
    ensures var runs := shuffle(scenario, SortedTexts(RunsIn(benign, scenario)));
      |runs| >= 5 && CutScenario(benign, shuffle, scenario) == Done(Cut(runs))
  {
    hide Cut, RunsIn;
    var runs := SortedTexts(RunsIn(benign, scenario));
    DistinctCount(runs, RunsIn(benign, scenario));
    assert |multiset(shuffle(scenario, runs))| == |multiset(runs)|;
    CutPoints(|runs|);
  }

  lemma {:induction false} BiasedCut(benign: seq<Row>, run: string, scenario: string, other: string)
    requires run in RunsIn(benign, scenario) && run in RunsIn(benign, other) && scenario != other
    requires |RunsIn(benign, scenario)| >= 5 && |RunsIn(benign, other)| >= 5
    ensures Permutes(Biased(run, scenario))
    ensures CutScenario(benign, Biased(run, scenario), scenario).Done?
    ensures CutScenario(benign, Biased(run, scenario), other).Done?
    ensures run in CutScenario(benign, Biased(run, scenario), scenario).value.train
    ensures run in CutScenario(benign, Biased(run, scenario), other).value.test
  {
    hide RunsIn, Cut, CutScenario, Permutes;
    var shuffle := Biased(run, scenario);
    BiasedPermutes(run, scenario);
    CutOfShuffle(benign, shuffle, scenario);
    CutOfShuffle(benign, shuffle, other);
    EndsOfCut(shuffle(scenario, SortedTexts(RunsIn(benign, scenario))));
    EndsOfCut(shuffle(other, SortedTexts(RunsIn(benign, other))));
  }

  lemma {:induction false} CutStays(benign: seq<Row>, shuffle: Shuffle, scenarios: seq<string>, scenario: string)
    requires Permutes(shuffle) && Assigned(benign, shuffle, scenarios).Done? && scenario in scenarios
    ensures CutScenario(benign, shuffle, scenario).Done?
    ensures CutScenario(benign, shuffle, scenario).value.train <= Assigned(benign, shuffle, scenarios).value.train
    ensures CutScenario(benign, shuffle, scenario).value.test <= Assigned(benign, shuffle, scenarios).value.test
  {
    hide CutScenario, Permutes;
    if scenario != scenarios[|scenarios| - 1] {
      CutStays(benign, shuffle, scenarios[..|scenarios| - 1], scenario);
    }
  }

  lemma {:induction false} SharedRunCanSplit(rows: seq<Row>, scenarios: Option<set<string>>, a: Row, b: Row)
    requires a in Benign(rows) && b in Benign(rows) && a.run == b.run && a.scenario != b.scenario
    requires scenarios.Some? ==> scenarios.value == Scenarios(Benign(rows))
    requires forall scenario | scenario in Scenarios(Benign(rows)) :: |RunsIn(Benign(rows), scenario)| >= 5
    ensures Permutes(Biased(a.run, a.scenario))
    ensures var split := Stratified(rows, Biased(a.run, a.scenario), scenarios);
      split.Done? && !NoRunSplit(split.value)
  {
    hide Assigned, CutScenario, Permutes, Biased, Benign;
    var benign, shuffle := Benign(rows), Biased(a.run, a.scenario);
    var order := SortedTexts(Scenarios(benign));
    BiasedCut(benign, a.run, a.scenario, b.scenario);
    StratifiedKeepsRunsWhole(rows, shuffle, scenarios);
    var ids := Assigned(benign, shuffle, order).value;
    CutStays(benign, shuffle, order, a.scenario);
    CutStays(benign, shuffle, order, b.scenario);
    assert a in Chosen(benign, ids.train) && b in Chosen(benign, ids.test);
    assert a.run in Runs(Chosen(benign, ids.train)) && a.run in Runs(Chosen(benign, ids.test));
  }

  ghost predicate SplitsNoRun(rows: seq<Row>, shuffle: Shuffle, scenarios: Option<set<string>>)
    requires Permutes(shuffle)
  {
    Stratified(rows, shuffle, scenarios).Done? ==> NoRunSplit(Stratified(rows, shuffle, scenarios).value)
  }

  /** No shuffle leaks a run between parts exactly when each benign run is recorded under one scenario. */
  lemma {:induction false} NoLeakIffOneScenarioPerRun(rows: seq<Row>, scenarios: Option<set<string>>)
    requires Splittable(rows, scenarios)
    ensures OneScenarioPerRun(Benign(rows)) <==>
      forall shuffle | Permutes(shuffle) :: SplitsNoRun(rows, shuffle, scenarios)
  {
    hide Stratified, NoRunSplit, Permutes, Biased, RunsIn, Benign;
    if OneScenarioPerRun(Benign(rows)) {
      forall shuffle | Permutes(shuffle) ensures SplitsNoRun(rows, shuffle, scenarios) {
        StratifiedKeepsRunsWhole(rows, shuffle, scenarios);
      }
    } else {
      var a, b :| a in Benign(rows) && b in Benign(rows) && a.run == b.run && a.scenario != b.scenario;
      SharedRunCanSplit(rows, scenarios, a, b);
      assert !SplitsNoRun(rows, Biased(a.run, a.scenario), scenarios);
    }
  }
}
