/** How many runs each part of a split gets. */
module SplitSizes {
  import opened Wrappers
  import opened Split

  /** Three fifths of the runs, the next fifth, and the rest, each rounded down at its end. */
  predicate InProportion(train: set<string>, validation: set<string>, test: set<string>, n: nat) {
    |train| == 3 * n / 5 && |validation| == 4 * n / 5 - 3 * n / 5 && |test| == n - 4 * n / 5
  }

  lemma {:induction false} CountOfTexts(texts: seq<string>)
    requires Distinct(texts)
    ensures |Texts(texts)| == |texts|
  {
    DistinctCount(texts, Texts(texts));
  }

  lemma {:induction false} CutInProportion(runs: seq<string>, shuffled: seq<string>)
    requires Distinct(runs) && multiset(shuffled) == multiset(runs) && |runs| >= 5
    ensures |shuffled| == |runs|
    ensures InProportion(Cut(shuffled).train, Cut(shuffled).validation, Cut(shuffled).test, |runs|)
  {
    hide TrainEnd, ValidationEnd;
    assert |multiset(shuffled)| == |multiset(runs)|;
    DistinctIsOnce(runs);
    OnceIsDistinct(shuffled);
    CutPoints(|shuffled|);
    var a, b := TrainEnd(|shuffled|), ValidationEnd(|shuffled|);
    CountOfTexts(shuffled[..a]);
    CountOfTexts(shuffled[a..b]);
    CountOfTexts(shuffled[b..]);
  }

  // ----- the split by runs

  lemma {:induction false} RunsOfChosen(benign: seq<Row>, ids: set<string>)
    requires ids <= Runs(benign)
    ensures Runs(Chosen(benign, ids)) == ids
  {
    forall run | run in ids ensures run in Runs(Chosen(benign, ids)) {
      assert run in Runs(benign);
      var row :| row in benign && row.run == run;
      assert row in Chosen(benign, ids);
    }
  }

  /** Of n benign runs, 3n/5 are for training, those up to 4n/5 for validation, and the rest for testing. */
  lemma {:induction false} SplitInProportion(rows: seq<Row>, shuffle: seq<string> -> seq<string>)
    requires forall runs :: multiset(shuffle(runs)) == multiset(runs)
    requires SplitBenignRuns(rows, shuffle).Done?
    ensures var parts := SplitBenignRuns(rows, shuffle).value;
      InProportion(Runs(parts.train), Runs(parts.validation), Runs(parts.test), |Runs(Benign(rows))|)
  {
    hide Cut, Benign, Chosen, Runs, InProportion, Disjoint;
    var benign := Benign(rows);
    var runs := SortedTexts(Runs(benign));
    DistinctCount(runs, Runs(benign));
    CutInProportion(runs, shuffle(runs));
    CutIsPartition(runs, shuffle(runs));
    var ids := Cut(shuffle(runs));
    assert All(ids) == Runs(benign);
    RunsOfChosen(benign, ids.train);
    RunsOfChosen(benign, ids.validation);
    RunsOfChosen(benign, ids.test);
  }

  lemma {:induction false} CutInTurn(shuffled: seq<string>, k: nat)
    requires Distinct(shuffled) && |shuffled| >= 5 && k < |shuffled|
    ensures var n := |shuffled|;
      && (shuffled[k] in Cut(shuffled).train <==> k < 3 * n / 5)
      && (shuffled[k] in Cut(shuffled).validation <==> 3 * n / 5 <= k < 4 * n / 5)
      && (shuffled[k] in Cut(shuffled).test <==> 4 * n / 5 <= k)
  {
    hide TrainEnd, ValidationEnd;
    CutPoints(|shuffled|);
    var a, b := TrainEnd(|shuffled|), ValidationEnd(|shuffled|);
    assert k < a ==> shuffled[k] == shuffled[..a][k];
    assert a <= k < b ==> shuffled[k] == shuffled[a..b][k - a];
    assert b <= k ==> shuffled[k] == shuffled[b..][k - b];
  }

  /** The parts follow the shuffled order: its first runs train, the next validate, the last test. */
  lemma {:induction false} PartsFollowTheShuffle(rows: seq<Row>, shuffle: seq<string> -> seq<string>, k: nat)
    requires forall runs :: multiset(shuffle(runs)) == multiset(runs)
    requires SplitBenignRuns(rows, shuffle).Done? && k < |shuffle(SortedTexts(Runs(Benign(rows))))|
    ensures var parts, shuffled := SplitBenignRuns(rows, shuffle).value, shuffle(SortedTexts(Runs(Benign(rows))));
      var n := |shuffled|;
      && (shuffled[k] in Runs(parts.train) <==> k < 3 * n / 5)
      && (shuffled[k] in Runs(parts.validation) <==> 3 * n / 5 <= k < 4 * n / 5)
      && (shuffled[k] in Runs(parts.test) <==> 4 * n / 5 <= k)
  {
    hide Cut, Benign, Chosen, Runs, Disjoint;
    var benign := Benign(rows);
    var runs := SortedTexts(Runs(benign));
    assert |multiset(shuffle(runs))| == |multiset(runs)|;
    CutIsPartition(runs, shuffle(runs));
    DistinctCount(runs, Runs(benign));
    DistinctIsOnce(runs);
    OnceIsDistinct(shuffle(runs));
    CutInTurn(shuffle(runs), k);
    var ids := Cut(shuffle(runs));
    assert All(ids) == Runs(benign);
    RunsOfChosen(benign, ids.train);
    RunsOfChosen(benign, ids.validation);
    RunsOfChosen(benign, ids.test);
  }

  // ----- the stratified split

  lemma {:induction false} RunsInChosen(benign: seq<Row>, ids: set<string>, scenario: string)
    ensures RunsIn(Chosen(benign, ids), scenario) == ids * RunsIn(benign, scenario)
  {
    forall run | run in ids * RunsIn(benign, scenario) ensures run in RunsIn(Chosen(benign, ids), scenario) {
      var row :| row in benign && row.scenario == scenario && row.run == run;
      assert row in Chosen(benign, ids);
    }
  }

  lemma {:induction false} ScenariosShareNoRun(benign: seq<Row>, a: string, b: string)
    requires OneScenarioPerRun(benign) && a != b
    ensures RunsIn(benign, a) !! RunsIn(benign, b)
  {
  }

  /** What the assignment holds of one scenario's runs is that scenario's own cut. */
  ghost predicate HoldsCut(benign: seq<Row>, shuffle: Shuffle, scenario: string, ids: Ids)
    requires Permutes(shuffle)
  {
    var runs, cut := RunsIn(benign, scenario), CutScenario(benign, shuffle, scenario);
    && cut.Done?
    && ids.train * runs == cut.value.train && ids.validation * runs == cut.value.validation
    && ids.test * runs == cut.value.test
  }

  ghost predicate HoldsNothing(benign: seq<Row>, scenario: string, ids: Ids) {
    All(ids) !! RunsIn(benign, scenario)
  }

  lemma {:induction false} AssignedHolds(benign: seq<Row>, shuffle: Shuffle, scenarios: seq<string>, scenario: string)
    requires Permutes(shuffle) && OneScenarioPerRun(benign) && Distinct(scenarios)
    requires Assigned(benign, shuffle, scenarios).Done?
    ensures var ids := Assigned(benign, shuffle, scenarios).value;
      if scenario in scenarios then HoldsCut(benign, shuffle, scenario, ids) else HoldsNothing(benign, scenario, ids)
  {
    hide CutScenario, RunsIn, OneScenarioPerRun, Permutes;
    if scenarios != [] {
      var before, last := scenarios[..|scenarios| - 1], scenarios[|scenarios| - 1];
      assert scenario in scenarios <==> scenario in before || scenario == last;
      assert last !in before;
      hide Distinct, HoldsCut, HoldsNothing, Joined;
      AssignedHolds(benign, shuffle, before, scenario);
      ScenarioIsCut(benign, shuffle, last);
      if scenario != last {
        ScenariosShareNoRun(benign, scenario, last);
      }
      JoinedHolds(benign, shuffle, scenario, last, Assigned(benign, shuffle, before).value);
    }
  }

  lemma {:induction false} JoinedHolds(benign: seq<Row>, shuffle: Shuffle, scenario: string, last: string, ids: Ids)
    requires Permutes(shuffle) && CutScenario(benign, shuffle, last).Done?
    requires All(CutScenario(benign, shuffle, last).value) == RunsIn(benign, last)
    requires scenario != last ==> RunsIn(benign, scenario) !! RunsIn(benign, last)
    ensures var joined := Joined(ids, CutScenario(benign, shuffle, last).value);
      if scenario == last then HoldsNothing(benign, scenario, ids) ==> HoldsCut(benign, shuffle, scenario, joined)
      else
        && (HoldsNothing(benign, scenario, ids) ==> HoldsNothing(benign, scenario, joined))
        && (HoldsCut(benign, shuffle, scenario, ids) ==> HoldsCut(benign, shuffle, scenario, joined))
  {
    hide CutScenario, RunsIn, Permutes;
    var runs, cut := RunsIn(benign, scenario), CutScenario(benign, shuffle, last).value;
    assert (ids.train + cut.train) * runs == ids.train * runs + cut.train * runs;
    assert (ids.validation + cut.validation) * runs == ids.validation * runs + cut.validation * runs;
    assert (ids.test + cut.test) * runs == ids.test * runs + cut.test * runs;
    if scenario == last {
      assert cut.train * runs == cut.train && cut.validation * runs == cut.validation && cut.test * runs == cut.test;
    }
  }

  lemma {:induction false} ScenarioCutInProportion(benign: seq<Row>, shuffle: Shuffle, scenario: string)
    requires Permutes(shuffle) && CutScenario(benign, shuffle, scenario).Done?
    ensures var cut := CutScenario(benign, shuffle, scenario).value;
      InProportion(cut.train, cut.validation, cut.test, |RunsIn(benign, scenario)|)
  {
    hide RunsIn, Cut, InProportion;
    var runs := SortedTexts(RunsIn(benign, scenario));
    DistinctCount(runs, RunsIn(benign, scenario));
    CutOfShuffle(benign, shuffle, scenario);
    CutInProportion(runs, shuffle(scenario, runs));
  }

  /** With one scenario per run, the runs of every scenario are shared out in these proportions. */
  lemma {:induction false} StratifiedInProportion(
    rows: seq<Row>, shuffle: Shuffle, scenarios: Option<set<string>>, scenario: string)
    requires Permutes(shuffle) && OneScenarioPerRun(Benign(rows)) && scenario in Scenarios(Benign(rows))
    requires Stratified(rows, shuffle, scenarios).Done?
    ensures var parts := Stratified(rows, shuffle, scenarios).value;
      InProportion(RunsIn(parts.train, scenario), RunsIn(parts.validation, scenario), RunsIn(parts.test, scenario),
                   |RunsIn(Benign(rows), scenario)|)
  {
    hide Assigned, CutScenario, RunsIn, Chosen, OneScenarioPerRun, Permutes, Benign, InProportion;
    var benign := Benign(rows);
    var order := SortedTexts(Scenarios(benign));
    AssignedHolds(benign, shuffle, order, scenario);
    var ids := Assigned(benign, shuffle, order).value;
    ScenarioCutInProportion(benign, shuffle, scenario);
    RunsInChosen(benign, ids.train, scenario);
    RunsInChosen(benign, ids.validation, scenario);
    RunsInChosen(benign, ids.test, scenario);
  }
}
