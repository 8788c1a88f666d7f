/**
 * Concrete runs of the reconcile loop: the expected behaviour for one day's
 * record, and the two inputs on which a second run over the same data still
 * writes.
 */
module Scenarios {
  import opened Optional
  import opened Conversion
  import opened Entries
  import opened Reconciler

  const Day: string := "2024-06-01"

  /** One record, no row for its date: one create with the converted values. */
  lemma FreshRecordIsCreated()
    ensures var rec := WeightRecord(Some(Day), Some(72300.0), Some(22.1), Some(18.4));
      var props := map[DateKey := Title(Day), KgKey := Number(Some(72.3)), LbsKey := Number(Some(159.4)),
                       BmiKey := Number(Some(22.1)), BodyFatKey := Number(Some(18.4))];
      Writes(map[], [rec]) == [CreatePage(props)] && Run(map[], [rec]) == map[Day := [props]]
  {
    var rec := WeightRecord(Some(Day), Some(72300.0), Some(22.1), Some(18.4));
    assert RoundHalfEven(7230.0) == 7230;
    assert RoundHalfEven(1593.94026) == 1594;
    assert RoundHalfEven(221.0) == 221;
    assert RoundHalfEven(184.0) == 184;
    assert WrittenKg(rec.weight) == Some(72.3);
    assert KgToLbs(Some(72.3)) == Some(159.4);
    assert [] + [rec] == [rec];
    RunSnoc(map[], [], rec);
    assert TitleOf(CreateProperties(rec)) == Day;
    assert Run(map[], [rec]) == Apply(map[], CreatePage(CreateProperties(rec)));
    var props := CreateProperties(rec);
    assert RowsAt(map[], Day) + [props] == [props];
    assert Apply(map[], CreatePage(props)) == map[][Day := [props]] == map[Day := [props]];
  }

  /** The same record against a row that already holds 72.3 kg: nothing is written. */
  lemma MatchingRowIsLeftAlone(row: Properties)
    requires KgKey in row && row[KgKey] == Number(Some(72.3))
    ensures var rec := WeightRecord(Some(Day), Some(72300.0), Some(22.1), Some(18.4));
      Writes(map[Day := [row]], [rec]) == [] && Run(map[Day := [row]], [rec]) == map[Day := [row]]
  {
    var rec := WeightRecord(Some(Day), Some(72300.0), Some(22.1), Some(18.4));
    assert RoundHalfEven(7230.0) == 7230;
    assert ComparedKg(rec.weight) == Some(72.3);
    assert [] + [rec] == [rec];
    RunSnoc(map[Day := [row]], [], rec);
    assert Decide(map[Day := [row]], rec) == UpToDate;
  }

  /** The change check on 70500 g: equal to a stored 70.5, different from a stored 70.4. */
  lemma ChangeCheckExamples(row: Properties)
    ensures var rec := WeightRecord(Some(Day), Some(70500.0), None, None);
      !NeedsUpdate(row[KgKey := Number(Some(70.5))], rec) && NeedsUpdate(row[KgKey := Number(Some(70.4))], rec)
  {
    assert RoundHalfEven(7050.0) == 7050;
  }

  /** A zero weight: the first run creates a row without kilograms, the second run updates it. */
  lemma ZeroWeightBreaksIdempotence()
    ensures var rec := WeightRecord(Some(Day), Some(0.0), None, None);
      Writes(Run(map[], [rec]), [rec]) == [UpdatePage(Day, UpdateProperties(rec))]
  {
    var rec := WeightRecord(Some(Day), Some(0.0), None, None);
    assert [] + [rec] == [rec];
    RunSnoc(map[], [], rec);
    ZeroWeightIsRewrittenEveryRun(map[], rec);
    RunSnoc(Run(map[], [rec]), [], rec);
  }

  /**
   * Two weigh-ins on the same day: the first run creates the row and overwrites
   * it with the second weight; every later run writes the first weight back and
   * then the second.
   */
  lemma SameDayWeighInsBreakIdempotence()
    ensures var first := WeightRecord(Some(Day), Some(72300.0), None, None);
      var second := WeightRecord(Some(Day), Some(72500.0), None, None);
      Writes(Run(map[], [first, second]), [first, second]) ==
        [UpdatePage(Day, UpdateProperties(first)), UpdatePage(Day, UpdateProperties(second))]
  {
    var first := WeightRecord(Some(Day), Some(72300.0), None, None);
    var second := WeightRecord(Some(Day), Some(72500.0), None, None);
    assert RoundHalfEven(7230.0) == 7230;
    assert RoundHalfEven(7250.0) == 7250;
    assert ComparedKg(first.weight) == Some(72.3);
    assert ComparedKg(second.weight) == Some(72.5);
    RunSnoc(map[], [], first);
    assert [] + [first] == [first];
    RunSnoc(map[], [first], second);
    assert [first] + [second] == [first, second];
    var t1 := Run(map[], [first, second]);
    assert StoredKg(Lookup(t1, Day).value) == Some(72.5);
    RunSnoc(t1, [], first);
    var t2 := Run(t1, [first]);
    assert StoredKg(Lookup(t2, Day).value) == Some(72.3);
    RunSnoc(t1, [first], second);
    assert Writes(t1, [first]) == [UpdatePage(Day, UpdateProperties(first))];
  }
}
