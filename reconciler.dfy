/**
 * The reconcile loop of weight.py's main, as functions over an abstract table:
 * for each fetched record, skip it (no usable date), create a row (no row for
 * its date), update the first matching row (stored kilograms differ), or do
 * nothing. Run, Writes and Queries give the table, the writes issued and the
 * lookups issued after processing a sequence of records.
 */
module Reconciler {
  import opened Optional
  import opened Conversion
  import opened Entries

  /** Date string to the rows a Date-equality query returns, in query order. */
  type Table = map<string, seq<Properties>>

  /** A write sent to the database. An update addresses the first row of its date. */
  datatype Write = CreatePage(props: Properties) | UpdatePage(date: string, props: Properties)

  /** The date whose rows a write changes. */
  function Target(w: Write): string
  {
    if w.CreatePage? then TitleOf(w.props) else w.date
  }

  /** What the loop does with one record. */
  datatype Decision = Skipped | UpToDate | Issue(write: Write)

  function RowsAt(t: Table, date: string): seq<Properties>
  {
    if date in t then t[date] else []
  }

  /** weight_entry_exists: the first row the query returns, or None. */
  function Lookup(t: Table, date: string): (r: Option<Properties>)
    ensures r.None? <==> RowsAt(t, date) == []
    ensures r.Some? ==> r.value == RowsAt(t, date)[0]
  {
    if |RowsAt(t, date)| > 0 then Some(RowsAt(t, date)[0]) else None
  }

  /** Every row is filed under its own Date title. */
  ghost predicate Indexed(t: Table)
  {
    forall date, i :: date in t && 0 <= i < |t[date]| ==> TitleOf(t[date][i]) == date
  }

  /** The per-record decision of the loop in main. */
  function Decide(t: Table, rec: WeightRecord): (d: Decision)
    ensures d.Skipped? <==> EntryDate(rec).None?
    ensures d.Issue? && d.write.UpdatePage? ==> Lookup(t, d.write.date).Some?
  {
    match EntryDate(rec)
    case None => Skipped
    case Some(date) =>
      match Lookup(t, date)
      case None => Issue(CreatePage(CreateProperties(rec)))
      case Some(existing) =>
        if NeedsUpdate(existing, rec) then Issue(UpdatePage(date, UpdateProperties(rec))) else UpToDate
  }

  /**
   * The database's effect of a write: a create files a new row under its Date
   * title; an update merges its properties into the first row of its date.
   * No other date, and no other row, changes.
   */
  function Apply(t: Table, w: Write): (t': Table)
    requires w.UpdatePage? ==> Lookup(t, w.date).Some?
    ensures w.CreatePage? ==> RowsAt(t', TitleOf(w.props)) == RowsAt(t, TitleOf(w.props)) + [w.props]
    ensures w.UpdatePage? ==>
      |RowsAt(t', w.date)| == |RowsAt(t, w.date)| &&
      RowsAt(t', w.date)[0] == RowsAt(t, w.date)[0] + w.props &&
      RowsAt(t', w.date)[1..] == RowsAt(t, w.date)[1..]
    ensures forall date :: date != Target(w) ==> RowsAt(t', date) == RowsAt(t, date)
  {
    match w
    case CreatePage(props) =>
      var date := TitleOf(props);
      t[date := RowsAt(t, date) + [props]]
    case UpdatePage(date, props) =>
      t[date := [t[date][0] + props] + t[date][1..]]
  }

  /** The table after one record. */
  function Step(t: Table, rec: WeightRecord): Table
  {
    match Decide(t, rec)
    case Issue(w) => Apply(t, w)
    case _ => t
  }

  function WritesOf(d: Decision): seq<Write>
  {
    if d.Issue? then [d.write] else []
  }

  function DatesOf(rec: WeightRecord): seq<string>
  {
    match EntryDate(rec)
    case Some(date) => [date]
    case None => []
  }

  /**
   * The table after processing the records in order. No row is ever deleted,
   * and a date that no record looked up keeps its rows.
   */
  function Run(t: Table, recs: seq<WeightRecord>): (t': Table)
    ensures forall date :: |RowsAt(t', date)| >= |RowsAt(t, date)|
    ensures forall date :: date !in Queries(recs) ==> RowsAt(t', date) == RowsAt(t, date)
  {
    if recs == [] then t
    else
      var prev, last := Run(t, recs[..|recs| - 1]), recs[|recs| - 1];
      DecisionCases(prev, last);
      Step(prev, last)
  }

  /** The writes issued while processing the records, in order; each targets a date that was looked up. */
  function Writes(t: Table, recs: seq<WeightRecord>): (ws: seq<Write>)
    ensures forall w :: w in ws ==> Target(w) in Queries(recs)
  {
    if recs == [] then []
    else
      var prev, last := Run(t, recs[..|recs| - 1]), recs[|recs| - 1];
      DecisionCases(prev, last);
      Writes(t, recs[..|recs| - 1]) + WritesOf(Decide(prev, last))
  }

  /** The lookups issued while processing the records, in order: one non-empty date per dated record. */
  function Queries(recs: seq<WeightRecord>): (q: seq<string>)
    ensures |q| <= |recs|
    ensures forall date :: date in q ==> date != ""
  {
    if recs == [] then [] else Queries(recs[..|recs| - 1]) + DatesOf(recs[|recs| - 1])
  }

  // ----- one record -----

  /**
   * A dated record is looked up once; it leads to exactly one create when no
   * row has its date and to none otherwise, the create being filed under the
   * record's date; it leads to an update exactly when a row exists and its
   * stored kilograms differ from the fresh ones.
   */
  lemma DecisionCases(t: Table, rec: WeightRecord)
    ensures EntryDate(rec).None? ==> Decide(t, rec) == Skipped && Step(t, rec) == t && DatesOf(rec) == []
    ensures EntryDate(rec).Some? ==> DatesOf(rec) == [EntryDate(rec).value]
    ensures (Decide(t, rec).Issue? && Decide(t, rec).write.CreatePage?) <==>
      EntryDate(rec).Some? && Lookup(t, EntryDate(rec).value).None?
    ensures Decide(t, rec).Issue? && Decide(t, rec).write.CreatePage? ==>
      Decide(t, rec).write.props == CreateProperties(rec) &&
      TitleOf(Decide(t, rec).write.props) == EntryDate(rec).value
    ensures (Decide(t, rec).Issue? && Decide(t, rec).write.UpdatePage?) <==>
      EntryDate(rec).Some? && Lookup(t, EntryDate(rec).value).Some? &&
      StoredKg(Lookup(t, EntryDate(rec).value).value) != ComparedKg(rec.weight)
    ensures Decide(t, rec).Issue? && Decide(t, rec).write.UpdatePage? ==>
      Decide(t, rec) == Issue(UpdatePage(EntryDate(rec).value, UpdateProperties(rec)))
    ensures |WritesOf(Decide(t, rec))| <= |DatesOf(rec)|
  {
  }

  /** Writes keep every row filed under its own Date title. */
  lemma StepPreservesIndexed(t: Table, rec: WeightRecord)
    requires Indexed(t)
    ensures Indexed(Step(t, rec))
  {
    var t' := Step(t, rec);
    match Decide(t, rec)
    case Issue(CreatePage(props)) =>
      forall date, i | date in t' && 0 <= i < |t'[date]| ensures TitleOf(t'[date][i]) == date {
        assert RowsAt(t', date) == t'[date];
        if date != TitleOf(props) {
          assert t'[date] == t[date];
        }
      }
    case Issue(UpdatePage(date0, props)) =>
      forall date, i | date in t' && 0 <= i < |t'[date]| ensures TitleOf(t'[date][i]) == date {
        assert RowsAt(t', date) == t'[date];
        if date != date0 {
          assert t'[date] == t[date];
        } else if i == 0 {
          UpdateKeepsTitle(t[date][0], rec);
        } else {
          assert t'[date][i] == t'[date][1..][i - 1] == t[date][1..][i - 1];
        }
      }
    case _ =>
  }

  // ----- whole runs -----

  lemma {:induction false} RunPreservesIndexed(t: Table, recs: seq<WeightRecord>)
    requires Indexed(t)
    ensures Indexed(Run(t, recs))
  {
    if recs != [] {
      RunPreservesIndexed(t, recs[..|recs| - 1]);
      StepPreservesIndexed(Run(t, recs[..|recs| - 1]), recs[|recs| - 1]);
    }
  }

  /** The dates looked up are exactly those of the dated records. */
  lemma {:induction false} QueriedDates(recs: seq<WeightRecord>)
    ensures forall d :: d in Queries(recs) <==> exists i :: 0 <= i < |recs| && EntryDate(recs[i]) == Some(d)
  {
    if recs != [] {
      var init, last := recs[..|recs| - 1], recs[|recs| - 1];
      QueriedDates(init);
      assert Queries(recs) == Queries(init) + DatesOf(last);
      forall d ensures d in Queries(recs) <==> exists i :: 0 <= i < |recs| && EntryDate(recs[i]) == Some(d) {
        if d in Queries(init) {
          var i :| 0 <= i < |init| && EntryDate(init[i]) == Some(d);
          assert recs[i] == init[i];
        }
        if exists i :: 0 <= i < |recs| && EntryDate(recs[i]) == Some(d) {
          var i :| 0 <= i < |recs| && EntryDate(recs[i]) == Some(d);
          if i < |init| {
            assert init[i] == recs[i];
          }
        }
      }
    }
  }

  /** A run issues at most one write per lookup. */
  lemma {:induction false} WritesAtMostLookups(t: Table, recs: seq<WeightRecord>)
    ensures |Writes(t, recs)| <= |Queries(recs)|
  {
    if recs != [] {
      var init, last := recs[..|recs| - 1], recs[|recs| - 1];
      WritesAtMostLookups(t, init);
      DecisionCases(Run(t, init), last);
    }
  }

  /** The dates looked up are those of the dated records; a run issues no more writes than lookups. */
  lemma QueriesAndWritesPerRecord(t: Table, recs: seq<WeightRecord>)
    ensures forall d :: d in Queries(recs) <==> exists i :: 0 <= i < |recs| && EntryDate(recs[i]) == Some(d)
    ensures |Writes(t, recs)| <= |Queries(recs)| <= |recs|
  {
    QueriedDates(recs);
    WritesAtMostLookups(t, recs);
  }

  lemma PrefixSnoc(recs: seq<WeightRecord>, i: nat)
    requires i < |recs|
    ensures recs[..i + 1] == recs[..i] + [recs[i]]
  {
  }

  /** Appending one record adds one step, its writes and its lookup. */
  lemma RunSnoc(t: Table, recs: seq<WeightRecord>, rec: WeightRecord)
    ensures Run(t, recs + [rec]) == Step(Run(t, recs), rec)
    ensures Writes(t, recs + [rec]) == Writes(t, recs) + WritesOf(Decide(Run(t, recs), rec))
    ensures Queries(recs + [rec]) == Queries(recs) + DatesOf(rec)
  {
    assert (recs + [rec])[..|recs + [rec]| - 1] == recs;
  }

  lemma SplitLast(a: seq<WeightRecord>, b: seq<WeightRecord>, c: seq<WeightRecord>)
    requires c != []
    ensures a + b + c == (a + b + c[..|c| - 1]) + [c[|c| - 1]]
  {
    assert c == c[..|c| - 1] + [c[|c| - 1]];
  }

  /** Processing a record without a usable date leaves everything as it was. */
  lemma UndatedStepIsQuiet(t: Table, before: seq<WeightRecord>, rec: WeightRecord)
    requires EntryDate(rec).None?
    ensures Run(t, before + [rec]) == Run(t, before)
    ensures Writes(t, before + [rec]) == Writes(t, before)
    ensures Queries(before + [rec]) == Queries(before)
  {
    RunSnoc(t, before, rec);
    DecisionCases(Run(t, before), rec);
  }

  /**
   * A record without a usable date changes nothing: the run with it and the
   * run without it leave the same table, issue the same writes and the same
   * lookups, and the records after it are still processed.
   */
  lemma {:induction false} UndatedRecordIsIgnored(t: Table, before: seq<WeightRecord>, rec: WeightRecord, after: seq<WeightRecord>)
    requires EntryDate(rec).None?
    ensures Run(t, before + [rec] + after) == Run(t, before + after)
    ensures Writes(t, before + [rec] + after) == Writes(t, before + after)
    ensures Queries(before + [rec] + after) == Queries(before + after)
  {
    if after == [] {
      assert before + [rec] + after == before + [rec];
      assert before + after == before;
      UndatedStepIsQuiet(t, before, rec);
    } else {
      var init, last := after[..|after| - 1], after[|after| - 1];
      var with, without := before + [rec] + init, before + init;
      UndatedRecordIsIgnored(t, before, rec, init);
      SplitLast(before, [rec], after);
      SplitLast(before, [], after);
      assert before + [] == before;
      RunSnoc(t, with, last);
      RunSnoc(t, without, last);
    }
  }

  function CountRows(t: Table, date: string): nat
  {
    |RowsAt(t, date)|
  }

  /**
   * A run never files a second row under a date: a date gains exactly one row
   * when it had none and some record carries it, and otherwise keeps its count.
   */
  lemma {:induction false} RunCreatesAtMostOneRowPerDate(t: Table, recs: seq<WeightRecord>, date: string)
    ensures CountRows(Run(t, recs), date) ==
      if CountRows(t, date) == 0 && date in Queries(recs) then 1 else CountRows(t, date)
  {
    if recs != [] {
      var init, last := recs[..|recs| - 1], recs[|recs| - 1];
      RunCreatesAtMostOneRowPerDate(t, init, date);
      var t1 := Run(t, init);
      DecisionCases(t1, last);
      assert Queries(recs) == Queries(init) + DatesOf(last);
    }
  }

  // ----- idempotence -----

  /**
   * Records that share a usable date carry the same kilograms once rounded;
   * records of pairwise different dates satisfy this trivially.
   */
  ghost predicate SameDateSameKg(recs: seq<WeightRecord>)
  {
    forall i, j :: 0 <= i < |recs| && 0 <= j < |recs| && EntryDate(recs[i]).Some? && EntryDate(recs[i]) == EntryDate(recs[j]) ==>
      WrittenKg(recs[i].weight) == WrittenKg(recs[j].weight)
  }

  /** No record carries a weight of zero. */
  ghost predicate NoZeroWeight(recs: seq<WeightRecord>)
  {
    forall i :: 0 <= i < |recs| ==> recs[i].weight != Some(0.0)
  }

  /** Processing the record again against t would write nothing. */
  ghost predicate Settled(t: Table, rec: WeightRecord)
  {
    Decide(t, rec) == Skipped || Decide(t, rec) == UpToDate
  }

  /** After its own step, a record whose weight is not zero is settled. */
  lemma StepSettles(t: Table, rec: WeightRecord)
    requires rec.weight != Some(0.0)
    ensures Settled(Step(t, rec), rec)
  {
    if EntryDate(rec).Some? {
      var date := EntryDate(rec).value;
      var t' := Step(t, rec);
      DecisionCases(t, rec);
      match Lookup(t, date)
      case None =>
        WrittenRowIsUpToDate(CreateProperties(rec), rec);
        assert Lookup(t', date) == Some(CreateProperties(rec));
      case Some(existing) =>
        WrittenRowIsUpToDate(existing, rec);
        if NeedsUpdate(existing, rec) {
          assert Lookup(t', date) == Some(existing + UpdateProperties(rec));
        }
    }
  }

  /** A step for one date does not unsettle a record of another date. */
  lemma StepKeepsOtherDatesSettled(t: Table, rec: WeightRecord, other: WeightRecord)
    requires Settled(t, other)
    requires EntryDate(rec).Some? && EntryDate(other) != EntryDate(rec)
    ensures Settled(Step(t, rec), other)
  {
    if EntryDate(other).Some? {
      DecisionCases(t, rec);
      assert Lookup(Step(t, rec), EntryDate(other).value) == Lookup(t, EntryDate(other).value);
    }
  }

  /**
   * A step for a record of the same date and the same rounded kilograms leaves
   * the other record settled: the first row then stores exactly those kilograms.
   */
  lemma StepKeepsSameDateSettled(t: Table, rec: WeightRecord, other: WeightRecord)
    requires rec.weight != Some(0.0) && other.weight != Some(0.0)
    requires EntryDate(rec).Some? && EntryDate(other) == EntryDate(rec)
    requires WrittenKg(rec.weight) == WrittenKg(other.weight)
    ensures Settled(Step(t, rec), other)
  {
    var t' := Step(t, rec);
    StepSettles(t, rec);
    DecisionCases(t', rec);
    DecisionCases(t', other);
  }

  /**
   * After a run over records with no zero weight, where records of one date
   * agree on their rounded kilograms, every record is settled.
   */
  lemma {:induction false} RunSettlesAll(t: Table, recs: seq<WeightRecord>)
    requires SameDateSameKg(recs) && NoZeroWeight(recs)
    ensures forall i :: 0 <= i < |recs| ==> Settled(Run(t, recs), recs[i])
  {
    if recs != [] {
      var init, last := recs[..|recs| - 1], recs[|recs| - 1];
      assert SameDateSameKg(init) && NoZeroWeight(init) by {
        forall i | 0 <= i < |init| ensures init[i] == recs[i] { }
      }
      RunSettlesAll(t, init);
      var t1 := Run(t, init);
      StepSettles(t1, last);
      forall i | 0 <= i < |recs| ensures Settled(Run(t, recs), recs[i]) {
        if i < |init| {
          assert recs[i] == init[i];
          if EntryDate(last).Some? && EntryDate(recs[i]) == EntryDate(last) {
            StepKeepsSameDateSettled(t1, last, recs[i]);
          } else if EntryDate(last).Some? {
            StepKeepsOtherDatesSettled(t1, last, recs[i]);
          } else {
            DecisionCases(t1, last);
          }
        }
      }
    }
  }

  /** A run over records that are all settled writes nothing and changes nothing. */
  lemma {:induction false} SettledRunIsQuiet(t: Table, recs: seq<WeightRecord>)
    requires forall i :: 0 <= i < |recs| ==> Settled(t, recs[i])
    ensures Run(t, recs) == t
    ensures Writes(t, recs) == []
  {
    if recs != [] {
      var init := recs[..|recs| - 1];
      assert forall i :: 0 <= i < |init| ==> init[i] == recs[i];
      SettledRunIsQuiet(t, init);
      assert Settled(t, recs[|recs| - 1]);
    }
  }

  /**
   * Idempotence: with no zero weight, and records of one date agreeing on their
   * rounded kilograms, a second run over the same records, against the table
   * the first run left, issues no writes.
   */
  lemma SecondRunWritesNothing(t: Table, recs: seq<WeightRecord>)
    requires SameDateSameKg(recs) && NoZeroWeight(recs)
    ensures Writes(Run(t, recs), recs) == []
    ensures Run(Run(t, recs), recs) == Run(t, recs)
  {
    RunSettlesAll(t, recs);
    SettledRunIsQuiet(Run(t, recs), recs);
  }

  /**
   * A zero weight is never settled once written: the row holds no kilograms
   * while the check compares against 0, so every later run updates it again.
   */
  lemma ZeroWeightIsRewrittenEveryRun(t: Table, rec: WeightRecord)
    requires EntryDate(rec).Some? && rec.weight == Some(0.0)
    requires Decide(t, rec).Issue?
    ensures Decide(Step(t, rec), rec) == Issue(UpdatePage(EntryDate(rec).value, UpdateProperties(rec)))
  {
    var date := EntryDate(rec).value;
    DecisionCases(t, rec);
    match Lookup(t, date)
    case None =>
      WrittenRowIsUpToDate(CreateProperties(rec), rec);
      assert Lookup(Step(t, rec), date) == Some(CreateProperties(rec));
    case Some(existing) =>
      WrittenRowIsUpToDate(existing, rec);
      assert Lookup(Step(t, rec), date) == Some(existing + UpdateProperties(rec));
  }
}
