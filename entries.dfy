/**
 * The provider's weight record, the database row's properties, and the
 * helpers of weight.py that build payloads from a record and compare a
 * stored row against it.
 */
module Entries {
  import opened Optional
  import opened Conversion

  /** One element of the provider's dateWeightList; every field may be absent. */
  datatype WeightRecord = WeightRecord(
    calendarDate: Option<string>,
    weight: Option<real>,   // grams
    bmi: Option<real>,
    bodyFat: Option<real>)

  /** A row property: the Date title, or a number that may be empty. */
  datatype Property = Title(content: string) | Number(number: Option<real>)

  /** A row, or a payload: property name to property value. */
  type Properties = map<string, Property>

  const DateKey: string := "Date"
  const KgKey: string := "Weight (kg)"
  const LbsKey: string := "Weight (lbs)"
  const BmiKey: string := "BMI"
  const BodyFatKey: string := "Body Fat (%)"
  const UnknownDate: string := "Unknown"

  /** The record's date when it is usable: present and non-empty. */
  function EntryDate(rec: WeightRecord): (d: Option<string>)
    ensures d.Some? <==> rec.calendarDate.Some? && rec.calendarDate.value != ""
    ensures d.Some? ==> d.value == rec.calendarDate.value
  {
    match rec.calendarDate
    case Some(s) => if s == "" then None else Some(s)
    case None => None
  }

  /** The keys a payload gains only when the record carries the field. */
  function OptionalKeys(rec: WeightRecord): set<string>
  {
    (if rec.bmi.Some? then {BmiKey} else {}) + (if rec.bodyFat.Some? then {BodyFatKey} else {})
  }

  /**
   * Properties of a new row: Date (falling back to "Unknown"), both weights,
   * and BMI / body fat exactly when the record has them.
   */
  function CreateProperties(rec: WeightRecord): (p: Properties)
    ensures p.Keys == {DateKey, KgKey, LbsKey} + OptionalKeys(rec)
    ensures EntryDate(rec).Some? ==> p[DateKey] == Title(EntryDate(rec).value)
    ensures EntryDate(rec).None? ==> p[DateKey] == Title(UnknownDate)
    ensures p[KgKey] == Number(WrittenKg(rec.weight))
    ensures p[LbsKey] == Number(KgToLbs(WrittenKg(rec.weight)))
    ensures rec.bmi.Some? ==> p[BmiKey] == Number(Some(RoundTenths(rec.bmi.value)))
    ensures rec.bodyFat.Some? ==> p[BodyFatKey] == Number(Some(RoundTenths(rec.bodyFat.value)))
  {
    var kg := WrittenKg(rec.weight);
    var title := match rec.calendarDate
      case Some(s) => if s == "" then UnknownDate else s
      case None => UnknownDate;
    var props := map[DateKey := Title(title), KgKey := Number(kg), LbsKey := Number(KgToLbs(kg))];
    var props := if rec.bmi.Some? then props[BmiKey := Number(Some(RoundTenths(rec.bmi.value)))] else props;
    if rec.bodyFat.Some? then props[BodyFatKey := Number(Some(RoundTenths(rec.bodyFat.value)))] else props
  }

  /** Properties sent to an existing row: those of a new row without Date. */
  function UpdateProperties(rec: WeightRecord): (p: Properties)
    ensures DateKey !in p
    ensures p == CreateProperties(rec) - {DateKey}
  {
    var kg := WrittenKg(rec.weight);
    var props := map[KgKey := Number(kg), LbsKey := Number(KgToLbs(kg))];
    var props := if rec.bmi.Some? then props[BmiKey := Number(Some(RoundTenths(rec.bmi.value)))] else props;
    if rec.bodyFat.Some? then props[BodyFatKey := Number(Some(RoundTenths(rec.bodyFat.value)))] else props
  }

  /** create_weight_entry's property dict, built and then extended key by key. */
  method BuildCreateProperties(rec: WeightRecord) returns (props: Properties)
    ensures props == CreateProperties(rec)
  {
    var weightKg := WrittenKg(rec.weight);
    var weightLbs := KgToLbs(weightKg);
    var entryDate := if rec.calendarDate.Some? && rec.calendarDate.value != "" then rec.calendarDate.value else UnknownDate;
    props := map[DateKey := Title(entryDate), KgKey := Number(weightKg), LbsKey := Number(weightLbs)];
    if rec.bmi.Some? {
      props := props[BmiKey := Number(Some(RoundTenths(rec.bmi.value)))];
    }
    if rec.bodyFat.Some? {
      props := props[BodyFatKey := Number(Some(RoundTenths(rec.bodyFat.value)))];
    }
  }

  /** update_weight_entry's property dict, built and then extended key by key. */
  method BuildUpdateProperties(rec: WeightRecord) returns (props: Properties)
    ensures props == UpdateProperties(rec)
  {
    var weightKg := WrittenKg(rec.weight);
    var weightLbs := KgToLbs(weightKg);
    props := map[KgKey := Number(weightKg), LbsKey := Number(weightLbs)];
    if rec.bmi.Some? {
      props := props[BmiKey := Number(Some(RoundTenths(rec.bmi.value)))];
    }
    if rec.bodyFat.Some? {
      props := props[BodyFatKey := Number(Some(RoundTenths(rec.bodyFat.value)))];
    }
  }

  /** The row's Date title, or "" when the row has none. */
  function TitleOf(row: Properties): string
  {
    if DateKey in row && row[DateKey].Title? then row[DateKey].content else ""
  }

  /**
   * The stored kilograms as the comparison reads them: a missing property, or
   * one that is not a number, reads as None.
   */
  function StoredKg(row: Properties): Option<real>
  {
    if KgKey in row && row[KgKey].Number? then row[KgKey].number else None
  }

  /**
   * weight_needs_update: the stored kilograms differ from the fresh ones. For a
   * weight that is not zero that means: differ from what a write would store;
   * a zero weight is compared as 0, which no write ever stores.
   */
  function NeedsUpdate(existing: Properties, rec: WeightRecord): (needed: bool)
    ensures rec.weight != Some(0.0) ==> (needed <==> StoredKg(existing) != WrittenKg(rec.weight))
    ensures rec.weight == Some(0.0) ==> (needed <==> StoredKg(existing) != Some(0.0))
  {
    StoredKg(existing) != ComparedKg(rec.weight)
  }

  /** BMI and body fat, in the record and in the row, never decide an update. */
  lemma NeedsUpdateOnlyReadsWeight(existing: Properties, rec: WeightRecord, bmi: Option<real>, bodyFat: Option<real>, other: Properties)
    requires KgKey !in other
    ensures NeedsUpdate(existing, rec) == NeedsUpdate(existing, rec.(bmi := bmi, bodyFat := bodyFat))
    ensures NeedsUpdate(existing, rec) == NeedsUpdate(other + existing, rec)
    ensures NeedsUpdate(existing, rec) == NeedsUpdate(existing - {BmiKey, BodyFatKey}, rec)
  {
    assert KgKey != BmiKey && KgKey != BodyFatKey;
  }

  /** An update leaves the row's Date title as it was. */
  lemma UpdateKeepsTitle(row: Properties, rec: WeightRecord)
    ensures TitleOf(row + UpdateProperties(rec)) == TitleOf(row)
    ensures DateKey in row ==> (row + UpdateProperties(rec))[DateKey] == row[DateKey]
  {
  }

  /**
   * What a create or an update writes is what the next comparison reads,
   * and for a weight that is not zero the check then finds nothing to do.
   */
  lemma WrittenRowIsUpToDate(row: Properties, rec: WeightRecord)
    ensures StoredKg(CreateProperties(rec)) == WrittenKg(rec.weight)
    ensures StoredKg(row + UpdateProperties(rec)) == WrittenKg(rec.weight)
    ensures rec.weight != Some(0.0) ==>
      !NeedsUpdate(CreateProperties(rec), rec) && !NeedsUpdate(row + UpdateProperties(rec), rec)
    ensures rec.weight == Some(0.0) ==>
      NeedsUpdate(CreateProperties(rec), rec) && NeedsUpdate(row + UpdateProperties(rec), rec)
  {
  }
}
