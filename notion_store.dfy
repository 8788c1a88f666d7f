/**
 * The database the script writes to, as an object whose table the client
 * calls change in place, and main's guards and reconcile loop as a method on
 * it. Besides the table, the object records the lookups and the writes it was
 * asked for, so that what a run sends to the database can be stated.
 */
module NotionStore {
  import opened Optional
  import opened Entries
  import opened Reconciler

  /** How main ends: no database id, nothing fetched, or the loop ran. */
  datatype SyncStatus = NotConfigured | NoData | Synced

  class WeightDatabase {
    var table: Table
    var queries: seq<string>
    var writes: seq<Write>

    constructor (initial: Table)
      ensures table == initial && queries == [] && writes == []
    {
      table := initial;
      queries := [];
      writes := [];
    }

    /** weight_entry_exists: query rows by date and keep the first. */
    method FindEntry(date: string) returns (existing: Option<Properties>)
      modifies this`queries
      ensures existing == Lookup(table, date)
      ensures queries == old(queries) + [date]
    {
      var results := if date in table then table[date] else [];
      existing := if results != [] then Some(results[0]) else None;
      queries := queries + [date];
    }

    /** create_weight_entry: a new row with the record's create payload. */
    method CreateEntry(rec: WeightRecord)
      modifies this`table, this`writes
      ensures table == Apply(old(table), CreatePage(CreateProperties(rec)))
      ensures writes == old(writes) + [CreatePage(CreateProperties(rec))]
    {
      var props := BuildCreateProperties(rec);
      table := Apply(table, CreatePage(props));
      writes := writes + [CreatePage(props)];
    }

    /** update_weight_entry: the update payload merged into the first row of the date. */
    method UpdateEntry(date: string, rec: WeightRecord)
      requires Lookup(table, date).Some?
      modifies this`table, this`writes
      ensures table == Apply(old(table), UpdatePage(date, UpdateProperties(rec)))
      ensures writes == old(writes) + [UpdatePage(date, UpdateProperties(rec))]
    {
      var props := BuildUpdateProperties(rec);
      table := Apply(table, UpdatePage(date, props));
      writes := writes + [UpdatePage(date, props)];
    }

    /**
     * The body of main's loop for one entry: skip it without a usable date,
     * otherwise look its date up, then create, update or leave the row.
     */
    method ReconcileEntry(entry: WeightRecord)
      modifies this
      ensures table == Step(old(table), entry)
      ensures queries == old(queries) + DatesOf(entry)
      ensures writes == old(writes) + WritesOf(Decide(old(table), entry))
    {
      var entryDate := entry.calendarDate;
      if entryDate.None? || entryDate.value == "" {
        return;
      }
      var existing := FindEntry(entryDate.value);
      if existing.Some? {
        if NeedsUpdate(existing.value, entry) {
          UpdateEntry(entryDate.value, entry);
        }
      } else {
        CreateEntry(entry);
      }
    }

    /**
     * main after the client set-up: give up without a database id or without
     * fetched entries, otherwise reconcile the entries one by one.
     */
    method Sync(databaseId: Option<string>, entries: seq<WeightRecord>) returns (status: SyncStatus)
      modifies this
      ensures status == NotConfigured <==> databaseId.None? || databaseId.value == ""
      ensures status == NoData <==> status != NotConfigured && entries == []
      ensures status != Synced ==>
        table == old(table) && queries == old(queries) && writes == old(writes)
      ensures status == Synced ==>
        table == Run(old(table), entries) &&
        queries == old(queries) + Queries(entries) &&
        writes == old(writes) + Writes(old(table), entries)
    {
      if databaseId.None? || databaseId.value == "" {
        return NotConfigured;
      }
      if entries == [] {
        return NoData;
      }
      var i := 0;
      while i < |entries|
        invariant 0 <= i <= |entries|
        invariant table == Run(old(table), entries[..i])
        invariant queries == old(queries) + Queries(entries[..i])
        invariant writes == old(writes) + Writes(old(table), entries[..i])
      {
        var entry := entries[i];
        ghost var done := entries[..i];
        PrefixSnoc(entries, i);
        RunSnoc(old(table), done, entry);
        ReconcileEntry(entry);
        i := i + 1;
      }
      assert entries[..i] == entries;
      status := Synced;
    }
  }
}
