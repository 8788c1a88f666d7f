# Weight sync reconciler

A Dafny model of the reconciler in `weight.py`, the script that copies yesterday's body-weight
measurements from the fitness provider into a workspace database. The model covers these pieces:

- the unit conversion (grams to kilograms rounded to two decimals, kilograms to pounds rounded to
  one decimal, BMI and body fat rounded to one decimal);
- the property dicts that `create_weight_entry` and `update_weight_entry` build;
- the "first result or None" lookup of `weight_entry_exists`;
- the change check of `weight_needs_update`;
- `main`'s two early exits and its per-record loop.

The database is a value of type `Table`. It maps a date string to the rows that a query on that
`Date` returns, in query order. A create appends a row under the payload's `Date` title. An update
merges its properties into the first row of the date, which is what Notion does with a property
update. The database is also an object, `NotionStore.WeightDatabase`. Its client calls change that
table in place. It also records the lookups and writes it receives, so the model can state what a
run sends to the database.

Files:

- `optional.dfy`: the `Option` type.
- `conversion.dfy`: rounding and unit conversion.
- `entries.dfy`: the provider's record, row properties, payload construction, and the change check.
- `reconciler.dfy`: the per-record decision and its effect, and whole runs as functions (`Run`,
  `Writes`, `Queries`). It also holds the lemmas about runs: skipped records, at most one row per
  date, idempotence, and the zero-weight counterexample.
- `notion_store.dfy`: the database object and `main`'s loop as methods. `Sync` is proved to do
  exactly what `Run`, `Writes` and `Queries` describe.
- `scenarios.dfy`: concrete runs of the loop. They cover the 72300 g example, an up-to-date row,
  the two change-check examples, and the two inputs on which a second run still writes.

One would expect a second run over the same data to write nothing, and only a missing weight to
become `None`. The code differs in two places:

- A weight of `0` is also written as `None` (weight.py:58). The change check, though, keeps `0` as
  it is (weight.py:40-41) and compares it with the stored `None` (weight.py:44), so such a row is
  rewritten on every run.
- The fetch asks for one day (weight.py:12-14), so two weigh-ins on that day share a date. When
  their weights differ after rounding to hundredths of a kilogram, the second weigh-in overwrites
  the first one's row in the same run, and every re-run writes the first weight back and then the
  second one again. Same-day weigh-ins with equal rounded weights cause no update.

`Reconciler.SecondRunWritesNothing` therefore assumes two things: no record has a zero weight, and
records that share a date agree on their kilograms once rounded to hundredths. A duplicated entry, or
records of pairwise different dates, meet the second assumption. The two scenario lemmas show what
happens without each assumption.

## Model

| member | source | states |
|---|---|---|
| Conversion.RoundHalfEven | weight.py:41 | `round` as modelled here gives the integer nearest to its argument, and a tie goes to the even neighbour |
| Conversion.RoundHundredths | weight.py:58 | `round(x, 2)` gives a whole number of hundredths that lies within 0.005 of x |
| Conversion.RoundTenths | weight.py:50 | `round(x, 1)` gives a whole number of tenths that lies within 0.05 of x |
| Conversion.KgToLbs | weight.py:46-50 | `kg_to_lbs(None)` is `None`; a number gives pounds within 0.05 of kg × 2.20462 |
| Conversion.WrittenKg | weight.py:57-58 | the kilograms a payload carries are `None` exactly when the weight is missing or zero; otherwise they are within 0.005 of grams / 1000 |
| Conversion.ComparedKg | weight.py:39-41 | the kilograms the change check compares equal the written kilograms for every weight except zero, which stays `0` |
| Conversion.ZeroWeightIsWrittenAsNone | weight.py:40-41 | a zero weight is written as `None` kg and `None` lbs but compared as `0` |
| Entries.EntryDate | weight.py:136-137 | a record's date counts only when `calendarDate` is present and non-empty, and it is then that string |
| Entries.CreateProperties | weight.py:61-75 | the create payload has exactly `Date`, `Weight (kg)` and `Weight (lbs)`, plus `BMI` / `Body Fat (%)` exactly when the record has them. `Date` is the record's date, or "Unknown" when that is missing or empty. Weights are the converted ones, and BMI / body fat are rounded to one decimal |
| Entries.UpdateProperties | weight.py:93-105 | the update payload is the create payload without `Date`, so it never carries `Date` |
| Entries.BuildCreateProperties | weight.py:56-75 | building the create dict key by key, with the conditional keys added afterwards, gives the create payload |
| Entries.BuildUpdateProperties | weight.py:89-105 | building the update dict key by key gives the update payload |
| Entries.NeedsUpdate | weight.py:34-44 | an update is needed exactly when the stored `Weight (kg)` differs from the fresh kilograms. For a non-zero or missing weight that is the value a write would store; a zero weight is compared as `0`. `NeedsUpdateOnlyReadsWeight` and `WrittenRowIsUpToDate` state its further properties |
| Entries.NeedsUpdateOnlyReadsWeight | weight.py:34-44 | the change check does not depend on the record's BMI or body fat, nor on any row property other than `Weight (kg)` |
| Entries.UpdateKeepsTitle | weight.py:96-99 | merging an update payload into a row leaves the row's `Date` as it was |
| Entries.WrittenRowIsUpToDate | weight.py:38-44 | the kilograms a create or an update writes are what the change check then reads. The check then finds nothing to do exactly when the weight is not zero |
| Reconciler.Lookup | weight.py:31-32 | the lookup gives `None` exactly when the query returns no rows, and otherwise the first row |
| Reconciler.Decide | weight.py:135-147 | a record is skipped exactly when it has no usable date. An update is only issued when a row exists for the date |
| Reconciler.Apply | weight.py:82-110 | a create appends its payload under its `Date` title. An update merges its payload into the first row of its date and keeps the other rows of that date. No other date changes |
| Reconciler.Run | weight.py:135-147 | the table after main's loop over the fetched records. No row is ever deleted, and a date that no record looked up keeps its rows |
| Reconciler.Writes | weight.py:135-147 | the creates and updates main's loop issues, in order. Each one targets a date that the loop looked up |
| Reconciler.Queries | weight.py:135-140 | the lookups main's loop issues, in order. There is at most one per record and never one for an empty date |
| Reconciler.DecisionCases | weight.py:136-147 | an undated record is skipped with no lookup and no write. A dated record is looked up once. It gives exactly one create, filed under its date, when no row has the date, and no create otherwise. It gives an update exactly when a row exists and its stored kg differs from the fresh kg. It gives at most one write |
| Reconciler.StepPreservesIndexed | weight.py:96-110 | if every row is filed under its own `Date` title before a record is processed, this still holds afterwards |
| Reconciler.RunPreservesIndexed | weight.py:135-147 | a whole run keeps every row filed under its own `Date` title |
| Reconciler.QueriesAndWritesPerRecord | weight.py:135-147 | a run looks up exactly the dates of its dated records, and it issues no more writes than lookups |
| Reconciler.UndatedRecordIsIgnored | weight.py:136-138 | removing an undated record from the fetched list changes neither the final table nor the writes nor the lookups, and the records after it are still processed |
| Reconciler.RunCreatesAtMostOneRowPerDate | weight.py:140-147 | a run adds a row under a date exactly when the date had none and some record carries it. It adds one row, never two, and otherwise keeps the date's row count |
| Reconciler.StepSettles | weight.py:140-147 | after a record with a non-zero or absent weight is processed, processing it again would write nothing |
| Reconciler.StepKeepsOtherDatesSettled | weight.py:140-147 | processing a record of one date does not make a record of another date need a write |
| Reconciler.StepKeepsSameDateSettled | weight.py:140-147 | processing a record leaves another record of the same date and the same rounded kilograms with nothing to write, when neither weight is zero |
| Reconciler.RunSettlesAll | weight.py:135-147 | after a run over records with no zero weight, where records of one date agree on their rounded kilograms, every record is up to date |
| Reconciler.SettledRunIsQuiet | weight.py:135-147 | a run over records that are all up to date writes nothing and leaves the table as it was |
| Reconciler.SecondRunWritesNothing | weight.py:135-147 | idempotence: with no zero weight, and records of one date agreeing on their rounded kilograms, a second run over the same records, against the table the first run left, issues no writes and changes nothing |
| Reconciler.ZeroWeightIsRewrittenEveryRun | weight.py:40-44 | once a zero-weight record has been written, the next run issues an update for it again |
| NotionStore.WeightDatabase.FindEntry | weight.py:20-32 | the query is recorded, and the result is the first row for the date or `None` |
| NotionStore.WeightDatabase.CreateEntry | weight.py:52-83 | the table gains the create payload under its date, and the write is recorded |
| NotionStore.WeightDatabase.UpdateEntry | weight.py:85-111 | the update payload is merged into the existing first row of the date, and the write is recorded |
| NotionStore.WeightDatabase.ReconcileEntry | weight.py:136-147 | the table, lookups and writes after one loop iteration are those of the per-record decision |
| NotionStore.WeightDatabase.Sync | weight.py:121-147 | with no database id, or nothing fetched, the store is not touched and the status says why. Otherwise the table, lookups and writes are exactly those of the run over the fetched entries |
| Scenarios.FreshRecordIsCreated | weight.py:52-75 | 72300 g with BMI 22.1 and body fat 18.4 on a date with no row gives one create: 72.3 kg, 159.4 lbs, BMI 22.1, body fat 18.4 |
| Scenarios.MatchingRowIsLeftAlone | weight.py:141-145 | the same record against a row that already holds 72.3 kg writes nothing |
| Scenarios.ChangeCheckExamples | weight.py:38-44 | 70500 g needs no update against a stored 70.5 and needs one against a stored 70.4 |
| Scenarios.ZeroWeightBreaksIdempotence | weight.py:58 | for a zero-weight record, the second run over the same data issues an update |
| Scenarios.SameDayWeighInsBreakIdempotence | weight.py:135-147 | for two weigh-ins on one day with different rounded weights, the second run over the same data issues two updates: the first weight, then the second |

## Left out

- Garmin login and `get_weight_data` (weight.py:7-18) are network I/O and read the clock. The
  fetched entries are an input sequence of `Sync`.
- The Notion client (`databases.query`, `pages.create`, `pages.update`) is a foreign library. It
  is replaced by the `Table` value and the `WeightDatabase` object. Client errors and exceptions
  are not modelled. Neither are page ids: an update addresses the first row of its date, which is
  the page the lookup returned.
- The query filters `Date` as a date property (weight.py:26-29), while the create payload writes
  `Date` as a title (weight.py:66). Whether the real database accepts that filter is outside the
  model. The model assumes the query returns the rows whose `Date` equals the record's date.
- `load_dotenv` and `os.getenv` (weight.py:114-119) are configuration plumbing. Only the database
  id remains, as an optional string; a missing or empty id stops the run.
- Python floats are modelled as exact reals. `round(x, n)` is exact round-half-to-even of the real
  value. Binary-float artefacts are not reproduced; for example, Python gives
  `round(2.675, 2) == 2.67`, while the model gives 2.68. NaN is not modelled. The properties
  above depend only on the conversion being deterministic and on how it treats `None` and zero.
- Kilograms, pounds, BMI and body fat are not checked for plausible ranges. Neither is the source.
- The `print` status lines (weight.py:83, 111, 122, 132, 145) are observational only. `Sync`
  returns a status instead of printing the two early-exit notices.
- Concurrent runs, which could create duplicate rows, are not modelled. The source does nothing
  about them.
