# Line cache of the weeds line-database client, in Dafny

The weeds client keeps a local copy of spectral-line catalogs (CDMS, JPL, and
others) in an SQLite file so that searches can be answered offline. This
project models that cache as a pure relational store and proves its rules:

- the `line` table, a sequence of rows in storage (rowid) order, unique on
  (species, upper quantum numbers, lower quantum numbers, origin, dbsource);
- the `partfunc` table, one pair of encoded numeric blobs per (species,
  origin, dbsource);
- the `info` table, holding the version string.

Every operation is a function on that state, or a method whose loop is
proved equal to a fold of the single-item function. The operations are:

- `create`;
- single and batch insert/upsert of lines and partition functions, with the
  ignore-on-conflict and date-stamping policy;
- `remove`, together with the `syncPartfunc` after-delete trigger;
- `search`, with species normalisation, `*`→`%` wildcarding and SQLite `LIKE`;
- rebuilding records from rows;
- `partition_function`, with its blank sentinel;
- the fixed-width array codec;
- `isDbFile`;
- the `Db` constructor's protocol and online/offline check.

Modules, following the source:

| module | file | models |
|---|---|---|
| `Errors` | errors.dfy | the exceptions raised, as a `Result` type |
| `Codec` | codec.dfy | `array('d').tostring()` / `fromstring()`, each double an opaque 8-byte word |
| `Lines` | line.dfy | the `line` and `level` records of weeds_py/line.py |
| `Schema` | schema.dfy | the tables, their keys and invariants, line ↔ row mapping |
| `LineRepo` | linerepo.dfy | line inserts, upserts, `remove` and the trigger |
| `PartfuncRepo` | partfuncrepo.dfy | partition-function inserts, upserts and lookup |
| `Query` | query.dfy | `search` |
| `Cache` | cache.dfy | the `Cache` class on what the cache path holds; `create`, `isDbFile` |
| `Db` | db.dfy | `Db.__init__` validation and the names db.py re-exports |

The current time is a parameter `now`. The file at the cache path is
`Cache.Disk`: `Missing`, `Foreign` (a file that is not a cache store) or
`Present(store)`. Numbers are exact reals.

Points where the code behaves in a way a reader might not expect; the model
follows the code:

- An upsert stamps the date only when `origin` is a live catalog
  (weeds_py/cache.py:148-151). A plain insert stamps it, and replaces, when
  `dbsource` is a live catalog or contains `.cat` (weeds_py/cache.py:128-133).
- `remove` matches the stored dbsource against the record's `prev`, not its
  `dbsource` (weeds_py/cache.py:342).
- The origin filter lower-cases the argument only (weeds_py/cache.py:397-399).
  A stored origin holding an upper-case letter is therefore never selected
  (`Query.UpperCaseOriginNeverSelected`).
- A species name is matched with `LIKE` whenever it contains `%` after `*`
  became `%`, so a `%` given by the caller counts too
  (weeds_py/cache.py:391-392). `LIKE` also treats `_` as a wildcard and
  ignores ASCII case.
- `partition_function` raises NotFound for an empty stored partition
  function as well as for the blank sentinel (weeds_py/cache.py:466-467).
- The trigger fires only when the delete removed a row, and it drops the
  partition function only when no remaining line refers to it
  (weeds_py/cache.py:115-118).
- `insert or replace` does not fire the delete trigger, because SQLite's
  recursive triggers are off by default. So an upsert never deletes a
  partition function (weeds_py/cache.py:159-163).

## Model

| member | source | states |
|---|---|---|
| Codec.Encode | weeds_py/cache.py:167-168 | a blob holds 8 bytes per value, and its first 8 bytes are the first value |
| Codec.Decode | weeds_py/cache.py:462-463 | decoding succeeds exactly for blobs whose length is a multiple of 8; the words it returns re-encode to the blob |
| Codec.Chunks | weeds_py/cache.py:462-463 | cutting a blob into 8-byte words gives length/8 words that re-encode to the blob |
| Codec.DecodeEncode | weeds_py/cache.py:166-168 | decoding an encoded sequence gives back exactly that sequence |
| Codec.EncodeInjective | weeds_py/cache.py:176-177 | two different sequences never encode to the same blob |
| Lines.NewLevel | weeds_py/line.py:32-35 | a fresh level has energy 0, statistical weight 0 and empty quantum numbers |
| Lines.NewLine | weeds_py/line.py:8-19 | a fresh line has empty species, origin, dbsource, prev and date, zero numbers, and two fresh levels |
| Lines.LevelsIndependent | weeds_py/line.py:13-14 | setting one level of a line leaves the other unchanged |
| Lines.SourcesIndependent | weeds_py/line.py:16-18 | `prev` and `dbsource` are separate: setting one keeps the other |
| Schema.UniqueKeysSameRow | weeds_py/cache.py:86 | in a table meeting the unique constraint, two rows with the same key are the same row |
| Schema.FilterRowsUnique | weeds_py/cache.py:86 | deleting rows never breaks the unique constraint |
| Schema.DeleteKey | weeds_py/cache.py:336-343 | a delete on the unique key keeps exactly the rows with another key and keeps the unique constraint; a delete that matches nothing leaves the table as it was, and one that matches the row at index i leaves the rows before and after it in their storage order |
| Schema.FilterRowsDropAt | weeds_py/cache.py:336-343 | a `where` clause that rejects only the row at index i leaves the other rows in storage order |
| Schema.DeleteKeepsTriple | weeds_py/cache.py:113-118 | after a delete, every partfunc key other than the deleted row's still has a line row referring to it |
| Schema.EmptyStore | weeds_py/cache.py:72-114 | a new store has no lines, no partition functions, info exactly `[version]`, meets every invariant |
| Schema.ToRow | weeds_py/cache.py:141-143 | the bound row's unique key is the line's (species, upper QN, lower QN, origin, dbsource), its partfunc key the line's (species, origin, dbsource), its date the chosen one |
| Schema.Reconstruct | weeds_py/cache.py:414-428 | the rebuilt record keeps the default empty dbsource, and moving `prev` back to dbsource re-creates exactly the row |
| Schema.RowRoundTrip | weeds_py/cache.py:414-428 | storing a line and rebuilding it gives the line with dbsource moved to `prev`, dbsource empty, and the stored date |
| Schema.ReconstructInjective | weeds_py/cache.py:425-427 | different rows give different records |
| LineRepo.InsertRow | weeds_py/cache.py:124-133 | a plain insert whose key is taken changes nothing; otherwise the row is appended; uniqueness is kept |
| LineRepo.ContainsOccurs | weeds_py/cache.py:128 | the substring test `".cat" in dbsource` holds iff the text occurs at some index |
| LineRepo.StampedOnInsert | weeds_py/cache.py:128 | a plain insert re-dates and replaces exactly the lines whose dbsource is a live catalog or contains `.cat` at some index |
| LineRepo.StoredDate | weeds_py/cache.py:128-151 | an upsert stores the clock when the origin is a live catalog, a plain insert when the line is stamped; every other line keeps its own date |
| LineRepo.ReplaceRow | weeds_py/cache.py:159-163 | insert-or-replace keeps every row with another key, drops the same-key row, appends the new row last, keeps uniqueness; the other rows keep their storage order: with no same-key row the result is the table plus the new row, and with the same-key row at index i it is the table without index i, plus the new row |
| LineRepo.AddLine | weeds_py/cache.py:123-203 | the key set grows by exactly the line's key; with update=false a line from a live catalog or a `.cat` file replaces the same-key row, and any other line is ignored on conflict, else appended with its own date; with update=true the same-key row is replaced and nothing else changes; when it replaces, the other rows keep their storage order and the new row comes last; partfunc and info untouched; uniqueness and the no-orphan relation kept |
| LineRepo.AddEach | weeds_py/cache.py:205-229 | a batch adds exactly the batch's keys; a row whose key no batch line has is present afterwards iff it was before; uniqueness kept; partfunc and info alone |
| LineRepo.AddEachStep | weeds_py/cache.py:219-228 | the batch up to line i+1 is the batch up to line i followed by one add_line |
| LineRepo.SameKeyTwice | weeds_py/cache.py:86 | adding two same-key lines leaves exactly one row with that key; with update it is the second line's row |
| LineRepo.RemovalKeyOfReconstruct | weeds_py/cache.py:342 | `remove` applied to a record returned by `search` targets exactly the row it came from |
| LineRepo.RemovalKey | weeds_py/cache.py:342 | remove deletes the key the line would be stored under with `prev` as its dbsource; for a line whose `prev` equals its dbsource that is its own key |
| LineRepo.RemoveOne | weeds_py/cache.py:115-118 | delete removes exactly the rows keyed (species, upper QN, lower QN, origin, prev), leaving the others in storage order (the table without the matched index, or unchanged when nothing matches); the partition function with key (species, origin, prev) survives iff nothing was deleted or a remaining line shares that key; every other partition function is untouched |
| LineRepo.SyncPartfunc | weeds_py/cache.py:115-117 | the after-delete trigger drops the partition function of the deleted row's (species, origin, dbsource) exactly when no remaining line has that key, and leaves lines, info and every other partition function as they were |
| LineRepo.RemoveOneOtherTriples | weeds_py/cache.py:336-343 | a delete leaves the line rows of every other partfunc key in place |
| LineRepo.RemoveEach | weeds_py/cache.py:332-345 | removing a batch keeps exactly the rows whose key no batch record targets, and never adds or changes a partition function; it keeps uniqueness and the no-orphan relation (which partition functions survive: LineRepo.RemoveEachPartfuncs) |
| LineRepo.RemoveEachPartfuncs | weeds_py/cache.py:115-118 | after a batch remove, a partition function is kept iff it existed and either a remaining line refers to it or no line referred to it before |
| LineRepo.RemoveEachStep | weeds_py/cache.py:338-343 | the batch up to line i+1 is the batch up to line i followed by one delete |
| PartfuncRepo.AddPartfunc | weeds_py/cache.py:231-256 | afterwards the key is present and every other key is untouched; a plain insert on a taken key changes nothing; otherwise the key holds the encoded pair; lines and info are untouched |
| PartfuncRepo.AddEach | weeds_py/cache.py:259-285 | a batch adds exactly the batch's keys to the partfunc table; every key outside the batch keeps its blobs; lines and info untouched |
| PartfuncRepo.AddEachStep | weeds_py/cache.py:278-284 | the batch up to tuple i+1 is the batch up to tuple i followed by one add_partfunc |
| PartfuncRepo.PartitionFunction | weeds_py/cache.py:435-472 | no row gives NotFound; a result re-encodes to the stored blobs and its partition function is non-empty with a non-blank first value; in a valid store every failure is NotFound |
| PartfuncRepo.PartitionFunctionAfterAdd | weeds_py/cache.py:458-467 | reading back a pair just written gives that pair, or NotFound when its partition function is empty or starts with the blank value |
| PartfuncRepo.BlankLooksMissing | weeds_py/cache.py:466-467 | a stored blank partition function reads exactly like no row at all |
| Query.SpeciesNames | weeds_py/cache.py:363-371 | only a non-string, non-list argument is refused; 'All' and the empty list give no names, another string one name, a list its items |
| Query.LikeLiteral | weeds_py/cache.py:392 | a LIKE pattern without wildcards matches exactly the strings equal up to ASCII case |
| Query.LikeAnything | weeds_py/cache.py:392 | `%` matches every string |
| Query.LikePrefix | weeds_py/cache.py:392 | `q%` matches exactly the strings starting with q up to ASCII case |
| Query.Like | weeds_py/cache.py:392 | SQLite LIKE (`%` any run, `_` one character, ASCII case ignored); without a `%` in the pattern a match consumes exactly one character per pattern character (see LikeLiteral, LikeAnything, LikePrefix) |
| Query.TestForSelects | weeds_py/cache.py:391-392 | the `like`/`=` choice after `*`→`%` agrees with: LIKE when the name has a wildcard, equality with the name otherwise |
| Query.LeadingClausesMeaning | weeds_py/cache.py:377-396 | the frequency and species clauses hold iff frequency ≥ max(fmin, 0), ≤ fmax when fmax > 0, and some name selects the species |
| Query.TrailingClausesMeaning | weeds_py/cache.py:397-410 | the origin, dbsource, energy and Einstein clauses hold iff each present condition holds |
| Query.SpeciesClauseMeaning | weeds_py/cache.py:387-396 | the parenthesised species disjunction holds iff there are no names or some name selects the species |
| Query.BuildClauses | weeds_py/cache.py:377-410 | the assembled conjunction holds of a row iff frequency ≥ max(fmin, 0), ≤ fmax when fmax > 0, some name selects the species, origin = lower(origin) unless 'All', dbsource equal unless 'All', upper energy ≤ energy when > 0, Einstein coefficient ≥ einstein when > 0 |
| Query.SelectRows | weeds_py/cache.py:411-413 | the assembled query returns exactly the table rows its clauses hold of |
| Query.ReconstructAll | weeds_py/cache.py:413-430 | one record per selected row, in order, and a row's record is among them iff the row is |
| Query.Search | weeds_py/cache.py:347-433 | refused exactly for an unsupported species argument; otherwise a stored row's record is returned iff the row meets every condition, and every returned record comes from such a row |
| Query.SearchKeepsOrder | weeds_py/cache.py:411-430 | results follow storage order: searching two concatenated parts returns their results in turn |
| Query.ReconstructAllAppend | weeds_py/cache.py:413-430 | the records of two row runs in turn are the records of the joined run |
| Query.SearchNothingSelected | weeds_py/cache.py:411-434 | when no stored row is selected, search returns the empty list |
| Query.SearchSingleRow | weeds_py/cache.py:411-434 | a table holding one selected row yields exactly that row's record |
| Query.WildcardExamples | weeds_py/cache.py:391-392 | `CO*` selects CO, CO2 and co2 but not HCO; `CO` does not select co |
| Query.UpperCaseOriginNeverSelected | weeds_py/cache.py:397-399 | with an origin filter, a row whose stored origin has an upper-case letter is never selected |
| Query.RemoveSearched | weeds_py/cache.py:338-343 | removing the records a search returned deletes exactly the rows the search selected |
| Cache.Open | weeds_py/cache.py:29-48 | a missing file is refused with the no-file error, a non-store file fails at the first statement, a store opens |
| Cache.IsDbFile | weeds_py/cache.py:473-482 | true exactly when the store can be opened; never an error |
| Cache.Create | weeds_py/cache.py:51-121 | fails with AlreadyExists iff a file exists and overwrite is false; otherwise yields a store isDbFile accepts, with empty tables and info `[version]` |
| Cache.AddLine | weeds_py/cache.py:182-203 | fails exactly when the path holds no store, with that error; on a store it is add_line on the store (LineRepo.AddLine); keeps info, partfunc and validity |
| Cache.AddLines | weeds_py/cache.py:205-229 | the loop equals add_line applied to each line in turn; a missing file fails; a non-store file fails unless the batch is empty |
| Cache.AddLinesTo | weeds_py/cache.py:219-228 | the loop over the lines equals add_line applied to each in turn |
| Cache.AddPartfunc | weeds_py/cache.py:231-256 | fails exactly when the path holds no store, with that error; on a store it is add_partfunc on the store (PartfuncRepo.AddPartfunc); keeps lines, info and validity |
| Cache.AddPartfuncs | weeds_py/cache.py:259-285 | the loop equals add_partfunc applied to each tuple in turn, with the same file errors as add_lines |
| Cache.AddPartfuncsTo | weeds_py/cache.py:278-284 | the loop over the tuples equals add_partfunc applied to each in turn |
| Cache.Remove | weeds_py/cache.py:332-345 | the loop equals the per-line delete-and-trigger applied in turn, with the same file errors |
| Cache.RemoveFrom | weeds_py/cache.py:338-343 | the loop over the lines equals one delete and trigger per line in turn |
| Cache.Search | weeds_py/cache.py:347-433 | an unsupported species argument is refused before the file is opened; then file errors; on a store the result is exactly Query.Search: the selected rows' records in storage order |
| Cache.PartitionFunction | weeds_py/cache.py:435-472 | file errors first; on a store the result is exactly the stored lookup (PartfuncRepo.PartitionFunction): the decoded stored pair, or NotFound |
| Cache.CoLineAdded | weeds_py/cache.py:124-133 | adding the CDMS CO line to an empty store appends its row stamped with the current date |
| Cache.CoQuerySelects | weeds_py/cache.py:377-410 | the CO frequency-window search selects that row |
| Cache.CoLineFound | weeds_py/cache.py:347-433 | searching the store holding the row returns the rebuilt line with dbsource moved to `prev` |
| Cache.SearchAfterRemoveEmpty | weeds_py/cache.py:332-433 | after removing what a search returned, the same search returns nothing |
| Cache.CreateAddSearchRemove | weeds_py/cache.py:347-433 | create, add the CO 1-0 CDMS line, search 115000–115500 MHz for CO: the one record, date stamped; remove it and search again: nothing |
| Db.NewDb | weeds_py/db.py:43-65 | accepted iff the protocol is supported, a local protocol is not online, and an offline remote one has a valid cache; each refusal has its own error; the fields are stored unchanged |
| Db.NewDbAsWritten | weeds_py/db.py:50-52 | as written, every offline remote-protocol database is refused with NameError |
| Db.AsWrittenAgreesElsewhere | weeds_py/db.py:43-47 | outside the offline remote case the written and corrected constructors agree |
| Db.OfflineSlapRejectedAsWritten | weeds_py/db.py:50-52 | an offline SLAP database over a fresh cache is refused as written and accepted when corrected |

## Left out

- SQL text, `sqlite3`, `os.path.isfile`, `os.remove` and `os.path.expanduser` are not modelled. The file at the cache path is the abstract `Cache.Disk`. `Db.NewDb` stores `cache_file` as given.
- Cache.IsDbFile: any empty file that `sqlite3.connect` may leave at a missing path is not modelled.
- The `"%.17f"` and `"%f"` formatting of numbers before binding is not modelled, so no rounding of the search bounds to six decimals happens. Numbers are exact reals.
- Codec.Encode: doubles are opaque 8-byte words. The blank sentinel is the little-endian word of -1.0, so a big-endian host is not modelled.
- The clock: `datetime.utcnow()` becomes the parameter `now`.
- LineRepo.AddEach: one `now` serves the whole batch, while add_lines reads the clock once per line.
- Query.Search: results come in storage (rowid) order. When a species filter lets SQLite use the unique index, it may return the same rows in index order.
- Only the Cache.Disk cases raise errors. Other SQLite failures, and their abort of a batch before the commit, are not modelled.
- `Lower` is ASCII lower case, as in Python 2 `str.lower()`. SQLite's LIKE likewise folds only ASCII letters.
- `info()` only prints. The `__repr__` of a line only formats. Neither is modelled.
- `create`'s unused `fmin` and `fmax` parameters, and the index on `partfunc.species`, have no effect on behaviour and are not modelled.
- `connect`'s own `new=True` path is not modelled. Only `create` uses it.
- weeds_py/cdms.py is not part of this model: it is an HTTP client and a parser of fixed-column catalog text.
- weeds_py/modsource.py and weeds_py/derivelineflux.py are not part of this model: they do floating-point radiative transfer and curve fitting.
- weeds_py/consts.py and setup.py are not part of this model: they hold physical constants and packaging.

## Findings

| source | as written | input that shows it | evidently intended | confidence | as-written member | corrected member |
|---|---|---|---|---|---|---|
| weeds_py/db.py:50-52 | the offline check calls `isDbFile`, which db.py never imports (it imports only the module `cache`), so this branch raises NameError | `Db(url, "cache.db", "slap", online=False)` with a valid cache file | refuse an offline remote-protocol database only when its cache file is not a valid store (`cache.isDbFile`) | high; not executed | Db.NewDbAsWritten (shown by Db.OfflineSlapRejectedAsWritten) | Db.NewDb |
