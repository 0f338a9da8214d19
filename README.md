# batmeter: a verified model of the battery logger's core

batmeter logs the battery state of a notebook. It reads each battery's
`uevent` file under `/sys/class/power_supply/`, turns the `KEY=VALUE` lines into
a dictionary stamped with the read time, and appends the readings to a TinyDB
database. It stops when a callback accepts the latest reading or when SIGINT or
SIGTERM arrives. Later it reads the records back and derives one identifier per
battery, `NAME-MANUFACTURER-MODEL_NAME-SERIAL_NUMBER`. It keeps the identifiers
that contain one of the `--battery` names and fetches each battery's records by
splitting its identifier again.

The model is in Dafny, one module per part of the program:

- `Text` gives the Python `str` operations the program relies on, with Python's
  semantics: `split` on one character, the `"{}-{}-{}-{}".format` of
  batmeter.py:94-98 written as a join on `-`, `replace(pat, "")`
  (a single left-to-right pass) and `sub in s`.
- `Seqs` is order-preserving filtering (the skip callback, TinyDB's `search`).
- `DeviceReader` is `read_bat_state`. The specification is the function
  `ParseUevent`. The method `ReadBatState` is the loop over the lines, proved
  equal to it.
- `Store` is the database as the program uses it: a class whose `records` only
  grow by `Insert`.
- `Sampling` holds `GracefulKiller` (a class with its `killNow` flag),
  `log_bat_state` and `skip_power_zero`.
  - The outside world is an `Env`: what each `uevent` file holds at each read,
    what `time()` returns at each read, and whether a signal has come in before
    each test of the loop.
  - The method `LogBatState` and its loops `SampleLoop` and `SweepOnce` are
    proved against the function `Log`. `Log` states what the run stores, how it
    ends and which error it raises.
- `Series` holds `get_uniq_batID`, `get_uevents_by_batID` and the selection loop
  of `main`.

Nothing is executed. Each Model row names a Dafny definition or a member
whose contract Dafny verifies. The statements in the other sections about
what Python does are read from batmeter.py and are not verified.

## Behaviour that differs from what one might expect

The docstring of `log_bat_state` (batmeter.py:60-66) says the function
reads, stores, waits `timediff` seconds and stops when `end_cb`, "which gets
the uevent", accepts it. The model follows the code, which is more specific
in these ways:

- **`end_cb` reading.** One might expect `end_cb` to see a reading of the
  first battery of the list. The loop reassigns `uevent` for every battery of a
  sweep (batmeter.py:78-79). So from the second test on, `end_cb` sees the last
  battery's reading (`Sampling.AdvanceSeesLastDevice`). Only the first test
  sees the first battery's reading (batmeter.py:71, `Sampling.LogFirstTest`).
- **Sleep after a signal.** One might expect a stop signal to skip or cut short
  the wait. The code always calls `sleep(timediff)` after a complete sweep
  (batmeter.py:83). The handler only raises a flag (batmeter.py:36-37), and
  since Python 3.5 `sleep` resumes after a handled signal. The flag is tested
  only at the next loop test (batmeter.py:76).
- **Signal mid-sweep.** One might expect a signal to stop the sweep in
  progress. The sweep runs to its end, and the flag is honoured at the next
  test. In the model, `signal(n)` is whether a signal has arrived before test
  `n`.
- **Tally.** `log_bat_state` prints the count of inserted readings
  (batmeter.py:87) and returns nothing. The model returns that count.

## Model

| member | source | states |
|---|---|---|
| Text.DeleteAll | batmeter.py:46-47 | `s.replace(pat, "")` in one left-to-right pass; its properties are `Text.DeleteAllAbsent`, `Text.DeleteCharConcat`, `Text.DeleteCharGone` and `DeviceReader.DropPrefix` |
| Text.Join | batmeter.py:94-98 | the `"{}-{}-{}-{}".format` of the four fields, as a join on `-`; its properties are `Text.SplitJoin`, `Text.JoinSplit` and `Series.FormatIdLayout` |
| Text.Contains | batmeter.py:164 | Python's `bat in batID`; used by `Series.Selected`, whose properties are `Series.SelectedMembers` and `Series.SelectedCount` |
| Seqs.Filter | batmeter.py:105-110 | TinyDB's `search` and the `skip_cb` test keep the matching elements in order; the properties are `Seqs.FilterMembers`, `Seqs.FilterConcat` and `Seqs.FilterAll` |
| DeviceReader.Normalize | batmeter.py:46-47 | deleting every newline, then every `POWER_SUPPLY_`; `DeviceReader.KernelLineNormal` states its effect on a kernel line |
| DeviceReader.ParseLine | batmeter.py:48-49 | key and value of one line, or the `IndexError` of `split("=")[1]`; the properties are `DeviceReader.ParseLineSome` and `DeviceReader.ParseLineFields` |
| DeviceReader.ParseAll | batmeter.py:45-51 | the dictionary after the lines in order, or the first line that raises; the properties are `DeviceReader.ParseAllOutcome`, `DeviceReader.ParseAllAssign` and `DeviceReader.ParseAllFailurePersists` |
| DeviceReader.ParseUevent | batmeter.py:39-55 | what `read_bat_state` returns or raises; the properties are `DeviceReader.ParseUeventOutcome` and `DeviceReader.ParseUeventAssign`, and `DeviceReader.ReadBatState` is proved equal to it |
| Sampling.Log | batmeter.py:58-87 | a whole `log_bat_state` run: what it stores, how it ends, which error it raises; `Sampling.LogBatState` is proved against it, and `Sampling.LogFirstTest` and `Sampling.NeverSkipStoresAll` state its properties |
| Sampling.RunFrom | batmeter.py:76-86 | the `while` loop from one of its tests on; `Sampling.SampleLoop` is proved against it, and `Sampling.RunFromStep` and `Sampling.RunFromStoresAll` state its properties |
| Sampling.Advance | batmeter.py:78-83 | where a sweep that read every battery leaves the loop; `Sampling.AdvanceSeesLastDevice` and `Sampling.AdvanceStoresAll` state its properties |
| Sampling.SkipsPowerZero | batmeter.py:124-129 | `skip_power_zero` as a `skip_cb` predicate: true exactly when `POWER_NOW` is present and `"0"` (see `Sampling.SkipPowerZero`, `Sampling.PowerZeroNotStored`) |
| Series.BatId | batmeter.py:94-98 | the identifier of one reading, or the `KeyError` of its first missing field; `Series.IdFieldsOf` states when it fails |
| Series.UniqIds | batmeter.py:90-99 | the set `get_uniq_batID` builds, or its `KeyError`; the properties are `Series.UniqIdsSucceeds`, `Series.UniqIdsMembers`, `Series.UniqIdsFirstFailure` and `Series.NewSerialNewId`, and `Series.GetUniqBatIds` is proved against it |
| Series.Matches | batmeter.py:105-110 | the TinyDB query: all four keys present with the identifier's pieces as values |
| Series.GetUeventsByBatId | batmeter.py:101-111 | `get_uevents_by_batID` as written; the properties are `Series.GetUeventsByBatIdSpec`, `Series.GetUeventsByBatIdOrder`, `Series.DashBreaksLookup` and `Series.LookupsAgree` |
| Series.Copies | batmeter.py:163-165 | the inner loop's appends for one identifier; see `Series.CopiesSpec` and `Series.CopiesCount` |
| Series.Selected | batmeter.py:161-165 | the list the nested loops build; `Series.SelectBatIds` is proved equal to it, and `Series.SelectedMembers` and `Series.SelectedCount` state its properties |
| Text.Split | batmeter.py:48-49 | `str.split` on one character gives one piece more than there are separators |
| Text.CountZero | batmeter.py:48-49 | a string has no separator exactly when its count of separators is zero, so `split` gives fewer than two pieces exactly when there is no `=` |
| Text.SplitPiecesFree | batmeter.py:48-49 | no piece of a split holds the separator |
| Text.SplitJoin | batmeter.py:103 | joining the pieces of a split with the separator gives the string back |
| Text.JoinSplit | batmeter.py:94-98 | splitting a join of separator-free pieces gives the pieces back |
| Text.DeleteAllAbsent | batmeter.py:46-47 | `replace(pat, "")` leaves a string with no occurrence of `pat` unchanged |
| Text.DeleteCharConcat | batmeter.py:46 | deleting a one-character pattern distributes over concatenation |
| Text.DeleteCharGone | batmeter.py:46 | after deleting a character, it no longer occurs |
| DeviceReader.ReadBatState | batmeter.py:39-55 | the loop over the lines returns what `ParseUevent` describes, and a successful read carries `DATETIME` equal to the read time |
| DeviceReader.ParseLineSome | batmeter.py:46-49 | a line yields an entry exactly when it still holds `=` after the newline and every `POWER_SUPPLY_` are deleted; otherwise `split("=")[1]` raises |
| DeviceReader.ParseLineFields | batmeter.py:46-49 | the key is the normalised text before the first `=`; the value is the text between the first and second `=`, or to the end of the line |
| DeviceReader.ParseAllFailurePersists | batmeter.py:45-51 | once a line raises, the lines after it change nothing |
| DeviceReader.ParseAllOutcome | batmeter.py:45-51 | reading the lines succeeds exactly when every line holds `=`; otherwise it raises at the first line without one |
| DeviceReader.ParseAllAssign | batmeter.py:45-51 | when every line parses, the dictionary is the in-order assignment of the lines' entries |
| DeviceReader.AssignKeys | batmeter.py:51 | the dictionary's keys are exactly the keys of the lines |
| DeviceReader.AssignLastWins | batmeter.py:51 | a key repeated in the file keeps the value of its last line |
| DeviceReader.ParseUeventOutcome | batmeter.py:43-55 | a read fails with `FileNotFound` exactly when the file cannot be opened; otherwise it raises at the first line without `=`, and succeeds exactly when every line has one |
| DeviceReader.ParseUeventAssign | batmeter.py:43-55 | a successful read is the assignment of the entries, with `DATETIME` set last to the read time and overriding any `DATETIME` line |
| DeviceReader.KernelLine | batmeter.py:44-51 | a kernel line `POWER_SUPPLY_<KEY>=<VALUE>\n` parses to `<KEY>` and `<VALUE>` |
| DeviceReader.KernelLineNormal | batmeter.py:46-47 | deleting the newline and the prefix of a kernel line leaves `<KEY>=<VALUE>` |
| DeviceReader.DropNewline | batmeter.py:46 | `replace('\n', "")` removes a trailing newline from a line that has no other |
| DeviceReader.DropPrefix | batmeter.py:47 | `replace("POWER_SUPPLY_", "")` drops a leading prefix and continues on the rest |
| Store.RecordStore.constructor | batmeter.py:138 | an opened database holds the documents it was given |
| Store.RecordStore.Insert | batmeter.py:81 | `db.insert` appends one document at the end and changes nothing else |
| Sampling.GracefulKiller.constructor | batmeter.py:29-34 | a new killer's flag is down |
| Sampling.GracefulKiller.ExitGracefully | batmeter.py:36-37 | after a signal the flag is up, whatever it was before |
| Sampling.WorldOf | batmeter.py:58-87 | a witness that `LogBatState`'s requirement `Observes(w, env)` can be met for every environment: the world it builds observes that environment |
| Sampling.ReadDevice | batmeter.py:79 | a read inside the loop returns what the world says for that read |
| Sampling.ReadSweep | batmeter.py:78-79 | a sweep has at most one reading per battery, and exactly one per battery when no read failed |
| Sampling.UnskippedMembers | batmeter.py:80-81 | a reading reaches the database exactly when it was read and `skip_cb` rejects it |
| Sampling.LogBatState | batmeter.py:58-87 | the database gains exactly the readings `Log` stores; the run returns their count when stopped, or the error it raises (an empty battery list, a failed read) while keeping what it inserted before |
| Sampling.SampleLoop | batmeter.py:74-86 | the `while` loop, from the first reading on, stores what `RunFrom` describes and ends as it does |
| Sampling.SweepOnce | batmeter.py:78-82 | one sweep inserts the unskipped readings in battery order, counts them, stops at the first failing read and returns the last reading |
| Sampling.ReadAndStore | batmeter.py:79-82 | one pass of the `for` body reads one battery and inserts its reading unless `skip_cb` accepts it; the database then holds the sweep's unskipped readings one battery further, or is unchanged when the read raises |
| Sampling.SweepFailsAt | batmeter.py:78-79 | a read that raises ends the sweep with the readings before it |
| Sampling.SweepReadsAt | batmeter.py:78-79 | a successful read extends the sweep by one reading |
| Sampling.UnskippedSnoc | batmeter.py:80-81 | one more reading is inserted unless `skip_cb` accepts it |
| Sampling.ReadSweepFailurePersists | batmeter.py:78-79 | after a failed read the sweep reads no further battery |
| Sampling.ReadSweepReadings | batmeter.py:78-79 | battery `i` of the list is read at read `t + i`, in list order, and a failure is at the first battery not read |
| Sampling.SweepStoresUnskipped | batmeter.py:78-82 | a sweep inserts exactly those readings of its own batteries that `skip_cb` rejects |
| Sampling.AdvanceSeesLastDevice | batmeter.py:76-79 | after a full sweep, the next test of `end_cb` sees the last battery's reading, and the database has gained that sweep's unskipped readings |
| Sampling.LogFirstTest | batmeter.py:71-76 | the first test of `end_cb` sees the first battery's reading, and no sweep happens when it accepts that reading or a signal came first |
| Sampling.RunFromStep | batmeter.py:76-83 | a loop test that does not stop the run leads to a sweep that either raises, ending the run with what it inserted so far, or reads every battery and leads to the next test |
| Sampling.LoopSweep | batmeter.py:78-83 | one sweep of the `while` loop adds its unskipped readings to the database and leaves the run where `RunFrom` continues or ends |
| Sampling.AdvanceStoresAll | batmeter.py:80-82 | with a `skip_cb` that rejects nothing, a full sweep stores one reading per battery |
| Sampling.RunFromStoresAll | batmeter.py:76-82 | with a `skip_cb` that rejects nothing, a stopped run stores the number of sweeps times the number of batteries |
| Sampling.NeverSkipStoresAll | batmeter.py:58-59 | with the default `skip_cb` (`lambda _: False`), a stopped `log_bat_state` stores sweeps × batteries readings |
| Sampling.SkipPowerZero | batmeter.py:124-129 | `skip_power_zero` raises `KeyError` exactly when `POWER_NOW` is missing, and answers true exactly when it is `"0"` |
| Sampling.PowerZeroNotStored | batmeter.py:141-142 | with `skip_power_zero` as `skip_cb`, of readings that report a power exactly those whose power is not `"0"` reach the database |
| Series.IdFieldsOf | batmeter.py:94-98 | the four fields are found exactly when the reading has all four keys; otherwise `KeyError` names a key that is missing |
| Series.GetUniqBatIds | batmeter.py:90-99 | `get_uniq_batID` returns each identifier of the readings once, in some order, or raises the `KeyError` that `UniqIds` describes |
| Series.UniqIdsFailurePersists | batmeter.py:93-98 | once a reading lacks a field, later readings change nothing |
| Series.UniqIdsSucceeds | batmeter.py:93-98 | `get_uniq_batID` succeeds exactly when every reading has the four fields |
| Series.UniqIdsMembers | batmeter.py:93-99 | its identifiers are exactly those of the readings |
| Series.UniqIdsFirstFailure | batmeter.py:93-98 | on failure it raises the `KeyError` of the first reading that lacks a field |
| Series.NewSerialNewId | batmeter.py:94-98 | two readings that differ only in the serial number give two identifiers, whatever the fields hold (dashes included) |
| Series.FormatIdLayout | batmeter.py:94-98 | the identifier is name, manufacturer and model each followed by a dash, then the serial number |
| Series.SplitFormatId | batmeter.py:94-98 | the identifier of dash-free fields splits on `-` into exactly those fields |
| Series.FormatIdInjective | batmeter.py:94-98 | dash-free fields are determined by their identifier |
| Series.FormatIdDashes | batmeter.py:94-98 | an identifier holds three dashes more than its four fields together |
| Series.SplitId | batmeter.py:103 | unpacking `batID.split("-")` into four names succeeds exactly when there are three dashes; otherwise `ValueError` reports the number of pieces |
| Series.SplitIdFormat | batmeter.py:103 | a successful split gives dash-free fields whose identifier is the one split |
| Series.FormatIdSplit | batmeter.py:103 | dash-free fields survive formatting and splitting |
| Series.GetUeventsByBatIdSpec | batmeter.py:101-111 | the lookup raises exactly on an identifier without three dashes; otherwise it returns exactly the records whose four fields are the identifier's pieces, and no more records than are stored |
| Series.GetUeventsByBatIdOrder | batmeter.py:105-110 | `db.search` keeps storage order: over records stored in two stretches, the lookup returns the first stretch's matches followed by the second's |
| Series.RecordFoundByOwnId | batmeter.py:90-111 | a stored record with dash-free fields is found by its own identifier |
| Series.DashBreaksLookup | batmeter.py:101-104 | a dash in any field makes the lookup by that record's own identifier raise `ValueError` with more than four pieces |
| Series.OneDashInModelNotFound | batmeter.py:101-104 | a model name like `01AV-430`, with one dash and none in the other fields, makes the lookup raise `ValueError` with five pieces |
| Series.RecordsOfBatId | batmeter.py:101-111 | the corrected lookup: the records whose own identifier is the one asked for; see `Series.RecordsOfBatIdFindsOwn` and `Series.LookupsAgree` |
| Series.RecordsOfBatIdFindsOwn | batmeter.py:101-111 | the corrected lookup finds every record with the four fields by its own identifier, whatever the fields hold |
| Series.LookupsAgree | batmeter.py:101-111 | on identifiers with three dashes, the lookup as written returns exactly what the corrected lookup returns |
| Series.SelectBatIds | batmeter.py:161-165 | the nested loops build `Selected`: each identifier once per `--battery` name it contains, in order |
| Series.IdsToPlot | batmeter.py:158-165 | the identifiers to plot are those found in the database, each as often as it contains `--battery` names, or the `KeyError` of `get_uniq_batID` |
| Series.CopiesSpec | batmeter.py:163-165 | for one identifier, the inner loop appends it once per `--battery` name it contains, and nothing else |
| Series.CopiesCount | batmeter.py:163-165 | the inner loop appends an identifier as often as it matches names, and no other identifier |
| Series.SelectedMembers | batmeter.py:161-165 | an identifier is selected exactly when it was found and contains some `--battery` name (as a substring, so `BAT1` also selects `BAT10-…`) |
| Series.SelectedCount | batmeter.py:158-165 | each of the distinct identifiers appears in the selection once per `--battery` name it contains |

## Findings

| source | as written | input that shows it | evidently intended | confidence | as-written member | corrected member |
|---|---|---|---|---|---|---|
| batmeter.py:101-104 | `get_uevents_by_batID` unpacks `batID.split("-")` into four names, but `get_uniq_batID` builds the identifier by joining fields that may themselves hold `-` | a record with `MODEL_NAME=01AV-430` and dash-free `NAME`, `MANUFACTURER`, `SERIAL_NUMBER`: its identifier splits into five pieces and the lookup raises `ValueError` | every identifier that `get_uniq_batID` returns finds its own records | medium, not executed | Series.GetUeventsByBatId (Series.OneDashInModelNotFound, Series.DashBreaksLookup) | Series.RecordsOfBatId (Series.RecordsOfBatIdFindsOwn, Series.LookupsAgree) |

## Left out

- Sampling.LogBatState: `end_cb` and `skip_cb` are total predicates. With `skip_power_zero` as `skip_cb`, a reading without `POWER_NOW` raises `KeyError`, which escapes the loop (batmeter.py:80, 126). The model does not capture this: `SkipsPowerZero` answers false there and the reading is stored. `Sampling.SkipPowerZero` itself models the `KeyError`.
- Sampling.LogBatState: termination rests on a ghost `bound`, a loop test before which a signal has arrived, and `requires env.signal(bound)` excludes every environment in which no signal ever arrives. Runs that `end_cb` or a failing read stops are covered only through an environment with a signal added after the stop, which changes nothing observable. A run that nothing ever stops is not modelled.
- Sampling.LogBatState: `KeyboardInterrupt` (batmeter.py:85-86) is not modelled. Once the killer is installed, SIGINT only raises its flag. A `KeyboardInterrupt` before that, during the first read, ends the program outside the loop.
- The interval is assumed non-negative. With a negative `--interval` (batmeter.py:19, 141, 83), `sleep` raises `ValueError` after the first full sweep. `except KeyboardInterrupt` does not catch it, so the run ends with that sweep's readings inserted. The model has no `timediff` and does not capture this.
- `sleep(timediff)`, the progress and tally `print`s and `datetime.now()` are left out: they change no state the model keeps. `time()` is the input `clock(t)`, already as the text `str(time())` gives.
- Signal registration (`signal.signal`, batmeter.py:33-34) is left out. The arrival of SIGINT or SIGTERM is the input `signal(n)`, and the handler is `ExitGracefully`.
- Opening the `uevent` file: any failure of `open` becomes `FileNotFound`. The file's contents are the input list that `readlines()` returns. Decoding errors are not modelled.
- TinyDB is modelled as a list in insertion order. Its JSON persistence, its access modes (`"r"` / `"r+"`, batmeter.py:133-138) and the query language beyond the four-field conjunction are left out.
- Series.GetUniqBatIds: the order of `list(set)` is unspecified in Python. The method returns the identifiers in an order it picks.
- `show_uevents_by_time` and the plotting in `main` (batmeter.py:113-122, 147-174) are not part of this model. This includes `axs[i]` and `colors[i]`, which raise `IndexError` when more identifiers are selected than batteries were given, or more than four.
- Command-line parsing (batmeter.py:14-27) and `setup.py` are not part of this model.
