# Windowed telemetry export, modelled in Dafny

This project models the telemetry export of `export/telemetry.py`: the operator command
that lists the devices of a ThingsBoard device profile and exports their data. For each device it
reads the device's attributes and telemetry keys, filters the keys by the `--keys` argument,
and downloads the device's time series in 24-hour request windows. It merges each window's
per-key samples into one row per timestamp, appends the non-empty batches to a table, sorts
the table by `ts` and names its output file. Each device builds a metadata record, but the
command appends only the last device's record to the list written to the metadata file, and
with no devices it fails before writing that file (see Findings).

The remote platform is represented by inputs. A `Platform` holds the answers to the
command's remote calls: the entity query, and per device id its attribute entries, its telemetry
keys and its time-series query (a function from keys, window start, window end and point limit
to a response). A `Device` gathers these answers for one id. Times are integer
milliseconds since the epoch. The calendar dates used in file names are inputs of the `Config`.

Modules:

- `WindowPlanner` (`windows.dfy`): the request windows over a time range.
- `Merge` (`merge.dfy`): the sample merge. It is specified declaratively over the flat
  sequence of (key, sample) events, and the nested `setdefault` loop is proved against that
  specification.
- `KeyFilter` (`keyfilter.dfy`): the comma split of `--keys` and the key filter.
- `Table` (`table.dfy`): batch rows, the accumulated table and the sort by `ts`.
- `Naming` (`naming.dfy`): the file names.
- `Export` (`export.dfy`): the device query, the window loop, one device's export, and the
  run as written next to the run with the metadata appended per device.

## Model

| member | source | states |
|---|---|---|
| WindowPlanner.WindowCountBrackets | export/telemetry.py:187-190 | a non-empty range of length L is split into n windows with (n-1)·w < L <= n·w |
| WindowPlanner.WindowCount | export/telemetry.py:187-190 | the number of requests is 0 when start >= end, and otherwise ceil((end-start)/window) |
| WindowPlanner.NoWindowsIffEmptyRange | export/telemetry.py:184-187 | no window is requested exactly when start >= end, and otherwise the first window starts at start |
| WindowPlanner.WindowAt | export/telemetry.py:184-190 | the i-th window starts at start + i·window and ends at min(its start + window, end) |
| WindowPlanner.WindowBounds | export/telemetry.py:189-190 | every window has start <= ts < te <= end and te - ts <= window |
| WindowPlanner.WindowsContiguous | export/telemetry.py:190 | each window ends where the next one starts |
| WindowPlanner.LastWindowEndsAtEnd | export/telemetry.py:187-190 | on a non-empty range the last window ends exactly at end |
| WindowPlanner.WindowsCover | export/telemetry.py:187-190 | each instant of [start, end) lies in exactly one window |
| WindowPlanner.CeilDivUnique | export/telemetry.py:187-190 | the ceiling quotient is the only n with (n-1)·w < a <= n·w |
| WindowPlanner.OneDayOneWindow | export/telemetry.py:45 | a range of exactly one day (86 400 000 ms) gives a single request |
| WindowPlanner.TwoDaysTwoWindows | export/telemetry.py:45 | a range of two days gives two consecutive one-day requests |
| Merge.MergeSamples | export/telemetry.py:206-212 | the nested setdefault loop builds exactly the declarative merge, with records in first-occurrence order of their timestamps |
| Merge.AddSample | export/telemetry.py:209-212 | one setdefault and field assignment turns the merge of the samples seen so far into the merge with one more sample |
| Merge.TsOrder | export/telemetry.py:206-211 | the insertion order of the records lists each sampled timestamp once and lists nothing else |
| Merge.MergedStep | export/telemetry.py:211-212 | adding one sample creates the record {"ts": t} when t is new and then sets that key's field, leaving other records alone |
| Merge.SetdefaultStep | export/telemetry.py:211-212 | one loop iteration keeps the records and their order equal to the merge of the samples seen so far |
| Merge.MergedOneRecordPerTimestamp | export/telemetry.py:206-211 | there is exactly one record per distinct timestamp over all keys' sample lists |
| Merge.MergedFieldIff | export/telemetry.py:207-212 | for a key other than "ts", a record at t has that key's field if and only if the key has a sample at t |
| Merge.MergedTsField | export/telemetry.py:211 | when no telemetry key is named "ts", each record's "ts" field equals its map key |
| Merge.TsKeyOverwritesTimestamp | export/telemetry.py:211-212 | a telemetry key named "ts" overwrites the record's timestamp cell with its own value |
| Merge.MergedLastValue | export/telemetry.py:207-212 | a key's field holds the value of that key's last sample at t, and keys sharing a timestamp do not overwrite each other |
| Merge.LastValueOfKey | export/telemetry.py:207-212 | with distinct response keys, the last event of a key at t is the last sample of that key's list at t |
| Merge.LastValueConcat | export/telemetry.py:207-212 | a later sample for the same key and time wins over an earlier one |
| Merge.LastValueOccurs | export/telemetry.py:209-212 | a recorded field value comes from an actual sample, and there is one exactly when such a sample exists |
| Merge.EventsMembership | export/telemetry.py:207-208 | the loops visit exactly the (key, sample) pairs of the response |
| Merge.TsSetIsSampleTimes | export/telemetry.py:207-209 | the timestamps visited are exactly the timestamps of all samples |
| Merge.MergeExample | export/telemetry.py:204-212 | the two-key example gives two records, the shared timestamp holding both keys |
| KeyFilter.Split | export/telemetry.py:177 | the comma split yields at least one part, and no part contains the separator |
| KeyFilter.JoinSplit | export/telemetry.py:177 | joining the parts of a split with the separator gives back the string |
| KeyFilter.SplitJoin | export/telemetry.py:177 | splitting a join of separator-free parts gives back the parts |
| KeyFilter.SplitAround | export/telemetry.py:177 | a separator-free head before a separator becomes the first part |
| KeyFilter.SelectMembership | export/telemetry.py:176-178 | a key is kept if and only if it is a device key that occurs in the wanted list |
| KeyFilter.SelectCount | export/telemetry.py:176-178 | each wanted key is kept as often as the device lists it, and any other key is dropped |
| KeyFilter.SelectKeepsOrder | export/telemetry.py:176-178 | the kept keys are a subsequence of the device's keys, in the device's order |
| KeyFilter.SelectAllWanted | export/telemetry.py:176-178 | when every device key is wanted, the list is unchanged |
| KeyFilter.ExportedKeysSpec | export/telemetry.py:175-180 | with no or an empty `--keys` the keys are unchanged; otherwise exactly the device keys occurring in the comma split, in order |
| KeyFilter.ExportedKeysExample | export/telemetry.py:175-178 | the argument "temp,hum" on keys hum, pres, temp exports hum and temp in the device's order |
| Table.BatchRowsSize | export/telemetry.py:215-216 | a batch contributes as many rows as its distinct sample timestamps, and none when it has no samples |
| Table.AccumulatedSize | export/telemetry.py:186-217 | the table's row count is the sum over windows of the distinct timestamps per window |
| Table.AccumulatedConcat | export/telemetry.py:217 | batches are concatenated, not merged by timestamp |
| Table.BatchRowsTimed | export/telemetry.py:211 | when no key is named "ts", every batch row has an integer "ts" |
| Table.Insert | export/telemetry.py:226 | inserting a row into a ts-sorted table keeps it sorted and adds exactly that row |
| Table.SortByTs | export/telemetry.py:226 | the sorted table is ascending by "ts" and holds the same multiset of rows |
| Table.InsertWithTs | export/telemetry.py:226 | inserting a row places it after the rows with the same "ts" and leaves the rows of every other time as they were |
| Table.SortByTsStable | export/telemetry.py:226 | for each time, the sorted table lists the rows of that time in their table order |
| Naming.Extension | export/telemetry.py:87-91 | the file extension is "csv" or "parquet" |
| Naming.FileNameShape | export/telemetry.py:230-243 | the table file is "<start>_<end>_<device>.<format>" and the metadata file is "<start>_<end>_metadata.json" |
| Naming.OutputFileInjective | export/telemetry.py:230-232 | two devices of the same run never share a table file name |
| Naming.MetaFileDistinct | export/telemetry.py:230-232 | no table file name equals the metadata file name |
| Export.AttributesKeys | export/telemetry.py:162 | the attribute map has exactly the keys of the attribute entries |
| Export.AttributesLastWins | export/telemetry.py:162 | each attribute key maps to its last entry's value |
| Export.CollectTelemetry | export/telemetry.py:184-220 | the loop requests exactly the planned windows, and the table is the concatenation of their batch rows |
| Export.AppendBatch | export/telemetry.py:204-217 | a window's response extends the table by exactly its batch rows, and an empty batch leaves it unchanged |
| Export.ExportDevice | export/telemetry.py:150-239 | fails exactly when the table is non-empty and either "ts" is an exported key (a second "ts" column) or a row has no integer "ts"; otherwise requests the planned windows, writes no file for an empty table, and writes the ts-sorted table under the device's file name with the device's metadata |
| Export.EmptyRangeSkipsDevice | export/telemetry.py:187-224 | with start >= end nothing is requested, the table is empty and the metadata has no file or size |
| Export.MetaOfSpec | export/telemetry.py:150-239 | the metadata holds the device id, its attribute keys, the unfiltered and the exported keys, and file and size exactly when rows exist, size being the row count |
| Export.MetasOfAt | export/telemetry.py:148-153 | the per-device metadata list has one entry per device, each that device's metadata |
| Export.RunStep | export/telemetry.py:149-239 | exporting one more device appends its table file exactly when its table has rows |
| Export.ExportRunAsWritten | export/telemetry.py:148-243 | fails with no devices, or at the first unsortable table with the earlier devices' files written and no metadata file; otherwise the metadata list holds only the last device's metadata |
| Export.AsWrittenLosesMetadata | export/telemetry.py:242 | with two or more devices, the list appended after the loop is not the devices' metadata list |
| Export.ExportRun | export/telemetry.py:148-243 | the corrected run: fails only at the first unsortable table, with the earlier devices' files written; otherwise one metadata entry per device in device order, skipped devices included, and the same files and metadata file name |
| Export.ExportProfileAsWritten | export/telemetry.py:139-243 | the command from the device query on: fails exactly when the profile's query finds no device or a table is unsortable; otherwise the metadata list holds only the metadata of the answer's last device |
| Export.ExportProfile | export/telemetry.py:50-243 | the corrected command: one metadata entry per entry of the device query's answer, in its order, carrying that entry's id; at most 1000 entries when the platform keeps to the query's page size of 1000 |

## Left out

- The REST client (login, entity query, attribute keys and values, time-series keys and data) is not modelled. Its answers are the fields of a `Platform`. The two attribute calls (keys, then values) are one answer: the attribute entries of the device.
- The comma-joining of the request's key list (`",".join(telemetry_keys)`) is not modelled; the time-series query receives the list.
- pandas internals are not modelled: column dtypes, NaN for missing cells, column order (rows are maps), and the CSV and Parquet serialisers. A written file is modelled as its name and its rows.
- Table.SortByTs: the sort is an insertion sort, proved stable by Table.SortByTsStable. pandas' default sort (quicksort) is not guaranteed stable, so the command may order rows that share a "ts" differently. The model fixes the stable order, and the file contents are exact only up to the order of such rows.
- Export.ExportDevice: an exported telemetry key named "ts" ends the run as soon as the table has rows, because the initial column list then names "ts" twice. Which pandas call raises (the concat or the sort) is not modelled, and neither is its exception type. A row without an integer "ts" is also reported as an error; pandas raises only when it actually compares such a value with an integer.
- ISO-8601 parsing, float `timestamp()` arithmetic, `ts_to_datetime` and the `.date()` strings: times are integer milliseconds, and the dates in file names are `Config` inputs.
- WindowPlanner.Windows is stated for any window width w > 0; the command always uses 24 hours.
- Argument parsing, token handling, logging, the file writes and the JSON serialisation of the metadata are not modelled.
- Transport and authentication failures of the remote calls are not modelled: the platform's answers are total functions. In the command such a failure aborts the run, after the table files of the earlier devices were written and before any metadata file is.
- `export/get_attribute.py` and the MQTT device demos are not part of this model.

## Findings

| source | as written | input that shows it | evidently intended | confidence | as-written member | corrected member |
|---|---|---|---|---|---|---|
| export/telemetry.py:242 | `all_meta.append(meta)` runs once, after the device loop | two devices: the metadata file lists only the second; zero devices: `meta` is unbound when line 242 runs | append each device's metadata inside the loop, including devices skipped for lack of data, so that an empty run writes an empty list | high; not executed | Export.ExportRunAsWritten | Export.ExportRun |
