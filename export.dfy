/**
 * The telemetry export of one run: the device query, and for each device its attributes,
 * its telemetry keys, the windowed download of its samples into one table, the sorted table
 * file and the device's metadata; after the device loop, the run's metadata file.
 * The remote platform is represented by the inputs: the devices the query finds, each with
 * its attribute entries, its telemetry keys and its time-series query.
 */
module Export {
  import opened Wrappers
  import opened WindowPlanner
  import opened Merge
  import opened KeyFilter
  import opened Table
  import opened Naming

  /** The most devices one query returns. */
  const DeviceLimit: nat := 1000

  datatype EntityFilter = EntityFilter(filterType: string, deviceType: string)
  datatype PageLink = PageLink(pageSize: nat, page: nat)

  /** The entity query that lists the devices of a device profile. */
  datatype DeviceQuery = DeviceQuery(entityFilter: EntityFilter, pageLink: PageLink)

  /** One entry of the entity query's answer. */
  datatype EntityData = EntityData(entityId: string)

  /** The query for all devices of profile `profile`: a device-type filter, first page, at most `DeviceLimit` entries. */
  function DeviceQueryFor(profile: string): (q: DeviceQuery)
    ensures q.entityFilter == EntityFilter("deviceType", profile)
    ensures q.pageLink.page == 0 && q.pageLink.pageSize == DeviceLimit
  {
    DeviceQuery(EntityFilter("deviceType", profile), PageLink(DeviceLimit, 0))
  }

  /** The device ids of the query's answer, in its order. */
  function DeviceIds(data: seq<EntityData>): (ids: seq<string>)
    ensures |ids| == |data|
    ensures forall i :: 0 <= i < |ids| ==> ids[i] == data[i].entityId
  {
    seq(|data|, i requires 0 <= i < |data| => data[i].entityId)
  }

  /** One entry of the attribute query's answer. */
  datatype AttributeEntry = AttributeEntry(key: string, value: Value)

  /** `{a["key"]: a["value"] for a in res}`: a later entry for the same key wins. */
  function Attributes(entries: seq<AttributeEntry>): map<string, Value>
  {
    if entries == [] then map[]
    else
      var last := entries[|entries| - 1];
      Attributes(entries[..|entries| - 1])[last.key := last.value]
  }

  /** The attribute map has exactly the entries' keys. */
  lemma {:induction false} AttributesKeys(entries: seq<AttributeEntry>)
    ensures Attributes(entries).Keys == set i | 0 <= i < |entries| :: entries[i].key
  {
    if entries != [] {
      var n := |entries| - 1;
      var prefix := entries[..n];
      AttributesKeys(prefix);
      assert (set i | 0 <= i < |entries| :: entries[i].key) == (set i | 0 <= i < n :: prefix[i].key) + {entries[n].key} by {
        forall i | 0 <= i < n ensures entries[i].key == prefix[i].key { }
      }
    }
  }

  /** Each key maps to the value of its last entry. */
  lemma {:induction false} AttributesLastWins(entries: seq<AttributeEntry>, i: nat)
    requires i < |entries|
    requires forall j :: i < j < |entries| ==> entries[j].key != entries[i].key
    ensures entries[i].key in Attributes(entries)
    ensures Attributes(entries)[entries[i].key] == entries[i].value
  {
    var n := |entries| - 1;
    if i < n {
      var prefix := entries[..n];
      assert prefix[i] == entries[i];
      AttributesLastWins(prefix, i);
    }
  }

  /** A device as the platform describes it. */
  datatype Device = Device(id: string, attributeEntries: seq<AttributeEntry>, telemetryKeys: seq<string>, fetch: Fetch)

  /** The command's arguments that the export uses; the dates are the start and end times' calendar dates. */
  datatype Config = Config(startMs: int, endMs: int, startDate: string, endDate: string, keysArg: Option<string>, format: Format)

  /** The "telemetry" part of a device's metadata; `file` and `size` are set only when a table was written. */
  datatype TelemetryMeta = TelemetryMeta(keys: seq<string>, exportedKeys: seq<string>, file: Option<string>, size: Option<nat>)

  datatype DeviceMeta = DeviceMeta(deviceId: string, attributes: map<string, Value>, telemetry: TelemetryMeta)

  /** A table file: its name and its rows, in file order. */
  datatype Written = Written(file: string, rows: seq<Row>)

  /** The result of exporting one device: its metadata, the windows it requested and the file it wrote, if any. */
  datatype DeviceExport = DeviceExport(meta: DeviceMeta, requests: seq<Window>, written: Option<Written>)

  /**
   * The errors that end a run: a non-empty table whose "ts" column pandas cannot sort (an
   * exported telemetry key named "ts" doubles the column, and a text "ts" cell cannot be
   * compared with the integer ones), and the metadata append after a device loop that never ran.
   */
  datatype ExportError = TsColumnError(deviceId: string) | MetaUndefined

  /** A run that ended with `error`, and the table files written before it. */
  datatype RunFailure = RunFailure(error: ExportError, written: seq<Written>)

  /** The device's table before sorting: the rows of all its windows, concatenated. */
  function DeviceTable(cfg: Config, dev: Device): seq<Row>
  {
    Accumulated(Windows(cfg.startMs, cfg.endMs, BatchWindow), dev.fetch, ExportedKeys(dev.telemetryKeys, cfg.keysArg))
  }

  /**
   * The device's non-empty table cannot be sorted by "ts": the column list `["ts", *keys]`
   * names "ts" twice because "ts" is an exported key, or a row has no integer "ts".
   */
  predicate Unorderable(cfg: Config, dev: Device) {
    var table := DeviceTable(cfg, dev);
    |table| > 0 && (TsColumn in ExportedKeys(dev.telemetryKeys, cfg.keysArg) || !AllTimed(table))
  }

  /** The metadata recorded for a device. */
  function MetaOf(cfg: Config, dev: Device): DeviceMeta
  {
    var table := DeviceTable(cfg, dev);
    var telemetry := TelemetryMeta(dev.telemetryKeys, ExportedKeys(dev.telemetryKeys, cfg.keysArg), None, None);
    var written := if |table| == 0 then telemetry
      else telemetry.(file := Some(OutputFile(cfg.startDate, cfg.endDate, dev.id, cfg.format)), size := Some(|table|));
    DeviceMeta(dev.id, Attributes(dev.attributeEntries), written)
  }

  /**
   * The window loop: from the start time, while the current time is before the end time,
   * request the window from the current time to one batch window later or the end time,
   * merge its samples and append the records if there are any, then advance by one window.
   */
  method CollectTelemetry(fetch: Fetch, keys: seq<string>, start: int, end: int)
    returns (table: seq<Row>, requests: seq<Window>)
    ensures requests == Windows(start, end, BatchWindow)
    ensures table == Accumulated(requests, fetch, keys)
  {
    table, requests := [], [];
    var current := start;
    ghost var all := Windows(start, end, BatchWindow);
    ghost var k := 0;
    while current < end
      invariant 0 <= k <= |all|
      invariant Windows(current, end, BatchWindow) == all[k..]
      invariant requests == all[..k]
      invariant table == Accumulated(all[..k], fetch, keys)
      decreases end - current
    {
      var ts := current;
      var te := Min(current + BatchWindow, end);
      assert all[k] == Window(ts, te) && Windows(current + BatchWindow, end, BatchWindow) == all[k + 1..];
      assert all[..k + 1] == all[..k] + [Window(ts, te)];
      AccumulatedConcat(all[..k], [Window(ts, te)], fetch, keys);
      requests := requests + [Window(ts, te)];
      var res := fetch(keys, ts, te, PointsLimit);
      table := AppendBatch(table, res);
      current := current + BatchWindow;
      k := k + 1;
    }
    assert all[..k] == all;
  }

  /**
   * Merges one window's response and appends its records to the table when there are any
   * (`pd.concat` of the records built from the response).
   */
  method AppendBatch(table: seq<Row>, res: Response) returns (extended: seq<Row>)
    ensures extended == table + BatchRows(res)
  {
    var records, order := MergeSamples(res);
    NonEmptyBatchRows(res, records, order);
    extended := table;
    if |records| > 0 {
      extended := table + RowsOf(records, order);
    }
  }

  /** Appending only non-empty batches appends exactly the batch rows. */
  lemma {:induction false} NonEmptyBatchRows(res: Response, records: map<int, Row>, order: seq<int>)
    requires records == Merged(Events(res)) && order == TsOrder(Events(res))
    ensures forall i :: 0 <= i < |order| ==> order[i] in records
    ensures (if |records| > 0 then RowsOf(records, order) else []) == BatchRows(res)
  {
    MergedOneRecordPerTimestamp(res);
    assert |records| == |records.Keys|;
  }

  /**
   * Exports one device: records its attributes and keys, collects its table window by
   * window, then either skips an empty table or sorts it and names its file.
   */
  method ExportDevice(cfg: Config, dev: Device) returns (r: Result<DeviceExport, ExportError>)
    ensures r.Failure? <==> Unorderable(cfg, dev)
    ensures r.Failure? ==> r.error == TsColumnError(dev.id)
    ensures r.Success? ==> r.value.requests == Windows(cfg.startMs, cfg.endMs, BatchWindow)
    ensures r.Success? ==> r.value.meta == MetaOf(cfg, dev)
    ensures r.Success? ==> (r.value.written.None? <==> |DeviceTable(cfg, dev)| == 0)
    ensures r.Success? && r.value.written.Some? ==>
      && AllTimed(DeviceTable(cfg, dev))
      && r.value.written.value ==
        Written(OutputFile(cfg.startDate, cfg.endDate, dev.id, cfg.format), SortByTs(DeviceTable(cfg, dev)))
  {
    var meta := DeviceMeta(dev.id, Attributes(dev.attributeEntries), TelemetryMeta([], [], None, None));
    var keys := dev.telemetryKeys;
    meta := meta.(telemetry := meta.telemetry.(keys := keys));
    keys := ExportedKeys(keys, cfg.keysArg);
    meta := meta.(telemetry := meta.telemetry.(exportedKeys := keys));

    var table, requests := CollectTelemetry(dev.fetch, keys, cfg.startMs, cfg.endMs);
    assert table == DeviceTable(cfg, dev);
    if |table| == 0 {
      return Success(DeviceExport(meta, requests, None));
    }
    if TsColumn in keys || exists i :: 0 <= i < |table| && !Timed(table[i]) {
      return Failure(TsColumnError(dev.id));
    }
    var sorted := SortByTs(table);
    var outputFile := OutputFile(cfg.startDate, cfg.endDate, dev.id, cfg.format);
    meta := meta.(telemetry := meta.telemetry.(file := Some(outputFile), size := Some(|table|)));
    r := Success(DeviceExport(meta, requests, Some(Written(outputFile, sorted))));
  }

  /** With an empty or inverted time range nothing is requested, the table is empty and the device gets no file. */
  lemma {:induction false} EmptyRangeSkipsDevice(cfg: Config, dev: Device)
    requires cfg.startMs >= cfg.endMs
    ensures DeviceTable(cfg, dev) == []
    ensures !Unorderable(cfg, dev)
    ensures MetaOf(cfg, dev).telemetry.file.None? && MetaOf(cfg, dev).telemetry.size.None?
  {
  }

  /**
   * The metadata of a device: its id and attributes, the full key list under `keys`, the
   * filtered list under `exportedKeys`, and `file`/`size` exactly when the table has rows,
   * `size` being the number of distinct sample timestamps summed over the windows.
   */
  lemma {:induction false} MetaOfSpec(cfg: Config, dev: Device)
    ensures var m := MetaOf(cfg, dev);
      && m.deviceId == dev.id
      && m.attributes.Keys == (set i | 0 <= i < |dev.attributeEntries| :: dev.attributeEntries[i].key)
      && m.telemetry.keys == dev.telemetryKeys
      && m.telemetry.exportedKeys == ExportedKeys(dev.telemetryKeys, cfg.keysArg)
      && (m.telemetry.file.Some? <==> m.telemetry.size.Some?)
      && (m.telemetry.size.Some? <==> RowCount(Windows(cfg.startMs, cfg.endMs, BatchWindow), dev.fetch, m.telemetry.exportedKeys) > 0)
      && (m.telemetry.size.Some? ==>
            && m.telemetry.size.value == RowCount(Windows(cfg.startMs, cfg.endMs, BatchWindow), dev.fetch, m.telemetry.exportedKeys)
            && m.telemetry.file.value == OutputFile(cfg.startDate, cfg.endDate, dev.id, cfg.format))
  {
    AttributesKeys(dev.attributeEntries);
    AccumulatedSize(Windows(cfg.startMs, cfg.endMs, BatchWindow), dev.fetch, ExportedKeys(dev.telemetryKeys, cfg.keysArg));
  }

  /** The result of a whole run: the table files in write order, the metadata list and the metadata file name. */
  datatype RunOutput = RunOutput(written: seq<Written>, allMeta: seq<DeviceMeta>, metaFile: string)

  /** No device of the run meets an unsortable table. */
  predicate AllOrderable(cfg: Config, devices: seq<Device>) {
    forall i :: 0 <= i < |devices| ==> !Unorderable(cfg, devices[i])
  }

  /** The table files of the devices whose tables have rows, in device order. */
  function WrittenFiles(cfg: Config, devices: seq<Device>): seq<Written>
    requires AllOrderable(cfg, devices)
  {
    if devices == [] then []
    else
      var dev := devices[|devices| - 1];
      var table := DeviceTable(cfg, dev);
      WrittenFiles(cfg, devices[..|devices| - 1]) +
        (if |table| == 0 then [] else [Written(OutputFile(cfg.startDate, cfg.endDate, dev.id, cfg.format), SortByTs(table))])
  }

  /** Extending the devices by one extends the orderable prefix and the written files by that device's. */
  lemma {:induction false} RunStep(cfg: Config, devices: seq<Device>, i: nat)
    requires i < |devices|
    requires AllOrderable(cfg, devices[..i]) && !Unorderable(cfg, devices[i])
    ensures AllOrderable(cfg, devices[..i + 1])
    ensures var table := DeviceTable(cfg, devices[i]);
      WrittenFiles(cfg, devices[..i + 1]) == WrittenFiles(cfg, devices[..i]) +
        (if |table| == 0 then [] else [Written(OutputFile(cfg.startDate, cfg.endDate, devices[i].id, cfg.format), SortByTs(table))])
  {
    assert devices[..i + 1][..i] == devices[..i];
    assert devices[..i + 1][i] == devices[i];
  }

  /** The metadata of each device, in device order. */
  function MetasOf(cfg: Config, devices: seq<Device>): seq<DeviceMeta>
  {
    if devices == [] then [] else MetasOf(cfg, devices[..|devices| - 1]) + [MetaOf(cfg, devices[|devices| - 1])]
  }

  lemma {:induction false} MetasOfAt(cfg: Config, devices: seq<Device>)
    ensures |MetasOf(cfg, devices)| == |devices|
    ensures forall i :: 0 <= i < |devices| ==> MetasOf(cfg, devices)[i] == MetaOf(cfg, devices[i])
  {
    if devices != [] {
      var prefix := devices[..|devices| - 1];
      MetasOfAt(cfg, prefix);
      forall i | 0 <= i < |devices| - 1 ensures MetasOf(cfg, devices)[i] == MetaOf(cfg, devices[i]) {
        assert prefix[i] == devices[i];
      }
    }
  }

  /** The first device whose table cannot be sorted, if any: the one whose error ends the run. */
  predicate FirstUnorderable(cfg: Config, devices: seq<Device>, i: int) {
    0 <= i < |devices| && Unorderable(cfg, devices[i]) && AllOrderable(cfg, devices[..i])
  }

  /**
   * The run as the command performs it: every device is exported in turn, and after the
   * loop the metadata list receives `meta` once, which holds the last device's metadata;
   * with no devices `meta` was never assigned and the append fails. A failure leaves the
   * table files of the devices before it written, and no metadata file.
   */
  method ExportRunAsWritten(cfg: Config, devices: seq<Device>) returns (r: Result<RunOutput, RunFailure>)
    ensures r.Failure? <==> devices == [] || !AllOrderable(cfg, devices)
    ensures r.Failure? ==>
      (devices == [] && r.error == RunFailure(MetaUndefined, [])) ||
      (exists i :: FirstUnorderable(cfg, devices, i) &&
        r.error == RunFailure(TsColumnError(devices[i].id), WrittenFiles(cfg, devices[..i])))
    ensures r.Success? ==>
      && AllOrderable(cfg, devices)
      && r.value.allMeta == [MetaOf(cfg, devices[|devices| - 1])]
      && r.value.written == WrittenFiles(cfg, devices)
      && r.value.metaFile == MetaFile(cfg.startDate, cfg.endDate)
  {
    var written: seq<Written> := [];
    var allMeta: seq<DeviceMeta> := [];
    var meta: Option<DeviceMeta> := None;
    for i := 0 to |devices|
      invariant AllOrderable(cfg, devices[..i])
      invariant written == WrittenFiles(cfg, devices[..i])
      invariant i == 0 <==> meta.None?
      invariant i > 0 ==> meta == Some(MetaOf(cfg, devices[i - 1]))
    {
      var d := ExportDevice(cfg, devices[i]);
      if d.Failure? {
        assert FirstUnorderable(cfg, devices, i);
        return Failure(RunFailure(d.error, written));
      }
      meta := Some(d.value.meta);
      RunStep(cfg, devices, i);
      if d.value.written.Some? {
        written := written + [d.value.written.value];
      }
    }
    assert devices[..|devices|] == devices;
    if meta.None? {
      return Failure(RunFailure(MetaUndefined, written));
    }
    allMeta := allMeta + [meta.value];
    r := Success(RunOutput(written, allMeta, MetaFile(cfg.startDate, cfg.endDate)));
  }

  /**
   * With two or more devices the single entry the command appends after the loop is not the
   * list of the devices' metadata: every device but the last is missing from it.
   */
  lemma {:induction false} AsWrittenLosesMetadata(cfg: Config, devices: seq<Device>)
    requires |devices| >= 2
    ensures [MetaOf(cfg, devices[|devices| - 1])] != MetasOf(cfg, devices)
  {
    MetasOfAt(cfg, devices);
  }

  /**
   * The run with the metadata of every device appended inside the device loop, skipped
   * devices included, so that the metadata list has one entry per device in device order
   * and an empty run writes an empty list. A failure leaves the table files of the devices
   * before it written, and no metadata file.
   */
  method ExportRun(cfg: Config, devices: seq<Device>) returns (r: Result<RunOutput, RunFailure>)
    ensures r.Failure? <==> !AllOrderable(cfg, devices)
    ensures r.Failure? ==>
      exists i :: FirstUnorderable(cfg, devices, i) &&
        r.error == RunFailure(TsColumnError(devices[i].id), WrittenFiles(cfg, devices[..i]))
    ensures r.Success? ==>
      && AllOrderable(cfg, devices)
      && |r.value.allMeta| == |devices|
      && (forall i :: 0 <= i < |devices| ==> r.value.allMeta[i] == MetaOf(cfg, devices[i]))
      && r.value.written == WrittenFiles(cfg, devices)
      && r.value.metaFile == MetaFile(cfg.startDate, cfg.endDate)
  {
    var written: seq<Written> := [];
    var allMeta: seq<DeviceMeta> := [];
    for i := 0 to |devices|
      invariant AllOrderable(cfg, devices[..i])
      invariant written == WrittenFiles(cfg, devices[..i])
      invariant allMeta == MetasOf(cfg, devices[..i])
    {
      var d := ExportDevice(cfg, devices[i]);
      if d.Failure? {
        assert FirstUnorderable(cfg, devices, i);
        return Failure(RunFailure(d.error, written));
      }
      allMeta := allMeta + [d.value.meta];
      RunStep(cfg, devices, i);
      assert devices[..i + 1][..i] == devices[..i];
      if d.value.written.Some? {
        written := written + [d.value.written.value];
      }
    }
    assert devices[..|devices|] == devices;
    MetasOfAt(cfg, devices);
    r := Success(RunOutput(written, allMeta, MetaFile(cfg.startDate, cfg.endDate)));
  }

  /** The platform's answers to the command's remote calls, by query or by device id. */
  datatype Platform = Platform(
    findEntities: DeviceQuery -> seq<EntityData>,
    attributeEntries: string -> seq<AttributeEntry>,
    telemetryKeys: string -> seq<string>,
    timeseries: string -> Fetch)

  /** A platform whose entity query returns no more entries than the query's page size. */
  ghost predicate AnswersWithinPage(p: Platform) {
    forall q :: |p.findEntities(q)| <= q.pageLink.pageSize
  }

  /** The device with id `id` as the platform's attribute, key and time-series calls describe it. */
  function DeviceOf(p: Platform, id: string): Device {
    Device(id, p.attributeEntries(id), p.telemetryKeys(id), p.timeseries(id))
  }

  /** The devices of profile `profile`, in the order of the entity query's answer. */
  function ProfileDevices(p: Platform, profile: string): seq<Device>
  {
    var ids := DeviceIds(p.findEntities(DeviceQueryFor(profile)));
    seq(|ids|, i requires 0 <= i < |ids| => DeviceOf(p, ids[i]))
  }

  /** The devices of the profile are those of the query's answer, one per entry, in its order. */
  lemma {:induction false} ProfileDevicesAt(p: Platform, profile: string)
    ensures var answer := p.findEntities(DeviceQueryFor(profile));
      && |ProfileDevices(p, profile)| == |answer|
      && forall i :: 0 <= i < |answer| ==>
           ProfileDevices(p, profile)[i] == DeviceOf(p, answer[i].entityId)
  {
  }

  /**
   * The command as written, from the device query on: list the devices of the profile,
   * then run the device loop with the metadata append after it.
   */
  method ExportProfileAsWritten(cfg: Config, p: Platform, profile: string) returns (r: Result<RunOutput, RunFailure>)
    ensures var answer := p.findEntities(DeviceQueryFor(profile));
      r.Failure? <==> answer == [] || !AllOrderable(cfg, ProfileDevices(p, profile))
    ensures var answer := p.findEntities(DeviceQueryFor(profile));
      r.Success? ==>
        && |answer| > 0
        && r.value.allMeta == [MetaOf(cfg, DeviceOf(p, answer[|answer| - 1].entityId))]
        && r.value.written == WrittenFiles(cfg, ProfileDevices(p, profile))
        && r.value.metaFile == MetaFile(cfg.startDate, cfg.endDate)
    ensures var answer := p.findEntities(DeviceQueryFor(profile));
      var devices := ProfileDevices(p, profile);
      r.Failure? ==>
        (answer == [] && r.error == RunFailure(MetaUndefined, [])) ||
        (exists i :: FirstUnorderable(cfg, devices, i) &&
          r.error == RunFailure(TsColumnError(answer[i].entityId), WrittenFiles(cfg, devices[..i])))
  {
    var answer := p.findEntities(DeviceQueryFor(profile));
    var ids := DeviceIds(answer);
    var devices := seq(|ids|, i requires 0 <= i < |ids| => DeviceOf(p, ids[i]));
    assert devices == ProfileDevices(p, profile);
    ProfileDevicesAt(p, profile);
    r := ExportRunAsWritten(cfg, devices);
  }

  /**
   * The corrected command from the device query on: one metadata entry per device of the
   * answer, in its order, carrying that device's id; a platform that keeps to the query's
   * page size yields at most `DeviceLimit` entries.
   */
  method ExportProfile(cfg: Config, p: Platform, profile: string) returns (r: Result<RunOutput, RunFailure>)
    ensures r.Failure? <==> !AllOrderable(cfg, ProfileDevices(p, profile))
    ensures var answer := p.findEntities(DeviceQueryFor(profile));
      r.Success? ==>
        && |r.value.allMeta| == |answer|
        && (forall i :: 0 <= i < |answer| ==>
              && r.value.allMeta[i].deviceId == answer[i].entityId
              && r.value.allMeta[i] == MetaOf(cfg, DeviceOf(p, answer[i].entityId)))
        && r.value.written == WrittenFiles(cfg, ProfileDevices(p, profile))
        && r.value.metaFile == MetaFile(cfg.startDate, cfg.endDate)
    ensures r.Success? && AnswersWithinPage(p) ==> |r.value.allMeta| <= DeviceLimit
    ensures var answer := p.findEntities(DeviceQueryFor(profile));
      var devices := ProfileDevices(p, profile);
      r.Failure? ==>
        exists i :: FirstUnorderable(cfg, devices, i) &&
          r.error == RunFailure(TsColumnError(answer[i].entityId), WrittenFiles(cfg, devices[..i]))
  {
    var answer := p.findEntities(DeviceQueryFor(profile));
    var ids := DeviceIds(answer);
    var devices := seq(|ids|, i requires 0 <= i < |ids| => DeviceOf(p, ids[i]));
    assert devices == ProfileDevices(p, profile);
    ProfileDevicesAt(p, profile);
    r := ExportRun(cfg, devices);
  }
}
