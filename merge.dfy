/**
 * The sample merger of the telemetry export: a time-series response
 * `{key: [{ts, value}, ...], ...}` is turned into one record per timestamp, each
 * record created by `setdefault(ts, {"ts": ts})` and then given the sample's value
 * under the sample's key.
 */
module Merge {
  import opened Wrappers

  /** A telemetry or attribute value as the platform returns it. */
  datatype Value = Int(i: int) | Text(s: string)

  /** One sample of one telemetry key: its timestamp in milliseconds and its value. */
  datatype Sample = Sample(ts: int, value: Value)

  /** A time-series response, in the response's own key order. */
  type Response = seq<(string, seq<Sample>)>

  /** A record (a table row): column name to value. */
  type Row = map<string, Value>

  /** The name of the timestamp column. */
  const TsColumn: string := "ts"

  /** The response's keys are distinct, as those of the dictionary it is decoded into. */
  predicate DistinctKeys(res: Response) {
    forall i, j :: 0 <= i < j < |res| ==> res[i].0 != res[j].0
  }

  /** One step of the merge: the sample `sample` of key `key`. */
  datatype Event = Event(key: string, sample: Sample)

  function Tagged(key: string, samples: seq<Sample>): (r: seq<Event>)
    ensures |r| == |samples|
    ensures forall j :: 0 <= j < |r| ==> r[j] == Event(key, samples[j])
  {
    seq(|samples|, j requires 0 <= j < |samples| => Event(key, samples[j]))
  }

  /** The samples of the response in the order the merge visits them: key by key, sample by sample. */
  function Events(res: Response): seq<Event>
  {
    if res == [] then [] else Events(res[..|res| - 1]) + Tagged(res[|res| - 1].0, res[|res| - 1].1)
  }

  /** The timestamps that occur in `es`. */
  function TsSet(es: seq<Event>): set<int> {
    set e | e in es :: e.sample.ts
  }

  /** The keys that occur in `es`. */
  function KeySet(es: seq<Event>): set<string> {
    set e | e in es :: e.key
  }

  /** The value of the last sample of `key` at time `t` in `es`, if there is one. */
  function LastValue(es: seq<Event>, key: string, t: int): Option<Value>
  {
    if es == [] then None
    else
      var e := es[|es| - 1];
      if e.key == key && e.sample.ts == t then Some(e.sample.value) else LastValue(es[..|es| - 1], key, t)
  }

  /** The keys that have a sample at time `t`, each with its last value at `t`. */
  function Fields(es: seq<Event>, t: int): map<string, Value>
  {
    map k | k in KeySet(es) && LastValue(es, k, t).Some? :: LastValue(es, k, t).value
  }

  /** The record at time `t`: the fields at `t`, and the timestamp under "ts" unless a key of that name has a sample there. */
  function Record(es: seq<Event>, t: int): Row
  {
    var fields := Fields(es, t);
    if TsColumn in fields then fields else fields[TsColumn := Int(t)]
  }

  /** What the merge is meant to build: one record per distinct timestamp. */
  function Merged(es: seq<Event>): map<int, Row>
  {
    map t | t in TsSet(es) :: Record(es, t)
  }

  /**
   * The distinct timestamps of `es` in order of first occurrence: the order in which
   * the merge inserts records, and so the order of `records.values()`.
   */
  function TsOrder(es: seq<Event>): (r: seq<int>)
    ensures forall i, j :: 0 <= i < j < |r| ==> r[i] != r[j]
    ensures forall t :: t in r <==> t in TsSet(es)
  {
    if es == [] then []
    else
      var prefix := es[..|es| - 1];
      var t := es[|es| - 1].sample.ts;
      assert es == prefix + [es[|es| - 1]];
      assert TsSet(es) == TsSet(prefix) + {t};
      if t in TsSet(prefix) then TsOrder(prefix) else TsOrder(prefix) + [t]
  }

  lemma {:induction false} LastValueStep(es: seq<Event>, e: Event, key: string, t: int)
    ensures LastValue(es + [e], key, t) ==
      if e.key == key && e.sample.ts == t then Some(e.sample.value) else LastValue(es, key, t)
  {
    assert (es + [e])[..|es|] == es;
  }

  /** A last value exists only for a key and a timestamp that occur together in `es`. */
  lemma {:induction false} LastValueOccurs(es: seq<Event>, key: string, t: int)
    ensures LastValue(es, key, t).Some? ==> Event(key, Sample(t, LastValue(es, key, t).value)) in es
    ensures LastValue(es, key, t).Some? <==> exists e :: e in es && e.key == key && e.sample.ts == t
  {
    if es != [] {
      var prefix := es[..|es| - 1];
      assert es == prefix + [es[|es| - 1]];
      LastValueOccurs(prefix, key, t);
    }
  }

  lemma {:induction false} FieldsStep(es: seq<Event>, e: Event, t: int)
    ensures Fields(es + [e], t) ==
      if e.sample.ts == t then Fields(es, t)[e.key := e.sample.value] else Fields(es, t)
  {
    var es' := es + [e];
    assert KeySet(es') == KeySet(es) + {e.key};
    forall k ensures LastValue(es', k, t) == if e.key == k && e.sample.ts == t then Some(e.sample.value) else LastValue(es, k, t) {
      LastValueStep(es, e, k, t);
    }
    forall k | LastValue(es, k, t).Some? ensures k in KeySet(es) {
      LastValueOccurs(es, k, t);
      var x :| x in es && x.key == k && x.sample.ts == t;
    }
    var lhs := Fields(es', t);
    var rhs := if e.sample.ts == t then Fields(es, t)[e.key := e.sample.value] else Fields(es, t);
    assert lhs.Keys == rhs.Keys;
  }

  /** Outside `es`'s timestamps there are no fields. */
  lemma {:induction false} FieldsOutside(es: seq<Event>, t: int)
    requires t !in TsSet(es)
    ensures Fields(es, t) == map[]
  {
    forall k | k in KeySet(es) ensures LastValue(es, k, t).None? {
      LastValueOccurs(es, k, t);
    }
  }

  /** The record at `t` after one more sample, in terms of the record before it. */
  lemma {:induction false} RecordStep(es: seq<Event>, e: Event, t: int)
    ensures var row := if t in TsSet(es) then Record(es, t) else map[TsColumn := Int(t)];
      Record(es + [e], t) == if e.sample.ts == t then row[e.key := e.sample.value] else Record(es, t)
  {
    FieldsStep(es, e, t);
    if e.sample.ts == t {
      var f := Fields(es, t);
      var row := if t in TsSet(es) then Record(es, t) else map[TsColumn := Int(t)];
      if t !in TsSet(es) {
        FieldsOutside(es, t);
        assert f == map[];
      }
      assert row == if TsColumn in f then f else f[TsColumn := Int(t)];
      if TsColumn in f || e.key == TsColumn {
        assert Record(es + [e], t) == f[e.key := e.sample.value];
      } else {
        assert Record(es + [e], t) == f[e.key := e.sample.value][TsColumn := Int(t)];
      }
    }
  }

  /**
   * Merging one more sample does what `setdefault` followed by the field assignment does:
   * the record at the sample's timestamp is created with its "ts" field if it is new, the
   * sample's value is written under the sample's key, and every other record is untouched.
   */
  lemma {:induction false} MergedStep(es: seq<Event>, e: Event)
    ensures var m := Merged(es);
      var row := if e.sample.ts in m then m[e.sample.ts] else map[TsColumn := Int(e.sample.ts)];
      Merged(es + [e]) == m[e.sample.ts := row[e.key := e.sample.value]]
  {
    var es' := es + [e];
    var m := Merged(es);
    var ts := e.sample.ts;
    var row := if ts in m then m[ts] else map[TsColumn := Int(ts)];
    var rhs := m[ts := row[e.key := e.sample.value]];
    assert TsSet(es') == TsSet(es) + {ts};
    forall t | t in TsSet(es') ensures Merged(es')[t] == rhs[t] {
      RecordStep(es, e, t);
    }
    assert Merged(es').Keys == rhs.Keys;
  }

  lemma {:induction false} TsOrderStep(es: seq<Event>, e: Event)
    ensures TsOrder(es + [e]) == if e.sample.ts in TsSet(es) then TsOrder(es) else TsOrder(es) + [e.sample.ts]
  {
    assert (es + [e])[..|es|] == es;
  }

  lemma {:induction false} EventsPrefixStep(res: Response, i: nat)
    requires i < |res|
    ensures Events(res[..i + 1]) == Events(res[..i]) + Tagged(res[i].0, res[i].1)
  {
    assert res[..i + 1][..i] == res[..i];
  }

  lemma {:induction false} TaggedPrefixStep(key: string, samples: seq<Sample>, j: nat)
    requires j < |samples|
    ensures Tagged(key, samples[..j + 1]) == Tagged(key, samples[..j]) + [Event(key, samples[j])]
  {
  }

  /** One `setdefault` and field assignment on the records and their insertion order. */
  lemma {:induction false} SetdefaultStep(records: map<int, Row>, order: seq<int>, seen: seq<Event>, e: Event)
    requires records == Merged(seen) && order == TsOrder(seen)
    ensures var ts := e.sample.ts;
      var created := if ts in records then records else records[ts := map[TsColumn := Int(ts)]];
      && created[ts := created[ts][e.key := e.sample.value]] == Merged(seen + [e])
      && (if ts in records then order else order + [ts]) == TsOrder(seen + [e])
  {
    MergedStep(seen, e);
    TsOrderStep(seen, e);
  }

  /**
   * One iteration of the inner merge loop: `row = records.setdefault(ts, {"ts": ts})`
   * followed by `row[key] = value`, with the timestamp appended to the insertion order
   * when its record is new.
   */
  method AddSample(records: map<int, Row>, order: seq<int>, ghost seen: seq<Event>, key: string, sample: Sample)
    returns (records': map<int, Row>, order': seq<int>)
    requires records == Merged(seen) && order == TsOrder(seen)
    ensures records' == Merged(seen + [Event(key, sample)])
    ensures order' == TsOrder(seen + [Event(key, sample)])
  {
    var ts := sample.ts;
    SetdefaultStep(records, order, seen, Event(key, sample));
    records', order' := records, order;
    if ts !in records' {
      records' := records'[ts := map[TsColumn := Int(ts)]];
      order' := order' + [ts];
    }
    var row := records'[ts];
    records' := records'[ts := row[key := sample.value]];
  }

  /**
   * The merge loop: for each key of the response and each of its samples, fetch or create
   * the record at the sample's timestamp and set the key's field. It returns the records
   * and their insertion order (the order of `records.values()`), and builds exactly the
   * records `Merged` describes, inserted in first-occurrence order.
   */
  method MergeSamples(res: Response) returns (records: map<int, Row>, order: seq<int>)
    ensures records == Merged(Events(res))
    ensures order == TsOrder(Events(res))
  {
    records, order := map[], [];
    ghost var seen: seq<Event> := [];
    for i := 0 to |res|
      invariant seen == Events(res[..i])
      invariant records == Merged(seen) && order == TsOrder(seen)
    {
      var (key, samples) := res[i];
      ghost var done := seen;
      for j := 0 to |samples|
        invariant seen == done + Tagged(key, samples[..j])
        invariant records == Merged(seen) && order == TsOrder(seen)
      {
        records, order := AddSample(records, order, seen, key, samples[j]);
        TaggedPrefixStep(key, samples, j);
        seen := seen + [Event(key, samples[j])];
      }
      assert samples[..|samples|] == samples;
      EventsPrefixStep(res, i);
    }
    assert res[..|res|] == res;
  }

  /** Key `key` has a sample at time `t` in the response. */
  predicate HasSample(res: Response, key: string, t: int) {
    exists i, j :: 0 <= i < |res| && 0 <= j < |res[i].1| && res[i].0 == key && res[i].1[j].ts == t
  }

  /** The timestamps of all samples of all keys of the response. */
  function SampleTimes(res: Response): set<int> {
    set i, j | 0 <= i < |res| && 0 <= j < |res[i].1| :: res[i].1[j].ts
  }

  /** The value of the last sample at time `t` in one key's sample list. */
  function LastAt(samples: seq<Sample>, t: int): Option<Value> {
    if samples == [] then None
    else if samples[|samples| - 1].ts == t then Some(samples[|samples| - 1].value)
    else LastAt(samples[..|samples| - 1], t)
  }

  /** The merge visits exactly the response's samples, each tagged with its key. */
  lemma {:induction false} EventsMembership(res: Response, e: Event)
    ensures e in Events(res) <==>
      exists i, j :: 0 <= i < |res| && 0 <= j < |res[i].1| && e == Event(res[i].0, res[i].1[j])
  {
    if res != [] {
      var n := |res| - 1;
      var prefix := res[..n];
      EventsMembership(prefix, e);
      if e in Events(res) && e !in Events(prefix) {
        var j :| 0 <= j < |res[n].1| && Tagged(res[n].0, res[n].1)[j] == e;
        assert e == Event(res[n].0, res[n].1[j]);
      }
      if exists i, j :: 0 <= i < |res| && 0 <= j < |res[i].1| && e == Event(res[i].0, res[i].1[j]) {
        var i, j :| 0 <= i < |res| && 0 <= j < |res[i].1| && e == Event(res[i].0, res[i].1[j]);
        if i < n {
          assert prefix[i] == res[i];
        } else {
          assert Tagged(res[n].0, res[n].1)[j] == e;
        }
      }
    }
  }

  /** The timestamps the merge sees are exactly the response's sample timestamps. */
  lemma {:induction false} TsSetIsSampleTimes(res: Response)
    ensures TsSet(Events(res)) == SampleTimes(res)
  {
    var es := Events(res);
    forall t | t in TsSet(es) ensures t in SampleTimes(res) {
      var e :| e in es && e.sample.ts == t;
      EventsMembership(res, e);
    }
    forall t | t in SampleTimes(res) ensures t in TsSet(es) {
      var i, j :| 0 <= i < |res| && 0 <= j < |res[i].1| && res[i].1[j].ts == t;
      EventsMembership(res, Event(res[i].0, res[i].1[j]));
    }
  }

  /** There is exactly one record per distinct sample timestamp, over all keys. */
  lemma {:induction false} MergedOneRecordPerTimestamp(res: Response)
    ensures Merged(Events(res)).Keys == SampleTimes(res)
    ensures |TsOrder(Events(res))| == |Merged(Events(res))|
  {
    var es := Events(res);
    TsSetIsSampleTimes(res);
    var order := TsOrder(es);
    DistinctCard(order);
    assert (set x | x in order) == Merged(es).Keys;
  }

  /** A sequence without repetitions is as long as the set of its elements. */
  lemma {:induction false} DistinctCard(s: seq<int>)
    requires forall i, j :: 0 <= i < j < |s| ==> s[i] != s[j]
    ensures |set x | x in s| == |s|
  {
    if s != [] {
      var prefix := s[..|s| - 1];
      DistinctCard(prefix);
      assert (set x | x in s) == (set x | x in prefix) + {s[|s| - 1]};
    }
  }

  /** A record's field `key` (other than "ts") is present exactly when `key` has a sample at the record's time. */
  lemma {:induction false} MergedFieldIff(res: Response, t: int, key: string)
    requires t in Merged(Events(res))
    requires key != TsColumn
    ensures key in Merged(Events(res))[t] <==> HasSample(res, key, t)
  {
    var es := Events(res);
    LastValueOccurs(es, key, t);
    if key in Merged(es)[t] {
      var e :| e in es && e.key == key && e.sample.ts == t;
      EventsMembership(res, e);
    }
    if HasSample(res, key, t) {
      var i, j :| 0 <= i < |res| && 0 <= j < |res[i].1| && res[i].0 == key && res[i].1[j].ts == t;
      EventsMembership(res, Event(key, res[i].1[j]));
      assert key in KeySet(es);
    }
  }

  /** When no key of the response is named "ts", every record's "ts" field is its own timestamp. */
  lemma {:induction false} MergedTsField(res: Response, t: int)
    requires forall i :: 0 <= i < |res| ==> res[i].0 != TsColumn
    requires t in Merged(Events(res))
    ensures Merged(Events(res))[t][TsColumn] == Int(t)
  {
    var es := Events(res);
    forall e | e in es ensures e.key != TsColumn {
      EventsMembership(res, e);
    }
    assert TsColumn !in KeySet(es);
  }

  /** A key named "ts" overwrites the timestamp field of the records it has samples for. */
  lemma {:induction false} TsKeyOverwritesTimestamp()
    ensures var m := Merged(Events([(TsColumn, [Sample(5, Text("x"))])]));
      5 in m && m[5] == map[TsColumn := Text("x")]
  {
    var e := Event(TsColumn, Sample(5, Text("x")));
    assert Events([(TsColumn, [Sample(5, Text("x"))])]) == [] + [e];
    MergedStep([], e);
  }

  lemma {:induction false} LastValueConcat(a: seq<Event>, b: seq<Event>, key: string, t: int)
    ensures LastValue(a + b, key, t) == if LastValue(b, key, t).Some? then LastValue(b, key, t) else LastValue(a, key, t)
    decreases |b|
  {
    if b == [] {
      assert a + b == a;
    } else {
      var b' := b[..|b| - 1];
      assert (a + b)[..|a + b| - 1] == a + b';
      assert (a + b)[|a + b| - 1] == b[|b| - 1];
      LastValueConcat(a, b', key, t);
    }
  }

  lemma {:induction false} LastValueTagged(k: string, samples: seq<Sample>, key: string, t: int)
    ensures LastValue(Tagged(k, samples), key, t) == if k == key then LastAt(samples, t) else None
  {
    if samples != [] {
      var n := |samples| - 1;
      assert Tagged(k, samples)[..n] == Tagged(k, samples[..n]);
      LastValueTagged(k, samples[..n], key, t);
    }
  }

  lemma {:induction false} LastValueOfKey(res: Response, i: nat, t: int)
    requires DistinctKeys(res)
    requires i < |res|
    ensures LastValue(Events(res), res[i].0, t) == LastAt(res[i].1, t)
  {
    var n := |res| - 1;
    var prefix := res[..n];
    LastValueConcat(Events(prefix), Tagged(res[n].0, res[n].1), res[i].0, t);
    LastValueTagged(res[n].0, res[n].1, res[i].0, t);
    if i < n {
      assert prefix[i] == res[i];
      LastValueOfKey(prefix, i, t);
    } else if LastAt(res[n].1, t).None? {
      LastValueOccurs(Events(prefix), res[n].0, t);
      if LastValue(Events(prefix), res[n].0, t).Some? {
        var e :| e in Events(prefix) && e.key == res[n].0 && e.sample.ts == t;
        EventsMembership(prefix, e);
      }
    }
  }

  /**
   * A key's field in the record at `t` holds the value of that key's last sample at `t`:
   * writes to the same key and time keep the last, and different keys never overwrite each other.
   */
  lemma {:induction false} MergedLastValue(res: Response, i: nat, t: int)
    requires DistinctKeys(res)
    requires i < |res|
    requires LastAt(res[i].1, t).Some?
    ensures t in Merged(Events(res)) && res[i].0 in Merged(Events(res))[t]
    ensures Merged(Events(res))[t][res[i].0] == LastAt(res[i].1, t).value
  {
    var es := Events(res);
    LastValueOfKey(res, i, t);
    LastValueOccurs(es, res[i].0, t);
    assert res[i].0 in KeySet(es);
  }

  /**
   * The worked example: `{"temp": [(100, 5)], "hum": [(100, 60), (200, 61)]}` merges into
   * a record at 100 holding both keys and a record at 200 holding only "hum".
   */
  lemma {:induction false} MergeExample()
    ensures var res := [("temp", [Sample(100, Int(5))]), ("hum", [Sample(100, Int(60)), Sample(200, Int(61))])];
      Merged(Events(res)) == map[
        100 := map[TsColumn := Int(100), "temp" := Int(5), "hum" := Int(60)],
        200 := map[TsColumn := Int(200), "hum" := Int(61)]]
  {
    var res := [("temp", [Sample(100, Int(5))]), ("hum", [Sample(100, Int(60)), Sample(200, Int(61))])];
    var e1, e2, e3 := Event("temp", Sample(100, Int(5))), Event("hum", Sample(100, Int(60))), Event("hum", Sample(200, Int(61)));
    ExampleEvents();
    assert Merged([]) == map[];
    MergedStep([], e1);
    assert [] + [e1] == [e1];
    var m1 := map[100 := map[TsColumn := Int(100), "temp" := Int(5)]];
    assert Merged([e1]) == m1;
    MergedStep([e1], e2);
    assert [e1] + [e2] == [e1, e2];
    var m2 := map[100 := map[TsColumn := Int(100), "temp" := Int(5), "hum" := Int(60)]];
    assert Merged([e1, e2]) == m2;
    MergedStep([e1, e2], e3);
    assert [e1, e2] + [e3] == [e1, e2, e3];
  }

  lemma {:induction false} ExampleEvents()
    ensures Events([("temp", [Sample(100, Int(5))]), ("hum", [Sample(100, Int(60)), Sample(200, Int(61))])]) ==
      [Event("temp", Sample(100, Int(5))), Event("hum", Sample(100, Int(60))), Event("hum", Sample(200, Int(61)))]
  {
    var res := [("temp", [Sample(100, Int(5))]), ("hum", [Sample(100, Int(60)), Sample(200, Int(61))])];
    assert res[..1][..0] == [];
    assert Events(res[..1]) == [Event("temp", Sample(100, Int(5)))];
    assert Tagged(res[1].0, res[1].1) == [Event("hum", Sample(100, Int(60))), Event("hum", Sample(200, Int(61)))];
  }
}
