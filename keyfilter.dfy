/**
 * The key filter of the telemetry export: when a key list is given on the command line
 * (`--keys a,b,c`, non-empty), only the device's telemetry keys that occur in its
 * comma-split list are exported, in the device's own order; otherwise all are.
 */
module KeyFilter {
  import opened Wrappers

  /** The separator of the `--keys` argument. */
  const Comma: char := ','

  /**
   * Python's `str.split(sep)` with an explicit separator: the pieces between separators,
   * empty pieces included, so that the result is never empty.
   */
  function Split(s: string, sep: char): (parts: seq<string>)
    ensures |parts| >= 1
    ensures forall i :: 0 <= i < |parts| ==> sep !in parts[i]
  {
    if s == [] then [""]
    else
      var rest := Split(s[1..], sep);
      if s[0] == sep then [""] + rest else [[s[0]] + rest[0]] + rest[1..]
  }

  /** Python's `sep.join(parts)`. */
  function Join(parts: seq<string>, sep: char): string
    requires |parts| >= 1
  {
    if |parts| == 1 then parts[0] else parts[0] + [sep] + Join(parts[1..], sep)
  }

  /** Joining the pieces of a split gives back the original text. */
  lemma {:induction false} JoinSplit(s: string, sep: char)
    ensures Join(Split(s, sep), sep) == s
  {
    if s != [] {
      var rest := Split(s[1..], sep);
      JoinSplit(s[1..], sep);
      if s[0] != sep {
        var parts := Split(s, sep);
        assert parts[1..] == rest[1..];
        if |rest| == 1 {
          assert Join(parts, sep) == [s[0]] + rest[0];
        } else {
          assert Join(rest, sep) == rest[0] + [sep] + Join(rest[1..], sep);
          assert Join(parts, sep) == [s[0]] + rest[0] + [sep] + Join(rest[1..], sep);
        }
        assert s == [s[0]] + s[1..];
      } else {
        assert Split(s, sep)[1..] == rest;
      }
    }
  }

  /** Splitting a join of separator-free pieces gives back the pieces. */
  lemma {:induction false} SplitJoin(parts: seq<string>, sep: char)
    requires |parts| >= 1
    requires forall i :: 0 <= i < |parts| ==> sep !in parts[i]
    ensures Split(Join(parts, sep), sep) == parts
  {
    if |parts| == 1 {
      SplitNoSep(parts[0], sep);
    } else {
      SplitJoin(parts[1..], sep);
      SplitAround(parts[0], Join(parts[1..], sep), sep);
      assert parts == [parts[0]] + parts[1..];
    }
  }

  /** Text without the separator splits into itself. */
  lemma {:induction false} SplitNoSep(s: string, sep: char)
    requires sep !in s
    ensures Split(s, sep) == [s]
  {
    if s != [] {
      SplitNoSep(s[1..], sep);
      assert [s[0]] + s[1..] == s;
    }
  }

  /** A separator-free head, a separator and a tail split into the head followed by the tail's pieces. */
  lemma {:induction false} SplitAround(head: string, tail: string, sep: char)
    requires sep !in head
    ensures Split(head + [sep] + tail, sep) == [head] + Split(tail, sep)
  {
    if head == [] {
      assert head + [sep] + tail == [sep] + tail;
      assert ([sep] + tail)[1..] == tail;
    } else {
      var s := head + [sep] + tail;
      assert s[1..] == head[1..] + [sep] + tail;
      assert s[0] == head[0];
      SplitAround(head[1..], tail, sep);
      assert [head[0]] + head[1..] == head;
    }
  }

  /** `[key for key in keys if key in wanted]`. */
  function Select(keys: seq<string>, wanted: seq<string>): seq<string>
  {
    if keys == [] then []
    else
      var kept := Select(keys[..|keys| - 1], wanted);
      if keys[|keys| - 1] in wanted then kept + [keys[|keys| - 1]] else kept
  }

  /**
   * The keys to export: all of the device's keys when no key list is given or the list
   * is empty (both are false in the command's `if args.keys`), otherwise those that occur
   * among the list's comma-separated names.
   */
  function ExportedKeys(keys: seq<string>, keysArg: Option<string>): seq<string>
  {
    if keysArg.None? || keysArg.value == "" then keys else Select(keys, Split(keysArg.value, Comma))
  }

  /** `a` is `b` with some elements left out, the rest in their order. */
  predicate Subsequence(a: seq<string>, b: seq<string>)
    decreases |b|
  {
    if a == [] then true
    else if b == [] then false
    else if a[|a| - 1] == b[|b| - 1] then Subsequence(a[..|a| - 1], b[..|b| - 1])
    else Subsequence(a, b[..|b| - 1])
  }

  /** A selected key is a device key that is wanted, and every wanted device key is selected. */
  lemma {:induction false} SelectMembership(keys: seq<string>, wanted: seq<string>, k: string)
    ensures k in Select(keys, wanted) <==> k in keys && k in wanted
  {
    if keys != [] {
      var prefix := keys[..|keys| - 1];
      SelectMembership(prefix, wanted, k);
      assert keys == prefix + [keys[|keys| - 1]];
    }
  }

  /** Each wanted key is kept as often as the device lists it, each other key not at all. */
  lemma {:induction false} SelectCount(keys: seq<string>, wanted: seq<string>, k: string)
    ensures multiset(Select(keys, wanted))[k] == if k in wanted then multiset(keys)[k] else 0
  {
    if keys != [] {
      var prefix := keys[..|keys| - 1];
      SelectCount(prefix, wanted, k);
      assert keys == prefix + [keys[|keys| - 1]];
    }
  }

  /** The selected keys keep the device's order. */
  lemma {:induction false} SelectKeepsOrder(keys: seq<string>, wanted: seq<string>)
    ensures Subsequence(Select(keys, wanted), keys)
  {
    if keys != [] {
      var prefix := keys[..|keys| - 1];
      var last := keys[|keys| - 1];
      var kept := Select(prefix, wanted);
      SelectKeepsOrder(prefix, wanted);
      if last in wanted {
        assert (kept + [last])[..|kept|] == kept;
      } else if kept != [] {
        SelectMembership(prefix, wanted, kept[|kept| - 1]);
      }
    }
  }

  /** When every device key is wanted, nothing is filtered out. */
  lemma {:induction false} SelectAllWanted(keys: seq<string>, wanted: seq<string>)
    requires forall i :: 0 <= i < |keys| ==> keys[i] in wanted
    ensures Select(keys, wanted) == keys
  {
    if keys != [] {
      var prefix := keys[..|keys| - 1];
      SelectAllWanted(prefix, wanted);
      assert keys == prefix + [keys[|keys| - 1]];
    }
  }

  /**
   * The exported keys: with a non-empty key list, exactly the device keys named in it
   * (with their multiplicity) in the device's order; with none, the device's keys unchanged.
   */
  lemma {:induction false} ExportedKeysSpec(keys: seq<string>, keysArg: Option<string>)
    ensures keysArg.None? || keysArg.value == "" ==> ExportedKeys(keys, keysArg) == keys
    ensures keysArg.Some? && keysArg.value != "" ==>
      && Subsequence(ExportedKeys(keys, keysArg), keys)
      && (forall k :: k in ExportedKeys(keys, keysArg) <==> k in keys && k in Split(keysArg.value, Comma))
      && (forall k :: multiset(ExportedKeys(keys, keysArg))[k] ==
            if k in Split(keysArg.value, Comma) then multiset(keys)[k] else 0)
  {
    if keysArg.Some? && keysArg.value != "" {
      var wanted := Split(keysArg.value, Comma);
      SelectKeepsOrder(keys, wanted);
      forall k ensures k in Select(keys, wanted) <==> k in keys && k in wanted {
        SelectMembership(keys, wanted, k);
      }
      forall k ensures multiset(Select(keys, wanted))[k] == if k in wanted then multiset(keys)[k] else 0 {
        SelectCount(keys, wanted, k);
      }
    }
  }

  /** `--keys temp,hum` on a device with keys hum, pres, temp exports hum, temp: the device's order, not the list's. */
  lemma {:induction false} ExportedKeysExample()
    ensures ExportedKeys(["hum", "pres", "temp"], Some("temp,hum")) == ["hum", "temp"]
  {
    SplitExample();
    SelectExample();
  }

  lemma {:induction false} SplitExample()
    ensures Split("temp,hum", Comma) == ["temp", "hum"]
  {
    var head, tail := "temp", "hum";
    SplitAround(head, tail, Comma);
    SplitNoSep(tail, Comma);
    assert "temp,hum" == head + [Comma] + tail;
  }

  lemma {:induction false} SelectExample()
    ensures Select(["hum", "pres", "temp"], ["temp", "hum"]) == ["hum", "temp"]
  {
    var wanted := ["temp", "hum"];
    var keys := ["hum", "pres", "temp"];
    assert Select(["hum"], wanted) == ["hum"] by {
      assert ["hum"][..0] == [];
    }
    assert Select(["hum", "pres"], wanted) == ["hum"] by {
      assert ["hum", "pres"][..1] == ["hum"];
      assert "pres" != "temp" && "pres" != "hum";
    }
    assert keys[..2] == ["hum", "pres"];
  }
}
