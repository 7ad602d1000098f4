/**
 * What the grouping pass of `fetch_image_data` guarantees, proved about
 * `FileHandling.Segment`, which `FileHandling.FetchImageData` is proved to
 * compute: the groups partition the input in order, no group is empty,
 * keys only ever grow at the end, and a record is looked up exactly when
 * it lies more than the threshold away from the first record.
 */
module VisitProperties {
  import opened Wrappers
  import opened FileHandling

  /** The file names of the records, in input order. */
  function FileNames(records: seq<PhotoRecord>): (r: seq<string>)
    ensures |r| == |records|
    ensures forall i :: 0 <= i < |records| ==> r[i] == records[i].fileName
    decreases |records|
  {
    if |records| == 0 then []
    else
      var n := |records| - 1;
      FileNames(records[..n]) + [records[n].fileName]
  }

  /** A map updated twice at one key holds the second value there. */
  lemma UpdateTwice<K, V>(m: map<K, V>, k: K, v: V, w: V)
    ensures m[k := v][k := w] == m[k := w]
  {
  }

  /** The groups' lists joined in key order. */
  function Concat(keys: seq<string>, groups: map<string, seq<string>>): seq<string>
    requires forall k :: k in keys ==> k in groups
    decreases |keys|
  {
    if keys == [] then []
    else
      var n := |keys| - 1;
      assert forall k :: k in keys[..n] ==> k in keys;
      Concat(keys[..n], groups) + groups[keys[n]]
  }

  ghost function Files(p: Plan): seq<string>
    requires WellFormed(p)
  {
    Concat(p.keys, p.groups)
  }

  ghost predicate NonEmptyGroups(p: Plan) {
    forall k :: k in p.groups ==> p.groups[k] != []
  }

  /** `a` is an initial part of `b`. */
  predicate IsPrefix(a: seq<string>, b: seq<string>) {
    |a| <= |b| && b[..|a|] == a
  }

  /** The keys of `p` come first in `q`, and every list of `p` is an initial part of the same key's list in `q`. */
  ghost predicate Extends(p: Plan, q: Plan)
    requires WellFormed(p) && WellFormed(q)
  {
    IsPrefix(p.keys, q.keys) && forall k :: k in p.groups ==> IsPrefix(p.groups[k], q.groups[k])
  }

  // ---------------------------------------------------------------------------
  // Concatenation of the groups

  lemma {:induction false} ConcatFrame(keys: seq<string>, g1: map<string, seq<string>>, g2: map<string, seq<string>>)
    requires forall k :: k in keys ==> k in g1 && k in g2 && g1[k] == g2[k]
    ensures Concat(keys, g1) == Concat(keys, g2)
    decreases |keys|
  {
    if keys != [] {
      var n := |keys| - 1;
      assert forall k :: k in keys[..n] ==> k in keys;
      ConcatFrame(keys[..n], g1, g2);
    }
  }

  lemma FilesAddKey(p: Plan, name: string)
    requires WellFormed(p)
    ensures WellFormed(AddKey(p, name)) && Files(AddKey(p, name)) == Files(p)
  {
    if name !in p.groups {
      var q := AddKey(p, name);
      assert q.keys[..|p.keys|] == p.keys;
      ConcatFrame(p.keys, p.groups, q.groups);
    }
  }

  lemma FilesAppendToLast(p: Plan, file: string)
    requires WellFormed(p) && |p.keys| > 0
    ensures WellFormed(AppendToLast(p, file)) && Files(AppendToLast(p, file)) == Files(p) + [file]
  {
    var n := |p.keys| - 1;
    var q := AppendToLast(p, file);
    assert forall k :: k in p.keys[..n] ==> k in p.keys && k != p.keys[n];
    ConcatFrame(p.keys[..n], p.groups, q.groups);
  }

  /** One loop iteration appends exactly the current file to the concatenation. */
  lemma VisitFiles(p: Plan, record: PhotoRecord, lookup: bool, service: GeoUtils.Geocoder)
    requires WellFormed(p) && (lookup || |p.keys| > 0)
    requires Visit(p, record, lookup, service).Success?
    ensures Files(Visit(p, record, lookup, service).value) == Files(p) + [record.fileName]
  {
    if lookup {
      var name := LookupLabel(record.gpsInfo, service).value;
      FilesAddKey(p, name);
      FilesAppendToLast(AddKey(p, name), record.fileName);
    } else {
      FilesAppendToLast(p, record.fileName);
    }
  }

  /**
   * Partition: concatenating the groups in key order gives back the input
   * file names exactly, so every file is in exactly one group, in its
   * input position.
   */
  lemma {:induction false} SegmentPartition(records: seq<PhotoRecord>, thresholdMinutes: int, service: GeoUtils.Geocoder)
    requires Segment(records, thresholdMinutes, service).Success?
    ensures WellFormed(Segment(records, thresholdMinutes, service).value)
    ensures Files(Segment(records, thresholdMinutes, service).value) == FileNames(records)
    decreases |records|
  {
    if |records| > 0 {
      var n := |records| - 1;
      SegmentPartition(records[..n], thresholdMinutes, service);
      SegmentWellFormed(records, thresholdMinutes, service);
      var p := Segment(records[..n], thresholdMinutes, service).value;
      VisitFiles(p, records[n], TriggersLookup(records, n, thresholdMinutes), service);
    }
  }

  // ---------------------------------------------------------------------------
  // Shape of the result

  lemma AddKeyShape(p: Plan, name: string)
    requires WellFormed(p)
    ensures WellFormed(AddKey(p, name)) && Extends(p, AddKey(p, name))
    ensures |AddKey(p, name).keys| <= |p.keys| + 1
    ensures name in AddKey(p, name).keys
    ensures forall k :: k in AddKey(p, name).groups && k != name ==> k in p.groups
  {
    var q := AddKey(p, name);
    assert q.keys[..|p.keys|] == p.keys;
    forall k | k in p.groups ensures IsPrefix(p.groups[k], q.groups[k]) {
      assert q.groups[k][..|p.groups[k]|] == p.groups[k];
    }
  }

  lemma AppendToLastShape(p: Plan, file: string)
    requires WellFormed(p) && |p.keys| > 0
    ensures WellFormed(AppendToLast(p, file)) && Extends(p, AppendToLast(p, file))
    ensures AppendToLast(p, file).keys == p.keys
    ensures forall k :: k in p.groups && k != p.keys[|p.keys| - 1] ==> AppendToLast(p, file).groups[k] == p.groups[k]
    ensures AppendToLast(p, file).groups[p.keys[|p.keys| - 1]] != []
  {
    var q := AppendToLast(p, file);
    assert q.keys[..|p.keys|] == p.keys;
    forall k | k in p.groups ensures IsPrefix(p.groups[k], q.groups[k]) {
      assert q.groups[k][..|p.groups[k]|] == p.groups[k];
    }
  }

  lemma ExtendsTrans(o: Plan, p: Plan, q: Plan)
    requires WellFormed(o) && WellFormed(p) && WellFormed(q)
    requires Extends(o, p) && Extends(p, q)
    ensures Extends(o, q)
  {
    PrefixTrans(o.keys, p.keys, q.keys);
    forall k | k in o.groups ensures IsPrefix(o.groups[k], q.groups[k]) {
      PrefixTrans(o.groups[k], p.groups[k], q.groups[k]);
    }
  }

  lemma ExtendsRefl(p: Plan)
    requires WellFormed(p)
    ensures Extends(p, p)
  {
    assert p.keys[..|p.keys|] == p.keys;
    forall k | k in p.groups ensures IsPrefix(p.groups[k], p.groups[k]) {
      assert p.groups[k][..|p.groups[k]|] == p.groups[k];
    }
  }

  /** Adding a label and then the file keeps every group non-empty, adds at most one key, and only extends. */
  lemma AddAndAppendShape(p: Plan, name: string, file: string)
    requires WellFormed(p) && NonEmptyGroups(p)
    ensures WellFormed(AddKey(p, name)) && |AddKey(p, name).keys| > 0
    ensures NonEmptyGroups(AppendToLast(AddKey(p, name), file))
    ensures |AppendToLast(AddKey(p, name), file).keys| <= |p.keys| + 1
    ensures Extends(p, AppendToLast(AddKey(p, name), file))
  {
    var q := AddKey(p, name);
    var r := AppendToLast(q, file);
    AddKeyShape(p, name);
    AppendToLastShape(q, file);
    ExtendsTrans(p, q, r);
    var last := q.keys[|q.keys| - 1];
    if name !in p.groups {
      assert last == name;
    }
    forall k | k in r.groups ensures r.groups[k] != [] {
      if k != last {
        assert k in p.groups;
        assert r.groups[k] == q.groups[k] == p.groups[k];
      }
    }
  }

  /** One loop iteration keeps every group non-empty, adds at most one key, and only extends. */
  lemma VisitShape(p: Plan, record: PhotoRecord, lookup: bool, service: GeoUtils.Geocoder)
    requires WellFormed(p) && (lookup || |p.keys| > 0) && NonEmptyGroups(p)
    requires Visit(p, record, lookup, service).Success?
    ensures NonEmptyGroups(Visit(p, record, lookup, service).value)
    ensures |Visit(p, record, lookup, service).value.keys| <= |p.keys| + 1
    ensures Extends(p, Visit(p, record, lookup, service).value)
  {
    if lookup {
      var name := LookupLabel(record.gpsInfo, service).value;
      AddAndAppendShape(p, name, record.fileName);
      assert Visit(p, record, lookup, service) == Success(AppendToLast(AddKey(p, name), record.fileName));
    } else {
      AppendToLastShape(p, record.fileName);
    }
  }

  /**
   * Every group holds at least one file, and there are at most as many
   * groups as files.
   */
  lemma {:induction false} SegmentShape(records: seq<PhotoRecord>, thresholdMinutes: int, service: GeoUtils.Geocoder)
    requires Segment(records, thresholdMinutes, service).Success?
    ensures NonEmptyGroups(Segment(records, thresholdMinutes, service).value)
    ensures |Segment(records, thresholdMinutes, service).value.keys| <= |records|
    decreases |records|
  {
    if |records| > 0 {
      var n := |records| - 1;
      SegmentShape(records[..n], thresholdMinutes, service);
      SegmentWellFormed(records[..n], thresholdMinutes, service);
      var p := Segment(records[..n], thresholdMinutes, service).value;
      VisitShape(p, records[n], TriggersLookup(records, n, thresholdMinutes), service);
    }
  }

  lemma PrefixTrans(a: seq<string>, b: seq<string>, c: seq<string>)
    requires IsPrefix(a, b) && IsPrefix(b, c)
    ensures IsPrefix(a, c)
  {
    assert c[..|a|] == c[..|b|][..|a|];
  }

  /**
   * Keys are only ever added at the end and lists only ever grow at the
   * end: the result for a prefix of the records is extended by the result
   * for the whole sequence (and a failure on a prefix is a failure on the
   * whole).
   */
  lemma {:induction false} SegmentExtends(records: seq<PhotoRecord>, m: nat, thresholdMinutes: int, service: GeoUtils.Geocoder)
    requires m <= |records| && Segment(records, thresholdMinutes, service).Success?
    ensures Segment(records[..m], thresholdMinutes, service).Success?
    ensures WellFormed(Segment(records[..m], thresholdMinutes, service).value)
    ensures WellFormed(Segment(records, thresholdMinutes, service).value)
    ensures Extends(Segment(records[..m], thresholdMinutes, service).value, Segment(records, thresholdMinutes, service).value)
    decreases |records|
  {
    if m == |records| {
      assert records[..m] == records;
      SegmentWellFormed(records, thresholdMinutes, service);
      ExtendsRefl(Segment(records, thresholdMinutes, service).value);
    } else {
      var n := |records| - 1;
      assert records[..n][..m] == records[..m];
      SegmentExtends(records[..n], m, thresholdMinutes, service);
      var p := Segment(records[..n], thresholdMinutes, service).value;
      SegmentShape(records[..n], thresholdMinutes, service);
      SegmentWellFormed(records, thresholdMinutes, service);
      VisitShape(p, records[n], TriggersLookup(records, n, thresholdMinutes), service);
      ExtendsTrans(Segment(records[..m], thresholdMinutes, service).value, p, Segment(records, thresholdMinutes, service).value);
    }
  }

  // ---------------------------------------------------------------------------
  // When the geocoder is consulted

  /**
   * The pass over the first record alone: the first record always causes a
   * lookup, and it starts the first group, whose key is its label and whose
   * only file is its file.
   */
  lemma SegmentOne(records: seq<PhotoRecord>, thresholdMinutes: int, service: GeoUtils.Geocoder)
    requires |records| > 0
    ensures Segment(records[..1], thresholdMinutes, service)
         == match LookupLabel(records[0].gpsInfo, service)
            case Failure(e) => Failure(e)
            case Success(name) => Success(Plan([name], map[name := [records[0].fileName]]))
  {
    assert records[..1][..0] == [];
    assert records[..1][0] == records[0];
    if LookupLabel(records[0].gpsInfo, service).Success? {
      var name := LookupLabel(records[0].gpsInfo, service).value;
      var empty: map<string, seq<string>> := map[];
      var p := AddKey(Plan([], empty), name);
      assert p == Plan([name], map[name := []]);
      var single: seq<string> := [records[0].fileName];
      assert p.keys[|p.keys| - 1] == name && p.groups[name] + single == single;
      assert p.groups[name := single] == map[name := single];
      assert AppendToLast(p, records[0].fileName) == Plan([name], map[name := [records[0].fileName]]);
    }
  }

  lemma SegmentFirstRecord(records: seq<PhotoRecord>, thresholdMinutes: int, service: GeoUtils.Geocoder)
    requires |records| > 0 && Segment(records, thresholdMinutes, service).Success?
    ensures LookupLabel(records[0].gpsInfo, service).Success?
    ensures WellFormed(Segment(records, thresholdMinutes, service).value)
    ensures var p := Segment(records, thresholdMinutes, service).value;
      |p.keys| > 0 && p.keys[0] == LookupLabel(records[0].gpsInfo, service).value
      && |p.groups[p.keys[0]]| > 0 && p.groups[p.keys[0]][0] == records[0].fileName
  {
    SegmentExtends(records, 1, thresholdMinutes, service);
    SegmentOne(records, thresholdMinutes, service);
    var name := LookupLabel(records[0].gpsInfo, service).value;
    var p := Segment(records, thresholdMinutes, service).value;
    assert p.keys[..1] == [name];
    assert p.groups[name][..1] == [records[0].fileName];
  }

  /**
   * A record that passes the time test is looked up: on success its label
   * is one of the keys (and a failed lookup fails the whole pass).
   */
  lemma LookupHappens(records: seq<PhotoRecord>, i: nat, thresholdMinutes: int, service: GeoUtils.Geocoder)
    requires i < |records| && TriggersLookup(records, i, thresholdMinutes)
    requires Segment(records, thresholdMinutes, service).Success?
    ensures LookupLabel(records[i].gpsInfo, service).Success?
    ensures LookupLabel(records[i].gpsInfo, service).value in Segment(records, thresholdMinutes, service).value.keys
  {
    SegmentExtends(records, i + 1, thresholdMinutes, service);
    SegmentExtends(records, i, thresholdMinutes, service);
    var p := Segment(records[..i], thresholdMinutes, service).value;
    if LookupLabel(records[i].gpsInfo, service).Failure? {
      StepLookupFails(records, i, thresholdMinutes, service, p);
    } else {
      var name := LookupLabel(records[i].gpsInfo, service).value;
      StepWithLookup(records, i, thresholdMinutes, service, p, name);
      var mid := Segment(records[..i + 1], thresholdMinutes, service).value;
      assert name in mid.keys;
      var q := Segment(records, thresholdMinutes, service).value;
      assert forall k :: k in mid.keys ==> k in q.keys[..|mid.keys|];
    }
  }

  /**
   * Conversely, every key is the label of a record that was looked up:
   * keys come only from lookups.
   */
  lemma {:induction false} KeysAreLookedUpLabels(records: seq<PhotoRecord>, thresholdMinutes: int, service: GeoUtils.Geocoder)
    requires Segment(records, thresholdMinutes, service).Success?
    ensures forall k :: k in Segment(records, thresholdMinutes, service).value.keys ==>
      exists i :: 0 <= i < |records| && TriggersLookup(records, i, thresholdMinutes)
                  && LookupLabel(records[i].gpsInfo, service) == Success(k)
    decreases |records|
  {
    if |records| > 0 {
      var n := |records| - 1;
      var prefix := records[..n];
      KeysAreLookedUpLabels(prefix, thresholdMinutes, service);
      var p := Segment(prefix, thresholdMinutes, service).value;
      var q := Segment(records, thresholdMinutes, service).value;
      var lookup := TriggersLookup(records, n, thresholdMinutes);
      forall k | k in q.keys
        ensures exists i :: 0 <= i < |records| && TriggersLookup(records, i, thresholdMinutes)
                            && LookupLabel(records[i].gpsInfo, service) == Success(k)
      {
        if lookup && k == LookupLabel(records[n].gpsInfo, service).value {
          assert TriggersLookup(records, n, thresholdMinutes);
        } else {
          KeyFromPrefix(records, prefix, thresholdMinutes, service, k);
        }
      }
    }
  }

  /** A key that is not the last record's fresh label was already a key of the pass over `prefix`, all but the last record. */
  lemma KeyFromPrefix(records: seq<PhotoRecord>, prefix: seq<PhotoRecord>, thresholdMinutes: int, service: GeoUtils.Geocoder, k: string)
    requires |records| > 0 && prefix == records[..|records| - 1]
    requires Segment(records, thresholdMinutes, service).Success?
    requires k in Segment(records, thresholdMinutes, service).value.keys
    requires !(TriggersLookup(records, |records| - 1, thresholdMinutes)
               && k == LookupLabel(records[|records| - 1].gpsInfo, service).value)
    requires forall key :: key in Segment(prefix, thresholdMinutes, service).value.keys ==>
      exists i :: 0 <= i < |prefix| && TriggersLookup(prefix, i, thresholdMinutes)
                  && LookupLabel(prefix[i].gpsInfo, service) == Success(key)
    ensures exists i :: 0 <= i < |records| && TriggersLookup(records, i, thresholdMinutes)
                        && LookupLabel(records[i].gpsInfo, service) == Success(k)
  {
    KeyBeforeLastStep(records, prefix, thresholdMinutes, service, k);
    var i :| 0 <= i < |prefix| && TriggersLookup(prefix, i, thresholdMinutes)
             && LookupLabel(prefix[i].gpsInfo, service) == Success(k);
    PrefixRecordLookedUp(records, prefix, thresholdMinutes, i);
  }

  /** The last step adds no key other than the last record's fresh label. */
  lemma KeyBeforeLastStep(records: seq<PhotoRecord>, prefix: seq<PhotoRecord>, thresholdMinutes: int, service: GeoUtils.Geocoder, k: string)
    requires |records| > 0 && prefix == records[..|records| - 1]
    requires Segment(records, thresholdMinutes, service).Success?
    requires k in Segment(records, thresholdMinutes, service).value.keys
    requires !(TriggersLookup(records, |records| - 1, thresholdMinutes)
               && k == LookupLabel(records[|records| - 1].gpsInfo, service).value)
    ensures Segment(prefix, thresholdMinutes, service).Success?
    ensures k in Segment(prefix, thresholdMinutes, service).value.keys
  {
    var n := |records| - 1;
    var p := Segment(prefix, thresholdMinutes, service).value;
    if TriggersLookup(records, n, thresholdMinutes) {
      var name := LookupLabel(records[n].gpsInfo, service).value;
      assert AddKey(p, name).keys == p.keys || AddKey(p, name).keys == p.keys + [name];
    }
  }

  /** A record of the prefix that is looked up in the prefix is looked up in the whole sequence. */
  lemma PrefixRecordLookedUp(records: seq<PhotoRecord>, prefix: seq<PhotoRecord>, thresholdMinutes: int, i: nat)
    requires |records| > 0 && prefix == records[..|records| - 1] && i < |prefix|
    requires TriggersLookup(prefix, i, thresholdMinutes)
    ensures i < |records| && TriggersLookup(records, i, thresholdMinutes) && prefix[i] == records[i]
  {
    assert prefix[0] == records[0];
  }

  function WithGps(records: seq<PhotoRecord>, i: nat, gps: Option<GpsInfo>): (r: seq<PhotoRecord>)
    requires i < |records|
    ensures |r| == |records|
  {
    records[i := records[i].(gpsInfo := gps)]
  }

  /**
   * A record that fails the time test is not looked up: the pass does not
   * depend on its GPS data at all, present, partial or missing.
   */
  lemma {:induction false} NoLookupIgnoresGps(records: seq<PhotoRecord>, i: nat, gps: Option<GpsInfo>, thresholdMinutes: int, service: GeoUtils.Geocoder)
    requires i < |records| && !TriggersLookup(records, i, thresholdMinutes)
    ensures Segment(WithGps(records, i, gps), thresholdMinutes, service) == Segment(records, thresholdMinutes, service)
    decreases |records|
  {
    var n := |records| - 1;
    if i < n {
      assert WithGps(records, i, gps)[..n] == WithGps(records[..n], i, gps);
      NoLookupIgnoresGps(records[..n], i, gps, thresholdMinutes, service);
    } else {
      assert WithGps(records, i, gps)[..n] == records[..n];
    }
    WithGpsLastStep(records, i, gps, thresholdMinutes, service);
  }

  /** The step of `NoLookupIgnoresGps` for the last record. */
  lemma WithGpsLastStep(records: seq<PhotoRecord>, i: nat, gps: Option<GpsInfo>, thresholdMinutes: int, service: GeoUtils.Geocoder)
    requires i < |records| && !TriggersLookup(records, i, thresholdMinutes)
    requires Segment(WithGps(records, i, gps)[..|records| - 1], thresholdMinutes, service)
          == Segment(records[..|records| - 1], thresholdMinutes, service)
    ensures Segment(WithGps(records, i, gps), thresholdMinutes, service) == Segment(records, thresholdMinutes, service)
  {
    var changed := WithGps(records, i, gps);
    var n := |records| - 1;
    assert changed[0].dateTime == records[0].dateTime && changed[n].dateTime == records[n].dateTime;
    assert TriggersLookup(changed, n, thresholdMinutes) == TriggersLookup(records, n, thresholdMinutes);
    assert i != n ==> changed[n] == records[n];
    SameLastStep(changed, records, thresholdMinutes, service);
  }

  /**
   * Two sequences whose passes agree before their last records, and whose
   * last records agree in the lookup decision, the file name and, when
   * looked up, the GPS data, give the same pass.
   */
  lemma SameLastStep(a: seq<PhotoRecord>, b: seq<PhotoRecord>, thresholdMinutes: int, service: GeoUtils.Geocoder)
    requires |a| == |b| > 0
    requires Segment(a[..|a| - 1], thresholdMinutes, service) == Segment(b[..|b| - 1], thresholdMinutes, service)
    requires TriggersLookup(a, |a| - 1, thresholdMinutes) == TriggersLookup(b, |b| - 1, thresholdMinutes)
    requires a[|a| - 1].fileName == b[|b| - 1].fileName
    requires TriggersLookup(a, |a| - 1, thresholdMinutes) ==> a[|a| - 1].gpsInfo == b[|b| - 1].gpsInfo
    ensures Segment(a, thresholdMinutes, service) == Segment(b, thresholdMinutes, service)
  {
  }

  /** `timedelta` comparison is strict: exactly the threshold apart is not a new visit, one second more is. */
  lemma ThresholdIsStrict(t0: int, thresholdMinutes: nat)
    ensures !ExceedsThreshold(t0 + thresholdMinutes * 60, t0, thresholdMinutes)
    ensures !ExceedsThreshold(t0 - thresholdMinutes * 60, t0, thresholdMinutes)
    ensures ExceedsThreshold(t0 + thresholdMinutes * 60 + 1, t0, thresholdMinutes)
    ensures ExceedsThreshold(t0 - thresholdMinutes * 60 - 1, t0, thresholdMinutes)
  {
  }

  /**
   * When every record lies within the threshold (inclusive) of the first
   * one, there is one group, keyed by the first record's label and holding
   * every file in order.
   */
  lemma {:induction false} SingleVisit(records: seq<PhotoRecord>, thresholdMinutes: int, service: GeoUtils.Geocoder, name: string)
    requires |records| > 0
    requires forall i :: 0 < i < |records| ==> !ExceedsThreshold(records[i].dateTime, records[0].dateTime, thresholdMinutes)
    requires LookupLabel(records[0].gpsInfo, service) == Success(name)
    ensures Segment(records, thresholdMinutes, service) == Success(Plan([name], map[name := FileNames(records)]))
    decreases |records|
  {
    var n := |records| - 1;
    if n == 0 {
      SegmentOne(records, thresholdMinutes, service);
      assert records[..1] == records;
      assert FileNames(records) == [] + [records[0].fileName];
    } else {
      assert records[..n][0] == records[0];
      SingleVisit(records[..n], thresholdMinutes, service, name);
      var p := Plan([name], map[name := FileNames(records[..n])]);
      StepWithoutLookup(records, n, thresholdMinutes, service, p);
      AppendToLastUpdates(p.keys, p.groups, records[n].fileName);
      UpdateTwice(map[], name, FileNames(records[..n]), FileNames(records));
      assert records[..n + 1] == records;
    }
  }

  /**
   * A lookup whose label is already a key adds no key and changes no other
   * list: the file goes to the key inserted last, which need not be the
   * key that matched.
   */
  lemma ExistingLabelAddsNoKey(records: seq<PhotoRecord>, i: nat, thresholdMinutes: int, service: GeoUtils.Geocoder, p: Plan, name: string)
    requires i < |records| && Segment(records[..i], thresholdMinutes, service) == Success(p)
    requires TriggersLookup(records, i, thresholdMinutes)
    requires LookupLabel(records[i].gpsInfo, service) == Success(name) && name in p.keys
    ensures WellFormed(p) && |p.keys| > 0
    ensures var last := p.keys[|p.keys| - 1];
      Segment(records[..i + 1], thresholdMinutes, service)
        == Success(Plan(p.keys, p.groups[last := p.groups[last] + [records[i].fileName]]))
  {
    StepWithLookup(records, i, thresholdMinutes, service, p, name);
    assert name in p.groups;
    assert AddKey(p, name) == p;
    AppendToLastUpdates(p.keys, p.groups, records[i].fileName);
  }
}
