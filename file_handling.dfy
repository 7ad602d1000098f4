/**
 * The logic of utils/file_handling.py: the file-name filter of
 * `fetch_all_files` and the visit-grouping pass of `fetch_image_data`.
 * Reading EXIF data and geocoding are function parameters; the directory
 * listing is given as a sequence of names.
 */
module FileHandling {
  import opened Wrappers
  import opened PyStrings
  import opened GeoUtils

  /** The settings the source reads from its `config` module. */
  datatype Config = Config(imagePrefix: string, imageType: string, imageExclusion: string, timeThresholdMinutes: int)

  // ---------------------------------------------------------------------------
  // fetch_all_files

  /** The condition of the comprehension in `fetch_all_files`. */
  predicate Selected(file: string, prefix: string, fileType: string, includeType: bool, exclusion: string) {
    Contains(file, prefix)
    && (!includeType || EndsWith(Lower(file), fileType))
    && !Contains(file, exclusion)
  }

  /**
   * The names of the directory listing `allFiles` that pass the filter, in
   * listing order. A name is in the result exactly when it is in the
   * listing and passes the filter.
   */
  function FetchAllFiles(allFiles: seq<string>, prefix: string, fileType: string, includeType: bool, exclusion: string): (r: seq<string>)
    ensures |r| <= |allFiles|
    ensures forall f :: f in r <==> f in allFiles && Selected(f, prefix, fileType, includeType, exclusion)
  {
    if allFiles == [] then []
    else
      var head := if Selected(allFiles[0], prefix, fileType, includeType, exclusion) then [allFiles[0]] else [];
      assert forall f :: f in allFiles <==> f == allFiles[0] || f in allFiles[1..];
      head + FetchAllFiles(allFiles[1..], prefix, fileType, includeType, exclusion)
  }

  /**
   * The filter distributes over concatenation of listings; with the
   * one-name case in the function's body this determines the result
   * completely: it is the listing with the rejected names struck out, the
   * kept ones in their original order.
   */
  lemma {:induction false} FetchAllFilesAppend(a: seq<string>, b: seq<string>, prefix: string, fileType: string, includeType: bool, exclusion: string)
    ensures FetchAllFiles(a + b, prefix, fileType, includeType, exclusion)
         == FetchAllFiles(a, prefix, fileType, includeType, exclusion) + FetchAllFiles(b, prefix, fileType, includeType, exclusion)
    decreases |a|
  {
    if a == [] {
      assert a + b == b;
    } else {
      assert (a + b)[0] == a[0];
      assert (a + b)[1..] == a[1..] + b;
      FetchAllFilesAppend(a[1..], b, prefix, fileType, includeType, exclusion);
    }
  }

  /** A single name is kept exactly when it passes the filter. */
  lemma FetchAllFilesSingle(file: string, prefix: string, fileType: string, includeType: bool, exclusion: string)
    ensures FetchAllFiles([file], prefix, fileType, includeType, exclusion)
         == if Selected(file, prefix, fileType, includeType, exclusion) then [file] else []
  {
    assert [file][1..] == [];
  }

  // ---------------------------------------------------------------------------
  // GPS fields, geocoding and the place label

  /**
   * The entries of the EXIF GPS IFD the program reads (Exif 2.3 / CIPA
   * DC-008, section 4.6.6): tag 1 GPSLatitudeRef, tag 2 GPSLatitude, tag 3
   * GPSLongitudeRef, tag 4 GPSLongitude; `None` for a tag the file lacks.
   */
  datatype GpsInfo = GpsInfo(latitudeRef: Option<string>, latitude: Option<Dms>,
                             longitudeRef: Option<string>, longitude: Option<Dms>)

  /** What the EXIF reader yields for one file: the parsed `DateTime` in seconds and the optional `GPSInfo`. */
  datatype Exif = Exif(dateTime: int, gpsInfo: Option<GpsInfo>)

  /** One entry of `image_data_dump`: the EXIF data with the file name added. */
  datatype PhotoRecord = PhotoRecord(fileName: string, dateTime: int, gpsInfo: Option<GpsInfo>)

  /** The exceptions that end `fetch_image_data` early. */
  datatype Error =
    | MissingGpsInfo        // `image_data["GPSInfo"]` raises KeyError
    | MissingGpsTag(tag: nat)  // `image_data["GPSInfo"][2]` or `[4]` raises KeyError
    | NoGeocodeResult       // `geocode_result[0]` raises IndexError
    | NoAddressComponent    // `['address_components'][0]` raises IndexError

  /**
   * The two lists built before the lookup: the one the source names
   * `longitude` holds tags 2 and 1, the one it names `latitude` holds tags
   * 4 and 3. A missing reference tag is `None`, as `.get(1, None)` gives.
   */
  function GeocodeArguments(gps: Option<GpsInfo>): Result<(CoordinateArg, CoordinateArg), Error> {
    match gps
    case None => Failure(MissingGpsInfo)
    case Some(info) =>
      if info.latitude.None? then Failure(MissingGpsTag(2))
      else if info.longitude.None? then Failure(MissingGpsTag(4))
      else Success((CoordinateArg(info.latitude.value, info.latitudeRef),
                    CoordinateArg(info.longitude.value, info.longitudeRef)))
  }

  /**
   * `location.replace(f"{long_name} ", "")`: the folder label is the
   * formatted address with every occurrence of the first component's long
   * name followed by a space deleted; an address without that text is kept
   * whole.
   */
  function PlaceLabel(location: string, longName: string): string {
    var removalCharacters := longName + " ";
    RemoveAll(location, removalCharacters)
  }

  /** The label is never longer than the address it comes from. */
  lemma PlaceLabelNoLonger(location: string, longName: string)
    ensures |PlaceLabel(location, longName)| <= |location|
  {
    RemoveAllNoLonger(location, longName + " ");
  }

  /** An address that does not contain the long name and its space is the label unchanged. */
  lemma PlaceLabelKeepsAddress(location: string, longName: string)
    requires !Contains(location, longName + " ")
    ensures PlaceLabel(location, longName) == location
  {
    RemoveAllAbsent(location, longName + " ");
  }

  /** A formatted address that starts with the long name and a space, and does not repeat them, loses just that prefix. */
  lemma PlaceLabelStripsLeadingName(longName: string, rest: string)
    requires !Contains(rest, longName + " ")
    ensures PlaceLabel(longName + " " + rest, longName) == rest
  {
    LeadingOccurrenceRemoved(longName + " ", rest);
  }

  /** Lines 162-168 as one step: build the arguments, query the service, derive the label. */
  function LookupLabel(gps: Option<GpsInfo>, service: Geocoder): Result<string, Error> {
    match GeocodeArguments(gps)
    case Failure(e) => Failure(e)
    case Success(arguments) =>
      var geocodeResult := ReverseGeocode(service, arguments.0, arguments.1);
      if |geocodeResult| == 0 then Failure(NoGeocodeResult)
      else if |geocodeResult[0].addressComponents| == 0 then Failure(NoAddressComponent)
      else Success(PlaceLabel(geocodeResult[0].formattedAddress, geocodeResult[0].addressComponents[0].longName))
  }

  /**
   * The caller's `longitude` list holds the latitude tags (2, 1) and its
   * `latitude` list the longitude tags (4, 3); `reverse_geocode` sends
   * (converted `longitude`, converted `latitude`). The two swaps cancel:
   * the service receives the decimal latitude first and the decimal
   * longitude second.
   */
  lemma GeocoderReceivesLatitudeFirst(info: GpsInfo, service: Geocoder)
    requires info.latitude.Some? && info.longitude.Some?
    ensures GeocodeArguments(Some(info)).Success?
    ensures var arguments := GeocodeArguments(Some(info)).value;
      ReverseGeocode(service, arguments.0, arguments.1)
        == service(ConvertCoordinatesToDecimal(info.latitude.value, info.latitudeRef),
                   ConvertCoordinatesToDecimal(info.longitude.value, info.longitudeRef))
  {
  }

  /**
   * When a lookup raises: no `GPSInfo`, no GPSLatitude (tag 2, read
   * first), no GPSLongitude (tag 4), an empty answer, or a first candidate
   * without address components. A missing reference tag (1 or 3) is not an
   * error.
   */
  lemma LookupErrors(gps: Option<GpsInfo>, service: Geocoder)
    ensures gps.None? ==> LookupLabel(gps, service) == Failure(MissingGpsInfo)
    ensures gps.Some? && gps.value.latitude.None? ==> LookupLabel(gps, service) == Failure(MissingGpsTag(2))
    ensures gps.Some? && gps.value.latitude.Some? && gps.value.longitude.None? ==>
      LookupLabel(gps, service) == Failure(MissingGpsTag(4))
    ensures gps.Some? && gps.value.latitude.Some? && gps.value.longitude.Some? ==>
      var answer := service(ConvertCoordinatesToDecimal(gps.value.latitude.value, gps.value.latitudeRef),
                            ConvertCoordinatesToDecimal(gps.value.longitude.value, gps.value.longitudeRef));
      LookupLabel(gps, service) == if |answer| == 0 then Failure(NoGeocodeResult)
        else if |answer[0].addressComponents| == 0 then Failure(NoAddressComponent)
        else Success(PlaceLabel(answer[0].formattedAddress, answer[0].addressComponents[0].longName))
  {
  }

  // ---------------------------------------------------------------------------
  // The grouping pass of fetch_image_data

  /**
   * The dictionary `reverse_geocode_results`: its keys in insertion order,
   * and the list of file names stored under each key.
   */
  datatype Plan = Plan(keys: seq<string>, groups: map<string, seq<string>>)

  predicate Distinct(s: seq<string>) {
    forall i, j :: 0 <= i < j < |s| ==> s[i] != s[j]
  }

  /** The key order lists every key of the dictionary exactly once. */
  ghost predicate WellFormed(p: Plan) {
    Distinct(p.keys) && forall k :: k in p.groups <==> k in p.keys
  }

  /** `abs(t - t0) > timedelta(minutes=thresholdMinutes)`, with times in seconds */
  predicate ExceedsThreshold(t: int, t0: int, thresholdMinutes: int) {
    (if t >= t0 then t - t0 else t0 - t) > thresholdMinutes * 60
  }

  /**
   * Whether the record at position `i` is looked up: the first record
   * always is, every later one when it lies more than the threshold away
   * from the first record's time.
   */
  predicate TriggersLookup(records: seq<PhotoRecord>, i: int, thresholdMinutes: int)
    requires 0 <= i < |records|
  {
    i == 0 || ExceedsThreshold(records[i].dateTime, records[0].dateTime, thresholdMinutes)
  }

  /** A label not yet a key is inserted with an empty list; a known label changes nothing. */
  function AddKey(p: Plan, name: string): Plan {
    if name in p.groups then p else Plan(p.keys + [name], p.groups[name := []])
  }

  /**
   * `reverse_geocode_results[list(keys())[-1]].append(file)`. The pass only
   * applies it to a plan that has a last key (`SegmentWellFormed`); on any
   * other plan it changes nothing.
   */
  function AppendToLast(p: Plan, file: string): Plan {
    if |p.keys| > 0 && p.keys[|p.keys| - 1] in p.groups then
      var lastLocation := p.keys[|p.keys| - 1];
      Plan(p.keys, p.groups[lastLocation := p.groups[lastLocation] + [file]])
    else p
  }

  /** One iteration of the loop, for a record whose lookup decision is `lookup`. */
  function Visit(p: Plan, record: PhotoRecord, lookup: bool, service: Geocoder): Result<Plan, Error> {
    if lookup then
      match LookupLabel(record.gpsInfo, service)
      case Failure(e) => Failure(e)
      case Success(name) => Success(AppendToLast(AddKey(p, name), record.fileName))
    else Success(AppendToLast(p, record.fileName))
  }

  /**
   * The grouping pass over the records in order, as a fold: the result for
   * a sequence is one more loop iteration on the result for the sequence
   * without its last record. Any error ends the pass.
   */
  function Segment(records: seq<PhotoRecord>, thresholdMinutes: int, service: Geocoder): Result<Plan, Error>
    decreases |records|
  {
    if |records| == 0 then Success(Plan([], map[]))
    else
      var n := |records| - 1;
      match Segment(records[..n], thresholdMinutes, service)
      case Failure(e) => Failure(e)
      case Success(p) => Visit(p, records[n], TriggersLookup(records, n, thresholdMinutes), service)
  }

  /** An iteration keeps the dictionary well formed and leaves it with a last key. */
  lemma VisitWellFormed(p: Plan, record: PhotoRecord, lookup: bool, service: Geocoder)
    requires WellFormed(p) && (lookup || |p.keys| > 0)
    ensures Visit(p, record, lookup, service).Success? ==>
      var q := Visit(p, record, lookup, service).value;
      WellFormed(q) && |q.keys| > 0
  {
    if lookup && LookupLabel(record.gpsInfo, service).Success? {
      var name := LookupLabel(record.gpsInfo, service).value;
      var q := AddKey(p, name);
      assert WellFormed(q) by {
        if name !in p.groups {
          assert forall k :: k in q.keys <==> k in p.keys || k == name;
        }
      }
      assert name in q.keys;
    }
  }

  /**
   * On success the pass yields a well-formed dictionary, which has a key
   * exactly when there was at least one record.
   */
  lemma {:induction false} SegmentWellFormed(records: seq<PhotoRecord>, thresholdMinutes: int, service: Geocoder)
    ensures Segment(records, thresholdMinutes, service).Success? ==>
      var p := Segment(records, thresholdMinutes, service).value;
      WellFormed(p) && (|p.keys| > 0 <==> |records| > 0)
    decreases |records|
  {
    if |records| > 0 {
      var n := |records| - 1;
      SegmentWellFormed(records[..n], thresholdMinutes, service);
      if Segment(records[..n], thresholdMinutes, service).Success? {
        var p := Segment(records[..n], thresholdMinutes, service).value;
        assert n == 0 ==> TriggersLookup(records, n, thresholdMinutes);
        VisitWellFormed(p, records[n], TriggersLookup(records, n, thresholdMinutes), service);
      }
    }
  }

  /** `extract_exif_data` followed by `image_data["file_name"] = file` */
  function ExtractRecord(file: string, exif: string -> Exif): PhotoRecord {
    PhotoRecord(file, exif(file).dateTime, exif(file).gpsInfo)
  }

  function Records(files: seq<string>, exif: string -> Exif): (r: seq<PhotoRecord>)
    ensures |r| == |files|
  {
    seq(|files|, i requires 0 <= i < |files| => ExtractRecord(files[i], exif))
  }

  /** What `fetch_image_data` returns: the metadata dump and the grouping. */
  datatype ImageData = ImageData(dump: seq<PhotoRecord>, plan: Plan)

  /** Once the pass has failed on a prefix, it fails with the same error on the whole sequence. */
  lemma {:induction false} SegmentFailurePersists(records: seq<PhotoRecord>, m: nat, thresholdMinutes: int, service: Geocoder)
    requires m <= |records| && Segment(records[..m], thresholdMinutes, service).Failure?
    ensures Segment(records, thresholdMinutes, service) == Segment(records[..m], thresholdMinutes, service)
    decreases |records|
  {
    if m < |records| {
      var n := |records| - 1;
      assert records[..n][..m] == records[..m];
      SegmentFailurePersists(records[..n], m, thresholdMinutes, service);
    } else {
      assert records[..m] == records;
    }
  }

  lemma SliceSnoc<T>(s: seq<T>, i: nat)
    requires i < |s|
    ensures s[..i + 1] == s[..i] + [s[i]]
  {
  }

  /** `AppendToLast` as the dictionary update the loop performs. */
  lemma AppendToLastUpdates(keys: seq<string>, groups: map<string, seq<string>>, file: string)
    requires |keys| > 0 && keys[|keys| - 1] in groups
    ensures AppendToLast(Plan(keys, groups), file)
         == Plan(keys, groups[keys[|keys| - 1] := groups[keys[|keys| - 1]] + [file]])
  {
  }

  /** A record that is not looked up joins the last group. */
  lemma StepWithoutLookup(records: seq<PhotoRecord>, i: nat, thresholdMinutes: int, service: Geocoder, p: Plan)
    requires i < |records| && Segment(records[..i], thresholdMinutes, service) == Success(p)
    requires !TriggersLookup(records, i, thresholdMinutes)
    ensures |p.keys| > 0 && p.keys[|p.keys| - 1] in p.groups
    ensures WellFormed(p)
    ensures Segment(records[..i + 1], thresholdMinutes, service) == Success(AppendToLast(p, records[i].fileName))
  {
    SegmentWellFormed(records[..i], thresholdMinutes, service);
    assert records[..i + 1][..i] == records[..i];
  }

  /** A record that is looked up adds its label if new, then joins the last group. */
  lemma StepWithLookup(records: seq<PhotoRecord>, i: nat, thresholdMinutes: int, service: Geocoder, p: Plan, name: string)
    requires i < |records| && Segment(records[..i], thresholdMinutes, service) == Success(p)
    requires TriggersLookup(records, i, thresholdMinutes)
    requires LookupLabel(records[i].gpsInfo, service) == Success(name)
    ensures WellFormed(p) && WellFormed(AddKey(p, name)) && |AddKey(p, name).keys| > 0
    ensures Segment(records[..i + 1], thresholdMinutes, service) == Success(AppendToLast(AddKey(p, name), records[i].fileName))
  {
    SegmentWellFormed(records[..i], thresholdMinutes, service);
    VisitWellFormed(p, records[i], true, service);
    assert records[..i + 1][..i] == records[..i];
  }

  /** A failed lookup ends the whole pass with its error. */
  lemma StepLookupFails(records: seq<PhotoRecord>, i: nat, thresholdMinutes: int, service: Geocoder, p: Plan)
    requires i < |records| && Segment(records[..i], thresholdMinutes, service) == Success(p)
    requires TriggersLookup(records, i, thresholdMinutes)
    requires LookupLabel(records[i].gpsInfo, service).Failure?
    ensures Segment(records, thresholdMinutes, service) == Failure(LookupLabel(records[i].gpsInfo, service).error)
  {
    assert records[..i + 1][..i] == records[..i];
    SegmentFailurePersists(records, i + 1, thresholdMinutes, service);
  }

  /**
   * `fetch_image_data`: filters the listing, reads each file's metadata,
   * and walks the files in order, grouping them under place labels. On
   * success the result is the dump of every record and the grouping
   * `Segment` defines; on an error it is that same error.
   */
  method FetchImageData(listing: seq<string>, config: Config, exif: string -> Exif, service: Geocoder)
    returns (r: Result<ImageData, Error>)
    ensures var records := Records(FetchAllFiles(listing, config.imagePrefix, config.imageType, true, config.imageExclusion), exif);
      match Segment(records, config.timeThresholdMinutes, service)
      case Success(plan) => r == Success(ImageData(records, plan))
      case Failure(e) => r == Failure(e)
  {
    var files := FetchAllFiles(listing, config.imagePrefix, config.imageType, true, config.imageExclusion);
    ghost var records := Records(files, exif);
    var imageDataDump: seq<PhotoRecord> := [];
    var imageDateTimes: seq<int> := [];
    var keys: seq<string> := [];
    var groups: map<string, seq<string>> := map[];
    for i := 0 to |files|
      invariant imageDataDump == records[..i]
      invariant |imageDateTimes| == i
      invariant i > 0 ==> imageDateTimes[0] == records[0].dateTime
      invariant Segment(records[..i], config.timeThresholdMinutes, service) == Success(Plan(keys, groups))
    {
      ghost var before := Plan(keys, groups);
      var file := files[i];
      var imageData := exif(file);
      var record := PhotoRecord(file, imageData.dateTime, imageData.gpsInfo);
      assert record == records[i];
      imageDateTimes := imageDateTimes + [record.dateTime];
      imageDataDump := imageDataDump + [record];
      SliceSnoc(records, i);

      if |imageDateTimes| == 1 || ExceedsThreshold(record.dateTime, imageDateTimes[0], config.timeThresholdMinutes) {
        assert TriggersLookup(records, i, config.timeThresholdMinutes);
        var lookedUp := LookupLabel(record.gpsInfo, service);
        if lookedUp.Failure? {
          StepLookupFails(records, i, config.timeThresholdMinutes, service, before);
          return Failure(lookedUp.error);
        }
        var name := lookedUp.value;
        StepWithLookup(records, i, config.timeThresholdMinutes, service, before, name);
        if name !in groups {
          keys := keys + [name];
          groups := groups[name := []];
        }
        assert Plan(keys, groups) == AddKey(before, name);
      } else {
        StepWithoutLookup(records, i, config.timeThresholdMinutes, service, before);
      }
      AppendToLastUpdates(keys, groups, file);

      var lastLocation := keys[|keys| - 1];
      groups := groups[lastLocation := groups[lastLocation] + [file]];
    }
    assert records[..|files|] == records;
    r := Success(ImageData(imageDataDump, Plan(keys, groups)));
  }
}
