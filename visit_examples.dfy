/**
 * Worked inputs for the grouping pass, with a geocoder that answers
 * "1 Park Ave" for latitude 1 and "5 Lake Rd" everywhere else.
 */
module VisitExamples {
  import opened Wrappers
  import opened PyStrings
  import opened GeoUtils
  import opened FileHandling
  import opened VisitProperties

  const ParkGps := Some(GpsInfo(Some("N"), Some(Dms(1.0, 0.0, 0.0)), Some("E"), Some(Dms(2.0, 0.0, 0.0))))
  const LakeGps := Some(GpsInfo(Some("N"), Some(Dms(3.0, 0.0, 0.0)), Some("E"), Some(Dms(2.0, 0.0, 0.0))))

  function ExampleService(latitude: real, longitude: real): seq<GeocodeCandidate> {
    if latitude == 1.0 then [GeocodeCandidate("1 Park Ave", [AddressComponent("1")])]
    else [GeocodeCandidate("5 Lake Rd", [AddressComponent("5")])]
  }

  /** A label whose long name's first character does not recur in the rest of the address. */
  lemma LeadingLabel(longName: string, rest: string)
    requires (longName + " ")[0] !in rest
    ensures PlaceLabel(longName + " " + rest, longName) == rest
  {
    ContainsFirstChar(rest, longName + " ");
    PlaceLabelStripsLeadingName(longName, rest);
  }

  /** The leading "12 " is deleted. */
  lemma LabelStripsLeadingNumber(address: string)
    requires address == "12 Elm St"
    ensures PlaceLabel(address, "12") == "Elm St"
  {
    var rest := address[3..];
    assert address == "12" + " " + rest;
    LeadingLabel("12", rest);
  }

  /** An address that does not contain the long name is kept whole. */
  lemma LabelKeepsAddressWithoutName(address: string)
    requires address == "Elm St"
    ensures PlaceLabel(address, "12") == address
  {
    ContainsFirstChar(address, "12" + " ");
    PlaceLabelKeepsAddress(address, "12");
  }

  lemma InnerOccurrenceRemoved(text: string)
    requires text == "Elm, 12 Elm"
    ensures RemoveAll(text, "12 ") == "Elm, Elm"
  {
    var between := text[..5];
    var tail := text[8..];
    assert text == between + "12 " + tail;
    RemoveAllPlainPrefix(between, "12 ", tail);
    ContainsFirstChar(tail, "12 ");
    RemoveAllAbsent(tail, "12 ");
    assert between + tail == "Elm, Elm";
  }

  /** Not only a leading occurrence: every occurrence of the long name and its space is deleted. */
  lemma LabelRemovesEveryOccurrence(address: string)
    requires address == "12 Elm, 12 Elm"
    ensures PlaceLabel(address, "12") == "Elm, Elm"
  {
    var text := address[3..];
    assert address == [] + "12 " + text;
    RemoveAllPlainPrefix([], "12 ", text);
    InnerOccurrenceRemoved(text);
    assert "12" + " " == "12 ";
  }

  /** A lookup whose single candidate starts with its one long name and a space. */
  lemma LookupOfSingleCandidate(info: GpsInfo, service: Geocoder, longName: string, rest: string)
    requires info.latitude.Some? && info.longitude.Some? && (longName + " ")[0] !in rest
    requires service(ConvertCoordinatesToDecimal(info.latitude.value, info.latitudeRef),
                     ConvertCoordinatesToDecimal(info.longitude.value, info.longitudeRef))
          == [GeocodeCandidate(longName + " " + rest, [AddressComponent(longName)])]
    ensures LookupLabel(Some(info), service) == Success(rest)
  {
    LookupErrors(Some(info), service);
    LeadingLabel(longName, rest);
  }

  /** In the northern and eastern hemispheres whole degrees convert to themselves. */
  lemma WholeDegrees(d: real, direction: Option<string>)
    requires direction == Some("N") || direction == Some("E")
    ensures ConvertCoordinatesToDecimal(Dms(d, 0.0, 0.0), direction) == d
  {
    assert !IsSouthOrWest(direction);
  }

  lemma ParkLookup()
    ensures LookupLabel(ParkGps, ExampleService) == Success("Park Ave")
  {
    WholeDegrees(1.0, Some("N"));
    WholeDegrees(2.0, Some("E"));
    assert "1 Park Ave" == "1" + " " + "Park Ave";
    LookupOfSingleCandidate(ParkGps.value, ExampleService, "1", "Park Ave");
  }

  lemma LakeLookup()
    ensures LookupLabel(LakeGps, ExampleService) == Success("Lake Rd")
  {
    WholeDegrees(3.0, Some("N"));
    WholeDegrees(2.0, Some("E"));
    assert "5 Lake Rd" == "5" + " " + "Lake Rd";
    LookupOfSingleCandidate(LakeGps.value, ExampleService, "5", "Lake Rd");
  }

  /** The first two photos of the scenario below form one visit. */
  lemma FirstVisit(records: seq<PhotoRecord>, service: Geocoder, labelA: string)
    requires |records| == 3 && records[1].dateTime == records[0].dateTime + 10 * 60
    requires LookupLabel(records[0].gpsInfo, service) == Success(labelA)
    ensures Segment(records[..2], 30, service) == Success(Plan([labelA], map[labelA := [records[0].fileName, records[1].fileName]]))
  {
    var a, b := records[0].fileName, records[1].fileName;
    SegmentOne(records, 30, service);
    var p1 := Plan([labelA], map[labelA := [a]]);
    StepWithoutLookup(records, 1, 30, service, p1);
    assert [a] + [b] == [a, b];
    UpdateTwice(map[], labelA, [a], [a, b]);
    assert AppendToLast(p1, b) == Plan([labelA], map[labelA := [a, b]]);
  }

  /** The third photo of the scenario below, forty minutes after the first, starts a second visit. */
  lemma SecondVisit(records: seq<PhotoRecord>, service: Geocoder, labelA: string, labelC: string)
    requires |records| == 3 && records[2].dateTime == records[0].dateTime + 40 * 60
    requires Segment(records[..2], 30, service) == Success(Plan([labelA], map[labelA := [records[0].fileName, records[1].fileName]]))
    requires LookupLabel(records[2].gpsInfo, service) == Success(labelC) && labelA != labelC
    ensures Segment(records, 30, service)
         == Success(Plan([labelA, labelC], map[labelA := [records[0].fileName, records[1].fileName], labelC := [records[2].fileName]]))
  {
    var c := records[2].fileName;
    var groups := map[labelA := [records[0].fileName, records[1].fileName]];
    var p2 := Plan([labelA], groups);
    StepWithLookup(records, 2, 30, service, p2, labelC);
    assert AddKey(p2, labelC) == Plan([labelA] + [labelC], groups[labelC := []]);
    assert [labelA] + [labelC] == [labelA, labelC];
    assert [] + [c] == [c];
    UpdateTwice(groups, labelC, [], [c]);
    assert records[..3] == records;
  }

  /**
   * Photo A at some time, B ten minutes later at the same place, C forty
   * minutes after A at a place with another label, with a thirty-minute
   * threshold: {labelA: [A, B], labelC: [C]}, for every geocoder.
   */
  lemma ThreePhotoScenario(records: seq<PhotoRecord>, service: Geocoder, labelA: string, labelC: string)
    requires |records| == 3
    requires records[1].dateTime == records[0].dateTime + 10 * 60 && records[2].dateTime == records[0].dateTime + 40 * 60
    requires LookupLabel(records[0].gpsInfo, service) == Success(labelA)
    requires LookupLabel(records[2].gpsInfo, service) == Success(labelC) && labelA != labelC
    ensures Segment(records, 30, service)
         == Success(Plan([labelA, labelC], map[labelA := [records[0].fileName, records[1].fileName], labelC := [records[2].fileName]]))
  {
    FirstVisit(records, service, labelA);
    SecondVisit(records, service, labelA, labelC);
  }

  /** The same with the geocoder above: {"Park Ave": [A, B], "Lake Rd": [C]}. */
  lemma ParkAndLake(records: seq<PhotoRecord>)
    requires records == [PhotoRecord("A", 0, ParkGps), PhotoRecord("B", 600, ParkGps), PhotoRecord("C", 2400, LakeGps)]
    ensures Segment(records, 30, ExampleService)
         == Success(Plan(["Park Ave", "Lake Rd"], map["Park Ave" := ["A", "B"], "Lake Rd" := ["C"]]))
  {
    ParkLookup();
    LakeLookup();
    assert |"Park Ave"| != |"Lake Rd"|;
    ThreePhotoScenario(records, ExampleService, "Park Ave", "Lake Rd");
  }

  /** A visit to a first place, then forty minutes later a visit to a second one. */
  lemma TwoPlaces(records: seq<PhotoRecord>, service: Geocoder, labelP: string, labelL: string)
    requires |records| == 3 && records[1].dateTime == records[0].dateTime + 40 * 60
    requires LookupLabel(records[0].gpsInfo, service) == Success(labelP)
    requires LookupLabel(records[1].gpsInfo, service) == Success(labelL)
    requires labelP != labelL
    ensures Segment(records[..2], 30, service)
         == Success(Plan([labelP, labelL], map[labelP := [records[0].fileName], labelL := [records[1].fileName]]))
  {
    var a, b := records[0].fileName, records[1].fileName;
    SegmentOne(records, 30, service);
    var p1 := Plan([labelP], map[labelP := [a]]);
    StepWithLookup(records, 1, 30, service, p1, labelL);
    assert AddKey(p1, labelL) == Plan([labelP] + [labelL], map[labelP := [a]][labelL := []]);
    assert [labelP] + [labelL] == [labelP, labelL];
    assert [] + [b] == [b];
    UpdateTwice(map[labelP := [a]], labelL, [], [b]);
  }

  /** The third photo, back at the first place, joins the group of the second place. */
  lemma ReturnToFirstPlace(records: seq<PhotoRecord>, service: Geocoder, labelP: string, labelL: string)
    requires |records| == 3 && records[2].dateTime == records[0].dateTime + 80 * 60
    requires Segment(records[..2], 30, service)
          == Success(Plan([labelP, labelL], map[labelP := [records[0].fileName], labelL := [records[1].fileName]]))
    requires LookupLabel(records[2].gpsInfo, service) == Success(labelP)
    ensures Segment(records, 30, service)
         == Success(Plan([labelP, labelL], map[labelP := [records[0].fileName], labelL := [records[1].fileName, records[2].fileName]]))
  {
    var b, c := records[1].fileName, records[2].fileName;
    var p2 := Plan([labelP, labelL], map[labelP := [records[0].fileName], labelL := [b]]);
    StepWithLookup(records, 2, 30, service, p2, labelP);
    assert AddKey(p2, labelP) == p2;
    assert [b] + [c] == [b, c];
    UpdateTwice(map[labelP := [records[0].fileName]], labelL, [b], [b, c]);
    assert records[..3] == records;
  }

  /**
   * A at the first place, B forty minutes later at a second place, C
   * another forty minutes later back at the first place: the lookup for C
   * yields a label that is already a key, so no key is added and C joins
   * the group of the second place, the last key.
   */
  lemma LabelCollisionJoinsLastGroup(records: seq<PhotoRecord>, service: Geocoder, labelP: string, labelL: string)
    requires |records| == 3
    requires records[1].dateTime == records[0].dateTime + 40 * 60 && records[2].dateTime == records[0].dateTime + 80 * 60
    requires LookupLabel(records[0].gpsInfo, service) == Success(labelP)
    requires LookupLabel(records[1].gpsInfo, service) == Success(labelL)
    requires LookupLabel(records[2].gpsInfo, service) == Success(labelP) && labelP != labelL
    ensures Segment(records, 30, service)
         == Success(Plan([labelP, labelL], map[labelP := [records[0].fileName], labelL := [records[1].fileName, records[2].fileName]]))
  {
    TwoPlaces(records, service, labelP, labelL);
    ReturnToFirstPlace(records, service, labelP, labelL);
  }

  /**
   * Every photo is compared with the first photo, not with the previous
   * one: at 0, 20 and 40 minutes with a thirty-minute threshold the second
   * photo triggers no lookup and the third does, although it is only twenty
   * minutes after the second.
   */
  lemma GapIsMeasuredFromFirstPhoto(records: seq<PhotoRecord>)
    requires |records| == 3
    requires records[1].dateTime == records[0].dateTime + 20 * 60 && records[2].dateTime == records[0].dateTime + 40 * 60
    ensures !TriggersLookup(records, 1, 30) && TriggersLookup(records, 2, 30)
    ensures !ExceedsThreshold(records[2].dateTime, records[1].dateTime, 30)
  {
  }
}
