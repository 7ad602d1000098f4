/**
 * Degrees/minutes/seconds to decimal degrees, and the call into the
 * reverse-geocoding service (utils/geo_utils.py). The service is a function
 * parameter: it receives the pair of decimal values and answers with the
 * list of candidate addresses.
 */
module GeoUtils {
  import opened Wrappers

  /** An EXIF GPSLatitude or GPSLongitude value: three rationals, taken here as reals. */
  datatype Dms = Dms(degrees: real, minutes: real, seconds: real)

  /** The two-element list `[coordinate, direction]` that is unpacked with `*` into the converter. */
  datatype CoordinateArg = CoordinateArg(coordinate: Dms, direction: Option<string>)

  /** One entry of a candidate's `address_components`. */
  datatype AddressComponent = AddressComponent(longName: string)

  /** One entry of the list the geocoding service answers with. */
  datatype GeocodeCandidate = GeocodeCandidate(formattedAddress: string, addressComponents: seq<AddressComponent>)

  /** The geocoding service: queried with one pair of decimal degrees. */
  type Geocoder = (real, real) -> seq<GeocodeCandidate>

  function Abs(x: real): real {
    if x < 0.0 then -x else x
  }

  /** `direction in ["S", "W"]`; `None` and every other value are not in that list */
  predicate IsSouthOrWest(direction: Option<string>) {
    direction == Some("S") || direction == Some("W")
  }

  predicate NonNegative(c: Dms) {
    c.degrees >= 0.0 && c.minutes >= 0.0 && c.seconds >= 0.0
  }

  /** `convert_coordinates_to_decimal(coordinate, direction)` */
  function ConvertCoordinatesToDecimal(coordinate: Dms, direction: Option<string>): real {
    var decimalDegrees := coordinate.degrees + coordinate.minutes / 60.0 + coordinate.seconds / 3600.0;
    if IsSouthOrWest(direction) then -decimalDegrees else decimalDegrees
  }

  /** The size of the result is `d + m/60 + s/3600` for every direction. */
  lemma ConvertMagnitude(coordinate: Dms, direction: Option<string>)
    ensures Abs(ConvertCoordinatesToDecimal(coordinate, direction))
         == Abs(coordinate.degrees + coordinate.minutes / 60.0 + coordinate.seconds / 3600.0)
  {
  }

  /**
   * For non-negative parts the result is negative exactly when the
   * direction is "S" or "W" and the coordinate is not zero.
   */
  lemma ConvertSign(coordinate: Dms, direction: Option<string>)
    requires NonNegative(coordinate)
    ensures ConvertCoordinatesToDecimal(coordinate, direction) < 0.0
        <==> IsSouthOrWest(direction) && coordinate.degrees + coordinate.minutes / 60.0 + coordinate.seconds / 3600.0 > 0.0
  {
  }

  /** South is the mirror image of north, west of east. */
  lemma ConvertOppositeHemispheres(c: Dms)
    ensures ConvertCoordinatesToDecimal(c, Some("S")) == -ConvertCoordinatesToDecimal(c, Some("N"))
    ensures ConvertCoordinatesToDecimal(c, Some("W")) == -ConvertCoordinatesToDecimal(c, Some("E"))
  {
  }

  /** A direction other than "S" and "W" ("N", "E", a missing tag, anything else) leaves the value as it is. */
  lemma ConvertKeepsSignOtherwise(c: Dms, direction: Option<string>)
    requires !IsSouthOrWest(direction)
    ensures ConvertCoordinatesToDecimal(c, direction) == ConvertCoordinatesToDecimal(c, Some("N"))
    ensures ConvertCoordinatesToDecimal(c, None) == c.degrees + c.minutes / 60.0 + c.seconds / 3600.0
  {
  }

  /** Zero degrees is zero in every hemisphere. */
  lemma ConvertZero(direction: Option<string>)
    ensures ConvertCoordinatesToDecimal(Dms(0.0, 0.0, 0.0), direction) == 0.0
  {
  }

  /** 45 degrees 30 minutes is 45.5 north and -45.5 south. */
  lemma ConvertHalfDegree()
    ensures ConvertCoordinatesToDecimal(Dms(45.0, 30.0, 0.0), Some("N")) == 45.5
    ensures ConvertCoordinatesToDecimal(Dms(45.0, 30.0, 0.0), Some("S")) == -45.5
  {
    assert 30.0 / 60.0 == 0.5;
    assert IsSouthOrWest(Some("S"));
    assert !IsSouthOrWest(Some("N"));
  }

  /**
   * `reverse_geocode(longitude, latitude)`: each argument is converted, the
   * service is queried with the pair (converted `longitude`, converted
   * `latitude`) in that order, and its answer is returned unchanged.
   */
  function ReverseGeocode(service: Geocoder, longitude: CoordinateArg, latitude: CoordinateArg): seq<GeocodeCandidate> {
    var decimalLatitude := ConvertCoordinatesToDecimal(latitude.coordinate, latitude.direction);
    var decimalLongitude := ConvertCoordinatesToDecimal(longitude.coordinate, longitude.direction);
    service(decimalLongitude, decimalLatitude)
  }
}
