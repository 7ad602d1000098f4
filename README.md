# dji-geosorter in Dafny

dji-geosorter sorts drone photos into one folder per place. This project
models the logic at its centre and proves properties of it:

- **The file filter of `fetch_all_files`.** A name is kept when it
  contains the configured prefix, its lower-cased form ends with the
  configured file type (if the type filter is on), and it does not
  contain the exclusion text. Kept names stay in listing order.
- **The visit-grouping pass of `fetch_image_data`.** The photos are walked
  in order. The pass consults the reverse geocoder for the first photo,
  and for every photo taken more than the threshold away from the
  *first* photo. The geocoder's answer becomes a place label. A new label
  is added as a key of an insertion-ordered dictionary. Every photo is
  then appended to the list of the key inserted *last*.
- **`convert_coordinates_to_decimal` and `reverse_geocode`.** The first
  turns degrees, minutes and seconds into decimal degrees, negated for
  "S" and "W". The second queries the geocoding service.

How the model is built:

- `FileHandling.FetchImageData` is a method with the source's loop.
  - It builds the record dump and the dictionary step by step. The
    dictionary is a sequence of keys plus a map.
  - It is proved to compute `FileHandling.Segment`, a left fold over the
    records that defines what the loop computes.
  - The lemmas in `VisitProperties` prove partition, order, non-empty
    groups and the lookup rule about `Segment`.
- The EXIF reader and the geocoding service are function parameters.
- The directory listing is a sequence of names.
- Configuration values are parameters (`FileHandling.Config`).
- Python's `in`, `str.endswith`, `str.lower` and `str.replace(p, "")` are
  modelled in `PyStrings`.

Four of the exceptions that can end the pass early are modelled as
`Failure` values of `FileHandling.Error`. Each can only arise for a photo
that the time test sends to the geocoder; a photo that is not looked up
may lack any of its GPS data (`VisitProperties.NoLookupIgnoresGps`):

- a looked-up photo without `GPSInfo`;
- a looked-up photo whose GPS block lacks tag 2 or tag 4;
- an empty geocoder answer;
- a first candidate without address components.

In each case the whole pass fails with that error.

Two details of the code that are easy to misread:

- **The place label.** The label is built with `str.replace`, which
  deletes *every* occurrence of the long name plus a space, not only a
  leading one (utils/file_handling.py:166-168). See
  `VisitExamples.LabelRemovesEveryOccurrence`.
- **The coordinate order.** The caller's list named `longitude` holds GPS
  tags 2 and 1, which are the latitude tags
  (utils/file_handling.py:162-163). `reverse_geocode` sends its
  `longitude` argument first (utils/geo_utils.py:21-23). So the service
  gets the decimal latitude first. See
  `FileHandling.GeocoderReceivesLatitudeFirst`.

Two further behaviours are kept exactly as written:

- A label that collides with an earlier key sends the photo to the last
  inserted key (`VisitExamples.LabelCollisionJoinsLastGroup`).
- Every time gap is measured from the first photo
  (`VisitExamples.GapIsMeasuredFromFirstPhoto`).

Files:

| file | contents |
|---|---|
| `wrappers.dfy` | `Option` and `Result` |
| `py_strings.dfy` | the Python string operations used by the filter and the label |
| `geo_utils.dfy` | coordinate conversion and the query to the geocoding service |
| `file_handling.dfy` | the filter, the lookup and label, the specification `Segment` of the pass, and the loop `FetchImageData` |
| `visit_properties.dfy` | properties of the grouping pass |
| `visit_examples.dfy` | worked scenarios of the pass and the label |

## Model

| member | source | states |
|---|---|---|
| FileHandling.FetchAllFiles | utils/file_handling.py:92-98 | a name is in the result exactly when it is in the listing and contains the prefix, its lower-cased form ends with the file type (or the type filter is off), and it does not contain the exclusion text; the result is no longer than the listing |
| FileHandling.FetchAllFilesAppend | utils/file_handling.py:92-98 | filtering a concatenation of listings is the concatenation of the filtered parts, so kept names keep their order |
| FileHandling.FetchAllFilesSingle | utils/file_handling.py:95-97 | a single name is kept exactly when it passes all three tests |
| PyStrings.ContainsIffOccurs | utils/file_handling.py:95 | the substring test `x in s` holds exactly when `x` occurs at some position of `s` |
| PyStrings.OccursAtContains | utils/file_handling.py:97 | an occurrence at any position makes the substring test succeed |
| PyStrings.ContainsOccursAt | utils/file_handling.py:95 | a successful substring test has a position where the text occurs |
| PyStrings.ContainsFirstChar | utils/file_handling.py:166-167 | a text whose first character does not appear in `s` is not in `s` |
| PyStrings.RemoveAllNoLonger | utils/file_handling.py:167 | `replace(p, "")` never lengthens the string |
| PyStrings.RemoveAllAbsent | utils/file_handling.py:167 | `replace(p, "")` leaves a string without `p` unchanged |
| PyStrings.RemoveAllLeftmost | utils/file_handling.py:167 | at the leftmost occurrence of `p`, the text before it is kept, the occurrence is deleted, and the scan resumes right after it |
| PyStrings.RemoveAllPlainPrefix | utils/file_handling.py:167 | text that cannot start `p` is kept, and the occurrence after it is deleted |
| PyStrings.LeadingOccurrenceRemoved | utils/file_handling.py:167 | a leading `p` is deleted, and the rest is kept when `p` does not recur |
| GeoUtils.ConvertMagnitude | utils/geo_utils.py:39-41 | the absolute value of the result is `d + m/60 + s/3600` for every direction |
| GeoUtils.ConvertSign | utils/geo_utils.py:41-47 | for non-negative parts the result is negative exactly when the direction is "S" or "W" and the value is not zero |
| GeoUtils.ConvertOppositeHemispheres | utils/geo_utils.py:44-45 | the value for "S" is minus the value for "N", and the value for "W" is minus the value for "E" |
| GeoUtils.ConvertKeepsSignOtherwise | utils/geo_utils.py:44-47 | every direction other than "S" and "W", including a missing one, gives the unnegated value |
| GeoUtils.ConvertZero | utils/geo_utils.py:41-47 | (0, 0, 0) converts to 0 in every direction |
| GeoUtils.ConvertHalfDegree | utils/geo_utils.py:41-47 | (45, 30, 0) is 45.5 for "N" and -45.5 for "S" |
| FileHandling.GeocoderReceivesLatitudeFirst | utils/geo_utils.py:18-24 | with the caller's argument lists (utils/file_handling.py:162-164), `reverse_geocode` queries the service once, with the converted GPS tags 2/1 (latitude) first and tags 4/3 (longitude) second, and returns its answer unchanged |
| FileHandling.LookupErrors | utils/file_handling.py:162-168 | the lookup fails on a missing GPS block, a missing tag 2 (checked first) or tag 4, an empty answer, or a first candidate without address components; a missing tag 1 or 3 is no error; otherwise the label comes from the first candidate's address and first long name |
| FileHandling.PlaceLabelNoLonger | utils/file_handling.py:165-168 | the label is never longer than the formatted address |
| FileHandling.PlaceLabelKeepsAddress | utils/file_handling.py:165-168 | an address that does not contain the long name and a space is the label unchanged |
| FileHandling.PlaceLabelStripsLeadingName | utils/file_handling.py:165-168 | an address made of the long name, a space and a rest that does not repeat them gives that rest |
| FileHandling.VisitWellFormed | utils/file_handling.py:159-171 | one step keeps the keys distinct and equal to the dictionary's key set, and leaves at least one key |
| FileHandling.SegmentWellFormed | utils/file_handling.py:145-171 | the pass yields distinct keys matching the dictionary's key set, and has a key exactly when there was a record; so an empty listing yields the empty dictionary (line 145) |
| FileHandling.SegmentFailurePersists | utils/file_handling.py:164-168 | once the pass fails on a prefix of the records, it fails with the same error on every longer sequence |
| FileHandling.StepWithoutLookup | utils/file_handling.py:159-171 | a record that fails the time test is appended to the last group, which exists |
| FileHandling.StepWithLookup | utils/file_handling.py:159-171 | a record that passes the time test adds its label if new, then is appended to the last group |
| FileHandling.StepLookupFails | utils/file_handling.py:162-168 | a failed lookup makes the whole pass fail with that error |
| FileHandling.FetchImageData | utils/file_handling.py:142-173 | the loop returns the dump of every filtered record and the dictionary `Segment` defines, or the error at which `Segment` stops |
| VisitProperties.FilesAddKey | utils/file_handling.py:167-168 | adding a key with an empty list keeps the dictionary well formed and leaves the concatenated lists unchanged |
| VisitProperties.FilesAppendToLast | utils/file_handling.py:170-171 | appending to the last key adds the file at the end of the concatenated lists |
| VisitProperties.VisitFiles | utils/file_handling.py:159-171 | one step adds exactly the current file at the end of the concatenated lists |
| VisitProperties.SegmentPartition | utils/file_handling.py:147-171 | concatenating the lists in key order gives back the input file names in order |
| VisitProperties.AddKeyShape | utils/file_handling.py:167-168 | adding a label puts at most one key at the end, makes the label a key, and extends every list |
| VisitProperties.AppendToLastShape | utils/file_handling.py:170-171 | appending keeps the keys, changes only the last key's list, and leaves that list non-empty |
| VisitProperties.AddAndAppendShape | utils/file_handling.py:167-171 | adding a label and then the file keeps every list non-empty, adds at most one key and only extends |
| VisitProperties.VisitShape | utils/file_handling.py:159-171 | one step keeps every list non-empty, adds at most one key and only extends |
| VisitProperties.SegmentShape | utils/file_handling.py:145-171 | every group is non-empty, and there are at most as many groups as files |
| VisitProperties.SegmentExtends | utils/file_handling.py:147-171 | keys are only added at the end and lists only grow at the end: the result for a prefix is extended by the result for the whole |
| VisitProperties.SegmentOne | utils/file_handling.py:159-171 | the first record is always looked up and starts the first group, holding only its file under its label |
| VisitProperties.SegmentFirstRecord | utils/file_handling.py:159-171 | on success the first key is the first record's label, and its list starts with the first file |
| VisitProperties.LookupHappens | utils/file_handling.py:159-168 | a record that passes the time test is looked up, and its label is a key of the result |
| VisitProperties.KeysAreLookedUpLabels | utils/file_handling.py:159-168 | conversely, every key of the result is the label of some record the time test sent to the geocoder: keys come only from lookups |
| VisitProperties.NoLookupIgnoresGps | utils/file_handling.py:159-164 | a record that fails the time test is not looked up: the result does not depend on its GPS data |
| VisitProperties.WithGpsLastStep | utils/file_handling.py:159-171 | the last step of the pass is the same whatever the GPS data of a record that is not looked up |
| VisitProperties.SameLastStep | utils/file_handling.py:159-171 | the last step depends only on the earlier result, the lookup decision, the file name, and the GPS data when looked up |
| VisitProperties.ThresholdIsStrict | utils/file_handling.py:159-161 | a gap of exactly the threshold, in either direction, is not a new visit; one second more is |
| VisitProperties.SingleVisit | utils/file_handling.py:159-171 | when every record is within the threshold (inclusive) of the first, there is one group, keyed by the first label and holding every file in order |
| VisitProperties.ExistingLabelAddsNoKey | utils/file_handling.py:167-171 | a label that is already a key adds no key; the file goes to the last key's list and nothing else changes |
| VisitExamples.LeadingLabel | utils/file_handling.py:165-168 | a long name whose first character does not recur in the rest of the address is stripped, leaving the rest |
| VisitExamples.LabelStripsLeadingNumber | utils/file_handling.py:165-168 | "12 Elm St" with long name "12" gives the label "Elm St" |
| VisitExamples.LabelKeepsAddressWithoutName | utils/file_handling.py:165-168 | "Elm St" with long name "12" is kept whole |
| VisitExamples.InnerOccurrenceRemoved | utils/file_handling.py:167 | deleting "12 " from "Elm, 12 Elm" gives "Elm, Elm" |
| VisitExamples.LabelRemovesEveryOccurrence | utils/file_handling.py:165-168 | "12 Elm, 12 Elm" with long name "12" gives "Elm, Elm": every occurrence is deleted, not only a leading one |
| VisitExamples.LookupOfSingleCandidate | utils/file_handling.py:162-168 | a single candidate made of a long name, a space and a rest gives that rest as the label |
| VisitExamples.WholeDegrees | utils/geo_utils.py:39-47 | whole degrees north or east convert to themselves |
| VisitExamples.ParkLookup | utils/file_handling.py:162-168 | the example service's answer at latitude 1 gives the label "Park Ave" |
| VisitExamples.LakeLookup | utils/file_handling.py:162-168 | the example service's answer at latitude 3 gives the label "Lake Rd" |
| VisitExamples.FirstVisit | utils/file_handling.py:159-171 | a photo ten minutes after the first joins the first group |
| VisitExamples.SecondVisit | utils/file_handling.py:159-171 | a photo forty minutes after the first, with a new label, starts a second group |
| VisitExamples.ThreePhotoScenario | utils/file_handling.py:142-173 | photos at 0, +10 and +40 minutes with a thirty-minute threshold give {labelA: [A, B], labelC: [C]} for every geocoder |
| VisitExamples.ParkAndLake | utils/file_handling.py:142-173 | the same photos with the example service give {"Park Ave": [A, B], "Lake Rd": [C]} |
| VisitExamples.TwoPlaces | utils/file_handling.py:159-171 | two photos forty minutes apart with different labels give two groups |
| VisitExamples.ReturnToFirstPlace | utils/file_handling.py:167-171 | a third photo whose label is the first key is appended to the second, last key |
| VisitExamples.LabelCollisionJoinsLastGroup | utils/file_handling.py:167-171 | photos at 0, +40 and +80 minutes labelled P, L, P give {P: [A], L: [B, C]}: the colliding photo joins the last key, not the matching one |
| VisitExamples.GapIsMeasuredFromFirstPhoto | utils/file_handling.py:159-161 | every gap is measured from the first photo: at 0, 20 and 40 minutes with a thirty-minute threshold the third photo is looked up, although it is only twenty minutes after the second |

## Left out

- Reading EXIF data (`extract_exif_data`, utils/file_handling.py:18-44) is a library call. It is a function parameter that yields the parsed date and the GPS block.
- `datetime.strptime` is not modelled. Timestamps are integer seconds, so a missing `DateTime` key or a malformed date does not appear.
- The Google Maps client and its network call are the function parameter `Geocoder`. A candidate without `formatted_address`, `address_components` or `long_name` keys cannot be expressed, because the candidate datatype always has those fields.
- `create_folder`, `move_file` and `store_exif_data` are filesystem and JSON I/O, and are not modelled.
- The directory check of `fetch_all_files` (utils/file_handling.py:90-91, 101-105) is not modelled; the listing is given. Hence `fetch_image_data` ignores the success flag of `fetch_all_files`, and the model does too.
- main.py only orchestrates: it creates one folder per key and moves the files. It is not part of this model.
- FileHandling.LookupErrors: does not model a raising geocoding call (a network or API error from `gmaps.reverse_geocode`, utils/geo_utils.py:21-23), because `Geocoder` is a total function that always answers. The four error cases listed are therefore every error the model can produce, not every error the program can raise.
- The `config` module is not part of this model. Its values are fields of `FileHandling.Config`, and the image folder path is not modelled.
- GeoUtils.ConvertCoordinatesToDecimal: uses exact reals, so it does not model the rounding of `float()` or of Python's float division.
- PyStrings.Lower: lowers only the ASCII letters A-Z; Python's Unicode case mapping is not modelled.
- FileHandling.AppendToLast: on a dictionary without a last key it returns the dictionary unchanged. Python would raise `IndexError` there, but the pass never reaches that case: the first record always adds a key (`FileHandling.SegmentWellFormed`).
- The EXIF rationals are taken as reals, and the `GPSInfo[2]`/`[4]` values as well-formed degree/minute/second triples.
