# Segment geocoding of the NYC traffic counts

This project models the segment-geocoding pipeline of `get_traffic_volume.py`
and proves properties of the model. The script reads the 2012-2013 traffic
volume counts of New York City. Each row names a road segment
`(roadway_name, from, to)`. The script geocodes every distinct segment once
through the Google geocoding service and adds a `LATITUDE`, a `LONGITUDE` and
a `BOROUGH` column.

The model has six modules, one file each:

- `Wrappers` (`wrappers.dfy`): the `Option` type.
- `Text` (`text.dfy`): the digit and whitespace classes, `str.strip()`,
  `str.upper()` and `str.join`.
- `Suffix` (`suffix.dfy`): `add_suffix`. Each of its regular expressions is
  modelled as the search Python's backtracking engine performs:
  - `re.match(r'.*([\d]+)\s', s)`: the greedy `.*` tries the longest prefix of
    the first line first, and `[\d]+` gives back one digit at a time;
  - `re.split(r'([\d]+)\s', s)`: scans left to right for maximal digit runs
    followed by one whitespace character.

  Lemmas then describe both searches by the positions where a digit is
  directly followed by whitespace (`DigitSpace`).
- `Geocode` (`geocode.dfy`): `get_coord` once the response has arrived. It
  covers the status check, the first result's location and the loop over the
  address components that picks the borough.
- `Resolver` (`resolver.dfy`): `get_coord_segment`. This is the two endpoint
  addresses and the `while True` loop that asks for both until one pass
  answers both.
- `Traffic` (`traffic.dfy`): the segment part of `main`. This covers:
  - pandas `unique` on the segment triples;
  - the loop that geocodes each distinct segment once, fills the three
    dictionaries and counts requests;
  - the mapping of every row to its segment's values.

The geocoder is not a fixed function of the address. A lookup may be refused
(over quota) and answered on a later pass. So the service is a *timeline*:
one `Pass` per pass of the retry loop. A `Pass` holds two `Service`s
(address to response), one for each of the pass's two requests. The quota
can therefore run out between the "from" lookup and the "to" lookup, even
when both ends have the same address.
- The retry loop of a segment starts at the pass after the one that answered
  the segment before it.
- The function `Schedule` is what the whole loop of `main` computes from a
  timeline.
- The methods `ResolveSegments` and `AddCoordinates` are proved equal to it.

## Model

| member | source | states |
|---|---|---|
| Text.Strip | get_traffic_volume.py:201-203 | `str.strip()`; the definition, whose properties `StripSpec` and `StripIdempotent` state |
| Text.StripSpec | get_traffic_volume.py:201-203 | `str.strip()` keeps one contiguous piece of the input that neither starts nor ends with whitespace; everything cut off at either end is whitespace |
| Text.StripIdempotent | get_traffic_volume.py:201-203 | stripping a stripped string changes nothing |
| Suffix.AddSuffix | get_traffic_volume.py:103-129 | `add_suffix` itself: the input when `re.match` fails, otherwise the `re.split` pieces after the first joined by the suffix; the definition, whose properties `SuffixRule`, `OneNumber`, `AddSuffixFixedPoint` and `AddSuffixIdempotent` state |
| Suffix.MatchGroup | get_traffic_volume.py:114-118 | `re.match(r'.*([\d]+)\s', s).group(1)`: when there is a match, the group is a non-empty string of digits; where it lies is stated by `MatchGroupNone` and `MatchGroupRightmost` |
| Suffix.SplitFrom | get_traffic_volume.py:115 | `re.split(r'([\d]+)\s', s)`: at least one piece; where it cuts is pinned down by `SplitPiecesMaximal` (text and group alternate, every group is a whole, non-empty run of digits), `SplitPiecesNoDigitSpace` (no piece holds a digit directly followed by whitespace) and `SplitRoundTrip` (each group is followed by the whitespace character it consumed) |
| Suffix.SplitPiecesMaximal | get_traffic_volume.py:115 | the pieces of `re.split` alternate text and group, text first and last; every group is a non-empty run of digits, and the text in front of a group does not end in a digit, so the group is the whole run and not a shorter tail of it |
| Suffix.SplitPiecesNoDigitSpace | get_traffic_volume.py:115 | no piece of `re.split` holds a digit directly followed by whitespace: every text piece lies between matches, and a group is digits only |
| Suffix.OrdinalSuffix | get_traffic_volume.py:118-126 | the suffix chosen from `int(group)`: "ST ", "ND ", "RD " for 1, 2, 3 and "TH " otherwise; the definition, used by `SuffixRule` |
| Suffix.MatchGroupNone | get_traffic_volume.py:114-117 | `re.match` fails exactly when no digit of the first line is directly followed by whitespace |
| Suffix.MatchGroupRightmost | get_traffic_volume.py:114-118 | because `.*` is greedy, group 1 is the single digit directly before the whitespace of the rightmost digit-then-whitespace pair of the first line |
| Suffix.SuffixRule | get_traffic_volume.py:114-128 | the suffix depends only on that one digit: 1 gives "ST ", 2 "ND ", 3 "RD ", any other digit "TH " (11, 12 and 13 are not special); the result is the split pieces after the first, joined by that suffix |
| Suffix.SplitRoundTrip | get_traffic_volume.py:115 | `re.split` loses only the whitespace character behind each matched digit run; putting those characters back rebuilds the input |
| Suffix.OneNumber | get_traffic_volume.py:114-128 | with a single number followed by whitespace, the result is that number, its suffix and the text after the blank; the text before the number is dropped ("5 AVENUE" becomes "5TH AVENUE") |
| Suffix.AddSuffixFixedPoint | get_traffic_volume.py:114-129 | `add_suffix` returns its input unchanged exactly when no digit of the first line is directly followed by whitespace ("1ST AVENUE", "MAIN STREET") |
| Suffix.AddSuffixIdempotent | get_traffic_volume.py:103-129 | applying `add_suffix` to its own output changes nothing |
| Geocode.LastBorough | get_traffic_volume.py:87-90 | the value `borough` holds after the loop, the last borough-naming long name or ""; the definition, whose properties `LastBoroughFound` and `LastMatchWins` state |
| Geocode.LastBoroughFound | get_traffic_volume.py:87-90 | the scan yields "" exactly when no component's long name is one of the five boroughs; otherwise it yields one of them |
| Geocode.LastMatchWins | get_traffic_volume.py:88-90 | when several components name a borough, the last of them wins |
| Geocode.ScanBorough | get_traffic_volume.py:87-90 | the `for` loop over the components computes `LastBorough`, the last borough-naming long name or "" |
| Geocode.CoordOf | get_traffic_volume.py:77-101 | `get_coord` gives no location exactly when the status is not "OK" |
| Geocode.CoordOfBorough | get_traffic_volume.py:87-101 | the reported borough is "" or one of BRONX, BROOKLYN, MANHATTAN, QUEENS, STATEN ISLAND, and it is "" exactly when no component of the first result names a borough |
| Geocode.CoordOfLastMatch | get_traffic_volume.py:88-101 | the last borough-naming component of the first result gives the reported borough, in capitals |
| Geocode.GetCoord | get_traffic_volume.py:77-101 | the status check followed by the scan yields `CoordOf` of the response: the first result's latitude and longitude and the upper-cased borough |
| Resolver.EndpointAddress | get_traffic_volume.py:149-154 | an endpoint address is `add_suffix(main_road) + "+" + add_suffix(end) + "+NEW YORK CITY"`; the definition, used by `GetCoordSegment` |
| Resolver.FirstSuccess | get_traffic_volume.py:156-166 | the pass the retry loop stops at, when there is one, lies in the timeline from the starting pass on and answers both lookups; `FirstSuccessLeast` shows it is the earliest such pass |
| Resolver.FirstSuccessLeast | get_traffic_volume.py:156-166 | the pass the loop stops at is the earliest pass, from the starting one, that answers both lookups; there is none exactly when no pass answers both |
| Resolver.LookupsAlternate | get_traffic_volume.py:156-159 | each pass requests both addresses again, the "from" end first |
| Resolver.Midpoint | get_traffic_volume.py:168-170 | the returned point is as far from either end in latitude and in longitude, and carries the borough of the "from" end |
| Resolver.RetryBoth | get_traffic_volume.py:156-170 | the loop returns at the first pass in which both lookups of that same pass succeed; the result is the midpoint of exactly those two answers, and the requests are both addresses on every pass up to it |
| Resolver.GetCoordSegment | get_traffic_volume.py:149-170 | the addresses looked up are `add_suffix(main_road) + "+" + add_suffix(end) + "+NEW YORK CITY"` for both ends, with the retry loop's result and requests |
| Traffic.Distinct | get_traffic_volume.py:190 | the distinct segments are exactly the segments that occur among the rows |
| Traffic.DistinctUnique | get_traffic_volume.py:190 | no segment occurs twice among the distinct segments |
| Traffic.DistinctFirstSeen | get_traffic_volume.py:190 | the distinct segments come in the order of their first appearance among the rows |
| Traffic.Schedule | get_traffic_volume.py:193-210 | what the loop of `main` does over the first `n` segments: each segment's pass, the next pass, the requests and the three dictionaries, or `None` when some segment never gets a pass that answers both ends; one pass per segment, and the next pass stays in the timeline |
| Traffic.EndsOf | get_traffic_volume.py:201-204 | the two addresses of a segment, from its fields stripped and passed through `get_coord_segment`'s address building; the definition, linked to the loop by `ResolveSegment` |
| Traffic.ScheduleRequests | get_traffic_volume.py:193-205 | every pass requests two addresses, so the requests number exactly twice the passes used; each segment takes at least one pass, so the counter (two per segment) is a lower bound |
| Traffic.ScheduleNoRetries | get_traffic_volume.py:191-205 | the counter, and the total printed before the loop, equal the requests made exactly when every segment is answered at the first pass it is looked up in |
| Traffic.ScheduleFirstSuccess | get_traffic_volume.py:200-204 | each segment is answered by the first pass that answers both of its ends, counting from the pass after the one that answered the segment before it |
| Traffic.ScheduleInOrder | get_traffic_volume.py:200-204 | the segments are answered in list order, each at a later pass than the one before |
| Traffic.ScheduleAnswers | get_traffic_volume.py:200-204 | the pass that answers a segment answers both of its ends |
| Traffic.ScheduleKeys | get_traffic_volume.py:196-210 | after `n` segments the three dictionaries have exactly those segments as keys |
| Traffic.ScheduleStored | get_traffic_volume.py:208-210 | a segment not looked up again later keeps the latitude, longitude and borough of its own location in the three dictionaries |
| Traffic.ScheduledTabulated | get_traffic_volume.py:193-210 | with no segment twice, the dictionaries hold exactly the segments, each mapped to its own location's fields |
| Traffic.ResolveSegment | get_traffic_volume.py:201-204 | the loop body strips the three fields and runs `get_coord_segment` on them, from the given pass |
| Traffic.ResolveSegments | get_traffic_volume.py:193-210 | the loop over the segments ends with the counter at twice their number, and with the requests and the three dictionaries the schedule defines |
| Traffic.AddCoordinates | get_traffic_volume.py:186-215 | the segment part of `main` ends with the counter at twice the number of distinct segments (at most the number of requests made, and equal to it exactly when no lookup is retried), the dictionaries keyed by exactly the segments that occur (each holding its own location), and every row given its own segment's latitude, longitude and borough, so equal segments get equal values |

## Left out

- The HTTP requests are left out: `get_traffic_count`, the `requests.get` in `get_coord` and its URL and parameters (get_traffic_volume.py:14-47, 62-74). The geocoder's answers are the `timeline` parameter instead: one `Pass` per pass, holding one `Service` for the "from" request and one for the "to" request.
- JSON decoding is left out. A response is the `Response` datatype, holding the status, and per result the location and the component long names.
- `time.sleep`, the `datetime` timestamp and every `print` are left out. They have no effect on the results.
- The configuration loading, the CSV export and the pandas column deletion and upper-casing (get_traffic_volume.py:176-183, 217-225) are left out.
- `get_MVC.py` and `NYC_boundaries.py` are not part of this model.
- RetryBoth: the source's `while True` never gives up. The model requires a pass in the timeline that answers both lookups, and leaves out runs in which no pass ever does.
- AddCoordinates, ResolveSegments: both require that `Scheduled` exists, meaning a succeeding pass is available for every segment in turn. Runs that wait forever are left out.
- Geocode.Response: an "OK" response with an empty `results` list is excluded by the type. The source would raise `IndexError` on it.
- CoordOf: only the status value "OK" is distinguished. Every other status gives `None`, as in the source.
- Text.IsDigit: `\d` is limited to the ASCII digits. Python also matches other Unicode decimal digits, which `int()` would then read.
- Text.ToUpper: `str.upper()` covers only the ASCII letters. The five borough names are ASCII, so the reported borough is unaffected.
- Resolver.Midpoint: coordinates are `real`, so IEEE rounding of the average is not modelled.
- Traffic.ResolveSegments: `n_requests` counts two per segment, but a failed pass makes two more requests. The model keeps both counts: `nRequests` is the counter, and `requests` lists every address actually requested. `ScheduleRequests` and `ScheduleNoRetries` relate the two.
- Only the `segment` column of the data frame is modelled. Every other column passes through unchanged and is not represented.
