/**
 * `get_coord_segment`: the two endpoint addresses of a road segment, the
 * retry loop that geocodes both until one pass answers both, and the
 * midpoint it returns.
 *
 * The geocoder is not a fixed function of the address: a request may be
 * refused (over quota) and a later one answered. It is modelled as a
 * timeline, one `Pass` of answers per pass of the loop, and the loop starts
 * at a given pass and reports the pass that succeeded.
 */
module Resolver {
  import opened Wrappers
  import opened Text
  import opened Suffix
  import opened Geocode

  /** What the geocoder answers to one request, address by address. */
  type Service = string -> Response

  /**
   * The answers of one pass of the retry loop: the two lookups are separate
   * requests, so each has its own answer (the quota may run out between them).
   */
  datatype Pass = Pass(fromLookup: Service, toLookup: Service)

  /** The address looked up for one end of a segment on `mainRoad`. */
  function EndpointAddress(mainRoad: string, end: string): string
  {
    AddSuffix(mainRoad) + "+" + AddSuffix(end) + "+NEW YORK CITY"
  }

  /**
   * A pass in which both lookups give a location: both responses have
   * status "OK", which is when `get_coord` returns a value (see `CoordOf`).
   */
  predicate PassSucceeds(pass: Pass, addressFrom: string, addressTo: string)
  {
    pass.fromLookup(addressFrom).status == "OK" && pass.toLookup(addressTo).status == "OK"
  }

  /** The first pass at or after `pass` in which both lookups give a location. */
  function FirstSuccess(timeline: seq<Pass>, pass: nat, addressFrom: string, addressTo: string): (r: Option<nat>)
    requires pass <= |timeline|
    ensures r.Some? ==> pass <= r.value < |timeline| && PassSucceeds(timeline[r.value], addressFrom, addressTo)
    decreases |timeline| - pass
  {
    if pass == |timeline| then None
    else if PassSucceeds(timeline[pass], addressFrom, addressTo) then Some(pass)
    else FirstSuccess(timeline, pass + 1, addressFrom, addressTo)
  }

  /**
   * `FirstSuccess` finds the earliest successful pass: every pass before it
   * failed, and it is `None` exactly when no pass from `pass` on succeeds.
   */
  lemma {:induction false} FirstSuccessLeast(timeline: seq<Pass>, pass: nat, addressFrom: string, addressTo: string)
    requires pass <= |timeline|
    ensures var r := FirstSuccess(timeline, pass, addressFrom, addressTo);
      && (r.None? <==> forall j | pass <= j < |timeline| :: !PassSucceeds(timeline[j], addressFrom, addressTo))
      && (r.Some? ==> forall j | pass <= j < r.value :: !PassSucceeds(timeline[j], addressFrom, addressTo))
    decreases |timeline| - pass
  {
    if pass < |timeline| && !PassSucceeds(timeline[pass], addressFrom, addressTo) {
      FirstSuccessLeast(timeline, pass + 1, addressFrom, addressTo);
    }
  }

  /**
   * The point halfway between two locations, with the borough of the
   * first: the same distance from either end, in latitude and in longitude.
   */
  function Midpoint(from: Coord, to: Coord): (c: Coord)
    ensures c.lat - from.lat == to.lat - c.lat
    ensures c.lng - from.lng == to.lng - c.lng
    ensures c.borough == from.borough
  {
    Coord((from.lat + to.lat) / 2.0, (from.lng + to.lng) / 2.0, from.borough)
  }

  /** The location of a segment from one successful pass: both answers of that same pass. */
  function SegmentLocation(pass: Pass, addressFrom: string, addressTo: string): Coord
    requires PassSucceeds(pass, addressFrom, addressTo)
  {
    Midpoint(CoordOf(pass.fromLookup(addressFrom)).value, CoordOf(pass.toLookup(addressTo)).value)
  }

  /** The addresses requested in `passes` passes: both ends, "from" first, every pass. */
  function Lookups(addressFrom: string, addressTo: string, passes: nat): (r: seq<string>)
    ensures |r| == 2 * passes
  {
    if passes == 0 then [] else Lookups(addressFrom, addressTo, passes - 1) + [addressFrom, addressTo]
  }

  /** The requests alternate between the two ends, the "from" end first. */
  lemma {:induction false} LookupsAlternate(addressFrom: string, addressTo: string, passes: nat, i: nat)
    requires i < 2 * passes
    ensures Lookups(addressFrom, addressTo, passes)[i] == if i % 2 == 0 then addressFrom else addressTo
  {
    if i < 2 * (passes - 1) {
      LookupsAlternate(addressFrom, addressTo, passes - 1, i);
    }
  }

  /** Skipping a failed pass does not change which pass succeeds first. */
  lemma FirstSuccessSkip(timeline: seq<Pass>, pass: nat, addressFrom: string, addressTo: string)
    requires pass < |timeline| && !PassSucceeds(timeline[pass], addressFrom, addressTo)
    ensures FirstSuccess(timeline, pass, addressFrom, addressTo)
         == FirstSuccess(timeline, pass + 1, addressFrom, addressTo)
  {
  }

  /** After a failed pass the loop goes on with the next one, two requests further. */
  lemma FailedPass(
    timeline: seq<Pass>, start: nat, pass: nat, addressFrom: string, addressTo: string, requests: seq<string>)
    requires start <= pass < |timeline| && !PassSucceeds(timeline[pass], addressFrom, addressTo)
    requires requests == Lookups(addressFrom, addressTo, pass - start) + [addressFrom, addressTo]
    ensures FirstSuccess(timeline, pass + 1, addressFrom, addressTo)
         == FirstSuccess(timeline, pass, addressFrom, addressTo)
    ensures requests == Lookups(addressFrom, addressTo, pass + 1 - start)
  {
    FirstSuccessSkip(timeline, pass, addressFrom, addressTo);
  }

  /**
   * The retry loop of `get_coord_segment`, started at pass `start`: both
   * addresses are looked up again on every pass until a pass answers both.
   * The result is the midpoint of the two answers of that one pass,
   * `answered`; `requests` lists every address asked for, in order.
   */
  method RetryBoth(addressFrom: string, addressTo: string, timeline: seq<Pass>, start: nat)
    returns (location: Coord, answered: nat, requests: seq<string>)
    requires start <= |timeline|
    requires FirstSuccess(timeline, start, addressFrom, addressTo).Some?
    ensures start <= answered < |timeline|
    ensures FirstSuccess(timeline, start, addressFrom, addressTo) == Some(answered)
    ensures PassSucceeds(timeline[answered], addressFrom, addressTo)
    ensures location == SegmentLocation(timeline[answered], addressFrom, addressTo)
    ensures requests == Lookups(addressFrom, addressTo, answered + 1 - start)
  {
    var pass := start;
    requests := [];
    while true
      invariant start <= pass <= |timeline|
      invariant FirstSuccess(timeline, pass, addressFrom, addressTo)
             == FirstSuccess(timeline, start, addressFrom, addressTo)
      invariant requests == Lookups(addressFrom, addressTo, pass - start)
      decreases |timeline| - pass
    {
      var answers := timeline[pass];
      var coordFrom := GetCoord(answers.fromLookup(addressFrom));
      var coordTo := GetCoord(answers.toLookup(addressTo));
      requests := requests + [addressFrom, addressTo];
      if coordFrom.None? || coordTo.None? {
        FailedPass(timeline, start, pass, addressFrom, addressTo, requests);
        pass := pass + 1;
      } else {
        var lat := (coordFrom.value.lat + coordTo.value.lat) / 2.0;
        var lng := (coordFrom.value.lng + coordTo.value.lng) / 2.0;
        return Coord(lat, lng, coordFrom.value.borough), pass, requests;
      }
    }
  }

  /**
   * `get_coord_segment`: the three names are given their suffixes, the two
   * endpoint addresses are built from them, and the retry loop runs on those
   * two addresses.
   */
  method GetCoordSegment(mainRoad: string, from: string, to: string, timeline: seq<Pass>, start: nat)
    returns (location: Coord, answered: nat, requests: seq<string>)
    requires start <= |timeline|
    requires FirstSuccess(timeline, start, EndpointAddress(mainRoad, from), EndpointAddress(mainRoad, to)).Some?
    ensures start <= answered < |timeline|
    ensures FirstSuccess(timeline, start, EndpointAddress(mainRoad, from), EndpointAddress(mainRoad, to))
         == Some(answered)
    ensures location
         == SegmentLocation(timeline[answered], EndpointAddress(mainRoad, from), EndpointAddress(mainRoad, to))
    ensures requests == Lookups(EndpointAddress(mainRoad, from), EndpointAddress(mainRoad, to), answered + 1 - start)
  {
    var road := AddSuffix(mainRoad);
    var fromEnd := AddSuffix(from);
    var toEnd := AddSuffix(to);
    var addressFrom := road + "+" + fromEnd + "+NEW YORK CITY";
    var addressTo := road + "+" + toEnd + "+NEW YORK CITY";
    location, answered, requests := RetryBoth(addressFrom, addressTo, timeline, start);
  }
}
