/**
 * `get_coord` once the HTTP request is done: the status check, the
 * coordinates of the first result and the scan of its address components
 * for one of the five boroughs of New York City.
 */
module Geocode {
  import opened Wrappers
  import opened Text

  /** One entry of a result's `address_components`; only `long_name` is read. */
  datatype AddressComponent = AddressComponent(longName: string)

  /** One entry of `results`: `geometry.location` and `address_components`. */
  datatype GeocodeResult = GeocodeResult(lat: real, lng: real, components: seq<AddressComponent>)

  datatype GeocodeResponse = GeocodeResponse(status: string, results: seq<GeocodeResult>)

  /**
   * A geocoding response as the service sends it: a response whose status is
   * "OK" carries at least one result.
   */
  type Response = r: GeocodeResponse | r.status == "OK" ==> |r.results| > 0
    witness GeocodeResponse("ZERO_RESULTS", [])

  /** `[latitude, longitude, borough]`. */
  datatype Coord = Coord(lat: real, lng: real, borough: string)

  /** The names the scan looks for, as the service spells them. */
  const Boroughs: seq<string> := ["Bronx", "Brooklyn", "Manhattan", "Queens", "Staten Island"]

  /** The same names after `str.upper()`. */
  const UpperBoroughs: seq<string> := ["BRONX", "BROOKLYN", "MANHATTAN", "QUEENS", "STATEN ISLAND"]

  predicate IsBorough(name: string)
  {
    name in Boroughs
  }

  /**
   * The value `borough` holds after the scan: the long name of the last
   * component that names a borough, or "" when none does.
   */
  function LastBorough(cs: seq<AddressComponent>): string
  {
    if |cs| == 0 then ""
    else if IsBorough(cs[|cs| - 1].longName) then cs[|cs| - 1].longName
    else LastBorough(cs[..|cs| - 1])
  }

  /** The scan finds a borough exactly when some component names one, and what it finds is one. */
  lemma {:induction false} LastBoroughFound(cs: seq<AddressComponent>)
    ensures var b := LastBorough(cs);
      && (b == "" <==> forall i | 0 <= i < |cs| :: !IsBorough(cs[i].longName))
      && (b != "" ==> IsBorough(b))
  {
    if |cs| > 0 && !IsBorough(cs[|cs| - 1].longName) {
      var init := cs[..|cs| - 1];
      LastBoroughFound(init);
      assert forall i | 0 <= i < |init| :: init[i] == cs[i];
    }
  }

  /** When several components name a borough, the last of them wins. */
  lemma {:induction false} LastMatchWins(cs: seq<AddressComponent>, i: nat)
    requires i < |cs| && IsBorough(cs[i].longName)
    requires forall j | i < j < |cs| :: !IsBorough(cs[j].longName)
    ensures LastBorough(cs) == cs[i].longName
  {
    if i < |cs| - 1 {
      var init := cs[..|cs| - 1];
      assert init[i] == cs[i];
      assert forall j | i < j < |init| :: init[j] == cs[j];
      LastMatchWins(init, i);
    }
  }

  /** Upper-casing maps the five names onto their capitalised spellings. */
  lemma UpperBorough(i: nat)
    requires i < |Boroughs|
    ensures ToUpper(Boroughs[i]) == UpperBoroughs[i]
  {
    if i == 0 {
      assert ToUpper("Bronx") == "BRONX";
    } else if i == 1 {
      assert ToUpper("Brooklyn") == "BROOKLYN";
    } else if i == 2 {
      assert ToUpper("Manhattan") == "MANHATTAN";
    } else if i == 3 {
      assert ToUpper("Queens") == "QUEENS";
    } else {
      assert ToUpper("Staten Island") == "STATEN ISLAND";
    }
  }

  /** The scan over the address components, as the `for` loop performs it. */
  method ScanBorough(cs: seq<AddressComponent>) returns (borough: string)
    ensures borough == LastBorough(cs)
  {
    borough := "";
    for i := 0 to |cs|
      invariant borough == LastBorough(cs[..i])
    {
      assert cs[..i + 1][..i] == cs[..i];
      if cs[i].longName in Boroughs {
        borough := cs[i].longName;
      }
    }
    assert cs[..|cs|] == cs;
  }

  /**
   * What `get_coord` returns for a response: `None` unless the status is
   * "OK"; otherwise the location of the first result and its borough in
   * capitals.
   */
  function CoordOf(resp: Response): (c: Option<Coord>)
    ensures c.None? <==> resp.status != "OK"
  {
    if resp.status != "OK" then None
    else
      var first := resp.results[0];
      Some(Coord(first.lat, first.lng, ToUpper(LastBorough(first.components))))
  }

  /**
   * The borough `get_coord` reports is "" or one of the five names in
   * capitals, and it is "" exactly when no component of the first result
   * names a borough.
   */
  lemma CoordOfBorough(resp: Response)
    requires resp.status == "OK"
    ensures var b := CoordOf(resp).value.borough;
      && (b == "" || b in UpperBoroughs)
      && (b == "" <==>
           forall i | 0 <= i < |resp.results[0].components| :: !IsBorough(resp.results[0].components[i].longName))
  {
    var name := LastBorough(resp.results[0].components);
    LastBoroughFound(resp.results[0].components);
    if name != "" {
      var i :| 0 <= i < |Boroughs| && Boroughs[i] == name;
      UpperBorough(i);
    }
  }

  /** With the last borough-naming component at `i`, that component gives the borough. */
  lemma {:induction false} CoordOfLastMatch(resp: Response, i: nat)
    requires resp.status == "OK"
    requires i < |resp.results[0].components|
    requires IsBorough(resp.results[0].components[i].longName)
    requires forall j | i < j < |resp.results[0].components| :: !IsBorough(resp.results[0].components[j].longName)
    ensures CoordOf(resp).Some? && CoordOf(resp).value.borough == ToUpper(resp.results[0].components[i].longName)
  {
    LastMatchWins(resp.results[0].components, i);
  }

  /** `get_coord` after the request: the status check, then the scan. */
  method GetCoord(resp: Response) returns (coord: Option<Coord>)
    ensures coord == CoordOf(resp)
  {
    if resp.status != "OK" {
      return None;
    }
    var first := resp.results[0];
    var borough := ScanBorough(first.components);
    coord := Some(Coord(first.lat, first.lng, ToUpper(borough)));
  }
}
