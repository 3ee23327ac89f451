/**
 * The segment part of `main`: every row of the traffic counts names a road
 * segment `(roadway_name, from, to)`; each distinct segment is geocoded
 * once, in order of first appearance, its latitude, longitude and borough
 * are stored in three dictionaries keyed by the segment as read, and every
 * row is then given the values of its own segment.
 */
module Traffic {
  import opened Wrappers
  import opened Text
  import opened Geocode
  import opened Resolver

  /** The `segment` of a row: its roadway name and two end streets, not yet stripped. */
  datatype Segment = Segment(roadway: string, from: string, to: string)

  /** pandas `unique`: the distinct segments, each kept at its first appearance. */
  function Distinct(rows: seq<Segment>): (u: seq<Segment>)
    ensures forall x :: x in u <==> x in rows
  {
    if |rows| == 0 then []
    else
      var d := Distinct(rows[..|rows| - 1]);
      var x := rows[|rows| - 1];
      if x in d then d else d + [x]
  }

  /** No segment is kept twice. */
  lemma {:induction false} DistinctUnique(rows: seq<Segment>)
    ensures forall i, j | 0 <= i < j < |Distinct(rows)| :: Distinct(rows)[i] != Distinct(rows)[j]
  {
    if |rows| > 0 {
      var init, x := rows[..|rows| - 1], rows[|rows| - 1];
      DistinctUnique(init);
      var d := Distinct(init);
      if x !in d {
        var u := d + [x];
        assert Distinct(rows) == u;
        forall i, j | 0 <= i < j < |u|
          ensures u[i] != u[j]
        {
          if j == |d| {
            assert d[i] in d;
          }
        }
      }
    }
  }

  /** The position of the first row holding `x`. */
  function FirstIndex(rows: seq<Segment>, x: Segment): (k: nat)
    requires x in rows
    ensures k < |rows| && rows[k] == x
    ensures forall q | 0 <= q < k :: rows[q] != x
  {
    if rows[0] == x then 0 else 1 + FirstIndex(rows[1..], x)
  }

  /** Appending a row does not move the first appearance of a segment already present. */
  lemma FirstIndexAppend(rows: seq<Segment>, x: Segment, y: Segment)
    requires y in rows
    ensures FirstIndex(rows + [x], y) == FirstIndex(rows, y)
  {
    var all := rows + [x];
    var k1, k2 := FirstIndex(all, y), FirstIndex(rows, y);
    assert all[k2] == y;
    assert forall q | 0 <= q < |rows| :: all[q] == rows[q];
  }

  /** The distinct segments come in the order in which they first appear among the rows. */
  lemma {:induction false} DistinctFirstSeen(rows: seq<Segment>, i: nat, j: nat)
    requires i < j < |Distinct(rows)|
    ensures FirstIndex(rows, Distinct(rows)[i]) < FirstIndex(rows, Distinct(rows)[j])
    decreases |rows|
  {
    var init, x := rows[..|rows| - 1], rows[|rows| - 1];
    assert rows == init + [x];
    var d := Distinct(init);
    if j < |d| {
      assert Distinct(rows)[i] == d[i] && Distinct(rows)[j] == d[j];
      DistinctFirstSeen(init, i, j);
      FirstIndexAppend(init, x, d[i]);
      FirstIndexAppend(init, x, d[j]);
    } else {
      assert x !in init;
      assert Distinct(rows)[j] == x && Distinct(rows)[i] == d[i];
      FirstIndexAppend(init, x, d[i]);
      assert FirstIndex(rows, x) == |init|;
    }
  }

  /** The two addresses looked up for a segment. */
  datatype Ends = Ends(addressFrom: string, addressTo: string)

  /** The addresses of a segment, built from its fields once they are stripped. */
  function EndsOf(seg: Segment): Ends
  {
    var mainRoad := Strip(seg.roadway);
    Ends(EndpointAddress(mainRoad, Strip(seg.from)), EndpointAddress(mainRoad, Strip(seg.to)))
  }

  /**
   * Geocoding a list of segments one after the other: for each segment the
   * pass that answered both its ends, the pass at which the next lookup
   * starts, every address requested, and the three dictionaries.
   */
  datatype Run = Run(
    passes: seq<nat>, next: nat, requests: seq<string>,
    latitudes: map<Segment, real>, longitudes: map<Segment, real>, boroughs: map<Segment, string>)

  /**
   * What the loop over the first `n` segments does from pass `start` of the
   * timeline on, or `None` when one of them never gets a pass that answers
   * both of its ends. Each segment is looked up from the pass after the one
   * that answered the segment before it, and its location is stored under
   * the segment in the three dictionaries.
   */
  function Schedule(timeline: seq<Pass>, start: nat, segments: seq<Segment>, ends: seq<Ends>, n: nat): (r: Option<Run>)
    requires start <= |timeline| && n <= |segments| == |ends|
    ensures r.Some? ==> |r.value.passes| == n && start <= r.value.next <= |timeline|
    decreases n
  {
    if n == 0 then Some(Run([], start, [], map[], map[], map[]))
    else
      match Schedule(timeline, start, segments, ends, n - 1)
      case None => None
      case Some(run) =>
        var segment := segments[n - 1];
        var e := ends[n - 1];
        match FirstSuccess(timeline, run.next, e.addressFrom, e.addressTo)
        case None => None
        case Some(p) =>
          var c := SegmentLocation(timeline[p], e.addressFrom, e.addressTo);
          Some(Run(
            run.passes + [p], p + 1, run.requests + Lookups(e.addressFrom, e.addressTo, p + 1 - run.next),
            run.latitudes[segment := c.lat], run.longitudes[segment := c.lng], run.boroughs[segment := c.borough]))
  }

  /** The addresses of every segment, in order. */
  function EndsOfAll(segs: seq<Segment>): (es: seq<Ends>)
    ensures |es| == |segs|
  {
    if |segs| == 0 then [] else EndsOfAll(segs[..|segs| - 1]) + [EndsOf(segs[|segs| - 1])]
  }

  /** The `k`-th entry of `EndsOfAll` is the addresses of the `k`-th segment. */
  lemma {:induction false} EndsAt(segs: seq<Segment>, k: nat)
    requires k < |segs|
    ensures EndsOfAll(segs)[k] == EndsOf(segs[k])
  {
    if k < |segs| - 1 {
      var init := segs[..|segs| - 1];
      EndsAt(init, k);
      assert init[k] == segs[k];
    }
  }

  /** The schedule of all the segments, each looked up at its own addresses. */
  function Scheduled(timeline: seq<Pass>, segments: seq<Segment>): Option<Run>
  {
    Schedule(timeline, 0, segments, EndsOfAll(segments), |segments|)
  }

  /**
   * Every pass the loop goes through requests two addresses, and each
   * segment takes at least one pass: the requests number twice the passes
   * used, and at least twice the segments.
   */
  lemma {:induction false} ScheduleRequests(timeline: seq<Pass>, start: nat, segments: seq<Segment>, ends: seq<Ends>, n: nat)
    requires start <= |timeline| && n <= |segments| == |ends|
    requires Schedule(timeline, start, segments, ends, n).Some?
    ensures var run := Schedule(timeline, start, segments, ends, n).value;
      && start + n <= run.next
      && |run.requests| == 2 * (run.next - start)
      && |run.requests| >= 2 * n
  {
    if n > 0 {
      ScheduleRequests(timeline, start, segments, ends, n - 1);
    }
  }

  /**
   * A strictly increasing run of passes from `start` on ends at pass
   * `start + |ps| - 1` or later, and exactly there when it skips no pass.
   */
  lemma {:induction false} IncreasingTight(ps: seq<nat>, start: nat)
    requires |ps| > 0 && start <= ps[0]
    requires forall k | 0 <= k < |ps| - 1 :: ps[k] < ps[k + 1]
    ensures start + |ps| - 1 <= ps[|ps| - 1]
    ensures ps[|ps| - 1] == start + |ps| - 1 <==> forall k | 0 <= k < |ps| :: ps[k] == start + k
  {
    if |ps| > 1 {
      var init := ps[..|ps| - 1];
      assert forall k | 0 <= k < |init| :: init[k] == ps[k];
      IncreasingTight(init, start);
    }
  }

  /**
   * The counter of `main`, two per segment, equals the number of requests
   * made exactly when no lookup is retried: the `k`-th segment is answered
   * at pass `start + k`, the first pass it is looked up in.
   */
  lemma ScheduleNoRetries(timeline: seq<Pass>, start: nat, segments: seq<Segment>, ends: seq<Ends>, n: nat)
    requires start <= |timeline| && n <= |segments| == |ends|
    requires Schedule(timeline, start, segments, ends, n).Some?
    ensures var run := Schedule(timeline, start, segments, ends, n).value;
      |run.requests| == 2 * n <==> forall k | 0 <= k < n :: run.passes[k] == start + k
  {
    ScheduleRequests(timeline, start, segments, ends, n);
    if n > 0 {
      var ps := Schedule(timeline, start, segments, ends, n).value.passes;
      ScheduleAnswers(timeline, start, segments, ends, n, 0);
      forall k | 0 <= k < n - 1
        ensures ps[k] < ps[k + 1]
      {
        ScheduleInOrder(timeline, start, segments, ends, n, k);
      }
      ScheduleAt(timeline, start, segments, ends, n, n - 1);
      IncreasingTight(ps, start);
    }
  }

  /** The pass that answers the `k`-th segment answers both of its ends, and comes before `next`. */
  lemma {:induction false} ScheduleAnswers(timeline: seq<Pass>, start: nat, segments: seq<Segment>, ends: seq<Ends>, n: nat, k: nat)
    requires start <= |timeline| && k < n <= |segments| == |ends|
    requires Schedule(timeline, start, segments, ends, n).Some?
    ensures var run := Schedule(timeline, start, segments, ends, n).value;
      && start <= run.passes[k] < run.next
      && PassSucceeds(timeline[run.passes[k]], ends[k].addressFrom, ends[k].addressTo)
  {
    if k < n - 1 {
      ScheduleAnswers(timeline, start, segments, ends, n - 1, k);
    }
  }

  /** A schedule of the first `n` segments contains that of the first `m`. */
  lemma {:induction false} SchedulePrefix(timeline: seq<Pass>, start: nat, segments: seq<Segment>, ends: seq<Ends>, n: nat, m: nat)
    requires start <= |timeline| && m <= n <= |segments| == |ends|
    requires Schedule(timeline, start, segments, ends, n).Some?
    ensures Schedule(timeline, start, segments, ends, m).Some?
    ensures Schedule(timeline, start, segments, ends, m).value.passes == Schedule(timeline, start, segments, ends, n).value.passes[..m]
  {
    if m < n {
      SchedulePrefix(timeline, start, segments, ends, n - 1, m);
      var shorter := Schedule(timeline, start, segments, ends, n - 1).value.passes;
      assert Schedule(timeline, start, segments, ends, n).value.passes[..m] == shorter[..m];
    } else {
      assert Schedule(timeline, start, segments, ends, n).value.passes[..n] == Schedule(timeline, start, segments, ends, n).value.passes;
    }
  }

  /**
   * The `k`-th of the first `n` segments is answered by the first pass that
   * answers both of its ends from where the first `k` stopped, and the run
   * of the first `k + 1` goes on from the pass after it.
   */
  lemma {:induction false} ScheduleAt(timeline: seq<Pass>, start: nat, segments: seq<Segment>, ends: seq<Ends>, n: nat, k: nat)
    requires start <= |timeline| && k < n <= |segments| == |ends|
    requires Schedule(timeline, start, segments, ends, n).Some?
    ensures Schedule(timeline, start, segments, ends, k).Some? && Schedule(timeline, start, segments, ends, k + 1).Some?
    ensures var p := Schedule(timeline, start, segments, ends, n).value.passes[k];
      && FirstSuccess(timeline, Schedule(timeline, start, segments, ends, k).value.next, ends[k].addressFrom, ends[k].addressTo)
         == Some(p)
      && Schedule(timeline, start, segments, ends, k + 1).value.next == p + 1
    decreases n
  {
    if k < n - 1 {
      ScheduleAt(timeline, start, segments, ends, n - 1, k);
      var shorter := Schedule(timeline, start, segments, ends, n - 1).value.passes;
      assert Schedule(timeline, start, segments, ends, n).value.passes[k] == shorter[k];
    }
  }

  /**
   * The `k`-th segment is answered by the first pass that answers both of
   * its ends, counting from the pass after the one that answered the
   * segment before it (from `start` for the first segment).
   */
  lemma ScheduleFirstSuccess(timeline: seq<Pass>, start: nat, segments: seq<Segment>, ends: seq<Ends>, n: nat, k: nat)
    requires start <= |timeline| && k < n <= |segments| == |ends|
    requires Schedule(timeline, start, segments, ends, n).Some?
    ensures var run := Schedule(timeline, start, segments, ends, n).value;
      var from := if k == 0 then start else run.passes[k - 1] + 1;
      && from <= |timeline|
      && FirstSuccess(timeline, from, ends[k].addressFrom, ends[k].addressTo) == Some(run.passes[k])
  {
    ScheduleAt(timeline, start, segments, ends, n, k);
    if k > 0 {
      ScheduleAt(timeline, start, segments, ends, n, k - 1);
    }
  }

  /** The segments are answered in order, each by a later pass than the one before. */
  lemma ScheduleInOrder(timeline: seq<Pass>, start: nat, segments: seq<Segment>, ends: seq<Ends>, n: nat, k: nat)
    requires start <= |timeline| && k + 1 < n <= |segments| == |ends|
    requires Schedule(timeline, start, segments, ends, n).Some?
    ensures Schedule(timeline, start, segments, ends, n).value.passes[k] < Schedule(timeline, start, segments, ends, n).value.passes[k + 1]
  {
    ScheduleFirstSuccess(timeline, start, segments, ends, n, k + 1);
  }

  /**
   * While the loop runs, the next segment gets a successful pass at its own
   * addresses when the whole schedule exists.
   */
  lemma ScheduledNext(timeline: seq<Pass>, segments: seq<Segment>, i: nat)
    requires i < |segments| && Scheduled(timeline, segments).Some?
    ensures Schedule(timeline, 0, segments, EndsOfAll(segments), i).Some?
    ensures var run := Schedule(timeline, 0, segments, EndsOfAll(segments), i).value;
      FirstSuccess(timeline, run.next, EndsOfAll(segments)[i].addressFrom, EndsOfAll(segments)[i].addressTo).Some?
  {
    SchedulePrefix(timeline, 0, segments, EndsOfAll(segments), |segments|, i + 1);
  }

  /**
   * One step of the loop: the `i`-th segment, answered at pass `p` when
   * looked up from where the first `i` stopped, extends their schedule by
   * that pass, its requests and its location.
   */
  lemma ScheduleStep(
    timeline: seq<Pass>, segments: seq<Segment>, ends: seq<Ends>, i: nat,
    passes: seq<nat>, next: nat, requests: seq<string>,
    latitudes: map<Segment, real>, longitudes: map<Segment, real>, boroughs: map<Segment, string>,
    p: nat, coord: Coord, lookups: seq<string>)
    requires i < |segments| == |ends|
    requires Schedule(timeline, 0, segments, ends, i) == Some(Run(passes, next, requests, latitudes, longitudes, boroughs))
    requires var e := ends[i];
      && FirstSuccess(timeline, next, e.addressFrom, e.addressTo) == Some(p)
      && coord == SegmentLocation(timeline[p], e.addressFrom, e.addressTo)
      && lookups == Lookups(e.addressFrom, e.addressTo, p + 1 - next)
    ensures Schedule(timeline, 0, segments, ends, i + 1) == Some(Run(
      passes + [p], p + 1, requests + lookups, latitudes[segments[i] := coord.lat],
      longitudes[segments[i] := coord.lng], boroughs[segments[i] := coord.borough]))
  {
    var n := i + 1;
    assert n - 1 == i;
    var run := Schedule(timeline, 0, segments, ends, n - 1).value;
    assert run == Run(passes, next, requests, latitudes, longitudes, boroughs);
    assert run.next == next;
  }

  /**
   * The location found for the `k`-th of the first `n` segments: the
   * midpoint of the two answers of the pass that answered it.
   */
  function LocationAt(timeline: seq<Pass>, start: nat, segments: seq<Segment>, ends: seq<Ends>, n: nat, k: nat): Coord
    requires start <= |timeline| && k < n <= |segments| == |ends| && Schedule(timeline, start, segments, ends, n).Some?
  {
    ScheduleAnswers(timeline, start, segments, ends, n, k);
    var p := Schedule(timeline, start, segments, ends, n).value.passes[k];
    SegmentLocation(timeline[p], ends[k].addressFrom, ends[k].addressTo)
  }

  /** The dictionaries hold exactly the segments looked up so far. */
  lemma {:induction false} ScheduleKeys(timeline: seq<Pass>, start: nat, segments: seq<Segment>, ends: seq<Ends>, n: nat)
    requires start <= |timeline| && n <= |segments| == |ends|
    requires Schedule(timeline, start, segments, ends, n).Some?
    ensures var run := Schedule(timeline, start, segments, ends, n).value;
      && (forall x :: x in run.latitudes <==> x in segments[..n])
      && (forall x :: x in run.longitudes <==> x in segments[..n])
      && (forall x :: x in run.boroughs <==> x in segments[..n])
  {
    if n > 0 {
      ScheduleKeys(timeline, start, segments, ends, n - 1);
      assert segments[..n] == segments[..n - 1] + [segments[n - 1]];
    }
  }

  /**
   * A segment that is not looked up again later keeps, in each dictionary,
   * the value stored from its own location.
   */
  lemma {:induction false} ScheduleStored(timeline: seq<Pass>, start: nat, segments: seq<Segment>, ends: seq<Ends>, n: nat, k: nat)
    requires start <= |timeline| && k < n <= |segments| == |ends|
    requires Schedule(timeline, start, segments, ends, n).Some?
    requires forall j | k < j < n :: segments[j] != segments[k]
    ensures var run := Schedule(timeline, start, segments, ends, n).value;
      var c := LocationAt(timeline, start, segments, ends, n, k);
      && segments[k] in run.latitudes && run.latitudes[segments[k]] == c.lat
      && segments[k] in run.longitudes && run.longitudes[segments[k]] == c.lng
      && segments[k] in run.boroughs && run.boroughs[segments[k]] == c.borough
    decreases n
  {
    ScheduleLastStores(timeline, start, segments, ends, n);
    var run := Schedule(timeline, start, segments, ends, n).value;
    if k < n - 1 {
      ScheduleStored(timeline, start, segments, ends, n - 1, k);
      SchedulePrefix(timeline, start, segments, ends, n, n - 1);
      var before := Schedule(timeline, start, segments, ends, n - 1).value;
      assert run.passes[k] == before.passes[k];
      assert LocationAt(timeline, start, segments, ends, n, k) == LocationAt(timeline, start, segments, ends, n - 1, k);
      var last := segments[n - 1];
      assert last != segments[k];
      assert run.latitudes[segments[k]] == before.latitudes[segments[k]];
      assert run.longitudes[segments[k]] == before.longitudes[segments[k]];
      assert run.boroughs[segments[k]] == before.boroughs[segments[k]];
    }
  }

  /** The last of `n` segments is stored with the location of the pass that answered it. */
  lemma ScheduleLastStores(timeline: seq<Pass>, start: nat, segments: seq<Segment>, ends: seq<Ends>, n: nat)
    requires start <= |timeline| && 0 < n <= |segments| == |ends|
    requires Schedule(timeline, start, segments, ends, n).Some?
    ensures Schedule(timeline, start, segments, ends, n - 1).Some?
    ensures var before := Schedule(timeline, start, segments, ends, n - 1).value;
      var run := Schedule(timeline, start, segments, ends, n).value;
      var c := LocationAt(timeline, start, segments, ends, n, n - 1);
      && run.latitudes == before.latitudes[segments[n - 1] := c.lat]
      && run.longitudes == before.longitudes[segments[n - 1] := c.lng]
      && run.boroughs == before.boroughs[segments[n - 1] := c.borough]
  {
    assert Schedule(timeline, start, segments, ends, n - 1).Some?;
  }

  /**
   * The three dictionaries hold exactly the segments `segs` as keys, each
   * mapped to the latitude, longitude and borough of its location in `locs`.
   */
  ghost predicate Tabulated(
    latitudes: map<Segment, real>, longitudes: map<Segment, real>, boroughs: map<Segment, string>,
    segs: seq<Segment>, locs: seq<Coord>)
  {
    && |locs| == |segs|
    && (forall x :: x in latitudes <==> x in segs)
    && (forall x :: x in longitudes <==> x in segs)
    && (forall x :: x in boroughs <==> x in segs)
    && (forall k | 0 <= k < |segs| ::
         && segs[k] in latitudes && latitudes[segs[k]] == locs[k].lat
         && segs[k] in longitudes && longitudes[segs[k]] == locs[k].lng
         && segs[k] in boroughs && boroughs[segs[k]] == locs[k].borough)
  }

  /** The locations found for all the segments, in order. */
  function Locations(timeline: seq<Pass>, segments: seq<Segment>): (locs: seq<Coord>)
    requires Scheduled(timeline, segments).Some?
    ensures |locs| == |segments|
  {
    seq(|segments|, k requires 0 <= k < |segments| => LocationAt(timeline, 0, segments, EndsOfAll(segments), |segments|, k))
  }

  /** With no segment twice, the whole schedule stores every segment with its own location. */
  lemma ScheduledTabulated(timeline: seq<Pass>, segments: seq<Segment>)
    requires Scheduled(timeline, segments).Some?
    requires forall i, j | 0 <= i < j < |segments| :: segments[i] != segments[j]
    ensures var run := Scheduled(timeline, segments).value;
      Tabulated(run.latitudes, run.longitudes, run.boroughs, segments, Locations(timeline, segments))
  {
    var n, ends := |segments|, EndsOfAll(segments);
    ScheduleKeys(timeline, 0, segments, ends, n);
    assert segments[..n] == segments;
    forall k | 0 <= k < n
      ensures var run := Scheduled(timeline, segments).value;
        var c := LocationAt(timeline, 0, segments, ends, n, k);
        && segments[k] in run.latitudes && run.latitudes[segments[k]] == c.lat
        && segments[k] in run.longitudes && run.longitudes[segments[k]] == c.lng
        && segments[k] in run.boroughs && run.boroughs[segments[k]] == c.borough
    {
      ScheduleStored(timeline, 0, segments, ends, n, k);
    }
  }

  /**
   * `get_coord_segment` on the `i`-th segment: its three fields are
   * stripped and the lookup starts at pass `start`.
   */
  method ResolveSegment(segments: seq<Segment>, i: nat, timeline: seq<Pass>, start: nat)
    returns (coord: Coord, answered: nat, lookups: seq<string>)
    requires i < |segments| && start <= |timeline|
    requires FirstSuccess(timeline, start, EndsOfAll(segments)[i].addressFrom, EndsOfAll(segments)[i].addressTo).Some?
    ensures var e := EndsOfAll(segments)[i];
      && FirstSuccess(timeline, start, e.addressFrom, e.addressTo) == Some(answered)
      && coord == SegmentLocation(timeline[answered], e.addressFrom, e.addressTo)
      && lookups == Lookups(e.addressFrom, e.addressTo, answered + 1 - start)
  {
    EndsAt(segments, i);
    var segment := segments[i];
    var mainRoad := Strip(segment.roadway);
    var from := Strip(segment.from);
    var to := Strip(segment.to);
    coord, answered, lookups := GetCoordSegment(mainRoad, from, to, timeline, start);
  }

  /**
   * The loop of `main` over the distinct segments: each is geocoded from
   * the pass after the one that answered the segment before it, the
   * counter goes up by two, and its location is stored in the three
   * dictionaries.
   */
  method ResolveSegments(segments: seq<Segment>, timeline: seq<Pass>)
    returns (latitudes: map<Segment, real>, longitudes: map<Segment, real>, boroughs: map<Segment, string>,
             nRequests: nat, requests: seq<string>)
    requires Scheduled(timeline, segments).Some?
    ensures nRequests == 2 * |segments|
    ensures var run := Scheduled(timeline, segments).value;
      && requests == run.requests
      && latitudes == run.latitudes && longitudes == run.longitudes && boroughs == run.boroughs
  {
    ghost var ends := EndsOfAll(segments);
    ghost var done: seq<nat> := [];
    nRequests := 0;
    latitudes, longitudes, boroughs := map[], map[], map[];
    requests := [];
    var next := 0;

    for i := 0 to |segments|
      invariant Schedule(timeline, 0, segments, ends, i) == Some(Run(done, next, requests, latitudes, longitudes, boroughs))
      invariant nRequests == 2 * i
    {
      var segment := segments[i];
      ScheduledNext(timeline, segments, i);
      var coord, answered, lookups := ResolveSegment(segments, i, timeline, next);
      ScheduleStep(timeline, segments, ends, i, done, next, requests, latitudes, longitudes, boroughs, answered, coord, lookups);
      nRequests := nRequests + 2;
      latitudes := latitudes[segment := coord.lat];
      longitudes := longitudes[segment := coord.lng];
      boroughs := boroughs[segment := coord.borough];
      requests := requests + lookups;
      next := answered + 1;
      done := done + [answered];
    }
  }

  /** `df['segment'].map(DICT)`: every row gets the value stored for its own segment. */
  function Column<T>(rows: seq<Segment>, dict: map<Segment, T>): (col: seq<T>)
    requires forall r | 0 <= r < |rows| :: rows[r] in dict
    ensures |col| == |rows|
    ensures forall r | 0 <= r < |rows| :: col[r] == dict[rows[r]]
  {
    seq(|rows|, r requires 0 <= r < |rows| => dict[rows[r]])
  }

  /** A dictionary keyed by the distinct segments holds every row's segment. */
  lemma KeysCoverRows<T>(rows: seq<Segment>, dict: map<Segment, T>)
    requires forall x :: x in dict <==> x in Distinct(rows)
    ensures forall x :: x in dict <==> x in rows
    ensures forall r | 0 <= r < |rows| :: rows[r] in dict
  {
  }

  /**
   * The segment part of `main`, on the rows of the traffic counts and the
   * geocoder's timeline: the three dictionaries, keyed by every segment
   * that occurs, the request counter, the addresses actually requested and
   * the three new columns.
   */
  method AddCoordinates(rows: seq<Segment>, timeline: seq<Pass>)
    returns (latitudes: map<Segment, real>, longitudes: map<Segment, real>, boroughs: map<Segment, string>,
             nRequests: nat, requests: seq<string>,
             latitude: seq<real>, longitude: seq<real>, borough: seq<string>)
    requires Scheduled(timeline, Distinct(rows)).Some?
    ensures nRequests == 2 * |Distinct(rows)|
    ensures requests == Scheduled(timeline, Distinct(rows)).value.requests
    ensures nRequests <= |requests|
    ensures nRequests == |requests| <==>
      forall k | 0 <= k < |Distinct(rows)| :: Scheduled(timeline, Distinct(rows)).value.passes[k] == k
    ensures Tabulated(latitudes, longitudes, boroughs, Distinct(rows), Locations(timeline, Distinct(rows)))
    ensures forall x :: x in latitudes <==> x in rows
    ensures |latitude| == |longitude| == |borough| == |rows|
    ensures forall r | 0 <= r < |rows| ::
      && rows[r] in latitudes && latitude[r] == latitudes[rows[r]]
      && rows[r] in longitudes && longitude[r] == longitudes[rows[r]]
      && rows[r] in boroughs && borough[r] == boroughs[rows[r]]
  {
    var segments := Distinct(rows);
    DistinctUnique(rows);
    ScheduledTabulated(timeline, segments);
    latitudes, longitudes, boroughs, nRequests, requests := ResolveSegments(segments, timeline);
    ScheduleRequests(timeline, 0, segments, EndsOfAll(segments), |segments|);
    ScheduleNoRetries(timeline, 0, segments, EndsOfAll(segments), |segments|);
    KeysCoverRows(rows, latitudes);
    KeysCoverRows(rows, longitudes);
    KeysCoverRows(rows, boroughs);
    latitude := Column(rows, latitudes);
    longitude := Column(rows, longitudes);
    borough := Column(rows, boroughs);
  }
}
