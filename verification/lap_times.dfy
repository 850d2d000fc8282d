/** `lapTimes` of `useSeasonData` (src/App.tsx): one chart point per race of the season with a
    winner recorded (`id_driver_win !== null`) whose circuit is in the dataset, labelled with
    the circuit's city and valued at the circuit's lap record plus a random 2 to 5 percent.

    `Math.random()` is a parameter: the n-th call, counted from 0, returns `random(n)`.
    The source calls it once per race whose circuit is found, in race order. Seconds are
    exact reals: floating-point rounding is not modelled, and `None` stands for NaN. */
module LapTimes {
  import opened Wrappers
  import opened Seqs
  import opened F1Types
  import opened TimeText
  import opened Rankings

  /** One point of the lap-time chart: the city label and the average lap time in seconds. */
  datatype LapPoint = LapPoint(circuit: string, avgLapTime: Option<real>)

  /** Every draw lies in [0, 1), as `Math.random()` promises. */
  ghost predicate ValidDraws(random: nat -> real) {
    forall n: nat :: 0.0 <= random(n) < 1.0
  }

  /** `baseTime * (1 + (u * 3 + 2) / 100)` where `baseTime = timeToSeconds(wr_time)`;
      `None` (NaN) when the record is. */
  function AvgLapTime(baseMs: Option<nat>, u: real): Option<real> {
    match baseMs
    case None => None
    case Some(ms) => Some(ms as real / 1000.0 * (1.0 + (u * 3.0 + 2.0) / 100.0))
  }

  /** A draw in [0, 1) puts the average between 2 and 5 percent above the record (at the
      record itself when it is 0), and it is NaN exactly when the record is. */
  lemma AvgLapTimeBounds(baseMs: Option<nat>, u: real)
    ensures AvgLapTime(baseMs, u).Some? <==> baseMs.Some?
    ensures AvgLapTime(baseMs, u).Some? && 0.0 <= u < 1.0 ==>
              var base, t := baseMs.value as real / 1000.0, AvgLapTime(baseMs, u).value;
              base * 1.02 <= t && (t < base * 1.05 || base == 0.0)
  {
    match baseMs
    case None =>
    case Some(ms) =>
      var base := ms as real / 1000.0;
      var t := AvgLapTime(baseMs, u).value;
      assert t == base * 1.02 + base * (u * 0.03);
      if 0.0 <= u < 1.0 {
        MarginBounds(base, u);
        assert base * 1.02 + base * 0.03 == base * 1.05;
      }
  }

  /** A fraction `u` of a 3 percent margin is non-negative, and below the whole margin. */
  lemma MarginBounds(base: real, u: real)
    requires base >= 0.0 && 0.0 <= u < 1.0
    ensures 0.0 <= base * (u * 0.03)
    ensures base * (u * 0.03) < base * 0.03 || base == 0.0
  {
    if base > 0.0 {
      assert base * (u * 0.03) == (base * 0.03) * u;
      assert (base * 0.03) * u < (base * 0.03) * 1.0;
    }
  }

  /** `races.filter(r => r.id_season === season && r.id_driver_win !== null)`: a recorded
      winner of 0 counts here, unlike in `wins`. */
  function ChartRaces(season: int, races: seq<Race>): seq<Race> {
    if |races| == 0 then []
    else
      var r := races[0];
      (if r.idSeason == season && r.idDriverWin.Some? then [r] else []) + ChartRaces(season, races[1..])
  }

  /** The point the `.map(...)` callback returns for race `r` when `Math.random()` returns
      `u`: `null` (`None`) when the circuit is not found. */
  function ChartPoint(r: Race, circuits: seq<Circuit>, u: real): Option<LapPoint> {
    match FindCircuit(circuits, r.idCircuit)
    case None => None
    case Some(c) => Some(LapPoint(c.city, AvgLapTime(TimeToMillis(c.wrTime), u)))
  }

  /** The `.map(...)` step over `rs`; `draws` counts the draws made so far. Only a race whose
      circuit is found draws a number. */
  function MapRaces(rs: seq<Race>, circuits: seq<Circuit>, random: nat -> real, draws: nat): seq<Option<LapPoint>> {
    if |rs| == 0 then []
    else if FindCircuit(circuits, rs[0].idCircuit).None? then [None] + MapRaces(rs[1..], circuits, random, draws)
    else [ChartPoint(rs[0], circuits, random(draws))] + MapRaces(rs[1..], circuits, random, draws + 1)
  }

  /** `.filter(Boolean)`: drops the `null`s; a point is an object, so always kept. */
  function Present(ps: seq<Option<LapPoint>>): seq<LapPoint> {
    if |ps| == 0 then []
    else (if ps[0].Some? then [ps[0].value] else []) + Present(ps[1..])
  }

  /** `lapTimes`. */
  function SeasonLapTimes(season: int, races: seq<Race>, circuits: seq<Circuit>, random: nat -> real): seq<LapPoint> {
    Present(MapRaces(ChartRaces(season, races), circuits, random, 0))
  }

  /** A race the chart shows: of the season, with a winner recorded, at a known circuit. */
  predicate Charted(season: int, circuits: seq<Circuit>, r: Race) {
    r.idSeason == season && r.idDriverWin.Some? && FindCircuit(circuits, r.idCircuit).Some?
  }

  /** The races the chart shows, in race order. */
  function ChartedRaces(season: int, races: seq<Race>, circuits: seq<Circuit>): seq<Race> {
    if |races| == 0 then []
    else
      (if Charted(season, circuits, races[0]) then [races[0]] else []) + ChartedRaces(season, races[1..], circuits)
  }

  /** The races among `rs` whose circuit is known. */
  function WithCircuit(rs: seq<Race>, circuits: seq<Circuit>): seq<Race> {
    if |rs| == 0 then []
    else (if FindCircuit(circuits, rs[0].idCircuit).Some? then [rs[0]] else []) + WithCircuit(rs[1..], circuits)
  }

  lemma {:induction false} ChartedInTwoSteps(season: int, races: seq<Race>, circuits: seq<Circuit>)
    ensures WithCircuit(ChartRaces(season, races), circuits) == ChartedRaces(season, races, circuits)
  {
    if |races| > 0 {
      ChartedInTwoSteps(season, races[1..], circuits);
      var r := races[0];
      var tail := ChartRaces(season, races[1..]);
      if r.idSeason == season && r.idDriverWin.Some? {
        assert ChartRaces(season, races) == [r] + tail;
        assert ([r] + tail)[1..] == tail;
      } else {
        assert ChartRaces(season, races) == tail;
        assert ChartedRaces(season, races, circuits) == ChartedRaces(season, races[1..], circuits);
      }
    }
  }

  /** Point `p` shows race `r` with draw `u`: the city of its circuit, and the record of that
      circuit raised by `u`. */
  ghost predicate ShowsRace(p: LapPoint, r: Race, circuits: seq<Circuit>, u: real) {
    && FindCircuit(circuits, r.idCircuit).Some?
    && p.circuit == FindCircuit(circuits, r.idCircuit).value.city
    && p.avgLapTime == AvgLapTime(TimeToMillis(FindCircuit(circuits, r.idCircuit).value.wrTime), u)
  }

  /** `p` is the point drawn for race `r` with draw number `n`. */
  function Drawn(circuits: seq<Circuit>, random: nat -> real): (Race, nat, LapPoint) -> bool {
    (r: Race, n: nat, p: LapPoint) => ChartPoint(r, circuits, random(n)) == Some(p)
  }

  lemma {:induction false} MapRacesPoints(rs: seq<Race>, circuits: seq<Circuit>, random: nat -> real, draws: nat)
    ensures InStep(WithCircuit(rs, circuits), Present(MapRaces(rs, circuits, random, draws)), Drawn(circuits, random), draws)
  {
    if |rs| > 0 {
      if FindCircuit(circuits, rs[0].idCircuit).None? {
        MapRacesPoints(rs[1..], circuits, random, draws);
        SkipRace(rs, circuits, random, draws);
      } else {
        MapRacesPoints(rs[1..], circuits, random, draws + 1);
        var p := PointRace(rs, circuits, random, draws);
        PrependInStep(rs[0], p, WithCircuit(rs[1..], circuits), Present(MapRaces(rs[1..], circuits, random, draws + 1)),
                      Drawn(circuits, random), draws);
      }
    }
  }

  /** A race at an unknown circuit adds neither a point nor a draw. */
  lemma SkipRace(rs: seq<Race>, circuits: seq<Circuit>, random: nat -> real, draws: nat)
    requires |rs| > 0 && FindCircuit(circuits, rs[0].idCircuit).None?
    ensures Present(MapRaces(rs, circuits, random, draws)) == Present(MapRaces(rs[1..], circuits, random, draws))
    ensures WithCircuit(rs, circuits) == WithCircuit(rs[1..], circuits)
  {
    var ms := MapRaces(rs, circuits, random, draws);
    var rest := MapRaces(rs[1..], circuits, random, draws);
    assert ms == [None] + rest;
    assert ms[1..] == rest;
  }

  /** A race at a known circuit adds its point `p`, drawing once. */
  lemma PointRace(rs: seq<Race>, circuits: seq<Circuit>, random: nat -> real, draws: nat) returns (p: LapPoint)
    requires |rs| > 0 && FindCircuit(circuits, rs[0].idCircuit).Some?
    ensures Present(MapRaces(rs, circuits, random, draws)) == [p] + Present(MapRaces(rs[1..], circuits, random, draws + 1))
    ensures WithCircuit(rs, circuits) == [rs[0]] + WithCircuit(rs[1..], circuits)
    ensures Drawn(circuits, random)(rs[0], draws, p)
  {
    p := ChartPoint(rs[0], circuits, random(draws)).value;
    var ms := MapRaces(rs, circuits, random, draws);
    var rest := MapRaces(rs[1..], circuits, random, draws + 1);
    assert ms == [Some(p)] + rest;
    assert ms[1..] == rest;
  }

  /** The point drawn for a race shows it. */
  lemma ChartPointShows(r: Race, circuits: seq<Circuit>, u: real, p: LapPoint)
    requires ChartPoint(r, circuits, u) == Some(p)
    ensures ShowsRace(p, r, circuits, u)
  {
  }

  /** One point per charted race, in race order: the k-th shows the k-th charted race with the
      k-th draw. */
  lemma LapTimesSpec(season: int, races: seq<Race>, circuits: seq<Circuit>, random: nat -> real)
    ensures var pts, rs := SeasonLapTimes(season, races, circuits, random), ChartedRaces(season, races, circuits);
      && |pts| == |rs|
      && forall i :: 0 <= i < |pts| ==> ShowsRace(pts[i], rs[i], circuits, random(i))
  {
    MapRacesPoints(ChartRaces(season, races), circuits, random, 0);
    ChartedInTwoSteps(season, races, circuits);
    DrawnShows(SeasonLapTimes(season, races, circuits, random), ChartedRaces(season, races, circuits), circuits, random);
  }

  /** Points drawn in step with races from the first draw show those races. */
  lemma DrawnShows(pts: seq<LapPoint>, rs: seq<Race>, circuits: seq<Circuit>, random: nat -> real)
    requires InStep(rs, pts, Drawn(circuits, random), 0)
    ensures |pts| == |rs|
    ensures forall i :: 0 <= i < |pts| ==> ShowsRace(pts[i], rs[i], circuits, random(i))
  {
    forall i | 0 <= i < |pts| ensures ShowsRace(pts[i], rs[i], circuits, random(i)) {
      assert Drawn(circuits, random)(rs[i], 0 + i, pts[i]);
      ChartPointShows(rs[i], circuits, random(i), pts[i]);
    }
  }

  /** Point `p` lies 2 to 5 percent above the lap record of race `r`'s circuit (at the record
      when it reads as 0), and is NaN exactly when the record is. */
  ghost predicate NearRecord(p: LapPoint, r: Race, circuits: seq<Circuit>) {
    && FindCircuit(circuits, r.idCircuit).Some?
    && var ms := TimeToMillis(FindCircuit(circuits, r.idCircuit).value.wrTime);
    && (p.avgLapTime.Some? <==> ms.Some?)
    && (p.avgLapTime.Some? ==>
          var base := ms.value as real / 1000.0;
          base * 1.02 <= p.avgLapTime.value && (p.avgLapTime.value < base * 1.05 || base == 0.0))
  }

  /** With draws in [0, 1), every point of the chart is near its circuit's record. */
  lemma LapTimesInRange(season: int, races: seq<Race>, circuits: seq<Circuit>, random: nat -> real)
    requires ValidDraws(random)
    ensures var pts, rs := SeasonLapTimes(season, races, circuits, random), ChartedRaces(season, races, circuits);
      && |pts| == |rs|
      && forall i :: 0 <= i < |pts| ==> NearRecord(pts[i], rs[i], circuits)
  {
    LapTimesSpec(season, races, circuits, random);
    ShownNearRecord(SeasonLapTimes(season, races, circuits, random), ChartedRaces(season, races, circuits), circuits, random);
  }

  lemma ShownNearRecord(pts: seq<LapPoint>, rs: seq<Race>, circuits: seq<Circuit>, random: nat -> real)
    requires ValidDraws(random)
    requires |pts| == |rs|
    requires forall i :: 0 <= i < |pts| ==> ShowsRace(pts[i], rs[i], circuits, random(i))
    ensures forall i :: 0 <= i < |pts| ==> NearRecord(pts[i], rs[i], circuits)
  {
    forall i | 0 <= i < |pts| ensures NearRecord(pts[i], rs[i], circuits) {
      var c := FindCircuit(circuits, rs[i].idCircuit).value;
      AvgLapTimeBounds(TimeToMillis(c.wrTime), random(i));
    }
  }

  /** The charted races are exactly the races that are charted. */
  lemma {:induction false} ChartedRacesMembers(season: int, races: seq<Race>, circuits: seq<Circuit>)
    ensures forall r :: r in ChartedRaces(season, races, circuits) <==> r in races && Charted(season, circuits, r)
  {
    if |races| > 0 {
      ChartedRacesMembers(season, races[1..], circuits);
      assert races == [races[0]] + races[1..];
    }
  }

  /** A season race won by driver id 0 at a known circuit gets a lap-time point but no win:
      `wins` tests the id for truthiness, `lapTimes` only for `null`. */
  lemma ZeroWinnerChartedNotCounted(season: int, races: seq<Race>, k: nat, circuits: seq<Circuit>,
                                    drivers: seq<Driver>, random: nat -> real)
    requires k < |races| && races[k].idSeason == season && races[k].idDriverWin == Some(0)
    requires FindCircuit(circuits, races[k].idCircuit).Some?
    ensures races[k] in ChartedRaces(season, races, circuits)
    ensures var pts := SeasonLapTimes(season, races, circuits, random);
      exists i :: 0 <= i < |pts| && ShowsRace(pts[i], races[k], circuits, random(i))
    ensures 0 !in IdsOf(Wins(season, races, drivers))
  {
    var rs := ChartedRaces(season, races, circuits);
    ChartedRacesMembers(season, races, circuits);
    LapTimesSpec(season, races, circuits, random);
    assert races[k] in rs;
    var i :| 0 <= i < |rs| && rs[i] == races[k];
    WinsRanking(season, races, drivers);
  }
}
