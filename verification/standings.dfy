/** `driverStandings` and `worldChampion` of `useSeasonData` (src/App.tsx): the season's
    driver-standing rows sorted stably by points, descending, numbered from 1 and joined to
    the driver and team they name. The asset tables (driver photos, team logos) are parameters
    mapping a name to a URL. */
module Standings {
  import opened Wrappers
  import opened StableSort
  import opened F1Types

  /** One row of the standings table. */
  datatype Standing = Standing(pos: nat, driver: string, driverImage: string, team: string,
                               points: real, teamLogo: string)

  /** `drivers_stands.filter(s => s.id_season === season)`. */
  function SeasonStands(season: int, stands: seq<DriverStand>): (r: seq<DriverStand>)
    ensures forall x :: multiset(r)[x] == if x.idSeason == season then multiset(stands)[x] else 0
  {
    if |stands| == 0 then []
    else
      assert stands == [stands[0]] + stands[1..];
      (if stands[0].idSeason == season then [stands[0]] else []) + SeasonStands(season, stands[1..])
  }

  function PointsKey(s: DriverStand): real {
    s.points
  }

  /** `.sort((a, b) => b.points - a.points)` on the season's rows. */
  function RankedStands(season: int, stands: seq<DriverStand>): seq<DriverStand> {
    SortDesc(SeasonStands(season, stands), PointsKey)
  }

  /** The sorted rows are the season's rows, by points descending, and rows with equal points
      keep their order in the dataset. */
  lemma RankedStandsSpec(season: int, stands: seq<DriverStand>)
    ensures var r := RankedStands(season, stands);
      && (forall x :: multiset(r)[x] == if x.idSeason == season then multiset(stands)[x] else 0)
      && (forall i, j :: 0 <= i < j < |r| ==> r[i].points >= r[j].points)
      && (forall v :: WithKey(r, PointsKey, v) == WithKey(SeasonStands(season, stands), PointsKey, v))
  {
    var r := RankedStands(season, stands);
    forall v ensures WithKey(r, PointsKey, v) == WithKey(SeasonStands(season, stands), PointsKey, v) {
      SortIsStable(SeasonStands(season, stands), PointsKey, v);
    }
    PointsDescending(r);
  }

  /** `x?.name || '?'`: the name shown, with "?" for a missing record or an empty name. */
  function Shown(name: string): string {
    if name == "" then "?" else name
  }

  /** `x?.name || ''`: the key the asset tables are looked up by. */
  function DriverKey(d: Option<Driver>): string {
    match d
    case Some(x) => x.name
    case None => ""
  }

  function TeamKey(t: Option<Team>): string {
    match t
    case Some(x) => x.name
    case None => ""
  }

  /** `assets[key]?.field || ''`. */
  function Asset(assets: map<string, string>, key: string): string {
    if key in assets then assets[key] else ""
  }

  /** The `.map((s, i) => ...)` step: row `s` shown at position `pos`. */
  function JoinStanding(s: DriverStand, pos: nat, drivers: seq<Driver>, teams: seq<Team>,
                        driverImages: map<string, string>, teamLogos: map<string, string>): Standing
  {
    var driver := DriverKey(FindDriver(drivers, s.idDriver));
    var team := TeamKey(FindTeam(teams, s.idDriverTeam));
    Standing(pos, Shown(driver), Asset(driverImages, driver), Shown(team), s.points, Asset(teamLogos, team))
  }

  /** The `.map((s, i) => ...)` over the sorted rows: row `i` is shown at position `i + 1`. */
  function JoinRows(rs: seq<DriverStand>, drivers: seq<Driver>, teams: seq<Team>,
                    driverImages: map<string, string>, teamLogos: map<string, string>): (r: seq<Standing>)
    ensures |r| == |rs|
    ensures forall i :: 0 <= i < |r| ==> r[i] == JoinStanding(rs[i], i + 1, drivers, teams, driverImages, teamLogos)
  {
    seq(|rs|, i requires 0 <= i < |rs| => JoinStanding(rs[i], i + 1, drivers, teams, driverImages, teamLogos))
  }

  /** `driverStandings`. */
  function DriverStandings(season: int, stands: seq<DriverStand>, drivers: seq<Driver>, teams: seq<Team>,
                           driverImages: map<string, string>, teamLogos: map<string, string>): seq<Standing>
  {
    JoinRows(RankedStands(season, stands), drivers, teams, driverImages, teamLogos)
  }

  /** Standing `st` shows stand `s`: its points, the first driver and team with its ids, "?"
      where a record is missing or its name is empty, and the asset filed under the name
      (under "" when the record is missing). */
  ghost predicate Shows(st: Standing, s: DriverStand, drivers: seq<Driver>, teams: seq<Team>,
                        driverImages: map<string, string>, teamLogos: map<string, string>) {
    && st.points == s.points
    && (FindDriver(drivers, s.idDriver).None? ==> st.driver == "?" && st.driverImage == Asset(driverImages, ""))
    && (FindDriver(drivers, s.idDriver).Some? ==>
          var d := FindDriver(drivers, s.idDriver).value;
          (st.driver == "?" <==> d.name == "" || d.name == "?") &&
          (d.name != "" ==> st.driver == d.name) &&
          st.driverImage == Asset(driverImages, d.name))
    && (FindTeam(teams, s.idDriverTeam).None? ==> st.team == "?" && st.teamLogo == Asset(teamLogos, ""))
    && (FindTeam(teams, s.idDriverTeam).Some? ==>
          var t := FindTeam(teams, s.idDriverTeam).value;
          (st.team == "?" <==> t.name == "" || t.name == "?") &&
          (t.name != "" ==> st.team == t.name) &&
          st.teamLogo == Asset(teamLogos, t.name))
  }

  /** One standing per row of the season, numbered 1, 2, ... in order, with points never
      increasing down the table, each showing its sorted row. */
  lemma StandingsSpec(season: int, stands: seq<DriverStand>, drivers: seq<Driver>, teams: seq<Team>,
                      driverImages: map<string, string>, teamLogos: map<string, string>)
    ensures var r := DriverStandings(season, stands, drivers, teams, driverImages, teamLogos);
      var rs := RankedStands(season, stands);
      && |r| == |SeasonStands(season, stands)|
      && (forall i :: 0 <= i < |r| ==> r[i].pos == i + 1)
      && (forall i, j :: 0 <= i < j < |r| ==> r[i].points >= r[j].points)
      && (forall i :: 0 <= i < |r| ==> Shows(r[i], rs[i], drivers, teams, driverImages, teamLogos))
  {
    var rs := RankedStands(season, stands);
    PointsDescending(rs);
    JoinedRows(JoinRows(rs, drivers, teams, driverImages, teamLogos), rs, drivers, teams, driverImages, teamLogos);
  }

  /** Rows sorted by points, descending, have points that never increase. */
  lemma PointsDescending(rs: seq<DriverStand>)
    requires SortedDesc(rs, PointsKey)
    ensures forall i, j :: 0 <= i < j < |rs| ==> rs[i].points >= rs[j].points
  {
    forall i, j | 0 <= i < j < |rs| ensures rs[i].points >= rs[j].points {
      assert PointsKey(rs[i]) >= PointsKey(rs[j]);
    }
  }

  /** Rows joined in order are numbered from 1, show their rows and keep their point order. */
  lemma JoinedRows(r: seq<Standing>, rs: seq<DriverStand>, drivers: seq<Driver>, teams: seq<Team>,
                   driverImages: map<string, string>, teamLogos: map<string, string>)
    requires |r| == |rs|
    requires forall i :: 0 <= i < |r| ==> r[i] == JoinStanding(rs[i], i + 1, drivers, teams, driverImages, teamLogos)
    requires forall i, j :: 0 <= i < j < |rs| ==> rs[i].points >= rs[j].points
    ensures forall i :: 0 <= i < |r| ==> r[i].pos == i + 1
    ensures forall i :: 0 <= i < |r| ==> Shows(r[i], rs[i], drivers, teams, driverImages, teamLogos)
    ensures forall i, j :: 0 <= i < j < |r| ==> r[i].points >= r[j].points
  {
    forall i | 0 <= i < |r| ensures Shows(r[i], rs[i], drivers, teams, driverImages, teamLogos) {
      JoinShows(rs[i], i + 1, drivers, teams, driverImages, teamLogos);
    }
  }

  /** Joining a row shows it at the position given. */
  lemma JoinShows(s: DriverStand, pos: nat, drivers: seq<Driver>, teams: seq<Team>,
                  driverImages: map<string, string>, teamLogos: map<string, string>)
    ensures var st := JoinStanding(s, pos, drivers, teams, driverImages, teamLogos);
      st.pos == pos && Shows(st, s, drivers, teams, driverImages, teamLogos)
  {
  }

  /** Row `k` of `ss` leads it: no row has more points, and every row before it has fewer. */
  ghost predicate FirstLeader(ss: seq<DriverStand>, k: nat) {
    && k < |ss|
    && (forall j :: 0 <= j < |ss| ==> ss[j].points <= ss[k].points)
    && (forall j :: 0 <= j < k ==> ss[j].points < ss[k].points)
  }

  /** Standing `st` shows the first of the rows `ss` with the most points. */
  ghost predicate ShowsLeader(st: Standing, ss: seq<DriverStand>, drivers: seq<Driver>, teams: seq<Team>,
                              driverImages: map<string, string>, teamLogos: map<string, string>) {
    exists k: nat :: FirstLeader(ss, k) && Shows(st, ss[k], drivers, teams, driverImages, teamLogos)
  }

  /** `driverStandings[0]`: `None` is `undefined`, when the season has no rows. */
  function WorldChampion(season: int, stands: seq<DriverStand>, drivers: seq<Driver>, teams: seq<Team>,
                         driverImages: map<string, string>, teamLogos: map<string, string>): (c: Option<Standing>)
    ensures c.None? <==> forall x :: x in stands ==> x.idSeason != season
    ensures c.Some? ==> c.value.pos == 1
    ensures c.Some? ==> exists x :: x in stands && x.idSeason == season && x.points == c.value.points
    ensures c.Some? ==> forall x :: x in stands && x.idSeason == season ==> x.points <= c.value.points
    ensures c.Some? ==> ShowsLeader(c.value, SeasonStands(season, stands), drivers, teams, driverImages, teamLogos)
  {
    var r := DriverStandings(season, stands, drivers, teams, driverImages, teamLogos);
    ChampionLeads(season, stands);
    ChampionShows(season, stands, drivers, teams, driverImages, teamLogos);
    if |r| == 0 then None else Some(r[0])
  }

  /** The first standing shows the first season row, in dataset order, with the most points. */
  lemma ChampionShows(season: int, stands: seq<DriverStand>, drivers: seq<Driver>, teams: seq<Team>,
                      driverImages: map<string, string>, teamLogos: map<string, string>)
    ensures var r := DriverStandings(season, stands, drivers, teams, driverImages, teamLogos);
      |r| > 0 ==> ShowsLeader(r[0], SeasonStands(season, stands), drivers, teams, driverImages, teamLogos)
  {
    var ss := SeasonStands(season, stands);
    var rs := RankedStands(season, stands);
    var r := JoinRows(rs, drivers, teams, driverImages, teamLogos);
    if |r| > 0 {
      JoinShows(rs[0], 1, drivers, teams, driverImages, teamLogos);
      var k := ChampionRow(ss, rs);
      assert Shows(r[0], ss[k], drivers, teams, driverImages, teamLogos);
    }
  }

  /** The top row of a stable sort by points is the first row with the most points: sorting
      keeps the rows with equal points in their order. */
  lemma ChampionRow(ss: seq<DriverStand>, rs: seq<DriverStand>) returns (k: nat)
    requires rs == SortDesc(ss, PointsKey) && |rs| > 0
    ensures FirstLeader(ss, k) && rs[0] == ss[k]
  {
    var v := rs[0].points;
    SortIsStable(ss, PointsKey, v);
    PointsDescending(rs);
    assert WithKey(rs, PointsKey, v) == [rs[0]] + WithKey(rs[1..], PointsKey, v);
    k := WithKeyHead(ss, PointsKey, v);
    forall j | 0 <= j < |ss| ensures ss[j].points <= v {
      assert ss[j] in multiset(rs);
      var m :| 0 <= m < |rs| && rs[m] == ss[j];
      if m > 0 {
        assert rs[0].points >= rs[m].points;
      }
    }
  }

  /** The sorted rows are exactly the season's rows. */
  lemma SeasonRowsRanked(season: int, stands: seq<DriverStand>)
    ensures var rs := RankedStands(season, stands);
      forall x :: x in rs <==> x in stands && x.idSeason == season
  {
    var rs := RankedStands(season, stands);
    assert multiset(rs) == multiset(SeasonStands(season, stands));
    forall x ensures x in rs <==> x in stands && x.idSeason == season {
      assert x in rs <==> multiset(rs)[x] > 0;
      assert x in stands <==> multiset(stands)[x] > 0;
    }
  }

  /** The first sorted row belongs to the season and has the most points of all its rows. */
  lemma ChampionLeads(season: int, stands: seq<DriverStand>)
    ensures var rs := RankedStands(season, stands);
      && (|rs| == 0 <==> forall x :: x in stands ==> x.idSeason != season)
      && (|rs| > 0 ==> rs[0] in stands && rs[0].idSeason == season)
      && (|rs| > 0 ==> forall x :: x in stands && x.idSeason == season ==> x.points <= rs[0].points)
  {
    var rs := RankedStands(season, stands);
    SeasonRowsRanked(season, stands);
    RankedStandsSpec(season, stands);
    if |rs| > 0 {
      assert multiset(rs)[rs[0]] > 0;
      forall x | x in stands && x.idSeason == season ensures x.points <= rs[0].points {
        var j :| 0 <= j < |rs| && rs[j] == x;
        if j > 0 {
          assert rs[0].points >= rs[j].points;
        }
      }
    }
  }
}
