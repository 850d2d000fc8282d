# F1 dashboard season data, modelled in Dafny

The dashboard (src/App.tsx) shows one Formula 1 season at a time, using a static dataset of
teams, drivers, circuits, races, race results and driver standings. This project models the
data processing behind the charts and proves what it computes:

- `useSeasonData(season)` derives six values:
  - `wins` and `fastestLaps`: per-driver counts tallied in a plain object and sorted by count.
  - `podiums`: top-three finishes per driver, sorted, with the first five kept.
  - `driverStandings`: the season's standing rows sorted by points, numbered from 1, and joined
    to driver and team names and assets.
  - `worldChampion`: the first of those rows.
  - `lapTimes`: one chart point per season race with a recorded winner at a known circuit.
- `engineDistribution` groups the teams by engine.
- `timeToSeconds` reads a lap record written as `minutes:seconds:thousandths`.

Modules:

- `Wrappers`: the `Option` type. `None` is `null` for the nullable race ids (src/types.ts:52-54) and
  `undefined` for a `find` that matches nothing.
- `Seqs`: sequence helpers.
  - `FindBy` is `Array.prototype.find` on an id.
  - `Count` and `SumCounts` do counting.
  - `InStep` relates two sequences index by index.
- `Digits`: decimal numerals.
- `StableSort`: the stable sort `Array.prototype.sort` performs with a comparator `b.k - a.k`,
  written as a functional insertion sort. It proves the result is sorted and a permutation, that
  equal keys keep their input order, and that ties are broken by any order the input already has.
- `JsObject`: a plain JavaScript object used as a dictionary.
  - `d[k] = v` (`Put`) appends a new key and overwrites an old one in place.
  - `Object.entries` (`Entries`) lists array-index keys (integers `0 <= n < 2^32 - 1`) first in
    ascending order, then the other keys in creation order, as the ECMAScript operation
    OrdinaryOwnPropertyKeys prescribes.
- `F1Types`: the records of src/types.ts and the `find` lookups by id.
- `TimeText`: `split(':')` and `timeToSeconds`. Times are kept in whole milliseconds.
- `Rankings`: `wins`, `fastestLaps` and `podiums`.
- `Standings`: `driverStandings` and `worldChampion`.
- `LapTimes`: `lapTimes`.
- `Engines`: `engineDistribution`.

The dataset arrays, the asset tables (`DRIVER_ASSETS`, `TEAM_ASSETS`) and `Math.random` are
parameters of the operations:

- The asset tables become maps from a name to a URL.
- `random(n)` is the value of the n-th call of `Math.random()` made while computing `lapTimes`.

The lap record `wr_time` is declared as plain text (src/types.ts:29), with no format given.
`timeToSeconds` needs three colon-separated fields and yields 0 for any other shape. The one
time format the code itself produces, `secondsToTime`'s `M:SS.mmm` (src/App.tsx:36, for example
`1:18.183`), has a single colon. A record written that way therefore reads as 0, and so does its
lap-time point. The model follows the code, and `TimeText.DottedLapRecordReadsAsZero` proves
the behaviour.

## Model

| member | source | states |
|---|---|---|
| TimeText.Split | src/App.tsx:24 | `split` on a one-character separator gives one more part than the separator occurs, no part contains it, and joining the parts gives the text back |
| TimeText.SplitJoin | src/App.tsx:24 | splitting undoes joining parts that do not contain the separator |
| TimeText.FieldsToMillis | src/App.tsx:26-27 | minutes, seconds and thousandths in milliseconds equal `minutes * 60 + seconds + thousandths / 1000` seconds |
| TimeText.TimeToMillis | src/App.tsx:23-30 | a time without exactly two colons (so not three parts) reads as 0 |
| TimeText.ThreeFieldTime | src/App.tsx:23-28 | three digit fields joined by colons read as minutes, seconds and thousandths of a second |
| TimeText.DottedLapRecordReadsAsZero | src/App.tsx:23-30 | a record with a single colon, such as `1:18.750`, reads as 0 |
| Seqs.FindBy | src/App.tsx:120 | `find` by id gives nothing exactly when no element has the id, and otherwise the first element with it |
| F1Types.FindDriver | src/App.tsx:142 | `drivers.find(d => d.id === id)` gives the first driver with the id, or nothing when there is none |
| F1Types.FindTeam | src/App.tsx:143 | `teams.find(t => t.id === id)` gives the first team with the id, or nothing when there is none |
| F1Types.FindCircuit | src/App.tsx:159 | `circuits.find(c => c.id === id)` gives the first circuit with the id, or nothing when there is none |
| JsObject.Put | src/App.tsx:119 | assigning a key keeps the object valid, sets that key's value, leaves the earlier keys in place, and appends the key only when it is new |
| JsObject.PutKeepsFirstAppearance | src/App.tsx:118-119 | assigning keys in turn keeps them in order of first assignment |
| JsObject.NumberKeyIndexAgrees | src/App.tsx:119-120 | a number key is an array index exactly when the string it is stored under is one, and both name the same index |
| JsObject.NumberToKeyInjective | src/App.tsx:120 | distinct numbers are stored under distinct keys |
| JsObject.NumberToKeyReadsBack | src/App.tsx:120 | `Number(id)` reads back the id a key was stored under: the key is the decimal numeral of the id, after a minus sign when it is negative |
| JsObject.StringKeyIndexInjective | src/App.tsx:267 | two distinct string keys never name the same array index |
| JsObject.OwnKeys | src/App.tsx:120 | the keys `Object.entries` lists are the object's keys, each once |
| JsObject.OwnKeysIndexFirst | src/App.tsx:120 | array-index keys come before all other keys, in ascending order |
| JsObject.OwnKeysPlainInOrder | src/App.tsx:120 | the other keys follow in creation order |
| JsObject.Entries | src/App.tsx:120 | `Object.entries` pairs each listed key with its value |
| StableSort.SortDesc | src/App.tsx:120 | sorting by `b.k - a.k` gives a permutation of the input, with keys non-increasing |
| StableSort.SortIsStable | src/App.tsx:140 | the elements with any one key keep their input order |
| StableSort.SortBreaksTiesByInputOrder | src/App.tsx:120 | when the input is ordered by some relation, sorted elements with equal keys follow that relation |
| Rankings.Tally | src/App.tsx:118-119 | the reduce keeps one key per id, in order of first appearance, holding how often the id occurs |
| Rankings.ListingOrder | src/App.tsx:120 | `Object.entries` of a tally lists array-index ids ascending, then the other ids in order of first appearance |
| Rankings.RankingSpec | src/App.tsx:118-120 | a tallied and sorted ranking has one row per id that occurs and no repeats. Each row carries the id's count and the name of the first driver with the id, or `''`. Counts do not increase, and ties follow enumeration order |
| Rankings.RankedTotal | src/App.tsx:118-120 | a ranking's counts add up to the number of ids tallied |
| Rankings.DriverName | src/App.tsx:120 | the name of `drivers.find(...)`, or `''`; `Rankings.RankingSpec` states that every row carries the name of the first driver with its id, or `''` |
| Rankings.AwardIdsCount | src/App.tsx:118 | the filtered ids number as many as the season's races with a truthy holder, and each driver occurs once per race they hold |
| Rankings.Wins | src/App.tsx:117-121 | `wins`; `Rankings.WinsRanking` states what it holds |
| Rankings.FastestLaps | src/App.tsx:123-127 | `fastestLaps`; `Rankings.FastestLapsRanking` states what it holds |
| Rankings.WinsRanking | src/App.tsx:117-121 | `wins` ranks exactly the drivers who won a race of the season, with their number of wins and their name. It is sorted by wins, ties in enumeration order, and the wins add up to the races with a truthy winner |
| Rankings.AwardRanking | src/App.tsx:117-127 | any ranking of the filtered holders of an award ranks the award in the season. The rows are exactly the drivers holding it in some race, with counts equal to the races they hold it in, adding up to the races with a truthy holder |
| Rankings.FastestLapsRanking | src/App.tsx:123-127 | the same for `fastestLaps` and the fastest-lap holders |
| Rankings.PodiumIdsCount | src/App.tsx:131-132 | a driver is tallied once per result row with `end_pos` exactly `'1'`, `'2'` or `'3'` in a race of the season |
| Rankings.PodiumRankingRows | src/App.tsx:129-133 | the podium ranking holds exactly the drivers with a podium finish in the season, once each, with their number of finishes |
| Rankings.PodiumCounts | src/App.tsx:130-132 | a ranking of the tallied podium rows lists a driver exactly when they have a podium finish in a race of the season, with the number of those finishes |
| Rankings.TopRows | src/App.tsx:133 | the `.map` to bars and `.slice(0, 5)`; `Rankings.TopRowsOfPodiumRanking` states that a ranking's bars are its first rows, at most five, non-increasing, with no driver left out above the last bar |
| Rankings.TopRowsOfPodiumRanking | src/App.tsx:133 | the bars of any podium ranking are its first rows, at most five, carrying names and podium counts, non-increasing, and no row cut off has more than the last bar |
| Rankings.Podiums | src/App.tsx:129-134 | `podiums`; `Rankings.PodiumsTopFive` states what it holds |
| Rankings.PodiumsTopFive | src/App.tsx:133 | `podiums` has at most five bars: the first rows of the ranking, with names and podium counts, non-increasing. No driver left out has more than the last bar |
| Standings.SeasonStands | src/App.tsx:139 | the filter keeps exactly the season's rows, as often as they occur |
| Standings.RankedStandsSpec | src/App.tsx:139-140 | the sorted rows are the season's rows with points non-increasing, and rows with equal points keep their dataset order |
| Standings.JoinStanding | src/App.tsx:141-151 | one row of the `.map`; `Standings.JoinShows` states what it shows |
| Standings.JoinShows | src/App.tsx:141-151 | a joined row shows its position and points. The name is `'?'` for a missing or empty record, and assets are looked up under the name, or under `''` |
| Standings.DriverStandings | src/App.tsx:138-153 | `driverStandings`; `Standings.StandingsSpec` states what it holds |
| Standings.StandingsSpec | src/App.tsx:138-153 | one standing per season row, positions 1, 2, ... in order, points non-increasing, each showing its sorted row |
| Standings.WorldChampion | src/App.tsx:173 | the champion is absent exactly when the season has no standing rows. Otherwise it has position 1 and shows the first season row, in dataset order, that has the most points: that row's driver, team, assets and points |
| Standings.ChampionShows | src/App.tsx:173 | the first standing shows the first season row, in dataset order, with the most points |
| Standings.ChampionRow | src/App.tsx:140 | the top row of the stable sort by points is the first row with the most points |
| LapTimes.AvgLapTime | src/App.tsx:162-164 | `baseTime * (1 + (Math.random() * 3 + 2) / 100)`; `LapTimes.AvgLapTimeBounds` states its range |
| LapTimes.AvgLapTimeBounds | src/App.tsx:162-164 | a draw in [0, 1) puts the average 2 to 5 percent above the record, and it is NaN exactly when the record is |
| LapTimes.ChartRaces | src/App.tsx:156-157 | the `filter` on season and `id_driver_win !== null`; `LapTimes.ChartedInTwoSteps` relates it to the charted races |
| LapTimes.ChartPoint | src/App.tsx:158-169 | the `.map` callback; `LapTimes.MapRacesPoints` and `LapTimes.LapTimesSpec` state that the k-th point shows the k-th charted race with the k-th draw |
| LapTimes.ChartedRacesMembers | src/App.tsx:156-160 | a race is charted exactly when it is of the season, has a recorded winner and a known circuit |
| LapTimes.ChartedInTwoSteps | src/App.tsx:157-160 | filtering on season and winner, then dropping races at unknown circuits, keeps exactly the charted races in order |
| LapTimes.MapRacesPoints | src/App.tsx:158-170 | the map and `filter(Boolean)` give one point per race at a known circuit, in order. Only those races draw a random number |
| LapTimes.SeasonLapTimes | src/App.tsx:155-171 | `lapTimes`; `LapTimes.LapTimesSpec` states what it holds |
| LapTimes.LapTimesSpec | src/App.tsx:155-171 | `lapTimes` has one point per charted race, in race order. The k-th shows the city of the k-th race's circuit and its record raised by the k-th draw |
| LapTimes.LapTimesInRange | src/App.tsx:162-168 | when every draw lies in [0, 1), every point lies 2 to 5 percent above its circuit's record |
| LapTimes.ZeroWinnerChartedNotCounted | src/App.tsx:118-157 | in any dataset, a season race won by driver id 0 at a known circuit is charted and has a lap-time point showing it, while driver 0 has no row in `wins`: `wins` tests truthiness, `lapTimes` only `null` |
| Engines.TeamsWithEngineMembers | src/App.tsx:183 | the reference group of an engine holds exactly the teams with that engine, as many as use it |
| Engines.GroupByEngine | src/App.tsx:182-185 | the reduce has one key per engine in use, in order of first use, each holding the teams with that engine in dataset order |
| Engines.EngineDistribution | src/App.tsx:182-185 | the grouping listed by `Object.entries` (src/App.tsx:267); `Engines.EngineGroups` and `Engines.EngineGroupsOrder` state what it holds |
| Engines.EngineGroups | src/App.tsx:182-185 | the listed groups are one per engine in use, none repeated, each equal to the reference group |
| Engines.EngineGroupsPartition | src/App.tsx:182-185 | every team is in the group of its own engine and in no other, and no group is empty |
| Engines.EngineGroupsCoverTeams | src/App.tsx:182-185 | the group sizes add up to the number of teams |
| Engines.EngineGroupsOrder | src/App.tsx:267 | `Object.entries` lists engines whose names are array indices first, ascending, then the rest in order of first use |

## Left out

- The React components, charts, routing and styling are not modelled. This includes `secondsToTime`, which only formats chart labels.
- The dataset module (`services/formula1Data`) and the asset tables are not part of this model. They become parameters.
- `teams_stands` is imported but never used by the modelled code, so its record type is not modelled.
- Ids are unbounded integers. A fractional or non-finite id is not modelled.
- A race id that is `undefined` is not modelled: the dataset declares these ids `number | null`. `lapTimes`' `!== null` test would keep such a race, while the model has only `null`.
- Standings: points are exact reals. NaN points are not modelled. With them `b.points - a.points` is NaN and the order `sort` gives is implementation-defined.
- TimeText.TimeToMillis: a three-field time with a field that is not all digits gives `None` here. `Number` may read such a field as NaN, as a fraction (`"1.5"`), or as a number written with spaces, a sign, an exponent or a `0x` prefix. `None` stands for all of these. Times are kept in whole milliseconds, and binary floating-point rounding is not modelled.
- LapTimes.AvgLapTimeBounds: lap times are exact reals. Floating-point rounding of `baseTime * (1 + ...)` is not modelled.
- `Math.random` becomes the parameter `random`. The range [0, 1) is assumed only where `LapTimes.LapTimesInRange` needs it.
- Engines.GroupByEngine: an engine named like a property of `Object.prototype` (`"constructor"`, `"__proto__"`, `"toString"`) makes `acc[e] || []` find the inherited property in the source, so the source throws or misgroups. The model treats every name as an own key.
- Object keys that are numeric strings: the engine grouping models them exactly. The driver tallies keep integer keys, which `JsObject.NumberKeyIndexAgrees`, `JsObject.NumberToKeyInjective` and `JsObject.NumberToKeyReadsBack` justify.
- `useMemo` caching is not modelled. Each value is a function of the season and the dataset.
