/** The per-driver rankings of `useSeasonData` (src/App.tsx): wins, fastest laps and podiums.

    Each one filters rows, tallies them per driver id in a plain object
    (`acc[id] = (acc[id] || 0) + 1`), lists the tally with `Object.entries`, names every
    id after the first driver carrying it, and sorts stably by count, descending. */
module Rankings {
  import opened Wrappers
  import opened Seqs
  import opened StableSort
  import opened JsObject
  import opened F1Types

  // ---- Tallying ids

  /** `d` tallies `ids`: one key per id that occurs, in order of first appearance,
      holding how often the id occurs. */
  ghost predicate IsTallyOf(d: Dict<int, nat>, ids: seq<int>) {
    && Valid(d)
    && (forall k :: k in d.values <==> k in ids)
    && (forall k :: k in d.values ==> d.values[k] == multiset(ids)[k])
    && InOrderOf(d.keys, ids)
  }

  /** The `counts` reduce: `acc[id] = (acc[id] || 0) + 1` for each id in turn. */
  function Tally(ids: seq<int>): (d: Dict<int, nat>)
    ensures IsTallyOf(d, ids)
  {
    if |ids| == 0 then Empty()
    else
      var init, k := ids[..|ids| - 1], ids[|ids| - 1];
      var acc := Tally(init);
      assert ids == init + [k];
      TallyStep(init, k, acc);
      Put(acc, k, Get(acc, k).ValueOr(0) + 1)
  }

  /** One more step of the reduce tallies one more id. */
  lemma TallyStep(init: seq<int>, k: int, acc: Dict<int, nat>)
    requires IsTallyOf(acc, init)
    ensures IsTallyOf(Put(acc, k, Get(acc, k).ValueOr(0) + 1), init + [k])
  {
    var d := Put(acc, k, Get(acc, k).ValueOr(0) + 1);
    TallyStepCounts(init, k, acc, d);
    PutKeepsFirstAppearance(init, k, acc, d);
  }

  /** Adding one more id bumps its count, or starts it at 1, and leaves the others. */
  lemma TallyStepCounts(init: seq<int>, k: int, acc: Dict<int, nat>, d: Dict<int, nat>)
    requires forall x :: x in acc.values <==> x in init
    requires forall x :: x in acc.values ==> acc.values[x] == multiset(init)[x]
    requires d.values == acc.values[k := Get(acc, k).ValueOr(0) + 1]
    ensures forall x :: x in d.values <==> x in init + [k]
    ensures forall x :: x in d.values ==> d.values[x] == multiset(init + [k])[x]
  {
    assert multiset(init + [k]) == multiset(init) + multiset{k};
    if k !in acc.values {
      assert multiset(init)[k] == 0;
    }
  }

  // ---- Ranking a tally

  /** One row of a ranking: driver id, driver name and count. */
  datatype DriverTally = DriverTally(id: int, name: string, count: nat)

  /** `drivers.find(d => d.id === id)?.name || ''`. */
  function DriverName(drivers: seq<Driver>, id: int): string {
    match FindDriver(drivers, id)
    case Some(d) => d.name
    case None => ""
  }

  function CountKey(e: DriverTally): real {
    e.count as real
  }

  /** `Object.entries(counts).map(([id, val]) => ({ id: Number(id), name, count: val }))`. */
  function Named(entries: seq<(int, nat)>, drivers: seq<Driver>): (r: seq<DriverTally>)
    ensures |r| == |entries|
    ensures forall i :: 0 <= i < |r| ==>
              r[i] == DriverTally(entries[i].0, DriverName(drivers, entries[i].0), entries[i].1)
  {
    seq(|entries|, i requires 0 <= i < |entries| =>
      DriverTally(entries[i].0, DriverName(drivers, entries[i].0), entries[i].1))
  }

  /** `Object.entries(counts)` with each id named: the rows before sorting. */
  function Listing(ids: seq<int>, drivers: seq<Driver>): seq<DriverTally> {
    Named(Entries(Tally(ids), NumberKeyIndex), drivers)
  }

  /** Tally `ids`, list the tally as `Object.entries` does, name each id and sort by count, descending. */
  function Ranking(ids: seq<int>, drivers: seq<Driver>): seq<DriverTally> {
    SortDesc(Listing(ids, drivers), CountKey)
  }

  /** Where `Object.entries` lists key `a` before key `b` in the tally of `ids`:
      array-index ids first, ascending, then the other ids in order of first appearance. */
  predicate EnumBefore(ids: seq<int>, a: int, b: int) {
    if IsArrayIndex(a) && IsArrayIndex(b) then a < b
    else if IsArrayIndex(a) || IsArrayIndex(b) then IsArrayIndex(a)
    else FirstIndex(ids, a) < FirstIndex(ids, b)
  }

  /** `EnumBefore` on the ids of two rows. */
  function EnumOrder(ids: seq<int>): (DriverTally, DriverTally) -> bool {
    (a: DriverTally, b: DriverTally) => EnumBefore(ids, a.id, b.id)
  }

  function IdsOf(r: seq<DriverTally>): (s: seq<int>)
    ensures |s| == |r| && forall i :: 0 <= i < |r| ==> s[i] == r[i].id
  {
    seq(|r|, i requires 0 <= i < |r| => r[i].id)
  }

  /** The listed ids are the tally's keys in enumeration order. */
  lemma ListingIds(ids: seq<int>, drivers: seq<Driver>)
    ensures IdsOf(Listing(ids, drivers)) == OwnKeys(Tally(ids).keys, NumberKeyIndex)
  {
  }

  /** One listed row per id that occurs, none repeated. */
  lemma ListingMembers(ids: seq<int>, drivers: seq<Driver>)
    ensures forall k :: k in ids <==> k in IdsOf(Listing(ids, drivers))
    ensures Distinct(IdsOf(Listing(ids, drivers)))
  {
    var t := Tally(ids);
    var ks := OwnKeys(t.keys, NumberKeyIndex);
    ListingIds(ids, drivers);
    forall k | k in ids ensures k in ks {
      assert k in multiset(t.keys);
    }
    forall k | k in ks ensures k in ids {
      assert k in multiset(ks);
    }
  }

  /** Each listed row carries the number of times its id occurs, and its driver's name. */
  lemma ListingCounts(ids: seq<int>, drivers: seq<Driver>)
    ensures var e := Listing(ids, drivers);
      forall i :: 0 <= i < |e| ==>
        e[i].count == multiset(ids)[e[i].id] && e[i].name == DriverName(drivers, e[i].id)
  {
  }

  /** Two keys of the tally, placed as `Object.entries` places them, are in `EnumBefore` order. */
  lemma EnumBeforePair(keys: seq<int>, ids: seq<int>, a: int, b: int)
    requires InOrderOf(keys, ids) && a in keys && b in keys && a != b
    requires IsArrayIndex(b) ==> IsArrayIndex(a) && a <= b
    requires !IsArrayIndex(a) && !IsArrayIndex(b) ==> FirstIndex(keys, a) < FirstIndex(keys, b)
    ensures EnumBefore(ids, a, b)
  {
    if !IsArrayIndex(a) && !IsArrayIndex(b) {
      var p, q := FirstIndex(keys, a), FirstIndex(keys, b);
      assert keys[p] == a && keys[q] == b;
    }
  }

  /** The rows are listed in enumeration order. */
  lemma ListingOrder(ids: seq<int>, drivers: seq<Driver>)
    ensures Chain(Listing(ids, drivers), EnumOrder(ids))
  {
    var keys := Tally(ids).keys;
    var ks := OwnKeys(keys, NumberKeyIndex);
    var e := Listing(ids, drivers);
    ListingIds(ids, drivers);
    OwnKeysIndexFirst(keys, NumberKeyIndex);
    OwnKeysPlainInOrder(keys, NumberKeyIndex);
    forall i, j | 0 <= i < j < |e| ensures EnumBefore(ids, e[i].id, e[j].id) {
      assert IdsOf(e)[i] == ks[i] && IdsOf(e)[j] == ks[j];
      assert ks[i] in multiset(keys) && ks[j] in multiset(keys);
      EnumBeforePair(keys, ids, ks[i], ks[j]);
    }
  }

  /** Rows with distinct ids are distinct rows. */
  lemma DistinctRows(e: seq<DriverTally>)
    requires Distinct(IdsOf(e))
    ensures Distinct(e)
  {
    forall i, j | 0 <= i < j < |e| ensures e[i] != e[j] {
      assert IdsOf(e)[i] != IdsOf(e)[j];
    }
  }

  /** Sorting keeps the rows: each ranked row is a listed row and the other way round. */
  lemma RankingSameRows(ids: seq<int>, drivers: seq<Driver>)
    ensures var e, r := Listing(ids, drivers), Ranking(ids, drivers);
      && (forall i :: 0 <= i < |r| ==> r[i] in e)
      && (forall i :: 0 <= i < |e| ==> e[i] in r)
      && Distinct(r)
  {
    var e, r := Listing(ids, drivers), Ranking(ids, drivers);
    assert multiset(r) == multiset(e);
    ListingMembers(ids, drivers);
    DistinctRows(e);
    DistinctPermutation(e, r);
    forall i | 0 <= i < |r| ensures r[i] in e {
      assert r[i] in multiset(e);
    }
    forall i | 0 <= i < |e| ensures e[i] in r {
      assert e[i] in multiset(r);
    }
  }

  /** Rows drawn from a listing with distinct ids, none repeated, have distinct ids. */
  lemma DistinctIdsOfSubset(e: seq<DriverTally>, r: seq<DriverTally>)
    requires Distinct(IdsOf(e)) && Distinct(r)
    requires forall i :: 0 <= i < |r| ==> r[i] in e
    ensures Distinct(IdsOf(r))
  {
    forall i, j | 0 <= i < j < |r| ensures IdsOf(r)[i] != IdsOf(r)[j] {
      var p :| 0 <= p < |e| && e[p] == r[i];
      var q :| 0 <= q < |e| && e[q] == r[j];
      assert p != q;
      assert IdsOf(e)[p] != IdsOf(e)[q];
    }
  }

  /** Rows that are the same up to order carry the same ids. */
  lemma SameIds(e: seq<DriverTally>, r: seq<DriverTally>)
    requires forall i :: 0 <= i < |r| ==> r[i] in e
    requires forall i :: 0 <= i < |e| ==> e[i] in r
    ensures forall k :: k in IdsOf(e) <==> k in IdsOf(r)
  {
    forall k | k in IdsOf(e) ensures k in IdsOf(r) {
      var p :| 0 <= p < |e| && IdsOf(e)[p] == k;
      var q :| 0 <= q < |r| && r[q] == e[p];
      assert IdsOf(r)[q] == k;
    }
    forall k | k in IdsOf(r) ensures k in IdsOf(e) {
      var q :| 0 <= q < |r| && IdsOf(r)[q] == k;
      var p :| 0 <= p < |e| && e[p] == r[q];
      assert IdsOf(e)[p] == k;
    }
  }

  /** The ranking holds one row per id that occurs, none repeated. */
  lemma RankingMembers(ids: seq<int>, drivers: seq<Driver>)
    ensures var r := Ranking(ids, drivers);
      && (forall k :: k in ids <==> k in IdsOf(r))
      && Distinct(IdsOf(r))
      && (forall i :: 0 <= i < |r| ==> r[i] in Listing(ids, drivers))
  {
    var e, r := Listing(ids, drivers), Ranking(ids, drivers);
    ListingMembers(ids, drivers);
    RankingSameRows(ids, drivers);
    DistinctIdsOfSubset(e, r);
    SameIds(e, r);
  }

  /** Row `row` is named after the first driver with its id, or "" when no driver has it. */
  ghost predicate NamedAfter(drivers: seq<Driver>, row: DriverTally) {
    && (FindDriver(drivers, row.id).Some? ==> row.name == FindDriver(drivers, row.id).value.name)
    && (FindDriver(drivers, row.id).None? ==> row.name == "")
  }

  /** Row `a` belongs above row `b`: a higher count, or the same count and `a` enumerated first. */
  predicate RanksBefore(ids: seq<int>, a: DriverTally, b: DriverTally) {
    a.count > b.count || (a.count == b.count && EnumBefore(ids, a.id, b.id))
  }

  /** `r` ranks the ids in `ids`: one row per id that occurs, none repeated, with the number of
      times it occurs and its driver's name, in descending count order with ties in
      enumeration order. */
  ghost predicate IsRankingOf(r: seq<DriverTally>, ids: seq<int>, drivers: seq<Driver>) {
    && (forall k :: k in ids <==> k in IdsOf(r))
    && Distinct(IdsOf(r))
    && (forall i :: 0 <= i < |r| ==> r[i].count == multiset(ids)[r[i].id])
    && (forall i :: 0 <= i < |r| ==> NamedAfter(drivers, r[i]))
    && (forall i, j :: 0 <= i < j < |r| ==> RanksBefore(ids, r[i], r[j]))
  }

  lemma RankingRows(ids: seq<int>, drivers: seq<Driver>)
    ensures var r := Ranking(ids, drivers);
      && (forall k :: k in ids <==> k in IdsOf(r))
      && Distinct(IdsOf(r))
      && (forall i :: 0 <= i < |r| ==> r[i].count == multiset(ids)[r[i].id])
      && (forall i :: 0 <= i < |r| ==> NamedAfter(drivers, r[i]))
  {
    RankingMembers(ids, drivers);
    ListingCounts(ids, drivers);
    RowsFromListing(Listing(ids, drivers), Ranking(ids, drivers), ids, drivers);
  }

  /** Rows taken from a listing keep its counts and names. */
  lemma RowsFromListing(e: seq<DriverTally>, r: seq<DriverTally>, ids: seq<int>, drivers: seq<Driver>)
    requires forall i :: 0 <= i < |r| ==> r[i] in e
    requires forall i :: 0 <= i < |e| ==>
               e[i].count == multiset(ids)[e[i].id] && e[i].name == DriverName(drivers, e[i].id)
    ensures forall i :: 0 <= i < |r| ==> r[i].count == multiset(ids)[r[i].id] && NamedAfter(drivers, r[i])
  {
    forall i | 0 <= i < |r| ensures r[i].count == multiset(ids)[r[i].id] && NamedAfter(drivers, r[i]) {
      var p :| 0 <= p < |e| && e[p] == r[i];
    }
  }

  lemma RankingOrder(ids: seq<int>, drivers: seq<Driver>)
    ensures var r := Ranking(ids, drivers);
      forall i, j :: 0 <= i < j < |r| ==> RanksBefore(ids, r[i], r[j])
  {
    ListingOrder(ids, drivers);
    SortBreaksTiesByInputOrder(Listing(ids, drivers), CountKey, EnumOrder(ids));
  }

  /** What the three rankings share: the tally, named and sorted stably by count. */
  lemma RankingSpec(ids: seq<int>, drivers: seq<Driver>)
    ensures IsRankingOf(Ranking(ids, drivers), ids, drivers)
  {
    RankingRows(ids, drivers);
    RankingOrder(ids, drivers);
  }

  function CountOf(e: DriverTally): nat {
    e.count
  }

  /** The counts of a ranking, added up. */
  function TotalCount(r: seq<DriverTally>): nat {
    SumOf(r, CountOf)
  }

  /** The counts of a ranking add up to the number of ids ranked. */
  lemma RankedTotal(r: seq<DriverTally>, ids: seq<int>, drivers: seq<Driver>)
    requires IsRankingOf(r, ids, drivers)
    ensures TotalCount(r) == |ids|
  {
    SumOfCounts(r, IdsOf(r), CountOf, ids);
    assert forall x :: x in ids ==> x in IdsOf(r);
    SumCountsCovers(IdsOf(r), ids);
  }

  // ---- Wins and fastest laps

  /** JavaScript truthiness of a nullable id: `null` and 0 are false. */
  predicate Truthy(v: Option<int>) {
    v.Some? && v.value != 0
  }

  datatype Award = Win | FastestLap

  /** `r.id_driver_win` or `r.id_driver_fastlap`. */
  function Holder(r: Race, a: Award): Option<int> {
    match a
    case Win => r.idDriverWin
    case FastestLap => r.idDriverFastlap
  }

  /** The holders of `races.filter(r => r.id_season === season && <holder>)`, in race order. */
  function AwardIds(season: int, races: seq<Race>, a: Award): (ids: seq<int>)
    ensures forall k :: k in ids ==> k != 0
  {
    if |races| == 0 then []
    else
      var r := races[0];
      (if r.idSeason == season && Truthy(Holder(r, a)) then [Holder(r, a).value] else [])
        + AwardIds(season, races[1..], a)
  }

  /** How many races of the season have a truthy holder of the award. */
  function AwardedRaces(season: int, races: seq<Race>, a: Award): nat {
    Count(races, (r: Race) => r.idSeason == season && Truthy(Holder(r, a)))
  }

  /** How many races of the season have driver `k` as holder of the award. */
  function AwardsOf(season: int, races: seq<Race>, a: Award, k: int): nat {
    Count(races, (r: Race) => r.idSeason == season && Holder(r, a) == Some(k))
  }

  /** Each driver is counted once per race of the season they hold the award in. */
  lemma {:induction false} AwardIdsCount(season: int, races: seq<Race>, a: Award)
    ensures |AwardIds(season, races, a)| == AwardedRaces(season, races, a)
    ensures forall k :: k != 0 ==> multiset(AwardIds(season, races, a))[k] == AwardsOf(season, races, a, k)
  {
    if |races| > 0 {
      AwardIdsCount(season, races[1..], a);
    }
  }

  /** `wins`: the season's winners ranked by number of wins. */
  function Wins(season: int, races: seq<Race>, drivers: seq<Driver>): seq<DriverTally> {
    Ranking(AwardIds(season, races, Win), drivers)
  }

  /** `fastestLaps`: the season's fastest-lap holders ranked by number of fastest laps. */
  function FastestLaps(season: int, races: seq<Race>, drivers: seq<Driver>): seq<DriverTally> {
    Ranking(AwardIds(season, races, FastestLap), drivers)
  }

  /** `r` ranks the holders of award `a` in the season: one row per driver holding it in some
      race of the season, none repeated, with the number of such races and the driver's name,
      by descending count with ties in enumeration order; the counts add up to the races of the
      season with a truthy holder. */
  ghost predicate RanksAwards(r: seq<DriverTally>, season: int, races: seq<Race>, drivers: seq<Driver>, a: Award) {
    && (forall k :: k != 0 && AwardsOf(season, races, a, k) > 0 <==> k in IdsOf(r))
    && Distinct(IdsOf(r))
    && (forall i :: 0 <= i < |r| ==> r[i].count == AwardsOf(season, races, a, r[i].id))
    && (forall i :: 0 <= i < |r| ==> NamedAfter(drivers, r[i]))
    && (forall i, j :: 0 <= i < j < |r| ==> RanksBefore(AwardIds(season, races, a), r[i], r[j]))
    && TotalCount(r) == AwardedRaces(season, races, a)
  }

  lemma AwardRanking(r: seq<DriverTally>, season: int, races: seq<Race>, drivers: seq<Driver>, a: Award)
    requires IsRankingOf(r, AwardIds(season, races, a), drivers)
    ensures RanksAwards(r, season, races, drivers, a)
  {
    var ids := AwardIds(season, races, a);
    AwardIdsCount(season, races, a);
    RankedTotal(r, ids, drivers);
    forall k | k != 0 && AwardsOf(season, races, a, k) > 0 ensures k in IdsOf(r) {
      assert k in multiset(ids);
    }
  }

  lemma WinsRanking(season: int, races: seq<Race>, drivers: seq<Driver>)
    ensures RanksAwards(Wins(season, races, drivers), season, races, drivers, Win)
  {
    RankingSpec(AwardIds(season, races, Win), drivers);
    AwardRanking(Wins(season, races, drivers), season, races, drivers, Win);
  }

  lemma FastestLapsRanking(season: int, races: seq<Race>, drivers: seq<Driver>)
    ensures RanksAwards(FastestLaps(season, races, drivers), season, races, drivers, FastestLap)
  {
    RankingSpec(AwardIds(season, races, FastestLap), drivers);
    AwardRanking(FastestLaps(season, races, drivers), season, races, drivers, FastestLap);
  }

  // ---- Podiums

  /** `['1', '2', '3'].includes(end_pos)`: an exact match on the text. */
  predicate IsPodiumPosition(endPos: string) {
    endPos == "1" || endPos == "2" || endPos == "3"
  }

  /** Race `raceId` is one of the season's races. */
  predicate InSeason(season: int, races: seq<Race>, raceId: int) {
    exists j :: 0 <= j < |races| && races[j].idSeason == season && races[j].id == raceId
  }

  /** `seasonRaceIds`: the ids of the season's races. */
  function SeasonRaceIds(season: int, races: seq<Race>): (ids: set<int>)
    ensures forall id :: id in ids <==> InSeason(season, races, id)
  {
    set i | 0 <= i < |races| && races[i].idSeason == season :: races[i].id
  }

  /** The drivers of the podium rows whose race is in `raceIds`, in row order. */
  function PodiumIds(raceIds: set<int>, details: seq<RaceDetail>): seq<int> {
    if |details| == 0 then []
    else
      var d := details[0];
      (if d.idRace in raceIds && IsPodiumPosition(d.endPos) then [d.idDriver] else [])
        + PodiumIds(raceIds, details[1..])
  }

  /** How many rows put driver `k` on the podium of a race of the season. */
  function PodiumFinishes(season: int, races: seq<Race>, details: seq<RaceDetail>, k: int): nat {
    Count(details, (d: RaceDetail) =>
      d.idDriver == k && IsPodiumPosition(d.endPos) && InSeason(season, races, d.idRace))
  }

  lemma {:induction false} PodiumIdsCount(season: int, races: seq<Race>, details: seq<RaceDetail>, k: int)
    ensures multiset(PodiumIds(SeasonRaceIds(season, races), details))[k] == PodiumFinishes(season, races, details, k)
  {
    if |details| > 0 {
      PodiumIdsCount(season, races, details[1..], k);
    }
  }

  /** The podium ranking before the chart keeps its top. */
  function PodiumRanking(season: int, races: seq<Race>, details: seq<RaceDetail>, drivers: seq<Driver>): seq<DriverTally> {
    Ranking(PodiumIds(SeasonRaceIds(season, races), details), drivers)
  }

  /** The podium ranking holds one row per driver with a podium finish in a race of the
      season, none repeated, carrying the number of those finishes. */
  lemma PodiumRankingRows(season: int, races: seq<Race>, details: seq<RaceDetail>, drivers: seq<Driver>)
    ensures var r := PodiumRanking(season, races, details, drivers);
      && (forall k :: k in IdsOf(r) <==> PodiumFinishes(season, races, details, k) > 0)
      && Distinct(IdsOf(r))
      && (forall i :: 0 <= i < |r| ==> r[i].count == PodiumFinishes(season, races, details, r[i].id))
  {
    var ids := PodiumIds(SeasonRaceIds(season, races), details);
    RankingSpec(ids, drivers);
    PodiumCounts(PodiumRanking(season, races, details, drivers), season, races, details, drivers);
  }

  lemma PodiumCounts(r: seq<DriverTally>, season: int, races: seq<Race>, details: seq<RaceDetail>, drivers: seq<Driver>)
    requires IsRankingOf(r, PodiumIds(SeasonRaceIds(season, races), details), drivers)
    ensures forall k :: k in IdsOf(r) <==> PodiumFinishes(season, races, details, k) > 0
    ensures forall i :: 0 <= i < |r| ==> r[i].count == PodiumFinishes(season, races, details, r[i].id)
  {
    var ids := PodiumIds(SeasonRaceIds(season, races), details);
    forall k ensures k in IdsOf(r) <==> PodiumFinishes(season, races, details, k) > 0 {
      PodiumIdsCount(season, races, details, k);
      assert k in ids <==> k in multiset(ids);
    }
    forall i | 0 <= i < |r| ensures r[i].count == PodiumFinishes(season, races, details, r[i].id) {
      PodiumIdsCount(season, races, details, r[i].id);
    }
  }

  /** One bar of the podium chart: `subject` is the driver's name. */
  datatype PodiumEntry = PodiumEntry(subject: string, podiums: nat)

  /** `.slice(0, 5)`: the chart shows at most five drivers. */
  const PodiumSlots: nat := 5

  /** `.map(... => ({ subject, podiums })) ... .slice(0, 5)` on a ranking. */
  function TopRows(r: seq<DriverTally>): seq<PodiumEntry> {
    var n := if |r| < PodiumSlots then |r| else PodiumSlots;
    seq(n, i requires 0 <= i < n => PodiumEntry(r[i].name, r[i].count))
  }

  /** `podiums`: the top of the podium ranking, as chart bars. */
  function Podiums(season: int, races: seq<Race>, details: seq<RaceDetail>, drivers: seq<Driver>): seq<PodiumEntry> {
    TopRows(PodiumRanking(season, races, details, drivers))
  }

  /** The chart bars of a podium ranking: at most five, the first rows of the ranking, each
      driver's count of podium finishes in the season's races, non-increasing, and no driver
      left out has more than the last bar. */
  ghost predicate ChartsPodiums(p: seq<PodiumEntry>, ranked: seq<DriverTally>, season: int, races: seq<Race>, details: seq<RaceDetail>) {
    && |p| <= PodiumSlots
    && |p| == (if |ranked| < PodiumSlots then |ranked| else PodiumSlots)
    && (forall i :: 0 <= i < |p| ==>
          p[i].subject == ranked[i].name &&
          p[i].podiums == PodiumFinishes(season, races, details, ranked[i].id))
    && (forall i, j :: 0 <= i < j < |p| ==> p[i].podiums >= p[j].podiums)
    && (forall j :: |p| <= j < |ranked| ==> ranked[j].count <= p[|p| - 1].podiums)
  }

  lemma TopRowsOfPodiumRanking(r: seq<DriverTally>, season: int, races: seq<Race>, details: seq<RaceDetail>, drivers: seq<Driver>)
    requires IsRankingOf(r, PodiumIds(SeasonRaceIds(season, races), details), drivers)
    ensures ChartsPodiums(TopRows(r), r, season, races, details)
  {
    var p := TopRows(r);
    forall i | 0 <= i < |r| ensures r[i].count == PodiumFinishes(season, races, details, r[i].id) {
      PodiumIdsCount(season, races, details, r[i].id);
    }
    forall i, j | 0 <= i < j < |p| ensures p[i].podiums >= p[j].podiums {
      assert RanksBefore(PodiumIds(SeasonRaceIds(season, races), details), r[i], r[j]);
    }
    forall j | |p| <= j < |r| ensures r[j].count <= p[|p| - 1].podiums {
      assert RanksBefore(PodiumIds(SeasonRaceIds(season, races), details), r[|p| - 1], r[j]);
    }
  }

  lemma PodiumsTopFive(season: int, races: seq<Race>, details: seq<RaceDetail>, drivers: seq<Driver>)
    ensures ChartsPodiums(Podiums(season, races, details, drivers), PodiumRanking(season, races, details, drivers),
                          season, races, details)
  {
    RankingSpec(PodiumIds(SeasonRaceIds(season, races), details), drivers);
    TopRowsOfPodiumRanking(PodiumRanking(season, races, details, drivers), season, races, details, drivers);
  }
}
