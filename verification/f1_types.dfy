/** The records of the static Formula 1 dataset (src/types.ts). Ids are integers and
    nullable ids are `Option<int>`; the dataset itself is passed to every operation. */
module F1Types {
  import opened Wrappers
  import opened Seqs

  datatype Team = Team(id: int, name: string, country: string, engine: string)

  datatype Driver = Driver(id: int, name: string, boardName: string, number: string,
                           country: string, dateBorn: string)

  /** `length` is the track length in metres; `wrTime` the lap record as text. */
  datatype Circuit = Circuit(id: int, name: string, city: string, country: string,
                             laps: int, length: int, wrTime: string)

  datatype DriverStand = DriverStand(id: int, idSeason: int, idDriver: int, idDriverTeam: int,
                                     points: real)

  datatype Race = Race(id: int, idSeason: int, idCircuit: int, dateRace: string,
                       idDriverWin: Option<int>, idDriverPole: Option<int>,
                       idDriverFastlap: Option<int>)

  /** `endPos` is text: finishers carry their position, the others a non-numeric marker. */
  datatype RaceDetail = RaceDetail(idRace: int, idDriver: int, idDriverTeam: int,
                                   startPos: string, endPos: string)

  function DriverId(d: Driver): int { d.id }
  function TeamId(t: Team): int { t.id }
  function CircuitId(c: Circuit): int { c.id }

  /** `drivers.find(d => d.id === id)`: the first driver with that id. */
  function FindDriver(drivers: seq<Driver>, id: int): (r: Option<Driver>)
    ensures r.None? <==> id !in Project(drivers, DriverId)
    ensures r.Some? ==> FirstIndex(Project(drivers, DriverId), id) < |drivers| &&
                        r.value == drivers[FirstIndex(Project(drivers, DriverId), id)]
  {
    FindBy(drivers, DriverId, id)
  }

  /** `teams.find(t => t.id === id)`: the first team with that id. */
  function FindTeam(teams: seq<Team>, id: int): (r: Option<Team>)
    ensures r.None? <==> id !in Project(teams, TeamId)
    ensures r.Some? ==> FirstIndex(Project(teams, TeamId), id) < |teams| &&
                        r.value == teams[FirstIndex(Project(teams, TeamId), id)]
  {
    FindBy(teams, TeamId, id)
  }

  /** `circuits.find(c => c.id === id)`: the first circuit with that id. */
  function FindCircuit(circuits: seq<Circuit>, id: int): (r: Option<Circuit>)
    ensures r.None? <==> id !in Project(circuits, CircuitId)
    ensures r.Some? ==> FirstIndex(Project(circuits, CircuitId), id) < |circuits| &&
                        r.value == circuits[FirstIndex(Project(circuits, CircuitId), id)]
  {
    FindBy(circuits, CircuitId, id)
  }
}
