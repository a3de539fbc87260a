/** The world model built from a configuration: the world's identity and the
    active planet of its star system. */
module SeedCore {
  import opened Base
  import opened SeedConfig

  /** `CoreError::Config`: a configuration that cannot be turned into a world. */
  datatype CoreError = Config(message: string)

  datatype Planet = Planet(
    id: string,
    name: string,
    radiusKm: real,
    gravityMs2: real,
    dayLengthHours: real,
    yearLengthDays: real)

  datatype Cosmos = Cosmos(activePlanet: Planet)

  datatype World = World(id: string, name: string, cosmos: Cosmos)

  /** The first planet of `planets` whose id is `id`, as the iterator's `find`
      returns it. */
  function FindPlanet(planets: seq<PlanetConfig>, id: string): (r: Option<nat>)
    ensures r.Some? ==> r.value < |planets| && planets[r.value].id == id
    ensures r.Some? ==> forall j :: 0 <= j < r.value ==> planets[j].id != id
    ensures r.None? <==> forall j :: 0 <= j < |planets| ==> planets[j].id != id
  {
    if |planets| == 0 then None
    else if planets[0].id == id then Some(0)
    else
      match FindPlanet(planets[1..], id)
      case None => None
      case Some(j) => Some(j + 1)
  }

  /** The world's copy of a planet's configuration: identity and the physical
      quantities the world keeps; mass and axial tilt are dropped. */
  function PlanetOf(p: PlanetConfig): (r: Planet)
    ensures r.id == p.id && r.name == p.name
    ensures r.radiusKm == p.radiusKm && r.gravityMs2 == p.gravityMs2
    ensures r.dayLengthHours == p.dayLengthHours && r.yearLengthDays == p.yearLengthDays
  {
    Planet(p.id, p.name, p.radiusKm, p.gravityMs2, p.dayLengthHours, p.yearLengthDays)
  }

  /** The message of the error for a missing active planet. */
  function MissingPlanet(id: string): string
  {
    "Active planet '" + id + "' not found"
  }

  /** `Cosmos::from_config`: the cosmos whose active planet is the first
      planet carrying the configured active id, or a configuration error
      naming that id when no planet carries it. */
  function CosmosFromConfig(cfg: CosmosConfig): (r: Result<Cosmos, CoreError>)
    ensures r.Err? <==> forall j :: 0 <= j < |cfg.starSystem.planets| ==> cfg.starSystem.planets[j].id != cfg.starSystem.activePlanetId
    ensures r.Err? ==> r.error == Config(MissingPlanet(cfg.starSystem.activePlanetId))
    ensures r.Ok? ==> r.value.activePlanet.id == cfg.starSystem.activePlanetId
    ensures r.Ok? ==> exists j :: (
      && 0 <= j < |cfg.starSystem.planets|
      && (forall i :: 0 <= i < j ==> cfg.starSystem.planets[i].id != cfg.starSystem.activePlanetId)
      && r.value.activePlanet == PlanetOf(cfg.starSystem.planets[j]))
  {
    var activeId := cfg.starSystem.activePlanetId;
    match FindPlanet(cfg.starSystem.planets, activeId)
    case None => Err(Config(MissingPlanet(activeId)))
    case Some(j) => Ok(Cosmos(PlanetOf(cfg.starSystem.planets[j])))
  }

  /** `World::from_config`: the error of the cosmos is passed on unchanged;
      otherwise the world carries the configured id and display name. */
  function WorldFromConfig(cfg: WorldConfig): (r: Result<World, CoreError>)
    ensures r.Err? <==> CosmosFromConfig(cfg.cosmos).Err?
    ensures r.Err? ==> r.error == CosmosFromConfig(cfg.cosmos).error
    ensures r.Ok? ==> r.value == World(cfg.worldId, cfg.meta.name, CosmosFromConfig(cfg.cosmos).value)
  {
    match CosmosFromConfig(cfg.cosmos)
    case Err(e) => Err(e)
    case Ok(cosmos) => Ok(World(cfg.worldId, cfg.meta.name, cosmos))
  }

  /** The active planet is found whatever other planets are listed after it:
      only the first match matters. */
  lemma {:induction false} FindPlanetPrefix(planets: seq<PlanetConfig>, more: seq<PlanetConfig>, id: string)
    requires FindPlanet(planets, id).Some?
    ensures FindPlanet(planets + more, id) == FindPlanet(planets, id)
  {
    if planets[0].id != id {
      assert (planets + more)[1..] == planets[1..] + more;
      FindPlanetPrefix(planets[1..], more, id);
    }
  }
}
