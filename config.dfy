/** The parts of the world configuration that the modelled code reads, as plain
    values. Identifiers of biomes are kept as their UTF-8 bytes, because the
    palette hashes them byte by byte. Floating-point quantities are `real`: they
    are only ever copied here. */
module SeedConfig {
  import opened Base

  datatype BiomeConfig = BiomeConfig(id: seq<u8>, displayName: string)

  datatype PlanetConfig = PlanetConfig(
    id: string,
    name: string,
    radiusKm: real,
    massEarths: real,
    gravityMs2: real,
    dayLengthHours: real,
    yearLengthDays: real,
    axialTiltDegrees: real)

  datatype StarSystemConfig = StarSystemConfig(planets: seq<PlanetConfig>, activePlanetId: string)

  datatype CosmosConfig = CosmosConfig(starSystem: StarSystemConfig)

  datatype MetaConfig = MetaConfig(name: string, description: string, author: string)

  datatype WorldConfig = WorldConfig(
    worldId: string,
    meta: MetaConfig,
    cosmos: CosmosConfig,
    biomes: seq<BiomeConfig>)
}
