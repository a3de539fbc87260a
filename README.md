# project-seed core, modelled in Dafny

project-seed generates worlds from a seed configuration. A core library
builds the world and its active planet, a heightmap, and a biome map. The
heightmap carries D8 flow accumulation. The biome map is smoothed by a modal
filter. Three programs sit on top of it:

- a command-line tool that saves the maps as images, coloured by a biome
  palette;
- a WebAssembly export of the generated world;
- a server with two WebSocket endpoints:
  - `/relay` pairs one host with any number of clients in a room, and routes
    their frames by role. The room is named by a code the host chooses, or by
    a generated six-character code;
  - `/ws` keeps a registry of the players of one shared world and sends a
    world snapshot after every update.

This project models the parts of these programs that are bookkeeping,
integer grid algorithms and pure functions. It proves what they promise.

| file | module | what it models |
|---|---|---|
| base.dfy | `Base` | `Option`, `Result`, byte and 32-bit words with wrapping arithmetic, RGB triples |
| grid.dfy | `Grid` | row-major addressing `y * width + x`, the 3x3 neighbourhood scan |
| config.dfy | `SeedConfig` | the configuration fields the core reads |
| core.dfy | `SeedCore` | `World::from_config`, `Cosmos::from_config` |
| biome.dfy | `Biome` | `BiomeMap` (class over an array of `Option<u8>`), `smooth_biome_map`, `find_biome_index` |
| drainage.dfy | `Drainage` | the drainage graph of a downslope vector: paths, upstream trees, their sizes |
| terrain.dfy | `Terrain` | `Heightmap::index`/`get`, `compute_flow_accumulation` |
| cli.dfy | `SeedCli` | `simple_hash`, `build_biome_palette`, the pixel loop of `save_biome_map_to_png`, the steps of `main` and its early exits |
| wasm.dfy | `SeedWasm` | `SeedWorld` getters, `biome_indices`, the second palette and hash, the buffer layout of `build_worldview_rgba` |
| channels.dfy | `Channels` | per-connection outgoing channels, modelled as outboxes, and the fan-out loop |
| relay.dfy | `Relay` | the `/relay` room table (`RelayState`) with one method per event |
| players.dfy | `Players` | the `/ws` player registry (`WorldState`) with one method per event |

Modelling choices:

- Heights and the sea level are integers, because only their order matters.
  Flow is a natural-number count until it is normalised. The normalisation
  divides over reals.
- Rust's unstable sort of the cells by height is modelled as any order that
  lists every cell once, highest first. `Accumulate` is proved for every
  such order, so how ties are broken does not matter.
- Every connection's channel is an outbox, a sequence of the messages sent
  on it. Connections are numbered in the order they are opened. Each event
  (connect, frame, disconnect) is one atomic method on the shared state,
  because the code mutates the shared maps only while it holds the mutex.
- The random room-code generator is a supplied function `draw`. The clock
  reading and the random `u32` of a player id are supplied parameters.
- The relay follows the code of `crates/seed-server/src/main.rs`. The
  protocol the repository describes also mentions:
  - frame batching and latest-wins coalescing;
  - per-recipient backlog skipping;
  - chunked transfers;
  - heartbeats and a liveness sweep.

  This code has none of these. It forwards every frame at once and never
  parses text. A new host replaces the old one without closing it. The model
  does the same.

## Model

| member | source | states |
|---|---|---|
| Relay.RoleOf | crates/seed-server/src/main.rs:335-343 | a connection is host exactly when its role parameter is "host" in any mix of cases; anything else is a client |
| Relay.GenerateRoomCode | crates/seed-server/src/main.rs:513-523 | a generated code has exactly 6 characters, each from A-Z0-9 |
| Relay.EveryCodeGenerable | crates/seed-server/src/main.rs:513-523 | every 6-character code over A-Z0-9 is produced by some sequence of draws |
| Relay.PlayerIdInjective | crates/seed-server/src/main.rs:399-403 | two player ids `player_<millis>_<nonce>` are equal exactly when their millisecond readings and random numbers are equal |
| Relay.WithHost | crates/seed-server/src/main.rs:343-356 | a host registration creates the room with no clients when it is missing, sets the host unconditionally, keeps the room's clients and leaves every other room unchanged |
| Relay.Admission | crates/seed-server/src/main.rs:364-397 | a client is admitted exactly when it names a code whose room exists and has a host; with no code the error is "Room code required", otherwise "Room not found or host offline" |
| Relay.WithClient | crates/seed-server/src/main.rs:406-407 | a join files the client's channel under its player id (one more client for a new id), keeps the host and leaves other rooms unchanged |
| Relay.Tidy | crates/seed-server/src/main.rs:503-505 | a room stays in the table exactly when it has a host or a client; no other room is touched |
| Relay.AfterHostLeaves | crates/seed-server/src/main.rs:481-505 | after a host disconnect the room has no host (even if a newer host had taken over), keeps its clients, and disappears exactly when it has none; other rooms unchanged |
| Relay.AfterClientLeaves | crates/seed-server/src/main.rs:490-505 | after a client disconnect only that client's entry is gone; the room disappears exactly when it is left without host and clients; other rooms unchanged |
| Relay.JoinLeaveRoundTrip | crates/seed-server/src/main.rs:490-505 | a client with a fresh id that joins an admitting room and leaves again restores the room table exactly |
| Relay.HostReconnectKeepsClients | crates/seed-server/src/main.rs:343-356 | a host that leaves and registers again under the same code finds the room's clients still there |
| Relay.TidyValid | crates/seed-server/src/main.rs:503-505 | the clean-up keeps every room valid: open channels, distinct client channels apart from the host's, and a host or a client |
| Relay.WithHostValid | crates/seed-server/src/main.rs:343-356 | a host registration on a channel in no room keeps the room table valid |
| Relay.WithClientValid | crates/seed-server/src/main.rs:399-407 | an admitted client on a channel in no room keeps the room table valid |
| Relay.HostFrameOnce | crates/seed-server/src/main.rs:433-446 | in a valid room a host's frame reaches every client exactly once, never the host and no connection outside the room |
| Relay.RelayState.constructor | crates/seed-server/src/main.rs:40-49 | the relay starts with no rooms and no connections |
| Relay.RelayState.Open | crates/seed-server/src/main.rs:323-324 | a new connection gets the next channel, with an empty outbox; the rooms stay valid |
| Relay.RelayState.RegisterHost | crates/seed-server/src/main.rs:343-363 | the host's code is the one it named or a generated one; the room table becomes `WithHost` and the host alone is sent `room_created` with the code |
| Relay.RelayState.RegisterClient | crates/seed-server/src/main.rs:364-425 | a refused client gets exactly one error and the table is unchanged; an admitted one is filed, sent `joined_room` with code and id, and the host is sent `player_joined` with the new client count |
| Relay.RelayState.Connect | crates/seed-server/src/main.rs:319-425 | a connection opens its channel and registers as host or client according to its role parameter, with the outcomes above |
| Relay.RelayState.Binary | crates/seed-server/src/main.rs:433-446 | a host's binary frame goes to every client of its room; a client's binary frame is dropped; the rooms never change |
| Relay.RelayState.Text | crates/seed-server/src/main.rs:447-468 | a host's text goes to every client of its room; a client's text goes only to the room's host, when there is one |
| Relay.RelayState.Disconnect | crates/seed-server/src/main.rs:476-508 | a host's departure sends `host_disconnected` to every client and detaches the host; a client's departure removes it and sends `player_left` with the remaining count to the host; empty rooms are removed |
| Channels.Broadcast | crates/seed-server/src/main.rs:291-304 | the loop over a registration map sends the message once per registered key, whatever order the keys are visited in, and changes no other outbox |
| Channels.FanOutOnce | crates/seed-server/src/main.rs:437-441 | when no channel is registered twice, every registered channel gets exactly one copy and the others none |
| Players.Enrol | crates/seed-server/src/main.rs:203-211 | a join adds an unknown id at the origin with the role asked for; a known player's state, its role included, is kept |
| Players.Moved | crates/seed-server/src/main.rs:229-233 | an input moves a known player by the offsets and no other player; an unknown id changes nothing |
| Players.Posed | crates/seed-server/src/main.rs:250-253 | a pose replaces a known player's head position and orientation and nothing else; an unknown id changes nothing |
| Players.SnapshotExact | crates/seed-server/src/main.rs:291-297 | a snapshot lists a player state exactly when it is the registry's entry for its id |
| Players.EnrolIdempotent | crates/seed-server/src/main.rs:203-211 | joining again under the same id changes nothing, whatever role it asks for |
| Players.JoinLeaveRoundTrip | crates/seed-server/src/main.rs:281-286 | a new player that joins and disconnects leaves the registry as it was |
| Players.MovesCompose | crates/seed-server/src/main.rs:229-233 | two inputs move a player as far as one input of their sum |
| Players.LastPoseWins | crates/seed-server/src/main.rs:250-253 | a later pose report overrides an earlier one entirely |
| Players.WorldPlayers.constructor | crates/seed-server/src/main.rs:31-38 | the shared world starts with no players and no registered channels |
| Players.WorldPlayers.Open | crates/seed-server/src/main.rs:169-171 | a new connection gets the next channel with an empty outbox; players and channels unchanged |
| Players.WorldPlayers.SendWorldSnapshot | crates/seed-server/src/main.rs:291-304 | the current set of players is sent to every registered channel, once per id it is registered under |
| Players.WorldPlayers.Receive | crates/seed-server/src/main.rs:190-271 | a join enrols, re-registers the channel, confirms with the role (Pc by default) and sends a snapshot; an input or pose updates a known player and sends a snapshot; a malformed frame gets one `invalid_message` error |
| Players.WorldPlayers.Disconnect | crates/seed-server/src/main.rs:281-286 | the player and the channel filed under the connection's last joined id are removed; nothing else changes |
| Biome.AsByte | crates/seed-core/src/biome.rs:27-30 | storing a biome index narrows it to a byte: indices below 256 are kept, larger ones wrap |
| Biome.Widen | crates/seed-core/src/biome.rs:32-34 | reading a cell widens the byte, and narrowing it again gives back the stored cell |
| Biome.BiomeMap.constructor | crates/seed-core/src/biome.rs:14-20 | a new map has `width * height` cells, all empty |
| Biome.BiomeMap.Clone | crates/seed-core/src/biome.rs:39-42 | a clone is a fresh map with the same size and cells |
| Biome.BiomeMap.SetIndex | crates/seed-core/src/biome.rs:23-30 | writes the narrowed index at `y * width + x` and no other cell; a later read gives back any index below 256 |
| Biome.BiomeMap.GetIndex | crates/seed-core/src/biome.rs:32-34 | reads the cell at `y * width + x`: empty exactly when the stored cell is, and below 256 otherwise |
| Biome.Counts | crates/seed-core/src/biome.rs:46-66 | the tally holds, per biome index, how many in-grid cells of the 3x3 neighbourhood carry it |
| Biome.Scan | crates/seed-core/src/biome.rs:73-82 | the strict-greater scan finds the largest count and the smallest index that reaches it, and nothing when every count is 0 |
| Biome.SmoothedCellEmpty | crates/seed-core/src/biome.rs:49-71 | a cell becomes empty exactly when its whole in-grid neighbourhood, itself included, is empty |
| Biome.SmoothedCellIsMode | crates/seed-core/src/biome.rs:73-88 | otherwise it takes a biome of the neighbourhood that no other biome outnumbers, the smallest index on a tie |
| Biome.SmoothedCellKeepsBiome | crates/seed-core/src/biome.rs:61-64 | a cell holding a biome still holds one after a pass, because it counts itself |
| Biome.SmoothNKeepsBiome | crates/seed-core/src/biome.rs:38-95 | no number of passes empties a cell that holds a biome |
| Biome.TallyCell | crates/seed-core/src/biome.rs:50-64 | one neighbour of the scan adds its biome to the tally when it is in the grid and has one |
| Biome.TallyRow | crates/seed-core/src/biome.rs:49-66 | one row of the scan extends the tally by its three neighbours |
| Biome.TallyNeighbourhood | crates/seed-core/src/biome.rs:46-66 | the counting loops compute the neighbourhood tally and whether any neighbour has a biome |
| Biome.ModalIndex | crates/seed-core/src/biome.rs:46-88 | the per-cell code computes the smoothing rule of the previous generation |
| Biome.SmoothRow | crates/seed-core/src/biome.rs:45-89 | one row of a pass rewrites that row's cells from the previous generation and leaves later cells alone |
| Biome.SmoothPass | crates/seed-core/src/biome.rs:42-92 | a pass keeps the size and computes every cell from the previous generation only, so the visiting order does not matter |
| Biome.SmoothBiomeMap | crates/seed-core/src/biome.rs:38-96 | the result has the input's size and is the given number of passes applied one after another; zero passes give a copy |
| Biome.FindBiomeIndex | crates/seed-core/src/biome.rs:120-122 | the first position whose id is the query, none exactly when no biome has it |
| Grid.IndexInBounds | crates/seed-core/src/terrain.rs:15-17 | an in-grid cell's position `y * width + x` lies below `width * height` |
| Grid.IndexInjective | crates/seed-core/src/terrain.rs:15-17 | distinct in-grid cells have distinct positions |
| Terrain.Heightmap.Index | crates/seed-core/src/terrain.rs:15-17 | the row-major position lies inside the vector for in-grid coordinates, and the coordinates can be read back from it |
| Terrain.Heightmap.Get | crates/seed-core/src/terrain.rs:20-22 | reads the height stored at the cell's position |
| Terrain.Descent | crates/seed-core/src/terrain.rs:245-263 | the scan's result is a non-negative drop, and a neighbour is chosen exactly when the drop is positive, that neighbour being in the grid and not the cell itself |
| Terrain.DescentIsSteepest | crates/seed-core/src/terrain.rs:245-263 | the chosen neighbour has the largest drop, and every neighbour scanned before it has a smaller one |
| Terrain.DownslopeOf | crates/seed-core/src/terrain.rs:236-267 | a cell has no downslope neighbour exactly when it is at or below sea level or has no strictly lower neighbour; otherwise it is the steepest in-grid neighbour, the first in scan order on a tie, strictly lower and never the cell itself |
| Terrain.DownslopeFieldDescends | crates/seed-core/src/terrain.rs:234-269 | every link of the downslope vector leads to a strictly lower cell of the grid |
| Terrain.SortByHeight | crates/seed-core/src/terrain.rs:271-277 | the order lists every cell once, heights never rising |
| Terrain.DonorsBefore | crates/seed-core/src/terrain.rs:271-285 | in a height order every cell draining into `c` comes before `c`, so `c`'s flow is final when it is passed on |
| Terrain.DescentCell | crates/seed-core/src/terrain.rs:246-261 | one neighbour of the scan replaces the best so far exactly when it is in the grid, not the cell itself, and strictly steeper |
| Terrain.DescentRow | crates/seed-core/src/terrain.rs:245-263 | one row of the scan extends the steepest-descent result by three neighbours |
| Terrain.SteepestDescent | crates/seed-core/src/terrain.rs:242-263 | the 3x3 loops compute the steepest-descent scan |
| Terrain.DrainCell | crates/seed-core/src/terrain.rs:235-267 | the first loop's body gives one cell its downslope neighbour and no other cell |
| Terrain.DrainRow | crates/seed-core/src/terrain.rs:234-269 | one row of the first loop fills that row's downslope entries |
| Terrain.ComputeDownslope | crates/seed-core/src/terrain.rs:231-269 | the first loop computes the downslope vector of the whole grid |
| Terrain.Accumulate | crates/seed-core/src/terrain.rs:280-285 | for any height order, each cell's flow equals the size of its upstream drainage tree, and equals 1 plus the flows of the cells draining directly into it |
| Terrain.MaxFlow | crates/seed-core/src/terrain.rs:288-293 | the largest flow is at least every entry and is one of them; 0 for no entries |
| Terrain.LargestFlow | crates/seed-core/src/terrain.rs:288-293 | the maximum loop finds the largest flow |
| Terrain.Normalize | crates/seed-core/src/terrain.rs:287-298 | every entry is divided by the largest when that is positive, so entries land in [0, 1] and the largest becomes 1 |
| Terrain.FlowCounts | crates/seed-core/src/terrain.rs:222-285 | an empty grid gives an empty vector; otherwise one count per cell, equal to its drainage-tree size and to 1 plus its donors' counts |
| Terrain.ComputeFlowAccumulation | crates/seed-core/src/terrain.rs:222-301 | each cell gets its drainage-tree size over the largest one: a share in (0, 1], with some cell at exactly 1 |
| Drainage.DrainsLower | crates/seed-core/src/terrain.rs:258-267 | water only runs downhill: a cell reached from `i` is no higher, and strictly lower when it is another cell |
| Drainage.DrainsTransitive | crates/seed-core/src/terrain.rs:265-267 | draining is transitive along the downslope links |
| Drainage.DrainsLinear | crates/seed-core/src/terrain.rs:265-267 | a cell has one downslope, so any two cells it drains into lie on one chain |
| Drainage.DrainsThroughDonor | crates/seed-core/src/terrain.rs:280-285 | water reaching `c` from another cell enters through a direct donor of `c` |
| Drainage.DonorTreesDisjoint | crates/seed-core/src/terrain.rs:280-285 | the upstream trees of two different direct donors of a cell share no cell |
| Drainage.UpstreamSplit | crates/seed-core/src/terrain.rs:280-285 | a cell's upstream tree is the cell plus the trees of its direct donors |
| Drainage.TreeSize | crates/seed-core/src/terrain.rs:280-285 | a cell's tree size is 1 plus the tree sizes of its direct donors |
| Drainage.InflowOfTrees | crates/seed-core/src/terrain.rs:280-285 | when every flow is its tree size, what flows into a cell is the sum of its donors' tree sizes |
| SeedCore.FindPlanet | crates/seed-core/src/lib.rs:55-61 | the first planet whose id is the active id, none exactly when no planet has it |
| SeedCore.FindPlanetPrefix | crates/seed-core/src/lib.rs:55-61 | planets listed after the first match never change the result |
| SeedCore.PlanetOf | crates/seed-core/src/lib.rs:63-70 | the world's planet copies id, name, radius, gravity, day length and year length unchanged |
| SeedCore.CosmosFromConfig | crates/seed-core/src/lib.rs:54-75 | an error naming the active id exactly when no planet carries it; otherwise the active planet is the first carrying it |
| SeedCore.WorldFromConfig | crates/seed-core/src/lib.rs:42-50 | the cosmos error is passed on unchanged; otherwise the world has the configured id and display name |
| SeedCli.HashIsPolynomial | crates/seed-cli/src/main.rs:260-266 | the wrapping loop computes the base-31 polynomial of the bytes modulo 2^32; the empty string hashes to 0 |
| SeedCli.SimpleHash | crates/seed-cli/src/main.rs:260-266 | the hash loop computes that polynomial modulo 2^32 |
| SeedCli.Fallback | crates/seed-cli/src/main.rs:244-254 | each component is 80 plus a 7-bit slice of the hash, in 80..207, and the three slices are the hash's low 21 bits |
| SeedCli.BiomeColour | crates/seed-cli/src/main.rs:233-255 | the four known ids get their fixed colours; any other id gets components in 80..207; no biome is black |
| SeedCli.BuildBiomePalette | crates/seed-cli/src/main.rs:231-257 | one colour per configured biome, in configuration order, each depending on the biome's id alone |
| SeedCli.SameIdSameColour | crates/seed-cli/src/main.rs:231-257 | biomes with equal ids get equal colours wherever they are listed |
| SeedCli.PaletteAppend | crates/seed-cli/src/main.rs:231-257 | the palette of a concatenated configuration is the concatenation of the palettes |
| SeedCli.PixelBlack | crates/seed-cli/src/main.rs:201-206 | with the configuration's palette a pixel is black exactly when its cell has no biome or an index past the palette; otherwise it has its biome's colour |
| SeedCli.RenderBiomeMap | crates/seed-cli/src/main.rs:193-212 | the image has one pixel per cell, row-major, each the palette colour of its cell's index or black |
| SeedCli.GenerationPlan | crates/seed-cli/src/main.rs:49-88 | the heightmap is generated exactly when some output path is given; the biome map exactly when a biome or worldview path is; each map is saved exactly when its path is given. These are the steps `main` plans; `SeedCli.RunMain` says which of them it takes when a step fails |
| SeedCli.PlannedUpToHas | crates/seed-cli/src/main.rs:53-88 | the planned steps before a given point are exactly the steps the plan takes there |
| SeedCli.PlannedUpToOrdered | crates/seed-cli/src/main.rs:53-88 | the planned steps come in program order: heightmap, its save, biome map, its save, worldview save |
| SeedCli.RunFromSucceeds | crates/seed-cli/src/main.rs:61-88 | running the plan from a given step on ends without error exactly when every planned save from there on succeeds |
| SeedCli.RunFromAll | crates/seed-cli/src/main.rs:61-88 | a run without error takes every remaining planned step |
| SeedCli.RunFromStops | crates/seed-cli/src/main.rs:61-88 | a run that fails stops at a planned save that failed, not before its starting point |
| SeedCli.RunFromStopsAt | crates/seed-cli/src/main.rs:61-88 | a run that fails at a save has taken exactly the planned steps before it, then that save, and nothing after it |
| SeedCli.RunFromEarlierSaves | crates/seed-cli/src/main.rs:61-88 | every save a run takes before its last step succeeded |
| SeedCli.RunMain | crates/seed-cli/src/main.rs:37-92 | an unreadable configuration or an invalid world ends `main` before any step; otherwise it succeeds exactly when every requested save succeeds, then taking all planned steps; a failing save ends it after the planned steps before that save, every earlier save having succeeded |
| SeedWasm.HashesAgree | crates/seed-wasm/src/lib.rs:226-232 | the export's `simple_hash` equals the command-line tool's on every byte string |
| SeedWasm.SimpleHash | crates/seed-wasm/src/lib.rs:226-232 | the hash loop computes the base-31 polynomial modulo 2^32 |
| SeedWasm.BiomeColour | crates/seed-wasm/src/lib.rs:208-221 | fixed colours for the four known ids, components in 80..207 for any other |
| SeedWasm.PalettesAgree | crates/seed-wasm/src/lib.rs:205-224 | the export's palette equals the command-line tool's for every configuration |
| SeedWasm.ExportRoundTrip | crates/seed-wasm/src/lib.rs:59-65 | an exported cell reads back as itself exactly when it is not biome index 255 |
| SeedWasm.SeedWorld.constructor | crates/seed-wasm/src/lib.rs:18-31 | the world keeps its configuration and maps, which cover the same grid |
| SeedWasm.SeedWorld.Width | crates/seed-wasm/src/lib.rs:35-37 | the width is the heightmap's, which the biome map shares |
| SeedWasm.SeedWorld.Height | crates/seed-wasm/src/lib.rs:40-43 | the height is the heightmap's, which the biome map shares |
| SeedWasm.SeedWorld.BiomeIndices | crates/seed-wasm/src/lib.rs:59-65 | one byte per cell; 255 exactly for an empty cell or index 255; every other cell reads back unchanged |
| SeedWasm.PutPixel | crates/seed-wasm/src/lib.rs:192-196 | writes one pixel's four bytes, opaque, and no other pixel |
| SeedWasm.DrawRow | crates/seed-wasm/src/lib.rs:91-197 | one row of the pixel loop draws that row's pixels and leaves the later ones zero |
| SeedWasm.BuildWorldviewRgba | crates/seed-wasm/src/lib.rs:70-201 | the buffer holds `4 * width * height` bytes, pixel `y * width + x` has the colour of (x, y), and every alpha byte is 255 |

## Left out

- Tokio tasks, `mpsc` channels, the mutexes, WebSocket splitting, static file serving and server start-up. Each event is one atomic method, and each channel is an outbox that messages are appended to. The `/ws` handlers release the lock after an update and before `send_world_snapshot` takes it again: `Join` leaves its lock scope before sending `Joined`, and `Input` and `VrPose` drop the lock before the snapshot. `send_world_snapshot` itself releases the lock between collecting the players and sending. Updates that interleave in these gaps are not modelled, so a snapshot here always shows the state right after its own update.
- JSON serialisation and parsing. Messages are datatypes, and a text frame that does not parse is the `Malformed` message.
- Players.WorldPlayers.Receive: positions and poses are `real`, so `MovesCompose` holds in exact arithmetic, not in `f32`.
- Players.WorldPlayers.Disconnect: a `/ws` connection that joined under several ids loses only the entries of its last id. This is as the code does it.
- The order of a world snapshot's players, and the visiting order of `HashMap` values. Snapshots are sets. Fan-out is proved for every order.
- Terrain.ComputeFlowAccumulation: heights are integers and the normalisation divides over reals. NaN handling of `partial_cmp` and `f32` rounding are not modelled.
- Heightmap and noise generation, thermal and flow erosion, `choose_biome` and the climate fallbacks. These are floating-point and noise driven, so the biome grid is an input.
- The shading, water, snow, beach and river colour maths of `build_worldview_rgba`. The colour of each pixel is a supplied function. Only the buffer's shape, pixel placement and alpha are modelled.
- `heightmap_values` and `worldview_rgba` of the export. These are plain copies and calls of the functions modelled.
- SeedWasm.SeedWorld.constructor: JSON parsing of the configuration and generation of the maps. The generated maps are parameters.
- The 32-bit arithmetic of `width * height`, `y * width + x` and `4 * width * height`. It is modelled unbounded, so wrap-around on huge grids is not captured.
- The `u16` biome counts of `smooth_biome_map`. At most 9 cells are counted, so they never overflow.
- PNG writing, `print_world_summary`, command-line parsing, and reading the configuration file. Of the reads and writes, `SeedCli.RunMain` keeps only whether each one succeeds (`cfg`, `saved`). The error messages are not modelled.
- `crates/seed-core/src/catastrophe.rs` and `crates/seed-core/src/objects.rs` are not part of this model. They are noise and float driven and not declared as modules of the core library.
- Relay.RoleOf: `to_lowercase` is modelled for ASCII letters only. No other character lowercases to one of `h`, `o`, `s`, `t`, so the host test is unaffected.
- The clock, the random number generator and the room-code generator are parameters (`millis`, `nonce`, `draw`).
