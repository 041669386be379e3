# Arx-Infinitum core, modelled in Dafny

This project models the engine-independent core of the Arx-Infinitum top-down shooter:

- **Map generation** (`MapGenerator`). A scripted map becomes a list of every tile coordinate
  (x outer, y inner). The list is shuffled with the map's seed by the Fisher-Yates
  `Utility.ShuffleArray` into a rotating queue. Obstacles are then placed greedily from that queue.
  Each candidate is set on the obstacle map and kept only if it is not the map centre and a
  4-neighbour flood fill from the centre (`MapIsFullyAccessible`) still reaches every free tile.
  Otherwise the attempt is rolled back. The tiles left open are shuffled into a second queue.
- **Gun**: the magazine, the burst counter, the single-fire trigger latch, the shot cooldown
  and the reload flag.
- **Spawner**: the wave counters. These are which wave is running, the enemies still to spawn
  and still alive, the next spawn time, and the player-death switch.
- **ScoreKeeper**: the kill-streak score.

Modules and files:

| file | module | what |
|---|---|---|
| wrappers.dfy | Wrappers | `Option`, for the exception paths (dequeue on an empty queue) |
| utility.dfy | Utility | a seeded stand-in for `System.Random` and the in-place `ShuffleArray` |
| maps.dfy | Maps | coordinates, map settings, cells, 4-neighbour reachability, the coordinate list, rotating queues |
| map_generator.dfy | MapGeneration | class `MapGenerator`: generation, placement with rollback, the flood fill, the random draws |
| gun.dfy | Weapons | `Gun` as pure step functions over `GunState`, plus a class proved against them |
| spawner.dfy | Waves | `Spawner` likewise |
| score_keeper.dfy | Scoring | `ScoreKeeper` likewise |

The code's stateful parts are Dafny classes. Each method's postcondition ties the new state to
a pure function of the old state, or, for the generator, to the reachability and placement
invariants. Lemmas prove the promised properties of those functions over single calls and over
arbitrary event sequences.

The headline result is `MapGenerator.GenerateMap`. The map it leaves is fully connected from
the centre. The centre is never an obstacle, and there are at most `ObstacleTarget` obstacles.
The open-tile queue is the seeded shuffle of exactly the non-obstacle tiles, in list order. The
tile queue has rotated once per attempt. Every obstacle is in bounds. The BFS itself is proved
exact: it reports success iff the set of cells reachable from the centre has exactly
`width*height - count` elements. `Maps.ConnectedIffCount` shows that this equals full
connectivity when the count is the true obstacle count.

Time (`Time.time`, float seconds) is an integer clock `now` passed in as a parameter.
Every comparison keeps the source's strictness.

## Model

| member | source | states |
|---|---|---|
| Utility.Draw | Assets/Arx-Infinitum/Scripts/Utility.cs:20 | `prng.Next(i, n)` returns a value in `[i, n)` (or `i` when the range is empty) |
| Utility.Random.Next | Assets/Arx-Infinitum/Scripts/Utility.cs:16-20 | each call is the next draw of the seeded generator, within `[lo, hi)` |
| Utility.Random.constructor | Assets/Arx-Infinitum/Scripts/Utility.cs:16 | a new generator keeps its seed and has drawn nothing |
| Utility.ShuffleFrom | Assets/Arx-Infinitum/Scripts/Utility.cs:18-24 | the loop steps from i on keep the array's length |
| Utility.Shuffled | Assets/Arx-Infinitum/Scripts/Utility.cs:13-27 | the shuffled array has the input's length, and arrays of length 0 or 1 come back unchanged |
| Utility.ShuffleFromPermutes | Assets/Arx-Infinitum/Scripts/Utility.cs:18-24 | the swap loop is a permutation of the array and keeps its length |
| Utility.ShuffleFromKeepsPrefix | Assets/Arx-Infinitum/Scripts/Utility.cs:18-24 | the steps from i on never touch positions before i |
| Utility.ShuffleFromDistinct | Assets/Arx-Infinitum/Scripts/Utility.cs:18-24 | shuffling distinct elements leaves them distinct |
| Utility.ShuffledShortIsIdentity | Assets/Arx-Infinitum/Scripts/Utility.cs:18 | arrays of length 0 or 1 come back unchanged (the loop runs to Length - 1) |
| Utility.ShuffleArray | Assets/Arx-Infinitum/Scripts/Utility.cs:13-27 | works in place, returns the array it was given, and leaves exactly the seeded Fisher-Yates permutation |
| Utility.Swap | Assets/Arx-Infinitum/Scripts/Utility.cs:21-23 | the three assignments exchange positions i and j and touch nothing else |
| Maps.CoordEquals | Assets/Arx-Infinitum/Scripts/MapGenerator.cs:271-274 | Coord's `==` is componentwise, which is value equality |
| Maps.CoordNotEquals | Assets/Arx-Infinitum/Scripts/MapGenerator.cs:276-279 | `!=` is the negation of `==` |
| Maps.MapCenter | Assets/Arx-Infinitum/Scripts/MapGenerator.cs:295-301 | the centre is half of each size rounded down, and lies on every non-empty map |
| Maps.ObstacleTarget | Assets/Arx-Infinitum/Scripts/MapGenerator.cs:92 | the `(int)` cast of `w*h*percent` truncates toward zero, for either sign |
| Maps.ObstacleTargetBounds | Assets/Arx-Infinitum/Scripts/MapGenerator.cs:92 | with percent ≤ 1 the target never exceeds the cell count; a positive target means a non-empty map |
| Maps.Clamp | Assets/Arx-Infinitum/Scripts/MapGenerator.cs:225-226 | `Mathf.Clamp` lands in range, keeps in-range values, and picks the nearest in-range value |
| Maps.TileIndexFromPosition | Assets/Arx-Infinitum/Scripts/MapGenerator.cs:222-228 | on a non-empty tile map the clamped indices always name an existing tile, in-range indices are kept and out-of-range ones go to the nearest edge; on an empty tile map the lookup throws (None) |
| Maps.TileCoords | Assets/Arx-Infinitum/Scripts/MapGenerator.cs:49-56 | the coordinate list, column by column, has width·height entries |
| Maps.TileCoordsLength | Assets/Arx-Infinitum/Scripts/MapGenerator.cs:49-56 | the coordinate list has width·height entries |
| Maps.TileCoordsAt | Assets/Arx-Infinitum/Scripts/MapGenerator.cs:49-56 | (x, y) sits at index x·height + y (x outer, y inner) |
| Maps.TileCoordsCells | Assets/Arx-Infinitum/Scripts/MapGenerator.cs:49-56 | the list holds exactly the in-bounds coordinates |
| Maps.TileCoordsDistinct | Assets/Arx-Infinitum/Scripts/MapGenerator.cs:49-56 | the list has no repeats |
| Maps.AllCellsCard | Assets/Arx-Infinitum/Scripts/MapGenerator.cs:205 | there are exactly width·height cells, the figure the target count starts from |
| Maps.PathExtend | Assets/Arx-Infinitum/Scripts/MapGenerator.cs:186-195 | a walk to a cell extends to any open 4-neighbour it enqueues |
| Maps.PathStaysIn | Assets/Arx-Infinitum/Scripts/MapGenerator.cs:175-202 | a walk from inside a set closed under open-neighbour steps stays in the set |
| Maps.ClosedWitnessedIsReachable | Assets/Arx-Infinitum/Scripts/MapGenerator.cs:175-202 | a flagged set with every member closed and reached equals the reachable set |
| Maps.ReachableAreFree | Assets/Arx-Infinitum/Scripts/MapGenerator.cs:192 | the flood fill never enters an obstacle or leaves the map |
| Maps.ConnectedIffCount | Assets/Arx-Infinitum/Scripts/MapGenerator.cs:204-206 | "reached count == cells − obstacles" holds iff every free cell is reachable (both directions) |
| Maps.StraightPath | Assets/Arx-Infinitum/Scripts/MapGenerator.cs:90 | on an obstacle-free grid there is a 4-neighbour walk from the start to any cell |
| Maps.EmptyGridConnected | Assets/Arx-Infinitum/Scripts/MapGenerator.cs:90 | the freshly allocated all-false obstacle map is fully connected |
| Maps.DistinctCard | Assets/Arx-Infinitum/Scripts/MapGenerator.cs:49-56 | a repeat-free list has as many distinct elements as entries |
| Maps.Rotate | Assets/Arx-Infinitum/Scripts/MapGenerator.cs:234-235 | a draw moves the front to the back and keeps the length |
| Maps.RotatePermutes | Assets/Arx-Infinitum/Scripts/MapGenerator.cs:234-235 | a draw keeps the queue's contents |
| Maps.RotateNPermutes | Assets/Arx-Infinitum/Scripts/MapGenerator.cs:232-237 | any number of draws keeps the queue's contents |
| Maps.RotateNSucc | Assets/Arx-Infinitum/Scripts/MapGenerator.cs:232-237 | drawing n + 1 times is drawing n times and then once more |
| Maps.RotateNSplit | Assets/Arx-Infinitum/Scripts/MapGenerator.cs:232-237 | after n ≤ N draws the first n entries have moved, in order, to the back |
| Maps.RotateNCycle | Assets/Arx-Infinitum/Scripts/MapGenerator.cs:232-237 | N draws bring an N-element queue back to its original order |
| Maps.DrawsDistinct | Assets/Arx-Infinitum/Scripts/MapGenerator.cs:232-237 | the i-th draw yields entry i, so the first N draws from a repeat-free queue are pairwise distinct |
| Maps.DrawCycles | Assets/Arx-Infinitum/Scripts/MapGenerator.cs:232-237 | draw N + 1 returns the first coordinate again |
| Maps.RemoveFirst | Assets/Arx-Infinitum/Scripts/MapGenerator.cs:121 | `List.Remove` drops one occurrence when present and is a no-op otherwise |
| Maps.RemoveFirstDistinct | Assets/Arx-Infinitum/Scripts/MapGenerator.cs:121 | on a repeat-free list, Remove takes out exactly that coordinate |
| Maps.MultiplicityDistinct | Assets/Arx-Infinitum/Scripts/MapGenerator.cs:121 | a repeat-free list holds each element at most once |
| Maps.DistinctFromMultiplicity | Assets/Arx-Infinitum/Scripts/MapGenerator.cs:121 | a list holding each element at most once has no repeats |
| MapGeneration.BlockedMembers | Assets/Arx-Infinitum/Scripts/MapGenerator.cs:90 | an obstacle map's true cells are in bounds, and are exactly its obstacle set |
| MapGeneration.BlockedIs | Assets/Arx-Infinitum/Scripts/MapGenerator.cs:100-125 | an obstacle map agreeing pointwise with a cell set has that set as its obstacles |
| MapGeneration.OpenDrawAsWritten | Assets/Arx-Infinitum/Scripts/MapGenerator.cs:239-244 | as written, a draw shortens the open queue by one and lengthens the full queue by one |
| MapGeneration.OpenDrawsAsWrittenMove | Assets/Arx-Infinitum/Scripts/MapGenerator.cs:241-242 | as written, n draws move the first n open tiles onto the back of the full queue |
| MapGeneration.AsWrittenOpenQueueRunsDry | Assets/Arx-Infinitum/Scripts/MapGenerator.cs:241-242 | as written, the open queue is empty after as many draws as there were open tiles |
| MapGeneration.OpenDrawsRequeuedRotate | Assets/Arx-Infinitum/Scripts/MapGenerator.cs:241-242 | requeueing onto the open queue cycles it, keeps its contents and leaves the full queue alone |
| MapGeneration.Without | Assets/Arx-Infinitum/Scripts/MapGenerator.cs:94-121 | the open list holds exactly the tiles that are not obstacles |
| MapGeneration.WithoutAbsent | Assets/Arx-Infinitum/Scripts/MapGenerator.cs:121 | removing a coordinate that is not in the list changes nothing |
| MapGeneration.RemoveFirstWithout | Assets/Arx-Infinitum/Scripts/MapGenerator.cs:121 | removing a newly kept obstacle from the open list filters it out of the tile list |
| MapGeneration.WithoutDistinct | Assets/Arx-Infinitum/Scripts/MapGenerator.cs:94 | the open list copies a repeat-free list and stays repeat-free |
| MapGeneration.WithoutNone | Assets/Arx-Infinitum/Scripts/MapGenerator.cs:94 | before any placement the open list is a copy of the coordinate list |
| MapGeneration.ShuffledTileQueue | Assets/Arx-Infinitum/Scripts/MapGenerator.cs:57 | the shuffled queue is a repeat-free list of all width·height in-bounds coordinates |
| MapGeneration.PlacementStart | Assets/Arx-Infinitum/Scripts/MapGenerator.cs:90-94 | before the loop: no obstacles, count 0, every tile open, and a connected map |
| MapGeneration.PlacementDraw | Assets/Arx-Infinitum/Scripts/MapGenerator.cs:98 | attempt i draws an in-bounds tile; when the target fits the map it is queue entry i, never drawn before |
| MapGeneration.PlacementKeep | Assets/Arx-Infinitum/Scripts/MapGenerator.cs:100-122 | keeping an obstacle that passed the check keeps the map connected, the count exact and the open list exact |
| MapGeneration.PlacementRollback | Assets/Arx-Infinitum/Scripts/MapGenerator.cs:123-127 | a rolled-back attempt leaves obstacles, count and open list as they were |
| MapGeneration.GeneratedMapHolds | Assets/Arx-Infinitum/Scripts/MapGenerator.cs:89-131 | the placement invariant after all attempts gives the generation guarantees |
| MapGeneration.ProcessedNextColumn | Assets/Arx-Infinitum/Scripts/MapGenerator.cs:179-181 | finishing the y loop for one x moves the scan to the next column |
| MapGeneration.ProcessedAllClosed | Assets/Arx-Infinitum/Scripts/MapGenerator.cs:179-201 | after the nine offsets every open 4-neighbour of the tile is flagged |
| MapGeneration.FrontierStep | Assets/Arx-Infinitum/Scripts/MapGenerator.cs:175-201 | a dequeue plus its neighbour scan keeps the queue discipline (queued ⊆ flagged ⊆ done ∪ queued, done cells closed) |
| MapGeneration.ScanAdd | Assets/Arx-Infinitum/Scripts/MapGenerator.cs:192-197 | flagging and enqueuing an unflagged free neighbour advances the scan |
| MapGeneration.ScanSkip | Assets/Arx-Infinitum/Scripts/MapGenerator.cs:186-192 | a diagonal, out-of-bounds, flagged or obstacle neighbour is skipped soundly |
| MapGeneration.ClosedGrows | Assets/Arx-Infinitum/Scripts/MapGenerator.cs:175-202 | cells already closed stay closed as more cells are flagged |
| MapGeneration.VisitNeighbour | Assets/Arx-Infinitum/Scripts/MapGenerator.cs:183-198 | one offset of the scan either changes nothing or flags, enqueues and counts exactly the new open neighbour |
| MapGeneration.ShuffledQueue | Assets/Arx-Infinitum/Scripts/MapGenerator.cs:57-131 | `new Queue(ShuffleArray(list.ToArray(), seed))` is the seeded shuffle of the list, front at index 0 |
| MapGeneration.MapGenerator.constructor | Assets/Arx-Infinitum/Scripts/MapGenerator.cs:20-28 | before any generation both queues and the coordinate list are empty and there are no obstacles |
| MapGeneration.MapGenerator.GetRandomCoord | Assets/Arx-Infinitum/Scripts/MapGenerator.cs:232-237 | returns the front coordinate and moves it to the back; an empty queue throws (None) and is left unchanged |
| MapGeneration.MapGenerator.GetRandomOpenTile | Assets/Arx-Infinitum/Scripts/MapGenerator.cs:239-244 | as written: pops the open queue and pushes the coordinate onto the full tile queue |
| MapGeneration.MapGenerator.GetRandomOpenTileRequeued | Assets/Arx-Infinitum/Scripts/MapGenerator.cs:239-244 | corrected: returns the front open tile and rotates the open queue |
| MapGeneration.MapGenerator.MapIsFullyAccessible | Assets/Arx-Infinitum/Scripts/MapGenerator.cs:164-206 | true iff the reachable set from the centre has exactly width·height − count cells; dequeues are bounded by the cell count |
| MapGeneration.MapGenerator.TryPlaceObstacle | Assets/Arx-Infinitum/Scripts/MapGenerator.cs:100-127 | keeps the cell iff it is not the centre and the map stays fully reached; otherwise restores the cell and the count |
| MapGeneration.MapGenerator.GenerateTileCoords | Assets/Arx-Infinitum/Scripts/MapGenerator.cs:49-56 | builds the x-outer, y-inner coordinate list |
| MapGeneration.MapGenerator.SpawnObstacle | Assets/Arx-Infinitum/Scripts/MapGenerator.cs:96-128 | one attempt rotates the queue once and keeps the placement invariant |
| MapGeneration.MapGenerator.SpawnObstacles | Assets/Arx-Infinitum/Scripts/MapGenerator.cs:89-128 | after ObstacleTarget attempts the placement invariant holds and the queue has rotated once per attempt |
| MapGeneration.MapGenerator.GenerateMap | Assets/Arx-Infinitum/Scripts/MapGenerator.cs:41-131 | the generated map is fully connected from the centre; the centre is free; obstacles are in bounds and at most the target; the open queue is the seeded shuffle of exactly the free tiles |
| Weapons.ProjectilesFired | Assets/Arx-Infinitum/Scripts/Gun.cs:91-102 | a shot spawns at most one projectile per spawn point, never more than the magazine holds, and none when the guard fails |
| Weapons.AfterShoot | Assets/Arx-Infinitum/Scripts/Gun.cs:70-116 | a blocked shot changes nothing; the magazine drops by exactly the projectiles fired and never goes negative; burst mode fires only with shots left and uses one; single mode fires only with the latch set |
| Weapons.AfterTriggerHold | Assets/Arx-Infinitum/Scripts/Gun.cs:163-167 | a hold always clears the latch; the magazine drops by exactly the projectiles fired; a blocked shot changes nothing else |
| Weapons.AfterTriggerRelease | Assets/Arx-Infinitum/Scripts/Gun.cs:169-173 | a release sets the latch and refills the burst, and leaves the magazine, cooldown and reload flag alone |
| Weapons.AfterReload | Assets/Arx-Infinitum/Scripts/Gun.cs:118-129 | the reload flag rises exactly when the reload is allowed or already running; nothing else changes |
| Weapons.AfterReloadFinished | Assets/Arx-Infinitum/Scripts/Gun.cs:159-160 | finishing a reload clears the flag and fills the magazine |
| Weapons.BurstVolleysBounded | Assets/Arx-Infinitum/Scripts/Gun.cs:75-82 | without a release, burst mode fires no more volleys than shots remain, and each volley uses exactly one |
| Weapons.BurstBetweenReleases | Assets/Arx-Infinitum/Scripts/Gun.cs:169-173 | between two releases at most burstCount volleys fire |
| Weapons.SingleLatchedFiresNothing | Assets/Arx-Infinitum/Scripts/Gun.cs:83-166 | in single mode with the latch cleared no hold fires until a release |
| Weapons.SingleOneVolleyPerPress | Assets/Arx-Infinitum/Scripts/Gun.cs:83-173 | in single mode one press fires at most one volley |
| Weapons.SingleFirstPressDoesNotFire | Assets/Arx-Infinitum/Scripts/Gun.cs:41-55 | the latch starts false, so in single mode nothing fires before the first release |
| Weapons.StepKeepsGunInv | Assets/Arx-Infinitum/Scripts/Gun.cs:70-173 | each event keeps the magazine in [0, projectilesPerMag] and the burst in [0, burstCount] |
| Weapons.RunKeepsGunInv | Assets/Arx-Infinitum/Scripts/Gun.cs:70-173 | any event sequence keeps those ranges |
| Weapons.StartedGunInv | Assets/Arx-Infinitum/Scripts/Gun.cs:50-55 | Start fills the burst and the magazine |
| Weapons.ReloadStartsIff | Assets/Arx-Infinitum/Scripts/Gun.cs:118-129 | a reload starts exactly when not reloading and the magazine is not full, and changes only the flag |
| Weapons.ReloadingBlocksFire | Assets/Arx-Infinitum/Scripts/Gun.cs:72-129 | while reloading nothing fires and the magazine does not change until the reload finishes |
| Weapons.AutoReloadStarts | Assets/Arx-Infinitum/Scripts/Gun.cs:64-125 | an empty magazine schedules a reload that starts (unless the magazine size is 0), and no shot fires meanwhile |
| Weapons.Gun.constructor | Assets/Arx-Infinitum/Scripts/Gun.cs:50-55 | the state after Start |
| Weapons.Gun.Shoot | Assets/Arx-Infinitum/Scripts/Gun.cs:70-116 | the loop leaves exactly AfterShoot's state and fires ProjectilesFired projectiles |
| Weapons.Gun.Reload | Assets/Arx-Infinitum/Scripts/Gun.cs:118-129 | matches AfterReload |
| Weapons.Gun.FinishReload | Assets/Arx-Infinitum/Scripts/Gun.cs:159-160 | matches AfterReloadFinished |
| Weapons.Gun.OnTriggerHold | Assets/Arx-Infinitum/Scripts/Gun.cs:163-167 | shoots, then clears the latch |
| Weapons.Gun.OnTriggerRelease | Assets/Arx-Infinitum/Scripts/Gun.cs:169-173 | sets the latch and refills the burst |
| Weapons.Gun.LateUpdate | Assets/Arx-Infinitum/Scripts/Gun.cs:64-67 | schedules a reload exactly when AutoReloadDue holds; the scheduled Reload then starts unless the magazine size is 0, and no shot fires meanwhile |
| Waves.NewWaveEvent | Assets/Arx-Infinitum/Scripts/Spawner.cs:124-134 | OnNewWave is raised iff a wave is left, and carries its 1-based number |
| Waves.AfterNextWave | Assets/Arx-Infinitum/Scripts/Spawner.cs:115-136 | the wave number always advances by one; a wave left is selected and both counters are set to its enemy count; otherwise nothing else changes |
| Waves.UpdateTick | Assets/Arx-Infinitum/Scripts/Spawner.cs:50-69 | a spawn happens only when enabled, past the spawn time, and a wave is set with enemies left (or infinite); a null wave is dereferenced only when enabled |
| Waves.AfterUpdate | Assets/Arx-Infinitum/Scripts/Spawner.cs:63-69 | a spawn leaves one fewer to spawn and moves the next spawn time to now + the wave's delay; a spawn that hits a null wave keeps the decrement of line 65 and throws at line 66 before rescheduling; otherwise nothing changes |
| Waves.AfterEnemyDeath | Assets/Arx-Infinitum/Scripts/Spawner.cs:149-159 | the wave number advances by one exactly when the dying enemy was the last alive; otherwise the alive count drops by one; the switch and the schedule stay |
| Waves.AfterPlayerDeath | Assets/Arx-Infinitum/Scripts/Spawner.cs:138-141 | the spawner is disabled and nothing else changes |
| Waves.EnemyDeathAdvancesIff | Assets/Arx-Infinitum/Scripts/Spawner.cs:149-159 | an enemy death advances the wave iff it was the last alive; otherwise it only decrements the alive count |
| Waves.NextWavesCount | Assets/Arx-Infinitum/Scripts/Spawner.cs:122-124 | past the last wave, k calls advance the number by k and change nothing else |
| Waves.DisabledUpdatesInert | Assets/Arx-Infinitum/Scripts/Spawner.cs:50 | a disabled spawner never spawns and its state never changes under any updates |
| Waves.PlayerDeathDisables | Assets/Arx-Infinitum/Scripts/Spawner.cs:138-141 | after the player's death no update spawns again |
| Waves.FiniteWaveSpawnsBounded | Assets/Arx-Infinitum/Scripts/Spawner.cs:63-65 | in a finite wave, updates spawn no more than remain, each spawn takes exactly one, and the count never goes negative |
| Waves.InfiniteWaveAlwaysSpawns | Assets/Arx-Infinitum/Scripts/Spawner.cs:63 | an enabled infinite wave spawns iff the spawn time has strictly passed |
| Waves.StepKeepsSpawnerInv | Assets/Arx-Infinitum/Scripts/Spawner.cs:115-159 | every event keeps the current wave consistent with the wave number, with nothing to spawn before a wave is set |
| Waves.RunKeepsSpawnerInv | Assets/Arx-Infinitum/Scripts/Spawner.cs:115-159 | any event sequence keeps that invariant |
| Waves.NullWaveOnlyWithoutWaves | Assets/Arx-Infinitum/Scripts/Spawner.cs:45-66 | after Start, Update hits a null wave iff the spawner is enabled and has no waves |
| Waves.StartedSpawnerInv | Assets/Arx-Infinitum/Scripts/Spawner.cs:45 | Start's NextWave establishes the invariant |
| Waves.Spawner.constructor | Assets/Arx-Infinitum/Scripts/Spawner.cs:16-31 | the fields at their C# defaults: no wave yet, number 0, all counters 0, enabled |
| Waves.Spawner.Start | Assets/Arx-Infinitum/Scripts/Spawner.cs:35-46 | Start selects the first wave |
| Waves.Spawner.NextWave | Assets/Arx-Infinitum/Scripts/Spawner.cs:115-136 | matches AfterNextWave and returns the raised wave number |
| Waves.Spawner.Update | Assets/Arx-Infinitum/Scripts/Spawner.cs:48-70 | matches AfterUpdate and UpdateTick, including the decrement that persists when the null wave is dereferenced at line 66 |
| Waves.Spawner.OnPlayerDeath | Assets/Arx-Infinitum/Scripts/Spawner.cs:138-141 | disables the spawner |
| Waves.Spawner.OnEnemyDeath | Assets/Arx-Infinitum/Scripts/Spawner.cs:149-159 | matches AfterEnemyDeath; raises OnNewWave only when the last enemy dies and a wave is left |
| Scoring.Pow2 | Assets/Arx-Infinitum/Scripts/ScoreKeeper.cs:38 | the streak bonus is at least 1, and at least 2 on a running streak |
| Scoring.AfterKill | Assets/Arx-Infinitum/Scripts/ScoreKeeper.cs:25-39 | the kill time is remembered, the streak is running exactly when the kill continues it, and the kill adds at least 6 points |
| Scoring.KillStreak | Assets/Arx-Infinitum/Scripts/ScoreKeeper.cs:25-39 | the streak grows iff the kill lands strictly within the expiry time, else it restarts at 0; the kill time is remembered; the score grows by 5 + 2^streak |
| Scoring.KillScoreBounds | Assets/Arx-Infinitum/Scripts/ScoreKeeper.cs:27-38 | every kill is worth at least 6; a kill that starts a streak is worth exactly 6; a continuing one at least 7 |
| Scoring.KillsScoreAtLeast | Assets/Arx-Infinitum/Scripts/ScoreKeeper.cs:25-39 | n kills add at least 6n points |
| Scoring.ChainedKillsExtendStreak | Assets/Arx-Infinitum/Scripts/ScoreKeeper.cs:27-38 | kills each within the expiry time of the last extend one streak, by one per kill, with the exact total |
| Scoring.ScoreKeeper.constructor | Assets/Arx-Infinitum/Scripts/ScoreKeeper.cs:9-13 | the fields at their defaults |
| Scoring.ScoreKeeper.OnEnemyKilled | Assets/Arx-Infinitum/Scripts/ScoreKeeper.cs:25-39 | matches AfterKill |

## Left out

- Rendering and the engine: tile and obstacle instantiation, heights, colours, the navmesh masks, floors and the map holder are not modelled (MapGenerator.cs:59-87, 107-120, 133-154). `CoordToPosition` and the float rounding in `GetTileFromPosition` are not modelled either. `Maps.TileIndexFromPosition` takes the rounded indices and models the clamp and the bounds of the lookup.
- `maps[mapIndex]` and `OnNewWave` → `GenerateMap`: `GenerateMap` takes the selected map as its parameter. An out-of-range index is not modelled.
- `GetRandomOpenTile` and `GetTileFromPosition` return a tile `Transform`; the model returns the coordinate.
- `System.Random`'s actual numbers are not modelled. `Utility.Sample` is a deterministic stand-in with the same range, so the proved properties hold for any seeded sample stream. `prng.NextDouble()` drives only obstacle heights and is not modelled.
- 32-bit integer overflow is not modelled: width·height, the obstacle count, the score, the wave number and `(int)Mathf.Pow` are unbounded. `Scoring.Pow2` is exact, while the source's float-to-int cast goes wrong beyond 2^31.
- Maps.ObstacleTarget: the source multiplies width, height and obstaclePercent in float32 before the (int) cast; the model truncates the exact real product. Float32 rounding can make the C# target one more or one less than the model's (10×10 at 0.01f gives 1 in C#; 25×25 at 0.072 gives 44), so for such inputs GenerateMap makes a different number of attempts than the game.
- Map sizes are naturals. A negative size makes the C# array allocation throw, and that path is not modelled.
- MapGeneration.MapGenerator.GenerateMap: full connectivity and the exact open queue are promised only for `obstaclePercent ≤ 1`, the field's declared range. With a larger percent the tile queue wraps around and redraws cells; the model then claims only bounds, the free centre and the obstacle count bound.
- `GenerateMap`'s loops are split into the helper methods `GenerateTileCoords`, `SpawnObstacles`, `SpawnObstacle`, `TryPlaceObstacle` and `ShuffledQueue`. The C# body is one method.
- `obstacleMap` is a local variable in C#. The model records the final obstacle set in a ghost field, `placedObstacles`.
- Gun: recoil, muzzle flash, shell ejection, audio, aiming and the reload animation's timing are not modelled. `Invoke("Reload", .2f)` is modelled as a returned flag (`LateUpdate`). The coroutine is modelled as its first statement (`Reload`) and its last two (`FinishReload`).
- Gun: `msBetweenShots / 1000` in float seconds is the integer cooldown `shotInterval`.
- Spawner: the camping check, the `SpawnEnemy` coroutine (its tile choice and enemy setup), `ResetPlayerPosition`, dev mode and the "Level Complete" sound are not modelled. A spawn is reported as the `Spawn` tick, and a raised `OnNewWave` as a returned wave number. Whether anyone subscribes is not modelled.
- ScoreKeeper: the static event subscription and unsubscription (Start, OnPlayerDeath) are not modelled, and neither is the double subscription across scene reloads. The static `score` is a field of the one `ScoreKeeper` object.
- Time is an integer clock passed in as `now`. Float time arithmetic is not modelled.
- The comments on `shuffledTileCoords` (MapGenerator.cs:21) and in `GetRandomOpenTile` (MapGenerator.cs:242) describe requeuing the drawn coordinate onto the queue it came from. Line 242 enqueues onto the other queue. The model follows the code and gives the requeuing version as the correction below.

## Findings

| source | as written | input that shows it | evidently intended | confidence | as-written member | corrected member |
|---|---|---|---|---|---|---|
| Assets/Arx-Infinitum/Scripts/MapGenerator.cs:241-242 | `GetRandomOpenTile` dequeues from `shuffledOpenTileCoords` but re-enqueues the coordinate onto `shuffledTileCoords` | any map with k open tiles: after k spawns the open queue is empty and spawn k + 1 throws on `Dequeue`, while the full tile queue has grown by k | requeue onto `shuffledOpenTileCoords`, so the open queue rotates and never runs dry, as `GetRandomCoord` does for the full queue | not executed | MapGeneration.AsWrittenOpenQueueRunsDry | MapGeneration.OpenDrawsRequeuedRotate |
