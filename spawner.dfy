/**
 * Spawner's wave counters: which wave is running, how many enemies are still to spawn and
 * still alive, when the next spawn is due, and whether the player's death has disabled it.
 * Time.time is an integer clock `now`.
 */
module Waves {
  import opened Wrappers

  /** The fields of Spawner.Wave the counters read; the enemy characteristics are not modelled. */
  datatype Wave = Wave(infinite: bool, enemyCount: int, timeBetweenSpawns: int)

  /** currentWave is None while the C# reference is still null (before any wave was selected). */
  datatype SpawnerState = SpawnerState(currentWave: Option<Wave>, currentWaveNumber: nat,
                                       enemiesRemainingToSpawn: int, enemiesRemainingAlive: int,
                                       nextSpawnTime: int, isDisabled: bool)

  /** The component's fields at their C# defaults, before Start. */
  function Initial(): SpawnerState
  {
    SpawnerState(None, 0, 0, 0, 0, false)
  }

  /** The OnNewWave argument NextWave raises (to any subscriber): the 1-based number of the wave it selects. */
  function NewWaveEvent(waves: seq<Wave>, s: SpawnerState): (r: Option<nat>)
    ensures r.Some? <==> s.currentWaveNumber < |waves|
    ensures r.Some? ==> r.value == s.currentWaveNumber + 1 && 1 <= r.value <= |waves|
  {
    if s.currentWaveNumber < |waves| then Some(s.currentWaveNumber + 1) else None
  }

  /** NextWave: the wave number always advances; a wave is selected only while one is left. */
  function AfterNextWave(waves: seq<Wave>, s: SpawnerState): (r: SpawnerState)
    ensures r.currentWaveNumber == s.currentWaveNumber + 1
    ensures r.isDisabled == s.isDisabled && r.nextSpawnTime == s.nextSpawnTime
    ensures s.currentWaveNumber < |waves| ==>
      r.currentWave == Some(waves[s.currentWaveNumber]) &&
      r.enemiesRemainingToSpawn == r.enemiesRemainingAlive == waves[s.currentWaveNumber].enemyCount
    ensures s.currentWaveNumber >= |waves| ==> r == s.(currentWaveNumber := s.currentWaveNumber + 1)
  {
    var n := s.currentWaveNumber + 1;
    if n - 1 < |waves| then
      var w := waves[n - 1];
      s.(currentWaveNumber := n, currentWave := Some(w),
         enemiesRemainingToSpawn := w.enemyCount, enemiesRemainingAlive := w.enemyCount)
    else
      s.(currentWaveNumber := n)
  }

  /** The outcome of the spawn check in Update; NullReference is the exception a null currentWave raises. */
  datatype Tick = Idle | Spawn | NullReference

  /**
   * The spawn check: enemies left to spawn or an infinite wave, and the spawn time strictly
   * passed. currentWave is dereferenced when no enemies are left to spawn (the second operand
   * of the ||) and whenever the spawn goes ahead (for the delay).
   */
  function UpdateTick(s: SpawnerState, now: int): (t: Tick)
    ensures t == Spawn ==> (!s.isDisabled && now > s.nextSpawnTime && s.currentWave.Some? &&
                            (s.enemiesRemainingToSpawn > 0 || s.currentWave.value.infinite))
    ensures t == NullReference ==> !s.isDisabled && s.currentWave.None?
    ensures t == Idle ==> (s.isDisabled || now <= s.nextSpawnTime ||
                           (s.enemiesRemainingToSpawn <= 0 && s.currentWave.Some? && !s.currentWave.value.infinite))
  {
    if s.isDisabled then Idle
    else if s.enemiesRemainingToSpawn <= 0 && s.currentWave.None? then NullReference
    else if (s.enemiesRemainingToSpawn > 0 || s.currentWave.value.infinite) && now > s.nextSpawnTime then
      if s.currentWave.Some? then Spawn else NullReference
    else Idle
  }

  /**
   * The state after Update (the camping check is not modelled). A spawn takes one off the count
   * and schedules the next one. When the spawn goes ahead with a null wave, the decrement on
   * line 65 has already happened when line 66 throws, so it persists; the schedule does not move.
   */
  function AfterUpdate(s: SpawnerState, now: int): (r: SpawnerState)
    ensures UpdateTick(s, now) == Idle ==> r == s
    ensures UpdateTick(s, now) == Spawn ==>
      r == s.(enemiesRemainingToSpawn := s.enemiesRemainingToSpawn - 1,
              nextSpawnTime := now + s.currentWave.value.timeBetweenSpawns)
    ensures UpdateTick(s, now) == NullReference && s.enemiesRemainingToSpawn <= 0 ==> r == s
    ensures UpdateTick(s, now) == NullReference && s.enemiesRemainingToSpawn > 0 ==>
      now > s.nextSpawnTime && r == s.(enemiesRemainingToSpawn := s.enemiesRemainingToSpawn - 1)
  {
    match UpdateTick(s, now)
    case Spawn =>
      s.(enemiesRemainingToSpawn := s.enemiesRemainingToSpawn - 1,
         nextSpawnTime := now + s.currentWave.value.timeBetweenSpawns)
    case NullReference =>
      if s.enemiesRemainingToSpawn > 0 then s.(enemiesRemainingToSpawn := s.enemiesRemainingToSpawn - 1) else s
    case Idle => s
  }

  /** OnEnemyDeath: one enemy fewer alive; the last one advances to the next wave. */
  function AfterEnemyDeath(waves: seq<Wave>, s: SpawnerState): (r: SpawnerState)
    ensures r.currentWaveNumber == if s.enemiesRemainingAlive == 1 then s.currentWaveNumber + 1 else s.currentWaveNumber
    ensures s.enemiesRemainingAlive != 1 ==> r.enemiesRemainingAlive == s.enemiesRemainingAlive - 1
    ensures r.isDisabled == s.isDisabled && r.nextSpawnTime == s.nextSpawnTime
  {
    var s1 := s.(enemiesRemainingAlive := s.enemiesRemainingAlive - 1);
    if s1.enemiesRemainingAlive == 0 then AfterNextWave(waves, s1) else s1
  }

  /** OnPlayerDeath: the spawner is disabled and nothing else changes. */
  function AfterPlayerDeath(s: SpawnerState): (r: SpawnerState)
    ensures r.isDisabled && r.(isDisabled := s.isDisabled) == s
  {
    s.(isDisabled := true)
  }

  /** An enemy death advances the wave exactly when it was the last enemy alive. */
  lemma EnemyDeathAdvancesIff(waves: seq<Wave>, s: SpawnerState)
    ensures AfterEnemyDeath(waves, s).currentWaveNumber == s.currentWaveNumber + 1 <==> s.enemiesRemainingAlive == 1
    ensures s.enemiesRemainingAlive != 1 ==>
      AfterEnemyDeath(waves, s) == s.(enemiesRemainingAlive := s.enemiesRemainingAlive - 1)
    ensures s.enemiesRemainingAlive == 1 && s.currentWaveNumber < |waves| ==>
      AfterEnemyDeath(waves, s).enemiesRemainingAlive == waves[s.currentWaveNumber].enemyCount
  {
  }

  /** NextWave called k times. */
  function NextWaves(waves: seq<Wave>, s: SpawnerState, k: nat): SpawnerState
    decreases k
  {
    if k == 0 then s else NextWaves(waves, AfterNextWave(waves, s), k - 1)
  }

  /** The wave number counts the NextWave calls; past the last wave nothing else moves. */
  lemma {:induction false} NextWavesCount(waves: seq<Wave>, s: SpawnerState, k: nat)
    requires s.currentWaveNumber >= |waves|
    ensures NextWaves(waves, s, k) == s.(currentWaveNumber := s.currentWaveNumber + k)
    decreases k
  {
    if k > 0 {
      NextWavesCount(waves, AfterNextWave(waves, s), k - 1);
    }
  }

  /** Update called at each of the times in `times`. */
  function Updates(s: SpawnerState, times: seq<int>): SpawnerState
    decreases |times|
  {
    if times == [] then s else Updates(AfterUpdate(s, times[0]), times[1..])
  }

  /** The number of those Update calls that start a SpawnEnemy coroutine. */
  function Spawns(s: SpawnerState, times: seq<int>): nat
    decreases |times|
  {
    if times == [] then 0
    else (if UpdateTick(s, times[0]) == Spawn then 1 else 0) + Spawns(AfterUpdate(s, times[0]), times[1..])
  }

  /** Once the player died, Update never spawns and never changes the counters. */
  lemma {:induction false} DisabledUpdatesInert(s: SpawnerState, times: seq<int>)
    requires s.isDisabled
    ensures Spawns(s, times) == 0 && Updates(s, times) == s
    decreases |times|
  {
    if times != [] {
      DisabledUpdatesInert(AfterUpdate(s, times[0]), times[1..]);
    }
  }

  lemma PlayerDeathDisables(s: SpawnerState, times: seq<int>)
    ensures Spawns(AfterPlayerDeath(s), times) == 0
    ensures Updates(AfterPlayerDeath(s), times) == AfterPlayerDeath(s)
  {
    DisabledUpdatesInert(AfterPlayerDeath(s), times);
  }

  /**
   * In a finite wave the Update calls spawn no more enemies than remain to spawn, each spawn
   * takes exactly one off the count, and the count never goes below zero.
   */
  lemma {:induction false} FiniteWaveSpawnsBounded(s: SpawnerState, times: seq<int>)
    requires s.currentWave.Some? && !s.currentWave.value.infinite && s.enemiesRemainingToSpawn >= 0
    ensures Spawns(s, times) <= s.enemiesRemainingToSpawn
    ensures Updates(s, times).enemiesRemainingToSpawn == s.enemiesRemainingToSpawn - Spawns(s, times)
    ensures Updates(s, times).currentWave == s.currentWave
    decreases |times|
  {
    if times != [] {
      FiniteWaveSpawnsBounded(AfterUpdate(s, times[0]), times[1..]);
    }
  }

  /** In an infinite wave Update spawns whenever the spawn time has strictly passed. */
  lemma InfiniteWaveAlwaysSpawns(s: SpawnerState, now: int)
    requires !s.isDisabled && s.currentWave.Some? && s.currentWave.value.infinite
    ensures UpdateTick(s, now) == Spawn <==> now > s.nextSpawnTime
  {
  }

  /** What drives a spawner: frames, enemy deaths and the player's death. */
  datatype SpawnerEvent = Frame(now: int) | EnemyDeath | PlayerDeath

  function Step(waves: seq<Wave>, s: SpawnerState, e: SpawnerEvent): SpawnerState
  {
    match e
    case Frame(now) => AfterUpdate(s, now)
    case EnemyDeath => AfterEnemyDeath(waves, s)
    case PlayerDeath => AfterPlayerDeath(s)
  }

  function Run(waves: seq<Wave>, s: SpawnerState, es: seq<SpawnerEvent>): SpawnerState
    decreases |es|
  {
    if es == [] then s else Run(waves, Step(waves, s, es[0]), es[1..])
  }

  /**
   * Invariants kept by every event: the wave in play is the one the wave number names (or the
   * last one, once the waves are used up), and nothing is left to spawn before a wave is selected.
   */
  ghost predicate SpawnerInv(waves: seq<Wave>, s: SpawnerState)
  {
    (s.currentWave.None? <==> s.currentWaveNumber == 0 || |waves| == 0) &&
    (s.currentWave.None? ==> s.enemiesRemainingToSpawn <= 0) &&
    (s.currentWave.Some? && s.currentWaveNumber <= |waves| ==> s.currentWave.value == waves[s.currentWaveNumber - 1]) &&
    (s.currentWave.Some? && s.currentWaveNumber > |waves| ==> s.currentWave.value == waves[|waves| - 1])
  }

  lemma StepKeepsSpawnerInv(waves: seq<Wave>, s: SpawnerState, e: SpawnerEvent)
    requires SpawnerInv(waves, s)
    ensures SpawnerInv(waves, Step(waves, s, e))
  {
  }

  lemma {:induction false} RunKeepsSpawnerInv(waves: seq<Wave>, s: SpawnerState, es: seq<SpawnerEvent>)
    requires SpawnerInv(waves, s)
    ensures SpawnerInv(waves, Run(waves, s, es))
    decreases |es|
  {
    if es != [] {
      StepKeepsSpawnerInv(waves, s, es[0]);
      RunKeepsSpawnerInv(waves, Step(waves, s, es[0]), es[1..]);
    }
  }

  /** After Start, Update dereferences a null wave only when there are no waves at all. */
  lemma NullWaveOnlyWithoutWaves(waves: seq<Wave>, s: SpawnerState, now: int)
    requires SpawnerInv(waves, s) && s.currentWaveNumber > 0
    ensures UpdateTick(s, now) == NullReference <==> !s.isDisabled && |waves| == 0
  {
  }

  lemma StartedSpawnerInv(waves: seq<Wave>)
    ensures SpawnerInv(waves, AfterNextWave(waves, Initial()))
  {
  }

  class Spawner {
    const waves: seq<Wave>

    var currentWave: Option<Wave>
    var currentWaveNumber: nat
    var enemiesRemainingToSpawn: int
    var enemiesRemainingAlive: int
    var nextSpawnTime: int
    var isDisabled: bool

    function State(): SpawnerState
      reads this
    {
      SpawnerState(currentWave, currentWaveNumber, enemiesRemainingToSpawn, enemiesRemainingAlive, nextSpawnTime, isDisabled)
    }

    constructor (waves: seq<Wave>)
      ensures this.waves == waves && State() == Initial()
    {
      this.waves := waves;
      currentWave, currentWaveNumber := None, 0;
      enemiesRemainingToSpawn, enemiesRemainingAlive, nextSpawnTime, isDisabled := 0, 0, 0, false;
    }

    /** Start: selects the first wave; returns the OnNewWave argument raised, if any. */
    method Start() returns (newWave: Option<nat>)
      modifies this
      ensures State() == AfterNextWave(waves, old(State()))
      ensures newWave == NewWaveEvent(waves, old(State()))
    {
      newWave := NextWave();
    }

    method NextWave() returns (newWave: Option<nat>)
      modifies this
      ensures State() == AfterNextWave(waves, old(State()))
      ensures newWave == NewWaveEvent(waves, old(State()))
    {
      newWave := None;
      currentWaveNumber := currentWaveNumber + 1;
      if currentWaveNumber - 1 < |waves| {
        currentWave := Some(waves[currentWaveNumber - 1]);
        enemiesRemainingToSpawn := currentWave.value.enemyCount;
        enemiesRemainingAlive := enemiesRemainingToSpawn;
        newWave := Some(currentWaveNumber);
      }
    }

    /** The spawn part of Update; Spawn means a SpawnEnemy coroutine is started. */
    method Update(now: int) returns (tick: Tick)
      modifies this
      ensures State() == AfterUpdate(old(State()), now)
      ensures tick == UpdateTick(old(State()), now)
    {
      tick := Idle;
      if !isDisabled {
        if enemiesRemainingToSpawn <= 0 && currentWave.None? {
          return NullReference;
        }
        if (enemiesRemainingToSpawn > 0 || currentWave.value.infinite) && now > nextSpawnTime {
          enemiesRemainingToSpawn := enemiesRemainingToSpawn - 1;
          if currentWave.None? {
            return NullReference;
          }
          nextSpawnTime := now + currentWave.value.timeBetweenSpawns;
          tick := Spawn;
        }
      }
    }

    method OnPlayerDeath()
      modifies this
      ensures State() == AfterPlayerDeath(old(State()))
    {
      isDisabled := true;
    }

    /** Returns the OnNewWave argument raised when this death ends the wave. */
    method OnEnemyDeath() returns (newWave: Option<nat>)
      modifies this
      ensures State() == AfterEnemyDeath(waves, old(State()))
      ensures newWave == (if old(enemiesRemainingAlive) == 1 then NewWaveEvent(waves, old(State())) else None)
    {
      newWave := None;
      enemiesRemainingAlive := enemiesRemainingAlive - 1;
      if enemiesRemainingAlive == 0 {
        newWave := NextWave();
      }
    }
  }
}
