/**
 * Gun's fire, ammunition and reload state: the magazine count, the burst counter, the
 * single-fire trigger latch and the reloading flag. Time.time is an integer clock `now`, and
 * msBetweenShots is the cooldown `shotInterval` on that clock.
 */
module Weapons {

  datatype FireMode = Auto | Burst | Single

  /** The inspector settings the fire logic reads; spawnPoints is projectileSpawn.Length. */
  datatype GunConfig = GunConfig(fireMode: FireMode, burstCount: int, projectilesPerMag: int,
                                 spawnPoints: nat, shotInterval: int)

  datatype GunState = GunState(nextShotTime: int, triggerReleasedSinceLastShot: bool,
                               shotsRemainingInBurst: int, projectilesRemainingInMag: int, isReloading: bool)

  /** The state after Start: fields at their C# defaults, burst and magazine full. */
  function Started(cfg: GunConfig): GunState
  {
    GunState(0, false, cfg.burstCount, cfg.projectilesPerMag, false)
  }

  /** The guard of Shoot: not reloading, the cooldown strictly elapsed, ammunition left. */
  predicate ShotAllowed(s: GunState, now: int)
  {
    !s.isReloading && now > s.nextShotTime && s.projectilesRemainingInMag > 0
  }

  /** Shoot gets past the guard and the fire-mode checks and reaches the projectile loop. */
  predicate Fires(cfg: GunConfig, s: GunState, now: int)
  {
    ShotAllowed(s, now) &&
    (cfg.fireMode == Burst ==> s.shotsRemainingInBurst != 0) &&
    (cfg.fireMode == Single ==> s.triggerReleasedSinceLastShot)
  }

  function Min(a: int, b: int): int
  {
    if a <= b then a else b
  }

  /** The projectiles one Shoot call spawns: one per spawn point until the magazine is empty. */
  function ProjectilesFired(cfg: GunConfig, s: GunState, now: int): (n: nat)
    ensures n <= cfg.spawnPoints
    ensures n > 0 ==> ShotAllowed(s, now)
    ensures n <= s.projectilesRemainingInMag || n == 0
  {
    if Fires(cfg, s, now) then Min(cfg.spawnPoints, s.projectilesRemainingInMag) else 0
  }

  /** The state after one Shoot call. */
  function AfterShoot(cfg: GunConfig, s: GunState, now: int): (r: GunState)
    ensures !ShotAllowed(s, now) ==> r == s
    ensures r.projectilesRemainingInMag == s.projectilesRemainingInMag - ProjectilesFired(cfg, s, now)
    ensures s.projectilesRemainingInMag >= 0 ==> r.projectilesRemainingInMag >= 0
    ensures r.isReloading == s.isReloading && r.triggerReleasedSinceLastShot == s.triggerReleasedSinceLastShot
    ensures cfg.fireMode == Burst && ShotAllowed(s, now) ==>
      (s.shotsRemainingInBurst == 0 ==> r == s) &&
      (s.shotsRemainingInBurst != 0 ==> r.shotsRemainingInBurst == s.shotsRemainingInBurst - 1)
    ensures cfg.fireMode != Burst ==> r.shotsRemainingInBurst == s.shotsRemainingInBurst
    ensures cfg.fireMode == Single && !s.triggerReleasedSinceLastShot ==> r == s
  {
    if !Fires(cfg, s, now) then s
    else
      var n := ProjectilesFired(cfg, s, now);
      s.(shotsRemainingInBurst := if cfg.fireMode == Burst then s.shotsRemainingInBurst - 1 else s.shotsRemainingInBurst,
         projectilesRemainingInMag := s.projectilesRemainingInMag - n,
         nextShotTime := if n > 0 then now + cfg.shotInterval else s.nextShotTime)
  }

  /** OnTriggerHold: Shoot, then clear the released latch. */
  function AfterTriggerHold(cfg: GunConfig, s: GunState, now: int): (r: GunState)
    ensures !r.triggerReleasedSinceLastShot && r.isReloading == s.isReloading
    ensures r.projectilesRemainingInMag == s.projectilesRemainingInMag - ProjectilesFired(cfg, s, now)
    ensures !ShotAllowed(s, now) ==> r == s.(triggerReleasedSinceLastShot := false)
  {
    AfterShoot(cfg, s, now).(triggerReleasedSinceLastShot := false)
  }

  /** OnTriggerRelease: set the latch and refill the burst counter. */
  function AfterTriggerRelease(cfg: GunConfig, s: GunState): (r: GunState)
    ensures r.triggerReleasedSinceLastShot && r.shotsRemainingInBurst == cfg.burstCount
    ensures r.projectilesRemainingInMag == s.projectilesRemainingInMag && r.isReloading == s.isReloading
    ensures r.nextShotTime == s.nextShotTime
  {
    s.(triggerReleasedSinceLastShot := true, shotsRemainingInBurst := cfg.burstCount)
  }

  /** Reload starts the reload coroutine only when not reloading and the magazine is not full. */
  predicate ReloadStarts(cfg: GunConfig, s: GunState)
  {
    !s.isReloading && s.projectilesRemainingInMag != cfg.projectilesPerMag
  }

  /** Reload, up to the first step of AnimateReload, which raises isReloading. */
  function AfterReload(cfg: GunConfig, s: GunState): (r: GunState)
    ensures r.isReloading <==> s.isReloading || ReloadStarts(cfg, s)
    ensures r.(isReloading := s.isReloading) == s
  {
    if ReloadStarts(cfg, s) then s.(isReloading := true) else s
  }

  /** The end of AnimateReload: the flag drops and the magazine is refilled. */
  function AfterReloadFinished(cfg: GunConfig, s: GunState): (r: GunState)
    ensures !r.isReloading && r.projectilesRemainingInMag == cfg.projectilesPerMag
    ensures r.shotsRemainingInBurst == s.shotsRemainingInBurst && r.nextShotTime == s.nextShotTime
  {
    s.(isReloading := false, projectilesRemainingInMag := cfg.projectilesPerMag)
  }

  /** The LateUpdate guard that schedules a Reload: not reloading and the magazine empty. */
  predicate AutoReloadDue(s: GunState)
  {
    !s.isReloading && s.projectilesRemainingInMag == 0
  }

  /** What drives a gun: trigger input, reload requests and the end of the reload animation. */
  datatype GunEvent = TriggerHold(now: int) | TriggerRelease | Reload | ReloadFinished

  function Step(cfg: GunConfig, s: GunState, e: GunEvent): GunState
  {
    match e
    case TriggerHold(now) => AfterTriggerHold(cfg, s, now)
    case TriggerRelease => AfterTriggerRelease(cfg, s)
    case Reload => AfterReload(cfg, s)
    case ReloadFinished => AfterReloadFinished(cfg, s)
  }

  function Run(cfg: GunConfig, s: GunState, es: seq<GunEvent>): GunState
    decreases |es|
  {
    if es == [] then s else Run(cfg, Step(cfg, s, es[0]), es[1..])
  }

  /** The number of trigger holds in es whose Shoot call reaches the projectile loop. */
  function Volleys(cfg: GunConfig, s: GunState, es: seq<GunEvent>): nat
    decreases |es|
  {
    if es == [] then 0
    else
      (if es[0].TriggerHold? && Fires(cfg, s, es[0].now) then 1 else 0) + Volleys(cfg, Step(cfg, s, es[0]), es[1..])
  }

  predicate NoRelease(es: seq<GunEvent>)
  {
    forall k :: 0 <= k < |es| ==> !es[k].TriggerRelease?
  }

  /** In burst mode, without a release, no more volleys fire than the burst counter holds. */
  lemma {:induction false} BurstVolleysBounded(cfg: GunConfig, s: GunState, es: seq<GunEvent>)
    requires cfg.fireMode == Burst && s.shotsRemainingInBurst >= 0 && NoRelease(es)
    ensures Volleys(cfg, s, es) <= s.shotsRemainingInBurst
    ensures Run(cfg, s, es).shotsRemainingInBurst == s.shotsRemainingInBurst - Volleys(cfg, s, es)
    decreases |es|
  {
    if es != [] {
      assert NoRelease(es[1..]) by {
        forall k | 0 <= k < |es[1..]| ensures !es[1..][k].TriggerRelease? {
          assert es[1..][k] == es[k + 1];
        }
      }
      BurstVolleysBounded(cfg, Step(cfg, s, es[0]), es[1..]);
    }
  }

  /** Between a trigger release and the next one, at most burstCount volleys fire. */
  lemma BurstBetweenReleases(cfg: GunConfig, s: GunState, es: seq<GunEvent>)
    requires cfg.fireMode == Burst && cfg.burstCount >= 0 && NoRelease(es)
    ensures Volleys(cfg, AfterTriggerRelease(cfg, s), es) <= cfg.burstCount
  {
    BurstVolleysBounded(cfg, AfterTriggerRelease(cfg, s), es);
  }

  /** In single mode a hold with the latch cleared fires nothing and leaves the latch cleared. */
  lemma {:induction false} SingleLatchedFiresNothing(cfg: GunConfig, s: GunState, es: seq<GunEvent>)
    requires cfg.fireMode == Single && !s.triggerReleasedSinceLastShot && NoRelease(es)
    ensures Volleys(cfg, s, es) == 0
    ensures !Run(cfg, s, es).triggerReleasedSinceLastShot
    decreases |es|
  {
    if es != [] {
      assert NoRelease(es[1..]) by {
        forall k | 0 <= k < |es[1..]| ensures !es[1..][k].TriggerRelease? {
          assert es[1..][k] == es[k + 1];
        }
      }
      SingleLatchedFiresNothing(cfg, Step(cfg, s, es[0]), es[1..]);
    }
  }

  /** In single mode one press (everything up to the next release) fires at most one volley. */
  lemma {:induction false} SingleOneVolleyPerPress(cfg: GunConfig, s: GunState, es: seq<GunEvent>)
    requires cfg.fireMode == Single && NoRelease(es)
    ensures Volleys(cfg, s, es) <= 1
    decreases |es|
  {
    if es != [] {
      assert NoRelease(es[1..]) by {
        forall k | 0 <= k < |es[1..]| ensures !es[1..][k].TriggerRelease? {
          assert es[1..][k] == es[k + 1];
        }
      }
      var s1 := Step(cfg, s, es[0]);
      if es[0].TriggerHold? {
        SingleLatchedFiresNothing(cfg, s1, es[1..]);
      } else {
        SingleOneVolleyPerPress(cfg, s1, es[1..]);
      }
    }
  }

  /**
   * The latch starts false (its C# default, and Start does not set it), so in single mode a
   * hold before the first trigger release fires nothing.
   */
  lemma SingleFirstPressDoesNotFire(cfg: GunConfig, es: seq<GunEvent>)
    requires cfg.fireMode == Single && NoRelease(es)
    ensures Volleys(cfg, Started(cfg), es) == 0
  {
    SingleLatchedFiresNothing(cfg, Started(cfg), es);
  }

  /** The counters stay in range: the magazine in [0, projectilesPerMag], the burst in [0, burstCount]. */
  ghost predicate GunInv(cfg: GunConfig, s: GunState)
  {
    0 <= s.projectilesRemainingInMag <= cfg.projectilesPerMag &&
    0 <= s.shotsRemainingInBurst <= cfg.burstCount
  }

  lemma StepKeepsGunInv(cfg: GunConfig, s: GunState, e: GunEvent)
    requires GunInv(cfg, s)
    ensures GunInv(cfg, Step(cfg, s, e))
  {
  }

  /** From Start on, whatever happens, the magazine never goes negative nor above capacity. */
  lemma {:induction false} RunKeepsGunInv(cfg: GunConfig, es: seq<GunEvent>, s: GunState)
    requires GunInv(cfg, s)
    ensures GunInv(cfg, Run(cfg, s, es))
    decreases |es|
  {
    if es != [] {
      StepKeepsGunInv(cfg, s, es[0]);
      RunKeepsGunInv(cfg, es[1..], Step(cfg, s, es[0]));
    }
  }

  lemma StartedGunInv(cfg: GunConfig)
    requires cfg.burstCount >= 0 && cfg.projectilesPerMag >= 0
    ensures GunInv(cfg, Started(cfg))
  {
  }

  /** Reload starts exactly when allowed, and then only the flag changes. */
  lemma ReloadStartsIff(cfg: GunConfig, s: GunState)
    ensures AfterReload(cfg, s).isReloading <==> s.isReloading || ReloadStarts(cfg, s)
    ensures AfterReload(cfg, s).projectilesRemainingInMag == s.projectilesRemainingInMag
    ensures ReloadStarts(cfg, s) ==> AfterReload(cfg, s) == s.(isReloading := true)
  {
  }

  /** While reloading no shot fires, and the gun stays reloading until the reload finishes. */
  lemma {:induction false} ReloadingBlocksFire(cfg: GunConfig, s: GunState, es: seq<GunEvent>)
    requires s.isReloading
    requires forall k :: 0 <= k < |es| ==> !es[k].ReloadFinished?
    ensures Volleys(cfg, s, es) == 0 && Run(cfg, s, es).isReloading
    ensures Run(cfg, s, es).projectilesRemainingInMag == s.projectilesRemainingInMag
    decreases |es|
  {
    if es != [] {
      assert forall k :: 0 <= k < |es[1..]| ==> !es[1..][k].ReloadFinished? by {
        forall k | 0 <= k < |es[1..]| ensures !es[1..][k].ReloadFinished? {
          assert es[1..][k] == es[k + 1];
        }
      }
      ReloadingBlocksFire(cfg, Step(cfg, s, es[0]), es[1..]);
    }
  }

  /** An empty magazine schedules a reload, which then starts unless the magazine holds nothing. */
  lemma AutoReloadStarts(cfg: GunConfig, s: GunState)
    requires AutoReloadDue(s) && cfg.projectilesPerMag != 0
    ensures AfterReload(cfg, s).isReloading
    ensures forall now :: ProjectilesFired(cfg, s, now) == 0
  {
  }

  class Gun {
    const fireMode: FireMode
    const burstCount: int
    const projectilesPerMag: int
    const spawnPoints: nat
    const shotInterval: int

    var nextShotTime: int
    var triggerReleasedSinceLastShot: bool
    var shotsRemainingInBurst: int
    var projectilesRemainingInMag: int
    var isReloading: bool

    function Config(): GunConfig
    {
      GunConfig(fireMode, burstCount, projectilesPerMag, spawnPoints, shotInterval)
    }

    function State(): GunState
      reads this
    {
      GunState(nextShotTime, triggerReleasedSinceLastShot, shotsRemainingInBurst, projectilesRemainingInMag, isReloading)
    }

    /** The component with its settings, after Start. */
    constructor (fireMode: FireMode, burstCount: int, projectilesPerMag: int, spawnPoints: nat, shotInterval: int)
      ensures Config() == GunConfig(fireMode, burstCount, projectilesPerMag, spawnPoints, shotInterval)
      ensures State() == Started(Config())
    {
      this.fireMode, this.burstCount, this.projectilesPerMag := fireMode, burstCount, projectilesPerMag;
      this.spawnPoints, this.shotInterval := spawnPoints, shotInterval;
      nextShotTime, triggerReleasedSinceLastShot, isReloading := 0, false, false;
      shotsRemainingInBurst := burstCount;
      projectilesRemainingInMag := projectilesPerMag;
    }

    /** Returns the number of projectiles instantiated. */
    method Shoot(now: int) returns (fired: nat)
      modifies this
      ensures State() == AfterShoot(Config(), old(State()), now)
      ensures fired == ProjectilesFired(Config(), old(State()), now)
    {
      fired := 0;
      if !isReloading && now > nextShotTime && projectilesRemainingInMag > 0 {
        if fireMode == FireMode.Burst {
          if shotsRemainingInBurst == 0 {
            return;
          }
          shotsRemainingInBurst := shotsRemainingInBurst - 1;
        } else if fireMode == FireMode.Single {
          if !triggerReleasedSinceLastShot {
            return;
          }
        }
        ghost var mag0, next0, burst1 := projectilesRemainingInMag, nextShotTime, shotsRemainingInBurst;
        for i := 0 to spawnPoints
          invariant fired <= i && projectilesRemainingInMag == mag0 - fired && projectilesRemainingInMag >= 0
          invariant fired < i ==> projectilesRemainingInMag == 0
          invariant nextShotTime == if fired > 0 then now + shotInterval else next0
          invariant shotsRemainingInBurst == burst1 && isReloading == old(isReloading)
          invariant triggerReleasedSinceLastShot == old(triggerReleasedSinceLastShot)
        {
          if projectilesRemainingInMag == 0 {
            break;
          }
          projectilesRemainingInMag := projectilesRemainingInMag - 1;
          nextShotTime := now + shotInterval;
          fired := fired + 1;
        }
      }
    }

    method Reload()
      modifies this
      ensures State() == AfterReload(Config(), old(State()))
    {
      if !isReloading && projectilesRemainingInMag != projectilesPerMag {
        isReloading := true;
      }
    }

    /** The last two statements of AnimateReload, once the animation loop has finished. */
    method FinishReload()
      modifies this
      ensures State() == AfterReloadFinished(Config(), old(State()))
    {
      isReloading := false;
      projectilesRemainingInMag := projectilesPerMag;
    }

    method OnTriggerHold(now: int) returns (fired: nat)
      modifies this
      ensures State() == AfterTriggerHold(Config(), old(State()), now)
      ensures fired == ProjectilesFired(Config(), old(State()), now)
    {
      fired := Shoot(now);
      triggerReleasedSinceLastShot := false;
    }

    method OnTriggerRelease()
      modifies this
      ensures State() == AfterTriggerRelease(Config(), old(State()))
    {
      triggerReleasedSinceLastShot := true;
      shotsRemainingInBurst := burstCount;
    }

    /**
     * The LateUpdate guard; true when it would Invoke Reload, which then starts a reload unless
     * the magazine holds nothing; until then no shot fires. The fire state itself is not touched
     * (recoil is not modelled).
     */
    method LateUpdate() returns (reloadScheduled: bool)
      ensures reloadScheduled <==> AutoReloadDue(State())
      ensures reloadScheduled && projectilesPerMag != 0 ==> AfterReload(Config(), State()).isReloading
      ensures reloadScheduled ==> forall now :: ProjectilesFired(Config(), State(), now) == 0
    {
      reloadScheduled := !isReloading && projectilesRemainingInMag == 0;
      if reloadScheduled && projectilesPerMag != 0 {
        AutoReloadStarts(Config(), State());
      }
    }
  }
}
