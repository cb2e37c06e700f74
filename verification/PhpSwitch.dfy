/** The broker operation that moves a site to another PHP branch, with its rollback. */
module PhpSwitch {
  import opened Faults
  import opened PhpProtocol

  datatype Answer = Switched | PreviousRestored | Unfinished | Stopped

  function Unanswered(o: Outcome): Answer {
    if o.Killed? then Stopped else Unfinished
  }

  class Host {
    const site: Site
    var pools: map<Branch, string>
    var recovery: Option<string>
    var enabled: set<Branch>
    var running: set<Branch>
    var serving: set<Branch>
    var weather: Weather
    ghost var trail: seq<World>

    constructor (site: Site, recovery: Option<string>, enabled: set<Branch>, running: set<Branch>, serving: set<Branch>)
      requires Target !in serving
      ensures Valid() && pools == map[Previous := site.pool] && this.site == site
    {
      this.site, pools, this.recovery, weather := site, map[Previous := site.pool], recovery, Weather(0, true);
      this.enabled, this.running, this.serving := enabled, running, serving;
      trail := [World(map[Previous := site.pool], recovery, enabled, running, serving)];
    }

    ghost function Now(): World
      reads this
    {
      World(pools, recovery, enabled, running, serving)
    }

    ghost predicate Valid()
      reads this
    {
      |trail| > 0 && Run(site, trail) && trail[|trail| - 1] == Now() && Inv(site, Now())
    }

    ghost method Step()
      requires |trail| > 0 && Run(site, trail) && Inv(site, trail[|trail| - 1]) && Next(site, trail[|trail| - 1], Now())
      modifies `trail
      ensures Valid() && Extends(old(trail), trail)
    {
      hide Inv, Next;
      NextKeepsInv(site, trail[|trail| - 1], Now());
      trail := trail + [Now()];
    }

    /** After a stop of the broker the server may have been through a reboot. */
    method Survive(o: Outcome)
      requires Valid()
      modifies `running, `serving, `trail
      ensures Valid() && Extends(old(trail), trail)
      ensures !o.Killed? ==> running == old(running) && serving == old(serving)
    {
      hide Inv, Run;
      var reboot, back: set<Branch> := *, *;
      if o.Killed? && reboot {
        running := back * enabled;
        serving := set b | b in running && b in pools;
        Step();
      }
    }

    /** A check or a command without an effect on the modelled state. */
    method Command() returns (o: Outcome)
      requires Valid()
      modifies `running, `serving, `weather, `trail
      ensures Valid() && Extends(old(trail), trail) && old(weather).Allows(o, weather)
      ensures !o.Killed? ==> running == old(running) && serving == old(serving)
    {
      hide Inv, Run;
      o, weather := Try(weather);
      Survive(o);
    }

    /** `reload` needs a running service. */
    method LoadPools(b: Branch) returns (o: Outcome)
      requires Valid()
      modifies `running, `serving, `weather, `trail
      ensures Valid() && Extends(old(trail), trail)
      ensures old(weather).Allows(if b in old(running) || o.Killed? then o else Done, weather)
      ensures o.Done? ==> b in old(running)
      ensures o.Done? ==> serving == if b in pools then old(serving) + {b} else old(serving) - {b}
      ensures !o.Killed? ==> running == old(running)
    {
      hide Inv, Run;
      o, weather := Try(weather);
      if b !in running {
        if o.Done? { o := Failed; }
      } else {
        var effective := Effect(o);
        if effective {
          serving := if b in pools then serving + {b} else serving - {b};
          Step();
        }
      }
      Survive(o);
    }

    /** `enable --now`. */
    method StartService(b: Branch) returns (o: Outcome)
      requires Valid()
      modifies `enabled, `running, `serving, `weather, `trail
      ensures Valid() && Extends(old(trail), trail) && old(weather).Allows(o, weather)
      ensures o.Done? ==> b in enabled && b in running
      ensures !o.Killed? ==> old(running) <= running
    {
      hide Inv, Run;
      o, weather := Try(weather);
      var effective := Effect(o);
      if effective {
        enabled, running := enabled + {b}, running + {b};
        serving := if b in pools then serving + {b} else serving;
        Step();
      }
      Survive(o);
    }

    /** `disable --now`, for a branch that nothing needs. */
    method StopService(b: Branch) returns (o: Outcome)
      requires Valid() && b !in pools && b !in site.others
      modifies `enabled, `running, `serving, `weather, `trail
      ensures Valid() && Extends(old(trail), trail) && old(weather).Allows(o, weather)
      ensures o.Done? ==> b !in serving
      ensures !o.Killed? ==> running == old(running) || running == old(running) - {b}
    {
      hide Inv, Run;
      o, weather := Try(weather);
      var effective := Effect(o);
      if effective {
        enabled, running, serving := enabled - {b}, running - {b}, serving - {b};
        Step();
      }
      Survive(o);
    }

    /** Whether the command for a branch can work: a reload needs a running service. */
    predicate Responsive(b: Branch)
      reads this
    {
      b in site.others ==> b in running
    }

    /** The pool of the site is gone from the branch; other pools than the distribution's default keep the
        branch running. */
    method ReloadOrStopUnused(b: Branch) returns (o: Outcome)
      requires Valid() && b !in pools
      modifies `enabled, `running, `serving, `weather, `trail
      ensures Valid() && Extends(old(trail), trail)
      ensures old(weather).Allows(if old(Responsive(b)) || o.Killed? then o else Done, weather)
      ensures o.Done? ==> old(Responsive(b))
      ensures !o.Killed? ==> running == old(running) || running == old(running) - {b}
      ensures o.Done? ==> b !in serving
    {
      hide Valid;
      if b in site.others {
        o := Command();                                 // php-fpm -t
        if o.Done? { o := LoadPools(b); }
      } else {
        o := StopService(b);
      }
    }

    /** Nothing has been taken away yet: the previous service is confirmed to be there. */
    method UnchangedFailure(hadPool: bool) returns (a: Answer)
      requires Valid() && (hadPool ==> Previous in pools)
      modifies `running, `serving, `weather, `trail
      ensures Valid() && Extends(old(trail), trail)
      ensures a == PreviousRestored || a == Unfinished || a == Stopped
      ensures a.PreviousRestored? ==> Previous in pools && Previous in running && Previous in serving
      ensures !a.Stopped? ==> running == old(running) && serving == old(serving)
      ensures old(weather).Calm() ==>
                (a.PreviousRestored? <==> hadPool && Previous in old(running) && Previous in old(serving))
    {
      hide Valid;
      if !hadPool { return Unfinished; }
      var o := Command();                               // is-active
      if o.Killed? { return Stopped; }
      if o.Failed? || Previous !in running { return Unfinished; }
      o := Command();                                   // socket ready
      if o.Killed? { return Stopped; }
      return if o.Done? && Previous in serving then PreviousRestored else Unfinished;
    }

    method WithdrawTarget() returns (o: Outcome)
      requires Valid() && recovery == Some(site.pool)
      modifies `pools, `enabled, `running, `serving, `weather, `trail
      ensures Valid() && Extends(old(trail), trail)
      ensures old(weather).Allows(if old(Responsive(Target)) || o.Killed? then o else Done, weather)
      ensures o.Done? ==> old(Responsive(Target))
      ensures o.Done? ==> Target !in pools && Target !in serving
    {
      hide Inv, Run;
      o, weather := Try(weather);
      var effective := AtomicEffect(o);
      if effective {
        pools := pools - {Target};
        Step();
      }
      Survive(o);
      if o.Done? { o := ReloadOrStopUnused(Target); }
    }

    method RestorePool() returns (o: Outcome)
      requires Valid() && Target !in pools && Target !in serving
      modifies `pools, `running, `serving, `weather, `trail
      ensures Valid() && Extends(old(trail), trail) && old(weather).Allows(o, weather)
      ensures o.Done? ==> Previous in pools
    {
      hide Inv, Run;
      o, weather := Try(weather);
      var effective := Effect(o);
      if effective {
        pools := pools[Previous := site.pool];
        Step();
      }
      Survive(o);
    }

    /** Stop listening on the shared socket before its old owner comes back. */
    method Rollback() returns (a: Answer)
      requires Valid() && recovery == Some(site.pool)
      modifies `pools, `enabled, `running, `serving, `weather, `trail
      ensures Valid() && Extends(old(trail), trail) && !a.Switched?
      ensures a.PreviousRestored? ==>
          Previous in pools && Target !in pools && Previous in serving && Previous in enabled
      ensures old(weather).Calm() ==> (a.PreviousRestored? <==> old(Responsive(Target)))
    {
      hide Inv, Run;
      var o := WithdrawTarget();
      if !o.Done? { return Unanswered(o); }
      o := RestorePool();
      if !o.Done? { return Unanswered(o); }
      o := Command();                                   // php-fpm -t
      if o.Done? { o := StartService(Previous); }
      if o.Done? { o := LoadPools(Previous); }
      if o.Done? { o := Command(); }                    // is-active
      if o.Done? { o := Command(); }                    // socket ready
      if !o.Done? { return Unanswered(o); }
      Truthful(site, Now());
      return PreviousRestored;
    }

    method InstallPool() returns (o: Outcome)
      requires Valid() && Previous !in pools && Previous !in serving && recovery == Some(site.pool)
      modifies `pools, `running, `serving, `weather, `trail
      ensures Valid() && Extends(old(trail), trail) && old(weather).Allows(o, weather)
      ensures o.Done? ==> Target in pools && Previous !in pools
      ensures !o.Killed? ==> running == old(running)
    {
      hide Inv, Run;
      o := Command();
      if !o.Done? { return; }
      o, weather := Try(weather);
      var effective := Effect(o);
      if effective {
        pools := pools[Target := site.rendered];
        Step();
      }
      Survive(o);
    }

    /** Writes the pool of the target branch and brings its service up. */
    method Ensure() returns (o: Outcome)
      requires Valid() && Previous !in pools && Previous !in serving && recovery == Some(site.pool)
      modifies `pools, `enabled, `running, `serving, `weather, `trail
      ensures Valid() && Extends(old(trail), trail) && old(weather).Allows(o, weather)
      ensures o.Done? ==> Target in pools && Previous !in pools && Target in serving && Target in enabled
      ensures !o.Killed? ==> old(running) <= running
    {
      hide Valid;
      o := InstallPool();
      if o.Done? { o := Command(); }                    // php-fpm -t
      if o.Done? { o := StartService(Target); }
      if o.Done? { o := LoadPools(Target); }
    }

    /** Saves the previous pool outside the pool directory's include pattern, then releases it. */
    method ReleasePrevious() returns (o: Outcome)
      requires Valid() && Previous in pools
      modifies `pools, `recovery, `running, `serving, `weather, `trail
      ensures Valid() && Extends(old(trail), trail) && old(weather).Allows(o, weather)
      ensures o.Done? ==> Previous !in pools && recovery == Some(site.pool)
      ensures o.Failed? ==> pools == old(pools)
      ensures !o.Killed? ==> running == old(running) && serving == old(serving)
    {
      hide Run;
      o, weather := Try(weather);
      var effective := Effect(o);
      if effective {
        recovery := Some(pools[Previous]);
        Step();
      }
      Survive(o);
      if !o.Done? { return; }
      o, weather := Try(weather);
      effective := AtomicEffect(o);
      if effective {
        pools := pools - {Previous};
        Step();
      }
      Survive(o);
    }

    lemma CopyIsThere(site: Site, w: World)
      requires Inv(site, w)
      ensures Previous !in w.pools ==> w.recovery == Some(site.pool)
      ensures Target in w.pools ==> w.pools[Target] == site.rendered && Previous !in w.pools && Previous !in w.serving
    {
    }

    /** Packages first, while the site still serves; then the previous pool is taken away. */
    method Prepare() returns (o: Outcome)
      requires Valid()
      modifies `pools, `recovery, `running, `serving, `weather, `trail
      ensures Valid() && Extends(old(trail), trail) && old(weather).Allows(o, weather)
      ensures o.Done? ==> Previous !in pools && recovery == Some(site.pool)
      ensures o.Failed? ==> pools == old(pools)
      ensures !o.Killed? ==> running == old(running) && serving == old(serving)
    {
      hide Run, Next, Inv;
      o := Command();
      if o.Done? && Previous in pools { o := ReleasePrevious(); }
      CopyIsThere(site, Now());
    }

    /** The previous branch lets go of the socket, and the target takes it over. */
    method BringUpTarget() returns (o: Outcome)
      requires Valid() && Previous !in pools && recovery == Some(site.pool)
      modifies `pools, `enabled, `running, `serving, `weather, `trail
      ensures Valid() && Extends(old(trail), trail)
      ensures old(weather).Allows(if old(Responsive(Previous)) || o.Killed? then o else Done, weather)
      ensures o.Done? ==> old(Responsive(Previous)) && Target in pools && Target in serving && Target in enabled
      ensures !o.Killed? ==> old(running) - {Previous} <= running && recovery == Some(site.pool)
      ensures !old(Responsive(Previous)) && o.Failed? ==> running - {Previous} <= old(running)
    {
      hide Inv, Run;
      o := ReloadOrStopUnused(Previous);
      if o.Done? { o := Ensure(); }
      if o.Done? { o := Command(); }                    // is-active
      if o.Done? { o := Command(); }                    // socket ready
      if o.Done? { o := Command(); }                    // nginx -t
      if o.Done? { o := Command(); }                    // nginx reload
    }

    /** One attempt of a PHP version change, first or replayed. */
    method ChangePHPVersion() returns (a: Answer)
      requires Valid()
      modifies `pools, `recovery, `enabled, `running, `serving, `weather, `trail
      ensures Valid() && Extends(old(trail), trail)
      ensures a.PreviousRestored? ==> Previous in pools && pools[Previous] == site.pool && Previous in serving
                                      && Target !in pools && Target !in serving
      ensures a.Switched? ==> Target in pools && pools[Target] == site.rendered && Previous !in pools
                              && Target in serving && Previous !in serving && Target in enabled
      // undisturbed, the switch succeeds exactly if the previous branch answers its command
      ensures old(weather).Calm() ==> (a.Switched? <==> old(Responsive(Previous)))
      ensures old(weather).Calm() && !a.Switched? ==> (a.PreviousRestored? <==> old(Responsive(Target)))
      // a single failure is undone, unless it comes before anything was taken away
      ensures old(weather).Mild() && old(Responsive(Previous) && Responsive(Target)) && a.Unfinished? ==>
                && pools == old(pools) && running == old(running) && serving == old(serving)
                && (Previous in pools && Previous in running && Previous in serving ==> Now() == old(Now()))
    {
      hide Run, Next, Inv;
      var hadPool := Previous in pools;
      var o := Command();                               // inspection, identity
      if !o.Done? { return Unanswered(o); }
      o := Prepare();
      if o.Killed? { return Stopped; }
      if o.Failed? {
        a := UnchangedFailure(hadPool);
        Truthful(site, Now());
        return;
      }
      o := BringUpTarget();
      if o.Killed? { return Stopped; }
      if o.Failed? {
        a := Rollback();
        Truthful(site, Now());
        return;
      }
      CopyIsThere(site, Now());
      return Switched;
    }

    lemma Truthful(site: Site, w: World)
      requires Inv(site, w)
      ensures Previous in w.pools ==> w.pools[Previous] == site.pool && Target !in w.pools && Target !in w.serving
    {
    }
  }
}
