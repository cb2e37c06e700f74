/** The broker operation that deletes a site, and the identity steps it uses. It has no rollback: every
    attempt goes on destroying where the previous one was cut off. */
module SiteDeletion {
  import opened Faults
  import opened DeletionProtocol

  /** Finished: no error. Refused: an error or an end without an answer. */
  datatype Answer = Finished | Refused

  function FilesInOrder(site: Site): seq<DeletionFile> {
    [Available(HttpLink), Available(TlsLink), NginxSnippet, PhpSnippet]
    + (if site.staging then [StagingAuth] else [])
    + (if HasPhp(site) then PoolFiles(site.branches) else [])
    + (if site.kind == Python then [UnitFile(Socket), UnitFile(Service)] else [])
  }

  function PoolFiles(branches: seq<Version>): (r: seq<DeletionFile>)
    ensures forall f :: f in r <==> (f.Pool? || f.PreviousPool?) && f.version in branches
  {
    if branches == [] then [] else [Pool(branches[0]), PreviousPool(branches[0])] + PoolFiles(branches[1..])
  }

  /** The list walked at the end names exactly what the specification lists. */
  lemma ListComplete(site: Site)
    ensures forall f :: f in FilesInOrder(site) <==> f in Listed(site)
  {
    var pools := (set v | v in site.branches :: Pool(v)) + (set v | v in site.branches :: PreviousPool(v));
    forall f ensures f in PoolFiles(site.branches) <==> f in pools {
    }
    var head := [Available(HttpLink), Available(TlsLink), NginxSnippet, PhpSnippet];
    var auth := if site.staging then [StagingAuth] else [];
    var php := if HasPhp(site) then PoolFiles(site.branches) else [];
    var units := if site.kind == Python then [UnitFile(Socket), UnitFile(Service)] else [];
    forall f ensures f in FilesInOrder(site) <==> f in head || f in auth || f in php || f in units {
    }
  }

  class Host {
    const site: Site
    var record: Option<DeletionRecord>
    var links: set<Link>
    var traffic: set<Link>
    var active: set<Unit>
    var wanted: bool
    var running: set<Version>
    var loaded: set<Version>
    var cron: bool
    var hosting: bool
    var processes: bool
    var database: bool
    var secret: bool
    var tree: Tree
    var files: set<DeletionFile>
    var account: Option<Identity>
    var calm: bool
    ghost var trail: seq<World>

    constructor (site: Site, w: World)
      requires Start(site, w)
      ensures Valid() && Now() == w && this.site == site
    {
      this.site, calm := site, false;
      record, links, traffic, active, wanted := w.record, w.links, w.traffic, w.active, w.wanted;
      running, loaded := w.running, w.loaded;
      cron, hosting, processes, database, secret := w.cron, w.hosting, w.processes, w.database, w.secret;
      tree, files, account, trail := w.tree, w.files, w.account, [w];
    }

    ghost function Now(): World
      reads this
    {
      World(record, links, traffic, active, wanted, running, loaded, cron, hosting, processes,
            database, secret, tree, files, account)
    }

    ghost predicate Valid()
      reads this
    {
      |trail| > 0 && Run(site, trail) && trail[|trail| - 1] == Now() && Inv(site, Now())
    }

    ghost method Step()
      requires |trail| > 0 && Run(site, trail) && Inv(site, trail[|trail| - 1]) && Next(site, trail[|trail| - 1], Now())
      modifies `trail
      ensures Valid() && Extends(old(trail), trail)
    {
      hide Inv, Next;
      NextKeepsInv(site, trail[|trail| - 1], Now());
      trail := trail + [Now()];
    }

    /** After a stop of the broker everything may have been through a reboot. */
    method MaybeReboot()
      requires Valid()
      modifies `traffic, `loaded, `running, `active, `processes, `trail
      ensures Valid() && Extends(old(trail), trail)
    {
      hide Inv, Run, Begin, Progress;
      var reboot := *;
      if reboot {
        var run: set<Version>, load: set<Version>, units: set<Unit> := *, *, *;
        traffic, running, loaded := links, run, set v | v in load && Pool(v) in files;
        active, processes := if wanted then units else {}, false;
        Step();
      }
    }

    method MaybeConnect()
      requires Valid()
      modifies `active, `trail
      ensures Valid() && Extends(old(trail), trail)
      ensures old(active) <= active && (Socket !in old(active) ==> active == old(active))
    {
      hide Inv, Run, Begin, Progress, Reboot;
      var connect := *;
      if connect && Socket in active {
        active := active + {Service};
        Step();
      }
    }

    /** Between two steps a connection may start the service behind the socket, and whatever is able to may
        start processes. */
    method Elapse(o: Outcome)
      requires Valid()
      modifies `traffic, `loaded, `running, `active, `processes, `trail
      ensures Valid() && Extends(old(trail), trail)
      ensures !o.Killed? ==> traffic == old(traffic) && loaded == old(loaded) && running == old(running)
      ensures !o.Killed? ==> old(active) <= active && (Socket !in old(active) ==> active == old(active))
      ensures !o.Killed? && Quiet(Now()) && old(Idle(Now())) ==> Idle(Now())
      ensures !o.Killed? && account.None? ==> processes == old(processes)
    {
      hide Inv, Run, Begin, Progress, Reboot;
      if o.Killed? { MaybeReboot(); }
      MaybeConnect();
      var spawn := *;
      if spawn && account.Some? && (active != {} || loaded != {} || cron || hosting) {
        processes := true;
        Step();
      }
    }

    /** A check or a command without an effect on the modelled state. */
    method Command() returns (o: Outcome)
      requires Valid()
      modifies `traffic, `loaded, `running, `active, `processes, `trail
      ensures Valid() && Extends(old(trail), trail) && (calm ==> o.Done?)
      ensures !o.Killed? ==> traffic == old(traffic) && loaded == old(loaded) && running == old(running)
      ensures !o.Killed? ==> old(active) <= active && (Socket !in old(active) ==> active == old(active))
      ensures !o.Killed? && Quiet(Now()) && old(Idle(Now())) ==> Idle(Now())
      ensures !o.Killed? && account.None? ==> processes == old(processes)
    {
      hide Valid, Quiet, Idle;
      o := Draw(calm);
      Elapse(o);
    }

    method WriteRecord(r: DeletionRecord) returns (o: Outcome)
      requires Valid() && Next(site, Now(), Now().(record := Some(r)))
      modifies `record, `traffic, `loaded, `running, `active, `processes, `trail
      ensures Valid() && Extends(old(trail), trail) && (calm ==> o.Done?)
      ensures record == old(record) || record == Some(r)
      ensures o.Done? ==> record == Some(r)
      ensures !o.Killed? ==> traffic == old(traffic) && loaded == old(loaded) && running == old(running)
    {
      hide Inv, Run, Next, Quiet, Idle;
      o := Draw(calm);
      var effective := Effect(o);
      if effective {
        record := Some(r);
        Step();
      }
      Elapse(o);
    }

    /** Traffic links go first, then Nginx lets go of them. */
    method CloseSite() returns (o: Outcome)
      requires Valid() && Underway(Now())
      modifies `links, `traffic, `loaded, `running, `active, `processes, `trail
      ensures Valid() && Extends(old(trail), trail) && (calm ==> o.Done?)
      ensures o.Done? ==> links == traffic == {} && loaded == old(loaded) && running == old(running)
    {
      hide Inv, Run, Next, Quiet, Idle;
      o := RemoveLinks();
      if !o.Done? { return; }
      o := Command();
      if !o.Done? { return; }
      o := Draw(calm);
      var effective := Effect(o);
      if effective {
        ghost var was := Now();
        traffic := links;
        MayClose(site, was, Now());
        Step();
      }
      Elapse(o);
    }

    method RemoveLinks() returns (o: Outcome)
      requires Valid() && Underway(Now())
      modifies `links, `traffic, `loaded, `running, `active, `processes, `trail
      ensures Valid() && Extends(old(trail), trail) && (calm ==> o.Done?)
      ensures o.Done? ==> links == {} && loaded == old(loaded) && running == old(running)
    {
      hide Inv, Run, Next, Quiet, Idle;
      o := Done;
      for index := 0 to 2
        invariant Valid() && Underway(Now()) && Extends(old(trail), trail) && o.Done?
        invariant loaded == old(loaded) && running == old(running)
        invariant index > 0 ==> HttpLink !in links
        invariant index > 1 ==> TlsLink !in links
      {
        o := Draw(calm);
        var effective := Effect(o);
        if effective {
          ghost var was := Now();
          links := links - {if index == 0 then HttpLink else TlsLink};
          MayClose(site, was, Now());
          Step();
        }
        Elapse(o);
        if !o.Done? { return; }
      }
      forall l ensures l !in links { assert l == HttpLink || l == TlsLink; }
    }

    /** `disable --now` on the socket, then `stop` on the service; systemd needs the unit files for both,
        so an undisturbed attempt succeeds exactly if they exist. */
    method StopPython() returns (o: Outcome)
      requires Valid() && Underway(Now()) && !record.value.runtimeStopped && site.kind == Python
      modifies `wanted, `traffic, `loaded, `running, `active, `processes, `trail
      ensures Valid() && Extends(old(trail), trail)
      ensures calm ==> !o.Killed? && (o.Done? <==> UnitsKnown(site, files))
      ensures o.Done? ==> UnitsKnown(site, files) && active == {} && !wanted
      ensures o.Done? ==> traffic == old(traffic) && loaded == old(loaded) && running == old(running)
    {
      hide Inv, Run, Next, Quiet, Idle;
      o := Done;
      for index := 0 to 2
        invariant Valid() && Underway(Now()) && !record.value.runtimeStopped && Extends(old(trail), trail) && o.Done?
        invariant traffic == old(traffic) && loaded == old(loaded) && running == old(running)
        invariant index > 0 ==> UnitFile(Socket) in files && Socket !in active && !wanted
        invariant index > 1 ==> UnitFile(Service) in files && Service !in active
      {
        o := StopUnit(if index == 0 then Socket else Service);
        if !o.Done? { return; }
      }
      forall u ensures u !in active { assert u == Socket || u == Service; }
    }

    method StopUnit(u: Unit) returns (o: Outcome)
      requires Valid() && Underway(Now()) && !record.value.runtimeStopped
      modifies `wanted, `traffic, `loaded, `running, `active, `processes, `trail
      ensures Valid() && Extends(old(trail), trail)
      ensures calm ==> !o.Killed? && (o.Done? <==> UnitFile(u) in files)
      ensures o.Done? ==> UnitFile(u) in files && (u == Socket ==> !wanted) && (!old(wanted) ==> !wanted)
      ensures o.Done? && (u == Socket || Socket !in old(active)) ==> active <= old(active) - {u}
      ensures o.Done? && u == Socket ==> Socket !in active
      ensures !o.Killed? ==> traffic == old(traffic) && loaded == old(loaded) && running == old(running)
    {
      hide Inv, Run, Next, Quiet, Idle;
      o := Draw(calm);
      if UnitFile(u) !in files {
        if o.Done? { o := Failed; }
      } else {
        var effective := Effect(o);
        if effective {
          ghost var was := Now();
          active, wanted := active - {u}, wanted && u != Socket;
          MayStopUnit(site, u, was);
          Step();
        }
      }
      Elapse(o);
    }

    /** Whether the command for a branch can work: a reload needs a running service, a stop an installed one. */
    predicate Responsive(v: Version)
      reads this
    {
      if v in site.others then v in running else v in site.installed
    }

    /** The pool of the site is gone from the branch: it is reloaded if other pools need it, else stopped. */
    method ReloadOrStopUnused(v: Version) returns (o: Outcome)
      requires Valid() && Underway(Now()) && !record.value.runtimeStopped && v in record.value.versions
      requires Pool(v) !in files
      modifies `traffic, `loaded, `running, `active, `processes, `trail
      ensures Valid() && Extends(old(trail), trail)
      ensures calm ==> !o.Killed? && (o.Done? <==> old(Responsive(v)))
      ensures o.Done? ==> traffic == old(traffic) && loaded == old(loaded) - {v}
      ensures o.Done? ==> running == if v in site.others then old(running) else old(running) - {v}
      ensures o.Done? && old(active) == {} ==> active == {}
    {
      hide Valid, Quiet, Idle;
      o := Done;
      if v in site.others { o := Command(); }            // php-fpm -t
      if !o.Done? { return; }
      if Responsive(v) {
        o := StopOrReload(v);
      } else {
        o := Command();
        if o.Done? { o := Failed; }
      }
    }

    method StopOrReload(v: Version) returns (o: Outcome)
      requires Valid() && Underway(Now()) && !record.value.runtimeStopped && v in record.value.versions
      requires Pool(v) !in files
      modifies `traffic, `loaded, `running, `active, `processes, `trail
      ensures Valid() && Extends(old(trail), trail) && (calm ==> o.Done?)
      ensures o.Done? ==> traffic == old(traffic) && loaded == old(loaded) - {v}
      ensures o.Done? ==> running == if v in site.others then old(running) else old(running) - {v}
      ensures o.Done? && old(active) == {} ==> active == {}
    {
      hide Inv, Run, Next, Quiet, Idle;
      var rest := if v in site.others then running else running - {v};
      o := Draw(calm);
      var effective := Effect(o);
      if effective {
        ghost var was := Now();
        running, loaded := rest, loaded - {v};
        MayLetGo(site, v, was, rest);
        Step();
      }
      Elapse(o);
    }

    method DropPool(v: Version) returns (o: Outcome)
      requires Valid() && Underway(Now()) && !record.value.runtimeStopped && v in record.value.versions
      modifies `files, `traffic, `loaded, `running, `active, `processes, `trail
      ensures Valid() && Extends(old(trail), trail) && (calm ==> o.Done?)
      ensures files == old(files) || files == old(files) - {Pool(v)}
      ensures o.Done? ==> files == old(files) - {Pool(v)}
      ensures !o.Killed? ==> traffic == old(traffic) && loaded == old(loaded) && running == old(running)
      ensures !o.Killed? ==> old(active) <= active && (Socket !in old(active) ==> active == old(active))
    {
      hide Inv, Run, Next, Quiet, Idle;
      o := Draw(calm);
      var effective := Effect(o);
      if effective {
        ghost var was := Now();
        files := files - {Pool(v)};
        MayDropPool(site, was, Now());
        Step();
      }
      Elapse(o);
    }

    /** A reload may be acknowledged before the old listener is gone; what still serves keeps the wait from
        succeeding, whether its branch was recorded or not. */
    method WaitSocketStopped() returns (o: Outcome)
      requires Valid()
      modifies `traffic, `loaded, `running, `active, `processes, `trail
      ensures Valid() && Extends(old(trail), trail)
      ensures calm ==> !o.Killed? && (o.Done? <==> old(loaded) == {})
      ensures o.Done? ==> loaded == {} && traffic == old(traffic) && running == old(running)
      ensures o.Done? ==> old(active) <= active && (Socket !in old(active) ==> active == old(active))
    {
      hide Valid, Quiet, Idle;
      var silent := loaded == {};
      o := Command();
      if o.Done? && !silent { o := Failed; }
    }

    /** Whether the recorded branches can all be reconciled, and nothing but them serves the site. */
    predicate Releasable(versions: seq<Version>)
      reads this
    {
      && (forall v <- versions :: Responsive(v))
      && (versions != [] ==> forall v <- loaded :: v in versions)
    }

    method ReleasePool(v: Version) returns (o: Outcome)
      requires Valid() && Underway(Now()) && !record.value.runtimeStopped && v in record.value.versions
      modifies `files, `traffic, `loaded, `running, `active, `processes, `trail
      ensures Valid() && Extends(old(trail), trail)
      ensures calm ==> !o.Killed? && (o.Done? <==> old(Responsive(v)))
      ensures files == old(files) || files == old(files) - {Pool(v)}
      ensures o.Done? ==> Pool(v) !in files && traffic == old(traffic) && loaded == old(loaded) - {v}
      ensures o.Done? ==> running == if v in site.others then old(running) else old(running) - {v}
      ensures o.Done? && old(active) == {} ==> active == {}
    {
      hide Valid, Quiet, Idle;
      o := DropPool(v);
      if !o.Done? { return; }
      o := ReloadOrStopUnused(v);
    }

    /** The recorded branches, not those that a new scan would find. */
    method ReleasePools() returns (o: Outcome)
      requires Valid() && Underway(Now()) && !record.value.runtimeStopped
      modifies `files, `traffic, `loaded, `running, `active, `processes, `trail
      ensures Valid() && Extends(old(trail), trail)
      ensures calm ==> !o.Killed? && (o.Done? <==> old(Releasable(record.value.versions)))
      ensures o.Done? ==> (if record.value.versions == [] then loaded == old(loaded) else loaded == {})
      ensures o.Done? ==> forall v <- record.value.versions :: Pool(v) !in files
      ensures o.Done? ==> traffic == old(traffic) && (old(active) == {} ==> active == {})
      ensures forall f <- old(files) :: f in files || f.Pool?
    {
      hide Valid, Quiet, Idle;
      o := Done;
      var versions := record.value.versions;
      for k := 0 to |versions|
        invariant Valid() && Underway(Now()) && !record.value.runtimeStopped && Extends(old(trail), trail) && o.Done?
        invariant traffic == old(traffic) && versions == record.value.versions && (old(active) == {} ==> active == {})
        invariant forall f <- old(files) :: f in files || f.Pool?
        invariant forall i :: 0 <= i < k ==> Pool(versions[i]) !in files
        invariant forall v :: v in loaded <==> v in old(loaded) && v !in versions[..k]
        invariant forall v <- site.others :: v in running <==> v in old(running)
        invariant calm ==> forall i :: 0 <= i < k ==> old(Responsive(versions[i]))
      {
        o := ReleasePool(versions[k]);
        if !o.Done? { return; }
      }
      assert versions[..|versions|] == versions;
      if versions != [] { o := WaitSocketStopped(); }
    }

    /** Cron entries; partly removed counts as not removed. */
    method RemoveCron() returns (o: Outcome)
      requires Valid() && Underway(Now()) && !record.value.runtimeStopped
      modifies `cron, `traffic, `loaded, `running, `active, `processes, `trail
      ensures Valid() && Extends(old(trail), trail) && (calm ==> o.Done?)
      ensures o.Done? ==>
          !cron && traffic == old(traffic) && loaded == old(loaded) && (old(active) == {} ==> active == {})
    {
      hide Inv, Run, Next, Quiet, Idle;
      o := Draw(calm);
      var effective := Effect(o);
      if effective {
        ghost var was := Now();
        cron := false;
        MayDropJobs(site, was, Now());
        Step();
      }
      Elapse(o);
    }

    method RemoveHosting() returns (o: Outcome)
      requires Valid() && Underway(Now()) && !record.value.runtimeStopped
      modifies `hosting, `traffic, `loaded, `running, `active, `processes, `trail
      ensures Valid() && Extends(old(trail), trail) && (calm ==> o.Done?)
      ensures o.Done? ==>
          !hosting && traffic == old(traffic) && loaded == old(loaded) && (old(active) == {} ==> active == {})
    {
      hide Inv, Run, Next, Quiet, Idle;
      o := Draw(calm);
      var effective := Effect(o);
      if effective {
        ghost var was := Now();
        hosting := false;
        MayDropJobs(site, was, Now());
        Step();
      }
      Elapse(o);
    }

    /** What an undisturbed attempt needs to get past the services of the site. */
    predicate Stoppable()
      reads this
      requires record.Some?
    {
      record.value.runtimeStopped || (UnitsKnown(site, files) && Releasable(record.value.versions))
    }

    /** Stops the Python units or releases the PHP pools of the site. */
    method StopServices() returns (o: Outcome)
      requires Valid() && Underway(Now()) && !record.value.runtimeStopped
      modifies `files, `wanted, `traffic, `loaded, `running, `active, `processes, `trail
      ensures Valid() && Extends(old(trail), trail)
      ensures calm ==> !o.Killed? && (o.Done? <==> old(Stoppable()))
      ensures o.Done? ==> active == {} && !wanted && traffic == old(traffic) && UnitsKnown(site, files)
      ensures o.Done? ==> forall v <- record.value.versions :: Pool(v) !in files
      ensures o.Done? ==> (if record.value.versions == [] then loaded == old(loaded) else loaded == {})
    {
      hide Inv, Run, Next, Quiet, Idle;
      if site.kind == Python {
        o := StopPython();
        if !o.Done? { return; }
      } else {
        OnlyPythonIsActive(site, Now());
      }
      o := ReleasePools();
    }

    /** Everything up to the durable note that nothing can start the site's code any more. */
    method StopRuntime() returns (o: Outcome)
      requires Valid() && Underway(Now()) && links == traffic == {}
      modifies `record, `files, `wanted, `cron, `hosting, `traffic, `loaded, `running, `active, `processes, `trail
      ensures Valid() && Extends(old(trail), trail)
      ensures calm ==> !o.Killed? && (o.Done? <==> old(Stoppable()))
      ensures o.Done? ==> Stopped(Now()) && Underway(Now()) && (Overlooked(Now()) ==> old(Overlooked(Now())))
      ensures record == old(record) || record == Some(old(record).value.(runtimeStopped := true))
    {
      hide Inv, Run, Next, Idle;
      o := Done;
      if record.value.runtimeStopped { return; }
      o := StopServices();
      if !o.Done? { return; }
      o := RemoveCron();
      if !o.Done? { return; }
      o := RemoveHosting();
      if !o.Done? { return; }
      MayStop(site, Now());
      o := WriteRecord(record.value.(runtimeStopped := true));
    }

    /** Lookup without creation: an absent account is success on an interrupted replay. */
    method StopSite() returns (o: Outcome)
      requires Valid() && Underway(Now()) && Stopped(Now())
      modifies `traffic, `loaded, `running, `active, `processes, `trail
      ensures Valid() && Extends(old(trail), trail) && (calm ==> o.Done?)
      ensures o.Done? ==> Idle(Now()) && loaded == old(loaded)
    {
      hide Inv, Run, Next, Quiet;
      o := Command();
      WithoutIdentityNothingRuns(site, Now());
      if !o.Done? || account.None? { return; }
      o := Kill();
    }

    method Kill() returns (o: Outcome)
      requires Valid() && Underway(Now()) && Stopped(Now())
      modifies `traffic, `loaded, `running, `active, `processes, `trail
      ensures Valid() && Extends(old(trail), trail) && (calm ==> o.Done?)
      ensures o.Done? ==> Idle(Now()) && loaded == old(loaded)
    {
      hide Inv, Run, Next, Quiet;
      o := Draw(calm);
      var effective := Effect(o);
      if effective {
        ghost var was := Now();
        processes := false;
        MayDestroy(site, was, Now());
        Step();
      }
      Elapse(o);
      RuntimeIsQuiet(site, Now());
    }

    /** The generated database and its user. */
    method DropDatabase() returns (o: Outcome)
      requires Valid() && Underway(Now()) && Stopped(Now()) && Idle(Now()) && record.value.database
      modifies `database, `traffic, `loaded, `running, `active, `processes, `trail
      ensures Valid() && Extends(old(trail), trail) && (calm ==> o.Done?)
      ensures o.Done? ==> !database && Idle(Now()) && loaded == old(loaded)
    {
      hide Inv, Run, Next;
      o := Draw(calm);
      var effective := Effect(o);
      if effective {
        ghost var was := Now();
        database := false;
        MayDestroy(site, was, Now());
        Step();
      }
      Elapse(o);
      RuntimeIsQuiet(site, Now());
    }

    /** The secret that names the database goes after it. */
    method RemoveSecret() returns (o: Outcome)
      requires Valid() && Underway(Now()) && Stopped(Now()) && Idle(Now()) && record.value.database && !database
      modifies `secret, `traffic, `loaded, `running, `active, `processes, `trail
      ensures Valid() && Extends(old(trail), trail) && (calm ==> o.Done?)
      ensures o.Done? ==> !secret && Idle(Now()) && loaded == old(loaded)
    {
      hide Inv, Run, Next;
      o := Draw(calm);
      var effective := Effect(o);
      if effective {
        ghost var was := Now();
        secret := false;
        MayDestroy(site, was, Now());
        Step();
      }
      Elapse(o);
      RuntimeIsQuiet(site, Now());
    }

    /** Recursive removal, confined to the site's directory; cut off, it leaves a partial tree. */
    method RemoveTree() returns (o: Outcome)
      requires Valid() && Underway(Now()) && Stopped(Now()) && Idle(Now()) && DatabaseGone(Now())
      modifies `tree, `traffic, `loaded, `running, `active, `processes, `trail
      ensures Valid() && Extends(old(trail), trail) && (calm ==> o.Done?)
      ensures o.Done? ==> tree == Gone && Idle(Now()) && loaded == old(loaded)
    {
      hide Inv, Run, Next;
      o := Done;
      if tree == Gone { return; }
      o := Draw(calm);
      var touched := *;
      if o.Done? || touched {
        ghost var was := Now();
        tree := if o.Done? then Gone else Partial;
        MayDestroy(site, was, Now());
        Step();
      }
      Elapse(o);
      RuntimeIsQuiet(site, Now());
    }

    method RemoveFiles() returns (o: Outcome)
      requires Valid() && Underway(Now()) && Stopped(Now()) && Idle(Now()) && tree == Gone
      modifies `files, `traffic, `loaded, `running, `active, `processes, `trail
      ensures Valid() && Extends(old(trail), trail) && (calm ==> o.Done?)
      ensures o.Done? ==> files !! Listed(site) && Idle(Now()) && loaded == old(loaded)
    {
      hide Inv, Run, Next, Listed, FilesInOrder, Idle, Quiet;
      o := Done;
      var list := FilesInOrder(site);
      ListComplete(site);
      for k := 0 to |list|
        invariant Valid() && Underway(Now()) && Stopped(Now()) && Extends(old(trail), trail) && o.Done?
        invariant Idle(Now()) && tree == Gone && loaded == old(loaded)
        invariant forall i :: 0 <= i < k ==> list[i] !in files
      {
        o := RemoveFile(list[k]);
        if !o.Done? { return; }
      }
    }

    method RemoveFile(f: DeletionFile) returns (o: Outcome)
      requires Valid() && Underway(Now()) && Stopped(Now()) && Idle(Now()) && tree == Gone && f in Listed(site)
      modifies `files, `traffic, `loaded, `running, `active, `processes, `trail
      ensures Valid() && Extends(old(trail), trail) && (calm ==> o.Done?)
      ensures o.Done? ==> files == old(files) - {f} && Idle(Now()) && loaded == old(loaded)
    {
      hide Inv, Run, Next, Listed;
      o := Draw(calm);
      var effective := Effect(o);
      if effective {
        ghost var was := Now();
        files := files - {f};
        MayDestroy(site, was, Now());
        Step();
      }
      Elapse(o);
      RuntimeIsQuiet(site, Now());
    }

    /** The UID stays reserved until its files and its database are gone; an account with a running process
        is not released. */
    method RemoveAccount() returns (o: Outcome)
      requires Valid() && Underway(Now()) && Stopped(Now()) && Deleted(site, Now().(account := None))
      modifies `account, `traffic, `loaded, `running, `active, `processes, `trail
      ensures Valid() && Extends(old(trail), trail) && (calm && !old(Overlooked(Now())) ==> o.Done?)
      ensures o.Done? ==> Deleted(site, Now())
    {
      hide Inv, Run, Next, Listed;
      o := Done;
      if account.None? { return; }
      o := StopSite();
      if !o.Done? { return; }
      RuntimeIsQuiet(site, Now());
      if processes {
        o := Command();
        if o.Done? { o := Failed; }
      } else {
        o := Release();
      }
    }

    method Release() returns (o: Outcome)
      requires Valid() && Underway(Now()) && Stopped(Now()) && Deleted(site, Now().(account := None)) && !processes
      modifies `account, `traffic, `loaded, `running, `active, `processes, `trail
      ensures Valid() && Extends(old(trail), trail) && (calm ==> o.Done?)
      ensures o.Done? ==> Deleted(site, Now())
    {
      hide Inv, Run, Next, Listed;
      o := Draw(calm);
      var effective := Effect(o);
      if effective {
        ghost var was := Now();
        account := None;
        MayDestroy(site, was, Now());
        Step();
      }
      Elapse(o);
      RuntimeIsQuiet(site, Now());
    }

    method DestroyDatabase() returns (o: Outcome)
      requires Valid() && Underway(Now()) && Stopped(Now())
      modifies `database, `secret, `traffic, `loaded, `running, `active, `processes, `trail
      ensures Valid() && Extends(old(trail), trail) && (calm ==> o.Done?)
      ensures o.Done? ==> Idle(Now()) && DatabaseGone(Now()) && loaded == old(loaded)
    {
      hide Inv, Run, Next, Quiet;
      if record.value.identity.Some? {
        o := StopSite();
        if !o.Done? { return; }
      }
      WithoutIdentityNothingRuns(site, Now());
      o := Done;
      if record.value.database {
        o := DropDatabase();
        if !o.Done? { return; }
        o := RemoveSecret();
      }
    }

    method DestroyFiles() returns (o: Outcome)
      requires Valid() && Underway(Now()) && Stopped(Now()) && Idle(Now()) && DatabaseGone(Now())
      modifies `tree, `files, `traffic, `loaded, `running, `active, `processes, `trail
      ensures Valid() && Extends(old(trail), trail) && (calm ==> o.Done?)
      ensures o.Done? ==> tree == Gone && files !! Listed(site) && Idle(Now()) && loaded == old(loaded)
    {
      hide Inv, Run, Next, Listed;
      o := RemoveTree();
      if !o.Done? { return; }
      o := RemoveFiles();
      if !o.Done? { return; }
      RuntimeIsQuiet(site, Now());
      if site.kind == Python { o := Command(); }
      RuntimeIsQuiet(site, Now());
    }

    /** Everything that is destroyed once the site can no longer run. */
    method Destroy() returns (o: Outcome)
      requires Valid() && Underway(Now()) && Stopped(Now())
      modifies `database, `secret, `tree, `files, `account, `traffic, `loaded, `running, `active, `processes, `trail
      ensures Valid() && Extends(old(trail), trail) && (calm && !old(Overlooked(Now())) ==> o.Done?)
      ensures o.Done? ==> Deleted(site, Now())
    {
      hide Inv, Run, Next, Listed, Quiet;
      o := DestroyDatabase();
      if !o.Done? { return; }
      o := DestroyFiles();
      if !o.Done? { return; }
      RuntimeIsQuiet(site, Now());
      WithoutIdentityNothingRuns(site, Now());
      QuietWithoutAccount(Now());
      o := RemoveAccount();
    }

    /** What a first attempt finds out before it writes anything. */
    predicate Deletable()
      reads this
    {
      && site.managed && (tree != Gone ==> account.Some? && site.owned)
      && (site.kind == WordPress && !secret ==> !site.wpConfig)
    }

    /** The attempt gets to work: the record exists, or it may be written. */
    predicate Admitted()
      reads this
    {
      record.Some? || Deletable()
    }

    /** The branches on record, or those that a first attempt records. */
    function Branches(): seq<Version>
      reads this
    {
      if record.Some? then record.value.versions else PhpVersions(site, files)
    }

    /** The condition of convergence, on what a caller can see before the attempt: the unit files of a
        Python site exist, each branch to reconcile answers its command, and no other branch serves. */
    predicate Finishable()
      reads this
    {
      (record.Some? && record.value.runtimeStopped) || (UnitsKnown(site, files) && Releasable(Branches()))
    }

    /** Finds out whether the attempt may go on, and makes that durable before anything is touched. */
    method Admit() returns (ok: bool)
      requires Valid() && (record.Some? ==> Underway(Now()))
      modifies `record, `traffic, `active, `running, `loaded, `processes, `trail
      ensures Valid() && Extends(old(trail), trail)
      ensures old(record).Some? ==> record == old(record)
      ensures ok ==> Underway(Now()) && (old(record).None? ==> !record.value.runtimeStopped)
      ensures ok ==> record.value.versions == old(Branches()) && loaded == old(loaded) && running == old(running)
      ensures !old(Admitted()) ==> !ok && record.None?
      ensures calm && old(Admitted()) ==> ok
    {
      hide Inv, Run, Next, Quiet, Idle, PhpVersions;
      var o := Command();
      if !o.Done? { return false; }
      if record.None? {
        if !site.managed || (tree != Gone && (account.None? || !site.owned)) { return false; }
        if site.kind == WordPress && !secret && site.wpConfig { return false; }
        MayBegin(site, Now());
        o := WriteRecord(DeletionRecord(account, secret, PhpVersions(site, files), false, false));
        return o.Done?;
      }
      StillOwned(site, Now());
      return site.managed && (tree == Gone || (record.value.identity.Some? && site.owned));
    }

    /** One attempt of a deletion job, first or replayed. */
    method DeleteSite() returns (a: Answer)
      requires Valid()
      modifies `record, `links, `traffic, `active, `wanted, `running, `loaded, `cron, `hosting, `processes
      modifies `database, `secret, `tree, `files, `account, `trail
      ensures Valid() && Extends(old(trail), trail)
      // success means that nothing listed is left
      ensures a.Finished? ==> record.Some? && record.value.done && Deleted(site, Now())
      // an attempt refused before the record exists has changed no resource of the site
      ensures record.None? ==> SameResources(old(Now()), Now())
      ensures !old(Admitted()) ==> !a.Finished? && record.None?
      // what a first attempt refuses: unmanaged paths, a tree that is not the account's own, and a WordPress tree
      // whose database nobody can name
      ensures old(record).None? && (|| !site.managed || (old(tree) != Gone && (old(account).None? || !site.owned))
                                    || (site.kind == WordPress && !old(secret) && site.wpConfig)) ==>
                !a.Finished? && record.None?
      // a replay after the end does nothing
      ensures old(record).Some? && old(record).value.done ==>
                SameResources(old(Now()), Now()) && record == old(record) && (calm ==> a.Finished?)
      // an undisturbed attempt finishes exactly under the condition, wherever the previous one was cut off
      ensures calm && !old(Finishable()) ==> !a.Finished?
      ensures calm && old(Admitted()) && old(Finishable()) && !(old(Branches()) == [] && old(loaded) != {}) ==>
          a.Finished?
    {
      hide Inv, Run, Next, Listed, Deleted, Quiet, Idle, PhpVersions;
      var o := Command();
      if !o.Done? { return Refused; }
      if record.Some? && record.value.done {
        DoneIsDeleted(site, Now());
        return Finished;
      }
      var ok := Admit();
      if !ok { return Refused; }
      a := Proceed();
    }

    method Proceed() returns (a: Answer)
      requires Valid() && Underway(Now())
      modifies `record, `links, `traffic, `active, `wanted, `running, `loaded, `cron, `hosting, `processes
      modifies `database, `secret, `tree, `files, `account, `trail
      ensures Valid() && Extends(old(trail), trail) && record.Some?
      ensures a.Finished? ==> record.value.done && Deleted(site, Now())
      ensures calm && !old(Stoppable()) ==> !a.Finished?
      ensures calm && old(Stoppable()) && !old(Overlooked(Now())) ==> a.Finished?
    {
      hide Inv, Run, Next, Listed, Deleted, Quiet;
      var o := CloseSite();
      if !o.Done? { return Refused; }
      o := StopRuntime();
      if !o.Done? { return Refused; }
      o := Destroy();
      if !o.Done? { return Refused; }
      MayFinish(site, Now());
      o := WriteRecord(record.value.(done := true));
      if !o.Done? { return Refused; }
      DoneIsDeleted(site, Now());
      return Finished;
    }
  }
}
