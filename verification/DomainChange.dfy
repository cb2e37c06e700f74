/** The broker operation that changes a site's domain, step by step on a host whose commands fail,
    whose journal writes may be ambiguous, and which may be killed or rebooted between any two steps
    while visitors keep writing whenever the site is reachable. */
module DomainChange {
  import opened Faults
  import opened HostRewrite
  import opened MaintenanceGate
  import opened DomainProtocol

  /** Stopped: the broker was killed and answered nothing. Unfinished: an error that keeps the
      reservation. PreviousRestored: an error that releases the site to its ordinary tools. */
  datatype Answer = Succeeded | PreviousRestored | Unfinished | Stopped

  function Unanswered(o: Outcome): Answer {
    if o.Killed? then Stopped else Unfinished
  }

  datatype WordPressCommand = RewriteUrls | ClearCache | UpdateHome | UpdateSiteurl | CheckTables

  class Host {
    const site: Site
    var journal: Option<Journal>
    var http: Vhost
    var tls: Vhost
    var live: Live
    var database: Database
    var snapshot: Option<Database>
    var weather: Weather
    ghost var accepted: seq<string>
    ghost var trail: seq<World>     // every state the host has been through

    constructor (site: Site, http: Vhost, tls: Vhost, live: Live, cells: seq<string>)
      requires ValidSite(site) && Normal(http) && Normal(tls)
      ensures Valid() && this.site == site && journal.None? && this.http == http && this.tls == tls && this.live == live
    {
      this.site, this.http, this.tls, this.live, weather := site, http, tls, live, Weather(0, true);
      journal, snapshot := None, None;
      database, accepted := Original(site, cells), cells;
      trail := [World(None, http, tls, live, Original(site, cells), None, cells)];
    }

    ghost function Now(): World
      reads this
    {
      World(journal, http, tls, live, database, snapshot, accepted)
    }

    ghost predicate Valid()
      reads this
    {
      && ValidSite(site) && |trail| > 0 && Run(site, trail) && trail[|trail| - 1] == Now()
      && Inv(site, Now())
    }

    /** Only visitors may have changed the database, and only if they could. */
    twostate predicate OnlyVisits()
      reads this
    {
      && database.home == old(database).home && database.siteurl == old(database).siteurl
      && (!Serving(live) ==> database == old(database) && accepted == old(accepted))
    }

    ghost method Step()
      requires |trail| > 0 && ValidSite(site) && Run(site, trail)
      requires Inv(site, trail[|trail| - 1]) && Next(site, trail[|trail| - 1], Now())
      modifies `trail
      ensures Valid() && Extends(old(trail), trail)
    {
      hide Inv, Next, ValidSite;
      NextKeepsInv(site, trail[|trail| - 1], Now());
      trail := trail + [Now()];
    }

    /** What happens around the broker between two of its steps. */
    method Elapse(o: Outcome)
      requires Valid()
      modifies `live, `database, `accepted, `trail
      ensures Valid() && Extends(old(trail), trail)
      ensures !o.Killed? ==> live == old(live) && OnlyVisits()
    {
      var reboot := *;
      if o.Killed? && reboot {
        live := Load(http, tls);
        Step();
      }
      if Serving(live) {
        var writes: seq<string> := *;
        accepted := accepted + writes;
        database := database.(cells := database.cells + writes);
        Step();
      }
    }

    /** A command or a check without an effect on the modelled state. */
    method Command() returns (o: Outcome)
      requires Valid()
      modifies `live, `database, `accepted, `weather, `trail
      ensures Valid() && Extends(old(trail), trail) && old(weather).Allows(o, weather)
      ensures !o.Killed? ==> live == old(live) && OnlyVisits()
    {
      o, weather := Try(weather);
      Elapse(o);
    }

    /** The journal file is replaced by a rename; an error may come from before or after it. */
    method WriteJournal(j: Journal) returns (o: Outcome)
      requires Valid() && JournalStep(site, Now(), j)
      modifies `journal, `live, `database, `accepted, `weather, `trail
      ensures Valid() && Extends(old(trail), trail) && old(weather).Allows(o, weather)
      ensures o.Done? ==> journal == Some(j)
      ensures journal == old(journal) || journal == Some(j)
      ensures !o.Killed? ==> live == old(live) && OnlyVisits()
    {
      o, weather := Try(weather);
      var effective := Effect(o);
      if effective {
        journal := Some(j);
        Step();
      }
      Elapse(o);
    }

    /** `nginx -t`, then `systemctl reload`. */
    method ReloadNginx() returns (o: Outcome)
      requires Valid()
      modifies `live, `database, `accepted, `weather, `trail
      ensures Valid() && Extends(old(trail), trail) && old(weather).Allows(o, weather)
      ensures o.Done? ==> live == Load(http, tls)
      ensures !o.Killed? && (live == old(live) || !Serving(old(live))) && !Serving(live) ==>
          database == old(database) && accepted == old(accepted)
    {
      hide Inv, Run, Serving;
      o := Command();
      if o.Done? {
        o, weather := Try(weather);
        var effective := Effect(o);
        if effective {
          live := Load(http, tls);
          Step();
        }
        Elapse(o);
      }
    }

    /** One file or link of one virtual host. */
    method Put(secure: bool, v: Vhost) returns (o: Outcome)
      requires Valid()
      requires Configure(site, Now(), if secure then Now().(tls := v) else Now().(http := v))
      modifies `http, `tls, `live, `database, `accepted, `weather, `trail
      ensures Valid() && Extends(old(trail), trail) && old(weather).Allows(o, weather)
      ensures if secure then http == old(http) else tls == old(tls)
      ensures o.Done? ==> if secure then tls == v else http == v
      ensures !o.Killed? ==> live == old(live) && OnlyVisits()
    {
      hide Inv, Run, Configure, Target;
      o, weather := Try(weather);
      var effective := Effect(o);
      if effective {
        if secure { tls := v; } else { http := v; }
        Step();
      }
      Elapse(o);
    }

    function Disk(secure: bool): Vhost
      reads this
    {
      if secure then tls else http
    }

    method WriteVhost(secure: bool, t: Vhost) returns (o: Outcome)
      requires Valid() && journal.Some? && journal.value.phase in {Changing, Activating, RestoringTraffic}
      requires t == if secure then Target(site, journal.value).1 else Target(site, journal.value).0
      modifies `http, `tls, `live, `database, `accepted, `weather, `trail
      ensures Valid() && Extends(old(trail), trail) && old(weather).Allows(o, weather)
      ensures o.Done? ==> Disk(secure) == t
      ensures if secure then http == old(http) else tls == old(tls)
      ensures !o.Killed? ==> live == old(live) && OnlyVisits()
    {
      hide Inv, Run, Gate, Paused, Acceptable, Next, Serving;
      o := Done;
      TargetsNormal(site, Now());
      if t.present {
        o := Put(secure, Disk(secure).(content := t.content, present := true));
        if !o.Done? { return; }
      }
      if Disk(secure).enabled != t.enabled {
        o := Put(secure, Disk(secure).(enabled := t.enabled));
        if !o.Done? { return; }
      }
      if !t.present {
        o := Put(secure, ABSENT);
      }
    }

    /** Both paths are inspected before either is changed. */
    method WriteVhosts(t: (Vhost, Vhost)) returns (o: Outcome)
      requires Valid() && journal.Some? && journal.value.phase in {Changing, Activating, RestoringTraffic}
      requires t == Target(site, journal.value)
      modifies `http, `tls, `live, `database, `accepted, `weather, `trail
      ensures Valid() && Extends(old(trail), trail) && old(weather).Allows(o, weather)
      ensures o.Done? ==> http == t.0 && tls == t.1
      ensures !o.Killed? ==> live == old(live) && OnlyVisits()
    {
      hide Inv, Run, Gate, Paused, Acceptable, Next, Serving, Target;
      o := Command();
      if !o.Done? { return; }
      for index := 0 to 2
        invariant Valid() && Extends(old(trail), trail) && o.Done? && old(weather).Allows(Done, weather)
        invariant live == old(live) && OnlyVisits()
        invariant index > 0 ==> http == t.0
        invariant index > 1 ==> tls == t.1
      {
        o := WriteVhost(index == 1, if index == 1 then t.1 else t.0);
        if !o.Done? { return; }
      }
    }

    /** The export goes to a temporary file first; only the rename makes it the snapshot. */
    method ExportDatabase() returns (o: Outcome)
      requires Valid() && InPhase(Now(), Changing) && Gated(site, Now()) && !journal.value.backupReady
      modifies `snapshot, `live, `database, `accepted, `weather, `trail
      ensures Valid() && Extends(old(trail), trail) && old(weather).Allows(o, weather)
      ensures o.Done? ==> snapshot == Some(database)
      ensures snapshot == old(snapshot) || snapshot.Some?
      ensures !o.Killed? ==> live == old(live) && accepted == old(accepted) && database == old(database)
    {
      hide Inv, Run, Gated, Serving;
      ShutWhileUndecided(site, Now());
      o := Command();
      if o.Done? {
        o, weather := Try(weather);
        var effective := Effect(o);
        if effective {
          snapshot := Some(database);
          Step();
        }
        Elapse(o);
      }
    }

    /** A rewrite that is cut off has been through an arbitrary part of the tables. */
    method RunWordPress(c: WordPressCommand) returns (o: Outcome)
      requires Valid() && InPhase(Now(), Changing) && journal.value.databaseStarted
      modifies `live, `database, `accepted, `weather, `trail
      ensures Valid() && Extends(old(trail), trail) && old(weather).Allows(o, weather)
      ensures !o.Killed? ==> live == old(live) && accepted == old(accepted)
      ensures o.Done? ==>
        match c
        case RewriteUrls => |database.cells| == |old(database).cells|
                         && forall k :: 0 <= k < |database.cells| ==>
                             database.cells[k] == Rewrite(old(database).cells[k], site.was, site.now)
        case UpdateHome => database == old(database).(home := Authority("http", site.now))
        case UpdateSiteurl => database == old(database).(siteurl := Authority("http", site.now))
        case _ => database == old(database)
    {
      hide Inv, Run, Gated, Serving, Authority, Rewrite;
      ShutWhileUndecided(site, Now());
      o, weather := Try(weather);
      var effective := Effect(o);
      var d := database;
      match c {
        case RewriteUrls =>
          var all, hit: set<nat>, home, siteurl := effective, *, *, *;
          database := Database(
            seq(|d.cells|, k requires 0 <= k < |d.cells| =>
              if all || k in hit then Rewrite(d.cells[k], site.was, site.now) else d.cells[k]),
            if all || home then Rewrite(d.home, site.was, site.now) else d.home,
            if all || siteurl then Rewrite(d.siteurl, site.was, site.now) else d.siteurl);
          Step();
        case UpdateHome =>
          if effective { database := d.(home := Authority("http", site.now)); Step(); }
        case UpdateSiteurl =>
          if effective { database := d.(siteurl := Authority("http", site.now)); Step(); }
        case _ =>
      }
      Elapse(o);
    }

    /** `wp db import`; a cut-off import leaves an arbitrary database. */
    method ImportSnapshot() returns (o: Outcome)
      requires Valid() && InPhase(Now(), RollingBack) && journal.value.databaseStarted
      modifies `live, `database, `accepted, `weather, `trail
      ensures Valid() && Extends(old(trail), trail) && old(weather).Allows(o, weather)
      ensures o.Done? ==> snapshot == Some(database)
      ensures !o.Killed? ==> live == old(live) && accepted == old(accepted)
    {
      hide Inv, Run, Gated, Serving;
      ShutWhileUndecided(site, Now());
      o := Command();
      if o.Done? {
        o, weather := Try(weather);
        var debris: Database := *;
        database := if o.Done? then snapshot.value else debris;
        Step();
        Elapse(o);
      }
    }

    /** The checks WordPress itself makes before anything is changed, or before a change is resumed. */
    method Preflight() returns (o: Outcome)
      requires Valid()
      modifies `live, `database, `accepted, `weather, `trail
      ensures Valid() && Extends(old(trail), trail)
      ensures o.Done? ==> PreflightPasses(site, database)
      ensures old(weather).Allows(o, weather)
              || (!PreflightPasses(site, old(database)) && o.Failed? && old(weather).Allows(Done, weather))
      ensures !o.Killed? ==> live == old(live) && OnlyVisits()
    {
      hide Inv, Run, Serving, Authority;
      var pass := PreflightPasses(site, database);
      o := Command();
      if o.Done? && !pass { o := Failed; }
    }

    /** Puts the snapshot back if the database was touched, and records that this is over before the
        previous site is opened. own is the broker's copy of the journal, which may be ahead of the
        durable one by a failed write. */
    method UndoDatabase(own: Journal) returns (o: Outcome)
      requires Valid() && journal.Some?
      requires own.phase == Changing ==>
          InPhase(Now(), Changing) && JournalStep(site, Now(), own.(phase := RollingBack))
      requires own.phase != Changing ==> journal == Some(own) && own.phase == RollingBack
      modifies `journal, `live, `database, `accepted, `weather, `trail
      ensures Valid() && Extends(old(trail), trail) && old(weather).Allows(o, weather)
      ensures o.Done? ==> InPhase(Now(), RestoringTraffic)
    {
      hide Inv, Run, Gated, Gate, Paused, Serving, JournalStep, Acceptable;
      var j := own;
      if j.phase == Changing {
        j := j.(phase := RollingBack);
        o := WriteJournal(j);
        if !o.Done? { return; }
      }
      if j.databaseStarted {
        o := ImportSnapshot();
        if !o.Done? { return; }
        ShutWhileUndecided(site, Now());
        o := Command();
        if !o.Done? { return; }
      }
      MayReopen(site, Now());
      o := WriteJournal(j.(phase := RestoringTraffic));
    }

    method RestoreTraffic() returns (a: Answer)
      requires Valid() && InPhase(Now(), RestoringTraffic)
      modifies `journal, `http, `tls, `live, `database, `accepted, `weather, `trail
      ensures Valid() && Extends(old(trail), trail) && !a.Succeeded?
      ensures a.PreviousRestored? ==> InPhase(Now(), Restored)
      ensures old(weather).Calm() ==> a.PreviousRestored?
    {
      hide Inv, Run, Gated, Gate, Paused, Serving, JournalStep, Acceptable;
      var o := WriteVhosts((journal.value.http, journal.value.tls));
      if !o.Done? { return Unanswered(o); }
      o := ReloadNginx();
      if !o.Done? { return Unanswered(o); }
      MayFinish(site, Now());
      o := WriteJournal(journal.value.(phase := Restored));
      if !o.Done? { return Unanswered(o); }
      return PreviousRestored;
    }

    method Rollback(own: Journal) returns (a: Answer)
      requires Valid() && journal.Some?
      requires own.phase == Changing ==>
          InPhase(Now(), Changing) && JournalStep(site, Now(), own.(phase := RollingBack))
      requires own.phase != Changing ==>
          journal == Some(own) && (own.phase == RollingBack || own.phase == RestoringTraffic)
      modifies `journal, `http, `tls, `live, `database, `accepted, `weather, `trail
      ensures Valid() && Extends(old(trail), trail) && !a.Succeeded?
      ensures a.PreviousRestored? ==> InPhase(Now(), Restored)
      ensures old(weather).Calm() ==> a.PreviousRestored?
    {
      hide Inv, Run, JournalStep;
      if own.phase != RestoringTraffic {
        var o := UndoDatabase(own);
        if !o.Done? { return Unanswered(o); }
      }
      a := RestoreTraffic();
    }

    /** The commit boundary is crossed, or everything in front of it is done. */
    ghost predicate Crossed()
      reads this
    {
      || InPhase(Now(), Activating) || InPhase(Now(), Complete)
      || (InPhase(Now(), Changing) && JournalStep(site, Now(), journal.value.(phase := Activating)))
    }

    method FinishActivation() returns (a: Answer)
      requires Valid() && InPhase(Now(), Activating)
      modifies `journal, `http, `tls, `live, `database, `accepted, `weather, `trail
      ensures Valid() && Extends(old(trail), trail) && !a.PreviousRestored?
      ensures a.Succeeded? ==> InPhase(Now(), Complete)
      ensures Crossed()
      ensures old(weather).Calm() ==> a.Succeeded?
    {
      hide Inv, Run, Gated, Gate, Paused, Serving, JournalStep, Acceptable;
      var o := WriteVhosts((Vhost(site.generated, true, true), ABSENT));
      if !o.Done? { return Unanswered(o); }
      o := ReloadNginx();
      if !o.Done? { return Unanswered(o); }
      MayFinish(site, Now());
      o := WriteJournal(journal.value.(phase := Complete));
      if !o.Done? { return Unanswered(o); }
      return Succeeded;
    }

    /** Behind the gate nobody but the broker changes anything. */
    ghost predicate Prepared(j: Journal)
      reads this
    {
      && Valid() && InPhase(Now(), Changing) && Gated(site, Now()) && !Serving(live) && site.wordpress
      && j.phase == Changing && JournalStep(site, Now(), j.(phase := RollingBack))
    }

    /** Exports the database unless a previous attempt already has, and records that the export is
        finished. The in-memory journal comes back for the rollback. */
    method Backup() returns (o: Outcome, j: Journal)
      requires Valid() && InPhase(Now(), Changing) && Gated(site, Now()) && site.wordpress
      modifies `journal, `snapshot, `live, `database, `accepted, `weather, `trail
      ensures Valid() && Extends(old(trail), trail) && old(weather).Allows(o, weather)
      ensures !o.Killed? ==> Prepared(j)
      ensures o.Done? ==> journal == Some(j) && j.backupReady
    {
      hide Inv, Run, Gate, Paused, Acceptable, Serving, JournalStep;
      ShutWhileUndecided(site, Now());
      j := journal.value;
      MayRollBack(site, Now(), j);
      o := Done;
      if !j.backupReady {
        o := ExportDatabase();
        if !o.Killed? { MayRollBack(site, Now(), j); }
        if !o.Done? { return; }
        j := j.(backupReady := true);
        MayRollBack(site, Now(), j);
        o := WriteJournal(j);
        if !o.Killed? { MayRollBack(site, Now(), j); }
      }
    }

    /** Makes the snapshot durable first, then the intent to change the database. */
    method SaveDatabase() returns (o: Outcome, j: Journal)
      requires Valid() && InPhase(Now(), Changing) && Gated(site, Now()) && site.wordpress
      modifies `journal, `snapshot, `live, `database, `accepted, `weather, `trail
      ensures Valid() && Extends(old(trail), trail) && old(weather).Allows(o, weather)
      ensures !o.Killed? ==> Prepared(j)
      ensures o.Done? ==> journal == Some(j) && j.databaseStarted
    {
      hide Inv, Run, Gate, Paused, Acceptable, Serving, JournalStep;
      o, j := Backup();
      if !o.Done? { return; }
      ShutWhileUndecided(site, Now());
      j := j.(databaseStarted := true);
      MayRollBack(site, Now(), j);
      o := WriteJournal(j);
      if !o.Killed? { MayRollBack(site, Now(), j); }
    }

    /** The commands that a replay repeats. */
    method RewriteDatabase(j: Journal) returns (o: Outcome)
      requires Prepared(j) && journal == Some(j) && j.databaseStarted
      modifies `live, `database, `accepted, `weather, `trail
      ensures Valid() && Extends(old(trail), trail) && old(weather).Allows(o, weather)
      ensures !o.Killed? ==> Prepared(j)
      ensures o.Done? ==> JournalStep(site, Now(), j.(phase := Activating))
    {
      hide Inv, Run, Gate, Paused, Acceptable, Serving, JournalStep, Rewrite, Authority;
      o := Done;
      var commands := [RewriteUrls, ClearCache, UpdateHome, UpdateSiteurl, ClearCache, CheckTables];
      for k := 0 to |commands|
        invariant Prepared(j) && Extends(old(trail), trail) && o.Done? && old(weather).Allows(Done, weather)
        invariant k >= 1 ==> |database.cells| == |accepted|
        invariant k >= 1 ==> forall i :: 0 <= i < |accepted| ==> Converted(site, accepted[i], database.cells[i])
        invariant k >= 3 ==> database.home == Authority("http", site.now)
        invariant k >= 4 ==> database.siteurl == Authority("http", site.now)
      {
        ghost var before := Now();
        o := RunWordPress(commands[k]);
        if !o.Killed? { MayRollBack(site, Now(), j); }
        if !o.Done? { return; }
        if k == 0 {
          AllConverted(before);
        }
      }
      MayActivate(site, Now());
    }

    lemma AllConverted(before: World)
      requires ValidSite(site) && Inv(site, before) && InPhase(before, Changing) && before.accepted == accepted
      requires |database.cells| == |before.database.cells|
      requires forall k :: 0 <= k < |database.cells| ==>
          database.cells[k] == Rewrite(before.database.cells[k], site.was, site.now)
      ensures |database.cells| == |accepted|
      ensures forall i :: 0 <= i < |accepted| ==> Converted(site, accepted[i], database.cells[i])
    {
      hide Inv, Rewrite;
      HalfWay(site, before);
      forall i | 0 <= i < |accepted| ensures Converted(site, accepted[i], database.cells[i]) {
        ReachedOnce(site, accepted[i], before.database.cells[i]);
      }
    }

    /** Closes the site and changes its database; j is the broker's copy of the journal. */
    method Move() returns (o: Outcome, j: Journal)
      requires Valid() && InPhase(Now(), Changing)
      modifies `journal, `http, `tls, `live, `database, `snapshot, `accepted, `weather, `trail
      ensures Valid() && Extends(old(trail), trail) && old(weather).Allows(o, weather)
      ensures !o.Killed? ==>
          InPhase(Now(), Changing) && j.phase == Changing && JournalStep(site, Now(), j.(phase := RollingBack))
      ensures o.Done? ==> JournalStep(site, Now(), j.(phase := Activating))
    {
      hide Inv, Run, Gate, Paused, Acceptable, Serving, JournalStep;
      j := journal.value;
      o := WriteVhosts((Vhost(Gate(site.was, site.now), true, true), MaintenanceTls(j.tls)));
      if o.Done? { o := ReloadNginx(); }
      if !o.Killed? { MayRollBack(site, Now(), j); }
      if !o.Done? { return; }
      if site.wordpress {
        o, j := SaveDatabase();
        if o.Done? { o := RewriteDatabase(j); }
      } else {
        MayActivate(site, Now());
      }
    }

    /** The preflight of a first attempt refuses this installation. */
    predicate Refused(w: World) {
      site.wordpress && !PreflightPasses(site, w.database)
    }

    /** Neither the virtual hosts, nor what Nginx serves, nor the database options are touched. */
    twostate predicate AsBefore()
      reads this
    {
      http == old(http) && tls == old(tls) && live == old(live) && snapshot == old(snapshot) && OnlyVisits()
    }

    /** The account and, unless a partial import may keep WordPress from starting, the preflight. */
    method CheckWordPress() returns (o: Outcome, refused: bool)
      requires Valid() && site.wordpress
      modifies `live, `database, `accepted, `weather, `trail
      ensures Valid() && Extends(old(trail), trail)
      ensures journal.None? || journal.value.phase == Changing ==> o.Done? ==> PreflightPasses(site, database)
      ensures old(weather).Allows(o, weather)
              || (journal.None? && Refused(old(Now())) && o.Failed? && old(weather).Allows(Done, weather))
      ensures refused ==> o.Failed?
      ensures old(weather).Calm() && journal.None? ==> (refused <==> Refused(old(Now())))
      ensures !o.Killed? ==> live == old(live) && OnlyVisits()
    {
      hide Inv, Run, Gate, Paused, Serving, Authority, Load, ValidSite;
      refused := false;
      o := Command();
      if !o.Done? { return; }
      if journal.None? || journal.value.phase == Changing {
        if journal.Some? { PreflightWillPass(site, Now()); }
        o := Preflight();
        refused := o.Failed?;
      }
    }

    /** A first attempt whose checks have passed: the previous virtual hosts go into the journal. */
    method Begin() returns (a: Answer)
      requires Valid() && journal.None? && (site.wordpress ==> PreflightPasses(site, database))
      modifies `journal, `http, `tls, `live, `database, `snapshot, `accepted, `weather, `trail
      ensures Valid() && Extends(old(trail), trail)
      ensures a.Succeeded? ==> InPhase(Now(), Complete)
      ensures a.PreviousRestored? ==> InPhase(Now(), Restored)
      ensures !Acceptable(site, old(http), old(tls)) ==> a.Unfinished? && journal.None? && AsBefore()
      ensures old(weather).Calm() && Acceptable(site, old(http), old(tls)) ==> a.Succeeded?
      ensures old(weather).Mild() && a.Unfinished? ==> AsBefore() || Crossed()
    {
      hide Inv, Run, Gate, Paused, Acceptable, Serving, JournalStep, Authority, Target, Load, ValidSite;
      if !Acceptable(site, http, tls) { return Unfinished; }
      MayStart(site, Now());
      var o := WriteJournal(Journal(http, tls, false, false, Changing));
      if !o.Done? { return Unanswered(o); }
      a := MoveAndActivate();
    }

    /** One attempt of a domain change job, first or replayed. */
    method ChangeDomain() returns (a: Answer)
      requires Valid()
      modifies `journal, `http, `tls, `live, `database, `snapshot, `accepted, `weather, `trail
      ensures Valid() && Extends(old(trail), trail)
      // answers are truthful
      ensures a.Succeeded? ==> InPhase(Now(), Complete)
      ensures a.PreviousRestored? ==>
                || InPhase(Now(), Restored)
                || (site.wordpress && journal.None? && http == old(http) && tls == old(tls) && live == old(live)
                    && snapshot == old(snapshot)
                    && database == Original(site, accepted))
      // a settled job is left alone
      ensures InPhase(old(Now()), Complete) || InPhase(old(Now()), Restored) ==>
                journal == old(journal) && http == old(http) && tls == old(tls) && snapshot == old(snapshot)
      // a replay that nothing disturbs ends the job
      ensures old(weather).Calm() && old(journal).Some? ==>
                if old(journal).value.phase in {Changing, Activating, Complete}
                    then a.Succeeded? else a.PreviousRestored?
      // a first attempt that nothing disturbs
      ensures old(weather).Calm() && old(journal).None? ==>
                if Refused(old(Now())) then a.PreviousRestored? && journal.None? && AsBefore()
                else if !Acceptable(site, old(http), old(tls)) then a.Unfinished? && journal.None? && AsBefore()
                else a.Succeeded?
      // an attempt with a single failure changes nothing, is undone, or has moved the database
      ensures old(weather).Mild() && a.Unfinished? ==>
                || (AsBefore() && (journal == old(journal) || old(journal).None?)) || Crossed()
                || InPhase(old(Now()), RollingBack) || InPhase(old(Now()), RestoringTraffic)
    {
      hide Inv, Run, Gate, Paused, Acceptable, Serving, JournalStep, Authority, Target, Load, ValidSite;
      var o := Command();
      if !o.Done? { return Unanswered(o); }
      var first := journal.None?;
      if !first {
        match journal.value.phase {
          case Complete => return Succeeded;
          case Restored => return PreviousRestored;
          case Activating => a := FinishActivation(); return;
          case _ =>
        }
      }
      if site.wordpress {
        var refused;
        o, refused := CheckWordPress();
        if first && refused {
          NothingMoved(site, Now());
          return PreviousRestored;
        }
        if !o.Done? { return Unanswered(o); }
      }
      if !first && (journal.value.phase == RollingBack || journal.value.phase == RestoringTraffic) {
        a := Rollback(journal.value);
        return;
      }
      if first { a := Begin(); } else { a := MoveAndActivate(); }
    }

    /** From this durable boundary on, a job only goes forward. */
    method CrossBoundary(j: Journal) returns (o: Outcome)
      requires Valid() && InPhase(Now(), Changing) && JournalStep(site, Now(), j.(phase := Activating))
      modifies `journal, `live, `database, `accepted, `weather, `trail
      ensures Valid() && Extends(old(trail), trail) && old(weather).Allows(o, weather)
      ensures o.Done? ==> InPhase(Now(), Activating)
      ensures !o.Killed? ==> Crossed()
    {
      hide Inv, Run, Gate, Paused, Acceptable, Serving, Moved;
      ShutWhileUndecided(site, Now());
      o := WriteJournal(j.(phase := Activating));
    }

    method MoveAndActivate() returns (a: Answer)
      requires Valid() && InPhase(Now(), Changing)
      modifies `journal, `http, `tls, `live, `database, `snapshot, `accepted, `weather, `trail
      ensures Valid() && Extends(old(trail), trail)
      ensures a.Succeeded? ==> InPhase(Now(), Complete)
      ensures a.PreviousRestored? ==> InPhase(Now(), Restored)
      ensures old(weather).Calm() ==> a.Succeeded?
      // a single failure in front of the commit boundary is undone
      ensures old(weather).Mild() && a.Unfinished? ==> Crossed()
    {
      hide Inv, Run, JournalStep;
      var o, j := Move();
      if o.Killed? { return Stopped; }
      if o.Failed? {
        a := Rollback(j);
        return;
      }
      o := CrossBoundary(j);
      if !o.Done? { return Unanswered(o); }
      a := FinishActivation();
    }
  }
}
