/** The durable and running state of a domain change, the changes each journal state permits, and
    what follows over every run of permitted changes: crashes, reboots, replays and visitors included. */
module DomainProtocol {
  import opened Faults
  import opened HostRewrite
  import opened MaintenanceGate
  import opened Text

  datatype Site = Site(
    wordpress: bool,       // static, PHP, Python and proxy sites have no database to rewrite
    singleSite: bool,      // no multisite, no WP_HOME or WP_SITEURL constant
    was: string, now: string,
    generated: string,     // the virtual host rendered for the new name
    tlsActive: bool,
    home: string, siteurl: string)

  datatype Phase = Changing | Activating | Complete | RollingBack | RestoringTraffic | Restored

  datatype Vhost = Vhost(content: string, present: bool, enabled: bool)

  datatype Journal = Journal(http: Vhost, tls: Vhost, backupReady: bool, databaseStarted: bool, phase: Phase)

  /** Cells are all texts of the database; a visitor's write adds one. */
  datatype Database = Database(cells: seq<string>, home: string, siteurl: string)

  /** The texts that the running Nginx has loaded. */
  datatype Live = Live(http: Option<string>, tls: Option<string>)

  /** accepted lists every cell as its writer left it: the initial ones, then the visitors' writes. */
  datatype World = World(journal: Option<Journal>, http: Vhost, tls: Vhost, live: Live,
                         database: Database, snapshot: Option<Database>, accepted: seq<string>)

  const ABSENT := Vhost("", false, false)

  predicate ValidSite(site: Site) {
    Hostname(site.was) && Hostname(site.now) && site.was != site.now
  }

  function Loaded(v: Vhost): Option<string> {
    if v.present && v.enabled then Some(v.content) else None
  }

  function Load(http: Vhost, tls: Vhost): Live {
    Live(Loaded(http), Loaded(tls))
  }

  predicate Open(text: Option<string>) {
    text.Some? && !Closed(text.value)
  }

  /** The old or the new site answers visitors. */
  predicate Serving(live: Live) {
    Open(live.http) || Open(live.tls)
  }

  function MaintenanceTls(previous: Vhost): Vhost {
    if !previous.enabled then previous else previous.(content := Paused(previous.content))
  }

  /** The two virtual hosts that the current journal state is working towards. */
  function Target(site: Site, j: Journal): (Vhost, Vhost) {
    match j.phase
    case Changing | RollingBack => (Vhost(Gate(site.was, site.now), true, true), MaintenanceTls(j.tls))
    case Activating | Complete => (Vhost(site.generated, true, true), ABSENT)
    case RestoringTraffic | Restored => (j.http, j.tls)
  }

  predicate InPlace(w: World, t: (Vhost, Vhost)) {
    w.http == t.0 && w.tls == t.1 && w.live == Load(t.0, t.1)
  }

  predicate AllowedUrl(site: Site, url: string) {
    url == Authority("http", site.was) || url == Authority("https", site.was) || url == Authority("http", site.now)
  }

  predicate PreflightPasses(site: Site, d: Database) {
    site.singleSite && AllowedUrl(site, d.home) && AllowedUrl(site, d.siteurl)
  }

  predicate NamesSite(site: Site, v: Vhost) {
    Contains(v.content, "    server_name " + site.was + ";")
  }

  /** The virtual hosts that a new change accepts. */
  predicate Acceptable(site: Site, http: Vhost, tls: Vhost) {
    && http.present && http.enabled && NamesSite(site, http)
    && (site.tlsActive ==> tls.present && tls.enabled)
    && (tls.enabled ==> NamesSite(site, tls) && CountFrom(tls.content, BLOCK, 0) == 1)
  }

  predicate Normal(v: Vhost) {
    !v.present ==> v == ABSENT
  }

  /** The database as the writers left it. */
  function Original(site: Site, accepted: seq<string>): Database {
    Database(accepted, site.home, site.siteurl)
  }

  ghost function Passes(site: Site, n: nat, x: string): string {
    if n == 0 then x else Rewrite(Passes(site, n - 1, x), site.was, site.now)
  }

  ghost predicate Reached(site: Site, x: string, y: string) {
    exists n: nat :: Passes(site, n, x) == y
  }

  ghost predicate Converted(site: Site, x: string, y: string) {
    exists n: nat :: n > 0 && Passes(site, n, x) == y
  }

  /** Every cell has been through at least one pass since it was accepted, and both options are set. */
  ghost predicate Moved(site: Site, from: seq<string>, d: Database) {
    && |d.cells| == |from|
    && (forall k :: 0 <= k < |from| ==> Converted(site, from[k], d.cells[k]))
    && d.home == d.siteurl == Authority("http", site.now)
  }

  // ----- permitted changes -----

  predicate Visit(w: World, w': World) {
    && Serving(w.live)
    && |w.accepted| <= |w'.accepted| && w'.accepted[..|w.accepted|] == w.accepted
    && w' == w.(accepted := w'.accepted,
                database := w.database.(cells := w.database.cells + w'.accepted[|w.accepted|..]))
  }

  predicate Reload(w: World, w': World) {
    w' == w.(live := Load(w.http, w.tls))
  }

  predicate Towards(v: Vhost, v': Vhost, t: Vhost) {
    || v' == v
    || (t.present && v' == v.(content := t.content, present := true))
    || (v.present && v' == v.(enabled := t.enabled))
    || (!t.present && !v.enabled && v' == ABSENT)
  }

  predicate Configure(site: Site, w: World, w': World) {
    && w.journal.Some?
    && w.journal.value.phase in {Changing, Activating, RestoringTraffic}
    && var t := Target(site, w.journal.value);
    && w' == w.(http := w'.http, tls := w'.tls)
    && Towards(w.http, w'.http, t.0) && Towards(w.tls, w'.tls, t.1)
  }

  predicate InPhase(w: World, phase: Phase) {
    w.journal.Some? && w.journal.value.phase == phase
  }

  predicate Gated(site: Site, w: World) {
    w.journal.Some? && InPlace(w, Target(site, w.journal.value.(phase := Changing)))
  }

  predicate Export(site: Site, w: World, w': World) {
    && InPhase(w, Changing) && !w.journal.value.backupReady && Gated(site, w)
    && w' == w.(snapshot := Some(w.database))
  }

  function RewriteIf(site: Site, x: string, y: string): bool {
    y == x || y == Rewrite(x, site.was, site.now)
  }

  predicate SearchReplace(site: Site, w: World, w': World) {
    && InPhase(w, Changing) && w.journal.value.databaseStarted
    && var d, d' := w.database, w'.database;
    && w' == w.(database := d')
    && |d'.cells| == |d.cells| && (forall k :: 0 <= k < |d.cells| ==> RewriteIf(site, d.cells[k], d'.cells[k]))
    && RewriteIf(site, d.home, d'.home) && RewriteIf(site, d.siteurl, d'.siteurl)
  }

  predicate SetOption(site: Site, w: World, w': World) {
    && InPhase(w, Changing) && w.journal.value.databaseStarted
    && (w' == w.(database := w.database.(home := Authority("http", site.now)))
        || w' == w.(database := w.database.(siteurl := Authority("http", site.now))))
  }

  /** An import that does not finish may leave anything behind. */
  predicate Import(site: Site, w: World, w': World) {
    && InPhase(w, RollingBack) && w.journal.value.databaseStarted
    && w' == w.(database := w'.database)
  }

  /** A journal may claim a backup only when the snapshot is the database behind the gate. */
  predicate FlagsJustified(site: Site, w: World, j: Journal, j': Journal) {
    && (j.backupReady ==> j'.backupReady) && (j.databaseStarted ==> j'.databaseStarted)
    && (j'.backupReady && !j.backupReady ==> Gated(site, w) && w.snapshot == Some(w.database))
    && (j'.databaseStarted ==> j'.backupReady && site.wordpress)
  }

  ghost predicate JournalStep(site: Site, w: World, j': Journal) {
    match w.journal
    case None =>
      && j' == Journal(w.http, w.tls, false, false, Changing)
      && Acceptable(site, w.http, w.tls)
      && (site.wordpress ==> PreflightPasses(site, w.database))
    case Some(j) =>
      && j'.http == j.http && j'.tls == j.tls
      && match (j.phase, j'.phase) {
        case (Changing, Changing) => FlagsJustified(site, w, j, j')
        case (Changing, RollingBack) => FlagsJustified(site, w, j, j')
        case (Changing, Activating) =>
          && j' == j.(phase := Activating) && Gated(site, w)
          && j.databaseStarted == site.wordpress
          && (site.wordpress ==> w.snapshot.Some? && Moved(site, w.snapshot.value.cells, w.database))
        case (Activating, Complete) =>
          j' == j.(phase := Complete) && InPlace(w, Target(site, j'))
        case (RollingBack, RestoringTraffic) =>
          j' == j.(phase := RestoringTraffic) && (j.databaseStarted ==> w.snapshot == Some(w.database))
        case (RestoringTraffic, Restored) =>
          j' == j.(phase := Restored) && InPlace(w, Target(site, j'))
        case _ => false
      }
  }

  ghost predicate Record(site: Site, w: World, w': World) {
    w'.journal.Some? && JournalStep(site, w, w'.journal.value) && w' == w.(journal := w'.journal)
  }

  ghost predicate Next(site: Site, w: World, w': World) {
    || Visit(w, w') || Reload(w, w') || Configure(site, w, w') || Export(site, w, w')
    || SearchReplace(site, w, w') || SetOption(site, w, w') || Import(site, w, w') || Record(site, w, w')
  }

  ghost predicate Start(site: Site, w: World) {
    && w.journal.None? && w.snapshot.None? && Normal(w.http) && Normal(w.tls)
    && w.database == Original(site, w.accepted)
  }

  ghost predicate Run(site: Site, t: seq<World>) {
    && |t| > 0 && Start(site, t[0])
    && forall i :: 0 <= i < |t| - 1 ==> Next(site, t[i], t[i + 1])
  }

  // ----- what every permitted change keeps -----

  ghost predicate Untouched(site: Site, w: World) {
    w.database == Original(site, w.accepted)
  }

  ghost predicate BehindGate(site: Site, w: World) {
    && (w.snapshot.Some? ==> Gated(site, w) && w.snapshot.value == Original(site, w.accepted))
    && (w.journal.Some? && w.journal.value.backupReady ==> w.snapshot.Some?)
    && (w.journal.Some? && !w.journal.value.databaseStarted ==> Untouched(site, w))
  }

  ghost predicate HalfMoved(site: Site, w: World) {
    && |w.database.cells| == |w.accepted|
    && (forall k :: 0 <= k < |w.accepted| ==> Reached(site, w.accepted[k], w.database.cells[k]))
    && (site.wordpress ==> PreflightPasses(site, w.database))
  }

  /** Behind the commit boundary: what was accepted before it is rewritten, what came later is intact. */
  ghost predicate MovedThenGrown(site: Site, w: World) {
    && w.snapshot.Some?
    && var b := |w.snapshot.value.cells|;
    && b <= |w.accepted| == |w.database.cells|
    && Moved(site, w.accepted[..b], w.database.(cells := w.database.cells[..b]))
    && w.database.cells[b..] == w.accepted[b..]
  }

  ghost predicate Inv(site: Site, w: World) {
    && Normal(w.http) && Normal(w.tls)
    && match w.journal {
      case None => Untouched(site, w) && w.snapshot.None?
      case Some(j) =>
        && Normal(j.http) && Normal(j.tls) && Acceptable(site, j.http, j.tls)
        && (j.databaseStarted ==> j.backupReady && site.wordpress)
        && match j.phase {
          case Changing => BehindGate(site, w) && HalfMoved(site, w)
          case RollingBack => BehindGate(site, w)
          case RestoringTraffic => Untouched(site, w)
          case Restored => Untouched(site, w) && InPlace(w, Target(site, j))
          case Activating => if site.wordpress then MovedThenGrown(site, w) else Untouched(site, w)
          case Complete =>
            && InPlace(w, Target(site, j))
            && if site.wordpress then MovedThenGrown(site, w) else Untouched(site, w)
        }
    }
  }

  /** The gate keeps every visitor out. */
  lemma GateIsShut(site: Site, w: World)
    requires ValidSite(site) && Gated(site, w) && Acceptable(site, w.journal.value.http, w.journal.value.tls)
    ensures !Serving(w.live)
  {
    GateCloses(site.was, site.now);
    var tls := w.journal.value.tls;
    if tls.enabled { var _, _ := PauseCloses(tls.content); }
  }

  /** What a new change demands of the virtual hosts, told by places in their texts. */
  lemma AcceptableExactly(site: Site, http: Vhost, tls: Vhost)
    ensures var name := "    server_name " + site.was + ";";
            Acceptable(site, http, tls) <==>
              && http.present && http.enabled && (exists i: nat :: At(http.content, name, i))
              && (site.tlsActive ==> tls.present && tls.enabled)
              && (tls.enabled ==> (exists i: nat :: At(tls.content, name, i))
                                  && exists i: nat :: At(tls.content, BLOCK, i) && OnlyAt(tls.content, i))
  {
    OneBlock(tls.content);
  }

  lemma NewUrlKept(site: Site)
    requires ValidSite(site)
    ensures Rewrite(Authority("http", site.now), site.was, site.now) == Authority("http", site.now)
  {
    var u := Authority("http", site.now);
    assert u + "" == u;
    OneColon("http", site.now);
    forall k | 0 <= k < |u| ensures NoMatchAt(u + "", k, site.was) {
      if k == 0 {
        assert u[0..] == u;
        if MatchLength(u, site.was) > 0 { WholeName("http", site.now, "", site.was); }
      } else {
        NoColonNoMatch(u, k, site.was);
      }
    }
    CopyHead(u, "", site.was, site.now);
  }

  /** The two URL options stay within what the preflight of a replay accepts. */
  lemma AllowedUrlKept(site: Site, url: string)
    requires ValidSite(site) && AllowedUrl(site, url)
    ensures AllowedUrl(site, Rewrite(url, site.was, site.now))
  {
    if url == Authority("http", site.now) {
      NewUrlKept(site);
    } else {
      var scheme := if url == Authority("http", site.was) then "http" else "https";
      assert url + "" == url;
      Replaced(scheme, "", site.was, site.now);
      assert Authority("http", site.now) + "" == Authority("http", site.now);
    }
  }

  lemma ReachedOnce(site: Site, x: string, y: string)
    requires Reached(site, x, y)
    ensures Converted(site, x, Rewrite(y, site.was, site.now))
    ensures Reached(site, x, Rewrite(y, site.was, site.now))
  {
    var n: nat :| Passes(site, n, x) == y;
    assert Passes(site, n + 1, x) == Rewrite(y, site.was, site.now);
  }

  lemma VisitKeeps(site: Site, w: World, w': World)
    requires ValidSite(site) && Inv(site, w) && Visit(w, w')
    ensures Inv(site, w')
  {
    var n := |w.accepted|;
    assert w'.accepted == w.accepted + w'.accepted[n..];
    if w.journal.Some? {
      var j := w.journal.value;
      if (j.phase == Changing || j.phase == RollingBack) && w.snapshot.Some? { GateIsShut(site, w); }
      if j.phase == Changing {
        assert Untouched(site, w) && Untouched(site, w');
        forall k | 0 <= k < |w'.accepted| ensures Reached(site, w'.accepted[k], w'.database.cells[k]) {
          assert Passes(site, 0, w'.accepted[k]) == w'.database.cells[k];
        }
      } else if (j.phase == Activating || j.phase == Complete) && site.wordpress {
        var b := |w.snapshot.value.cells|;
        assert w'.accepted[..b] == w.accepted[..b] && w'.database.cells[..b] == w.database.cells[..b];
        assert w'.accepted[b..] == w.accepted[b..] + w'.accepted[n..];
        assert w'.database.cells[b..] == w.database.cells[b..] + w'.accepted[n..];
      }
    }
  }

  lemma RewriteKeeps(site: Site, w: World, w': World)
    requires ValidSite(site) && Inv(site, w) && (SearchReplace(site, w, w') || SetOption(site, w, w'))
    ensures Inv(site, w')
  {
    forall k | 0 <= k < |w.accepted| ensures Reached(site, w'.accepted[k], w'.database.cells[k]) {
      ReachedOnce(site, w.accepted[k], w.database.cells[k]);
    }
    AllowedUrlKept(site, w.database.home);
    AllowedUrlKept(site, w.database.siteurl);
  }

  lemma ConfigureKeeps(site: Site, w: World, w': World)
    requires ValidSite(site) && Inv(site, w) && (Configure(site, w, w') || Reload(w, w'))
    ensures Inv(site, w')
  {
  }

  lemma RecordKeeps(site: Site, w: World, w': World)
    requires ValidSite(site) && Inv(site, w) && Record(site, w, w')
    ensures Inv(site, w')
  {
    if w.journal.None? {
      forall k | 0 <= k < |w.accepted| ensures Reached(site, w.accepted[k], w.database.cells[k]) {
        assert Passes(site, 0, w.accepted[k]) == w.database.cells[k];
      }
    } else if w'.journal.value.phase == Activating && site.wordpress {
      var b := |w.snapshot.value.cells|;
      assert w.accepted[..b] == w.accepted && w.database.cells[..b] == w.database.cells;
    }
  }

  lemma NextKeepsInv(site: Site, w: World, w': World)
    requires ValidSite(site) && Inv(site, w) && Next(site, w, w')
    ensures Inv(site, w')
  {
    if Visit(w, w') {
      VisitKeeps(site, w, w');
    } else if SearchReplace(site, w, w') || SetOption(site, w, w') {
      RewriteKeeps(site, w, w');
    } else if Record(site, w, w') {
      RecordKeeps(site, w, w');
    } else if Reload(w, w') || Configure(site, w, w') {
      ConfigureKeeps(site, w, w');
    } else {
      assert Export(site, w, w') || Import(site, w, w');
    }
  }

  // ----- what the operation may do next -----

  lemma TargetsNormal(site: Site, w: World)
    requires Inv(site, w)
    ensures Normal(w.http) && Normal(w.tls)
    ensures w.journal.Some? ==>
              var t := Target(site, w.journal.value);
              Normal(t.0) && Normal(t.1) && (t.0.enabled ==> t.0.present) && (t.1.enabled ==> t.1.present)
    ensures w.journal.Some? ==> Acceptable(site, w.journal.value.http, w.journal.value.tls)
  {
  }

  lemma ShutWhileUndecided(site: Site, w: World)
    requires ValidSite(site) && Inv(site, w)
    requires w.journal.Some? && w.journal.value.phase in {Changing, RollingBack}
    requires Gated(site, w) || w.journal.value.databaseStarted
    ensures Gated(site, w) && !Serving(w.live)
    ensures w.journal.value.databaseStarted ==> w.snapshot.Some? && site.wordpress
    ensures w.journal.value.backupReady ==> w.snapshot == Some(Original(site, w.accepted))
    ensures !w.journal.value.databaseStarted ==> w.database == Original(site, w.accepted)
  {
    GateIsShut(site, w);
  }

  lemma MayStart(site: Site, w: World)
    requires w.journal.None? && Acceptable(site, w.http, w.tls)
    requires site.wordpress ==> PreflightPasses(site, w.database)
    ensures JournalStep(site, w, Journal(w.http, w.tls, false, false, Changing))
  {
  }

  lemma MayRollBack(site: Site, w: World, j: Journal)
    requires ValidSite(site) && Inv(site, w) && InPhase(w, Changing)
    requires w.journal == Some(j) || (Gated(site, w) && site.wordpress && w.snapshot.Some?)
    requires j.phase == Changing && j.http == w.journal.value.http && j.tls == w.journal.value.tls
    requires (w.journal.value.backupReady ==> j.backupReady) && (w.journal.value.databaseStarted ==> j.databaseStarted)
    requires w.journal == Some(j) || (j.databaseStarted ==> j.backupReady)
    ensures JournalStep(site, w, j.(phase := RollingBack)) && JournalStep(site, w, j)
  {
  }

  lemma MayActivate(site: Site, w: World)
    requires ValidSite(site) && Inv(site, w) && InPhase(w, Changing) && Gated(site, w)
    requires site.wordpress ==> w.journal.value.databaseStarted && Moved(site, w.accepted, w.database)
    ensures JournalStep(site, w, w.journal.value.(phase := Activating))
  {
  }

  lemma MayReopen(site: Site, w: World)
    requires InPhase(w, RollingBack) && (w.journal.value.databaseStarted ==> w.snapshot == Some(w.database))
    ensures JournalStep(site, w, w.journal.value.(phase := RestoringTraffic))
  {
  }

  lemma MayFinish(site: Site, w: World)
    requires w.journal.Some? && w.journal.value.phase in {RestoringTraffic, Activating}
    requires InPlace(w, Target(site, w.journal.value))
    ensures JournalStep(site, w, w.journal.value.(phase := if InPhase(w, Activating) then Complete else Restored))
  {
  }

  lemma NothingMoved(site: Site, w: World)
    requires Inv(site, w) && w.journal.None?
    ensures w.database == Original(site, w.accepted)
  {
  }

  lemma PreflightWillPass(site: Site, w: World)
    requires Inv(site, w) && InPhase(w, Changing) && site.wordpress
    ensures PreflightPasses(site, w.database)
  {
  }

  lemma HalfWay(site: Site, w: World)
    requires Inv(site, w) && InPhase(w, Changing)
    ensures HalfMoved(site, w)
  {
  }

  // ----- results over whole runs -----

  lemma {:induction false} RunKeepsInv(site: Site, t: seq<World>, i: nat)
    requires ValidSite(site) && Run(site, t) && i < |t|
    ensures Inv(site, t[i])
  {
    if i > 0 {
      RunKeepsInv(site, t, i - 1);
      assert Next(site, t[i - 1], t[i - 1 + 1]);
      NextKeepsInv(site, t[i - 1], t[i]);
    }
  }

  /** One pass, or n passes: the same text, for a safe pair of names. */
  lemma {:induction false} PassesSettle(site: Site, n: nat, x: string)
    requires ValidSite(site) && SafePair(site.was, site.now) && n > 0
    ensures Passes(site, n, x) == Rewrite(x, site.was, site.now)
  {
    if n == 1 {
      assert Passes(site, 0, x) == x;
    } else {
      PassesSettle(site, n - 1, x);
      SafePassIsFinal(x, site.was, site.now);
    }
  }

  /** No accepted write is ever dropped from the list of what was accepted. */
  lemma {:induction false} AcceptedOnlyGrows(site: Site, t: seq<World>, i: nat, j: nat)
    requires Run(site, t) && i <= j < |t|
    ensures t[i].accepted <= t[j].accepted
    decreases j - i
  {
    if i < j {
      assert Next(site, t[i], t[i + 1]);
      AcceptedOnlyGrows(site, t, i + 1, j);
    }
  }

  /** Whenever a visitor can reach the site, every write accepted so far is in the database, in its
      place, as it was written or rewritten to the new name; nothing else is in there. */
  lemma AcceptedWritesSurvive(site: Site, t: seq<World>, i: nat, j: nat)
    requires ValidSite(site) && Run(site, t) && i <= j < |t| && Serving(t[j].live)
    ensures |t[j].database.cells| == |t[j].accepted|
    ensures forall k :: 0 <= k < |t[i].accepted| ==>
              k < |t[j].database.cells| && Reached(site, t[i].accepted[k], t[j].database.cells[k])
    ensures forall k :: 0 <= k < |t[j].accepted| ==> Reached(site, t[j].accepted[k], t[j].database.cells[k])
  {
    RunKeepsInv(site, t, j);
    AcceptedOnlyGrows(site, t, i, j);
    var w := t[j];
    if w.journal.Some? && w.journal.value.phase == RollingBack && w.snapshot.Some? { GateIsShut(site, w); }
    forall k | 0 <= k < |w.accepted|
      ensures |w.database.cells| == |w.accepted| && Reached(site, w.accepted[k], w.database.cells[k])
    {
      if Untouched(site, w) {
        assert Passes(site, 0, w.accepted[k]) == w.database.cells[k];
      } else if MovedThenGrown(site, w) {
        MovedCell(site, w, k);
      }
    }
  }

  lemma MovedCell(site: Site, w: World, k: nat)
    requires MovedThenGrown(site, w) && k < |w.accepted|
    ensures Reached(site, w.accepted[k], w.database.cells[k])
    ensures k < |w.snapshot.value.cells| ==> Converted(site, w.accepted[k], w.database.cells[k])
    ensures k >= |w.snapshot.value.cells| ==> w.database.cells[k] == w.accepted[k]
  {
    var b := |w.snapshot.value.cells|;
    if k < b {
      assert Converted(site, w.accepted[..b][k], w.database.cells[..b][k]);
    } else {
      assert w.database.cells[b..][k - b] == w.accepted[b..][k - b];
      assert Passes(site, 0, w.accepted[k]) == w.database.cells[k];
    }
  }

  predicate Later(p: Phase, q: Phase) {
    match p
    case Changing => true
    case Activating => q == Activating || q == Complete
    case Complete => q == Complete
    case RollingBack => q == RollingBack || q == RestoringTraffic || q == Restored
    case RestoringTraffic => q == RestoringTraffic || q == Restored
    case Restored => q == Restored
  }

  /** Commit and rollback exclude each other, and both ends are final. */
  lemma {:induction false} CommitExcludesRollback(site: Site, t: seq<World>, i: nat, j: nat)
    requires Run(site, t) && i <= j < |t| && t[i].journal.Some?
    ensures t[j].journal.Some? && Later(t[i].journal.value.phase, t[j].journal.value.phase)
    ensures t[j].journal.value.http == t[i].journal.value.http && t[j].journal.value.tls == t[i].journal.value.tls
    decreases j - i
  {
    if i < j {
      assert Next(site, t[i], t[i + 1]);
      CommitExcludesRollback(site, t, i + 1, j);
    }
  }

  /** The snapshot is taken behind a live gate, of exactly what has been accepted, and while it may
      still be imported nothing more is accepted. */
  lemma SnapshotBehindGate(site: Site, t: seq<World>, i: nat)
    requires ValidSite(site) && Run(site, t) && i + 1 < |t| && t[i].snapshot != t[i + 1].snapshot
    ensures !Serving(t[i].live) && t[i + 1].snapshot == Some(Original(site, t[i].accepted))
  {
    RunKeepsInv(site, t, i);
    assert Next(site, t[i], t[i + 1]);
    GateIsShut(site, t[i]);
  }

  /** Once the old or the new name has been reopened after the snapshot, the database only grows by
      what visitors write: neither the snapshot nor a rewrite is ever applied again. */
  lemma NoRestoreAfterReopening(site: Site, t: seq<World>, k: nat, j: nat)
    requires ValidSite(site) && Run(site, t) && k <= j && j + 1 < |t|
    requires t[k].snapshot.Some? && Serving(t[k].live)
    ensures t[j + 1].database == t[j].database || Visit(t[j], t[j + 1])
  {
    RunKeepsInv(site, t, k);
    var p := t[k].journal.value.phase;
    if p == Changing || p == RollingBack { GateIsShut(site, t[k]); }
    CommitExcludesRollback(site, t, k, j);
    assert Next(site, t[j], t[j + 1]);
  }

  /** A restored or a completed change stays exactly as it is: its virtual hosts stay on disk and
      loaded, and the database only grows. */
  lemma EndsAreFinal(site: Site, t: seq<World>, i: nat, j: nat)
    requires ValidSite(site) && Run(site, t) && i <= j < |t|
    requires InPhase(t[i], Complete) || InPhase(t[i], Restored)
    ensures t[j].journal == t[i].journal || (t[j].journal.Some? && t[j].journal.value.phase == t[i].journal.value.phase)
    ensures t[j].http == t[i].http && t[j].tls == t[i].tls && t[j].live == t[i].live
    ensures InPhase(t[j], Restored) ==> t[j].database == Original(site, t[j].accepted)
  {
    CommitExcludesRollback(site, t, i, j);
    RunKeepsInv(site, t, i);
    RunKeepsInv(site, t, j);
  }

  /** A completed WordPress change: every cell accepted before the boundary is what one pass over it
      gives, later cells are as their visitors left them, and only the new name is loaded. With an
      unsafe pair of names the cells have been through one or more passes instead of one. */
  lemma CompleteIsMoved(site: Site, t: seq<World>, i: nat)
    requires ValidSite(site) && Run(site, t) && i < |t| && InPhase(t[i], Complete) && site.wordpress
    ensures t[i].live == Live(Some(site.generated), None) && t[i].snapshot.Some?
    ensures t[i].database.home == t[i].database.siteurl == "http://" + site.now
    ensures |t[i].database.cells| == |t[i].accepted| && |t[i].snapshot.value.cells| <= |t[i].accepted|
    ensures forall k :: 0 <= k < |t[i].accepted| ==>
              var x, y := t[i].accepted[k], t[i].database.cells[k];
              if k >= |t[i].snapshot.value.cells| then y == x
              else if SafePair(site.was, site.now) then y == Rewrite(x, site.was, site.now)
              else Converted(site, x, y)
  {
    RunKeepsInv(site, t, i);
    var w := t[i];
    forall k | 0 <= k < |w.accepted|
      ensures var x, y := w.accepted[k], w.database.cells[k];
              if k >= |w.snapshot.value.cells| then y == x
              else if SafePair(site.was, site.now) then y == Rewrite(x, site.was, site.now)
              else Converted(site, x, y)
    {
      MovedCell(site, w, k);
      if k < |w.snapshot.value.cells| && SafePair(site.was, site.now) {
        var n: nat :| n > 0 && Passes(site, n, w.accepted[k]) == w.database.cells[k];
        PassesSettle(site, n, w.accepted[k]);
      }
    }
  }

  /** The journal carries the virtual hosts that were on disk before the change began. */
  lemma {:induction false} JournalFromStart(site: Site, t: seq<World>, i: nat)
    requires Run(site, t) && i < |t|
    ensures match t[i].journal
            case None => t[i].http == t[0].http && t[i].tls == t[0].tls
            case Some(j) => j.http == t[0].http && j.tls == t[0].tls
  {
    if i > 0 {
      JournalFromStart(site, t, i - 1);
      assert Next(site, t[i - 1], t[i - 1 + 1]);
    }
  }

  /** A restored change: the virtual hosts from before the change are on disk and loaded, and the
      database is what it was plus what visitors have written, the snapshot back in place. */
  lemma RestoredIsOriginal(site: Site, t: seq<World>, i: nat)
    requires ValidSite(site) && Run(site, t) && i < |t| && InPhase(t[i], Restored)
    ensures t[i].http == t[0].http && t[i].tls == t[0].tls && t[i].live == Load(t[0].http, t[0].tls)
    ensures t[0].accepted <= t[i].accepted && t[i].database == Original(site, t[i].accepted)
  {
    RunKeepsInv(site, t, i);
    JournalFromStart(site, t, i);
    AcceptedOnlyGrows(site, t, 0, i);
  }
}
