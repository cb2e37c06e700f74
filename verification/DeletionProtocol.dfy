/** The irreversible deletion of a site: what exists on the host, the order in which things may go, and
    what follows for every run, replays after crashes and reboots included. */
module DeletionProtocol {
  import opened Faults

  type Version = string
  datatype Identity = Identity(name: string, uid: nat, gid: nat)
  datatype Kind = WordPress | Php | Python | Static | ReverseProxy
  datatype Link = HttpLink | TlsLink
  datatype Unit = Socket | Service
  datatype Tree = Whole | Partial | Gone

  datatype DeletionFile = Available(link: Link) | NginxSnippet | PhpSnippet | StagingAuth
                        | Pool(version: Version) | PreviousPool(version: Version) | UnitFile(unit: Unit)

  datatype Site = Site(
    kind: Kind, staging: bool,
    version: Version,            // the selected PHP branch
    branches: seq<Version>,      // valid branch names under the PHP configuration root
    others: set<Version>,        // branches with another pool than the default www pool
    installed: set<Version>,     // branches whose service exists
    owned: bool,                 // the tree belongs to the site's dedicated account, on one file system
    managed: bool,               // every generated path is a managed file or link
    wpConfig: bool)              // the tree holds a wp-config.php

  datatype DeletionRecord = DeletionRecord(
    identity: Option<Identity>, database: bool, versions: seq<Version>, runtimeStopped: bool, done: bool)

  datatype World = World(
    record: Option<DeletionRecord>,
    links: set<Link>, traffic: set<Link>,          // enabled on disk, loaded by Nginx
    active: set<Unit>, wanted: bool,               // Python units that run, and whether the socket starts at boot
    running: set<Version>, loaded: set<Version>,   // PHP services that run, and those that serve this site
    cron: bool, hosting: bool, processes: bool,
    database: bool, secret: bool, tree: Tree, files: set<DeletionFile>, account: Option<Identity>)

  predicate HasPhp(site: Site) {
    site.kind == Php || site.kind == WordPress
  }

  /** Everything the site may have generated outside its tree. */
  function Listed(site: Site): set<DeletionFile> {
    {Available(HttpLink), Available(TlsLink), NginxSnippet, PhpSnippet}
    + (if site.staging then {StagingAuth} else {})
    + (if HasPhp(site)
       then (set v | v in site.branches :: Pool(v)) + (set v | v in site.branches :: PreviousPool(v))
       else {})
    + (if site.kind == Python then {UnitFile(Socket), UnitFile(Service)} else {})
  }

  /** The branches a first attempt records: those holding a pool of the site, and the selected one. */
  function PhpVersions(site: Site, files: set<DeletionFile>): (r: seq<Version>)
    ensures HasPhp(site) ==> forall v :: v in r <==> v in site.branches && (Pool(v) in files || v == site.version)
    ensures !HasPhp(site) ==> r == []
  {
    if HasPhp(site) then Selected(site.branches, site.version, files) else []
  }

  function Selected(branches: seq<Version>, version: Version, files: set<DeletionFile>): (r: seq<Version>)
    ensures forall v :: v in r <==> v in branches && (Pool(v) in files || v == version)
  {
    if branches == [] then []
    else
      var rest := Selected(branches[1..], version, files);
      if Pool(branches[0]) in files || branches[0] == version then [branches[0]] + rest else rest
  }

  /** Something that may start processes under the site's account. */
  predicate Sources(w: World) {
    w.active != {} || w.loaded != {} || w.cron || w.hosting
  }

  /** A branch serves the site although no branch is recorded. The operation then waits for nothing. */
  predicate Overlooked(w: World) {
    w.record.Some? && w.record.value.versions == [] && w.loaded != {}
  }

  predicate Quiet(w: World) {
    && w.links == {} && w.traffic == {} && w.active == {} && !w.wanted && !w.cron && !w.hosting
    && (w.loaded == {} || Overlooked(w))
  }

  predicate Idle(w: World) {
    !w.processes || Overlooked(w)
  }

  predicate Stopped(w: World) {
    w.record.Some? && w.record.value.runtimeStopped
  }

  predicate DatabaseGone(w: World) {
    w.record.Some? && (w.record.value.database ==> !w.database && !w.secret)
  }

  predicate Deleted(site: Site, w: World) {
    && Quiet(w) && Idle(w) && DatabaseGone(w) && w.tree == Gone
    && w.files !! Listed(site) && w.account.None?
  }

  // ----- permitted changes -----

  predicate Begin(site: Site, w: World, w': World) {
    && w.record.None?
    && (w.tree != Gone ==> w.account.Some? && site.owned) && site.managed
    && (w.secret || w.database ==> site.kind == WordPress)
    && w' == w.(record := Some(DeletionRecord(w.account, w.secret, PhpVersions(site, w.files), false, false)))
  }

  /** Only what is on disk and enabled comes back, and not all of it need come back. */
  predicate Reboot(w: World, w': World) {
    && (forall v :: v in w'.loaded ==> Pool(v) in w.files)
    && (w'.active != {} ==> w.wanted)
    && w' == w.(traffic := w.links, loaded := w'.loaded, running := w'.running, active := w'.active, processes := false)
  }

  /** A connection to the listening socket starts the service behind it. */
  predicate Connect(w: World, w': World) {
    Socket in w.active && w' == w.(active := w.active + {Service})
  }

  predicate Spawn(w: World, w': World) {
    Sources(w) && w.account.Some? && w' == w.(processes := true)
  }

  predicate Underway(w: World) {
    w.record.Some? && !w.record.value.done
  }

  predicate CloseTraffic(w: World, w': World) {
    (w' == w.(links := w'.links) && w'.links <= w.links) || w' == w.(traffic := w.links)
  }

  /** Stopping the socket also keeps it from starting at boot. */
  predicate StopUnit(u: Unit, w: World, w': World)
    requires w.record.Some?
  {
    && !w.record.value.runtimeStopped && UnitFile(u) in w.files
    && w' == w.(active := w.active - {u}, wanted := w.wanted && u != Socket)
  }

  predicate DropPool(w: World, w': World)
    requires w.record.Some?
  {
    && !w.record.value.runtimeStopped
    && w'.files <= w.files
    && (forall f :: f in w.files && f !in w'.files ==> f.Pool? && f.version in w.record.value.versions)
    && w' == w.(files := w'.files)
  }

  /** A recorded branch loads what is on disk, or is stopped, but only when no pool needs it. */
  predicate Reconcile(site: Site, w: World, w': World)
    requires w.record.Some?
  {
    && !w.record.value.runtimeStopped
    && w' == w.(loaded := w'.loaded, running := w'.running)
    && (forall v :: v in w'.loaded && v !in w.loaded ==> v in w.record.value.versions && Pool(v) in w.files)
    && w'.running <= w.running
    && (forall v :: v in w.running && v !in w'.running ==> v !in site.others && Pool(v) !in w.files)
  }

  predicate DropJobs(w: World, w': World)
    requires w.record.Some?
  {
    && !w.record.value.runtimeStopped
    && (w' == w.(cron := false) || w' == w.(hosting := false))
  }

  /** The commands that stop Python units need their files. */
  predicate UnitsKnown(site: Site, files: set<DeletionFile>) {
    site.kind == Python ==> UnitFile(Socket) in files && UnitFile(Service) in files
  }

  predicate MarkStopped(site: Site, w: World, w': World)
    requires w.record.Some?
  {
    && Quiet(w) && UnitsKnown(site, w.files) && (forall v <- w.record.value.versions :: Pool(v) !in w.files)
    && w' == w.(record := Some(w.record.value.(runtimeStopped := true)))
  }

  predicate KillProcesses(w: World, w': World) {
    Stopped(w) && w' == w.(processes := false)
  }

  predicate DropDatabase(w: World, w': World)
    requires w.record.Some?
  {
    && Stopped(w) && Idle(w) && w.record.value.database
    && (w' == w.(database := false) || (!w.database && w' == w.(secret := false)))
  }

  predicate RemoveTree(w: World, w': World) {
    && Stopped(w) && Idle(w) && DatabaseGone(w)
    && w' == w.(tree := w'.tree) && w'.tree != Whole && (w.tree == Gone ==> w'.tree == Gone)
  }

  predicate RemoveFiles(site: Site, w: World, w': World) {
    && Stopped(w) && w.tree == Gone
    && w' == w.(files := w'.files) && w'.files <= w.files && w.files - w'.files <= Listed(site)
  }

  predicate ReleaseAccount(site: Site, w: World, w': World) {
    Stopped(w) && !w.processes && Deleted(site, w.(account := None)) && w' == w.(account := None)
  }

  predicate MarkDone(site: Site, w: World, w': World)
    requires w.record.Some?
  {
    Stopped(w) && Deleted(site, w) && w' == w.(record := Some(w.record.value.(done := true)))
  }

  /** Closing the site and stopping whatever runs it. */
  predicate StopStep(site: Site, w: World, w': World)
    requires w.record.Some?
  {
    || CloseTraffic(w, w') || StopUnit(Socket, w, w') || StopUnit(Service, w, w')
    || DropPool(w, w') || Reconcile(site, w, w') || DropJobs(w, w')
  }

  /** Destroying what a stopped site leaves behind. */
  predicate DestroyStep(site: Site, w: World, w': World)
    requires w.record.Some?
  {
    || KillProcesses(w, w') || DropDatabase(w, w') || RemoveTree(w, w')
    || RemoveFiles(site, w, w') || ReleaseAccount(site, w, w')
  }

  predicate MarkStep(site: Site, w: World, w': World)
    requires w.record.Some?
  {
    MarkStopped(site, w, w') || MarkDone(site, w, w')
  }

  predicate Progress(site: Site, w: World, w': World) {
    Underway(w) && (StopStep(site, w, w') || DestroyStep(site, w, w') || MarkStep(site, w, w'))
  }

  /** What happens around the operation. */
  predicate OutsideStep(site: Site, w: World, w': World) {
    Begin(site, w, w') || Reboot(w, w') || Connect(w, w') || Spawn(w, w')
  }

  predicate Next(site: Site, w: World, w': World) {
    OutsideStep(site, w, w') || Progress(site, w, w')
  }

  /** The kind of a site tells which services it may have, pool files stand in branch directories, the
      secret is written before its database, and without an account nothing runs as it. */
  ghost predicate Start(site: Site, w: World) {
    && w.record.None?
    && (forall v :: Pool(v) in w.files ==> HasPhp(site) && v in site.branches)
    && (w.active != {} || w.wanted ==> site.kind == Python)
    && (w.database ==> w.secret) && (w.secret ==> site.kind == WordPress)
    && (w.account.None? ==> !w.processes)
  }

  ghost predicate Run(site: Site, t: seq<World>) {
    && |t| > 0 && Start(site, t[0])
    && forall i :: 0 <= i < |t| - 1 ==> Next(site, t[i], t[i + 1])
  }

  // ----- what every permitted change keeps -----

  ghost predicate Inv(site: Site, w: World) {
    && (w.account.None? ==> !w.processes)
    && (w.active != {} || w.wanted ==> site.kind == Python)
    && match w.record {
      case None => Start(site, w)
      case Some(r) =>
        && (forall v :: Pool(v) in w.files ==> v in r.versions)
        && (r.database ==> site.kind == WordPress)
        && (!r.database ==> !w.database && !w.secret) && (w.database ==> w.secret)
        && (w.tree != Gone ==> r.identity.Some? && w.account.Some? && site.owned) && site.managed
        && (w.account.Some? ==> w.account == r.identity)
        && (r.runtimeStopped ==> Quiet(w) && forall v :: Pool(v) !in w.files)
        && (r.identity.Some? && w.account.None? ==> r.runtimeStopped && Deleted(site, w))
        && (r.done ==> r.runtimeStopped && Deleted(site, w))
    }
  }

  lemma StopKeeps(site: Site, w: World, w': World)
    requires Inv(site, w) && Underway(w) && StopStep(site, w, w')
    ensures Inv(site, w')
  {
    hide Inv, CloseTraffic, StopUnit, DropPool, Reconcile, DropJobs;
    if DropPool(w, w') || Reconcile(site, w, w') {
      PoolsKeep(site, w, w');
    } else if CloseTraffic(w, w') {
      CloseKeeps(site, w, w');
    } else if DropJobs(w, w') {
      JobsKeep(site, w, w');
    } else {
      UnitKeeps(site, if StopUnit(Socket, w, w') then Socket else Service, w, w');
    }
  }

  lemma CloseKeeps(site: Site, w: World, w': World)
    requires Inv(site, w) && Underway(w) && CloseTraffic(w, w')
    ensures Inv(site, w')
  {
    hide Listed, PhpVersions, Start;
  }

  lemma JobsKeep(site: Site, w: World, w': World)
    requires Inv(site, w) && Underway(w) && DropJobs(w, w')
    ensures Inv(site, w')
  {
    hide Listed, PhpVersions, Start;
  }

  lemma UnitKeeps(site: Site, u: Unit, w: World, w': World)
    requires Inv(site, w) && Underway(w) && StopUnit(u, w, w')
    ensures Inv(site, w')
  {
    hide Listed, PhpVersions, Start;
  }

  lemma PoolsKeep(site: Site, w: World, w': World)
    requires Inv(site, w) && Underway(w) && (DropPool(w, w') || Reconcile(site, w, w'))
    ensures Inv(site, w')
  {
    hide Listed, PhpVersions, Start;
  }

  lemma DestroyKeeps(site: Site, w: World, w': World)
    requires Inv(site, w) && Underway(w) && DestroyStep(site, w, w')
    ensures Inv(site, w')
  {
    hide Listed, Start;
  }

  lemma MarkKeeps(site: Site, w: World, w': World)
    requires Inv(site, w) && Underway(w) && MarkStep(site, w, w')
    ensures Inv(site, w')
  {
    hide Listed, Start;
  }

  lemma OutsideKeeps(site: Site, w: World, w': World)
    requires Inv(site, w) && OutsideStep(site, w, w')
    ensures Inv(site, w')
  {
    hide Inv, Begin, Reboot, Connect, Spawn;
    if Begin(site, w, w') {
      BeginKeeps(site, w, w');
    } else if Reboot(w, w') {
      RebootKeeps(site, w, w');
    } else {
      ActivityKeeps(site, w, w');
    }
  }

  lemma BeginKeeps(site: Site, w: World, w': World)
    requires Inv(site, w) && Begin(site, w, w')
    ensures Inv(site, w')
  {
    hide Listed;
  }

  lemma RebootKeeps(site: Site, w: World, w': World)
    requires Inv(site, w) && Reboot(w, w')
    ensures Inv(site, w')
  {
    hide Listed;
  }

  lemma ActivityKeeps(site: Site, w: World, w': World)
    requires Inv(site, w) && (Connect(w, w') || Spawn(w, w'))
    ensures Inv(site, w')
  {
    hide Listed;
  }

  lemma NextKeepsInv(site: Site, w: World, w': World)
    requires Inv(site, w) && Next(site, w, w')
    ensures Inv(site, w')
  {
    hide Inv, OutsideStep, StopStep, DestroyStep, MarkStep;
    if OutsideStep(site, w, w') {
      OutsideKeeps(site, w, w');
    } else if StopStep(site, w, w') {
      StopKeeps(site, w, w');
    } else if DestroyStep(site, w, w') {
      DestroyKeeps(site, w, w');
    } else {
      MarkKeeps(site, w, w');
    }
  }

  lemma {:induction false} RunKeepsInv(site: Site, t: seq<World>, i: nat)
    requires Run(site, t) && i < |t|
    ensures Inv(site, t[i])
  {
    hide Inv, Next, Start;
    if i > 0 {
      RunKeepsInv(site, t, i - 1);
      assert Next(site, t[i - 1], t[i - 1 + 1]);
      NextKeepsInv(site, t[i - 1], t[i]);
    } else {
      StartKeeps(site, t[0]);
    }
  }

  lemma StartKeeps(site: Site, w: World)
    requires Start(site, w)
    ensures Inv(site, w)
  {
  }

  // ----- what the operation relies on and may do next -----

  lemma OnlyPythonIsActive(site: Site, w: World)
    requires Inv(site, w) && site.kind != Python
    ensures w.active == {} && !w.wanted
  {
  }

  lemma RuntimeIsQuiet(site: Site, w: World)
    requires Inv(site, w) && Stopped(w)
    ensures Quiet(w)
  {
  }

  lemma WithoutIdentityNothingRuns(site: Site, w: World)
    requires Inv(site, w) && w.record.Some?
    ensures w.record.value.identity.None? ==> w.account.None?
    ensures w.account.None? ==> !w.processes
    ensures !w.record.value.database ==> !w.database && !w.secret
  {
  }

  lemma StillOwned(site: Site, w: World)
    requires Inv(site, w) && w.record.Some?
    ensures site.managed && (w.tree != Gone ==> w.record.value.identity.Some? && site.owned)
  {
  }

  lemma DoneIsDeleted(site: Site, w: World)
    requires Inv(site, w) && w.record.Some? && w.record.value.done
    ensures Stopped(w) && Deleted(site, w)
  {
  }

  lemma MayBegin(site: Site, w: World)
    requires Inv(site, w) && w.record.None? && site.managed && (w.tree != Gone ==> w.account.Some? && site.owned)
    ensures Next(site, w,
        w.(record := Some(DeletionRecord(w.account, w.secret, PhpVersions(site, w.files), false, false))))
  {
  }

  lemma MayFinish(site: Site, w: World)
    requires Underway(w) && Stopped(w) && Deleted(site, w)
    ensures Next(site, w, w.(record := Some(w.record.value.(done := true))))
  {
  }

  lemma MayClose(site: Site, w: World, w': World)
    requires Underway(w) && CloseTraffic(w, w')
    ensures Next(site, w, w')
  {
  }

  lemma MayStopUnit(site: Site, u: Unit, w: World)
    requires Underway(w) && !w.record.value.runtimeStopped && UnitFile(u) in w.files
    ensures Next(site, w, w.(active := w.active - {u}, wanted := w.wanted && u != Socket))
  {
    hide CloseTraffic, DropPool, Reconcile, DropJobs, DestroyStep, MarkStep, OutsideStep;
    assert StopUnit(u, w, w.(active := w.active - {u}, wanted := w.wanted && u != Socket));
  }

  lemma MayDropPool(site: Site, w: World, w': World)
    requires Underway(w) && DropPool(w, w')
    ensures Next(site, w, w')
  {
  }

  lemma MayLetGo(site: Site, v: Version, w: World, rest: set<Version>)
    requires Underway(w) && !w.record.value.runtimeStopped && Pool(v) !in w.files
    requires rest == if v in site.others then w.running else w.running - {v}
    ensures Next(site, w, w.(loaded := w.loaded - {v}, running := rest))
  {
    hide CloseTraffic, StopUnit, DropPool, DropJobs, DestroyStep, MarkStep, OutsideStep;
    assert Reconcile(site, w, w.(loaded := w.loaded - {v}, running := rest));
  }

  lemma MayDropJobs(site: Site, w: World, w': World)
    requires Underway(w) && DropJobs(w, w')
    ensures Next(site, w, w')
  {
  }

  lemma MayStop(site: Site, w: World)
    requires Underway(w) && Quiet(w) && UnitsKnown(site, w.files)
        && forall v <- w.record.value.versions :: Pool(v) !in w.files
    ensures Next(site, w, w.(record := Some(w.record.value.(runtimeStopped := true))))
  {
  }

  lemma QuietWithoutAccount(w: World)
    ensures Quiet(w) ==> Quiet(w.(account := None))
  {
  }

  lemma MayDestroy(site: Site, w: World, w': World)
    requires Underway(w) && DestroyStep(site, w, w')
    ensures Next(site, w, w')
  {
  }

  // ----- results over whole runs -----

  predicate RecordGrows(w: World, w': World) {
    w.record.Some? ==>
      && w'.record.Some?
      && var r, r' := w.record.value, w'.record.value;
      && r'.versions == r.versions && r'.identity == r.identity && r'.database == r.database
      && (r.runtimeStopped ==> r'.runtimeStopped) && (r.done ==> r'.done)
  }

  predicate SameResources(w: World, w': World) {
    && w'.links == w.links && w'.files == w.files && w'.tree == w.tree
    && w'.database == w.database && w'.secret == w.secret && w'.account == w.account
    && w'.cron == w.cron && w'.hosting == w.hosting && w'.wanted == w.wanted
  }

  /** What a stopping step leaves alone. */
  predicate StopFrame(site: Site, w: World, w': World)
    requires w.record.Some?
  {
    && w' == w.(links := w'.links, traffic := w'.traffic, active := w'.active, wanted := w'.wanted, files := w'.files,
                loaded := w'.loaded, running := w'.running, cron := w'.cron, hosting := w'.hosting)
    && w'.files <= w.files && (forall f <- w.files :: f in w'.files || f.Pool?)
    && (forall v <- w'.loaded :: v in w.loaded || v in w.record.value.versions)
    && (forall v <- w.running :: v in w'.running || v !in site.others)
  }

  lemma CloseFramed(site: Site, w: World, w': World)
    requires w.record.Some? && CloseTraffic(w, w')
    ensures StopFrame(site, w, w')
  {
  }

  lemma UnitFramed(site: Site, u: Unit, w: World, w': World)
    requires w.record.Some? && StopUnit(u, w, w')
    ensures StopFrame(site, w, w')
  {
  }

  lemma JobsFramed(site: Site, w: World, w': World)
    requires w.record.Some? && DropJobs(w, w')
    ensures StopFrame(site, w, w')
  {
  }

  lemma PoolStopFramed(site: Site, w: World, w': World)
    requires w.record.Some? && (DropPool(w, w') || Reconcile(site, w, w'))
    ensures StopFrame(site, w, w')
  {
  }

  lemma StopFramed(site: Site, w: World, w': World)
    requires w.record.Some? && StopStep(site, w, w')
    ensures StopFrame(site, w, w')
  {
    hide StopFrame, CloseTraffic, StopUnit, DropPool, Reconcile, DropJobs;
    if CloseTraffic(w, w') {
      CloseFramed(site, w, w');
    } else if StopUnit(Socket, w, w') || StopUnit(Service, w, w') {
      UnitFramed(site, if StopUnit(Socket, w, w') then Socket else Service, w, w');
    } else if DropJobs(w, w') {
      JobsFramed(site, w, w');
    } else {
      PoolStopFramed(site, w, w');
    }
  }

  /** What a destroying step leaves alone. */
  predicate DestroyFrame(site: Site, w: World, w': World)
    requires w.record.Some?
  {
    && w' == w.(processes := w'.processes, database := w'.database, secret := w'.secret, tree := w'.tree,
                files := w'.files, account := w'.account)
    && w'.files <= w.files
    && ((w'.tree == w.tree && w'.files == w.files) || RemoveTree(w, w') || RemoveFiles(site, w, w'))
  }

  lemma DestroyFramed(site: Site, w: World, w': World)
    requires w.record.Some? && DestroyStep(site, w, w')
    ensures DestroyFrame(site, w, w')
  {
    hide DestroyFrame, RemoveTree, RemoveFiles, KillProcesses, DropDatabase, ReleaseAccount;
    if RemoveTree(w, w') || RemoveFiles(site, w, w') { TreeFramed(site, w, w'); } else { RestFramed(site, w, w'); }
  }

  lemma TreeFramed(site: Site, w: World, w': World)
    requires w.record.Some? && (RemoveTree(w, w') || RemoveFiles(site, w, w'))
    ensures DestroyFrame(site, w, w')
  {
    hide Stopped, DatabaseGone, Listed, Idle;
  }

  lemma RestFramed(site: Site, w: World, w': World)
    requires w.record.Some? && (KillProcesses(w, w') || DropDatabase(w, w') || ReleaseAccount(site, w, w'))
    ensures DestroyFrame(site, w, w')
  {
    hide Deleted, Stopped, Listed, Idle, RemoveTree, RemoveFiles;
  }

  lemma MarkFramed(site: Site, w: World, w': World)
    requires w.record.Some? && MarkStep(site, w, w')
    ensures w' == w.(record := w'.record) && RecordGrows(w, w')
    ensures Stopped(w') ==> Stopped(w) || UnitsKnown(site, w.files)
  {
    hide Deleted, Quiet;
  }

  lemma OutsideFramed(site: Site, w: World, w': World)
    requires OutsideStep(site, w, w')
    ensures w' == w.(record := w'.record, traffic := w'.traffic, loaded := w'.loaded, running := w'.running,
                     active := w'.active, processes := w'.processes)
    ensures w.record.Some? ==> w'.record == w.record
    ensures Stopped(w') ==> Stopped(w)
    ensures w'.running == w.running || Reboot(w, w')
  {
    hide Listed, PhpVersions, Sources;
  }

  lemma RecordStep(site: Site, w: World, w': World)
    requires Next(site, w, w')
    ensures RecordGrows(w, w')
  {
    hide OutsideStep, Progress;
    if Progress(site, w, w') { ProgressRecord(site, w, w'); } else { OutsideFramed(site, w, w'); }
  }

  lemma ProgressRecord(site: Site, w: World, w': World)
    requires Progress(site, w, w')
    ensures RecordGrows(w, w')
  {
    hide StopStep, DestroyStep, MarkStep, RemoveTree, RemoveFiles;
    if MarkStep(site, w, w') {
      MarkFramed(site, w, w');
    } else if StopStep(site, w, w') {
      StopFramed(site, w, w');
    } else {
      DestroyFramed(site, w, w');
    }
  }

  lemma BeforeRecord(site: Site, w: World, w': World)
    requires Next(site, w, w') && w.record.None?
    ensures SameResources(w, w')
    ensures w'.running == w.running || Reboot(w, w')
  {
    hide OutsideStep, StopStep, DestroyStep, MarkStep, Reboot;
    OutsideFramed(site, w, w');
  }

  /** Only one of the permitted changes touches the tree, and one a file other than a pool. */
  lemma DestructiveStep(site: Site, w: World, w': World, f: DeletionFile)
    requires Next(site, w, w') && (w'.tree != w.tree || (f in w.files && f !in w'.files && !f.Pool?))
    ensures RemoveTree(w, w') || RemoveFiles(site, w, w')
  {
    hide OutsideStep, StopStep, DestroyStep, MarkStep, RemoveTree, RemoveFiles, RecordGrows, Reboot;
    if OutsideStep(site, w, w') {
      OutsideFramed(site, w, w');
    } else {
      if StopStep(site, w, w') {
        StopFramed(site, w, w');
      } else if MarkStep(site, w, w') {
        MarkFramed(site, w, w');
      } else {
        DestroyFramed(site, w, w');
      }
    }
  }

  /** The account, and with it the UID, is released only when tree, database and listed files are gone:
      in every state without the account that the record names, nothing of the site is left. */
  lemma AccountOutlivesFiles(site: Site, t: seq<World>, i: nat)
    requires Run(site, t) && i < |t|
    requires t[i].record.Some? && t[i].record.value.identity.Some? && t[i].account.None?
    ensures t[i].tree == Gone && DatabaseGone(t[i]) && t[i].files !! Listed(site) && !t[i].processes && Quiet(t[i])
  {
    hide Listed, PhpVersions, Next;
    RunKeepsInv(site, t, i);
  }

  /** The tree loses nothing before the traffic links are off disk and out of Nginx, the stopped runtime
      is recorded, the database that the record names is gone, and, unless a branch was overlooked, no
      process of the site runs and nothing can start one. */
  lemma TreeAfterTraffic(site: Site, t: seq<World>, i: nat)
    requires Run(site, t) && i + 1 < |t| && t[i].tree != t[i + 1].tree
    ensures Stopped(t[i]) && t[i].links == {} && t[i].traffic == {} && DatabaseGone(t[i])
    ensures Overlooked(t[i]) || (!t[i].processes && !Sources(t[i]))
  {
    hide Listed, PhpVersions, Next;
    RunKeepsInv(site, t, i);
    DestructiveStep(site, t[i], t[i + 1], NginxSnippet);
  }

  /** A listed file other than a pool goes only after the tree; a Python unit file in particular outlives
      every command that stops the unit, which is only given while the stopped runtime is unrecorded. */
  lemma UnitFilesOutliveStops(site: Site, t: seq<World>, i: nat, f: DeletionFile)
    requires Run(site, t) && i + 1 < |t| && f in t[i].files && f !in t[i + 1].files && !f.Pool?
    ensures Stopped(t[i]) && t[i].active == {} && t[i].tree == Gone
  {
    hide Listed, PhpVersions, Next;
    RunKeepsInv(site, t, i);
    DestructiveStep(site, t[i], t[i + 1], f);
  }

  /** The record is written once and afterwards only completed, so the branches found first are the
      branches reconciled by every replay. */
  lemma {:induction false} RecordIsKept(site: Site, t: seq<World>, i: nat, j: nat)
    requires Run(site, t) && i <= j < |t| && t[i].record.Some?
    ensures RecordGrows(t[i], t[j])
    decreases j - i
  {
    hide Next;
    if i < j {
      RecordStep(site, t[i], t[i + 1]);
      RecordIsKept(site, t, i + 1, j);
    }
  }

  /** What a first attempt can see: if any branch serves the site, some branch will be recorded. */
  predicate Seen(site: Site, w: World) {
    if w.record.None? then w.loaded == {} || PhpVersions(site, w.files) != [] else !Overlooked(w)
  }

  lemma SeenStep(site: Site, w: World, w': World)
    requires Inv(site, w) && Next(site, w, w') && Seen(site, w)
    ensures Seen(site, w')
  {
    hide Progress, Deleted, Listed, Sources;
    if Progress(site, w, w') { SeenProgress(site, w, w'); }
  }

  lemma SeenProgress(site: Site, w: World, w': World)
    requires Progress(site, w, w') && !Overlooked(w)
    ensures w'.record.Some? && !Overlooked(w')
  {
    hide StopStep, DestroyStep, MarkStep, RemoveTree, RemoveFiles;
    if StopStep(site, w, w') {
      StopFramed(site, w, w');
    } else if DestroyStep(site, w, w') {
      DestroyFramed(site, w, w');
    } else {
      MarkFramed(site, w, w');
    }
  }

  lemma {:induction false} SeenStays(site: Site, t: seq<World>, i: nat)
    requires Run(site, t) && i < |t| && Seen(site, t[0])
    ensures Seen(site, t[i])
  {
    hide Next, Seen, Inv;
    if i > 0 {
      SeenStays(site, t, i - 1);
      RunKeepsInv(site, t, i - 1);
      assert Next(site, t[i - 1], t[i - 1 + 1]);
      SeenStep(site, t[i - 1], t[i]);
    }
  }

  /** When the runtime counts as stopped no branch serves the site, not even one whose pool file was gone
      before deletion began: provided that the first attempt recorded a branch to wait for, or none served. */
  lemma BranchesReconciled(site: Site, t: seq<World>, i: nat)
    requires Run(site, t) && i < |t| && Stopped(t[i]) && Seen(site, t[0])
    ensures t[i].loaded == {} && forall v :: Pool(v) !in t[i].files
  {
    hide Next, Deleted, Listed;
    RunKeepsInv(site, t, i);
    SeenStays(site, t, i);
  }

  /** Without that, a branch may be overlooked: from every such state in which nothing else runs, the
      record and the stopped runtime are written while the branch serves. */
  lemma BranchOverlooked(site: Site, w: World) returns (t: seq<World>)
    requires Start(site, w) && !Seen(site, w) && site.managed && (w.tree != Gone ==> w.account.Some? && site.owned)
    requires UnitsKnown(site, w.files)
    requires w.links == {} && w.traffic == {} && w.active == {} && !w.wanted && !w.cron && !w.hosting
    ensures |t| == 3 && t[0] == w && Run(site, t) && Stopped(t[2]) && t[2].loaded != {}
  {
    hide StopStep, DestroyStep;
    var begun := w.(record := Some(DeletionRecord(w.account, w.secret, PhpVersions(site, w.files), false, false)));
    var stopped := begun.(record := Some(begun.record.value.(runtimeStopped := true)));
    assert Begin(site, w, begun);
    assert MarkStopped(site, begun, stopped);
    t := [w, begun, stopped];
  }

  /** A Python site whose provisioning failed before its units were written is never deleted: no run
      from there reaches a stopped runtime, whatever succeeds. */
  lemma {:induction false} MissingUnitsNeverStop(site: Site, t: seq<World>, i: nat)
    requires Run(site, t) && i < |t| && !UnitsKnown(site, t[0].files)
    ensures !UnitsKnown(site, t[i].files) && !Stopped(t[i])
  {
    hide Next;
    if i > 0 {
      MissingUnitsNeverStop(site, t, i - 1);
      assert Next(site, t[i - 1], t[i - 1 + 1]);
      UnitsStayMissing(site, t[i - 1], t[i]);
    }
  }

  lemma UnitsStayMissing(site: Site, w: World, w': World)
    requires Next(site, w, w') && !UnitsKnown(site, w.files) && !Stopped(w)
    ensures !UnitsKnown(site, w'.files) && !Stopped(w')
  {
    hide OutsideStep, StopStep, DestroyStep, MarkStep, RemoveTree, RemoveFiles, RecordGrows, Reboot;
    if OutsideStep(site, w, w') {
      OutsideFramed(site, w, w');
    } else {
      if StopStep(site, w, w') {
        StopFramed(site, w, w');
      } else if DestroyStep(site, w, w') {
        DestroyFramed(site, w, w');
      } else {
        MarkFramed(site, w, w');
      }
    }
  }

  /** A branch that holds other pools is never stopped by the deletion; only a reboot can lose it. */
  lemma OthersKeepRunning(site: Site, t: seq<World>, i: nat, v: Version)
    requires Run(site, t) && i + 1 < |t| && v in site.others && v in t[i].running && v !in t[i + 1].running
    ensures Reboot(t[i], t[i + 1])
  {
    hide Next;
    OthersStep(site, t[i], t[i + 1], v);
  }

  lemma OthersStep(site: Site, w: World, w': World, v: Version)
    requires Next(site, w, w') && v in site.others && v in w.running && v !in w'.running
    ensures Reboot(w, w')
  {
    hide OutsideStep, StopStep, DestroyStep, MarkStep, RemoveTree, RemoveFiles, RecordGrows, Reboot;
    if OutsideStep(site, w, w') {
      OutsideFramed(site, w, w');
    } else {
      if StopStep(site, w, w') {
        StopFramed(site, w, w');
      } else if DestroyStep(site, w, w') {
        DestroyFramed(site, w, w');
      } else {
        MarkFramed(site, w, w');
      }
    }
  }

  /** Before the record exists nothing of the site has been changed. */
  lemma {:induction false} UntouchedBeforeRecord(site: Site, t: seq<World>, i: nat)
    requires Run(site, t) && i < |t| && t[i].record.None?
    ensures SameResources(t[0], t[i])
  {
    hide Next;
    if i > 0 {
      assert Next(site, t[i - 1], t[i - 1 + 1]);
      RecordStep(site, t[i - 1], t[i]);
      BeforeRecord(site, t[i - 1], t[i]);
      UntouchedBeforeRecord(site, t, i - 1);
    }
  }

  /** What is gone stays gone; a reboot may change which PHP branches run, and no branch comes to serve. */
  lemma {:induction false} DoneIsFinal(site: Site, t: seq<World>, i: nat, j: nat)
    requires Run(site, t) && i <= j < |t| && t[i].record.Some? && t[i].record.value.done
    ensures t[j] == t[i].(running := t[j].running, loaded := t[j].loaded) && t[j].loaded <= t[i].loaded
    ensures Deleted(site, t[j])
    decreases j - i
  {
    hide Next, Inv, Deleted;
    RunKeepsInv(site, t, i);
    DoneIsDeleted(site, t[i]);
    if i < j {
      assert Next(site, t[i], t[i + 1]);
      DoneStep(site, t[i], t[i + 1]);
      DoneIsFinal(site, t, i + 1, j);
    }
  }

  lemma DoneStep(site: Site, w: World, w': World)
    requires Inv(site, w) && Next(site, w, w') && w.record.Some? && w.record.value.done
    ensures w' == w.(running := w'.running, loaded := w'.loaded) && w'.loaded <= w.loaded
  {
    hide StopStep, DestroyStep, MarkStep, Listed, PhpVersions;
  }

  /** What is left when a deletion is on record as done: nothing that the site had, resource by resource. A branch
      can only still serve if none was on record. */
  lemma NothingIsLeft(site: Site, t: seq<World>, i: nat)
    requires Run(site, t) && i < |t| && t[i].record.Some? && t[i].record.value.done
    ensures var w := t[i];
            && w.links == {} && w.traffic == {} && w.active == {} && !w.wanted && !w.cron && !w.hosting
            && !w.database && !w.secret && w.tree == Gone && w.account.None? && !w.processes
            && (w.record.value.versions != [] ==> w.loaded == {})
    ensures forall f <- t[i].files :: !f.Available? && f != NginxSnippet && f != PhpSnippet && !f.Pool?
    ensures forall f <- t[i].files ::
        && (site.staging ==> f != StagingAuth)
        && (site.kind == Python ==> !f.UnitFile?)
        && (site.kind == Php || site.kind == WordPress ==> !(f.PreviousPool? && f.version in site.branches))
  {
    hide Run, Next;
    RunKeepsInv(site, t, i);
    ListedFiles(site);
  }

  lemma ListedFiles(site: Site)
    ensures forall l: Link :: Available(l) in Listed(site)
    ensures NginxSnippet in Listed(site) && PhpSnippet in Listed(site)
    ensures site.staging ==> StagingAuth in Listed(site)
    ensures site.kind == Python ==> forall u: Unit :: UnitFile(u) in Listed(site)
    ensures site.kind == Php || site.kind == WordPress ==>
        forall v <- site.branches :: Pool(v) in Listed(site) && PreviousPool(v) in Listed(site)
  {
    forall l: Link ensures Available(l) in Listed(site) { assert l == HttpLink || l == TlsLink; }
    if site.kind == Python {
      forall u: Unit ensures UnitFile(u) in Listed(site) { assert u == Socket || u == Service; }
    }
  }
}
