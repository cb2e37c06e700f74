/** A change of a site's PHP branch: one pool file per branch, a recovery copy, two services and one
    shared socket; the permitted changes, and what follows over every run of them, reboots included. */
module PhpProtocol {
  import opened Faults

  datatype Branch = Previous | Target

  datatype Site = Site(
    pool: string,          // the pool file of the previous branch
    rendered: string,      // the pool file rendered for the target branch
    others: set<Branch>)   // branches that hold another pool than the default www pool

  /** serving: the branches whose service listens on the site's socket. */
  datatype World = World(pools: map<Branch, string>, recovery: Option<string>,
                         enabled: set<Branch>, running: set<Branch>, serving: set<Branch>)

  predicate SaveCopy(site: Site, w: World, w': World) {
    Previous in w.pools && w' == w.(recovery := Some(w.pools[Previous]))
  }

  predicate Release(site: Site, w: World, w': World) {
    w.recovery == Some(site.pool) && w' == w.(pools := w.pools - {Previous})
  }

  predicate Install(site: Site, w: World, w': World) {
    && Previous !in w.pools && Previous !in w.serving && w.recovery == Some(site.pool)
    && w' == w.(pools := w.pools[Target := site.rendered])
  }

  predicate Withdraw(w: World, w': World) {
    w.recovery.Some? && w' == w.(pools := w.pools - {Target})
  }

  predicate Restore(site: Site, w: World, w': World) {
    && Target !in w.pools && Target !in w.serving
    && w' == w.(pools := w.pools[Previous := site.pool])
  }

  /** A running service that loads its configuration listens for exactly the pools on disk. */
  predicate Load(b: Branch, w: World, w': World) {
    b in w.running && w' == w.(serving := if b in w.pools then w.serving + {b} else w.serving - {b})
  }

  predicate Start(b: Branch, w: World, w': World) {
    w' == w.(enabled := w.enabled + {b}, running := w.running + {b},
             serving := if b in w.pools then w.serving + {b} else w.serving)
  }

  predicate StopUnused(site: Site, b: Branch, w: World, w': World) {
    && b !in w.pools && b !in site.others
    && w' == w.(enabled := w.enabled - {b}, running := w.running - {b}, serving := w.serving - {b})
  }

  /** Only enabled services come back, not all of them need come back, and each listens for the pools on disk. */
  predicate Reboot(w: World, w': World) {
    && w'.running <= w.enabled
    && w' == w.(running := w'.running, serving := set b | b in w'.running && b in w.pools)
  }

  predicate ServiceStep(site: Site, b: Branch, w: World, w': World) {
    Load(b, w, w') || Start(b, w, w') || StopUnused(site, b, w, w')
  }

  predicate Next(site: Site, w: World, w': World) {
    || SaveCopy(site, w, w') || Release(site, w, w') || Install(site, w, w') || Withdraw(w, w') || Restore(site, w, w')
    || ServiceStep(site, Previous, w, w') || ServiceStep(site, Target, w, w') || Reboot(w, w')
  }

  /** Only the previous pool is installed. */
  predicate Initial(site: Site, w: World) {
    w.pools == map[Previous := site.pool] && Target !in w.serving
  }

  ghost predicate Run(site: Site, t: seq<World>) {
    && |t| > 0 && Initial(site, t[0])
    && forall i :: 0 <= i < |t| - 1 ==> Next(site, t[i], t[i + 1])
  }

  predicate Inv(site: Site, w: World) {
    && !(Previous in w.pools && Target in w.pools)
    && !(Previous in w.serving && Target in w.serving)
    && (Previous in w.pools ==> w.pools[Previous] == site.pool && Target !in w.serving)
    && (Target in w.pools ==> w.pools[Target] == site.rendered && Previous !in w.serving)
    && (Previous !in w.pools ==> w.recovery == Some(site.pool))
  }

  lemma NextKeepsInv(site: Site, w: World, w': World)
    requires Inv(site, w) && Next(site, w, w')
    ensures Inv(site, w')
  {
  }

  lemma {:induction false} RunKeepsInv(site: Site, t: seq<World>, i: nat)
    requires Run(site, t) && i < |t|
    ensures Inv(site, t[i])
  {
    hide Next;
    if i > 0 {
      RunKeepsInv(site, t, i - 1);
      assert Next(site, t[i - 1], t[i - 1 + 1]);
      NextKeepsInv(site, t[i - 1], t[i]);
    }
  }

  /** In every crash, reboot and replay state: never both pools on disk, never both branches on the socket,
      and the previous pool's content in place or in the recovery copy. */
  lemma SwitchIsSafe(site: Site, t: seq<World>, i: nat)
    requires Run(site, t) && i < |t|
    ensures !(Previous in t[i].pools && Target in t[i].pools)
    ensures !(Previous in t[i].serving && Target in t[i].serving)
    ensures (Previous in t[i].pools && t[i].pools[Previous] == site.pool) || t[i].recovery == Some(site.pool)
  {
    RunKeepsInv(site, t, i);
  }

  /** A branch that holds another non-default pool is never disabled. */
  lemma {:induction false} OthersStayEnabled(site: Site, t: seq<World>, i: nat, j: nat)
    requires Run(site, t) && i <= j < |t|
    ensures forall b <- site.others :: b in t[i].enabled ==> b in t[j].enabled
    decreases j - i
  {
    if i < j {
      assert Next(site, t[i], t[i + 1]);
      OthersStayEnabled(site, t, i + 1, j);
    }
  }
}
