/** The renames with which an update replaces a live tree, and the recovery that every later attempt
    starts with. The same recovery protects the deployment of a staging copy. */
module FileSwitch {
  import opened Faults

  /** A whole tree is known by how often the update has been applied to it. */
  datatype Tree = Whole(updates: nat) | Partial

  /** Foreign is a link or a file where a directory is expected. */
  datatype Node = Directory(tree: Tree) | Foreign

  datatype World = World(live: Option<Node>, previous: Option<Node>, build: Option<Tree>)

  predicate IsWhole(n: Option<Node>) {
    n.Some? && n.value.Directory? && n.value.tree.Whole?
  }

  predicate Discard(w: World, w': World) {
    IsWhole(w.live) && w.previous.Some? && w' == w.(previous := w'.previous)
    && (w'.previous.None? || w'.previous == Some(Directory(Partial)))
  }

  predicate Return(w: World, w': World) {
    w.live.None? && w.previous.Some? && w.previous.value.Directory? && w' == w.(live := w.previous, previous := None)
  }

  predicate Build(w: World, w': World) {
    w' == w.(build := w'.build)
  }

  predicate Preserve(w: World, w': World) {
    w.previous.None? && w.live.Some? && w' == w.(live := None, previous := w.live)
  }

  predicate Activate(w: World, w': World) {
    && w.live.None? && w.build.Some? && w.build.value.Whole? && IsWhole(w.previous)
    && w.build.value.updates == w.previous.value.tree.updates + 1
    && w' == w.(live := Some(Directory(w.build.value)), build := None)
  }

  predicate Next(w: World, w': World) {
    Discard(w, w') || Return(w, w') || Build(w, w') || Preserve(w, w') || Activate(w, w')
  }

  predicate Start(w: World) {
    IsWhole(w.live) && w.previous.None?
  }

  ghost predicate Run(t: seq<World>) {
    && |t| > 0 && Start(t[0])
    && forall i :: 0 <= i < |t| - 1 ==> Next(t[i], t[i + 1])
  }

  /** The live tree is whole, or it is absent while the saved copy is whole. */
  predicate Inv(w: World) {
    && (IsWhole(w.live) || (w.live.None? && IsWhole(w.previous)))
    && (w.previous.Some? ==> w.previous.value.Directory?)
    && (IsWhole(w.live) && IsWhole(w.previous) ==> w.live.value.tree.updates == w.previous.value.tree.updates + 1)
  }

  function Updates(w: World): nat
    requires Inv(w)
  {
    if w.live.Some? then w.live.value.tree.updates else w.previous.value.tree.updates
  }

  lemma {:induction false} RunKeepsInv(t: seq<World>, i: nat)
    requires Run(t) && i < |t|
    ensures Inv(t[i])
  {
    if i > 0 {
      RunKeepsInv(t, i - 1);
      assert Next(t[i - 1], t[i - 1 + 1]);
    }
  }

  /** A step replaces the live tree by the same tree updated once more, or not at all; in particular
      no step brings an older tree back over a newer one, and none leaves a partial tree live. */
  lemma LiveTreeNeverPartial(t: seq<World>, i: nat)
    requires Run(t) && i + 1 < |t|
    ensures Inv(t[i]) && Inv(t[i + 1])
    ensures Updates(t[i]) <= Updates(t[i + 1]) <= Updates(t[i]) + 1
    ensures t[i].live.Some? ==> IsWhole(t[i].live)
    ensures t[i].live.None? ==> IsWhole(t[i].previous)
  {
    RunKeepsInv(t, i);
    RunKeepsInv(t, i + 1);
    assert Next(t[i], t[i + 1]);
  }

  class Host {
    var live: Option<Node>
    var previous: Option<Node>
    var build: Option<Tree>
    var weather: Weather
    ghost var trail: seq<World>

    constructor (updates: nat)
      ensures Valid() && live == Some(Directory(Whole(updates)))
    {
      live, previous, build, weather := Some(Directory(Whole(updates))), None, None, Weather(0, true);
      trail := [World(Some(Directory(Whole(updates))), None, None)];
    }

    ghost function Now(): World
      reads this
    {
      World(live, previous, build)
    }

    ghost predicate Valid()
      reads this
    {
      |trail| > 0 && Run(trail) && trail[|trail| - 1] == Now() && Inv(Now())
    }

    ghost method Step()
      requires |trail| > 0 && Run(trail) && Inv(trail[|trail| - 1]) && Next(trail[|trail| - 1], Now())
      modifies `trail
      ensures Valid() && Extends(old(trail), trail)
    {
      trail := trail + [Now()];
    }

    /** recoverInterruptedFileSwitch: a saved copy beside a live tree is stale, one without a live tree
        is the site. */
    method RecoverInterruptedFileSwitch() returns (o: Outcome)
      requires Valid()
      modifies `live, `previous, `weather, `trail
      ensures Valid() && Extends(old(trail), trail) && old(weather).Allows(o, weather)
      ensures o.Done? ==> IsWhole(live) && previous.None?
      ensures Updates(Now()) == old(Updates(Now())) && (old(live).Some? ==> live == old(live))
    {
      o, weather := Try(weather);
      if !o.Done? || previous.None? { return; }
      if previous.value.Foreign? { return Failed; }
      if live.Some? {
        if live.value.Foreign? { return Failed; }
        o, weather := Try(weather);
        var effective := Effect(o);
        var touched := *;
        if effective {
          previous := None;
          Step();
        } else if touched {
          previous := Some(Directory(Partial));
          Step();
        }
        return;
      }
      o := TakeBack();
    }

    /** The saved copy becomes the site again. */
    method TakeBack() returns (o: Outcome)
      requires Valid() && live.None? && previous.Some?
      modifies `live, `previous, `weather, `trail
      ensures Valid() && Extends(old(trail), trail) && old(weather).Allows(o, weather)
      ensures o.Done? ==> IsWhole(live) && previous.None?
      ensures Updates(Now()) == old(Updates(Now()))
    {
      hide Run;
      o, weather := Try(weather);
      var effective := AtomicEffect(o);
      if effective {
        live, previous := previous, None;
        Step();
      }
    }

    /** Copies the live tree aside, updates and checks the copy; only a checked copy is whole. */
    method PrepareCopy() returns (o: Outcome)
      requires Valid() && IsWhole(live) && previous.None?
      modifies `build, `weather, `trail
      ensures Valid() && Extends(old(trail), trail) && old(weather).Allows(o, weather)
      ensures o.Done? ==> build == Some(Whole(live.value.tree.updates + 1))
    {
      build := Some(Partial);
      Step();
      o, weather := Try(weather);                       // copy, update, health check, ownership
      if o.Done? {
        build := Some(Whole(live.value.tree.updates + 1));
        Step();
      }
    }

    /** The live tree becomes the saved copy. */
    method SetAside() returns (o: Outcome)
      requires Valid() && IsWhole(live) && previous.None?
      modifies `live, `previous, `weather, `trail
      ensures Valid() && Extends(old(trail), trail) && old(weather).Allows(o, weather)
      ensures Updates(Now()) == old(Updates(Now()))
      ensures o.Done? ==> live.None? && previous == old(live)
      ensures o.Failed? ==> live == old(live)
    {
      hide Run;
      o, weather := Try(weather);
      var effective := AtomicEffect(o);
      if effective {
        live, previous := None, live;
        Step();
      }
    }

    /** The two renames; when the second fails the first is taken back if possible. */
    method SwitchTrees() returns (o: Outcome)
      requires Valid() && IsWhole(live) && previous.None? && build == Some(Whole(live.value.tree.updates + 1))
      modifies `live, `previous, `build, `weather, `trail
      ensures Valid() && Extends(old(trail), trail) && (old(weather).Calm() ==> o.Done?)
      ensures o.Done? ==> live == Some(Directory(Whole(old(Updates(Now())) + 1)))
      ensures old(weather).Mild() ==> IsWhole(live) && weather.Mild() && !o.Killed?
      ensures old(weather).Calm() ==> weather.Calm()
    {
      hide Run;
      o := SetAside();
      if !o.Done? { return; }
      o, weather := Try(weather);
      var effective := AtomicEffect(o);
      if effective {
        live, build := Some(Directory(build.value)), None;
        Step();
      }
      if o.Failed? {
        var _ := TakeBack();
      }
    }

    /** One attempt of an update job, first or replayed; it reports whether the update is active. */
    method UpdateWordPress() returns (o: Outcome)
      requires Valid()
      modifies `live, `previous, `build, `weather, `trail
      ensures Valid() && Extends(old(trail), trail) && (old(weather).Calm() ==> o.Done?)
      ensures o.Done? ==> live == Some(Directory(Whole(old(Updates(Now())) + 1)))
      ensures old(weather).Calm() ==> previous.None?
      // a single failure never takes the site off the air
      ensures old(weather).Mild() && old(live).Some? ==> IsWhole(live)
    {
      hide Run;
      o := RecoverInterruptedFileSwitch();
      if !o.Done? { return; }
      o := PrepareCopy();
      if o.Done? { o := SwitchTrees(); }
      if o.Done? && previous.Some? {
        var cleanup;                         // a failed cleanup is not a failed update
        cleanup, weather := Try(weather);
        previous := if cleanup.Done? then None else Some(Directory(Partial));
        Step();
      }
      if !o.Killed? {
        build := None;
        Step();
      }
    }
  }
}
