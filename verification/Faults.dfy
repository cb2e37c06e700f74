/** What a command, a file operation or a journal write can report, and how the broker can stop. */
module Faults {
  datatype Option<+T> = None | Some(value: T)

  /** Killed means that the broker process, or the whole server, stopped at this point. */
  datatype Outcome = Done | Failed | Killed

  /** A run that goes on from an earlier one: the states in t are the first states in u. */
  ghost predicate Extends<World>(t: seq<World>, u: seq<World>) {
    |t| <= |u| && forall i :: 0 <= i < |t| ==> u[i] == t[i]
  }

  /** How much can go wrong during a call: how many commands may still fail, and whether the broker may be killed. */
  datatype Weather = Weather(luck: nat, mortal: bool) {
    /** Nothing fails and nothing stops. */
    predicate Calm() {
      luck == 0 && !mortal
    }

    /** At most one command fails. */
    predicate Mild() {
      luck <= 1 && !mortal
    }

    /** A failure uses up some luck, and only the mortal are killed. */
    predicate Allows(o: Outcome, later: Weather) {
      later.mortal == mortal && later.luck <= luck && (o.Failed? ==> later.luck < luck) && (o.Killed? ==> mortal)
    }
  }

  /** An outcome nobody controls, within what the weather allows. */
  method Try(weather: Weather) returns (o: Outcome, later: Weather)
    ensures weather.Allows(o, later)
  {
    o, later := *, weather;
    if (o.Killed? && !weather.mortal) || (o.Failed? && weather.luck == 0) { o := Done; }
    if o.Failed? { later := weather.(luck := weather.luck - 1); }
  }

  /** An outcome nobody controls; in calm weather nothing fails and nothing stops. */
  method Draw(calm: bool) returns (o: Outcome)
    ensures calm ==> o.Done?
  {
    o := *;
    if calm { o := Done; }
  }

  /** Whether a step that did not report success took effect all the same. */
  method Effect(o: Outcome) returns (effective: bool)
    ensures o.Done? ==> effective
  {
    effective := *;
    if o.Done? { effective := true; }
  }

  /** A rename or an unlink that reports an error has not happened; one that was cut off may have. */
  method AtomicEffect(o: Outcome) returns (effective: bool)
    ensures o.Done? ==> effective
    ensures o.Failed? ==> !effective
  {
    effective := *;
    if !o.Killed? { effective := o.Done?; }
  }
}
