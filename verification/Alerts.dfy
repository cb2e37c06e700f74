/** Alert hysteresis: a condition that opens and resolves per incident, above a delivery state per channel.
    The stored counters are proved to be a summary of the whole run of samples. */
module Alerts {
  import opened Faults

  const WORD: nat := 0x1_0000_0000_0000_0000

  // ----- cycle numbers in text -----

  function Digit(d: nat): char
    requires d < 10
  {
    ('0' as int + d) as char
  }

  function FormatUint(n: nat): string {
    if n < 10 then [Digit(n)] else FormatUint(n / 10) + [Digit(n % 10)]
  }

  function Value(s: string): int {
    if s == "" then 0 else Value(s[..|s| - 1]) * 10 + (s[|s| - 1] as int - '0' as int)
  }

  function ParseUint(s: string): Option<int> {
    if s == "" || (exists i :: 0 <= i < |s| && !('0' <= s[i] <= '9')) || Value(s) >= WORD then None else Some(Value(s))
  }

  /** What strings.Cut leaves behind the first colon. */
  function AfterColon(s: string): Option<string> {
    if s == "" then None else if s[0] == ':' then Some(s[1..]) else AfterColon(s[1..])
  }

  function ConditionCycle(phase: string): string {
    match AfterColon(phase)
    case None => "1"
    case Some(cycle) => if ParseUint(cycle).None? then "1" else cycle
  }

  function NextConditionCycle(phase: string): string {
    if phase == "" then "1"
    else
      var cycle := ParseUint(ConditionCycle(phase));
      FormatUint(((if cycle.Some? && cycle.value >= 0 then cycle.value else 0) + 1) % WORD)
  }

  lemma {:induction false} FormatIsDecimal(n: nat)
    ensures FormatUint(n) != "" && Value(FormatUint(n)) == n
    ensures forall i :: 0 <= i < |FormatUint(n)| ==> '0' <= FormatUint(n)[i] <= '9'
  {
    if n >= 10 {
      FormatIsDecimal(n / 10);
      var s := FormatUint(n);
      assert s[..|s| - 1] == FormatUint(n / 10);
    } else {
      var s := FormatUint(n);
      assert s[..0] == "" && Value(s[..0]) == 0;
    }
  }

  lemma {:induction false} CutBehind(prefix: string, rest: string)
    requires ':' !in prefix
    ensures AfterColon(prefix + ":" + rest) == Some(rest)
  {
    var s := prefix + ":" + rest;
    if prefix == "" {
      assert s[1..] == rest;
    } else {
      assert s[1..] == prefix[1..] + ":" + rest;
      CutBehind(prefix[1..], rest);
    }
  }

  /** The n-th phase of an incident: open:1, resolved:1, open:2, ... with 64-bit cycle numbers. */
  function Name(n: nat): string {
    if n == 0 then ""
    else if n % 2 == 1 then "open:" + FormatUint(((n + 1) / 2) % WORD)
    else "resolved:" + FormatUint((n / 2) % WORD)
  }

  lemma CycleOfName(n: nat)
    requires n > 0
    ensures ConditionCycle(Name(n)) == FormatUint(((n + 1) / 2) % WORD)
    ensures ParseUint(ConditionCycle(Name(n))) == Some(((n + 1) / 2) % WORD)
  {
    hide FormatUint, Value;
    var k := ((n + 1) / 2) % WORD;
    FormatIsDecimal(k);
    assert ParseUint(FormatUint(k)) == Some(k);
    if n % 2 == 1 {
      CutBehind("open", FormatUint(k));
      assert "open" + ":" + FormatUint(k) == Name(n);
    } else {
      CutBehind("resolved", FormatUint(k));
      assert (n + 1) / 2 == n / 2;
      assert "resolved" + ":" + FormatUint(k) == Name(n);
    }
  }

  lemma WrapNext(k: nat)
    ensures (k % WORD + 1) % WORD == (k + 1) % WORD
  {
  }

  lemma NextOpening(n: nat)
    requires n % 2 == 0
    ensures "open:" + NextConditionCycle(Name(n)) == Name(n + 1)
  {
    hide ParseUint, ConditionCycle;
    if n > 0 {
      hide FormatUint;
      CycleOfName(n);
      WrapNext(n / 2);
      assert (n + 1) / 2 == n / 2 && (n + 2) / 2 == n / 2 + 1;
    } else {
      assert FormatUint(1) == "1";
    }
  }

  lemma NextResolution(n: nat)
    requires n % 2 == 1
    ensures "resolved:" + ConditionCycle(Name(n)) == Name(n + 1)
  {
    hide FormatUint, ParseUint, ConditionCycle;
    CycleOfName(n);
  }

  lemma NamePrefix(n: nat)
    ensures n % 2 == 1 <==> "open:" <= Name(n)
    ensures n > 0 && n % 2 == 0 <==> "resolved:" <= Name(n)
    ensures Name(n) == "" <==> n == 0
  {
    hide FormatUint;
    if n > 0 { assert Name(n)[0] == if n % 2 == 1 then 'o' else 'r'; }
  }

  lemma NamesDistinct(a: nat, b: nat)
    requires a < b && (b + 1) / 2 < WORD
    ensures Name(a) != Name(b)
  {
    NamePrefix(a);
    NamePrefix(b);
    hide Name, ConditionCycle;
    if a > 0 && a % 2 == b % 2 {
      CycleOfName(a);
      CycleOfName(b);
    }
  }

  // ----- the run of samples -----

  datatype Sample = Sample(bad: bool, at: int, cooldown: int)

  /** How many samples at the end are all bad, or all good. */
  function Trailing(samples: seq<Sample>, bad: bool): (n: nat)
    ensures n <= |samples|
    ensures forall j :: |samples| - n <= j < |samples| ==> samples[j].bad == bad
    ensures n < |samples| ==> samples[|samples| - 1 - n].bad != bad
  {
    if samples == [] || samples[|samples| - 1].bad != bad then 0 else 1 + Trailing(samples[..|samples| - 1], bad)
  }

  /** A phase begins with one sample of the run. */
  datatype Change = Change(sample: nat, at: int)

  predicate Opens(trigger: nat, changes: seq<Change>, samples: seq<Sample>)
    requires samples != []
  {
    var now := samples[|samples| - 1];
    now.bad && |changes| % 2 == 0 && Trailing(samples, true) >= trigger
    && (changes == [] || now.at - changes[|changes| - 1].at >= now.cooldown)
  }

  predicate Resolves(changes: seq<Change>, samples: seq<Sample>)
    requires samples != []
  {
    |changes| % 2 == 1 && Trailing(samples, false) >= 2
  }

  /** The phases of an incident, told from the whole run without any counter. */
  function Phases(trigger: nat, samples: seq<Sample>): seq<Change> {
    if samples == [] then []
    else
      var last := |samples| - 1;
      var changes := Phases(trigger, samples[..last]);
      if Opens(trigger, changes, samples) || Resolves(changes, samples)
      then changes + [Change(last, samples[last].at)]
      else changes
  }

  /** What the i-th phase (counted from 0, so even ones are openings) stands on. */
  predicate Justified(trigger: nat, samples: seq<Sample>, changes: seq<Change>, i: nat)
    requires i < |changes|
  {
    var c := changes[i];
    c.sample < |samples| && c.at == samples[c.sample].at
    && (i > 0 ==> changes[i - 1].sample < c.sample)
    && (i % 2 == 0 ==>
          samples[c.sample].bad && trigger <= c.sample + 1
          && (forall j :: c.sample + 1 - trigger <= j <= c.sample ==> samples[j].bad)
          && (i > 0 ==> c.at - changes[i - 1].at >= samples[c.sample].cooldown))
    && (i % 2 == 1 ==> c.sample > 0 && !samples[c.sample].bad && !samples[c.sample - 1].bad)
  }

  lemma JustifiedStays(trigger: nat, samples: seq<Sample>, more: seq<Sample>, changes: seq<Change>,
      extra: seq<Change>, i: nat)
    requires i < |changes| && Justified(trigger, samples, changes, i)
    ensures Justified(trigger, samples + more, changes + extra, i)
  {
  }

  /** Every opening stands on trigger consecutive bad samples and on the cooldown since the last resolution,
      every resolution on two consecutive good samples. */
  lemma {:induction false} PhasesJustified(trigger: nat, samples: seq<Sample>)
    ensures forall i :: 0 <= i < |Phases(trigger, samples)| ==> Justified(trigger, samples, Phases(trigger, samples), i)
  {
    if samples != [] {
      var last := |samples| - 1;
      var before := samples[..last];
      var changes, after := Phases(trigger, before), Phases(trigger, samples);
      PhasesJustified(trigger, before);
      assert before + [samples[last]] == samples;
      assert changes + [] == changes;
      forall i | 0 <= i < |changes| ensures Justified(trigger, samples, after, i) {
        JustifiedStays(trigger, before, [samples[last]], changes, after[|changes|..], i);
        assert changes + after[|changes|..] == after;
      }
      if |after| > |changes| && changes != [] { assert Justified(trigger, before, changes, |changes| - 1); }
    }
  }

  // ----- what is stored -----

  datatype Record = Record(bad: nat, good: nat, active: bool, lastSentAt: Option<int>, fingerprint: string)

  const EMPTY := Record(0, 0, false, None, "")
  const NOTHING_SENT: map<Channel, Record> := map[Smtp := EMPTY, Slack := EMPTY, Telegram := EMPTY]
  const NOTHING_TRIED: map<Channel, seq<Attempt>> := map[Smtp := [], Slack := [], Telegram := []]

  /** The stored counters are a summary of the run. */
  function Summary(trigger: nat, samples: seq<Sample>): Record {
    var changes := Phases(trigger, samples);
    var bad, active := Trailing(samples, true), |changes| % 2 == 1;
    Record(if bad < trigger then bad else trigger,
           if active then Trailing(samples, false) else 0,
           active,
           if changes == [] then None else Some(changes[|changes| - 1].at),
           Name(|changes|))
  }

  lemma Appended(trigger: nat, samples: seq<Sample>, s: Sample)
    ensures Trailing(samples + [s], s.bad) == Trailing(samples, s.bad) + 1
    ensures Trailing(samples + [s], !s.bad) == 0
    ensures Phases(trigger, samples + [s])
         == if Opens(trigger, Phases(trigger, samples), samples + [s])
               || Resolves(Phases(trigger, samples), samples + [s])
            then Phases(trigger, samples) + [Change(|samples|, s.at)] else Phases(trigger, samples)
  {
    assert (samples + [s])[..|samples|] == samples;
  }

  /** A sample after which the current phase is sent, or sent again where a channel still lacks it. */
  predicate Announces(trigger: nat, samples: seq<Sample>) {
    samples != []
    && var phases := |Phases(trigger, samples)|;
    if samples[|samples| - 1].bad
    then phases % 2 == 1 && Trailing(samples, true) >= trigger
    else phases > 0 && phases % 2 == 0
  }

  /** While a condition is open, at most one good sample has come since. */
  lemma OpenShort(trigger: nat, samples: seq<Sample>)
    ensures |Phases(trigger, samples)| % 2 == 1 ==> Trailing(samples, false) < 2
  {
    if samples != [] {
      var last := |samples| - 1;
      assert samples == samples[..last] + [samples[last]];
      Appended(trigger, samples[..last], samples[last]);
    }
  }

  /** The code's decisions on the stored record are the decisions told from the run: a bad sample. */
  lemma SummaryAfterBad(trigger: nat, samples: seq<Sample>, x: Sample)
    requires x.bad
    ensures
      var r, n, m := Summary(trigger, samples), |Phases(trigger, samples)|, |Phases(trigger, samples + [x])|;
      var bad := if r.bad < trigger then r.bad + 1 else r.bad;
      var opens := bad >= trigger && !r.active && (r.lastSentAt.None? || x.at - r.lastSentAt.value >= x.cooldown);
      m == n + (if opens then 1 else 0)
      && Summary(trigger, samples + [x])
         == Record(bad, 0, r.active || opens, if opens then Some(x.at) else r.lastSentAt, Name(m))
      && (Announces(trigger, samples + [x]) <==> bad >= trigger && (r.active || opens))
  {
    hide Name, Phases, Trailing;
    Appended(trigger, samples, x);
    var changes, all := Phases(trigger, samples), samples + [x];
    assert all[|all| - 1] == x;
    assert !Resolves(changes, all);
    assert Summary(trigger, samples).active == (|changes| % 2 == 1);
  }

  /** The same for a good sample. */
  lemma SummaryAfterGood(trigger: nat, samples: seq<Sample>, x: Sample)
    requires !x.bad
    ensures
      var r, n, m := Summary(trigger, samples), |Phases(trigger, samples)|, |Phases(trigger, samples + [x])|;
      var resolves := r.active && r.good >= 1;
      m == n + (if resolves then 1 else 0)
      && Summary(trigger, samples + [x])
         == Record(0, if r.active && !resolves then r.good + 1 else 0, r.active && !resolves,
                   if resolves then Some(x.at) else r.lastSentAt, Name(m))
      && (Announces(trigger, samples + [x]) <==> m > 0 && (resolves || !r.active))
  {
    hide Name, Phases, Trailing;
    Appended(trigger, samples, x);
    OpenShort(trigger, samples);
    var changes, all := Phases(trigger, samples), samples + [x];
    assert all[|all| - 1] == x;
    assert !Opens(trigger, changes, all);
    assert Resolves(changes, all) <==> Summary(trigger, samples).active && Summary(trigger, samples).good >= 1;
  }

  lemma NameParts(trigger: nat, samples: seq<Sample>)
    ensures var n := |Phases(trigger, samples)|;
            Summary(trigger, samples).fingerprint == Name(n) && Summary(trigger, samples).active == (n % 2 == 1)
            && (n % 2 == 0 ==> "open:" + NextConditionCycle(Name(n)) == Name(n + 1))
            && (n % 2 == 1 ==> "resolved:" + ConditionCycle(Name(n)) == Name(n + 1))
  {
    hide Name, NextConditionCycle, ConditionCycle;
    var n := |Phases(trigger, samples)|;
    if n % 2 == 0 { NextOpening(n); } else { NextResolution(n); }
  }

  // ----- deliveries -----

  datatype Channel = Smtp | Slack | Telegram

  datatype Attempt = Attempt(phase: nat, at: int, cooldown: int, ok: bool)

  /** The name last delivered on a channel. */
  function Delivered(log: seq<Attempt>): string {
    if log == [] then ""
    else if log[|log| - 1].ok then Name(log[|log| - 1].phase)
    else Delivered(log[..|log| - 1])
  }

  function DeliveryRecord(log: seq<Attempt>): Record {
    Record(0, 0, log != [] && !log[|log| - 1].ok, if log == [] then None else Some(log[|log| - 1].at), Delivered(log))
  }

  /** Whether a phase is to be tried now: not after its own success, and not within the cooldown of a failure. */
  predicate Due(log: seq<Attempt>, phase: nat, now: int, cooldown: int) {
    log == []
    || (log[|log| - 1].ok && Name(log[|log| - 1].phase) != Name(phase))
    || (!log[|log| - 1].ok && now - log[|log| - 1].at >= cooldown)
  }

  /** Phases come in order, nothing is tried again once it was delivered, and a failure is left alone for
      the cooldown. */
  predicate Orderly(log: seq<Attempt>, phases: nat) {
    (forall i :: 0 <= i < |log| ==> 0 < log[i].phase <= phases)
    && (forall i, j :: 0 <= i < j < |log| ==> log[i].phase <= log[j].phase)
    && (forall i, j :: 0 <= i < j < |log| && log[i].ok ==> log[i].phase < log[j].phase)
    && (forall i :: 0 < i < |log| && !log[i - 1].ok ==> log[i].at - log[i - 1].at >= log[i].cooldown)
  }

  lemma AttemptKeepsOrder(log: seq<Attempt>, phase: nat, now: int, cooldown: int, ok: bool)
    requires Orderly(log, phase) && phase > 0 && Due(log, phase, now, cooldown)
    ensures Orderly(log + [Attempt(phase, now, cooldown, ok)], phase)
  {
    hide Name;
    var after := log + [Attempt(phase, now, cooldown, ok)];
    forall i, j | 0 <= i < j < |after| && after[i].ok ensures after[i].phase < after[j].phase {
      if j == |log| && i < |log| - 1 { assert log[i].phase < log[|log| - 1].phase; }
    }
  }

  predicate Reached(log: seq<Attempt>, phase: nat) {
    log != [] && log[|log| - 1].ok && Name(log[|log| - 1].phase) == Name(phase)
  }

  /** One record, one decision: the code's test on the stored record is Due. */
  lemma DueFromRecord(log: seq<Attempt>, phase: nat, now: int, cooldown: int)
    requires phase > 0
    ensures var d := DeliveryRecord(log);
            Due(log, phase, now, cooldown) <==>
              !(d.fingerprint == Name(phase) && !d.active)
              && !(d.active && d.lastSentAt.Some? && now - d.lastSentAt.value < cooldown)
    ensures DeliveryRecord(log).fingerprint == Name(phase) && !DeliveryRecord(log).active <==> Reached(log, phase)
  {
    NamePrefix(phase);
    hide Name;
  }

  lemma RecordAfter(log: seq<Attempt>, a: Attempt)
    ensures DeliveryRecord(log + [a])
         == DeliveryRecord(log).(active := !a.ok, lastSentAt := Some(a.at),
                                 fingerprint := if a.ok then Name(a.phase) else Delivered(log))
  {
    hide Name;
    assert (log + [a])[..|log|] == log;
  }

  /** A channel appears here as enabled when the rule is allowed on it as well. */
  datatype Settings = Settings(cooldown: int, smtp: bool, slack: bool, telegram: bool)
  {
    predicate Wants(c: Channel) {
      match c
      case Smtp => smtp
      case Slack => slack
      case Telegram => telegram
    }

    function Deliveries(): (r: seq<Channel>)
      ensures forall c: Channel :: c in r <==> Wants(c)
      ensures (Smtp in r <==> smtp) && (Slack in r <==> slack) && (Telegram in r <==> telegram)
      ensures forall i, j :: 0 <= i < j < |r| ==> r[i] != r[j]
    {
      (if smtp then [Smtp] else []) + (if slack then [Slack] else []) + (if telegram then [Telegram] else [])
    }
  }

  /** One more attempt stands at the end of the log; where nothing fails, it has worked. */
  predicate Tried(before: seq<Attempt>, after: seq<Attempt>, phase: nat, now: int, cooldown: int, calm: bool) {
    |after| > 0 && after == before + [Attempt(phase, now, cooldown, after[|after| - 1].ok)]
    && (calm ==> after[|after| - 1].ok)
  }

  /** One attempt when the channel is open to it and the attempt is due, nothing otherwise. */
  predicate Handled(open: bool, before: seq<Attempt>, after: seq<Attempt>, phase: nat, now: int, cooldown: int,
                    calm: bool) {
    if open && Due(before, phase, now, cooldown) then Tried(before, after, phase, now, cooldown, calm)
    else after == before
  }

  /** The stored states of one incident. Trigger is fixed by the kind of condition. */
  class Incident {
    const trigger: nat
    var state: Record
    var delivery: map<Channel, Record>
    var calm: bool
    // The kept samples, the attempts on each channel, and whether every save has worked so far.
    ghost var samples: seq<Sample>
    ghost var attempts: map<Channel, seq<Attempt>>
    ghost var persisted: bool

    ghost function Log(c: Channel): seq<Attempt>
      reads this`attempts
    {
      if c in attempts then attempts[c] else []
    }

    ghost predicate Total()
      reads this`delivery, this`attempts
    {
      forall c: Channel :: c in delivery && c in attempts
    }

    ghost predicate Deliverable(phases: nat)
      reads this`delivery, this`attempts, this`persisted
    {
      Total() && (persisted ==> forall c: Channel ::
        delivery[c] == DeliveryRecord(attempts[c]) && Orderly(attempts[c], phases))
    }

    lemma DeliverableTotal(phases: nat)
      requires Deliverable(phases)
      ensures Total()
    {
    }

    lemma ForgottenDeliverable(phases: nat)
      requires Total() && !persisted
      ensures Deliverable(phases)
    {
    }

    lemma LaterDeliverable(phases: nat, more: nat)
      requires Deliverable(phases) && phases <= more
      ensures Deliverable(more)
    {
    }

    ghost predicate Valid()
      reads this
    {
      state == Summary(trigger, samples) && Deliverable(|Phases(trigger, samples)|)
    }

    /** After any run of samples whose saves worked: a phase that reached a channel is never tried on it
        again, and as long as the 64-bit cycle number has not wrapped around, not under its name either. */
    lemma DeliveredOnce(c: Channel, i: nat, j: nat)
      requires Valid() && persisted && i < j < |Log(c)| && Log(c)[i].ok
      ensures 0 < Log(c)[i].phase < Log(c)[j].phase <= |Phases(trigger, samples)|
      ensures (|Phases(trigger, samples)| + 1) / 2 < WORD ==> Name(Log(c)[i].phase) != Name(Log(c)[j].phase)
    {
      hide Name, Phases;
      if (|Phases(trigger, samples)| + 1) / 2 < WORD { NamesDistinct(Log(c)[i].phase, Log(c)[j].phase); }
    }

    /** A failed attempt is followed by none within the cooldown. */
    lemma FailureLeftAlone(c: Channel, i: nat)
      requires Valid() && persisted && i + 1 < |Log(c)| && !Log(c)[i].ok
      ensures Log(c)[i + 1].at - Log(c)[i].at >= Log(c)[i + 1].cooldown
    {
    }

    constructor (trigger: nat, calm: bool)
      ensures Valid() && this.trigger == trigger && this.calm == calm && samples == [] && persisted
      ensures attempts == NOTHING_TRIED
    {
      this.trigger, this.calm := trigger, calm;
      state := EMPTY;
      delivery := NOTHING_SENT;
      samples := [];
      attempts := NOTHING_TRIED;
      persisted := true;
      new;
      assert forall c: Channel :: c in NOTHING_SENT by { AllChannels(); }
      assert forall c: Channel :: c in NOTHING_TRIED by { AllChannels(); }
    }

    lemma LogIs(c: Channel, phase: nat)
      requires Deliverable(phase)
      ensures c in delivery && c in attempts && Log(c) == attempts[c]
      ensures persisted ==> delivery[c] == DeliveryRecord(attempts[c]) && Orderly(attempts[c], phase)
    {
    }

    /** The record of a channel is stored behind an attempt. */
    method Keep(c: Channel, d: Record, ghost log: seq<Attempt>, ghost phase: nat) returns (saved: bool)
      requires Deliverable(phase) && (persisted ==> d == DeliveryRecord(log) && Orderly(log, phase))
      modifies this`delivery, this`attempts, this`persisted
      ensures Deliverable(phase) && persisted == (old(persisted) && saved) && (calm ==> saved)
      ensures Log(c) == log && forall o: Channel :: o != c ==> Log(o) == old(Log(o))
      ensures saved ==> delivery == old(delivery)[c := d]
    {
      hide Orderly, DeliveryRecord;
      attempts := attempts[c := log];
      var stored := Draw(calm);
      saved := stored.Done?;
      if saved { delivery := delivery[c := d]; } else { persisted := false; }
    }

    /** One attempt, and the record of its outcome. */
    method Attempted(c: Channel, identity: string, ghost phase: nat, now: int, cooldown: int) returns (delivered: bool)
      requires Deliverable(phase) && phase > 0
      requires persisted ==> identity == Name(phase) && Due(Log(c), phase, now, cooldown)
      modifies this`delivery, this`attempts, this`persisted
      ensures Deliverable(phase) && (persisted ==> old(persisted)) && (calm ==> persisted == old(persisted))
      ensures forall o: Channel :: o != c ==> Log(o) == old(Log(o))
      ensures Tried(old(Log(c)), Log(c), phase, now, cooldown, calm)
      ensures persisted ==> (delivered <==> Reached(Log(c), phase))
    {
      hide Name, Orderly, Due, DeliveryRecord, Reached, Log;
      LogIs(c, phase);
      var d := delivery[c];
      var sent := Draw(calm);
      var ok := sent.Done?;
      d := d.(lastSentAt := Some(now));
      if !ok {
        d := d.(active := true);
      } else {
        d := d.(active := false, fingerprint := identity);
      }
      ghost var log := attempts[c] + [Attempt(phase, now, cooldown, ok)];
      assert persisted ==> d == DeliveryRecord(log) by {
        RecordAfter(attempts[c], Attempt(phase, now, cooldown, ok));
        LastName(attempts[c]);
      }
      if persisted { AttemptKeepsOrder(attempts[c], phase, now, cooldown, ok); }
      NowReached(attempts[c], Attempt(phase, now, cooldown, ok));
      hide Deliverable;
      var saved := Keep(c, d, log, phase);
      delivered := ok && saved;
    }

    /** One channel of send: an attempt is made exactly when it is due. */
    method SendOn(c: Channel, identity: string, ghost phase: nat, now: int, cooldown: int, readable: bool)
      returns (delivered: bool)
      requires Deliverable(phase) && phase > 0 && (persisted ==> identity == Name(phase))
      modifies this`delivery, this`attempts, this`persisted
      ensures Deliverable(phase) && (persisted ==> old(persisted)) && (calm ==> persisted == old(persisted))
      ensures forall o: Channel :: o != c ==> Log(o) == old(Log(o))
      ensures persisted ==> Handled(readable, old(Log(c)), Log(c), phase, now, cooldown, calm)
      ensures persisted && readable ==> (delivered <==> Reached(Log(c), phase))
      ensures !readable ==> !delivered
    {
      hide Name, Orderly, Due, DeliveryRecord, Reached, Tried;
      delivered := false;
      if !readable { return; }
      var d := delivery[c];
      DueFromRecord(attempts[c], phase, now, cooldown);
      if d.fingerprint == identity && !d.active { delivered := true; return; }
      if d.active && d.lastSentAt.Some? && now - d.lastSentAt.value < cooldown { return; }
      delivered := Attempted(c, identity, phase, now, cooldown);
    }

    /** Goes through the wanted channels; the answer is true only when each of them has the phase. */
    method Send(settings: Settings, identity: string, ghost phase: nat, now: int, readable: set<Channel>)
      returns (allDelivered: bool)
      requires Deliverable(phase) && phase > 0 && (persisted ==> identity == Name(phase))
      modifies this`delivery, this`attempts, this`persisted
      ensures Deliverable(phase) && (persisted ==> old(persisted)) && (calm ==> persisted == old(persisted))
      ensures persisted ==> forall c: Channel ::
                Handled(settings.Wants(c) && c in readable, old(Log(c)), Log(c), phase, now, settings.cooldown, calm)
      ensures persisted && allDelivered ==> forall c: Channel :: settings.Wants(c) ==> Reached(Log(c), phase)
      ensures persisted && (forall c: Channel :: settings.Wants(c) ==> c in readable && Reached(Log(c), phase)) ==>
          allDelivered
    {
      hide Deliverable, Log, Name, Due, Reached, Tried, Handled, Settings.Wants, Settings.Deliveries;
      NothingHandled(phase, now, settings.cooldown, calm);
      var deliveries := settings.Deliveries();
      allDelivered := true;
      for i := 0 to |deliveries|
        invariant Deliverable(phase) && (persisted ==> old(persisted)) && (calm ==> persisted == old(persisted))
        invariant forall c: Channel :: c !in deliveries[..i] ==> Log(c) == old(Log(c))
        invariant persisted ==> forall k :: 0 <= k < i ==>
                      Handled(deliveries[k] in readable, old(Log(deliveries[k])), Log(deliveries[k]), phase, now,
                              settings.cooldown, calm)
        invariant persisted && !allDelivered ==>
            exists k :: 0 <= k < i && !(deliveries[k] in readable && Reached(Log(deliveries[k]), phase))
        invariant persisted && allDelivered ==> forall k :: 0 <= k < i ==> Reached(Log(deliveries[k]), phase)
      {
        assert deliveries[i] !in deliveries[..i];
        var delivered := SendOn(deliveries[i], identity, phase, now, settings.cooldown, deliveries[i] in readable);
        if !delivered { allDelivered := false; }
      }
    }

    /** The state that a sample leads to, and the sending that goes with it. */
    method Sampled(settings: Settings, bad: bool, now: int, later: int, readable: set<Channel>) returns (s: Record)
      requires Valid()
      modifies this`delivery, this`attempts, this`persisted
      ensures var after := samples + [Sample(bad, now, settings.cooldown)]; var phase := |Phases(trigger, after)|;
              && s == Summary(trigger, after) && Deliverable(phase)
              && (persisted ==> forall c: Channel ::
                    Handled(Announces(trigger, after) && settings.Wants(c) && c in readable,
                            old(Log(c)), Log(c), phase, later, settings.cooldown, calm))
      ensures (persisted ==> old(persisted)) && (calm ==> persisted == old(persisted))
    {
      hide Summary, Phases, Name, Deliverable, Log, Handled, Announces, NextConditionCycle, ConditionCycle, Total;
      hide Reached, Settings.Wants;
      ghost var x := Sample(bad, now, settings.cooldown);
      ghost var after := samples + [x];
      ghost var changes := |Phases(trigger, samples)|;
      ghost var phase := |Phases(trigger, after)|;
      if bad { SummaryAfterBad(trigger, samples, x); } else { SummaryAfterGood(trigger, samples, x); }
      NothingHandled(phase, later, settings.cooldown, calm);
      NameParts(trigger, samples);
      NamePrefix(changes);
      NamePrefix(phase);
      LaterDeliverable(changes, phase);
      s := state;
      if bad {
        s := s.(good := 0);
        if s.bad < trigger { s := s.(bad := s.bad + 1); }
        if s.bad >= trigger {
          if !s.active && (s.lastSentAt.None? || now - s.lastSentAt.value >= settings.cooldown) {
            s := s.(fingerprint := "open:" + NextConditionCycle(s.fingerprint), active := true,
                lastSentAt := Some(now));
          }
          if s.active {
            var identity := s.fingerprint;
            if !("open:" <= identity) {
              identity := "open:1";
              s := s.(fingerprint := identity);
            }
            var _ := Send(settings, identity, phase, later, readable);
          }
        }
      } else {
        s := s.(bad := 0);
        if s.active {
          s := s.(good := s.good + 1);
          if s.good >= 2 {
            s := s.(active := false, good := 0, lastSentAt := Some(now),
                fingerprint := "resolved:" + ConditionCycle(s.fingerprint));
            var _ := Send(settings, s.fingerprint, phase, later, readable);
          }
        } else {
          s := s.(good := 0);
          if "resolved:" <= s.fingerprint {
            var _ := Send(settings, s.fingerprint, phase, later, readable);
          }
        }
      }
    }

    /** One sample. The run grows by it when the state is saved, and Valid ties the new state to the new run. */
    method Condition(settings: Settings, bad: bool, now: int, later: int, readable: set<Channel>) returns (saved: bool)
      requires Valid()
      modifies this`state, this`delivery, this`samples, this`attempts, this`persisted
      ensures Valid() && (persisted ==> old(persisted))
      ensures calm ==> saved && persisted == old(persisted)
      ensures samples == if saved then old(samples) + [Sample(bad, now, settings.cooldown)] else old(samples)
      ensures persisted && saved ==> forall c: Channel ::
                Handled(Announces(trigger, samples) && settings.Wants(c) && c in readable,
                        old(Log(c)), Log(c), |Phases(trigger, samples)|, later, settings.cooldown, calm)
      // a sample that is lost without a trace has changed nothing
      ensures persisted && !saved ==> state == old(state) && delivery == old(delivery) && attempts == old(attempts)
    {
      hide Summary, Phases, Name, Deliverable, Log, Handled, Announces, Total, Settings.Wants;
      var o := Draw(calm);          // the stored state is loaded
      if !o.Done? { return false; }
      ghost var changes := |Phases(trigger, samples)|;
      ghost var after := samples + [Sample(bad, now, settings.cooldown)];
      var s := Sampled(settings, bad, now, later, readable);
      DeliverableTotal(|Phases(trigger, after)|);
      o := Draw(calm);
      saved := o.Done?;
      if saved {
        state, samples := s, after;
      } else {
        persisted := false;
        ForgottenDeliverable(changes);
      }
    }
  }

  lemma NothingHandled(phase: nat, now: int, cooldown: int, calm: bool)
    ensures forall log: seq<Attempt> :: Handled(false, log, log, phase, now, cooldown, calm)
  {
  }

  lemma AllChannels()
    ensures forall c: Channel :: c in NOTHING_SENT && c in NOTHING_TRIED
  {
    forall c: Channel ensures c in NOTHING_SENT && c in NOTHING_TRIED {
      match c case Smtp => case Slack => case Telegram =>
    }
  }

  lemma LastName(log: seq<Attempt>)
    ensures DeliveryRecord(log).fingerprint == Delivered(log)
  {
  }

  lemma NowReached(log: seq<Attempt>, a: Attempt)
    ensures Reached(log + [a], a.phase) <==> a.ok
  {
  }

  // ----- whole runs in which nothing fails -----

  datatype Input = Input(settings: Settings, bad: bool, now: int, later: int, readable: set<Channel>)

  function SamplesOf(inputs: seq<Input>): (r: seq<Sample>)
    ensures |r| == |inputs|
    ensures forall i :: 0 <= i < |r| ==> r[i] == Sample(inputs[i].bad, inputs[i].now, inputs[i].settings.cooldown)
  {
    seq(|inputs|, i requires 0 <= i < |inputs| => Sample(inputs[i].bad, inputs[i].now, inputs[i].settings.cooldown))
  }

  /** The attempts that a run calls for on a channel. */
  function Demanded(trigger: nat, inputs: seq<Input>, c: Channel): seq<Attempt> {
    if inputs == [] then []
    else
      var last := inputs[|inputs| - 1];
      var before := Demanded(trigger, inputs[..|inputs| - 1], c);
      var phase := |Phases(trigger, SamplesOf(inputs))|;
      if Announces(trigger, SamplesOf(inputs)) && last.settings.Wants(c) && c in last.readable
         && Due(before, phase, last.later, last.settings.cooldown)
      then before + [Attempt(phase, last.later, last.settings.cooldown, true)]
      else before
  }

  /** Every sample is kept, and every channel has exactly the attempts that the run calls for. */
  method Watch(trigger: nat, inputs: seq<Input>) returns (m: Incident)
    ensures fresh(m) && m.Valid() && m.trigger == trigger && m.persisted
    ensures m.samples == SamplesOf(inputs)
    ensures forall c: Channel :: m.Log(c) == Demanded(trigger, inputs, c)
  {
    hide Phases, Announces, Due, Summary, DeliveryRecord, Orderly, Settings.Wants;
    m := new Incident(trigger, true);
    assert inputs[..0] == [] && m.samples == SamplesOf([]);
    forall c: Channel ensures m.Log(c) == [] { AllChannels(); NothingTried(c); }
    for i := 0 to |inputs|
      invariant fresh(m) && m.Valid() && m.trigger == trigger && m.persisted && m.calm
      invariant m.samples == SamplesOf(inputs[..i])
      invariant forall c: Channel :: m.Log(c) == Demanded(trigger, inputs[..i], c)
    {
      var x := inputs[i];
      var saved := m.Condition(x.settings, x.bad, x.now, x.later, x.readable);
      assert inputs[..i + 1][..i] == inputs[..i];
      assert m.samples == SamplesOf(inputs[..i + 1]);
    }
    assert inputs[..|inputs|] == inputs;
  }

  lemma NothingTried(c: Channel)
    ensures c in NOTHING_TRIED && NOTHING_TRIED[c] == []
  {
    match c case Smtp => case Slack => case Telegram =>
  }

  /** An opening does come: after `trigger` bad samples in a row, once the cooldown has passed. */
  lemma OpeningComes(trigger: nat, samples: seq<Sample>)
    requires 0 < trigger <= |samples| && forall j :: |samples| - trigger <= j < |samples| ==> samples[j].bad
    requires var before := Phases(trigger, samples[..|samples| - 1]); var now := samples[|samples| - 1];
             |before| % 2 == 0 && (before == [] || now.at - before[|before| - 1].at >= now.cooldown)
    ensures |Phases(trigger, samples)| == |Phases(trigger, samples[..|samples| - 1])| + 1
    ensures Announces(trigger, samples)
  {
    hide Phases;
    LongTrail(samples, true, trigger);
    PhasesStep(trigger, samples);
  }

  /** And so does a resolution, after two good samples in a row. */
  lemma ResolutionComes(trigger: nat, samples: seq<Sample>)
    requires |samples| > 1 && !samples[|samples| - 1].bad && !samples[|samples| - 2].bad
    requires |Phases(trigger, samples[..|samples| - 1])| % 2 == 1
    ensures |Phases(trigger, samples)| == |Phases(trigger, samples[..|samples| - 1])| + 1
    ensures Announces(trigger, samples)
  {
    hide Phases;
    LongTrail(samples, false, 2);
    PhasesStep(trigger, samples);
  }

  lemma LongTrail(samples: seq<Sample>, bad: bool, n: nat)
    requires n <= |samples| && forall j :: |samples| - n <= j < |samples| ==> samples[j].bad == bad
    ensures Trailing(samples, bad) >= n
  {
  }

  lemma PhasesStep(trigger: nat, samples: seq<Sample>)
    requires samples != []
    ensures var before := Phases(trigger, samples[..|samples| - 1]);
            |Phases(trigger, samples)|
            == |before| + (if Opens(trigger, before, samples) || Resolves(before, samples) then 1 else 0)
  {
  }
}
