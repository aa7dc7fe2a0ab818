// The automatic profile machine of the audio bridge (pw-floss/src/pw-floss.c,
// pw-floss/src/profiles.h), one function per timer tick.
module ProfileSpec {
  import opened Wrappers

  const AUTOMATIC := 0
  const HANDSFREE := 3
  const PROFILES := 7

  // Codec of a fixed music profile; none for Automatic and Handsfree.
  function Codec(profile: nat): Option<nat>
    requires profile < PROFILES
  {
    match profile
    case 1 => Some(0)
    case 2 => Some(1)
    case 4 => Some(2)
    case 5 => Some(3)
    case 6 => Some(4)
    case _ => None
  }

  // The part of the bridge that profile switching reads and writes. `usable` are the codecs
  // with a rate, a mode and a sample width in common; `held` means that a lease which was
  // started is held and its PCM socket is open.
  datatype Bridge = Bridge(
    hfp: bool, requested: nat, selected: nat,
    microphone: bool, a2dp: bool, usable: set<nat>,
    unavailable: bool, failed: bool, held: bool, capture: bool,
    demand: bool, idleMs: int, retryAt: int)

  predicate HasMicrophone(b: Bridge, profile: nat) {
    b.microphone && (profile == AUTOMATIC || profile == HANDSFREE)
  }

  predicate Available(b: Bridge, profile: nat) {
    && profile < PROFILES
    && (profile != AUTOMATIC ==>
          if profile == HANDSFREE then b.microphone && !b.unavailable else Codec(profile).Some? && Codec(profile).value in b.usable)
  }

  // A desktop profile request; unavailable ones are refused.
  function Request(b: Bridge, profile: nat): Bridge {
    if Available(b, profile) then b.(requested := profile) else b
  }

  // ------------------------------------------------------------------ one timer tick

  datatype Discovery = NotDue | Gone | Found(microphone: bool, a2dp: bool, usable: set<nat>)
  datatype Start = Started | Refused | NoPcm

  // What the environment answers during one tick: the clock, capture demand, the device
  // snapshot, the state of the music configuration, the codec request, the start, the time
  // after it and the fallback start, and whether the new nodes could be published.
  datatype Turn = Turn(
    now: int, demand: bool, discovery: Discovery, configured: bool,
    accepted: bool, start: Start, later: int, fallback: bool,
    published: bool, finished: bool, flushed: bool)

  function WantsHfp(b: Bridge, now: int): bool {
    var automatic := !b.a2dp || (b.demand && now >= b.retryAt) || (b.hfp && now - b.idleMs < 2000);
    var wanted := if b.requested != AUTOMATIC then b.requested == HANDSFREE else automatic;
    wanted && !(b.unavailable && b.a2dp)
  }

  function Observe(b: Bridge, now: int, linked: bool): Bridge {
    var demand := b.capture && linked;
    b.(idleMs := if b.demand && !demand then now else b.idleMs, demand := demand)
  }

  function Discover(b: Bridge, d: Discovery, configured: bool): Bridge {
    b.(
      a2dp := if d.Found? && d.microphone == b.microphone then d.a2dp else b.a2dp,
      usable := if d.Found? then d.usable else b.usable,
      failed := if d.NotDue? then b.failed
                else d.Gone? || d.microphone != b.microphone || (!b.hfp && !configured))
  }

  // The codec of the requested profile is, or need not be, configured.
  predicate CodecGranted(b: Bridge, accepted: bool)
    requires b.requested < PROFILES
  {
    Codec(b.requested).None? || (Codec(b.requested).value in b.usable && accepted)
  }

  predicate Refuses(b: Bridge, accepted: bool)
    requires b.requested < PROFILES
  {
    b.requested != b.selected && !CodecGranted(b, accepted)
  }

  // The requested profile needs a codec that the device cannot use.
  predicate Unusable(b: Bridge)
    requires b.requested < PROFILES
  {
    Codec(b.requested).Some? && Codec(b.requested).value !in b.usable
  }

  // Nothing was refused: neither the codec, unless it cannot be used at all, nor the start
  // nor what is published after it.
  predicate Agreed(b: Bridge, t: Turn)
    requires b.requested < PROFILES
  {
    (t.accepted || Unusable(b)) && t.start.Started? && t.published && t.finished && t.flushed
  }

  // State after the device snapshot, just before the decision to switch.
  function Snapshot(b: Bridge, t: Turn): Bridge {
    Discover(Observe(b, t.now, t.demand), t.discovery, t.configured)
  }

  // Neither depends on what is answered later in the tick.
  lemma SameSnapshot(b: Bridge, t: Turn, u: Turn)
    requires t.now == u.now && t.demand == u.demand && t.discovery == u.discovery && t.configured == u.configured
    ensures Snapshot(b, t) == Snapshot(b, u) && Wanted(b, t) == Wanted(b, u)
  {
  }

  // The decision, taken before the snapshot.
  predicate Wanted(b: Bridge, t: Turn) {
    WantsHfp(Observe(b, t.now, t.demand), t.now)
  }

  // Does this tick stop the transport and start another one, and with which profile kind?
  predicate Switches(b: Bridge, t: Turn) {
    var s := Snapshot(b, t);
    !s.failed && (Wanted(b, t) != s.hfp || s.requested != s.selected)
  }

  predicate AttemptsHfp(b: Bridge, t: Turn)
    requires b.requested < PROFILES
  {
    Switches(b, t) && Kind(Snapshot(b, t), Wanted(b, t), t.accepted)
  }

  // After a successful start: publish the microphone, or withdraw it together with what was
  // known about its demand, and publish the formats.
  function Publish(b: Bridge, published: bool, finished: bool, flushed: bool): Bridge {
    var wanted := HasMicrophone(b, b.requested);
    var stuck := wanted && !b.capture && !published;
    var withdrawn := !wanted && b.capture;
    b.(
      capture := wanted && !stuck,
      demand := b.demand && !withdrawn,
      idleMs := if withdrawn then 0 else b.idleMs,
      selected := if stuck || !finished then b.selected else b.requested,
      failed := stuck || !finished || !flushed)
  }

  // The transport after the start and, where there is one, the fallback start.
  function Restart(b: Bridge, target: nat, hfp: bool, start: Start, later: int, fallback: bool): Bridge {
    var up := start.Started?;
    var recovered := !up && hfp && b.a2dp && fallback;
    b.(
      hfp := up && hfp,
      requested := if up then target else AUTOMATIC,
      unavailable := b.unavailable || (hfp && start.NoPcm?),
      retryAt := if up then b.retryAt else later + 10000,
      held := up || recovered,
      failed := !up && !recovered)
  }

  // The choice of what to start, with nothing running.
  function Chosen(b: Bridge, target: nat, hfp: bool): Bridge {
    b.(requested := target, hfp := hfp, held := false)
  }

  lemma RestartForgets(b: Bridge, target: nat, hfp: bool, start: Start, later: int, fallback: bool)
    ensures Restart(Chosen(b, target, hfp), target, hfp, start, later, fallback) == Restart(b, target, hfp, start, later, fallback)
  {
  }

  // A refused codec restores the selected profile on the transport it had.
  function Target(b: Bridge, accepted: bool): nat
    requires b.requested < PROFILES
  {
    if Refuses(b, accepted) then b.selected else b.requested
  }

  predicate Kind(b: Bridge, hfp: bool, accepted: bool)
    requires b.requested < PROFILES
  {
    if Refuses(b, accepted) then b.hfp else hfp
  }

  function Finish(b: Bridge, t: Turn): Bridge {
    if b.failed then b else Publish(b, t.published, t.finished, t.flushed)
  }

  function Switch(b: Bridge, hfp: bool, t: Turn): Bridge
    requires b.requested < PROFILES
  {
    Finish(Restart(b, Target(b, t.accepted), Kind(b, hfp, t.accepted), t.start, t.later, t.fallback), t)
  }

  function Tick(b: Bridge, t: Turn): Bridge
    requires b.requested < PROFILES
  {
    var s := Snapshot(b, t);
    if Switches(b, t) then Switch(s, Wanted(b, t), t) else s
  }

  // ------------------------------------------------------------------ coherence

  predicate Coherent(b: Bridge) {
    && b.requested < PROFILES && b.selected < PROFILES
    && (!b.failed ==>
          && b.held
          && (b.selected == HANDSFREE ==> b.hfp)
          && (Codec(b.selected).Some? ==> !b.hfp)
          && (b.unavailable ==> b.requested != HANDSFREE && b.selected != HANDSFREE))
  }

  // The microphone is published exactly when the selected profile has one.
  predicate Published(b: Bridge) {
    b.capture == HasMicrophone(b, b.selected)
  }

  // The bridge as it enters its main loop: on the only profile kind there is, with the
  // microphone of whatever profile was requested while the card was exported.
  function Fresh(microphone: bool, a2dp: bool, usable: set<nat>, requested: nat): Bridge {
    Bridge(!a2dp, requested, AUTOMATIC, microphone, a2dp, usable, false, false, true,
           microphone && (requested == AUTOMATIC || requested == HANDSFREE), false, 0, 0)
  }

  datatype Event = Ask(profile: nat) | Timer(turn: Turn)

  function Step(b: Bridge, e: Event): Bridge
    requires b.requested < PROFILES
  {
    match e
    case Ask(profile) => Request(b, profile)
    case Timer(turn) => if b.failed then b else Tick(b, turn)
  }

  // After a start: what is selected next may be published.
  predicate Publishable(b: Bridge) {
    && b.requested < PROFILES && b.selected < PROFILES
    && (!b.failed ==> b.held)
    && (b.requested == HANDSFREE ==> b.hfp && !b.unavailable) && (Codec(b.requested).Some? ==> !b.hfp)
  }

  predicate Settled(before: Bridge, after: Bridge) {
    && Coherent(after) && after.microphone == before.microphone
    && (!after.failed ==> Published(after) && after.selected == after.requested == before.requested)
  }

  lemma FinishKeeps(b: Bridge, t: Turn)
    requires Publishable(b)
    ensures Settled(b, Finish(b, t))
  {
  }

  lemma RestartKeeps(b: Bridge, target: nat, hfp: bool, start: Start, later: int, fallback: bool)
    requires b.selected < PROFILES
    requires target < PROFILES && (target == HANDSFREE ==> hfp && !b.unavailable) && (Codec(target).Some? ==> !hfp)
    ensures var c := Restart(b, target, hfp, start, later, fallback);
            Publishable(c) && c.microphone == b.microphone && c.requested in {target, AUTOMATIC}
  {
  }

  lemma SwitchKeeps(b: Bridge, hfp: bool, t: Turn)
    requires Coherent(b) && !b.failed
    requires (b.requested == HANDSFREE ==> hfp) && (Codec(b.requested).Some? ==> !hfp)
    ensures var c := Switch(b, hfp, t);
            && Coherent(c) && c.microphone == b.microphone
            && (!c.failed ==> Published(c) && c.selected == c.requested && c.selected in {b.selected, b.requested, AUTOMATIC})
  {
    var target, kind := Target(b, t.accepted), Kind(b, hfp, t.accepted);
    TargetKeeps(b, hfp, t.accepted);
    RestartKeeps(b, target, kind, t.start, t.later, t.fallback);
    FinishKeeps(Restart(b, target, kind, t.start, t.later, t.fallback), t);
  }

  lemma TargetKeeps(b: Bridge, hfp: bool, accepted: bool)
    requires Coherent(b) && !b.failed
    requires (b.requested == HANDSFREE ==> hfp) && (Codec(b.requested).Some? ==> !hfp)
    ensures var target, kind := Target(b, accepted), Kind(b, hfp, accepted);
            && target < PROFILES && target in {b.selected, b.requested}
            && (target == HANDSFREE ==> kind && !b.unavailable) && (Codec(target).Some? ==> !kind)
  {
  }

  lemma SnapshotKeeps(b: Bridge, t: Turn)
    requires Coherent(b) && !b.failed
    ensures var s := Snapshot(b, t);
            && Coherent(s) && s.microphone == b.microphone && s.hfp == b.hfp && s.requested == b.requested
            && s.selected == b.selected && s.unavailable == b.unavailable && s.capture == b.capture
  {
  }

  predicate IsSwitch(b: Bridge, e: Event) {
    e.Timer? && !b.failed && Switches(b, e.turn)
  }

  // A step keeps coherence; a completed switch publishes the microphone of its profile, and
  // nothing else touches it.
  lemma StepKeepsCoherence(b: Bridge, e: Event)
    requires Coherent(b)
    ensures var c := Step(b, e);
            && Coherent(c) && c.microphone == b.microphone && (b.failed ==> c.failed)
            && (!c.failed ==> if IsSwitch(b, e) then Published(c) else c.capture == b.capture && c.selected == b.selected)
  {
    if e.Timer? && !b.failed {
      TickKeeps(b, e.turn);
    }
  }

  lemma TickKeeps(b: Bridge, t: Turn)
    requires Coherent(b) && !b.failed
    ensures var c := Tick(b, t);
            && Coherent(c) && c.microphone == b.microphone
            && (!c.failed ==> if Switches(b, t) then Published(c) else c.capture == b.capture && c.selected == b.selected)
  {
    SnapshotKeeps(b, t);
    if Switches(b, t) {
      SwitchKeeps(Snapshot(b, t), Wanted(b, t), t);
    }
  }

  function Run(b: Bridge, events: seq<Event>): (r: Bridge)
    requires Coherent(b)
    ensures Coherent(r)
    decreases |events|
  {
    if events == [] then b
    else
      var before := Run(b, events[..|events| - 1]);
      StepKeepsCoherence(before, events[|events| - 1]);
      Step(before, events[|events| - 1])
  }

  lemma RunNext(b: Bridge, events: seq<Event>, e: Event)
    requires Coherent(b)
    ensures Run(b, events + [e]) == Step(Run(b, events), e)
  {
    assert (events + [e])[..|events|] == events;
  }

  function Asks(profiles: seq<nat>): seq<Event> {
    seq(|profiles|, k requires 0 <= k < |profiles| => Ask(profiles[k]))
  }

  lemma OneMoreAsk(before: seq<Event>, profiles: seq<nat>, k: nat)
    requires k < |profiles|
    ensures before + Asks(profiles[..k + 1]) == before + Asks(profiles[..k]) + [Ask(profiles[k])]
  {
    assert Asks(profiles[..k + 1]) == Asks(profiles[..k]) + [Ask(profiles[k])];
  }

  lemma AskNext(b: Bridge, before: seq<Event>, profiles: seq<nat>, k: nat)
    requires Coherent(b) && k < |profiles|
    ensures Run(b, before + Asks(profiles[..k + 1])) == Request(Run(b, before + Asks(profiles[..k])), profiles[k])
  {
    OneMoreAsk(before, profiles, k);
    RunNext(b, before + Asks(profiles[..k]), Ask(profiles[k]));
  }

  // The profiles asked for before each tick, and the ticks.
  function Session(asked: seq<seq<nat>>, turns: seq<Turn>): seq<Event>
    requires |asked| == |turns|
    decreases |turns|
  {
    if turns == [] then []
    else
      var n := |turns| - 1;
      Session(asked[..n], turns[..n]) + Asks(asked[n]) + [Timer(turns[n])]
  }

  lemma SessionNext(asked: seq<seq<nat>>, turns: seq<Turn>, profiles: seq<nat>, t: Turn)
    requires |asked| == |turns|
    ensures Session(asked + [profiles], turns + [t]) == Session(asked, turns) + Asks(profiles) + [Timer(t)]
  {
    assert (asked + [profiles])[..|turns|] == asked && (turns + [t])[..|turns|] == turns;
  }

  // Some event of the run switched the transport.
  predicate Switched(b: Bridge, events: seq<Event>)
    requires Coherent(b)
    decreases |events|
  {
    events != [] &&
    var init := events[..|events| - 1];
    Switched(b, init) || IsSwitch(Run(b, init), events[|events| - 1])
  }

  lemma {:induction false} MicrophoneAfterRun(b: Bridge, events: seq<Event>)
    requires Coherent(b)
    ensures var c := Run(b, events);
            && c.microphone == b.microphone
            && (!c.failed ==> if Switched(b, events) then Published(c) else c.capture == b.capture && c.selected == b.selected)
    decreases |events|
  {
    if events != [] {
      var init := events[..|events| - 1];
      MicrophoneAfterRun(b, init);
      StepKeepsCoherence(Run(b, init), events[|events| - 1]);
    }
  }

  // In every reachable state that has not failed: Handsfree means HFP, a fixed music profile
  // means A2DP, and a lease is held. The microphone is published exactly when the device has
  // one and the profile is Automatic or Handsfree, if and only if the run has switched at
  // least once or the bridge did not start with a music profile requested.
  lemma ReachableStatesAreCoherent(microphone: bool, a2dp: bool, usable: set<nat>, requested: nat, events: seq<Event>)
    requires Available(Fresh(microphone, a2dp, usable, requested), requested)
    ensures Coherent(Fresh(microphone, a2dp, usable, requested))
    ensures var start := Fresh(microphone, a2dp, usable, requested);
            var b := Run(start, events);
            !b.failed ==>
              && b.held
              && (b.selected == HANDSFREE ==> b.hfp)
              && (b.selected in {1, 2, 4, 5, 6} ==> !b.hfp)
              && b.microphone == microphone
              && ((b.capture <==> microphone && b.selected in {AUTOMATIC, HANDSFREE}) <==>
                  Switched(start, events) || !microphone || requested in {AUTOMATIC, HANDSFREE})
  {
    MicrophoneAfterRun(Fresh(microphone, a2dp, usable, requested), events);
  }

  // A run without that condition: a music profile is requested before the main loop starts
  // and Automatic before its first tick. Nothing remains to be switched, and the device's
  // microphone is not published.
  lemma MicrophoneCanBeMissing()
    ensures Available(Fresh(true, true, CODECS, 1), 1) && Coherent(Fresh(true, true, CODECS, 1))
    ensures var b := Run(Fresh(true, true, CODECS, 1), [Ask(AUTOMATIC)]);
            !b.failed && b.microphone && b.requested == b.selected == AUTOMATIC && !b.capture
  {
    var start, events := Fresh(true, true, CODECS, 1), [Ask(AUTOMATIC)];
    assert events[..0] == [];
    assert Run(start, events) == Step(start, Ask(AUTOMATIC));
  }

  // A selected profile is either the one that was asked for or Automatic.
  lemma CompletedSwitchSelectsARequest(b: Bridge, t: Turn)
    requires Coherent(b) && !b.failed && !Tick(b, t).failed
    ensures Tick(b, t).selected in {b.selected, b.requested, AUTOMATIC}
    ensures Switches(b, t) ==> Tick(b, t).selected == Tick(b, t).requested
  {
    SnapshotKeeps(b, t);
    if Switches(b, t) {
      SwitchKeeps(Snapshot(b, t), Wanted(b, t), t);
    }
  }

  // When nothing is refused, a tick fails only with the device, and whatever profile was
  // asked for is selected, unless its codec cannot be used: that restores the selected one.
  lemma AgreedTicksSelectTheRequest(b: Bridge, t: Turn)
    requires Coherent(b) && !b.failed && Agreed(Snapshot(b, t), t)
    ensures Tick(b, t).failed <==> Snapshot(b, t).failed
    ensures !Tick(b, t).failed ==>
              var selected := if b.requested != b.selected && Unusable(Snapshot(b, t)) then b.selected else b.requested;
              Tick(b, t).selected == Tick(b, t).requested == selected
    ensures Switches(b, t) && !(b.requested != b.selected && Unusable(Snapshot(b, t))) ==> Tick(b, t).hfp == Wanted(b, t)
  {
    SnapshotKeeps(b, t);
  }

  // ------------------------------------------------------------------ the missing-PCM probe

  // After the probe failed, HFP is attempted while A2DP is available in exactly two cases:
  // a codec request made while on HFP is refused, or the snapshot that brings A2DP back is
  // taken in the very tick that had already decided for HFP without it.
  lemma BrokenHfpIsAttemptedExactly(b: Bridge, t: Turn)
    requires Coherent(b) && !b.failed && b.unavailable
    requires Switches(b, t) && Snapshot(b, t).a2dp
    ensures AttemptsHfp(b, t) <==>
            if Refuses(Snapshot(b, t), t.accepted) then b.hfp else !b.a2dp && b.requested == AUTOMATIC
  {
  }

  // As documented, when no codec request is refused and A2DP was already known.
  lemma BrokenHfpIsAvoided(b: Bridge, t: Turn)
    requires Coherent(b) && !b.failed && b.unavailable && b.a2dp && !Refuses(Snapshot(b, t), t.accepted)
    ensures !AttemptsHfp(b, t)
  {
  }

  function Quiet(now: int, discovery: Discovery): Turn {
    Turn(now, false, discovery, true, true, Started, now, true, true, true, true)
  }

  const CODECS: set<nat> := {0, 1, 2, 3, 4}

  // The states that a run goes through.
  predicate Visits(stages: seq<Bridge>, events: seq<Event>) {
    && |stages| == |events| + 1 && Coherent(stages[0])
    && forall k :: 0 <= k < |events| ==> Coherent(stages[k]) && Step(stages[k], events[k]) == stages[k + 1]
  }

  lemma {:induction false} RunVisits(stages: seq<Bridge>, events: seq<Event>)
    requires Visits(stages, events)
    ensures Run(stages[0], events) == stages[|events|]
    decreases |events|
  {
    if events != [] {
      var n := |events| - 1;
      assert Visits(stages[..n + 1], events[..n]);
      RunVisits(stages[..n + 1], events[..n]);
    }
  }

  // The probe fails, A2DP goes away and comes back while HFP carries the sound, and a music
  // profile is requested.
  function RefusedRun(): seq<Event> {
    [
      Timer(Quiet(0, NotDue).(demand := true, start := NoPcm)),
      Timer(Quiet(1000, Found(true, false, {}))),
      Timer(Quiet(1100, NotDue)),
      Timer(Quiet(2000, Found(true, true, CODECS))),
      Ask(1)
    ]
  }

  function RefusedStage(k: nat): Bridge {
    Bridge(k >= 3, if k == 5 then 1 else AUTOMATIC, AUTOMATIC, true, k < 2 || k >= 4, if k < 2 || k >= 4 then CODECS else {},
           k >= 1, false, true, true, k == 1, if k < 2 then 0 else 1000, if k == 0 then 0 else 10000)
  }

  lemma RefusedStep(k: nat)
    requires k < 5
    ensures Coherent(RefusedStage(k)) && Step(RefusedStage(k), RefusedRun()[k]) == RefusedStage(k + 1)
  {
    if k == 0 {
    } else if k == 1 {
    } else if k == 2 {
    } else if k == 3 {
    } else {
      assert Available(RefusedStage(4), 1);
    }
  }

  // The run ends on HFP with the probe failed, A2DP available and a music profile asked
  // for: a refused codec makes the bridge try HFP again.
  lemma BrokenHfpCanBeAttempted()
    ensures Available(Fresh(true, true, CODECS, AUTOMATIC), AUTOMATIC) && Coherent(Fresh(true, true, CODECS, AUTOMATIC))
    ensures var b := Run(Fresh(true, true, CODECS, AUTOMATIC), RefusedRun());
            var t := Quiet(2100, NotDue).(accepted := false);
            && !b.failed && b.unavailable && b.a2dp && Snapshot(b, t).a2dp
            && AttemptsHfp(b, t)
  {
    var stages := seq(6, k requires 0 <= k < 6 => RefusedStage(k));
    forall k | 0 <= k < 5 ensures Coherent(stages[k]) && Step(stages[k], RefusedRun()[k]) == stages[k + 1] {
      RefusedStep(k);
    }
    RunVisits(stages, RefusedRun());
  }

  // The probe fails, a music profile is selected, A2DP goes away, and Automatic is requested.
  function EarlyRun(): seq<Event> {
    [
      Timer(Quiet(0, NotDue).(demand := true, start := NoPcm)),
      Ask(1),
      Timer(Quiet(100, NotDue)),
      Timer(Quiet(1000, Found(true, false, {}))),
      Ask(AUTOMATIC)
    ]
  }

  function EarlyStage(k: nat): Bridge {
    Bridge(false, if 2 <= k <= 4 then 1 else AUTOMATIC, if k < 3 then AUTOMATIC else 1, true, k < 4, if k < 4 then CODECS else {},
           k >= 1, false, true, k < 3, k == 1 || k == 2, 0, if k == 0 then 0 else 10000)
  }

  lemma EarlyStep(k: nat)
    requires k < 5
    ensures Coherent(EarlyStage(k)) && Step(EarlyStage(k), EarlyRun()[k]) == EarlyStage(k + 1)
  {
    if k == 0 {
    } else if k == 1 {
      assert Available(EarlyStage(1), 1);
    } else if k == 2 {
    } else if k == 3 {
    } else {
    }
  }

  // The next tick decides for HFP, because A2DP is gone, before its own snapshot brings A2DP
  // back: the bridge tries HFP again although A2DP is available.
  lemma BrokenHfpCanBeDecidedEarly()
    ensures Available(Fresh(true, true, CODECS, AUTOMATIC), AUTOMATIC) && Coherent(Fresh(true, true, CODECS, AUTOMATIC))
    ensures var b := Run(Fresh(true, true, CODECS, AUTOMATIC), EarlyRun());
            var t := Quiet(2000, Found(true, true, CODECS));
            && !b.failed && b.unavailable && !Refuses(Snapshot(b, t), t.accepted) && Snapshot(b, t).a2dp
            && AttemptsHfp(b, t)
  {
    var stages := seq(6, k requires 0 <= k < 6 => EarlyStage(k));
    forall k | 0 <= k < 5 ensures Coherent(stages[k]) && Step(stages[k], EarlyRun()[k]) == stages[k + 1] {
      EarlyStep(k);
    }
    RunVisits(stages, EarlyRun());
  }
}
