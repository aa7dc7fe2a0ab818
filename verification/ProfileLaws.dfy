// What the automatic profile machine does in each situation a user can tell apart
// (pw-floss/src/pw-floss.c, pw-floss/src/profiles.h).
module ProfileLaws {
  import opened Wrappers
  import opened ProfileSpec

  // The device is still there and, while music plays, still configured.
  predicate Present(b: Bridge, t: Turn) {
    t.discovery.NotDue? || (t.discovery.Found? && t.discovery.microphone == b.microphone && (b.hfp || t.configured))
  }

  // A running bridge under Automatic, with nothing requested.
  predicate Automatic(b: Bridge) {
    Coherent(b) && !b.failed && b.requested == b.selected == AUTOMATIC
  }

  // Everything that a switch asks for is granted.
  predicate Granted(t: Turn) {
    t.accepted && t.start.Started? && t.published && t.finished && t.flushed
  }

  // A recorder is linked to a microphone that is published.
  predicate Recording(b: Bridge, t: Turn) {
    b.capture && t.demand
  }

  // The time since the recorder went, or none has been there.
  function Idle(b: Bridge, t: Turn): int {
    if b.demand && !Recording(b, t) then 0 else t.now - b.idleMs
  }

  // The tick neither stops nor starts anything.
  predicate Stays(b: Bridge, t: Turn)
    requires b.requested < PROFILES
  {
    var c := Tick(b, t);
    && c.hfp == b.hfp && c.requested == b.requested && c.selected == b.selected && c.capture == b.capture
    && c.retryAt == b.retryAt && c.held == b.held && c.unavailable == b.unavailable
    && c.demand == Recording(b, t)
  }

  // ------------------------------------------------------------------ the automatic decision

  // A recorder brings HFP, once the retry time has come.
  lemma RecorderBringsHfp(b: Bridge, t: Turn)
    requires Automatic(b) && !b.hfp && !b.unavailable && Present(b, t) && Granted(t)
    requires Recording(b, t) && t.now >= b.retryAt
    ensures var c := Tick(b, t); !c.failed && c.hfp && c.selected == AUTOMATIC && c.capture == b.microphone && c.retryAt == b.retryAt
  {
  }

  // Before that, or without a recorder, music goes on.
  lemma MusicGoesOn(b: Bridge, t: Turn)
    requires Automatic(b) && !b.hfp && b.a2dp && Present(b, t)
    requires !Recording(b, t) || t.now < b.retryAt || b.unavailable
    ensures !Tick(b, t).failed && Stays(b, t)
  {
  }

  // HFP stays while the recorder does, once the retry time has come, and for two seconds
  // after it went.
  lemma HfpStays(b: Bridge, t: Turn)
    requires Automatic(b) && b.hfp && !b.unavailable && Present(b, t)
    requires (Recording(b, t) && t.now >= b.retryAt) || Idle(b, t) < 2000
    ensures !Tick(b, t).failed && Stays(b, t)
  {
  }

  // Then music comes back.
  lemma IdleBringsMusic(b: Bridge, t: Turn)
    requires Automatic(b) && b.hfp && b.a2dp && Present(b, t) && Granted(t)
    requires !Recording(b, t) && Idle(b, t) >= 2000
    ensures var c := Tick(b, t); !c.failed && !c.hfp && c.selected == AUTOMATIC && c.capture == b.microphone
  {
  }

  // A device without music is on HFP, whatever the demand.
  lemma NoMusicMeansHfp(b: Bridge, t: Turn)
    requires Automatic(b) && !b.a2dp && Present(b, t) && Granted(t) && (t.discovery.NotDue? || !t.discovery.a2dp)
    ensures !Tick(b, t).failed && Tick(b, t).hfp
  {
  }

  // After the probe failed, a device with music returns to it and stays there.
  lemma SilentDeviceKeepsMusic(b: Bridge, t: Turn)
    requires Automatic(b) && b.unavailable && b.a2dp && Present(b, t) && Granted(t)
    ensures !Tick(b, t).failed && !Tick(b, t).hfp && Tick(b, t).unavailable
  {
  }

  // The end of a recording starts the idle time; a recording is seen as such.
  lemma DemandIsNoted(b: Bridge, t: Turn)
    requires Coherent(b) && !b.failed && Present(b, t) && Stays(b, t)
    ensures Tick(b, t).demand == Recording(b, t)
    ensures Tick(b, t).idleMs == if b.demand && !Recording(b, t) then t.now else b.idleMs
  {
  }

  // ------------------------------------------------------------------ fixed profiles

  // The codecs that the device can use, as far as the tick knows.
  function Usable(b: Bridge, t: Turn): set<nat> {
    if t.discovery.Found? then t.discovery.usable else b.usable
  }

  // A fixed profile decides by itself: Handsfree for HFP, the others for music, with no look
  // at demand or time.
  lemma FixedProfileDecides(b: Bridge, t: Turn)
    requires Coherent(b) && !b.failed && b.requested in {1, 2, 3, 4, 5, 6} && Present(b, t) && Granted(t)
    requires b.requested == b.selected || b.requested == 3 || Codec(b.requested).value in Usable(b, t)
    ensures var c := Tick(b, t); !c.failed && c.selected == c.requested == b.requested && (c.hfp <==> b.requested == 3)
  {
  }

  // A switch to a music profile withdraws the microphone, with all that was known of its use.
  lemma MusicWithdrawsTheMicrophone(b: Bridge, t: Turn)
    requires Coherent(b) && !b.failed && b.requested in {1, 2, 4, 5, 6} && b.requested != b.selected
    requires Present(b, t) && Granted(t) && Codec(b.requested).value in Usable(b, t)
    ensures var c := Tick(b, t);
            !c.capture && !c.demand && (b.capture ==> c.idleMs == 0)
  {
  }

  // Profiles 1, 2, 4, 5 and 6 use codecs 0 to 4, and can be requested while the device can
  // use theirs; Handsfree needs a microphone that was not found silent.
  lemma ProfilesAreAvailableExactly(b: Bridge, profile: nat)
    ensures Request(b, profile) ==
            if || profile == 0
               || (profile == 1 && 0 in b.usable) || (profile == 2 && 1 in b.usable) || (profile == 4 && 2 in b.usable)
               || (profile == 5 && 3 in b.usable) || (profile == 6 && 4 in b.usable)
               || (profile == 3 && b.microphone && !b.unavailable)
            then b.(requested := profile) else b
  {
  }

  // ------------------------------------------------------------------ failures

  // The device gone, changed, or not configured for music any more: the bridge fails and
  // switches nothing.
  lemma AbsenceFails(b: Bridge, t: Turn)
    requires Coherent(b) && !b.failed && !Present(b, t)
    ensures var c := Tick(b, t);
            c.failed && c.hfp == b.hfp && c.requested == b.requested && c.selected == b.selected && c.capture == b.capture && c.held == b.held
  {
  }

  // What a snapshot reports is what the bridge knows afterwards.
  lemma SnapshotIsKept(b: Bridge, t: Turn)
    requires Coherent(b) && !b.failed && Present(b, t)
    ensures Tick(b, t).usable == Usable(b, t)
    ensures Tick(b, t).a2dp == if t.discovery.Found? then t.discovery.a2dp else b.a2dp
  {
    SwitchKeepsTheDevice(Snapshot(b, t), Wanted(b, t), t);
  }

  lemma SwitchKeepsTheDevice(b: Bridge, hfp: bool, t: Turn)
    requires b.requested < PROFILES
    ensures Switch(b, hfp, t).usable == b.usable && Switch(b, hfp, t).a2dp == b.a2dp
  {
  }

  // A node that cannot be published, or formats that cannot, fail the bridge before the new
  // profile counts as selected.
  lemma FailedPublicationSelectsNothing(b: Bridge, t: Turn)
    requires Coherent(b) && !b.failed && Present(b, t) && Switches(b, t) && t.start.Started?
    requires (HasMicrophone(b, Target(Snapshot(b, t), t.accepted)) && !b.capture && !t.published) || !t.finished
    ensures Tick(b, t).failed && Tick(b, t).selected == b.selected
  {
  }

  // A start of HFP that fails falls back to music under Automatic and waits ten seconds; one
  // that found no microphone PCM is remembered. Without music, or when that fails too, the
  // bridge fails.
  lemma FailedHfpFallsBack(b: Bridge, t: Turn)
    requires Automatic(b) && !b.hfp && !b.unavailable && b.a2dp && t.discovery.NotDue?
    requires Recording(b, t) && t.now >= b.retryAt && !t.start.Started?
    ensures var c := Tick(b, t);
            && !c.hfp && c.requested == AUTOMATIC && c.retryAt == t.later + 10000
            && (c.unavailable <==> t.start.NoPcm?)
            && (c.failed <==> !t.fallback || (b.microphone && !b.capture && !t.published) || !t.finished || !t.flushed)
            && (!c.failed ==> c.held && c.selected == AUTOMATIC)
  {
  }

  // A start of music that fails is not repeated in another way.
  lemma FailedMusicFails(b: Bridge, t: Turn)
    requires Automatic(b) && b.hfp && b.a2dp && t.discovery.NotDue?
    requires !Recording(b, t) && Idle(b, t) >= 2000 && !t.start.Started?
    ensures var c := Tick(b, t); c.failed && !c.held && !c.hfp && c.retryAt == t.later + 10000
  {
  }

  // A codec request that is refused restores the profile and the transport of before.
  lemma RefusedCodecRestores(b: Bridge, t: Turn)
    requires Coherent(b) && !b.failed && b.requested in {1, 2, 4, 5, 6} && b.requested != b.selected
    requires Present(b, t) && !t.accepted && t.start.Started? && t.published && t.finished && t.flushed
    ensures var c := Tick(b, t); !c.failed && c.selected == c.requested == b.selected && c.hfp == b.hfp
  {
    var s := Snapshot(b, t);
    SnapshotKeeps(b, t);
    assert Switches(b, t) && Target(s, t.accepted) == b.selected && Kind(s, Wanted(b, t), t.accepted) == b.hfp;
  }

  // ------------------------------------------------------------------ over runs

  // Ticks before a given time, with the device there and nothing requested.
  predicate Quietly(turns: seq<Turn>, until: int) {
    forall k :: 0 <= k < |turns| ==> turns[k].now < until && turns[k].discovery.NotDue?
  }

  function Ticks(turns: seq<Turn>): seq<Event> {
    seq(|turns|, k requires 0 <= k < |turns| => Timer(turns[k]))
  }

  // After a failed HFP start nothing is switched for ten seconds, whatever is recorded.
  lemma {:induction false} BackOff(b: Bridge, turns: seq<Turn>)
    requires Automatic(b) && !b.hfp && b.a2dp && Quietly(turns, b.retryAt)
    ensures var c := Run(b, Ticks(turns));
            Automatic(c) && !c.hfp && c.a2dp && c.retryAt == b.retryAt && !Switched(b, Ticks(turns))
    decreases |turns|
  {
    if turns != [] {
      var init, t := turns[..|turns| - 1], turns[|turns| - 1];
      assert Ticks(turns)[..|turns| - 1] == Ticks(init);
      BackOff(b, init);
      MusicGoesOn(Run(b, Ticks(init)), t);
    }
  }

  // HFP survives any number of ticks within two seconds of the last recording.
  lemma {:induction false} GraceTime(b: Bridge, turns: seq<Turn>)
    requires Automatic(b) && b.hfp && !b.unavailable && !b.demand && Quietly(turns, b.idleMs + 2000)
    requires forall k :: 0 <= k < |turns| ==> !turns[k].demand
    ensures var c := Run(b, Ticks(turns));
            Automatic(c) && c.hfp && !c.unavailable && !c.demand && c.idleMs == b.idleMs && !Switched(b, Ticks(turns))
    decreases |turns|
  {
    if turns != [] {
      var init, t := turns[..|turns| - 1], turns[|turns| - 1];
      assert Ticks(turns)[..|turns| - 1] == Ticks(init);
      GraceTime(b, init);
      HfpStays(Run(b, Ticks(init)), t);
    }
  }
}
