// The bridge in conversation with the daemon, with every call answered
// (pw-floss/src/pw-floss.c). Between two calls the daemon may take any number of steps of
// its other clients and of the native stack.
module LeaseClient {
  import opened Wrappers
  import opened LeaseSpec

  // A lease of this owner is the one it holds, or is already being stopped.
  predicate NoStrayLease(l: Lease, owner: string, token: nat) {
    && Coherent(l)
    && (l.session.Some? && l.session.value.owner == owner ==> l.session.value.token == token || l.session.value.stopping)
  }

  // The lease with this token is one for a given transport.
  predicate LeaseFor(l: Lease, token: nat, address: Address, hfp: bool) {
    l.session.Some? && l.session.value.token == token ==> l.session.value.address == address && l.session.value.hfp == hfp
  }

  predicate Mine(e: Event, owner: string) {
    match e
    case EReserve(_, _, o) => o == owner
    case EStart(_, o, _, _, _) => o == owner
    case EStop(_, o) => o == owner
    case _ => false
  }

  // A lease with this token was started; it may be stopping, or over, by now.
  predicate Begun(l: Lease, token: nat) {
    Phase(l, token) >= 2
  }

  lemma OthersMakeNoStrayLease(l: Lease, e: Event, f: Facts, owner: string, token: nat)
    requires NoStrayLease(l, owner, token) && !Mine(e, owner)
    ensures NoStrayLease(LeaseStep(l, e, f).lease, owner, token)
    ensures Begun(l, token) ==> Begun(LeaseStep(l, e, f).lease, token)
  {
    StepKeepsCoherence(l, e, f);
    StepMovesForward(l, e, f, token);
    if l.session.Some? {
      StepMovesForward(l, e, f, l.session.value.token);
    } else {
      StepMovesForward(l, e, f, 0);
    }
  }

  // A lease that was given out stays one for its transport.
  lemma LeaseStaysForItsTransport(l: Lease, e: Event, f: Facts, token: nat, address: Address, hfp: bool)
    requires Coherent(l) && LeaseFor(l, token, address, hfp) && token <= l.nextToken
    ensures LeaseFor(LeaseStep(l, e, f).lease, token, address, hfp) && token <= LeaseStep(l, e, f).lease.nextToken
  {
    StepMovesForward(l, e, f, token);
  }

  // A granted reservation is a lease of the caller, not yet started.
  lemma ReservationIsHeld(l: Lease, address: Address, hfp: bool, owner: string, f: Facts)
    requires NoStrayLease(l, owner, 0)
    ensures var o := LeaseStep(l, EReserve(address, hfp, owner), f);
            && NoStrayLease(o.lease, owner, o.token)
            && (o.token != 0 ==> o.lease.session == Some(Session(o.token, address, hfp, owner, false, false)))
  {
  }

  // Stopping a lease leaves nothing of this owner that is not stopping.
  lemma StopReleases(l: Lease, owner: string, token: nat, f: Facts)
    requires NoStrayLease(l, owner, token)
    ensures NoStrayLease(LeaseStep(l, EStop(token, owner), f).lease, owner, 0)
    ensures l.session.Some? && l.session.value.owner == owner && l.session.value.token == token && l.session.value.started ==>
              LeaseStep(l, EStop(token, owner), f).lease.session == Some(l.session.value.(stopping := true))
  {
  }

  lemma StartKeepsTheLease(l: Lease, e: Event, owner: string, token: nat, f: Facts)
    requires NoStrayLease(l, owner, token) && e.EStart? && e.token == token && e.owner == owner
    ensures NoStrayLease(LeaseStep(l, e, f).lease, owner, token)
  {
    StepKeepsCoherence(l, e, f);
  }
}

module BridgeClient {
  import opened Wrappers
  import opened ProfileSpec
  import opened LeaseClient
  import L = LeaseSpec

  datatype Socket = Closed | Opened | Connected

  // What is read at the start of a tick.
  datatype Sight = Sight(now: int, linked: bool, discovery: Discovery, configured: bool)

  function SightOf(t: Turn): Sight {
    Sight(t.now, t.demand, t.discovery, t.configured)
  }

  function Sights(turns: seq<Turn>): seq<Sight> {
    seq(|turns|, k requires 0 <= k < |turns| => SightOf(turns[k]))
  }

  lemma Longer<T>(a: seq<T>, b: seq<T>, t: T)
    ensures (a + b) + [t] == a + (b + [t])
  {
  }

  lemma SightsNext(before: seq<Sight>, turns: seq<Turn>, t: Turn)
    ensures (before + Sights(turns)) + [SightOf(t)] == before + Sights(turns + [t])
  {
    assert Sights(turns + [t]) == Sights(turns) + [SightOf(t)];
  }

  // Everything the bridge asks: the daemon, the kernel, the graph, the clock and the desktop.
  // It keeps account of its own answers, so that the bridge cannot make them up.
  class Surroundings {
    var daemon: L.Media
    var now: int
    var rounds: nat                // tries left before the current deadline
    ghost var refusals: nat        // answers that end an attempt
    ghost var denials: nat         // reservations not granted
    ghost var silences: nat        // connected voice sockets without microphone PCM
    ghost var delayed: bool        // something was not ready since the deadline was set
    ghost var sights: seq<Sight>
    ghost var wishes: seq<seq<nat>>  // profiles the desktop asked for, one list each time

    constructor (daemon: L.Media)
      ensures this.daemon == daemon
    {
      this.daemon, now, rounds := daemon, 0, 0;
      refusals, denials, silences, delayed, sights, wishes := 0, 0, 0, false, [], [];
    }

    // A question whose "no" ends the attempt.
    method Agrees() returns (yes: bool)
      modifies this`refusals
      ensures refusals == old(refusals) + if yes then 0 else 1
    {
      yes := *;
      if !yes {
        refusals := refusals + 1;
      }
    }

    // A question whose "no" means to try again.
    method Ready() returns (yes: bool)
      modifies this`delayed
      ensures delayed == (old(delayed) || !yes)
    {
      yes := *;
      delayed := delayed || !yes;
    }

    method SetDeadline()
      modifies this`rounds, this`delayed
      ensures rounds > 0 && !delayed
    {
      rounds := *;
      rounds, delayed := rounds + 1, false;
    }

    // Is there time for another try? The deadline is only held against what was not ready.
    method Waits() returns (yes: bool)
      modifies this`rounds, this`refusals
      ensures yes == (old(rounds) > 0) && rounds == if yes then old(rounds) - 1 else 0
      ensures refusals == old(refusals) + if yes || !delayed then 0 else 1
    {
      yes := rounds > 0;
      if yes {
        rounds := rounds - 1;
      } else if delayed {
        refusals := refusals + 1;
      }
    }

    // Does the connected voice socket deliver a sample?
    method Hears() returns (arrives: bool)
      modifies this`refusals, this`silences
      ensures silences == old(silences) + (if arrives then 0 else 1) && refusals == old(refusals) + if arrives then 0 else 1
    {
      arrives := *;
      if !arrives {
        refusals, silences := refusals + 1, silences + 1;
      }
    }

    method Clock() returns (time: int)
      modifies this`now
      ensures time == now >= old(now)
    {
      time := *;
      time := if time < now then now else time;
      now := time;
    }

    // The clock, the graph, and the device snapshot when one is due.
    method Observe() returns (s: Sight)
      modifies this`now, this`sights
      ensures sights == old(sights) + [s] && s.now == now >= old(now)
    {
      var time := Clock();
      var linked: bool, d: Discovery, configured: bool := *, *, *;
      s := Sight(time, linked, d, configured);
      sights := sights + [s];
    }

    // The profiles that the desktop asked for since the last time.
    method Requests() returns (profiles: seq<nat>)
      modifies this`wishes
      ensures wishes == old(wishes) + [profiles]
    {
      profiles := *;
      wishes := wishes + [profiles];
    }

    // ---- the daemon; what it does not grant yet, it may grant later

    method Reserve(address: L.Address, hfp: bool, owner: string) returns (token: nat)
      modifies this`daemon, this`denials, this`delayed
      ensures var e := L.EReserve(address, hfp, owner);
              daemon == L.Step(old(daemon), e).0 && token == L.Step(old(daemon), e).1
      ensures denials == old(denials) + if token != 0 then 0 else 1
      ensures delayed == (old(delayed) || token == 0)
    {
      var (after, granted, _) := L.Step(daemon, L.EReserve(address, hfp, owner));
      daemon, token := after, granted;
      if token == 0 {
        denials, delayed := denials + 1, true;
      }
    }

    // The native stack has a say in the next two.
    method SetConfig(address: L.Address) returns (accepted: bool, ghost native: bool)
      modifies this`delayed
      ensures accepted == L.Step(daemon, L.ESetConfig(address, native)).2
      ensures delayed == (old(delayed) || !accepted)
    {
      var answer: bool := *;
      native := answer;
      accepted := L.Step(daemon, L.ESetConfig(address, answer)).2;
      delayed := delayed || !accepted;
    }

    method Start(token: nat, owner: string) returns (accepted: bool, ghost e: L.Event)
      modifies this`daemon, this`refusals
      ensures e.EStart? && e.token == token && e.owner == owner
      ensures daemon == L.Step(old(daemon), e).0 && accepted == L.Step(old(daemon), e).2
      ensures refusals == old(refusals) + if accepted then 0 else 1
    {
      var listener: nat, native: bool, position: bool := *, *, *;
      var asked := L.EStart(token, owner, listener, native, position);
      var (after, _, ok) := L.Step(daemon, asked);
      daemon, accepted, e := after, ok, asked;
      if !ok {
        refusals := refusals + 1;
      }
    }

    method Stop(token: nat, owner: string)
      modifies this`daemon
      ensures daemon == L.Step(old(daemon), L.EStop(token, owner)).0
    {
      daemon := L.Step(daemon, L.EStop(token, owner)).0;
    }
  }

  class AudioBridge {
    const owner: string
    const address: L.Address
    const around: Surroundings
    var token: nat        // 0 while no lease is held
    var socket: Socket
    var hfp: bool
    var requested: nat
    var selected: nat
    var microphone: bool
    var a2dp: bool
    var usable: set<nat>
    var unavailable: bool
    var failed: bool
    var capture: bool
    var demand: bool
    var idleMs: int
    var retryAt: int
    var transitioning: bool
    ghost var live: bool  // the last start completed and was not stopped

    ghost function View(): Bridge
      reads this
    {
      Bridge(hfp, requested, selected, microphone, a2dp, usable, unavailable, failed, live, capture, demand, idleMs, retryAt)
    }

    ghost predicate Safe()
      reads this`token, this`live, this`socket, this`hfp, around`daemon
    {
      && NoStrayLease(around.daemon.lease, owner, token)
      && token <= around.daemon.lease.nextToken && (token != 0 ==> LeaseFor(around.daemon.lease, token, address, hfp))
      && (live ==> token != 0 && socket.Connected? && Begun(around.daemon.lease, token))
    }

    ghost predicate Stopped()
      reads this`token, this`live, this`socket, this`hfp, around`daemon
    {
      Safe() && token == 0 && socket.Closed? && !live
    }

    constructor (owner: string, address: L.Address, around: Surroundings)
      requires NoStrayLease(around.daemon.lease, owner, 0)
      ensures this.around == around && Stopped() && Untouched() && requested == AUTOMATIC && !transitioning
    {
      this.owner, this.address, this.around := owner, address, around;
      token, socket, live := 0, Closed, false;
      hfp, requested, selected, microphone, a2dp, usable := false, AUTOMATIC, AUTOMATIC, false, false, {};
      unavailable, failed, capture, demand, idleMs, retryAt, transitioning := false, false, false, false, 0, 0, false;
    }

    // Before the main loop: start the only kind of transport there is, publish the nodes.
    // While the card is exported the desktop may already ask for profiles.
    method Open(found: bool, microphone: bool, a2dp: bool, usable: set<nat>) returns (ok: bool)
      requires Stopped() && Untouched() && requested == AUTOMATIC && !transitioning
      modifies this, around
      ensures Safe()
      ensures ok ==> Valid() && View() == Fresh(microphone, a2dp, usable, requested) && Available(View(), requested)
      ensures found && !ok ==> around.refusals > old(around.refusals) || around.denials > old(around.denials)
    {
      if !found {
        return false;
      }
      ok := Launch(microphone, a2dp, usable);
      if ok {
        ok := ExportCard();
      }
    }

    // The card, on which profiles can be asked for, and then the nodes.
    method ExportCard() returns (ok: bool)
      requires Valid() && Untouched() && live && hfp == !a2dp && Available(View(), requested)
      modifies this`requested, this`capture, around`wishes, around`refusals
      ensures Valid() && |around.wishes| == |old(around.wishes)| + 1
      ensures ok ==> View() == Fresh(microphone, a2dp, usable, requested) && Available(View(), requested)
      ensures around.refusals == old(around.refusals) + if ok then 0 else 1
    {
      ghost var asked := ServeRequests(View(), []);
      ok := PublishNodes();
    }

    // Nothing is published, selected or known to be wanted yet.
    predicate Untouched()
      reads this
    {
      selected == AUTOMATIC && !failed && !unavailable && !demand && idleMs == 0 && retryAt == 0
    }

    method Launch(microphone: bool, a2dp: bool, usable: set<nat>) returns (started: bool)
      requires Stopped() && Untouched() && requested == AUTOMATIC && !transitioning
      modifies this`microphone, this`a2dp, this`usable, this`hfp, this`token, this`socket, this`live
      modifies around`daemon, around`rounds, around`refusals, around`denials, around`silences, around`delayed
      ensures Safe() && this.microphone == microphone && this.a2dp == a2dp && this.usable == usable && hfp == !a2dp
      ensures started ==> live && Valid() && Available(View(), requested)
      ensures !started ==> around.refusals > old(around.refusals) || around.denials > old(around.denials)
      ensures around.refusals >= old(around.refusals) && around.denials >= old(around.denials)
    {
      this.microphone, this.a2dp, this.usable := microphone, a2dp, usable;
      hfp := !a2dp;
      var start := StartTransport();
      return start.Started?;
    }

    // The nodes, with the microphone of the profile that is requested by now.
    method PublishNodes() returns (ok: bool)
      requires Valid() && Untouched() && live && hfp == !a2dp && Available(View(), requested)
      modifies this`capture, around`refusals
      ensures Valid()
      ensures ok ==> View() == Fresh(microphone, a2dp, usable, requested) && Available(View(), requested)
      ensures around.refusals == old(around.refusals) + if ok then 0 else 1
    {
      ok := around.Agrees();
      if ok {
        capture := microphone && (requested == AUTOMATIC || requested == HANDSFREE);
      }
    }

    // All the profile requests there are, in order: they extend a run of the profile machine.
    method ServeRequests(ghost start: Bridge, ghost before: seq<Event>) returns (ghost asked: seq<nat>)
      requires Valid() && Coherent(start) && View() == Run(start, before)
      modifies this`requested, around`wishes
      ensures Valid() && (old(Available(View(), requested)) ==> Available(View(), requested))
      ensures around.wishes == old(around.wishes) + [asked] && View() == Run(start, before + Asks(asked))
    {
      var profiles := around.Requests();
      asked := profiles;
      assert before + Asks(profiles[..0]) == before;
      for k := 0 to |profiles|
        invariant Valid() && (old(Available(View(), requested)) ==> Available(View(), requested))
        invariant View() == Run(start, before + Asks(profiles[..k]))
        invariant around.wishes == old(around.wishes) + [asked]
      {
        RequestProfile(profiles[k]);
        AskNext(start, before, profiles, k);
      }
      assert profiles[..|profiles|] == profiles;
    }

    // Other clients and the native stack act on the daemon.
    method World()
      requires Safe()
      modifies around`daemon
      ensures Safe() && (old(Begun(around.daemon.lease, token)) ==> Begun(around.daemon.lease, token))
    {
      var steps: nat := *;
      while steps > 0
        invariant Safe() && (old(Begun(around.daemon.lease, token)) ==> Begun(around.daemon.lease, token))
      {
        var e: L.Event := *;
        if !Mine(e, owner) {
          LeaseStaysForItsTransport(around.daemon.lease, e, L.Consult(around.daemon.native, around.daemon.lease, e), token, address, hfp);
          OthersMakeNoStrayLease(around.daemon.lease, e, L.Consult(around.daemon.native, around.daemon.lease, e), owner, token);
          around.daemon := L.Step(around.daemon, e).0;
        }
        steps := steps - 1;
      }
    }

    // ---------------------------------------------------------------- calls

    // Reservations and codec changes are only requested while no lease is held.
    method ReserveCall()
      requires Safe() && token == 0 && !live
      modifies this`token, around`daemon, around`denials, around`delayed
      ensures Safe()
      ensures token != 0 ==> around.daemon.lease.session == Some(L.Session(token, address, hfp, owner, false, false))
      ensures around.denials == old(around.denials) + if token != 0 then 0 else 1
      ensures around.delayed == (old(around.delayed) || token == 0)
    {
      ReservationIsHeld(around.daemon.lease, address, hfp, owner,
                        L.Consult(around.daemon.native, around.daemon.lease, L.EReserve(address, hfp, owner)));
      token := around.Reserve(address, hfp, owner);
    }

    method SetConfigCall() returns (accepted: bool)
      requires Safe() && token == 0
      modifies around`delayed
      ensures accepted ==> around.daemon.lease.session.None?
      ensures around.delayed == (old(around.delayed) || !accepted)
    {
      ghost var native;
      accepted, native := around.SetConfig(address);
    }

    method StartCall() returns (accepted: bool)
      requires Safe() && token != 0
      modifies around`daemon, around`refusals
      ensures Safe()
      ensures accepted ==> around.daemon.lease.session.Some? && around.daemon.lease.session.value.token == token
                           && around.daemon.lease.session.value.owner == owner && around.daemon.lease.session.value.started
      ensures around.refusals == old(around.refusals) + if accepted then 0 else 1
    {
      ghost var before := around.daemon;
      ghost var e;
      accepted, e := around.Start(token, owner);
      StartKeepsTheLease(before.lease, e, owner, token, L.Consult(before.native, before.lease, e));
    }

    method StopCall()
      requires Safe() && token != 0 && !live
      modifies this`token, around`daemon
      ensures Safe() && token == 0
    {
      StopReleases(around.daemon.lease, owner, token, L.Consult(around.daemon.native, around.daemon.lease, L.EStop(token, owner)));
      around.Stop(token, owner);
      token := 0;
    }

    // A connected PCM socket is only closed once its lease was stopped.
    method CloseSocket()
      requires !live && (socket.Connected? ==> token == 0)
      modifies this`socket
      ensures socket.Closed?
    {
      socket := Closed;
    }

    // ---------------------------------------------------------------- transport

    // The previous lease may still be stopping: in a transition, retry until the deadline.
    method ReserveAudio() returns (granted: bool)
      requires Safe() && token == 0 && !live
      modifies this`token, around`daemon, around`rounds, around`refusals, around`denials, around`delayed
      ensures Safe() && (granted <==> token != 0)
      ensures !granted ==> if transitioning then around.refusals > old(around.refusals) else around.denials > old(around.denials)
      ensures around.refusals >= old(around.refusals) && around.denials >= old(around.denials)
      ensures granted ==> around.refusals == old(around.refusals)
    {
      around.SetDeadline();
      World();
      ReserveCall();
      var waits := true;
      while token == 0 && transitioning && waits
        invariant Safe()
        invariant token == 0 ==> around.delayed && around.denials > old(around.denials)
        invariant around.denials >= old(around.denials)
        invariant around.refusals == old(around.refusals) + if waits then 0 else 1
        invariant token != 0 ==> waits
        decreases around.rounds, waits
      {
        waits := around.Waits();
        if waits {
          World();
          ReserveCall();
        }
      }
      return token != 0;
    }

    method RequestCodec() returns (accepted: bool)
      requires Safe() && token == 0 && requested < PROFILES
      modifies around`daemon, around`rounds, around`refusals, around`delayed
      ensures Safe()
      ensures Codec(requested).None? ==> accepted
      ensures Codec(requested).Some? && Codec(requested).value !in usable ==> !accepted
      ensures Codec(requested).Some? && Codec(requested).value in usable ==>
                around.refusals == old(around.refusals) + if accepted then 0 else 1
      ensures around.refusals >= old(around.refusals)
    {
      var codec := Codec(requested);
      if codec.None? {
        return true;
      }
      if codec.value !in usable {
        return false;
      }
      around.SetDeadline();
      World();
      accepted := SetConfigCall();
      var waits := true;
      while !accepted && waits
        invariant Safe()
        invariant !accepted ==> around.delayed
        invariant around.refusals == old(around.refusals) + if waits then 0 else 1
        invariant accepted ==> waits
        decreases around.rounds, waits
      {
        waits := around.Waits();
        if waits {
          World();
          accepted := SetConfigCall();
        }
      }
    }

    method StartTransport() returns (r: Start)
      requires Stopped()
      modifies this`token, this`socket, this`live
      modifies around`daemon, around`rounds, around`refusals, around`denials, around`silences, around`delayed
      ensures Safe() && (live <==> r.Started?) && (r.NoPcm? ==> hfp)
      ensures !r.Started? ==> around.refusals > old(around.refusals) || (!transitioning && around.denials > old(around.denials))
      ensures r.NoPcm? <==> around.silences > old(around.silences)
      ensures r.Started? ==> around.refusals == old(around.refusals)
      ensures around.refusals >= old(around.refusals) && around.denials >= old(around.denials)
    {
      var granted := ReserveAudio();
      if !granted {
        return Refused;
      }
      World();
      var accepted := StartCall();
      if !accepted {
        return Refused;
      }
      World();
      var notified := around.Agrees();
      if !notified {
        return Refused;
      }
      if hfp {
        r := ConnectVoice();
      } else {
        r := ConnectMusic();
      }
      live := r.Started?;
    }

    method ConnectMusic() returns (r: Start)
      requires Safe() && token != 0 && socket.Closed? && !live && Begun(around.daemon.lease, token)
      modifies this`socket, around`daemon, around`refusals
      ensures Safe() && Begun(around.daemon.lease, token) && !r.NoPcm? && (r.Started? ==> socket.Connected?)
      ensures around.refusals == old(around.refusals) + if r.Started? then 0 else 1
    {
      var ready := around.Agrees();
      if !ready {
        return Refused;
      }
      var created := around.Agrees();
      if !created {
        return Refused;
      }
      socket := Opened;
      var connected := around.Agrees();
      if !connected {
        return Refused;
      }
      socket := Connected;
      World();
      var confirmed := around.Agrees();
      return if confirmed then Started else Refused;
    }

    // The socket appears some time after the link; retry until the deadline.
    method ConnectVoice() returns (r: Start)
      requires Safe() && token != 0 && socket.Closed? && !live && Begun(around.daemon.lease, token)
      modifies this`socket, around`daemon, around`rounds, around`refusals, around`silences, around`delayed
      ensures Safe() && Begun(around.daemon.lease, token) && (r.Started? ==> socket.Connected?)
      ensures around.refusals == old(around.refusals) + if r.Started? then 0 else 1
      ensures around.silences == old(around.silences) + if r.NoPcm? then 1 else 0
    {
      around.SetDeadline();
      var waits := around.Waits();
      var tried: Option<Start> := None;
      while waits && tried.None?
        invariant Safe() && Begun(around.daemon.lease, token)
        invariant tried.None? ==> socket.Closed? && (waits || around.delayed)
        invariant tried.Some? ==> waits && (tried.value.Started? ==> socket.Connected?)
        invariant around.refusals == old(around.refusals) + if waits && (tried.None? || tried.value.Started?) then 0 else 1
        invariant around.silences == old(around.silences) + if tried.Some? && tried.value.NoPcm? then 1 else 0
        decreases waits && tried.None?, around.rounds
      {
        tried := TryVoice();
        if tried.None? {
          World();
          waits := around.Waits();
        }
      }
      return if tried.Some? then tried.value else Refused;
    }

    // One try, and the probe for microphone PCM; no result if it can be repeated.
    method TryVoice() returns (r: Option<Start>)
      requires Safe() && token != 0 && socket.Closed? && !live && Begun(around.daemon.lease, token)
      modifies this`socket, around`daemon, around`refusals, around`silences, around`delayed
      ensures Safe() && Begun(around.daemon.lease, token)
      ensures r.None? ==> socket.Closed? && around.delayed
      ensures r.Some? && r.value.Started? ==> socket.Connected?
      ensures around.refusals == old(around.refusals) + if r.None? || r.value.Started? then 0 else 1
      ensures around.silences == old(around.silences) + if r.Some? && r.value.NoPcm? then 1 else 0
    {
      var valid := around.Agrees();
      if !valid {
        return Some(Refused);
      }
      var ready := around.Ready();
      if !ready {
        return None;
      }
      var created := around.Agrees();
      if !created {
        return Some(Refused);
      }
      socket := Opened;
      var connected := around.Ready();
      if !connected {
        CloseSocket();
        var hopeful := around.Agrees();
        return if hopeful then None else Some(Refused);
      }
      socket := Connected;
      World();
      var confirmed := around.Agrees();
      if !confirmed {
        return Some(Refused);
      }
      var arrives := around.Hears();
      return Some(if arrives then Started else NoPcm);
    }

    // The lease is released first: closing the socket also asks for a native stop.
    method StopTransport()
      requires Safe()
      modifies this`token, this`socket, this`live, around`daemon
      ensures Stopped()
    {
      live := false;
      World();
      if token != 0 {
        StopCall();
        World();
      }
      if !socket.Closed? {
        CloseSocket();
      }
    }

    // ---------------------------------------------------------------- the timer

    ghost predicate Valid()
      reads this, around`daemon
    {
      Safe() && !transitioning && Coherent(View())
    }

    method RequestProfile(profile: nat)
      requires Valid()
      modifies this`requested
      ensures Valid() && View() == Request(old(View()), profile)
    {
      var codec := if profile < PROFILES then Codec(profile) else None;
      var available := profile < PROFILES &&
        (profile == AUTOMATIC || (if profile == HANDSFREE then microphone && !unavailable else codec.Some? && codec.value in usable));
      if available {
        requested := profile;
      }
    }

    // Capture demand, as seen on the graph.
    method NoteDemand(now: int, linked: bool)
      modifies this`demand, this`idleMs
      ensures View() == Observe(old(View()), now, linked)
    {
      var requestedNow := capture && linked;
      if demand && !requestedNow {
        idleMs := now;
      }
      demand := requestedNow;
    }

    method Decide(now: int) returns (wanted: bool)
      ensures wanted == WantsHfp(View(), now)
    {
      wanted := !a2dp || (demand && now >= retryAt) || (hfp && now - idleMs < 2000);
      if requested != AUTOMATIC {
        wanted := requested == HANDSFREE;
      }
      if unavailable && a2dp {
        wanted := false;
      }
    }

    // The authoritative device snapshot, when one is due.
    method DiscoverDevice(d: Discovery, configured: bool)
      modifies this`a2dp, this`usable, this`failed
      ensures View() == Discover(old(View()), d, configured)
    {
      if d.NotDue? {
        return;
      }
      if d.Found? {
        usable := d.usable;
      }
      if d.Gone? || d.microphone != microphone {
        failed := true;
        return;
      }
      a2dp := d.a2dp;
      failed := !hfp && !configured;
    }

    // Demand, decision and snapshot, in this order, from one look at the surroundings.
    method Look() returns (t: Turn, wanted: bool)
      modifies this`demand, this`idleMs, this`a2dp, this`usable, this`failed, around`now, around`sights
      ensures around.sights == old(around.sights) + [SightOf(t)] && t.now >= old(around.now)
      ensures View() == Snapshot(old(View()), t) && wanted == Wanted(old(View()), t)
      ensures t == Turn(t.now, t.demand, t.discovery, t.configured, true, Started, 0, true, true, true, true)
    {
      var s := around.Observe();
      NoteDemand(s.now, s.linked);
      wanted := Decide(s.now);
      DiscoverDevice(s.discovery, s.configured);
      t := Turn(s.now, s.linked, s.discovery, s.configured, true, Started, 0, true, true, true, true);
    }

    // One tick refines `ProfileSpec.Tick` for the answers the environment gave, and nothing
    // fails in it unless the device did or something was refused.
    method Tick() returns (t: Turn)
      requires Valid() && !failed
      modifies this, around
      ensures Valid() && View() == ProfileSpec.Tick(old(View()), t)
      ensures !failed ==> token != 0 && socket.Connected? && Begun(around.daemon.lease, token)
      ensures around.sights == old(around.sights) + [SightOf(t)]
      ensures around.refusals >= old(around.refusals)
      ensures around.refusals == old(around.refusals) ==> Agreed(Snapshot(old(View()), t), t)
      ensures around.wishes == old(around.wishes)
    {
      var wanted;
      t, wanted := Look();
      SnapshotKeeps(old(View()), t);
      if failed || (wanted == hfp && requested == selected) {
        return;
      }
      ghost var before := t;
      t := ChangeProfile(wanted, t);
      SameSnapshot(old(View()), before, t);
      TickKeeps(old(View()), t);
    }

    method ChangeProfile(wanted: bool, before: Turn) returns (t: Turn)
      requires Safe() && requested < PROFILES && selected < PROFILES && !failed && !transitioning
      modifies this
      modifies around`daemon, around`now, around`rounds, around`refusals, around`denials, around`silences, around`delayed
      ensures Safe() && View() == Switch(old(View()), wanted, t) && (!failed ==> live) && !transitioning
      ensures t.now == before.now && t.demand == before.demand && t.discovery == before.discovery && t.configured == before.configured
      ensures around.refusals >= old(around.refusals)
      ensures around.refusals == old(around.refusals) ==> Agreed(old(View()), t)
    {
      transitioning := true;
      assert View() == old(View());
      var replaced := ReplaceTransport(wanted, before);
      t := PublishProfile(replaced);
      transitioning := false;
    }

    // Stop the old transport and bring up the next.
    method ReplaceTransport(wanted: bool, before: Turn) returns (t: Turn)
      requires Safe() && requested < PROFILES && selected < PROFILES && !failed && transitioning
      modifies this`token, this`socket, this`live, this`failed, this`unavailable, this`hfp, this`retryAt, this`requested
      modifies around`daemon, around`now, around`rounds, around`refusals, around`denials, around`silences, around`delayed
      ensures Safe() && (!failed ==> live)
      ensures View() == Restart(old(View()), Target(old(View()), t.accepted), Kind(old(View()), wanted, t.accepted), t.start, t.later, t.fallback)
      ensures t == before.(accepted := t.accepted, start := t.start, later := t.later, fallback := t.fallback)
      ensures around.refusals >= old(around.refusals)
      ensures around.refusals == old(around.refusals) ==> !failed && (t.accepted || Unusable(old(View()))) && t.start.Started?
    {
      var accepted := SelectProfile(wanted);
      ghost var was, target, kind := old(View()), requested, hfp;
      var start, later, fallback := BringUp();
      RestartForgets(was, target, kind, start, later, fallback);
      t := before.(accepted := accepted, start := start, later := later, fallback := fallback);
    }

    // Stop the old transport and settle what to start: a refused codec restores the old choice.
    method SelectProfile(wanted: bool) returns (accepted: bool)
      requires Safe() && requested < PROFILES && selected < PROFILES
      modifies this`token, this`socket, this`live, this`requested, this`hfp
      modifies around`daemon, around`rounds, around`refusals, around`delayed
      ensures Stopped()
      ensures View() == Chosen(old(View()), Target(old(View()), accepted), Kind(old(View()), wanted, accepted))
      ensures around.refusals >= old(around.refusals)
      ensures !accepted ==> Unusable(old(View())) || around.refusals > old(around.refusals)
    {
      StopTransport();
      accepted := SettleProfile(wanted);
    }

    method SettleProfile(wanted: bool) returns (accepted: bool)
      requires Stopped() && requested < PROFILES && selected < PROFILES
      modifies this`requested, this`hfp, around`daemon, around`rounds, around`refusals, around`delayed
      ensures Stopped()
      ensures View() == Chosen(old(View()), Target(old(View()), accepted), Kind(old(View()), wanted, accepted))
      ensures around.refusals >= old(around.refusals)
      ensures !accepted ==> Unusable(old(View())) || around.refusals > old(around.refusals)
    {
      accepted := true;
      if requested != selected {
        accepted := RequestCodec();
        if !accepted {
          requested := selected;
          return;
        }
      }
      hfp := wanted;
    }

    // Start the wanted transport; a failed HFP start falls back to music, if there is any.
    method BringUp() returns (start: Start, later: int, fallback: bool)
      requires Stopped() && !failed && transitioning
      modifies this`token, this`socket, this`live, this`failed, this`unavailable, this`hfp, this`retryAt, this`requested
      modifies around`daemon, around`now, around`rounds, around`refusals, around`denials, around`silences, around`delayed
      ensures Safe() && (!failed ==> live)
      ensures View() == Restart(old(View()), old(requested), old(hfp), start, later, fallback)
      ensures start.Started? <==> around.refusals == old(around.refusals)
      ensures around.refusals >= old(around.refusals)
    {
      start := StartTransport();
      later, fallback := 0, false;
      if start.Started? {
        return;
      }
      assert View() == old(View());
      later, fallback := FallBack(start.NoPcm?);
    }

    method FallBack(silent: bool) returns (later: int, fallback: bool)
      requires Safe() && (silent ==> hfp) && transitioning
      modifies this`token, this`socket, this`live, this`failed, this`unavailable, this`hfp, this`retryAt, this`requested
      modifies around`daemon, around`now, around`rounds, around`refusals, around`denials, around`silences, around`delayed
      ensures Safe() && (!failed ==> live)
      ensures View() == Restart(old(View()), AUTOMATIC, old(hfp), if silent then NoPcm else Refused, later, fallback)
      ensures later == around.now >= old(around.now)
      ensures failed ==> !old(hfp) || !a2dp || around.refusals > old(around.refusals)
      ensures around.refusals >= old(around.refusals)
    {
      var undisturbed := around.Agrees();
      StopTransport();
      later := around.Clock();
      fallback := Recover(silent, undisturbed, later);
    }

    method Recover(silent: bool, undisturbed: bool, later: int) returns (fallback: bool)
      requires Stopped() && transitioning && (silent ==> hfp)
      modifies this`token, this`socket, this`live, this`failed, this`unavailable, this`hfp, this`retryAt, this`requested
      modifies around`daemon, around`rounds, around`refusals, around`denials, around`silences, around`delayed
      ensures Safe() && (!failed ==> live)
      ensures View() == Restart(old(View()), AUTOMATIC, old(hfp), if silent then NoPcm else Refused, later, fallback)
      ensures failed ==> !old(hfp) || !a2dp || !undisturbed || around.refusals > old(around.refusals)
      ensures around.refusals >= old(around.refusals)
    {
      fallback := false;
      if hfp && a2dp && undisturbed {
        fallback := StartMusic(silent, later);
      } else {
        ReturnToMusic(silent, later);
      }
      failed := !fallback;
    }

    method StartMusic(silent: bool, later: int) returns (started: bool)
      requires Stopped() && transitioning
      modifies this`token, this`socket, this`live, this`unavailable, this`hfp, this`retryAt, this`requested
      modifies around`daemon, around`rounds, around`refusals, around`denials, around`silences, around`delayed
      ensures Safe() && live == started
      ensures View() == old(View()).(unavailable := old(unavailable) || silent, hfp := false, retryAt := later + 10000,
                                     requested := AUTOMATIC, held := started)
      ensures started <==> around.refusals == old(around.refusals)
      ensures around.refusals >= old(around.refusals)
    {
      ReturnToMusic(silent, later);
      var start := StartTransport();
      started := start.Started?;
    }

    method ReturnToMusic(silent: bool, later: int)
      modifies this`unavailable, this`hfp, this`retryAt, this`requested
      ensures View() == old(View()).(unavailable := old(unavailable) || silent, hfp := false, retryAt := later + 10000, requested := AUTOMATIC)
    {
      unavailable := unavailable || silent;
      hfp := false;
      retryAt := later + 10000;
      requested := AUTOMATIC;
    }

    // Publish the microphone and the formats of the new profile.
    method Announce(published: bool, finished: bool, flushed: bool)
      requires !failed
      modifies this`capture, this`demand, this`idleMs, this`selected, this`failed
      ensures View() == Publish(old(View()), published, finished, flushed)
    {
      var wanted := microphone && (requested == AUTOMATIC || requested == HANDSFREE);
      if !wanted {
        if capture {
          capture, demand, idleMs := false, false, 0;
        }
      } else if !capture && !published {
        failed := true;
        return;
      } else {
        capture := true;
      }
      if !finished {
        failed := true;
        return;
      }
      selected := requested;
      failed := !flushed;
    }

    method PublishProfile(before: Turn) returns (t: Turn)
      requires Safe() && (!failed ==> live)
      modifies this`capture, this`demand, this`idleMs, this`selected, this`failed, around`refusals
      ensures Safe() && (!failed ==> live)
      ensures View() == Finish(old(View()), t)
      ensures t == before.(published := t.published, finished := t.finished, flushed := t.flushed)
      ensures around.refusals >= old(around.refusals)
      ensures !old(failed) && around.refusals == old(around.refusals) ==> t.published && t.finished && t.flushed
    {
      t := before;
      if failed {
        return;
      }
      var published := around.Agrees();
      var finished := around.Agrees();
      var flushed := around.Agrees();
      Announce(published, finished, flushed);
      t := before.(published := published, finished := finished, flushed := flushed);
    }

    // Leaving the main loop while the bus is still connected.
    method Teardown()
      requires Safe()
      modifies this`token, this`socket, this`live, around`daemon
      ensures Stopped() && View() == old(View()).(held := false)
    {
      StopTransport();
    }

    // One round of the main loop, with anything that the rest of the system does before it.
    method Round(ghost start: Bridge, ghost before: seq<Event>) returns (ghost asked: seq<nat>, t: Turn)
      requires Valid() && !failed && Coherent(start) && View() == Run(start, before)
      modifies this, around
      ensures Valid() && View() == Run(start, before + Asks(asked) + [Timer(t)])
      ensures around.wishes == old(around.wishes) + [asked] && around.sights == old(around.sights) + [SightOf(t)]
    {
      World();
      asked := ServeRequests(start, before);
      t := Tick();
      RunNext(start, before + Asks(asked), Timer(t));
    }

    // A whole session: any number of ticks and of profile requests by the desktop, among
    // anything that the rest of the system does, until something fails; then everything is
    // released. What happened is a run of the profile machine.
    method Serve(limit: nat) returns (ghost asked: seq<seq<nat>>, ghost turns: seq<Turn>)
      requires Valid() && !failed
      modifies this, around
      ensures Stopped()
      ensures |asked| == |turns| <= limit && (|turns| == limit || failed)
      ensures View() == Run(old(View()), Session(asked, turns)).(held := false)
      ensures around.wishes == old(around.wishes) + asked && around.sights == old(around.sights) + Sights(turns)
    {
      ghost var start, wishes, sights := View(), around.wishes, around.sights;
      asked, turns := [], [];
      for i := 0 to limit
        invariant Valid() && !failed && |asked| == |turns| == i
        invariant View() == Run(start, Session(asked, turns))
        invariant around.wishes == wishes + asked && around.sights == sights + Sights(turns)
      {
        ghost var more;
        var t;
        more, t := Round(start, Session(asked, turns));
        SessionNext(asked, turns, more, t);
        Longer(wishes, asked, more);
        SightsNext(sights, turns, t);
        asked, turns := asked + [more], turns + [t];
        if failed {
          break;
        }
      }
      Teardown();
    }
  }
}
