// The daemon side of the audio-session lease (patches/bluetooth-service-runtime.patch).
// The native Bluetooth stack is adversarial: its callbacks are arbitrary events and its
// answers are parameters of the events that ask for them.
module LeaseSpec {
  import opened Wrappers

  type Address = nat
  type Listener = nat

  const TOKEN_LIMIT: nat := 0x1_0000_0000_0000_0000 // tokens are 64 bits wide

  datatype Session = Session(
    token: nat, address: Address, hfp: bool, owner: string, started: bool, stopping: bool)

  datatype ScoState = ScoDisconnected | ScoConnecting | ScoConnected | ScoDisconnecting
  datatype HfpState = HfpConnecting | HfpConnected | SlcConnected | HfpDisconnecting
  datatype A2dpState = A2dpConnecting | A2dpConnected | A2dpDisconnecting

  // What the daemon tells the native stack and the holder of a pending listener.
  datatype Effect = StopNative(address: Address, hfp: bool) | Notify(listener: Listener, hfp: bool, success: bool)

  // The lease itself, with the listeners that wait for its start.
  datatype Lease = Lease(
    session: Option<Session>,
    nextToken: nat,
    hfpListener: Option<Listener>,
    a2dpListener: Option<Listener>,
    log: seq<Effect>)

  // What the daemon knows about the native transports.
  datatype Native = Native(
    initialized: bool,
    hfpStates: map<Address, HfpState>,
    a2dpStates: map<Address, A2dpState>,
    hfpAudio: map<Address, ScoState>,
    a2dpStarted: map<Address, bool>)

  datatype Media = Media(lease: Lease, native: Native)

  const NO_LEASE := Lease(None, 0, None, None, [])

  predicate Matches(l: Lease, address: Address, hfp: bool) {
    l.session.Some? && l.session.value.address == address && l.session.value.hfp == hfp
  }

  predicate Owned(l: Lease, token: nat, owner: string) {
    l.session.Some? && l.session.value.token == token && l.session.value.owner == owner
  }

  predicate AnySco(n: Native) {
    exists a :: a in n.hfpAudio && n.hfpAudio[a] != ScoDisconnected
  }

  // Another stream than the one asked for is already running.
  predicate OtherMusic(n: Native, address: Address, hfp: bool) {
    exists a :: a in n.a2dpStarted && n.a2dpStarted[a] && (hfp || a != address)
  }

  predicate Slc(n: Native, address: Address) {
    address in n.hfpStates && n.hfpStates[address] == SlcConnected
  }

  predicate MusicLink(n: Native, address: Address) {
    address in n.a2dpStates && n.a2dpStates[address] == A2dpConnected
  }

  predicate MusicStarted(n: Native, address: Address) {
    address in n.a2dpStarted && n.a2dpStarted[address]
  }

  // ------------------------------------------------------------------ lease requests

  datatype Outcome = Outcome(lease: Lease, token: nat, ok: bool)

  // The transports allow a reservation.
  predicate Free(n: Native, address: Address, hfp: bool) {
    && n.initialized && !AnySco(n) && !OtherMusic(n, address, hfp)
    && if hfp then Slc(n, address) else MusicLink(n, address)
  }

  function Reserve(l: Lease, free: bool, address: Address, hfp: bool, owner: string): Outcome {
    if !free || owner == "" || l.session.Some? || l.hfpListener.Some? || l.a2dpListener.Some?
       || l.nextToken + 1 >= TOKEN_LIMIT then Outcome(l, 0, false)
    else
      var token := l.nextToken + 1;
      Outcome(l.(nextToken := token, session := Some(Session(token, address, hfp, owner, false, false))), token, true)
  }

  function Cancel(l: Lease, token: nat): Lease {
    if l.session.None? || l.session.value.token != token then l
    else
      var s := l.session.value;
      if !s.started then l.(session := None)
      else
        var stopped := l.(session := Some(s.(stopping := true)), log := l.log + [StopNative(s.address, s.hfp)]);
        if s.hfp then stopped.(hfpListener := None) else stopped.(a2dpListener := None)
  }

  // Is the transport of a session in a state to be started?
  predicate Startable(n: Native, s: Session) {
    s.hfp ==> Slc(n, s.address) && !AnySco(n)
  }

  predicate Opens(l: Lease, token: nat, owner: string) {
    Owned(l, token, owner) && !l.session.value.started && !l.session.value.stopping
  }

  // `accepted` is the native answer, `early` that the stream was already reported.
  function Start(l: Lease, token: nat, owner: string, listener: Listener, accepted: bool, early: bool): Outcome {
    if !Opens(l, token, owner) then Outcome(l, 0, false)
    else if !accepted then Outcome(Cleared(l), 0, false)
    else
      var s := l.session.value;
      var begun := l.(session := Some(s.(started := true)));
      if s.hfp then Outcome(begun.(hfpListener := Some(listener)), 0, true)
      else if early then Outcome(begun.(log := l.log + [Notify(listener, false, true)], a2dpListener := None), 0, true)
      else Outcome(begun.(a2dpListener := Some(listener)), 0, true)
  }

  function Cleared(l: Lease): Lease {
    l.(session := None, hfpListener := None, a2dpListener := None)
  }

  function Stop(l: Lease, token: nat, owner: string): Outcome {
    if l.session.None? || l.session.value.token != token then Outcome(l, 0, true)
    else if !Owned(l, token, owner) then Outcome(l, 0, false)
    else Outcome(Cancel(l, token), 0, true)
  }

  function Expire(l: Lease, token: nat): Lease {
    if l.session.Some? && l.session.value.token == token && !l.session.value.started then Cancel(l, token) else l
  }

  // ------------------------------------------------------------------ native callbacks

  function Settle(l: Lease, address: Address, hfp: bool, terminal: bool): Lease {
    if !Matches(l, address, hfp) then l
    else if terminal then l.(session := None)
    else if l.session.value.stopping then Cancel(l, l.session.value.token)
    else l
  }

  // A pending listener is answered unless it belongs to another lease.
  function Answer(l: Lease, address: Address, hfp: bool, success: bool): Lease {
    var pending := if hfp then l.hfpListener else l.a2dpListener;
    if pending.None? || (l.session.Some? && !Matches(l, address, hfp)) then l
    else
      var answered := l.(log := l.log + [Notify(pending.value, hfp, success)]);
      if hfp then answered.(hfpListener := None) else answered.(a2dpListener := None)
  }

  // A callback that reports the transport of one profile and address up or down.
  function Report(l: Lease, address: Address, hfp: bool, up: bool): Lease {
    Settle(Answer(l, address, hfp, up), address, hfp, !up)
  }

  // ------------------------------------------------------------------ legacy calls

  function LegacyMusic(l: Lease, listener: Listener, accepted: bool): Outcome {
    if l.session.Some? || l.a2dpListener.Some? || !accepted then Outcome(l, 0, false)
    else Outcome(l.(a2dpListener := Some(listener)), 0, true)
  }

  function LegacyVoice(l: Lease, listener: Listener, accepted: bool): Outcome {
    if l.session.Some? || l.hfpListener.Some? || !accepted then Outcome(l, 0, false)
    else Outcome(l.(hfpListener := Some(listener)), 0, true)
  }

  // What a legacy stop does with its listener is unconstrained once no lease exists.
  function LegacyStop(l: Lease, hfp: bool, left: Option<Listener>): Outcome {
    if l.session.Some? then Outcome(l, 0, false)
    else Outcome(if hfp then l.(hfpListener := left) else l.(a2dpListener := left), 0, true)
  }

  // ------------------------------------------------------------------ events

  datatype Event =
    | EReserve(address: Address, hfp: bool, owner: string)
    | EStart(token: nat, owner: string, listener: Listener, accepted: bool, position: bool)
    | EStop(token: nat, owner: string)
    | EExpire(token: nat)
    | EOwnerGone(token: nat)
    | EMusicAudio(address: Address, up: bool)
    | EMusicLink(address: Address, music: A2dpState)
    | EMusicGone(address: Address)
    | EVoiceAudio(address: Address, sco: ScoState)
    | EVoiceLink(address: Address, voice: HfpState)
    | EVoiceGone(address: Address)
    | ESetConfig(address: Address, accepted: bool)
    | ELegacyMusic(listener: Listener, accepted: bool)
    | ELegacyVoice(address: Address, listener: Listener, accepted: bool)
    | ELegacyStop(hfp: bool, left: Option<Listener>)
    | ELegacyActive
    | ECleanupCall
    | EInitialized(up: bool)
    | EFullCleanup

  // What a request needs to know about the native transports.
  datatype Facts = Facts(free: bool, startable: bool, streaming: bool, known: bool)

  function Consult(n: Native, l: Lease, e: Event): Facts {
    match e
    case EReserve(address, hfp, _) => Facts(Free(n, address, hfp), false, false, false)
    case EStart(_, _, _, _, _) =>
      if l.session.None? then Facts(false, false, false, false)
      else Facts(false, Startable(n, l.session.value), MusicStarted(n, l.session.value.address), false)
    case ELegacyVoice(address, _, _) => Facts(false, Slc(n, address) && !AnySco(n), false, false)
    case ESetConfig(address, _) => Facts(false, false, false, address in n.a2dpStates)
    case _ => Facts(false, false, false, false)
  }

  function LeaseStep(l: Lease, e: Event, f: Facts): Outcome {
    match e
    case EReserve(address, hfp, owner) => Reserve(l, f.free, address, hfp, owner)
    case EStart(token, owner, listener, accepted, position) =>
      Start(l, token, owner, listener, accepted && f.startable, f.streaming && position)
    case EStop(token, owner) => Stop(l, token, owner)
    case EExpire(token) => Outcome(Expire(l, token), 0, true)
    case EOwnerGone(token) => Outcome(Cancel(l, token), 0, true)
    case EMusicAudio(address, up) => Outcome(Report(l, address, false, up), 0, true)
    case EMusicGone(address) => Outcome(Report(l, address, false, false), 0, true)
    case EVoiceAudio(address, sco) =>
      if sco.ScoConnected? || sco.ScoDisconnected? then Outcome(Report(l, address, true, sco.ScoConnected?), 0, true)
      else Outcome(l, 0, true)
    case EVoiceGone(address) => Outcome(Report(l, address, true, false), 0, true)
    case EMusicLink(_, _) => Outcome(l, 0, true)
    case EVoiceLink(_, _) => Outcome(l, 0, true)
    case ESetConfig(_, accepted) => Outcome(l, 0, l.session.None? && f.known && accepted)
    case ELegacyMusic(listener, accepted) => LegacyMusic(l, listener, accepted)
    case ELegacyVoice(_, listener, accepted) => LegacyVoice(l, listener, accepted && f.startable)
    case ELegacyStop(hfp, left) => LegacyStop(l, hfp, left)
    case ELegacyActive => Outcome(l, 0, l.session.None?)
    case EInitialized(_) => Outcome(l, 0, true)
    case ECleanupCall => if l.session.Some? then Outcome(l, 0, false) else Outcome(Cleared(l), 0, true)
    case EFullCleanup => Outcome(Cleared(l), 0, true)
  }

  // An accepted SCO start occupies the single SCO endpoint at once.
  function NativeStep(n: Native, l: Lease, e: Event, ok: bool): Native {
    match e
    case EStart(_, _, _, _, _) =>
      if ok && l.session.Some? && l.session.value.hfp then
        n.(hfpAudio := n.hfpAudio[l.session.value.address := ScoConnecting])
      else n
    case ELegacyVoice(address, _, _) => if ok then n.(hfpAudio := n.hfpAudio[address := ScoConnecting]) else n
    case EInitialized(up) => n.(initialized := up)
    case EMusicAudio(address, up) => n.(a2dpStarted := n.a2dpStarted[address := up])
    case EMusicLink(address, state) => n.(a2dpStates := n.a2dpStates[address := state])
    case EMusicGone(address) => n.(a2dpStates := n.a2dpStates - {address}, a2dpStarted := n.a2dpStarted - {address})
    case EVoiceAudio(address, state) => n.(hfpAudio := n.hfpAudio[address := state])
    case EVoiceLink(address, state) => n.(hfpStates := n.hfpStates[address := state])
    case EVoiceGone(address) => n.(hfpStates := n.hfpStates - {address}, hfpAudio := n.hfpAudio - {address})
    case _ => n
  }

  function Step(m: Media, e: Event): (Media, nat, bool) {
    var o := LeaseStep(m.lease, e, Consult(m.native, m.lease, e));
    (Media(o.lease, NativeStep(m.native, m.lease, e, o.ok)), o.token, o.ok)
  }

  // ------------------------------------------------------------------ the invariant

  predicate Coherent(l: Lease) {
    l.session.Some? ==>
      var s := l.session.value;
      && 0 < s.token <= l.nextToken && s.owner != ""
      && (s.stopping ==> s.started)
      && (!s.started || s.stopping ==> l.hfpListener.None? && l.a2dpListener.None?)
      && (s.started ==> if s.hfp then l.a2dpListener.None? else l.hfpListener.None?)
  }

  // While a lease exists, an unstarted or stopping one has no pending listener and a started
  // one only that of its own profile, whatever the mix of lease, legacy and native events.
  lemma StepKeepsCoherence(l: Lease, e: Event, f: Facts)
    requires Coherent(l)
    ensures Coherent(LeaseStep(l, e, f).lease)
  {
  }

  // Whatever ends a lease leaves no listener behind.
  lemma NoListenerOutlivesItsLease(l: Lease, e: Event, f: Facts)
    requires Coherent(l) && l.session.Some? && LeaseStep(l, e, f).lease.session.None?
    ensures LeaseStep(l, e, f).lease.hfpListener.None? && LeaseStep(l, e, f).lease.a2dpListener.None?
  {
  }

  // The listener of a started lease, if it is still pending when the transport ends, is told.
  lemma EndingTellsTheListener(l: Lease, e: Event, f: Facts, waiting: Listener)
    requires Coherent(l) && l.session.Some? && l.session.value.started && !l.session.value.stopping
    requires (if l.session.value.hfp then l.hfpListener else l.a2dpListener) == Some(waiting)
    requires Terminal(e, l.session.value)
    ensures LeaseStep(l, e, f).lease.log == l.log + [Notify(waiting, l.session.value.hfp, false)]
    ensures LeaseStep(l, e, f).lease.session.None?
  {
  }

  // ------------------------------------------------------------------ phases

  // Order in which the lease with a given token lives.
  function Phase(l: Lease, token: nat): nat {
    if l.session.Some? && l.session.value.token == token then
      if l.session.value.stopping then 3 else if l.session.value.started then 2 else 1
    else if token <= l.nextToken then 4
    else 0
  }

  predicate SameLease(a: Session, b: Session) {
    a.token == b.token && a.address == b.address && a.hfp == b.hfp && a.owner == b.owner
  }

  // One event moves a lease forward by at most one phase, or ends it; a lease never turns
  // into another one without ending first, and only a reservation makes one.
  lemma StepMovesForward(l: Lease, e: Event, f: Facts, token: nat)
    requires Coherent(l)
    ensures var after := LeaseStep(l, e, f).lease;
            && after.nextToken >= l.nextToken
            && Phase(l, token) <= Phase(after, token)
            && (Phase(after, token) == Phase(l, token) || Phase(after, token) == Phase(l, token) + 1 || Phase(after, token) == 4)
            && (l.session.Some? && after.session.Some? ==> SameLease(l.session.value, after.session.value))
            && (l.session.None? && after.session.Some? ==>
                  e.EReserve? && after.session.value.token == l.nextToken + 1 == LeaseStep(l, e, f).token)
  {
  }

  // A token is returned only for a fresh reservation.
  lemma TokensAreFresh(l: Lease, e: Event, f: Facts)
    ensures var o := LeaseStep(l, e, f);
            if o.token != 0 then e.EReserve? && l.session.None? && o.token == l.nextToken + 1 == o.lease.nextToken < TOKEN_LIMIT
            else o.lease.nextToken == l.nextToken
  {
  }

  // Requests that name another token, or come from another owner, change nothing at all.
  lemma ForeignRequestsAreInert(l: Lease, e: Event, f: Facts)
    requires l.session.Some?
    requires match e
             case EStart(token, owner, _, _, _) => token != l.session.value.token || owner != l.session.value.owner
             case EStop(token, owner) => token != l.session.value.token || owner != l.session.value.owner
             case EExpire(token) => token != l.session.value.token || l.session.value.started
             case EOwnerGone(token) => token != l.session.value.token
             case ESetConfig(_, _) => true
             case EReserve(_, _, _) => true
             case ELegacyMusic(_, _) => true
             case ELegacyVoice(_, _, _) => true
             case ELegacyStop(_, _) => true
             case ECleanupCall => true
             case _ => false
    ensures LeaseStep(l, e, f).lease == l && LeaseStep(l, e, f).token == 0
    ensures LeaseStep(l, e, f).ok ==> (e.EStop? && e.token != l.session.value.token) || e.EExpire? || e.EOwnerGone?
  {
  }

  // The events that end a stopping lease.
  predicate Terminal(e: Event, s: Session) {
    match e
    case EMusicAudio(address, up) => !s.hfp && address == s.address && !up
    case EMusicGone(address) => !s.hfp && address == s.address
    case EVoiceAudio(address, state) => s.hfp && address == s.address && state == ScoDisconnected
    case EVoiceGone(address) => s.hfp && address == s.address
    case _ => false
  }

  predicate Ends(e: Event, s: Session) {
    Terminal(e, s) || e.EFullCleanup?
  }

  // A stopping lease is released exactly by a terminal event of its own address and profile
  // or by a full cleanup; until then it is unchanged and nothing else is admitted.
  lemma StoppingHoldsUntilTerminal(l: Lease, e: Event, f: Facts)
    requires Coherent(l) && l.session.Some? && l.session.value.stopping
    ensures LeaseStep(l, e, f).lease.session == if Ends(e, l.session.value) then None else l.session
    ensures e.EReserve? || e.ESetConfig? || e.EStart? || e.ELegacyMusic? || e.ELegacyVoice? ==> !LeaseStep(l, e, f).ok && LeaseStep(l, e, f).token == 0
  {
  }

  // Every sign of life of a stopping transport is answered by stopping it again.
  lemma StoppingRetriesTheStop(l: Lease, e: Event, f: Facts)
    requires Coherent(l) && l.session.Some? && l.session.value.stopping
    requires e == if l.session.value.hfp then EVoiceAudio(l.session.value.address, ScoConnected)
                  else EMusicAudio(l.session.value.address, true)
    ensures LeaseStep(l, e, f).lease == l.(log := l.log + [StopNative(l.session.value.address, l.session.value.hfp)])
  {
  }

  // ------------------------------------------------------------------ whole runs

  // State after the first n events.
  function After(m: Media, events: seq<Event>, n: nat): Media
    requires n <= |events|
  {
    if n == 0 then m else Step(After(m, events, n - 1), events[n - 1]).0
  }

  // Token and verdict returned by event number i.
  function TokenAt(m: Media, events: seq<Event>, i: nat): nat
    requires i < |events|
  {
    Step(After(m, events, i), events[i]).1
  }

  function VerdictAt(m: Media, events: seq<Event>, i: nat): bool
    requires i < |events|
  {
    Step(After(m, events, i), events[i]).2
  }

  lemma {:induction false} RunsAreCoherent(m: Media, events: seq<Event>, n: nat)
    requires Coherent(m.lease) && n <= |events|
    ensures Coherent(After(m, events, n).lease)
    decreases n
  {
    if n > 0 {
      RunsAreCoherent(m, events, n - 1);
      var t, e := After(m, events, n - 1), events[n - 1];
      StepKeepsCoherence(t.lease, e, Consult(t.native, t.lease, e));
    }
  }

  // Phase of a token, and the last token given out, after n events.
  function PhaseAfter(m: Media, events: seq<Event>, n: nat, token: nat): nat
    requires n <= |events|
  {
    Phase(After(m, events, n).lease, token)
  }

  function LastToken(m: Media, events: seq<Event>, n: nat): nat
    requires n <= |events|
  {
    After(m, events, n).lease.nextToken
  }

  lemma OneEventAdvances(m: Media, events: seq<Event>, n: nat, token: nat)
    requires Coherent(m.lease) && n < |events|
    ensures PhaseAfter(m, events, n, token) <= PhaseAfter(m, events, n + 1, token)
    ensures LastToken(m, events, n) <= LastToken(m, events, n + 1)
  {
    RunsAreCoherent(m, events, n);
    var t, e := After(m, events, n), events[n];
    StepMovesForward(t.lease, e, Consult(t.native, t.lease, e), token);
  }

  lemma {:induction false} Ascending(s: seq<nat>, i: nat, j: nat)
    requires i <= j < |s| && forall k :: 0 <= k < |s| - 1 ==> s[k] <= s[k + 1]
    ensures s[i] <= s[j]
    decreases j
  {
    if i < j {
      Ascending(s, i, j - 1);
      assert s[j - 1] <= s[j - 1 + 1];
    }
  }

  // No lease ever goes back to an earlier phase.
  lemma PhasesOnlyAdvance(m: Media, events: seq<Event>, i: nat, j: nat, token: nat)
    requires Coherent(m.lease) && i <= j <= |events|
    ensures PhaseAfter(m, events, i, token) <= PhaseAfter(m, events, j, token)
    ensures LastToken(m, events, i) <= LastToken(m, events, j)
  {
    var phases := seq(|events| + 1, k requires 0 <= k <= |events| => PhaseAfter(m, events, k, token));
    var tokens := seq(|events| + 1, k requires 0 <= k <= |events| => LastToken(m, events, k));
    forall k | 0 <= k < |events| ensures phases[k] <= phases[k + 1] && tokens[k] <= tokens[k + 1] {
      OneEventAdvances(m, events, k, token);
    }
    Ascending(phases, i, j);
    Ascending(tokens, i, j);
  }

  // Over any run the returned tokens strictly increase, so none is ever repeated.
  lemma TokensIncrease(m: Media, events: seq<Event>, i: nat, j: nat)
    requires Coherent(m.lease) && i < j < |events|
    requires TokenAt(m, events, i) != 0 && TokenAt(m, events, j) != 0
    ensures TokenAt(m, events, i) < TokenAt(m, events, j)
  {
    var s, t := After(m, events, i), After(m, events, j);
    TokensAreFresh(s.lease, events[i], Consult(s.native, s.lease, events[i]));
    TokensAreFresh(t.lease, events[j], Consult(t.native, t.lease, events[j]));
    assert After(m, events, i + 1) == Step(s, events[i]).0;
    PhasesOnlyAdvance(m, events, i + 1, j, 0);
  }

  lemma StoppingHoldsOneStep(m: Media, e: Event)
    requires Coherent(m.lease) && m.lease.session.Some? && m.lease.session.value.stopping && !Ends(e, m.lease.session.value)
    ensures Step(m, e).0.lease.session == m.lease.session
    ensures e.EReserve? || e.ESetConfig? ==> Step(m, e).1 == 0 && !Step(m, e).2
  {
    StoppingHoldsUntilTerminal(m.lease, e, Consult(m.native, m.lease, e));
  }

  // A stopping lease stays for as long as no event of the run ends it.
  lemma {:induction false} StoppingStays(m: Media, events: seq<Event>, i: nat, j: nat)
    requires Coherent(m.lease) && i <= j <= |events|
    requires var s := After(m, events, i).lease.session;
             s.Some? && s.value.stopping && forall k :: i <= k < j ==> !Ends(events[k], s.value)
    ensures After(m, events, j).lease.session == After(m, events, i).lease.session
    decreases j
  {
    if i < j {
      StoppingStays(m, events, i, j - 1);
      RunsAreCoherent(m, events, j - 1);
      StoppingHoldsOneStep(After(m, events, j - 1), events[j - 1]);
    }
  }

  // Until then it also keeps everyone else out.
  lemma StoppingHoldsOverRuns(m: Media, events: seq<Event>, i: nat, j: nat)
    requires Coherent(m.lease) && i <= j <= |events|
    requires var s := After(m, events, i).lease.session;
             s.Some? && s.value.stopping && forall k :: i <= k < j ==> !Ends(events[k], s.value)
    ensures After(m, events, j).lease.session == After(m, events, i).lease.session
    ensures forall k :: i <= k < j && (events[k].EReserve? || events[k].ESetConfig?) ==>
              TokenAt(m, events, k) == 0 && !VerdictAt(m, events, k)
  {
    StoppingStays(m, events, i, j);
    forall k | i <= k < j && (events[k].EReserve? || events[k].ESetConfig?)
      ensures TokenAt(m, events, k) == 0 && !VerdictAt(m, events, k)
    {
      StoppingStays(m, events, i, k);
      RunsAreCoherent(m, events, k);
      StoppingHoldsOneStep(After(m, events, k), events[k]);
    }
  }
}

// The object that owns the lease, each method proved against the step it takes.
module Lease {
  import opened Wrappers
  import opened LeaseSpec

  class BluetoothMedia {
    var initialized: bool
    var session: Option<Session>
    var nextToken: nat
    var hfpListener: Option<Listener>
    var a2dpListener: Option<Listener>
    var hfpStates: map<Address, HfpState>
    var a2dpStates: map<Address, A2dpState>
    var hfpAudio: map<Address, ScoState>
    var a2dpStarted: map<Address, bool>
    var log: seq<Effect>

    ghost function LeaseView(): LeaseSpec.Lease
      reads this
    {
      LeaseSpec.Lease(session, nextToken, hfpListener, a2dpListener, log)
    }

    ghost function View(): Media
      reads this
    {
      Media(LeaseView(), Native(initialized, hfpStates, a2dpStates, hfpAudio, a2dpStarted))
    }

    constructor ()
      ensures View().lease == NO_LEASE && Coherent(LeaseView())
    {
      initialized, session, nextToken, hfpListener, a2dpListener := true, None, 0, None, None;
      hfpStates, a2dpStates, hfpAudio, a2dpStarted, log := map[], map[], map[], map[], [];
    }

    predicate SessionMatches(address: Address, hfp: bool)
      reads this
    {
      session.Some? && session.value.address == address && session.value.hfp == hfp
    }

    predicate SessionOwner(token: nat, owner: string)
      reads this
    {
      session.Some? && session.value.token == token && session.value.owner == owner
    }

    predicate ScoActive()
      reads this
    {
      exists a :: a in hfpAudio && hfpAudio[a] != ScoDisconnected
    }

    method CancelAudioSession(token: nat)
      modifies this`session, this`hfpListener, this`a2dpListener, this`log
      ensures LeaseView() == Cancel(old(LeaseView()), token)
    {
      if session.None? || session.value.token != token {
        return;
      }
      var s := session.value;
      if !s.started {
        session := None;
        return;
      }
      session := Some(s.(stopping := true));
      // The reservation is kept until a terminal callback.
      if s.hfp {
        hfpListener := None;
      } else {
        a2dpListener := None;
      }
      log := log + [StopNative(s.address, s.hfp)];
    }

    method AudioSessionState(address: Address, hfp: bool, terminal: bool)
      modifies this`session, this`hfpListener, this`a2dpListener, this`log
      ensures LeaseView() == Settle(old(LeaseView()), address, hfp, terminal)
    {
      if !SessionMatches(address, hfp) {
        return;
      }
      if terminal {
        session := None;
      } else if session.value.stopping {
        CancelAudioSession(session.value.token);
      }
    }

    // Answer a pending listener, unless a lease of another transport exists.
    method AnswerListener(address: Address, hfp: bool, success: bool)
      modifies this`hfpListener, this`a2dpListener, this`log
      ensures LeaseView() == Answer(old(LeaseView()), address, hfp, success)
    {
      var mine := session.None? || SessionMatches(address, hfp);
      if hfp && hfpListener.Some? && mine {
        log := log + [Notify(hfpListener.value, hfp, success)];
        hfpListener := None;
      } else if !hfp && a2dpListener.Some? && mine {
        log := log + [Notify(a2dpListener.value, hfp, success)];
        a2dpListener := None;
      }
    }

    method OnA2dpAudioState(address: Address, up: bool)
      modifies this
      ensures View() == Step(old(View()), EMusicAudio(address, up)).0
    {
      AnswerListener(address, false, up);
      a2dpStarted := a2dpStarted[address := up];
      AudioSessionState(address, false, !up);
    }

    method OnA2dpDisconnected(address: Address)
      modifies this
      ensures View() == Step(old(View()), EMusicGone(address)).0
    {
      AnswerListener(address, false, false);
      a2dpStates := a2dpStates - {address};
      a2dpStarted := a2dpStarted - {address};
      AudioSessionState(address, false, true);
    }

    method OnHfpAudioState(address: Address, state: ScoState)
      modifies this
      ensures View() == Step(old(View()), EVoiceAudio(address, state)).0
    {
      hfpAudio := hfpAudio[address := state];
      match state {
        case ScoConnected =>
          AnswerListener(address, true, true);
          AudioSessionState(address, true, false);
        case ScoDisconnected =>
          AnswerListener(address, true, false);
          AudioSessionState(address, true, true);
        case _ =>
      }
    }

    method OnHfpDisconnected(address: Address)
      modifies this
      ensures View() == Step(old(View()), EVoiceGone(address)).0
    {
      AnswerListener(address, true, false);
      hfpStates := hfpStates - {address};
      hfpAudio := hfpAudio - {address};
      AudioSessionState(address, true, true);
    }

    method ReserveAudioSession(address: Address, hfp: bool, owner: string) returns (token: nat)
      modifies this
      ensures var (after, t, _) := Step(old(View()), EReserve(address, hfp, owner)); View() == after && token == t
    {
      if !initialized || owner == "" || session.Some? || hfpListener.Some? || a2dpListener.Some? || ScoActive()
         || (exists a :: a in a2dpStarted && a2dpStarted[a] && (hfp || a != address))
         || (hfp && !(address in hfpStates && hfpStates[address] == SlcConnected))
         || (!hfp && !(address in a2dpStates && a2dpStates[address] == A2dpConnected)) {
        return 0;
      }
      if nextToken + 1 >= TOKEN_LIMIT {
        return 0;
      }
      token := nextToken + 1;
      nextToken := token;
      session := Some(Session(token, address, hfp, owner, false, false));
    }

    method StartScoTransport(address: Address, accepted: bool) returns (ok: bool)
      modifies this`hfpAudio
      ensures ok == (Slc(old(View()).native, address) && !AnySco(old(View()).native) && accepted)
      ensures hfpAudio == if ok then old(hfpAudio)[address := ScoConnecting] else old(hfpAudio)
    {
      if !(address in hfpStates && hfpStates[address] == SlcConnected) || ScoActive() || !accepted {
        return false;
      }
      // Reserve the global endpoint before the Connecting callback arrives.
      hfpAudio := hfpAudio[address := ScoConnecting];
      return true;
    }

    method StartAudioSession(token: nat, owner: string, listener: Listener, nativeAccepts: bool, position: bool)
      returns (accepted: bool)
      requires Coherent(LeaseView())
      modifies this
      ensures var (after, _, ok) := Step(old(View()), EStart(token, owner, listener, nativeAccepts, position));
              View() == after && accepted == ok
    {
      if !SessionOwner(token, owner) || session.value.started || session.value.stopping {
        return false;
      }
      var s := session.value;
      session := Some(s.(started := true));
      if s.hfp {
        hfpListener := Some(listener);
        accepted := StartScoTransport(s.address, nativeAccepts);
      } else {
        a2dpListener := Some(listener);
        accepted := nativeAccepts;
      }
      if accepted && !s.hfp && s.address in a2dpStarted && a2dpStarted[s.address] && position {
        log := log + [Notify(listener, false, true)];
        a2dpListener := None;
      }
      if !accepted {
        hfpListener, a2dpListener, session := None, None, None;
      }
    }

    method StopAudioSession(token: nat, owner: string) returns (ok: bool)
      modifies this
      ensures var (after, _, o) := Step(old(View()), EStop(token, owner)); View() == after && ok == o
    {
      if session.None? || session.value.token != token {
        return true;
      }
      if !SessionOwner(token, owner) {
        return false;
      }
      CancelAudioSession(token);
      return true;
    }

    method ExpireAudioReservation(token: nat)
      modifies this
      ensures View() == Step(old(View()), EExpire(token)).0
    {
      if session.Some? && session.value.token == token && !session.value.started {
        CancelAudioSession(token);
      }
    }

    method StartAudioRequest(listener: Listener, nativeAccepts: bool) returns (ok: bool)
      modifies this
      ensures var (after, _, o) := Step(old(View()), ELegacyMusic(listener, nativeAccepts)); View() == after && ok == o
    {
      if session.Some? || a2dpListener.Some? {
        return false;
      }
      a2dpListener := Some(listener);
      if !nativeAccepts {
        a2dpListener := None;
        return false;
      }
      return true;
    }

    method StartScoCall(address: Address, listener: Listener, nativeAccepts: bool) returns (ok: bool)
      modifies this
      ensures var (after, _, o) := Step(old(View()), ELegacyVoice(address, listener, nativeAccepts)); View() == after && ok == o
    {
      if session.Some? || hfpListener.Some? {
        return false;
      }
      hfpListener := Some(listener);
      ok := StartScoTransport(address, nativeAccepts);
      if !ok {
        hfpListener := None;
      }
    }

    method SetAudioConfig(address: Address, nativeAccepts: bool) returns (ok: bool)
      ensures var (after, _, o) := Step(View(), ESetConfig(address, nativeAccepts)); View() == after && ok == o
    {
      return session.None? && address in a2dpStates && nativeAccepts;
    }

    method Cleanup()
      modifies this
      ensures View() == Step(old(View()), EFullCleanup).0
    {
      session, hfpListener, a2dpListener := None, None, None;
    }
  }
}
