// What the callers of the lease daemon may rely on, stated over its events and answers
// (patches/bluetooth-service-runtime.patch).
module LeaseLaws {
  import opened Wrappers
  import opened LeaseSpec

  function Waiting(l: Lease, hfp: bool): Option<Listener> {
    if hfp then l.hfpListener else l.a2dpListener
  }

  // The callback with which a transport reports that it is up.
  function ComesUp(address: Address, hfp: bool): Event {
    if hfp then EVoiceAudio(address, ScoConnected) else EMusicAudio(address, true)
  }

  // ------------------------------------------------------------------ reservations

  // A reservation is granted exactly to a named owner, with nothing reserved or pending, on
  // an initialised daemon whose voice transports are all down and whose running music, if
  // any, is that of the same address and not in the way, to a connected device.
  lemma ReservationIsGrantedExactly(m: Media, address: Address, hfp: bool, owner: string)
    ensures var (after, token, ok) := Step(m, EReserve(address, hfp, owner));
            var n := m.native;
            && (ok <==> token != 0)
            && (ok <==>
                  && owner != "" && m.lease.session.None? && m.lease.hfpListener.None? && m.lease.a2dpListener.None?
                  && m.lease.nextToken < 0xffff_ffff_ffff_ffff && n.initialized
                  && (forall a :: a in n.hfpAudio ==> n.hfpAudio[a] == ScoDisconnected)
                  && (forall a :: a in n.a2dpStarted && n.a2dpStarted[a] ==> !hfp && a == address)
                  && (if hfp then address in n.hfpStates && n.hfpStates[address] == SlcConnected
                      else address in n.a2dpStates && n.a2dpStates[address] == A2dpConnected))
            && after.native == n
            && after.lease == (if ok then m.lease.(nextToken := token, session := Some(Session(token, address, hfp, owner, false, false)))
                               else m.lease)
            && (ok ==> token == m.lease.nextToken + 1)
  {
  }

  // ------------------------------------------------------------------ starts

  // A start is accepted exactly for the owner of a fresh reservation, if the native stack
  // accepts it and, for voice, the device is connected and no voice transport is up.
  lemma StartIsAcceptedExactly(m: Media, token: nat, owner: string, listener: Listener, native: bool, position: bool)
    ensures var (_, _, ok) := Step(m, EStart(token, owner, listener, native, position));
            var n, s := m.native, m.lease.session;
            ok <==>
              && s.Some? && s.value.token == token && s.value.owner == owner && !s.value.started && !s.value.stopping
              && native
              && (s.value.hfp ==>
                    && s.value.address in n.hfpStates && n.hfpStates[s.value.address] == SlcConnected
                    && (forall a :: a in n.hfpAudio ==> n.hfpAudio[a] == ScoDisconnected))
  {
  }

  // An accepted start leaves its listener waiting, or already told that music is up.
  lemma AcceptedStartWaits(m: Media, token: nat, owner: string, listener: Listener, native: bool, position: bool)
    requires Coherent(m.lease) && Step(m, EStart(token, owner, listener, native, position)).2
    ensures var after := Step(m, EStart(token, owner, listener, native, position)).0;
            var s := m.lease.session.value;
            var told := !s.hfp && s.address in m.native.a2dpStarted && m.native.a2dpStarted[s.address] && position;
            && after.lease.session == Some(s.(started := true)) && after.lease.nextToken == m.lease.nextToken
            && Waiting(after.lease, s.hfp) == (if told then None else Some(listener)) && Waiting(after.lease, !s.hfp).None?
            && after.lease.log == m.lease.log + (if told then [Notify(listener, false, true)] else [])
            && after.native == if s.hfp then m.native.(hfpAudio := m.native.hfpAudio[s.address := ScoConnecting]) else m.native
  {
  }

  // A refused start by the owner releases the reservation; any other changes nothing.
  lemma RefusedStartReleases(m: Media, token: nat, owner: string, listener: Listener, native: bool, position: bool)
    requires Coherent(m.lease) && !Step(m, EStart(token, owner, listener, native, position)).2
    ensures var after := Step(m, EStart(token, owner, listener, native, position)).0;
            var s := m.lease.session;
            && after.native == m.native
            && after.lease ==
               if s.Some? && s.value.token == token && s.value.owner == owner && !s.value.started && !s.value.stopping
               then m.lease.(session := None) else m.lease
  {
  }

  // ------------------------------------------------------------------ callbacks

  // The listener of a started lease is told of success when its transport comes up, once.
  lemma StartedListenerIsTold(l: Lease, f: Facts, waiting: Listener)
    requires Coherent(l) && l.session.Some? && l.session.value.started && !l.session.value.stopping
    requires Waiting(l, l.session.value.hfp) == Some(waiting)
    ensures var s := l.session.value;
            var after := LeaseStep(l, ComesUp(s.address, s.hfp), f).lease;
            && after.log == l.log + [Notify(waiting, s.hfp, true)]
            && after.session == l.session && after.hfpListener.None? && after.a2dpListener.None?
  {
  }

  // Without a listener a transport that comes up changes nothing of a lease that is not
  // being stopped.
  lemma NobodyWaits(l: Lease, f: Facts)
    requires Coherent(l) && l.session.Some? && !l.session.value.stopping && Waiting(l, l.session.value.hfp).None?
    ensures LeaseStep(l, ComesUp(l.session.value.address, l.session.value.hfp), f).lease == l
  {
  }

  // A transport that comes up or goes down while a lease of another one exists changes
  // nothing; nor does a link that comes or goes.
  lemma OtherTransportsAreIgnored(l: Lease, e: Event, f: Facts)
    requires l.session.Some?
    requires match e
             case EMusicAudio(address, _) => l.session.value.hfp || l.session.value.address != address
             case EMusicGone(address) => l.session.value.hfp || l.session.value.address != address
             case EVoiceAudio(address, state) => !l.session.value.hfp || l.session.value.address != address || state in {ScoConnecting, ScoDisconnecting}
             case EVoiceGone(address) => !l.session.value.hfp || l.session.value.address != address
             case EMusicLink(_, _) => true
             case EVoiceLink(_, _) => true
             case EInitialized(_) => true
             case _ => false
    ensures LeaseStep(l, e, f).lease == l
  {
  }

  // Without a lease a waiting legacy listener of the profile is told what is reported.
  lemma LegacyListenerIsTold(l: Lease, f: Facts, address: Address, hfp: bool, up: bool)
    requires l.session.None?
    ensures var e := if up then ComesUp(address, hfp) else if hfp then EVoiceAudio(address, ScoDisconnected) else EMusicAudio(address, false);
            var gone := if hfp then EVoiceGone(address) else EMusicGone(address);
            var told := match Waiting(l, hfp)
                        case None => l
                        case Some(listener) =>
                          var logged := l.(log := l.log + [Notify(listener, hfp, up)]);
                          if hfp then logged.(hfpListener := None) else logged.(a2dpListener := None);
            LeaseStep(l, e, f).lease == told && (!up ==> LeaseStep(l, gone, f).lease == told)
  {
  }

  // ------------------------------------------------------------------ stops

  // The owner's stop, its disappearance or, before the start, the expiry: a lease that was
  // never started is gone, one that was is stopping, deaf, and asked to stop natively.
  lemma CancelledLease(l: Lease, e: Event, f: Facts)
    requires Coherent(l) && l.session.Some?
    requires var s := l.session.value;
             e == EStop(s.token, s.owner) || e == EOwnerGone(s.token) || (e == EExpire(s.token) && !s.started)
    ensures var s := l.session.value;
            var o := LeaseStep(l, e, f);
            && o.ok && o.lease.nextToken == l.nextToken
            && if !s.started then o.lease == l.(session := None)
               else o.lease == l.(session := Some(s.(stopping := true)), hfpListener := None, a2dpListener := None,
                                  log := l.log + [StopNative(s.address, s.hfp)])
  {
  }

  // A stop is refused exactly when it names the lease of another owner; an old token is
  // harmless. Neither changes anything.
  lemma StopIsAnswered(l: Lease, token: nat, owner: string, f: Facts)
    ensures var o, s := LeaseStep(l, EStop(token, owner), f), l.session;
            && (o.ok <==> s.None? || s.value.token != token || s.value.owner == owner)
            && (s.None? || s.value.token != token || s.value.owner != owner ==> o.lease == l)
  {
  }

  // A legacy stop touches nothing but the listener of its profile, and only without a lease.
  lemma LegacyStopIsConfined(l: Lease, hfp: bool, left: Option<Listener>, f: Facts)
    ensures var o := LeaseStep(l, ELegacyStop(hfp, left), f);
            && (o.ok <==> l.session.None?)
            && o.lease == if l.session.Some? then l else if hfp then l.(hfpListener := left) else l.(a2dpListener := left)
  {
  }

  // Everything else that a caller may ask while a lease exists is refused; a full cleanup of
  // the daemon itself forgets it.
  lemma CleanupForgets(l: Lease, f: Facts)
    ensures LeaseStep(l, EFullCleanup, f).lease == l.(session := None, hfpListener := None, a2dpListener := None)
    ensures LeaseStep(l, ECleanupCall, f).ok <==> l.session.None?
    ensures l.session.None? ==> LeaseStep(l, ECleanupCall, f).lease == l.(hfpListener := None, a2dpListener := None)
    ensures LeaseStep(l, ELegacyActive, f).ok <==> l.session.None?
  {
  }

  // Codec changes and legacy starts are accepted exactly without a lease, for a known device
  // or with no other request pending, when the native stack accepts them.
  lemma LegacyCallsAreAcceptedExactly(m: Media, address: Address, listener: Listener, native: bool)
    ensures Step(m, ESetConfig(address, native)).2 <==> m.lease.session.None? && address in m.native.a2dpStates && native
    ensures Step(m, ELegacyMusic(listener, native)).2 <==> m.lease.session.None? && m.lease.a2dpListener.None? && native
    ensures Step(m, ELegacyVoice(address, listener, native)).2 <==>
            && m.lease.session.None? && m.lease.hfpListener.None? && native
            && address in m.native.hfpStates && m.native.hfpStates[address] == SlcConnected
            && forall a :: a in m.native.hfpAudio ==> m.native.hfpAudio[a] == ScoDisconnected
    ensures Step(m, ESetConfig(address, native)).0 == m
    ensures Step(m, ELegacyMusic(listener, native)).0 ==
            if Step(m, ELegacyMusic(listener, native)).2 then m.(lease := m.lease.(a2dpListener := Some(listener))) else m
    ensures Step(m, ELegacyVoice(address, listener, native)).0 ==
            if Step(m, ELegacyVoice(address, listener, native)).2
            then m.(lease := m.lease.(hfpListener := Some(listener)), native := m.native.(hfpAudio := m.native.hfpAudio[address := ScoConnecting]))
            else m
  {
  }

  // ------------------------------------------------------------------ what the daemon knows

  function Lookup<T>(known: map<Address, T>, a: Address): Option<T> {
    if a in known then Some(known[a]) else None
  }

  // What the daemon knows of the voice transport of a device is what the last callback about
  // it said, or that an accepted start occupied it since.
  lemma VoiceIsKnown(m: Media, e: Event, a: Address)
    ensures Lookup(Step(m, e).0.native.hfpAudio, a) ==
            if e.EVoiceAudio? && e.address == a then Some(e.sco)
            else if e.EVoiceGone? && e.address == a then None
            else if e.EStart? && Step(m, e).2 && m.lease.session.value.hfp && m.lease.session.value.address == a then Some(ScoConnecting)
            else if e.ELegacyVoice? && Step(m, e).2 && e.address == a then Some(ScoConnecting)
            else Lookup(m.native.hfpAudio, a)
  {
  }

  // Likewise of its music stream.
  lemma MusicIsKnown(m: Media, e: Event, a: Address)
    ensures Lookup(Step(m, e).0.native.a2dpStarted, a) ==
            if e.EMusicAudio? && e.address == a then Some(e.up)
            else if e.EMusicGone? && e.address == a then None
            else Lookup(m.native.a2dpStarted, a)
  {
  }

  // And of its links.
  lemma LinksAreKnown(m: Media, e: Event, a: Address)
    ensures Lookup(Step(m, e).0.native.a2dpStates, a) ==
            if e.EMusicLink? && e.address == a then Some(e.music)
            else if e.EMusicGone? && e.address == a then None
            else Lookup(m.native.a2dpStates, a)
    ensures Lookup(Step(m, e).0.native.hfpStates, a) ==
            if e.EVoiceLink? && e.address == a then Some(e.voice)
            else if e.EVoiceGone? && e.address == a then None
            else Lookup(m.native.hfpStates, a)
    ensures Step(m, e).0.native.initialized == if e.EInitialized? then e.up else m.native.initialized
  {
  }

  // Over a run: a device of which the last callback said that its voice transport is down,
  // with no start since, is down.
  lemma {:induction false} VoiceStaysDown(m: Media, events: seq<Event>, i: nat, j: nat, a: Address)
    requires i <= j <= |events| && Lookup(After(m, events, i).native.hfpAudio, a) == Some(ScoDisconnected)
    requires forall k :: i <= k < j ==>
               && !(events[k].EVoiceAudio? && events[k].address == a) && !(events[k].EVoiceGone? && events[k].address == a)
               && !((events[k].EStart? || events[k].ELegacyVoice?) && VerdictAt(m, events, k))
    ensures Lookup(After(m, events, j).native.hfpAudio, a) == Some(ScoDisconnected)
    decreases j
  {
    if i < j {
      VoiceStaysDown(m, events, i, j - 1, a);
      VoiceIsKnown(After(m, events, j - 1), events[j - 1], a);
    }
  }
}
