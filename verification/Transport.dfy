// The HCI transport: three reassemblers and one tracked synchronous link
// (floss-usb/src/transport.rs). The events are sections 7.7.3, 7.7.5 and 7.7.35 of the
// Bluetooth Core Specification, Vol 4 Part E; Reset is section 7.3.2.
module TransportSpec {
  import opened Wrappers
  import opened Hci

  datatype Action = Host(packet: Packet) | Usb(packet: Packet) | Sco(mode: Byte)
  datatype Link = Link(handle: nat, mode: Byte)
  datatype State = State(event: Packet, acl: Packet, sco: Packet, link: Option<Link>, rx: nat, tx: nat)
  datatype Out = Out(state: State, result: Result<seq<Action>, Error>)

  const INITIAL := State([], [], [], None, 0, 0)

  function LinkHandle(link: Option<Link>): Option<nat> {
    match link case None => None case Some(l) => Some(l.handle)
  }

  function LinkMode(link: Option<Link>): Byte {
    match link case None => 0 case Some(l) => l.mode
  }

  // A successful (e)SCO connection announced by an event packet.
  function Connection(packet: Packet): Option<Link>
    requires |packet| >= 3
  {
    var p := packet[3..];
    if packet[1] == 0x2c && |p| == 17 && p[0] == 0 && (p[9] == 0 || p[9] == 2) then
      Some(Link(Handle(p[1..]), p[16]))
    else if packet[1] == 0x03 && |p| == 11 && p[0] == 0 && p[9] == 0 then
      Some(Link(Handle(p[1..]), 2))
    else None
  }

  // The handle a successful Disconnection Complete event is about.
  function Disconnection(packet: Packet): Option<nat>
    requires |packet| >= 3
  {
    var p := packet[3..];
    if packet[1] == 0x05 && |p| == 4 && p[0] == 0 then Some(Handle(p[1..])) else None
  }

  function Acceptable(l: Link): bool {
    l.handle <= 0x0eff && (l.mode == 2 || l.mode == 3)
  }

  // Link tracking for one event; `Ok` carries what precedes the event towards the host.
  function Track(s: State, packet: Packet): Out
    requires |packet| >= 3
  {
    match Connection(packet)
    case Some(l) =>
      if !Acceptable(l) then Out(s, Err(BadConnection))
      else if s.link.Some? && s.link.value != l then Out(s, Err(SecondConnection))
      else if s.link.None? then
        Out(s.(link := Some(l), sco := [], rx := 0, tx := 0), Ok([Sco(l.mode)]))
      else Out(s, Ok([]))
    case None =>
      if Disconnection(packet).Some? && LinkHandle(s.link) == Disconnection(packet) then
        Out(s.(link := None, sco := []), Ok([Sco(0)]))
      else Out(s, Ok([]))
  }

  // One reassembled packet, with its kind byte in front.
  function Deliver(s: State, kind: Byte, packet: Packet): Out
    requires Framed(kind) && |packet| >= HeaderSize(kind) + 1
  {
    if kind == 4 then
      var t := Track(s, packet);
      if t.result.Err? then t else Out(t.state, Ok(t.result.value + [Host(packet)]))
    else if kind == 3 then
      if LinkHandle(s.link) != Some(Handle(packet[1..])) then Out(s, Ok([]))
      else Out(s.(rx := s.rx + |packet| - 4), Ok([Host(packet)]))
    else Out(s, Ok([Host(packet)]))
  }

  function Then(actions: seq<Action>, o: Out): Out {
    match o.result
    case Ok(later) => o.(result := Ok(actions + later))
    case Err(_) => o
  }

  predicate Headed(kind: Byte, frames: seq<Packet>)
    requires Framed(kind)
  {
    forall i :: 0 <= i < |frames| ==> |frames[i]| >= HeaderSize(kind) + 1
  }

  function DeliverAll(s: State, kind: Byte, frames: seq<Packet>): Out
    requires Framed(kind) && Headed(kind, frames)
    decreases |frames|
  {
    if frames == [] then Out(s, Ok([]))
    else
      var first := Deliver(s, kind, frames[0]);
      if first.result.Err? then first
      else Then(first.result.value, DeliverAll(first.state, kind, frames[1..]))
  }

  function Buffer(s: State, kind: Byte): Packet
    requires Framed(kind)
  {
    if kind == 2 then s.acl else if kind == 3 then s.sco else s.event
  }

  function WithBuffer(s: State, kind: Byte, buf: Packet): State
    requires Framed(kind)
  {
    if kind == 2 then s.(acl := buf) else if kind == 3 then s.(sco := buf) else s.(event := buf)
  }

  function Filter(s: State, kind: Byte): Option<nat> {
    if kind == 3 then LinkHandle(s.link) else None
  }

  // What every method keeps: partial frames are bounded, and a synchronous fragment with a
  // complete header belongs to the current link.
  predicate Inv(s: State) {
    && Unfinished(2, None, s.acl)
    && Unfinished(4, None, s.event)
    && Unfinished(3, LinkHandle(s.link), s.sco)
    && (s.link.None? ==> s.sco == [])
    && (s.link.Some? ==> Acceptable(s.link.value))
  }

  lemma FramesAreHeaded(s: State, kind: Byte, bytes: Packet)
    requires Framed(kind) && Inv(s)
    ensures Headed(kind, Tag(kind, Feed(kind, Buffer(s, kind), bytes, Filter(s, kind)).frames))
  {
    FeedConserves(kind, Buffer(s, kind), bytes, Filter(s, kind));
  }

  // Bytes received from USB.
  function UsbStep(s: State, kind: Byte, bytes: Packet): Out
    requires Inv(s)
  {
    if kind == 3 && s.link.None? then Out(s.(sco := []), Ok([]))
    else if !Framed(kind) then Out(s, Err(UnsupportedType))
    else
      var parsed := Feed(kind, Buffer(s, kind), bytes, Filter(s, kind));
      var fed := WithBuffer(s, kind, parsed.rest);
      if parsed.ending == Failed then Out(fed, Err(Oversized))
      else
        FramesAreHeaded(s, kind, bytes);
        DeliverAll(fed, kind, Tag(kind, parsed.frames))
  }

  // Length of a host packet's header, without its kind byte.
  function HostHeader(kind: Byte): nat {
    if kind == 2 then 4 else 3
  }

  function HostPayload(packet: Packet): nat
    requires packet != [] && |packet| > HostHeader(packet[0])
  {
    if packet[0] == 2 then Word(packet[3], packet[4]) else packet[3]
  }

  predicate IsReset(packet: Packet) {
    packet == [1, 3, 12, 0]
  }

  // One packet written by the host.
  function HostStep(s: State, packet: Packet): Out {
    if packet == [] then Out(s, Err(EmptyPacket))
    else if !(1 <= packet[0] <= 3) then Out(s, Err(UnsupportedType))
    else if |packet| < HostHeader(packet[0]) + 1 then Out(s, Err(ShortHeader))
    else if |packet| != 1 + HostHeader(packet[0]) + HostPayload(packet) || |packet| > MAX_FRAME + 1 then
      Out(s, Err(BadLength))
    else if IsReset(packet) then
      Out(s.(link := None, sco := [], acl := []), Ok([Sco(0), Usb(packet)]))
    else if packet[0] == 3 then
      if LinkHandle(s.link) != Some(Handle(packet[1..])) then Out(s, Ok([]))
      else Out(s.(tx := s.tx + HostPayload(packet)), Ok([Usb(packet)]))
    else Out(s, Ok([Usb(packet)]))
  }

  lemma HostActions(s: State, packet: Packet)
    requires Inv(s)
    ensures Step(s, FromHost(packet)).result.Ok? ==> |Step(s, FromHost(packet)).result.value| <= 2
  {
  }

  // ------------------------------------------------------------------ traces

  // The endpoint mode the emitted actions leave in force.
  function LastSco(trace: seq<Action>): Byte {
    if trace == [] then 0
    else
      match trace[|trace| - 1]
      case Sco(mode) => mode
      case _ => LastSco(trace[..|trace| - 1])
  }

  // Synchronous payload bytes forwarded to the host since the link was last established.
  function Received(trace: seq<Action>): int {
    if trace == [] then 0 else ReceivedNext(Received(trace[..|trace| - 1]), trace[|trace| - 1])
  }

  // Likewise towards the controller.
  function Transmitted(trace: seq<Action>): int {
    if trace == [] then 0 else TransmittedNext(Transmitted(trace[..|trace| - 1]), trace[|trace| - 1])
  }

  // What may follow a given trace: synchronous data only while an endpoint is configured,
  // and a connection event only after its own mode was configured.
  predicate Admissible(before: seq<Action>, a: Action) {
    match a
    case Sco(mode) => mode == 0 || mode == 2 || mode == 3
    case Usb(p) => 1 < |p| <= MAX_FRAME + 1 && 1 <= p[0] <= 3 && (p[0] == 3 ==> LastSco(before) != 0)
    case Host(p) =>
      && |p| >= 3
      && (p[0] == 3 ==> LastSco(before) != 0)
      && (p[0] == 4 && Connection(p).Some? ==> LastSco(before) == Connection(p).value.mode)
  }

  predicate Ordered(trace: seq<Action>) {
    trace == [] ||
    (Ordered(trace[..|trace| - 1]) && Admissible(trace[..|trace| - 1], trace[|trace| - 1]))
  }

  ghost predicate Faithful(s: State, trace: seq<Action>) {
    && (s.link.Some? ==> Acceptable(s.link.value))
    && Ordered(trace)
    && LastSco(trace) == LinkMode(s.link)
    && s.rx == Received(trace)
    && s.tx == Transmitted(trace)
  }

  lemma {:induction false} OrderedEverywhere(trace: seq<Action>, i: nat)
    requires Ordered(trace) && i < |trace|
    ensures Admissible(trace[..i], trace[i])
    decreases |trace|
  {
    if i < |trace| - 1 {
      var init := trace[..|trace| - 1];
      assert init[..i] == trace[..i];
      OrderedEverywhere(init, i);
    }
  }

  function ReceivedNext(before: int, a: Action): int {
    match a
    case Sco(mode) => if mode == 0 then before else 0
    case Host(p) => if p != [] && p[0] == 3 then before + |p| - 4 else before
    case Usb(_) => before
  }

  function TransmittedNext(before: int, a: Action): int {
    match a
    case Sco(mode) => if mode == 0 then before else 0
    case Usb(p) => if p != [] && p[0] == 3 then before + |p| - 4 else before
    case Host(_) => before
  }

  lemma Extend(trace: seq<Action>, a: Action)
    ensures LastSco(trace + [a]) == match a case Sco(m) => m case _ => LastSco(trace)
    ensures Received(trace + [a]) == ReceivedNext(Received(trace), a)
    ensures Transmitted(trace + [a]) == TransmittedNext(Transmitted(trace), a)
    ensures Ordered(trace + [a]) <==> Ordered(trace) && Admissible(trace, a)
  {
    var t := trace + [a];
    assert t[..|t| - 1] == trace && t[|t| - 1] == a;
  }

  lemma TrackKeeps(s: State, trace: seq<Action>, packet: Packet)
    requires Faithful(s, trace) && |packet| >= 3 && packet[0] == 4
    ensures var o := Track(s, packet);
            o.result.Ok? ==>
              && Faithful(o.state, trace + o.result.value)
              && Admissible(trace + o.result.value, Host(packet))
  {
    var o := Track(s, packet);
    if o.result.Ok? {
      if o.result.value == [] {
        assert trace + o.result.value == trace;
      } else {
        Extend(trace, o.result.value[0]);
        assert o.result.value == [o.result.value[0]];
      }
    }
  }

  lemma DeliverKeeps(s: State, trace: seq<Action>, kind: Byte, packet: Packet)
    requires Faithful(s, trace) && Framed(kind) && |packet| >= HeaderSize(kind) + 1
    requires packet[0] == kind
    ensures var o := Deliver(s, kind, packet);
            o.result.Ok? ==> Faithful(o.state, trace + o.result.value)
  {
    var o := Deliver(s, kind, packet);
    if o.result.Ok? {
      if kind == 4 {
        TrackKeeps(s, trace, packet);
        var t := Track(s, packet).result.value;
        Extend(trace + t, Host(packet));
        assert trace + (t + [Host(packet)]) == (trace + t) + [Host(packet)];
      } else if o.result.value == [] {
        assert trace + o.result.value == trace;
      } else {
        Extend(trace, Host(packet));
      }
    }
  }

  // What is emitted after a trace keeps it faithful, unless it ends in an error.
  ghost predicate FaithfulAfter(trace: seq<Action>, o: Out) {
    o.result.Ok? ==> Faithful(o.state, trace + o.result.value)
  }

  lemma FaithfulThen(trace: seq<Action>, a: seq<Action>, o: Out)
    requires FaithfulAfter(trace + a, o)
    ensures FaithfulAfter(trace, Then(a, o))
  {
    if o.result.Ok? {
      assert (trace + a) + o.result.value == trace + (a + o.result.value);
    }
  }

  lemma {:induction false} DeliverAllKeeps(s: State, trace: seq<Action>, kind: Byte, frames: seq<Packet>)
    requires Faithful(s, trace) && Framed(kind) && Headed(kind, frames)
    requires forall i :: 0 <= i < |frames| ==> frames[i][0] == kind
    ensures FaithfulAfter(trace, DeliverAll(s, kind, frames))
    decreases |frames|
  {
    if frames == [] {
      assert trace + [] == trace;
    } else {
      DeliverKeeps(s, trace, kind, frames[0]);
      var first := Deliver(s, kind, frames[0]);
      if first.result.Ok? {
        DeliverAllKeeps(first.state, trace + first.result.value, kind, frames[1..]);
        FaithfulThen(trace, first.result.value, DeliverAll(first.state, kind, frames[1..]));
      }
    }
  }

  lemma UsbKeeps(s: State, trace: seq<Action>, kind: Byte, bytes: Packet)
    requires Inv(s) && Faithful(s, trace)
    ensures var o := UsbStep(s, kind, bytes);
            o.result.Ok? ==> Faithful(o.state, trace + o.result.value)
  {
    if kind == 3 && s.link.None? {
      assert trace + [] == trace;
    } else if Framed(kind) {
      FeedConserves(kind, Buffer(s, kind), bytes, Filter(s, kind));
      var parsed := Feed(kind, Buffer(s, kind), bytes, Filter(s, kind));
      if parsed.ending != Failed {
        DeliverAllKeeps(WithBuffer(s, kind, parsed.rest), trace, kind, Tag(kind, parsed.frames));
      }
    }
  }

  lemma HostKeeps(s: State, trace: seq<Action>, packet: Packet)
    requires Faithful(s, trace)
    ensures var o := HostStep(s, packet);
            o.result.Ok? ==> Faithful(o.state, trace + o.result.value)
  {
    var o := HostStep(s, packet);
    if o.result.Ok? {
      if IsReset(packet) {
        ResetKeeps(s, trace);
      } else if o.result.value == [] {
        assert trace + o.result.value == trace;
      } else {
        Extend(trace, Usb(packet));
      }
    }
  }

  lemma ResetKeeps(s: State, trace: seq<Action>)
    requires Faithful(s, trace)
    ensures Faithful(s.(link := None, sco := [], acl := []), trace + [Sco(0), Usb([1, 3, 12, 0])])
  {
    Extend(trace, Sco(0));
    Extend(trace + [Sco(0)], Usb([1, 3, 12, 0]));
    assert trace + [Sco(0), Usb([1, 3, 12, 0])] == (trace + [Sco(0)]) + [Usb([1, 3, 12, 0])];
  }

  // ------------------------------------------------------------------ whole runs

  datatype Input = FromUsb(kind: Byte, bytes: Packet) | FromHost(packet: Packet)

  function Step(s: State, input: Input): Out
    requires Inv(s)
  {
    match input
    case FromUsb(kind, bytes) => UsbStep(s, kind, bytes)
    case FromHost(packet) => HostStep(s, packet)
  }

  lemma StepKeeps(s: State, trace: seq<Action>, input: Input)
    requires Inv(s) && Faithful(s, trace)
    ensures var o := Step(s, input);
            o.result.Ok? ==> Faithful(o.state, trace + o.result.value)
  {
    match input
    case FromUsb(kind, bytes) => UsbKeeps(s, trace, kind, bytes);
    case FromHost(packet) => HostKeeps(s, trace, packet);
  }

  // A run from power-up: the actions emitted so far, or the error that ended it.
  function Run(inputs: seq<Input>): (o: Out)
    ensures Inv(o.state)
    decreases |inputs|
  {
    if inputs == [] then Out(INITIAL, Ok([]))
    else
      var before := Run(inputs[..|inputs| - 1]);
      if before.result.Err? then before
      else
        var o := Step(before.state, inputs[|inputs| - 1]);
        StepKeepsInv(before.state, inputs[|inputs| - 1]);
        Then(before.result.value, o)
  }

  lemma RunNext(inputs: seq<Input>, input: Input)
    ensures var before := Run(inputs);
            Run(inputs + [input]) ==
            if before.result.Err? then before else Then(before.result.value, Step(before.state, input))
  {
    assert (inputs + [input])[..|inputs|] == inputs;
  }

  // In every error-free run the last configured mode is the tracked link's, synchronous
  // data and connection events only follow the matching configuration, the counters are
  // the payload forwarded since the link came up, and partial frames belong to that link.
  lemma {:induction false} RunsAreFaithful(inputs: seq<Input>)
    requires Run(inputs).result.Ok?
    ensures Inv(Run(inputs).state) && Faithful(Run(inputs).state, Run(inputs).result.value)
    decreases |inputs|
  {
    if inputs != [] {
      RunsAreFaithful(inputs[..|inputs| - 1]);
      var before := Run(inputs[..|inputs| - 1]);
      StepKeeps(before.state, before.result.value, inputs[|inputs| - 1]);
    }
  }

  function Hosts(packets: seq<Packet>): (r: seq<Action>)
    ensures |r| == |packets|
    ensures forall i :: 0 <= i < |r| ==> r[i] == Host(packets[i])
  {
    if packets == [] then [] else [Host(packets[0])] + Hosts(packets[1..])
  }

  function PayloadOf(frames: seq<Packet>): int {
    if frames == [] then 0 else |frames[0]| - 3 + PayloadOf(frames[1..])
  }

  // Every reassembled synchronous frame carries the current handle and reaches the host:
  // the second handle check never drops one.
  lemma ScoFramesAllForwarded(s: State, bytes: Packet)
    requires Inv(s) && s.link.Some?
    ensures var frames := Feed(3, s.sco, bytes, LinkHandle(s.link)).frames;
            var o := UsbStep(s, 3, bytes);
            && (forall i :: 0 <= i < |frames| ==> |frames[i]| >= 3 && Handle(frames[i]) == s.link.value.handle)
            && o.result == Ok(Hosts(Tag(3, frames)))
            && o.state.rx == s.rx + PayloadOf(frames)
            && o.state.link == s.link
  {
    FeedConserves(3, s.sco, bytes, LinkHandle(s.link));
    var parsed := Feed(3, s.sco, bytes, LinkHandle(s.link));
    ForwardAll(s.(sco := parsed.rest), parsed.frames);
  }

  lemma {:induction false} ForwardAll(s: State, frames: seq<Packet>)
    requires s.link.Some? && Headed(3, Tag(3, frames))
    requires forall i :: 0 <= i < |frames| ==> WholePacket(3, LinkHandle(s.link), frames[i])
    ensures var o := DeliverAll(s, 3, Tag(3, frames));
            && o.result == Ok(Hosts(Tag(3, frames)))
            && PayloadOf(frames) >= 0
            && o.state == s.(rx := s.rx + PayloadOf(frames))
    decreases |frames|
  {
    if frames != [] {
      assert Tag(3, frames)[0] == [3] + frames[0] && Tag(3, frames)[1..] == Tag(3, frames[1..]);
      ForwardOne(s, frames[0]);
      ForwardAll(s.(rx := s.rx + |frames[0]| - 3), frames[1..]);
    }
  }

  lemma ForwardOne(s: State, frame: Packet)
    requires s.link.Some? && WholePacket(3, LinkHandle(s.link), frame)
    ensures Deliver(s, 3, [3] + frame) == Out(s.(rx := s.rx + |frame| - 3), Ok([Host([3] + frame)]))
  {
    assert ([3] + frame)[1..] == frame;
  }

  lemma ThenAssociative(a: seq<Action>, b: seq<Action>, o: Out)
    ensures Then(a, Then(b, o)) == Then(a + b, o)
  {
    if o.result.Ok? {
      assert a + (b + o.result.value) == (a + b) + o.result.value;
    }
  }

  lemma ThenNothing(o: Out)
    ensures Then([], o) == o
  {
    if o.result.Ok? {
      assert [] + o.result.value == o.result.value;
    }
  }

  // Delivery from packet i on, after some actions.
  lemma DeliverNext(s: State, kind: Byte, frames: seq<Packet>, i: nat, actions: seq<Action>)
    requires Framed(kind) && Headed(kind, frames) && i < |frames|
    ensures var first := Deliver(s, kind, frames[i]);
            Then(actions, DeliverAll(s, kind, frames[i..])) ==
            if first.result.Err? then first
            else Then(actions + first.result.value, DeliverAll(first.state, kind, frames[i + 1..]))
  {
    assert frames[i..][0] == frames[i] && frames[i..][1..] == frames[i + 1..];
    var first := Deliver(s, kind, frames[i]);
    if first.result.Ok? {
      ThenAssociative(actions, first.result.value, DeliverAll(first.state, kind, frames[i + 1..]));
    }
  }

  lemma {:induction false} DeliverAppend(s: State, kind: Byte, a: seq<Packet>, b: seq<Packet>)
    requires Framed(kind) && Headed(kind, a) && Headed(kind, b)
    ensures Headed(kind, a + b)
    ensures var oa := DeliverAll(s, kind, a);
            DeliverAll(s, kind, a + b) ==
            if oa.result.Err? then oa else Then(oa.result.value, DeliverAll(oa.state, kind, b))
    decreases |a|
  {
    if a == [] {
      assert a + b == b;
      var ob := DeliverAll(s, kind, b);
      assert ob.result.Ok? ==> [] + ob.result.value == ob.result.value;
    } else {
      assert (a + b)[0] == a[0] && (a + b)[1..] == a[1..] + b;
      var first := Deliver(s, kind, a[0]);
      if first.result.Ok? {
        DeliverAppend(first.state, kind, a[1..], b);
        var oa := DeliverAll(first.state, kind, a[1..]);
        if oa.result.Ok? {
          ThenAssociative(first.result.value, oa.result.value, DeliverAll(oa.state, kind, b));
        }
      }
    }
  }

  // Delivering events or ACL data does not look at the buffer of its own kind.
  lemma {:induction false} DeliverIgnoresBuffer(s: State, kind: Byte, frames: seq<Packet>, buf: Packet)
    requires (kind == 2 || kind == 4) && Headed(kind, frames)
    ensures var o := DeliverAll(s, kind, frames);
            && DeliverAll(WithBuffer(s, kind, buf), kind, frames) == o.(state := WithBuffer(o.state, kind, buf))
            && Buffer(o.state, kind) == Buffer(s, kind)
    decreases |frames|
  {
    if frames != [] {
      var first := Deliver(s, kind, frames[0]);
      if first.result.Ok? {
        DeliverIgnoresBuffer(first.state, kind, frames[1..], buf);
      }
    }
  }

  lemma TagAppend(kind: Byte, a: seq<Packet>, b: seq<Packet>)
    ensures Tag(kind, a + b) == Tag(kind, a) + Tag(kind, b)
  {
  }

  // Delivery of the frames of two fragments, with the buffers that parsing leaves.
  lemma DeliverTwice(s: State, kind: Byte, fa: seq<Packet>, fb: seq<Packet>, ra: Packet, rb: Packet)
    requires (kind == 2 || kind == 4) && Headed(kind, fa) && Headed(kind, fb)
    ensures Headed(kind, fa + fb)
    ensures var oa := DeliverAll(WithBuffer(s, kind, ra), kind, fa);
            var whole := DeliverAll(WithBuffer(s, kind, rb), kind, fa + fb);
            && Buffer(oa.state, kind) == ra
            && if oa.result.Err? then whole.result == oa.result
               else whole == Then(oa.result.value, DeliverAll(WithBuffer(oa.state, kind, rb), kind, fb))
  {
    var fed := WithBuffer(s, kind, ra);
    assert WithBuffer(fed, kind, rb) == WithBuffer(s, kind, rb);
    DeliverIgnoresBuffer(fed, kind, fa, rb);
    DeliverAppend(WithBuffer(s, kind, rb), kind, fa, fb);
  }

  // For arbitrary ACL and event bytes, fragment boundaries are invisible: two fragments
  // behave as their concatenation, which fails exactly when one of them does, with the same
  // error.
  lemma FragmentsAreInvisible(s: State, kind: Byte, a: Packet, b: Packet)
    requires Inv(s) && (kind == 2 || kind == 4)
    ensures var oa := UsbStep(s, kind, a);
            && Inv(oa.state)
            && var ob := UsbStep(oa.state, kind, b);
               var whole := UsbStep(s, kind, a + b);
               if oa.result.Err? then whole.result == oa.result
               else if ob.result.Err? then whole.result == ob.result
               else whole == Then(oa.result.value, ob)
  {
    var buf := Buffer(s, kind);
    UsbKeepsInv(s, kind, a);
    FeedConserves(kind, buf, a, None);
    FeedAppend(kind, buf, a, b, None);
    var pa := Feed(kind, buf, a, None);
    if pa.ending == Consumed {
      FeedConserves(kind, pa.rest, b, None);
      var pb := Feed(kind, pa.rest, b, None);
      TagAppend(kind, pa.frames, pb.frames);
      DeliverTwice(s, kind, Tag(kind, pa.frames), Tag(kind, pb.frames), pa.rest, pb.rest);
      if kind == 2 {
        AclNeverFails(WithBuffer(s, kind, pa.rest), Tag(kind, pa.frames));
      }
    }
  }

  // Delivering ACL packets cannot fail.
  lemma {:induction false} AclNeverFails(s: State, frames: seq<Packet>)
    requires Headed(2, frames)
    ensures DeliverAll(s, 2, frames).result.Ok?
    decreases |frames|
  {
    if frames != [] {
      AclNeverFails(Deliver(s, 2, frames[0]).state, frames[1..]);
    }
  }

  lemma {:induction false} DeliverAllKeepsInv(s: State, kind: Byte, frames: seq<Packet>)
    requires Inv(s) && Framed(kind) && Headed(kind, frames)
    ensures Inv(DeliverAll(s, kind, frames).state)
    decreases |frames|
  {
    if frames != [] {
      var first := Deliver(s, kind, frames[0]);
      if first.result.Ok? {
        DeliverAllKeepsInv(first.state, kind, frames[1..]);
      }
    }
  }

  // The invariant survives failures too.
  lemma UsbKeepsInv(s: State, kind: Byte, bytes: Packet)
    requires Inv(s)
    ensures Inv(UsbStep(s, kind, bytes).state)
  {
    if Framed(kind) && (kind != 3 || s.link.Some?) {
      FeedConserves(kind, Buffer(s, kind), bytes, Filter(s, kind));
      var parsed := Feed(kind, Buffer(s, kind), bytes, Filter(s, kind));
      if parsed.ending != Failed {
        DeliverAllKeepsInv(WithBuffer(s, kind, parsed.rest), kind, Tag(kind, parsed.frames));
      }
    }
  }

  lemma HostKeepsInv(s: State, packet: Packet)
    requires Inv(s)
    ensures Inv(HostStep(s, packet).state)
  {
  }

  lemma StepKeepsInv(s: State, input: Input)
    requires Inv(s)
    ensures Inv(Step(s, input).state)
  {
    match input
    case FromUsb(kind, bytes) => UsbKeepsInv(s, kind, bytes);
    case FromHost(packet) => HostKeepsInv(s, packet);
  }
}

// The objects of transport.rs, each method proved against its step function.
module Transport {
  import opened Wrappers
  import opened Hci
  import opened TransportSpec

  class Framer {
    var bytes: Packet

    constructor ()
      ensures bytes == []
    {
      bytes := [];
    }

    // Reassemble one USB fragment. A foreign synchronous header discards the rest of it.
    method Push(kind: Byte, input: Packet, sco: Option<nat>) returns (r: Result<seq<Packet>, Error>)
      modifies this
      ensures !Framed(kind) ==>
                if input == [] then r == Ok([]) && bytes == old(bytes)
                else r == Err(UnsupportedType) && bytes == old(bytes) + [input[0]]
      ensures Framed(kind) ==>
                var p := Feed(kind, old(bytes), input, sco);
                bytes == p.rest && r == if p.ending == Failed then Err(Oversized) else Ok(Tag(kind, p.frames))
    {
      var frames: seq<Packet> := [];
      var i := 0;
      ghost var whole := if Framed(kind) then Feed(kind, bytes, input, sco) else Parse([], [], Consumed);
      while i < |input|
        invariant 0 <= i <= |input|
        invariant !Framed(kind) ==> i == 0 && bytes == old(bytes) && frames == []
        invariant Framed(kind) ==>
                    var p := Feed(kind, bytes, input[i..], sco);
                    whole == p.(frames := frames + p.frames)
      {
        assert input[i..][1..] == input[i + 1..];
        bytes := bytes + [input[i]];
        if !Framed(kind) {
          return Err(UnsupportedType);
        }
        var header := HeaderSize(kind);
        if |bytes| >= header {
          if kind == 3 && |bytes| == header && sco != Some(Handle(bytes)) {
            bytes := [];
            assert whole.frames == frames + [] == frames;
            return Ok(Tag(kind, frames));
          }
          var total := Declared(kind, bytes);
          if total > MAX_FRAME {
            bytes := [];
            return Err(Oversized);
          }
          if |bytes| == total {
            ghost var later := Feed(kind, [], input[i + 1..], sco);
            assert frames + ([bytes] + later.frames) == (frames + [bytes]) + later.frames;
            frames := frames + [bytes];
            bytes := [];
          }
        }
        i := i + 1;
      }
      assert frames + [] == frames;
      return Ok(Tag(kind, frames));
    }
  }

  class Transport {
    const event: Framer
    const acl: Framer
    const sco: Framer
    var link: Option<Link>
    var rx: nat
    var tx: nat

    ghost function View(): State
      reads this, event, acl, sco
    {
      State(event.bytes, acl.bytes, sco.bytes, link, rx, tx)
    }

    predicate Apart() {
      event != acl && event != sco && acl != sco
    }

    ghost predicate Valid()
      reads this, event, acl, sco
    {
      Apart() && Inv(View())
    }

    constructor ()
      ensures Valid() && View() == INITIAL
      ensures fresh(event) && fresh(acl) && fresh(sco)
    {
      event := new Framer();
      acl := new Framer();
      sco := new Framer();
      link, rx, tx := None, 0, 0;
    }

    // Link tracking for one event (the body of the loop in `usb`).
    method TrackEvent(packet: Packet) returns (r: Result<seq<Action>, Error>)
      requires Apart() && |packet| >= 3
      modifies this, sco
      ensures Out(View(), r) == Track(old(View()), packet)
    {
      var actions: seq<Action> := [];
      var connection := Connection(packet);
      if connection.Some? {
        var l := connection.value;
        if l.handle > 0x0eff || (l.mode != 2 && l.mode != 3) {
          return Err(BadConnection);
        }
        if link.Some? && link != Some(l) {
          return Err(SecondConnection);
        }
        if link.None? {
          link := Some(l);
          sco.bytes := [];
          rx, tx := 0, 0;
          actions := [Sco(l.mode)];
        }
      }
      var gone := Disconnection(packet);
      if gone.Some? && link.Some? && link.value.handle == gone.value {
        link := None;
        sco.bytes := [];
        actions := [Sco(0)];
      }
      return Ok(actions);
    }

    method FromUsb(kind: Byte, bytes: Packet) returns (r: Result<seq<Action>, Error>)
      requires Valid()
      modifies this, event, acl, sco
      ensures Valid()
      ensures Out(View(), r) == UsbStep(old(View()), kind, bytes)
    {
      ghost var start := View();
      UsbKeepsInv(start, kind, bytes);
      if kind == 3 && link.None? {
        sco.bytes := [];
        return Ok([]);
      }
      if !Framed(kind) {
        return Err(UnsupportedType);
      }
      FramesAreHeaded(start, kind, bytes);
      FeedConserves(kind, Buffer(start, kind), bytes, Filter(start, kind));
      var pushed;
      if kind == 2 {
        pushed := acl.Push(kind, bytes, None);
      } else if kind == 3 {
        pushed := sco.Push(kind, bytes, LinkHandle(link));
      } else {
        pushed := event.Push(kind, bytes, None);
      }
      if pushed.Err? {
        return Err(pushed.error);
      }
      var frames := pushed.value;
      r := DeliverFrames(kind, frames);
    }

    // One reassembled packet (the rest of the body of the loop in `usb`).
    method DeliverFrame(kind: Byte, packet: Packet) returns (r: Result<seq<Action>, Error>)
      requires Apart() && Framed(kind) && |packet| >= HeaderSize(kind) + 1
      modifies this, sco
      ensures Out(View(), r) == Deliver(old(View()), kind, packet)
    {
      if kind == 4 {
        r := TrackEvent(packet);
        if r.Ok? {
          r := Ok(r.value + [Host(packet)]);
        }
        return;
      }
      if kind == 3 {
        if LinkHandle(link) != Some(Handle(packet[1..])) {
          return Ok([]);
        }
        rx := rx + (|packet| - 4);
      }
      return Ok([Host(packet)]);
    }

    method DeliverFrames(kind: Byte, frames: seq<Packet>) returns (r: Result<seq<Action>, Error>)
      requires Apart() && Framed(kind) && Headed(kind, frames)
      modifies this, sco
      ensures Out(View(), r) == DeliverAll(old(View()), kind, frames)
    {
      ghost var whole := DeliverAll(View(), kind, frames);
      var actions: seq<Action> := [];
      var i := 0;
      assert frames[0..] == frames;
      ThenNothing(whole);
      while i < |frames|
        invariant 0 <= i <= |frames|
        invariant whole == Then(actions, DeliverAll(View(), kind, frames[i..]))
      {
        DeliverNext(View(), kind, frames, i, actions);
        var one := DeliverFrame(kind, frames[i]);
        if one.Err? {
          return Err(one.error);
        }
        actions := actions + one.value;
        i := i + 1;
      }
      assert actions + [] == actions;
      return Ok(actions);
    }

    method FromHost(packet: Packet) returns (r: Result<seq<Action>, Error>)
      requires Valid()
      modifies this, acl, sco
      ensures Valid()
      ensures Out(View(), r) == HostStep(old(View()), packet)
    {
      HostKeepsInv(View(), packet);
      if packet == [] {
        return Err(EmptyPacket);
      }
      var kind := packet[0];
      if kind != 1 && kind != 2 && kind != 3 {
        return Err(UnsupportedType);
      }
      var header := HostHeader(kind);
      if |packet| < header + 1 {
        return Err(ShortHeader);
      }
      var payload := HostPayload(packet);
      if |packet| != 1 + header + payload || |packet| > MAX_FRAME + 1 {
        return Err(BadLength);
      }
      var actions: seq<Action> := [];
      assert packet[1..3] == [packet[1], packet[2]];
      if kind == 1 && packet[1..3] == [3, 12] && payload == 0 {
        assert packet == [1, 3, 12, 0];
        link := None;
        sco.bytes := [];
        acl.bytes := [];
        actions := [Sco(0)];
      }
      if kind == 3 {
        if LinkHandle(link) != Some(Handle(packet[1..])) {
          return Ok(actions);
        }
        tx := tx + payload;
      }
      assert actions == [] ==> actions + [Usb(packet)] == [Usb(packet)];
      assert [Sco(0)] + [Usb(packet)] == [Sco(0), Usb(packet)];
      return Ok(actions + [Usb(packet)]);
    }

    method Take(input: Input) returns (r: Result<seq<Action>, Error>)
      requires Valid()
      modifies this, event, acl, sco
      ensures Valid()
      ensures Out(View(), r) == Step(old(View()), input)
    {
      match input {
        case FromUsb(kind, bytes) => r := FromUsb(kind, bytes);
        case FromHost(packet) => r := FromHost(packet);
      }
    }
  }
}
